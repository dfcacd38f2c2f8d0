/** Where the receive buffers of the RGMII MAC are (rgmii_buffering.xc): the free stack, the
    two used rings, the low-level drivers and their buffer managers, the server, and the
    queues of the clients, which share a buffer by a count. Every locked access and every
    loop of the server is one step, in any order. */
module RgmiiRx {
  import opened Wrappers
  import opened RgmiiBuffers
  import opened RxClients

  const N := COUNT_RX
  const QUEUE := 16

  // A buffer manager: the buffers its low-level driver has, the one being filled first,
  // and the received buffer it has still to route.
  datatype Manager = Manager(lld: seq<int>, routing: Option<int>)

  // What the server has in hand: nothing, a buffer to dispatch, or one to release.
  datatype Hand = Nothing | Incoming(b: int) | Spent(b: int)

  datatype State = State(free: Stack, lp: Ring, hp: Ring, managers: seq<Manager>, clients: seq<Client>,
                         hand: Hand, tcount: seq<nat>)

  datatype Verdict = Drop | ToLp | ToHp

  datatype Step =
    | Receive(m: nat)                   // a frame is complete: take a fresh buffer, or reuse this one
    | Route(m: nat, verdict: Verdict)   // put the received buffer where the filter says
    | TakeHp | TakeLp                   // buffers_used_take by the server
    | Dispatch(wants: seq<bool>)        // queue the buffer for the clients that want it
    | Pop(i: nat, drop: bool)           // get_packet by client i, or its oldest packet is dropped
    | Release                           // buffers_free_add by the server

  // ------------------------------------------------------------------------------
  // The steps
  // ------------------------------------------------------------------------------

  predicate WellFormed(s: State) {
    && StackOk(s.free, N) && RingOk(s.lp, N) && RingOk(s.hp, N) && |s.tcount| == N
    && (forall m :: 0 <= m < |s.managers| ==> |s.managers[m].lld| == 2)
    && (forall i :: 0 <= i < |s.clients| ==> ClientOk(s.clients[i]))
  }

  predicate Enabled(s: State, e: Step)
    requires WellFormed(s)
  {
    match e
    case Receive(m) => m < |s.managers| && s.managers[m].routing == None
    case Route(m, verdict) => m < |s.managers| && s.managers[m].routing.Some?
    case TakeHp => s.hand == Nothing && !UsedEmpty(s.hp)
    case TakeLp => s.hand == Nothing && !UsedEmpty(s.lp)
    case Dispatch(wants) => s.hand.Incoming? && |wants| == |s.clients|
    case Pop(i, drop) => s.hand == Nothing && i < |s.clients| && s.clients[i].rd != s.clients[i].wr
    case Release => s.hand.Spent?
  }

  // No step writes outside an array: a stack with a free place for a buffer that comes
  // back, and numbers of buffers where they index the counts.
  predicate InBounds(s: State, e: Step)
    requires WellFormed(s) && Enabled(s, e)
  {
    match e
    case Route(m, verdict) =>
      if verdict == Drop then s.free.top < N else if verdict == ToLp then Length(s.lp) < N else Length(s.hp) < N
    case Dispatch(wants) => 0 <= s.hand.b < N
    case Pop(i, drop) => 0 <= s.clients[i].fifo[s.clients[i].rd] < N
    case Release => s.free.top < N
    case _ => true
  }

  function Next(s: State, e: Step): State
    requires WellFormed(s) && Enabled(s, e) && InBounds(s, e)
  {
    match e
    case Receive(m) =>
      var b := s.managers[m].lld;
      var (f, x) := FreeTake(s.free);
      if x.Some? then s.(free := f, managers := s.managers[m := Manager([b[1], x.value], Some(b[0]))])
      else s.(managers := s.managers[m := Manager([b[1], b[0]], None)])
    case Route(m, verdict) =>
      var b := s.managers[m].routing.value;
      var s1 := s.(managers := s.managers[m := s.managers[m].(routing := None)]);
      (match verdict
       case Drop => s1.(free := FreeAdd(s.free, b))
       case ToLp => s1.(lp := UsedAdd(s.lp, N, b))
       case ToHp => s1.(hp := UsedAdd(s.hp, N, b)))
    case TakeHp =>
      var (u, b) := UsedTake(s.hp, N);
      s.(hp := u, hand := Spent(b))
    case TakeLp =>
      var (u, b) := UsedTake(s.lp, N);
      s.(lp := u, hand := Incoming(b))
    case Dispatch(wants) =>
      var b := s.hand.b;
      var (cs, t) := OfferAll(s.clients, b, wants);
      if t == 0 then s.(clients := cs, hand := Spent(b))
      else s.(clients := cs, hand := Nothing, tcount := s.tcount[b := t - 1])
    case Pop(i, drop) =>
      var (c, b) := PopOne(s.clients[i], drop);
      var s1 := s.(clients := s.clients[i := c]);
      if s.tcount[b] == 0 then s1.(hand := Spent(b)) else s1.(tcount := s.tcount[b := s.tcount[b] - 1])
    case Release =>
      s.(free := FreeAdd(s.free, s.hand.b), hand := Nothing)
  }

  // ------------------------------------------------------------------------------
  // Where the buffers are
  // ------------------------------------------------------------------------------

  function Of(m: Manager): multiset<int> {
    multiset(m.lld) + (if m.routing.Some? then multiset{m.routing.value} else multiset{})
  }

  function Managed(ms: seq<Manager>): multiset<int> {
    Sum(seq(|ms|, i requires 0 <= i < |ms| => Of(ms[i])))
  }

  function InHand(h: Hand): multiset<int> {
    match h
    case Nothing => multiset{}
    case Incoming(b) => multiset{b}
    case Spent(b) => multiset{b}
  }

  function Places(s: State): multiset<int>
    requires WellFormed(s)
  {
    multiset(Available(s.free, N)) + multiset(Used(s.lp, N)) + multiset(Used(s.hp, N))
    + Managed(s.managers) + InHand(s.hand) + Shared(Refs(s.clients))
  }

  function Pool(): multiset<int> {
    Numbers(N)
  }

  /** Every buffer is in exactly one place, and a buffer queued for clients is queued
      tcount + 1 times. */
  ghost predicate Inv(s: State) {
    && WellFormed(s) && Places(s) == Pool()
    && forall b :: b in Refs(s.clients) ==> 0 <= b < N && Refs(s.clients)[b] == s.tcount[b] + 1
  }

  lemma OnceEach(s: State, b: int)
    requires WellFormed(s) && Places(s) == Pool()
    ensures Places(s)[b] == if 0 <= b < N then 1 else 0
  {
    Prefix(N, b);
  }

  lemma ManagedUpdate(ms: seq<Manager>, m: nat, x: Manager)
    requires m < |ms|
    ensures Managed(ms[m := x]) + Of(ms[m]) == Managed(ms) + Of(x)
  {
    var parts := seq(|ms|, i requires 0 <= i < |ms| => Of(ms[i]));
    SumUpdate(parts, m, Of(x));
    assert seq(|ms|, i requires 0 <= i < |ms| => Of(ms[m := x][i])) == parts[m := Of(x)];
  }

  // ------------------------------------------------------------------------------
  // What every step keeps
  // ------------------------------------------------------------------------------

  // The parts of the places, as one sum of lengths.
  lemma Lengths(s: State)
    requires WellFormed(s) && Places(s) == Pool()
    ensures s.free.top + Length(s.lp) + Length(s.hp) + |Managed(s.managers)| + |InHand(s.hand)|
      + |Shared(Refs(s.clients))| == N
  {
    assert |Places(s)| == |Pool()| == N;
  }

  lemma PartOfManaged(ms: seq<Manager>, m: nat)
    requires m < |ms|
    ensures Of(ms[m]) <= Managed(ms)
  {
    hide Of;
    var none := ms[m := Manager([], None)];
    ManagedUpdate(ms, m, Manager([], None));
    assert Of(Manager([], None)) == multiset{} by { OfNone(); }
    assert Managed(none) + Of(ms[m]) == Managed(ms);
  }

  lemma OfNone()
    ensures Of(Manager([], None)) == multiset{}
  {
  }

  // A buffer in hand, on its way, or queued is one of the pool.
  lemma InPool(s: State, b: int)
    requires Inv(s) && (b in InHand(s.hand) || b in Managed(s.managers) || b in Refs(s.clients))
    ensures 0 <= b < N
  {
    hide Managed, Refs, Used, Available;
    OnceEach(s, b);
    assert b in Refs(s.clients) ==> b in Shared(Refs(s.clients));
  }

  /** No step that the code can take writes outside an array: no stack overflows, no ring
      entry is overwritten, whatever the interleaving. */
  lemma StepsInBounds(s: State, e: Step)
    requires Inv(s) && Enabled(s, e)
    ensures InBounds(s, e)
  {
    hide Managed, Refs, Used, Available, Places;
    Lengths(s);
    match e
    case Route(m, verdict) =>
      PartOfManaged(s.managers, m);
      assert |Managed(s.managers)| >= 1;
    case Dispatch(wants) => InPool(s, s.hand.b);
    case Pop(i, drop) =>
      HeadIsRef(s.clients, i, drop);
      InPool(s, s.clients[i].fifo[s.clients[i].rd]);
    case _ =>
  }

  // The places, as the free stack and the managers, and the rest.
  lemma FreeAndManaged(s: State)
    requires WellFormed(s)
    ensures Places(s) == multiset(Available(s.free, N)) + Managed(s.managers)
      + (multiset(Used(s.lp, N)) + multiset(Used(s.hp, N)) + InHand(s.hand) + Shared(Refs(s.clients)))
  {
  }

  // The places, as the managers and where a verdict sends a buffer, and the rest.
  function Destination(s: State, verdict: Verdict): multiset<int>
    requires WellFormed(s)
  {
    match verdict
    case Drop => multiset(Available(s.free, N))
    case ToLp => multiset(Used(s.lp, N))
    case ToHp => multiset(Used(s.hp, N))
  }

  function Elsewhere(s: State, verdict: Verdict): multiset<int>
    requires WellFormed(s)
  {
    (if verdict == Drop then multiset{} else multiset(Available(s.free, N)))
    + (if verdict == ToLp then multiset{} else multiset(Used(s.lp, N)))
    + (if verdict == ToHp then multiset{} else multiset(Used(s.hp, N)))
    + InHand(s.hand) + Shared(Refs(s.clients))
  }

  lemma ManagedAndDestination(s: State, verdict: Verdict)
    requires WellFormed(s)
    ensures Places(s) == Managed(s.managers) + Destination(s, verdict) + Elsewhere(s, verdict)
  {
  }

  lemma SharedAndHand(s: State)
    requires WellFormed(s)
    ensures Places(s) == Shared(Refs(s.clients)) + InHand(s.hand)
      + (multiset(Available(s.free, N)) + multiset(Used(s.lp, N)) + multiset(Used(s.hp, N)) + Managed(s.managers))
  {
  }

  // Steps leave the lengths and index ranges in order.
  lemma StepWellFormed(s: State, e: Step)
    requires WellFormed(s) && Enabled(s, e) && InBounds(s, e)
    ensures WellFormed(Next(s, e))
  {
    hide OfferAll, UsedTake, UsedAdd, FreeTake, FreeAdd, RingOk, Length, UsedEmpty;
    FreeTakeIs(s.free, N);
    match e
    case Route(m, verdict) =>
      var b := s.managers[m].routing.value;
      if verdict == Drop { FreeAddIs(s.free, N, b); }
      if verdict == ToLp { UsedAddIs(s.lp, N, b); }
      if verdict == ToHp { UsedAddIs(s.hp, N, b); }
    case TakeHp => UsedTakeIs(s.hp, N);
    case TakeLp => UsedTakeIs(s.lp, N);
    case Release => FreeAddIs(s.free, N, s.hand.b);
    case _ =>
  }

  lemma ReceiveKeeps(s: State, m: nat)
    requires Inv(s) && Enabled(s, Receive(m))
    ensures Inv(Next(s, Receive(m)))
  {
    hide Managed, Refs, Used, Available, Shared, FreeTake, Places, RingOk, Pool;
    var s' := Next(s, Receive(m));
    StepWellFormed(s, Receive(m));
    FreeTakeIs(s.free, N);
    ManagedUpdate(s.managers, m, s'.managers[m]);
    var x := FreeTake(s.free).1;
    var d := if x.Some? then multiset{x.value} else multiset{};
    OfReceived(s.managers[m], s'.managers[m], x);
    Cancel(Managed(s'.managers), Managed(s.managers), Of(s'.managers[m]), Of(s.managers[m]), d);
    var a, a' := multiset(Available(s.free, N)), multiset(Available(s'.free, N));
    assert a == a' + d;
    FreeAndManaged(s);
    FreeAndManaged(s');
    Move(a, a', Managed(s.managers), Managed(s'.managers), d,
         multiset(Used(s.lp, N)) + multiset(Used(s.hp, N)) + InHand(s.hand) + Shared(Refs(s.clients)));
  }

  lemma OfReceived(m: Manager, m': Manager, x: Option<int>)
    requires |m.lld| == 2 && m.routing == None
    requires m' == if x.Some? then Manager([m.lld[1], x.value], Some(m.lld[0])) else Manager([m.lld[1], m.lld[0]], None)
    ensures Of(m') == Of(m) + if x.Some? then multiset{x.value} else multiset{}
  {
    assert m.lld == [m.lld[0], m.lld[1]];
  }

  // What a routed buffer changes: the place it goes to has it behind the others.
  lemma RouteFields(s: State, m: nat, verdict: Verdict)
    requires WellFormed(s) && Enabled(s, Route(m, verdict)) && InBounds(s, Route(m, verdict))
    ensures var s' := Next(s, Route(m, verdict)); var b := s.managers[m].routing.value;
            && WellFormed(s') && s'.clients == s.clients && s'.tcount == s.tcount
            && s'.managers == s.managers[m := s.managers[m].(routing := None)]
            && Destination(s', verdict) == Destination(s, verdict) + multiset{b}
            && Elsewhere(s', verdict) == Elsewhere(s, verdict)
  {
    hide Refs, Used, Available, Shared, FreeAdd, UsedAdd, RingOk, ClientOk;
    var b := s.managers[m].routing.value;
    StepWellFormed(s, Route(m, verdict));
    match verdict {
      case Drop => FreeAddIs(s.free, N, b);
      case ToLp => UsedAddIs(s.lp, N, b);
      case ToHp => UsedAddIs(s.hp, N, b);
    }
  }

  lemma RouteKeeps(s: State, m: nat, verdict: Verdict)
    requires Inv(s) && Enabled(s, Route(m, verdict)) && InBounds(s, Route(m, verdict))
    ensures Inv(Next(s, Route(m, verdict)))
  {
    hide Managed, Refs, Places, Pool, Destination, Elsewhere, Next, WellFormed;
    var s' := Next(s, Route(m, verdict));
    var b := s.managers[m].routing.value;
    RouteFields(s, m, verdict);
    ManagedUpdate(s.managers, m, s'.managers[m]);
    assert Of(s.managers[m]) == Of(s'.managers[m]) + multiset{b};
    Cancel(Managed(s.managers), Managed(s'.managers), Of(s.managers[m]), Of(s'.managers[m]), multiset{b});
    ManagedAndDestination(s, verdict);
    ManagedAndDestination(s', verdict);
    Move(Managed(s.managers), Managed(s'.managers), Destination(s, verdict), Destination(s', verdict), multiset{b},
         Elsewhere(s, verdict));
  }

  // What a taken buffer changes: it goes from the front of a ring into the server's hand.
  lemma TakeFields(s: State, e: Step) returns (b: int)
    requires WellFormed(s) && Enabled(s, e) && (e == TakeHp || e == TakeLp)
    ensures var s' := Next(s, e); var v := if e == TakeHp then ToHp else ToLp;
            && WellFormed(s') && s'.clients == s.clients && s'.tcount == s.tcount && s'.managers == s.managers
            && Destination(s, v) == Destination(s', v) + multiset{b}
            && Elsewhere(s', v) == Elsewhere(s, v) + multiset{b}
  {
    hide Refs, Used, Available, Shared, UsedTake, ClientOk;
    var u := if e == TakeHp then s.hp else s.lp;
    StepWellFormed(s, e);
    UsedTakeIs(u, N);
    b := UsedTake(u, N).1;
  }

  lemma TakeKeeps(s: State, e: Step)
    requires Inv(s) && Enabled(s, e) && (e == TakeHp || e == TakeLp)
    ensures Inv(Next(s, e))
  {
    hide Managed, Refs, Places, Pool, Destination, Elsewhere, Next, WellFormed;
    var s', v := Next(s, e), if e == TakeHp then ToHp else ToLp;
    var b := TakeFields(s, e);
    ManagedAndDestination(s, v);
    ManagedAndDestination(s', v);
    Move(Destination(s, v), Destination(s', v), Elsewhere(s, v), Elsewhere(s', v), multiset{b}, Managed(s.managers));
    assert Places(s') == Places(s);
  }

  lemma ReleaseKeeps(s: State)
    requires Inv(s) && Enabled(s, Release) && InBounds(s, Release)
    ensures Inv(Next(s, Release))
  {
    hide Managed, Refs, Used, Available, Shared;
    FreeAddIs(s.free, N, s.hand.b);
  }

  lemma DispatchKeeps(s: State, wants: seq<bool>)
    requires Inv(s) && Enabled(s, Dispatch(wants)) && InBounds(s, Dispatch(wants))
    ensures Inv(Next(s, Dispatch(wants)))
  {
    hide Managed, Refs, Used, Available, Shared;
    var b := s.hand.b;
    var refs := Refs(s.clients);
    var (cs, t) := OfferAll(s.clients, b, wants);
    OnceEach(s, b);
    assert b !in refs by { assert b in refs ==> b in Shared(refs) by { SharedHas(refs, b); } }
    forall x ensures Refs(cs)[x] == if x == b then t else refs[x] { OfferAllRefs(s.clients, b, wants, x); }
    SharedAdd(refs, Refs(cs), b, t);
  }

  lemma PopKeeps(s: State, i: nat, drop: bool)
    requires Inv(s) && Enabled(s, Pop(i, drop)) && InBounds(s, Pop(i, drop))
    ensures Inv(Next(s, Pop(i, drop)))
  {
    hide Managed, Refs, Used, Available, Shared, Waiting, PopOne, Places, RingOk, Pool;
    var (c, b) := PopOne(s.clients[i], drop);
    var s' := Next(s, Pop(i, drop));
    assert b == s.clients[i].fifo[s.clients[i].rd] by { PopIs(s.clients[i], drop); PoppedHead(s.clients[i], drop); }
    StepWellFormed(s, Pop(i, drop));
    HeadIsRef(s.clients, i, drop);
    var refs, refs' := Refs(s.clients), Refs(s'.clients);
    assert s'.clients == s.clients[i := c] && refs == refs' + multiset{b};
    SharedRemove(refs, refs', b);
    assert refs[b] == s.tcount[b] + 1;
    var d := if s.tcount[b] == 0 then multiset{b} else multiset{};
    SharedAndHand(s);
    SharedAndHand(s');
    Move(Shared(refs), Shared(refs'), InHand(s.hand), InHand(s'.hand), d,
         multiset(Available(s.free, N)) + multiset(Used(s.lp, N)) + multiset(Used(s.hp, N)) + Managed(s.managers));
    forall x | x in refs' ensures 0 <= x < N && refs'[x] == s'.tcount[x] + 1 { assert x in refs; }
  }

  lemma StepKeeps(s: State, e: Step)
    requires Inv(s) && Enabled(s, e)
    ensures InBounds(s, e) && Inv(Next(s, e))
  {
    hide Inv, Next, InBounds;
    StepsInBounds(s, e);
    match e
    case Receive(m) => ReceiveKeeps(s, m);
    case Route(m, verdict) => RouteKeeps(s, m, verdict);
    case TakeHp => TakeKeeps(s, e);
    case TakeLp => TakeKeeps(s, e);
    case Dispatch(wants) => DispatchKeeps(s, wants);
    case Pop(i, drop) => PopKeeps(s, i, drop);
    case Release => ReleaseKeeps(s);
  }

  // ------------------------------------------------------------------------------
  // Sessions
  // ------------------------------------------------------------------------------

  // The managers, each with the two buffers it took off the stack.
  function Started(count: nat): (ms: seq<Manager>)
    ensures |ms| == count
  {
    seq(count, m requires 0 <= m < count => Manager([N - 1 - 2 * m, N - 2 - 2 * m], None))
  }

  // The start of a session: `count` buffer managers have issued two buffers each, and the
  // clients' queues are empty.
  function Init(count: nat, clients: nat): State
    requires 2 * count <= N
  {
    var full := InitStack(N);
    State(full.(top := N - 2 * count), InitRing(N), InitRing(N),
          Started(count), Fresh(clients, QUEUE), Nothing, seq(N, _ => 0))
  }

  lemma ManagedLast(ms: seq<Manager>)
    requires ms != []
    ensures Managed(ms) == Managed(ms[..|ms| - 1]) + Of(ms[|ms| - 1])
  {
    var n := |ms| - 1;
    var parts := seq(|ms|, m requires 0 <= m < |ms| => Of(ms[m]));
    assert parts[..n] == seq(n, m requires 0 <= m < n => Of(ms[..n][m]));
  }

  lemma TopTwo(top: nat)
    requires 2 <= top <= N
    ensures multiset(InitStack(N).stack[..top]) == multiset(InitStack(N).stack[..top - 2]) + multiset{top - 2, top - 1}
  {
    var stack := InitStack(N).stack;
    assert stack[..top] == stack[..top - 2] + [top - 2, top - 1];
  }

  // Taking the last manager's two buffers back gives the start with one manager fewer.
  lemma {:induction false} InitPlaces(count: nat)
    requires 2 * count <= N
    ensures multiset(InitStack(N).stack[..N - 2 * count]) + Managed(Started(count)) == Pool()
  {
    hide Managed, Pool, Of, InitStack, Started;
    if count == 0 {
      AllOnStack();
    } else {
      var n, top := count - 1, N - 2 * (count - 1);
      InitPlaces(n);
      TopTwo(top);
      ManagedLast(Started(count));
      OfStarted(count, n);
      Move(multiset(InitStack(N).stack[..top]), multiset(InitStack(N).stack[..top - 2]),
           Managed(Started(n)), Managed(Started(count)), multiset{top - 2, top - 1}, multiset{});
    }
  }

  lemma AllOnStack()
    ensures multiset(InitStack(N).stack[..N]) == Pool() && Managed(Started(0)) == multiset{}
  {
    assert InitStack(N).stack[..N] == seq(N, i => i);
  }

  lemma OfStarted(count: nat, n: nat)
    requires n + 1 == count
    ensures Of(Started(count)[n]) == multiset{N - 2 - 2 * n, N - 1 - 2 * n}
    ensures Started(count)[..n] == Started(n)
  {
  }

  lemma InitInv(count: nat, clients: nat)
    requires 2 * count <= N
    ensures Inv(Init(count, clients))
  {
    hide Refs, Managed, Pool;
    InitPlaces(count);
    NoRefs(clients, QUEUE);
  }

  predicate CanRun(s: State, es: seq<Step>)
    requires WellFormed(s)
    decreases |es|
  {
    es == [] ||
    (Enabled(s, es[0]) && InBounds(s, es[0]) && WellFormed(Next(s, es[0])) && CanRun(Next(s, es[0]), es[1..]))
  }

  function Run(s: State, es: seq<Step>): State
    requires WellFormed(s) && CanRun(s, es)
    decreases |es|
  {
    if es == [] then s else Run(Next(s, es[0]), es[1..])
  }

  /** Over every interleaving of a session: each buffer is in exactly one place, its
      references in the client queues number tcount + 1, and whatever step comes next stays
      inside the arrays. */
  lemma {:induction false} EveryRunConserves(s: State, es: seq<Step>, b: int, e: Step)
    requires Inv(s) && CanRun(s, es) && 0 <= b < N
    ensures var r := Run(s, es);
            && Inv(r) && Places(r)[b] == 1
            && (b in Refs(r.clients) ==> Refs(r.clients)[b] == r.tcount[b] + 1)
            && (Enabled(r, e) ==> InBounds(r, e))
    decreases |es|
  {
    hide Places, Enabled, InBounds, Next, Refs;
    if es == [] {
      OnceEach(s, b);
      if Enabled(s, e) { StepsInBounds(s, e); }
    } else {
      StepKeeps(s, es[0]);
      EveryRunConserves(Next(s, es[0]), es[1..], b, e);
    }
  }

  // ------------------------------------------------------------------------------
  // What each client is given
  // ------------------------------------------------------------------------------

  // What a step puts into the queue of client i, and takes out of it.
  function Put(s: State, e: Step, i: nat): seq<int>
    requires WellFormed(s) && Enabled(s, e) && i < |s.clients|
  {
    if e.Dispatch? && e.wants[i] && |Waiting(s.clients[i])| < |s.clients[i].fifo| - 1 then [s.hand.b] else []
  }

  function Gone(s: State, e: Step, i: nat): seq<Left>
    requires WellFormed(s) && Enabled(s, e) && i < |s.clients|
  {
    if e.Pop? && e.i == i then [(PopOne(s.clients[i], e.drop).1, e.drop)] else []
  }

  // The packets client i loses: no room when they are dispatched, or dropped from its queue.
  function Lost(s: State, e: Step, i: nat): nat
    requires WellFormed(s) && Enabled(s, e) && i < |s.clients|
  {
    if e.Dispatch? && e.wants[i] && |Waiting(s.clients[i])| == |s.clients[i].fifo| - 1 then 1
    else if e.Pop? && e.i == i && e.drop then 1
    else 0
  }

  lemma ClientStep(s: State, e: Step, i: nat)
    requires WellFormed(s) && Enabled(s, e) && InBounds(s, e) && i < |s.clients|
    ensures var cs := Next(s, e).clients;
            && |cs| == |s.clients| && ClientOk(cs[i])
            && cs[i].dropped == s.clients[i].dropped + Lost(s, e, i)
            && Waiting(s.clients[i]) + Put(s, e, i) == Buffers(Gone(s, e, i)) + Waiting(cs[i])
  {
    hide Waiting, OfferAll;
    var c := s.clients[i];
    if e.Dispatch? {
      OfferAllQueues(s.clients, s.hand.b, e.wants, i);
      OfferAllDrops(s.clients, s.hand.b, e.wants, i);
    } else if e.Pop? && e.i == i {
      PopIs(c, e.drop);
    } else {
      assert Waiting(c) + [] == Waiting(c) == [] + Waiting(c);
    }
  }

  function AllPut(s: State, es: seq<Step>, i: nat): seq<int>
    requires WellFormed(s) && CanRun(s, es)
    decreases |es|
  {
    if es == [] || i >= |s.clients| then [] else Put(s, es[0], i) + AllPut(Next(s, es[0]), es[1..], i)
  }

  function AllGone(s: State, es: seq<Step>, i: nat): seq<Left>
    requires WellFormed(s) && CanRun(s, es)
    decreases |es|
  {
    if es == [] || i >= |s.clients| then [] else Gone(s, es[0], i) + AllGone(Next(s, es[0]), es[1..], i)
  }

  function AllLost(s: State, es: seq<Step>, i: nat): nat
    requires WellFormed(s) && CanRun(s, es)
    decreases |es|
  {
    if es == [] || i >= |s.clients| then 0 else Lost(s, es[0], i) + AllLost(Next(s, es[0]), es[1..], i)
  }

  /** Over every interleaving each client's queue is a FIFO queue: the buffers it is given, or
      loses to a drop, are in order exactly those that were dispatched, wanted by it and met
      with room; what is not gone still waits, and what is lost is counted. */
  lemma {:induction false} ClientsAreFifo(s: State, es: seq<Step>, i: nat)
    requires WellFormed(s) && CanRun(s, es) && i < |s.clients|
    ensures var r := Run(s, es);
            && i < |r.clients| && ClientOk(r.clients[i])
            && Waiting(s.clients[i]) + AllPut(s, es, i) == Buffers(AllGone(s, es, i)) + Waiting(r.clients[i])
            && r.clients[i].dropped == s.clients[i].dropped + AllLost(s, es, i)
    decreases |es|
  {
    hide Waiting, Enabled, InBounds, Next, Put, Gone, Lost, Buffers;
    if es == [] {
      var w := Waiting(s.clients[i]);
      assert Buffers([]) == [] && w + [] == w == [] + w;
    } else {
      ClientStep(s, es[0], i);
      var s1 := Next(s, es[0]);
      ClientsAreFifo(s1, es[1..], i);
      QueueGlue(Waiting(s.clients[i]), Put(s, es[0], i), Gone(s, es[0], i), Waiting(s1.clients[i]),
                AllPut(s1, es[1..], i), AllGone(s1, es[1..], i), Waiting(Run(s, es).clients[i]));
    }
  }

  // ------------------------------------------------------------------------------
  // The order of the rings
  // ------------------------------------------------------------------------------

  // The low priority buffers that are routed and not yet dispatched, and the high priority
  // ones that are not yet sent on.
  function Awaiting(s: State, verdict: Verdict): seq<int>
    requires WellFormed(s)
  {
    match verdict
    case ToLp => (if s.hand.Incoming? then [s.hand.b] else []) + Used(s.lp, N)
    case ToHp => Used(s.hp, N)
    case Drop => []
  }

  // What a step routes to a ring, and what it dispatches or sends on.
  function Routed(s: State, e: Step, verdict: Verdict): seq<int>
    requires WellFormed(s) && Enabled(s, e)
  {
    if e.Route? && e.verdict == verdict && verdict != Drop then [s.managers[e.m].routing.value] else []
  }

  function Onward(s: State, e: Step, verdict: Verdict): seq<int>
    requires WellFormed(s) && Enabled(s, e)
  {
    if verdict == ToLp && e.Dispatch? then [s.hand.b]
    else if verdict == ToHp && e.TakeHp? then [UsedTake(s.hp, N).1]
    else []
  }

  lemma RingRoute(s: State, m: nat, v: Verdict, verdict: Verdict)
    requires WellFormed(s) && Enabled(s, Route(m, v)) && InBounds(s, Route(m, v)) && WellFormed(Next(s, Route(m, v)))
    ensures var e := Route(m, v);
            Awaiting(Next(s, e), verdict) == Awaiting(s, verdict) + Routed(s, e, verdict)
  {
    hide Used, UsedAdd, FreeAdd, RingOk, StackOk, ClientOk;
    var b := s.managers[m].routing.value;
    if v == ToLp { UsedAddIs(s.lp, N, b); }
    if v == ToHp { UsedAddIs(s.hp, N, b); }
  }

  lemma RingTake(s: State, e: Step, verdict: Verdict)
    requires WellFormed(s) && Enabled(s, e) && InBounds(s, e) && WellFormed(Next(s, e))
    requires e == TakeHp || e == TakeLp
    ensures Awaiting(s, verdict) == Onward(s, e, verdict) + Awaiting(Next(s, e), verdict)
  {
    hide Used, UsedTake, StackOk, ClientOk;
    UsedTakeIs(if e == TakeHp then s.hp else s.lp, N);
  }

  lemma RingStep(s: State, e: Step, verdict: Verdict)
    requires WellFormed(s) && Enabled(s, e) && InBounds(s, e)
    ensures WellFormed(Next(s, e))
    ensures Awaiting(s, verdict) + Routed(s, e, verdict) == Onward(s, e, verdict) + Awaiting(Next(s, e), verdict)
  {
    hide Used, UsedTake, FreeTake, FreeAdd, OfferAll, PopOne, RingOk, StackOk;
    StepWellFormed(s, e);
    match e
    case Route(m, v) => RingRoute(s, m, v, verdict);
    case TakeHp => RingTake(s, e, verdict);
    case TakeLp => RingTake(s, e, verdict);
    case _ =>
  }

  function AllRouted(s: State, es: seq<Step>, verdict: Verdict): seq<int>
    requires WellFormed(s) && CanRun(s, es)
    decreases |es|
  {
    if es == [] then [] else Routed(s, es[0], verdict) + AllRouted(Next(s, es[0]), es[1..], verdict)
  }

  function AllOnward(s: State, es: seq<Step>, verdict: Verdict): seq<int>
    requires WellFormed(s) && CanRun(s, es)
    decreases |es|
  {
    if es == [] then [] else Onward(s, es[0], verdict) + AllOnward(Next(s, es[0]), es[1..], verdict)
  }

  /** Over every interleaving, low priority buffers are dispatched, and high priority ones sent
      on, in the order in which the buffer managers routed them to the rings, each once. */
  lemma {:induction false} RingsAreFifo(s: State, es: seq<Step>, verdict: Verdict)
    requires WellFormed(s) && CanRun(s, es)
    ensures WellFormed(Run(s, es))
    ensures Awaiting(s, verdict) + AllRouted(s, es, verdict)
            == AllOnward(s, es, verdict) + Awaiting(Run(s, es), verdict)
    decreases |es|
  {
    hide Awaiting, Enabled, InBounds, Next, Routed, Onward;
    if es != [] {
      RingStep(s, es[0], verdict);
      var s1 := Next(s, es[0]);
      RingsAreFifo(s1, es[1..], verdict);
      OrderGlue(Awaiting(s, verdict), Routed(s, es[0], verdict), Onward(s, es[0], verdict), Awaiting(s1, verdict),
                AllRouted(s1, es[1..], verdict), AllOnward(s1, es[1..], verdict), Awaiting(Run(s, es), verdict));
    }
  }

  // ------------------------------------------------------------------------------
  // The order of the frames
  // ------------------------------------------------------------------------------

  // A low-level driver fills its buffers in the order it was given them, so a frame that is
  // complete is in the first one it has.
  function FrameIn(s: State, m: nat): int
    requires WellFormed(s) && m < |s.managers|
  {
    s.managers[m].lld[0]
  }

  // The buffer a manager gives its driver for the next frame but one: a fresh one, or, if there
  // is none, that of the frame.
  function Issued(s: State, e: Step, m: nat): seq<int>
    requires WellFormed(s) && m < |s.managers|
  {
    var free := Available(s.free, N);
    if e != Receive(m) then [] else if free == [] then [FrameIn(s, m)] else [free[|free| - 1]]
  }

  // The buffer of the frame that is complete, and whether it is kept to be routed.
  function Filled(s: State, e: Step, m: nat): seq<int>
    requires WellFormed(s) && m < |s.managers|
  {
    if e == Receive(m) then [FrameIn(s, m)] else []
  }

  function Kept(s: State, e: Step, m: nat): seq<int>
    requires WellFormed(s) && m < |s.managers|
  {
    if e == Receive(m) && Available(s.free, N) != [] then [FrameIn(s, m)] else []
  }

  // The buffer a manager routes, and what it has still to route.
  function RoutedBy(s: State, e: Step, m: nat): seq<int>
    requires WellFormed(s) && Enabled(s, e)
  {
    if e.Route? && e.m == m then [s.managers[m].routing.value] else []
  }

  function ToRoute(s: State, m: nat): seq<int>
    requires m < |s.managers|
  {
    if s.managers[m].routing.Some? then [s.managers[m].routing.value] else []
  }

  lemma ManagerStep(s: State, e: Step, m: nat)
    requires WellFormed(s) && Enabled(s, e) && InBounds(s, e) && m < |s.managers|
    ensures var s' := Next(s, e);
            && WellFormed(s') && |s'.managers| == |s.managers|
            && s.managers[m].lld + Issued(s, e, m) == Filled(s, e, m) + s'.managers[m].lld
            && ToRoute(s, m) + Kept(s, e, m) == RoutedBy(s, e, m) + ToRoute(s', m)
  {
    hide Available, Used, FreeTake, FreeAdd, UsedAdd, UsedTake, OfferAll, PopOne, RingOk, StackOk;
    StepWellFormed(s, e);
    if e == Receive(m) {
      FreeTakeIs(s.free, N);
      var b := s.managers[m].lld;
      assert b == [b[0], b[1]];
    }
  }

  function AllIssued(s: State, es: seq<Step>, m: nat): seq<int>
    requires WellFormed(s) && CanRun(s, es)
    decreases |es|
  {
    if es == [] || m >= |s.managers| then [] else Issued(s, es[0], m) + AllIssued(Next(s, es[0]), es[1..], m)
  }

  function AllFilled(s: State, es: seq<Step>, m: nat): seq<int>
    requires WellFormed(s) && CanRun(s, es)
    decreases |es|
  {
    if es == [] || m >= |s.managers| then [] else Filled(s, es[0], m) + AllFilled(Next(s, es[0]), es[1..], m)
  }

  function AllKept(s: State, es: seq<Step>, m: nat): seq<int>
    requires WellFormed(s) && CanRun(s, es)
    decreases |es|
  {
    if es == [] || m >= |s.managers| then [] else Kept(s, es[0], m) + AllKept(Next(s, es[0]), es[1..], m)
  }

  function AllRoutedBy(s: State, es: seq<Step>, m: nat): seq<int>
    requires WellFormed(s) && CanRun(s, es)
    decreases |es|
  {
    if es == [] || m >= |s.managers| then [] else RoutedBy(s, es[0], m) + AllRoutedBy(Next(s, es[0]), es[1..], m)
  }

  /** Over every interleaving each driver's buffers are a FIFO queue: those it had and those it
      was issued are, in order, those its frames have filled and those it has; and each manager
      routes, in order, exactly the filled buffers for which a fresh one was free. */
  lemma {:induction false} DriversAreFifo(s: State, es: seq<Step>, m: nat)
    requires WellFormed(s) && CanRun(s, es) && m < |s.managers|
    ensures var r := Run(s, es);
            && WellFormed(r) && m < |r.managers|
            && s.managers[m].lld + AllIssued(s, es, m) == AllFilled(s, es, m) + r.managers[m].lld
            && ToRoute(s, m) + AllKept(s, es, m) == AllRoutedBy(s, es, m) + ToRoute(r, m)
    decreases |es|
  {
    hide Enabled, InBounds, Next, Issued, Filled, Kept, RoutedBy, ToRoute;
    if es == [] {
      var l, t := s.managers[m].lld, ToRoute(s, m);
      assert l + [] == l == [] + l && t + [] == t == [] + t;
    } else {
      ManagerStep(s, es[0], m);
      var s1, r := Next(s, es[0]), Run(s, es);
      DriversAreFifo(s1, es[1..], m);
      OrderGlue(s.managers[m].lld, Issued(s, es[0], m), Filled(s, es[0], m), s1.managers[m].lld,
                AllIssued(s1, es[1..], m), AllFilled(s1, es[1..], m), r.managers[m].lld);
      OrderGlue(ToRoute(s, m), Kept(s, es[0], m), RoutedBy(s, es[0], m), ToRoute(s1, m),
                AllKept(s1, es[1..], m), AllRoutedBy(s1, es[1..], m), ToRoute(r, m));
    }
  }

  // What each manager has received and has still to route, after a step.
  function Got(s: State, e: Step, got: seq<Option<int>>): (r: seq<Option<int>>)
    requires WellFormed(s) && Enabled(s, e) && |got| == |s.managers|
    ensures |r| == |got|
  {
    match e
    case Receive(m) => got[m := if Available(s.free, N) == [] then None else Some(FrameIn(s, m))]
    case Route(m, verdict) => got[m := None]
    case _ => got
  }

  // The frames of a run, as they are received and with the verdicts of the filter.
  function Frames(s: State, es: seq<Step>, got: seq<Option<int>>, verdict: Verdict): seq<int>
    requires WellFormed(s) && CanRun(s, es) && |got| == |s.managers|
    decreases |es|
  {
    if es == [] then []
    else
      var e := es[0];
      (if e.Route? && e.verdict == verdict && verdict != Drop && got[e.m].Some? then [got[e.m].value] else [])
      + (if |Next(s, e).managers| == |got| then Frames(Next(s, e), es[1..], Got(s, e, got), verdict) else [])
  }

  lemma RoutingIsGot(s: State, e: Step)
    requires WellFormed(s) && Enabled(s, e) && InBounds(s, e)
    ensures var s' := Next(s, e);
            && |s'.managers| == |s.managers|
            && Got(s, e, seq(|s.managers|, m requires 0 <= m < |s.managers| => s.managers[m].routing))
               == seq(|s'.managers|, m requires 0 <= m < |s'.managers| => s'.managers[m].routing)
  {
    hide Available, FreeTake, FreeAdd, UsedAdd, UsedTake, OfferAll, PopOne, RingOk;
    if e.Receive? { FreeTakeIs(s.free, N); }
  }

  lemma {:induction false} RoutedAreFrames(s: State, es: seq<Step>, verdict: Verdict)
    requires WellFormed(s) && CanRun(s, es)
    ensures AllRouted(s, es, verdict)
            == Frames(s, es, seq(|s.managers|, m requires 0 <= m < |s.managers| => s.managers[m].routing), verdict)
    decreases |es|
  {
    hide InBounds, Next, Got;
    if es != [] {
      RoutingIsGot(s, es[0]);
      RoutedAreFrames(Next(s, es[0]), es[1..], verdict);
    }
  }

  /** So the chain begins at the frame: from the start of a session the buffers of the frames
      that were received with a verdict are, in order, those that went onward with it and
      those that still wait. */
  lemma FramesGoOnward(count: nat, clients: nat, es: seq<Step>, verdict: Verdict)
    requires 2 * count <= N && WellFormed(Init(count, clients)) && CanRun(Init(count, clients), es)
    ensures var s := Init(count, clients);
            && WellFormed(Run(s, es))
            && Frames(s, es, seq(count, _ => None), verdict) ==
                 AllOnward(s, es, verdict) + Awaiting(Run(s, es), verdict)
  {
    var s := Init(count, clients);
    RingsAreFifo(s, es, verdict);
    RoutedAreFrames(s, es, verdict);
    assert seq(|s.managers|, m requires 0 <= m < |s.managers| => s.managers[m].routing) == seq(count, _ => None);
    assert Awaiting(s, verdict) == [];
  }
}
