/** The transmit server of the RGMII MAC (rgmii_buffering.xc): two pools of eight buffers,
    one per priority, each buffer free, staged for a sender, queued, or at the MAC, and the
    two counters the server keeps beside them. */
module RgmiiTx {
  import opened Wrappers
  import opened RgmiiBuffers

  const N := COUNT_TX

  // The pool of one priority, with the filter_data word of each buffer: whether it was
  // last filled with a high priority packet.
  datatype Pool = Pool(free: Stack, used: Ring, marked: seq<bool>)

  // tx_client_state_t: a request for a buffer, and the buffer staged for it.
  datatype Client = Client(requested: bool, buffer: Option<int>)

  // A buffer at the MAC: which pool it is from, and its number.
  datatype Sent = Sent(hp: bool, b: int)

  datatype State = State(lp: Pool, hp: Pool, clients: seq<Client>, hasHp: bool, hpBuffer: Option<int>,
                         mac: seq<Sent>, work: int, senders: int)

  datatype Event =
    | Request(i: nat)      // _init_send_packet by client i
    | Complete(i: nat)     // _complete_send_packet by client i
    | CompleteHp           // a packet arrives on the high priority channel
    | Acknowledge(j: nat)  // the MAC returns the j-th of the buffers it has
    | Nothing

  // ------------------------------------------------------------------------------
  // One turn of the server loop
  // ------------------------------------------------------------------------------

  predicate PoolOk(p: Pool) {
    StackOk(p.free, N) && RingOk(p.used, N) && |p.marked| == N
  }

  predicate WellFormed(s: State) {
    PoolOk(s.lp) && PoolOk(s.hp)
  }

  predicate Enabled(s: State, e: Event) {
    match e
    case Request(i) => i < |s.clients|
    case Complete(i) => i < |s.clients| && s.clients[i].buffer.Some?
    case CompleteHp => s.hpBuffer.Some?
    case Acknowledge(j) => j < |s.mac|
    case Nothing => true
  }

  predicate Numbered(b: int) {
    0 <= b < N
  }

  // Nothing is written outside an array.
  predicate InBounds(s: State, e: Event)
    requires WellFormed(s) && Enabled(s, e)
  {
    match e
    case Complete(i) => Numbered(s.clients[i].buffer.value) && Length(s.lp.used) < N
    case CompleteHp => Numbered(s.hpBuffer.value) && Length(s.hp.used) < N
    case Acknowledge(j) =>
      var x := s.mac[j];
      Numbered(x.b) && (if (if x.hp then s.hp else s.lp).marked[x.b] then s.hp.free.top < N else s.lp.free.top < N)
    case _ => true
  }

  // A packet is put into buffer b, marked with its priority, and queued.
  function Queue(p: Pool, b: int, mark: bool): Pool
    requires PoolOk(p) && Numbered(b)
  {
    p.(used := UsedAdd(p.used, N, b), marked := p.marked[b := mark])
  }

  function Case(s: State, e: Event): State
    requires WellFormed(s) && Enabled(s, e) && InBounds(s, e)
  {
    match e
    case Request(i) =>
      var c := s.clients[i];
      if c.buffer == None then s.(clients := s.clients[i := c.(requested := true)]) else s
    case Complete(i) =>
      var b := s.clients[i].buffer.value;
      s.(lp := Queue(s.lp, b, false), clients := s.clients[i := Client(false, None)], work := s.work + 1)
    case CompleteHp =>
      var p := Queue(s.hp, s.hpBuffer.value, true);
      var (f, x) := FreeTake(p.free);
      s.(hp := p.(free := f), hpBuffer := x, work := s.work + 1)
    case Acknowledge(j) =>
      var x := s.mac[j];
      var s1 := s.(mac := s.mac[..j] + s.mac[j + 1..], senders := s.senders - 1);
      // The priority is read from the buffer itself.
      if (if x.hp then s.hp else s.lp).marked[x.b] then s1.(hp := s.hp.(free := FreeAdd(s.hp.free, x.b)))
      else s1.(lp := s.lp.(free := FreeAdd(s.lp.free, x.b)))
    case Nothing => s
  }

  // A buffer goes to the MAC; mayHp is whether the shaper lets a high priority packet go.
  function Send(s: State, mayHp: bool): State
    requires WellFormed(s)
  {
    if s.work == 0 || s.senders >= 2 then s
    else if mayHp && !UsedEmpty(s.hp.used) then
      var (u, b) := UsedTake(s.hp.used, N);
      s.(hp := s.hp.(used := u), mac := s.mac + [Sent(true, b)], work := s.work - 1, senders := s.senders + 1)
    else if !UsedEmpty(s.lp.used) then
      var (u, b) := UsedTake(s.lp.used, N);
      s.(lp := s.lp.(used := u), mac := s.mac + [Sent(false, b)], work := s.work - 1, senders := s.senders + 1)
    else s
  }

  function StageHp(s: State): State {
    if s.hasHp && s.hpBuffer == None then
      var (f, x) := FreeTake(s.hp.free);
      s.(hp := s.hp.(free := f), hpBuffer := x)
    else s
  }

  // The loop that stages buffers for the clients that asked for one, over the first n.
  function StageLp(s: State, n: nat): (r: State)
    requires n <= |s.clients|
    ensures |r.clients| == |s.clients|
  {
    if n == 0 then s
    else
      var s1 := StageLp(s, n - 1);
      var c := s1.clients[n - 1];
      if c.requested && c.buffer == None then
        var (f, x) := FreeTake(s1.lp.free);
        s1.(lp := s1.lp.(free := f), clients := s1.clients[n - 1 := c.(buffer := x)])
      else s1
  }

  // ------------------------------------------------------------------------------
  // Where the buffers are
  // ------------------------------------------------------------------------------

  function One(b: Option<int>): multiset<int> {
    if b.Some? then multiset{b.value} else multiset{}
  }

  function Staged(cs: seq<Client>): multiset<int> {
    Sum(seq(|cs|, i requires 0 <= i < |cs| => One(cs[i].buffer)))
  }

  function AtMac(mac: seq<Sent>, hp: bool): multiset<int> {
    Sum(seq(|mac|, i requires 0 <= i < |mac| => if mac[i].hp == hp then multiset{mac[i].b} else multiset{}))
  }

  function Pooled(p: Pool, staged: multiset<int>, mac: multiset<int>): multiset<int>
    requires PoolOk(p)
  {
    multiset(Available(p.free, N)) + multiset(Used(p.used, N)) + staged + mac
  }

  // Buffers that are queued or at the MAC carry the mark of their pool.
  ghost predicate Marks(p: Pool, mac: multiset<int>, mark: bool)
    requires PoolOk(p)
  {
    forall b :: Numbered(b) && (b in Used(p.used, N) || b in mac) ==> p.marked[b] == mark
  }

  /** For each priority every buffer is in exactly one place; the work counter is the number
      of queued buffers and the sender counter the number at the MAC, at most two. */
  ghost predicate Inv(s: State) {
    && WellFormed(s)
    && Pooled(s.lp, Staged(s.clients), AtMac(s.mac, false)) == Numbers(N)
    && Pooled(s.hp, One(s.hpBuffer), AtMac(s.mac, true)) == Numbers(N)
    && Marks(s.lp, AtMac(s.mac, false), false) && Marks(s.hp, AtMac(s.mac, true), true)
    && s.work == Length(s.lp.used) + Length(s.hp.used)
    && s.senders == |s.mac| <= 2
  }

  // ------------------------------------------------------------------------------
  // One pool
  // ------------------------------------------------------------------------------

  // A buffer that is staged, or at the MAC, has a number, and leaves room elsewhere.
  lemma PoolRoom(p: Pool, staged: multiset<int>, mac: multiset<int>, b: int)
    requires PoolOk(p) && Pooled(p, staged, mac) == Numbers(N) && (b in staged || b in mac)
    ensures Numbered(b) && Length(p.used) < N && p.free.top < N && b !in Used(p.used, N) && b !in Available(p.free, N)
  {
    hide Used, Available;
    Prefix(N, b);
    assert Pooled(p, staged, mac)[b] == 1;
    assert |Pooled(p, staged, mac)| == |Numbers(N)| == N;
    assert |staged| + |mac| >= 1;
    assert multiset(Used(p.used, N))[b] == 0;
    assert multiset(Available(p.free, N))[b] == 0;
  }

  lemma QueueKeeps(p: Pool, staged: multiset<int>, mac: multiset<int>, b: int, mark: bool)
    requires PoolOk(p) && Pooled(p, staged + multiset{b}, mac) == Numbers(N) && Marks(p, mac, mark)
    ensures Numbered(b) && Length(p.used) < N
    ensures var q := Queue(p, b, mark);
            && PoolOk(q) && q.free == p.free && Pooled(q, staged, mac) == Numbers(N) && Marks(q, mac, mark)
            && Length(q.used) == Length(p.used) + 1
  {
    hide Used, Available, RingOk, UsedAdd, StackOk;
    PoolRoom(p, staged + multiset{b}, mac, b);
    UsedAddIs(p.used, N, b);
    var q := Queue(p, b, mark);
    assert multiset(Used(q.used, N)) == multiset(Used(p.used, N)) + multiset{b};
    Move(staged + multiset{b}, staged, multiset(Used(p.used, N)), multiset(Used(q.used, N)), multiset{b},
         multiset(Available(p.free, N)) + mac);
  }

  lemma TakeKeeps(p: Pool, staged: multiset<int>, mac: multiset<int>, mark: bool)
    requires PoolOk(p) && Pooled(p, staged, mac) == Numbers(N) && Marks(p, mac, mark)
    ensures var (f, x) := FreeTake(p.free); var q := p.(free := f);
            PoolOk(q) && q.used == p.used && Pooled(q, staged + One(x), mac) == Numbers(N) && Marks(q, mac, mark)
  {
    hide Used, Available, RingOk, FreeTake, StackOk;
    FreeTakeIs(p.free, N);
    var (f, x) := FreeTake(p.free);
    assert multiset(Available(p.free, N)) == multiset(Available(f, N)) + One(x);
    Move(multiset(Available(p.free, N)), multiset(Available(f, N)), staged, staged + One(x), One(x),
         multiset(Used(p.used, N)) + mac);
  }

  lemma SendKeeps(p: Pool, staged: multiset<int>, mac: multiset<int>, mark: bool)
    requires PoolOk(p) && Pooled(p, staged, mac) == Numbers(N) && Marks(p, mac, mark) && !UsedEmpty(p.used)
    ensures var (u, b) := UsedTake(p.used, N); var q := p.(used := u);
            && PoolOk(q) && q.free == p.free && Pooled(q, staged, mac + multiset{b}) == Numbers(N)
            && Marks(q, mac + multiset{b}, mark) && Length(q.used) == Length(p.used) - 1
  {
    hide Used, Available, UsedTake, StackOk, UsedEmpty;
    UsedTakeIs(p.used, N);
    var (u, b) := UsedTake(p.used, N);
    assert multiset(Used(p.used, N)) == multiset(Used(u, N)) + multiset{b};
    Move(multiset(Used(p.used, N)), multiset(Used(u, N)), mac, mac + multiset{b}, multiset{b},
         multiset(Available(p.free, N)) + staged);
  }

  lemma ReturnKeeps(p: Pool, staged: multiset<int>, mac: multiset<int>, b: int, mark: bool)
    requires PoolOk(p) && Pooled(p, staged, mac + multiset{b}) == Numbers(N) && Marks(p, mac + multiset{b}, mark)
    ensures Numbered(b) && p.marked[b] == mark && p.free.top < N
    ensures var q := p.(free := FreeAdd(p.free, b));
            PoolOk(q) && q.used == p.used && Pooled(q, staged, mac) == Numbers(N) && Marks(q, mac, mark)
  {
    hide Used, Available, RingOk, FreeAdd;
    PoolRoom(p, staged, mac + multiset{b}, b);
    FreeAddIs(p.free, N, b);
    var f := FreeAdd(p.free, b);
    assert multiset(Available(f, N)) == multiset(Available(p.free, N)) + multiset{b};
    Move(mac + multiset{b}, mac, multiset(Available(p.free, N)), multiset(Available(f, N)), multiset{b},
         multiset(Used(p.used, N)) + staged);
  }

  // ------------------------------------------------------------------------------
  // Clients and MAC
  // ------------------------------------------------------------------------------

  lemma StagedUpdate(cs: seq<Client>, i: nat, c: Client)
    requires i < |cs|
    ensures Staged(cs[i := c]) + One(cs[i].buffer) == Staged(cs) + One(c.buffer)
  {
    var parts := seq(|cs|, j requires 0 <= j < |cs| => One(cs[j].buffer));
    SumUpdate(parts, i, One(c.buffer));
    assert seq(|cs|, j requires 0 <= j < |cs| => One(cs[i := c][j].buffer)) == parts[i := One(c.buffer)];
  }

  lemma MacAppend(mac: seq<Sent>, x: Sent, hp: bool)
    ensures AtMac(mac + [x], hp) == AtMac(mac, hp) + if x.hp == hp then multiset{x.b} else multiset{}
  {
    var n := |mac|;
    var all := mac + [x];
    var parts := seq(n + 1, i requires 0 <= i < n + 1 => if all[i].hp == hp then multiset{all[i].b} else multiset{});
    assert parts[..n] == seq(n, i requires 0 <= i < n => if mac[i].hp == hp then multiset{mac[i].b} else multiset{});
  }

  lemma {:induction false} MacRemove(mac: seq<Sent>, j: nat, hp: bool)
    requires j < |mac|
    ensures AtMac(mac, hp) == AtMac(mac[..j] + mac[j + 1..], hp) + if mac[j].hp == hp then multiset{mac[j].b}
            else multiset{}
    decreases |mac|
  {
    hide AtMac;
    var n := |mac| - 1;
    var last := mac[n];
    assert mac == mac[..n] + [last];
    MacAppend(mac[..n], last, hp);
    if j == n {
      assert mac[..j] + mac[j + 1..] == mac[..n];
    } else {
      var fewer := mac[..n][..j] + mac[..n][j + 1..];
      MacRemove(mac[..n], j, hp);
      MacAppend(fewer, last, hp);
      assert mac[..j] + mac[j + 1..] == fewer + [last];
    }
  }

  // ------------------------------------------------------------------------------
  // The server loop
  // ------------------------------------------------------------------------------

  /** No case of the loop writes outside an array. */
  lemma CaseInBounds(s: State, e: Event)
    requires Inv(s) && Enabled(s, e)
    ensures InBounds(s, e)
  {
    hide Pooled, Used, Available, Staged, AtMac, Marks, PoolOk;
    match e
    case Complete(i) =>
      var b := s.clients[i].buffer.value;
      StagedUpdate(s.clients, i, s.clients[i].(buffer := None));
      assert b in Staged(s.clients) + multiset{} && Staged(s.clients) + multiset{} == Staged(s.clients);
      PoolRoom(s.lp, Staged(s.clients), AtMac(s.mac, false), b);
    case CompleteHp => PoolRoom(s.hp, One(s.hpBuffer), AtMac(s.mac, true), s.hpBuffer.value);
    case Acknowledge(j) =>
      var x := s.mac[j];
      var rest := s.mac[..j] + s.mac[j + 1..];
      MacRemove(s.mac, j, x.hp);
      if x.hp { ReturnKeeps(s.hp, One(s.hpBuffer), AtMac(rest, true), x.b, true); }
      else { ReturnKeeps(s.lp, Staged(s.clients), AtMac(rest, false), x.b, false); }
    case _ =>
  }

  lemma CompleteKeeps(s: State, i: nat)
    requires Inv(s) && Enabled(s, Complete(i)) && InBounds(s, Complete(i))
    ensures Inv(Case(s, Complete(i)))
  {
    hide Pooled, Used, Available, Staged, AtMac, Marks, PoolOk, Queue;
    var s' := Case(s, Complete(i));
    var b := s.clients[i].buffer.value;
    StagedUpdate(s.clients, i, Client(false, None));
    assert Staged(s.clients) == Staged(s'.clients) + multiset{b};
    QueueKeeps(s.lp, Staged(s'.clients), AtMac(s.mac, false), b, false);
  }

  lemma CompleteHpKeeps(s: State)
    requires Inv(s) && Enabled(s, CompleteHp) && InBounds(s, CompleteHp)
    ensures Inv(Case(s, CompleteHp))
  {
    hide Pooled, Used, Available, Staged, AtMac, Marks, PoolOk, Queue, FreeTake;
    var b := s.hpBuffer.value;
    assert One(s.hpBuffer) == multiset{} + multiset{b};
    QueueKeeps(s.hp, multiset{}, AtMac(s.mac, true), b, true);
    var p := Queue(s.hp, b, true);
    TakeKeeps(p, multiset{}, AtMac(s.mac, true), true);
    assert multiset{} + One(FreeTake(p.free).1) == One(FreeTake(p.free).1);
  }

  lemma AcknowledgeKeeps(s: State, j: nat)
    requires Inv(s) && Enabled(s, Acknowledge(j)) && InBounds(s, Acknowledge(j))
    ensures Inv(Case(s, Acknowledge(j)))
  {
    hide Pooled, Used, Available, Staged, AtMac, Marks, FreeAdd;
    var x := s.mac[j];
    var rest := s.mac[..j] + s.mac[j + 1..];
    MacRemove(s.mac, j, true);
    MacRemove(s.mac, j, false);
    assert AtMac(rest, !x.hp) + multiset{} == AtMac(rest, !x.hp);
    if x.hp { ReturnKeeps(s.hp, One(s.hpBuffer), AtMac(rest, true), x.b, true); }
    else { ReturnKeeps(s.lp, Staged(s.clients), AtMac(rest, false), x.b, false); }
  }

  lemma RequestKeeps(s: State, i: nat)
    requires Inv(s) && Enabled(s, Request(i))
    ensures Inv(Case(s, Request(i)))
  {
    hide Pooled, Used, Available, Staged, AtMac, Marks, PoolOk;
    StagedUpdate(s.clients, i, s.clients[i].(requested := true));
    var cs := s.clients[i := s.clients[i].(requested := true)];
    Cancel(Staged(s.clients), Staged(cs), One(s.clients[i].buffer), One(s.clients[i].buffer), multiset{});
    assert Staged(cs) + multiset{} == Staged(cs);
  }

  lemma CaseKeeps(s: State, e: Event)
    requires Inv(s) && Enabled(s, e)
    ensures InBounds(s, e) && Inv(Case(s, e))
  {
    hide Inv, Case, InBounds;
    CaseInBounds(s, e);
    match e
    case Request(i) => RequestKeeps(s, i);
    case Complete(i) => CompleteKeeps(s, i);
    case CompleteHp => CompleteHpKeeps(s);
    case Acknowledge(j) => AcknowledgeKeeps(s, j);
    case Nothing => NothingKeeps(s);
  }

  lemma NothingKeeps(s: State)
    requires Inv(s)
    ensures InBounds(s, Nothing) && Inv(Case(s, Nothing))
  {
  }

  /** Sending keeps every buffer accounted for and the MAC at two buffers at most; with work
      pending and a place at the MAC, something is sent unless only high priority packets
      are queued and the shaper holds them. */
  lemma SendKeepsAll(s: State, mayHp: bool)
    requires Inv(s)
    ensures Inv(Send(s, mayHp))
    ensures s.work > 0 && s.senders < 2 && (mayHp || Length(s.lp.used) > 0) ==> Send(s, mayHp).senders == s.senders + 1
  {
    hide Pooled, Used, Available, Staged, AtMac, Marks, UsedTake, One;
    var s' := Send(s, mayHp);
    if s'.mac != s.mac {
      var x := s'.mac[|s.mac|];
      assert s'.mac == s.mac + [x];
      MacAppend(s.mac, x, true);
      MacAppend(s.mac, x, false);
      assert AtMac(s.mac, !x.hp) + multiset{} == AtMac(s.mac, !x.hp);
      if x.hp { SendKeeps(s.hp, One(s.hpBuffer), AtMac(s.mac, true), true); }
      else { SendKeeps(s.lp, Staged(s.clients), AtMac(s.mac, false), false); }
    }
  }

  lemma StageHpKeeps(s: State)
    requires Inv(s)
    ensures Inv(StageHp(s))
  {
    hide Pooled, Used, Available, Staged, AtMac, Marks, PoolOk, FreeTake;
    if s.hasHp && s.hpBuffer == None {
      TakeKeeps(s.hp, multiset{}, AtMac(s.mac, true), true);
      assert multiset{} + One(FreeTake(s.hp.free).1) == One(FreeTake(s.hp.free).1);
    }
  }

  lemma {:induction false} StageLpKeeps(s: State, n: nat)
    requires Inv(s) && n <= |s.clients|
    ensures Inv(StageLp(s, n))
    decreases n
  {
    hide Pooled, Used, Available, Staged, AtMac, Marks, PoolOk, FreeTake;
    if n > 0 {
      StageLpKeeps(s, n - 1);
      var s1 := StageLp(s, n - 1);
      var c := s1.clients[n - 1];
      if c.requested && c.buffer == None {
        var x := FreeTake(s1.lp.free).1;
        StagedUpdate(s1.clients, n - 1, c.(buffer := x));
        var cs := s1.clients[n - 1 := c.(buffer := x)];
        assert Staged(cs) + multiset{} == Staged(cs);
        TakeKeeps(s1.lp, Staged(s1.clients), AtMac(s1.mac, false), false);
      }
    }
  }

  // One turn: a case of the select, a packet for the MAC, and buffers for the senders.
  datatype Turn = Turn(e: Event, mayHp: bool)

  ghost function OneTurn(s: State, t: Turn): (r: State)
    requires Inv(s)
    ensures Inv(r)
  {
    if !Enabled(s, t.e) then s
    else
      CaseKeeps(s, t.e);
      var s1 := Send(Case(s, t.e), t.mayHp);
      SendKeepsAll(Case(s, t.e), t.mayHp);
      StageHpKeeps(s1);
      StageLpKeeps(StageHp(s1), |StageHp(s1).clients|);
      StageLp(StageHp(s1), |StageHp(s1).clients|)
  }

  ghost function Turns(s: State, ts: seq<Turn>): (r: State)
    requires Inv(s)
    ensures Inv(r)
    decreases |ts|
  {
    if ts == [] then s else Turns(OneTurn(s, ts[0]), ts[1..])
  }

  function InitPool(): Pool {
    Pool(InitStack(N), InitRing(N), seq(N, _ => false))
  }

  // The start of a session, with a buffer for the high priority channel if there is one.
  function Init(clients: nat, hasHp: bool): State {
    StageHp(State(InitPool(), InitPool(), seq(clients, _ => Client(false, None)), hasHp, None, [], 0, 0))
  }

  lemma {:induction false} NothingStaged(n: nat)
    ensures Staged(seq(n, _ => Client(false, None))) == multiset{}
  {
    if n > 0 {
      NothingStaged(n - 1);
      var parts := seq(n, i requires 0 <= i < n => One(seq(n, _ => Client(false, None))[i].buffer));
      assert parts[..n - 1]
        == seq(n - 1, i requires 0 <= i < n - 1 => One(seq(n - 1, _ => Client(false, None))[i].buffer));
    }
  }

  lemma InitInv(clients: nat, hasHp: bool)
    ensures Inv(Init(clients, hasHp))
  {
    NothingStaged(clients);
    assert Available(InitStack(N), N) == seq(N, i => i);
    assert Used(InitRing(N), N) == [];
    var s := State(InitPool(), InitPool(), seq(clients, _ => Client(false, None)), hasHp, None, [], 0, 0);
    assert Inv(s);
    StageHpKeeps(s);
  }

  /** Over every session: the counters are exact, the MAC has at most two buffers, and every
      buffer of either pool is in exactly one place. */
  lemma EveryTurnConserves(clients: nat, hasHp: bool, ts: seq<Turn>, b: int)
    requires Numbered(b)
    ensures Inv(Init(clients, hasHp))
    ensures var s := Turns(Init(clients, hasHp), ts);
            && s.work == |Used(s.lp.used, N)| + |Used(s.hp.used, N)| && s.senders == |s.mac| <= 2
            && Pooled(s.lp, Staged(s.clients), AtMac(s.mac, false))[b] == 1
            && Pooled(s.hp, One(s.hpBuffer), AtMac(s.mac, true))[b] == 1
  {
    InitInv(clients, hasHp);
    Prefix(N, b);
  }

  // ------------------------------------------------------------------------------
  // The order of the packets
  // ------------------------------------------------------------------------------

  function Ringed(s: State, hp: bool): seq<int>
    requires WellFormed(s)
  {
    Used((if hp then s.hp else s.lp).used, N)
  }

  // The buffers of one priority that an event completes, and that a send takes to the MAC.
  function Completed(s: State, e: Event, hp: bool): seq<int> {
    if !Enabled(s, e) then []
    else if e.Complete? && !hp then [s.clients[e.i].buffer.value]
    else if e.CompleteHp? && hp then [s.hpBuffer.value]
    else []
  }

  function ToMac(s: State, mayHp: bool, hp: bool): seq<int>
    requires WellFormed(s)
  {
    var mac := Send(s, mayHp).mac;
    if |mac| > |s.mac| && mac[|s.mac|].hp == hp then [mac[|s.mac|].b] else []
  }

  lemma CaseOrder(s: State, e: Event, hp: bool)
    requires WellFormed(s) && Enabled(s, e) && InBounds(s, e) && WellFormed(Case(s, e))
    ensures Ringed(Case(s, e), hp) == Ringed(s, hp) + Completed(s, e, hp)
  {
    hide Used, UsedAdd, FreeAdd, FreeTake;
    match e
    case Complete(i) => UsedAddIs(s.lp.used, N, s.clients[i].buffer.value);
    case CompleteHp => UsedAddIs(s.hp.used, N, s.hpBuffer.value);
    case _ =>
  }

  lemma SendOrder(s: State, mayHp: bool, hp: bool)
    requires WellFormed(s) && WellFormed(Send(s, mayHp))
    ensures Ringed(s, hp) == ToMac(s, mayHp, hp) + Ringed(Send(s, mayHp), hp)
  {
    hide Used, UsedTake, RingOk;
    if s.work != 0 && s.senders < 2 {
      if mayHp && !UsedEmpty(s.hp.used) {
        UsedTakeIs(s.hp.used, N);
      } else if !UsedEmpty(s.lp.used) {
        UsedTakeIs(s.lp.used, N);
      }
    }
  }

  lemma {:induction false} StageOrder(s: State, n: nat)
    requires n <= |s.clients|
    ensures StageLp(s, n).lp.used == s.lp.used && StageLp(s, n).hp.used == s.hp.used
    decreases n
  {
    if n > 0 { StageOrder(s, n - 1); }
  }

  // What a turn completes and what it takes to the MAC.
  ghost function TurnSent(s: State, t: Turn, hp: bool): seq<int>
    requires Inv(s)
  {
    if !Enabled(s, t.e) then []
    else
      CaseKeeps(s, t.e);
      ToMac(Case(s, t.e), t.mayHp, hp)
  }

  lemma TurnOrder(s: State, t: Turn, hp: bool)
    requires Inv(s)
    ensures Ringed(s, hp) + Completed(s, t.e, hp) == TurnSent(s, t, hp) + Ringed(OneTurn(s, t), hp)
  {
    hide Pooled, Marks, Used, Case, Send, FreeTake;
    if Enabled(s, t.e) {
      CaseKeeps(s, t.e);
      var c := Case(s, t.e);
      SendKeepsAll(c, t.mayHp);
      CaseOrder(s, t.e, hp);
      SendOrder(c, t.mayHp, hp);
      var s2 := StageHp(Send(c, t.mayHp));
      StageOrder(s2, |s2.clients|);
    }
  }

  ghost function AllCompleted(s: State, ts: seq<Turn>, hp: bool): seq<int>
    requires Inv(s)
    decreases |ts|
  {
    if ts == [] then [] else Completed(s, ts[0].e, hp) + AllCompleted(OneTurn(s, ts[0]), ts[1..], hp)
  }

  ghost function AllSent(s: State, ts: seq<Turn>, hp: bool): seq<int>
    requires Inv(s)
    decreases |ts|
  {
    if ts == [] then [] else TurnSent(s, ts[0], hp) + AllSent(OneTurn(s, ts[0]), ts[1..], hp)
  }

  /** Over every session the buffers of each priority reach the MAC in the order in which they
      were completed, each once; what has not been sent waits in the ring. */
  lemma {:induction false} SentInOrder(s: State, ts: seq<Turn>, hp: bool)
    requires Inv(s)
    ensures Ringed(s, hp) + AllCompleted(s, ts, hp) == AllSent(s, ts, hp) + Ringed(Turns(s, ts), hp)
    decreases |ts|
  {
    hide Pooled, Marks, PoolOk, OneTurn, Ringed, Completed, TurnSent;
    if ts != [] {
      TurnOrder(s, ts[0], hp);
      var s1 := OneTurn(s, ts[0]);
      SentInOrder(s1, ts[1..], hp);
      OrderGlue(Ringed(s, hp), Completed(s, ts[0].e, hp), TurnSent(s, ts[0], hp), Ringed(s1, hp),
                AllCompleted(s1, ts[1..], hp), AllSent(s1, ts[1..], hp), Ringed(Turns(s, ts), hp));
    }
  }

  // ------------------------------------------------------------------------------
  // Which packet is sent
  // ------------------------------------------------------------------------------

  /** With work and a place at the MAC, the oldest queued high priority buffer is sent exactly
      when there is one and the shaper lets it go, and the oldest low priority one exactly when
      there is one and no high priority one may go; otherwise nothing is. */
  lemma SendPicks(s: State, mayHp: bool)
    requires WellFormed(s)
    ensures var mac := Send(s, mayHp).mac; var lp, hp := Ringed(s, false), Ringed(s, true);
            if s.work != 0 && s.senders < 2 then
              && (mayHp && hp != [] <==> |mac| == |s.mac| + 1 && mac[|s.mac|].hp)
              && (lp != [] && (hp == [] || !mayHp) <==> |mac| == |s.mac| + 1 && !mac[|s.mac|].hp)
              && (mayHp && hp != [] ==> mac == s.mac + [Sent(true, hp[0])])
              && (lp != [] && (hp == [] || !mayHp) ==> mac == s.mac + [Sent(false, lp[0])])
              && (lp == [] && (hp == [] || !mayHp) ==> mac == s.mac)
            else mac == s.mac
  {
    hide Used, UsedTake, StackOk;
    EmptyRing(s.lp.used);
    EmptyRing(s.hp.used);
    if s.work != 0 && s.senders < 2 {
      if mayHp && !UsedEmpty(s.hp.used) {
        UsedTakeIs(s.hp.used, N);
      } else if !UsedEmpty(s.lp.used) {
        UsedTakeIs(s.lp.used, N);
      }
    }
  }

  lemma EmptyRing(u: Ring)
    requires RingOk(u, N)
    ensures UsedEmpty(u) <==> Used(u, N) == []
  {
  }

  // No low priority buffer goes to the MAC in a turn while a high priority one waits that may go.
  ghost predicate PriorityKept(s: State, ts: seq<Turn>)
    requires Inv(s)
    decreases |ts|
  {
    ts == [] ||
    (&& (TurnSent(s, ts[0], false) != [] && ts[0].mayHp ==> Ringed(s, true) + Completed(s, ts[0].e, true) == [])
     && PriorityKept(OneTurn(s, ts[0]), ts[1..]))
  }

  /** Over every session. */
  lemma {:induction false} PriorityIsKept(s: State, ts: seq<Turn>)
    requires Inv(s)
    ensures PriorityKept(s, ts)
    decreases |ts|
  {
    hide Pooled, Marks, OneTurn, Ringed, Completed, Case, Send;
    if ts != [] {
      var t := ts[0];
      if Enabled(s, t.e) {
        CaseKeeps(s, t.e);
        CaseOrder(s, t.e, true);
        SendPicks(Case(s, t.e), t.mayHp);
      }
      PriorityIsKept(OneTurn(s, t), ts[1..]);
    }
  }

  // ------------------------------------------------------------------------------
  // Buffers for the senders
  // ------------------------------------------------------------------------------

  // A client that asked for a buffer and has none.
  predicate Asks(c: Client) {
    c.requested && c.buffer == None
  }

  /** The loop that stages buffers gives the clients that ask one each, the first ones first, as
      long as there are free ones, and changes nothing for the others. */
  lemma {:induction false} StageServes(s: State, n: nat)
    requires n <= |s.clients| && StackOk(s.lp.free, N)
    ensures var r := StageLp(s, n);
            && StackOk(r.lp.free, N) && |Available(r.lp.free, N)| <= |Available(s.lp.free, N)|
            && (forall i :: 0 <= i < |s.clients| && !(i < n && Asks(s.clients[i])) ==> r.clients[i] == s.clients[i])
            && (forall i :: 0 <= i < n && Asks(s.clients[i]) ==>
                  r.clients[i].requested && (r.clients[i].buffer == None ==> Available(r.lp.free, N) == []))
            && (forall i, j :: 0 <= i < j < n && Asks(s.clients[i]) && Asks(s.clients[j]) ==>
                  (r.clients[j].buffer.Some? ==> r.clients[i].buffer.Some?))
    decreases n
  {
    hide Available, FreeTake, StackOk;
    if n > 0 {
      StageServes(s, n - 1);
      FreeTakeIs(StageLp(s, n - 1).lp.free, N);
    }
  }

  // What an event does to a client.
  lemma CaseClient(s: State, e: Event, i: nat)
    requires WellFormed(s) && Enabled(s, e) && InBounds(s, e) && i < |s.clients|
    ensures var c := Case(s, e);
            && |c.clients| == |s.clients| && c.hasHp == s.hasHp
            && c.clients[i] == (if e == Complete(i) then Client(false, None)
                                else if e == Request(i) && s.clients[i].buffer == None then Client(true, None)
                                else s.clients[i])
  {
    hide UsedAdd, FreeAdd, FreeTake, RingOk, StackOk;
  }

  lemma SendLeaves(s: State, mayHp: bool)
    requires WellFormed(s)
    ensures var r := Send(s, mayHp);
            r.clients == s.clients && r.hasHp == s.hasHp && r.hpBuffer == s.hpBuffer
  {
    hide UsedTake, RingOk, StackOk;
  }

  lemma StageHpServes(s: State)
    requires StackOk(s.hp.free, N)
    ensures var r := StageHp(s);
            && r.clients == s.clients && r.hasHp == s.hasHp && r.lp == s.lp && StackOk(r.hp.free, N)
            && (s.hasHp ==> r.hpBuffer.Some? || Available(r.hp.free, N) == [])
  {
    hide Available, FreeTake, StackOk;
    FreeTakeIs(s.hp.free, N);
  }

  /** A turn in which client i asks ends with a buffer for it, or without a free one; one in which
      it completes a packet ends with neither a buffer nor a request of it. */
  lemma TurnServes(s: State, t: Turn, i: nat)
    requires Inv(s) && Enabled(s, t.e) && i < |s.clients|
    ensures var r := OneTurn(s, t);
            && |r.clients| == |s.clients|
            && (t.e == Request(i) || (s.clients[i].requested && t.e != Complete(i)) ==>
                  r.clients[i].buffer.Some? || Available(r.lp.free, N) == [])
            && (s.clients[i].buffer.Some? && t.e != Complete(i) ==> r.clients[i].buffer == s.clients[i].buffer)
            && (t.e == Complete(i) ==> r.clients[i] == Client(false, None))
            && (s.hasHp ==> r.hpBuffer.Some? || Available(r.hp.free, N) == [])
  {
    hide Pooled, Marks, Available, Case, Send, StageHp, StageLp, RingOk, StackOk;
    CaseKeeps(s, t.e);
    CaseClient(s, t.e, i);
    var c := Case(s, t.e);
    SendKeepsAll(c, t.mayHp);
    SendLeaves(c, t.mayHp);
    var s1 := Send(c, t.mayHp);
    StageHpServes(s1);
    var s2 := StageHp(s1);
    StageServes(s2, |s2.clients|);
    StageLeavesHp(s2, |s2.clients|);
  }

  lemma {:induction false} StageLeavesHp(s: State, n: nat)
    requires n <= |s.clients|
    ensures StageLp(s, n).hp == s.hp && StageLp(s, n).hpBuffer == s.hpBuffer
    decreases n
  {
    if n > 0 { StageLeavesHp(s, n - 1); }
  }
}
