/** The receive queue of the MII real-time MAC (mii_buffering.c, mii_ethernet_rt_mac.xc):
    32 packet pointers that are added in order and freed in any order, the server's own
    read index, and the clients' queues of slot numbers. */
module MiiQueue {
  import opened RgmiiBuffers
  import opened RxClients

  const SLOTS := 32
  const NULL := 0

  // packet_queue_info_t; a pointer is a number, 0 when the slot is free.
  datatype Queue = Queue(rd: nat, wr: nat, ptrs: seq<int>)

  // The queue, the server's rd_index, the client queues, and the tcount of the packet in
  // each slot.
  datatype State = State(q: Queue, cursor: nat, clients: seq<Client>, tcount: seq<nat>)

  function Slot(k: nat): (i: nat)
    ensures i < SLOTS
  {
    k % SLOTS
  }

  predicate QueueOk(q: Queue) {
    q.rd < SLOTS && q.wr < SLOTS && |q.ptrs| == SLOTS
  }

  predicate WellFormed(s: State) {
    && QueueOk(s.q) && s.cursor < SLOTS && |s.tcount| == SLOTS
    && forall i :: 0 <= i < |s.clients| ==> ClientOk(s.clients[i])
  }

  // ------------------------------------------------------------------------------
  // The calls
  // ------------------------------------------------------------------------------

  function Full(q: Queue): bool
    requires QueueOk(q)
  {
    q.ptrs[q.wr] != NULL
  }

  function AddPacket(q: Queue, p: int): (r: Queue)
    requires QueueOk(q)
    ensures QueueOk(r)
  {
    q.(ptrs := q.ptrs[q.wr := p], wr := Slot(q.wr + 1))
  }

  // The turns left before an index that moves forward meets the write index.
  function Distance(i: nat, wr: nat): (n: nat)
    requires i < SLOTS
    ensures n > 0
  {
    if wr > i then wr - i else wr + SLOTS - i
  }

  lemma DistanceFalls(i: nat, wr: nat)
    requires i < SLOTS && wr < SLOTS && Slot(i + 1) != wr
    ensures Distance(Slot(i + 1), wr) < Distance(i, wr)
  {
  }

  // mii_move_my_rd_index
  function Move(q: Queue, i: nat): (r: nat)
    requires QueueOk(q) && i < SLOTS
    ensures r < SLOTS
    decreases Distance(i, q.wr)
  {
    var n := Slot(i + 1);
    if n == q.wr || q.ptrs[n] != NULL then n
    else
      DistanceFalls(i, q.wr);
      Move(q, n)
  }

  function FreeIndex(q: Queue, i: nat): (r: Queue)
    requires QueueOk(q) && i < SLOTS
    ensures QueueOk(r)
  {
    Queue(if q.rd == i then Move(q, i) else q.rd, q.wr, q.ptrs[i := NULL])
  }

  function MyNextBuf(q: Queue, i: nat): int
    requires QueueOk(q) && i < SLOTS
  {
    if q.rd == q.wr then NULL else q.ptrs[i]
  }

  // The filter thread adds a packet unless the queue is full.
  function Arrive(s: State, p: int): State
    requires WellFormed(s)
  {
    if Full(s.q) then s else s.(q := AddPacket(s.q, p))
  }

  // handle_incoming_packet; wants[i] is whether the filters of client i pass the packet.
  function HandleIncoming(s: State, wants: seq<bool>): State
    requires WellFormed(s) && |wants| == |s.clients|
  {
    if MyNextBuf(s.q, s.cursor) == NULL then s
    else
      Settle(s, OfferAll(s.clients, s.cursor, wants).0, OfferAll(s.clients, s.cursor, wants).1)
  }

  // What follows the loop over the clients, t of which took the packet.
  function Settle(s: State, cs: seq<Client>, t: nat): State
    requires WellFormed(s)
  {
    var s1 := if t == 0 then s.(clients := cs, q := FreeIndex(s.q, s.cursor))
              else s.(clients := cs, tcount := s.tcount[s.cursor := t - 1]);
    s1.(cursor := Move(s1.q, s.cursor))
  }

  predicate HeadOk(s: State, i: nat)
    requires WellFormed(s) && i < |s.clients|
  {
    s.clients[i].rd != s.clients[i].wr ==> 0 <= s.clients[i].fifo[s.clients[i].rd] < SLOTS
  }

  // get_packet by client i, or drop_lp_packets on its behalf.
  function Pop(s: State, i: nat, drop: bool): State
    requires WellFormed(s) && i < |s.clients| && HeadOk(s, i)
  {
    if s.clients[i].rd == s.clients[i].wr then s
    else
      var (c, slot) := PopOne(s.clients[i], drop);
      var s1 := s.(clients := s.clients[i := c]);
      if s.tcount[slot] == 0 then s1.(q := FreeIndex(s.q, slot))
      else s1.(tcount := s.tcount[slot := s.tcount[slot] - 1])
  }

  // ------------------------------------------------------------------------------
  // Positions in the stream of packets
  // ------------------------------------------------------------------------------

  // Every packet ever added, in order; all before `oldest` are gone, those before `next`
  // have been dispatched.
  datatype Stream = Stream(oldest: nat, next: nat, added: seq<int>)

  ghost predicate QueueInv(q: Queue, g: Stream) {
    && QueueOk(q)
    && g.oldest <= g.next <= |g.added| <= g.oldest + SLOTS
    && q.rd == Slot(g.oldest) && q.wr == Slot(|g.added|)
    && (forall k :: g.oldest <= k < |g.added| ==>
          g.added[k] != NULL && (q.ptrs[Slot(k)] == NULL || q.ptrs[Slot(k)] == g.added[k]))
    && (forall k :: g.next <= k < |g.added| ==> q.ptrs[Slot(k)] != NULL)
    && (forall k :: |g.added| <= k < g.oldest + SLOTS ==> q.ptrs[Slot(k)] == NULL)
    && (g.oldest < |g.added| ==> q.ptrs[Slot(g.oldest)] != NULL)
  }

  // A dispatched packet that is live is referenced tcount + 1 times, and nothing else is
  // referenced.
  ghost predicate RefsInv(s: State, g: Stream)
    requires WellFormed(s)
  {
    && (forall k :: g.oldest <= k < g.oldest + SLOTS ==>
          Refs(s.clients)[Slot(k)] == if k < g.next && s.q.ptrs[Slot(k)] != NULL then s.tcount[Slot(k)] + 1 else 0)
    && (forall i :: i in Refs(s.clients) ==> 0 <= i < SLOTS)
  }

  ghost predicate Inv(s: State, g: Stream) {
    WellFormed(s) && s.cursor == Slot(g.next) && QueueInv(s.q, g) && RefsInv(s, g)
  }

  lemma SlotsDiffer(j: nat, k: nat)
    requires j < k < j + SLOTS
    ensures Slot(j) != Slot(k)
  {
  }

  lemma SlotNext(k: nat)
    ensures Slot(Slot(k) + 1) == Slot(k + 1) && Slot(k + SLOTS) == Slot(k)
  {
  }

  // Where the read index of position k moves to: the next live packet, or the end.
  lemma {:induction false} MoveIs(q: Queue, g: Stream, k: nat) returns (j: nat)
    requires QueueInv(q, g) && g.oldest <= k < |g.added|
    ensures k < j <= |g.added| && Move(q, Slot(k)) == Slot(j)
    ensures forall x :: k < x < j ==> q.ptrs[Slot(x)] == NULL
    ensures j < |g.added| ==> q.ptrs[Slot(j)] != NULL
    ensures k + 1 == |g.added| || q.ptrs[Slot(k + 1)] != NULL ==> j == k + 1
    ensures k < g.next ==> j <= g.next
    ensures k == g.next ==> j == k + 1
    decreases |g.added| - k
  {
    hide Slot;
    SlotNext(k);
    if k + 1 < |g.added| {
      SlotsDiffer(k + 1, |g.added|);
      if q.ptrs[Slot(k + 1)] == NULL {
        j := MoveIs(q, g, k + 1);
      } else {
        j := k + 1;
      }
    } else {
      j := k + 1;
    }
  }

  lemma MoveOne(q: Queue, i: nat)
    requires QueueOk(q) && i < SLOTS && (Slot(i + 1) == q.wr || q.ptrs[Slot(i + 1)] != NULL)
    ensures Move(q, i) == Slot(i + 1)
  {
  }

  // Freeing the packet at position k.
  ghost function Freed(g: Stream, k: nat, j: nat): Stream {
    if k == g.oldest then g.(oldest := j) else g
  }

  lemma FreeIndexIs(q: Queue, g: Stream, k: nat) returns (j: nat)
    requires QueueInv(q, g) && g.oldest <= k < |g.added| && k <= g.next && q.ptrs[Slot(k)] != NULL
    ensures var r := FreeIndex(q, Slot(k)); var g' := Freed(g, k, j);
            && k < j <= |g.added| && (j < |g.added| ==> q.ptrs[Slot(j)] != NULL)
            && r.ptrs == q.ptrs[Slot(k) := NULL] && r.wr == q.wr
            && (k < g.next ==> QueueInv(r, g') && g'.next == g.next)
            && (k == g.next ==> j == k + 1 && QueueInv(r, g'.(next := k + 1)) && Move(r, Slot(k)) == Slot(k + 1))
            && (forall x :: g.oldest <= x < g'.oldest && x != k ==> q.ptrs[Slot(x)] == NULL)
  {
    hide Slot, Move;
    j := MoveIs(q, g, k);
    forall x | g.oldest <= x < g.oldest + SLOTS && x != k ensures Slot(x) != Slot(k) {
      if x < k { SlotsDiffer(x, k); } else { SlotsDiffer(k, x); }
    }
    if k != g.oldest { SlotsDiffer(g.oldest, k); }
    var r := FreeIndex(q, Slot(k));
    var g' := Freed(g, k, j);
    forall x | |g.added| <= x < g'.oldest + SLOTS ensures r.ptrs[Slot(x)] == NULL {
      if x >= g.oldest + SLOTS {
        SlotNext(x - SLOTS);
        assert r.ptrs[Slot(x - SLOTS)] == NULL;
      }
    }
    if k == g.next {
      SlotNext(k);
      if k + 1 < |g.added| {
        assert r.ptrs[Slot(k + 1)] != NULL;
      }
      MoveOne(r, Slot(k));
    }
  }

  // ------------------------------------------------------------------------------
  // What the steps do
  // ------------------------------------------------------------------------------

  // A slot number as a position in the window.
  lemma PositionOf(g: Stream, i: nat) returns (k: nat)
    requires i < SLOTS
    ensures g.oldest <= k < g.oldest + SLOTS && Slot(k) == i
  {
    k := g.oldest + (i - g.oldest) % SLOTS;
  }

  lemma AddIs(q: Queue, g: Stream, p: int)
    requires QueueInv(q, g) && p != NULL
    ensures Full(q) <==> |g.added| == g.oldest + SLOTS
    ensures !Full(q) ==> QueueInv(AddPacket(q, p), g.(added := g.added + [p]))
    ensures !Full(q) ==> forall k :: g.oldest <= k < |g.added| ==> AddPacket(q, p).ptrs[Slot(k)] == q.ptrs[Slot(k)]
  {
    hide Slot;
    var w := |g.added|;
    SlotNext(g.oldest);
    if !Full(q) {
      SlotNext(w);
      forall x | g.oldest <= x < g.oldest + SLOTS && x != w ensures Slot(x) != Slot(w) {
        if x < w { SlotsDiffer(x, w); } else { SlotsDiffer(w, x); }
      }
    }
  }

  /** A packet that arrives is added behind the others, unless all 32 slots are taken. */
  lemma ArriveKeeps(s: State, g: Stream, p: int)
    requires Inv(s, g) && p != NULL
    ensures Full(s.q) <==> |g.added| == g.oldest + SLOTS
    ensures Inv(Arrive(s, p), if Full(s.q) then g else g.(added := g.added + [p]))
  {
    hide Slot, Refs;
    var w := |g.added|;
    AddIs(s.q, g, p);
    if !Full(s.q) {
      forall x | g.oldest <= x < g.oldest + SLOTS && x != w ensures Slot(x) != Slot(w) {
        if x < w { SlotsDiffer(x, w); } else { SlotsDiffer(w, x); }
      }
    }
  }

  // Whether the server finds a packet to dispatch.
  predicate Dispatches(g: Stream) {
    g.next < |g.added| < g.oldest + SLOTS
  }

  lemma NextBufIs(s: State, g: Stream)
    requires Inv(s, g)
    ensures MyNextBuf(s.q, s.cursor) == if Dispatches(g) then g.added[g.next] else NULL
    ensures Dispatches(g) ==> s.q.ptrs[s.cursor] == g.added[g.next] != NULL
  {
  }

  // The packet at the server's position goes into the queues of the clients that want it
  // and have room; if there is none, its slot is freed.
  ghost function AfterDispatch(s: State, g: Stream, wants: seq<bool>, j: nat): Stream
    requires WellFormed(s) && |wants| == |s.clients|
  {
    var t := OfferAll(s.clients, s.cursor, wants).1;
    (if t == 0 then Freed(g, g.next, j) else g).(next := g.next + 1)
  }

  /** Dispatching: the server takes the packets in the order they were added, each once; it
      finds none exactly when it has dispatched all, or all 32 slots are taken. */
  lemma DispatchKeeps(s: State, g: Stream, wants: seq<bool>) returns (g': Stream)
    requires Inv(s, g) && |wants| == |s.clients|
    ensures Inv(HandleIncoming(s, wants), g') && g'.added == g.added
    ensures !Dispatches(g) ==> g' == g && HandleIncoming(s, wants) == s
    ensures Dispatches(g) ==> g'.next == g.next + 1 && s.q.ptrs[s.cursor] == g.added[g.next]
    ensures Dispatches(g) ==> HandleIncoming(s, wants).clients == OfferAll(s.clients, Slot(g.next), wants).0
  {
    hide Slot, Refs, OfferAll, QueueInv, FreeIndex, Move;
    NextBufIs(s, g);
    if Dispatches(g) {
      var j := DispatchQueue(s, g, wants);
      g' := AfterDispatch(s, g, wants, j);
      DispatchRefs(s, g, wants, j);
    } else {
      g' := g;
    }
  }

  lemma DispatchQueue(s: State, g: Stream, wants: seq<bool>) returns (j: nat)
    requires Inv(s, g) && |wants| == |s.clients| && Dispatches(g)
    ensures s.q.ptrs[s.cursor] == g.added[g.next]
    ensures var s' := HandleIncoming(s, wants); var g' := AfterDispatch(s, g, wants, j);
            && WellFormed(s') && s'.cursor == Slot(g'.next) && QueueInv(s'.q, g')
            && s'.q.ptrs == (if OfferAll(s.clients, s.cursor, wants).1 == 0 then s.q.ptrs[s.cursor := NULL]
                else s.q.ptrs)
            && (forall x :: g.oldest <= x < g'.oldest && x != g.next ==> s.q.ptrs[Slot(x)] == NULL)
            && g.oldest <= g'.oldest <= g.next + 1
  {
    hide Slot, Refs, OfferAll, FreeIndex, Move;
    NextBufIs(s, g);
    j := FreeIndexIs(s.q, g, g.next);
    var i := MoveIs(s.q, g, g.next);
    assert QueueInv(s.q, g.(next := g.next + 1));
  }

  // The references after a dispatch, at position k of the new window.
  lemma DispatchRefsAt(s: State, g: Stream, s': State, g': Stream, t: nat, k: nat)
    requires Inv(s, g) && g.oldest <= g.next < g.oldest + SLOTS && WellFormed(s')
    requires forall x {:trigger Refs(s'.clients)[x]} ::
      Refs(s'.clients)[x] == if x == Slot(g.next) then t else Refs(s.clients)[x]
    requires s'.q.ptrs == (if t == 0 then s.q.ptrs[Slot(g.next) := NULL] else s.q.ptrs)
    requires s'.tcount == (if t == 0 then s.tcount else s.tcount[Slot(g.next) := t - 1])
    requires s.q.ptrs[Slot(g.next)] != NULL && g'.next == g.next + 1
    requires g.oldest <= g'.oldest <= (if t == 0 then g.next + 1 else g.next)
    requires forall x :: g.oldest <= x < g'.oldest && x != g.next ==> s.q.ptrs[Slot(x)] == NULL
    requires g'.oldest <= k < g'.oldest + SLOTS
    ensures Refs(s'.clients)[Slot(k)] == if k < g'.next && s'.q.ptrs[Slot(k)] != NULL then s'.tcount[Slot(k)] + 1 else 0
  {
    hide Slot, Refs, QueueInv;
    var n := g.next;
    if k >= g.oldest + SLOTS {
      SlotNext(k - SLOTS);
      if k - SLOTS != n { SlotsDiffer(k - SLOTS, n); }
    } else if k < n {
      SlotsDiffer(k, n);
    } else if k > n {
      SlotsDiffer(n, k);
    }
  }

  // What a dispatch does to the client queues and the counts.
  lemma HandledFields(s: State, wants: seq<bool>)
    requires WellFormed(s) && |wants| == |s.clients| && MyNextBuf(s.q, s.cursor) != NULL
    ensures var s' := HandleIncoming(s, wants); var (cs, t) := OfferAll(s.clients, s.cursor, wants);
            s'.clients == cs && s'.tcount == if t == 0 then s.tcount else s.tcount[s.cursor := t - 1]
  {
    hide FreeIndex, Move, OfferAll;
  }

  lemma DispatchRefs(s: State, g: Stream, wants: seq<bool>, j: nat)
    requires Inv(s, g) && |wants| == |s.clients| && Dispatches(g) && WellFormed(HandleIncoming(s, wants))
    requires var s' := HandleIncoming(s, wants); var g' := AfterDispatch(s, g, wants, j);
             && s'.q.ptrs == (if OfferAll(s.clients, s.cursor, wants).1 == 0 then s.q.ptrs[s.cursor := NULL]
                 else s.q.ptrs)
             && (forall x :: g.oldest <= x < g'.oldest && x != g.next ==> s.q.ptrs[Slot(x)] == NULL)
             && g.oldest <= g'.oldest <= g.next + 1
    ensures RefsInv(HandleIncoming(s, wants), AfterDispatch(s, g, wants, j))
  {
    hide Slot, Refs, OfferAll, FreeIndex, Move, QueueInv, HandleIncoming;
    NextBufIs(s, g);
    NextInWindow(s, g);
    HandledFields(s, wants);
    var s', g' := HandleIncoming(s, wants), AfterDispatch(s, g, wants, j);
    var t := OfferAll(s.clients, s.cursor, wants).1;
    forall x: int ensures Refs(s'.clients)[x] == if x == s.cursor then t else Refs(s.clients)[x] {
      OfferAllRefs(s.clients, s.cursor, wants, x);
    }
    forall k | g'.oldest <= k < g'.oldest + SLOTS
      ensures Refs(s'.clients)[Slot(k)]
        == if k < g'.next && s'.q.ptrs[Slot(k)] != NULL then s'.tcount[Slot(k)] + 1 else 0
    {
      DispatchRefsAt(s, g, s', g', t, k);
    }
  }

  lemma NextInWindow(s: State, g: Stream)
    requires Inv(s, g) && Dispatches(g)
    ensures Refs(s.clients)[Slot(g.next)] == 0 && g.oldest <= g.next < g.oldest + SLOTS
  {
  }

  // The slot a client takes from holds a dispatched packet that is live.
  lemma HeadIsLive(s: State, g: Stream, i: nat) returns (k: nat)
    requires Inv(s, g) && i < |s.clients| && s.clients[i].rd != s.clients[i].wr
    ensures HeadOk(s, i) && var slot := s.clients[i].fifo[s.clients[i].rd];
            && g.oldest <= k < g.next && Slot(k) == slot && s.q.ptrs[slot] == g.added[k] != NULL
            && Refs(s.clients)[slot] == s.tcount[slot] + 1
  {
    hide Slot, Refs;
    HeadIsRef(s.clients, i, false);
    var slot := s.clients[i].fifo[s.clients[i].rd];
    assert slot in Refs(s.clients);
    k := PositionOf(g, slot);
  }

  // The references after a reference to the packet at position n is taken.
  lemma PopRefsAt(s: State, g: Stream, s': State, g': Stream, n: nat, k: nat)
    requires Inv(s, g) && g.oldest <= n < g.next && WellFormed(s') && s.q.ptrs[Slot(n)] != NULL
    requires Refs(s.clients) == Refs(s'.clients) + multiset{Slot(n)}
    requires g'.next == g.next <= g.oldest + SLOTS && g.oldest <= g'.oldest <= g.oldest + SLOTS
    requires s'.q.ptrs == (if s.tcount[Slot(n)] == 0 then s.q.ptrs[Slot(n) := NULL] else s.q.ptrs)
    requires s'.tcount == (if s.tcount[Slot(n)] == 0 then s.tcount else s.tcount[Slot(n) := s.tcount[Slot(n)] - 1])
    requires g'.oldest > g.oldest ==> g.oldest == n && s.tcount[Slot(n)] == 0
    requires forall x :: g.oldest <= x < g'.oldest && x != n ==> s.q.ptrs[Slot(x)] == NULL
    requires g'.oldest <= k < g'.oldest + SLOTS
    ensures Refs(s'.clients)[Slot(k)] == if k < g'.next && s'.q.ptrs[Slot(k)] != NULL then s'.tcount[Slot(k)] + 1 else 0
  {
    hide Slot, Refs, QueueInv;
    if k >= g.oldest + SLOTS {
      SlotNext(k - SLOTS);
      if k - SLOTS != n { SlotsDiffer(n, k - SLOTS); }
    } else if k < n {
      SlotsDiffer(k, n);
    } else if k > n {
      SlotsDiffer(n, k);
    }
  }

  /** A client takes, or loses, its oldest packet: the reference goes, and the slot is freed
      exactly when it was the last one. */
  lemma PopKeeps(s: State, g: Stream, i: nat, drop: bool) returns (g': Stream)
    requires Inv(s, g) && i < |s.clients|
    ensures HeadOk(s, i) && Inv(Pop(s, i, drop), g') && g'.added == g.added && g'.next == g.next
    ensures s.clients[i].rd != s.clients[i].wr ==>
      var slot := s.clients[i].fifo[s.clients[i].rd];
      && s.q.ptrs[slot] != NULL
      && (Pop(s, i, drop).q.ptrs[slot] == NULL <==> Refs(s.clients)[slot] == 1)
  {
    hide Slot, Refs, QueueInv, FreeIndex, Move;
    g' := g;
    if s.clients[i].rd != s.clients[i].wr {
      var n := HeadIsLive(s, g, i);
      var slot := Slot(n);
      HeadIsRef(s.clients, i, drop);
      var s' := Pop(s, i, drop);
      assert Refs(s.clients) == Refs(s'.clients) + multiset{slot};
      WindowOf(s.q, g);
      if s.tcount[slot] == 0 {
        var j := FreeIndexIs(s.q, g, n);
        g' := Freed(g, n, j);
        WindowOf(s'.q, g');
      }
      forall k | g'.oldest <= k < g'.oldest + SLOTS
        ensures Refs(s'.clients)[Slot(k)]
          == if k < g'.next && s'.q.ptrs[Slot(k)] != NULL then s'.tcount[Slot(k)] + 1 else 0
      {
        PopRefsAt(s, g, s', g', n, k);
      }
      assert forall x :: x in Refs(s'.clients) ==> x in Refs(s.clients);
      assert RefsInv(s', g');
    }
  }

  lemma WindowOf(q: Queue, g: Stream)
    requires QueueInv(q, g)
    ensures g.oldest <= g.next <= |g.added| <= g.oldest + SLOTS
  {
  }

  // ------------------------------------------------------------------------------
  // Runs
  // ------------------------------------------------------------------------------

  datatype Step = Arrived(p: int) | Incoming(wants: seq<bool>) | Popped(i: nat, drop: bool)

  predicate Legal(s: State, e: Step)
    requires WellFormed(s)
  {
    match e
    case Arrived(p) => p != NULL
    case Incoming(wants) => |wants| == |s.clients|
    case Popped(i, drop) => i < |s.clients|
  }

  // One step; nothing is taken from a client whose queue names no slot.
  function Next(s: State, e: Step): (s': State)
    requires WellFormed(s) && Legal(s, e)
    ensures WellFormed(s') && |s'.clients| == |s.clients|
  {
    match e
    case Arrived(p) => Arrive(s, p)
    case Incoming(wants) => HandleIncoming(s, wants)
    case Popped(i, drop) => if HeadOk(s, i) then Pop(s, i, drop) else s
  }

  predicate CanRun(s: State, es: seq<Step>)
    decreases |es|
  {
    WellFormed(s) && (es == [] || (Legal(s, es[0]) && CanRun(Next(s, es[0]), es[1..])))
  }

  function Run(s: State, es: seq<Step>): State
    requires CanRun(s, es)
    decreases |es|
  {
    if es == [] then s else Run(Next(s, es[0]), es[1..])
  }

  // The packets a run dispatches, in order.
  function Dispatched(s: State, es: seq<Step>): seq<int>
    requires CanRun(s, es)
    decreases |es|
  {
    if es == [] then []
    else
      (if es[0].Incoming? && MyNextBuf(s.q, s.cursor) != NULL then [MyNextBuf(s.q, s.cursor)] else [])
      + Dispatched(Next(s, es[0]), es[1..])
  }

  // The packets a run adds, in order.
  function Accepted(s: State, es: seq<Step>): seq<int>
    requires CanRun(s, es)
    decreases |es|
  {
    if es == [] then []
    else (if es[0].Arrived? && !Full(s.q) then [es[0].p] else []) + Accepted(Next(s, es[0]), es[1..])
  }

  lemma StepKeeps(s: State, g: Stream, e: Step) returns (g': Stream)
    requires Inv(s, g) && Legal(s, e)
    ensures Inv(Next(s, e), g') && g'.next <= |g'.added|
    ensures g'.added == g.added + if e.Arrived? && !Full(s.q) then [e.p] else []
    ensures e.Incoming? && MyNextBuf(s.q, s.cursor) != NULL ==>
      g'.next == g.next + 1 && g.next < |g.added| && MyNextBuf(s.q, s.cursor) == g.added[g.next]
    ensures !(e.Incoming? && MyNextBuf(s.q, s.cursor) != NULL) ==> g'.next == g.next
  {
    hide Slot, RefsInv, HandleIncoming, Pop, Arrive;
    match e
    case Arrived(p) =>
      ArriveKeeps(s, g, p);
      g' := if Full(s.q) then g else g.(added := g.added + [p]);
    case Incoming(wants) =>
      NextBufIs(s, g);
      g' := DispatchKeeps(s, g, wants);
    case Popped(i, drop) =>
      g' := PopKeeps(s, g, i, drop);
  }

  /** Over every interleaving of arrivals, dispatches, takes and drops: the packets
      dispatched are, each once and in their order, the first ones of those that had been
      added and not dispatched and those added since. */
  lemma {:induction false} RunDispatchesInOrder(s: State, g: Stream, es: seq<Step>) returns (g': Stream)
    requires Inv(s, g) && CanRun(s, es)
    ensures Inv(Run(s, es), g') && g'.next <= |g'.added|
    ensures g'.added == g.added + Accepted(s, es)
    ensures g.next <= g'.next && Dispatched(s, es) == g'.added[g.next..g'.next]
    decreases |es|
  {
    hide Inv, Next, Legal, Full, MyNextBuf;
    if es == [] {
      g' := g;
      assert g.added + [] == g.added;
      InvBounds(s, g);
    } else {
      var g1 := StepKeeps(s, g, es[0]);
      g' := RunDispatchesInOrder(Next(s, es[0]), g1, es[1..]);
      assert g'.added[..|g1.added|] == g1.added;
      if es[0].Incoming? && MyNextBuf(s.q, s.cursor) != NULL {
        assert g'.added[g.next] == g.added[g.next];
        assert g'.added[g.next..g'.next] == [g.added[g.next]] + g'.added[g1.next..g'.next];
      }
    }
  }

  lemma InvBounds(s: State, g: Stream)
    requires Inv(s, g)
    ensures g.next <= |g.added|
  {
  }

  // ------------------------------------------------------------------------------
  // What each client is given
  // ------------------------------------------------------------------------------

  // The packets that wait for client i.
  ghost function Packets(s: State, i: nat): (r: seq<int>)
    requires WellFormed(s) && i < |s.clients|
    ensures |r| == |Waiting(s.clients[i])|
  {
    var w := Waiting(s.clients[i]);
    seq(|w|, n requires 0 <= n < |w| => PacketIn(s.q, w[n]))
  }

  function PacketIn(q: Queue, slot: int): int
    requires QueueOk(q)
  {
    if 0 <= slot < SLOTS then q.ptrs[slot] else NULL
  }

  // The packets a step puts into the queue of client i, and takes out of it.
  function Put(s: State, e: Step, i: nat): seq<int>
    requires WellFormed(s) && Legal(s, e) && i < |s.clients|
  {
    if e.Incoming? && MyNextBuf(s.q, s.cursor) != NULL && e.wants[i] &&
        |Waiting(s.clients[i])| < |s.clients[i].fifo| - 1
    then [MyNextBuf(s.q, s.cursor)] else []
  }

  function Gone(s: State, e: Step, i: nat): seq<Left>
    requires WellFormed(s) && Legal(s, e) && i < |s.clients|
  {
    var c := s.clients[i];
    if e.Popped? && e.i == i && c.rd != c.wr then [(PacketIn(s.q, c.fifo[c.rd]), e.drop)] else []
  }

  // The packets client i loses: no room when they are dispatched, or dropped from its queue.
  function Lost(s: State, e: Step, i: nat): nat
    requires WellFormed(s) && Legal(s, e) && i < |s.clients|
  {
    var c := s.clients[i];
    if e.Incoming? && MyNextBuf(s.q, s.cursor) != NULL && e.wants[i] && |Waiting(c)| == |c.fifo| - 1 then 1
    else if e.Popped? && e.i == i && c.rd != c.wr && e.drop then 1
    else 0
  }

  lemma WaitingIsRef(cs: seq<Client>, i: nat, n: nat)
    requires (forall j :: 0 <= j < |cs| ==> ClientOk(cs[j])) && i < |cs| && n < |Waiting(cs[i])|
    ensures Waiting(cs[i])[n] in Refs(cs)
  {
    hide Waiting, Refs;
    var x, none := Waiting(cs[i])[n], Client(0, 0, cs[i].fifo, 0);
    RefsUpdate(cs, i, none);
    assert |Waiting(none)| == Count(none) == 0;
    assert x in multiset(Waiting(cs[i]));
    assert x in Refs(cs[i := none]) + multiset(Waiting(cs[i]));
  }

  // A slot that waits for a client keeps its packet as long as it does.
  lemma WaitingIsLive(s: State, g: Stream, i: nat, n: nat)
    requires Inv(s, g) && i < |s.clients| && n < |Waiting(s.clients[i])|
    ensures var x := Waiting(s.clients[i])[n]; 0 <= x < SLOTS && s.q.ptrs[x] != NULL
  {
    hide Slot, Refs, Waiting, QueueInv;
    var x := Waiting(s.clients[i])[n];
    WaitingIsRef(s.clients, i, n);
    var k := PositionOf(g, x);
  }

  // A step replaces no packet but by none.
  lemma PointersStay(s: State, e: Step, x: nat)
    requires WellFormed(s) && Legal(s, e) && x < SLOTS && s.q.ptrs[x] != NULL && Next(s, e).q.ptrs[x] != NULL
    ensures Next(s, e).q.ptrs[x] == s.q.ptrs[x]
  {
  }

  // How the slots that wait for a client change.
  lemma SlotsStep(s: State, e: Step, i: nat)
    requires WellFormed(s) && Legal(s, e) && i < |s.clients|
    requires e.Popped? ==> HeadOk(s, e.i)
    ensures var w, w' := Waiting(s.clients[i]), Waiting(Next(s, e).clients[i]);
            if Put(s, e, i) != [] then w' == w + [s.cursor]
            else if Gone(s, e, i) != [] then w != [] && w == [s.clients[i].fifo[s.clients[i].rd]] + w'
            else w' == w
    ensures Next(s, e).clients[i].dropped == s.clients[i].dropped + Lost(s, e, i)
  {
    hide OfferAll, FreeIndex, Move, Waiting;
    if e.Incoming? && MyNextBuf(s.q, s.cursor) != NULL {
      OfferAllQueues(s.clients, s.cursor, e.wants, i);
      OfferAllDrops(s.clients, s.cursor, e.wants, i);
      assert Waiting(s.clients[i]) + [] == Waiting(s.clients[i]);
    } else if e.Popped? && s.clients[e.i].rd != s.clients[e.i].wr {
      PopIs(s.clients[e.i], e.drop);
    }
  }

  lemma ClientStep(s: State, g: Stream, e: Step, i: nat) returns (g': Stream)
    requires Inv(s, g) && Legal(s, e) && i < |s.clients|
    ensures Inv(Next(s, e), g')
    ensures Packets(s, i) + Put(s, e, i) == Buffers(Gone(s, e, i)) + Packets(Next(s, e), i)
    ensures Next(s, e).clients[i].dropped == s.clients[i].dropped + Lost(s, e, i)
  {
    hide Inv, Next, Legal, Full, MyNextBuf, Waiting, HeadOk;
    InvWellFormed(s, g);
    g' := StepKeeps(s, g, e);
    HeadsOk(s, g, e);
    SlotsStep(s, e, i);
    var s' := Next(s, e);
    var w, w' := Waiting(s.clients[i]), Waiting(s'.clients[i]);
    forall n | 0 <= n < |w'| ensures 0 <= w'[n] < SLOTS && s'.q.ptrs[w'[n]] != NULL { WaitingIsLive(s', g', i, n); }
    forall n | 0 <= n < |w| ensures 0 <= w[n] < SLOTS && s.q.ptrs[w[n]] != NULL { WaitingIsLive(s, g, i, n); }
    PutIsPointer(s, e, i);
    forall n | 0 <= n < |w'| ensures s'.q.ptrs[w'[n]] == s.q.ptrs[w'[n]] {
      assert w'[n] == if Put(s, e, i) != [] && n == |w| then s.cursor
          else if Gone(s, e, i) != [] then w[n + 1] else w[n];
      PointersStay(s, e, w'[n]);
    }
  }

  lemma HeadsOk(s: State, g: Stream, e: Step)
    requires Inv(s, g) && Legal(s, e)
    ensures e.Popped? ==> HeadOk(s, e.i)
  {
    if e.Popped? { var g' := PopKeeps(s, g, e.i, e.drop); }
  }

  lemma PutIsPointer(s: State, e: Step, i: nat)
    requires WellFormed(s) && Legal(s, e) && i < |s.clients|
    ensures Put(s, e, i) != [] ==> Put(s, e, i) == [s.q.ptrs[s.cursor]] && s.q.ptrs[s.cursor] != NULL
  {
  }

  function AllPut(s: State, es: seq<Step>, i: nat): seq<int>
    requires CanRun(s, es)
    decreases |es|
  {
    if es == [] || i >= |s.clients| then [] else Put(s, es[0], i) + AllPut(Next(s, es[0]), es[1..], i)
  }

  function AllGone(s: State, es: seq<Step>, i: nat): seq<Left>
    requires CanRun(s, es)
    decreases |es|
  {
    if es == [] || i >= |s.clients| then [] else Gone(s, es[0], i) + AllGone(Next(s, es[0]), es[1..], i)
  }

  function AllLost(s: State, es: seq<Step>, i: nat): nat
    requires CanRun(s, es)
    decreases |es|
  {
    if es == [] || i >= |s.clients| then 0 else Lost(s, es[0], i) + AllLost(Next(s, es[0]), es[1..], i)
  }

  /** Over every interleaving each client's queue is a FIFO queue of packets: those it is given,
      or loses to a drop, are in order exactly those that were dispatched, wanted by it and met
      with room; what is not gone still waits, in the slot it was put in, and what is lost is
      counted. */
  lemma {:induction false} ClientsAreFifo(s: State, g: Stream, es: seq<Step>, i: nat)
    requires Inv(s, g) && CanRun(s, es) && i < |s.clients|
    ensures var r := Run(s, es);
            && WellFormed(r) && i < |r.clients|
            && Packets(s, i) + AllPut(s, es, i) == Buffers(AllGone(s, es, i)) + Packets(r, i)
            && r.clients[i].dropped == s.clients[i].dropped + AllLost(s, es, i)
    decreases |es|
  {
    hide Inv, Next, Legal, Packets, Put, Gone, Lost, Buffers;
    if es == [] {
      var w := Packets(s, i);
      assert Buffers([]) == [] && w + [] == w == [] + w;
    } else {
      var g1 := ClientStep(s, g, es[0], i);
      var s1 := Next(s, es[0]);
      ClientsAreFifo(s1, g1, es[1..], i);
      QueueGlue(Packets(s, i), Put(s, es[0], i), Gone(s, es[0], i), Packets(s1, i),
                AllPut(s1, es[1..], i), AllGone(s1, es[1..], i), Packets(Run(s, es), i));
    }
  }

  function Init(clients: nat, size: nat): State
    requires size > 0
  {
    State(Queue(0, 0, seq(SLOTS, _ => NULL)), 0, Fresh(clients, size), seq(SLOTS, _ => 0))
  }

  /** An initialised queue is empty. */
  lemma InitInv(clients: nat, size: nat)
    requires size > 0
    ensures Inv(Init(clients, size), Stream(0, 0, []))
  {
    NoRefs(clients, size);
  }

  /** Thirty-two packets that arrive before the server dispatches the first of them stop the
      queue for good: the server takes a full queue for an empty one, no client has a
      packet to release, and no other can be added. With the oldest packet dispatched, a
      full queue waits for a client. */
  lemma FullIsStuckIff(s: State, g: Stream)
    requires Inv(s, g) && Full(s.q)
    ensures (forall e :: Legal(s, e) ==> Next(s, e) == s) <==> g.next == g.oldest
  {
    hide Slot, Refs, QueueInv, Pop;
    ArriveKeeps(s, g, 1);
    WindowOf(s.q, g);
    if g.next == g.oldest {
      forall e | Legal(s, e) ensures Next(s, e) == s { FullIsStuck(s, g, e); }
    } else {
      var i := OldestIsWaited(s, g);
      Taking(s, g, i);
      assert Legal(s, Popped(i, false)) && Next(s, Popped(i, false)) != s;
    }
  }

  function Arrivals(ps: seq<int>): (es: seq<Step>)
    ensures |es| == |ps|
  {
    seq(|ps|, i requires 0 <= i < |ps| => Arrived(ps[i]))
  }

  lemma {:induction false} ArrivalsFill(s: State, g: Stream, ps: seq<int>)
    requires Inv(s, g) && NULL !in ps && |g.added| + |ps| <= g.oldest + SLOTS
    ensures CanRun(s, Arrivals(ps)) && Inv(Run(s, Arrivals(ps)), g.(added := g.added + ps))
    decreases |ps|
  {
    hide Inv, Full;
    InvWellFormed(s, g);
    if ps == [] {
      assert g.added + ps == g.added;
    } else {
      ArriveKeeps(s, g, ps[0]);
      var g1 := g.(added := g.added + [ps[0]]);
      ArrivalsFill(Arrive(s, ps[0]), g1, ps[1..]);
      assert Arrivals(ps)[1..] == Arrivals(ps[1..]);
      assert g1.added + ps[1..] == g.added + ps;
    }
  }

  lemma InvWellFormed(s: State, g: Stream)
    requires Inv(s, g)
    ensures WellFormed(s)
  {
  }

  /** From the start, any thirty-two packets that arrive in a row lead there: whatever is called
      afterwards, nothing changes any more. */
  lemma ThirtyTwoArrivalsStop(clients: nat, size: nat, ps: seq<int>, e: Step)
    requires size > 0 && |ps| == SLOTS && NULL !in ps
    ensures CanRun(Init(clients, size), Arrivals(ps))
    ensures var s := Run(Init(clients, size), Arrivals(ps));
            WellFormed(s) && Full(s.q) && (Legal(s, e) ==> Next(s, e) == s)
  {
    hide Inv, Next;
    var s0, g0 := Init(clients, size), Stream(0, 0, []);
    InitInv(clients, size);
    ArrivalsFill(s0, g0, ps);
    var s, g := Run(s0, Arrivals(ps)), g0.(added := g0.added + ps);
    assert g0.added + ps == ps;
    InvWellFormed(s, g);
    ArriveKeeps(s, g, 1);
    if Legal(s, e) { FullIsStuck(s, g, e); }
  }

  lemma FullIsStuck(s: State, g: Stream, e: Step)
    requires Inv(s, g) && Legal(s, e) && |g.added| == g.oldest + SLOTS && g.next == g.oldest
    ensures Next(s, e) == s
  {
    hide Slot, Refs;
    NextBufIs(s, g);
    match e
    case Arrived(p) => ArriveKeeps(s, g, p);
    case Incoming(wants) =>
    case Popped(i, drop) =>
      if s.clients[i].rd != s.clients[i].wr {
        var k := HeadIsLive(s, g, i);
        assert false;
      }
  }

  lemma OldestIsWaited(s: State, g: Stream) returns (i: nat)
    requires Inv(s, g) && g.oldest < g.next
    ensures i < |s.clients| && s.clients[i].rd != s.clients[i].wr
  {
    hide Slot, Refs;
    assert Refs(s.clients)[Slot(g.oldest)] == s.tcount[Slot(g.oldest)] + 1;
    i := RefIsWaiting(s.clients, Slot(g.oldest));
  }

  lemma Taking(s: State, g: Stream, i: nat)
    requires Inv(s, g) && i < |s.clients| && s.clients[i].rd != s.clients[i].wr
    ensures HeadOk(s, i) && Pop(s, i, false) != s
  {
    hide Slot, Refs, QueueInv, FreeIndex;
    var k := HeadIsLive(s, g, i);
    assert Pop(s, i, false).clients[i].rd != s.clients[i].rd;
  }
}
