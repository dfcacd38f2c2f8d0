/** A transmit pool of the MII real-time MAC in use: one client requests, is given and fills
    a packet at a time, the packets wait in the queue, and the transmitter sends and frees
    the oldest. */
module MiiPool {
  import opened Bytes
  import opened MiiQueue
  import opened MiiMemory

  // The pool, its memory and its queue; requested_send_buffer_size and send_buffer of the
  // client, which is the high-priority one or not.
  datatype State = State(high: bool, pool: Pool, mem: seq<Byte>, q: Queue, requested: nat, buffer: int)

  predicate WellFormed(s: State) {
    && PoolOk(s.pool) && |s.mem| == 4 * Size(s.pool) && Words(MAX_FRAME) + SAFE <= Size(s.pool)
    && QueueOk(s.q) && s.requested <= MAX_FRAME
    && (s.buffer == NULL || Starts(s.pool, s.buffer))
  }

  // ------------------------------------------------------------------------------
  // A packet in memory
  // ------------------------------------------------------------------------------

  // The byte y words behind the header's first, as an index.
  function Index(p: Pool, a: nat, y: nat): (i: nat)
    requires Starts(p, a) && y < SAFE
    ensures i < 4 * (p.end - p.start)
  {
    4 * (a - p.start + y)
  }

  predicate Backed(p: Pool, mem: seq<Byte>) {
    PoolOk(p) && |mem| == 4 * Size(p) && Words(MAX_FRAME) + SAFE <= Size(p)
  }

  // buf->length
  function LengthAt(p: Pool, mem: seq<Byte>, a: nat): nat
    requires Backed(p, mem) && Starts(p, a)
  {
    Decode(ReadAt(mem, Index(p, a, 0), 4))
  }

  // The writes of _complete_send_packet: the data, then the length.
  function Store(p: Pool, mem: seq<Byte>, a: nat, d: seq<Byte>): (r: seq<Byte>)
    requires Backed(p, mem) && Starts(p, a) && |d| <= MAX_FRAME
    ensures |r| == |mem|
  {
    WriteAt(WriteAt(mem, Index(p, a, HEADER), d), Index(p, a, 0), Encode(|d|))
  }

  // The bytes that mii_transmit_packet sends: two words at least.
  function WireLength(n: nat): nat {
    if n < 8 then 8 + n % 4 else n
  }

  function Sent(p: Pool, mem: seq<Byte>, a: nat): seq<Byte>
    requires Backed(p, mem) && Starts(p, a) && LengthAt(p, mem, a) <= MAX_FRAME
  {
    ReadAt(mem, Index(p, a, HEADER), WireLength(LengthAt(p, mem, a)))
  }

  // Memory holds the packet with this frame at this address.
  predicate Holds(p: Pool, mem: seq<Byte>, a: nat, f: seq<Byte>)
    requires Backed(p, mem)
  {
    && Starts(p, a) && |f| <= MAX_FRAME && LengthAt(p, mem, a) == |f|
    && ReadAt(mem, Index(p, a, HEADER), |f|) == f
  }

  // A position in the stream of words ever used, as an address; base is the position of the
  // block's start in the round of the oldest packet.
  function Address(p: Pool, base: nat, x: nat): (a: nat)
    requires PoolOk(p) && base <= x < base + 2 * Size(p)
    ensures p.start <= a < p.end
  {
    if x < base + Size(p) then p.start + x - base else p.start + x - base - Size(p)
  }

  lemma AddressAhead(p: Pool, base: nat, x: nat, y: nat)
    requires PoolOk(p) && base <= x < base + 2 * Size(p) && Starts(p, Address(p, base, x)) && y < SAFE
    ensures x + y < base + 2 * Size(p) && Address(p, base, x + y) == Address(p, base, x) + y
  {
  }

  lemma AddressStep(p: Pool, base: nat, y: nat, x: nat)
    requires PoolOk(p) && base <= y && y + x < base + 2 * Size(p) && x < Size(p)
    ensures Address(p, base, y + x) == p.start + Around(Address(p, base, y) - p.start, x, Size(p))
  {
  }

  lemma AddressInjective(p: Pool, base: nat, x: nat, y: nat)
    requires PoolOk(p) && base <= x < y < x + Size(p) && y < base + 2 * Size(p)
    ensures Address(p, base, x) != Address(p, base, y)
  {
  }

  // The bytes before a write and less than a round behind it are kept.
  lemma Clear(p: Pool, base: nat, mem: seq<Byte>, w: nat, d: seq<Byte>, x: nat, n: nat)
    requires Backed(p, mem) && base <= x && w < base + 2 * Size(p) && x < base + 2 * Size(p) && base <= w
    requires 4 * x + n <= 4 * w && 4 * w + |d| <= 4 * (x + Size(p)) && n <= |mem| && |d| <= |mem|
    ensures var i, j := 4 * (Address(p, base, w) - p.start), 4 * (Address(p, base, x) - p.start);
            ReadAt(WriteAt(mem, i, d), j, n) == ReadAt(mem, j, n)
  {
    hide ReadAt, WriteAt;
    ReadElsewhere(mem, 4 * (Address(p, base, w) - p.start), d, 4 * (Address(p, base, x) - p.start), n);
  }

  /** A packet that is stored is there, round the end or not. */
  lemma StoreHolds(p: Pool, mem: seq<Byte>, a: nat, d: seq<Byte>)
    requires Backed(p, mem) && Starts(p, a) && |d| <= MAX_FRAME
    ensures Holds(p, Store(p, mem, a, d), a, d)
  {
    hide ReadAt, WriteAt, Encode, Decode;
    var i, j := Index(p, a, HEADER), Index(p, a, 0);
    var mem1 := WriteAt(mem, i, d);
    ReadBack(mem, i, d);
    ReadBack(mem1, j, Encode(|d|));
    ReadElsewhere(mem1, j, Encode(|d|), i, |d|);
    DecodeEncode(|d|);
  }

  /** A packet that ends before another one that is stored, and starts less than a round
      before its end, is kept: header and data. */
  lemma StoreKeeps(p: Pool, base: nat, mem: seq<Byte>, w: nat, d: seq<Byte>, x: nat, f: seq<Byte>)
    requires Backed(p, mem) && base <= x && w < base + 2 * Size(p) && x + Words(|f|) <= w && |d| <= MAX_FRAME
    requires w + Words(|d|) <= x + Size(p) && Starts(p, Address(p, base, w)) && Holds(p, mem, Address(p, base, x), f)
    ensures Holds(p, Store(p, mem, Address(p, base, w), d), Address(p, base, x), f)
  {
    hide ReadAt, WriteAt, Encode, Decode;
    var a, b := Address(p, base, w), Address(p, base, x);
    AddressAhead(p, base, w, HEADER);
    AddressAhead(p, base, x, HEADER);
    var mem1 := WriteAt(mem, Index(p, a, HEADER), d);
    Clear(p, base, mem, w + HEADER, d, x, 4);
    Clear(p, base, mem1, w, Encode(|d|), x, 4);
    Clear(p, base, mem, w + HEADER, d, x + HEADER, |f|);
    Clear(p, base, mem1, w, Encode(|d|), x + HEADER, |f|);
  }

  // What goes out for a frame: its bytes in order, and nothing else exactly when it has
  // eight or more.
  predicate Carries(out: seq<Byte>, f: seq<Byte>) {
    |f| <= |out| && out[..|f|] == f && (out == f <==> |f| >= 8)
  }

  lemma SentCarries(p: Pool, mem: seq<Byte>, a: nat, f: seq<Byte>)
    requires Backed(p, mem) && Holds(p, mem, a, f)
    ensures Carries(Sent(p, mem, a), f)
    ensures |Sent(p, mem, a)| == if |f| < 8 then 8 + |f| % 4 else |f|
  {
  }

  // ------------------------------------------------------------------------------
  // The steps
  // ------------------------------------------------------------------------------

  // _init_send_packet
  function Request(s: State, n: nat): State {
    if !s.high && s.buffer == NULL then s.(requested := n) else s
  }

  function Oldest(q: Queue): int
    requires QueueOk(q)
  {
    q.ptrs[q.rd]
  }

  // A turn of the server's loop.
  function Reserve(s: State): State
    requires WellFormed(s)
  {
    if Full(s.q) || s.requested == 0 || s.buffer != NULL then s
    else s.(buffer := ReserveAtLeast(s.pool, Oldest(s.q), s.requested + PACKET_BYTES))
  }

  // _complete_send_packet
  function Complete(s: State, d: seq<Byte>): State
    requires WellFormed(s) && s.buffer != NULL && |d| <= s.requested
  {
    State.State(s.high, Commit(s.pool, EndOf(s.pool, s.buffer, |d|)), Store(s.pool, s.mem, s.buffer, d),
          AddPacket(s.q, s.buffer), if s.high then s.requested else 0, NULL)
  }

  predicate Sendable(s: State)
    requires WellFormed(s)
  {
    Oldest(s.q) != NULL ==> Starts(s.pool, Oldest(s.q)) && LengthAt(s.pool, s.mem, Oldest(s.q)) <= MAX_FRAME
  }

  // The transmitter sends the oldest packet and frees it.
  function Free(s: State): State
    requires WellFormed(s)
  {
    if Oldest(s.q) == NULL then s else s.(q := FreeIndex(s.q, s.q.rd))
  }

  // ------------------------------------------------------------------------------
  // The invariant
  // ------------------------------------------------------------------------------

  // The queue's packets with their frames and positions; the last position is that of the
  // write pointer.
  datatype Log = Log(g: Stream, base: nat, pos: seq<nat>, frames: seq<seq<Byte>>)

  ghost predicate Shape(l: Log) {
    |l.pos| == |l.frames| + 1 == |l.g.added| + 1 && l.g.next == l.g.oldest <= |l.frames|
  }

  // Packets lie one behind the other in less than one round.
  ghost predicate Placed(p: Pool, l: Log)
    requires PoolOk(p) && Shape(l)
  {
    var first, head := l.pos[l.g.oldest], l.pos[|l.frames|];
    && l.base <= first < l.base + Size(p) && head < first + Size(p)
    && (forall j, k :: l.g.oldest <= j < k < |l.pos| ==> l.pos[j] + Words(|l.frames[j]|) <= l.pos[k])
    && (forall k :: l.g.oldest <= k < |l.pos| ==> first <= l.pos[k] <= head)
    && (forall k :: l.g.oldest <= k < |l.frames| ==> l.g.added[k] == Address(p, l.base, l.pos[k]))
    && p.wr == Address(p, l.base, head)
  }

  ghost predicate Inv(s: State, l: Log) {
    && WellFormed(s) && Shape(l) && QueueInv(s.q, l.g) && Placed(s.pool, l)
    && (forall k :: l.g.oldest <= k < |l.frames| ==>
          l.g.added[k] >= 0 && Holds(s.pool, s.mem, l.g.added[k], l.frames[k]))
    && (s.buffer != NULL ==>
          && s.buffer == s.pool.wr && |l.frames| < l.g.oldest + SLOTS
          && l.pos[|l.frames|] + Words(s.requested) + SAFE <= l.pos[l.g.oldest] + Size(s.pool))
  }

  /** Two packets that wait have no word in common, nor with what is reserved, and the write
      pointer is not at any of them. */
  lemma Disjoint(s: State, l: Log, j: nat, x: nat, k: nat, y: nat)
    requires Inv(s, l) && l.g.oldest <= j < k < |l.pos|
    requires x < Words(|l.frames[j]|)
    requires k < |l.frames| ==> y < Words(|l.frames[k]|)
    requires k == |l.frames| ==> y == 0 || (s.buffer != NULL && y < Words(s.requested))
    ensures var m := Size(s.pool); var at := if k < |l.frames| then l.g.added[k] else s.pool.wr;
            Around(l.g.added[j] - s.pool.start, x, m) != Around(at - s.pool.start, y, m)
  {
    hide QueueInv, Address, Around, Holds, Words;
    var p, u, v := s.pool, l.pos[j], l.pos[k];
    assert u + Words(|l.frames[j]|) <= v;
    if k < |l.frames| { assert v + Words(|l.frames[k]|) <= l.pos[|l.frames|]; }
    assert l.pos[l.g.oldest] <= u && v + y < l.pos[l.g.oldest] + Size(p);
    AddressStep(p, l.base, u, x);
    AddressStep(p, l.base, v, y);
    AddressInjective(p, l.base, u + x, v + y);
  }

  lemma OldestIs(q: Queue, g: Stream)
    requires QueueInv(q, g) && g.next == g.oldest
    ensures Oldest(q) == if g.oldest < |g.added| then g.added[g.oldest] else NULL
    ensures Oldest(q) != NULL <==> g.oldest < |g.added|
  {
  }

  /** What a reservation grants holds the packet, the words skipped behind it and one word more,
      clear of all that wait. */
  lemma ReserveKeeps(s: State, l: Log)
    requires Inv(s, l)
    ensures Inv(Reserve(s), l)
  {
    hide QueueInv, Full, Holds;
    OldestIs(s.q, l.g);
    FullIs(s.q, l.g);
  }

  /** With a request, no buffer held and a slot in the queue, a reservation is granted, at the
      write pointer, exactly when no packet waits or the free bytes, from the write pointer
      round to the oldest packet, hold what is asked for and a whole packet structure. In every
      other case the call does nothing. */
  lemma ReserveGrantsIff(s: State, l: Log)
    requires Inv(s, l)
    ensures var r := Reserve(s); var oldest, last := l.pos[l.g.oldest], l.pos[|l.frames|];
            if s.requested != 0 && s.buffer == NULL && |l.frames| < l.g.oldest + 32 then
              && (r.buffer != NULL <==>
                    l.g.oldest == |l.frames| || 4 * (oldest + (s.pool.end - s.pool.start) - last) >= s.requested + 1568)
              && (r.buffer != NULL ==> r == s.(buffer := s.pool.wr)) && (r.buffer == NULL ==> r == s)
            else r == s
  {
    hide QueueInv, Full, Holds;
    OldestIs(s.q, l.g);
    FullIs(s.q, l.g);
  }

  /** What counts is the size asked for last. */
  lemma RequestThenReserve(s: State, l: Log, n: nat)
    requires Inv(s, l) && n <= MAX_FRAME && !s.high && s.buffer == NULL && |l.frames| < l.g.oldest + 32
    ensures var oldest, last := l.pos[l.g.oldest], l.pos[|l.frames|];
            Reserve(Request(s, n)).buffer != NULL <==>
              n != 0 && (l.g.oldest == |l.frames| || 4 * (oldest + (s.pool.end - s.pool.start) - last) >= n + 1568)
  {
    hide QueueInv, Full, Holds, Placed, Reserve;
    ReserveGrantsIff(Request(s, n), l);
  }

  /** Once all is sent, every request is granted; and a client that asks an idle pool for room for
      a frame gets it, and the frame goes out. */
  lemma IdlePoolSends(s: State, l: Log, d: seq<Byte>) returns (es: seq<Step>)
    requires Inv(s, l) && l.g.oldest == |l.frames| && s.buffer == NULL && 0 < |d| <= MAX_FRAME
    requires s.high ==> s.requested == MAX_FRAME
    ensures es == (if s.high then [] else [Requested(|d|)]) + [Reserving, Completed(d), Sending]
    ensures CanRun(s, es) && |Transmitted(s, es)| == 1 && Carries(Transmitted(s, es)[0], d)
    ensures var r := Run(s, es); r.buffer == NULL && (if s.high then r.requested == MAX_FRAME else r.requested == 0)
  {
    hide QueueInv, Holds, Placed, Full, Carries, Store, AddPacket, FreeIndex, Sent, Oldest, Commit, EndOf;
    var s0 := if s.high then s else Request(s, |d|);
    ReserveGrantsIff(s0, l);
    ReserveKeeps(s0, l);
    var s1 := Reserve(s0);
    var l2 := CompleteKeeps(s1, l, d);
    var s2 := Complete(s1, d);
    var l3 := FreeKeeps(s2, l2);
    var s3 := Free(s2);
    var e2: seq<Step> := [Sending];
    var e1 := [Completed(d)] + e2;
    var e0 := [Reserving] + e1;
    assert e2[1..] == [] && CanRun(s2, e2) && Run(s2, e2) == s3;
    assert Transmitted(s2, e2) == [Sent(s2.pool, s2.mem, Oldest(s2.q))] + [];
    assert e1[1..] == e2 && CanRun(s1, e1) && Run(s1, e1) == s3 && Transmitted(s1, e1) == [] + Transmitted(s2, e2);
    assert e0[1..] == e1 && CanRun(s0, e0) && Run(s0, e0) == s3 && Transmitted(s0, e0) == [] + Transmitted(s1, e1);
    if s.high {
      es := e0;
      assert [] + e0 == e0;
    } else {
      es := [Requested(|d|)] + e0;
      assert es[1..] == e0 && Transmitted(s, es) == [] + Transmitted(s0, e0);
    }
    assert [Reserving, Completed(d), Sending] == e0;
  }

  lemma FullIs(q: Queue, g: Stream)
    requires QueueInv(q, g)
    ensures Full(q) <==> |g.added| == g.oldest + SLOTS
    ensures g.oldest <= |g.added| <= g.oldest + SLOTS
  {
  }

  ghost function Committed(l: Log, buffer: int, x: nat, d: seq<Byte>): Log
    requires l.pos != []
  {
    Log(l.g.(added := l.g.added + [buffer]), l.base, l.pos + [l.pos[|l.pos| - 1] + x], l.frames + [d])
  }

  lemma SameAddresses(p: Pool, r: Pool, base: nat)
    requires PoolOk(p) && PoolOk(r) && r == p.(wr := r.wr)
    ensures Size(r) == Size(p) && forall x :: base <= x < base + 2 * Size(p) ==>
            Address(r, base, x) == Address(p, base, x)
  {
  }

  lemma PlacedCommitted(p: Pool, l: Log, x: nat, d: seq<Byte>, r: Pool)
    requires PoolOk(p) && Shape(l) && Placed(p, l) && Words(|d|) <= x
    requires l.pos[|l.frames|] + x < l.pos[l.g.oldest] + Size(p)
    requires r == p.(wr := r.wr) && PoolOk(r) && r.wr - p.start == Around(p.wr - p.start, x, Size(p))
    ensures Shape(Committed(l, p.wr, x, d)) && Placed(r, Committed(l, p.wr, x, d))
  {
    hide Words, Around, Address;
    var l' := Committed(l, p.wr, x, d);
    SameAddresses(p, r, l.base);
    AddressStep(p, l.base, l.pos[|l.frames|], x);
    forall j, k | l.g.oldest <= j < k < |l'.pos| ensures l'.pos[j] + Words(|l'.frames[j]|) <= l'.pos[k] {
      if k == |l.pos| && j < |l.frames| {
        assert l.pos[j] + Words(|l.frames[j]|) <= l.pos[|l.frames|];
      }
    }
  }

  /** A packet that is completed is placed behind the others and whole in memory; they stay
      whole. */
  lemma CompleteKeeps(s: State, l: Log, d: seq<Byte>) returns (l': Log)
    requires Inv(s, l) && s.buffer != NULL && |d| <= s.requested
    ensures Inv(Complete(s, d), l') && l'.frames == l.frames + [d]
    ensures l'.g.oldest == l.g.oldest
  {
    hide QueueInv, AddPacket, Full, Holds, EndOf, Store, PoolOk;
    FullIs(s.q, l.g);
    AddIs(s.q, l.g, s.buffer);
    var x := CommitAdvances(s.pool, |d|);
    l' := Committed(l, s.buffer, x, d);
    PlacedCommitted(s.pool, l, x, d, Complete(s, d).pool);
    StoreHolds(s.pool, s.mem, s.buffer, d);
    var mem := Store(s.pool, s.mem, s.buffer, d);
    forall k | l.g.oldest <= k < |l.frames|
      ensures l.g.added[k] >= 0 && Holds(s.pool, mem, l.g.added[k], l.frames[k])
    {
      StoreKeeps(s.pool, l.base, s.mem, l.pos[|l.frames|], d, l.pos[k], l.frames[k]);
    }
    HoldsPool(s.pool, Complete(s, d).pool, mem);
  }

  lemma HoldsPool(p: Pool, r: Pool, mem: seq<Byte>)
    requires Backed(p, mem) && PoolOk(r) && r == p.(wr := r.wr)
    ensures Backed(r, mem) && forall a: nat, f :: Holds(p, mem, a, f) ==> Holds(r, mem, a, f)
  {
  }

  ghost function Released(p: Pool, l: Log): Log
    requires PoolOk(p) && Shape(l) && l.g.oldest < |l.frames|
  {
    l.(g := l.g.(oldest := l.g.oldest + 1, next := l.g.oldest + 1),
       base := if l.pos[l.g.oldest + 1] < l.base + Size(p) then l.base else l.base + Size(p))
  }

  lemma PlacedReleased(p: Pool, l: Log)
    requires PoolOk(p) && Shape(l) && Placed(p, l) && l.g.oldest < |l.frames|
    ensures Shape(Released(p, l)) && Placed(p, Released(p, l)) && l.pos[l.g.oldest] <= l.pos[l.g.oldest + 1]
  {
    hide Words;
    var k := l.g.oldest;
    var l' := Released(p, l);
    assert l.pos[k] + Words(|l.frames[k]|) <= l.pos[k + 1];
    forall j | k + 1 <= j < |l.pos| ensures l.pos[k + 1] <= l.pos[j] {
      if j > k + 1 { assert l.pos[k + 1] + Words(|l.frames[k + 1]|) <= l.pos[j]; }
    }
  }

  /** The packet that is sent carries its frame, and freeing it keeps the others. */
  lemma FreeKeeps(s: State, l: Log) returns (l': Log)
    requires Inv(s, l)
    ensures Inv(Free(s), l') && l'.frames == l.frames && Sendable(s)
    ensures l.g.oldest == |l.frames| ==> Oldest(s.q) == NULL && l' == l
    ensures l.g.oldest < |l.frames| ==>
      && l'.g.oldest == l.g.oldest + 1 && Oldest(s.q) != NULL
      && Carries(Sent(s.pool, s.mem, Oldest(s.q)), l.frames[l.g.oldest])
  {
    hide QueueInv, FreeIndex, Holds, Placed, Oldest, Carries, PoolOk;
    OldestIs(s.q, l.g);
    l' := l;
    var k := l.g.oldest;
    if k < |l.frames| {
      HeldIs(s, l.g.added[k], l.frames[k]);
      FreeOldest(s.q, l.g);
      l' := Released(s.pool, l);
      PlacedReleased(s.pool, l);
    }
  }

  lemma HeldIs(s: State, a: nat, f: seq<Byte>)
    requires WellFormed(s) && Holds(s.pool, s.mem, a, f)
    ensures Starts(s.pool, a) && LengthAt(s.pool, s.mem, a) == |f| <= MAX_FRAME
    ensures Carries(Sent(s.pool, s.mem, a), f)
  {
  }

  lemma FreeOldest(q: Queue, g: Stream)
    requires QueueInv(q, g) && g.next == g.oldest < |g.added|
    ensures QueueInv(FreeIndex(q, q.rd), g.(oldest := g.oldest + 1, next := g.oldest + 1))
  {
    hide Slot, FreeIndex, Move;
    var j := FreeIndexIs(q, g, g.oldest);
  }

  // ------------------------------------------------------------------------------
  // Runs
  // ------------------------------------------------------------------------------

  datatype Step = Requested(n: nat) | Reserving | Completed(d: seq<Byte>) | Sending

  predicate Legal(s: State, e: Step)
    requires WellFormed(s)
  {
    match e
    case Requested(n) => n <= MAX_FRAME
    case Completed(d) => s.buffer != NULL && |d| <= s.requested
    case Sending => Sendable(s)
    case Reserving => true
  }

  function Next(s: State, e: Step): State
    requires WellFormed(s) && Legal(s, e)
  {
    match e
    case Requested(n) => Request(s, n)
    case Reserving => Reserve(s)
    case Completed(d) => Complete(s, d)
    case Sending => Free(s)
  }

  predicate CanRun(s: State, es: seq<Step>)
    decreases |es|
  {
    WellFormed(s) && (es == [] || (Legal(s, es[0]) && CanRun(Next(s, es[0]), es[1..])))
  }

  function Run(s: State, es: seq<Step>): State
    requires CanRun(s, es)
    decreases |es|
  {
    if es == [] then s else Run(Next(s, es[0]), es[1..])
  }

  // The frames a run is given, and what it sends.
  function Given(es: seq<Step>): seq<seq<Byte>> {
    if es == [] then [] else (if es[0].Completed? then [es[0].d] else []) + Given(es[1..])
  }

  function Transmitted(s: State, es: seq<Step>): seq<seq<Byte>>
    requires CanRun(s, es)
    decreases |es|
  {
    if es == [] then []
    else
      (if es[0].Sending? && Oldest(s.q) != NULL then [Sent(s.pool, s.mem, Oldest(s.q))] else [])
      + Transmitted(Next(s, es[0]), es[1..])
  }

  lemma StepKeeps(s: State, l: Log, e: Step) returns (l': Log)
    requires Inv(s, l) && Legal(s, e)
    ensures Inv(Next(s, e), l') && l'.frames == l.frames + (if e.Completed? then [e.d] else [])
    ensures Sendable(s)
    ensures if e.Sending? && Oldest(s.q) != NULL
            then l'.g.oldest == l.g.oldest + 1 <= |l.frames| &&
                Carries(Sent(s.pool, s.mem, Oldest(s.q)), l.frames[l.g.oldest])
            else l'.g.oldest == l.g.oldest
  {
    hide QueueInv, Holds, Placed, Full, Reserve, Complete, Free, Carries;
    l' := FreeKeeps(s, l);
    match e
    case Requested(n) => l' := l;
    case Reserving =>
      ReserveKeeps(s, l);
      l' := l;
    case Completed(d) => l' := CompleteKeeps(s, l, d);
    case Sending =>
  }

  // Each of these went out as the frame beside it.
  predicate Sends(out: seq<seq<Byte>>, frames: seq<seq<Byte>>) {
    |out| == |frames| && forall i :: 0 <= i < |out| ==> Carries(out[i], frames[i])
  }

  lemma SendsFirst(x: seq<Byte>, f: seq<Byte>, out: seq<seq<Byte>>, frames: seq<seq<Byte>>)
    requires Carries(x, f) && Sends(out, frames)
    ensures Sends([x] + out, [f] + frames)
  {
  }

  /** Over every run, the frames go out once each, in the order they were given, byte for
      byte; and what is not yet sent is whole in memory. */
  lemma {:induction false} RunSendsWhatItIsGiven(s: State, l: Log, es: seq<Step>) returns (l': Log)
    requires Inv(s, l) && CanRun(s, es)
    ensures Inv(Run(s, es), l') && l'.frames == l.frames + Given(es)
    ensures l.g.oldest <= l'.g.oldest <= |l'.frames|
    ensures Sends(Transmitted(s, es), l'.frames[l.g.oldest..l'.g.oldest])
    decreases |es|
  {
    hide Inv, Next, Legal, Oldest, Carries, Sent, Sends;
    if es == [] {
      l' := l;
      InvShape(s, l);
      assert l.frames + [] == l.frames;
      NoneSent();
      assert l.frames[l.g.oldest..l.g.oldest] == [] && Transmitted(s, es) == [];
    } else {
      var e := es[0];
      var l1 := StepKeeps(s, l, e);
      l' := RunSendsWhatItIsGiven(Next(s, e), l1, es[1..]);
      var d := if e.Completed? then [e.d] else [];
      assert l'.frames == l.frames + (d + Given(es[1..]));
      var rest := Transmitted(Next(s, e), es[1..]);
      if e.Sending? && Oldest(s.q) != NULL {
        assert l'.frames[l.g.oldest] == l.frames[l.g.oldest];
        SendsFirst(Sent(s.pool, s.mem, Oldest(s.q)), l.frames[l.g.oldest], rest, l'.frames[l1.g.oldest..l'.g.oldest]);
        SliceFirst(l'.frames, l.g.oldest, l'.g.oldest);
      } else {
        assert [] + rest == rest;
      }
    }
  }

  lemma SliceFirst(fs: seq<seq<Byte>>, i: nat, j: nat)
    requires i < j <= |fs|
    ensures fs[i..j] == [fs[i]] + fs[i + 1..j]
  {
  }

  lemma NoneSent()
    ensures Sends([], [])
  {
  }

  lemma InvShape(s: State, l: Log)
    requires Inv(s, l)
    ensures l.g.oldest <= |l.frames|
  {
  }

  // mii_init_mempool and mii_init_packet_queue; the high-priority client always asks for
  // the largest frame.
  function Start(high: bool, start: nat, end: nat, mem: seq<Byte>): State {
    State.State(high, Pool(start, end, start), mem, Queue(0, 0, seq(SLOTS, _ => NULL)),
                if high then MAX_FRAME else 0, NULL)
  }

  lemma StartInv(high: bool, start: nat, end: nat, mem: seq<Byte>)
    requires 0 < start && start + Words(MAX_FRAME) + SAFE <= end && |mem| == 4 * (end - start)
    ensures Inv(Start(high, start, end, mem), Log(Stream(0, 0, []), 0, [0], []))
  {
  }
}
