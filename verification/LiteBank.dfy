/** One circular bank of the MII receive buffer (mii_lite_driver.xc): the in-band
    headers, the free, write and read pointers, and the four ways a call moves them.

    A header word is positive while its record is in use, negative once the client has
    released it, 0 on the unused tail of the bank and 1 at the write position. */
module LiteBank {

  const MAXPACKET := 1530
  const MIN_FRAME := 64
  const MAX_FRAME := 1518
  // The words the low-level driver may store from a buffer address on: a time stamp,
  // the frame, and three words that describe its tail.
  const RECEIVE_BYTES := 1532
  // The least size of a bank for which the theorems below hold.
  const MIN_BANK := 3060

  // Byte address to word, as the load and store instructions see the buffer.
  type Memory = map<int, int>

  function Load(m: Memory, a: int): int {
    if a in m then m[a] else 0
  }

  function RoundBytes(n: int): int {
    (n + 3) / 4 * 4 + 4
  }

  // Subtraction of two unsigned machine words.
  function Minus32(x: int, y: int): int {
    (x - y) % 0x1_0000_0000
  }

  // Word addresses leave either room for all the driver may store, or less than MAXPACKET.
  lemma GapTest(x: int, y: int)
    requires 0 <= y <= x < 0x1_0000_0000 && x % 4 == 0 && y % 4 == 0
    ensures Minus32(x, y) >= MAXPACKET <==> x - y >= RECEIVE_BYTES
  {
  }

  // The pointers of one bank.
  datatype Bank = Bank(first: int, lastSafe: int, free: int, wr: int, read: int) {
    function End(): int { lastSafe + MAXPACKET }
  }

  // What one call does to a bank: the memory, the pointers, and whether the write
  // pointer may be handed to the low-level driver.
  datatype Outcome = Outcome(m: Memory, bank: Bank, room: bool)

  // ------------------------------------------------------------------------------
  // The calls
  // ------------------------------------------------------------------------------

  function WrapToHead(m: Memory, b: Bank): Outcome {
    var m1 := m[b.wr - 4 := 0];
    var b1 := b.(wr := b.first + 4);
    Outcome(m1[b1.wr - 4 := 1], b1, Minus32(b1.free, b1.wr) >= MAXPACKET)
  }

  predicate RoomAhead(b: Bank) {
    b.wr > b.free || Minus32(b.free, b.wr) >= MAXPACKET
  }

  // A frame of n bytes is committed at the write pointer.
  function CommitBank(m: Memory, b: Bank, n: int): Outcome {
    SettleBank(m[b.wr - 4 := n], b.(wr := b.wr + RoundBytes(n)))
  }

  // The second half of a commit: marks the new write position and looks for room.
  function SettleBank(m: Memory, b: Bank): Outcome {
    if b.wr > b.lastSafe then
      if b.free != b.first then
        WrapToHead(m, b)
      else
        Outcome(m[b.wr - 4 := 1], b, false)
    else
      Outcome(m[b.wr - 4 := 1], b, RoomAhead(b))
  }

  // The bank that waits for room is looked at again.
  function RestartBank(m: Memory, b: Bank): Outcome {
    if b.wr > b.lastSafe then
      if b.free != b.first then
        WrapToHead(m, b)
      else
        Outcome(m, b, false)
    else
      Outcome(m, b, RoomAhead(b))
  }

  // At most k turns of the loop that moves the free pointer over released records.
  function Advance(m: Memory, first: int, free: int, k: nat): int
    decreases k
  {
    var l := Load(m, free);
    if l > 0 || k == 0 then free
    else if l == 0 then Advance(m, first, first, k - 1)
    else Advance(m, first, free + RoundBytes(-l), k - 1)
  }

  function Negated(m: Memory, header: int): Memory {
    m[header := -Load(m, header)]
  }

  // ------------------------------------------------------------------------------
  // Records and chains of records
  // ------------------------------------------------------------------------------

  // A committed frame: its bank, the address of its header, its length with the CRC,
  // and the words it was received as, the time stamp first.
  datatype Packet = Packet(bank: int, header: int, length: int, words: seq<int>)

  function Content(m: Memory, a: int, count: nat): seq<int> {
    seq(count, i requires 0 <= i < count => Load(m, a + 4 * i))
  }

  function WordCount(n: int): nat {
    if n > 0 then (n + 3) / 4 else 0
  }

  // p lies in memory as it was committed: its header is in use, its words are intact.
  // It starts where a maximal frame fits before `limit`.
  ghost predicate Live(m: Memory, p: Packet, limit: int) {
    && MIN_FRAME <= p.length <= MAX_FRAME
    && p.header + 4 <= limit
    && Load(m, p.header) == p.length
    && p.words == Content(m, p.header + 4, WordCount(p.length))
  }

  // The records ps follow one another from address a to address e.
  ghost predicate Segment(m: Memory, a: int, ps: seq<Packet>, e: int, limit: int)
    decreases |ps|
  {
    if ps == [] then a == e
    else
      && ps[0].header == a
      && Live(m, ps[0], limit)
      && Segment(m, a + RoundBytes(ps[0].length), ps[1..], e, limit)
  }

  ghost predicate Same(m: Memory, m': Memory, lo: int, hi: int) {
    forall x {:trigger Load(m', x)} :: lo <= x < hi ==> Load(m', x) == Load(m, x)
  }

  lemma {:induction false} SegmentBounds(m: Memory, a: int, ps: seq<Packet>, e: int, limit: int)
    requires Segment(m, a, ps, e, limit)
    ensures a + 68 * |ps| <= e <= a + 1524 * |ps|
    ensures (e - a) % 4 == 0
    ensures forall i :: 0 <= i < |ps| ==>
      a <= ps[i].header && ps[i].header + RoundBytes(ps[i].length) <= e && ps[i].header + 4 <= limit
    decreases |ps|
  {
    if ps != [] {
      SegmentBounds(m, a + RoundBytes(ps[0].length), ps[1..], e, limit);
      forall i | 0 <= i < |ps|
        ensures a <= ps[i].header && ps[i].header + RoundBytes(ps[i].length) <= e && ps[i].header + 4 <= limit
      {
        if i > 0 { assert ps[i] == ps[1..][i - 1]; }
      }
    }
  }

  lemma {:induction false} SegmentFrame(m: Memory, m': Memory, a: int, ps: seq<Packet>, e: int, limit: int)
    requires Segment(m, a, ps, e, limit)
    requires Same(m, m', a, e)
    ensures Segment(m', a, ps, e, limit)
    decreases |ps|
  {
    if ps != [] {
      SegmentBounds(m, a, ps, e, limit);
      var p := ps[0];
      assert ps[0].header + RoundBytes(p.length) <= e;
      assert Content(m', p.header + 4, WordCount(p.length)) == p.words;
      SegmentFrame(m, m', a + RoundBytes(p.length), ps[1..], e, limit);
    }
  }

  lemma {:induction false} SegmentAppend(m: Memory, a: int, ps: seq<Packet>, p: Packet, limit: int)
    requires Segment(m, a, ps, p.header, limit) && Live(m, p, limit)
    ensures Segment(m, a, ps + [p], p.header + RoundBytes(p.length), limit)
    decreases |ps|
  {
    var qs := ps + [p];
    if ps == [] {
      assert qs[1..] == [];
    } else {
      assert qs[0] == ps[0] && qs[1..] == ps[1..] + [p];
      SegmentAppend(m, a + RoundBytes(ps[0].length), ps[1..], p, limit);
    }
  }

  // ------------------------------------------------------------------------------
  // The invariant of a bank
  // ------------------------------------------------------------------------------

  // The unreleased records of a bank, oldest first: lo from the free pointer on, and,
  // when the write pointer has wrapped, hi from the start of the bank on. In that case
  // lo ends at the zero word at address tail.
  datatype Shape = Shape(lo: seq<Packet>, hi: seq<Packet>, wrapped: bool, tail: int) {
    function All(): seq<Packet> { lo + hi }
  }

  ghost predicate Geometry(b: Bank) {
    && 0 < b.first && b.End() < 0x8000_0000
    && b.first % 4 == 0 && b.free % 4 == 0 && b.wr % 4 == 0 && b.End() % 4 == 0
    && b.End() - b.first >= MIN_BANK
    && b.first <= b.free
  }

  // The structure of a bank, at every moment. A tail is left unused only where no maximal
  // frame fits.
  ghost predicate BankCore(m: Memory, b: Bank, g: Shape) {
    && Geometry(b)
    && Load(m, b.wr - 4) == 1
    && if g.wrapped then
         && g.lo != []
         && Segment(m, b.free, g.lo, g.tail, b.lastSafe)
         && Load(m, g.tail) == 0 && b.lastSafe < g.tail + 4 && g.tail <= b.End() - 12
         && Segment(m, b.first, g.hi, b.wr - 4, b.lastSafe)
         && b.wr <= b.free
       else
         && g.hi == []
         && Segment(m, b.free, g.lo, b.wr - 4, b.lastSafe)
         && b.wr <= b.End() - 8
  }

  // Between calls a bank is left at its unsafe end only while its head is in use.
  ghost predicate BankInv(m: Memory, b: Bank, g: Shape) {
    BankCore(m, b, g) && (b.wr > b.lastSafe ==> b.free == b.first)
  }

  // Where the records from the free pointer on end.
  function LoEnd(b: Bank, g: Shape): int {
    if g.wrapped then g.tail else b.wr - 4
  }

  // Everything the low-level driver may store from the write pointer on is clear of
  // every live record and inside the bank.
  predicate Room(b: Bank, g: Shape) {
    b.wr + RECEIVE_BYTES <= if g.wrapped then b.free else b.End()
  }

  // Only words of this bank have changed.
  ghost predicate Within(m: Memory, m': Memory, b: Bank) {
    forall x {:trigger Load(m', x)} :: x < b.first || b.End() <= x ==> Load(m', x) == Load(m, x)
  }

  // The bank and its pointers that never move.
  predicate SameFrame(b: Bank, b': Bank) {
    b'.first == b.first && b'.lastSafe == b.lastSafe && b'.read == b.read
  }

  // Where a commit leaves the records of a bank.
  ghost function CommitShape(b: Bank, g: Shape, p: Packet): Shape {
    if g.wrapped then g.(hi := g.hi + [p])
    else
      var w := b.wr + RoundBytes(p.length);
      if w > b.lastSafe && b.free != b.first then Shape(g.lo + [p], [], true, w - 4)
      else g.(lo := g.lo + [p])
  }

  ghost function RestartShape(b: Bank, g: Shape): Shape {
    if b.wr > b.lastSafe && b.free != b.first then Shape(g.lo, [], true, b.wr - 4) else g
  }

  ghost function ReleaseShape(g: Shape): Shape
    requires g.lo != []
  {
    if g.wrapped && |g.lo| == 1 then Shape(g.hi, [], false, g.tail)
    else g.(lo := g.lo[1..])
  }

  ghost function Received(m: Memory, b: Bank, bank: int, n: int): Packet {
    Packet(bank, b.wr - 4, n, Content(m, b.wr, WordCount(n)))
  }

  // A bank whose write pointer has wrapped never reaches the unsafe end again before
  // its last record of the previous round is released.
  lemma WrappedIsLow(m: Memory, b: Bank, g: Shape)
    requires BankCore(m, b, g) && g.wrapped
    ensures b.wr <= b.free <= b.lastSafe - 4
  {
  }

  // The write pointer is inside its bank.
  lemma WritePlace(m: Memory, b: Bank, g: Shape)
    requires BankCore(m, b, g)
    ensures 0 < b.first + 4 <= b.wr <= b.End() - 8 && b.first + MAXPACKET <= b.lastSafe
  {
    if g.wrapped {
      WrappedIsLow(m, b, g);
      SegmentBounds(m, b.first, g.hi, b.wr - 4, b.lastSafe);
    } else {
      SegmentBounds(m, b.free, g.lo, b.wr - 4, b.lastSafe);
    }
  }

  // A bank stuck at its unsafe end holds at least two records.
  lemma StuckHoldsTwo(m: Memory, b: Bank, g: Shape)
    requires BankInv(m, b, g) && b.wr > b.lastSafe
    ensures !g.wrapped && |g.lo| >= 2
  {
    if g.wrapped { WrappedIsLow(m, b, g); }
    SegmentBounds(m, b.free, g.lo, b.wr - 4, b.lastSafe);
  }

  lemma RoomTest(m: Memory, b: Bank, g: Shape)
    requires BankCore(m, b, g) && b.wr <= b.lastSafe
    ensures RoomAhead(b) <==> Room(b, g)
  {
    WritePlace(m, b, g);
    FreePlace(m, b, g);
    hide BankCore, Segment, Minus32;
    if g.wrapped { GapTest(b.free, b.wr); }
  }

  // The free pointer is behind the write pointer only after a wrap.
  lemma FreePlace(m: Memory, b: Bank, g: Shape)
    requires BankCore(m, b, g)
    ensures Geometry(b) && if g.wrapped then b.wr <= b.free <= b.lastSafe - 4 else b.free <= b.wr - 4
  {
    hide Live;
    if g.wrapped { WrappedIsLow(m, b, g); } else { SegmentBounds(m, b.free, g.lo, b.wr - 4, b.lastSafe); }
  }

  // ------------------------------------------------------------------------------
  // What each call keeps
  // ------------------------------------------------------------------------------

  // Two stores outside a chain leave it as it was.
  lemma SegmentStores(m: Memory, a: int, ps: seq<Packet>, e: int, limit: int, x: int, v: int, y: int, w: int)
    requires Segment(m, a, ps, e, limit)
    requires (x < a || e <= x) && (y < a || e <= y)
    ensures Segment(m[x := v][y := w], a, ps, e, limit)
  {
    SegmentFrame(m, m[x := v][y := w], a, ps, e, limit);
  }

  // A record committed at the end of a chain joins it.
  lemma CommitRecord(m: Memory, a: int, ps: seq<Packet>, p: Packet, limit: int, v: int)
    requires Segment(m, a, ps, p.header, limit)
    requires MIN_FRAME <= p.length <= MAX_FRAME && p.header + 4 <= limit
    requires p.words == Content(m, p.header + 4, WordCount(p.length))
    ensures var e := p.header + RoundBytes(p.length);
            Segment(m[p.header := p.length][e := v], a, ps + [p], e, limit)
  {
    var e := p.header + RoundBytes(p.length);
    var m' := m[p.header := p.length][e := v];
    SegmentBounds(m, a, ps, p.header, limit);
    SegmentStores(m, a, ps, p.header, limit, p.header, p.length, e, v);
    assert Content(m', p.header + 4, WordCount(p.length)) == p.words;
    SegmentAppend(m', a, ps, p, limit);
  }

  // The wrapped and the linear case of a commit.
  lemma CommitWrapped(m: Memory, b: Bank, g: Shape, p: Packet)
    requires BankInv(m, b, g) && Room(b, g) && g.wrapped
    requires MIN_FRAME <= p.length <= MAX_FRAME && p == Received(m, b, p.bank, p.length)
    ensures var b' := b.(wr := b.wr + RoundBytes(p.length));
            && BankInv(m[b.wr - 4 := p.length][b'.wr - 4 := 1], b', g.(hi := g.hi + [p]))
            && b'.wr <= b'.lastSafe
  {
    hide Segment, Live, Content;
    var w := b.wr + RoundBytes(p.length);
    WrappedIsLow(m, b, g);
    SegmentBounds(m, b.first, g.hi, b.wr - 4, b.lastSafe);
    SegmentBounds(m, b.free, g.lo, g.tail, b.lastSafe);
    assert w <= b.free - 8 && w % 4 == 0;
    SegmentStores(m, b.free, g.lo, g.tail, b.lastSafe, b.wr - 4, p.length, w - 4, 1);
    CommitRecord(m, b.first, g.hi, p, b.lastSafe, 1);
  }

  lemma CommitLinear(m: Memory, b: Bank, g: Shape, p: Packet, v: int)
    requires BankInv(m, b, g) && Room(b, g) && !g.wrapped
    requires MIN_FRAME <= p.length <= MAX_FRAME && p == Received(m, b, p.bank, p.length)
    ensures var w := b.wr + RoundBytes(p.length);
            && Segment(m[b.wr - 4 := p.length][w - 4 := v], b.free, g.lo + [p], w - 4, b.lastSafe)
            && w <= b.End() - 8 && b.free < w - 4 && w % 4 == 0
  {
    hide Segment, Live, Content;
    SegmentBounds(m, b.free, g.lo, b.wr - 4, b.lastSafe);
    CommitRecord(m, b.free, g.lo, p, b.lastSafe, v);
  }

  // The unused tail is recorded and the write pointer moves to the head of the bank.
  lemma WrapKeepsBank(m: Memory, b: Bank, lo: seq<Packet>)
    requires Geometry(b) && b.free != b.first && lo != []
    requires Segment(m, b.free, lo, b.wr - 4, b.lastSafe) && b.lastSafe < b.wr <= b.End() - 8
    ensures var o := WrapToHead(m, b); var g' := Shape(lo, [], true, b.wr - 4);
            BankInv(o.m, o.bank, g') && (o.room <==> Room(o.bank, g'))
  {
    hide Segment, Live;
    WrapChains(m, b, lo);
    GapTest(b.free, b.first + 4);
  }

  // The records are where they were, behind them is the zero word.
  lemma WrapChains(m: Memory, b: Bank, lo: seq<Packet>)
    requires Geometry(b) && b.free != b.first && lo != []
    requires Segment(m, b.free, lo, b.wr - 4, b.lastSafe)
    ensures var o := WrapToHead(m, b);
            && Segment(o.m, b.free, lo, b.wr - 4, b.lastSafe) && Segment(o.m, b.first, [], b.first, b.lastSafe)
            && Load(o.m, b.first) == 1 && Load(o.m, b.wr - 4) == 0
            && b.first + 4 <= b.free <= b.lastSafe - 4
  {
    hide Live;
    SegmentBounds(m, b.free, lo, b.wr - 4, b.lastSafe);
    SegmentStores(m, b.free, lo, b.wr - 4, b.lastSafe, b.wr - 4, 0, b.first, 1);
    assert lo[0].header == b.free;
  }

  // A linear commit that has to wrap.
  lemma CommitAndWrap(m: Memory, b: Bank, g: Shape, p: Packet)
    requires BankInv(m, b, g) && Room(b, g) && !g.wrapped
    requires MIN_FRAME <= p.length <= MAX_FRAME && p == Received(m, b, p.bank, p.length)
    requires b.wr + RoundBytes(p.length) > b.lastSafe && b.free != b.first
    ensures var o := CommitBank(m, b, p.length); var g' := CommitShape(b, g, p);
            BankInv(o.m, o.bank, g') && (o.room <==> Room(o.bank, g'))
  {
    var b1 := b.(wr := b.wr + RoundBytes(p.length));
    var m1 := m[b.wr - 4 := p.length];
    CommitLinear(m, b, g, p, 0);
    SegmentFrame(m1[b1.wr - 4 := 0], m1, b.free, g.lo + [p], b1.wr - 4, b.lastSafe);
    WrapKeepsBank(m1, b1, g.lo + [p]);
  }

  // A commit that leaves the write pointer beyond the committed record.
  lemma CommitAhead(m: Memory, b: Bank, g: Shape, p: Packet)
    requires BankInv(m, b, g) && Room(b, g)
    requires MIN_FRAME <= p.length <= MAX_FRAME && p == Received(m, b, p.bank, p.length)
    requires g.wrapped || b.wr + RoundBytes(p.length) <= b.lastSafe || b.free == b.first
    ensures var o := CommitBank(m, b, p.length); var g' := CommitShape(b, g, p);
            BankInv(o.m, o.bank, g') && (o.room <==> Room(o.bank, g'))
  {
    var o := CommitBank(m, b, p.length);
    var b1 := b.(wr := b.wr + RoundBytes(p.length));
    var m1 := m[b.wr - 4 := p.length][b1.wr - 4 := 1];
    if g.wrapped {
      CommitWrapped(m, b, g, p);
    } else {
      CommitLinear(m, b, g, p, 1);
    }
    assert o.bank == b1 && o.m == m1;
    var g' := CommitShape(b, g, p);
    if b1.wr <= b1.lastSafe { RoomTest(m1, b1, g'); }
  }

  /** Committing a frame into a bank with room appends exactly that record, as it was
      received, touches no other live record, and reports room exactly where the
      low-level driver may store a maximal frame. */
  lemma CommitKeepsBank(m: Memory, b: Bank, g: Shape, bank: int, n: int)
    requires BankInv(m, b, g) && Room(b, g) && MIN_FRAME <= n <= MAX_FRAME
    ensures var o := CommitBank(m, b, n); var p := Received(m, b, bank, n); var g' := CommitShape(b, g, p);
            && BankInv(o.m, o.bank, g') && (o.room <==> Room(o.bank, g'))
            && g'.All() == g.All() + [p]
  {
    var p := Received(m, b, bank, n);
    if !g.wrapped && b.wr + RoundBytes(n) > b.lastSafe && b.free != b.first {
      CommitAndWrap(m, b, g, p);
    } else {
      CommitAhead(m, b, g, p);
    }
    assert g.lo + (g.hi + [p]) == g.lo + g.hi + [p];
    assert !g.wrapped ==> g.lo + [] == g.lo && g.lo + [p] + [] == g.lo + [p];
  }

  // A call on a bank stores only inside the bank and moves only the pointers it owns.
  lemma CommitStaysWithin(m: Memory, b: Bank, g: Shape, n: int)
    requires BankInv(m, b, g) && Room(b, g) && MIN_FRAME <= n <= MAX_FRAME
    ensures var o := CommitBank(m, b, n);
            SameFrame(b, o.bank) && o.bank.free == b.free && Within(m, o.m, b)
  {
    if g.wrapped {
      WrappedIsLow(m, b, g);
      SegmentBounds(m, b.first, g.hi, b.wr - 4, b.lastSafe);
    } else {
      SegmentBounds(m, b.free, g.lo, b.wr - 4, b.lastSafe);
    }
  }

  /** A restart changes no record; afterwards it reports room exactly where a maximal
      frame fits, and a bank without records always has room. */
  lemma RestartKeepsBank(m: Memory, b: Bank, g: Shape)
    requires BankCore(m, b, g) && (b.wr > b.lastSafe ==> g.lo != [])
    ensures var o := RestartBank(m, b); var g' := RestartShape(b, g);
            && BankInv(o.m, o.bank, g') && (o.room <==> Room(o.bank, g'))
            && g'.All() == g.All() && (g.All() == [] ==> o.room)
  {
    if b.wr <= b.lastSafe {
      RoomTest(m, b, g);
    } else {
      if g.wrapped { WrappedIsLow(m, b, g); }
      if b.free != b.first { WrapKeepsBank(m, b, g.lo); }
    }
  }

  lemma RestartMoves(m: Memory, b: Bank)
    ensures RestartBank(m, b).bank == if b.wr > b.lastSafe && b.free != b.first then b.(wr := b.first + 4) else b
  {
  }

  lemma RestartStaysWithin(m: Memory, b: Bank, g: Shape)
    requires BankCore(m, b, g)
    ensures var o := RestartBank(m, b);
            SameFrame(b, o.bank) && o.bank.free == b.free && Within(m, o.m, b)
  {
  }

  // The oldest record of a bank is at its free pointer.
  lemma OldestIsAtFree(m: Memory, b: Bank, g: Shape)
    requires BankCore(m, b, g) && g.All() != []
    ensures g.lo != [] && g.All()[0] == g.lo[0] && g.lo[0].header == b.free
    ensures Live(m, g.lo[0], b.lastSafe) && b.free + RoundBytes(g.lo[0].length) <= b.End() - 12
    ensures g.All()[1..] == g.lo[1..] + g.hi
    ensures Segment(m, b.free + RoundBytes(g.lo[0].length), g.lo[1..], LoEnd(b, g), b.lastSafe)
  {
    hide Segment, Live, RoundBytes;
    SegmentFirst(m, b.free, g.lo, LoEnd(b, g), b.lastSafe);
    assert g.lo != [] ==> g.All()[1..] == g.lo[1..] + g.hi;
  }

  lemma SegmentFirst(m: Memory, a: int, ps: seq<Packet>, e: int, limit: int)
    requires Segment(m, a, ps, e, limit)
    ensures ps != [] ==>
      && ps[0].header == a && Live(m, ps[0], limit) && a + RoundBytes(ps[0].length) <= e
      && Segment(m, a + RoundBytes(ps[0].length), ps[1..], e, limit)
  {
    if ps != [] { SegmentBounds(m, a + RoundBytes(ps[0].length), ps[1..], e, limit); }
  }

  // The turns of the free loop: over a released record, and from the unused tail to the head.
  lemma AdvanceTurns(m: Memory, first: int, f: int, n: int, k: nat)
    requires Load(m, f) == -n && n > 0 && k >= 2
    ensures var next := f + RoundBytes(n);
            && (Load(m, next) > 0 ==> Advance(m, first, f, k) == next)
            && (Load(m, next) == 0 && Load(m, first) > 0 ==> Advance(m, first, f, k) == first)
  {
    var next := f + RoundBytes(n);
    assert Advance(m, first, f, k) == Advance(m, first, next, k - 1);
    if Load(m, next) == 0 {
      assert Advance(m, first, next, k - 1) == Advance(m, first, first, k - 2);
    }
  }

  // The word at the head of a wrapped bank is in use.
  lemma HeadInUse(m: Memory, b: Bank, g: Shape)
    requires BankCore(m, b, g) && g.wrapped
    ensures Load(m, b.first) > 0 && b.first < b.free
  {
    SegmentBounds(m, b.first, g.hi, b.wr - 4, b.lastSafe);
    if g.hi != [] { assert g.hi[0].header == b.first; }
  }

  // The free loop after the oldest record is marked released: it passes that record and
  // at most one unused tail, and stops at a word that is in use.
  lemma AdvanceStops(m: Memory, b: Bank, g: Shape, k: nat)
    requires BankCore(m, b, g) && g.All() != [] && k >= 2
    ensures var m1 := Negated(m, b.free); var next := b.free + RoundBytes(g.lo[0].length);
            && Advance(m1, b.first, b.free, k)
               == (if g.wrapped && |g.lo| == 1 then b.first else next)
            && Load(m1, Advance(m1, b.first, b.free, k)) > 0
  {
    OldestIsAtFree(m, b, g);
    var m1 := Negated(m, b.free);
    var n := g.lo[0].length;
    var next := b.free + RoundBytes(n);
    AdvanceTurns(m1, b.first, b.free, n, k);
    if |g.lo| > 1 {
      assert g.lo[1..][0].header == next;
    } else if g.wrapped {
      HeadInUse(m, b, g);
    }
  }

  // What is left of the chain after its oldest record is marked released.
  lemma ReleaseChain(m: Memory, b: Bank, g: Shape)
    requires BankCore(m, b, g) && g.All() != []
    ensures var m1 := Negated(m, b.free);
            && Segment(m1, b.free + RoundBytes(g.lo[0].length), g.lo[1..], LoEnd(b, g), b.lastSafe)
            && (g.wrapped ==> Segment(m1, b.first, g.hi, b.wr - 4, b.lastSafe) && Load(m1, g.tail) == 0)
            && Load(m1, b.wr - 4) == 1 && Within(m, m1, b)
  {
    hide Segment, Content, WordCount;
    OldestIsAtFree(m, b, g);
    var m1 := Negated(m, b.free);
    var next := b.free + RoundBytes(g.lo[0].length);
    SegmentBounds(m, next, g.lo[1..], LoEnd(b, g), b.lastSafe);
    SegmentFrame(m, m1, next, g.lo[1..], LoEnd(b, g), b.lastSafe);
    if g.wrapped {
      SegmentBounds(m, b.first, g.hi, b.wr - 4, b.lastSafe);
      SegmentFrame(m, m1, b.first, g.hi, b.wr - 4, b.lastSafe);
    }
  }

  lemma RoundIsWords(ps: seq<Packet>)
    ensures ps != [] ==> RoundBytes(ps[0].length) % 4 == 0
    ensures ps != [] && ps[0].length > 0 ==> RoundBytes(ps[0].length) > 0
  {
  }

  lemma LiveLength(m: Memory, p: Packet, limit: int)
    requires Live(m, p, limit)
    ensures p.length > 0
  {
  }

  lemma ReleaseMovesUp(m: Memory, b: Bank, g: Shape)
    requires BankInv(m, b, g) && g.All() != []
    ensures var next := b.free + RoundBytes(g.lo[0].length);
            && b.free < next <= LoEnd(b, g) && next % 4 == 0
            && (b.wr > b.lastSafe ==> !g.wrapped && |g.lo| >= 2)
            && (g.wrapped ==> next <= b.End() && b.wr - 4 >= b.first)
  {
    hide Segment, Live, Load, RoundBytes, BankCore;
    RoundIsWords(g.lo);
    OldestIsAtFree(m, b, g);
    LiveLength(m, g.lo[0], b.lastSafe);
    if b.wr > b.lastSafe { StuckHoldsTwo(m, b, g); }
    NextPlace(m, b, g, b.free + RoundBytes(g.lo[0].length));
  }

  lemma NextPlace(m: Memory, b: Bank, g: Shape, next: int)
    requires BankCore(m, b, g) && g.lo != [] && Segment(m, next, g.lo[1..], LoEnd(b, g), b.lastSafe)
    ensures b.free % 4 == 0 && next <= LoEnd(b, g)
    ensures g.wrapped ==> next <= b.End() && b.wr - 4 >= b.first
  {
    hide Segment;
    SegmentBounds(m, next, g.lo[1..], LoEnd(b, g), b.lastSafe);
    if g.wrapped { SegmentBounds(m, b.first, g.hi, b.wr - 4, b.lastSafe); }
  }

  /** Releasing the oldest record of a bank removes exactly that record; the loop over
      released records ends, after at most two turns, at a word in use; and if the bank was
      stuck at its unsafe end, a record is left there and the head is free. */
  lemma ReleaseKeepsBank(m: Memory, b: Bank, g: Shape, k: nat)
    requires BankInv(m, b, g) && g.All() != [] && k >= 2
    ensures var m1 := Negated(m, b.free); var f := Advance(m1, b.first, b.free, k);
            && BankCore(m1, b.(free := f), ReleaseShape(g))
            && ReleaseShape(g).All() == g.All()[1..]
            && Load(m1, f) > 0
            && (b.wr > b.lastSafe ==> ReleaseShape(g).lo != [] && f != b.first)
            && Within(m, m1, b)
  {
    OldestIsAtFree(m, b, g);
    AdvanceStops(m, b, g, k);
    ReleaseChain(m, b, g);
    ReleaseMovesUp(m, b, g);
    assert [] + g.hi == g.hi && g.hi + [] == g.hi;
  }

  /** A word the low-level driver stores into a bank it was given spoils no record. */
  lemma ReceiveKeepsBank(m: Memory, b: Bank, g: Shape, x: int, v: int)
    requires BankInv(m, b, g) && Room(b, g) && b.wr <= x < b.wr + RECEIVE_BYTES
    ensures BankInv(m[x := v], b, g) && Within(m, m[x := v], b)
  {
    var m1 := m[x := v];
    if g.wrapped {
      SegmentBounds(m, b.free, g.lo, g.tail, b.lastSafe);
      SegmentFrame(m, m1, b.free, g.lo, g.tail, b.lastSafe);
      SegmentBounds(m, b.first, g.hi, b.wr - 4, b.lastSafe);
      SegmentFrame(m, m1, b.first, g.hi, b.wr - 4, b.lastSafe);
    } else {
      SegmentBounds(m, b.free, g.lo, b.wr - 4, b.lastSafe);
      SegmentFrame(m, m1, b.free, g.lo, b.wr - 4, b.lastSafe);
    }
  }

  // A bank depends on its own words only.
  lemma OtherBankKept(m: Memory, m': Memory, b: Bank, g: Shape)
    requires BankCore(m, b, g) && Same(m, m', b.first, b.End())
    ensures BankCore(m', b, g)
  {
    if g.wrapped {
      SegmentBounds(m, b.free, g.lo, g.tail, b.lastSafe);
      SegmentFrame(m, m', b.free, g.lo, g.tail, b.lastSafe);
      SegmentBounds(m, b.first, g.hi, b.wr - 4, b.lastSafe);
      SegmentFrame(m, m', b.first, g.hi, b.wr - 4, b.lastSafe);
    } else {
      SegmentBounds(m, b.free, g.lo, b.wr - 4, b.lastSafe);
      SegmentFrame(m, m', b.free, g.lo, b.wr - 4, b.lastSafe);
    }
  }

  // ------------------------------------------------------------------------------
  // Reading a bank
  // ------------------------------------------------------------------------------

  lemma {:induction false} SegmentAt(m: Memory, a: int, ps: seq<Packet>, e: int, limit: int, i: nat)
    requires Segment(m, a, ps, e, limit) && i < |ps|
    ensures Live(m, ps[i], limit)
    ensures ps[0].header == a
    ensures ps[i].header + RoundBytes(ps[i].length) == if i + 1 < |ps| then ps[i + 1].header else e
    decreases |ps|
  {
    if i > 0 {
      SegmentAt(m, a + RoundBytes(ps[0].length), ps[1..], e, limit, i - 1);
    } else if |ps| > 1 {
      assert ps[1] == ps[1..][0];
    }
  }

  /** Behind every record of a bank the reader finds the next one, or the write position:
      a zero word stands there exactly when the next record is at the head of the bank. */
  lemma NextRecord(m: Memory, b: Bank, g: Shape, i: nat)
    requires BankCore(m, b, g) && i < |g.All()|
    ensures var p := g.All()[i]; var after := p.header + RoundBytes(p.length);
            && Live(m, p, b.lastSafe)
            && (if Load(m, after) == 0 then b.first else after)
               == (if i + 1 < |g.All()| then g.All()[i + 1].header else b.wr - 4)
  {
    var n := |g.lo|;
    if i < n {
      SegmentAt(m, b.free, g.lo, LoEnd(b, g), b.lastSafe, i);
      if i + 1 < n {
        SegmentAt(m, b.free, g.lo, LoEnd(b, g), b.lastSafe, i + 1);
      } else if g.wrapped && g.hi != [] {
        SegmentAt(m, b.first, g.hi, b.wr - 4, b.lastSafe, 0);
      }
    } else {
      SegmentAt(m, b.first, g.hi, b.wr - 4, b.lastSafe, i - n);
      if i - n + 1 < |g.hi| {
        SegmentAt(m, b.first, g.hi, b.wr - 4, b.lastSafe, i - n + 1);
      }
    }
  }

  // Where a record lies: inside its bank, before the write position or behind the free
  // pointer, and never under the write position's receive buffer.
  lemma RecordPlace(m: Memory, b: Bank, g: Shape, i: nat)
    requires BankCore(m, b, g) && i < |g.All()|
    ensures var p := g.All()[i];
            && Live(m, p, b.lastSafe)
            && b.first <= p.header && p.header + RoundBytes(p.length) <= b.End() - 12
            && (p.header + RoundBytes(p.length) <= b.wr - 4 || (g.wrapped && b.free <= p.header))
  {
    var n := |g.lo|;
    NextRecord(m, b, g, i);
    SegmentBounds(m, b.free, g.lo, LoEnd(b, g), b.lastSafe);
    if g.wrapped { SegmentBounds(m, b.first, g.hi, b.wr - 4, b.lastSafe); WrappedIsLow(m, b, g); }
    if i < n { assert g.All()[i] == g.lo[i]; } else { assert g.All()[i] == g.hi[i - n]; }
  }

  // Records of a chain do not overlap.
  lemma {:induction false} SegmentDisjoint(m: Memory, a: int, ps: seq<Packet>, e: int, limit: int, i: nat, j: nat)
    requires Segment(m, a, ps, e, limit) && i < j < |ps|
    ensures ps[i].header + RoundBytes(ps[i].length) <= ps[j].header
    decreases |ps|
  {
    var rest := a + RoundBytes(ps[0].length);
    if i == 0 {
      SegmentBounds(m, rest, ps[1..], e, limit);
      assert ps[j] == ps[1..][j - 1];
    } else {
      SegmentDisjoint(m, rest, ps[1..], e, limit, i - 1, j - 1);
    }
  }

  /** No two records of a bank share a byte. */
  lemma RecordsDisjoint(m: Memory, b: Bank, g: Shape, i: nat, j: nat)
    requires BankCore(m, b, g) && i < j < |g.All()|
    ensures var p, r := g.All()[i], g.All()[j];
            p.header + RoundBytes(p.length) <= r.header || r.header + RoundBytes(r.length) <= p.header
  {
    var n := |g.lo|;
    if j < n {
      SegmentDisjoint(m, b.free, g.lo, LoEnd(b, g), b.lastSafe, i, j);
    } else if i >= n {
      SegmentDisjoint(m, b.first, g.hi, b.wr - 4, b.lastSafe, i - n, j - n);
    } else {
      SegmentBounds(m, b.free, g.lo, LoEnd(b, g), b.lastSafe);
      SegmentBounds(m, b.first, g.hi, b.wr - 4, b.lastSafe);
      assert g.All()[i] == g.lo[i] && g.All()[j] == g.hi[j - n];
    }
  }
}
