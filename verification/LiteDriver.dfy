/** The receive buffer of the MII driver (mii_lite_driver.xc) as a state machine: the
    interrupt handler commits, rejects or drops frames while the client takes and
    releases them. Each call is one atomic step. */
module LiteDriver {
  import opened LiteBank

  const RING := 32
  const NONE := -1

  // The fields of mii_lite_data_t and the words they point into. `ring` holds the 32 bits
  // of read_bank; `tokens` is what the notification channel still carries.
  datatype State = State(
    m: Memory,
    banks: seq<Bank>,
    inLld: int,
    next: int,
    overran: nat,
    refill: int,
    ring: seq<int>,
    rd: nat,
    wrp: nat,
    notifyLast: bool,
    notifySeen: bool,
    tokens: seq<bool>)

  // What mii_lite_get_in_buffer returns: a null pointer, or the address of the payload,
  // its length without the CRC, and the time stamp.
  datatype Taken = Nothing | Taken(data: int, length: int, stamp: int)

  // ------------------------------------------------------------------------------
  // The calls
  // ------------------------------------------------------------------------------

  function Init(m: Memory, address: int, words: nat): (r: State)
    ensures WellFormed(r)
  {
    var second := address + words * 2 / 4 * 4;
    var b0 := Bank(address, second - MAXPACKET, address, address + 4, address);
    var b1 := Bank(second, address + words * 4 - MAXPACKET, second, second + 4, second);
    State(m[address := 1][second := 1], [b0, b1], b0.wr, b1.wr, 0, 0,
          seq(RING, _ => 0), 0, 0, true, true, [])
  }

  predicate WellFormed(s: State) {
    && |s.banks| == 2 && |s.ring| == RING && s.rd < RING && s.wrp < RING
    && (s.refill == 0 || s.refill == 1)
    && forall i :: 0 <= i < RING ==> s.ring[i] == 0 || s.ring[i] == 1
  }

  function Increment(i: nat): (r: nat)
    ensures r < RING
  {
    (i + 1) % RING
  }

  function BankOf(s: State, a: int): int
    requires WellFormed(s)
    ensures BankOf(s, a) == 0 || BankOf(s, a) == 1
  {
    if a < s.banks[1].first then 0 else 1
  }

  function Notify(s: State): State {
    if s.notifyLast == s.notifySeen then
      s.(notifyLast := !s.notifyLast, tokens := s.tokens + [!s.notifyLast])
    else s
  }

  // The client consumes a notification.
  function Notified(s: State): State
    requires s.tokens != []
  {
    s.(notifySeen := s.tokens[0], tokens := s.tokens[1..])
  }

  function WithBank(s: State, bn: int, o: Outcome): (r: State)
    requires WellFormed(s) && (bn == 0 || bn == 1)
    ensures WellFormed(r)
  {
    s.(m := o.m, banks := s.banks[bn := o.bank])
  }

  function Commit(s: State, buffer: int, n: int): (r: State)
    requires WellFormed(s)
    ensures WellFormed(r)
  {
    var bn := BankOf(s, buffer);
    if s.rd == Increment(s.wrp) then
      s.(next := NONE, refill := bn)
    else
      var o := CommitBank(s.m, s.banks[bn], n);
      var s1 := Notify(WithBank(s.(ring := s.ring[s.wrp := bn], wrp := Increment(s.wrp)), bn, o));
      if o.room then s1.(next := o.bank.wr) else s1.(next := NONE, refill := bn)
  }

  // The end of a frame, length 0 when its CRC is bad.
  function Interrupt(s: State, length: int): (r: State)
    requires WellFormed(s)
    ensures WellFormed(r)
  {
    if s.next == NONE then
      s.(overran := s.overran + 1)
    else
      var s1 := s.(inLld := s.next);
      if length >= MIN_FRAME then Commit(s1, s.inLld, length) else s1.(next := s.inLld)
  }

  // The low-level driver stores a word.
  function Receive(s: State, x: int, v: int): State {
    s.(m := s.m[x := v])
  }

  function Restart(s: State): (r: State)
    requires WellFormed(s)
    ensures WellFormed(r)
  {
    if s.next != NONE then s
    else
      var o := RestartBank(s.m, s.banks[s.refill]);
      var s1 := WithBank(s, s.refill, o);
      if o.room then s1.(next := o.bank.wr) else s1
  }

  function FreeInBank(s: State, header: int, k: nat): (r: State)
    requires WellFormed(s)
    ensures WellFormed(r)
  {
    var bn := BankOf(s, header + 8);
    var m1 := Negated(s.m, header);
    var b := s.banks[bn];
    s.(m := m1, banks := s.banks[bn := b.(free := Advance(m1, b.first, b.free, k))])
  }

  // The client releases the payload at address `data`, or passes a null pointer.
  function Release(s: State, data: int, k: nat): (r: State)
    requires WellFormed(s)
    ensures WellFormed(r)
  {
    if data == 0 then Restart(s) else Restart(FreeInBank(s, data - 8, k))
  }

  // The header the next packet of a bank is read from.
  function Picked(m: Memory, b: Bank): int {
    if Load(m, b.read) == 0 then b.first else b.read
  }

  function AfterPacket(m: Memory, b: Bank, header: int): int {
    var after := header + RoundBytes(Load(m, header));
    if Load(m, after) == 0 then b.first else after
  }

  function Get(s: State): (r: (State, Taken))
    requires WellFormed(s)
    ensures WellFormed(r.0)
  {
    if s.rd == s.wrp then (s, Nothing)
    else
      var bn := s.ring[s.rd];
      var b := s.banks[bn];
      var header := Picked(s.m, b);
      var n := Load(s.m, header);
      if n == 1 then (s.(banks := s.banks[bn := b.(read := header)]), Nothing)
      else
        var s1 := s.(banks := s.banks[bn := b.(read := AfterPacket(s.m, b, header))], rd := Increment(s.rd));
        (if s1.rd != s1.wrp then Notify(s1) else s1,
         Taken(header + 8, n - 4, Load(s.m, header + 4)))
  }

  // ------------------------------------------------------------------------------
  // The queue the driver stands for
  // ------------------------------------------------------------------------------

  // The packets the client holds, in the order it took them; those committed and not
  // taken, in the order of their commits; where each bank keeps its records; and whether
  // the client has consumed a notification since it last asked for a packet.
  datatype Queue = Queue(held: seq<Packet>, pending: seq<Packet>, shape: seq<Shape>, awake: bool) {
    function All(): seq<Packet> { held + pending }
  }

  // The packets of one bank.
  function OfBank(q: seq<Packet>, bn: int): seq<Packet> {
    if q == [] then []
    else if q[0].bank == bn then [q[0]] + OfBank(q[1..], bn)
    else OfBank(q[1..], bn)
  }

  lemma {:induction false} OfBankConcat(p: seq<Packet>, q: seq<Packet>, bn: int)
    ensures OfBank(p + q, bn) == OfBank(p, bn) + OfBank(q, bn)
  {
    if p == [] {
      assert p + q == q;
    } else {
      assert (p + q)[1..] == p[1..] + q;
      OfBankConcat(p[1..], q, bn);
    }
  }

  // Where the next packet of bank bn to be taken starts.
  function NextHeader(s: State, q: Queue, bn: int): int
    requires WellFormed(s) && (bn == 0 || bn == 1)
  {
    var u := OfBank(q.pending, bn);
    if u != [] then u[0].header else s.banks[bn].wr - 4
  }

  // The records of bank bn are its packets in the queue, in the same order.
  ghost predicate OneBank(s: State, q: Queue, bn: int)
    requires WellFormed(s) && |q.shape| == 2 && (bn == 0 || bn == 1)
  {
    BankInv(s.m, s.banks[bn], q.shape[bn]) && OfBank(q.All(), bn) == q.shape[bn].All()
  }

  predicate Numbered(ps: seq<Packet>) {
    forall i | 0 <= i < |ps| :: ps[i].bank == 0 || ps[i].bank == 1
  }

  ghost predicate BanksInv(s: State, q: Queue)
    requires WellFormed(s)
  {
    && |q.shape| == 2
    && s.banks[0].End() <= s.banks[1].first
    && OneBank(s, q, 0) && OneBank(s, q, 1)
    && Numbered(q.held) && Numbered(q.pending)
  }

  // The low-level driver fills the write position of one bank; next is the write
  // position of the other one, or there is no room there.
  ghost predicate BuffersPlaced(s: State, q: Queue)
    requires WellFormed(s) && |q.shape| == 2
  {
    var l := BankOf(s, s.inLld);
    && s.inLld == s.banks[l].wr && Room(s.banks[l], q.shape[l])
    && if s.next == NONE then s.refill == 1 - l
       else s.next == s.banks[1 - l].wr && Room(s.banks[1 - l], q.shape[1 - l])
  }

  // Reception never stalls for good: without a buffer to go on with, some packet is
  // still to be released.
  ghost predicate BuffersInv(s: State, q: Queue)
    requires WellFormed(s) && |q.shape| == 2
  {
    BuffersPlaced(s, q) && (s.next == NONE ==> q.All() != [])
  }

  // The ring slot of the i-th packet that waits.
  function Slot(rd: nat, i: nat): (r: nat)
    ensures r < RING
  {
    (rd + i) % RING
  }

  ghost predicate RingInv(s: State, q: Queue)
    requires WellFormed(s)
  {
    && |q.pending| < RING && s.wrp == Slot(s.rd, |q.pending|)
    && (forall i | 0 <= i < |q.pending| :: s.ring[Slot(s.rd, i)] == q.pending[i].bank)
  }

  ghost predicate NotifyInv(s: State, q: Queue) {
    && s.tokens == (if s.notifyLast == s.notifySeen then [] else [s.notifyLast])
    && (q.pending != [] ==> s.tokens != [] || q.awake)
  }

  ghost predicate ReadInv(s: State, q: Queue)
    requires WellFormed(s)
  {
    && (s.banks[0].read == NextHeader(s, q, 0) || NextHeader(s, q, 0) == s.banks[0].first)
    && (s.banks[1].read == NextHeader(s, q, 1) || NextHeader(s, q, 1) == s.banks[1].first)
  }

  ghost predicate Inv(s: State, q: Queue) {
    && WellFormed(s) && |q.shape| == 2
    && BanksInv(s, q) && BuffersInv(s, q) && RingInv(s, q) && NotifyInv(s, q) && ReadInv(s, q)
  }

  // Every read pointer is at the next packet of its bank.
  ghost predicate ReadExact(s: State, q: Queue)
    requires WellFormed(s)
  {
    s.banks[0].read == NextHeader(s, q, 0) && s.banks[1].read == NextHeader(s, q, 1)
  }

  // ------------------------------------------------------------------------------
  // What each step keeps
  // ------------------------------------------------------------------------------

  // Replacing the outcome of one bank keeps the other one.
  lemma BanksStep(s: State, q: Queue, s': State, q': Queue, bn: int)
    requires WellFormed(s) && WellFormed(s') && BanksInv(s, q) && (bn == 0 || bn == 1)
    requires s'.banks[1 - bn] == s.banks[1 - bn] && SameFrame(s.banks[bn], s'.banks[bn])
    requires Within(s.m, s'.m, s.banks[bn])
    requires |q'.shape| == 2 && q'.shape[1 - bn] == q.shape[1 - bn]
    requires OneBank(s', q', bn)
    requires OfBank(q'.All(), 1 - bn) == OfBank(q.All(), 1 - bn)
    requires Numbered(q'.held) && Numbered(q'.pending)
    ensures BanksInv(s', q')
  {
    hide BankCore, OfBank;
    OtherBankKept(s.m, s'.m, s.banks[1 - bn], q.shape[1 - bn]);
  }

  // The frame the handler commits, and the queue afterwards.
  ghost function Arriving(s: State, length: int): Packet
    requires WellFormed(s)
  {
    var bn := BankOf(s, s.inLld);
    Received(s.m, s.banks[bn], bn, length)
  }

  // A frame is kept if there was a buffer to go on with, its CRC was good and the ring
  // has a slot.
  predicate Accepts(s: State, length: int)
    requires WellFormed(s)
  {
    s.next != NONE && length >= MIN_FRAME && s.rd != Increment(s.wrp)
  }

  ghost function AfterInterrupt(s: State, q: Queue, length: int): (r: Queue)
    requires WellFormed(s) && |q.shape| == 2
    ensures |r.shape| == 2
  {
    if Accepts(s, length) then
      var bn := BankOf(s, s.inLld);
      var p := Arriving(s, length);
      q.(pending := q.pending + [p], shape := q.shape[bn := CommitShape(s.banks[bn], q.shape[bn], p)])
    else q
  }

  lemma OfBankOfNone(bn: int)
    ensures OfBank([], bn) == []
  {
  }

  lemma OfBankAppend(q: seq<Packet>, p: Packet, bn: int)
    ensures OfBank(q + [p], bn) == OfBank(q, bn) + (if p.bank == bn then [p] else [])
  {
    OfBankConcat(q, [p], bn);
    assert [p][1..] == [];
  }

  lemma AcceptedState(s: State, length: int)
    requires WellFormed(s) && Accepts(s, length)
    ensures var bn := BankOf(s, s.inLld); var o := CommitBank(s.m, s.banks[bn], length);
            Interrupt(s, length) == Notify(s).(
              m := o.m, banks := s.banks[bn := o.bank], inLld := s.next,
              next := if o.room then o.bank.wr else NONE,
              refill := if o.room then s.refill else bn,
              ring := s.ring[s.wrp := bn], wrp := Increment(s.wrp))
  {
  }

  lemma WritePlaces(s: State, q: Queue)
    requires WellFormed(s) && BanksInv(s, q)
    ensures 0 < s.banks[0].first < s.banks[0].wr < s.banks[1].first < s.banks[1].wr
    ensures BankOf(s, s.banks[0].wr) == 0 && BankOf(s, s.banks[1].wr) == 1
  {
    WritePlace(s.m, s.banks[0], q.shape[0]);
    WritePlace(s.m, s.banks[1], q.shape[1]);
  }

  lemma AcceptKeepsBanks(s: State, q: Queue, length: int)
    requires WellFormed(s) && BanksInv(s, q) && BuffersInv(s, q)
    requires Accepts(s, length) && length <= MAX_FRAME
    ensures BanksInv(Interrupt(s, length), AfterInterrupt(s, q, length))
    ensures BuffersInv(Interrupt(s, length), AfterInterrupt(s, q, length))
  {
    hide BankInv, CommitBank, CommitShape, Within, OfBank, Received, RoundBytes, Interrupt, Room;
    var bn := BankOf(s, s.inLld);
    var b, g := s.banks[bn], q.shape[bn];
    var p := Arriving(s, length);
    var s', q' := Interrupt(s, length), AfterInterrupt(s, q, length);
    var o := CommitBank(s.m, b, length);
    AcceptedState(s, length);
    WritePlaces(s, q);
    CommitKeepsBank(s.m, b, g, bn, length);
    CommitStaysWithin(s.m, b, g, length);
    assert p.bank == bn && p == Received(s.m, b, bn, length) by { ArrivingBank(s, length); }
    OfBankAppend(q.All(), p, bn);
    OfBankAppend(q.All(), p, 1 - bn);
    assert q'.All() == q.All() + [p];
    assert OneBank(s', q', bn);
    BanksStep(s, q, s', q', bn);
    WritePlaces(s', q');
  }

  lemma ArrivingBank(s: State, length: int)
    requires WellFormed(s)
    ensures Arriving(s, length).bank == BankOf(s, s.inLld)
    ensures Arriving(s, length).length == length
    ensures Arriving(s, length).header == s.banks[BankOf(s, s.inLld)].wr - 4
  {
  }

  lemma SlotNext(rd: nat, n: nat)
    requires rd < RING
    ensures Increment(Slot(rd, n)) == Slot(rd, n + 1) == Slot(Increment(rd), n)
    ensures Slot(rd, RING) == rd && Slot(rd, 0) == rd
  {
    assert Increment(rd) == rd + 1 || (rd == RING - 1 && Increment(rd) == 0);
  }

  lemma SlotsDiffer(rd: nat, i: nat, j: nat)
    requires i < j < RING
    ensures Slot(rd, i) != Slot(rd, j)
  {
  }

  lemma AcceptKeepsRing(s: State, q: Queue, length: int)
    requires WellFormed(s) && |q.shape| == 2 && RingInv(s, q) && Accepts(s, length)
    ensures RingInv(Interrupt(s, length), AfterInterrupt(s, q, length))
  {
    hide CommitBank, CommitShape, Received, Interrupt, Slot, Increment;
    AcceptedState(s, length);
    ArrivingBank(s, length);
    var n := |q.pending|;
    SlotNext(s.rd, n);
    assert n != RING - 1;
    var s', q' := Interrupt(s, length), AfterInterrupt(s, q, length);
    forall i | 0 <= i < |q'.pending| ensures s'.ring[Slot(s'.rd, i)] == q'.pending[i].bank {
      if i < n { SlotsDiffer(s.rd, i, n); }
    }
  }

  lemma AcceptKeepsReaders(s: State, q: Queue, length: int)
    requires WellFormed(s) && |q.shape| == 2 && Accepts(s, length)
    requires BankInv(s.m, s.banks[BankOf(s, s.inLld)], q.shape[BankOf(s, s.inLld)])
    requires Room(s.banks[BankOf(s, s.inLld)], q.shape[BankOf(s, s.inLld)]) && length <= MAX_FRAME
    ensures var s', q' := Interrupt(s, length), AfterInterrupt(s, q, length);
            && (ReadInv(s, q) ==> ReadInv(s', q'))
            && (ReadExact(s, q) ==> ReadExact(s', q'))
            && (NotifyInv(s, q) ==> NotifyInv(s', q'))
  {
    hide BankInv, CommitBank, CommitShape, Within, OfBank, Interrupt, Room, Received;
    var bn := BankOf(s, s.inLld);
    var p := Arriving(s, length);
    AcceptedState(s, length);
    ArrivingBank(s, length);
    CommitStaysWithin(s.m, s.banks[bn], q.shape[bn], length);
    OfBankAppend(q.pending, p, bn);
    OfBankAppend(q.pending, p, 1 - bn);
  }

  lemma RefuseKeeps(s: State, q: Queue, length: int)
    requires Inv(s, q) && !Accepts(s, length)
    ensures Inv(Interrupt(s, length), q)
    ensures ReadExact(s, q) ==> ReadExact(Interrupt(s, length), q)
  {
    hide BankInv, CommitBank, Room, OfBank, Slot, Increment;
    WritePlaces(s, q);
    SlotNext(s.rd, |q.pending|);
    if s.next != NONE && length >= MIN_FRAME {
      assert Slot(s.rd, |q.pending| + 1) == s.rd;
      assert q.pending != [] by { if q.pending == [] { SlotsDiffer(s.rd, 0, 1); } }
    }
  }

  /** The interrupt handler: a good frame that finds a next buffer and a free ring slot
      is appended to the queue as it was received; any other frame leaves the queue alone. */
  lemma InterruptKeeps(s: State, q: Queue, length: int)
    requires Inv(s, q) && length <= MAX_FRAME
    ensures var s', q' := Interrupt(s, length), AfterInterrupt(s, q, length);
            Inv(s', q') && (ReadExact(s, q) ==> ReadExact(s', q'))
  {
    if Accepts(s, length) {
      AcceptKeepsBanks(s, q, length);
      AcceptKeepsRing(s, q, length);
      AcceptKeepsReaders(s, q, length);
    } else {
      RefuseKeeps(s, q, length);
    }
  }

  /** A word the low-level driver stores into its buffer changes no packet. */
  lemma ReceiveKeeps(s: State, q: Queue, x: int, v: int)
    requires Inv(s, q) && s.inLld <= x < s.inLld + RECEIVE_BYTES
    ensures Inv(Receive(s, x, v), q)
    ensures ReadExact(s, q) ==> ReadExact(Receive(s, x, v), q)
  {
    hide BankInv, Room, OfBank, Within;
    var bn := BankOf(s, s.inLld);
    ReceiveKeepsBank(s.m, s.banks[bn], q.shape[bn], x, v);
    BanksStep(s, q, Receive(s, x, v), q, bn);
  }

  // The bank that waits for room when there is none.
  ghost function AfterRestart(s: State, q: Queue): (r: Queue)
    requires WellFormed(s) && |q.shape| == 2
    ensures |r.shape| == 2 && r.All() == q.All() && r.pending == q.pending
  {
    if s.next != NONE then q
    else q.(shape := q.shape[s.refill := RestartShape(s.banks[s.refill], q.shape[s.refill])])
  }

  // The restart has to wrap the bank while its reader is still at the word that becomes
  // the zero tail: every packet of a stuck bank has been taken.
  predicate LeavesReaderBehind(b: Bank) {
    b.wr > b.lastSafe && b.read == b.wr - 4
  }

  // What the restart starts from: the invariant, but for a stuck bank whose head may
  // just have become free.
  ghost predicate RestartPre(s: State, q: Queue) {
    && WellFormed(s) && |q.shape| == 2
    && BankCore(s.m, s.banks[s.refill], q.shape[s.refill])
    && (s.banks[s.refill].wr > s.banks[s.refill].lastSafe ==> q.shape[s.refill].lo != [])
    && BankInv(s.m, s.banks[1 - s.refill], q.shape[1 - s.refill])
    && s.banks[0].End() <= s.banks[1].first
    && OfBank(q.All(), 0) == q.shape[0].All() && OfBank(q.All(), 1) == q.shape[1].All()
    && Numbered(q.held) && Numbered(q.pending)
    && s.next == NONE
    && s.inLld == s.banks[1 - s.refill].wr && Room(s.banks[1 - s.refill], q.shape[1 - s.refill])
  }

  lemma RestartKeepsBanks(s: State, q: Queue)
    requires RestartPre(s, q)
    ensures BanksInv(Restart(s), AfterRestart(s, q)) && BuffersPlaced(Restart(s), AfterRestart(s, q))
    ensures OfBank(q.All(), s.refill) == [] ==> Restart(s).next != NONE
  {
    hide BankInv, BankCore, Room, OfBank, Within, RestartBank, RestartShape;
    var bn := s.refill;
    var s', q' := Restart(s), AfterRestart(s, q);
    RestartKeepsBank(s.m, s.banks[bn], q.shape[bn]);
    RestartStaysWithin(s.m, s.banks[bn], q.shape[bn]);
    assert BankInv(s'.m, s'.banks[1 - bn], q'.shape[1 - bn]) by {
      OtherBankInvKept(s.m, s'.m, s.banks[bn], s.banks[1 - bn], q.shape[1 - bn]);
    }
    assert OneBank(s', q', 0) && OneBank(s', q', 1);
    WritePlaces(s', q');
  }

  lemma OtherBankInvKept(m: Memory, m': Memory, b: Bank, c: Bank, g: Shape)
    requires BankInv(m, c, g) && Within(m, m', b) && (b.End() <= c.first || c.End() <= b.first)
    ensures BankInv(m', c, g)
  {
    OtherBankKept(m, m', c, g);
  }

  // The two readers over a restart.
  lemma RestartKeepsReaders(s: State, q: Queue)
    requires WellFormed(s) && |q.shape| == 2 && s.next == NONE && ReadInv(s, q)
    requires BankCore(s.m, s.banks[s.refill], q.shape[s.refill])
    requires OfBank(q.All(), s.refill) == q.shape[s.refill].All()
    ensures ReadInv(Restart(s), AfterRestart(s, q))
    ensures ReadExact(s, q) ==>
      (ReadExact(Restart(s), AfterRestart(s, q)) <==>
        !(LeavesReaderBehind(s.banks[s.refill]) && s.banks[s.refill].free != s.banks[s.refill].first))
  {
    hide BankInv, BankCore, Room, OfBank, RestartShape, RestartBank, AfterRestart, Restart;
    var bn := s.refill;
    RestartBanks(s);
    RestartMoves(s.m, s.banks[bn]);
    WritePlace(s.m, s.banks[bn], q.shape[bn]);
    PendingPlaces(s, q, bn);
  }

  lemma RestartBanks(s: State)
    requires WellFormed(s) && s.next == NONE
    ensures Restart(s).banks == s.banks[s.refill := RestartBank(s.m, s.banks[s.refill]).bank]
  {
  }

  // A waiting packet starts before the word in front of the write pointer, or behind the
  // free pointer of a wrapped bank; in either case not at that word.
  lemma PendingPlaces(s: State, q: Queue, bn: int)
    requires WellFormed(s) && |q.shape| == 2 && (bn == 0 || bn == 1)
    requires BankCore(s.m, s.banks[bn], q.shape[bn]) && OfBank(q.All(), bn) == q.shape[bn].All()
    ensures OfBank(q.pending, bn) != [] ==> OfBank(q.pending, bn)[0].header != s.banks[bn].wr - 4
  {
    OfBankConcat(q.held, q.pending, bn);
    var u := OfBank(q.pending, bn);
    if u != [] {
      var i := |OfBank(q.held, bn)|;
      assert q.shape[bn].All()[i] == u[0];
      RecordPlace(s.m, s.banks[bn], q.shape[bn], i);
    }
  }

  /** Restarting the refill from any reachable state. */
  lemma RestartKeeps(s: State, q: Queue)
    requires Inv(s, q)
    ensures Inv(Restart(s), AfterRestart(s, q))
    ensures ReadExact(s, q) ==> ReadExact(Restart(s), AfterRestart(s, q))
  {
    if s.next == NONE {
      RestartFromInv(s, q);
      RestartKeepsBanks(s, q);
      RestartKeepsReaders(s, q);
      NotStuckWithFreeHead(s, q);
      RestartOthers(s, q);
    }
  }

  lemma RestartFromInv(s: State, q: Queue)
    requires Inv(s, q) && s.next == NONE
    ensures RestartPre(s, q)
  {
  }

  lemma NotStuckWithFreeHead(s: State, q: Queue)
    requires WellFormed(s) && BanksInv(s, q)
    ensures s.banks[s.refill].wr > s.banks[s.refill].lastSafe ==> s.banks[s.refill].free == s.banks[s.refill].first
  {
  }

  // A restart leaves the ring and the notifications alone.
  lemma RestartOthers(s: State, q: Queue)
    requires WellFormed(s) && |q.shape| == 2
    ensures RingInv(s, q) ==> RingInv(Restart(s), AfterRestart(s, q))
    ensures NotifyInv(s, q) ==> NotifyInv(Restart(s), AfterRestart(s, q))
  {
  }

  // ------------------------------------------------------------------------------
  // Release, in the order of taking
  // ------------------------------------------------------------------------------

  ghost function AfterFree(q: Queue): (r: Queue)
    requires q.held != [] && |q.shape| == 2 && Numbered(q.held) && q.shape[q.held[0].bank].lo != []
    ensures |r.shape| == 2
  {
    var bn := q.held[0].bank;
    q.(held := q.held[1..], shape := q.shape[bn := ReleaseShape(q.shape[bn])])
  }

  // The packet held longest is the oldest record of its bank.
  lemma OldestHeld(s: State, q: Queue)
    requires WellFormed(s) && BanksInv(s, q) && q.held != []
    ensures var p := q.held[0]; var bn := p.bank;
            && q.shape[bn].lo != [] && s.banks[bn].free == p.header && BankOf(s, p.header + 8) == bn
            && p.header > 0 && q.shape[bn].All() != []
            && OfBank(q.All()[1..], bn) == q.shape[bn].All()[1..]
            && OfBank(q.All()[1..], 1 - bn) == q.shape[1 - bn].All()
            && q.All()[1..] == q.held[1..] + q.pending
  {
    hide BankInv;
    var p := q.held[0];
    var bn := p.bank;
    assert q.All()[0] == p;
    assert OfBank(q.All(), bn) == [p] + OfBank(q.All()[1..], bn);
    assert OneBank(s, q, bn) && OneBank(s, q, 1 - bn);
    BankInvCore(s.m, s.banks[bn], q.shape[bn]);
    OldestIsAtFree(s.m, s.banks[bn], q.shape[bn]);
    RecordPlace(s.m, s.banks[bn], q.shape[bn], 0);
    BanksApart(s, q);
  }

  lemma BankInvCore(m: Memory, b: Bank, g: Shape)
    requires BankInv(m, b, g)
    ensures BankCore(m, b, g) && 0 < b.first
  {
  }

  lemma BanksApart(s: State, q: Queue)
    requires WellFormed(s) && BanksInv(s, q)
    ensures s.banks[0].End() <= s.banks[1].first && 0 < s.banks[0].first && 0 < s.banks[1].first
  {
  }

  // A bank with room keeps it when its oldest record is released.
  lemma RoomAfterRelease(m: Memory, b: Bank, g: Shape, f: int)
    requires BankInv(m, b, g) && g.All() != [] && Room(b, g)
    requires f == if g.wrapped && |g.lo| == 1 then b.first else b.free + RoundBytes(g.lo[0].length)
    ensures Room(b.(free := f), ReleaseShape(g)) && b.wr <= b.lastSafe
  {
  }

  lemma CoreIsInv(m: Memory, b: Bank, g: Shape)
    requires BankCore(m, b, g) && b.wr <= b.lastSafe
    ensures BankInv(m, b, g)
  {
  }

  lemma StuckInv(m: Memory, b: Bank, g: Shape)
    requires BankInv(m, b, g)
    ensures b.wr > b.lastSafe ==> b.free == b.first && g.lo != []
  {
  }

  // What releasing the packet held longest does to its bank.
  lemma FreedBank(s: State, q: Queue, k: nat)
    requires WellFormed(s) && BanksInv(s, q) && q.held != [] && k >= 2
    ensures var bn := q.held[0].bank; var b, g := s.banks[bn], q.shape[bn];
            g.lo != [] &&
            var s1, q1 := FreeInBank(s, q.held[0].header, k), AfterFree(q); var f := s1.banks[bn].free;
            && s1 == s.(m := s1.m, banks := s.banks[bn := b.(free := f)])
            && BankCore(s1.m, s1.banks[bn], q1.shape[bn]) && Within(s.m, s1.m, b)
            && OfBank(q1.All(), bn) == q1.shape[bn].All()
            && OfBank(q1.All(), 1 - bn) == q.shape[1 - bn].All()
            && BankInv(s1.m, s.banks[1 - bn], q.shape[1 - bn])
            && (b.wr > b.lastSafe ==> q1.shape[bn].lo != [] && f != b.first)
            && (Room(b, g) ==> Room(s1.banks[bn], q1.shape[bn]) && b.wr <= b.lastSafe)
  {
    hide BankCore, OfBank, Within, Room, Advance, ReleaseShape, Negated;
    var bn := q.held[0].bank;
    OldestHeld(s, q);
    var b, g := s.banks[bn], q.shape[bn];
    assert OneBank(s, q, bn) && OneBank(s, q, 1 - bn);
    ReleaseKeepsBank(s.m, b, g, k);
    AdvanceStops(s.m, b, g, k);
    BanksApart(s, q);
    var s1 := FreeInBank(s, q.held[0].header, k);
    OtherBankInvKept(s.m, s1.m, b, s.banks[1 - bn], q.shape[1 - bn]);
    if Room(b, g) { RoomAfterRelease(s.m, b, g, s1.banks[bn].free); }
  }

  lemma FreeKeepsBanks(s: State, q: Queue, k: nat)
    requires WellFormed(s) && BanksInv(s, q) && BuffersInv(s, q) && q.held != [] && k >= 2
    ensures q.shape[q.held[0].bank].lo != []
    ensures var s1, q1 := FreeInBank(s, q.held[0].header, k), AfterFree(q);
            && (s.next == NONE ==> RestartPre(s1, q1))
            && (s.next != NONE ==> BanksInv(s1, q1) && BuffersInv(s1, q1))
  {
    hide BankInv, BankCore, OfBank, Within, Room, ReleaseShape, FreeInBank;
    var p := q.held[0];
    var bn := p.bank;
    FreedBank(s, q, k);
    WritePlaces(s, q);
    BanksApart(s, q);
    var s1, q1 := FreeInBank(s, p.header, k), AfterFree(q);
    if Room(s.banks[bn], q.shape[bn]) { CoreIsInv(s1.m, s1.banks[bn], q1.shape[bn]); }
    BankInvCore(s1.m, s1.banks[1 - bn], q1.shape[1 - bn]);
    StuckInv(s1.m, s1.banks[1 - bn], q1.shape[1 - bn]);
  }

  // The two readers, the ring and the notifications over the first half of a release.
  lemma FreeKeepsReaders(s: State, q: Queue, k: nat)
    requires WellFormed(s) && BanksInv(s, q) && q.held != [] && k >= 2
    ensures q.shape[q.held[0].bank].lo != []
    ensures var s1, q1 := FreeInBank(s, q.held[0].header, k), AfterFree(q);
            && (ReadInv(s, q) ==> ReadInv(s1, q1)) && (ReadExact(s, q) ==> ReadExact(s1, q1))
            && (RingInv(s, q) ==> RingInv(s1, q1)) && (NotifyInv(s, q) ==> NotifyInv(s1, q1))
  {
    hide BankInv, BankCore, OfBank, Within, Room, ReleaseShape, Advance;
    OldestHeld(s, q);
  }

  ghost function AfterRelease(s: State, q: Queue, k: nat): (r: Queue)
    requires Inv(s, q) && q.held != [] && k >= 2
    ensures |r.shape| == 2 && r.held == q.held[1..] && r.pending == q.pending && r.awake == q.awake
  {
    FreedBank(s, q, k);
    FreeKeepsBanks(s, q, k);
    var s1, q1 := FreeInBank(s, q.held[0].header, k), AfterFree(q);
    AfterRestart(s1, q1)
  }

  // The release makes a stuck bank wrap although all of its packets have been taken.
  predicate Overtakes(s: State, q: Queue)
    requires WellFormed(s) && q.held != [] && Numbered(q.held)
  {
    LeavesReaderBehind(s.banks[q.held[0].bank])
  }

  lemma ReleaseKeepsReaders(s: State, q: Queue, k: nat)
    requires Inv(s, q) && q.held != [] && k >= 2 && s.next == NONE
    ensures var s', q' := Release(s, q.held[0].header + 8, k), AfterRelease(s, q, k);
            ReadInv(s', q') && (ReadExact(s, q) ==> (ReadExact(s', q') <==> !Overtakes(s, q)))
  {
    hide BankInv, BankCore, OfBank, Within, Room, ReleaseShape, FreeInBank, RestartBank, RestartShape;
    var p := q.held[0];
    FreedBank(s, q, k);
    FreeKeepsBanks(s, q, k);
    FreeKeepsReaders(s, q, k);
    OldestHeld(s, q);
    var s1, q1 := FreeInBank(s, p.header, k), AfterFree(q);
    RestartKeepsReaders(s1, q1);
    StuckInv(s.m, s.banks[1 - p.bank], q.shape[1 - p.bank]);
    RoomIsSafe(s.m, s.banks[1 - s.refill], q.shape[1 - s.refill]);
  }

  lemma RoomIsSafe(m: Memory, b: Bank, g: Shape)
    requires BankInv(m, b, g) && Room(b, g)
    ensures b.wr <= b.lastSafe
  {
  }

  /** Releasing packets in the order they were taken removes exactly the oldest one, ends
      the free loop within two turns, and keeps every other packet; the readers stay exact
      unless, and only unless, the released packet lets a stuck bank wrap from which
      everything has been taken. */
  lemma ReleaseKeeps(s: State, q: Queue, k: nat)
    requires Inv(s, q) && q.held != [] && k >= 2
    ensures var s', q' := Release(s, q.held[0].header + 8, k), AfterRelease(s, q, k);
            Inv(s', q') && (ReadExact(s, q) ==> (ReadExact(s', q') <==> !Overtakes(s, q)))
  {
    hide BankInv, BankCore, OfBank, Within, Room, ReleaseShape, FreeInBank, RestartBank, RestartShape;
    FreedBank(s, q, k);
    FreeKeepsBanks(s, q, k);
    FreeKeepsReaders(s, q, k);
    OldestHeld(s, q);
    var bn := q.held[0].bank;
    var s1, q1 := FreeInBank(s, q.held[0].header, k), AfterFree(q);
    if s.next == NONE {
      RestartKeepsBanks(s1, q1);
      RestartOthers(s1, q1);
      ReleaseKeepsReaders(s, q, k);
      OfBankOfNone(s1.refill);
    } else {
      RoomIsSafe(s.m, s.banks[0], q.shape[0]);
      RoomIsSafe(s.m, s.banks[1], q.shape[1]);
    }
  }

  // ------------------------------------------------------------------------------
  // The next buffer
  // ------------------------------------------------------------------------------

  // The driver goes without a next buffer only if the bank that waits has no room.
  ghost predicate Offered(s: State, q: Queue)
    requires WellFormed(s) && |q.shape| == 2
  {
    s.next == NONE ==> !Room(s.banks[s.refill], q.shape[s.refill])
  }

  /** A restart that finds no next buffer offers the write pointer of the waiting bank exactly
      when a maximal frame has room there. */
  lemma RestartOffersIff(s: State, q: Queue)
    requires RestartPre(s, q)
    ensures var s', q' := Restart(s), AfterRestart(s, q);
            && s'.refill == s.refill
            && s'.next == (if Room(s'.banks[s.refill], q'.shape[s.refill]) then s'.banks[s.refill].wr else NONE)
            && (s'.next == NONE <==> !Room(s'.banks[s.refill], q'.shape[s.refill]))
  {
    hide BankInv, BankCore, Room, OfBank, RestartBank, RestartShape;
    RestartKeepsBank(s.m, s.banks[s.refill], q.shape[s.refill]);
    RestartKeepsBanks(s, q);
    WritePlaces(Restart(s), AfterRestart(s, q));
  }

  /** So no room goes unused after a restart, nor after a release in order. */
  lemma RestartOffers(s: State, q: Queue)
    requires Inv(s, q)
    ensures s.next == NONE ==> Offered(Restart(s), AfterRestart(s, q))
    ensures s.next != NONE ==> Restart(s) == s
  {
    hide Room;
    if s.next == NONE {
      RestartFromInv(s, q);
      RestartOffersIff(s, q);
    }
  }

  lemma ReleaseOffers(s: State, q: Queue, k: nat)
    requires Inv(s, q) && q.held != [] && k >= 2
    ensures Offered(Release(s, q.held[0].header + 8, k), AfterRelease(s, q, k))
  {
    hide BankInv, BankCore, OfBank, Within, Room, ReleaseShape, RestartBank, RestartShape;
    FreedBank(s, q, k);
    FreeKeepsBanks(s, q, k);
    OldestHeld(s, q);
    if s.next == NONE { RestartOffersIff(FreeInBank(s, q.held[0].header, k), AfterFree(q)); }
  }

  /** What the end of a frame does to the buffers. A frame that is kept leaves its bank's write
      pointer as the next buffer exactly when a maximal frame has room behind it; a bad frame's
      buffer is the next one; a frame that finds the ring full leaves none, although its bank
      has room; and one that finds no next buffer is counted and leaves everything else. */
  lemma InterruptOffersIff(s: State, q: Queue, length: int)
    requires Inv(s, q) && length <= MAX_FRAME
    ensures var s', q' := Interrupt(s, length), AfterInterrupt(s, q, length); var bn := BankOf(s, s.inLld);
            && (s.next == -1 ==> s' == s.(overran := s.overran + 1))
            && (s.next != -1 ==> s'.inLld == s.next && s'.overran == s.overran)
            && (s.next != -1 && length < 64 ==> s'.next == s.inLld)
            && (s.next != -1 && length >= 64 && s.rd == (s.wrp + 1) % 32 ==>
                  s'.next == -1 && s'.refill == bn && s'.wrp == s.wrp && !Offered(s', q'))
            && (s.next != -1 && length >= 64 && s.rd != (s.wrp + 1) % 32 ==>
                  && s'.wrp == (s.wrp + 1) % 32 && q'.pending == q.pending + [Arriving(s, length)]
                  && s'.next == (if Room(s'.banks[bn], q'.shape[bn]) then s'.banks[bn].wr else -1)
                  && (s'.next == -1 <==> !Room(s'.banks[bn], q'.shape[bn])))
            && (Offered(s', q') <==>
                  Offered(s, q) && !(s.next != -1 && length >= 64 && s.rd == (s.wrp + 1) % 32))
  {
    hide BankInv, BankCore, CommitBank, CommitShape, OfBank, Received, Room, RingInv, ReadInv, NotifyInv;
    var bn := BankOf(s, s.inLld);
    WritePlaces(s, q);
    if Accepts(s, length) {
      AcceptedState(s, length);
      CommitKeepsBank(s.m, s.banks[bn], q.shape[bn], bn, length);
      AcceptKeepsBanks(s, q, length);
      WritePlaces(Interrupt(s, length), AfterInterrupt(s, q, length));
    }
  }

  // ------------------------------------------------------------------------------
  // Taking packets
  // ------------------------------------------------------------------------------

  // The reader of a bank finds the next packet: it is there already, or the word it is
  // at sends it to the head of the bank.
  predicate ReaderFinds(s: State, q: Queue)
    requires WellFormed(s) && q.pending != [] && Numbered(q.pending)
  {
    var bn := q.pending[0].bank;
    s.banks[bn].read == NextHeader(s, q, bn) || Load(s.m, s.banks[bn].read) == 0
  }

  /** The header that is picked for a waiting packet is the right one exactly when the
      reader is at the packet or at a zero word. */
  lemma PickedIsNext(s: State, q: Queue)
    requires Inv(s, q) && q.pending != []
    ensures Picked(s.m, s.banks[q.pending[0].bank]) == q.pending[0].header <==> ReaderFinds(s, q)
  {
    hide BankInv, Room, Slot;
    NextPending(s, q);
  }

  ghost function AfterGet(q: Queue): Queue
    requires q.pending != []
  {
    q.(held := q.held + [q.pending[0]], pending := q.pending[1..], awake := false)
  }

  // The packet that has waited longest is the next record of its bank, and what follows it.
  lemma NextPending(s: State, q: Queue)
    requires WellFormed(s) && BanksInv(s, q) && q.pending != []
    ensures var p := q.pending[0]; var bn := p.bank;
            && NextHeader(s, q, bn) == p.header && Live(s.m, p, s.banks[bn].lastSafe) && p.header > 0
            && AfterPacket(s.m, s.banks[bn], p.header) == NextHeader(s, AfterGet(q), bn)
            && NextHeader(s, AfterGet(q), 1 - bn) == NextHeader(s, q, 1 - bn)
  {
    hide BankInv, BankCore, Live;
    var p := q.pending[0];
    var bn := p.bank;
    var h := OfBank(q.held, bn);
    assert OneBank(s, q, bn);
    OfBankConcat(q.held, q.pending, bn);
    assert OfBank(q.pending, bn) == [p] + OfBank(q.pending[1..], bn);
    BankInvCore(s.m, s.banks[bn], q.shape[bn]);
    var all := q.shape[bn].All();
    assert all[|h|] == p;
    assert OfBank(q.pending[1..], bn) == all[|h| + 1..];
    NextRecord(s.m, s.banks[bn], q.shape[bn], |h|);
    RecordPlace(s.m, s.banks[bn], q.shape[bn], |h|);
    LiveHeader(s.m, p, s.banks[bn].lastSafe);
  }

  lemma LiveHeader(m: Memory, p: Packet, limit: int)
    requires Live(m, p, limit)
    ensures Load(m, p.header) == p.length && MIN_FRAME <= p.length <= MAX_FRAME
    ensures p.words == Content(m, p.header + 4, WordCount(p.length)) && |p.words| == WordCount(p.length)
  {
  }

  ghost function Handed(p: Packet): Taken
    requires p.words != []
  {
    Taken(p.header + 8, p.length - 4, p.words[0])
  }

  // The state after a packet is taken.
  lemma GetState(s: State, q: Queue)
    requires Inv(s, q) && q.pending != [] && ReaderFinds(s, q)
    ensures var p := q.pending[0]; var bn := p.bank; var b := s.banks[bn];
            && p.words != []
            && Get(s).1 == Handed(p)
            && var s1 := s.(banks := s.banks[bn := b.(read := NextHeader(s, AfterGet(q), bn))], rd := Increment(s.rd));
               Get(s).0 == (if s1.rd != s1.wrp then Notify(s1) else s1)
  {
    hide BankInv, Room, Live, OfBank, AfterPacket, Notify, BuffersInv, NotifyInv, ReadInv;
    var p := q.pending[0];
    NextPending(s, q);
    PickedIsNext(s, q);
    LiveHeader(s.m, p, s.banks[p.bank].lastSafe);
    assert p.words[0] == Load(s.m, p.header + 4);
    SlotNext(s.rd, 0);
    assert s.ring[s.rd] == p.bank;
    SlotsDiffer(s.rd, 0, |q.pending|);
  }

  lemma GetKeepsNumbers(s: State, q: Queue)
    requires WellFormed(s) && BanksInv(s, q) && q.pending != []
    ensures Numbered(AfterGet(q).held) && Numbered(AfterGet(q).pending)
    ensures AfterGet(q).All() == q.All()
  {
  }

  // The structure of the banks does not depend on the readers.
  lemma ReaderIsApart(s: State, q: Queue, s': State, q': Queue, bn: int)
    requires WellFormed(s) && BanksInv(s, q) && BuffersInv(s, q) && WellFormed(s') && (bn == 0 || bn == 1)
    requires s'.m == s.m && s'.banks == s.banks[bn := s.banks[bn].(read := s'.banks[bn].read)]
    requires s'.inLld == s.inLld && s'.next == s.next && s'.refill == s.refill
    requires q'.shape == q.shape && q'.All() == q.All() && Numbered(q'.held) && Numbered(q'.pending)
    ensures BanksInv(s', q') && BuffersInv(s', q')
  {
    hide OfBank, Segment;
  }

  lemma GetKeepsRing(s: State, q: Queue, s': State)
    requires WellFormed(s) && RingInv(s, q) && q.pending != []
    requires WellFormed(s') && s'.ring == s.ring && s'.wrp == s.wrp && s'.rd == Increment(s.rd)
    ensures RingInv(s', AfterGet(q)) && (s'.rd != s'.wrp <==> AfterGet(q).pending != [])
  {
    hide Slot, Increment;
    var n := |q.pending|;
    SlotNext(s.rd, n - 1);
    SlotNext(s'.rd, 0);
    forall i | 0 <= i < n - 1 ensures Slot(s'.rd, i) == Slot(s.rd, i + 1) { SlotNext(s.rd, i); }
    if n > 1 { SlotsDiffer(s'.rd, 0, n - 1); }
  }

  /** Taking a packet: with a reader that finds its packet, the call returns the packet
      that has waited longest, its length without the CRC and its time stamp, and never a
      null pointer while a packet waits. */
  lemma GetKeeps(s: State, q: Queue)
    requires Inv(s, q) && q.pending != [] && ReaderFinds(s, q)
    ensures var (s', t) := Get(s); var p := q.pending[0];
            && p.words != [] && t == Handed(p)
            && Inv(s', AfterGet(q)) && (ReadExact(s, q) ==> ReadExact(s', AfterGet(q)))
  {
    hide Slot, Live, OfBank, Increment, Get, BanksInv, BuffersInv;
    GetState(s, q);
    GetKeepsNumbers(s, q);
    var bn := q.pending[0].bank;
    ReaderIsApart(s, q, Get(s).0, AfterGet(q), bn);
    NextPending(s, q);
    GetKeepsRing(s, q, Get(s).0);
  }

  lemma GetOffers(s: State, q: Queue)
    requires Inv(s, q) && q.pending != [] && ReaderFinds(s, q)
    ensures Offered(Get(s).0, AfterGet(q)) <==> Offered(s, q)
  {
    hide BankInv, Get, BanksInv, BuffersInv, RingInv, ReadInv;
    GetState(s, q);
  }

  /** A take notifies the client exactly when packets still wait and no notification is
      outstanding; the end of a frame exactly when the frame is kept and none is. */
  lemma NotifiesIff(s: State, q: Queue, length: int)
    requires Inv(s, q) && length <= MAX_FRAME
    ensures q.pending != [] && ReaderFinds(s, q) ==>
      |Get(s).0.tokens| == |s.tokens| + if |q.pending| > 1 && s.tokens == [] then 1 else 0
    ensures |Interrupt(s, length).tokens| == |s.tokens| + if Accepts(s, length) && s.tokens == [] then 1 else 0
  {
    hide BankInv, Room, Slot, CommitBank, Get, Interrupt, BanksInv, BuffersInv;
    if q.pending != [] && ReaderFinds(s, q) {
      GetState(s, q);
      GetKeepsRing(s, q, Get(s).0);
    }
    if Accepts(s, length) { AcceptedState(s, length); } else { Unnotified(s, length); }
  }

  lemma Unnotified(s: State, length: int)
    requires WellFormed(s) && !Accepts(s, length)
    ensures Interrupt(s, length).tokens == s.tokens
  {
  }

  /** Nothing is returned exactly when nothing waits. */
  lemma GetNothing(s: State, q: Queue)
    requires Inv(s, q) && q.pending == []
    ensures Get(s) == (s, Nothing)
    ensures Inv(s, q.(awake := false))
  {
    hide BankInv, Room, Slot;
    SlotNext(s.rd, 0);
    assert q.(awake := false).All() == q.All();
  }

  /** Consuming a notification. */
  lemma NotifiedKeeps(s: State, q: Queue)
    requires Inv(s, q) && s.tokens != []
    ensures Inv(Notified(s), q.(awake := true))
    ensures ReadExact(s, q) ==> ReadExact(Notified(s), q.(awake := true))
  {
    hide BankInv, Room, Slot;
    assert q.(awake := true).All() == q.All();
  }

  // ------------------------------------------------------------------------------
  // What the invariant means to a client
  // ------------------------------------------------------------------------------

  /** Every packet the client holds or has still to take lies in memory as it was received,
      clear of the bytes the low-level driver may be storing now, and its payload ends
      before the next header. */
  lemma PacketsIntact(s: State, q: Queue, p: Packet)
    requires Inv(s, q) && p in q.All()
    ensures Load(s.m, p.header) == p.length && p.words == Content(s.m, p.header + 4, WordCount(p.length))
    ensures p.header + RoundBytes(p.length) <= s.inLld || s.inLld + RECEIVE_BYTES <= p.header
    ensures p.header + 8 + (p.length - 4) <= p.header + RoundBytes(p.length)
  {
    hide BankInv, BankCore, OfBank, Segment, Slot;
    var bn := p.bank;
    assert bn == 0 || bn == 1 by { var i :| 0 <= i < |q.All()| && q.All()[i] == p; }
    assert OneBank(s, q, bn) && OneBank(s, q, 1 - bn);
    OfBankHas(q.All(), p);
    var i :| 0 <= i < |q.shape[bn].All()| && q.shape[bn].All()[i] == p;
    BankInvCore(s.m, s.banks[bn], q.shape[bn]);
    RecordPlace(s.m, s.banks[bn], q.shape[bn], i);
    WritePlaces(s, q);
    BankInvCore(s.m, s.banks[1 - bn], q.shape[1 - bn]);
    WritePlace(s.m, s.banks[bn], q.shape[bn]);
    WritePlace(s.m, s.banks[1 - bn], q.shape[1 - bn]);
    RoomInBank(s.m, s.banks[BankOf(s, s.inLld)], q.shape[BankOf(s, s.inLld)]);
  }

  lemma {:induction false} OfBankHas(ps: seq<Packet>, p: Packet)
    requires p in ps
    ensures p in OfBank(ps, p.bank)
  {
    if ps[0] != p {
      OfBankHas(ps[1..], p);
    }
  }

  lemma RoomInBank(m: Memory, b: Bank, g: Shape)
    requires BankInv(m, b, g) && Room(b, g)
    ensures b.wr + RECEIVE_BYTES <= b.End()
  {
  }

  // Two packets of one bank, found among the packets of that bank.
  lemma {:induction false} OfBankPair(ps: seq<Packet>, i: nat, j: nat) returns (a: nat, b: nat)
    requires i < j < |ps| && ps[i].bank == ps[j].bank
    ensures a < b < |OfBank(ps, ps[i].bank)|
    ensures OfBank(ps, ps[i].bank)[a] == ps[i] && OfBank(ps, ps[i].bank)[b] == ps[j]
  {
    var bn := ps[i].bank;
    if i == 0 {
      assert ps[j] == ps[1..][j - 1];
      OfBankHas(ps[1..], ps[j]);
      var c :| 0 <= c < |OfBank(ps[1..], bn)| && OfBank(ps[1..], bn)[c] == ps[j];
      a, b := 0, c + 1;
    } else {
      a, b := OfBankPair(ps[1..], i - 1, j - 1);
      if ps[0].bank == bn { a, b := a + 1, b + 1; }
    }
  }

  // A packet lies inside its bank.
  lemma PacketPlace(s: State, q: Queue, p: Packet)
    requires WellFormed(s) && BanksInv(s, q) && p in q.All()
    ensures (p.bank == 0 || p.bank == 1) && OneBank(s, q, p.bank) && BankCore(s.m, s.banks[p.bank], q.shape[p.bank])
    ensures s.banks[p.bank].first <= p.header && p.header + RoundBytes(p.length) <= s.banks[p.bank].End()
  {
    hide BankCore, OfBank;
    var bn := p.bank;
    assert bn == 0 || bn == 1 by { var i :| 0 <= i < |q.All()| && q.All()[i] == p; }
    OfBankHas(q.All(), p);
    var i :| 0 <= i < |q.shape[bn].All()| && q.shape[bn].All()[i] == p;
    RecordPlace(s.m, s.banks[bn], q.shape[bn], i);
  }

  /** No two packets the client holds or has still to take share a byte. */
  lemma PacketsDisjoint(s: State, q: Queue, i: nat, j: nat)
    requires Inv(s, q) && i < j < |q.All()|
    ensures var p, r := q.All()[i], q.All()[j];
            p.header + RoundBytes(p.length) <= r.header || r.header + RoundBytes(r.length) <= p.header
  {
    hide BankInv, BankCore, OfBank, Slot, RoundBytes, RingInv, ReadInv, NotifyInv, BuffersInv;
    var p, r := q.All()[i], q.All()[j];
    PacketPlace(s, q, p);
    PacketPlace(s, q, r);
    BanksApart(s, q);
    if p.bank == r.bank {
      var a, b := OfBankPair(q.All(), i, j);
      RecordsDisjoint(s.m, s.banks[p.bank], q.shape[p.bank], a, b);
    }
  }

  /** Reception does not stall: once every packet has been taken and released, there is a
      buffer for the frame after the one being received. */
  lemma NeverStalls(s: State, q: Queue)
    requires Inv(s, q) && q.held == [] && q.pending == []
    ensures s.next == s.banks[1 - BankOf(s, s.inLld)].wr && s.next != NONE
  {
    hide BankInv, Room, Slot;
    WritePlaces(s, q);
  }

  /** No wake-up is lost: at most one notification is outstanding, and while packets wait
      one is, or the client has consumed one and not yet asked for a packet. */
  lemma WakeUp(s: State, q: Queue)
    requires Inv(s, q)
    ensures |s.tokens| <= 1 && (q.pending != [] && !q.awake ==> |s.tokens| == 1)
  {
  }

  const EMPTY := Queue([], [], [Shape([], [], false, 0), Shape([], [], false, 0)], false)

  /** A freshly initialised buffer of at least 1530 words stands for the empty queue. */
  lemma InitInv(m: Memory, address: int, words: nat)
    requires 0 < address && address % 4 == 0 && address + 4 * words < 0x8000_0000
    requires words >= 1530
    ensures Inv(Init(m, address, words), EMPTY) && ReadExact(Init(m, address, words), EMPTY)
  {
    hide BankInv;
    HalfWay(words);
    var s := Init(m, address, words);
    EmptyBank(s.m, s.banks[0]);
    EmptyBank(s.m, s.banks[1]);
  }

  // A bank as it is initialised.
  lemma EmptyBank(m: Memory, b: Bank)
    requires 0 < b.first && b.first % 4 == 0 && b.End() % 4 == 0 && b.End() < 0x8000_0000
    requires b.End() - b.first >= MIN_BANK && b.free == b.first && b.wr == b.first + 4 && Load(m, b.first) == 1
    ensures BankInv(m, b, Shape([], [], false, 0)) && Room(b, Shape([], [], false, 0))
  {
  }

  // Where the second bank starts.
  lemma HalfWay(words: nat)
    ensures words * 2 / 4 * 4 == 4 * (words / 2) && words - 1 <= 2 * (words / 2) <= words
  {
  }
}
