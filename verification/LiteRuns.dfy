/** Whole runs of the MII receive buffer: any interleaving of words stored by the
    low-level driver, frame ends, and calls of a client that releases packets in the order
    it took them. */
module LiteRuns {
  import opened LiteBank
  import opened LiteDriver

  datatype Event =
    | Stored(offset: nat, v: int)  // the low-level driver stores a word of its buffer
    | FrameEnd(length: int)        // the interrupt at the end of a frame
    | Take                         // mii_lite_get_in_buffer
    | GiveBack                     // mii_lite_free_in_buffer of the packet held longest
    | Refill                       // mii_lite_restart_buffer
    | Consume                      // the client consumes a notification

  // The driver and the addresses of the payloads the client holds, oldest first.
  datatype Run = Run(s: State, mine: seq<int>)

  predicate Legal(e: Event) {
    match e
    case Stored(offset, v) => offset < RECEIVE_BYTES
    case FrameEnd(length) => 0 <= length <= MAX_FRAME
    case _ => true
  }

  // One step; k bounds the turns of the free loop. Giving back without a packet, and
  // consuming without a notification, do nothing.
  function Step(r: Run, e: Event, k: nat): (r': Run)
    requires WellFormed(r.s)
    ensures WellFormed(r'.s)
  {
    match e
    case Stored(offset, v) => r.(s := Receive(r.s, r.s.inLld + offset, v))
    case FrameEnd(length) => r.(s := Interrupt(r.s, length))
    case Take =>
      var (s', t) := Get(r.s);
      if t == Nothing then r.(s := s') else Run(s', r.mine + [t.data])
    case GiveBack =>
      if r.mine == [] then r else Run(Release(r.s, r.mine[0], k), r.mine[1..])
    case Refill => r.(s := Restart(r.s))
    case Consume => if r.s.tokens == [] then r else r.(s := Notified(r.s))
  }

  function Steps(r: Run, es: seq<Event>, k: nat): (r': Run)
    requires WellFormed(r.s)
    ensures WellFormed(r'.s)
    decreases |es|
  {
    if es == [] then r else Steps(Step(r, es[0], k), es[1..], k)
  }

  // What one step keeps and hands out.
  ghost function KeptNow(r: Run, e: Event): seq<Packet>
    requires WellFormed(r.s)
  {
    if e.FrameEnd? && Accepts(r.s, e.length) then [Arriving(r.s, e.length)] else []
  }

  function GivenNow(r: Run, e: Event): seq<Taken>
    requires WellFormed(r.s)
  {
    if e.Take? && Get(r.s).1 != Nothing then [Get(r.s).1] else []
  }

  // The frames a run keeps, as they were received, in order.
  ghost function Kept(r: Run, es: seq<Event>, k: nat): seq<Packet>
    requires WellFormed(r.s)
    decreases |es|
  {
    if es == [] then []
    else
      KeptNow(r, es[0]) + Kept(Step(r, es[0], k), es[1..], k)
  }

  // What the client is given, in order.
  function Given(r: Run, es: seq<Event>, k: nat): seq<Taken>
    requires WellFormed(r.s)
    decreases |es|
  {
    if es == [] then []
    else
      GivenNow(r, es[0]) + Given(Step(r, es[0], k), es[1..], k)
  }

  // What the client is due for the frames kept.
  ghost function Due(ps: seq<Packet>): (ts: seq<Taken>)
    ensures |ts| == |ps|
    ensures forall i :: 0 <= i < |ps| ==>
      ts[i].Taken? && ts[i].data == ps[i].header + 8 && ts[i].length == ps[i].length - 4
      && (ps[i].words != [] ==> ts[i].stamp == ps[i].words[0])
  {
    seq(|ps|, i requires 0 <= i < |ps| =>
      Taken(ps[i].header + 8, ps[i].length - 4, if ps[i].words != [] then ps[i].words[0] else 0))
  }

  // What is due for one frame.
  ghost function Answer(p: Packet): Taken {
    Due([p])[0]
  }

  // ------------------------------------------------------------------------------
  // The driver as a FIFO queue
  // ------------------------------------------------------------------------------

  // The frames that wait after a step of a plain queue: a take removes the first, a frame
  // that is kept goes behind the others.
  ghost function Queued(r: Run, e: Event, waiting: seq<Packet>): seq<Packet>
    requires WellFormed(r.s)
  {
    (if e.Take? && waiting != [] then waiting[1..] else waiting) + KeptNow(r, e)
  }

  // Every take of the run is answered as the queue answers it.
  ghost predicate ActsAsFifo(r: Run, es: seq<Event>, waiting: seq<Packet>, k: nat)
    requires WellFormed(r.s)
    decreases |es|
  {
    es == [] ||
    (&& (es[0].Take? ==> Get(r.s).1 == if waiting == [] then Nothing else Answer(waiting[0]))
     && ActsAsFifo(Step(r, es[0], k), es[1..], Queued(r, es[0], waiting), k))
  }

  // The reader of the packet's bank is at the packet, or at a zero word.
  predicate AtHand(s: State, p: Packet)
    requires WellFormed(s)
  {
    (p.bank == 0 || p.bank == 1) && (s.banks[p.bank].read == p.header || Load(s.m, s.banks[p.bank].read) == 0)
  }

  // Every take of the run finds its reader so.
  ghost predicate FindsAll(r: Run, es: seq<Event>, waiting: seq<Packet>, k: nat)
    requires WellFormed(r.s)
    decreases |es|
  {
    es == [] ||
    (&& (es[0].Take? && waiting != [] ==> AtHand(r.s, waiting[0]))
     && FindsAll(Step(r, es[0], k), es[1..], Queued(r, es[0], waiting), k))
  }

  // The client never gives back a packet while a bank that waits to wrap has been
  // emptied of packets to take. It may look at the pointers before the call.
  predicate Careful(r: Run, es: seq<Event>, k: nat)
    requires WellFormed(r.s)
    decreases |es|
  {
    es == [] ||
    (IsCareful(r, es[0]) && Careful(Step(r, es[0], k), es[1..], k))
  }

  predicate IsCareful(r: Run, e: Event)
    requires WellFormed(r.s)
  {
    e.GiveBack? && r.mine != [] ==> !LeavesReaderBehind(r.s.banks[BankOf(r.s, r.mine[0])])
  }

  // The client takes a packet only when it holds none.
  predicate OneAtATime(r: Run, es: seq<Event>, k: nat)
    requires WellFormed(r.s)
    decreases |es|
  {
    es == [] ||
    ((es[0].Take? ==> r.mine == []) && OneAtATime(Step(r, es[0], k), es[1..], k))
  }

  // The run is at a state that q describes, and the client holds what q says.
  ghost predicate Holds(r: Run, q: Queue) {
    && WellFormed(r.s) && Inv(r.s, q)
    && |r.mine| == |q.held| && forall i :: 0 <= i < |q.held| ==> r.mine[i] == q.held[i].header + 8
  }

  // Whether all room is offered after a step: a frame that finds the ring full leaves room
  // unused, a release or a refill offers it again.
  predicate OfferedAfter(r: Run, e: Event, was: bool) {
    match e
    case GiveBack => was || r.mine != []
    case Refill => true
    case FrameEnd(length) => was && !(r.s.next != -1 && length >= 64 && r.s.rd == (r.s.wrp + 1) % 32)
    case _ => was
  }

  predicate OfferedAtEnd(r: Run, es: seq<Event>, was: bool, k: nat)
    requires WellFormed(r.s)
    decreases |es|
  {
    if es == [] then was else OfferedAtEnd(Step(r, es[0], k), es[1..], OfferedAfter(r, es[0], was), k)
  }

  ghost predicate StepIsFifo(r: Run, e: Event, q: Queue, k: nat, q': Queue)
    requires WellFormed(r.s) && |q.shape| == 2
  {
    && Holds(Step(r, e, k), q') && q'.pending == Queued(r, e, q.pending)
    && (e.Take? ==> Get(r.s).1 == if q.pending == [] then Nothing else Answer(q.pending[0]))
    && (ReadExact(r.s, q) && IsCareful(r, e) ==> ReadExact(Step(r, e, k).s, q'))
    && (Offered(Step(r, e, k).s, q') <==> OfferedAfter(r, e, Offered(r.s, q)))
  }

  // The packet given back is in the bank the client can compute from its address.
  lemma OldestBank(r: Run, q: Queue)
    requires Holds(r, q) && r.mine != []
    ensures BankOf(r.s, r.mine[0]) == q.held[0].bank
  {
    hide BankInv, Room, Slot, OfBank;
    OldestHeld(r.s, q);
  }

  lemma OneStep(r: Run, e: Event, q: Queue, k: nat) returns (q': Queue)
    requires Holds(r, q) && Legal(e) && k >= 2
    requires e.Take? && q.pending != [] ==> AtHand(r.s, q.pending[0])
    ensures StepIsFifo(r, e, q, k, q')
  {
    hide BanksInv, BuffersInv, RingInv, NotifyInv, ReadInv, ReadExact, Get, Release, Restart, Interrupt,
         LeavesReaderBehind, AfterRelease, Arriving, Accepts, AtHand, Room;
    q' := q;
    match e
    case Stored(offset, v) => ReceiveKeeps(r.s, q, r.s.inLld + offset, v);
    case FrameEnd(length) =>
      InterruptKeeps(r.s, q, length);
      InterruptOffersIff(r.s, q, length);
      q' := AfterInterrupt(r.s, q, length);
    case Take =>
      if q.pending == [] {
        GetNothing(r.s, q);
        q' := q.(awake := false);
        ReadersOf(r.s, q, q');
      } else {
        AtHandFinds(r.s, q);
        GetKeeps(r.s, q);
        GetOffers(r.s, q);
        q' := AfterGet(q);
      }
    case GiveBack =>
      if r.mine != [] {
        OldestBank(r, q);
        ReleaseKeeps(r.s, q, k);
        ReleaseOffers(r.s, q, k);
        q' := AfterRelease(r.s, q, k);
      }
    case Refill =>
      RestartKeeps(r.s, q);
      RestartOffers(r.s, q);
      q' := AfterRestart(r.s, q);
    case Consume =>
      if r.s.tokens != [] {
        NotifiedKeeps(r.s, q);
        q' := q.(awake := true);
      }
  }

  lemma ReadersOf(s: State, q: Queue, q': Queue)
    requires WellFormed(s) && q'.pending == q.pending
    ensures ReadExact(s, q) ==> ReadExact(s, q')
  {
  }

  lemma AtHandFinds(s: State, q: Queue)
    requires Inv(s, q) && q.pending != []
    ensures AtHand(s, q.pending[0]) <==> ReaderFinds(s, q)
    ensures ReadExact(s, q) ==> AtHand(s, q.pending[0])
  {
  }

  // A take that does not find its reader is answered wrongly, or not at all.
  lemma LostTake(s: State, q: Queue)
    requires Inv(s, q) && q.pending != [] && !AtHand(s, q.pending[0])
    ensures Get(s).1 != Answer(q.pending[0])
  {
    hide BankInv, Room, Slot, BuffersInv, AfterPacket;
    AtHandFinds(s, q);
    PickedIsNext(s, q);
    SlotNext(s.rd, 0);
    assert s.ring[s.rd] == q.pending[0].bank;
  }

  /** Over every interleaving in which packets are released in the order they were taken, the
      driver answers every take as a FIFO queue of the frames it kept does, exactly when
      every take finds its reader at the packet or at a zero word. */
  lemma {:induction false} RunIsFifoIff(r: Run, es: seq<Event>, q: Queue, k: nat)
    requires Holds(r, q) && k >= 2 && forall e <- es :: Legal(e)
    ensures ActsAsFifo(r, es, q.pending, k) <==> FindsAll(r, es, q.pending, k)
    decreases |es|
  {
    hide Inv, ReadExact, Get, Interrupt, Step, Legal, KeptNow, AtHand, Answer;
    if es != [] {
      var e := es[0];
      if e.Take? && q.pending != [] && !AtHand(r.s, q.pending[0]) {
        LostTake(r.s, q);
      } else {
        var q1 := OneStep(r, e, q, k);
        RunIsFifoIff(Step(r, e, k), es[1..], q1, k);
      }
    }
  }

  lemma DueConcat(p: seq<Packet>, q: seq<Packet>)
    ensures Due(p + q) == Due(p) + Due(q)
  {
  }

  // What one step keeps and hands out, and what the rest of the run does.
  lemma Glue(r: Run, e: Event, waiting: seq<Packet>, more: seq<Packet>, rest: seq<Taken>)
    requires WellFormed(r.s)
    requires e.Take? ==> Get(r.s).1 == if waiting == [] then Nothing else Answer(waiting[0])
    requires Due(Queued(r, e, waiting) + more) == rest
    ensures Due(waiting + (KeptNow(r, e) + more)) == GivenNow(r, e) + rest
  {
    hide Due, Get, Accepts, Arriving;
    var kept := KeptNow(r, e);
    if e.Take? && waiting != [] {
      assert waiting + (kept + more) == [waiting[0]] + (waiting[1..] + kept + more);
      DueConcat([waiting[0]], waiting[1..] + kept + more);
      assert GivenNow(r, e) == [Answer(waiting[0])] by { AnswerIsTaken(waiting[0]); }
    } else {
      assert waiting + (kept + more) == waiting + kept + more;
    }
  }

  lemma AnswerIsTaken(p: Packet)
    ensures Answer(p).Taken? && Due([p]) == [Answer(p)]
  {
  }

  /** Then what waited before and the frames kept since are, in order, what the client was given
      and what still waits, and that lies in memory intact; and a next buffer is missing in the
      end only where the waiting bank has no room, unless a frame has found the ring full since
      the last release or refill. */
  lemma {:induction false} RunConserves(r: Run, es: seq<Event>, q: Queue, k: nat) returns (q': Queue)
    requires Holds(r, q) && k >= 2 && (forall e <- es :: Legal(e)) && FindsAll(r, es, q.pending, k)
    ensures Holds(Steps(r, es, k), q')
    ensures Due(q.pending + Kept(r, es, k)) == Given(r, es, k) + Due(q'.pending)
    ensures ReadExact(r.s, q) && Careful(r, es, k) ==> ReadExact(Steps(r, es, k).s, q')
    ensures Offered(Steps(r, es, k).s, q') <==> OfferedAtEnd(r, es, Offered(r.s, q), k)
    decreases |es|
  {
    hide Inv, ReadExact, Get, Interrupt, Accepts, Arriving, Step, Due, Legal, KeptNow, GivenNow, IsCareful, AtHand,
        Answer, Offered, OfferedAfter;
    if es == [] {
      q' := q;
      assert q.pending + [] == q.pending && [] + Due(q.pending) == Due(q.pending);
    } else {
      var e := es[0];
      var q1 := OneStep(r, e, q, k);
      var r1 := Step(r, e, k);
      q' := RunConserves(r1, es[1..], q1, k);
      Glue(r, e, q.pending, Kept(r1, es[1..], k), Given(r1, es[1..], k) + Due(q'.pending));
      assert GivenNow(r, e) + (Given(r1, es[1..], k) + Due(q'.pending)) == Given(r, es, k) + Due(q'.pending);
    }
  }

  // The frames of a run that end while there is no next buffer.
  function Overruns(r: Run, es: seq<Event>, k: nat): nat
    requires WellFormed(r.s)
    decreases |es|
  {
    if es == [] then 0
    else (if es[0].FrameEnd? && r.s.next == -1 then 1 else 0) + Overruns(Step(r, es[0], k), es[1..], k)
  }

  /** The overrun counter counts them. */
  lemma {:induction false} OverrunsCounted(r: Run, es: seq<Event>, k: nat)
    requires WellFormed(r.s)
    ensures Steps(r, es, k).s.overran == r.s.overran + Overruns(r, es, k)
    decreases |es|
  {
    if es != [] {
      StepCounts(r, es[0], k);
      OverrunsCounted(Step(r, es[0], k), es[1..], k);
    }
  }

  lemma StepCounts(r: Run, e: Event, k: nat)
    requires WellFormed(r.s)
    ensures Step(r, e, k).s.overran == r.s.overran + if e.FrameEnd? && r.s.next == -1 then 1 else 0
  {
    hide Get, Interrupt, Release, Restart;
    CallCounts(r.s, e, k);
    TakeCounts(r.s);
    if e.GiveBack? && r.mine != [] { ReleaseCounts(r.s, r.mine[0], k); }
  }

  lemma CallCounts(s: State, e: Event, k: nat)
    requires WellFormed(s)
    ensures Restart(s).overran == s.overran
    ensures e.FrameEnd? ==> Interrupt(s, e.length).overran == s.overran + if s.next == -1 then 1 else 0
  {
    hide RestartBank, CommitBank, Increment;
  }

  lemma TakeCounts(s: State)
    requires WellFormed(s)
    ensures Get(s).0.overran == s.overran
  {
    hide Increment, Picked, AfterPacket;
  }

  lemma ReleaseCounts(s: State, data: int, k: nat)
    requires WellFormed(s)
    ensures Release(s, data, k).overran == s.overran
  {
    hide RestartBank, Advance, Negated;
  }

  /** A client that looks at the pointers before it gives a packet back always finds its
      reader. */
  lemma {:induction false} CarefulFindsAll(r: Run, es: seq<Event>, q: Queue, k: nat)
    requires Holds(r, q) && ReadExact(r.s, q) && k >= 2 && (forall e <- es :: Legal(e)) && Careful(r, es, k)
    ensures FindsAll(r, es, q.pending, k)
    decreases |es|
  {
    hide Inv, ReadExact, Legal, Step, KeptNow, IsCareful, AtHand;
    if es != [] {
      if q.pending != [] { AtHandFinds(r.s, q); }
      var q1 := OneStep(r, es[0], q, k);
      CarefulFindsAll(Step(r, es[0], k), es[1..], q1, k);
    }
  }

  /** From a freshly initialised buffer of at least 1530 words: the driver acts as a FIFO
      queue of the frames it keeps exactly when every take finds its reader; and then the
      client is given those frames, in order, each with its length and time stamp, and the
      frames it has not been given yet, and those it has not given back, lie in memory
      intact. Nor is the driver without a next buffer while the waiting bank has room, unless a
      frame has found the ring full since the last release or refill. */
  lemma RunFromInit(m: Memory, address: int, words: nat, es: seq<Event>, k: nat) returns (q: Queue)
    requires 0 < address && address % 4 == 0 && address + 4 * words < 0x8000_0000 && words >= 1530
    requires k >= 2 && forall e <- es :: Legal(e)
    ensures var r := Run(Init(m, address, words), []); var kept, given := Kept(r, es, k), Given(r, es, k);
            && (ActsAsFifo(r, es, [], k) <==> FindsAll(r, es, [], k))
            && (Careful(r, es, k) ==> FindsAll(r, es, [], k))
            && (FindsAll(r, es, [], k) ==>
                  && Holds(Steps(r, es, k), q)
                  && |given| + |q.pending| == |kept| && given == Due(kept)[..|given|]
                  && Due(q.pending) == Due(kept)[|given|..]
                  && |q.shape| == 2 && (Offered(Steps(r, es, k).s, q) <==> OfferedAtEnd(r, es, true, k)))
  {
    hide ActsAsFifo, FindsAll, Holds, Init, Inv, ReadExact, Legal, Kept, Given, Steps, Careful, Due, Offered,
        OfferedAtEnd;
    var r := Run(Init(m, address, words), []);
    StartHolds(m, address, words);
    RunIsFifoIff(r, es, EMPTY, k);
    if Careful(r, es, k) { CarefulFindsAll(r, es, EMPTY, k); }
    q := EMPTY;
    if FindsAll(r, es, [], k) {
      q := RunConserves(r, es, EMPTY, k);
      assert EMPTY.pending + Kept(r, es, k) == Kept(r, es, k);
      HoldsBoth(Steps(r, es, k), q);
    }
  }

  lemma StartHolds(m: Memory, address: int, words: nat)
    requires 0 < address && address % 4 == 0 && address + 4 * words < 0x8000_0000 && words >= 1530
    ensures var r := Run(Init(m, address, words), []);
            Holds(r, EMPTY) && ReadExact(r.s, EMPTY) && Offered(r.s, EMPTY)
  {
    hide Inv, ReadExact, Room;
    InitInv(m, address, words);
  }

  lemma HoldsBoth(r: Run, q: Queue)
    requires Holds(r, q)
    ensures |q.shape| == 2
  {
    hide BanksInv, BuffersInv, RingInv, NotifyInv, ReadInv;
  }

  // A client that holds a single packet has not emptied a stuck bank.
  lemma SingleIsCareful(r: Run, q: Queue)
    requires Holds(r, q) && ReadExact(r.s, q) && |r.mine| == 1
    ensures !LeavesReaderBehind(r.s.banks[BankOf(r.s, r.mine[0])])
  {
    hide BankCore, OfBank, Room, Slot;
    OldestBank(r, q);
    var bn := q.held[0].bank;
    assert OneBank(r.s, q, bn);
    if r.s.banks[bn].wr > r.s.banks[bn].lastSafe {
      StuckHoldsTwo(r.s.m, r.s.banks[bn], q.shape[bn]);
      OfBankConcat(q.held, q.pending, bn);
      OfBankShort(q.held, bn);
      PendingPlaces(r.s, q, bn);
    }
  }

  lemma {:induction false} OfBankShort(ps: seq<Packet>, bn: int)
    ensures |OfBank(ps, bn)| <= |ps|
  {
    if ps != [] { OfBankShort(ps[1..], bn); }
  }

  /** A client that takes a packet only when it holds none is careful, whatever happens. */
  lemma {:induction false} OneAtATimeIsCareful(r: Run, es: seq<Event>, q: Queue, k: nat)
    requires Holds(r, q) && ReadExact(r.s, q) && k >= 2 && (forall e <- es :: Legal(e))
    requires |r.mine| <= 1 && OneAtATime(r, es, k)
    ensures Careful(r, es, k)
    decreases |es|
  {
    hide Inv, ReadExact, Legal, Interrupt, Restart, Release, Receive, Notified, LeavesReaderBehind, KeptNow, AtHand;
    if es != [] {
      if r.mine != [] { SingleIsCareful(r, q); }
      if q.pending != [] { AtHandFinds(r.s, q); }
      var q1 := OneStep(r, es[0], q, k);
      OneAtATimeIsCareful(Step(r, es[0], k), es[1..], q1, k);
    }
  }

  // ------------------------------------------------------------------------------
  // Too small a buffer
  // ------------------------------------------------------------------------------

  // A state no client can get reception out of: bank 0 is empty but its free pointer
  // rests on the unused tail, too close for a frame.
  predicate Stalled(r: Run) {
    && WellFormed(r.s) && r.mine == [] && r.s.rd == r.s.wrp
    && r.s.next == NONE && r.s.refill == 0
    && var b := r.s.banks[0];
       b.wr <= b.lastSafe && 0 <= b.wr <= b.free && b.free - b.wr < MAXPACKET
  }

  lemma {:induction false} StalledForever(r: Run, es: seq<Event>, k: nat)
    requires Stalled(r)
    ensures Stalled(Steps(r, es, k)) && Kept(r, es, k) == []
    decreases |es|
  {
    if es != [] {
      assert Stalled(Step(r, es[0], k));
      StalledForever(Step(r, es[0], k), es[1..], k);
    }
  }

  const ONE_FRAME := [FrameEnd(MAX_FRAME), Take, GiveBack]

  // One maximal frame fills what there is of bank 0.
  lemma FrameFills(m: Memory, address: int, words: nat, k: nat)
    requires 0 < address && address % 4 == 0 && address + 4 * words < 0x8000_0000
    requires 1500 <= words < 1530
    ensures var r := Run(Init(m, address, words), []); var s1 := Step(r, FrameEnd(MAX_FRAME), k).s;
            && s1.next == NONE && s1.refill == 0 && s1.rd == 0 && s1.wrp == 1 && s1.ring[0] == 0
            && s1.banks == r.s.banks[0 := r.s.banks[0].(wr := address + 1528)]
            && Load(s1.m, address) == MAX_FRAME && Load(s1.m, address + 1524) == 1
  {
    assert 3000 <= words * 2 / 4 * 4 <= 3056;
  }

  // It is taken and given back.
  lemma FrameReturned(r1: Run, f: int, k: nat)
    requires WellFormed(r1.s) && r1.mine == [] && k >= 2 && 0 < f
    requires r1.s.next == NONE && r1.s.refill == 0 && r1.s.rd == 0 && r1.s.wrp == 1 && r1.s.ring[0] == 0
    requires var b := r1.s.banks[0];
             && b.first == b.free == b.read == f && b.wr == f + 1528 && f + 8 < r1.s.banks[1].first
             && f + 1440 <= b.lastSafe < f + 1528
    requires Load(r1.s.m, f) == MAX_FRAME && Load(r1.s.m, f + 1524) == 1
    ensures var r2 := Step(r1, Take, k); Stalled(Step(r2, GiveBack, k)) && r2.mine == [f + 8]
  {
    var r2 := Step(r1, Take, k);
    assert r2.mine == [f + 8] && r2.s.rd == 1 && r2.s.m == r1.s.m && r2.s.next == NONE && r2.s.refill == 0;
    assert r2.s.banks[0] == r1.s.banks[0].(read := f + 1524);
    assert BankOf(r2.s, f + 8) == 0;
    var s3 := FreeInBank(r2.s, f, k);
    assert Load(s3.m, f) == -MAX_FRAME && Load(s3.m, f + 1524) == 1;
    AdvanceTurns(s3.m, f, f, MAX_FRAME, k);
    var r3 := Step(r2, GiveBack, k);
    assert r3.s == Restart(s3);
    assert r3.s.banks[0] == s3.banks[0].(wr := f + 4);
  }

  // One maximal frame, taken and given back.
  lemma OneFrameStalls(m: Memory, address: int, words: nat, k: nat)
    requires 0 < address && address % 4 == 0 && address + 4 * words < 0x8000_0000
    requires 1500 <= words < 1530 && k >= 2
    ensures var r := Run(Init(m, address, words), []);
            Stalled(Steps(r, ONE_FRAME, k)) && OneAtATime(r, ONE_FRAME, k)
  {
    hide Step;
    var r := Run(Init(m, address, words), []);
    FrameFills(m, address, words, k);
    var r1 := Step(r, FrameEnd(MAX_FRAME), k);
    assert r1.mine == [] by { FrameKeepsMine(r, k); }
    FrameReturned(r1, address, k);
    var r2 := Step(r1, Take, k);
    var r3 := Step(r2, GiveBack, k);
    assert ONE_FRAME[1..] == [Take, GiveBack] && [Take, GiveBack][1..] == [GiveBack] && [GiveBack][1..] == [];
    assert Steps(r3, [], k) == r3 && Steps(r2, [GiveBack], k) == r3 && Steps(r1, [Take, GiveBack], k) == r3;
    assert OneAtATime(r2, [GiveBack], k) && OneAtATime(r1, [Take, GiveBack], k);
  }

  lemma FrameKeepsMine(r: Run, k: nat)
    requires WellFormed(r.s)
    ensures Step(r, FrameEnd(MAX_FRAME), k).mine == r.mine
  {
  }

  // Everything kept has been taken and given back, and still the next frame will be lost.
  ghost predicate CanStall(m: Memory, address: int, words: nat, k: nat) {
    exists es: seq<Event> ::
      && (forall e <- es :: Legal(e)) && OneAtATime(Run(Init(m, address, words), []), es, k)
      && var r := Steps(Run(Init(m, address, words), []), es, k);
         r.mine == [] && r.s.rd == r.s.wrp && r.s.next == NONE
  }

  /** The receive buffer is large enough exactly from 1530 words on. The headers ask for
      1500 and 1520 words: with fewer than 1530 a single maximal frame, taken and given
      back, ends reception. */
  lemma BufferSizeMatters(m: Memory, address: int, words: nat, k: nat)
    requires 0 < address && address % 4 == 0 && address + 4 * words < 0x8000_0000
    requires words >= 1500 && k >= 2
    ensures CanStall(m, address, words, k) <==> words < 1530
  {
    var r := Run(Init(m, address, words), []);
    if words < 1530 {
      OneFrameStalls(m, address, words, k);
    } else {
      forall es: seq<Event> | (forall e <- es :: Legal(e)) && OneAtATime(r, es, k)
        ensures var r' := Steps(r, es, k); !(r'.mine == [] && r'.s.rd == r'.s.wrp && r'.s.next == NONE)
      {
        StartHolds(m, address, words);
        OneAtATimeIsCareful(r, es, EMPTY, k);
        CarefulFindsAll(r, es, EMPTY, k);
        NoStall(m, address, words, es, k);
      }
    }
  }

  /** With at least 1530 words no run in which every take finds its reader, be the client
      careful or just lucky, stalls reception once all has been taken and given back. */
  lemma NoStall(m: Memory, address: int, words: nat, es: seq<Event>, k: nat)
    requires 0 < address && address % 4 == 0 && address + 4 * words < 0x8000_0000
    requires words >= 1530 && k >= 2 && forall e <- es :: Legal(e)
    ensures var r := Run(Init(m, address, words), []); var r' := Steps(r, es, k);
            FindsAll(r, es, [], k) && r'.mine == [] && r'.s.rd == r'.s.wrp ==> r'.s.next != NONE
  {
    var r := Run(Init(m, address, words), []);
    var q := RunFromInit(m, address, words, es, k);
    var r' := Steps(r, es, k);
    if FindsAll(r, es, [], k) && r'.mine == [] && r'.s.rd == r'.s.wrp {
      RingEmpty(r'.s, q);
      NeverStalls(r'.s, q);
    }
  }

  lemma RingEmpty(s: State, q: Queue)
    requires Inv(s, q) && s.rd == s.wrp
    ensures q.pending == []
  {
  }
}
