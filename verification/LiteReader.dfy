/** Releasing packets in order is not enough: a client that has taken every packet of a
    stuck bank before it releases the first one leaves the reader of that bank on a word
    which the low-level driver may overwrite before it is read again. */
module LiteReader {
  import opened LiteBank
  import opened LiteDriver
  import opened LiteRuns

  const WORDS := 1530
  const BANK := 3060

  // Three maximal frames fill bank 0 and half of bank 1; the client takes all three and
  // gives them back in order; then two bad frames and a good one bring the low-level
  // driver to the second half of bank 0.
  const THREE_FRAMES := [FrameEnd(MAX_FRAME), FrameEnd(MAX_FRAME), FrameEnd(MAX_FRAME)]
  const THREE_TAKES := [Take, Take, Take]
  const THREE_RELEASES := [GiveBack, GiveBack, GiveBack]

  function LastSteps(v: int): seq<Event> {
    [FrameEnd(0), FrameEnd(MAX_FRAME), FrameEnd(0), Stored(1520, v), Take]
  }

  lemma {:induction false} StepsConcat(r: Run, a: seq<Event>, b: seq<Event>, k: nat)
    requires WellFormed(r.s)
    ensures Steps(r, a + b, k) == Steps(Steps(r, a, k), b, k)
    ensures Kept(r, a + b, k) == Kept(r, a, k) + Kept(Steps(r, a, k), b, k)
    ensures Given(r, a + b, k) == Given(r, a, k) + Given(Steps(r, a, k), b, k)
    decreases |a|
  {
    hide Step, KeptNow, GivenNow;
    if a == [] {
      assert a + b == b;
    } else {
      assert (a + b)[1..] == a[1..] + b;
      StepsConcat(Step(r, a[0], k), a[1..], b, k);
    }
  }

  predicate Pointers(b: Bank, first: int, free: int, wr: int, read: int) {
    b == Bank(first, first + BANK - MAXPACKET, free, wr, read)
  }

  predicate Filled(r: Run, f: int) {
    var f1 := f + BANK;
    && WellFormed(r.s) && r.mine == [] && r.s.inLld == f1 + 1528 && r.s.next == NONE && r.s.refill == 0
    && r.s.rd == 0 && r.s.wrp == 3 && r.s.ring[0] == 0 && r.s.ring[1] == 1 && r.s.ring[2] == 0
    && Pointers(r.s.banks[0], f, f, f + 3052, f) && Pointers(r.s.banks[1], f1, f1, f1 + 1528, f1)
    && Load(r.s.m, f) == MAX_FRAME && Load(r.s.m, f + 1524) == MAX_FRAME && Load(r.s.m, f + 3048) == 1
    && Load(r.s.m, f1) == MAX_FRAME && Load(r.s.m, f1 + 1524) == 1
  }

  predicate AllTaken(r: Run, f: int) {
    var f1 := f + BANK;
    && WellFormed(r.s) && r.mine == [f + 8, f1 + 8, f + 1532]
    && r.s.inLld == f1 + 1528 && r.s.next == NONE && r.s.refill == 0 && r.s.rd == 3 && r.s.wrp == 3
    && Pointers(r.s.banks[0], f, f, f + 3052, f + 3048) && Pointers(r.s.banks[1], f1, f1, f1 + 1528, f1 + 1524)
    && Load(r.s.m, f) == MAX_FRAME && Load(r.s.m, f + 1524) == MAX_FRAME && Load(r.s.m, f + 3048) == 1
    && Load(r.s.m, f1) == MAX_FRAME && Load(r.s.m, f1 + 1524) == 1
  }

  predicate AllReleased(r: Run, f: int) {
    var f1 := f + BANK;
    && WellFormed(r.s) && r.mine == [] && r.s.rd == 3 && r.s.wrp == 3
    && r.s.inLld == f1 + 1528 && r.s.next == f + 4
    && Pointers(r.s.banks[0], f, f, f + 4, f + 3048)
    && Pointers(r.s.banks[1], f1, f1 + 1524, f1 + 1528, f1 + 1524)
  }

  // A frame that leaves room behind it in its bank.
  lemma CommitInTail(s: State, n: int)
    requires WellFormed(s) && Accepts(s, n)
    requires var b := s.banks[BankOf(s, s.inLld)]; b.free < b.wr + RoundBytes(n) <= b.lastSafe
    ensures var bn := BankOf(s, s.inLld); var b := s.banks[bn]; var w := b.wr + RoundBytes(n);
            var s' := Interrupt(s, n);
            && s'.m == s.m[b.wr - 4 := n][w - 4 := 1] && s'.banks == s.banks[bn := b.(wr := w)]
            && s'.inLld == s.next && s'.next == w && s'.ring == s.ring[s.wrp := bn]
            && s'.wrp == Increment(s.wrp) && s'.rd == s.rd && s'.refill == s.refill
  {
  }

  // A frame that fills a bank whose head is in use.
  lemma CommitSticks(s: State, n: int)
    requires WellFormed(s) && Accepts(s, n)
    requires var b := s.banks[BankOf(s, s.inLld)]; b.lastSafe < b.wr + RoundBytes(n) && b.free == b.first
    ensures var bn := BankOf(s, s.inLld); var b := s.banks[bn]; var w := b.wr + RoundBytes(n);
            var s' := Interrupt(s, n);
            && s'.m == s.m[b.wr - 4 := n][w - 4 := 1] && s'.banks == s.banks[bn := b.(wr := w)]
            && s'.inLld == s.next && s'.next == NONE && s'.ring == s.ring[s.wrp := bn]
            && s'.wrp == Increment(s.wrp) && s'.rd == s.rd && s'.refill == bn
  {
  }

  lemma Fill(m: Memory, f: int, k: nat)
    requires 0 < f && f % 4 == 0 && f + 2 * BANK < 0x8000_0000
    ensures Filled(Steps(Run(Init(m, f, WORDS), []), THREE_FRAMES, k), f)
  {
    hide Interrupt, Steps;
    var r := Run(Init(m, f, WORDS), []);
    var f1 := f + BANK;
    var e := FrameEnd(MAX_FRAME);
    assert Pointers(r.s.banks[0], f, f, f + 4, f) && Pointers(r.s.banks[1], f1, f1, f1 + 4, f1);
    var r1, r2, r3 := Step(r, e, k), Step(Step(r, e, k), e, k), Step(Step(Step(r, e, k), e, k), e, k);
    CommitInTail(r.s, MAX_FRAME);
    assert Pointers(r1.s.banks[0], f, f, f + 1528, f) && r1.s.wrp == 1;
    CommitInTail(r1.s, MAX_FRAME);
    assert Pointers(r2.s.banks[1], f1, f1, f1 + 1528, f1) && r2.s.wrp == 2;
    CommitSticks(r2.s, MAX_FRAME);
    assert Filled(r3, f);
    ThreeSteps(r, e, k);
  }

  // Taking a packet of n bytes that the reader of bank bn is at.
  lemma TakeOne(r: Run, bn: int, n: int, k: nat)
    requires WellFormed(r.s) && r.s.rd != r.s.wrp && r.s.ring[r.s.rd] == bn
    requires Load(r.s.m, r.s.banks[bn].read) == n >= MIN_FRAME
    requires Load(r.s.m, r.s.banks[bn].read + RoundBytes(n)) != 0
    ensures var b := r.s.banks[bn]; var r' := Step(r, Take, k);
            && r'.mine == r.mine + [b.read + 8]
            && GivenNow(r, Take) == [Taken(b.read + 8, n - 4, Load(r.s.m, b.read + 4))]
            && r'.s == r.s.(banks := r.s.banks[bn := b.(read := b.read + RoundBytes(n))], rd := Increment(r.s.rd),
                            notifyLast := r'.s.notifyLast, tokens := r'.s.tokens)
  {
  }

  lemma TakeAll(r: Run, f: int, k: nat)
    requires 0 < f && Filled(r, f)
    ensures AllTaken(Steps(r, THREE_TAKES, k), f) && |Given(r, THREE_TAKES, k)| == 3
  {
    hide Step, GivenNow;
    var f1 := f + BANK;
    var r1 := Step(r, Take, k);
    TakeOne(r, 0, MAX_FRAME, k);
    assert Pointers(r1.s.banks[0], f, f, f + 3052, f + 1524) && r1.s.rd == 1;
    var r2 := Step(r1, Take, k);
    TakeOne(r1, 1, MAX_FRAME, k);
    assert Pointers(r2.s.banks[1], f1, f1, f1 + 1528, f1 + 1524) && r2.s.rd == 2;
    var r3 := Step(r2, Take, k);
    TakeOne(r2, 0, MAX_FRAME, k);
    assert r3.mine == [f + 8, f1 + 8, f + 1532];
    assert THREE_TAKES[1..] == [Take, Take] && [Take, Take][1..] == [Take] && [Take][1..] == [];
    assert Steps(r2, [Take], k) == r3 && Steps(r1, [Take, Take], k) == r3;
    assert |Given(r2, [Take], k)| == 1 && |Given(r1, [Take, Take], k)| == 2;
  }

  // Giving back a packet of n bytes: the first half of the call, up to the restart.
  lemma FreeOne(s: State, header: int, n: int, f: int, k: nat)
    requires WellFormed(s) && k >= 2 && n > 0 && Load(s.m, header) == n
    requires var b := s.banks[BankOf(s, header + 8)]; var m1 := s.m[header := -n]; var next := header + RoundBytes(n);
             && b.free == header && f == (if Load(m1, next) > 0 then next else b.first)
             && (Load(m1, next) > 0 || (Load(m1, next) == 0 && Load(m1, b.first) > 0))
    ensures var bn := BankOf(s, header + 8);
            FreeInBank(s, header, k) == s.(m := s.m[header := -n], banks := s.banks[bn := s.banks[bn].(free := f)])
  {
    var b := s.banks[BankOf(s, header + 8)];
    AdvanceTurns(s.m[header := -n], b.first, header, n, k);
  }

  lemma ReleaseFirst(r: Run, f: int, k: nat)
    requires 0 < f && AllTaken(r, f) && k >= 2
    ensures var s := Step(r, GiveBack, k).s; var b := r.s.banks[0];
            && s == r.s.(m := r.s.m[f := -MAX_FRAME][f + 3048 := 0][f := 1],
                         banks := r.s.banks[0 := b.(free := f + 1524, wr := f + 4)])
  {
    hide FreeInBank;
    FreeOne(r.s, f, MAX_FRAME, f + 1524, k);
  }

  lemma ReleaseSecond(r: Run, f: int, k: nat)
    requires 0 < f && AllTaken(r, f) && k >= 2
    ensures var r2 := Step(Step(r, GiveBack, k), GiveBack, k); var f1 := f + BANK; var b := r.s.banks;
            && r2.mine == [f + 1532]
            && r2.s == r.s.(m := r.s.m[f := -MAX_FRAME][f + 3048 := 0][f := 1][f1 := -MAX_FRAME],
                            banks := [b[0].(free := f + 1524, wr := f + 4), b[1].(free := f1 + 1524)])
  {
    hide FreeInBank;
    var f1 := f + BANK;
    var r1 := Step(r, GiveBack, k);
    ReleaseFirst(r, f, k);
    FreeOne(r1.s, f1, MAX_FRAME, f1 + 1524, k);
  }

  lemma ReleaseAll(r: Run, f: int, k: nat)
    requires 0 < f && AllTaken(r, f) && k >= 2
    ensures AllReleased(Steps(r, THREE_RELEASES, k), f)
    ensures LeavesReaderBehind(r.s.banks[BankOf(r.s, r.mine[0])])
  {
    hide FreeInBank;
    var r2 := Step(Step(r, GiveBack, k), GiveBack, k);
    ReleaseSecond(r, f, k);
    FreeOne(r2.s, f + 1524, MAX_FRAME, f, k);
    ThreeSteps(r, GiveBack, k);
  }

  lemma ThreeSteps(r: Run, e: Event, k: nat)
    requires WellFormed(r.s)
    ensures Steps(r, [e, e, e], k) == Step(Step(Step(r, e, k), e, k), e, k)
  {
    hide Step;
    var r1 := Step(r, e, k);
    var r2 := Step(r1, e, k);
    assert [e, e, e][1..] == [e, e] && [e, e][1..] == [e] && [e][1..] == [];
    assert Steps(r2, [e], k) == Step(r2, e, k);
    assert Steps(r1, [e, e], k) == Step(r2, e, k);
  }

  lemma BadFrame(s: State)
    requires WellFormed(s) && s.next != NONE
    ensures Interrupt(s, 0) == s.(inLld := s.next, next := s.inLld)
  {
  }

  // The driver stores v where the reader of bank 0 has stayed, and the client asks again.
  lemma TakeGarbage(r: Run, f: int, v: int, k: nat)
    requires 0 < f && WellFormed(r.s) && r.s.inLld == f + 1528 && r.s.rd != r.s.wrp && r.s.ring[r.s.rd] == 0
    requires r.s.banks[0].read == f + 3048 && v != 0 && v != 1
    ensures var es := [Stored(1520, v), Take];
            && Kept(r, es, k) == [] && |Given(r, es, k)| == 1 && Given(r, es, k)[0].Taken?
            && Given(r, es, k)[0].data == f + 3056 && Given(r, es, k)[0].length == v - 4
  {
    var r4 := Step(r, Stored(1520, v), k);
    assert Load(r4.s.m, f + 3048) == v;
    assert [Stored(1520, v), Take][1..] == [Take] && [Take][1..] == [];
    assert Kept(r4, [Take], k) == [] && Given(r4, [Take], k) == GivenNow(r4, Take) + [];
  }

  lemma ReadWrong(r: Run, f: int, v: int, k: nat)
    requires 0 < f && AllReleased(r, f) && v != 0 && v != 1
    ensures var es := LastSteps(v);
            && |Kept(r, es, k)| == 1 && Kept(r, es, k)[0].header == f && Kept(r, es, k)[0].length == MAX_FRAME
            && |Given(r, es, k)| == 1 && Given(r, es, k)[0].Taken?
            && Given(r, es, k)[0].data == f + 3056 && Given(r, es, k)[0].length == v - 4
  {
    hide Interrupt, Get, Arriving;
    var bad, good, es := FrameEnd(0), FrameEnd(MAX_FRAME), LastSteps(v);
    var r1 := Step(r, bad, k);
    BadFrame(r.s);
    var r2 := Step(r1, good, k);
    CommitInTail(r1.s, MAX_FRAME);
    ArrivingBank(r1.s, MAX_FRAME);
    var r3 := Step(r2, bad, k);
    BadFrame(r2.s);
    TakeGarbage(r3, f, v, k);
    var tail := [Stored(1520, v), Take];
    assert es[1..] == [good, bad] + tail && ([good, bad] + tail)[1..] == [bad] + tail && ([bad] + tail)[1..] == tail;
    assert Kept(r2, [bad] + tail, k) == [] && Given(r2, [bad] + tail, k) == Given(r3, tail, k);
    assert Kept(r1, es[1..], k) == [Arriving(r1.s, MAX_FRAME)] + [];
    assert Given(r1, es[1..], k) == Given(r2, [bad] + tail, k);
  }

  // How many frames the first nine steps keep, and how many packets they hand out.
  lemma ThreeKept(m: Memory, f: int, k: nat)
    requires 0 < f && f % 4 == 0 && f + 2 * BANK < 0x8000_0000
    ensures |Kept(Run(Init(m, f, WORDS), []), THREE_FRAMES, k)| == 3
  {
    hide Interrupt, Arriving;
    var r := Run(Init(m, f, WORDS), []);
    var e := FrameEnd(MAX_FRAME);
    var f1 := f + BANK;
    assert Pointers(r.s.banks[0], f, f, f + 4, f) && Pointers(r.s.banks[1], f1, f1, f1 + 4, f1);
    var r1, r2 := Step(r, e, k), Step(Step(r, e, k), e, k);
    CommitInTail(r.s, MAX_FRAME);
    CommitInTail(r1.s, MAX_FRAME);
    assert THREE_FRAMES[1..] == [e, e] && [e, e][1..] == [e] && [e][1..] == [];
    assert |Kept(r2, [e], k)| == 1 && |Kept(r1, [e, e], k)| == 2;
  }

  lemma Counts(m: Memory, f: int, k: nat)
    requires 0 < f && f % 4 == 0 && f + 2 * BANK < 0x8000_0000 && k >= 2
    ensures var r := Run(Init(m, f, WORDS), []); var r3 := Steps(r, THREE_FRAMES, k);
            && Given(r, THREE_FRAMES, k) == []
            && Kept(r3, THREE_TAKES, k) == []
            && Kept(Steps(r3, THREE_TAKES, k), THREE_RELEASES, k) == []
            && Given(Steps(r3, THREE_TAKES, k), THREE_RELEASES, k) == []
  {
    hide Get, Interrupt, Release, Init;
    var r := Run(Init(m, f, WORDS), []);
    var r3 := Steps(r, THREE_FRAMES, k);
    var r6 := Steps(r3, THREE_TAKES, k);
    Fill(m, f, k);
    OnlyFrames(r, THREE_FRAMES, k);
    NoFrames(r3, THREE_TAKES, k);
    NoFrames(r6, THREE_RELEASES, k);
    OnlyFrames(r6, THREE_RELEASES, k);
  }

  // Without frame ends nothing is kept; without takes nothing is handed out.
  lemma {:induction false} NoFrames(r: Run, es: seq<Event>, k: nat)
    requires WellFormed(r.s) && forall e <- es :: !e.FrameEnd?
    ensures Kept(r, es, k) == []
    decreases |es|
  {
    hide Step;
    if es != [] { NoFrames(Step(r, es[0], k), es[1..], k); }
  }

  lemma {:induction false} OnlyFrames(r: Run, es: seq<Event>, k: nat)
    requires WellFormed(r.s) && forall e <- es :: !e.Take?
    ensures Given(r, es, k) == []
    decreases |es|
  {
    hide Step;
    if es != [] { OnlyFrames(Step(r, es[0], k), es[1..], k); }
  }

  /** A run in which every packet is released in the order it was taken, and yet the fourth
      packet the client is given is not the fourth frame that was kept. */
  lemma InOrderReleaseIsNotEnough(m: Memory, f: int, v: int, k: nat)
    requires 0 < f && f % 4 == 0 && f + 2 * BANK < 0x8000_0000 && v != 0 && v != 1 && k >= 2
    ensures var r := Run(Init(m, f, WORDS), []);
            var es := THREE_FRAMES + THREE_TAKES + THREE_RELEASES + LastSteps(v);
            && (forall e <- es :: Legal(e))
            && |Given(r, es, k)| == 4 == |Kept(r, es, k)|
            && Kept(r, es, k)[3].header == f
            && Given(r, es, k)[3].Taken? && Given(r, es, k)[3].data == f + 3056
            && Given(r, es, k)[3] != Due(Kept(r, es, k))[3]
  {
    hide Step, Steps, Kept, Given, Get, Pointers, Init;
    var r := Run(Init(m, f, WORDS), []);
    var a, b, c, d := THREE_FRAMES, THREE_TAKES, THREE_RELEASES, LastSteps(v);
    Fill(m, f, k);
    var r3 := Steps(r, a, k);
    TakeAll(r3, f, k);
    ReleaseAll(Steps(r3, b, k), f, k);
    ReadWrong(Steps(Steps(r3, b, k), c, k), f, v, k);
    StepsConcat(r, a, b, k);
    StepsConcat(r, a + b, c, k);
    StepsConcat(r, a + b + c, d, k);
    Counts(m, f, k);
    ThreeKept(m, f, k);
  }
}
