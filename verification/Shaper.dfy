/** The credit-based shaper for high priority traffic, as both transmit loops compute it:
    in the RGMII server (rgmii_buffering.xc) and in the MII transmitter (mii_master.xc). */
module Shaper {

  // A 32-bit signed machine word.
  function Wrap32(x: int): (r: int)
    ensures -0x8000_0000 <= r < 0x8000_0000
  {
    (x + 0x8000_0000) % 0x1_0000_0000 - 0x8000_0000
  }

  predicate Fits(x: int) {
    -0x8000_0000 <= x < 0x8000_0000
  }

  lemma WrapFits(x: int)
    ensures Fits(x) ==> Wrap32(x) == x
  {
  }

  // (length + preamble + inter-frame gap + CRC) << (MII_CREDIT_FRACTIONAL_BITS + 3)
  function Cost(length: int): int {
    Wrap32((length + 8 + 12 + 4) * 0x8_0000)
  }

  const MAX_FRAME := 1518

  lemma CostIs(length: int)
    requires 0 <= length <= MAX_FRAME
    ensures Cost(length) == (length + 24) * 0x8_0000
    ensures 0 < Cost(length) <= Cost(MAX_FRAME)
  {
  }

  // What one turn of a loop sees: the timer, the idle slope, whether a high priority packet
  // is queued, whether there is a place to send it to, and its length.
  datatype Turn = Turn(now: int, slope: int, queued: bool, place: bool, length: int)

  datatype State = State(credit: int, time: int)

  function Elapsed(s: State, t: Turn): int {
    Wrap32(t.now - s.time)
  }

  function Accrued(s: State, t: Turn): int {
    Wrap32(s.credit + Wrap32(Elapsed(s, t) * t.slope))
  }

  // The RGMII loop: the credit is capped while no high priority packet is queued; one is
  // taken only if the MAC has a place and the credit is not negative.
  predicate SendsRgmii(s: State, t: Turn) {
    t.place && t.queued && (if !t.queued && Accrued(s, t) > 0 then 0 else Accrued(s, t)) >= 0
  }

  function TurnRgmii(s: State, t: Turn): State {
    var c := Accrued(s, t);
    var c1 := if !t.queued && c > 0 then 0 else c;
    State(if SendsRgmii(s, t) then Wrap32(c1 - Cost(t.length)) else c1, t.now)
  }

  // The MII loop: a queued packet is put back when the credit is negative; only without one
  // is the credit capped. There is always a place to send to.
  predicate SendsMii(s: State, t: Turn) {
    t.queued && !(Accrued(s, t) < 0)
  }

  function TurnMii(s: State, t: Turn): State {
    var c := Accrued(s, t);
    var c1 := if t.queued then c else if c > 0 then 0 else c;
    State(if SendsMii(s, t) then Wrap32(c1 - Cost(t.length)) else c1, t.now)
  }

  /** The MII loop shapes like the RGMII loop with a MAC that always has a place. */
  lemma LoopsAgree(s: State, t: Turn)
    requires t.place
    ensures TurnMii(s, t) == TurnRgmii(s, t) && (SendsMii(s, t) <==> SendsRgmii(s, t))
  {
  }

  // ------------------------------------------------------------------------------
  // Runs
  // ------------------------------------------------------------------------------

  function Run(s: State, ts: seq<Turn>): State
    decreases |ts|
  {
    if ts == [] then s else Run(TurnRgmii(s, ts[0]), ts[1..])
  }

  // What the time that passes earns, over a run.
  function Earned(s: State, ts: seq<Turn>): int
    decreases |ts|
  {
    if ts == [] then 0 else Elapsed(s, ts[0]) * ts[0].slope + Earned(TurnRgmii(s, ts[0]), ts[1..])
  }

  // The cost of the high priority packets a run sends.
  function SentCost(s: State, ts: seq<Turn>): int
    decreases |ts|
  {
    if ts == [] then 0
    else (if SendsRgmii(s, ts[0]) then Cost(ts[0].length) else 0) + SentCost(TurnRgmii(s, ts[0]), ts[1..])
  }

  // The credit a run gives up because nothing is queued.
  function Forfeited(s: State, ts: seq<Turn>): int
    decreases |ts|
  {
    if ts == [] then 0
    else
      (if !ts[0].queued && Accrued(s, ts[0]) > 0 then Accrued(s, ts[0]) else 0)
      + Forfeited(TurnRgmii(s, ts[0]), ts[1..])
  }

  // Time does not go back, the slope is not negative, and frames are frames.
  predicate Timed(s: State, t: Turn) {
    Elapsed(s, t) >= 0 && t.slope >= 0 && 0 <= t.length <= MAX_FRAME
  }

  predicate TimedRun(s: State, ts: seq<Turn>)
    decreases |ts|
  {
    ts == [] || (Timed(s, ts[0]) && TimedRun(TurnRgmii(s, ts[0]), ts[1..]))
  }

  // The sum a turn should accrue, which may not fit the machine word.
  function TrueSum(s: State, t: Turn): int {
    s.credit + Elapsed(s, t) * t.slope
  }

  // Every sum of the run fits.
  predicate FitsThroughout(s: State, ts: seq<Turn>)
    decreases |ts|
  {
    ts == [] || (Fits(TrueSum(s, ts[0])) && FitsThroughout(TurnRgmii(s, ts[0]), ts[1..]))
  }

  // How often the sum of a turn, or those of a run, go round the machine word.
  function Round(s: State, t: Turn): int {
    (TrueSum(s, t) - Accrued(s, t)) / 0x1_0000_0000
  }

  function Rounds(s: State, ts: seq<Turn>): int
    decreases |ts|
  {
    if ts == [] then 0 else Round(s, ts[0]) + Rounds(TurnRgmii(s, ts[0]), ts[1..])
  }

  // The lowest credit: a maximal frame sent at zero.
  predicate AboveFloor(s: State) {
    s.credit >= -Cost(MAX_FRAME)
  }

  // What may still be sent at once, down to the lowest credit.
  function Slack(credit: int): int {
    if credit + Cost(MAX_FRAME) > 0 then credit + Cost(MAX_FRAME) else 0
  }

  /** The accrued credit is the true one exactly when it fits a machine word, even where
      the product by itself does not. */
  lemma AccruedIsExactIff(s: State, t: Turn)
    ensures Accrued(s, t) == TrueSum(s, t) <==> Fits(TrueSum(s, t))
  {
  }

  lemma QuotientBounds(e: nat, slope: nat, room: nat)
    requires slope > 0
    ensures e * slope <= room <==> e <= room / slope
  {
    var n := room / slope;
    assert room == n * slope + room % slope;
    if e <= n {
      Grows(e, n, slope);
    } else {
      Grows(n + 1, e, slope);
      assert (n + 1) * slope == n * slope + slope;
    }
  }

  lemma Grows(a: nat, b: nat, slope: nat)
    requires a <= b
    ensures a * slope <= b * slope
  {
  }

  /** For a slope and a credit the sum is exact up to a number of timer ticks between two turns
      of the loop, and from the next one on it is not. */
  lemma ExactUpTo(s: State, t: Turn)
    requires Fits(s.credit) && t.slope > 0 && Elapsed(s, t) >= 0
    ensures Accrued(s, t) == TrueSum(s, t) <==> Elapsed(s, t) <= (0x7FFF_FFFF - s.credit) / t.slope
  {
    hide Elapsed, Accrued;
    AccruedIsExactIff(s, t);
    Grows(0, Elapsed(s, t), t.slope);
    QuotientBounds(Elapsed(s, t), t.slope, 0x7FFF_FFFF - s.credit);
  }

  const DEFAULT_SLOPE := 11 * 0x1_0000

  /** The slope a port starts with is exact for 2978 ticks from credit 0. After 2979 to 5957 the
      sum has become negative, and a high priority packet that is queued is held back. */
  lemma DefaultSlopeOverflows(s: State, t: Turn)
    requires s.credit == 0 && t.slope == DEFAULT_SLOPE && Elapsed(s, t) >= 0
    ensures Accrued(s, t) == Elapsed(s, t) * DEFAULT_SLOPE <==> Elapsed(s, t) <= 2978
    ensures 2979 <= Elapsed(s, t) <= 5957 ==> Accrued(s, t) < 0 && !SendsMii(s, t) && !SendsRgmii(s, t)
  {
  }

  // A sum that does not fall below the machine word is wrapped downwards.
  lemma AccruedIsWrapped(s: State, t: Turn)
    ensures Accrued(s, t) == Wrap32(TrueSum(s, t)) && Fits(Accrued(s, t))
    ensures TrueSum(s, t) == Accrued(s, t) + 0x1_0000_0000 * Round(s, t)
    ensures TrueSum(s, t) >= -0x8000_0000 ==> Round(s, t) >= 0 && (Round(s, t) == 0 <==> Fits(TrueSum(s, t)))
  {
    hide Elapsed;
    var e := Elapsed(s, t) * t.slope;
    WrapSum(s.credit, e);
    WrapRound(s.credit + e);
  }

  lemma WrapSum(x: int, y: int)
    ensures Wrap32(x + Wrap32(y)) == Wrap32(x + y)
  {
    var k := (y - Wrap32(y)) / 0x1_0000_0000;
    assert y == Wrap32(y) + 0x1_0000_0000 * k;
    WrapShift(x + Wrap32(y), k);
  }

  lemma WrapShift(x: int, k: int)
    ensures Wrap32(x + 0x1_0000_0000 * k) == Wrap32(x)
  {
  }

  lemma WrapRound(x: int)
    ensures (x - Wrap32(x)) % 0x1_0000_0000 == 0
    ensures x >= -0x8000_0000 ==> Wrap32(x) <= x
  {
  }

  // One turn: credit is earned, spent and forfeited, and goes round the machine word.
  lemma TurnAccounts(s: State, t: Turn)
    requires Timed(s, t) && Fits(s.credit)
    ensures var s' := TurnRgmii(s, t); var c := Accrued(s, t); var e := Elapsed(s, t) * t.slope;
            && Fits(s'.credit) && e >= 0 && Round(s, t) >= 0 && (Round(s, t) == 0 <==> Fits(TrueSum(s, t)))
            && c == s.credit + e - 0x1_0000_0000 * Round(s, t)
            && s'.credit == c - (if SendsRgmii(s, t) then Cost(t.length) else 0) - (if !t.queued && c > 0 then c else 0)
            && 0 < Cost(t.length) <= Cost(MAX_FRAME)
  {
    hide Elapsed, Cost, Wrap32, Accrued, Round;
    Grows(0, Elapsed(s, t), t.slope);
    AccruedIsWrapped(s, t);
    CostIs(t.length);
    CostIs(MAX_FRAME);
    WrapFits(Accrued(s, t) - Cost(t.length));
  }

  /** A queued packet that has a place is sent exactly when the sum, as far as it fits, is zero or
      more, by either loop; then its 24 bytes of overhead and its length are charged, 2^19 for a
      byte, and otherwise a positive credit is kept only while a packet is queued. */
  lemma SendsIff(s: State, t: Turn)
    requires Timed(s, t) && Fits(s.credit)
    ensures var sum := TrueSum(s, t); var c := TurnRgmii(s, t).credit;
            && (SendsRgmii(s, t) <==> t.place && t.queued && Wrap32(sum) >= 0)
            && (SendsMii(s, t) <==> t.queued && Wrap32(sum) >= 0)
            && (Fits(sum) && t.place && t.queued ==> (SendsRgmii(s, t) <==> sum >= 0))
            && (SendsRgmii(s, t) ==> c == Wrap32(sum) - (t.length + 24) * 0x8_0000)
            && (!SendsRgmii(s, t) && t.queued ==> c == Wrap32(sum))
            && (!t.queued ==> c == if Wrap32(sum) > 0 then 0 else Wrap32(sum))
  {
    hide Elapsed, Cost, Wrap32, Accrued, Round;
    AccruedIsWrapped(s, t);
    TurnAccounts(s, t);
    CostIs(t.length);
    WrapFits(TrueSum(s, t));
  }

  /** Over every run the books balance: the final credit is the starting credit plus what
      the elapsed time earned, minus the cost of what was sent, minus what was forfeited
      while nothing was queued, minus a machine word's range for every time a sum went round;
      and none did exactly if every sum fits. */
  lemma {:induction false} CreditBalances(s: State, ts: seq<Turn>)
    requires TimedRun(s, ts) && Fits(s.credit)
    ensures Fits(Run(s, ts).credit) && Forfeited(s, ts) >= 0 && Rounds(s, ts) >= 0
    ensures Run(s, ts).credit
            == s.credit + Earned(s, ts) - SentCost(s, ts) - Forfeited(s, ts) - 0x1_0000_0000 * Rounds(s, ts)
    ensures Rounds(s, ts) == 0 <==> FitsThroughout(s, ts)
    decreases |ts|
  {
    hide Fits, Wrap32, Cost, Elapsed, Accrued, SendsRgmii, TurnRgmii, Timed, TrueSum, Round;
    if ts != [] {
      TurnAccounts(s, ts[0]);
      CreditBalances(TurnRgmii(s, ts[0]), ts[1..]);
    }
  }

  /** A turn leaves the credit above its floor exactly when the sum it accrues, wrapped to the
      machine word, is not below it: what is sent or forfeited never takes it there. */
  lemma FloorKeptIff(s: State, t: Turn)
    requires Timed(s, t) && Fits(s.credit)
    ensures AboveFloor(TurnRgmii(s, t)) <==> Wrap32(TrueSum(s, t)) >= -Cost(MAX_FRAME)
    ensures AboveFloor(s) && Fits(TrueSum(s, t)) ==> AboveFloor(TurnRgmii(s, t))
  {
    hide Elapsed, Cost, Wrap32, Accrued, Round;
    TurnAccounts(s, t);
    AccruedIsWrapped(s, t);
  }

  /** A run in which every sum fits keeps it above. */
  lemma {:induction false} FloorKept(s: State, ts: seq<Turn>)
    requires TimedRun(s, ts) && Fits(s.credit) && AboveFloor(s) && FitsThroughout(s, ts)
    ensures AboveFloor(Run(s, ts))
    decreases |ts|
  {
    hide Fits, AboveFloor, TurnRgmii, Timed, TrueSum, Wrap32, Cost;
    if ts != [] {
      TurnAccounts(s, ts[0]);
      FloorKeptIff(s, ts[0]);
      FloorKept(TurnRgmii(s, ts[0]), ts[1..]);
    }
  }

  /** With the slope a port starts with, 2979 ticks from credit 0 take it below. */
  lemma DefaultSlopeBreaksFloor(s: State, t: Turn)
    requires s.credit == 0 && t.slope == DEFAULT_SLOPE && Elapsed(s, t) == 2979 && t.length == MAX_FRAME
    ensures Timed(s, t) && AboveFloor(s) && !AboveFloor(TurnRgmii(s, t))
  {
    FloorKeptIff(s, t);
  }

  // What is sent comes out of the slack and of what is earned.
  lemma TurnSpendsSlack(s: State, t: Turn)
    requires Timed(s, t) && Fits(s.credit)
    ensures (if SendsRgmii(s, t) then Cost(t.length) else 0) + Slack(TurnRgmii(s, t).credit)
            <= Elapsed(s, t) * t.slope + Slack(s.credit)
  {
    hide Elapsed, Cost, Wrap32, Accrued, Round;
    TurnAccounts(s, t);
  }

  lemma {:induction false} RunSpendsSlack(s: State, ts: seq<Turn>)
    requires TimedRun(s, ts) && Fits(s.credit)
    ensures Fits(Run(s, ts).credit) && SentCost(s, ts) + Slack(Run(s, ts).credit) <= Earned(s, ts) + Slack(s.credit)
    decreases |ts|
  {
    hide Fits, Slack, Wrap32, Cost, Elapsed, Accrued, SendsRgmii, TurnRgmii, Timed;
    if ts != [] {
      TurnAccounts(s, ts[0]);
      TurnSpendsSlack(s, ts[0]);
      RunSpendsSlack(TurnRgmii(s, ts[0]), ts[1..]);
    }
  }

  /** The shaper's guarantee (section 8.6.8.2 of IEEE 802.1Q), whether sums overflow or not:
      between any two moments the cost of the high priority packets sent is at most what the
      idle slope earns in the meantime, plus the credit at the start, plus the cost of one
      maximal frame; and if an overflow has left the credit below its floor, at most what the
      slope earns. What is left over is there at the end. */
  lemma ShaperBound(s: State, before: seq<Turn>, between: seq<Turn>)
    requires TimedRun(s, before + between) && Fits(s.credit)
    ensures var a := Run(s, before); var b := Run(a, between);
            && Run(s, before + between) == b
            && SentCost(a, between) + Slack(b.credit) <= Earned(a, between) + Slack(a.credit)
            && SentCost(a, between) <= Earned(a, between)
                 + if AboveFloor(a) then a.credit + Cost(MAX_FRAME) else 0
  {
    RunSplits(s, before, between);
    RunSpendsSlack(s, before);
    RunSpendsSlack(Run(s, before), between);
  }

  lemma {:induction false} RunSplits(s: State, a: seq<Turn>, b: seq<Turn>)
    requires TimedRun(s, a + b)
    ensures TimedRun(s, a) && TimedRun(Run(s, a), b) && Run(s, a + b) == Run(Run(s, a), b)
    decreases |a|
  {
    hide TurnRgmii, Timed;
    if a == [] {
      assert a + b == b;
    } else {
      assert (a + b)[1..] == a[1..] + b;
      RunSplits(TurnRgmii(s, a[0]), a[1..], b);
    }
  }

  // The turns read a 32-bit timer at these true times, less than half its range apart.
  predicate ReadAt(start: int, times: seq<int>, ts: seq<Turn>)
    requires |times| == |ts|
    decreases |ts|
  {
    ts == [] ||
    (0 <= times[0] - start < 0x8000_0000 && ts[0].now == Wrap32(times[0]) && ReadAt(times[0], times[1..], ts[1..]))
  }

  /** For a constant slope what is earned is the slope times the time elapsed, although the
      timer wraps. */
  lemma {:induction false} EarnedIsSlopeTimesTime(s: State, ts: seq<Turn>, times: seq<int>, start: int, slope: int)
    requires |times| == |ts| && s.time == Wrap32(start) && ReadAt(start, times, ts)
    requires forall i :: 0 <= i < |ts| ==> ts[i].slope == slope
    ensures Earned(s, ts) == slope * ((if ts == [] then start else times[|ts| - 1]) - start)
    decreases |ts|
  {
    hide Wrap32;
    if ts != [] {
      TimerDifference(start, times[0]);
      EarnedIsSlopeTimesTime(TurnRgmii(s, ts[0]), ts[1..], times[1..], times[0], slope);
      var last := times[|ts| - 1];
      Distribute(slope, times[0] - start, last - times[0]);
    }
  }

  lemma Distribute(a: int, x: int, y: int)
    ensures x * a + a * y == a * (x + y)
  {
  }

  lemma TimerDifference(a: int, b: int)
    requires 0 <= b - a < 0x8000_0000
    ensures Wrap32(Wrap32(b) - Wrap32(a)) == b - a
  {
  }

  // ------------------------------------------------------------------------------
  // The loops' own variables
  // ------------------------------------------------------------------------------

  class Credit {
    var credit: int
    var creditTime: int

    ghost function View(): State
      reads this
    {
      State(credit, creditTime)
    }

    // The shaper statements of one turn of rgmii_ethernet_tx_server, and whether a high
    // priority packet is sent.
    method OneTurnRgmii(t: Turn) returns (sent: bool)
      modifies this
      ensures View() == TurnRgmii(old(View()), t) && (sent <==> SendsRgmii(old(View()), t))
    {
      var prevCreditTime := creditTime;
      creditTime := t.now;
      var elapsed := Wrap32(creditTime - prevCreditTime);
      credit := Wrap32(credit + Wrap32(elapsed * t.slope));
      if !t.queued {
        if credit > 0 {
          credit := 0;
        }
      }
      sent := false;
      if t.place {
        if t.queued {
          if credit >= 0 {
            sent := true;
            credit := Wrap32(credit - Cost(t.length));
          }
        }
      }
    }

    // The same of one turn of mii_master_tx_pins.
    method OneTurnMii(t: Turn) returns (sent: bool)
      modifies this
      ensures View() == TurnMii(old(View()), t) && (sent <==> SendsMii(old(View()), t))
    {
      var buf := t.queued;
      var prevCreditTime := creditTime;
      creditTime := t.now;
      var elapsed := Wrap32(creditTime - prevCreditTime);
      credit := Wrap32(credit + Wrap32(elapsed * t.slope));
      if buf {
        if credit < 0 {
          buf := false;
        }
      } else {
        if credit > 0 {
          credit := 0;
        }
      }
      sent := buf;
      if sent {
        credit := Wrap32(credit - Cost(t.length));
      }
    }
  }
}
