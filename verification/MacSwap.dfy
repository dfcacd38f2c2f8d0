/** The swap protocol between the writer of the hash tables and the filter threads
    (macaddr_filter_hash.c): which table a thread reads, which one the writer changes, and
    the waiting flags between them. A thread takes the table in two accesses, between which
    anything may happen. */
module MacSwap {

  const NONE := -1

  // Where the writer is in a public operation: changing the backup table; having flipped
  // hash_table; setting the waiting flags from thread i on; waiting for them from thread i
  // on; changing the other table.
  datatype Phase = Idle | First | Flipped | Flagging(i: nat) | Waiting(i: nat) | Second

  // `tables` are the two static tables, `current` is what hash_table points to, `backup`
  // what backup_table points to; fetched[i] is what thread i has read of hash_table in a
  // call it has not finished, and holds[i] what it was last given. `before` and `after` are
  // the complete tables between which the operation leads.
  datatype State<T> = State(
    tables: seq<T>, current: int, backup: int,
    active: seq<bool>, waiting: seq<bool>, fetched: seq<int>, holds: seq<int>,
    phase: Phase, before: T, after: T)

  datatype Step<T> =
    | Begin(after: T)     // a public operation starts
    | Write(v: T)         // the writer stores into the backup table
    | Done                // the operation is complete on the backup table
    | Flip | Flag | Wait  // the statements of swap_tables
    | Fetch(i: nat)       // thread i reads hash_table in mii_macaddr_get_hash_table
    | Clear(i: nat)       // and then clears its waiting flag and returns what it read

  predicate IsTable(x: int) {
    x == 0 || x == 1
  }

  predicate WellFormed<T>(s: State<T>) {
    && |s.tables| == 2 && IsTable(s.current) && IsTable(s.backup)
    && |s.waiting| == |s.active| == |s.fetched| == |s.holds|
    && (forall i :: 0 <= i < |s.holds| ==> IsTable(s.holds[i]))
    && (forall i :: 0 <= i < |s.fetched| ==> s.fetched[i] == NONE || IsTable(s.fetched[i]))
  }

  predicate Enabled<T(==)>(s: State<T>, e: Step<T>)
    requires WellFormed(s)
  {
    match e
    case Begin(after) => s.phase == Idle
    case Write(v) => s.phase == First || s.phase == Second
    case Done => (s.phase == First || s.phase == Second) && s.tables[s.backup] == s.after
    case Flip => s.phase == Flipped
    case Flag => s.phase.Flagging? && s.phase.i <= |s.active|
    case Wait => s.phase.Waiting? && s.phase.i <= |s.active| && (s.phase.i < |s.waiting| ==> !s.waiting[s.phase.i])
    case Fetch(i) => i < |s.fetched| && s.fetched[i] == NONE
    case Clear(i) => i < |s.fetched| && s.fetched[i] != NONE
  }

  function Next<T>(s: State<T>, e: Step<T>): (s': State<T>)
    requires WellFormed(s) && Enabled(s, e)
    ensures WellFormed(s') && s'.active == s.active && |s'.holds| == |s.holds|
  {
    match e
    case Begin(after) => s.(phase := First, before := s.after, after := after)
    case Write(v) => s.(tables := s.tables[s.backup := v])
    case Done => if s.phase == First then s.(phase := Flipped) else s.(phase := Idle, before := s.after)
    case Flip => s.(current := s.backup, phase := Flagging(0))
    case Flag =>
      if s.phase.i == |s.active| then s.(backup := 1 - s.current, phase := Waiting(0))
      else
        var i := s.phase.i;
        s.(waiting := s.waiting[i := s.waiting[i] || s.active[i]], phase := Flagging(i + 1))
    case Wait =>
      if s.phase.i == |s.active| then s.(phase := Second) else s.(phase := Waiting(s.phase.i + 1))
    case Fetch(i) => s.(fetched := s.fetched[i := s.current])
    case Clear(i) =>
      s.(holds := s.holds[i := s.fetched[i]], waiting := s.waiting[i := false], fetched := s.fetched[i := NONE])
  }

  // ------------------------------------------------------------------------------
  // The invariant
  // ------------------------------------------------------------------------------

  // What the writer keeps by itself.
  ghost predicate Orderly<T>(s: State<T>) {
    && WellFormed(s)
    && match s.phase
       case Idle => s.backup == 1 - s.current && s.tables[s.current] == s.before == s.after == s.tables[s.backup]
       case First => s.backup == 1 - s.current && s.tables[s.current] == s.before
       case Flipped => s.backup == 1 - s.current && s.tables[s.current] == s.before && s.tables[s.backup] == s.after
       case Flagging(j) =>
         && s.backup == s.current && s.tables[s.current] == s.after && s.tables[1 - s.current] == s.before
         && j <= |s.holds|
       case Waiting(j) =>
         && s.backup == 1 - s.current && s.tables[s.current] == s.after && s.tables[1 - s.current] == s.before
         && j <= |s.holds|
       case Second => s.backup == 1 - s.current && s.tables[s.current] == s.after
  }

  // Thread i reads the current table, or the writer will still wait for it.
  predicate Safe<T>(s: State<T>, i: nat)
    requires WellFormed(s) && i < |s.holds|
  {
    var moved := s.holds[i] == s.current;
    match s.phase
    case Flipped => true
    case Flagging(j) => i < j ==> s.waiting[i] || moved
    case Waiting(j) => if i < j then moved else s.waiting[i] || moved
    case _ => moved
  }

  // The two accesses of thread i do no harm if, at the second one, what it fetched is
  // current, or about to be, or the writer has still to flag the thread.
  predicate Timely<T>(s: State<T>, i: nat)
    requires WellFormed(s) && i < |s.holds|
  {
    s.fetched[i] == s.current || s.phase == Flipped || (s.phase.Flagging? && s.phase.i <= i)
  }

  lemma WriterKeeps<T>(s: State<T>, e: Step<T>)
    requires Orderly(s) && Enabled(s, e)
    ensures Orderly(Next(s, e))
  {
  }

  // Whatever the others do, a thread is unsafe only through its own call.
  lemma ThreadKeeps<T>(s: State<T>, e: Step<T>, i: nat)
    requires Orderly(s) && Enabled(s, e) && i < |s.holds| && s.active[i] && Safe(s, i) && e != Clear(i)
    ensures Safe(Next(s, e), i)
  {
  }

  /** The second access leaves the thread safe exactly when it is timely. */
  lemma ClearKeepsIff<T>(s: State<T>, i: nat)
    requires Orderly(s) && Enabled(s, Clear(i))
    ensures Safe(Next(s, Clear(i)), i) <==> Timely(s, i)
  {
  }

  // ------------------------------------------------------------------------------
  // Runs
  // ------------------------------------------------------------------------------

  predicate CanRun<T(==)>(s: State<T>, es: seq<Step<T>>)
    requires WellFormed(s)
    decreases |es|
  {
    es == [] || (Enabled(s, es[0]) && CanRun(Next(s, es[0]), es[1..]))
  }

  function Run<T>(s: State<T>, es: seq<Step<T>>): (s': State<T>)
    requires WellFormed(s) && CanRun(s, es)
    ensures WellFormed(s') && s'.active == s.active && |s'.holds| == |s.holds|
    decreases |es|
  {
    if es == [] then s else Run(Next(s, es[0]), es[1..])
  }

  // Every second access of thread i is timely.
  predicate TimelyRun<T(==)>(s: State<T>, es: seq<Step<T>>, i: nat)
    requires WellFormed(s) && CanRun(s, es) && i < |s.holds|
    decreases |es|
  {
    es == [] || ((es[0] == Clear(i) ==> Timely(s, i)) && TimelyRun(Next(s, es[0]), es[1..], i))
  }

  lemma {:induction false} RunKeeps<T>(s: State<T>, es: seq<Step<T>>, i: nat)
    requires WellFormed(s) && Orderly(s) && CanRun(s, es) && i < |s.holds| && s.active[i] && Safe(s, i)
    requires TimelyRun(s, es, i)
    ensures Orderly(Run(s, es)) && Safe(Run(s, es), i)
    decreases |es|
  {
    hide Enabled, Next, Orderly, Safe, Timely;
    if es != [] {
      WriterKeeps(s, es[0]);
      if es[0] == Clear(i) { ClearKeepsIff(s, i); } else { ThreadKeeps(s, es[0], i); }
      RunKeeps(Next(s, es[0]), es[1..], i);
    }
  }

  /** Over every interleaving of the writer and any number of filter threads, whatever the
      other threads do: what a thread reads that clears its flag in time is a complete
      table, the one from before or the one from after the operation in progress, and the
      writer never stores into the table it holds. */
  lemma ReadersSeeCompleteTables<T>(s: State<T>, es: seq<Step<T>>, i: nat, v: T)
    requires Orderly(s) && CanRun(s, es) && i < |s.active| && s.active[i] && Safe(s, i) && TimelyRun(s, es, i)
    ensures var r := Run(s, es);
            && (r.tables[r.holds[i]] == r.before || r.tables[r.holds[i]] == r.after)
            && (Enabled(r, Write(v)) ==>
                  r.backup != r.holds[i] && Next(r, Write(v)).tables[r.holds[i]] == r.tables[r.holds[i]])
  {
    RunKeeps(s, es, i);
  }

  // Thread i clears its flag right after it fetches, with nothing in between.
  predicate BackToBack<T(==)>(es: seq<Step<T>>, i: nat) {
    forall n {:trigger es[n]} :: 0 <= n < |es| ==>
      (es[n] == Clear(i) ==> n > 0 && es[n - 1] == Fetch(i))
  }

  /** A call that is one step is always in time. */
  lemma {:induction false} BackToBackIsTimely<T>(s: State<T>, es: seq<Step<T>>, i: nat)
    requires WellFormed(s) && CanRun(s, es) && i < |s.holds| && BackToBack(es, i)
    ensures TimelyRun(s, es, i)
    decreases |es|
  {
    if |es| >= 2 && es[0] == Fetch(i) {
      var s1 := Next(s, es[0]);
      assert es[1..][0] == es[1] && es[1..][1..] == es[2..];
      if es[1] == Clear(i) {
        assert Timely(s1, i);
        BackToBackRest(es, i, 2);
        BackToBackIsTimely(Next(s1, es[1]), es[2..], i);
      } else {
        BackToBackRest(es, i, 1);
        BackToBackIsTimely(s1, es[1..], i);
      }
    } else if es != [] {
      BackToBackRest(es, i, 1);
      BackToBackIsTimely(Next(s, es[0]), es[1..], i);
    }
  }

  lemma BackToBackRest<T>(es: seq<Step<T>>, i: nat, n: nat)
    requires BackToBack(es, i) && 0 < n <= |es| && (n < |es| && es[n] == Clear(i) ==> false)
    ensures BackToBack(es[n..], i)
  {
  }

  // ------------------------------------------------------------------------------
  // The harm of a call that is not in time
  // ------------------------------------------------------------------------------

  // The writer may store into the table thread i holds.
  predicate Harmed<T>(s: State<T>, i: nat)
    requires WellFormed(s) && i < |s.holds|
  {
    (s.phase == First || s.phase == Second) && s.backup == s.holds[i]
  }

  // The run goes on without a call of thread i.
  predicate Without<T(==)>(es: seq<Step<T>>, i: nat) {
    forall e <- es :: e != Fetch(i) && e != Clear(i)
  }

  ghost predicate CanBeHarmed<T(!new)>(s: State<T>, i: nat)
    requires WellFormed(s) && i < |s.holds|
  {
    exists es {:trigger Run(s, es)} :: CanRun(s, es) && Without(es, i) && Harmed(Run(s, es), i)
  }

  // How far the writer is from its next store.
  function Ahead<T>(s: State<T>): nat
    requires Orderly(s)
  {
    match s.phase
    case Idle => 1
    case Flagging(j) => 2 * |s.holds| + 3 - j
    case Waiting(j) => |s.holds| + 1 - j
    case _ => 0
  }

  // What leads there: the writer's next statement, or a call of the thread it waits for.
  function Onward<T>(s: State<T>): Step<T>
    requires WellFormed(s)
  {
    match s.phase
    case Idle => Begin(s.after)
    case Flagging(j) => Flag
    case Waiting(j) =>
      if j >= |s.holds| || !s.waiting[j] then Wait else if s.fetched[j] == NONE then Fetch(j) else Clear(j)
    case _ => Flip
  }

  lemma {:induction false} LeadsToHarm<T>(s: State<T>, i: nat) returns (es: seq<Step<T>>)
    requires Orderly(s) && i < |s.holds| && !s.waiting[i] && s.holds[i] != s.current
    requires s.phase != Flipped && (s.phase.Flagging? ==> i < s.phase.i)
    ensures CanRun(s, es) && Without(es, i) && Harmed(Run(s, es), i)
    decreases Ahead(s), if s.phase.Waiting? && Onward(s) != Wait then if Onward(s).Fetch? then 2 else 1 else 0
  {
    es := [];
    if s.phase != First && s.phase != Second {
      var e := Onward(s);
      WriterKeeps(s, e);
      var rest := LeadsToHarm(Next(s, e), i);
      es := [e] + rest;
      assert es[1..] == rest;
    }
  }

  lemma {:induction false} WithoutIsTimely<T>(s: State<T>, es: seq<Step<T>>, i: nat)
    requires WellFormed(s) && CanRun(s, es) && i < |s.holds| && Without(es, i)
    ensures TimelyRun(s, es, i)
    decreases |es|
  {
    if es != [] {
      assert es[0] in es && forall e <- es[1..] :: e in es;
      WithoutIsTimely(Next(s, es[0]), es[1..], i);
    }
  }

  /** A second access that is not in time can be followed, with no further call of the thread,
      by a store into the table the thread holds; one that is in time cannot. */
  lemma HarmIff<T(!new)>(s: State<T>, i: nat)
    requires Orderly(s) && Enabled(s, Clear(i)) && s.active[i]
    ensures CanBeHarmed(Next(s, Clear(i)), i) <==> !Timely(s, i)
  {
    var t := Next(s, Clear(i));
    WriterKeeps(s, Clear(i));
    ClearKeepsIff(s, i);
    if Timely(s, i) {
      forall es | CanRun(t, es) && Without(es, i) ensures !Harmed(Run(t, es), i) {
        WithoutIsTimely(t, es, i);
        RunKeeps(t, es, i);
      }
    } else {
      var es := LeadsToHarm(t, i);
    }
  }

  /** Such a second access is reached from the start: the writer flips and flags between the
      two. */
  lemma LateCallIsReached<T>(a: T, b: T)
    ensures var s := State([a, a], 0, 1, [true], [false], [NONE], [0], Idle, a, a);
            var es := [Fetch(0), Begin(b), Write(b), Done, Flip, Flag];
            && Orderly(s) && Safe(s, 0)
            && CanRun(s, es) && Enabled(Run(s, es), Clear(0)) && !Timely(Run(s, es), 0)
  {
    var s0 := State([a, a], 0, 1, [true], [false], [NONE], [0], Idle, a, a);
    var s1 := Next(s0, Fetch(0));
    var s2 := Next(s1, Begin(b));
    var s3 := Next(s2, Write(b));
    var s4 := Next(s3, Done);
    var s5 := Next(s4, Flip);
    var e5: seq<Step<T>> := [Flag];
    var e4 := [Flip] + e5;
    var e3 := [Done] + e4;
    var e2 := [Write(b)] + e3;
    var e1 := [Begin(b)] + e2;
    var r := Next(s5, Flag);
    assert e5[1..] == [] && CanRun(s5, e5) && Run(s5, e5) == r;
    assert e4[1..] == e5 && CanRun(s4, e4) && Run(s4, e4) == r;
    assert e3[1..] == e4 && CanRun(s3, e3) && Run(s3, e3) == r;
    assert e2[1..] == e3 && CanRun(s2, e2) && Run(s2, e2) == r;
    assert e1[1..] == e2 && CanRun(s1, e1) && Run(s1, e1) == r;
    assert [Fetch(0), Begin(b), Write(b), Done, Flip, Flag][1..] == e1;
  }

  // ------------------------------------------------------------------------------
  // The writer is not held up
  // ------------------------------------------------------------------------------

  // Only threads that are active are flagged.
  predicate OnlyActive<T>(s: State<T>)
    requires WellFormed(s)
  {
    forall i :: 0 <= i < |s.active| ==> s.waiting[i] ==> s.active[i]
  }

  lemma {:induction false} OnlyActiveFlagged<T>(s: State<T>, es: seq<Step<T>>)
    requires WellFormed(s) && OnlyActive(s) && CanRun(s, es)
    ensures OnlyActive(Run(s, es))
    decreases |es|
  {
    if es != [] {
      assert OnlyActive(Next(s, es[0]));
      OnlyActiveFlagged(Next(s, es[0]), es[1..]);
    }
  }

  // The writer's statements, and calls of active threads.
  predicate Cooperates<T>(s: State<T>, e: Step<T>)
    requires WellFormed(s)
  {
    match e
    case Fetch(i) => i < |s.active| && s.active[i]
    case Clear(i) => i < |s.active| && s.active[i]
    case _ => true
  }

  predicate AllCooperate<T(==)>(s: State<T>, es: seq<Step<T>>)
    requires WellFormed(s)
  {
    forall e <- es :: Cooperates(s, e)
  }

  /** Once the table is flipped, the writer gets on to the other table as soon as each active
      thread has called; threads that are not active need not. */
  lemma {:induction false} WriterGetsOn<T>(s: State<T>) returns (es: seq<Step<T>>)
    requires Orderly(s) && OnlyActive(s) && s.phase != Idle && s.phase != First
    ensures CanRun(s, es) && AllCooperate(s, es) && Run(s, es).phase == Second
    decreases if s.phase == Flipped then 2 * |s.holds| + 4 else Ahead(s),
              if s.phase.Waiting? && Onward(s) != Wait then if Onward(s).Fetch? then 2 else 1 else 0
  {
    es := [];
    if s.phase != Second {
      var e := Onward(s);
      WriterKeeps(s, e);
      var rest := WriterGetsOn(Next(s, e));
      es := [e] + rest;
      assert es[1..] == rest;
    }
  }
}
