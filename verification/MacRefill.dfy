/** Refilling the backup hash table from the active one under new polynomials
    (refill_backup_table), including refills whose first passes fail. */
module MacRefill {
  import opened Wrappers
  import opened MacFilter
  import opened MacHash
  import opened MacCopies

  const MULTIPLIER := 1664525
  const INCREMENT := 1013904223

  function NextPoly(p: int): int {
    (MULTIPLIER * p + INCREMENT) % 0x1_0000_0000
  }

  function NextPolys(t: Table): (r: Table)
    requires WellFormed(t)
    ensures WellFormed(r) && r.slots == t.slots
  {
    t.(polys := [NextPoly(t.polys[0]), NextPoly(t.polys[1])])
  }

  // One pass over the active slots from i on, up to the first insertion that fails.
  function Pass(h: Hash, active: Slots, t: Table, i: nat): (r: (Table, bool))
    requires WellFormed(t) && i <= SIZE
    ensures WellFormed(r.0) && r.0.polys == t.polys
    decreases SIZE - i
  {
    if i == SIZE then (t, true)
    else if Empty(active[i]) then Pass(h, active, t, i + 1)
    else
      var (t1, ok) := Insert(h, t, active[i], true);
      if ok then Pass(h, active, t1, i + 1) else (t1, false)
  }

  // The loop over passes; None if more than `retries` repetitions would be needed.
  function RefillLoop(h: Hash, active: Slots, t: Table, retries: nat): (r: Option<Table>)
    requires WellFormed(t)
    ensures r.Some? ==> WellFormed(r.value)
    decreases retries
  {
    var (t1, ok) := Pass(h, active, NextPolys(t), 0);
    if ok then Some(t1) else if retries == 0 then None else RefillLoop(h, active, t1, retries - 1)
  }

  function Emptied(t: Table): (r: Table)
    requires WellFormed(t)
    ensures WellFormed(r) && forall i :: 0 <= i < SIZE ==> Empty(r.slots[i])
  {
    Table(t.polys, 0, seq(SIZE, i requires 0 <= i < SIZE => t.slots[i].(key := ZERO)))
  }

  function Refill(h: Hash, active: Table, backup: Table, retries: nat): (r: Option<Table>)
    requires WellFormed(active) && WellFormed(backup)
    ensures r.Some? ==> WellFormed(r.value)
  {
    RefillLoop(h, active.slots, Emptied(backup), retries)
  }

  // ------------------------------------------------------------------------------
  // Refills of any number of passes
  // ------------------------------------------------------------------------------

  // A pass over slots in which all copies are those of the active table keeps them so; if it
  // succeeds, every address it has inserted is found.
  lemma {:induction false} PassKeepsCopies(h: Hash, a: Table, t: Table, i: nat, k: Key, v: Option<Entry>)
    requires WellFormed(a) && Coherent(h, a) && WellFormed(t) && i <= SIZE && k != ZERO
    requires v == Find(h, a.polys, a.slots, k) && CopiesAre(t.slots, k, v)
    ensures var (t', ok) := Pass(h, a.slots, t, i);
            && CopiesAre(t'.slots, k, v)
            && (ok && (KeyOk(h, t.polys, t.slots, k, v) || exists j :: i <= j < SIZE && a.slots[j].key == k) ==>
                  KeyOk(h, t'.polys, t'.slots, k, v))
    decreases SIZE - i
  {
    hide Coherent, CopiesAre, KeyOk, Insert, Find;
    if i < SIZE {
      if Empty(a.slots[i]) {
        PassKeepsCopies(h, a, t, i + 1, k, v);
      } else {
        if a.slots[i].key == k {
          EntryIsOk(h, a, i);
          InsertCopy(h, t, a.slots[i], true);
        } else {
          InsertKeepsOthers(h, t, a.slots[i], true, k, v);
        }
        var (t1, ok) := Insert(h, t, a.slots[i], true);
        if ok { PassKeepsCopies(h, a, t1, i + 1, k, v); }
      }
    }
  }

  lemma {:induction false} RefillLoopFinds(h: Hash, a: Table, t: Table, retries: nat, k: Key)
    requires WellFormed(a) && Coherent(h, a) && WellFormed(t) && k != ZERO
    requires CopiesAre(t.slots, k, Find(h, a.polys, a.slots, k))
    ensures var r := RefillLoop(h, a.slots, t, retries);
            r.Some? ==> KeyOk(h, r.value.polys, r.value.slots, k, Find(h, a.polys, a.slots, k))
    decreases retries
  {
    hide Pass, Find, CopiesAre, Coherent;
    var v := Find(h, a.polys, a.slots, k);
    PassKeepsCopies(h, a, NextPolys(t), 0, k, v);
    PresentIsThere(h, a, k);
    var (t1, ok) := Pass(h, a.slots, NextPolys(t), 0);
    if !ok && retries > 0 { RefillLoopFinds(h, a, t1, retries - 1, k); }
  }

  lemma PresentIsThere(h: Hash, a: Table, k: Key)
    requires WellFormed(a) && k != ZERO
    ensures Find(h, a.polys, a.slots, k).Some? ==> exists j :: 0 <= j < SIZE && a.slots[j].key == k
    ensures forall es: Slots :: CopiesAre(es, k, None) ==> KeyOk(h, a.polys, es, k, None)
  {
  }

  /** A refill that returns, after however many failed passes whose leftovers are not
      cleared, leaves a backup table in which every address is found with the entry it has
      in the active table, and no other address is found; and all its copies agree. */
  lemma RefillFinds(h: Hash, a: Table, backup: Table, retries: nat)
    requires Coherent(h, a) && WellFormed(backup)
    ensures var r := Refill(h, a, backup, retries);
            r.Some? ==>
              && Coherent(h, r.value)
              && forall k :: Find(h, r.value.polys, r.value.slots, k) == Find(h, a.polys, a.slots, k)
  {
    var r := Refill(h, a, backup, retries);
    if r.Some? {
      var t := r.value;
      forall k | k != ZERO
        ensures Find(h, t.polys, t.slots, k) == Find(h, a.polys, a.slots, k)
        ensures KeyOk(h, t.polys, t.slots, k, Find(h, t.polys, t.slots, k))
      {
        RefillLoopFinds(h, a, Emptied(backup), retries, k);
        KeyOkFinds(h, t.polys, t.slots, k, Find(h, a.polys, a.slots, k));
      }
    }
  }

  // A polynomial after so many steps of the generator.
  function Generated(p: int, n: nat): int
    decreases n
  {
    if n == 0 then p else Generated((1664525 * p + 1013904223) % 0x1_0000_0000, n - 1)
  }

  /** Every pass is made under new polynomials: those of a refill that returns are the backup
      table's after one step of the generator or more, one for each pass; and a refill of a
      table with nothing in it returns after one. */
  lemma RefillPolys(h: Hash, a: Table, backup: Table, retries: nat) returns (n: nat)
    requires WellFormed(a) && WellFormed(backup)
    ensures var r := Refill(h, a, backup, retries);
            && (r.Some? ==>
                  && 1 <= n <= retries + 1
                  && r.value.polys == [Generated(backup.polys[0], n), Generated(backup.polys[1], n)])
            && ((forall i :: 0 <= i < SIZE ==> Empty(a.slots[i])) ==> r.Some? && n == 1)
  {
    n := RefillLoopPolys(h, a.slots, Emptied(backup), retries);
    if forall i :: 0 <= i < SIZE ==> Empty(a.slots[i]) { EmptyPass(h, a.slots, NextPolys(Emptied(backup)), 0); }
  }

  lemma {:induction false} RefillLoopPolys(h: Hash, active: Slots, t: Table, retries: nat) returns (n: nat)
    requires WellFormed(t)
    ensures var r := RefillLoop(h, active, t, retries);
            r.Some? ==> 1 <= n <= retries + 1 && r.value.polys == [Generated(t.polys[0], n), Generated(t.polys[1], n)]
    ensures Pass(h, active, NextPolys(t), 0).1 ==> n == 1
    decreases retries
  {
    hide Pass;
    n := 1;
    var (t1, ok) := Pass(h, active, NextPolys(t), 0);
    assert Generated(t.polys[0], 1) == t1.polys[0] && Generated(t.polys[1], 1) == t1.polys[1];
    if !ok && retries > 0 {
      n := RefillLoopPolys(h, active, t1, retries - 1);
      n := n + 1;
    }
  }

  lemma {:induction false} EmptyPass(h: Hash, active: Slots, t: Table, i: nat)
    requires WellFormed(t) && i <= SIZE && forall j :: 0 <= j < SIZE ==> Empty(active[j])
    ensures Pass(h, active, t, i) == (t, true)
    decreases SIZE - i
  {
    if i < SIZE { EmptyPass(h, active, t, i + 1); }
  }

  // ------------------------------------------------------------------------------
  // Refills whose first pass succeeds
  // ------------------------------------------------------------------------------

  lemma {:induction false} PassKeepsInv(h: Hash, active: Slots, t: Table, i: nat)
    requires Inv(h, t) && i <= SIZE
    ensures Inv(h, Pass(h, active, t, i).0)
    decreases SIZE - i
  {
    if i < SIZE {
      if Empty(active[i]) {
        PassKeepsInv(h, active, t, i + 1);
      } else {
        InsertRefines(h, t, active[i], true, ZERO);
        var (t1, ok) := Insert(h, t, active[i], true);
        if ok { PassKeepsInv(h, active, t1, i + 1); }
      }
    }
  }

  /** A refill that needs no second pass leaves a well-formed table. */
  lemma FirstPassIsCuckoo(h: Hash, a: Table, backup: Table)
    requires WellFormed(a) && WellFormed(backup)
    ensures var r := Refill(h, a, backup, 0); r.Some? ==> Inv(h, r.value)
  {
    PassKeepsInv(h, a.slots, NextPolys(Emptied(backup)), 0);
  }
}
