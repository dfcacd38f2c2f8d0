/** Hash tables in which an address may have several copies, as a refill whose first passes
    fail leaves them: when lookups are right, and exactly when an addition or a deletion
    takes effect. */
module MacCopies {
  import opened Wrappers
  import opened MacFilter
  import opened MacHash

  // A lookup of k can find it.
  predicate Findable(h: Hash, polys: seq<int>, es: Slots, k: Key)
    requires |polys| == 2
  {
    es[Slot(h, polys, k, 0)].key == k || es[Slot(h, polys, k, 1)].key == k
  }

  // All copies of k, wherever they lie, are v.
  ghost predicate CopiesAre(es: Slots, k: Key, v: Option<Entry>) {
    forall i :: 0 <= i < SIZE && es[i].key == k ==> v == Some(es[i])
  }

  ghost predicate KeyOk(h: Hash, polys: seq<int>, es: Slots, k: Key, v: Option<Entry>)
    requires |polys| == 2
  {
    && CopiesAre(es, k, v)
    && (v.Some? ==> Findable(h, polys, es, k) && !Empty(es[Slot(h, polys, k, 0)]))
  }

  // The copies of every address are equal and one of them is found; its first slot is
  // occupied.
  ghost predicate Coherent(h: Hash, t: Table) {
    WellFormed(t) && forall k :: k != ZERO ==> KeyOk(h, t.polys, t.slots, k, Find(h, t.polys, t.slots, k))
  }

  // An address lies in both of its slots, so that an insertion writes the first and a
  // lookup reads the second.
  predicate Doubled(h: Hash, t: Table, k: Key)
    requires WellFormed(t)
  {
    var x, y := Slot(h, t.polys, k, 0), Slot(h, t.polys, k, 1);
    x != y && t.slots[x].key == k && t.slots[y].key == k
  }

  // An address has one copy at most.
  predicate Single(es: Slots, k: Key) {
    forall i, j :: 0 <= i < j < SIZE ==> es[i].key != k || es[j].key != k
  }

  lemma KeyOkFinds(h: Hash, polys: seq<int>, es: Slots, k: Key, v: Option<Entry>)
    requires |polys| == 2 && KeyOk(h, polys, es, k, v) && k != ZERO
    ensures Find(h, polys, es, k) == v
  {
  }

  lemma EntryIsOk(h: Hash, t: Table, i: int)
    requires Coherent(h, t) && 0 <= i < SIZE && !Empty(t.slots[i])
    ensures KeyOk(h, t.polys, t.slots, t.slots[i].key, Some(t.slots[i]))
    ensures Find(h, t.polys, t.slots, t.slots[i].key) == Some(t.slots[i])
  {
    assert KeyOk(h, t.polys, t.slots, t.slots[i].key, Find(h, t.polys, t.slots, t.slots[i].key));
  }

  // A cuckoo table is coherent, and has one copy of every address.
  lemma CuckooIsCoherent(h: Hash, t: Table)
    requires Inv(h, t)
    ensures Coherent(h, t) && forall k :: k != ZERO ==> Single(t.slots, k)
  {
  }

  // ------------------------------------------------------------------------------
  // The eviction loop
  // ------------------------------------------------------------------------------

  // Slots that are occupied stay so.
  lemma {:induction false} OccupiedStays(h: Hash, polys: seq<int>, es: Slots, e: Entry, hashtype: int, setNotOr: bool,
                                         count: nat, limit: nat, i: int)
    requires |polys| == 2 && (hashtype == 0 || hashtype == 1) && count < limit && !Empty(e)
    requires 0 <= i < SIZE && !Empty(es[i])
    ensures !Empty(InsertLoop(h, polys, es, e, hashtype, setNotOr, count, limit).slots[i])
    decreases limit - count
  {
    var index := Slot(h, polys, e.key, hashtype);
    if Empty(es[index]) || es[index].key == e.key {
    } else if count == 0 {
      if count + 1 < limit { OccupiedStays(h, polys, es, e, 1 - hashtype, setNotOr, count + 1, limit, i); }
    } else if count + 1 < limit {
      OccupiedStays(h, polys, es[index := e], es[index], 1 - hashtype, true, count + 1, limit, i);
    }
  }

  // Whatever is moved where, copies of an address stay what they are, and on success it is
  // found if it was or is the one inserted.
  lemma {:induction false} LoopKeepsCopies(h: Hash, polys: seq<int>, es: Slots, e: Entry, hashtype: int, setNotOr: bool,
                                           count: nat, limit: nat, k: Key, v: Option<Entry>)
    requires |polys| == 2 && (hashtype == 0 || hashtype == 1) && count < limit && k != ZERO && !Empty(e)
    requires CopiesAre(es, k, v)
    requires e.key == k ==> v == Some(e) && (setNotOr || forall i :: 0 <= i < SIZE ==> es[i].key != k)
    ensures var p := InsertLoop(h, polys, es, e, hashtype, setNotOr, count, limit);
            && CopiesAre(p.slots, k, v)
            && (p.left == None && (Findable(h, polys, es, k) || e.key == k) ==> Findable(h, polys, p.slots, k))
    decreases limit - count
  {
    var i := Slot(h, polys, e.key, hashtype);
    if Empty(es[i]) || es[i].key == e.key {
      var n := Merged(es[i], e, setNotOr);
      assert e.key == k ==> n == e;
    } else if count == 0 {
      if count + 1 < limit {
        LoopKeepsCopies(h, polys, es, e, 1 - hashtype, setNotOr, count + 1, limit, k, v);
      }
    } else {
      assert CopiesAre(es[i := e], k, v);
      if count + 1 < limit {
        LoopKeepsCopies(h, polys, es[i := e], es[i], 1 - hashtype, true, count + 1, limit, k, v);
      }
    }
  }

  // Insertion leaves every other address as it was.
  lemma InsertKeepsOthers(h: Hash, t: Table, e: Entry, setNotOr: bool, k: Key, v: Option<Entry>)
    requires WellFormed(t) && !Empty(e) && k != ZERO && k != e.key && CopiesAre(t.slots, k, v)
    ensures var (u, ok) := Insert(h, t, e, setNotOr);
            && CopiesAre(u.slots, k, v)
            && (ok && KeyOk(h, t.polys, t.slots, k, v) ==> KeyOk(h, u.polys, u.slots, k, v))
  {
    hide InsertLoop;
    LoopKeepsCopies(h, t.polys, t.slots, e, 0, setNotOr, 0, t.num + 10, k, v);
    if !Empty(t.slots[Slot(h, t.polys, k, 0)]) {
      OccupiedStays(h, t.polys, t.slots, e, 0, setNotOr, 0, t.num + 10, Slot(h, t.polys, k, 0));
    }
  }

  // After a successful insertion the first slot of the address is occupied.
  lemma FirstIsTaken(h: Hash, t: Table, e: Entry, setNotOr: bool)
    requires WellFormed(t) && !Empty(e)
    ensures var u := Insert(h, t, e, setNotOr).0; !Empty(u.slots[Slot(h, t.polys, e.key, 0)])
  {
    var x := Slot(h, t.polys, e.key, 0);
    if !Empty(t.slots[x]) { OccupiedStays(h, t.polys, t.slots, e, 0, setNotOr, 0, t.num + 10, x); }
  }

  // Inserting an address of which there is no copy, or one more copy of it.
  lemma InsertCopy(h: Hash, t: Table, e: Entry, setNotOr: bool)
    requires WellFormed(t) && !Empty(e) && CopiesAre(t.slots, e.key, Some(e))
    requires setNotOr || forall i :: 0 <= i < SIZE ==> t.slots[i].key != e.key
    ensures var (u, ok) := Insert(h, t, e, setNotOr);
            && CopiesAre(u.slots, e.key, Some(e))
            && (ok ==> KeyOk(h, u.polys, u.slots, e.key, Some(e)))
  {
    hide InsertLoop;
    LoopKeepsCopies(h, t.polys, t.slots, e, 0, setNotOr, 0, t.num + 10, e.key, Some(e));
    FirstIsTaken(h, t, e, setNotOr);
  }

  // Entries are moved, never duplicated.
  lemma {:induction false} LoopKeepsSingle(h: Hash, polys: seq<int>, es: Slots, e: Entry, hashtype: int, setNotOr: bool,
                                           count: nat, limit: nat, k: Key)
    requires |polys| == 2 && (hashtype == 0 || hashtype == 1) && count < limit && !Empty(e) && k != ZERO
    requires Single(es, k) && (e.key == k ==> forall i :: 0 <= i < SIZE ==> es[i].key != k)
    ensures Single(InsertLoop(h, polys, es, e, hashtype, setNotOr, count, limit).slots, k)
    decreases limit - count
  {
    var i := Slot(h, polys, e.key, hashtype);
    if Empty(es[i]) || es[i].key == e.key {
    } else if count == 0 {
      if count + 1 < limit { LoopKeepsSingle(h, polys, es, e, 1 - hashtype, setNotOr, count + 1, limit, k); }
    } else if count + 1 < limit {
      LoopKeepsSingle(h, polys, es[i := e], es[i], 1 - hashtype, true, count + 1, limit, k);
    }
  }

  // Inserting an address that one of its slots holds writes over the first that does.
  lemma InsertPresent(h: Hash, t: Table, e: Entry, setNotOr: bool)
    requires WellFormed(t) && !Empty(e) && Findable(h, t.polys, t.slots, e.key)
    requires !Empty(t.slots[Slot(h, t.polys, e.key, 0)])
    ensures var x, y := Slot(h, t.polys, e.key, 0), Slot(h, t.polys, e.key, 1);
            var i := if t.slots[x].key == e.key then x else y;
            Insert(h, t, e, setNotOr) ==
              (t.(slots := t.slots[i := Merged(t.slots[i], e, setNotOr)], num := t.num + 1), true)
  {
    var polys, es, limit := t.polys, t.slots, t.num + 10;
    if es[Slot(h, polys, e.key, 0)].key != e.key {
      assert InsertLoop(h, polys, es, e, 0, setNotOr, 0, limit) == InsertLoop(h, polys, es, e, 1, setNotOr, 1, limit);
    }
  }

  // ------------------------------------------------------------------------------
  // When an addition takes effect
  // ------------------------------------------------------------------------------

  /** In any table whatever, as long as an address that is not found has no copy: an addition
      that reports success has its effect on the lookup exactly when it does not write the
      first slot while the second holds the address, or would add nothing. */
  lemma AdditionTakesEffectIff(h: Hash, t: Table, e: Entry)
    requires WellFormed(t) && !Empty(e)
    requires Find(h, t.polys, t.slots, e.key) == None ==> forall i :: 0 <= i < SIZE ==> t.slots[i].key != e.key
    ensures var (u, ok) := Insert(h, t, e, false); var was := Lookup(h, t, e.key);
            var x, y := Slot(h, t.polys, e.key, 0), Slot(h, t.polys, e.key, 1);
            ok ==> (Lookup(h, u, e.key) == was + e.result <==>
              !(x != y && t.slots[y].key == e.key && (Empty(t.slots[x]) || t.slots[x].key == e.key)) || e.result <= was)
  {
    var polys, es := t.polys, t.slots;
    var x := Slot(h, polys, e.key, 0);
    if Find(h, polys, es, e.key) == None {
      InsertCopy(h, t, e, false);
      var (u, ok) := Insert(h, t, e, false);
      if ok { KeyOkFinds(h, u.polys, u.slots, e.key, Some(e)); }
    } else if !Empty(es[x]) {
      InsertPresent(h, t, e, false);
    }
  }

  // The entry an addition is to leave.
  function Joined(e: Entry, n: Entry): Entry {
    Entry(n.key, e.result + n.result, n.appdata)
  }

  /** In a coherent table: an addition is refused only for an absent address; no other
      address changes; and the lookup of the address changes as it should unless it lies in
      both its slots and there is something to add. */
  lemma CoherentAddition(h: Hash, t: Table, e: Entry, k: Key)
    requires Coherent(h, t) && !Empty(e)
    ensures var (u, ok) := Insert(h, t, e, false); var was := Lookup(h, t, e.key);
            && (!ok ==> was == {} && Find(h, t.polys, t.slots, e.key) == None)
            && (ok && k != e.key ==> Find(h, u.polys, u.slots, k) == Find(h, t.polys, t.slots, k))
            && (ok ==> (Lookup(h, u, e.key) == was + e.result <==> !Doubled(h, t, e.key) || e.result <= was))
            && (ok && Doubled(h, t, e.key) ==> Lookup(h, u, e.key) == was)
  {
    var was := Find(h, t.polys, t.slots, e.key);
    assert KeyOk(h, t.polys, t.slots, e.key, was);
    AdditionTakesEffectIff(h, t, e);
    if was.Some? { InsertPresent(h, t, e, false); }
    if k != e.key && k != ZERO {
      var v := Find(h, t.polys, t.slots, k);
      assert KeyOk(h, t.polys, t.slots, k, v);
      InsertKeepsOthers(h, t, e, false, k, v);
      var (u, ok) := Insert(h, t, e, false);
      if ok { KeyOkFinds(h, u.polys, u.slots, k, v); }
    }
  }

  // A table whose keys are all in order is coherent.
  lemma OthersCoherent(h: Hash, t: Table, e: Entry, v: Option<Entry>)
    requires Coherent(h, t) && !Empty(e) && Insert(h, t, e, false).1
    requires var u := Insert(h, t, e, false).0; KeyOk(h, u.polys, u.slots, e.key, v)
    ensures var u := Insert(h, t, e, false).0;
            Coherent(h, u) && Find(h, u.polys, u.slots, e.key) == v
  {
    var u := Insert(h, t, e, false).0;
    forall k | k != ZERO ensures KeyOk(h, u.polys, u.slots, k, Find(h, u.polys, u.slots, k)) {
      var w := if k == e.key then v else Find(h, t.polys, t.slots, k);
      if k != e.key {
        assert KeyOk(h, t.polys, t.slots, k, w);
        InsertKeepsOthers(h, t, e, false, k, w);
      }
      KeyOkFinds(h, u.polys, u.slots, k, w);
    }
    KeyOkFinds(h, u.polys, u.slots, e.key, v);
  }

  // One copy is overwritten by n.
  lemma OverwrittenKeyIff(h: Hash, t: Table, i: int, n: Entry)
    requires Coherent(h, t) && 0 <= i < SIZE && !Empty(n) && t.slots[i].key == n.key
    ensures KeyOk(h, t.polys, t.slots[i := n], n.key, Some(n)) <==> Single(t.slots, n.key) || t.slots[i] == n
  {
    var es, k := t.slots, n.key;
    var v := Find(h, t.polys, es, k);
    assert KeyOk(h, t.polys, es, k, v) && v == Some(es[i]);
    if Single(es, k) || es[i] == n {
      var u := es[i := n];
      forall j | 0 <= j < SIZE ensures u[j].key == k ==> u[j] == n {
        assert j != i ==> u[j] == es[j];
      }
    } else {
      var x, y :| 0 <= x < y < SIZE && es[x].key == k && es[y].key == k;
      var j := if x == i then y else x;
      assert es[i := n][j] == es[j] == es[i];
    }
  }

  /** The table stays coherent exactly when the address had one copy at most, or its entry
      does not change; then every address has the word it should. Otherwise a copy with the
      old word is left, which a later eviction may bring back. */
  lemma AdditionKeepsCoherentIff(h: Hash, t: Table, e: Entry)
    requires Coherent(h, t) && !Empty(e) && Insert(h, t, e, false).1
    ensures var u := Insert(h, t, e, false).0; var was := Find(h, t.polys, t.slots, e.key);
            Coherent(h, u) <==> Single(t.slots, e.key) || (was.Some? && was.value == Joined(was.value, e))
    ensures var u := Insert(h, t, e, false).0;
            Single(t.slots, e.key) ==> forall k :: Find(h, u.polys, u.slots, k) == Wanted(h, t, e, false, k)
  {
    var u, was := Insert(h, t, e, false).0, Find(h, t.polys, t.slots, e.key);
    assert KeyOk(h, t.polys, t.slots, e.key, was);
    forall k | k != e.key ensures Find(h, u.polys, u.slots, k) == Find(h, t.polys, t.slots, k) {
      CoherentAddition(h, t, e, k);
    }
    if was == None {
      InsertCopy(h, t, e, false);
      OthersCoherent(h, t, e, Some(e));
    } else {
      InsertPresent(h, t, e, false);
      var x := Slot(h, t.polys, e.key, 0);
      var i := if t.slots[x].key == e.key then x else Slot(h, t.polys, e.key, 1);
      var n := Joined(was.value, e);
      OverwrittenKeyIff(h, t, i, n);
      if KeyOk(h, t.polys, u.slots, e.key, Some(n)) { OthersCoherent(h, t, e, Some(n)); }
      if Coherent(h, u) { EntryIsOk(h, u, i); }
    }
  }

  lemma AdditionKeepsSingle(h: Hash, t: Table, e: Entry)
    requires Coherent(h, t) && !Empty(e) && Single(t.slots, e.key)
    ensures Single(Insert(h, t, e, false).0.slots, e.key)
  {
    var was := Find(h, t.polys, t.slots, e.key);
    assert KeyOk(h, t.polys, t.slots, e.key, was);
    if was == None {
      LoopKeepsSingle(h, t.polys, t.slots, e, 0, false, 0, t.num + 10, e.key);
    } else {
      InsertPresent(h, t, e, false);
    }
  }

  // ------------------------------------------------------------------------------
  // When a deletion takes effect
  // ------------------------------------------------------------------------------

  /** A deletion from a coherent table: no other address changes; the lookup of the address
      changes as it should unless it lies in both its slots and there is something to
      delete; and the table stays coherent exactly when the address had one copy at most, or
      its entry does not change. */
  lemma CoherentDeletion(h: Hash, active: Table, t: Table, c: int, hp: bool, k: Key, x: Key)
    requires Coherent(h, t) && WellFormed(active) && active.polys == t.polys && IsClient(c)
    ensures var u := DeleteEntry(h, active, t, c, hp, k).0; var was := Lookup(h, t, k);
            && (x != k ==> Find(h, u.polys, u.slots, x) == Find(h, t.polys, t.slots, x))
            && (Lookup(h, u, k) == Deleted(was, c, hp) <==> !Doubled(h, t, k) || Deleted(was, c, hp) == was)
            && (Doubled(h, t, k) ==> Lookup(h, u, k) == was)
            && (Coherent(h, u) <==> Single(t.slots, k) || Deleted(was, c, hp) == was)
  {
    if k != ZERO {
      assert KeyOk(h, t.polys, t.slots, k, Find(h, t.polys, t.slots, k));
      var x0 := Slot(h, t.polys, k, 0);
      var i := if t.slots[x0].key == k then x0 else Slot(h, t.polys, k, 1);
      if t.slots[i].key == k {
        var n := t.slots[i].(result := Deleted(t.slots[i].result, c, hp));
        OverwrittenKeyIff(h, t, i, n);
        OverwriteKeepsOthers(h, t, i, n);
        assert DeleteEntry(h, active, t, c, hp, k).0 == t.(slots := t.slots[i := n]);
      }
    }
  }

  lemma OverwriteKeepsOthers(h: Hash, t: Table, i: int, n: Entry)
    requires Coherent(h, t) && 0 <= i < SIZE && !Empty(n) && t.slots[i].key == n.key
    ensures forall k :: k != n.key ==> Find(h, t.polys, t.slots[i := n], k) == Find(h, t.polys, t.slots, k)
    ensures Coherent(h, t.(slots := t.slots[i := n])) <==> KeyOk(h, t.polys, t.slots[i := n], n.key, Some(n))
  {
    var u := t.(slots := t.slots[i := n]);
    if KeyOk(h, t.polys, u.slots, n.key, Some(n)) {
      forall k | k != ZERO ensures KeyOk(h, u.polys, u.slots, k, Find(h, u.polys, u.slots, k)) {
        assert KeyOk(h, t.polys, t.slots, k, Find(h, t.polys, t.slots, k));
        if k == n.key { KeyOkFinds(h, u.polys, u.slots, k, Some(n)); }
      }
    }
    if Coherent(h, u) { EntryIsOk(h, u, i); }
  }
}
