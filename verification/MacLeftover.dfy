/** A refill whose first pass fails leaves entries of that pass behind. Lookups still agree
    with the active table, but a later addition to one of these addresses can be lost: it
    changes the copy in the first slot while the lookup prefers the second. Here is a run of
    five additions to cleared tables in which that happens. */
module MacLeftover {
  import opened Wrappers
  import opened MacFilter
  import opened MacHash
  import opened MacCopies
  import opened MacRefill
  import opened MacAgree
  import Linear = MacTable

  const A := Key(1, 0)
  const B := Key(2, 0)
  const C := Key(3, 0)
  const D := Key(4, 0)

  // The polynomials of the first and of the second pass.
  const P0 := NextPoly(FIRST_POLYS[0])
  const P1 := NextPoly(FIRST_POLYS[1])
  const Q0 := NextPoly(P0)
  const Q1 := NextPoly(P1)

  function Number(k: Key): int {
    if k == A then 1 else if k == B then 2 else if k == C then 3 else if k == D then 4 else 0
  }

  // At the start three addresses have a slot each, and the fourth has that of the first. Under
  // the next polynomials they share two slots; under those after that they have a first slot
  // each, and slot 0 as the second.
  function Place(k: Key, p: int): (i: int)
    ensures 0 <= i < SIZE
  {
    if p == P0 || p == Q1 then 0 else if p == P1 then 1 else if p == Q0 then 10 + Number(k)
    else if k == D then 21 else 20 + Number(k)
  }

  const CROWDED: Hash := Place

  lemma PolysDiffer()
    ensures P0 != P1 && P0 != Q0 && P0 != Q1 && P1 != Q0 && P1 != Q1 && Q0 != Q1
    ensures P0 != FIRST_POLYS[0] && P1 != FIRST_POLYS[0] && Q0 != FIRST_POLYS[0] && Q1 != FIRST_POLYS[0]
    ensures P0 != FIRST_POLYS[1] && P1 != FIRST_POLYS[1] && Q0 != FIRST_POLYS[1] && Q1 != FIRST_POLYS[1]
  {
  }

  // The active table holds the three addresses, each wanted by client 0.
  function Three(): Table {
    Table(FIRST_POLYS, 3, seq(SIZE, i requires 0 <= i < SIZE =>
      if i == 21 then Entry(A, {0}, 0) else if i == 22 then Entry(B, {0}, 0) else if i == 23 then Entry(C, {0}, 0)
      else Entry(ZERO, {}, 0)))
  }

  lemma ThreeInv()
    ensures Inv(CROWDED, Three())
  {
    PolysDiffer();
    var es := Three().slots;
    assert es[21].key == A && es[22].key == B && es[23].key == C;
    assert forall i :: 0 <= i < SIZE && !Empty(es[i]) ==> i == 21 || i == 22 || i == 23;
    assert Slot(CROWDED, FIRST_POLYS, A, 0) == 21 && Slot(CROWDED, FIRST_POLYS, B, 0) == 22 &&
        Slot(CROWDED, FIRST_POLYS, C, 0) == 23;
  }

  // Skipping the empty slots of the active table.
  lemma {:induction false} PassSkips(h: Hash, active: Slots, t: Table, i: nat, j: nat)
    requires WellFormed(t) && i <= j <= SIZE && forall n :: i <= n < j ==> Empty(active[n])
    ensures Pass(h, active, t, i) == Pass(h, active, t, j)
    decreases j - i
  {
    if i < j { PassSkips(h, active, t, i + 1, j); }
  }

  // A pass over the three entries.
  lemma PassThree(t: Table)
    requires WellFormed(t)
    ensures var a := Three().slots;
            var (t1, ok1) := Insert(CROWDED, t, a[21], true);
            var (t2, ok2) := Insert(CROWDED, t1, a[22], true);
            var (t3, ok3) := Insert(CROWDED, t2, a[23], true);
            ok1 && ok2 ==> Pass(CROWDED, a, t, 0) == (t3, ok3)
  {
    hide Insert;
    var a := Three().slots;
    var (t1, ok1) := Insert(CROWDED, t, a[21], true);
    var (t2, ok2) := Insert(CROWDED, t1, a[22], true);
    var (t3, ok3) := Insert(CROWDED, t2, a[23], true);
    PassSkips(CROWDED, a, t, 0, 21);
    assert ok1 ==> Pass(CROWDED, a, t, 21) == Pass(CROWDED, a, t1, 22);
    assert ok1 && ok2 ==> Pass(CROWDED, a, t1, 22) == Pass(CROWDED, a, t2, 23);
    PassSkips(CROWDED, a, t3, 24, SIZE);
  }

  // An entry whose first slot is empty, and one whose first slot is not but the second is.
  lemma InsertAtFirst(h: Hash, t: Table, e: Entry)
    requires WellFormed(t) && Empty(t.slots[Slot(h, t.polys, e.key, 0)])
    ensures Insert(h, t, e, true) == (t.(slots := t.slots[Slot(h, t.polys, e.key, 0) := e], num := t.num + 1), true)
  {
  }

  lemma InsertAtSecond(h: Hash, t: Table, e: Entry)
    requires WellFormed(t) && Empty(t.slots[Slot(h, t.polys, e.key, 1)])
    requires var e0 := t.slots[Slot(h, t.polys, e.key, 0)]; !Empty(e0) && e0.key != e.key
    ensures Insert(h, t, e, true) == (t.(slots := t.slots[Slot(h, t.polys, e.key, 1) := e], num := t.num + 1), true)
  {
    var polys, limit := t.polys, t.num + 10;
    assert InsertLoop(h, polys, t.slots, e, 0, true, 0, limit) == InsertLoop(h, polys, t.slots, e, 1, true, 1, limit);
  }

  predicate OneOfThree(e: Entry) {
    (e.key == A || e.key == B || e.key == C) && e.result == {0} && e.appdata == 0
  }

  // The first pass fails, with slot 0 occupied by one of the three.
  lemma FirstPassFails(backup: Table)
    requires WellFormed(backup) && backup.polys == FIRST_POLYS
    ensures var t := NextPolys(Emptied(backup)); var (t3, ok) := Pass(CROWDED, Three().slots, t, 0);
            && !ok && t3.polys == [P0, P1] && OneOfThree(t3.slots[0])
            && forall i :: 10 <= i < SIZE ==> Empty(t3.slots[i])
  {
    hide Insert, InsertLoop, Pass, Inv, NextPoly;
    PolysDiffer();
    ThreeInv();
    var a := Three().slots;
    var t := NextPolys(Emptied(backup));
    assert t.polys == [P0, P1];
    InsertAtFirst(CROWDED, t, a[21]);
    var t1 := Insert(CROWDED, t, a[21], true).0;
    InsertAtSecond(CROWDED, t1, a[22]);
    var t2 := Insert(CROWDED, t1, a[22], true).0;
    var (t3, ok3) := Insert(CROWDED, t2, a[23], true);
    PassThree(t);
    ThirdFails(t2, t3, ok3);
    LeftInPlace(t2, a[23]);
    CuckooIsCoherent(CROWDED, Three());
    var k := t3.slots[0].key;
    var v := Find(CROWDED, FIRST_POLYS, Three().slots, k);
    PassKeepsCopies(CROWDED, Three(), t, 0, k, v);
  }

  lemma LeftInPlace(t: Table, e: Entry)
    requires WellFormed(t) && t.polys == [P0, P1] && !Empty(e) && !Empty(t.slots[0])
    requires forall i :: 10 <= i < SIZE ==> Empty(t.slots[i])
    ensures var t' := Insert(CROWDED, t, e, true).0;
            !Empty(t'.slots[0]) && forall i :: 10 <= i < SIZE ==> Empty(t'.slots[i])
  {
    OccupiedStays(CROWDED, t.polys, t.slots, e, 0, true, 0, t.num + 10, 0);
    var t' := Insert(CROWDED, t, e, true).0;
    forall i | 10 <= i < SIZE ensures Empty(t'.slots[i]) {
      OthersUntouched(t.slots, e, 0, true, 0, t.num + 10, i);
    }
  }

  // Insertion under the first polynomials touches slots 0 and 1 only.
  lemma {:induction false} OthersUntouched(es: Slots, e: Entry, hashtype: int, setNotOr: bool, count: nat,
                                           limit: nat, i: int)
    requires (hashtype == 0 || hashtype == 1) && count < limit && 2 <= i < SIZE
    ensures InsertLoop(CROWDED, [P0, P1], es, e, hashtype, setNotOr, count, limit).slots[i] == es[i]
    decreases limit - count
  {
    PolysDiffer();
    var index := Slot(CROWDED, [P0, P1], e.key, hashtype);
    if count + 1 < limit {
      OthersUntouched(es, e, 1 - hashtype, setNotOr, count + 1, limit, i);
      OthersUntouched(es[index := e], es[index], 1 - hashtype, true, count + 1, limit, i);
    }
  }

  // Three addresses do not fit into two slots.
  lemma ThirdFails(t2: Table, t3: Table, ok: bool)
    requires WellFormed(t2) && t2.polys == [P0, P1]
    requires t2.slots[0] == Entry(A, {0}, 0) && t2.slots[1] == Entry(B, {0}, 0)
    requires forall i :: 2 <= i < SIZE ==> Empty(t2.slots[i])
    requires (t3, ok) == Insert(CROWDED, t2, Entry(C, {0}, 0), true)
    ensures !ok
  {
    PolysDiffer();
    assert Inv(CROWDED, t2);
    InsertRefines(CROWDED, t2, Entry(C, {0}, 0), true, A);
    InsertRefines(CROWDED, t2, Entry(C, {0}, 0), true, B);
    InsertRefines(CROWDED, t2, Entry(C, {0}, 0), true, C);
  }

  // The refill ends with the second pass, and with one of the three in slot 0 and in its own.
  lemma RefillDoubles(backup: Table) returns (t: Table, k: Key)
    requires WellFormed(backup) && backup.polys == FIRST_POLYS
    ensures Refill(CROWDED, Three(), backup, 1) == Some(t) && t.polys == [Q0, Q1]
    ensures (k == A || k == B || k == C) && t.slots[0].key == k == t.slots[10 + Number(k)].key && Empty(t.slots[14])
  {
    hide Insert, InsertLoop, Pass, Inv, NextPoly;
    PolysDiffer();
    FirstPassFails(backup);
    var a := Three().slots;
    var s0 := NextPolys(Emptied(backup));
    var s := NextPolys(Pass(CROWDED, a, s0, 0).0);
    assert s.polys == [Q0, Q1];
    k := s.slots[0].key;
    InsertAtFirst(CROWDED, s, a[21]);
    var t1 := Insert(CROWDED, s, a[21], true).0;
    InsertAtFirst(CROWDED, t1, a[22]);
    var t2 := Insert(CROWDED, t1, a[22], true).0;
    InsertAtFirst(CROWDED, t2, a[23]);
    t := Insert(CROWDED, t2, a[23], true).0;
    PassThree(s);
    assert Pass(CROWDED, a, s, 0) == (t, true);
    assert RefillLoop(CROWDED, a, Emptied(backup), 1) == RefillLoop(CROWDED, a, Pass(CROWDED, a, s0, 0).0, 0);
  }

  // ------------------------------------------------------------------------------
  // The run
  // ------------------------------------------------------------------------------

  function Addition(c: int, k: Key): Op {
    Op.Add(c, false, k, 0)
  }

  function Then(s: Both, k: Key): Option<Both>
    requires WellFormed(s.mac.active) && WellFormed(s.mac.backup)
  {
    Step(CROWDED, s, Addition(0, k), 1, 1)
  }

  // The first n of the linear table are in use.
  predicate Filled(t: seq<Linear.Entry>, n: nat) {
    |t| == Linear.SIZE && n < Linear.SIZE && forall i :: n <= i < |t| ==> t[i].result == {}
  }

  lemma FilledServes(t: seq<Linear.Entry>, n: nat, c: int, k: Key)
    requires Filled(t, n) && n + 1 < Linear.SIZE && Linear.Distinct(t) && IsClient(c) && !IsHp(Linear.Filter(t, k))
    ensures Served(t, Addition(c, k)) && Filled(Linear.Add(t, c, false, k, 0).0, n + 1)
  {
    Linear.AddRefines(t, c, false, k, 0, k);
    assert t[n].result == {};
  }

  // Adding an absent address whose first slot is free.
  lemma AddInFirst(s: Both, n: nat, k: Key)
    requires Agree(CROWDED, s) && Filled(s.linear, n) && n + 1 < Linear.SIZE && k != ZERO
    requires var t := s.mac.active; WellFormed(t) && Empty(t.slots[Slot(CROWDED, t.polys, k, 0)])
    ensures var t := s.mac.active; var r := Then(s, k);
            && Served(s.linear, Addition(0, k)) && r.Some? && Filled(r.value.linear, n + 1) && Agree(CROWDED, r.value)
            && r.value.mac.active == t.(slots := t.slots[Slot(CROWDED, t.polys, k, 0) := Entry(k, {0}, 0)],
                num := t.num + 1)
  {
    hide Coherent, Linear.Distinct, Linear.Filter, Linear.Add, Inv;
    var t, e := s.mac.active, NewEntry(0, false, k, 0);
    FirstFreeIsAbsent(s, k);
    FilledServes(s.linear, n, 0, k);
    InsertInFirst(t, e);
    AddAgreesIff(CROWDED, s, Addition(0, k), 1, 1);
  }

  lemma FirstFreeIsAbsent(s: Both, k: Key)
    requires Agree(CROWDED, s) && k != ZERO
    requires var t := s.mac.active; Empty(t.slots[Slot(CROWDED, t.polys, k, 0)])
    ensures Linear.Filter(s.linear, k) == {} && Single(s.mac.active.slots, k) && Linear.Distinct(s.linear)
  {
    var t := s.mac.active;
    assert KeyOk(CROWDED, t.polys, t.slots, k, Find(CROWDED, t.polys, t.slots, k));
  }

  lemma InsertInFirst(t: Table, e: Entry)
    requires WellFormed(t) && Empty(t.slots[Slot(CROWDED, t.polys, e.key, 0)])
    ensures Insert(CROWDED, t, e, false) ==
      (t.(slots := t.slots[Slot(CROWDED, t.polys, e.key, 0) := e], num := t.num + 1), true)
  {
  }

  // The fourth address finds no slot.
  lemma FourthFails()
    ensures var (b, ok) := Insert(CROWDED, Three(), NewEntry(0, false, D, 0), false); !ok && b.polys == FIRST_POLYS
  {
    PolysDiffer();
    ThreeInv();
    InsertRefines(CROWDED, Three(), NewEntry(0, false, D, 0), false, A);
    InsertRefines(CROWDED, Three(), NewEntry(0, false, D, 0), false, D);
  }

  const FRESH := Both(seq(Linear.SIZE, _ => Linear.Entry(ZERO, {}, 0)),
                      var t := Table(FIRST_POLYS, 0, seq(SIZE, _ => Entry(ZERO, {}, 0))); Mac(t, t))

  lemma FreshAgrees()
    ensures Agree(CROWDED, FRESH) && Filled(FRESH.linear, 0)
  {
    var t := FRESH.mac.active;
    InitAgrees(CROWDED, t, FRESH.linear);
    assert Clear(t) == t;
  }

  // The first three go to slots 21 to 23.
  lemma AddThree() returns (s1: Both, s2: Both, s3: Both)
    ensures Then(FRESH, A) == Some(s1) && Served(FRESH.linear, Addition(0, A))
    ensures WellFormed(s1.mac.active) && WellFormed(s1.mac.backup)
    ensures Then(s1, B) == Some(s2) && Served(s1.linear, Addition(0, B))
    ensures WellFormed(s2.mac.active) && WellFormed(s2.mac.backup)
    ensures Then(s2, C) == Some(s3) && Served(s2.linear, Addition(0, C))
    ensures Agree(CROWDED, s3) && s3.mac.active == Three() && Filled(s3.linear, 3)
  {
    hide Agree, Step, Served, Filled, Inv;
    PolysDiffer();
    FreshAgrees();
    AddInFirst(FRESH, 0, A);
    s1 := Then(FRESH, A).value;
    AddInFirst(s1, 1, B);
    s2 := Then(s1, B).value;
    AddInFirst(s2, 2, C);
    s3 := Then(s2, C).value;
    assert s3.mac.active.slots == Three().slots;
  }

  // The fourth makes the table refill twice, and one of the first three lies in two slots.
  lemma AddFourth(s: Both) returns (r: Both, k: Key)
    requires Agree(CROWDED, s) && s.mac.active == Three() && Filled(s.linear, 3)
    ensures Then(s, D) == Some(r) && Served(s.linear, Addition(0, D)) && Agree(CROWDED, r) && Filled(r.linear, 4)
    ensures WellFormed(r.mac.active) && k != ZERO && Doubled(CROWDED, r.mac.active, k)
    ensures Lookup(CROWDED, r.mac.active, k) == {0}
  {
    hide Coherent, Linear.Distinct, Linear.Filter, Linear.Add, Inv, Refill, Effect, NextPoly;
    PolysDiffer();
    ThreeInv();
    CuckooIsCoherent(CROWDED, Three());
    var e := NewEntry(0, false, D, 0);
    FourthFails();
    var b := Insert(CROWDED, Three(), e, false).0;
    var t;
    t, k := RefillDoubles(b);
    InsertInFirst(t, e);
    var u := Insert(CROWDED, t, e, false).0;
    NotInThree(s);
    FilledServes(s.linear, 3, 0, D);
    AddAgreesIff(CROWDED, s, Addition(0, D), 1, 1);
    assert AddLoop(CROWDED, s.mac.(backup := t), e, 0, 1, true) == Some(Mac(u, u));
    r := Then(s, D).value;
    AddKeeps(CROWDED, s.mac, 0, false, D, 0, 1, 1);
    StillThere(r.mac.active, k);
  }

  lemma NotInThree(s: Both)
    requires Agree(CROWDED, s) && s.mac.active == Three()
    ensures Linear.Filter(s.linear, D) == {} && Single(Three().slots, D) && Linear.Distinct(s.linear)
  {
  }

  lemma StillThere(u: Table, k: Key)
    requires WellFormed(u) && Effect(CROWDED, Three(), NewEntry(0, false, D, 0), u) && (k == A || k == B || k == C)
    ensures Lookup(CROWDED, u, k) == {0}
  {
    PolysDiffer();
  }

  lemma RunStep(s: Both, op: Op, r: Both, ops: seq<Op>)
    requires WellFormed(s.mac.active) && WellFormed(s.mac.backup) && Proper(op) && Served(s.linear, op)
    requires Step(CROWDED, s, op, 1, 1) == Some(r) && Runs(CROWDED, r, ops, 1, 1) && AllServed(CROWDED, r, ops, 1, 1)
    ensures Runs(CROWDED, s, [op] + ops, 1, 1) && AllServed(CROWDED, s, [op] + ops, 1, 1)
    ensures After(CROWDED, s, [op] + ops, 1, 1) == After(CROWDED, r, ops, 1, 1)
  {
    hide Step;
    assert ([op] + ops)[1..] == ops;
  }

  /** After four additions for client 0, the last of which refills with a failed pass, adding
      client 1 to one of the addresses reports success and has no effect on its lookup. */
  lemma AdditionIsLost() returns (k: Key, ops: seq<Op>)
    ensures ops == [Addition(0, A), Addition(0, B), Addition(0, C), Addition(0, D), Addition(1, k)]
    ensures Agree(CROWDED, FRESH) && Runs(CROWDED, FRESH, ops, 1, 1) && AllServed(CROWDED, FRESH, ops, 1, 1)
    ensures var s := After(CROWDED, FRESH, ops, 1, 1);
            Lookup(CROWDED, s.mac.active, k) == {0} && Linear.Filter(s.linear, k) == {0, 1}
  {
    hide Agree, Step, Served, Filled, Effect, Linear.Filter, Linear.Add;
    FreshAgrees();
    var s1, s2, s3 := AddThree();
    var s4;
    s4, k := AddFourth(s3);
    var s5 := AddFifth(s4, k);
    var o5 := [Addition(1, k)];
    RunStep(s4, Addition(1, k), s5, []);
    assert o5 + [] == o5;
    RunStep(s3, Addition(0, D), s4, o5);
    RunStep(s2, Addition(0, C), s3, [Addition(0, D)] + o5);
    RunStep(s1, Addition(0, B), s2, [Addition(0, C)] + ([Addition(0, D)] + o5));
    RunStep(FRESH, Addition(0, A), s1, [Addition(0, B)] + ([Addition(0, C)] + ([Addition(0, D)] + o5)));
    ops := [Addition(0, A)] + ([Addition(0, B)] + ([Addition(0, C)] + ([Addition(0, D)] + o5)));
  }

  lemma AddFifth(s: Both, k: Key) returns (r: Both)
    requires Agree(CROWDED, s) && Filled(s.linear, 4) && k != ZERO && WellFormed(s.mac.active)
    requires Doubled(CROWDED, s.mac.active, k) && Lookup(CROWDED, s.mac.active, k) == {0}
    ensures Step(CROWDED, s, Addition(1, k), 1, 1) == Some(r) && Served(s.linear, Addition(1, k))
    ensures WellFormed(r.mac.active) && WellFormed(r.mac.backup)
    ensures Lookup(CROWDED, r.mac.active, k) == {0} && Linear.Filter(r.linear, k) == {0, 1}
  {
    hide Linear.Filter, Linear.Add, Insert;
    var e := NewEntry(1, false, k, 0);
    FilledServes(s.linear, 4, 1, k);
    Linear.AddRefines(s.linear, 1, false, k, 0, k);
    CoherentAddition(CROWDED, s.mac.active, e, k);
    r := Step(CROWDED, s, Addition(1, k), 1, 1).value;
  }
}
