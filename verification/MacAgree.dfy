/** The two MAC address filters: the public operations of the double-buffered hash table
    (macaddr_filter_hash.c) against the linear table (macaddr_filter.xc), over any sequence
    of additions and deletions. */
module MacAgree {
  import opened Wrappers
  import opened MacFilter
  import opened MacHash
  import opened MacCopies
  import opened MacRefill
  import Linear = MacTable

  // hash_table and backup_table.
  datatype Mac = Mac(active: Table, backup: Table)

  // The loop of mii_macaddr_hash_table_add_entry; at most `refills` refills, each of at
  // most `retries` repeated passes. After a refill the tables are synchronised by copying,
  // otherwise by inserting again.
  function AddLoop(h: Hash, s: Mac, e: Entry, refills: nat, retries: nat, doMemcpy: bool): (r: Option<Mac>)
    requires WellFormed(s.active) && WellFormed(s.backup)
    ensures r.Some? ==> WellFormed(r.value.active) && WellFormed(r.value.backup)
    decreases refills
  {
    var (b1, ok) := Insert(h, s.backup, e, false);
    if ok then
      Some(if doMemcpy then Mac(b1, b1) else Mac(b1, Insert(h, s.active, e, false).0))
    else if refills == 0 then None
    else
      var r := Refill(h, s.active, b1, retries);
      if r == None then None else AddLoop(h, s.(backup := r.value), e, refills - 1, retries, true)
  }

  function NewEntry(c: int, hp: bool, k: Key, appdata: int): Entry {
    Entry(k, SetHp({c}, hp), appdata)
  }

  function AddEntry(h: Hash, s: Mac, c: int, hp: bool, k: Key, appdata: int, refills: nat, retries: nat)
    : (r: Option<Mac>)
    requires WellFormed(s.active) && WellFormed(s.backup)
    ensures r.Some? ==> WellFormed(r.value.active) && WellFormed(r.value.backup)
  {
    AddLoop(h, s, NewEntry(c, hp, k, appdata), refills, retries, false)
  }

  function Delete(h: Hash, s: Mac, c: int, hp: bool, k: Key): (r: Mac)
    requires WellFormed(s.active) && WellFormed(s.backup)
    ensures WellFormed(r.active) && WellFormed(r.backup)
  {
    var (b1, deleted) := DeleteEntry(h, s.active, s.backup, c, hp, k);
    if deleted then Mac(b1, DeleteEntry(h, b1, s.active, c, hp, k).0) else s
  }

  function ClearBoth(s: Mac): Mac {
    Mac(Clear(s.backup), Clear(s.active))
  }

  // Between operations the tables are identical, polynomials included, and coherent.
  ghost predicate InSync(h: Hash, s: Mac) {
    s.active == s.backup && Coherent(h, s.active)
  }

  // Adding to an address that is there with all that is added.
  predicate Unchanged(h: Hash, t: Table, e: Entry)
    requires WellFormed(t)
  {
    var was := Find(h, t.polys, t.slots, e.key);
    was.Some? && was.value == Joined(was.value, e)
  }

  // What an addition makes of a coherent table t, whether it refills or not: it takes effect
  // unless the address lies in both its slots, and leaves the table coherent unless old
  // copies stay behind.
  ghost predicate Effect(h: Hash, t: Table, e: Entry, u: Table)
    requires WellFormed(t) && WellFormed(u)
  {
    && (forall k :: k != e.key ==> Find(h, u.polys, u.slots, k) == Find(h, t.polys, t.slots, k))
    && Lookup(h, u, e.key) == (if Doubled(h, t, e.key) then Lookup(h, t, e.key) else Lookup(h, t, e.key) + e.result)
    && (Coherent(h, u) <==> Single(t.slots, e.key) || Unchanged(h, t, e))
    && (Single(t.slots, e.key) ==> Single(u.slots, e.key))
  }

  lemma InsertEffect(h: Hash, t: Table, e: Entry)
    requires Coherent(h, t) && !Empty(e)
    ensures var (u, ok) := Insert(h, t, e, false);
            if ok then Effect(h, t, e, u) else forall i :: 0 <= i < SIZE ==> t.slots[i].key != e.key
  {
    hide Insert, Find;
    var (u, ok) := Insert(h, t, e, false);
    if ok {
      forall k | k != e.key ensures Find(h, u.polys, u.slots, k) == Find(h, t.polys, t.slots, k) {
        CoherentAddition(h, t, e, k);
      }
      CoherentAddition(h, t, e, e.key);
      AdditionKeepsCoherentIff(h, t, e);
      if Single(t.slots, e.key) { AdditionKeepsSingle(h, t, e); }
    } else {
      CoherentAddition(h, t, e, e.key);
      AbsentHasNoCopy(h, t, e.key);
    }
  }

  lemma AbsentHasNoCopy(h: Hash, t: Table, k: Key)
    requires Coherent(h, t) && k != ZERO
    ensures Find(h, t.polys, t.slots, k) == None <==> forall i :: 0 <= i < SIZE ==> t.slots[i].key != k
  {
  }

  // The effect of an addition of an address that has no copy depends on the lookups alone.
  lemma SameEffect(h: Hash, t: Table, t': Table, e: Entry, u: Table)
    requires Coherent(h, t) && Coherent(h, t') && WellFormed(u) && !Empty(e)
    requires forall k :: Find(h, t'.polys, t'.slots, k) == Find(h, t.polys, t.slots, k)
    requires (forall i :: 0 <= i < SIZE ==> t.slots[i].key != e.key) && Effect(h, t', e, u)
    ensures Effect(h, t, e, u)
  {
  }

  lemma {:induction false} AddLoopKeeps(h: Hash, s: Mac, e: Entry, refills: nat, retries: nat, doMemcpy: bool)
    requires Coherent(h, s.active) && Coherent(h, s.backup) && !Empty(e)
    requires doMemcpy || s.active == s.backup
    requires forall k :: Find(h, s.backup.polys, s.backup.slots, k) == Find(h, s.active.polys, s.active.slots, k)
    ensures var r := AddLoop(h, s, e, refills, retries, doMemcpy);
            r.Some? ==> r.value.active == r.value.backup && Effect(h, s.backup, e, r.value.active)
    decreases refills
  {
    hide Insert, InsertLoop, Refill, Find, Effect;
    InsertEffect(h, s.backup, e);
    var (b1, ok) := Insert(h, s.backup, e, false);
    if !ok && refills > 0 {
      RefillFinds(h, s.active, b1, retries);
      var r := Refill(h, s.active, b1, retries);
      if r.Some? {
        var s' := s.(backup := r.value);
        AddLoopKeeps(h, s', e, refills - 1, retries, true);
        var r' := AddLoop(h, s', e, refills - 1, retries, true);
        if r'.Some? { SameEffect(h, s.backup, r.value, e, r'.value.active); }
      }
    }
  }

  /** Adding, with any number of refills of any number of passes: the tables end identical,
      and exactly the one address has changed, as it should unless it lies in both its
      slots. */
  lemma AddKeeps(h: Hash, s: Mac, c: int, hp: bool, k: Key, appdata: int, refills: nat, retries: nat)
    requires InSync(h, s) && k != ZERO
    ensures var r := AddEntry(h, s, c, hp, k, appdata, refills, retries);
            r.Some? ==>
              && r.value.active == r.value.backup && Effect(h, s.active, NewEntry(c, hp, k, appdata), r.value.active)
              && (Single(s.active.slots, k) ==> InSync(h, r.value))
  {
    AddLoopKeeps(h, s, NewEntry(c, hp, k, appdata), refills, retries, false);
  }

  /** No refill is needed for an address that is there, for one whose first slot is free, or for
      one for which the walk of evictions ends in time; and with none, the polynomials stay. */
  lemma AddsAtOnce(h: Hash, s: Mac, c: int, hp: bool, k: Key, appdata: int, refills: nat, retries: nat)
    requires InSync(h, s) && k != ZERO
    requires var t := s.active; var e := NewEntry(c, hp, k, appdata);
             || Find(h, t.polys, t.slots, k) != None || t.slots[Slot(h, t.polys, k, 0)].key == ZERO
             || exists n: nat :: n < t.num + 9 && Ends(WalkTo(h, t.polys, t.slots, e, 1, n))
    ensures var r := AddEntry(h, s, c, hp, k, appdata, refills, retries);
            r.Some? && r.value.active.polys == s.active.polys
  {
    hide WalkTo, InsertLoop, Find, Refill;
    InsertSucceedsIff(h, s.backup, NewEntry(c, hp, k, appdata), false);
    CoherentAddition(h, s.backup, NewEntry(c, hp, k, appdata), k);
  }

  /** Deleting: the second deletion, on the other table, makes the tables identical again;
      the word of the one address changes as it should unless it lies in both its slots. */
  lemma DeleteKeeps(h: Hash, s: Mac, c: int, hp: bool, k: Key, x: Key)
    requires InSync(h, s) && IsClient(c)
    ensures var r := Delete(h, s, c, hp, k); var was := Lookup(h, s.active, k);
            && r.active == r.backup && (InSync(h, r) <==> Single(s.active.slots, k) || Deleted(was, c, hp) == was)
            && Lookup(h, r.active, x)
               == (if x == k && !Doubled(h, s.active, k) then Deleted(was, c, hp) else Lookup(h, s.active, x))
  {
    CoherentDeletion(h, s.active, s.backup, c, hp, k, x);
  }

  /** Adding a client to an address and deleting it again restores the filter, for this and
      every other address, exactly when the client had not asked before. */
  lemma AddThenDelete(h: Hash, s: Mac, c: int, hp: bool, a: Addr, appdata: int, refills: nat, retries: nat, b: Addr)
    requires InSync(h, s) && IsClient(c) && KeyOf(a) != ZERO && Single(s.active.slots, KeyOf(a))
    requires var was := Lookup(h, s.active, KeyOf(a));
             was == {} || (IsHp(was) == hp && exists d :: d in was && d != PRIORITY)
    ensures var r := AddEntry(h, s, c, hp, KeyOf(a), appdata, refills, retries);
            r.Some? ==>
              var u := Delete(h, r.value, c, hp, KeyOf(a));
              (Lookup(h, u.active, KeyOf(b)) == Lookup(h, s.active, KeyOf(b)) <==>
                a != b || c !in Lookup(h, s.active, KeyOf(a)))
  {
    hide AddEntry, Delete, Find, Deleted;
    var k := KeyOf(a);
    AddKeeps(h, s, c, hp, k, appdata, refills, retries);
    var r := AddEntry(h, s, c, hp, k, appdata, refills, retries);
    if r.Some? {
      DeleteKeeps(h, r.value, c, hp, k, KeyOf(b));
      DeleteUndoesAdd(Lookup(h, s.active, k), c, hp);
      if KeyOf(a) == KeyOf(b) { KeyOfInjective(a, b); }
    }
  }

  /** Clearing leaves two identical tables in which nothing is found. */
  lemma ClearKeeps(h: Hash, s: Mac, x: Key)
    requires InSync(h, s)
    ensures InSync(h, ClearBoth(s)) && Lookup(h, ClearBoth(s).active, x) == {}
  {
  }

  // ------------------------------------------------------------------------------
  // Agreement
  // ------------------------------------------------------------------------------

  datatype Op = Add(c: int, hp: bool, k: Key, appdata: int) | Del(c: int, hp: bool, k: Key)

  datatype Both = Both(linear: seq<Linear.Entry>, mac: Mac)

  // Both filters give the same words.
  ghost predicate SameWords(h: Hash, s: Both)
    requires WellFormed(s.mac.active)
  {
    forall k :: k != ZERO ==> Linear.Filter(s.linear, k) == Lookup(h, s.mac.active, k)
  }

  ghost predicate Agree(h: Hash, s: Both) {
    InSync(h, s.mac) && Linear.Distinct(s.linear) && SameWords(h, s)
  }

  lemma AgreeIsWellFormed(h: Hash, s: Both)
    requires Agree(h, s)
    ensures WellFormed(s.mac.active) && WellFormed(s.mac.backup)
  {
  }

  predicate Proper(op: Op) {
    op.k != ZERO && IsClient(op.c)
  }

  // The linear table takes the operation: it has room for a new address, and an address
  // in use keeps its priority.
  predicate Served(t: seq<Linear.Entry>, op: Op) {
    op.Add? ==> Linear.Add(t, op.c, op.hp, op.k, op.appdata).1 == Linear.Success
  }

  // The operation names an address that has one copy at most in the hash table, or changes
  // nothing there; and the linear table takes it, or it would change nothing there.
  ghost predicate Fitting(h: Hash, s: Both, op: Op)
    requires WellFormed(s.mac.active)
  {
    var word := Lookup(h, s.mac.active, op.k);
    match op
    case Add(c, hp, k, appdata) =>
      && (Single(s.mac.active.slots, k) || Unchanged(h, s.mac.active, NewEntry(c, hp, k, appdata)))
      && (Served(s.linear, op) || Added(word, c, hp) == word)
    case Del(c, hp, k) => Single(s.mac.active.slots, k) || Deleted(word, c, hp) == word
  }

  // One operation on both filters; None if the hash table needs more refills, or one
  // with more passes.
  function Step(h: Hash, s: Both, op: Op, refills: nat, retries: nat): (r: Option<Both>)
    requires WellFormed(s.mac.active) && WellFormed(s.mac.backup)
    ensures r.Some? ==> WellFormed(r.value.mac.active) && WellFormed(r.value.mac.backup)
  {
    match op
    case Add(c, hp, k, appdata) =>
      var r := AddEntry(h, s.mac, c, hp, k, appdata, refills, retries);
      if r == None then None else Some(Both(Linear.Add(s.linear, c, hp, k, appdata).0, r.value))
    case Del(c, hp, k) =>
      Some(Both(Linear.Delete(s.linear, c, hp, k), Delete(h, s.mac, c, hp, k)))
  }

  /** After an addition the filters agree exactly when it changes nothing, or both or neither
      took it: the linear table does if it has room and the priority is the same, the hash
      table does unless the address lies in both its slots. They agree and the copies are in
      order exactly when the addition is fitting. */
  lemma AddAgreesIff(h: Hash, s: Both, op: Op, refills: nat, retries: nat)
    requires Agree(h, s) && Proper(op) && op.Add?
    ensures var r := Step(h, s, op, refills, retries);
            var was := Lookup(h, s.mac.active, op.k);
            r.Some? ==>
              && (SameWords(h, r.value) <==>
                    Added(was, op.c, op.hp) == was || (Served(s.linear, op) <==> !Doubled(h, s.mac.active, op.k)))
              && (Agree(h, r.value) <==> Fitting(h, s, op))
  {
    hide AddEntry, Lookup, Linear.Distinct, Linear.Filter, Linear.Add, Added, Coherent, Effect, Single, Unchanged;
    AgreeIsWellFormed(h, s);
    var r := Step(h, s, op, refills, retries);
    if r.Some? {
      var (u, res) := Linear.Add(s.linear, op.c, op.hp, op.k, op.appdata);
      var doubled := Doubled(h, s.mac.active, op.k);
      AddKeeps(h, s.mac, op.c, op.hp, op.k, op.appdata, refills, retries);
      forall x | x != ZERO
        ensures Lookup(h, r.value.mac.active, x)
          == (if x == op.k && !doubled then Added(Lookup(h, s.mac.active, x), op.c, op.hp)
              else Lookup(h, s.mac.active, x))
        ensures Linear.Filter(u, x) == (if res == Linear.Success && x == op.k
          then Added(Linear.Filter(s.linear, op.k), op.c, op.hp) else Linear.Filter(s.linear, x))
      {
        EffectAt(h, s.mac.active, op, r.value.mac.active, x);
        Linear.AddRefines(s.linear, op.c, op.hp, op.k, op.appdata, x);
      }
      Linear.AddRefines(s.linear, op.c, op.hp, op.k, op.appdata, op.k);
      var e := NewEntry(op.c, op.hp, op.k, op.appdata);
      EffectCoherent(h, s.mac.active, e, r.value.mac.active);
      if Single(s.mac.active.slots, op.k) { SingleIsNotDoubled(h, s.mac.active, op.k); }
      if Unchanged(h, s.mac.active, e) { UnchangedWord(h, s.mac.active, op); }
    }
  }

  lemma EffectAt(h: Hash, t: Table, op: Op, u: Table, x: Key)
    requires WellFormed(t) && WellFormed(u) && op.Add? && Effect(h, t, NewEntry(op.c, op.hp, op.k, op.appdata), u)
    ensures Lookup(h, u, x) == if x == op.k && !Doubled(h, t, op.k) then Added(Lookup(h, t, x), op.c, op.hp)
            else Lookup(h, t, x)
  {
  }

  lemma SingleIsNotDoubled(h: Hash, t: Table, k: Key)
    requires WellFormed(t) && Single(t.slots, k)
    ensures !Doubled(h, t, k)
  {
  }

  lemma UnchangedWord(h: Hash, t: Table, op: Op)
    requires WellFormed(t) && op.Add? && Unchanged(h, t, NewEntry(op.c, op.hp, op.k, op.appdata))
    ensures Added(Lookup(h, t, op.k), op.c, op.hp) == Lookup(h, t, op.k)
  {
  }

  lemma EffectCoherent(h: Hash, t: Table, e: Entry, u: Table)
    requires WellFormed(t) && WellFormed(u) && Effect(h, t, e, u)
    ensures Coherent(h, u) <==> Single(t.slots, e.key) || Unchanged(h, t, e)
  {
  }

  /** After a deletion they agree exactly when it changes nothing, or the address does not lie
      in both its slots. They agree and the copies are in order exactly when the deletion is
      fitting. */
  lemma DelAgreesIff(h: Hash, s: Both, op: Op, refills: nat, retries: nat)
    requires Agree(h, s) && Proper(op) && op.Del?
    ensures var r := Step(h, s, op, refills, retries);
            var was := Lookup(h, s.mac.active, op.k);
            && r.Some?
            && (SameWords(h, r.value) <==> Deleted(was, op.c, op.hp) == was || !Doubled(h, s.mac.active, op.k))
            && (Agree(h, r.value) <==> Fitting(h, s, op))
  {
    hide Delete, Lookup, Linear.Distinct, Linear.Filter, Linear.Delete, Deleted, Coherent;
    AgreeIsWellFormed(h, s);
    var r := Step(h, s, op, refills, retries).value;
    var doubled := Doubled(h, s.mac.active, op.k);
    forall x | x != ZERO
      ensures Lookup(h, r.mac.active, x)
        == (if x == op.k && !doubled then Deleted(Lookup(h, s.mac.active, x), op.c, op.hp)
            else Lookup(h, s.mac.active, x))
      ensures Linear.Filter(r.linear, x)
        == (if x == op.k then Deleted(Linear.Filter(s.linear, x), op.c, op.hp) else Linear.Filter(s.linear, x))
    {
      DeleteKeeps(h, s.mac, op.c, op.hp, op.k, x);
      Linear.DeleteRefines(s.linear, op.c, op.hp, op.k, x);
    }
    DeleteKeeps(h, s.mac, op.c, op.hp, op.k, op.k);
    Linear.DeleteRefines(s.linear, op.c, op.hp, op.k, op.k);
    if Single(s.mac.active.slots, op.k) { SingleIsNotDoubled(h, s.mac.active, op.k); }
  }

  // A run the hash table gets through.
  predicate Runs(h: Hash, s: Both, ops: seq<Op>, refills: nat, retries: nat)
    requires WellFormed(s.mac.active) && WellFormed(s.mac.backup)
    decreases |ops|
  {
    ops == [] ||
    (&& Proper(ops[0])
     && var r := Step(h, s, ops[0], refills, retries);
        r.Some? && Runs(h, r.value, ops[1..], refills, retries))
  }

  function After(h: Hash, s: Both, ops: seq<Op>, refills: nat, retries: nat): (r: Both)
    requires WellFormed(s.mac.active) && WellFormed(s.mac.backup) && Runs(h, s, ops, refills, retries)
    ensures WellFormed(r.mac.active) && WellFormed(r.mac.backup)
    decreases |ops|
  {
    if ops == [] then s else After(h, Step(h, s, ops[0], refills, retries).value, ops[1..], refills, retries)
  }

  // After every operation of the run the filters agree and all copies are in order.
  ghost predicate AgreesThroughout(h: Hash, s: Both, ops: seq<Op>, refills: nat, retries: nat)
    requires WellFormed(s.mac.active) && WellFormed(s.mac.backup) && Runs(h, s, ops, refills, retries)
    decreases |ops|
  {
    ops == [] ||
    var r := Step(h, s, ops[0], refills, retries).value;
    Agree(h, r) && AgreesThroughout(h, r, ops[1..], refills, retries)
  }

  ghost predicate AllFitting(h: Hash, s: Both, ops: seq<Op>, refills: nat, retries: nat)
    requires WellFormed(s.mac.active) && WellFormed(s.mac.backup) && Runs(h, s, ops, refills, retries)
    decreases |ops|
  {
    ops == [] ||
    (&& Fitting(h, s, ops[0])
     && AllFitting(h, Step(h, s, ops[0], refills, retries).value, ops[1..], refills, retries))
  }

  // The linear table takes every operation of the run.
  predicate AllServed(h: Hash, s: Both, ops: seq<Op>, refills: nat, retries: nat)
    requires WellFormed(s.mac.active) && WellFormed(s.mac.backup) && Runs(h, s, ops, refills, retries)
    decreases |ops|
  {
    ops == [] ||
    (&& Served(s.linear, ops[0])
     && AllServed(h, Step(h, s, ops[0], refills, retries).value, ops[1..], refills, retries))
  }

  // No operation of the run names an address that has several copies.
  predicate Tidy(h: Hash, s: Both, ops: seq<Op>, refills: nat, retries: nat)
    requires WellFormed(s.mac.active) && WellFormed(s.mac.backup) && Runs(h, s, ops, refills, retries)
    decreases |ops|
  {
    ops == [] ||
    (&& Single(s.mac.active.slots, ops[0].k)
     && Tidy(h, Step(h, s, ops[0], refills, retries).value, ops[1..], refills, retries))
  }

  lemma StepAgreesIff(h: Hash, s: Both, op: Op, refills: nat, retries: nat)
    requires Agree(h, s) && Proper(op)
    ensures var r := Step(h, s, op, refills, retries); r.Some? ==> (Agree(h, r.value) <==> Fitting(h, s, op))
  {
    hide Agree, Fitting, SameWords;
    AgreeIsWellFormed(h, s);
    if op.Add? { AddAgreesIff(h, s, op, refills, retries); } else { DelAgreesIff(h, s, op, refills, retries); }
  }

  /** Over every sequence of additions and deletions, with refills of any number of passes: the
      hash table and the linear table give the same result word for every address after each
      operation, with all copies in order, exactly when every operation is fitting. */
  lemma {:induction false} RunAgreesIff(h: Hash, s: Both, ops: seq<Op>, refills: nat, retries: nat)
    requires Agree(h, s) && Runs(h, s, ops, refills, retries)
    ensures AgreesThroughout(h, s, ops, refills, retries) <==> AllFitting(h, s, ops, refills, retries)
    ensures AllFitting(h, s, ops, refills, retries) ==> Agree(h, After(h, s, ops, refills, retries))
    decreases |ops|
  {
    hide Agree, Step, Fitting;
    AgreeIsWellFormed(h, s);
    if ops != [] {
      StepAgreesIff(h, s, ops[0], refills, retries);
      var r := Step(h, s, ops[0], refills, retries).value;
      if Agree(h, r) { RunAgreesIff(h, r, ops[1..], refills, retries); }
    }
  }

  /** So they agree in the end if the linear table takes every operation and none names an
      address with several copies. */
  lemma {:induction false} RunAgrees(h: Hash, s: Both, ops: seq<Op>, refills: nat, retries: nat)
    requires Agree(h, s) && Runs(h, s, ops, refills, retries)
    requires AllServed(h, s, ops, refills, retries) && Tidy(h, s, ops, refills, retries)
    ensures AllFitting(h, s, ops, refills, retries) && Agree(h, After(h, s, ops, refills, retries))
    decreases |ops|
  {
    hide Agree, Step, Single;
    AgreeIsWellFormed(h, s);
    if ops != [] {
      StepAgreesIff(h, s, ops[0], refills, retries);
      RunAgrees(h, Step(h, s, ops[0], refills, retries).value, ops[1..], refills, retries);
    }
  }

  lemma {:induction false} AddLoopKeepsCuckoo(h: Hash, s: Mac, e: Entry, refills: nat, doMemcpy: bool)
    requires Inv(h, s.active) && Inv(h, s.backup) && !Empty(e)
    ensures var r := AddLoop(h, s, e, refills, 0, doMemcpy); r.Some? ==> Inv(h, r.value.active)
    decreases refills
  {
    hide Cuckoo, Insert, Refill;
    InsertRefines(h, s.backup, e, false, ZERO);
    var (b1, ok) := Insert(h, s.backup, e, false);
    if !ok && refills > 0 {
      FirstPassIsCuckoo(h, s.active, b1);
      var r := Refill(h, s.active, b1, 0);
      if r.Some? { AddLoopKeepsCuckoo(h, s.(backup := r.value), e, refills - 1, true); }
    }
  }

  /** No operation names an address with several copies in a run that the linear table takes and
      whose refills each succeed in their first pass. */
  lemma {:induction false} FirstPassRunsAreTidy(h: Hash, s: Both, ops: seq<Op>, refills: nat)
    requires Agree(h, s) && Inv(h, s.mac.active) && Runs(h, s, ops, refills, 0) && AllServed(h, s, ops, refills, 0)
    ensures Tidy(h, s, ops, refills, 0)
    decreases |ops|
  {
    hide SameWords, Cuckoo, DeleteEntry, AddLoop;
    if ops != [] {
      var op, r := ops[0], Step(h, s, ops[0], refills, 0).value;
      CuckooIsCoherent(h, s.mac.active);
      if op.Add? {
        AddLoopKeepsCuckoo(h, s.mac, NewEntry(op.c, op.hp, op.k, op.appdata), refills, false);
        AddAgreesIff(h, s, op, refills, 0);
      } else {
        MacHash.DeleteRefines(h, s.mac.active, s.mac.backup, op.c, op.hp, op.k, op.k);
        DelAgreesIff(h, s, op, refills, 0);
      }
      FirstPassRunsAreTidy(h, r, ops[1..], refills);
    }
  }

  /** From two cleared hash tables and an initialised linear table. */
  lemma InitAgrees(h: Hash, t: Table, linear: seq<Linear.Entry>)
    requires WellFormed(t) && forall i :: 0 <= i < |linear| ==> linear[i].result == {}
    ensures Agree(h, Both(linear, Mac(Clear(t), Clear(t)))) && Inv(h, Clear(t))
  {
    forall k ensures Linear.Filter(linear, k) == {} { Linear.FilterFinds(linear, k); }
  }
}
