/** The cuckoo hash table of macaddr_filter_hash.c: insertion with eviction, lookup,
    deletion and refill, for an arbitrary hash function, and what each means for the map
    from addresses to words the table stands for. */
module MacHash {
  import opened Wrappers
  import opened MacFilter

  const SIZE := 256

  type Hash = h: (Key, int) -> int | forall k, p :: 0 <= h(k, p) < SIZE
    witness (k: Key, p: int) => 0

  datatype Entry = Entry(key: Key, result: Word, appdata: int)

  type Slots = es: seq<Entry> | |es| == SIZE
    witness seq(SIZE, _ => Entry(ZERO, {}, 0))

  datatype Table = Table(polys: seq<int>, num: nat, slots: Slots)

  predicate WellFormed(t: Table) {
    |t.polys| == 2
  }

  predicate Empty(e: Entry) {
    e.key == ZERO
  }

  const FIRST_POLYS := [0xedb88320, 0xba75fe21]

  function Clear(t: Table): Table {
    Table(FIRST_POLYS, 0, seq(SIZE, i requires 0 <= i < SIZE => t.slots[i].(key := ZERO)))
  }

  // ------------------------------------------------------------------------------
  // The calls
  // ------------------------------------------------------------------------------

  function Slot(h: Hash, polys: seq<int>, k: Key, hashtype: int): (i: int)
    requires |polys| == 2 && (hashtype == 0 || hashtype == 1)
    ensures 0 <= i < SIZE
  {
    h(k, polys[hashtype])
  }

  // mii_macaddr_hash_lookup, with the entry it finds instead of its two words.
  function Find(h: Hash, polys: seq<int>, es: Slots, k: Key): Option<Entry>
    requires |polys| == 2
  {
    if k == ZERO then None
    else
      var x, y := Slot(h, polys, k, 0), Slot(h, polys, k, 1);
      if es[y].key == k then Some(es[y])
      else if es[x].key == k then Some(es[x])
      else None
  }

  function WordOf(e: Option<Entry>): Word {
    if e.Some? then e.value.result else {}
  }

  function Lookup(h: Hash, t: Table, k: Key): Word
    requires WellFormed(t)
  {
    WordOf(Find(h, t.polys, t.slots, k))
  }

  // What is written over an empty slot or one with the same address.
  function Merged(e: Entry, current: Entry, setNotOr: bool): Entry {
    Entry(current.key, if setNotOr || Empty(e) then current.result else e.result + current.result, current.appdata)
  }

  // The slots, and the entry still to be placed if the loop gave up.
  datatype Placed = Placed(slots: Slots, left: Option<Entry>)

  // The loop of insert, from its count-th turn on.
  function InsertLoop(h: Hash, polys: seq<int>, es: Slots, current: Entry, hashtype: int, setNotOr: bool,
                      count: nat, limit: nat): Placed
    requires |polys| == 2 && (hashtype == 0 || hashtype == 1) && count < limit
    decreases limit - count
  {
    var index := Slot(h, polys, current.key, hashtype);
    if Empty(es[index]) || es[index].key == current.key then
      Placed(es[index := Merged(es[index], current, setNotOr)], None)
    else if count == 0 then
      if count + 1 < limit then InsertLoop(h, polys, es, current, 1 - hashtype, setNotOr, count + 1, limit)
      else Placed(es, Some(current))
    else
      var es' := es[index := current];
      if count + 1 < limit then InsertLoop(h, polys, es', es[index], 1 - hashtype, true, count + 1, limit)
      else Placed(es', Some(es[index]))
  }

  function Insert(h: Hash, t: Table, e: Entry, setNotOr: bool): (r: (Table, bool))
    requires WellFormed(t)
    ensures WellFormed(r.0) && r.0.polys == t.polys
  {
    var p := InsertLoop(h, t.polys, t.slots, e, 0, setNotOr, 0, t.num + 10);
    if p.left == None then (t.(slots := p.slots, num := t.num + 1), true)
    else (t.(slots := p.slots), false)
  }

  function DeleteEntry(h: Hash, active: Table, backup: Table, c: int, hp: bool, k: Key): (r: (Table, bool))
    requires WellFormed(active) && WellFormed(backup)
    ensures WellFormed(r.0) && r.0.polys == backup.polys
  {
    if k == ZERO then (backup, false)
    else
      var x0 := Slot(h, backup.polys, k, 0);
      var x := if backup.slots[x0].key != k then Slot(h, active.polys, k, 1) else x0;
      var e := backup.slots[x];
      if e.key != k then (backup, false)
      else if IsHp(e.result) != hp then (backup, false)
      else
        var r := e.result - {c};
        (backup.(slots := backup.slots[x := e.(result := if hp && Interfaces(r) == {} then {} else r)]), true)
  }

  // ------------------------------------------------------------------------------
  // Well-formed tables
  // ------------------------------------------------------------------------------

  // Every occupied slot is one of the two of its address, no address occurs twice, and
  // the first slot of every address in the table is occupied.
  ghost predicate Cuckoo(h: Hash, polys: seq<int>, es: Slots)
    requires |polys| == 2
  {
    && (forall i :: 0 <= i < SIZE && !Empty(es[i]) ==>
          i == Slot(h, polys, es[i].key, 0) || i == Slot(h, polys, es[i].key, 1))
    && (forall i, j :: 0 <= i < j < SIZE && !Empty(es[i]) && !Empty(es[j]) ==> es[i].key != es[j].key)
    && (forall i :: 0 <= i < SIZE && !Empty(es[i]) ==> !Empty(es[Slot(h, polys, es[i].key, 0)]))
  }

  ghost predicate Inv(h: Hash, t: Table) {
    WellFormed(t) && Cuckoo(h, t.polys, t.slots)
  }

  // An entry that has been evicted, or found no slot, and is still to be placed.
  ghost predicate Carried(h: Hash, polys: seq<int>, es: Slots, e: Entry)
    requires |polys| == 2
  {
    && !Empty(e) && (forall i :: 0 <= i < SIZE ==> es[i].key != e.key)
    && !Empty(es[Slot(h, polys, e.key, 0)])
  }

  // What is found in the slots or carried.
  ghost function FindOr(h: Hash, polys: seq<int>, es: Slots, e: Option<Entry>, k: Key): Option<Entry>
    requires |polys| == 2
  {
    if e.Some? && k == e.value.key then e else Find(h, polys, es, k)
  }

  // In a cuckoo table an address is found exactly when it occurs.
  lemma FindsAll(h: Hash, polys: seq<int>, es: Slots, k: Key)
    requires |polys| == 2 && Cuckoo(h, polys, es) && k != ZERO
    ensures forall i :: 0 <= i < SIZE && es[i].key == k ==> Find(h, polys, es, k) == Some(es[i])
    ensures (forall i :: 0 <= i < SIZE ==> es[i].key != k) <==> Find(h, polys, es, k) == None
  {
  }

  // Placing a carried entry over an empty slot of its own, or evicting another entry.
  lemma PlaceCarried(h: Hash, polys: seq<int>, es: Slots, e: Entry, hashtype: int)
    requires |polys| == 2 && Cuckoo(h, polys, es) && Carried(h, polys, es, e) && (hashtype == 0 || hashtype == 1)
    ensures var i := Slot(h, polys, e.key, hashtype); var es' := es[i := e];
            && Cuckoo(h, polys, es')
            && (!Empty(es[i]) ==> Carried(h, polys, es', es[i]))
  {
  }

  lemma PlacedFinds(h: Hash, polys: seq<int>, es: Slots, e: Entry, hashtype: int, k: Key)
    requires |polys| == 2 && Cuckoo(h, polys, es) && Carried(h, polys, es, e) && (hashtype == 0 || hashtype == 1)
    ensures var i := Slot(h, polys, e.key, hashtype); var es' := es[i := e];
            FindOr(h, polys, es', if Empty(es[i]) then None else Some(es[i]), k) == FindOr(h, polys, es, Some(e), k)
  {
  }

  /** The eviction loop: whatever it moves, the slots and the entry it carries hold what
      they held before. If it gives up, exactly the entry it carries is missing. */
  lemma {:induction false} EvictionKeeps(h: Hash, polys: seq<int>, es: Slots, e: Entry, hashtype: int, count: nat,
                                         limit: nat, k: Key)
    requires |polys| == 2 && Cuckoo(h, polys, es) && Carried(h, polys, es, e)
    requires (hashtype == 0 || hashtype == 1) && 0 < count < limit
    ensures var p := InsertLoop(h, polys, es, e, hashtype, true, count, limit);
            && Cuckoo(h, polys, p.slots)
            && (p.left.Some? ==> Carried(h, polys, p.slots, p.left.value))
            && FindOr(h, polys, p.slots, p.left, k) == FindOr(h, polys, es, Some(e), k)
    decreases limit - count
  {
    var i := Slot(h, polys, e.key, hashtype);
    PlaceCarried(h, polys, es, e, hashtype);
    PlacedFinds(h, polys, es, e, hashtype, k);
    if Empty(es[i]) {
      assert Merged(es[i], e, true) == e;
    } else if count + 1 < limit {
      EvictionKeeps(h, polys, es[i := e], es[i], 1 - hashtype, count + 1, limit, k);
    }
  }

  // What an insertion is to leave at address k.
  ghost function Wanted(h: Hash, t: Table, e: Entry, setNotOr: bool, k: Key): Option<Entry>
    requires WellFormed(t)
  {
    var was := Find(h, t.polys, t.slots, k);
    if k != e.key then was
    else Some(e.(result := if was.Some? && !setNotOr then was.value.result + e.result else e.result))
  }

  // Overwriting the slot of an address that is in the table.
  lemma MergeKeeps(h: Hash, polys: seq<int>, es: Slots, e: Entry, n: Entry, i: int, k: Key)
    requires |polys| == 2 && Cuckoo(h, polys, es) && 0 <= i < SIZE && es[i].key == e.key != ZERO && n.key == e.key
    ensures Cuckoo(h, polys, es[i := n])
    ensures Find(h, polys, es[i := n], k) == if k == e.key then Some(n) else Find(h, polys, es, k)
  {
  }

  // An address that is absent and whose first slot is free goes there.
  lemma PlaceFirst(h: Hash, polys: seq<int>, es: Slots, e: Entry, k: Key)
    requires |polys| == 2 && Cuckoo(h, polys, es) && !Empty(e) && Empty(es[Slot(h, polys, e.key, 0)])
    ensures var es' := es[Slot(h, polys, e.key, 0) := e];
            && Find(h, polys, es, e.key) == None && Cuckoo(h, polys, es')
            && Find(h, polys, es', k) == if k == e.key then Some(e) else Find(h, polys, es, k)
  {
  }

  /** Insertion of a non-zero address. On success the address has the new word, or-ed with
      its old one if asked to, and every other address what it had. On failure the address
      was not in the table, and of the old entries and the new one exactly one is missing. */
  lemma InsertRefines(h: Hash, t: Table, e: Entry, setNotOr: bool, k: Key)
    requires Inv(h, t) && !Empty(e)
    ensures var (t', ok) := Insert(h, t, e, setNotOr);
            var p := InsertLoop(h, t.polys, t.slots, e, 0, setNotOr, 0, t.num + 10);
            && Inv(h, t')
            && (ok ==> Find(h, t'.polys, t'.slots, k) == Wanted(h, t, e, setNotOr, k))
            && (!ok ==>
                  && Find(h, t.polys, t.slots, e.key) == None
                  && p.left.Some? && Carried(h, t.polys, t'.slots, p.left.value)
                  && FindOr(h, t'.polys, t'.slots, p.left, k) == Wanted(h, t, e, setNotOr, k))
  {
    var polys, es := t.polys, t.slots;
    var limit := t.num + 10;
    var x, y := Slot(h, polys, e.key, 0), Slot(h, polys, e.key, 1);
    if Empty(es[x]) {
      PlaceFirst(h, polys, es, e, k);
      assert Merged(es[x], e, setNotOr) == e;
    } else if es[x].key == e.key {
      MergeKeeps(h, polys, es, e, Merged(es[x], e, setNotOr), x, k);
      FindsAll(h, polys, es, e.key);
    } else {
      assert InsertLoop(h, polys, es, e, 0, setNotOr, 0, limit) == InsertLoop(h, polys, es, e, 1, setNotOr, 1, limit);
      InsertSecond(h, t, e, setNotOr, k);
    }
  }

  // The second turn, once the first slot is found to hold another address.
  lemma InsertSecond(h: Hash, t: Table, e: Entry, setNotOr: bool, k: Key)
    requires Inv(h, t) && !Empty(e)
    requires var x := Slot(h, t.polys, e.key, 0); !Empty(t.slots[x]) && t.slots[x].key != e.key
    ensures var p := InsertLoop(h, t.polys, t.slots, e, 1, setNotOr, 1, t.num + 10);
            && Cuckoo(h, t.polys, p.slots)
            && FindOr(h, t.polys, p.slots, p.left, k) == Wanted(h, t, e, setNotOr, k)
            && (p.left.Some? ==> Find(h, t.polys, t.slots, e.key) == None && Carried(h, t.polys, p.slots, p.left.value))
  {
    var polys, es := t.polys, t.slots;
    var limit := t.num + 10;
    var y := Slot(h, polys, e.key, 1);
    FindsAll(h, polys, es, e.key);
    if es[y].key == e.key {
      MergeKeeps(h, polys, es, e, Merged(es[y], e, setNotOr), y, k);
    } else {
      assert forall j :: 0 <= j < SIZE ==> es[j].key != e.key;
      assert Carried(h, polys, es, e);
      PlaceCarried(h, polys, es, e, 1);
      PlacedFinds(h, polys, es, e, 1, k);
      if Empty(es[y]) {
        assert Merged(es[y], e, setNotOr) == e;
      } else {
        EvictionKeeps(h, polys, es[y := e], es[y], 0, 2, limit, k);
      }
    }
  }

  /** An address that is in the table is never refused. */
  lemma PresentNeverFails(h: Hash, t: Table, e: Entry, setNotOr: bool)
    requires Inv(h, t) && Find(h, t.polys, t.slots, e.key) != None
    ensures Insert(h, t, e, setNotOr).1
  {
    InsertRefines(h, t, e, setNotOr, e.key);
  }

  /** Deletion with two tables of the same polynomials: the word of the one address changes
      as it should; nothing is done for an address that is absent or has another priority. */
  lemma DeleteRefines(h: Hash, active: Table, backup: Table, c: int, hp: bool, k: Key, x: Key)
    requires Inv(h, backup) && WellFormed(active) && active.polys == backup.polys && IsClient(c)
    ensures var (t', ok) := DeleteEntry(h, active, backup, c, hp, k);
            && Inv(h, t')
            && (ok <==> Find(h, backup.polys, backup.slots, k) != None && IsHp(Lookup(h, backup, k)) == hp)
            && Lookup(h, t', x) == (if x == k then Deleted(Lookup(h, backup, k), c, hp) else Lookup(h, backup, x))
            && (!ok ==> t' == backup)
  {
    if k != ZERO {
      var polys, es := backup.polys, backup.slots;
      FindsAll(h, polys, es, k);
      var x0 := Slot(h, polys, k, 0);
      var i := if es[x0].key != k then Slot(h, polys, k, 1) else x0;
      if es[i].key == k {
        var (t', ok) := DeleteEntry(h, active, backup, c, hp, k);
        if ok { MergeKeeps(h, polys, es, es[i], t'.slots[i], i, x); }
      }
    }
  }

  // ------------------------------------------------------------------------------
  // When an insertion succeeds
  // ------------------------------------------------------------------------------

  // The slots, the entry carried and the slot it is to go to next, after so many evictions.
  datatype Walk = Walk(slots: Slots, carried: Entry, next: int)

  // Every evicted entry goes to its slot of the other kind than the one its evictor went to.
  function WalkTo(h: Hash, polys: seq<int>, es: Slots, e: Entry, hashtype: int, n: nat): (w: Walk)
    requires |polys| == 2 && (hashtype == 0 || hashtype == 1)
    ensures 0 <= w.next < SIZE
    decreases n
  {
    var i := Slot(h, polys, e.key, hashtype);
    if n == 0 then Walk(es, e, i) else WalkTo(h, polys, es[i := e], es[i], 1 - hashtype, n - 1)
  }

  // The slot is free for the entry carried.
  predicate Ends(w: Walk)
    requires 0 <= w.next < SIZE
  {
    w.slots[w.next].key == ZERO || w.slots[w.next].key == w.carried.key
  }

  ghost predicate EndsAt(h: Hash, polys: seq<int>, es: Slots, e: Entry, hashtype: int, n: nat)
    requires |polys| == 2 && (hashtype == 0 || hashtype == 1)
  {
    && Ends(WalkTo(h, polys, es, e, hashtype, n))
    && forall i :: 0 <= i < n ==> !Ends(WalkTo(h, polys, es, e, hashtype, i))
  }

  lemma {:induction false} LoopWalks(h: Hash, polys: seq<int>, es: Slots, e: Entry, hashtype: int, setNotOr: bool,
                                     count: nat, limit: nat) returns (n: nat)
    requires |polys| == 2 && (hashtype == 0 || hashtype == 1) && 0 < count < limit
    ensures var p := InsertLoop(h, polys, es, e, hashtype, setNotOr, count, limit);
            if p.left == None then
              && count + n < limit && EndsAt(h, polys, es, e, hashtype, n)
              && var w := WalkTo(h, polys, es, e, hashtype, n);
                 p.slots == w.slots[w.next := Merged(w.slots[w.next], w.carried, setNotOr || n > 0)]
            else
              && (forall i: nat :: count + i < limit ==> !Ends(WalkTo(h, polys, es, e, hashtype, i)))
              && var w := WalkTo(h, polys, es, e, hashtype, limit - count);
                 p.slots == w.slots && p.left == Some(w.carried)
    decreases limit - count
  {
    var i := Slot(h, polys, e.key, hashtype);
    n := 0;
    assert WalkTo(h, polys, es, e, hashtype, 0) == Walk(es, e, i);
    if !(Empty(es[i]) || es[i].key == e.key) {
      var es', d := es[i := e], es[i];
      if count + 1 < limit {
        n := LoopWalks(h, polys, es', d, 1 - hashtype, true, count + 1, limit);
        n := n + 1;
      }
      forall x: nat | x > 0
        ensures WalkTo(h, polys, es, e, hashtype, x) == WalkTo(h, polys, es', d, 1 - hashtype, x - 1) {}
    }
  }

  /** An insertion succeeds at once if the first slot is free or has the address, and otherwise
      exactly when the walk of evictions from the second slot comes to a slot that is free, or
      has the address carried, before num_entries + 9 of them; and it counts itself. */
  lemma InsertSucceedsIff(h: Hash, t: Table, e: Entry, setNotOr: bool)
    requires WellFormed(t)
    ensures var (u, ok) := Insert(h, t, e, setNotOr); var x := Slot(h, t.polys, e.key, 0);
            var atOnce := t.slots[x].key == ZERO || t.slots[x].key == e.key;
            && (atOnce ==> ok && u.slots == t.slots[x := Merged(t.slots[x], e, setNotOr)])
            && (!atOnce ==> (ok <==> exists n: nat :: n < t.num + 9 && Ends(WalkTo(h, t.polys, t.slots, e, 1, n))))
            && u.num == t.num + (if ok then 1 else 0)
  {
    var x := Slot(h, t.polys, e.key, 0);
    if !(t.slots[x].key == ZERO || t.slots[x].key == e.key) {
      assert InsertLoop(h, t.polys, t.slots, e, 0, setNotOr, 0, t.num + 10)
          == InsertLoop(h, t.polys, t.slots, e, 1, setNotOr, 1, t.num + 10);
      var n := LoopWalks(h, t.polys, t.slots, e, 1, setNotOr, 1, t.num + 10);
    }
  }
}
