/** The two static hash tables of macaddr_filter_hash.c and the functions that mutate them
    in place, each proved to do what the function of the same call says. */
module MacHashTables {
  import opened Wrappers
  import opened MacFilter
  import opened MacHash
  import opened MacRefill
  import opened MacAgree

  class HashTable {
    var polys: seq<int>
    var numEntries: nat
    const entries: array<Entry>

    ghost predicate Valid()
      reads this
    {
      |polys| == 2 && entries.Length == SIZE
    }

    ghost function View(): Table
      requires Valid()
      reads this, entries
    {
      Table(polys, numEntries, entries[..])
    }

    constructor ()
      ensures Valid() && fresh(entries) && View() == Clear(View())
      ensures forall i :: 0 <= i < SIZE ==> entries[i] == Entry(ZERO, {}, 0)
    {
      polys, numEntries := FIRST_POLYS, 0;
      entries := new Entry[SIZE](_ => Entry(ZERO, {}, 0));
      new;
      assert entries[..] == Clear(View()).slots;
    }

    // clear_table
    method ClearTable()
      requires Valid()
      modifies this`polys, this`numEntries, entries
      ensures Valid() && View() == Clear(old(View()))
    {
      numEntries := 0;
      for i := 0 to SIZE
        invariant numEntries == 0
        invariant forall j :: 0 <= j < i ==> entries[j] == old(entries[j]).(key := ZERO)
        invariant forall j :: i <= j < SIZE ==> entries[j] == old(entries[j])
      {
        entries[i] := entries[i].(key := ZERO);
      }
      polys := FIRST_POLYS;
      assert entries[..] == Clear(old(View())).slots;
    }

    // mii_macaddr_hash_lookup
    method HashLookup(h: Hash, k: Key, had: int) returns (result: Word, appdata: int)
      requires Valid()
      ensures result == Lookup(h, View(), k)
      ensures var e := Find(h, polys, entries[..], k); appdata == if e.Some? then e.value.appdata else had
    {
      if k == ZERO {
        return {}, had;
      }
      var x, y := h(k, polys[0]), h(k, polys[1]);
      if k == entries[y].key {
        return entries[y].result, entries[y].appdata;
      }
      if k == entries[x].key {
        return entries[x].result, entries[x].appdata;
      }
      return {}, had;
    }
  }

  class HashFilter {
    const hash: Hash
    var hashTable: HashTable
    var backupTable: HashTable

    ghost predicate Valid()
      reads this, hashTable, backupTable
    {
      && hashTable.Valid() && backupTable.Valid()
      && hashTable != backupTable && hashTable.entries != backupTable.entries
    }

    ghost function View(): Mac
      requires Valid()
      reads this, hashTable, backupTable, hashTable.entries, backupTable.entries
    {
      Mac(hashTable.View(), backupTable.View())
    }

    // mii_macaddr_hash_table_init
    constructor (h: Hash)
      ensures Valid() && fresh(hashTable) && fresh(backupTable)
      ensures hash == h && InSync(h, View()) && forall k :: Lookup(h, View().active, k) == {}
    {
      hash := h;
      hashTable := new HashTable();
      backupTable := new HashTable();
      new;
      assert hashTable.View().slots == backupTable.View().slots;
    }

    // insert; the do loop with its count, its conflict flag and the entry it carries.
    method Insert(e: Entry, setNotOr0: bool) returns (ok: bool)
      requires Valid()
      modifies backupTable`numEntries, backupTable.entries
      ensures Valid() && (backupTable.View(), ok) == MacHash.Insert(hash, old(backupTable.View()), e, setNotOr0)
    {
      var count, conflict, hashtype, setNotOr, current := 0, false, 0, setNotOr0, e;
      var limit := backupTable.numEntries + 10;
      ghost var polys := backupTable.polys;
      while true
        invariant Valid() && count < limit && (hashtype == 0 || hashtype == 1)
        invariant unchanged(backupTable)
        invariant InsertLoop(hash, polys, backupTable.entries[..], current, hashtype, setNotOr, count, limit)
          == InsertLoop(hash, polys, old(backupTable.entries[..]), e, 0, setNotOr0, 0, limit)
        decreases limit - count
      {
        ghost var es := backupTable.entries[..];
        var index := hash(current.key, backupTable.polys[hashtype]);
        var slot := backupTable.entries[index];
        var empty := slot.key == ZERO;
        if empty || slot.key == current.key {
          backupTable.entries[index] :=
            Entry(current.key, if setNotOr || empty then current.result
                else slot.result + current.result, current.appdata);
          conflict := false;
          assert backupTable.entries[..] == es[index := Merged(es[index], current, setNotOr)];
        } else {
          conflict := true;
          if count == 0 {
            hashtype := 1 - hashtype;
          } else {
            backupTable.entries[index] := current;
            setNotOr := true;
            assert backupTable.entries[..] == es[index := current];
            current := slot;
            hashtype := 1 - hashtype;
          }
        }
        count := count + 1;
        if !conflict || count == limit {
          break;
        }
      }
      if !conflict {
        backupTable.numEntries := backupTable.numEntries + 1;
      }
      ok := !conflict;
    }

    // refill_backup_table. The loop over passes is entered only where it ends, after at most
    // `retries` repetitions.
    method RefillBackupTable(ghost retries: nat)
      requires Valid() && Refill(hash, hashTable.View(), backupTable.View(), retries).Some?
      modifies backupTable, backupTable.entries
      ensures Valid() && backupTable.entries == old(backupTable.entries)
      ensures Some(backupTable.View()) == Refill(hash, hashTable.View(), old(backupTable.View()), retries)
    {
      hide MacHash.Insert;
      backupTable.numEntries := 0;
      for i := 0 to SIZE
        invariant Valid() && backupTable.numEntries == 0 && backupTable.polys == old(backupTable.polys)
        invariant forall j :: 0 <= j < i ==> backupTable.entries[j] == old(backupTable.entries[j]).(key := ZERO)
        invariant forall j :: i <= j < SIZE ==> backupTable.entries[j] == old(backupTable.entries[j])
      {
        backupTable.entries[i] := backupTable.entries[i].(key := ZERO);
      }
      assert backupTable.View() == Emptied(old(backupTable.View()));
      ghost var active := hashTable.View().slots;
      ghost var left := retries;
      var success := false;
      while !success
        invariant Valid() && hashTable.View() == old(hashTable.View())
        invariant success ==>
          Some(backupTable.View()) == Refill(hash, hashTable.View(), old(backupTable.View()), retries)
        invariant !success ==>
          RefillLoop(hash, active, backupTable.View(), left)
            == Refill(hash, hashTable.View(), old(backupTable.View()), retries)
        decreases !success, left
      {
        ghost var before := backupTable.View();
        backupTable.polys := [NextPoly(backupTable.polys[0]), NextPoly(backupTable.polys[1])];
        success := true;
        var i := 0;
        while success && i < SIZE
          invariant Valid() && hashTable.View() == old(hashTable.View()) && i <= SIZE
          invariant success ==> Pass(hash, active, backupTable.View(), i) == Pass(hash, active, NextPolys(before), 0)
          invariant !success ==> (backupTable.View(), false) == Pass(hash, active, NextPolys(before), 0)
          decreases SIZE - i
        {
          if hashTable.entries[i].key != ZERO {
            success := Insert(hashTable.entries[i], true);
          }
          i := i + 1;
        }
        if !success {
          left := left - 1;
        }
      }
    }

    // swap_tables, without the wait for the filter threads.
    method SwapTables(doMemcpy: bool)
      requires Valid()
      modifies this`hashTable, this`backupTable, hashTable, hashTable.entries
      ensures Valid() && hashTable == old(backupTable) && backupTable == old(hashTable)
      ensures hashTable.entries == old(backupTable.entries) && backupTable.entries == old(hashTable.entries)
      ensures View() == Mac(old(View()).backup, if doMemcpy then old(View()).backup else old(View()).active)
    {
      var oldTable := hashTable;
      hashTable := backupTable;
      backupTable := oldTable;
      if doMemcpy {
        backupTable.polys, backupTable.numEntries := hashTable.polys, hashTable.numEntries;
        forall i | 0 <= i < SIZE {
          backupTable.entries[i] := hashTable.entries[i];
        }
        assert backupTable.entries[..] == hashTable.entries[..];
      }
    }

    // mii_macaddr_hash_table_add_entry, entered only where its loop ends.
    method AddEntry(c: int, hp: bool, k: Key, appdata: int, ghost refills: nat, ghost retries: nat)
      requires Valid() && MacAgree.AddEntry(hash, View(), c, hp, k, appdata, refills, retries).Some?
      modifies this`hashTable, this`backupTable, hashTable, hashTable.entries, backupTable, backupTable.entries
      ensures Valid()
      ensures Some(View()) == MacAgree.AddEntry(hash, old(View()), c, hp, k, appdata, refills, retries)
    {
      hide MacHash.Insert, Refill;
      var e := Entry(k, SetHp({c}, hp), appdata);
      var success, doMemcpy := false, false;
      ghost var left := refills;
      ghost var result := AddLoop(hash, View(), e, refills, retries, false);
      while !success
        invariant Valid()
        invariant hashTable in {old(hashTable), old(backupTable)} && backupTable in {old(hashTable), old(backupTable)}
        invariant hashTable.entries in {old(hashTable.entries), old(backupTable.entries)}
        invariant backupTable.entries in {old(hashTable.entries), old(backupTable.entries)}
        invariant !success ==> AddLoop(hash, View(), e, left, retries, doMemcpy) == result
        invariant success && doMemcpy ==> Some(View()) == result
        invariant success && !doMemcpy ==>
          Some(Mac(View().active, MacHash.Insert(hash, View().backup, e, false).0)) == result
        decreases !success, left
      {
        success := Insert(e, false);
        if success {
          SwapTables(doMemcpy);
        } else {
          RefillBackupTable(retries);
          doMemcpy := true;
          left := left - 1;
        }
      }
      if !doMemcpy {
        var again := Insert(e, false);
      }
    }

    // delete_entry
    method DeleteOnce(c: int, hp: bool, k: Key) returns (deleted: bool)
      requires Valid()
      modifies backupTable.entries
      ensures Valid()
      ensures (backupTable.View(), deleted) == DeleteEntry(hash, hashTable.View(), old(backupTable.View()), c, hp, k)
      ensures hashTable.View() == old(hashTable.View())
      ensures !deleted ==> backupTable.View() == old(backupTable.View())
    {
      if k == ZERO {
        return false;
      }
      var x := hash(k, backupTable.polys[0]);
      if k != backupTable.entries[x].key {
        x := hash(k, hashTable.polys[1]);
      }
      if k != backupTable.entries[x].key {
        return false;
      }
      var result := backupTable.entries[x].result;
      if IsHp(result) != hp {
        return false;
      }
      result := result - {c};
      if hp && Interfaces(result) == {} {
        result := {};
      }
      ghost var es := backupTable.entries[..];
      backupTable.entries[x] := backupTable.entries[x].(result := result);
      assert backupTable.entries[..] == es[x := es[x].(result := result)];
      return true;
    }

    // mii_macaddr_hash_table_delete_entry
    method DeleteFilter(c: int, hp: bool, k: Key)
      requires Valid()
      modifies this`hashTable, this`backupTable, hashTable, hashTable.entries, backupTable, backupTable.entries
      ensures Valid() && View() == Delete(hash, old(View()), c, hp, k)
    {
      hide DeleteEntry;
      var deleted := DeleteOnce(c, hp, k);
      if deleted {
        SwapTables(false);
        var again := DeleteOnce(c, hp, k);
      }
    }

    // mii_macaddr_hash_table_clear
    method ClearFilters()
      requires Valid()
      modifies this`hashTable, this`backupTable, hashTable, hashTable.entries, backupTable, backupTable.entries
      ensures Valid() && View() == ClearBoth(old(View()))
    {
      backupTable.ClearTable();
      SwapTables(false);
      backupTable.ClearTable();
    }
  }
}
