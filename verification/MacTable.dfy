/** The linear MAC address filter table (macaddr_filter.xc): add, delete, clear and filter
    over 30 entries, in place. */
module MacTable {
  import opened MacFilter

  const SIZE := 30

  datatype Entry = Entry(key: Key, result: Word, appdata: int)

  // Trapped is the failed assertion for a second priority of one address.
  datatype AddResult = Success | Full | Trapped

  predicate Matches(e: Entry, k: Key) {
    e.result != {} && e.key == k
  }

  // ------------------------------------------------------------------------------
  // What the loops compute
  // ------------------------------------------------------------------------------

  function FirstMatch(t: seq<Entry>, k: Key): (i: nat)
    ensures i <= |t| && (i < |t| ==> Matches(t[i], k))
    ensures forall j :: 0 <= j < i ==> !Matches(t[j], k)
  {
    if t == [] || Matches(t[0], k) then 0 else 1 + FirstMatch(t[1..], k)
  }

  function FirstEmpty(t: seq<Entry>): (i: nat)
    ensures i <= |t| && (i < |t| ==> t[i].result == {})
    ensures forall j :: 0 <= j < i ==> t[j].result != {}
  {
    if t == [] || t[0].result == {} then 0 else 1 + FirstEmpty(t[1..])
  }

  function Add(t: seq<Entry>, c: int, hp: bool, k: Key, appdata: int): (seq<Entry>, AddResult) {
    var i := FirstMatch(t, k);
    if i < |t| then
      if IsHp(t[i].result) != hp then (t, Trapped)
      else (t[i := t[i].(result := t[i].result + {c})], Success)
    else
      var j := FirstEmpty(t);
      if j < |t| then (t[j := Entry(k, SetHp({c}, hp), appdata)], Success)
      else (t, Full)
  }

  function DeleteOne(e: Entry, c: int, hp: bool, k: Key): Entry {
    if !Matches(e, k) || IsHp(e.result) != hp then e
    else
      var r := e.result - {c};
      e.(result := if hp && Interfaces(r) == {} then {} else r)
  }

  function Delete(t: seq<Entry>, c: int, hp: bool, k: Key): (r: seq<Entry>)
    ensures |r| == |t| && forall i :: 0 <= i < |t| ==> r[i] == DeleteOne(t[i], c, hp, k)
  {
    seq(|t|, i requires 0 <= i < |t| => DeleteOne(t[i], c, hp, k))
  }

  // The last match wins.
  function Filter(t: seq<Entry>, k: Key): Word {
    if t == [] then {}
    else if Matches(t[|t| - 1], k) then t[|t| - 1].result
    else Filter(t[..|t| - 1], k)
  }

  // The application data of the last match, or what the caller had.
  function DataOf(t: seq<Entry>, k: Key, had: int): int {
    if t == [] then had
    else if Matches(t[|t| - 1], k) then t[|t| - 1].appdata
    else DataOf(t[..|t| - 1], k, had)
  }

  // ------------------------------------------------------------------------------
  // The table as a map from addresses to words
  // ------------------------------------------------------------------------------

  // No address is in use twice.
  ghost predicate Distinct(t: seq<Entry>) {
    forall i, j :: 0 <= i < j < |t| && t[i].result != {} && t[j].result != {} ==> t[i].key != t[j].key
  }

  lemma {:induction false} FilterFinds(t: seq<Entry>, k: Key)
    requires Distinct(t)
    ensures forall i :: 0 <= i < |t| && Matches(t[i], k) ==> Filter(t, k) == t[i].result
    ensures (forall i :: 0 <= i < |t| ==> !Matches(t[i], k)) ==> Filter(t, k) == {}
    ensures Filter(t, k) != {} <==> FirstMatch(t, k) < |t|
  {
    if t != [] {
      var u := t[..|t| - 1];
      FilterFinds(u, k);
      if !Matches(t[|t| - 1], k) {
        assert forall i :: 0 <= i < |u| ==> u[i] == t[i];
        if FirstMatch(t, k) < |t| { assert Matches(u[FirstMatch(t, k)], k); }
        if FirstMatch(u, k) < |u| { assert Matches(t[FirstMatch(u, k)], k); }
      }
    }
  }

  /** Adding changes the word of the one address as it should, unless the table is full or
      the address already has the other priority; exactly then it reports it and changes
      nothing. */
  lemma AddRefines(t: seq<Entry>, c: int, hp: bool, k: Key, appdata: int, x: Key)
    requires Distinct(t) && IsClient(c)
    ensures var (u, r) := Add(t, c, hp, k, appdata); var was := Filter(t, k);
            && |u| == |t| && Distinct(u)
            && (r == Trapped <==> was != {} && IsHp(was) != hp)
            && (r == Full <==> was == {} && forall i :: 0 <= i < |t| ==> t[i].result != {})
            && Filter(u, x) == (if r == Success && x == k then Added(was, c, hp) else Filter(t, x))
  {
    var (u, r) := Add(t, c, hp, k, appdata);
    FilterFinds(t, k);
    FilterFinds(t, x);
    var i, j := FirstMatch(t, k), FirstEmpty(t);
    if r == Success {
      var n := if i < |t| then i else j;
      assert Distinct(u);
      FilterFinds(u, x);
      if x == k {
        assert Matches(u[n], x);
        assert u[n].result == Added(Filter(t, k), c, hp);
      } else {
        OtherKept(t, u, n, x);
      }
    }
  }

  // Changing one entry leaves the addresses alone that it does not hold before or after.
  lemma OtherKept(t: seq<Entry>, u: seq<Entry>, n: nat, x: Key)
    requires |u| == |t| && n < |t| && (forall i :: 0 <= i < |t| && i != n ==> u[i] == t[i])
    requires Distinct(t) && Distinct(u) && !Matches(t[n], x) && !Matches(u[n], x)
    ensures Filter(u, x) == Filter(t, x)
  {
    FilterFinds(t, x);
    FilterFinds(u, x);
    if i :| 0 <= i < |t| && Matches(t[i], x) {
      assert Matches(u[i], x);
    } else {
      assert forall i :: 0 <= i < |t| ==> !Matches(u[i], x);
    }
  }

  /** Deleting changes the word of the one address as it should. */
  lemma DeleteRefines(t: seq<Entry>, c: int, hp: bool, k: Key, x: Key)
    requires Distinct(t) && IsClient(c)
    ensures var u := Delete(t, c, hp, k);
            && Distinct(u)
            && Filter(u, x) == if x == k then Deleted(Filter(t, k), c, hp) else Filter(t, x)
  {
    var u := Delete(t, c, hp, k);
    FilterFinds(t, x);
    FilterFinds(u, x);
    if i :| 0 <= i < |t| && Matches(t[i], x) {
      if x != k { assert Matches(u[i], x); }
      else if u[i].result != {} { assert Matches(u[i], x); }
      else { assert forall j :: 0 <= j < |u| ==> !Matches(u[j], x); }
    } else {
      assert forall j :: 0 <= j < |u| ==> !Matches(u[j], x);
    }
  }

  // ------------------------------------------------------------------------------
  // The application data
  // ------------------------------------------------------------------------------

  lemma {:induction false} DataFinds(t: seq<Entry>, k: Key, had: int)
    requires Distinct(t)
    ensures forall i :: 0 <= i < |t| && Matches(t[i], k) ==> DataOf(t, k, had) == t[i].appdata
    ensures (forall i :: 0 <= i < |t| ==> !Matches(t[i], k)) ==> DataOf(t, k, had) == had
  {
    if t != [] { DataFinds(t[..|t| - 1], k, had); }
  }

  /** An address has the data it was first added with; further additions, and deletions while it
      is in use, leave it. */
  lemma AddKeepsData(t: seq<Entry>, c: int, hp: bool, k: Key, appdata: int, x: Key, had: int)
    requires Distinct(t) && IsClient(c)
    ensures var (u, r) := Add(t, c, hp, k, appdata);
            DataOf(u, x, had) == if r == Success && x == k && Filter(t, k) == {} then appdata else DataOf(t, x, had)
  {
    hide Filter, DataOf;
    var u := Add(t, c, hp, k, appdata).0;
    AddRefines(t, c, hp, k, appdata, x);
    SameData(t, k, had);
    SameData(t, x, had);
    SameData(u, x, had);
  }

  lemma DeleteKeepsData(t: seq<Entry>, c: int, hp: bool, k: Key, x: Key, had: int)
    requires Distinct(t) && IsClient(c)
    ensures var u := Delete(t, c, hp, k); Filter(u, x) != {} ==> DataOf(u, x, had) == DataOf(t, x, had)
  {
    hide Filter, DataOf;
    var u := Delete(t, c, hp, k);
    DeleteRefines(t, c, hp, k, x);
    SameData(t, x, had);
    SameData(u, x, had);
  }

  // The data is that of the first match, which is the only one.
  lemma SameData(t: seq<Entry>, x: Key, had: int)
    requires Distinct(t)
    ensures var i := FirstMatch(t, x);
            && DataOf(t, x, had) == (if i < |t| then t[i].appdata else had)
            && (i < |t| <==> Filter(t, x) != {})
            && forall j :: 0 <= j < |t| && Matches(t[j], x) ==> j == i
  {
    FilterFinds(t, x);
    DataFinds(t, x, had);
  }

  // ------------------------------------------------------------------------------
  // The loops
  // ------------------------------------------------------------------------------

  class FilterTable {
    const table: array<Entry>

    ghost predicate Valid()
      reads this
    {
      table.Length == SIZE
    }

    // ethernet_init_filter_table
    constructor ()
      ensures Valid() && fresh(table)
      ensures forall i :: 0 <= i < SIZE ==> table[i] == Entry(ZERO, {}, 0)
      ensures Distinct(table[..]) && forall k :: Filter(table[..], k) == {}
    {
      table := new Entry[SIZE](_ => Entry(ZERO, {}, 0));
      new;
      forall k ensures Filter(table[..], k) == {} { FilterFinds(table[..], k); }
    }

    // ethernet_add_filter_table_entry
    method AddEntry(c: int, hp: bool, k: Key, appdata: int) returns (r: AddResult)
      requires Valid()
      modifies table
      ensures (table[..], r) == Add(old(table[..]), c, hp, k, appdata)
    {
      for i := 0 to SIZE
        invariant table[..] == old(table[..])
        invariant forall j :: 0 <= j < i ==> !Matches(table[j], k)
      {
        if !Matches(table[i], k) {
          continue;
        }
        assert FirstMatch(table[..], k) == i by { FirstMatchIs(table[..], k, i); }
        if IsHp(table[i].result) != hp {
          return Trapped;
        }
        table[i] := table[i].(result := table[i].result + {c});
        return Success;
      }
      assert FirstMatch(table[..], k) == SIZE by { FirstMatchIs(table[..], k, SIZE); }
      for i := 0 to SIZE
        invariant table[..] == old(table[..])
        invariant forall j :: 0 <= j < i ==> table[j].result != {}
      {
        if table[i].result != {} {
          continue;
        }
        assert FirstEmpty(table[..]) == i by { FirstEmptyIs(table[..], i); }
        table[i] := Entry(k, SetHp({c}, hp), appdata);
        return Success;
      }
      assert FirstEmpty(table[..]) == SIZE by { FirstEmptyIs(table[..], SIZE); }
      return Full;
    }

    // ethernet_del_filter_table_entry
    method DeleteEntry(c: int, hp: bool, k: Key)
      requires Valid()
      modifies table
      ensures table[..] == Delete(old(table[..]), c, hp, k)
    {
      for i := 0 to SIZE
        invariant forall j :: 0 <= j < i ==> table[j] == DeleteOne(old(table[j]), c, hp, k)
        invariant forall j :: i <= j < SIZE ==> table[j] == old(table[j])
      {
        if !Matches(table[i], k) {
          continue;
        }
        if IsHp(table[i].result) != hp {
          continue;
        }
        table[i] := table[i].(result := table[i].result - {c});
        if hp && Interfaces(table[i].result) == {} {
          table[i] := table[i].(result := {});
        }
      }
    }

    // ethernet_do_filtering
    method DoFiltering(k: Key, had: int) returns (result: Word, appdata: int)
      requires Valid()
      ensures result == Filter(table[..], k) && appdata == DataOf(table[..], k, had)
    {
      result, appdata := {}, had;
      for i := 0 to SIZE
        invariant result == Filter(table[..i], k) && appdata == DataOf(table[..i], k, had)
      {
        assert table[..i + 1][..i] == table[..i];
        if !Matches(table[i], k) {
          continue;
        }
        appdata := table[i].appdata;
        result := table[i].result;
      }
      assert table[..SIZE] == table[..];
    }
  }

  lemma FirstMatchIs(t: seq<Entry>, k: Key, i: nat)
    requires i <= |t| && (forall j :: 0 <= j < i ==> !Matches(t[j], k)) && (i < |t| ==> Matches(t[i], k))
    ensures FirstMatch(t, k) == i
  {
  }

  lemma FirstEmptyIs(t: seq<Entry>, i: nat)
    requires i <= |t| && (forall j :: 0 <= j < i ==> t[j].result != {}) && (i < |t| ==> t[i].result == {})
    ensures FirstEmpty(t) == i
  {
  }
}
