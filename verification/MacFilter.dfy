/** Destination addresses, filter results and what adding and deleting a client means,
    for both implementations of the MAC address filter. */
module MacFilter {

  // An address as two words: its first four and its last two bytes, low byte first.
  datatype Key = Key(low: int, high: int)

  const ZERO := Key(0, 0)

  type Addr = a: seq<int> | |a| == 6 && forall i :: 0 <= i < 6 ==> 0 <= a[i] < 256
    witness [0, 0, 0, 0, 0, 0]

  // entry_to_keys; the linear table compares the same two words.
  function KeyOf(a: Addr): Key {
    Key(a[0] + 0x100 * a[1] + 0x1_0000 * a[2] + 0x100_0000 * a[3], a[4] + 0x100 * a[5])
  }

  /** Two addresses have the same key only if they are the same address. */
  lemma KeyOfInjective(a: Addr, b: Addr)
    requires KeyOf(a) == KeyOf(b)
    ensures a == b
  {
    assert a[5] == b[5] && a[4] == b[4];
    assert a[3] == b[3] && a[2] == b[2] && a[1] == b[1] && a[0] == b[0];
  }

  // A result word, as the set of its bits: bit 31 is the priority, the bits below name the
  // interested clients. Or is union, and-not is difference, and zero is the empty set.
  type Word = set<int>

  const PRIORITY := 31

  predicate IsHp(v: Word) {
    PRIORITY in v
  }

  function Interfaces(v: Word): Word {
    v - {PRIORITY}
  }

  function SetHp(v: Word, hp: bool): Word {
    if hp then v + {PRIORITY} else v
  }

  // Client numbers stay clear of the priority bit.
  predicate IsClient(c: int) {
    0 <= c < PRIORITY
  }

  // The word an address has once client c asked for it, and once it withdrew.
  function Added(was: Word, c: int, hp: bool): Word {
    was + SetHp({c}, hp)
  }

  function Deleted(was: Word, c: int, hp: bool): Word {
    if IsHp(was) != hp then was
    else
      var r := was - {c};
      if hp && Interfaces(r) == {} then {} else r
  }

  /** Adding sets the client's bit, and that of the priority. */
  lemma AddedIs(was: Word, c: int, hp: bool, d: int)
    ensures d in Added(was, c, hp) <==> d in was || d == c || (hp && d == 31)
  {
  }

  /** Deleting clears the client's bit and no other client's; the priority stays as long as some
      client does. A word of the other priority stays as it is. */
  lemma DeletedIs(was: Word, c: int, hp: bool, d: int)
    requires IsClient(c)
    ensures (31 in was <==> !hp) ==> Deleted(was, c, hp) == was
    ensures (31 in was <==> hp) && d != 31 ==> (d in Deleted(was, c, hp) <==> d in was && d != c)
    ensures (31 in was <==> hp) ==> (31 in Deleted(was, c, hp) <==> hp && exists x :: x in was && x != c && x != 31)
  {
    if hp && 31 in was {
      var r := was - {c};
      if x :| x in was && x != c && x != 31 {
        assert x in Interfaces(r);
      } else {
        assert forall y :: y in Interfaces(r) ==> y in was && y != c && y != 31;
      }
    }
  }

  /** Deleting a client that is not there changes nothing but a priority without clients. */
  lemma DeleteOfAbsent(was: Word, c: int, hp: bool)
    requires c !in was
    ensures Deleted(was, c, hp) == was <==> !(hp && was == {31})
  {
    assert was - {c} == was;
    if hp && IsHp(was) && Interfaces(was) == {} { assert was == {31}; }
  }

  /** Deleting a client right after it was added restores the word, unless the client had
      asked before. */
  lemma DeleteUndoesAdd(was: Word, c: int, hp: bool)
    requires IsClient(c) && (was == {} || (IsHp(was) == hp && exists d :: d in was && d != PRIORITY))
    ensures Deleted(Added(was, c, hp), c, hp) == was <==> c !in was
  {
    var r := Added(was, c, hp) - {c};
    if c !in was {
      if was == {} {
        assert Interfaces(r) == {};
      } else {
        var d :| d in was && d != PRIORITY;
        assert d in Interfaces(r);
        assert r == was;
      }
    } else {
      assert c !in Deleted(Added(was, c, hp), c, hp);
    }
  }
}
