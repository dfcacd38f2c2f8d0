/** The free stacks and used rings of rgmii_buffering.xc: fixed arrays with a top index, and
    with free-running unsigned head and tail indices. */
module RgmiiBuffers {
  import opened Wrappers

  const WORD := 0x1_0000_0000
  const COUNT_RX := 32
  const COUNT_TX := 8

  // A free-running index, modulo the number of buffers.
  function Slot(i: nat, count: nat): (r: nat)
    requires count == COUNT_RX || count == COUNT_TX
    ensures r < count
  {
    if count == COUNT_RX then i % 32 else i % 8
  }

  function Increment32(i: nat): (r: nat)
    ensures r < WORD
  {
    (i + 1) % WORD
  }

  // buffers_free_t and buffers_used_t; buffers are numbered.
  datatype Stack = Stack(top: nat, stack: seq<int>)
  datatype Ring = Ring(head: nat, tail: nat, pointers: seq<int>)

  predicate StackOk(f: Stack, count: nat) {
    f.top <= |f.stack| == count
  }

  function Available(f: Stack, count: nat): (q: seq<int>)
    requires StackOk(f, count)
    ensures |q| == f.top
  {
    f.stack[..f.top]
  }

  function Length(u: Ring): nat {
    (u.head - u.tail) % WORD
  }

  predicate RingOk(u: Ring, count: nat) {
    && (count == COUNT_RX || count == COUNT_TX) && |u.pointers| == count
    && u.head < WORD && u.tail < WORD && Length(u) <= count
  }

  // The buffers in the ring, oldest first.
  function Used(u: Ring, count: nat): (q: seq<int>)
    requires RingOk(u, count)
    ensures |q| == Length(u)
  {
    seq(Length(u), i requires 0 <= i < Length(u) => u.pointers[Slot(u.tail + i, count)])
  }

  // ------------------------------------------------------------------------------
  // The operations
  // ------------------------------------------------------------------------------

  function InitStack(count: nat): (f: Stack)
    ensures |f.stack| == count
  {
    Stack(count, seq(count, i => i))
  }

  function InitRing(count: nat): Ring {
    Ring(0, 0, seq(count, _ => 0))
  }

  function FreeTake(f: Stack): (Stack, Option<int>) {
    if 0 < f.top <= |f.stack| then (f.(top := f.top - 1), Some(f.stack[f.top - 1])) else (f, None)
  }

  function FreeAdd(f: Stack, b: int): Stack
    requires f.top < |f.stack|
  {
    Stack(f.top + 1, f.stack[f.top := b])
  }

  function UsedAdd(u: Ring, count: nat, b: int): Ring
    requires (count == COUNT_RX || count == COUNT_TX) && |u.pointers| == count
  {
    u.(head := Increment32(u.head), pointers := u.pointers[Slot(u.head, count) := b])
  }

  function UsedTake(u: Ring, count: nat): (Ring, int)
    requires (count == COUNT_RX || count == COUNT_TX) && |u.pointers| == count
  {
    (u.(tail := Increment32(u.tail)), u.pointers[Slot(u.tail, count)])
  }

  predicate UsedEmpty(u: Ring) {
    u.tail == u.head
  }

  // ------------------------------------------------------------------------------
  // What they mean
  // ------------------------------------------------------------------------------

  lemma FreeTakeIs(f: Stack, count: nat)
    requires StackOk(f, count)
    ensures var (g, b) := FreeTake(f);
            && StackOk(g, count)
            && (b == None <==> Available(f, count) == []) && (b == None ==> g == f)
            && (b.Some? ==> Available(f, count) == Available(g, count) + [b.value])
  {
  }

  lemma FreeAddIs(f: Stack, count: nat, b: int)
    requires StackOk(f, count) && f.top < count
    ensures StackOk(FreeAdd(f, b), count) && Available(FreeAdd(f, b), count) == Available(f, count) + [b]
  {
  }

  // The slot of a position does not notice the wrap of the free-running index.
  lemma SlotWraps(t: nat, i: nat, count: nat)
    requires t < WORD && i <= count && (count == COUNT_RX || count == COUNT_TX)
    ensures Slot((t + i) % WORD, count) == Slot(t + i, count)
    ensures Slot(Increment32(t) + i, count) == Slot(t + 1 + i, count)
  {
    if t + i >= WORD { assert (t + i) % WORD == t + i - WORD; }
    assert Increment32(t) == if t + 1 == WORD then 0 else t + 1;
    SlotOfWord(t + i, count);
    SlotOfWord(t + 1 + i, count);
  }

  lemma SlotOfWord(x: nat, count: nat)
    requires count == COUNT_RX || count == COUNT_TX
    ensures x >= WORD ==> Slot(x - WORD, count) == Slot(x, count)
  {
    if count == COUNT_RX {
      assert WORD % COUNT_RX == 0;
    } else {
      assert WORD % COUNT_TX == 0;
    }
  }

  lemma SlotsDiffer(t: nat, i: nat, j: nat, count: nat)
    requires i < j < i + count && (count == COUNT_RX || count == COUNT_TX)
    ensures Slot(t + i, count) != Slot(t + j, count)
  {
  }

  // The distance of two free-running indices, when one of them moves.
  lemma HeadMoves(h: nat, t: nat)
    requires h < WORD && t < WORD
    ensures var n := (h - t) % WORD;
            h == (t + n) % WORD && (n + 1 < WORD ==> (Increment32(h) - t) % WORD == n + 1)
  {
  }

  lemma TailMoves(h: nat, t: nat)
    requires h < WORD && t < WORD && h != t
    ensures (h - Increment32(t)) % WORD == (h - t) % WORD - 1
  {
  }

  /** A buffer added while the ring has room follows the others; no entry is overwritten. */
  lemma UsedAddIs(u: Ring, count: nat, b: int)
    requires RingOk(u, count) && Length(u) < count
    ensures RingOk(UsedAdd(u, count, b), count) && Used(UsedAdd(u, count, b), count) == Used(u, count) + [b]
  {
    hide Slot, Increment32;
    var v := UsedAdd(u, count, b);
    var n := Length(u);
    HeadMoves(u.head, u.tail);
    SlotWraps(u.tail, n, count);
    forall i | 0 <= i < n ensures Used(v, count)[i] == Used(u, count)[i] { SlotsDiffer(u.tail, i, n, count); }
  }

  /** The buffer taken from a ring that is not empty is the oldest one. */
  lemma UsedTakeIs(u: Ring, count: nat)
    requires RingOk(u, count) && !UsedEmpty(u)
    ensures var (v, b) := UsedTake(u, count);
            RingOk(v, count) && Used(u, count) == [b] + Used(v, count)
  {
    hide Slot, Increment32;
    var (v, b) := UsedTake(u, count);
    TailMoves(u.head, u.tail);
    forall i | 0 <= i < Length(v) ensures Used(v, count)[i] == Used(u, count)[i + 1] { SlotWraps(u.tail, i, count); }
  }

  // ------------------------------------------------------------------------------
  // Counting buffers
  // ------------------------------------------------------------------------------

  // The buffers 0 to n - 1, once each.
  function Numbers(n: nat): multiset<int> {
    multiset(seq(n, i => i))
  }

  lemma {:induction false} Prefix(n: nat, b: int)
    ensures Numbers(n)[b] == if 0 <= b < n then 1 else 0
  {
    if n > 0 {
      Prefix(n - 1, b);
      assert seq(n, i => i) == seq(n - 1, i => i) + [n - 1];
    }
  }

  function Sum(parts: seq<multiset<int>>): multiset<int> {
    if parts == [] then multiset{} else Sum(parts[..|parts| - 1]) + parts[|parts| - 1]
  }

  lemma {:induction false} SumUpdate(parts: seq<multiset<int>>, i: nat, x: multiset<int>)
    requires i < |parts|
    ensures Sum(parts[i := x]) + parts[i] == Sum(parts) + x
    decreases |parts|
  {
    var n := |parts| - 1;
    if i == n {
      assert parts[i := x][..n] == parts[..n];
    } else {
      assert parts[i := x][..n] == parts[..n][i := x] && parts[i := x][n] == parts[n];
      SumUpdate(parts[..n], i, x);
      var p, p' := Sum(parts[..n]), Sum(parts[..n][i := x]);
      assert p' + parts[n] + parts[i] == (p' + parts[i]) + parts[n] == (p + x) + parts[n];
    }
  }

  // Taking the same part away on both sides.
  lemma Cancel(a: multiset<int>, a': multiset<int>, o: multiset<int>, n: multiset<int>, d: multiset<int>)
    requires a' + o == a + n && o == n + d
    ensures a == a' + d
  {
    forall x: int ensures a[x] == (a' + d)[x] {
      assert (a' + o)[x] == a'[x] + o[x] && (a + n)[x] == a[x] + n[x] && o[x] == n[x] + d[x];
    }
  }

  // A buffer moves from one place to another.
  lemma Move(a: multiset<int>, a': multiset<int>, c: multiset<int>, c': multiset<int>, x: multiset<int>,
             rest: multiset<int>)
    requires a == a' + x && c' == c + x
    ensures a + c + rest == a' + c' + rest
  {
  }

  // ------------------------------------------------------------------------------
  // Keeping order
  // ------------------------------------------------------------------------------

  // Gluing one step of a queue to the rest of a run.
  lemma OrderGlue(waiting: seq<int>, put: seq<int>, gone: seq<int>, waiting1: seq<int>,
                  puts: seq<int>, gones: seq<int>, end: seq<int>)
    requires waiting + put == gone + waiting1 && waiting1 + puts == gones + end
    ensures waiting + (put + puts) == (gone + gones) + end
  {
    assert waiting + (put + puts) == (waiting + put) + puts == gone + (waiting1 + puts);
  }
}
