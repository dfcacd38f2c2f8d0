/** The memory of a transmit pool (mii_buffering.c:25-173): packets lie one behind the other
    in a circular buffer, a packet's data may go round its end, its header never does.
    Pointers are word addresses, a block's bytes are counted from its start. */
module MiiMemory {
  import opened Bytes
  import opened MiiQueue

  const HEADER := 10          // MII_PACKET_HEADER_WORDS
  const PACKET_BYTES := 1568  // sizeof(mii_packet_t)
  const MAX_FRAME := 1518     // ETHERNET_MAX_PACKET_SIZE
  const SAFE := 14            // (MIN_USAGE + 3) / 4

  // mempool_info_t
  datatype Pool = Pool(start: nat, end: nat, wr: nat)

  predicate PoolOk(p: Pool) {
    0 < p.start <= p.wr <= p.end - SAFE
  }

  function Size(p: Pool): nat
    requires PoolOk(p)
  {
    p.end - p.start
  }

  // Whether a packet may start at this address.
  predicate Starts(p: Pool, a: int) {
    p.start <= a <= p.end - SAFE
  }

  // The words of a packet with n bytes of data.
  function Words(n: nat): nat {
    HEADER + (n + 3) / 4
  }

  // mii_reserve_at_least
  function ReserveAtLeast(p: Pool, rd: int, size: int): int {
    if rd == NULL then p.wr
    else
      var d := 4 * (rd - p.wr);
      var left := if d <= 0 then d + 4 * (p.end - p.start) else d;
      if left < size then NULL else p.wr
  }

  // mii_commit
  function Commit(p: Pool, endPtr: nat): Pool {
    p.(wr := if endPtr > p.end - SAFE then p.start else endPtr)
  }

  // The bytes that _complete_send_packet copies behind the start of the block.
  function Rest(p: Pool, buf: nat, n: nat): (rest: nat)
    requires Starts(p, buf)
    ensures rest <= n
  {
    var prewrap := 4 * (p.end - (buf + HEADER));
    if prewrap > n then 0 else n - prewrap
  }

  // dptr behind the data of a packet at buf.
  function EndOf(p: Pool, buf: nat, n: nat): nat
    requires Starts(p, buf)
  {
    var rest := Rest(p, buf, n);
    if rest != 0 then p.start + (rest + 3) / 4 else buf + Words(n)
  }

  // ------------------------------------------------------------------------------
  // Circular distances
  // ------------------------------------------------------------------------------

  // The place x steps behind the i-th of m in a circle.
  function Around(i: nat, x: nat, m: nat): nat
    requires i < m && x <= m
  {
    if i + x < m then i + x else i + x - m
  }

  // The steps from i to j.
  function Apart(i: nat, j: nat, m: nat): nat
    requires i < m && j < m
  {
    if i <= j then j - i else j - i + m
  }

  /** A commit moves the write pointer by the packet and at most 13 words that are skipped,
      so a write pointer never leaves too few words for a header and four words of data; it
      skips words only where fewer than those are left. */
  lemma CommitAdvances(p: Pool, n: nat) returns (x: nat)
    requires PoolOk(p) && Words(n) + SAFE <= Size(p)
    ensures Words(n) <= x < Words(n) + SAFE
    ensures var r := Commit(p, EndOf(p, p.wr, n));
            && PoolOk(r) && Size(r) == Size(p) && r.wr - p.start == Around(p.wr - p.start, x, Size(p))
            && (x == Words(n) || (p.end - 14 < p.wr + Words(n) <= p.end && r.wr == p.start))
  {
    x := if p.end - SAFE < EndOf(p, p.wr, n) then p.end - p.wr else Words(n);
  }

  /** A block is large enough exactly when it holds the packet and one more header with four
      words: then a packet in it never meets itself, wherever it starts, and the write pointer
      never comes to rest on it. */
  lemma BigEnoughIff(start: nat, end: nat, n: nat)
    requires 0 < start && start + SAFE <= end
    ensures (forall wr {:trigger Pool(start, end, wr)} :: start <= wr <= end - SAFE ==>
               var p := Pool(start, end, wr); Words(n) <= end - start && Commit(p, EndOf(p, wr, n)).wr != wr)
            <==> Words(n) + SAFE <= end - start
  {
    if Words(n) + SAFE <= end - start {
      forall wr {:trigger Pool(start, end, wr)} | start <= wr <= end - SAFE
        ensures var p := Pool(start, end, wr); Commit(p, EndOf(p, wr, n)).wr != wr
      {
        var x := CommitAdvances(Pool(start, end, wr), n);
      }
    } else {
      var p := Pool(start, end, start);
      assert Words(n) <= end - start ==> EndOf(p, start, n) == start + Words(n);
      assert Words(n) <= end - start ==> Commit(p, EndOf(p, start, n)).wr == start;
    }
  }

  // ------------------------------------------------------------------------------
  // Bytes
  // ------------------------------------------------------------------------------

  // n bytes from the i-th on, round the end.
  function ReadAt(mem: seq<Byte>, i: nat, n: nat): (r: seq<Byte>)
    requires i < |mem| && n <= |mem|
    ensures |r| == n
  {
    if i + n <= |mem| then mem[i..i + n] else mem[i..] + mem[..i + n - |mem|]
  }

  function WriteAt(mem: seq<Byte>, i: nat, d: seq<Byte>): (r: seq<Byte>)
    requires i < |mem| && |d| <= |mem|
    ensures |r| == |mem|
  {
    var k := |mem| - i;
    if |d| <= k then mem[..i] + d + mem[i + |d|..] else d[k..] + mem[|d| - k..i] + d[..k]
  }

  lemma ReadIndex(mem: seq<Byte>, i: nat, n: nat, x: nat)
    requires i < |mem| && x < n <= |mem|
    ensures ReadAt(mem, i, n)[x] == mem[Around(i, x, |mem|)]
  {
  }

  lemma WriteIndex(mem: seq<Byte>, i: nat, d: seq<Byte>, j: nat)
    requires i < |mem| && |d| <= |mem| && j < |mem|
    ensures WriteAt(mem, i, d)[j] == if Apart(i, j, |mem|) < |d| then d[Apart(i, j, |mem|)] else mem[j]
  {
  }

  // What was written is read, round the end or not.
  lemma ReadBack(mem: seq<Byte>, i: nat, d: seq<Byte>)
    requires i < |mem| && |d| <= |mem|
    ensures ReadAt(WriteAt(mem, i, d), i, |d|) == d
  {
  }

  // Bytes behind what is written, and before it in the circle, are kept.
  lemma ReadElsewhere(mem: seq<Byte>, i: nat, d: seq<Byte>, j: nat, n: nat)
    requires i < |mem| && j < |mem| && |d| <= |mem| && n <= |mem|
    requires n == 0 || (|d| <= Apart(i, j, |mem|) && Apart(i, j, |mem|) + n <= |mem|)
    ensures ReadAt(WriteAt(mem, i, d), j, n) == ReadAt(mem, j, n)
  {
    hide ReadAt, WriteAt;
    forall x | 0 <= x < n ensures ReadAt(WriteAt(mem, i, d), j, n)[x] == ReadAt(mem, j, n)[x] {
      ReadIndex(WriteAt(mem, i, d), j, n, x);
      ReadIndex(mem, j, n, x);
      WriteIndex(mem, i, d, Around(j, x, |mem|));
    }
  }
}
