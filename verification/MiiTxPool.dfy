/** The transmit pool as the object it is: the calls of the client server and of the
    transmitter, with the copies and the loop over words (mii_buffering.c,
    mii_ethernet_rt_mac.xc, mii_master.xc). */
module MiiTxPool {
  import opened Bytes
  import opened MiiQueue
  import opened MiiQueueServer
  import opened MiiMemory
  import opened MiiPool

  class TxPool {
    const high: bool
    const start: nat
    const end: nat
    var wr: nat
    const mem: array<Byte>
    const packets: PacketQueue
    var requested: nat
    var buffer: int

    ghost function View(): MiiPool.State
      reads this, mem, packets, packets.ptrs
    {
      MiiPool.State.State(high, Pool(start, end, wr), mem[..], packets.View(), requested, buffer)
    }

    ghost predicate Valid()
      reads this, mem, packets, packets.ptrs
    {
      MiiPool.WellFormed(View())
    }

    // mii_init_mempool over a block that is large enough.
    constructor (high: bool, start: nat, words: nat)
      requires 0 < start && Words(MAX_FRAME) + SAFE <= words
      ensures Valid() && View() == Start(high, start, start + words, View().mem)
      ensures fresh(mem) && fresh(packets) && fresh(packets.ptrs)
    {
      this.high, this.start, this.end, this.wr := high, start, start + words, start;
      mem := new Byte[4 * words](_ => 0);
      packets := new PacketQueue();
      requested := if high then MAX_FRAME else 0;
      buffer := NULL;
    }

    method InitSendPacket(n: nat)
      requires Valid() && n <= MAX_FRAME
      modifies this`requested
      ensures Valid() && View() == Request(old(View()), n)
    {
      if !high && buffer == NULL {
        requested := n;
      }
    }

    method ReserveAtLeast(rd: int, size: int) returns (a: int)
      requires Valid()
      ensures a == MiiMemory.ReserveAtLeast(Pool(start, end, wr), rd, size)
    {
      if rd == NULL { return wr; }
      var left := 4 * rd - 4 * wr;
      if left <= 0 {
        left := left + (4 * end - 4 * start);
      }
      a := if left < size then NULL else wr;
    }

    method Reserve()
      requires Valid()
      modifies this`buffer
      ensures Valid() && View() == MiiPool.Reserve(old(View()))
    {
      var full := packets.IsFull();
      if !full && requested != 0 && buffer == NULL {
        var rd := packets.ptrs[packets.rdIndex];
        buffer := ReserveAtLeast(rd, requested + PACKET_BYTES);
      }
    }

    // memcpy into the block.
    method Copy(i: nat, d: seq<Byte>)
      requires i + |d| <= mem.Length
      modifies mem
      ensures mem[..] == old(mem[..i]) + d + old(mem[i + |d|..])
    {
      for j := 0 to |d|
        invariant forall k :: 0 <= k < mem.Length ==> mem[k] == if i <= k < i + j then d[k - i] else old(mem[k])
      {
        mem[i + j] := d[j];
      }
    }

    // The copies of the data, split at the end of the block.
    method CopyAround(i: nat, d: seq<Byte>)
      requires i < mem.Length && |d| <= mem.Length
      modifies mem
      ensures mem[..] == WriteAt(old(mem[..]), i, d)
    {
      ghost var was := mem[..];
      var prewrap := mem.Length - i;
      var len1 := if prewrap > |d| then |d| else prewrap;
      var len2 := if prewrap > |d| then 0 else |d| - prewrap;
      Copy(i, d[..len1]);
      assert mem[..] == was[..i] + d[..len1] + was[i + len1..];
      if len2 != 0 {
        Copy(0, d[len1..]);
        assert mem[..] == d[len1..] + was[len2..i] + d[..len1];
      } else {
        assert d[..len1] == d;
      }
    }

    method CompleteSendPacket(d: seq<Byte>)
      requires Valid() && buffer != NULL && |d| <= requested
      modifies this`wr, this`requested, this`buffer, mem, packets`wrIndex, packets.ptrs
      ensures Valid() && View() == Complete(old(View()), d)
    {
      hide WriteAt, Encode, MiiQueue.AddPacket;
      ghost var p := View().pool;
      ghost var x := CommitAdvances(p, |d|);
      EndFits(p, buffer, |d|);
      var dptr := buffer + HEADER;
      CopyAround(4 * (dptr - start), d);
      var prewrap := 4 * (end - dptr);
      var rest := if prewrap > |d| then 0 else |d| - prewrap;
      dptr := if rest != 0 then start + (rest + 3) / 4 else dptr + (|d| + 3) / 4;
      CopyAround(4 * (buffer - start), Encode(|d|));
      wr := if dptr > end - SAFE then start else dptr;
      packets.AddPacket(buffer);
      buffer := NULL;
      requested := if high then requested else 0;
    }

    // The first n bytes of the word at dptr.
    method LoadBytes(dptr: nat, n: nat) returns (w: seq<Byte>)
      requires start <= dptr && n <= 4 && 4 * (dptr - start) + n <= mem.Length
      ensures w == mem[..][4 * (dptr - start)..4 * (dptr - start) + n]
    {
      w := mem[4 * (dptr - start)..4 * (dptr - start) + n];
    }

    // mii_transmit_packet, without the preamble and the CRC that follows the data.
    method TransmitPacket(buf: nat) returns (out: seq<Byte>)
      requires Valid() && Starts(View().pool, buf) && LengthAt(View().pool, mem[..], buf) <= MAX_FRAME
      ensures out == Sent(View().pool, mem[..], buf)
    {
      hide ReadAt, Decode, Sent, MiiQueue.QueueOk;
      ReadFlat(mem[..], 4 * (buf - start), 4);
      var length := Decode(mem[4 * (buf - start)..4 * (buf - start) + 4]);
      SentIs(View().pool, mem[..], buf, length);
      out := SendData(buf + HEADER, length);
    }

    method SendData(data: nat, length: nat) returns (out: seq<Byte>)
      requires start <= data && data + 4 <= end && length <= MAX_FRAME
      requires mem.Length == 4 * (end - start) && MAX_FRAME + 8 <= mem.Length
      ensures out == ReadAt(mem[..], 4 * (data - start), 4 * (if length / 4 < 2 then 2 else length / 4) + length % 4)
    {
      hide ReadAt, Around;
      ghost var m, h := mem[..], data - start;
      var wordCount, tail := length / 4, length % 4;
      var dptr := data;
      ReadFlat(m, 4 * h, 4);
      out := LoadBytes(dptr, 4);
      NextAround(h, 0, end - start);
      dptr := dptr + 1;
      var i := 1;
      var more := true;
      while more
        invariant more ==> 1 <= i && (i == 1 || i < wordCount)
        invariant !more ==> i == if wordCount < 2 then 2 else wordCount
        invariant 4 * i <= MAX_FRAME + 4 && out == ReadAt(m, 4 * h, 4 * i)
        invariant dptr >= start && dptr - start == Around(h, i, end - start)
        decreases if more then 1 + (if i < wordCount then wordCount - i else 1) else 0
      {
        NextWord(m, h, i, dptr - start, 4);
        var word := LoadBytes(dptr, 4);
        out := out + word;
        dptr := dptr + 1;
        if dptr == end {
          dptr := start;
        }
        i := i + 1;
        more := i < wordCount;
      }
      NextWord(m, h, i, dptr - start, tail);
      var last := LoadBytes(dptr, tail);
      out := out + last;
    }

    // One turn of the transmitter on this pool.
    method SendOldest() returns (sent: bool, out: seq<Byte>)
      requires Valid() && Sendable(View())
      modifies packets`rdIndex, packets.ptrs
      ensures Valid() && View() == Free(old(View()))
      ensures sent == (Oldest(old(View()).q) != NULL)
      ensures sent ==> out == Sent(old(View()).pool, old(mem[..]), Oldest(old(View()).q))
    {
      var buf := packets.ptrs[packets.rdIndex];
      sent, out := buf != NULL, [];
      if sent {
        out := TransmitPacket(buf);
        packets.FreeIndex(packets.rdIndex);
      }
    }
  }

  lemma SentIs(p: Pool, m: seq<Byte>, buf: nat, n: nat)
    requires Backed(p, m) && Starts(p, buf) && n == LengthAt(p, m, buf) <= MAX_FRAME
    ensures Sent(p, m, buf) ==
      ReadAt(m, 4 * (buf - p.start) + 4 * HEADER, 4 * (if n / 4 < 2 then 2 else n / 4) + n % 4)
  {
  }

  // The pointer to the next word, and to the bytes of this one.
  lemma NextAround(i: nat, x: nat, m: nat)
    requires i < m && x < m
    ensures Around(i, 0, m) == i && Around(i, x, m) < m
    ensures Around(i, x + 1, m) == if Around(i, x, m) + 1 == m then 0 else Around(i, x, m) + 1
    ensures Around(4 * i, 4 * x, 4 * m) == 4 * Around(i, x, m)
  {
  }

  lemma EndFits(p: Pool, buf: nat, n: nat)
    requires Starts(p, buf)
    ensures EndOf(p, buf, n) ==
      var rest := if 4 * (p.end - (buf + HEADER)) > n then 0 else n - 4 * (p.end - (buf + HEADER));
      if rest != 0 then p.start + (rest + 3) / 4 else buf + HEADER + (n + 3) / 4
  {
  }

  // The bytes at d are those that come next, and the word behind them.
  lemma NextWord(m: seq<Byte>, h: nat, i: nat, d: nat, n: nat)
    requires |m| % 4 == 0 && 4 * h < |m| && 4 * i < 4 * i + 4 <= |m| && n <= 4 && d == Around(h, i, |m| / 4)
    ensures 4 * d + n <= |m| && Around(h, i + 1, |m| / 4) == (if d + 1 == |m| / 4 then 0 else d + 1)
    ensures ReadAt(m, 4 * h, 4 * i + n) == ReadAt(m, 4 * h, 4 * i) + m[4 * d..4 * d + n]
  {
    hide ReadAt;
    NextAround(h, i, |m| / 4);
    ReadMore(m, 4 * h, 4 * i, n);
  }

  lemma ReadFlat(m: seq<Byte>, i: nat, n: nat)
    requires i < |m| && i + n <= |m|
    ensures ReadAt(m, i, n) == m[i..i + n]
  {
  }

  lemma ReadMore(m: seq<Byte>, i: nat, n: nat, k: nat)
    requires i < |m| && n + k <= |m| && Around(i, n, |m|) + k <= |m|
    ensures ReadAt(m, i, n + k) == ReadAt(m, i, n) + m[Around(i, n, |m|)..Around(i, n, |m|) + k]
  {
  }
}
