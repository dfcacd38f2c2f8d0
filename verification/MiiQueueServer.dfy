/** The packet queue as the object it is (packet_queue_info_t) and the receive server's calls
    on it, loop by loop. */
module MiiQueueServer {
  import opened RxClients
  import opened MiiQueue

  class PacketQueue {
    var rdIndex: nat
    var wrIndex: nat
    const ptrs: array<int>

    ghost function View(): Queue
      reads this, ptrs
    {
      Queue(rdIndex, wrIndex, ptrs[..])
    }

    ghost predicate Valid()
      reads this, ptrs
    {
      QueueOk(View())
    }

    // mii_init_packet_queue
    constructor ()
      ensures Valid() && View() == Init(0, 1).q && fresh(ptrs)
    {
      rdIndex, wrIndex := 0, 0;
      ptrs := new int[SLOTS](_ => NULL);
      new;
      assert ptrs[..] == Init(0, 1).q.ptrs;
    }

    // mii_packet_queue_full
    method IsFull() returns (full: bool)
      requires Valid()
      ensures full == Full(View())
    {
      full := ptrs[wrIndex] != NULL;
    }

    method AddPacket(p: int)
      requires Valid()
      modifies this`wrIndex, ptrs
      ensures Valid() && View() == MiiQueue.AddPacket(old(View()), p)
    {
      ptrs[wrIndex] := p;
      wrIndex := Slot(wrIndex + 1);
    }

    method MoveMyRdIndex(index: nat) returns (r: nat)
      requires Valid() && index < SLOTS
      ensures r < SLOTS && r == Move(View(), index)
    {
      hide Slot, Distance;
      r := Slot(index + 1);
      while r != wrIndex && ptrs[r] == NULL
        invariant r < SLOTS
        invariant Move(View(), index) == if r == wrIndex || ptrs[r] != NULL then r else Move(View(), r)
        decreases if r == wrIndex then 0 else Distance(r, wrIndex)
      {
        if Slot(r + 1) != wrIndex { DistanceFalls(r, wrIndex); }
        r := Slot(r + 1);
      }
    }

    method FreeIndex(index: nat)
      requires Valid() && index < SLOTS
      modifies this`rdIndex, ptrs
      ensures Valid() && View() == MiiQueue.FreeIndex(old(View()), index)
    {
      if rdIndex == index {
        rdIndex := MoveMyRdIndex(index);
      }
      ptrs[index] := NULL;
    }

    method GetMyNextBuf(index: nat) returns (p: int)
      requires Valid() && index < SLOTS
      ensures p == MyNextBuf(View(), index)
    {
      if rdIndex == wrIndex { return NULL; }
      p := ptrs[index];
    }
  }

  // The clients before the n-th lose their oldest packet.
  ghost function DropFirst(s: State, n: nat): (r: State)
    requires WellFormed(s) && n <= |s.clients|
    ensures WellFormed(r) && |r.clients| == |s.clients|
  {
    if n == 0 then s else Next(DropFirst(s, n - 1), Popped(n - 1, true))
  }

  class LpServer {
    const packets: PacketQueue
    var rdIndex: nat
    var clients: seq<Client>
    const tcount: array<nat>    // of the packet in each slot
    ghost var stream: Stream

    ghost function View(): State
      reads this, packets, packets.ptrs, tcount
    {
      State(packets.View(), rdIndex, clients, tcount[..])
    }

    ghost predicate Valid()
      reads this, packets, packets.ptrs, tcount
    {
      Inv(View(), stream)
    }

    constructor (n: nat, size: nat)
      requires size > 0
      ensures Valid() && View() == Init(n, size) && stream == Stream(0, 0, [])
      ensures fresh(packets) && fresh(packets.ptrs) && fresh(tcount)
    {
      packets := new PacketQueue();
      rdIndex, clients, stream := 0, Fresh(n, size), Stream(0, 0, []);
      tcount := new nat[SLOTS](_ => 0);
      new;
      InitInv(n, size);
      assert tcount[..] == Init(n, size).tcount;
    }

    // What the filter thread does with a packet of low priority.
    method Add(p: int)
      requires Valid() && p != NULL
      modifies packets`wrIndex, packets.ptrs, this`stream
      ensures Valid() && View() == Arrive(old(View()), p)
      ensures stream == if Full(old(packets.View())) then old(stream)
              else old(stream).(added := old(stream).added + [p])
    {
      ArriveKeeps(View(), stream, p);
      var full := packets.IsFull();
      if !full {
        stream := stream.(added := stream.added + [p]);
        packets.AddPacket(p);
      }
    }

    method HandleIncomingPacket(wants: seq<bool>)
      requires Valid() && |wants| == |clients|
      modifies this, packets, packets.ptrs, tcount
      ensures Valid() && View() == HandleIncoming(old(View()), wants) && stream.added == old(stream).added
    {
      hide Inv, OfferAll, MiiQueue.FreeIndex, Move;
      ghost var s, g := View(), stream;
      WellFormedOf(s, g);
      stream := DispatchKeeps(s, g, wants);
      var p := packets.GetMyNextBuf(rdIndex);
      if p == NULL {
        return;
      }
      var t;
      clients, t := OfferToAll(clients, rdIndex, wants);
      if t == 0 {
        packets.FreeIndex(rdIndex);
      } else {
        tcount[rdIndex] := t - 1;
      }
      rdIndex := packets.MoveMyRdIndex(rdIndex);
    }

    method GetAndDecTransmitCount(slot: nat) returns (count: nat)
      requires slot < tcount.Length
      modifies tcount
      ensures count == old(tcount[slot])
      ensures tcount[..] == if count == 0 then old(tcount[..]) else old(tcount[..])[slot := count - 1]
    {
      count := tcount[slot];
      if count != 0 { tcount[slot] := count - 1; }
    }

    // get_packet of client i when it has a packet waiting, or its part of drop_lp_packets.
    method TakePacket(i: nat, drop: bool)
      requires Valid() && i < |clients|
      modifies this, packets, packets.ptrs, tcount
      ensures Valid() && View() == Next(old(View()), Popped(i, drop))
      ensures stream.added == old(stream).added && stream.next == old(stream).next
    {
      hide Inv, MiiQueue.FreeIndex, Move, Refs;
      ghost var s, g := View(), stream;
      WellFormedOf(s, g);
      stream := PopKeeps(s, g, i, drop);
      if clients[i].rd != clients[i].wr {
        var (c, slot) := PopOne(clients[i], drop);
        PoppedHead(clients[i], drop);
        var count := GetAndDecTransmitCount(slot);
        if count == 0 {
          packets.FreeIndex(slot);
        }
        clients := clients[i := c];
      }
    }

    method DropLpPackets()
      requires Valid()
      modifies this, packets, packets.ptrs, tcount
      ensures Valid() && View() == DropFirst(old(View()), |old(clients)|)
      ensures stream.added == old(stream).added && stream.next == old(stream).next
    {
      hide Inv, Pop;
      ghost var s := View();
      WellFormedOf(s, stream);
      for i := 0 to |clients|
        invariant Valid() && |clients| == |s.clients| && View() == DropFirst(s, i)
        invariant stream.added == old(stream).added && stream.next == old(stream).next
      {
        TakePacket(i, true);
      }
    }
  }

  lemma WellFormedOf(s: State, g: Stream)
    requires Inv(s, g)
    ensures WellFormed(s)
  {
  }
}
