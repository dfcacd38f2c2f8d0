/** The buffer pools of the RGMII MAC as the arrays they are, and the calls of the buffer
    managers and of the receive server on them (rgmii_buffering.xc). */
module RgmiiServer {
  import opened Wrappers
  import opened RgmiiBuffers
  import opened RxClients
  import opened RgmiiRx

  // buffers_free_t
  class BuffersFree {
    var topIndex: nat
    const stack: array<int>

    ghost function View(): Stack
      reads this, stack
    {
      Stack(topIndex, stack[..])
    }

    // buffers_free_initialize
    constructor (count: nat)
      ensures View() == InitStack(count) && fresh(stack)
    {
      topIndex := count;
      stack := new int[count](i => i);
      new;
      assert stack[..] == InitStack(count).stack;
    }

    // buffers_free_take
    method Take() returns (buf: Option<int>)
      modifies this
      ensures (View(), buf) == FreeTake(old(View()))
    {
      buf := None;
      if topIndex != 0 && topIndex <= stack.Length {
        topIndex := topIndex - 1;
        buf := Some(stack[topIndex]);
      }
    }

    // buffers_free_add
    method Add(buf: int)
      requires topIndex < stack.Length
      modifies this, stack
      ensures View() == FreeAdd(old(View()), buf)
    {
      stack[topIndex] := buf;
      topIndex := topIndex + 1;
    }
  }

  // buffers_used_t
  class BuffersUsed {
    var headIndex: nat
    var tailIndex: nat
    const pointers: array<int>

    ghost function View(): Ring
      reads this, pointers
    {
      Ring(headIndex, tailIndex, pointers[..])
    }

    // buffers_used_initialize
    constructor (count: nat)
      ensures View() == InitRing(count) && fresh(pointers)
    {
      headIndex, tailIndex := 0, 0;
      pointers := new int[count](_ => 0);
      new;
      assert pointers[..] == InitRing(count).pointers;
    }

    // buffers_used_add
    method Add(buf: int, count: nat)
      requires (count == COUNT_RX || count == COUNT_TX) && pointers.Length == count
      modifies this, pointers
      ensures View() == UsedAdd(old(View()), count, buf)
    {
      var index := Slot(headIndex, count);
      pointers[index] := buf;
      headIndex := Increment32(headIndex);
    }

    // buffers_used_take
    method Take(count: nat) returns (buf: int)
      requires (count == COUNT_RX || count == COUNT_TX) && pointers.Length == count
      modifies this
      ensures (View(), buf) == UsedTake(old(View()), count)
    {
      var index := Slot(tailIndex, count);
      tailIndex := Increment32(tailIndex);
      buf := pointers[index];
    }
  }

  // ------------------------------------------------------------------------------
  // The receive side
  // ------------------------------------------------------------------------------

  // A step if it is enabled; nothing otherwise.
  function Then(s: State, e: Step): State {
    if WellFormed(s) && Enabled(s, e) && InBounds(s, e) then Next(s, e) else s
  }

  lemma ThenKeeps(s: State, e: Step)
    requires Inv(s)
    ensures WellFormed(s) && Inv(Then(s, e))
    ensures Enabled(s, e) ==> InBounds(s, e) && Then(s, e) == Next(s, e)
  {
    if Enabled(s, e) { StepKeeps(s, e); }
  }

  class RxServer {
    const free: BuffersFree
    const lp: BuffersUsed
    const hp: BuffersUsed
    var managers: seq<Manager>
    var clients: seq<Client>
    const tcount: array<nat>
    ghost var hand: Hand

    ghost function Repr(): set<object>
      reads this
    {
      {this, free, free.stack, lp, lp.pointers, hp, hp.pointers, tcount}
    }

    ghost function View(): State
      reads this, free, free.stack, lp, lp.pointers, hp, hp.pointers, tcount
    {
      State(free.View(), lp.View(), hp.View(), managers, clients, hand, tcount[..])
    }

    ghost predicate Valid()
      reads this, free, free.stack, lp, lp.pointers, hp, hp.pointers, tcount
    {
      lp != hp && lp.pointers != hp.pointers && free.stack != lp.pointers && free.stack != hp.pointers && Inv(View())
    }

    constructor (managerCount: nat, clientCount: nat)
      requires 2 * managerCount <= N
      ensures Valid() && View() == Init(managerCount, clientCount) && fresh(Repr())
    {
      free := new BuffersFree(N);
      lp := new BuffersUsed(N);
      hp := new BuffersUsed(N);
      tcount := new nat[N](_ => 0);
      assert InitStack(N).(top := N) == InitStack(N) && Started(0) == [];
      clients := Fresh(clientCount, QUEUE);
      managers := [];
      hand := Hand.Nothing;
      new;
      hide Inv, InitStack, InitRing, Started;
      // The buffer managers issue two buffers each to their low-level drivers.
      for m := 0 to managerCount
        invariant fresh(Repr()) && lp != hp && lp.pointers != hp.pointers
        invariant free.stack != lp.pointers && free.stack != hp.pointers
        invariant lp.View() == InitRing(N) && hp.View() == InitRing(N) && hand == Hand.Nothing
        invariant tcount[..] == seq(N, _ => 0) && |clients| == clientCount
        invariant clients == Fresh(clientCount, QUEUE)
        invariant free.View() == InitStack(N).(top := N - 2 * m) && managers == Started(m)
      {
        StartNext(m);
        var first := free.Take();
        var second := free.Take();
        managers := managers + [Manager([first.value, second.value], None)];
      }
      InitInv(managerCount, clientCount);
    }

    // buffers_free_add of the buffer in hand.
    method ReleaseHand(b: int)
      requires Valid() && hand == Spent(b)
      modifies free, free.stack, this`hand
      ensures Valid() && hand == Hand.Nothing && View() == Then(old(View()), Release)
    {
      hide Inv, WellFormed;
      ThenKeeps(View(), Release);
      Shapes(View());
      free.Add(b);
      hand := Hand.Nothing;
    }

    // The loop body of rgmii_buffer_manager for a received frame; the driver's two buffers
    // are [the received one, the other one].
    method ReceiveFrame(m: nat, verdict: Verdict)
      requires Valid() && m < |managers| && managers[m].routing == None
      modifies this`managers, free, free.stack, lp, lp.pointers, hp, hp.pointers
      ensures Valid()
      ensures View() == Then(Then(old(View()), Receive(m)), Route(m, verdict))
    {
      hide Inv, WellFormed;
      ghost var s0 := View();
      ThenKeeps(s0, Receive(m));
      ghost var s1 := Then(s0, Receive(m));
      ThenKeeps(s1, Route(m, verdict));
      TwoEach(s0, m);
      Shapes(s1);
      var buffer, other := managers[m].lld[0], managers[m].lld[1];
      var nextBuffer := free.Take();
      if nextBuffer.Some? {
        managers := managers[m := Manager([other, nextBuffer.value], Some(buffer))];
        assert View() == s1;
        managers := managers[m := managers[m].(routing := None)];
        match verdict {
          case Drop => free.Add(buffer);
          case ToLp => lp.Add(buffer, N);
          case ToHp => hp.Add(buffer, N);
        }
      } else {
        managers := managers[m := Manager([other, buffer], None)];
      }
    }

    // handle_incoming_packet; wants[i] is whether the filters of client i pass the packet.
    method HandleIncomingPacket(wants: seq<bool>)
      requires Valid() && hand == Hand.Nothing && |wants| == |clients|
      modifies this`clients, this`hand, lp, free, free.stack, tcount
      ensures Valid() && hand == Hand.Nothing
      ensures View() == Then(Then(Then(old(View()), TakeLp), Dispatch(wants)), Release)
    {
      hide Inv, WellFormed, OfferAll;
      ghost var s0 := View();
      ghost var s1 := Then(s0, TakeLp);
      ghost var s2 := Then(s1, Dispatch(wants));
      ThenKeeps(s0, TakeLp);
      ThenKeeps(s1, Dispatch(wants));
      ThenKeeps(s2, Release);
      Shapes(s0);
      if lp.headIndex == lp.tailIndex {
        return;
      }
      var buf := lp.Take(N);
      hand := Incoming(buf);
      assert View() == s1;
      Shapes(s1);
      var taken;
      clients, taken := OfferToAll(clients, buf, wants);
      if taken == 0 {
        hand := Spent(buf);
        assert View() == s2;
        ReleaseHand(buf);
      } else {
        tcount[buf] := taken - 1;
        hand := Hand.Nothing;
      }
    }

    // get_packet for client i, or its oldest packet dropped by drop_lp_packets.
    method PopPacket(i: nat, drop: bool)
      requires Valid() && hand == Hand.Nothing && i < |clients|
      modifies this`clients, this`hand, free, free.stack, tcount
      ensures Valid() && hand == Hand.Nothing && |clients| == old(|clients|)
      ensures View() == Then(Then(old(View()), Pop(i, drop)), Release)
    {
      hide Inv, WellFormed;
      ghost var s0 := View();
      ThenKeeps(s0, Pop(i, drop));
      ThenKeeps(Then(s0, Pop(i, drop)), Release);
      Shapes(s0);
      var c := clients[i];
      if c.rd != c.wr {
        var buf := c.fifo[c.rd];
        clients := clients[i := c.(rd := Wrapped(c.rd + 1, |c.fifo|), dropped := if drop then c.dropped + 1
            else c.dropped)];
        if tcount[buf] == 0 {
          hand := Spent(buf);
          assert View() == Then(s0, Pop(i, drop));
          ReleaseHand(buf);
        } else {
          tcount[buf] := tcount[buf] - 1;
        }
      }
    }

    // drop_lp_packets
    method DropLpPackets()
      requires Valid() && hand == Hand.Nothing
      modifies this`clients, this`hand, free, free.stack, tcount
      ensures Valid() && hand == Hand.Nothing
      ensures |clients| == |old(clients)|
      ensures forall i :: 0 <= i < |clients| ==> AfterDrop(old(clients)[i], clients[i])
    {
      hide Inv;
      var n := 0;
      while n < |clients|
        invariant Valid() && hand == Hand.Nothing && n <= |clients| == |old(clients)|
        invariant forall i :: 0 <= i < n ==> AfterDrop(old(clients)[i], clients[i])
        invariant forall i :: n <= i < |clients| ==> clients[i] == old(clients)[i]
      {
        PopEffect(View(), n);
        PopPacket(n, true);
        n := n + 1;
      }
    }
  }

  // What drop_lp_packets leaves of a client's queue: all but its oldest packet.
  predicate AfterDrop(c: Client, d: Client) {
    ClientOk(c) &&
    if c.rd == c.wr then d == c
    else d == c.(rd := Wrapped(c.rd + 1, |c.fifo|), dropped := c.dropped + 1)
  }

  lemma PopEffect(s: State, i: nat)
    requires Inv(s) && s.hand == Hand.Nothing && i < |s.clients|
    ensures var d := Then(Then(s, Pop(i, true)), Release).clients;
            && |d| == |s.clients| && AfterDrop(s.clients[i], d[i])
            && forall j :: 0 <= j < |d| && j != i ==> d[j] == s.clients[j]
  {
    hide Inv, WellFormed;
    ThenKeeps(s, Pop(i, true));
    ThenKeeps(Then(s, Pop(i, true)), Release);
    Shapes(s);
  }

  lemma StartNext(m: nat)
    requires 2 * m + 2 <= N
    ensures var f := InitStack(N).(top := N - 2 * m);
            && FreeTake(f) == (InitStack(N).(top := N - 2 * m - 1), Some(N - 1 - 2 * m))
            && FreeTake(FreeTake(f).0) == (InitStack(N).(top := N - 2 * m - 2), Some(N - 2 - 2 * m))
    ensures Started(m + 1) == Started(m) + [Manager([N - 1 - 2 * m, N - 2 - 2 * m], None)]
  {
  }

  lemma TwoEach(s: State, m: nat)
    requires WellFormed(s) && m < |s.managers|
    ensures |s.managers[m].lld| == 2
  {
  }

  lemma Shapes(s: State)
    requires WellFormed(s)
    ensures |s.tcount| == N == |s.free.stack| == |s.lp.pointers| == |s.hp.pointers|
    ensures forall i :: 0 <= i < |s.clients| ==> ClientOk(s.clients[i])
  {
  }
}
