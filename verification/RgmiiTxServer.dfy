/** The transmit server's own fields and the statements of its loop (rgmii_buffering.xc),
    each proved to do what the function of the same case says. */
module RgmiiTxServer {
  import opened Wrappers
  import opened RgmiiBuffers
  import opened RgmiiTx

  class TxServer {
    var lp: Pool
    var hp: Pool
    var clients: seq<Client>
    const hasHp: bool
    var txBufHp: Option<int>
    var workPending: int
    var senderCount: int
    ghost var mac: seq<Sent>  // what the MAC has been sent and not returned

    ghost function View(): State
      reads this
    {
      State(lp, hp, clients, hasHp, txBufHp, mac, workPending, senderCount)
    }

    ghost predicate Valid()
      reads this
    {
      Inv(View())
    }

    constructor (clientCount: nat, withHp: bool)
      ensures Valid() && View() == Init(clientCount, withHp)
    {
      hide Inv, InitPool, FreeTake;
      lp, clients := InitPool(), seq(clientCount, _ => Client(false, None));
      hasHp, workPending, senderCount, mac := withHp, 0, 0, [];
      var (f, x) := FreeTake(InitPool().free);
      hp := if withHp then InitPool().(free := f) else InitPool();
      txBufHp := if withHp then x else None;
      new;
      InitInv(clientCount, withHp);
      InitIs(clientCount, withHp);
    }

    // _init_send_packet
    method RequestBuffer(i: nat)
      requires Valid() && i < |clients|
      modifies this`clients
      ensures Valid() && View() == Case(old(View()), Request(i))
    {
      hide Pooled, Marks, Staged, AtMac, Numbers, UsedAdd, UsedTake, FreeTake, FreeAdd;
      CaseKeeps(View(), Request(i));
      if clients[i].buffer == None {
        clients := clients[i := clients[i].(requested := true)];
      }
    }

    // _complete_send_packet
    method CompleteSend(i: nat)
      requires Valid() && i < |clients| && clients[i].buffer.Some?
      modifies this`clients, this`workPending, this`lp
      ensures Valid() && InBounds(old(View()), Complete(i)) && View() == Case(old(View()), Complete(i))
    {
      hide Pooled, Marks, Staged, AtMac, Numbers, UsedAdd, UsedTake, FreeTake, FreeAdd;
      CaseKeeps(View(), Complete(i));
      var buf := clients[i].buffer.value;
      lp := lp.(marked := lp.marked[buf := false]);
      workPending := workPending + 1;
      lp := lp.(used := UsedAdd(lp.used, N, buf));
      clients := clients[i := Client(false, None)];
    }

    // A packet from the high priority channel.
    method CompleteSendHp()
      requires Valid() && txBufHp.Some?
      modifies this`txBufHp, this`workPending, this`hp
      ensures Valid() && InBounds(old(View()), CompleteHp) && View() == Case(old(View()), CompleteHp)
    {
      hide Pooled, Marks, Staged, AtMac, Numbers, UsedAdd, UsedTake, FreeTake, FreeAdd;
      CaseKeeps(View(), CompleteHp);
      hp := hp.(marked := hp.marked[txBufHp.value := true]);
      workPending := workPending + 1;
      hp := hp.(used := UsedAdd(hp.used, N, txBufHp.value));
      var (f, x) := FreeTake(hp.free);
      hp, txBufHp := hp.(free := f), x;
    }

    // The MAC returns buffer x, the j-th of those it has.
    method AcknowledgeSent(x: Sent, ghost j: nat)
      requires Valid() && j < |mac| && mac[j] == x
      modifies this`senderCount, this`mac, this`lp, this`hp
      ensures Valid() && InBounds(old(View()), Acknowledge(j)) && View() == Case(old(View()), Acknowledge(j))
    {
      hide Pooled, Marks, Staged, AtMac, Numbers, UsedAdd, UsedTake, FreeTake, FreeAdd;
      CaseKeeps(View(), Acknowledge(j));
      senderCount := senderCount - 1;
      mac := mac[..j] + mac[j + 1..];
      if (if x.hp then hp else lp).marked[x.b] {
        hp := hp.(free := FreeAdd(hp.free, x.b));
      } else {
        lp := lp.(free := FreeAdd(lp.free, x.b));
      }
    }

    // The choice of the next buffer for the MAC; mayHp is whether the shaper lets a high
    // priority packet go.
    method SendNext(mayHp: bool) returns (sent: Option<Sent>)
      requires Valid()
      modifies this`workPending, this`senderCount, this`mac, this`lp, this`hp
      ensures Valid() && View() == Send(old(View()), mayHp)
      ensures sent == if |mac| > |old(mac)| then Some(mac[|old(mac)|]) else None
    {
      hide Pooled, Marks, Staged, AtMac, Numbers, UsedAdd, UsedTake, FreeTake, FreeAdd;
      SendKeepsAll(View(), mayHp);
      sent := None;
      if workPending != 0 && senderCount < 2 {
        if mayHp && !UsedEmpty(hp.used) {
          var (u, b) := UsedTake(hp.used, N);
          hp, sent := hp.(used := u), Some(Sent(true, b));
        }
        if sent == None && !UsedEmpty(lp.used) {
          var (u, b) := UsedTake(lp.used, N);
          lp, sent := lp.(used := u), Some(Sent(false, b));
        }
        if sent.Some? {
          mac := mac + [sent.value];
          workPending := workPending - 1;
          senderCount := senderCount + 1;
        }
      }
    }

    // The end of the loop: a buffer for the high priority channel, and the loop that stages
    // one for every client that asked.
    method StageBuffers()
      requires Valid()
      modifies this`txBufHp, this`clients, this`lp, this`hp
      ensures Valid() && View() == StageLp(StageHp(old(View())), |old(clients)|)
    {
      hide Pooled, Marks, Staged, AtMac, Numbers, UsedAdd, UsedTake, FreeTake, FreeAdd;
      StageHpKeeps(View());
      ghost var s := StageHp(View());
      if hasHp && txBufHp == None {
        var (f, x) := FreeTake(hp.free);
        hp, txBufHp := hp.(free := f), x;
      }
      for i := 0 to |clients|
        invariant Valid() && |clients| == |s.clients| && View() == StageLp(s, i)
      {
        StageLpKeeps(s, i + 1);
        if clients[i].requested && clients[i].buffer == None {
          var (f, x) := FreeTake(lp.free);
          lp, clients := lp.(free := f), clients[i := clients[i].(buffer := x)];
        }
      }
    }
  }

  lemma InitIs(clientCount: nat, withHp: bool)
    ensures var (f, x) := FreeTake(InitPool().free);
            Init(clientCount, withHp) ==
              State(InitPool(), if withHp then InitPool().(free := f) else InitPool(),
                    seq(clientCount, _ => Client(false, None)), withHp, if withHp then x else None, [], 0, 0)
  {
  }
}
