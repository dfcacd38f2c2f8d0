/** mii_lite_data_t and the calls that update it, statement by statement. Every method is
    proved to do what the step function of the same call says, so the theorems about runs
    hold of the object. */
module LiteMii {
  import opened LiteBank
  import opened LiteDriver

  class MiiLite {
    var mem: Memory
    var nextBuffer: int
    var packetInLld: int
    var packetsOverran: nat
    var refillBankNumber: int
    var banks: seq<Bank>  // free_ptr, wr_ptr, last_safe_ptr, first_ptr and read_ptr of each bank
    var notifyLast: bool
    var notifySeen: bool
    var readBank: seq<int>
    var readBankRdPtr: nat
    var readBankWrPtr: nat
    var channel: seq<bool>

    ghost function View(): State
      reads this
    {
      State(mem, banks, packetInLld, nextBuffer, packetsOverran, refillBankNumber,
            readBank, readBankRdPtr, readBankWrPtr, notifyLast, notifySeen, channel)
    }

    ghost predicate Valid()
      reads this
    {
      WellFormed(View())
    }

    // mii_lite_buffer_init with the installation of the interrupt handler.
    constructor (m: Memory, address: int, words: nat)
      ensures Valid() && View() == Init(m, address, words)
    {
      var second := address + words * 2 / 4 * 4;
      notifySeen, notifyLast, channel := true, true, [];
      banks := [Bank(address, second - MAXPACKET, address, address + 4, address),
                Bank(second, address + words * 4 - MAXPACKET, second, second + 4, second)];
      mem := m[address := 1][second := 1];
      nextBuffer, packetInLld := second + 4, address + 4;
      packetsOverran, refillBankNumber := 0, 0;
      readBank, readBankRdPtr, readBankWrPtr := seq(RING, _ => 0), 0, 0;
    }

    method Notify()
      requires Valid()
      modifies this`notifyLast, this`channel
      ensures Valid() && View() == LiteDriver.Notify(old(View()))
    {
      if notifyLast == notifySeen {
        notifyLast := !notifyLast;
        channel := channel + [notifyLast];
      }
    }

    method Notified()
      requires Valid() && channel != []
      modifies this`notifySeen, this`channel
      ensures Valid() && View() == LiteDriver.Notified(old(View()))
    {
      notifySeen, channel := channel[0], channel[1..];
    }

    method StoreWord(x: int, v: int)
      requires Valid()
      modifies this`mem
      ensures Valid() && View() == Receive(old(View()), x, v)
    {
      mem := mem[x := v];
    }

    method GetInBuffer() returns (t: Taken)
      requires Valid()
      modifies this
      ensures Valid() && View() == Get(old(View())).0 && t == Get(old(View())).1
    {
      hide RoundBytes, Increment;
      if readBankRdPtr != readBankWrPtr {
        var bank := readBank[readBankRdPtr];
        var nBytes := Load(mem, banks[bank].read);
        if nBytes == 0 {
          banks := banks[bank := banks[bank].(read := banks[bank].first)];
          nBytes := Load(mem, banks[bank].read);
        }
        if nBytes != 1 {
          var retVal := banks[bank].read + 4;
          banks := banks[bank := banks[bank].(read := banks[bank].read + RoundBytes(nBytes))];
          readBankRdPtr := Increment(readBankRdPtr);
          if Load(mem, banks[bank].read) == 0 {
            banks := banks[bank := banks[bank].(read := banks[bank].first)];
          }
          if readBankRdPtr != readBankWrPtr {
            Notify();
          }
          return Taken(retVal + 4, nBytes - 4, Load(mem, retVal));
        }
      }
      t := Nothing;
    }

    method CommitBuffer(currentBuffer: int, length: int)
      requires Valid()
      modifies this
      ensures Valid() && View() == Commit(old(View()), currentBuffer, length)
    {
      hide RoundBytes, Increment, SettleBank;
      var bn := if currentBuffer < banks[1].first then 0 else 1;
      var newWrPtr := Increment(readBankWrPtr);
      if readBankRdPtr == newWrPtr {
        nextBuffer, refillBankNumber := -1, bn;
        return;
      }
      readBank := readBank[readBankWrPtr := bn];
      readBankWrPtr := newWrPtr;
      mem := mem[banks[bn].wr - 4 := length];
      banks := banks[bn := banks[bn].(wr := banks[bn].wr + RoundBytes(length))];
      Notify();
      SettleBuffer(bn);
    }

    // The second half of mii_commit_buffer, from the test of the new end pointer on.
    method SettleBuffer(bn: int)
      requires Valid() && (bn == 0 || bn == 1)
      modifies this`mem, this`banks, this`nextBuffer, this`refillBankNumber
      ensures Valid()
      ensures var o := SettleBank(old(mem), old(banks)[bn]);
              View() == old(View()).(m := o.m, banks := old(banks)[bn := o.bank],
                                     next := if o.room then o.bank.wr else NONE,
                                     refill := if o.room then old(refillBankNumber) else bn)
    {
      hide Minus32;
      if banks[bn].wr > banks[bn].lastSafe {
        if banks[bn].free != banks[bn].first {
          mem := mem[banks[bn].wr - 4 := 0];
          banks := banks[bn := banks[bn].(wr := banks[bn].first + 4)];
          mem := mem[banks[bn].wr - 4 := 1];
          if Minus32(banks[bn].free, banks[bn].wr) >= MAXPACKET {
            nextBuffer := banks[bn].wr;
            return;
          }
        } else {
          mem := mem[banks[bn].wr - 4 := 1];
        }
      } else {
        mem := mem[banks[bn].wr - 4 := 1];
        if banks[bn].wr > banks[bn].free || Minus32(banks[bn].free, banks[bn].wr) >= MAXPACKET {
          nextBuffer := banks[bn].wr;
          return;
        }
      }
      nextBuffer, refillBankNumber := -1, bn;
    }

    method RejectBuffer(currentBuffer: int)
      requires Valid()
      modifies this`nextBuffer
      ensures Valid() && View() == old(View()).(next := currentBuffer)
    {
      nextBuffer := currentBuffer;
    }

    // mii_interrupt_handler and mii_client_user; length is 0 for a bad CRC.
    method FrameEnd(length: int)
      requires Valid()
      modifies this
      ensures Valid() && View() == Interrupt(old(View()), length)
    {
      if nextBuffer == -1 {
        packetsOverran := packetsOverran + 1;
      } else {
        var base := packetInLld;
        packetInLld := nextBuffer;
        if length >= MIN_FRAME {
          CommitBuffer(base, length);
        } else {
          RejectBuffer(base);
        }
      }
    }

    method RestartBuffer()
      requires Valid()
      modifies this
      ensures Valid() && View() == Restart(old(View()))
    {
      if nextBuffer != -1 {
        return;
      }
      var bn := refillBankNumber;
      if banks[bn].wr > banks[bn].lastSafe {
        if banks[bn].free != banks[bn].first {
          mem := mem[banks[bn].wr - 4 := 0];
          banks := banks[bn := banks[bn].(wr := banks[bn].first + 4)];
          mem := mem[banks[bn].wr - 4 := 1];
          if Minus32(banks[bn].free, banks[bn].wr) >= MAXPACKET {
            nextBuffer := banks[bn].wr;
          }
        }
      } else {
        if banks[bn].wr > banks[bn].free || Minus32(banks[bn].free, banks[bn].wr) >= MAXPACKET {
          nextBuffer := banks[bn].wr;
        }
      }
    }

    // The loop is entered only where it ends; k is some number of turns after which it has.
    method FreeInBuffer(base0: int, ghost k: nat)
      requires Valid()
      requires base0 != 0 ==>
        var b := banks[BankOf(View(), base0)]; var m1 := Negated(mem, base0 - 8);
        Load(m1, Advance(m1, b.first, b.free, k)) > 0
      modifies this
      ensures Valid() && View() == Release(old(View()), base0, k)
    {
      hide Restart, Advance;
      if base0 != 0 {
        var bn := if base0 < banks[1].first then 0 else 1;
        var base := base0 - 4;
        mem := mem[base - 4 := -Load(mem, base - 4)];
        MoveFreePtr(bn, k);
      }
      RestartBuffer();
    }

    // The loop over released records.
    method MoveFreePtr(bn: int, ghost k: nat)
      requires Valid() && (bn == 0 || bn == 1)
      requires Load(mem, Advance(mem, banks[bn].first, banks[bn].free, k)) > 0
      modifies this`banks
      ensures Valid()
      ensures banks == old(banks)[bn := old(banks)[bn].(free := Advance(mem, old(banks)[bn].first,
              old(banks)[bn].free, k))]
    {
      hide RoundBytes;
      ghost var turns, free := k, banks[bn].free;
      while true
        invariant Valid()
        invariant Load(mem, Advance(mem, banks[bn].first, banks[bn].free, turns)) > 0
        invariant Advance(mem, banks[bn].first, banks[bn].free, turns) == Advance(mem, banks[bn].first, free, k)
        invariant banks == old(banks)[bn := old(banks)[bn].(free := banks[bn].free)]
        decreases turns
      {
        var l := Load(mem, banks[bn].free);
        if l > 0 {
          break;
        }
        if l == 0 {
          banks := banks[bn := banks[bn].(free := banks[bn].first)];
        } else {
          banks := banks[bn := banks[bn].(free := banks[bn].free + RoundBytes(-l))];
        }
        turns := turns - 1;
      }
    }
  }

  /** For a client that releases in order, the loop may be entered: it ends within two
      turns. */
  lemma FreeLoopEnds(s: State, q: Queue, k: nat)
    requires Inv(s, q) && q.held != [] && k >= 2
    ensures var data := q.held[0].header + 8; var b := s.banks[BankOf(s, data)]; var m1 := Negated(s.m, data - 8);
            data != 0 && Load(m1, Advance(m1, b.first, b.free, k)) > 0
  {
    hide BankCore, OfBank, Segment;
    OldestHeld(s, q);
    var bn := q.held[0].bank;
    assert OneBank(s, q, bn);
    AdvanceStops(s.m, s.banks[bn], q.shape[bn], k);
  }
}
