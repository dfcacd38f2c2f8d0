/** The packet queues of the receive clients (client_state.h), as both real-time MACs use
    them: circular arrays of references to received packets. A packet is queued for every
    client that wants it and has room, and is shared by a count. */
module RxClients {
  import opened RgmiiBuffers

  // The part of rx_client_state_t that queues packets.
  datatype Client = Client(rd: nat, wr: nat, fifo: seq<int>, dropped: nat)

  predicate ClientOk(c: Client) {
    c.rd < |c.fifo| && c.wr < |c.fifo|
  }

  function Wrapped(i: nat, size: nat): nat
    requires i < 2 * size
  {
    if i < size then i else i - size
  }

  function Count(c: Client): (n: nat)
    requires ClientOk(c)
    ensures n < |c.fifo|
  {
    if c.wr >= c.rd then c.wr - c.rd else c.wr + |c.fifo| - c.rd
  }

  // What is queued, oldest first.
  function Waiting(c: Client): (q: seq<int>)
    requires ClientOk(c)
    ensures |q| == Count(c)
  {
    seq(Count(c), i requires 0 <= i < Count(c) => c.fifo[Wrapped(c.rd + i, |c.fifo|)])
  }

  // One client in the loop of handle_incoming_packet, and whether it took the buffer.
  function Offer(c: Client, b: int): (r: (Client, bool))
    requires ClientOk(c)
    ensures ClientOk(r.0)
  {
    var wr := Wrapped(c.wr + 1, |c.fifo|);
    if wr != c.rd then (c.(fifo := c.fifo[c.wr := b], wr := wr), true)
    else (c.(dropped := c.dropped + 1), false)
  }

  // The loop over the clients, and how many of them took the buffer.
  function OfferAll(cs: seq<Client>, b: int, wants: seq<bool>): (r: (seq<Client>, nat))
    requires |wants| == |cs| && forall i :: 0 <= i < |cs| ==> ClientOk(cs[i])
    ensures |r.0| == |cs| && forall i :: 0 <= i < |cs| ==> ClientOk(r.0[i])
    decreases |cs|
  {
    if cs == [] then ([], 0)
    else
      var n := |cs| - 1;
      var (rest, t) := OfferAll(cs[..n], b, wants[..n]);
      var (c, took) := if wants[n] then Offer(cs[n], b) else (cs[n], false);
      (rest + [c], if took then t + 1 else t)
  }

  function PopOne(c: Client, drop: bool): (r: (Client, int))
    requires ClientOk(c)
    ensures ClientOk(r.0)
  {
    (c.(rd := Wrapped(c.rd + 1, |c.fifo|), dropped := if drop then c.dropped + 1 else c.dropped), c.fifo[c.rd])
  }

  // Every reference a client queue holds.
  function Refs(cs: seq<Client>): multiset<int>
    requires forall i :: 0 <= i < |cs| ==> ClientOk(cs[i])
  {
    Sum(seq(|cs|, i requires 0 <= i < |cs| => multiset(Waiting(cs[i]))))
  }

  // The buffers that are referenced, once each.
  function Shared(refs: multiset<int>): multiset<int> {
    multiset(set b | b in refs)
  }

  lemma RefsUpdate(cs: seq<Client>, i: nat, c: Client)
    requires i < |cs| && ClientOk(c) && forall j :: 0 <= j < |cs| ==> ClientOk(cs[j])
    ensures Refs(cs[i := c]) + multiset(Waiting(cs[i])) == Refs(cs) + multiset(Waiting(c))
  {
    var parts := seq(|cs|, j requires 0 <= j < |cs| => multiset(Waiting(cs[j])));
    SumUpdate(parts, i, multiset(Waiting(c)));
    assert seq(|cs|, j requires 0 <= j < |cs| => multiset(Waiting(cs[i := c][j]))) == parts[i := multiset(Waiting(c))];
  }

  // A queue that takes a buffer has it behind the others; a full one is left as it was.
  lemma OfferIs(c: Client, b: int)
    requires ClientOk(c)
    ensures var (d, took) := Offer(c, b);
            && (took <==> |Waiting(c)| < |c.fifo| - 1)
            && Waiting(d) == (if took then Waiting(c) + [b] else Waiting(c))
  {
    var (d, took) := Offer(c, b);
    if took {
      assert Count(d) == Count(c) + 1;
      assert Wrapped(c.rd + Count(c), |c.fifo|) == c.wr;
      forall i | 0 <= i < Count(d) ensures Waiting(d)[i] == if i < Count(c) then Waiting(c)[i] else b {
        assert Waiting(d)[i] == d.fifo[Wrapped(c.rd + i, |c.fifo|)];
      }
    } else {
      assert Count(d) == Count(c);
      forall i | 0 <= i < Count(d) ensures Waiting(d)[i] == Waiting(c)[i] {}
    }
  }

  lemma PopIs(c: Client, drop: bool)
    requires ClientOk(c) && c.rd != c.wr
    ensures var (d, b) := PopOne(c, drop); Waiting(c) == [b] + Waiting(d)
  {
    var (d, b) := PopOne(c, drop);
    assert Count(c) == Count(d) + 1;
    forall i | 0 < i < Count(c) ensures Waiting(c)[i] == Waiting(d)[i - 1] {
      assert Wrapped(d.rd + (i - 1), |c.fifo|) == Wrapped(c.rd + i, |c.fifo|);
    }
    assert Waiting(c)[0] == c.fifo[Wrapped(c.rd + 0, |c.fifo|)] == b;
  }

  lemma RefsLast(cs: seq<Client>)
    requires cs != [] && forall j :: 0 <= j < |cs| ==> ClientOk(cs[j])
    ensures Refs(cs) == Refs(cs[..|cs| - 1]) + multiset(Waiting(cs[|cs| - 1]))
  {
    var n := |cs| - 1;
    var parts := seq(|cs|, j requires 0 <= j < |cs| => multiset(Waiting(cs[j])));
    assert parts[..n] == seq(n, j requires 0 <= j < n => multiset(Waiting(cs[..n][j])));
  }

  // The loop queues the buffer behind the others of every client that wants it and has
  // room, and for no other client.
  lemma {:induction false} OfferAllQueues(cs: seq<Client>, b: int, wants: seq<bool>, i: nat)
    requires |wants| == |cs| && (forall j :: 0 <= j < |cs| ==> ClientOk(cs[j])) && i < |cs|
    ensures var d := OfferAll(cs, b, wants).0[i];
            Waiting(d) == Waiting(cs[i]) + (if wants[i] && |Waiting(cs[i])| < |cs[i].fifo| - 1 then [b] else [])
    decreases |cs|
  {
    hide Waiting, Offer;
    var n := |cs| - 1;
    if i == n {
      OfferIs(cs[n], b);
      assert Waiting(cs[n]) + [] == Waiting(cs[n]);
    } else {
      OfferAllQueues(cs[..n], b, wants[..n], i);
    }
  }

  // And counts the buffer as dropped for every client that wants it and has no room.
  lemma {:induction false} OfferAllDrops(cs: seq<Client>, b: int, wants: seq<bool>, i: nat)
    requires |wants| == |cs| && (forall j :: 0 <= j < |cs| ==> ClientOk(cs[j])) && i < |cs|
    ensures OfferAll(cs, b, wants).0[i].dropped
            == cs[i].dropped + if wants[i] && |Waiting(cs[i])| == |cs[i].fifo| - 1 then 1 else 0
    decreases |cs|
  {
    hide Waiting;
    var n := |cs| - 1;
    if i == n { OfferIs(cs[n], b); } else { OfferAllDrops(cs[..n], b, wants[..n], i); }
  }

  lemma OfferNone(cs: seq<Client>, b: int, wants: seq<bool>)
    requires cs == [] && wants == []
    ensures OfferAll(cs, b, wants) == ([], 0)
  {
  }

  // One more turn of the loop over the clients.
  lemma OfferNext(cs: seq<Client>, b: int, wants: seq<bool>, n: nat)
    requires n < |cs| == |wants| && forall i :: 0 <= i < |cs| ==> ClientOk(cs[i])
    ensures var (c, took) := if wants[n] then Offer(cs[n], b) else (cs[n], false);
            && OfferAll(cs[..n + 1], b, wants[..n + 1]).0 == OfferAll(cs[..n], b, wants[..n]).0 + [c]
            && OfferAll(cs[..n + 1], b, wants[..n + 1]).1 == OfferAll(cs[..n], b, wants[..n]).1 + if took then 1 else 0
  {
    assert cs[..n + 1][..n] == cs[..n] && wants[..n + 1][..n] == wants[..n];
  }

  // The loop over the clients, as both receive servers have it; the clients after it, and
  // how many of them took the buffer.
  method OfferToAll(before: seq<Client>, b: int, wants: seq<bool>) returns (clients: seq<Client>, taken: nat)
    requires |wants| == |before| && forall i :: 0 <= i < |before| ==> ClientOk(before[i])
    ensures (clients, taken) == OfferAll(before, b, wants)
  {
    hide OfferAll;
    OfferNone(before[..0], b, wants[..0]);
    clients, taken := before, 0;
    for n := 0 to |before|
      invariant |clients| == |before| && clients[n..] == before[n..]
      invariant clients[..n] == OfferAll(before[..n], b, wants[..n]).0
      invariant taken == OfferAll(before[..n], b, wants[..n]).1
    {
      assert clients[n] == before[n];
      OfferNext(before, b, wants, n);
      if wants[n] {
        var c := clients[n];
        var wr := if c.wr + 1 >= |c.fifo| then 0 else c.wr + 1;
        if wr != c.rd {
          clients := clients[n := c.(fifo := c.fifo[c.wr := b], wr := wr)];
          taken := taken + 1;
        } else {
          clients := clients[n := c.(dropped := c.dropped + 1)];
        }
      }
    }
    assert clients[..|before|] == clients && before[..|before|] == before && wants[..|before|] == wants;
  }

  // It counts what it queues.
  lemma {:induction false} OfferAllRefs(cs: seq<Client>, b: int, wants: seq<bool>, x: int)
    requires |wants| == |cs| && forall i :: 0 <= i < |cs| ==> ClientOk(cs[i])
    ensures var (ds, t) := OfferAll(cs, b, wants);
            Refs(ds)[x] == if x == b then Refs(cs)[x] + t else Refs(cs)[x]
    decreases |cs|
  {
    hide Waiting, Offer, Refs;
    if cs != [] {
      var n := |cs| - 1;
      OfferAllRefs(cs[..n], b, wants[..n], x);
      OfferIs(cs[n], b);
      var (ds, t) := OfferAll(cs, b, wants);
      assert ds[..n] == OfferAll(cs[..n], b, wants[..n]).0;
      RefsLast(cs);
      RefsLast(ds);
    } else {
      assert OfferAll(cs, b, wants) == ([], 0) && cs == [];
    }
  }

  lemma HeadIsRef(cs: seq<Client>, i: nat, drop: bool)
    requires i < |cs| && (forall j :: 0 <= j < |cs| ==> ClientOk(cs[j])) && ClientOk(cs[i]) && cs[i].rd != cs[i].wr
    ensures Refs(cs) == Refs(cs[i := PopOne(cs[i], drop).0]) + multiset{PopOne(cs[i], drop).1}
  {
    hide Waiting, Refs;
    var (c, b) := PopOne(cs[i], drop);
    PopIs(cs[i], drop);
    RefsUpdate(cs, i, c);
    assert multiset(Waiting(cs[i])) == multiset(Waiting(c)) + multiset{b};
    Cancel(Refs(cs), Refs(cs[i := c]), multiset(Waiting(cs[i])), multiset(Waiting(c)), multiset{b});
  }

  lemma PoppedHead(c: Client, drop: bool)
    requires ClientOk(c)
    ensures PopOne(c, drop).1 == c.fifo[c.rd]
  {
  }

  // Queueing a buffer that was not shared, and taking one reference away.
  lemma SharedAdd(refs: multiset<int>, refs': multiset<int>, b: int, t: nat)
    requires b !in refs && forall x {:trigger refs'[x]} :: refs'[x] == if x == b then t else refs[x]
    ensures Shared(refs') == if t == 0 then Shared(refs) else Shared(refs) + multiset{b}
  {
    if t == 0 {
      forall x: int ensures refs'[x] == refs[x] {}
      assert refs' == refs;
    } else {
      forall x: int ensures x in refs' <==> x in refs || x == b { assert refs'[x] == if x == b then t else refs[x]; }
      assert (set x | x in refs') == (set x | x in refs) + {b};
    }
  }

  lemma SharedRemove(refs: multiset<int>, refs': multiset<int>, b: int)
    requires refs == refs' + multiset{b}
    ensures Shared(refs) == if refs[b] == 1 then Shared(refs') + multiset{b} else Shared(refs')
  {
  }

  lemma SharedHas(refs: multiset<int>, b: int)
    ensures b in Shared(refs) <==> b in refs
  {
  }

  // A buffer that is referenced waits in some queue.
  lemma {:induction false} RefIsWaiting(cs: seq<Client>, x: int) returns (i: nat)
    requires (forall j :: 0 <= j < |cs| ==> ClientOk(cs[j])) && x in Refs(cs)
    ensures i < |cs| && cs[i].rd != cs[i].wr
    decreases |cs|
  {
    if cs != [] { RefsLast(cs); }
    i := |cs| - 1;
    if cs[i].rd == cs[i].wr {
      i := RefIsWaiting(cs[..i], x);
    }
  }

  // What has left a queue: a buffer, and whether it was dropped rather than given to the client.
  type Left = (int, bool)

  function Buffers(gone: seq<Left>): (r: seq<int>)
    ensures |r| == |gone| && forall n :: 0 <= n < |gone| ==> r[n] == gone[n].0
  {
    seq(|gone|, n requires 0 <= n < |gone| => gone[n].0)
  }

  // Gluing one step of a queue to the rest of a run.
  lemma QueueGlue(waiting: seq<int>, put: seq<int>, gone: seq<Left>, waiting1: seq<int>,
                  puts: seq<int>, gones: seq<Left>, end: seq<int>)
    requires waiting + put == Buffers(gone) + waiting1 && waiting1 + puts == Buffers(gones) + end
    ensures waiting + (put + puts) == Buffers(gone + gones) + end
  {
    hide Buffers;
    assert Buffers(gone + gones) == Buffers(gone) + Buffers(gones);
    OrderGlue(waiting, put, Buffers(gone), waiting1, puts, Buffers(gones), end);
  }

  // Clients with empty queues.
  function Fresh(n: nat, size: nat): (cs: seq<Client>)
    requires size > 0
    ensures |cs| == n && forall i :: 0 <= i < n ==> ClientOk(cs[i])
  {
    seq(n, _ => Client(0, 0, seq(size, _ => 0), 0))
  }

  lemma {:induction false} NoRefs(n: nat, size: nat)
    requires size > 0
    ensures Refs(Fresh(n, size)) == multiset{}
  {
    if n > 0 {
      NoRefs(n - 1, size);
      RefsLast(Fresh(n, size));
      assert Fresh(n, size)[..n - 1] == Fresh(n - 1, size);
    }
  }
}
