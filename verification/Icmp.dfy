/** The ICMP echo example (icmp.xc): the Internet checksum (RFC 1071), the header and the
    one-carry update of the reply. Buffers are bytes; 16- and 32-bit loads take the low byte
    first, the fields of the packets have the high byte first. */
module Icmp {
  import opened Wrappers
  import opened Bytes

  const FULL := 0xFFFF
  const BUFFER := 1518  // ETHERNET_MAX_PACKET_SIZE, the size of both buffers

  // ------------------------------------------------------------------------------
  // Sums
  // ------------------------------------------------------------------------------

  // The sum of the 16-bit loads; an odd last byte is filled up with a zero.
  function Sum(b: seq<Byte>): nat {
    if |b| == 0 then 0
    else if |b| == 1 then b[0]
    else b[0] + 256 * (b[1] as int) + Sum(b[2..])
  }

  // The sum of the fields.
  function FieldSum(b: seq<Byte>): nat {
    if |b| == 0 then 0
    else if |b| == 1 then 256 * (b[0] as int)
    else 256 * (b[0] as int) + b[1] + FieldSum(b[2..])
  }

  // The loop that folds the carries.
  function Fold(a: nat): nat {
    if a < 0x10000 then a else Fold(a % 0x10000 + a / 0x10000)
  }

  // Ones'-complement arithmetic is arithmetic modulo 65535, with zero kept apart.
  lemma {:induction false} FoldIs(a: nat)
    ensures Fold(a) <= FULL
    ensures Fold(a) % FULL == a % FULL && (Fold(a) == 0 <==> a == 0)
    ensures Fold(a) == FULL <==> a > 0 && a % FULL == 0
  {
    if a >= 0x10000 {
      var b := a % 0x10000 + a / 0x10000;
      FoldIs(b);
      assert a == b + FULL * (a / 0x10000);
      Shifted(b, a / 0x10000);
    }
  }

  lemma Shifted(b: nat, k: nat)
    ensures (b + FULL * k) % FULL == b % FULL
  {
  }

  // A block that holds its own checksum is valid.
  predicate Valid(b: seq<Byte>) {
    Fold(FieldSum(b)) == FULL
  }

  ghost function OddBytes(b: seq<Byte>): nat {
    if |b| < 2 then 0 else b[1] + OddBytes(b[2..])
  }

  lemma {:induction false} SwappedSum(b: seq<Byte>)
    ensures 256 * Sum(b) == FieldSum(b) + FULL * OddBytes(b)
    ensures FieldSum(b) == 0 <==> Sum(b) == 0
  {
    if |b| >= 2 {
      SwappedSum(b[2..]);
    }
  }

  /** The sum of the loads shows validity as well as the sum of the fields (RFC 1071,
      section 2 (B)). */
  lemma ByteOrder(b: seq<Byte>)
    ensures Valid(b) <==> Fold(Sum(b)) == FULL
  {
    SwappedSum(b);
    FoldIs(Sum(b));
    FoldIs(FieldSum(b));
    var s, f, k := Sum(b), FieldSum(b), OddBytes(b);
    if s % FULL == 0 {
      Multiple(256 * (s / FULL) - k, f);
    }
    if f % FULL == 0 {
      Multiple(256 * (f / FULL) + 256 * k - s, s);
    }
  }

  lemma Multiple(k: int, n: nat)
    requires n == FULL * k
    ensures n % FULL == 0
  {
  }

  // byterev
  function ByteRev(w: nat): nat
    requires w < 0x1_0000_0000
  {
    var b := Encode(w);
    Decode([b[3], b[2], b[1], b[0]])
  }

  // The two high bytes of a reversed word are its low ones, swapped.
  lemma ByteRevHigh(w: nat)
    requires w < 0x1_0000_0000
    ensures ByteRev(w) / 0x10000 == 256 * (w % 256) + w / 256 % 256
  {
  }

  function ChecksumIp(frame: seq<Byte>): nat
    requires |frame| >= 34
  {
    FoldIs(Sum(frame[14..34]));
    ByteRev(0xFFFF_FFFF - Fold(Sum(frame[14..34]))) / 0x10000
  }

  /** checksum_ip is 0 exactly on a valid header. */
  lemma ChecksumIpIs(frame: seq<Byte>)
    requires |frame| >= 34
    ensures ChecksumIp(frame) == 0 <==> Valid(frame[14..34])
  {
    hide ByteRev, Fold, Sum, Valid;
    var a := Fold(Sum(frame[14..34]));
    FoldIs(Sum(frame[14..34]));
    ByteRevHigh(0xFFFF_FFFF - a);
    ByteOrder(frame[14..34]);
  }

  method FoldCarries(accum: nat) returns (r: nat)
    ensures r == Fold(accum)
  {
    r := accum;
    while r / 0x10000 != 0
      invariant Fold(r) == Fold(accum)
      decreases r
    {
      r := r % 0x10000 + r / 0x10000;
    }
  }

  lemma SumFirst(b: seq<Byte>)
    ensures b == [] ==> Sum(b) == 0
    ensures |b| >= 2 ==> Sum(b) == b[0] + 256 * (b[1] as int) + Sum(b[2..])
  {
  }

  method GetChecksumIp(frame: array<Byte>) returns (r: nat)
    requires frame.Length >= 34
    ensures r == ChecksumIp(frame[..])
  {
    hide Fold, ByteRev, Sum;
    var accum: nat := 0;
    ghost var header := frame[..][14..34];
    var i := 14;
    while i < 34
      invariant 14 <= i <= 34 && i % 2 == 0
      invariant accum + Sum(header[i - 14..]) == Sum(header)
    {
      assert header[i - 14..][2..] == header[i + 2 - 14..];
      assert header[i - 14] == frame[i] && header[i - 13] == frame[i + 1];
      SumFirst(header[i - 14..]);
      accum := accum + frame[i] + 256 * (frame[i + 1] as int);
      i := i + 2;
    }
    SumFirst(header[20..]);
    accum := FoldCarries(accum);
    FoldIs(Sum(header));
    r := ByteRev(0xFFFF_FFFF - accum) / 0x10000;
  }

  // ------------------------------------------------------------------------------
  // Packets
  // ------------------------------------------------------------------------------

  // The total length field of the IP header.
  function TotalLength(rx: seq<Byte>): nat
    requires |rx| >= 18
  {
    256 * (rx[16] as int) + rx[17]
  }

  predicate Accepts(rx: seq<Byte>, nbytes: nat, ip: seq<Byte>)
    requires |rx| >= 42 && |ip| == 4
  {
    && rx[12..16] == [8, 0, 0x45, 0] && rx[23] == 1 && rx[34..36] == [8, 0] && rx[30..34] == ip
    && (nbytes > 60 ==> nbytes == TotalLength(rx) + 14)
    && Valid(rx[14..34])
  }

  // The sum that the reply's header checksum is made from: 0x0185 stands for its constant
  // fields.
  function HeaderSum(rx: seq<Byte>, ip: seq<Byte>): nat
    requires |rx| >= 42 && |ip| == 4
  {
    0x0185 + (256 * (rx[17] as int) + rx[16]) + (ip[0] + 256 * (ip[1] as int)) + (ip[2] + 256 * (ip[3] as int))
    + (rx[26] + 256 * (rx[27] as int)) + (rx[28] + 256 * (rx[29] as int))
  }

  function Header(rx: seq<Byte>, ip: seq<Byte>): (h: seq<Byte>)
    requires |rx| >= 42 && |ip| == 4
    ensures |h| == 20
  {
    FoldIs(HeaderSum(rx, ip));
    var c := FULL - Fold(HeaderSum(rx, ip));
    [0x45, 0, rx[16], rx[17], 0, 0, 0, 0, 0x40, 1, c % 256, c / 256] + ip + rx[26..30]
  }

  function IcmpChecksum(rx: seq<Byte>): nat
    requires |rx| >= 42
  {
    256 * (rx[36] as int) + rx[37]
  }

  // The one-carry update.
  function Updated(c: nat): (r: nat)
    requires c <= FULL
    ensures r <= FULL
  {
    var x := c + 0x0800;
    (x + x / 0x10000) % 0x10000
  }

  // The reply's bytes from the Ethernet type to the IP protocol, and the ICMP fields.
  function Fixed(rx: seq<Byte>): seq<Byte>
    requires |rx| >= 42
  {
    [8, 0, 0x45, 0, rx[16], rx[17], 0, 0, 0, 0, 0x40, 1]
  }

  function EchoFields(checksum: nat): seq<Byte>
    requires checksum <= FULL
  {
    [0, 0, Updated(checksum) / 256, Updated(checksum) % 256]
  }

  function Front(rx: seq<Byte>, mac: seq<Byte>, ip: seq<Byte>): (f: seq<Byte>)
    requires |rx| >= 42 && |mac| == 6 && |ip| == 4
    ensures |f| == 42
  {
    rx[6..12] + mac + [8, 0] + Header(rx, ip) + EchoFields(IcmpChecksum(rx)) + rx[38..42]
  }

  function Zeros(n: nat): (z: seq<Byte>)
    ensures |z| == n && forall i :: 0 <= i < n ==> z[i] == 0
  {
    seq(n, _ => 0)
  }

  // The reply: the request's total length cuts it, and zeros fill it up to 64 bytes.
  function Reply(rx: seq<Byte>, mac: seq<Byte>, ip: seq<Byte>): (r: seq<Byte>)
    requires |rx| >= 42 && |rx| >= 14 + TotalLength(rx) && |mac| == 6 && |ip| == 4
    ensures |r| == if 14 + TotalLength(rx) < 64 then 64 else 14 + TotalLength(rx)
  {
    var n := 14 + TotalLength(rx);
    (Front(rx, mac, ip) + rx[42..])[..n] + Zeros(if n < 64 then 64 - n else 0)
  }

  // What build_icmp_response does with buffers of equal size: None if its loop over the data
  // runs beyond them.
  function Built(rx: seq<Byte>, mac: seq<Byte>, ip: seq<Byte>): Option<seq<Byte>>
    requires |rx| >= 64 && |mac| == 6 && |ip| == 4
  {
    if 14 + TotalLength(rx) <= |rx| then Some(Reply(rx, mac, ip)) else None
  }

  // What icmp_server does with a packet that is no ARP request.
  datatype Response = Ignored | Overrun | Answer(reply: seq<Byte>)

  function Respond(rx: seq<Byte>, nbytes: nat, mac: seq<Byte>, ip: seq<Byte>): Response
    requires |rx| == BUFFER && |mac| == 6 && |ip| == 4
  {
    if !Accepts(rx, nbytes, ip) then Ignored
    else match Built(rx, mac, ip) case None => Overrun case Some(r) => Answer(r)
  }

  // The header that is built is valid.
  lemma HeaderIsValid(rx: seq<Byte>, ip: seq<Byte>)
    requires |rx| >= 42 && |ip| == 4
    ensures Sum(Header(rx, ip)) > 0 && Sum(Header(rx, ip)) % FULL == 0 && Valid(Header(rx, ip))
  {
    hide Header, HeaderSum, Sum, Fold;
    var h, s := Header(rx, ip), HeaderSum(rx, ip);
    HeaderSumIs(rx, ip);
    FoldIs(s);
    FoldIs(Sum(h));
    ByteOrder(h);
    Complemented(s, Fold(s));
  }

  lemma Complemented(s: nat, f: nat)
    requires s % FULL == f % FULL && f <= FULL
    ensures (s + (FULL - f)) % FULL == 0
  {
  }

  lemma HeaderSumIs(rx: seq<Byte>, ip: seq<Byte>)
    requires |rx| >= 42 && |ip| == 4
    ensures Fold(HeaderSum(rx, ip)) <= FULL
    ensures Sum(Header(rx, ip)) == HeaderSum(rx, ip) + (FULL - Fold(HeaderSum(rx, ip))) && HeaderSum(rx, ip) > 0
  {
    hide Sum, Fold;
    FoldIs(HeaderSum(rx, ip));
    SumOfTwenty(Header(rx, ip));
    var c := FULL - Fold(HeaderSum(rx, ip));
    assert c == c % 256 + 256 * (c / 256);
  }

  lemma SumOfTwenty(h: seq<Byte>)
    requires |h| == 20
    ensures Sum(h) == h[0] + h[2] + h[4] + h[6] + h[8] + h[10] + h[12] + h[14] + h[16] + h[18]
                      + 256 * (h[1] as int + h[3] + h[5] + h[7] + h[9] + h[11] + h[13] + h[15] + h[17] + h[19])
  {
    SumOfFour(h);
    SumOfFour(h[4..]);
    SumOfFour(h[8..]);
    SumOfFour(h[12..]);
    SumOfFour(h[16..]);
    assert h[4..][4..] == h[8..] && h[8..][4..] == h[12..] && h[12..][4..] == h[16..] && h[16..][4..] == [];
  }

  lemma SumOfFour(h: seq<Byte>)
    requires |h| >= 4
    ensures Sum(h) == h[0] + h[2] + 256 * (h[1] as int + h[3]) + Sum(h[4..])
    ensures FieldSum(h) == h[1] + h[3] + 256 * (h[0] as int + h[2]) + FieldSum(h[4..])
  {
  }

  // The header's bytes from the t-th on.
  function Lost(rx: seq<Byte>, ip: seq<Byte>, t: nat): nat
    requires |rx| >= 42 && |ip| == 4 && t <= 20
  {
    Sum(Zeros(t) + Header(rx, ip)[t..])
  }

  lemma {:induction false} SumSplit(b: seq<Byte>, t: nat)
    requires t <= |b|
    ensures Sum(b[..t] + Zeros(|b| - t)) + Sum(Zeros(t) + b[t..]) == Sum(b)
    decreases |b|
  {
    var x, y := b[..t] + Zeros(|b| - t), Zeros(t) + b[t..];
    if |b| >= 2 {
      var u := if t < 2 then 0 else t - 2;
      SumSplit(b[2..], u);
      assert x[2..] == b[2..][..u] + Zeros(|b[2..]| - u);
      assert y[2..] == Zeros(u) + b[2..][u..];
    }
  }

  lemma ReplyHeader(rx: seq<Byte>, mac: seq<Byte>, ip: seq<Byte>)
    requires |rx| >= 42 && |rx| >= 14 + TotalLength(rx) && |mac| == 6 && |ip| == 4
    ensures var t := if TotalLength(rx) < 20 then TotalLength(rx) else 20;
            Reply(rx, mac, ip)[14..34] == Header(rx, ip)[..t] + Zeros(20 - t)
  {
  }

  /** The reply's header makes checksum_ip return 0 whenever the request states a total
      length of an IP header or more. One that states less is answered with a header cut off
      there; it is valid only if what is lost sums to nothing in ones' complement. */
  lemma ReplyHeaderValidIff(rx: seq<Byte>, mac: seq<Byte>, ip: seq<Byte>)
    requires |rx| >= 64 && |mac| == 6 && |ip| == 4
    ensures var t := TotalLength(rx); var r := Built(rx, mac, ip);
            r.Some? ==> (ChecksumIp(r.value) == 0 <==> t >= 20 || (t > 0 && Lost(rx, ip, t) % FULL == 0))
  {
    if Built(rx, mac, ip).Some? { HeaderOfReply(rx, mac, ip); }
  }

  lemma HeaderOfReply(rx: seq<Byte>, mac: seq<Byte>, ip: seq<Byte>)
    requires |rx| >= 42 && |rx| >= 14 + TotalLength(rx) && |mac| == 6 && |ip| == 4
    ensures var t := TotalLength(rx);
            ChecksumIp(Reply(rx, mac, ip)) == 0 <==> t >= 20 || (t > 0 && Lost(rx, ip, t) % FULL == 0)
  {
    hide Reply, Header, ChecksumIp, Valid, Sum, Fold, TotalLength, Zeros;
    var t := if TotalLength(rx) < 20 then TotalLength(rx) else 20;
    var h := Header(rx, ip);
    var kept := h[..t] + Zeros(20 - t);
    ReplyHeader(rx, mac, ip);
    HeaderIsValid(rx, ip);
    ChecksumIpIs(Reply(rx, mac, ip));
    ByteOrder(kept);
    FoldIs(Sum(kept));
    SumSplit(h, t);
    if t == 20 {
      assert kept == h;
    } else {
      assert Lost(rx, ip, t) == Sum(Zeros(t) + h[t..]);
      KeptIsZeroIff(rx, ip, t);
    }
  }

  lemma KeptIsZeroIff(rx: seq<Byte>, ip: seq<Byte>, t: nat)
    requires |rx| >= 42 && |ip| == 4 && t < 20
    ensures Sum(Header(rx, ip)[..t] + Zeros(20 - t)) == 0 <==> t == 0
  {
    hide Fold, HeaderSum, Sum;
    if t > 0 {
      FirstCounts(Header(rx, ip)[..t] + Zeros(20 - t));
    } else {
      var kept := Header(rx, ip)[..t] + Zeros(20 - t);
      ZerosSum(20 - t);
      assert kept == Zeros(20 - t);
    }
  }

  lemma FirstCounts(b: seq<Byte>)
    requires |b| >= 2 && b[0] > 0
    ensures Sum(b) > 0
  {
  }

  lemma {:induction false} ZerosSum(n: nat)
    ensures Sum(Zeros(n)) == 0
  {
    if n >= 2 {
      assert Zeros(n)[2..] == Zeros(n - 2);
      ZerosSum(n - 2);
    }
  }

  // The update is a sum modulo 65535 and never gives 0.
  lemma UpdatedIs(c: nat)
    requires c <= FULL
    ensures Updated(c) % FULL == (c + 0x0800) % FULL && Updated(c) > 0
  {
  }

  /** The reply's ICMP message is valid exactly when the request's was, at any length. */
  lemma ReplyIcmpValidIff(rx: seq<Byte>, nbytes: nat, mac: seq<Byte>, ip: seq<Byte>)
    requires |rx| >= 64 && |mac| == 6 && |ip| == 4 && Accepts(rx, nbytes, ip)
    ensures var n := 14 + TotalLength(rx); var r := Built(rx, mac, ip);
            r.Some? && n >= 34 ==> (Valid(r.value[34..n]) <==> Valid(rx[34..n]))
  {
    hide Valid, Reply;
    var t := TotalLength(rx);
    if 20 <= t <= |rx| - 14 {
      ReplyMessage(rx, mac, ip);
      assert rx[34] == rx[34..36][0] && rx[35] == rx[34..36][1];
      if t >= 24 {
        MessageValidIff(rx[34..14 + t], Reply(rx, mac, ip)[34..14 + t], IcmpChecksum(rx));
      } else {
        TooShortForValid(rx[34..14 + t]);
        TooShortForValid(Reply(rx, mac, ip)[34..14 + t]);
      }
    }
  }

  lemma MessageValidIff(asked: seq<Byte>, answered: seq<Byte>, c: nat)
    requires |asked| >= 4 && asked[0] == 8 && asked[1] == 0 && c == 256 * (asked[2] as int) + asked[3]
    requires answered == EchoFields(c) + asked[4..]
    ensures Valid(answered) <==> Valid(asked)
  {
    hide Fold, Updated;
    var d := Updated(c);
    UpdatedIs(c);
    SumOfFour(asked);
    SumOfFour(answered);
    assert answered[4..] == asked[4..];
    FoldIs(FieldSum(asked));
    FoldIs(FieldSum(answered));
    SameModulo(FieldSum(asked), FieldSum(answered), c + 0x0800, d);
  }

  // A message too short for its checksum, with a type below 255 and code 0, is never valid.
  lemma TooShortForValid(b: seq<Byte>)
    requires |b| < 4 && (|b| > 0 ==> b[0] == 0 || b[0] == 8) && (|b| > 1 ==> b[1] == 0)
    ensures !Valid(b)
  {
    hide Fold;
    FoldIs(FieldSum(b));
    if |b| == 3 {
      var m := b[0] as int + b[2];
      assert FieldSum(b) == 256 * (b[0] as int) + b[1] + FieldSum(b[2..]);
      assert FieldSum(b) == 256 * m;
      NeverFull(m);
    } else {
      assert FieldSum(b) == 0 || FieldSum(b) == 2048;
    }
  }

  lemma NeverFull(m: nat)
    requires m < 512
    ensures 256 * m > 0 ==> 256 * m % FULL != 0
  {
  }

  lemma SameModulo(x: nat, y: nat, c: nat, d: nat)
    requires c <= x && y == x - c + d && c % FULL == d % FULL
    ensures x % FULL == y % FULL
  {
  }

  lemma ReplyMessage(rx: seq<Byte>, mac: seq<Byte>, ip: seq<Byte>)
    requires |rx| >= 42 && 20 <= TotalLength(rx) <= |rx| - 14 && |mac| == 6 && |ip| == 4
    ensures var n := 14 + TotalLength(rx); var m := EchoFields(IcmpChecksum(rx)) + rx[38..];
            Reply(rx, mac, ip)[34..n] == m[..n - 34]
  {
    hide Header, Updated, EchoFields;
    var n := 14 + TotalLength(rx);
    var f, e := Front(rx, mac, ip), EchoFields(IcmpChecksum(rx));
    assert |e| == 4 by { EchoLength(IcmpChecksum(rx)); }
    var whole := f + rx[42..];
    assert whole[34..] == e + rx[38..];
    assert Reply(rx, mac, ip)[34..n] == whole[34..n];
  }

  lemma EchoLength(c: nat)
    requires c <= FULL
    ensures |EchoFields(c)| == 4
  {
  }

  /** An accepted packet is answered, and all calls stay inside their buffers, exactly when it
      states a total length of 1504 bytes at most. With more than 60 bytes it does. */
  lemma AnsweredIff(rx: seq<Byte>, nbytes: nat, mac: seq<Byte>, ip: seq<Byte>)
    requires |rx| == BUFFER && nbytes <= BUFFER && |mac| == 6 && |ip| == 4
    ensures var r := Respond(rx, nbytes, mac, ip);
            && (r.Answer? <==> Accepts(rx, nbytes, ip) && TotalLength(rx) <= 1504)
            && (r.Overrun? <==> Accepts(rx, nbytes, ip) && TotalLength(rx) > 1504)
            && (r.Overrun? ==> nbytes <= 60)
  {
  }

  /** What an answer holds, for every packet that gets one. */
  lemma AnswerIsValidIff(rx: seq<Byte>, nbytes: nat, mac: seq<Byte>, ip: seq<Byte>)
    requires |rx| == BUFFER && nbytes <= BUFFER && |mac| == 6 && |ip| == 4
    ensures var r := Respond(rx, nbytes, mac, ip); var t := TotalLength(rx);
            r.Answer? ==>
              && |r.reply| == (if t < 50 then 64 else 14 + t)
              && (ChecksumIp(r.reply) == 0 <==> t >= 20 || (t > 0 && Lost(rx, ip, t) % FULL == 0))
              && (t >= 20 ==> (Valid(r.reply[34..14 + t]) <==> Valid(rx[34..14 + t])))
  {
    hide Reply, ChecksumIp, Lost, Valid;
    if Accepts(rx, nbytes, ip) {
      ReplyHeaderValidIff(rx, mac, ip);
      ReplyIcmpValidIff(rx, nbytes, mac, ip);
    }
  }

  /** A packet gets a response exactly if it is an IPv4 packet with a plain header that is valid,
      from the ICMP protocol, an echo request, to this address, and, above 60 bytes, as long as
      it states. */
  lemma RespondsIff(rx: seq<Byte>, nbytes: nat, mac: seq<Byte>, ip: seq<Byte>)
    requires |rx| == BUFFER && |mac| == 6 && |ip| == 4
    ensures !Respond(rx, nbytes, mac, ip).Ignored? <==>
      && rx[12] == 0x08 && rx[13] == 0x00 && rx[14] == 0x45 && rx[15] == 0 && rx[23] == 1
      && (forall i :: 0 <= i < 4 ==> rx[30 + i] == ip[i]) && rx[34] == 8 && rx[35] == 0
      && (nbytes > 60 ==> nbytes == 256 * (rx[16] as int) + rx[17] + 14)
      && ChecksumIp(rx) == 0
  {
    hide Valid, ChecksumIp, Reply;
    ChecksumIpIs(rx);
    var a, b, c := rx[12..16], rx[34..36], rx[30..34];
    assert a[0] == rx[12] && a[1] == rx[13] && a[2] == rx[14] && a[3] == rx[15];
    assert b[0] == rx[34] && b[1] == rx[35];
    assert forall i {:trigger c[i]} :: 0 <= i < 4 ==> c[i] == rx[30 + i];
  }

  /** What is in an answer to a packet that states an ICMP header or more: it goes back to the
      sender, as an echo reply with the request's identifier, sequence number and data, and
      zeros behind them. */
  lemma AnswerFields(rx: seq<Byte>, nbytes: nat, mac: seq<Byte>, ip: seq<Byte>)
    requires |rx| == BUFFER && |mac| == 6 && |ip| == 4
    ensures var r := Respond(rx, nbytes, mac, ip); var t := 256 * (rx[16] as int) + rx[17];
            r.Answer? && t >= 28 ==>
              var a := r.reply;
              && |a| == (if 14 + t < 64 then 64 else 14 + t)
              && a[..6] == rx[6..12] && a[6..12] == mac && a[12] == 0x08 && a[13] == 0x00
              && a[14] == 0x45 && a[15] == 0 && a[16] == rx[16] && a[17] == rx[17]
              && a[18] == 0 && a[19] == 0 && a[20] == 0 && a[21] == 0 && a[22] == 0x40 && a[23] == 1
              && a[26..30] == ip && a[30..34] == rx[26..30]
              && a[34] == 0 && a[35] == 0 && a[38..14 + t] == rx[38..14 + t]
              && forall i :: 14 + t <= i < |a| ==> a[i] == 0
  {
    hide Front, Reply, Valid;
    if Accepts(rx, nbytes, ip) && 28 <= TotalLength(rx) <= BUFFER - 14 {
      var n := 14 + TotalLength(rx);
      var f, a := Front(rx, mac, ip), Reply(rx, mac, ip);
      ReplyParts(rx, mac, ip);
      FrontParts(rx, mac, ip);
      assert a[..42] == f;
      assert forall i {:trigger f[i]} :: 0 <= i < 42 ==> a[i] == f[i];
      assert a[..6] == f[..6] && a[6..12] == f[6..12] && a[26..30] == f[26..30] && a[30..34] == f[30..34];
      assert a[38..42] == f[38..42] && a[42..n] == rx[42..n];
      assert a[38..n] == a[38..42] + a[42..n] && rx[38..n] == rx[38..42] + rx[42..n];
    }
  }

  lemma ReplyParts(rx: seq<Byte>, mac: seq<Byte>, ip: seq<Byte>)
    requires |mac| == 6 && |ip| == 4 && |rx| >= 42 && 28 <= TotalLength(rx) <= |rx| - 14
    ensures var n := 14 + TotalLength(rx);
            Reply(rx, mac, ip) == Front(rx, mac, ip) + rx[42..n] + Zeros(if n < 64 then 64 - n else 0)
  {
    hide Front;
    var n := 14 + TotalLength(rx);
    assert (Front(rx, mac, ip) + rx[42..])[..n] == Front(rx, mac, ip) + rx[42..n];
  }

  lemma FrontParts(rx: seq<Byte>, mac: seq<Byte>, ip: seq<Byte>)
    requires |rx| >= 42 && |mac| == 6 && |ip| == 4
    ensures var f := Front(rx, mac, ip);
            && f[..6] == rx[6..12] && f[6..12] == mac && f[26..30] == ip
            && f[30..34] == rx[26..30] && f[38..42] == rx[38..42]
            && f[12] == 0x08 && f[13] == 0x00 && f[14] == 0x45 && f[15] == 0 && f[16] == rx[16] && f[17] == rx[17]
            && f[18] == 0 && f[19] == 0 && f[20] == 0 && f[21] == 0 && f[22] == 0x40 && f[23] == 1
            && f[34] == 0 && f[35] == 0
  {
    hide HeaderSum, Fold, Updated;
    var f, h, e := Front(rx, mac, ip), Header(rx, ip), EchoFields(IcmpChecksum(rx));
    assert f == rx[6..12] + mac + [8, 0] + h + e + rx[38..42];
    assert f[14..34] == h && f[34..38] == e;
    HeaderAt(f, h);
    assert h[12..16] == ip && h[16..20] == rx[26..30];
    assert f[26..30] == f[14..34][12..16] && f[30..34] == f[14..34][16..20];
    assert f[34] == f[34..38][0] && f[35] == f[34..38][1];
  }

  lemma HeaderAt(a: seq<Byte>, h: seq<Byte>)
    requires |a| >= 34 && a[14..34] == h
    ensures forall i :: 0 <= i < 20 ==> a[14 + i] == h[i]
    ensures a[14] == h[0] && a[15] == h[1] && a[16] == h[2] && a[17] == h[3] && a[18] == h[4] && a[19] == h[5]
    ensures a[20] == h[6] && a[21] == h[7] && a[22] == h[8] && a[23] == h[9]
  {
  }

  /** A request that is accepted and whose reply has a bad header: it states 19 bytes in all,
      and the reply loses the last byte of the requester's address. */
  lemma ShortTotalLength(rx: seq<Byte>, mac: seq<Byte>, h: seq<Byte>, ip: seq<Byte>)
    requires h == [0x45, 0, 0, 19, 0, 0, 0, 0, 64, 1, 0x66, 0xE8, 10, 0, 0, 2, 10, 0, 0, 1] && ip == [10, 0, 0, 1]
    requires rx == Zeros(12) + [8, 0] + h + [8, 0] + Zeros(BUFFER - 36) && |mac| == 6
    ensures var r := Respond(rx, 60, mac, ip); r.Answer? && ChecksumIp(r.reply) != 0
  {
    hide Sum, FieldSum, Reply, ChecksumIp;
    assert rx[14..34] == h && rx[16] == h[2] && rx[17] == h[3] && rx[23] == h[9] && rx[29] == h[15];
    assert rx[30..34] == h[16..];
    SumOfTwenty(h);
    assert Sum(h) == 0xFFFF;
    ByteOrder(h);
    assert TotalLength(rx) == 19 && rx[34..36] == [8, 0];
    ReplyHeaderValidIff(rx, mac, ip);
    var lost := Zeros(19) + Header(rx, ip)[19..];
    SumOfTwenty(lost);
    assert Lost(rx, ip, 19) == 512;
  }

  /** A packet that is accepted and states 65535 bytes: the loop over the data leaves both
      buffers. */
  lemma LongTotalLength(rx: seq<Byte>, mac: seq<Byte>, h: seq<Byte>, ip: seq<Byte>)
    requires h == [0x45, 0, 0xFF, 0xFF, 0, 0, 0, 0, 64, 1, 0x66, 0xFB, 10, 0, 0, 2, 10, 0, 0, 1] && ip == [10, 0, 0, 1]
    requires rx == Zeros(12) + [8, 0] + h + [8, 0] + Zeros(BUFFER - 36) && |mac| == 6
    ensures Respond(rx, 60, mac, ip) == Overrun
  {
    hide Sum, FieldSum, Reply;
    assert rx[14..34] == h && rx[16] == h[2] && rx[17] == h[3] && rx[23] == h[9];
    assert rx[30..34] == h[16..] && rx[34..36] == [8, 0];
    SumOfTwenty(h);
    assert Sum(h) > 0 && Sum(h) % FULL == 0;
    FoldIs(Sum(h));
    ByteOrder(h);
  }

  // ------------------------------------------------------------------------------
  // The calls
  // ------------------------------------------------------------------------------

  method IsValidIcmpPacket(rx: array<Byte>, nbytes: nat, ip: seq<Byte>) returns (valid: bool)
    requires rx.Length >= 42 && |ip| == 4
    ensures valid == Accepts(rx[..], nbytes, ip)
  {
    ghost var b := rx[..];
    if rx[23] != 1 { return false; }
    if Decode(rx[12..16]) != 0x00450008 {
      DecodeIs(rx[12..16], [8, 0, 0x45, 0]);
      return false;
    }
    DecodeIs(rx[12..16], [8, 0, 0x45, 0]);
    assert b[12..16] == rx[12..16];
    if Decode(rx[32..36]) / 0x10000 != 8 {
      assert b[34..36][0] == rx[34] && b[34..36][1] == rx[35];
      return false;
    }
    assert b[34..36] == [8, 0];
    for i := 0 to 4
      invariant b[30..30 + i] == ip[..i]
    {
      if rx[30 + i] != ip[i] {
        assert b[30..34][i] == rx[30 + i];
        return false;
      }
    }
    assert b[30..34] == ip;
    var total := ByteRevHighOf(rx, 16);
    if nbytes > 60 && nbytes != total + 14 { return false; }
    var c := GetChecksumIp(rx);
    ChecksumIpIs(b);
    valid := c == 0;
  }

  // A loop that fills a field of the buffer.
  method Fill(tx: array<Byte>, at: nat, d: seq<Byte>)
    requires at + |d| <= tx.Length
    modifies tx
    ensures forall k :: 0 <= k < tx.Length ==> tx[k] == if at <= k < at + |d| then d[k - at] else old(tx[k])
  {
    for i := 0 to |d|
      invariant forall k :: 0 <= k < tx.Length ==> tx[k] == if at <= k < at + i then d[k - at] else old(tx[k])
    {
      tx[at + i] := d[i];
    }
  }

  // byterev(((const unsigned int *) rxbuf)[i / 4]) >> 16
  method ByteRevHighOf(rx: array<Byte>, i: nat) returns (r: nat)
    requires i + 4 <= rx.Length
    ensures r == 256 * (rx[i] as int) + rx[i + 1]
  {
    hide Decode, ByteRev;
    Digits(rx[i..i + 4]);
    ByteRevHigh(Decode(rx[i..i + 4]));
    r := ByteRev(Decode(rx[i..i + 4])) / 0x10000;
  }

  // The swapped total length, as a word of the reply.
  lemma SwappedTotal(high: Byte, low: Byte)
    ensures var t := 256 * (high as int) + low;
            && ByteRev(t) / 0x10000 == 256 * (low as int) + high
            && Encode(256 * (low as int) + high) == [high, low, 0, 0]
  {
    ByteRevHigh(256 * (high as int) + low);
    Digit(low, high);
    Digit(high, low);
  }

  lemma ConstantWords()
    ensures Encode(0x00450008) == [8, 0, 0x45, 0] && Encode(0x01400000) == [0, 0, 0x40, 1] && Encode(0) == [0, 0, 0, 0]
  {
  }

  lemma SwappedComplement(a: nat)
    requires a <= FULL
    ensures var r := ByteRev(0xFFFF_FFFF - a) / 0x10000;
            r / 256 % 256 == (FULL - a) % 256 && r % 256 == (FULL - a) / 256
  {
    var c := FULL - a;
    ByteRevHigh(0xFFFF_FFFF - a);
    hide ByteRev;
    var low, high := c % 256, c / 256;
    assert 0xFFFF_FFFF - a == low + 256 * (high + 256 * FULL);
    Digit(low, high + 256 * FULL);
    Digit(high, FULL);
    Digit(high, low);
  }

  // What build_icmp_response copies from the request, as far as the buffers go.
  method CopyFields(rx: array<Byte>, tx: array<Byte>) returns (inside: bool, dataLength: int)
    requires rx != tx && rx.Length == tx.Length >= 64
    modifies tx
    ensures dataLength == TotalLength(rx[..]) - 28 && (inside <==> 42 + dataLength <= rx.Length)
    ensures forall k :: 0 <= k < 6 ==> tx[k] == rx[6 + k]
    ensures forall k :: 30 <= k < 34 ==> tx[k] == rx[k - 4]
    ensures forall k :: 38 <= k < 42 ==> tx[k] == rx[k]
    ensures forall k :: 42 <= k < tx.Length ==> tx[k] == if k < 42 + dataLength then rx[k] else old(tx[k])
  {
    Fill(tx, 0, rx[6..12]);
    Fill(tx, 30, rx[26..30]);
    Fill(tx, 38, rx[38..42]);
    var total: int := ByteRevHighOf(rx, 16);
    dataLength := total - 28;
    assert forall k {:trigger tx[k]} :: 0 <= k < 6 ==> tx[k] == rx[6 + k];
    ghost var was := tx[..];
    var i := 0;
    while i < dataLength
      invariant 0 <= i && (i <= dataLength || i == 0) && 42 + i <= rx.Length
      invariant forall k :: 0 <= k < tx.Length ==> tx[k] == if 42 <= k < 42 + i then rx[k] else was[k]
    {
      if 42 + i >= rx.Length {
        return false, dataLength;
      }
      tx[42 + i] := rx[42 + i];
      i := i + 1;
    }
    inside := true;
  }

  // The rest of the IP header but for its checksum, and the sum for that.
  method FillHeader(rx: array<Byte>, tx: array<Byte>, dataLength: int, ip: seq<Byte>) returns (ipChecksum: nat)
    requires rx != tx && rx.Length >= 42 && tx.Length >= 64 && |ip| == 4
    requires dataLength == TotalLength(rx[..]) - 28 && forall k :: 30 <= k < 34 ==> tx[k] == rx[k - 4]
    modifies tx
    ensures ipChecksum == HeaderSum(rx[..], ip)
    ensures forall k :: 12 <= k < 24 ==> tx[k] == Fixed(rx[..])[k - 12]
    ensures forall k :: 26 <= k < 30 ==> tx[k] == ip[k - 26]
    ensures forall k :: 0 <= k < tx.Length && !(12 <= k < 30) ==> tx[k] == old(tx[k])
  {
    hide ByteRev, Encode;
    ConstantWords();
    SwappedTotal(rx[16], rx[17]);
    ipChecksum := 0x0185;
    Fill(tx, 12, Encode(0x00450008));
    var total := ByteRev(28 + dataLength) / 0x10000;
    Fill(tx, 16, Encode(total));
    ipChecksum := ipChecksum + total;
    Fill(tx, 20, Encode(0x01000000 + 0x40 * 0x10000));
    Fill(tx, 24, Encode(0));
    Fill(tx, 26, ip);
    ipChecksum := ipChecksum + (ip[0] + 256 * (ip[1] as int)) + (ip[2] + 256 * (ip[3] as int));
    ipChecksum := ipChecksum + (tx[30] + 256 * (tx[31] as int)) + (tx[32] + 256 * (tx[33] as int));
  }

  // build_icmp_response before its padding; it goes no further when the loop over the data
  // has left the buffers.
  method BuildFields(rx: array<Byte>, tx: array<Byte>, mac: seq<Byte>, ip: seq<Byte>)
    returns (inside: bool, dataLength: int)
    requires rx != tx && rx.Length == tx.Length >= 64 && |mac| == 6 && |ip| == 4
    modifies tx
    ensures dataLength == TotalLength(rx[..]) - 28 && (inside <==> 42 + dataLength <= rx.Length)
    ensures inside ==> tx[..42] == Front(rx[..], mac, ip)
    ensures forall k :: 42 <= k < tx.Length ==> tx[k] == if k < 42 + dataLength then rx[k] else old(tx[k])
  {
    hide ByteRev, Fold, HeaderSum, Front, Updated;
    var icmpChecksum := ByteRevHighOf(rx, 36);
    inside, dataLength := CopyFields(rx, tx);
    if !inside { return; }
    Fill(tx, 6, mac);
    var ipChecksum := FillHeader(rx, tx, dataLength, ip);
    FillIcmp(tx, icmpChecksum);
    FoldIs(ipChecksum);
    FillIpChecksum(tx, ipChecksum);
    FrontIs(rx[..], mac, ip, tx[..42]);
  }

  method FillIcmp(tx: array<Byte>, checksum: nat)
    requires tx.Length >= 64 && checksum <= FULL
    modifies tx
    ensures forall k :: 34 <= k < 38 ==> tx[k] == EchoFields(checksum)[k - 34]
    ensures forall k :: 0 <= k < tx.Length && !(34 <= k < 38) ==> tx[k] == old(tx[k])
  {
    tx[34], tx[35] := 0, 0;
    var icmpChecksum := checksum + 0x0800;
    icmpChecksum := icmpChecksum + icmpChecksum / 0x10000;
    LowHalf(icmpChecksum);
    tx[36] := icmpChecksum / 256 % 256;
    tx[37] := icmpChecksum % 256;
  }

  lemma LowHalf(x: nat)
    requires x < 0x2_0000
    ensures x % 0x10000 / 256 == x / 256 % 256 && x % 0x10000 % 256 == x % 256
  {
  }

  method FillIpChecksum(tx: array<Byte>, sum: nat)
    requires tx.Length >= 64 && Fold(sum) <= FULL
    modifies tx
    ensures var c := FULL - Fold(sum); tx[24] == c % 256 && tx[25] == c / 256
    ensures forall k :: 0 <= k < tx.Length && !(24 <= k < 26) ==> tx[k] == old(tx[k])
  {
    hide ByteRev, Fold;
    var ipChecksum := FoldCarries(sum);
    SwappedComplement(ipChecksum);
    ipChecksum := ByteRev(0xFFFF_FFFF - ipChecksum) / 0x10000;
    tx[24] := ipChecksum / 256 % 256;
    tx[25] := ipChecksum % 256;
  }

  lemma FrontIs(rx: seq<Byte>, mac: seq<Byte>, ip: seq<Byte>, f: seq<Byte>)
    requires |rx| >= 42 && |mac| == 6 && |ip| == 4 && |f| == 42 && Fold(HeaderSum(rx, ip)) <= FULL
    requires forall k :: 0 <= k < 6 ==> f[k] == rx[6 + k]
    requires forall k :: 6 <= k < 12 ==> f[k] == mac[k - 6]
    requires forall k :: 12 <= k < 24 ==> f[k] == Fixed(rx)[k - 12]
    requires var c := FULL - Fold(HeaderSum(rx, ip)); f[24] == c % 256 && f[25] == c / 256
    requires forall k :: 26 <= k < 30 ==> f[k] == ip[k - 26]
    requires forall k :: 30 <= k < 34 ==> f[k] == rx[k - 4]
    requires IcmpChecksum(rx) <= FULL && forall k :: 34 <= k < 38 ==> f[k] == EchoFields(IcmpChecksum(rx))[k - 34]
    requires forall k :: 38 <= k < 42 ==> f[k] == rx[k]
    ensures f == Front(rx, mac, ip)
  {
    hide Fold, HeaderSum, Updated;
    var h := Header(rx, ip);
    assert h == Fixed(rx)[2..] + [h[10], h[11]] + ip + rx[26..30];
    assert [8, 0] + h == Fixed(rx) + [h[10], h[11]] + ip + rx[26..30];
  }

  method BuildIcmpResponse(rx: array<Byte>, tx: array<Byte>, mac: seq<Byte>, ip: seq<Byte>) returns (r: Option<nat>)
    requires rx != tx && rx.Length == tx.Length >= 64 && |mac| == 6 && |ip| == 4
    modifies tx
    ensures r.Some? <==> Built(rx[..], mac, ip).Some?
    ensures r.Some? ==> r.value <= tx.Length && Some(tx[..r.value]) == Built(rx[..], mac, ip)
    ensures r.Some? ==> forall k :: r.value <= k < tx.Length ==> tx[k] == old(tx[k])
  {
    hide Front;
    var inside, dataLength := BuildFields(rx, tx, mac, ip);
    if !inside { return None; }
    ghost var was := tx[..];
    assert forall k :: 0 <= k < 42 ==> was[k] == tx[..42][k];
    var n := 42 + dataLength;
    while n < 64
      invariant 42 + dataLength <= n && (n <= 64 || n == 42 + dataLength)
      invariant forall k :: 0 <= k < tx.Length ==> tx[k] == if 42 + dataLength <= k < n then 0 else was[k]
    {
      tx[n] := 0;
      n := n + 1;
    }
    r := Some(n);
    assert tx[..n] == Reply(rx[..], mac, ip);
  }

  // The branch of icmp_server for a packet that is no ARP request.
  method Serve(rx: array<Byte>, tx: array<Byte>, nbytes: nat, mac: seq<Byte>, ip: seq<Byte>) returns (r: Response)
    requires rx != tx && rx.Length == tx.Length == BUFFER && |mac| == 6 && |ip| == 4
    modifies tx
    ensures r == Respond(rx[..], nbytes, mac, ip)
  {
    var valid := IsValidIcmpPacket(rx, nbytes, ip);
    if !valid { return Ignored; }
    var n := BuildIcmpResponse(rx, tx, mac, ip);
    r := if n.Some? then Answer(tx[..n.value]) else Overrun;
  }
}
