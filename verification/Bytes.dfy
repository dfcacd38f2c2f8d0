/** Bytes, and words in memory: the low byte comes first. */
module Bytes {
  type Byte = x: int | 0 <= x < 256

  function Encode(n: nat): (w: seq<Byte>)
    ensures |w| == 4
  {
    [n % 256, n / 256 % 256, n / 0x1_0000 % 256, n / 0x100_0000 % 256]
  }

  function Decode(w: seq<Byte>): nat
    requires |w| == 4
  {
    w[0] as int + 256 * (w[1] as int) + 0x1_0000 * (w[2] as int) + 0x100_0000 * (w[3] as int)
  }

  lemma DecodeEncode(n: nat)
    requires n < 0x1_0000_0000
    ensures Decode(Encode(n)) == n
  {
    var y1 := n / 256;
    var y2 := y1 / 256;
    var y3 := y2 / 256;
    HalfWord(n);
    HalfWord(y1);
    assert n / 0x100_0000 == y3 && y3 < 256;
    assert n == n % 256 + 256 * y1 && y1 == y1 % 256 + 256 * y2 && y2 == y2 % 256 + 256 * y3;
  }

  lemma Digit(d: int, y: nat)
    requires 0 <= d < 256
    ensures (d + 256 * y) % 256 == d && (d + 256 * y) / 256 == y
  {
  }

  // A word's bytes are its digits.
  lemma Digits(w: seq<Byte>)
    requires |w| == 4
    ensures var v := Decode(w);
            && v < 0x1_0000_0000 && v % 256 == w[0] && v / 256 % 256 == w[1]
            && v / 256 / 256 % 256 == w[2] && v / 256 / 256 / 256 == w[3]
            && v / 0x10000 == w[2] + 256 * (w[3] as int)
  {
    var y3: nat := w[3];
    var y2 := w[2] + 256 * y3;
    var y1 := w[1] + 256 * y2;
    assert Decode(w) == w[0] + 256 * y1;
    Digit(w[0], y1);
    Digit(w[1], y2);
    Digit(w[2], y3);
    HalfWord(Decode(w));
  }

  lemma HalfWord(v: nat)
    ensures v / 256 / 256 == v / 0x10000
  {
  }

  // Different bytes are different words.
  lemma DecodeIs(a: seq<Byte>, b: seq<Byte>)
    requires |a| == |b| == 4
    ensures Decode(a) == Decode(b) <==> a == b
  {
    hide Decode;
    Digits(a);
    Digits(b);
    if Decode(a) == Decode(b) {
      assert a == [a[0], a[1], a[2], a[3]] == b;
    }
  }
}
