/**
 Base64 as a stream of bits, as RFC 4648 has it: the bits of the bytes, most significant first, are
 the bits of the digits, most significant first.
 */
module Base64Bits {
  import opened Common
  import opened Base64

  /** The low n bits of a number, the most significant one first. */
  function BitsOf(v: nat, n: nat): (b: seq<bool>)
    ensures |b| == n
  {
    if n == 0 then [] else BitsOf(v / 2, n - 1) + [v % 2 == 1]
  }

  function ByteBits(src: seq<byte>): (b: seq<bool>)
    ensures |b| == 8 * |src|
  {
    if src == [] then [] else BitsOf(src[0], 8) + ByteBits(src[1..])
  }

  /** The bits of the characters' values, six of each. */
  function TextBits(s: string): (b: seq<bool>)
    requires AllDigits(s)
    ensures |b| == 6 * |s|
  {
    if s == [] then [] else
      ValueRange(s[0]);
      BitsOf(Value(s[0]), 6) + TextBits(s[1..])
  }

  // ---------------------------------------------------------------- numbers made of parts

  lemma {:induction false} BitsJoin(a: nat, n: nat, b: nat, k: nat)
    requires b < Pow(2, k)
    ensures BitsOf(a * Pow(2, k) + b, n + k) == BitsOf(a, n) + BitsOf(b, k)
    decreases k
  {
    if k == 0 {
      assert BitsOf(a, n) + [] == BitsOf(a, n);
    } else {
      var p := Pow(2, k - 1);
      var v := a * Pow(2, k) + b;
      Halves(a, p, b);
      BitsJoin(a, n, b / 2, k - 1);
      assert BitsOf(a, n) + BitsOf(b / 2, k - 1) + [b % 2 == 1] == BitsOf(a, n) + (BitsOf(b / 2, k - 1) + [b % 2 == 1]);
    }
  }

  lemma Halves(a: nat, p: nat, b: nat)
    requires b < 2 * p
    ensures (a * (2 * p) + b) / 2 == a * p + b / 2 && (a * (2 * p) + b) % 2 == b % 2 && b / 2 < p
  {
    assert a * (2 * p) == 2 * (a * p);
  }

  lemma PowersOfTwo()
    ensures Pow(2, 6) == 64 && Pow(2, 8) == 0x100
  {
    assert Pow(2, 1) == 2 && Pow(2, 2) == 4 && Pow(2, 3) == 8 && Pow(2, 4) == 16 && Pow(2, 5) == 32;
    assert Pow(2, 6) == 2 * Pow(2, 5) && Pow(2, 7) == 2 * Pow(2, 6) && Pow(2, 8) == 2 * Pow(2, 7);
  }

  /** A group of 24 bits, as three bytes. */
  lemma BitsOfBytes(b0: nat, b1: nat, b2: nat)
    requires b0 < 0x100 && b1 < 0x100 && b2 < 0x100
    ensures BitsOf(b0 * 0x1_0000 + b1 * 0x100 + b2, 24) == BitsOf(b0, 8) + BitsOf(b1, 8) + BitsOf(b2, 8)
  {
    hide BitsOf, Pow;
    PowersOfTwo();
    BitsJoin(b0, 8, b1, 8);
    BitsJoin(b0 * 0x100 + b1, 16, b2, 8);
  }

  /** The same, as four digits. */
  lemma BitsOfSixes(d0: nat, d1: nat, d2: nat, d3: nat)
    requires d0 < 64 && d1 < 64 && d2 < 64 && d3 < 64
    ensures BitsOf(d0 * 0x4_0000 + d1 * 0x1000 + d2 * 64 + d3, 24)
            == BitsOf(d0, 6) + BitsOf(d1, 6) + BitsOf(d2, 6) + BitsOf(d3, 6)
  {
    hide BitsOf, Pow;
    PowersOfTwo();
    BitsJoin(d0, 6, d1, 6);
    BitsJoin(d0 * 64 + d1, 12, d2, 6);
    BitsJoin((d0 * 64 + d1) * 64 + d2, 18, d3, 6);
  }

  // ---------------------------------------------------------------- groups

  lemma ByteBitsOfThree(t: seq<byte>)
    requires |t| == 3
    ensures ByteBits(t) == BitsOf(t[0], 8) + BitsOf(t[1], 8) + BitsOf(t[2], 8)
  {
    hide BitsOf;
    assert t[1..][1..] == t[2..] && t[2..][1..] == [];
    assert ByteBits(t[2..]) == BitsOf(t[2], 8) + ByteBits([]);
    assert ByteBits(t[1..]) == BitsOf(t[1], 8) + ByteBits(t[2..]);
  }

  lemma TextBitsOfFour(g: string)
    requires |g| == 4 && AllDigits(g)
    ensures forall k :: 0 <= k < 4 ==> 0 <= Value(g[k]) < 64
    ensures TextBits(g)
            == BitsOf(Value(g[0]), 6) + BitsOf(Value(g[1]), 6) + BitsOf(Value(g[2]), 6) + BitsOf(Value(g[3]), 6)
  {
    hide BitsOf, Value;
    ValueRange(g[0]); ValueRange(g[1]); ValueRange(g[2]); ValueRange(g[3]);
    assert IsDigit(g[0]) && IsDigit(g[1]) && IsDigit(g[2]) && IsDigit(g[3]);
    assert g[1..][1..] == g[2..] && g[2..][1..] == g[3..] && g[3..][1..] == [];
    assert TextBits(g[3..]) == BitsOf(Value(g[3]), 6) + TextBits([]);
    assert TextBits(g[2..]) == BitsOf(Value(g[2]), 6) + TextBits(g[3..]);
    assert TextBits(g[1..]) == BitsOf(Value(g[1]), 6) + TextBits(g[2..]);
  }

  lemma TripleBits(g: string)
    requires |g| == 4 && AllDigits(g)
    ensures ByteBits(Triple(g)) == TextBits(g)
  {
    hide BitsOf, Value, ByteBits, TextBits;
    TextBitsOfFour(g);
    var d0, d1, d2, d3 := Value(g[0]), Value(g[1]), Value(g[2]), Value(g[3]);
    var v := d0 * 0x4_0000 + d1 * 0x1000 + d2 * 64 + d3;
    DigitsOfBits(d0, d1, d2, d3);
    BitsOfSixes(d0, d1, d2, d3);
    BitsOfBytes(v / 0x1_0000, v / 0x100 % 0x100, v % 0x100);
    ByteBitsOfThree(Triple(g));
  }

  // ---------------------------------------------------------------- whole texts

  lemma {:induction false} ByteBitsConcat(a: seq<byte>, b: seq<byte>)
    ensures ByteBits(a + b) == ByteBits(a) + ByteBits(b)
    decreases |a|
  {
    hide BitsOf;
    if a == [] {
      assert a + b == b;
    } else {
      assert (a + b)[1..] == a[1..] + b;
      ByteBitsConcat(a[1..], b);
      assert BitsOf(a[0], 8) + (ByteBits(a[1..]) + ByteBits(b)) == BitsOf(a[0], 8) + ByteBits(a[1..]) + ByteBits(b);
    }
  }

  lemma {:induction false} TextBitsConcat(a: string, b: string)
    requires AllDigits(a) && AllDigits(b) && AllDigits(a + b)
    ensures TextBits(a + b) == TextBits(a) + TextBits(b)
    decreases |a|
  {
    hide BitsOf, IsDigit, Value;
    if a == [] {
      assert a + b == b;
    } else {
      ValueRange(a[0]);
      assert (a + b)[1..] == a[1..] + b;
      TextBitsConcat(a[1..], b);
      var first := BitsOf(Value(a[0]), 6);
      assert first + (TextBits(a[1..]) + TextBits(b)) == first + TextBits(a[1..]) + TextBits(b);
    }
  }

  lemma {:induction false} GroupsBits(s: string)
    requires |s| % 4 == 0 && AllDigits(s)
    ensures ByteBits(Groups(s)) == TextBits(s)
  {
    hide ByteBits, TextBits, Triple, IsDigit;
    if s == [] {
      NoBits();
    } else {
      assert s == s[..4] + s[4..];
      GroupsBits(s[4..]);
      TripleBits(s[..4]);
      TextBitsConcat(s[..4], s[4..]);
      ByteBitsConcat(Triple(s[..4]), Groups(s[4..]));
    }
  }

  lemma NoBits()
    ensures ByteBits([]) == [] && TextBits([]) == []
  {
  }

  /** The bits of the decoded bytes are the first bits of the text, the padding counting as zeros. */
  lemma DecodedBits(s: string)
    requires Decoded(s).Some?
    ensures AllDigits(Padded(s)) && 8 * |Decoded(s).value| <= 6 * |Padded(s)|
    ensures ByteBits(Decoded(s).value) == TextBits(Padded(s))[..8 * |Decoded(s).value|]
  {
    hide ByteBits, TextBits, Groups, IsDigit, Padded;
    PaddedIsDigits(s);
    var p := Padded(s);
    var t := Groups(p);
    GroupsBits(p);
    var n := |t| - Pads(p);
    assert t == t[..n] + t[n..];
    ByteBitsConcat(t[..n], t[n..]);
  }

  /** The bits of the bytes are the first bits of their encoding. */
  lemma EncodedBits(src: seq<byte>)
    ensures AllDigits(Encoded(src)) && 8 * |src| <= 6 * |Encoded(src)|
    ensures TextBits(Encoded(src))[..8 * |src|] == ByteBits(src)
  {
    hide ByteBits, TextBits, Groups, IsDigit, Encoded;
    EncodedHolds(src);
    var e := Encoded(src);
    GroupsBits(e);
    var t := Groups(e);
    assert t == t[..|src|] + t[|src|..];
    ByteBitsConcat(t[..|src|], t[|src|..]);
  }
}
