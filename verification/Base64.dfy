/** What Base64 text stands for, and the laws between encoding and decoding. */
module Base64 {
  import opened Common

  // ---------------------------------------------------------------- the alphabet

  const PADDING: char := '='
  const INVALID: int := 0xff

  /** The letter for a digit, in the alphabet of section 4 of RFC 4648. */
  function Letter(i: nat): char
    requires i < 64
  {
    if i < 26 then ('A' as int + i) as char
    else if i < 52 then ('a' as int + i - 26) as char
    else if i < 62 then ('0' as int + i - 52) as char
    else if i == 62 then '+'
    else '/'
  }

  /** The value of a character: the alphabets of sections 4 and 5 of RFC 4648, and zero for the padding. */
  function Value(c: char): int {
    if 'A' <= c <= 'Z' then c as int - 'A' as int
    else if 'a' <= c <= 'z' then c as int - 'a' as int + 26
    else if '0' <= c <= '9' then c as int - '0' as int + 52
    else if c == '+' || c == '-' then 62
    else if c == '/' || c == '_' then 63
    else if c == PADDING then 0
    else INVALID
  }

  lemma ValueRange(c: char)
    ensures Value(c) == INVALID || 0 <= Value(c) < 64
  {
  }

  lemma PaddingIsZero()
    ensures Value(PADDING) == 0
  {
  }

  lemma ValueOfLetter(i: nat)
    requires i < 64
    ensures Value(Letter(i)) == i && Letter(i) !in ['-', '_', PADDING]
  {
  }

  lemma LetterOfValue(c: char)
    requires Value(c) != INVALID && c !in ['-', '_', PADDING]
    ensures 0 <= Value(c) < 64 && Letter(Value(c)) == c
  {
  }

  function EncSize(n: nat): nat {
    (n + 2) / 3 * 4
  }

  function DecSize(n: nat): nat {
    (n + 3) / 4 * 3
  }

  // ---------------------------------------------------------------- groups: 24 bits, as three bytes and as four digits

  function Bits(b0: byte, b1: byte, b2: byte): (v: nat)
    ensures v < 0x100_0000
  {
    b0 * 0x1_0000 + b1 * 0x100 + b2
  }

  function Digit(v: nat, k: nat): (d: nat)
    requires v < 0x100_0000 && k < 4
    ensures d < 64
  {
    if k == 0 then v / 0x4_0000 else if k == 1 then v / 0x1000 % 64 else if k == 2 then v / 64 % 64 else v % 64
  }

  function Quad(v: nat): (q: string)
    requires v < 0x100_0000
    ensures |q| == 4
  {
    [Letter(Digit(v, 0)), Letter(Digit(v, 1)), Letter(Digit(v, 2)), Letter(Digit(v, 3))]
  }

  function Encoded(src: seq<byte>): string {
    if |src| == 0 then []
    else if |src| == 1 then Quad(Bits(src[0], 0, 0))[..2] + [PADDING, PADDING]
    else if |src| == 2 then Quad(Bits(src[0], src[1], 0))[..3] + [PADDING]
    else Quad(Bits(src[0], src[1], src[2])) + Encoded(src[3..])
  }

  predicate IsDigit(c: char) {
    Value(c) != INVALID
  }

  predicate AllDigits(s: string) {
    forall i :: 0 <= i < |s| ==> IsDigit(s[i])
  }

  function Triple(g: string): (t: seq<byte>)
    requires |g| == 4 && AllDigits(g)
    ensures |t| == 3
  {
    ValueRange(g[0]); ValueRange(g[1]); ValueRange(g[2]); ValueRange(g[3]);
    var v := Value(g[0]) * 0x4_0000 + Value(g[1]) * 0x1000 + Value(g[2]) * 64 + Value(g[3]);
    [v / 0x1_0000, v / 0x100 % 0x100, v % 0x100]
  }

  function Groups(s: string): (t: seq<byte>)
    requires |s| % 4 == 0 && AllDigits(s)
    ensures |t| == |s| / 4 * 3
  {
    if s == [] then [] else Triple(s[..4]) + Groups(s[4..])
  }

  /** The text with the padding that was left out. */
  function Padded(s: string): string {
    if |s| % 4 == 2 then s + [PADDING, PADDING] else if |s| % 4 == 3 then s + [PADDING] else s
  }

  /** How many of the last two characters are padding. */
  function Pads(s: string): (n: nat)
    ensures n <= 2
  {
    if |s| < 2 then 0
    else (if s[|s| - 1] == PADDING then 1 else 0) + (if s[|s| - 2] == PADDING then 1 else 0)
  }

  predicate Accepted(s: string) {
    AllDigits(s) && |s| % 4 != 1
  }

  lemma PaddedIsDigits(s: string)
    requires Accepted(s)
    ensures |Padded(s)| % 4 == 0 && AllDigits(Padded(s))
    ensures |Padded(s)| / 4 * 3 == DecSize(|s|)
    ensures s != [] ==> 4 <= |Padded(s)|
  {
    hide Value;
    PaddingIsZero();
  }

  function Decoded(s: string): (r: Option<seq<byte>>) {
    if !Accepted(s) then None else
      PaddedIsDigits(s);
      var p := Padded(s);
      var t := Groups(p);
      Some(t[..|t| - Pads(p)])
  }

  // ---------------------------------------------------------------- sizes

  lemma EncSizeOf(n: nat)
    ensures EncSize(n) == if n == 0 then 0 else if n <= 3 then 4 else 4 + EncSize(n - 3)
    ensures 3 <= n ==> EncSize(n) == 4 + EncSize(n - 3)
  {
  }

  lemma {:induction false} EncodedSize(src: seq<byte>)
    ensures |Encoded(src)| == EncSize(|src|)
  {
    hide Quad, EncSize, Bits;
    EncSizeOf(|src|);
    if |src| >= 3 {
      EncodedSize(src[3..]);
      EncSizeOf(|src| - 3);
    }
  }

  lemma DecodedSize(s: string)
    ensures Decoded(s).Some? ==> |Decoded(s).value| == DecSize(|s|) - Pads(Padded(s))
  {
    hide Groups, Value;
    if Accepted(s) {
      PaddedIsDigits(s);
    }
  }

  // ---------------------------------------------------------------- decoding undoes encoding

  lemma BitsOfDigits(v: nat)
    requires v < 0x100_0000
    ensures v == Digit(v, 0) * 0x4_0000 + Digit(v, 1) * 0x1000 + Digit(v, 2) * 64 + Digit(v, 3)
  {
    assert v / 64 == v / 0x1000 * 64 + v / 64 % 64;
    assert v / 0x1000 == v / 0x4_0000 * 64 + v / 0x1000 % 64;
  }

  lemma LowByte(high: int, low: byte)
    ensures (high * 0x100 + low) / 0x100 == high && (high * 0x100 + low) % 0x100 == low
  {
  }

  lemma BytesOfBits(b0: byte, b1: byte, b2: byte)
    ensures var v := Bits(b0, b1, b2); v / 0x1_0000 == b0 && v / 0x100 % 0x100 == b1 && v % 0x100 == b2
  {
    var v: int, high: int := Bits(b0, b1, b2), b0;
    LowByte(high, b1);
    LowByte(high * 0x100 + b1, b2);
    assert v == (high * 0x100 + b1) * 0x100 + b2;
    assert v / 0x1_0000 == v / 0x100 / 0x100;
  }

  lemma TripleOf(v: nat, g: string)
    requires v < 0x100_0000 && |g| == 4
    requires forall k :: 0 <= k < 4 ==> Value(g[k]) == Digit(v, k)
    ensures AllDigits(g) && Triple(g) == [v / 0x1_0000, v / 0x100 % 0x100, v % 0x100]
  {
    hide Digit, Value;
    BitsOfDigits(v);
  }

  lemma QuadDecodes(v: nat, k: nat)
    requires v < 0x100_0000 && k < 4
    ensures Value(Quad(v)[k]) == Digit(v, k) && Quad(v)[k] != PADDING
  {
    hide Digit, Value, Letter;
    ValueOfLetter(Digit(v, k));
  }

  /** A last group of one or two bytes: the digits that padding replaces are zero. */
  lemma LowDigits(v: nat)
    requires v < 0x100_0000
    ensures v % 0x100 == 0 ==> Digit(v, 3) == 0
    ensures v % 0x1_0000 == 0 ==> Digit(v, 2) == 0 && Digit(v, 3) == 0
  {
    if v % 0x100 == 0 {
      SixBits(v / 0x100 * 4, v);
    }
    if v % 0x1_0000 == 0 {
      SixBits(v / 0x1_0000 * 1024, v);
      SixBits(v / 0x1_0000 * 16, v / 64);
    }
  }

  lemma SixBits(q: nat, v: nat)
    requires v == q * 64
    ensures v % 64 == 0 && v / 64 == q
  {
  }

  /** A group of one to three bytes, encoded and decoded. */
  lemma GroupRoundTrip(src: seq<byte>)
    requires 0 < |src| <= 3
    ensures |Encoded(src)| == 4 && AllDigits(Encoded(src)) && Pads(Encoded(src)) == 3 - |src|
    ensures Triple(Encoded(src))[..|src|] == src
  {
    hide Digit, Value, Quad, Triple;
    var b1: byte, b2: byte := if |src| > 1 then src[1] else 0, if |src| > 2 then src[2] else 0;
    var v := Bits(src[0], b1, b2);
    var q, g := Quad(v), Encoded(src);
    assert |src| == 3 ==> g == q + Encoded(src[3..]) && Encoded(src[3..]) == [];
    PaddingIsZero();
    LowDigits(v);
    forall k: nat | k < 4
      ensures Value(g[k]) == Digit(v, k) && (g[k] == PADDING <==> k > |src|)
    {
      QuadDecodes(v, k);
    }
    TripleOf(v, g);
    BytesOfBits(src[0], b1, b2);
  }

  // ---------------------------------------------------------------- whole texts

  /** How many bytes a last group lacks. */
  function Missing(n: nat): nat {
    if n % 3 == 0 then 0 else 3 - n % 3
  }

  /** The text consists of whole groups that hold the bytes and as many more as there is padding. */
  ghost predicate Holds(e: string, src: seq<byte>) {
    && |e| % 4 == 0 && AllDigits(e) && (src != [] ==> 4 <= |e|)
    && Pads(e) == Missing(|src|)
    && |Groups(e)| == |src| + Missing(|src|) && Groups(e)[..|src|] == src
  }

  lemma HoldsNone()
    ensures Holds(Encoded([]), [])
  {
  }

  lemma HoldsGroup(src: seq<byte>)
    requires 0 < |src| <= 3
    ensures Holds(Encoded(src), src)
  {
    hide Encoded, Triple, Pads, AllDigits, Groups, Missing;
    GroupRoundTrip(src);
    OneGroup(Encoded(src));
    MissingOf(|src|);
  }

  lemma MissingOf(n: nat)
    requires 0 < n <= 3
    ensures Missing(n) == 3 - n
  {
  }

  lemma HoldsJoin(g: string, first: seq<byte>, e: string, src: seq<byte>)
    requires |g| == 4 && AllDigits(g) && Triple(g) == first && Holds(e, src) && src != []
    ensures Holds(g + e, first + src)
  {
    hide Triple, Pads, IsDigit, Groups;
    JoinGroups(g, e);
    var t := Groups(e);
    assert (first + t)[..3 + |src|] == first + t[..|src|];
  }

  lemma {:induction false} EncodedHolds(src: seq<byte>)
    ensures Holds(Encoded(src), src)
  {
    hide Encoded, Holds, Triple;
    if |src| == 0 {
      HoldsNone();
    } else if |src| <= 3 {
      HoldsGroup(src);
    } else {
      FirstGroup(src);
      GroupRoundTrip(src[..3]);
      EncodedHolds(src[3..]);
      var t := Triple(Encoded(src[..3]));
      assert t[..3] == t;
      HoldsJoin(Encoded(src[..3]), src[..3], Encoded(src[3..]), src[3..]);
      assert src == src[..3] + src[3..];
    }
  }

  lemma FirstGroup(src: seq<byte>)
    requires |src| >= 3
    ensures Encoded(src) == Encoded(src[..3]) + Encoded(src[3..])
  {
    hide Quad, Bits;
    var first := src[..3];
    assert Encoded(first[3..]) == [];
    assert Encoded(first) == Quad(Bits(src[0], src[1], src[2])) + Encoded(first[3..]);
  }

  lemma OneGroup(g: string)
    requires |g| == 4 && AllDigits(g)
    ensures Groups(g) == Triple(g)
  {
    hide Triple, IsDigit;
    assert g[..4] == g;
    assert Groups(g[4..]) == [];
  }

  lemma JoinGroups(g: string, rest: string)
    requires |g| == 4 && AllDigits(g) && |rest| % 4 == 0 && AllDigits(rest)
    ensures AllDigits(g + rest) && Groups(g + rest) == Triple(g) + Groups(rest)
    ensures 2 <= |rest| ==> Pads(g + rest) == Pads(rest)
  {
    hide Triple, IsDigit;
    assert (g + rest)[..4] == g && (g + rest)[4..] == rest;
  }

  /** Decoding an encoding yields the bytes. */
  lemma RoundTrip(src: seq<byte>)
    ensures Decoded(Encoded(src)) == Some(src)
  {
    hide Encoded, Groups, AllDigits;
    EncodedHolds(src);
  }

  /** So it does when some or all of the padding is left out. */
  lemma StrippedRoundTrip(src: seq<byte>, k: nat)
    requires k <= Pads(Encoded(src))
    ensures k <= |Encoded(src)| && Decoded(Encoded(src)[..|Encoded(src)| - k]) == Some(src)
  {
    hide Encoded, Decoded, Padded, Groups, IsDigit;
    var e := Encoded(src);
    EncodedHolds(src);
    PadsAtTheEnd(src);
    PaddedStripped(e, Missing(|src|), k);
    DecodedAsPadded(e[..|e| - k]);
    RoundTrip(src);
  }

  lemma PaddedStripped(e: string, n: nat, k: nat)
    requires |e| % 4 == 0 && k <= n <= 2
    requires EndsInPadding(e, n)
    ensures Padded(e[..|e| - k]) == e && |e[..|e| - k]| % 4 != 1
  {
    var s := e[..|e| - k];
    assert e == s + e[|e| - k..];
  }

  lemma DecodedAsPadded(s: string)
    requires Accepted(s)
    ensures Decoded(Padded(s)) == Decoded(s)
  {
    hide Groups, IsDigit;
    PaddedIsDigits(s);
  }

  ghost predicate EndsInPadding(e: string, n: nat) {
    n <= |e| && forall i :: |e| - n <= i < |e| ==> e[i] == PADDING
  }

  lemma GroupEndsInPadding(src: seq<byte>)
    requires |src| <= 3
    ensures EndsInPadding(Encoded(src), Missing(|src|))
  {
    hide Quad, Bits;
  }

  lemma {:induction false} PadsAtTheEnd(src: seq<byte>)
    ensures EndsInPadding(Encoded(src), Missing(|src|))
  {
    hide Encoded;
    if |src| <= 3 {
      GroupEndsInPadding(src);
    } else {
      PadsAtTheEnd(src[3..]);
      FirstGroup(src);
    }
  }

  // ---------------------------------------------------------------- the URL-safe alphabet

  function UrlSafe(s: string): (u: string)
    ensures |u| == |s|
    ensures forall i :: 0 <= i < |s| ==> u[i] == if s[i] == '+' then '-' else if s[i] == '/' then '_' else s[i]
  {
    seq(|s|, i requires 0 <= i < |s| => if s[i] == '+' then '-' else if s[i] == '/' then '_' else s[i])
  }

  /** The two alphabets may even be mixed: a text and its URL-safe form decode alike, or are refused alike. */
  lemma UrlSafeDecodesAlike(s: string)
    ensures Decoded(UrlSafe(s)) == Decoded(s)
  {
    hide Value, Groups, UrlSafe;
    var u := UrlSafe(s);
    forall i | 0 <= i < |s|
      ensures Value(u[i]) == Value(s[i]) && (u[i] == PADDING <==> s[i] == PADDING)
    {
      SameValue(s[i], u[i]);
    }
    assert AllDigits(u) <==> AllDigits(s) by {
      assert forall i :: 0 <= i < |s| ==> (IsDigit(u[i]) <==> IsDigit(s[i]));
    }
    if Accepted(s) {
      PaddedIsDigits(s);
      PaddedIsDigits(u);
      SameGroups(Padded(u), Padded(s));
    }
  }

  lemma SameValue(c: char, u: char)
    requires u == if c == '+' then '-' else if c == '/' then '_' else c
    ensures Value(u) == Value(c) && (u == PADDING <==> c == PADDING)
  {
  }

  lemma {:induction false} SameGroups(u: string, s: string)
    requires |u| == |s| && |s| % 4 == 0 && AllDigits(s) && AllDigits(u)
    requires forall i :: 0 <= i < |s| ==> Value(u[i]) == Value(s[i])
    ensures Groups(u) == Groups(s)
  {
    hide Value;
    if s != [] {
      SameGroups(u[4..], s[4..]);
    }
  }

  // ---------------------------------------------------------------- the digits of a group

  lemma DigitsOfBits(d0: nat, d1: nat, d2: nat, d3: nat)
    requires d0 < 64 && d1 < 64 && d2 < 64 && d3 < 64
    ensures var v := d0 * 0x4_0000 + d1 * 0x1000 + d2 * 64 + d3;
            && v < 0x100_0000 && Bits(v / 0x1_0000, v / 0x100 % 0x100, v % 0x100) == v
            && Digit(v, 0) == d0 && Digit(v, 1) == d1 && Digit(v, 2) == d2 && Digit(v, 3) == d3
  {
    var v := d0 * 0x4_0000 + d1 * 0x1000 + d2 * 64 + d3;
    LowSix(d0, d1);
    LowSix(d0 * 64 + d1, d2);
    LowSix((d0 * 64 + d1) * 64 + d2, d3);
    assert v == ((d0 * 64 + d1) * 64 + d2) * 64 + d3;
    assert v / 0x1000 == v / 64 / 64;
    assert v / 0x4_0000 == v / 0x1000 / 64;
    assert v / 0x1_0000 == v / 0x100 / 0x100;
  }

  lemma LowSix(high: nat, low: nat)
    requires low < 64
    ensures (high * 64 + low) / 64 == high && (high * 64 + low) % 64 == low
  {
  }
}
