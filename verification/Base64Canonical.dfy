/** Which texts are encodings: exactly those that decoding and encoding give back. */
module Base64Canonical {
  import opened Common
  import opened Base64
  import opened Base64Codec

  /** A letter of the alphabet that the encoder uses. */
  predicate Standard(c: char) {
    Value(c) != INVALID && c !in ['-', '_', PADDING]
  }

  /** How many padding characters the text ends in, at most two. */
  function Padding(s: string): (k: nat)
    ensures k <= 2 && k <= |s|
  {
    if |s| < 2 || s[|s| - 1] != PADDING then 0 else if s[|s| - 2] != PADDING then 1 else 2
  }

  /** Whole groups of standard letters, then at most two padding characters, with no bit set that is not used. */
  predicate Canonical(s: string) {
    && |s| % 4 == 0
    && (forall i :: 0 <= i < |s| - Padding(s) ==> Standard(s[i]))
    && (Padding(s) == 1 ==> Value(s[|s| - 2]) % 4 == 0)
    && (Padding(s) == 2 ==> 3 <= |s| && Value(s[|s| - 3]) % 16 == 0)
  }

  /** Decoding and encoding give the text back. */
  predicate ComesBack(s: string) {
    Decoded(s).Some? && Encoded(Decoded(s).value) == s
  }

  lemma LetterBack(c: char)
    requires Value(c) != INVALID
    ensures 0 <= Value(c) < 64 && (Letter(Value(c)) == c <==> Standard(c))
  {
    ValueRange(c);
    if Standard(c) {
      LetterOfValue(c);
    } else {
      ValueOfLetter(Value(c));
    }
  }

  /** A letter whose value has lost its low bits is the same only if they were zero. */
  lemma LetterCut(c: char, m: nat)
    requires Value(c) != INVALID && (m == 4 || m == 16)
    ensures 0 <= Value(c) - Value(c) % m < 64
    ensures Letter(Value(c) - Value(c) % m) == c <==> Standard(c) && Value(c) % m == 0
  {
    LetterBack(c);
    ValueOfLetter(Value(c) - Value(c) % m);
  }

  lemma TripleOfDigits(g: string)
    requires |g| == 4 && AllDigits(g)
    ensures forall k :: 0 <= k < 4 ==> 0 <= Value(g[k]) < 64
    ensures var d0, d1, d2, d3 := Value(g[0]), Value(g[1]), Value(g[2]), Value(g[3]);
            Triple(g) == [d0 * 4 + d1 / 16, d1 % 16 * 16 + d2 / 4, d2 % 4 * 64 + d3]
  {
    hide Value;
    assert IsDigit(g[0]) && IsDigit(g[1]) && IsDigit(g[2]) && IsDigit(g[3]);
    TripleIs(g, [Value(g[0]), Value(g[1]), Value(g[2]), Value(g[3])]);
    ShiftedOut(Value(g[1]));
    ShiftedOut(Value(g[2]));
  }

  predicate AreDigits(d0: int, d1: int, d2: int, d3: int) {
    0 <= d0 < 64 && 0 <= d1 < 64 && 0 <= d2 < 64 && 0 <= d3 < 64
  }

  /** The three bytes of four digits. */
  function ThreeBytes(d0: nat, d1: nat, d2: nat, d3: nat): (t: seq<byte>)
    requires AreDigits(d0, d1, d2, d3)
    ensures |t| == 3
  {
    [d0 * 4 + d1 / 16, d1 % 16 * 16 + d2 / 4, d2 % 4 * 64 + d3]
  }

  lemma BitsOfThree(d0: nat, d1: nat, d2: nat, d3: nat)
    requires AreDigits(d0, d1, d2, d3)
    ensures var t := ThreeBytes(d0, d1, d2, d3);
            && Bits(t[0], t[1], t[2]) == d0 * 0x4_0000 + d1 * 0x1000 + d2 * 64 + d3
            && Bits(t[0], t[1], 0) == d0 * 0x4_0000 + d1 * 0x1000 + (d2 - d2 % 4) * 64
            && Bits(t[0], 0, 0) == d0 * 0x4_0000 + (d1 - d1 % 16) * 0x1000
  {
    assert d1 == 16 * (d1 / 16) + d1 % 16 && d2 == 4 * (d2 / 4) + d2 % 4;
  }

  lemma QuadOfDigits(d0: nat, d1: nat, d2: nat, d3: nat, v: nat)
    requires AreDigits(d0, d1, d2, d3) && v == d0 * 0x4_0000 + d1 * 0x1000 + d2 * 64 + d3
    ensures v < 0x100_0000 && Quad(v) == [Letter(d0), Letter(d1), Letter(d2), Letter(d3)]
  {
    hide Letter, Digit;
    DigitsOfBits(d0, d1, d2, d3);
  }

  /** The encoding of the first bytes of a group, in terms of the digits that the bytes came from. */
  lemma EncodedPart(d0: nat, d1: nat, d2: nat, d3: nat, n: nat)
    requires AreDigits(d0, d1, d2, d3) && 1 <= n <= 3
    ensures Encoded(ThreeBytes(d0, d1, d2, d3)[..n]) ==
            if n == 3 then [Letter(d0), Letter(d1), Letter(d2), Letter(d3)]
            else if n == 2 then [Letter(d0), Letter(d1), Letter(d2 - d2 % 4), PADDING]
            else [Letter(d0), Letter(d1 - d1 % 16), PADDING, PADDING]
  {
    hide Letter, Bits, Quad;
    var t := ThreeBytes(d0, d1, d2, d3);
    BitsOfThree(d0, d1, d2, d3);
    if n == 3 {
      QuadOfDigits(d0, d1, d2, d3, Bits(t[0], t[1], t[2]));
      assert Encoded(t[..3][3..]) == [];
    } else if n == 2 {
      QuadOfDigits(d0, d1, d2 - d2 % 4, 0, Bits(t[0], t[1], 0));
    } else {
      QuadOfDigits(d0, d1 - d1 % 16, 0, 0, Bits(t[0], 0, 0));
    }
  }

  lemma DecodedGroup(g: string)
    requires |g| == 4 && AllDigits(g)
    ensures Decoded(g) == Some(Triple(g)[..3 - Pads(g)])
  {
    hide Triple, IsDigit;
    OneGroup(g);
  }

  /** A single group comes back exactly if it is canonical. */
  lemma GroupComesBack(g: string)
    requires |g| == 4 && AllDigits(g)
    ensures ComesBack(g) <==> Canonical(g)
  {
    hide Value, Letter, Encoded, Decoded, Triple, ThreeBytes;
    TripleOfDigits(g);
    DecodedGroup(g);
    var d0, d1, d2, d3 := Value(g[0]), Value(g[1]), Value(g[2]), Value(g[3]);
    GroupText(g, d0, d1, d2, d3, 3 - Pads(g));
    assert IsDigit(g[0]) && IsDigit(g[1]) && IsDigit(g[2]) && IsDigit(g[3]);
    LetterBack(g[0]);
    LetterBack(g[1]);
    LetterBack(g[2]);
    LetterBack(g[3]);
    LetterCut(g[2], 4);
    LetterCut(g[1], 16);
    LetterIsNoPadding(d3);
    LetterIsNoPadding(d2);
  }

  lemma LetterIsNoPadding(d: nat)
    requires d < 64
    ensures Letter(d) != PADDING
  {
  }

  lemma GroupText(g: string, d0: nat, d1: nat, d2: nat, d3: nat, n: nat)
    requires |g| == 4 && AllDigits(g) && AreDigits(d0, d1, d2, d3) && 1 <= n <= 3
    requires Triple(g) == [d0 * 4 + d1 / 16, d1 % 16 * 16 + d2 / 4, d2 % 4 * 64 + d3]
    ensures Encoded(Triple(g)[..n]) ==
            if n == 3 then [Letter(d0), Letter(d1), Letter(d2), Letter(d3)]
            else if n == 2 then [Letter(d0), Letter(d1), Letter(d2 - d2 % 4), PADDING]
            else [Letter(d0), Letter(d1 - d1 % 16), PADDING, PADDING]
  {
    hide Letter, Encoded, Triple;
    EncodedPart(d0, d1, d2, d3, n);
  }

  // ---------------------------------------------------------------- whole texts

  lemma DecodedSplit(s: string)
    requires |s| % 4 == 0 && 4 < |s| && AllDigits(s)
    ensures AllDigits(s[..4]) && AllDigits(s[4..]) && Decoded(s[4..]).Some?
    ensures Decoded(s) == Some(Triple(s[..4]) + Decoded(s[4..]).value)
  {
    hide Triple, IsDigit, Groups;
    var g, rest := s[..4], s[4..];
    assert s == g + rest;
    JoinGroups(g, rest);
    var t, ts, n := Triple(g), Groups(rest), Pads(rest);
    assert (t + ts)[..|t + ts| - n] == t + ts[..|ts| - n];
  }

  lemma SplitComesBack(s: string)
    requires |s| % 4 == 0 && 4 < |s| && AllDigits(s)
    ensures ComesBack(s) <==> (forall k :: 0 <= k < 4 ==> Standard(s[k])) && ComesBack(s[4..])
  {
    hide Value, Letter, Encoded, Decoded, Triple, Quad, Bits, ThreeBytes;
    var g, rest := s[..4], s[4..];
    DecodedSplit(s);
    TripleOfDigits(g);
    var d0, d1, d2, d3 := Value(g[0]), Value(g[1]), Value(g[2]), Value(g[3]);
    GroupText(g, d0, d1, d2, d3, 3);
    var t, b := Triple(g), Decoded(rest).value;
    assert t[..3] == t;
    EncodedJoin(t, b);
    assert IsDigit(g[0]) && IsDigit(g[1]) && IsDigit(g[2]) && IsDigit(g[3]);
    LetterBack(g[0]);
    LetterBack(g[1]);
    LetterBack(g[2]);
    LetterBack(g[3]);
    SameHead(Encoded(t), Encoded(b), g, rest);
    assert s == g + rest;
  }

  lemma EncodedJoin(t: seq<byte>, b: seq<byte>)
    requires |t| == 3
    ensures Encoded(t + b) == Encoded(t) + Encoded(b)
  {
    hide Quad, Bits;
    FirstGroup(t + b);
    assert (t + b)[..3] == t && (t + b)[3..] == b;
  }

  lemma SameHead(a: string, b: string, g: string, rest: string)
    requires |a| == |g|
    ensures a + b == g + rest <==> a == g && b == rest
  {
    if a + b == g + rest {
      assert a == (a + b)[..|a|] && b == (a + b)[|a|..];
      assert g == (g + rest)[..|g|] && rest == (g + rest)[|g|..];
    }
  }

  lemma SplitCanonical(s: string)
    requires |s| % 4 == 0 && 4 < |s|
    ensures Canonical(s) <==> (forall k :: 0 <= k < 4 ==> Standard(s[k])) && Canonical(s[4..])
  {
    hide Value, Standard;
    var rest := s[4..];
    assert forall i :: 0 <= i < |rest| ==> rest[i] == s[i + 4];
    assert Padding(rest) == Padding(s);
    assert forall i :: 4 <= i < |s| ==> s[i] == rest[i - 4];
  }

  lemma {:induction false} WholeComesBack(s: string)
    requires |s| % 4 == 0 && AllDigits(s)
    ensures ComesBack(s) <==> Canonical(s)
    decreases |s|
  {
    hide ComesBack, Canonical, IsDigit, Standard;
    if s == [] {
      NothingComesBack();
    } else if |s| == 4 {
      GroupComesBack(s);
    } else {
      SplitComesBack(s);
      SplitCanonical(s);
      WholeComesBack(s[4..]);
    }
  }

  lemma NothingComesBack()
    ensures ComesBack("") && Canonical("")
  {
  }

  lemma CanonicalIsDigits(s: string)
    requires Canonical(s)
    ensures AllDigits(s)
  {
    hide Value;
    PaddingIsZero();
    forall i | 0 <= i < |s|
      ensures IsDigit(s[i])
    {
      if i < |s| - Padding(s) {
        assert Standard(s[i]);
      }
    }
  }

  /** For every text: decoding and encoding give it back if and only if it is canonical. */
  lemma EncodeAfterDecode(s: string)
    ensures ComesBack(s) <==> Canonical(s)
  {
    hide Encoded, Groups, IsDigit, EncSize;
    if |s| % 4 == 0 && AllDigits(s) {
      WholeComesBack(s);
    } else {
      if Decoded(s).Some? {
        EncodedSize(Decoded(s).value);
        SizeIsWhole(|Decoded(s).value|);
      }
      if Canonical(s) {
        CanonicalIsDigits(s);
      }
    }
  }

  lemma SizeIsWhole(n: nat)
    ensures EncSize(n) % 4 == 0
  {
  }

  /** Two texts that decode alike, of which only one is an encoding: the last digit has a bit that is not used. */
  lemma UnusedBitsAreLost()
    ensures Decoded("QR==") == Decoded("QQ==") == Some([0x41]) && ComesBack("QQ==") && !ComesBack("QR==")
  {
    var a, b := "QR==", "QQ==";
    assert a[0] == 'Q' && a[1] == 'R' && b[1] == 'Q';
    DecodedGroup(a);
    DecodedGroup(b);
    TripleOfDigits(a);
    TripleOfDigits(b);
    assert Pads(a) == Pads(b) == 2 && Triple(a)[0] == Triple(b)[0] == 0x41;
    assert Triple(a)[..1] == [0x41] && Triple(b)[..1] == [0x41];
    GroupComesBack(a);
    GroupComesBack(b);
  }
}
