/** The encoder and decoder loops. */
module Base64Codec {
  import opened Common
  import opened Base64Tables
  import opened Base64

  // ---------------------------------------------------------------- encoding

  /** The shifts and masks of the encoder pick the digits of the group. */
  lemma DigitsOfBytes(b0: byte, b1: byte, b2: byte)
    ensures var v := Bits(b0, b1, b2);
            && Digit(v, 0) == b0 / 4 && Digit(v, 1) == b0 % 4 * 16 + b1 / 16
            && Digit(v, 2) == b1 % 16 * 4 + b2 / 64 && Digit(v, 3) == b2 % 64
  {
    var x0: int, x1: int, x2: int := b0, b1, b2;
    var d0, d1, d2, d3 := x0 / 4, x0 % 4 * 16 + x1 / 16, x1 % 16 * 4 + x2 / 64, x2 % 64;
    assert Bits(b0, b1, b2) == d0 * 0x4_0000 + d1 * 0x1000 + d2 * 64 + d3 by {
      assert x0 == 4 * d0 + x0 % 4;
      assert x1 == 16 * (x1 / 16) + x1 % 16;
      assert x2 == 64 * (x2 / 64) + d3;
    }
    DigitsOfBits(d0, d1, d2, d3);
  }

  /** The characters for the group that starts at rd, as the encoder computes them. */
  function GroupText(src: seq<byte>, rd: nat): (q: string)
    requires rd < |src|
    ensures |q| == 4
  {
    var s0: int := src[rd];
    var s1: int := if rd + 1 < |src| then src[rd + 1] else 0;
    var s2: int := if rd + 2 < |src| then src[rd + 2] else 0;
    [Letter(s0 / 4), Letter(s0 % 4 * 16 + s1 / 16),
     if rd + 1 < |src| then Letter(s1 % 16 * 4 + s2 / 64) else PADDING,
     if rd + 2 < |src| then Letter(s2 % 64) else PADDING]
  }

  lemma EncodedGroup(src: seq<byte>, rd: nat)
    requires rd < |src|
    ensures Encoded(src[rd..]) == GroupText(src, rd) + Encoded(src[Min(rd + 3, |src|)..])
  {
    hide Letter, Digit, Bits;
    var s0: byte := src[rd];
    var s1: byte := if rd + 1 < |src| then src[rd + 1] else 0;
    var s2: byte := if rd + 2 < |src| then src[rd + 2] else 0;
    DigitsOfBytes(s0, s1, s2);
    var rest := src[rd..];
    if rd + 3 <= |src| {
      assert rest[3..] == src[rd + 3..];
    }
  }

  /** Encodes one group, of one to three bytes. */
  method EncodeGroup(src: seq<byte>, rd: nat, dst: array<char>, wrSize: nat) returns (next: nat)
    requires rd < |src| && wrSize + 4 <= dst.Length
    modifies dst
    ensures next == Min(rd + 3, |src|)
    ensures forall i :: 0 <= i < 4 ==> dst[wrSize + i] == GroupText(src, rd)[i]
    ensures forall i :: (0 <= i < wrSize || wrSize + 4 <= i < dst.Length) ==> dst[i] == old(dst[i])
  {
    hide EncodeDigit, Letter;
    var s0: int := src[rd];
    next := rd + 1;
    dst[wrSize] := EncodeDigit(s0 / 4);
    var carry0 := s0 % 4 * 16;
    if next < |src| {
      var s1: int := src[next];
      next := next + 1;
      dst[wrSize + 1] := EncodeDigit(carry0 + s1 / 16);
      var carry1 := s1 % 16 * 4;
      if next < |src| {
        var s2: int := src[next];
        next := next + 1;
        dst[wrSize + 2] := EncodeDigit(carry1 + s2 / 64);
        dst[wrSize + 3] := EncodeDigit(s2 % 64);
      } else {
        dst[wrSize + 2] := EncodeDigit(carry1);
        dst[wrSize + 3] := PADDING;
      }
    } else {
      dst[wrSize + 1] := EncodeDigit(carry0);
      dst[wrSize + 2] := PADDING;
      dst[wrSize + 3] := PADDING;
    }
  }

  lemma NextGroup(whole: string, at: nat, q: string, tail: string)
    requires at <= |whole| && whole[at..] == q + tail
    ensures at + |q| <= |whole| && whole[at + |q|..] == tail
    ensures forall i :: 0 <= i < |q| ==> whole[at + i] == q[i]
  {
    assert whole == whole[..at] + whole[at..];
  }

  method Encode(src: seq<byte>, dst: array<char>) returns (r: int)
    modifies dst
    ensures r == if dst.Length < EncSize(|src|) then -1 else EncSize(|src|)
    ensures r < 0 ==> dst[..] == old(dst[..])
    ensures 0 <= r ==> dst[..r] == Encoded(src) && dst[r..] == old(dst[r..])
  {
    hide Letter, Encoded, GroupText, EncSize;
    var paddedDstSize := EncSize(|src|);
    if dst.Length < paddedDstSize {
      return -1;
    }
    ghost var whole := Encoded(src);
    EncodedSize(src);
    var rd, wrSize := 0, 0;
    assert src[0..] == src && whole[0..] == whole;
    while rd < |src|
      invariant 0 <= rd <= |src| && 0 <= wrSize <= |whole|
      invariant whole[wrSize..] == Encoded(src[rd..])
      invariant forall i :: 0 <= i < wrSize ==> dst[i] == whole[i]
      invariant forall i :: |whole| <= i < dst.Length ==> dst[i] == old(dst[i])
    {
      EncodedGroup(src, rd);
      ghost var q := GroupText(src, rd);
      NextGroup(whole, wrSize, q, Encoded(src[Min(rd + 3, |src|)..]));
      rd := EncodeGroup(src, rd, dst, wrSize);
      assert forall i :: wrSize <= i < wrSize + 4 ==> dst[i] == q[i - wrSize] && whole[i] == q[i - wrSize];
      wrSize := wrSize + 4;
    }
    NothingLeft(src);
    return paddedDstSize;
  }

  lemma NothingLeft(src: seq<byte>)
    ensures Encoded(src[|src|..]) == []
  {
  }

  method EncodeString(src: seq<byte>) returns (text: string)
    ensures text == Encoded(src) && |text| == EncSize(|src|)
  {
    var dst := new char[EncSize(|src|)];
    var _ := Encode(src, dst);
    text := dst[..];
    EncodedSize(src);
  }

  // ---------------------------------------------------------------- decoding

  // The three bytes that the decoder makes of four digits: shifts, cut to eight bits.

  function First(d0: nat, d1: nat): byte
    requires d0 < 64 && d1 < 64
  {
    d0 * 4 + d1 / 16
  }

  function Second(d1: nat, d2: nat): byte
    requires d1 < 64 && d2 < 64
  {
    d1 * 16 % 256 + d2 / 4
  }

  function Third(d2: nat, d3: nat): byte
    requires d2 < 64 && d3 < 64
  {
    d2 * 64 % 256 + d3
  }

  /** The shifts of the decoder, cut to eight bits, pick the bytes of the group. */
  lemma BytesOfDigits(d0: nat, d1: nat, d2: nat, d3: nat)
    requires d0 < 64 && d1 < 64 && d2 < 64 && d3 < 64
    ensures var v := d0 * 0x4_0000 + d1 * 0x1000 + d2 * 64 + d3;
            && v / 0x1_0000 == First(d0, d1)
            && v / 0x100 % 0x100 == Second(d1, d2)
            && v % 0x100 == Third(d2, d3)
            && v < 0x100_0000
  {
    ShiftedOut(d1);
    ShiftedOut(d2);
    var b0, b1, b2 := d0 * 4 + d1 / 16, d1 % 16 * 16 + d2 / 4, d2 % 4 * 64 + d3;
    BytesOfBits(b0, b1, b2);
  }

  /** A left shift cut to eight bits drops the bits that a right shift keeps. */
  lemma ShiftedOut(d: nat)
    ensures d * 16 % 256 == d % 16 * 16 && d * 64 % 256 == d % 4 * 64
  {
    var high, low := d / 16, d % 16;
    assert d * 16 == high * 0x100 + low * 16;
    LowByte(high, low * 16);
    var high', low' := d / 4, d % 4;
    assert d * 64 == high' * 0x100 + low' * 64;
    LowByte(high', low' * 64);
  }

  /** Reads up to four characters, and fills in padding after the end of the source. */
  method ReadGroup(src: string, rd: nat) returns (ok: bool, s: string, d: seq<int>, next: nat)
    requires rd < |src|
    ensures var chunk := src[rd..Min(rd + 4, |src|)];
            && (ok <==> Accepted(chunk))
            && (ok ==> next == Min(rd + 4, |src|) && s == Padded(chunk) && |s| == 4)
    ensures ok ==> |d| == 4 && forall j :: 0 <= j < 4 ==> d[j] == Value(s[j]) && d[j] != INVALID
  {
    hide DecodeChar, Value;
    ghost var chunk := src[rd..Min(rd + 4, |src|)];
    s, d, next := [], [], rd;
    var j := 0;
    while j < 4
      invariant 0 <= j <= 4 && |s| == |d| == j && next == rd + Min(j, |chunk|)
      invariant forall k :: 0 <= k < j ==> s[k] == if k < |chunk| then chunk[k] else PADDING
      invariant forall k :: 0 <= k < j ==> d[k] == Value(s[k]) && d[k] != INVALID
      invariant j > 1 ==> |chunk| > 1
    {
      var c := if next < |src| then src[next] else if j < 2 then NUL else PADDING;
      if next < |src| {
        next := next + 1;
      }
      var v := DecodeChar(c);
      if v == INVALID {
        assert j < |chunk| ==> !IsDigit(chunk[j]);
        PaddingAndNul();
        return false, s, d, next;
      }
      PaddingAndNul();
      s, d := s + [c], d + [v];
      j := j + 1;
    }
    assert forall k :: 0 <= k < |chunk| ==> IsDigit(chunk[k]) by {
      assert forall k :: 0 <= k < |chunk| ==> chunk[k] == s[k];
    }
    ok := true;
  }

  lemma PaddingAndNul()
    ensures Value(PADDING) == 0 && Value(NUL) == INVALID
  {
  }

  lemma {:induction false} GroupsAppend(p: string, g: string)
    requires |p| % 4 == 0 && AllDigits(p) && |g| == 4 && AllDigits(g)
    ensures AllDigits(p + g) && Groups(p + g) == Groups(p) + Triple(g)
  {
    hide Triple, IsDigit;
    if p == [] {
      assert p + g == g;
      OneGroup(g);
    } else {
      var first, rest := p[..4], p[4..];
      GroupsAppend(rest, g);
      assert p == first + rest;
      JoinGroups(first, rest);
      JoinGroups(first, rest + g);
      assert p + g == first + (rest + g);
    }
  }

  /** One more chunk of four characters, or of what is left. */
  lemma OneMoreChunk(src: string, rd: nat, next: nat)
    requires rd < |src| && rd % 4 == 0 && next == Min(rd + 4, |src|)
    requires Accepted(src[..rd])
    ensures Accepted(src[..next]) <==> Accepted(src[rd..next])
    ensures !Accepted(src[rd..next]) ==> !Accepted(src)
    ensures Accepted(src[rd..next]) ==>
      && Padded(src[..rd]) == src[..rd] && Padded(src[..next]) == src[..rd] + Padded(src[rd..next])
      && |Padded(src[rd..next])| == 4 && AllDigits(Padded(src[rd..next]))
  {
    hide IsDigit;
    var before, chunk := src[..rd], src[rd..next];
    assert src[..next] == before + chunk;
    assert AllDigits(src) ==> AllDigits(chunk);
    if Accepted(chunk) {
      PaddedIsDigits(chunk);
    }
  }

  /** What has been decoded so far: all of the source up to rd, with the last group read. */
  ghost predicate Progress(src: string, rd: nat, out: seq<byte>, s: string) {
    && rd <= |src| && (rd == |src| || rd % 4 == 0) && Accepted(src[..rd]) && |s| == 4
    && (PaddedIsDigits(src[..rd]); var p := Padded(src[..rd]);
        && out == Groups(p)
        && Pads(p) == Pads(s))
  }

  lemma ProgressStarts(src: string)
    ensures Progress(src, 0, [], [NUL, NUL, NUL, NUL])
  {
  }

  lemma ProgressGoesOn(src: string, rd: nat, out: seq<byte>, last: string, s: string, next: nat)
    requires Progress(src, rd, out, last) && rd < |src| && next == Min(rd + 4, |src|)
    requires Accepted(src[rd..next]) && s == Padded(src[rd..next]) && |s| == 4
    ensures AllDigits(s) && Progress(src, next, out + Triple(s), s)
  {
    hide IsDigit, Groups, Triple;
    OneMoreChunk(src, rd, next);
    GroupsAppend(src[..rd], s);
  }

  lemma ProgressSoFar(src: string, rd: nat, out: seq<byte>, s: string)
    requires Progress(src, rd, out, s)
    ensures |s| == 4 && rd <= |src| && |out| == DecSize(rd)
    ensures rd == |src| ==> Decoded(src) == Some(out[..|out| - Pads(s)])
    ensures rd < |src| ==> rd % 4 == 0 && Accepted(src[..rd]) && |out| + 3 <= DecSize(|src|)
  {
    hide Groups, IsDigit;
    PaddedIsDigits(src[..rd]);
    if rd == |src| {
      assert src[..rd] == src;
    }
  }

  method Decode(src: string, dst: array<byte>) returns (r: int)
    modifies dst
    ensures r == -1 || 0 <= r <= DecSize(|src|) <= dst.Length
    ensures r == -1 <==> dst.Length < DecSize(|src|) || Decoded(src).None?
    ensures 0 <= r ==> Decoded(src) == Some(dst[..r])
    ensures forall i :: DecSize(|src|) <= i < dst.Length ==> dst[i] == old(dst[i])
  {
    hide Value, Progress, Decoded, Accepted, Padded, Groups, DecSize, Triple, First, Second, Third;
    var minDstSize := DecSize(|src|);
    if dst.Length < minDstSize {
      return -1;
    }
    var rd, wrSize := 0, 0;
    var s := [NUL, NUL, NUL, NUL];
    ghost var out: seq<byte> := [];
    ProgressStarts(src);
    while rd < |src|
      invariant Progress(src, rd, out, s) && |out| == wrSize <= DecSize(|src|) && rd <= |src|
      invariant forall i :: 0 <= i < wrSize ==> dst[i] == out[i]
      invariant forall i :: DecSize(|src|) <= i < dst.Length ==> dst[i] == old(dst[i])
      decreases |src| - rd
    {
      ProgressSoFar(src, rd, out, s);
      var ok, group, d, next := ReadGroup(src, rd);
      OneMoreChunk(src, rd, Min(rd + 4, |src|));
      if !ok {
        NotDecoded(src);
        return -1;
      }
      ProgressGoesOn(src, rd, out, s, group, next);
      TripleIs(group, d);
      dst[wrSize] := First(d[0], d[1]);
      dst[wrSize + 1] := Second(d[1], d[2]);
      dst[wrSize + 2] := Third(d[2], d[3]);
      out := out + Triple(group);
      wrSize := wrSize + 3;
      rd, s := next, group;
    }
    ProgressSoFar(src, rd, out, s);
    wrSize := wrSize - ((if s[3] == PADDING then 1 else 0) + (if s[2] == PADDING then 1 else 0));
    SomeDecoded(src, out, s);
    assert dst[..wrSize] == out[..wrSize];
    return wrSize;
  }

  lemma NotDecoded(src: string)
    requires !Accepted(src)
    ensures Decoded(src).None?
  {
  }

  lemma SomeDecoded(src: string, out: seq<byte>, s: string)
    requires |s| == 4 && Progress(src, |src|, out, s)
    ensures Pads(s) == (if s[3] == PADDING then 1 else 0) + (if s[2] == PADDING then 1 else 0)
    ensures Pads(s) <= |out| && |out| - Pads(s) <= DecSize(|src|)
  {
    hide Groups, IsDigit;
    PaddedIsDigits(src[..|src|]);
    assert src[..|src|] == src;
  }

  lemma TripleIs(g: string, d: seq<int>)
    requires |g| == 4 && |d| == 4 && AllDigits(g)
    requires forall j :: 0 <= j < 4 ==> d[j] == Value(g[j]) && d[j] != INVALID
    ensures forall j :: 0 <= j < 4 ==> 0 <= d[j] < 64
    ensures Triple(g) == [First(d[0], d[1]), Second(d[1], d[2]), Third(d[2], d[3])]
  {
    hide Value, First, Second, Third;
    ValueRange(g[0]);
    ValueRange(g[1]);
    ValueRange(g[2]);
    ValueRange(g[3]);
    BytesOfDigits(d[0], d[1], d[2], d[3]);
  }

  method DecodeString(src: string) returns (r: Option<seq<byte>>)
    ensures r == Decoded(src)
  {
    var dst := new byte[DecSize(|src|)];
    var res := Decode(src, dst);
    r := if res < 0 then None else Some(dst[..res]);
  }
}
