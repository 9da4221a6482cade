/**
 The wire format of the IPC channel, `[u32 little-endian size][payload]`, as a pure function of the
 whole byte stream. Nothing here knows about buffers or about how a stream is cut into receives.
 */
module FrameWire {
  import opened Common

  const HEADER_SIZE := 4

  // ---------------------------------------------------------------- headers

  function DecodeHeader(h: seq<byte>): (n: nat)
    requires |h| == HEADER_SIZE
    ensures n < TWO_TO_THE_32
  {
    var b0: int, b1: int, b2: int, b3: int := h[0], h[1], h[2], h[3];
    b0 + 0x100 * (b1 + 0x100 * (b2 + 0x100 * b3))
  }

  function EncodeHeader(n: nat): (h: seq<byte>)
    requires n < TWO_TO_THE_32
    ensures |h| == HEADER_SIZE && DecodeHeader(h) == n
  {
    var n1 := n / 0x100;
    var n2 := n1 / 0x100;
    var n3 := n2 / 0x100;
    assert n3 < 0x100;
    [n % 0x100, n1 % 0x100, n2 % 0x100, n3]
  }

  /** Little-endian headers are canonical: a size has exactly one header. */
  lemma HeaderIsCanonical(h: seq<byte>)
    requires |h| == HEADER_SIZE
    ensures EncodeHeader(DecodeHeader(h)) == h
  {
    var b0: int, b1: int, b2: int, b3: int := h[0], h[1], h[2], h[3];
    var n2 := b2 + 0x100 * b3;
    var n1 := b1 + 0x100 * n2;
    assert (b0 + 0x100 * n1) / 0x100 == n1 && n1 / 0x100 == n2 && n2 / 0x100 == b3;
  }

  lemma Powers()
    ensures Pow(0x100, 0) == 1 && Pow(0x100, 1) == 0x100
    ensures Pow(0x100, 2) == 0x1_0000 && Pow(0x100, 3) == 0x100_0000
  {
    assert Pow(0x100, 1) == 0x100 * Pow(0x100, 0);
    assert Pow(0x100, 2) == 0x100 * Pow(0x100, 1);
    assert Pow(0x100, 3) == 0x100 * Pow(0x100, 2);
  }

  /** On the wire the low byte of the size comes first. */
  lemma HeaderBytes(n: nat, i: nat)
    requires n < TWO_TO_THE_32 && i < HEADER_SIZE
    ensures EncodeHeader(n)[i] == n / Pow(0x100, i) % 0x100
  {
    Powers();
    assert n / 0x1_0000 == n / 0x100 / 0x100;
    assert n / 0x100_0000 == n / 0x1_0000 / 0x100;
  }

  /** The number that bytes stand for, the i-th of them counting Pow(0x100, i). */
  function Weighted(h: seq<byte>): nat {
    if h == [] then 0 else Weighted(h[..|h| - 1]) + h[|h| - 1] * Pow(0x100, |h| - 1)
  }

  lemma DecodedIsWeighted(h: seq<byte>)
    requires |h| == HEADER_SIZE
    ensures DecodeHeader(h) == Weighted(h)
    ensures Weighted(h) == h[0] + h[1] * Pow(0x100, 1) + h[2] * Pow(0x100, 2) + h[3] * Pow(0x100, 3)
  {
    Powers();
    var h1, h2, h3 := h[..1], h[..2], h[..3];
    assert h1[..0] == [] && h2[..1] == h1 && h3[..2] == h2 && h[..3] == h3;
    assert Weighted(h1) == h[0];
    assert Weighted(h2) == Weighted(h1) + h[1] * Pow(0x100, 1);
    assert Weighted(h3) == Weighted(h2) + h[2] * Pow(0x100, 2);
    assert Weighted(h) == Weighted(h3) + h[3] * Pow(0x100, 3);
  }

  // ---------------------------------------------------------------- splitting a stream

  /** What a stream holds: complete payloads, then the bytes after the last complete frame. */
  datatype Split = Split(payloads: seq<seq<byte>>, rest: seq<byte>, rejected: bool)

  /** The size declared by the header that `r` starts with. */
  function Declared(r: seq<byte>): (n: nat)
    requires HEADER_SIZE <= |r|
  {
    DecodeHeader(r[..HEADER_SIZE])
  }

  /** `r` is a proper beginning of a frame that fits a buffer of `cap` bytes. */
  predicate Incomplete(cap: nat, r: seq<byte>) {
    HEADER_SIZE <= |r| ==> HEADER_SIZE + Declared(r) <= cap && |r| < HEADER_SIZE + Declared(r)
  }

  /** `r` starts with a header that declares more than `cap - 4` payload bytes. */
  predicate TooLarge(cap: nat, r: seq<byte>) {
    HEADER_SIZE <= |r| && cap < HEADER_SIZE + Declared(r)
  }

  function SplitStream(cap: nat, s: seq<byte>): Split {
    if Incomplete(cap, s) then
      Split([], s, false)
    else if TooLarge(cap, s) then
      Split([], s, true)
    else
      var end := HEADER_SIZE + Declared(s);
      var tail := SplitStream(cap, s[end..]);
      Split([s[HEADER_SIZE..end]] + tail.payloads, tail.rest, tail.rejected)
  }

  /** `t` follows the payloads already split off. */
  function Prepend(done: seq<seq<byte>>, t: Split): Split {
    Split(done + t.payloads, t.rest, t.rejected)
  }

  /** The bytes that carry the given payloads, one frame after the other. */
  function Wire(payloads: seq<seq<byte>>): (s: seq<byte>)
    requires forall p :: p in payloads ==> |p| < TWO_TO_THE_32
  {
    if payloads == [] then [] else EncodeHeader(|payloads[0]|) + payloads[0] + Wire(payloads[1..])
  }

  lemma {:induction false} WireConcat(a: seq<seq<byte>>, b: seq<seq<byte>>)
    requires forall p :: p in a + b ==> |p| < TWO_TO_THE_32
    requires forall p :: p in a || p in b ==> p in a + b
    ensures Wire(a + b) == Wire(a) + Wire(b)
    decreases |a|
  {
    hide DecodeHeader, EncodeHeader;
    if a == [] {
      assert a + b == b;
    } else {
      assert (a + b)[1..] == a[1..] + b;
      assert forall p :: p in a[1..] ==> p in a;
      WireConcat(a[1..], b);
      var h := EncodeHeader(|a[0]|) + a[0];
      assert h + (Wire(a[1..]) + Wire(b)) == h + Wire(a[1..]) + Wire(b);
    }
  }

  lemma WireStartsWith(payloads: seq<seq<byte>>, rest: seq<byte>)
    requires payloads != [] && forall p :: p in payloads ==> |p| < TWO_TO_THE_32
    requires forall p :: p in payloads[1..] ==> p in payloads
    ensures Wire(payloads) + rest == EncodeHeader(|payloads[0]|) + payloads[0] + (Wire(payloads[1..]) + rest)
  {
    hide DecodeHeader, EncodeHeader;
    var h := EncodeHeader(|payloads[0]|) + payloads[0];
    assert (h + Wire(payloads[1..])) + rest == h + (Wire(payloads[1..]) + rest);
  }

  predicate Fits(cap: nat, payloads: seq<seq<byte>>) {
    forall p :: p in payloads ==> HEADER_SIZE + |p| <= cap && |p| < TWO_TO_THE_32
  }

  /**
   A reading of `s` that mentions neither a parser nor an order of parsing: `s` is the wire form of
   payloads that fit, followed by an incomplete frame or by an oversized header.
   */
  predicate IsReading(cap: nat, s: seq<byte>, r: Split) {
    && Fits(cap, r.payloads)
    && s == Wire(r.payloads) + r.rest
    && (if r.rejected then TooLarge(cap, r.rest) else Incomplete(cap, r.rest))
  }

  /** A frame at the start of a stream is split off, and the rest is split as if it stood alone. */
  lemma FirstFrameIsSplitOff(cap: nat, p: seq<byte>, tail: seq<byte>)
    requires HEADER_SIZE + |p| <= cap && |p| < TWO_TO_THE_32
    ensures SplitStream(cap, EncodeHeader(|p|) + p + tail) == Prepend([p], SplitStream(cap, tail))
  {
    hide DecodeHeader, EncodeHeader;
    var h := EncodeHeader(|p|);
    var s, end := h + p + tail, HEADER_SIZE + |p|;
    assert s[..HEADER_SIZE] == h;
    assert s[HEADER_SIZE..end] == p;
    assert s[end..] == tail;
  }

  /** The bytes of one frame: the size of the payload, low byte first, and the payload. */
  predicate IsFrame(s: seq<byte>, p: seq<byte>) {
    && |s| == HEADER_SIZE + |p| && s[HEADER_SIZE..] == p
    && forall i :: 0 <= i < HEADER_SIZE ==> s[i] == |p| / Pow(0x100, i) % 0x100
  }

  lemma FrameOnTheWire(p: seq<byte>)
    requires |p| < TWO_TO_THE_32
    ensures IsFrame(EncodeHeader(|p|) + p, p) && Wire([p]) == EncodeHeader(|p|) + p
  {
    hide EncodeHeader, Pow;
    forall i | 0 <= i < HEADER_SIZE
      ensures EncodeHeader(|p|)[i] == |p| / Pow(0x100, i) % 0x100
    {
      HeaderBytes(|p|, i);
    }
    assert [p][1..] == [];
  }

  /** In terms of bytes: a frame that fits is read, and what follows it is read as if it stood alone. */
  lemma FrameIsRead(cap: nat, s: seq<byte>, p: seq<byte>, tail: seq<byte>)
    requires IsFrame(s, p) && HEADER_SIZE + |p| <= cap && |p| < TWO_TO_THE_32
    ensures SplitStream(cap, s + tail) == Prepend([p], SplitStream(cap, tail))
  {
    hide EncodeHeader, DecodeHeader, SplitStream, Pow;
    FrameOnTheWire(p);
    assert s == s[..HEADER_SIZE] + s[HEADER_SIZE..];
    assert s[..HEADER_SIZE] == EncodeHeader(|p|);
    FirstFrameIsSplitOff(cap, p, tail);
  }

  /** And a stream is rejected at once exactly when its first four bytes stand for more than fits. */
  lemma OversizedByBytes(cap: nat, s: seq<byte>)
    requires HEADER_SIZE <= |s|
    ensures SplitStream(cap, s) == Split([], s, true) <==> cap < HEADER_SIZE + Weighted(s[..HEADER_SIZE])
  {
    hide DecodeHeader, Weighted;
    DecodedIsWeighted(s[..HEADER_SIZE]);
  }

  lemma ReadingOfFirstFrame(cap: nat, p: seq<byte>, tail: seq<byte>, r: Split)
    requires HEADER_SIZE + |p| <= cap && |p| < TWO_TO_THE_32
    requires IsReading(cap, tail, r)
    ensures IsReading(cap, EncodeHeader(|p|) + p + tail, Prepend([p], r))
  {
    hide DecodeHeader, EncodeHeader;
    var ps := [p] + r.payloads;
    assert ps[1..] == r.payloads;
    assert forall q :: q in ps ==> q == p || q in r.payloads;
    assert Wire(ps) + r.rest == EncodeHeader(|p|) + p + (Wire(r.payloads) + r.rest);
  }

  /** The split is a reading. */
  lemma {:induction false} SplitIsReading(cap: nat, s: seq<byte>)
    ensures IsReading(cap, s, SplitStream(cap, s))
    decreases |s|
  {
    hide DecodeHeader, EncodeHeader;
    if Incomplete(cap, s) || TooLarge(cap, s) {
      assert s == Wire([]) + s;
    } else {
      var end := HEADER_SIZE + Declared(s);
      var p, tail := s[HEADER_SIZE..end], s[end..];
      HeaderIsCanonical(s[..HEADER_SIZE]);
      assert s == EncodeHeader(|p|) + p + tail;
      SplitIsReading(cap, tail);
      ReadingOfFirstFrame(cap, p, tail, SplitStream(cap, tail));
    }
  }

  lemma TailIsReading(cap: nat, s: seq<byte>, r: Split)
    requires IsReading(cap, s, r) && r.payloads != []
    ensures var p, r' := r.payloads[0], Split(r.payloads[1..], r.rest, r.rejected);
            && HEADER_SIZE + |p| <= cap && |p| < TWO_TO_THE_32 && Fits(cap, r'.payloads) && r == Prepend([p], r')
            && IsReading(cap, Wire(r'.payloads) + r.rest, r')
            && s == EncodeHeader(|p|) + p + (Wire(r'.payloads) + r.rest)
  {
    hide DecodeHeader, EncodeHeader, Wire, Incomplete, TooLarge;
    assert r.payloads[0] in r.payloads && forall q :: q in r.payloads[1..] ==> q in r.payloads;
    WireStartsWith(r.payloads, r.rest);
    assert r.payloads == [r.payloads[0]] + r.payloads[1..];
  }

  /** A stream has no other reading, so the split is determined by the wire format alone. */
  lemma {:induction false} ReadingIsUnique(cap: nat, s: seq<byte>, r: Split)
    requires IsReading(cap, s, r)
    ensures r == SplitStream(cap, s)
    decreases |r.payloads|
  {
    if r.payloads == [] {
      hide DecodeHeader, EncodeHeader;
      assert s == r.rest;
    } else {
      hide DecodeHeader, EncodeHeader, SplitStream, IsReading, Wire, Prepend;
      TailIsReading(cap, s, r);
      var p, r' := r.payloads[0], Split(r.payloads[1..], r.rest, r.rejected);
      var tail := Wire(r'.payloads) + r.rest;
      ReadingIsUnique(cap, tail, r');
      FirstFrameIsSplitOff(cap, p, tail);
    }
  }

  /** More bytes only continue the reading: payloads are never revised and rejection is final. */
  lemma {:induction false} SplitContinues(cap: nat, a: seq<byte>, b: seq<byte>)
    ensures !SplitStream(cap, a).rejected ==>
              SplitStream(cap, a + b)
              == Prepend(SplitStream(cap, a).payloads, SplitStream(cap, SplitStream(cap, a).rest + b))
    ensures SplitStream(cap, a).rejected ==>
              SplitStream(cap, a + b).rejected && SplitStream(cap, a + b).payloads == SplitStream(cap, a).payloads
    decreases |a|
  {
    hide DecodeHeader, EncodeHeader;
    if Incomplete(cap, a) {
    } else if TooLarge(cap, a) {
      assert (a + b)[..HEADER_SIZE] == a[..HEADER_SIZE];
    } else {
      var end := HEADER_SIZE + Declared(a);
      assert (a + b)[..HEADER_SIZE] == a[..HEADER_SIZE];
      assert (a + b)[end..] == a[end..] + b;
      assert (a + b)[HEADER_SIZE..end] == a[HEADER_SIZE..end];
      SplitContinues(cap, a[end..], b);
      var head := [a[HEADER_SIZE..end]];
      var mid, last := SplitStream(cap, a[end..]), SplitStream(cap, SplitStream(cap, a[end..]).rest + b);
      assert head + (mid.payloads + last.payloads) == (head + mid.payloads) + last.payloads;
    }
  }

  // ---------------------------------------------------------------- receiving in chunks

  function Concat<T>(chunks: seq<seq<T>>): seq<T> {
    if chunks == [] then [] else chunks[0] + Concat(chunks[1..])
  }

  /** Splits chunk by chunk, carrying only the unread rest from one receive to the next. */
  function SplitChunks(cap: nat, carry: seq<byte>, chunks: seq<seq<byte>>): Split
    decreases |chunks|
  {
    if chunks == [] then
      Split([], carry, false)
    else
      var now := SplitStream(cap, carry + chunks[0]);
      if now.rejected then now else Prepend(now.payloads, SplitChunks(cap, now.rest, chunks[1..]))
  }

  lemma {:induction false} ChunkingIsIrrelevantFrom(cap: nat, carry: seq<byte>, chunks: seq<seq<byte>>)
    requires Incomplete(cap, carry)
    ensures var whole := SplitStream(cap, carry + Concat(chunks));
            var byChunks := SplitChunks(cap, carry, chunks);
            && byChunks.payloads == whole.payloads
            && byChunks.rejected == whole.rejected
            && (!whole.rejected ==> byChunks.rest == whole.rest)
    decreases |chunks|
  {
    if chunks == [] {
      assert carry + Concat(chunks) == carry;
    } else {
      var now := SplitStream(cap, carry + chunks[0]);
      assert carry + Concat(chunks) == (carry + chunks[0]) + Concat(chunks[1..]);
      SplitContinues(cap, carry + chunks[0], Concat(chunks[1..]));
      if !now.rejected {
        SplitIsReading(cap, carry + chunks[0]);
        ChunkingIsIrrelevantFrom(cap, now.rest, chunks[1..]);
      }
    }
  }

  /** However a stream is cut, the payloads, the verdict and the unread rest are those of the whole. */
  lemma ChunkingIsIrrelevant(cap: nat, chunks: seq<seq<byte>>)
    ensures var whole := SplitStream(cap, Concat(chunks));
            var byChunks := SplitChunks(cap, [], chunks);
            && byChunks.payloads == whole.payloads
            && byChunks.rejected == whole.rejected
            && (!whole.rejected ==> byChunks.rest == whole.rest)
  {
    ChunkingIsIrrelevantFrom(cap, [], chunks);
    assert [] + Concat(chunks) == Concat(chunks);
  }

  // ---------------------------------------------------------------- frames

  /** The protobuf codec, of which only the partial inverse matters. */
  datatype Codec<!F> = Codec(serialize: F -> seq<byte>, parse: seq<byte> -> Option<F>)

  ghost predicate Lossless<F(!new)>(c: Codec<F>) {
    forall f :: c.parse(c.serialize(f)) == Some(f)
  }

  /** The frames decoded from payloads: empty and unparsable payloads are dropped. */
  function Frames<F>(c: Codec<F>, payloads: seq<seq<byte>>): seq<F> {
    if payloads == [] then
      []
    else
      (if payloads[0] != [] && c.parse(payloads[0]).Some? then [c.parse(payloads[0]).value] else [])
      + Frames(c, payloads[1..])
  }

  lemma {:induction false} FramesConcat<F>(c: Codec<F>, a: seq<seq<byte>>, b: seq<seq<byte>>)
    ensures Frames(c, a + b) == Frames(c, a) + Frames(c, b)
    decreases |a|
  {
    if a == [] {
      assert a + b == b;
    } else {
      assert (a + b)[1..] == a[1..] + b;
      FramesConcat(c, a[1..], b);
    }
  }

  function Serialized<F>(c: Codec<F>, frames: seq<F>): seq<seq<byte>> {
    seq(|frames|, i requires 0 <= i < |frames| => c.serialize(frames[i]))
  }

  predicate Sendable<F>(cap: nat, c: Codec<F>, frames: seq<F>) {
    Fits(cap, Serialized(c, frames)) && [] !in Serialized(c, frames)
  }

  lemma {:induction false} SerializedParsesBack<F(!new)>(c: Codec<F>, frames: seq<F>)
    requires Lossless(c) && [] !in Serialized(c, frames)
    ensures Frames(c, Serialized(c, frames)) == frames
    decreases |frames|
  {
    if frames != [] {
      var ps := Serialized(c, frames);
      assert ps[0] in ps;
      assert ps[1..] == Serialized(c, frames[1..]);
      SerializedParsesBack(c, frames[1..]);
    }
  }

  /** Serialising frames and reading the bytes back yields those frames and leaves nothing over. */
  lemma RoundTrip<F(!new)>(cap: nat, c: Codec<F>, frames: seq<F>)
    requires Lossless(c) && Sendable(cap, c, frames)
    ensures var split := SplitStream(cap, Wire(Serialized(c, frames)));
            Frames(c, split.payloads) == frames && split.rest == [] && !split.rejected
  {
    var ps := Serialized(c, frames);
    ReadingIsUnique(cap, Wire(ps), Split(ps, [], false));
    SerializedParsesBack(c, frames);
  }

  /** Splitting a prefix of a stream that is never rejected is never rejected either. */
  lemma PrefixNotRejected(cap: nat, a: seq<byte>, s: seq<byte>)
    requires a <= s && !SplitStream(cap, s).rejected
    ensures !SplitStream(cap, a).rejected
  {
    SplitContinues(cap, a, s[|a|..]);
    assert a + s[|a|..] == s;
  }

  /**
   After any frames that fit, an oversized header is rejected with its fourth byte and not before:
   no stream is rejected earlier than the receive that completes such a header.
   */
  lemma RejectedWithTheHeader(cap: nat, payloads: seq<seq<byte>>, header: seq<byte>, k: nat)
    requires Fits(cap, payloads) && |header| == HEADER_SIZE && TooLarge(cap, header)
    requires k <= |Wire(payloads) + header|
    ensures SplitStream(cap, (Wire(payloads) + header)[..k]).rejected <==> k == |Wire(payloads) + header|
  {
    hide DecodeHeader, EncodeHeader, SplitStream;
    var s := Wire(payloads) + header;
    if k == |s| {
      assert s[..k] == s;
      ReadingIsUnique(cap, s, Split(payloads, header, true));
    } else {
      var almost := Wire(payloads) + header[..HEADER_SIZE - 1];
      ReadingIsUnique(cap, almost, Split(payloads, header[..HEADER_SIZE - 1], false));
      assert s[..k] <= almost;
      PrefixNotRejected(cap, s[..k], almost);
    }
  }
}
