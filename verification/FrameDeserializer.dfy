/**
 The buffered frame deserializer: one fixed buffer, filled by recv(), parsed in place, shifted in
 place, with the pages past the live data given back to the kernel.
 */
module FrameDeserializer {
  import opened Common
  import opened FrameWire

  /** The kernel may keep the advised bytes or may zero them; nothing outside the range changes. */
  method AdviseDontNeed(buf: array<byte>, begin: nat, size: nat)
    requires begin + size <= buf.Length
    modifies buf
    ensures buf[..begin] == old(buf[..begin])
    ensures buf[begin + size..] == old(buf[begin + size..])
  {
    if * {
      forall i | begin <= i < begin + size {
        buf[i] := 0;
      }
    }
  }

  /** memmove() of `n` bytes to the start of the buffer; the two ranges may overlap. */
  method ShiftDown(buf: array<byte>, from: nat, n: nat)
    requires from + n <= buf.Length
    modifies buf
    ensures buf[..n] == old(buf[from..from + n])
  {
    forall i | 0 <= i < n {
      buf[i] := buf[from + i];
    }
  }

  /** What the buffer holds at the read position: a whole frame, a part of one, or an oversized header. */
  datatype Status = Whole | Partial | Oversized

  class BufferedFrameDeserializer<F(!new)> {
    const codec: Codec<F>
    const pageSize: nat
    const capacity: nat
    var buf: array?<byte>
    var size: nat
    var decodedFrames: seq<F>

    /** Every byte handed over by EndReceive, and every frame handed out by PopNextFrame. */
    ghost var received: seq<byte>
    ghost var popped: seq<F>

    /** The reading of all the bytes received so far. */
    ghost function Stream(): Split
      reads this
    {
      SplitStream(capacity, received)
    }

    /** A system page holds a frame header, and the capacity is a positive number of pages. */
    ghost predicate Sized() {
      HEADER_SIZE <= pageSize && pageSize <= capacity && capacity % pageSize == 0
    }

    /**
     The frames popped and queued are the frames of the stream, and unless an oversized header has
     been seen the buffer holds exactly the unread rest, with room for at least one more byte.
     */
    ghost predicate Valid()
      reads this, buf
    {
      && Sized()
      && (buf != null ==> buf.Length == capacity)
      && popped + decodedFrames == Frames(codec, Stream().payloads)
      && (!Stream().rejected ==>
            && size < capacity
            && |Stream().rest| == size
            && (if buf == null then size == 0 else buf[..size] == Stream().rest))
    }

    constructor (codec: Codec<F>, pageSize: nat, capacity: nat)
      requires HEADER_SIZE <= pageSize && pageSize <= capacity && capacity % pageSize == 0
      ensures Valid() && received == [] && popped == [] && buf == null
      ensures this.codec == codec && this.capacity == capacity && this.pageSize == pageSize
    {
      this.codec, this.pageSize, this.capacity := codec, pageSize, capacity;
      buf, size, decodedFrames := null, 0, [];
      received, popped := [], [];
    }

    /** The offered range, which is never empty. */
    method BeginReceive() returns (offset: nat, room: nat)
      requires Valid() && !Stream().rejected
      modifies this`buf, buf
      ensures Valid() && buf != null
      ensures old(buf) != null ==> buf == old(buf)
      ensures old(buf) == null ==> fresh(buf)
      ensures offset == size == |Stream().rest| && offset + room == capacity && 0 < room
    {
      if buf == null {
        buf := new byte[capacity];
        AdviseDontNeed(buf, pageSize, capacity - pageSize);
      }
      offset, room := size, capacity - size;
    }

    method DecodeFrame(data: seq<byte>)
      modifies this`decodedFrames
      ensures decodedFrames == old(decodedFrames) + Frames(codec, [data])
      ensures data == [] || codec.parse(data).None? ==> decodedFrames == old(decodedFrames)
      ensures data != [] && codec.parse(data).Some? ==>
                decodedFrames == old(decodedFrames) + [codec.parse(data).value]
    {
      if |data| == 0 {
        return;
      }
      var frame := codec.parse(data);
      if frame.Some? {
        decodedFrames := decodedFrames + [frame.value];
      }
    }

    /** One round of the parsing loop: reads the header at `consumed` and delimits the frame. */
    method NextFrame(consumed: nat, ghost done: seq<seq<byte>>) returns (status: Status, end: nat, payload: seq<byte>)
      requires buf != null && buf.Length == capacity && consumed <= size <= capacity
      requires ReadUpTo(capacity, buf[..size], done, consumed)
      ensures status == Whole ==> consumed < end <= size && ReadUpTo(capacity, buf[..size], done + [payload], end)
      ensures status != Whole ==>
                SplitStream(capacity, buf[..size]) == Split(done, buf[consumed..size], status == Oversized)
    {
      hide DecodeHeader, SplitStream, ReadUpTo;
      ghost var data := buf[..size];
      SliceOfLive(buf, size, consumed, size);
      end, payload := 0, [];
      if size < consumed + HEADER_SIZE {
        ReadToTheEnd(capacity, data, done, consumed);
        return Partial, end, payload;
      }
      var payloadSize := DecodeHeader(buf[consumed..consumed + HEADER_SIZE]);
      SliceOfLive(buf, size, consumed, consumed + HEADER_SIZE);
      var nextFrameSize := Min(payloadSize, capacity) + HEADER_SIZE;
      if size < consumed + nextFrameSize {
        ReadToTheEnd(capacity, data, done, consumed);
        return if nextFrameSize > capacity then Oversized else Partial, end, payload;
      }
      var rd := consumed + HEADER_SIZE;
      payload, end := buf[rd..rd + payloadSize], consumed + nextFrameSize;
      SliceOfLive(buf, size, rd, end);
      FrameAt(capacity, data, consumed, end, payload, done);
      return Whole, end, payload;
    }

    /** The parsing loop of EndReceive: everything that is complete in `buf[..size]` is decoded. */
    method ConsumeFrames() returns (ok: bool, consumed: nat)
      requires Sized() && buf != null && buf.Length == capacity && size <= capacity
      modifies this`decodedFrames
      ensures consumed <= size
      ensures var split := SplitStream(capacity, buf[..size]);
              && ok == !split.rejected
              && decodedFrames == old(decodedFrames) + Frames(codec, split.payloads)
              && buf[consumed..size] == split.rest
    {
      ghost var done: seq<seq<byte>> := [];
      consumed := 0;
      while true
        invariant consumed <= size && ReadUpTo(capacity, buf[..size], done, consumed)
        invariant decodedFrames == old(decodedFrames) + Frames(codec, done)
        decreases size - consumed
      {
        var status, end, payload := NextFrame(consumed, done);
        if status != Whole {
          return status == Partial, consumed;
        }
        DecodeFrame(payload);
        FramesConcat(codec, done, [payload]);
        done, consumed := done + [payload], end;
      }
    }

    /** Drops the consumed bytes and gives back the pages past the live data. */
    method DropConsumed(consumed: nat)
      requires Sized() && buf != null && buf.Length == capacity && consumed <= size <= capacity
      modifies this`size, buf
      ensures size == old(size) - consumed
      ensures buf[..size] == old(buf[consumed..size])
    {
      if consumed > 0 {
        size := size - consumed;
        if size > 0 {
          ShiftDown(buf, consumed, size);
        }
        assert buf[..size] == old(buf[consumed..size]);
        if consumed > pageSize {
          var sizeRoundedUp := (size / pageSize + 1) * pageSize;
          assert size < sizeRoundedUp by { RoundedUpIsPast(size, pageSize); }
          if sizeRoundedUp < capacity {
            ghost var live := buf[..size];
            AdviseDontNeed(buf, sizeRoundedUp, capacity - sizeRoundedUp);
            assert buf[..size] == buf[..sizeRoundedUp][..size] == live;
          }
        }
      }
    }

    /**
     Takes over the `recvSize` bytes that recv() has written at the offered range. The result is
     false exactly when the stream received so far has reached an oversized header.
     */
    method EndReceive(recvSize: nat) returns (ok: bool)
      requires Valid() && !Stream().rejected
      requires buf != null && size + recvSize <= capacity
      modifies this`size, this`decodedFrames, this`received, buf
      ensures received == old(received) + old(buf[size..size + recvSize])
      ensures Valid()
      ensures ok == !Stream().rejected
    {
      hide SplitStream;
      ghost var chunk := buf[size..size + recvSize];
      ghost var before, queued := Stream(), decodedFrames;
      size := size + recvSize;
      assert buf[..size] == before.rest + chunk;
      var consumed;
      ok, consumed := ConsumeFrames();
      StreamAdvances(codec, capacity, received, chunk);
      received := received + chunk;
      ghost var now := SplitStream(capacity, before.rest + chunk);
      assert popped + decodedFrames == popped + queued + Frames(codec, now.payloads);
      if !ok {
        return;
      }
      DropConsumed(consumed);
    }

    method PopNextFrame() returns (frame: Option<F>)
      requires Valid()
      modifies this`decodedFrames, this`popped
      ensures Valid()
      ensures old(decodedFrames) == [] ==> frame == None && popped == old(popped) && decodedFrames == []
      ensures old(decodedFrames) != [] ==>
                && frame == Some(old(decodedFrames)[0])
                && decodedFrames == old(decodedFrames)[1..]
                && popped == old(popped) + [old(decodedFrames)[0]]
    {
      if decodedFrames == [] {
        return None;
      }
      frame := Some(decodedFrames[0]);
      popped := popped + [decodedFrames[0]];
      decodedFrames := decodedFrames[1..];
    }
  }

  /** The payloads `done` are those of `data[..at]`, and what follows is still to be split. */
  ghost predicate ReadUpTo(cap: nat, data: seq<byte>, done: seq<seq<byte>>, at: nat) {
    at <= |data| && SplitStream(cap, data) == Prepend(done, SplitStream(cap, data[at..]))
  }

  lemma FrameAt(cap: nat, data: seq<byte>, at: nat, end: nat, payload: seq<byte>, done: seq<seq<byte>>)
    requires at + HEADER_SIZE <= end <= |data| && end - at <= cap
    requires Declared(data[at..]) == end - at - HEADER_SIZE
    requires payload == data[at + HEADER_SIZE..end]
    requires ReadUpTo(cap, data, done, at)
    ensures ReadUpTo(cap, data, done + [payload], end)
  {
    var s, tail := data[at..], data[end..];
    assert s[HEADER_SIZE..end - at] == payload && s[end - at..] == tail;
    var t := SplitStream(cap, tail).payloads;
    assert done + ([payload] + t) == done + [payload] + t;
  }

  lemma ReadToTheEnd(cap: nat, data: seq<byte>, done: seq<seq<byte>>, at: nat)
    requires ReadUpTo(cap, data, done, at)
    requires Incomplete(cap, data[at..]) || TooLarge(cap, data[at..])
    ensures SplitStream(cap, data) == Split(done, data[at..], TooLarge(cap, data[at..]))
  {
    assert done + [] == done;
  }

  /** What one more chunk does to the reading of the stream, to its frames and to the unread rest. */
  lemma StreamAdvances<F>(c: Codec<F>, cap: nat, received: seq<byte>, chunk: seq<byte>)
    requires HEADER_SIZE <= cap && !SplitStream(cap, received).rejected
    ensures var before := SplitStream(cap, received);
            var now := SplitStream(cap, before.rest + chunk);
            var after := SplitStream(cap, received + chunk);
            && Frames(c, after.payloads) == Frames(c, before.payloads) + Frames(c, now.payloads)
            && after.rejected == now.rejected
            && (!now.rejected ==> after.rest == now.rest && |now.rest| < cap)
  {
    var before := SplitStream(cap, received);
    var now := SplitStream(cap, before.rest + chunk);
    SplitContinues(cap, received, chunk);
    FramesConcat(c, before.payloads, now.payloads);
    SplitIsReading(cap, before.rest + chunk);
  }

  /** A range of the buffer, seen in the live bytes. */
  lemma SliceOfLive(buf: array<byte>, size: nat, from: nat, to: nat)
    requires from <= to <= size <= buf.Length
    ensures buf[..size][from..to] == buf[from..to] == buf[..size][from..][..to - from]
  {
    assert buf[..size][from..to] == buf[from..to];
    assert buf[..size][from..][..to - from] == buf[..size][from..to];
  }

  lemma RoundedUpIsPast(size: nat, pageSize: nat)
    requires 0 < pageSize
    ensures size < (size / pageSize + 1) * pageSize
  {
  }

  /** The header and the payload, written into one string. */
  method Serialize<F>(codec: Codec<F>, frame: F) returns (s: seq<byte>)
    requires |codec.serialize(frame)| < TWO_TO_THE_32
    ensures s == Wire([codec.serialize(frame)]) && IsFrame(s, codec.serialize(frame))
  {
    var payload := codec.serialize(frame);
    var out := new byte[HEADER_SIZE + |payload|];
    var header := EncodeHeader(|payload|);
    forall i | 0 <= i < HEADER_SIZE {
      out[i] := header[i];
    }
    forall i | 0 <= i < |payload| {
      out[HEADER_SIZE + i] := payload[i];
    }
    s := out[..];
    assert s == header + payload;
    FrameOnTheWire(payload);
  }

  /** recv(): the kernel writes the next bytes of the stream at the offered range. */
  method Recv(buf: array<byte>, offset: nat, data: seq<byte>)
    requires offset + |data| <= buf.Length
    modifies buf
    ensures buf[..offset] == old(buf[..offset])
    ensures buf[offset..offset + |data|] == data
  {
    forall i | 0 <= i < |data| {
      buf[offset + i] := data[i];
    }
  }

  /** Pops until nothing is left. */
  method DrainFrames<F(!new)>(d: BufferedFrameDeserializer<F>) returns (frames: seq<F>)
    requires d.Valid()
    modifies d`decodedFrames, d`popped
    ensures d.Valid() && d.decodedFrames == [] && frames == old(d.decodedFrames)
    ensures d.popped == old(d.popped) + frames
  {
    hide SplitStream, Frames;
    frames := [];
    while true
      invariant d.Valid() && d.popped == old(d.popped) + frames
      invariant frames + d.decodedFrames == old(d.decodedFrames)
      decreases |d.decodedFrames|
    {
      var frame := d.PopNextFrame();
      if frame.None? {
        break;
      }
      frames := frames + [frame.value];
    }
  }

  /** One receive: BeginReceive, recv() of at most `want` bytes of what is pending, EndReceive. */
  method ReceiveOnce<F(!new)>(d: BufferedFrameDeserializer<F>, pending: seq<byte>, want: nat)
    returns (ok: bool, n: nat)
    requires d.Valid() && !d.Stream().rejected
    modifies d, d.buf
    ensures d.Valid() && n <= |pending| && d.received == old(d.received) + pending[..n]
    ensures d.popped == old(d.popped)
    ensures d.buf == old(d.buf) || fresh(d.buf)
    ensures ok == !d.Stream().rejected
    ensures n == Min(want, Min(d.capacity - |old(d.Stream()).rest|, |pending|))
    ensures 0 < want && pending != [] ==> 0 < n
  {
    hide SplitStream, Frames;
    var offset, room := d.BeginReceive();
    n := Min(want, Min(room, |pending|));
    Recv(d.buf, offset, pending[..n]);
    ok := d.EndReceive(n);
  }

  ghost predicate AllPositive(plan: seq<nat>) {
    forall i :: 0 <= i < |plan| ==> 0 < plan[i]
  }

  /**
   The client's OnDataAvailable. At the i-th receive the kernel delivers as many of the pending bytes
   as `plan[i]` asks for, bounded by the room offered; after that it would block. Frames are popped
   only once a receive has yielded nothing, and not at all when the stream is rejected.
   */
  method OnDataAvailable<F(!new)>(d: BufferedFrameDeserializer<F>, pending: seq<byte>, plan: seq<nat>)
    returns (frames: seq<F>, taken: nat, ok: bool)
    requires d.Valid() && !d.Stream().rejected
    modifies d, d.buf
    ensures d.Valid() && taken <= |pending| && d.received == old(d.received) + pending[..taken]
    ensures d.buf == old(d.buf) || fresh(d.buf)
    ensures ok == !d.Stream().rejected
    ensures d.popped == old(d.popped) + frames
    ensures if ok then d.decodedFrames == [] else frames == []
    ensures AllPositive(plan) && ok ==> Min(|plan|, |pending|) <= taken
  {
    hide SplitStream, Frames;
    frames, taken, ok := [], 0, true;
    assert pending[..0] == [];
    var i := 0;
    while true
      invariant d.Valid() && taken <= |pending| && d.received == old(d.received) + pending[..taken]
      invariant d.buf == old(d.buf) || fresh(d.buf)
      invariant d.popped == old(d.popped) && frames == []
      invariant i <= |plan| && ok && !d.Stream().rejected
      invariant AllPositive(plan) ==> Min(i, |pending|) <= taken
      decreases |plan| - i
    {
      var n;
      ok, n := ReceiveOnce(d, pending[taken..], if i < |plan| then plan[i] else 0);
      assert pending[..taken] + pending[taken..][..n] == pending[..taken + n];
      taken := taken + n;
      if !ok {
        return;
      }
      if n == 0 {
        break;
      }
      i := i + 1;
    }
    frames := DrainFrames(d);
  }

  ghost predicate NeverIdle(plans: seq<seq<nat>>) {
    forall i :: 0 <= i < |plans| ==> AllPositive(plans[i])
  }

  /** How many receives are asked for. */
  ghost function Receives(plans: seq<seq<nat>>): nat {
    if plans == [] then 0 else Receives(plans[..|plans| - 1]) + |plans[|plans| - 1]|
  }

  lemma OneMorePlan(plans: seq<seq<nat>>, k: nat)
    requires k < |plans|
    ensures Receives(plans[..k + 1]) == Receives(plans[..k]) + |plans[k]|
    ensures NeverIdle(plans[..k + 1]) ==> NeverIdle(plans[..k]) && AllPositive(plans[k])
  {
    var upTo := plans[..k + 1];
    assert upTo[..k] == plans[..k] && upTo[k] == plans[k];
    assert forall i :: 0 <= i < k ==> plans[..k][i] == upTo[i];
  }

  lemma NothingYet<F(!new)>(d: BufferedFrameDeserializer<F>, plans: seq<seq<nat>>)
    requires d.Valid() && d.received == [] && d.popped == []
    ensures d.decodedFrames == [] && !d.Stream().rejected && Receives(plans[..0]) == 0
  {
  }

  /**
   The life of a connection: one OnDataAvailable after the other, until the stream is rejected and
   the client shuts the socket down. The `done` calls that were completed took the first `delivered`
   bytes; exactly the frames of these are delivered. The frames that the call with the rejection had
   decoded stay in the queue for good.
   */
  method ReceiveLoop<F(!new)>(d: BufferedFrameDeserializer<F>, stream: seq<byte>, plans: seq<seq<nat>>)
    returns (frames: seq<F>, delivered: nat, taken: nat, done: nat, ok: bool)
    requires d.Valid() && d.received == [] && d.popped == [] && d.buf == null
    modifies d
    ensures d.Valid() && delivered <= taken <= |stream| && d.received == stream[..taken]
    ensures ok == !SplitStream(d.capacity, stream[..taken]).rejected
    ensures !SplitStream(d.capacity, stream[..delivered]).rejected
    ensures frames == Frames(d.codec, SplitStream(d.capacity, stream[..delivered]).payloads)
    ensures frames + d.decodedFrames == Frames(d.codec, SplitStream(d.capacity, stream[..taken]).payloads)
    ensures if ok then done == |plans| && delivered == taken else done < |plans|
    ensures ok ==> d.decodedFrames == [] && d.size == |SplitStream(d.capacity, stream[..taken]).rest|
    ensures NeverIdle(plans[..done]) ==> Min(Receives(plans[..done]), |stream|) <= delivered
  {
    hide SplitStream, Frames, Receives, AllPositive, NeverIdle;
    NothingYet(d, plans);
    assert stream[..0] == [];
    frames, delivered, taken, done, ok := [], 0, 0, 0, true;
    while done < |plans|
      invariant d.Valid() && delivered == taken <= |stream| && d.received == stream[..taken]
      invariant d.buf == null || fresh(d.buf)
      invariant frames == d.popped && d.decodedFrames == []
      invariant ok && !d.Stream().rejected && done <= |plans|
      invariant NeverIdle(plans[..done]) ==> Min(Receives(plans[..done]), |stream|) <= delivered
    {
      var newFrames, n;
      newFrames, n, ok := OnDataAvailable(d, stream[taken..], plans[done]);
      assert stream[..taken] + stream[taken..][..n] == stream[..taken + n];
      taken := taken + n;
      if !ok {
        return;
      }
      frames, delivered := frames + newFrames, taken;
      OneMorePlan(plans, done);
      done := done + 1;
    }
  }

  /** Serialises frames one after the other, as successive sends on one socket do. */
  method SerializeAll<F>(cap: nat, codec: Codec<F>, frames: seq<F>) returns (stream: seq<byte>)
    requires Sendable(cap, codec, frames)
    ensures stream == Wire(Serialized(codec, frames))
  {
    stream := [];
    ghost var ps := Serialized(codec, frames);
    for i := 0 to |frames|
      invariant stream == Wire(ps[..i])
    {
      assert ps[i] in ps;
      var s := Serialize(codec, frames[i]);
      assert ps[..i + 1] == ps[..i] + [ps[i]];
      WireConcat(ps[..i], [ps[i]]);
      stream := stream + s;
    }
    assert ps[..|frames|] == ps;
  }

  /** Sent frames arrive: a prefix at any time, and all of them in order after enough receives. */
  method SendAndReceive<F(!new)>(d: BufferedFrameDeserializer<F>, sent: seq<F>, plans: seq<seq<nat>>)
    returns (frames: seq<F>, complete: bool)
    requires d.Valid() && d.received == [] && d.popped == [] && d.buf == null
    requires Lossless(d.codec) && Sendable(d.capacity, d.codec, sent)
    modifies d
    ensures frames <= sent && d.decodedFrames == []
    ensures complete ==> frames == sent && d.size == 0
    ensures complete == (d.received == Wire(Serialized(d.codec, sent)))
    ensures NeverIdle(plans) && |Wire(Serialized(d.codec, sent))| <= Receives(plans) ==> complete
  {
    var stream := SerializeAll(d.capacity, d.codec, sent);
    var delivered, taken, done, ok;
    frames, delivered, taken, done, ok := ReceiveLoop(d, stream, plans);
    complete := taken == |stream|;
    RoundTrip(d.capacity, d.codec, sent);
    ghost var seen, unseen := stream[..taken], stream[taken..];
    assert stream == seen + unseen;
    PrefixNotRejected(d.capacity, seen, stream);
    SplitContinues(d.capacity, seen, unseen);
    ghost var part := SplitStream(d.capacity, seen);
    FramesConcat(d.codec, part.payloads, SplitStream(d.capacity, part.rest + unseen).payloads);
    assert complete ==> seen == stream;
    assert plans[..|plans|] == plans;
  }
}
