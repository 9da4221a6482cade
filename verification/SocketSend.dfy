/**
 Sending on a socket. The kernel is an adversary: every sendmsg() takes as much or as little of the
 remaining data as it likes, would block, or fails.
 */
module SocketSend {
  import opened Common

  /** A piece of memory to send: `len` bytes of `mem` from `base` on. */
  datatype IoVec = IoVec(mem: seq<byte>, base: nat, len: nat) {
    predicate InBounds() {
      base + len <= |mem|
    }

    function Bytes(): (s: seq<byte>)
      requires InBounds()
      ensures |s| == len
    {
      mem[base..base + len]
    }
  }

  predicate AllInBounds(vecs: seq<IoVec>) {
    forall i :: 0 <= i < |vecs| ==> vecs[i].InBounds()
  }

  /** The data of several pieces, one after the other. */
  function Gather(vecs: seq<IoVec>): seq<byte>
    requires AllInBounds(vecs)
  {
    if vecs == [] then [] else vecs[0].Bytes() + Gather(vecs[1..])
  }

  /** struct msghdr: the pieces still to send are `iov[first..first + iovlen]`. */
  class MsgHdr {
    const iov: array<IoVec>
    var first: nat
    var iovlen: nat
    var iovNull: bool      // msg_iov is null
    var control: seq<int>  // descriptors sent as ancillary data

    constructor (iov: array<IoVec>, control: seq<int>)
      ensures this.iov == iov && first == 0 && iovlen == iov.Length && !iovNull && this.control == control
    {
      this.iov, first, iovlen, iovNull, this.control := iov, 0, iov.Length, false, control;
    }

    ghost predicate Valid()
      reads `first, `iovlen, iov
    {
      first + iovlen <= iov.Length && AllInBounds(iov[first..first + iovlen])
    }

    ghost function Remaining(): seq<byte>
      requires Valid()
      reads `first, `iovlen, `iovNull, iov
    {
      if iovNull then [] else Gather(iov[first..first + iovlen])
    }
  }

  /** Dropping whole pieces, then a part of one. */
  lemma GatherDrop(vecs: seq<IoVec>, n: nat)
    requires AllInBounds(vecs) && vecs != [] && n < vecs[0].len
    ensures var v := vecs[0];
            var shifted := [v.(base := v.base + n, len := v.len - n)] + vecs[1..];
            AllInBounds(shifted) && n <= |Gather(vecs)| && Gather(shifted) == Gather(vecs)[n..]
  {
    var v := vecs[0];
    var w := v.(base := v.base + n, len := v.len - n);
    var shifted := [w] + vecs[1..];
    assert shifted[1..] == vecs[1..];
    assert w.Bytes() == v.Bytes()[n..];
    assert (v.Bytes() + Gather(vecs[1..]))[n..] == v.Bytes()[n..] + Gather(vecs[1..]);
  }

  /** The `i`-th of the pieces has been sent in part: it is cut, and the header starts there. */
  method CutPiece(msg: MsgHdr, i: nat, n: nat, ghost vecs: seq<IoVec>)
    requires msg.Valid() && !msg.iovNull && vecs == msg.iov[msg.first..msg.first + msg.iovlen]
    requires i < |vecs| && n < vecs[i].len
    modifies msg`first, msg`iovlen, msg.iov
    ensures msg.Valid() && n < |Gather(vecs[i..])| && msg.Remaining() == Gather(vecs[i..])[n..]
  {
    hide Gather, AllInBounds;
    CutInPlace(vecs, i, n);
    var k := msg.first + i;
    var vec := msg.iov[k];
    ghost var rest := msg.iov[k + 1..msg.first + msg.iovlen];
    assert rest == vecs[i + 1..];
    msg.iov[k] := vec.(base := vec.base + n, len := vec.len - n);
    msg.first := k;
    msg.iovlen := msg.iovlen - i;
    assert msg.iov[k + 1..k + msg.iovlen] == rest;
    assert msg.iov[k..k + msg.iovlen] == [msg.iov[k]] + rest;
  }

  lemma CutInPlace(vecs: seq<IoVec>, i: nat, n: nat)
    requires AllInBounds(vecs) && i < |vecs| && n < vecs[i].len
    ensures var v := vecs[i];
            var shifted := [v.(base := v.base + n, len := v.len - n)] + vecs[i + 1..];
            && AllInBounds(vecs[i..]) && AllInBounds(shifted)
            && n < |Gather(vecs[i..])| && Gather(shifted) == Gather(vecs[i..])[n..]
  {
    assert vecs[i..][1..] == vecs[i + 1..];
    GatherDrop(vecs[i..], n);
  }

  lemma GatherAt(vecs: seq<IoVec>, i: nat)
    requires i < |vecs| && AllInBounds(vecs)
    ensures AllInBounds(vecs[i..]) && AllInBounds(vecs[i + 1..]) && vecs[i].InBounds()
    ensures Gather(vecs[i..]) == vecs[i].Bytes() + Gather(vecs[i + 1..])
  {
    assert vecs[i..][1..] == vecs[i + 1..];
  }

  lemma DropMore(data: seq<byte>, done: nat, v: seq<byte>, rest: seq<byte>)
    requires done <= |data| && v + rest == data[done..]
    ensures done + |v| <= |data| && rest == data[done + |v|..]
  {
    assert data[done..][|v|..] == data[done + |v|..];
    assert (v + rest)[|v|..] == rest;
  }

  /** Updates the header so that the next sendmsg() sends what remains after `n` bytes. */
  method ShiftMsgHdr(n: nat, msg: MsgHdr)
    requires msg.Valid() && !msg.iovNull && n <= |msg.Remaining()|
    modifies msg`first, msg`iovlen, msg`iovNull, msg.iov
    ensures msg.Valid()
    ensures msg.Remaining() == old(msg.Remaining())[n..]
    ensures msg.iovNull <==> n == |old(msg.Remaining())|
  {
    hide Gather, AllInBounds, IoVec.Bytes, IoVec.InBounds, MsgHdr.Valid, MsgHdr.Remaining;
    Unpack(msg);
    ghost var data, vecs := msg.Remaining(), msg.iov[msg.first..msg.first + msg.iovlen];
    assert vecs[0..] == vecs;
    var left: nat := n;
    for i := 0 to msg.iovlen
      invariant unchanged(msg) && unchanged(msg.iov)
      invariant left <= n && n - left <= |data| && AllInBounds(vecs[i..])
      invariant Gather(vecs[i..]) == data[n - left..]
    {
      var vec := msg.iov[msg.first + i];
      assert vec == vecs[i];
      if left < vec.len {
        CutPiece(msg, i, left, vecs);
        DropTwice(data, n - left, left);
        return;
      }
      GatherAt(vecs, i);
      DropMore(data, n - left, vec.Bytes(), Gather(vecs[i + 1..]));
      left := left - vec.len;
    }
    GatherNothing(vecs);
    msg.iovlen := 0;
    msg.iovNull := true;
    NoPieces(msg);
  }

  lemma Unpack(msg: MsgHdr)
    requires msg.Valid() && !msg.iovNull
    ensures msg.first + msg.iovlen <= msg.iov.Length
    ensures var vecs := msg.iov[msg.first..msg.first + msg.iovlen]; AllInBounds(vecs) && msg.Remaining() == Gather(vecs)
  {
  }

  lemma NoPieces(msg: MsgHdr)
    requires msg.first <= msg.iov.Length && msg.iovlen == 0 && msg.iovNull
    ensures msg.Valid() && msg.Remaining() == []
  {
  }

  lemma DropTwice(data: seq<byte>, a: nat, b: nat)
    requires a <= |data| && b <= |data[a..]|
    ensures data[a..][b..] == data[a + b..]
  {
  }

  lemma GatherNothing(vecs: seq<IoVec>)
    requires AllInBounds(vecs)
    ensures AllInBounds([]) && Gather([]) == [] && vecs[|vecs|..] == []
  {
  }

  // ---------------------------------------------------------------- the kernel

  /** What sendmsg() does next. A blocked send may be followed by a poll() that reports room. */
  datatype Choice = Accept(wish: nat) | Block(roomLater: bool) | Fail | Nothing

  datatype SendResult = Sent(n: nat) | WouldBlock | Failed | NothingSent

  class Kernel {
    var wire: seq<byte>            // bytes taken so far
    var ancillary: seq<seq<int>>   // the descriptors that came with each successful send

    constructor ()
      ensures wire == [] && ancillary == []
    {
      wire, ancillary := [], [];
    }

    method SendMsg(msg: MsgHdr, choice: Choice) returns (r: SendResult)
      requires msg.Valid()
      modifies this
      ensures r.Sent? <==> choice.Accept? && msg.Remaining() != []
      ensures r.Sent? ==>
                && 0 < r.n == Min(Max(choice.wish, 1), |msg.Remaining()|)
                && wire == old(wire) + msg.Remaining()[..r.n]
                && ancillary == old(ancillary) + [msg.control]
      ensures !r.Sent? ==> wire == old(wire) && ancillary == old(ancillary)
      ensures r.WouldBlock? <==> choice.Block?
      ensures r.Failed? <==> choice.Fail?
    {
      match choice
      case Accept(wish) =>
        var data := CopyOut(msg);
        if data == [] {
          return NothingSent;
        }
        var n := Min(Max(wish, 1), |data|);
        wire := wire + data[..n];
        ancillary := ancillary + [msg.control];
        return Sent(n);
      case Block(_) => return WouldBlock;
      case Fail => return Failed;
      case Nothing => return NothingSent;
    }

    method CopyOut(msg: MsgHdr) returns (data: seq<byte>)
      requires msg.Valid()
      ensures data == msg.Remaining()
    {
      hide Gather;
      data := [];
      if !msg.iovNull {
        ghost var vecs := msg.iov[msg.first..msg.first + msg.iovlen];
        assert vecs[0..] == vecs;
        GatherNothing(vecs);
        for i := 0 to msg.iovlen
          invariant data + Gather(vecs[i..]) == Gather(vecs)
        {
          var v := msg.iov[msg.first + i];
          assert v == vecs[i];
          GatherAt(vecs, i);
          data := data + v.mem[v.base..v.base + v.len];
        }
      }
    }
  }

  /** After a send: shift the header and do not send the ancillary data again. */
  method ShiftAndDropControl(n: nat, msg: MsgHdr)
    requires msg.Valid() && !msg.iovNull && n <= |msg.Remaining()|
    modifies msg, msg.iov
    ensures msg.Valid() && msg.control == []
    ensures msg.Remaining() == old(msg.Remaining())[n..]
    ensures msg.iovNull <==> n == |old(msg.Remaining())|
  {
    hide Gather, MsgHdr.Valid, MsgHdr.Remaining;
    ShiftMsgHdr(n, msg);
    msg.control := [];
  }

  /** How SendMsgAll ended; what is returned when it broke. */
  datatype Ending = AllSent | Blocked | Broken(result: int)

  /** How many bytes were sent, in how many pieces, and how it ended. */
  datatype Outcome = Outcome(sent: nat, sends: nat, ending: Ending) {
    function Result(): int {
      if ending.Broken? then ending.result else sent
    }
  }

  /** What becomes of `n` bytes that are still to be sent, by the kernel's behaviour alone. */
  function OutcomeOf(n: nat, script: seq<Choice>, withTimeout: bool): (o: Outcome)
    ensures o.sent <= n && (o.ending == AllSent ==> o.sent == n) && (0 < o.sends <==> 0 < o.sent)
    ensures o.ending == Blocked ==> n == 0 || o.sent < n
    ensures o.ending.Broken? ==> o.ending.result in [-1, 0]
  {
    if script == [] then Outcome(0, 0, Blocked)
    else match script[0]
      case Block(roomLater) =>
        if withTimeout && roomLater then OutcomeOf(n, script[1..], withTimeout) else Outcome(0, 0, Blocked)
      case Fail => Outcome(0, 0, Broken(-1))
      case Nothing => Outcome(0, 0, Broken(0))
      case Accept(wish) =>
        if n == 0 then Outcome(0, 0, Broken(0)) else
          var k := Min(Max(wish, 1), n);
          if k == n then Outcome(n, 1, AllSent) else
            var o := OutcomeOf(n - k, script[1..], withTimeout);
            Outcome(k + o.sent, 1 + o.sends, o.ending)
  }

  /** A choice after which the kernel takes no more. */
  predicate Stops(c: Choice, withTimeout: bool) {
    c.Fail? || c.Nothing? || (c.Block? && !(withTimeout && c.roomLater))
  }

  /** The send breaks only at an error, or when there is nothing to send. */
  lemma {:induction false} BrokenOnlyByFailure(n: nat, script: seq<Choice>, withTimeout: bool)
    requires OutcomeOf(n, script, withTimeout).ending.Broken?
    ensures n == 0 || exists i :: 0 <= i < |script| && (script[i].Fail? || script[i].Nothing?)
    decreases |script|
  {
    if n != 0 && !script[0].Fail? && !script[0].Nothing? {
      var k := if script[0].Accept? then Min(Max(script[0].wish, 1), n) else 0;
      BrokenOnlyByFailure(n - k, script[1..], withTimeout);
      var i :| 0 <= i < |script[1..]| && (script[1..][i].Fail? || script[1..][i].Nothing?);
      assert script[i + 1] == script[1..][i];
    }
  }

  /** The kernel accepts at least `n` times and never stops. */
  predicate Accepting(n: nat, script: seq<Choice>, withTimeout: bool) {
    n <= Accepts(script) && forall i :: 0 <= i < |script| ==> !Stops(script[i], withTimeout)
  }

  /** A kernel that goes on accepting takes everything: every accepted send moves at least one byte. */
  lemma {:induction false} AcceptingKernelTakesAll(n: nat, script: seq<Choice>, withTimeout: bool)
    requires 0 < n && Accepting(n, script, withTimeout)
    ensures OutcomeOf(n, script, withTimeout).ending == AllSent
    decreases |script|
  {
    var rest := script[1..];
    assert forall i :: 0 <= i < |rest| ==> rest[i] == script[i + 1];
    assert !Stops(script[0], withTimeout);
    if script[0].Block? {
      AcceptingKernelTakesAll(n, rest, withTimeout);
    } else {
      var k := Min(Max(script[0].wish, 1), n);
      if k < n {
        AcceptingKernelTakesAll(n - k, rest, withTimeout);
      }
    }
  }

  /** How many sends the kernel accepts. */
  function Accepts(script: seq<Choice>): nat {
    if script == [] then 0 else (if script[0].Accept? then 1 else 0) + Accepts(script[1..])
  }

  /** It blocks for good only where the kernel blocks, or after everything it was going to do. */
  lemma {:induction false} BlockedOnlyByKernel(n: nat, script: seq<Choice>, withTimeout: bool)
    requires OutcomeOf(n, script, withTimeout).ending == Blocked
    ensures || (exists i :: 0 <= i < |script| && script[i].Block? && Stops(script[i], withTimeout))
            || OutcomeOf(n, script, withTimeout).sends == Accepts(script)
    decreases |script|
  {
    if script != [] && !Stops(script[0], withTimeout) {
      var k := if script[0].Accept? then Min(Max(script[0].wish, 1), n) else 0;
      BlockedOnlyByKernel(n - k, script[1..], withTimeout);
      if i :| 0 <= i < |script[1..]| && script[1..][i].Block? && Stops(script[1..][i], withTimeout) {
        assert script[i + 1] == script[1..][i];
      }
    }
  }

  /** The ancillary data of `k` successful sends: the descriptors go with the first one only. */
  function FirstOnly(control: seq<int>, k: nat): (r: seq<seq<int>>)
    ensures |r| == k && forall i :: 0 <= i < k ==> r[i] == if i == 0 then control else []
  {
    if k == 0 then [] else FirstOnly(control, k - 1) + [if k == 1 then control else []]
  }

  /** What is still to come, after some bytes have been sent in some pieces. */
  ghost function After(sent: nat, sends: nat, o: Outcome): Outcome {
    Outcome(sent + o.sent, sends + o.sends, o.ending)
  }

  /** What the kernel does at the i-th send; it blocks after the end of the script. */
  function ChoiceAt(script: seq<Choice>, i: nat): (c: Choice)
    ensures i < |script| || c == Block(false)
  {
    if i < |script| then script[i] else Block(false)
  }

  lemma OutcomeAt(n: nat, script: seq<Choice>, i: nat, withTimeout: bool)
    requires i <= |script|
    ensures var o := OutcomeOf(n, script[i..], withTimeout);
            match ChoiceAt(script, i)
            case Block(roomLater) =>
              if withTimeout && roomLater then i < |script| && o == OutcomeOf(n, script[i + 1..], withTimeout)
              else o == Outcome(0, 0, Blocked)
            case Fail => o == Outcome(0, 0, Broken(-1))
            case Nothing => o == Outcome(0, 0, Broken(0))
            case Accept(wish) =>
              var k := Min(Max(wish, 1), n);
              if n == 0 then o == Outcome(0, 0, Broken(0))
              else if k == n then o == Outcome(n, 1, AllSent)
              else i < |script| && o == After(k, 1, OutcomeOf(n - k, script[i + 1..], withTimeout))
  {
    if i < |script| {
      assert script[i..][1..] == script[i + 1..];
    } else {
      assert script[i..] == [];
    }
  }

  /**
   Re-enters sendmsg() until everything is sent, the kernel blocks or an error occurs. `script` is
   the kernel's behaviour; when it runs out the kernel blocks for good.
   */
  method SendMsgAll(msg: MsgHdr, kernel: Kernel, script: seq<Choice>, withTimeout: bool)
    returns (res: int, ghost o: Outcome)
    requires msg.Valid()
    modifies msg, msg.iov, kernel
    ensures o == if old(msg.iovNull) then Outcome(0, 0, AllSent)
            else OutcomeOf(|old(msg.Remaining())|, script, withTimeout)
    ensures msg.Valid() && res == o.Result()
    ensures old(kernel.wire) <= kernel.wire && |kernel.wire| == |old(kernel.wire)| + o.sent
    ensures kernel.wire[|old(kernel.wire)|..] + msg.Remaining() == old(msg.Remaining())
    ensures kernel.ancillary == old(kernel.ancillary) + FirstOnly(old(msg.control), o.sends)
  {
    hide Gather, MsgHdr.Valid, MsgHdr.Remaining, OutcomeOf, ChoiceAt, Min, Max, FirstOnly, After;
    ghost var data, wire, ancillary, control := msg.Remaining(), kernel.wire, kernel.ancillary, msg.control;
    o := if msg.iovNull then Outcome(0, 0, AllSent) else OutcomeOf(|data|, script, withTimeout);
    res := 0;
    ghost var sends := 0;
    var i := 0;
    MoreAncillary(control, 0);
    AfterNothing(o);
    assert script[0..] == script;
    while !msg.iovNull
      invariant msg.Valid() && wire <= kernel.wire && res == |kernel.wire| - |wire| && i <= |script|
      invariant kernel.wire[|wire|..] + msg.Remaining() == data
      invariant o == After(res, sends, if msg.iovNull then Outcome(0, 0, AllSent)
                                       else OutcomeOf(|msg.Remaining()|, script[i..], withTimeout))
      invariant msg.control == if sends == 0 then control else []
      invariant kernel.ancillary == ancillary + FirstOnly(control, sends)
      decreases |script| - i
    {
      var choice := ChoiceAt(script, i);
      OutcomeAt(|msg.Remaining()|, script, i, withTimeout);
      ghost var before := kernel.wire;
      var r := kernel.SendMsg(msg, choice);
      match r {
        case WouldBlock =>
          if withTimeout && choice.roomLater {
            i := i + 1;
            continue;
          }
          AfterEnding(res, sends, Outcome(0, 0, Blocked));
          return;
        case Failed =>
          AfterEnding(res, sends, Outcome(0, 0, Broken(-1)));
          res := -1;
          return;
        case NothingSent =>
          AfterEnding(res, sends, Outcome(0, 0, Broken(0)));
          res := 0;
          return;
        case Sent(n) =>
          i := i + 1;
          res := res + n;
          MoreSent(wire, before, msg.Remaining(), n, kernel.wire);
          MoreAncillary(control, sends);
          AfterMore(res - n, sends, n, if n == |msg.Remaining()| then Outcome(0, 0, AllSent)
                                       else OutcomeOf(|msg.Remaining()| - n, script[i..], withTimeout));
          ShiftAndDropControl(n, msg);
          sends := sends + 1;
      }
    }
    AfterEnding(res, sends, Outcome(0, 0, AllSent));
  }

  lemma AfterNothing(o: Outcome)
    ensures After(0, 0, o) == o
  {
  }

  lemma AfterMore(sent: nat, sends: nat, k: nat, o: Outcome)
    ensures After(sent, sends, After(k, 1, o)) == After(sent + k, sends + 1, o)
    ensures After(k, 1, Outcome(0, 0, AllSent)) == Outcome(k, 1, AllSent)
  {
  }

  lemma AfterEnding(sent: nat, sends: nat, o: Outcome)
    requires o.sent == o.sends == 0
    ensures After(sent, sends, o) == Outcome(sent, sends, o.ending)
  {
  }

  lemma MoreSent(wire: seq<byte>, before: seq<byte>, rest: seq<byte>, n: nat, now: seq<byte>)
    requires wire <= before && n <= |rest| && now == before + rest[..n]
    ensures wire <= now && now[|wire|..] + rest[n..] == before[|wire|..] + rest
  {
  }

  lemma MoreAncillary(control: seq<int>, sends: nat)
    ensures FirstOnly(control, sends + 1) == FirstOnly(control, sends) + [if sends == 0 then control else []]
    ensures sends == 0 ==> FirstOnly(control, sends) == []
  {
  }

  /** UnixSocketRaw::Send: one piece of memory, and the descriptors as ancillary data. */
  method Send(data: seq<byte>, fds: seq<int>, kernel: Kernel, script: seq<Choice>, withTimeout: bool)
    returns (res: int, ghost o: Outcome)
    modifies kernel
    ensures o == OutcomeOf(|data|, script, withTimeout) && res == o.Result()
    ensures kernel.wire == old(kernel.wire) + data[..o.sent]
    ensures kernel.ancillary == old(kernel.ancillary) + FirstOnly(fds, o.sends)
  {
    hide MsgHdr.Valid, MsgHdr.Remaining, FirstOnly;
    var iov := new IoVec[1](_ => IoVec(data, 0, |data|));
    var msg := new MsgHdr(iov, fds);
    OnePiece(msg, data);
    ghost var wire := kernel.wire;
    res, o := SendMsgAll(msg, kernel, script, withTimeout);
    ghost var sent := kernel.wire[|wire|..];
    assert kernel.wire == wire + sent;
    assert sent == (sent + msg.Remaining())[..o.sent];
  }

  lemma OnePiece(msg: MsgHdr, data: seq<byte>)
    requires msg.iov.Length == 1 && msg.iov[0] == IoVec(data, 0, |data|) && msg.first == 0 && msg.iovlen == 1 &&
             !msg.iovNull
    ensures msg.Valid() && msg.Remaining() == data
  {
    assert msg.iov[0..1] == [IoVec(data, 0, |data|)];
    assert Gather([IoVec(data, 0, |data|)]) == IoVec(data, 0, |data|).Bytes() + Gather([]);
  }
}
