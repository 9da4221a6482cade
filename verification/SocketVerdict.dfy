/**
 What becomes of a connection, read off the operations of a run: the first event that reports an
 outcome decides whether the listener is told of a connection, and a connection lasts until it is
 given up.
 */
module SocketVerdict {
  import opened Common
  import opened SocketEvents

  /** The socket's descriptor is ready, or the first look at it that Connect() has posted. */
  predicate IsEvent(op: Op) {
    op.WatchFires? || (op.RunPosted? && op.task == PostedEvent)
  }

  /** The user gives the socket up. */
  predicate GivesUp(op: Op) {
    op.UserShutdown? || op.Release? || op.Destroy?
  }

  /** While connecting: an event that is not just progress, or the end of the attempt. */
  predicate Decides(op: Op) {
    (IsEvent(op) && op.err != InProgress) || GivesUp(op)
  }

  /** While connected: the socket is given up, or found broken. */
  predicate Ends(op: Op) {
    GivesUp(op) || op == SocketEvents.Send(false) || op == SocketEvents.Receive(true)
  }

  predicate FirstDecision(ops: seq<Op>, i: int) {
    0 <= i < |ops| && Decides(ops[i]) && forall j :: 0 <= j < i ==> !Decides(ops[j])
  }

  /** The first decision is an event without an error. */
  predicate Opens(ops: seq<Op>, i: int) {
    FirstDecision(ops, i) && IsEvent(ops[i]) && ops[i].err == NoError
  }

  // ---------------------------------------------------------------- the three parts of a run

  predicate Waiting(s: Socket) {
    s.alive && s.state == Connecting && s.log == [] && s.handle && s.watch && s.posted <= multiset{PostedEvent}
  }

  predicate Open(s: Socket) {
    s.alive && s.state == Connected && s.handle && s.watch && s.posted <= multiset{PostedEvent}
  }

  predicate Closed(s: Socket) {
    s.state == Disconnected && !s.handle && !s.watch
  }

  /** Shutting down closes a socket, which changes nothing the second time. */
  lemma ShutdownCloses(s: Socket, notify: bool)
    requires s.handle == s.watch
    ensures Closed(Shutdown(s, notify)) && Shutdown(s, notify).log == s.log && Shutdown(s, notify).alive == s.alive
    ensures !notify || s.state == Disconnected ==> Shutdown(s, notify).posted == s.posted
  {
  }

  lemma OnlyTheEvent(posted: multiset<Posted>, task: Posted)
    requires posted <= multiset{PostedEvent} && task in posted
    ensures task == PostedEvent && posted - multiset{task} == multiset{}
  {
  }

  /** The socket as an event finds it. */
  function AtEvent(s: Socket, op: Op): Socket {
    if op.RunPosted? then s.(posted := s.posted - multiset{op.task}) else s
  }

  lemma EventsAreHandled(s: Socket, op: Op)
    requires s.alive && s.posted <= multiset{PostedEvent} && Enabled(s, op)
    ensures op.RunPosted? ==> IsEvent(op)
    ensures IsEvent(op) ==> Apply(s, op) == OnEvent(AtEvent(s, op), op.err)
    ensures IsEvent(op) ==> AtEvent(s, op).posted <= multiset{PostedEvent}
  {
    hide OnEvent;
    if op.RunPosted? {
      OnlyTheEvent(s.posted, op.task);
    }
  }

  lemma EventWhileWaiting(s: Socket, err: SockError)
    requires Waiting(s)
    ensures var s' := OnEvent(s, err);
            && (err == InProgress ==> s' == s)
            && (err == NoError ==> Open(s') && s'.log == [OnConnect(true)])
            && (err == Refused ==> Closed(s') && s'.log == [OnConnect(false)] && s'.posted <= multiset{PostedEvent})
  {
    hide Shutdown;
    ShutdownCloses(s, false);
  }

  lemma OtherWhileWaiting(s: Socket, op: Op)
    requires Waiting(s) && Enabled(s, op) && !op.WatchFires? && !op.RunPosted?
    ensures GivesUp(op) ==> Closed(Apply(s, op)) && Apply(s, op).log == []
    ensures !GivesUp(op) ==> Apply(s, op) == s
  {
    hide Shutdown, OnEvent;
    ShutdownCloses(s, true);
    ShutdownCloses(Mute(s), false);
  }

  lemma WaitingStep(s: Socket, op: Op)
    requires Waiting(s) && Enabled(s, op)
    ensures var s' := Apply(s, op);
            && (!Decides(op) ==> Waiting(s'))
            && (Decides(op) && IsEvent(op) && op.err == NoError ==> Open(s') && s'.log == [OnConnect(true)])
            && (Decides(op) && IsEvent(op) && op.err == Refused ==>
                  Closed(s') && s'.log == [OnConnect(false)] && s'.posted <= multiset{PostedEvent})
            && (GivesUp(op) ==> Closed(s') && s'.log == [])
  {
    hide OnEvent, Apply;
    EventsAreHandled(s, op);
    if IsEvent(op) {
      EventWhileWaiting(AtEvent(s, op), op.err);
    } else {
      OtherWhileWaiting(s, op);
    }
  }

  lemma OpenEvent(s: Socket, op: Op)
    requires Open(s) && Enabled(s, op) && IsEvent(op)
    ensures Open(Apply(s, op)) && Apply(s, op).log == s.log + [OnDataAvailable]
  {
    EventsAreHandled(s, op);
  }

  /** An operation that is neither an event nor a posted callback. */
  lemma OtherWhileOpen(s: Socket, op: Op)
    requires Open(s) && Enabled(s, op) && !op.WatchFires? && !op.RunPosted?
    ensures Ends(op) ==> Closed(Apply(s, op)) && Apply(s, op).log == s.log
    ensures !Ends(op) ==> Apply(s, op) == s
  {
    hide Shutdown, OnEvent;
    ShutdownCloses(s, true);
    ShutdownCloses(Mute(s), false);
  }

  lemma OpenStep(s: Socket, op: Op)
    requires Open(s) && Enabled(s, op)
    ensures var s' := Apply(s, op);
            && (Ends(op) ==> Closed(s') && s'.log == s.log)
            && (!Ends(op) ==> Open(s') && s'.log == s.log + if IsEvent(op) then [OnDataAvailable] else [])
  {
    assert op.RunPosted? ==> IsEvent(op) by { EventsAreHandled(s, op); }
    assert s.log + [] == s.log;
    hide Apply;
    if IsEvent(op) {
      OpenEvent(s, op);
    } else {
      OtherWhileOpen(s, op);
    }
  }

  lemma PostedWhileClosed(s: Socket, task: Posted, err: SockError)
    requires Closed(s) && task in s.posted
    ensures var s' := Apply(s, RunPosted(task, err));
            && Closed(s') && s'.posted == s.posted - multiset{task}
            && (s'.log == s.log || s'.log == s.log + [OnConnect(false)] || s'.log == s.log + [OnDisconnect])
            && (task == PostedEvent ==> s'.log == s.log)
  {
  }

  lemma OtherWhileClosed(s: Socket, op: Op)
    requires Closed(s) && Enabled(s, op) && !op.RunPosted?
    ensures var s' := Apply(s, op); Closed(s') && s'.posted == s.posted && s'.log == s.log
  {
    hide Shutdown;
    ShutdownCloses(s, true);
    ShutdownCloses(Mute(s), false);
  }

  lemma ClosedStep(s: Socket, op: Op)
    requires Closed(s) && Enabled(s, op)
    ensures var s' := Apply(s, op);
            && Closed(s') && s'.posted <= s.posted
            && (s'.log == s.log || s'.log == s.log + [OnConnect(false)] || s'.log == s.log + [OnDisconnect])
            && (s.posted <= multiset{PostedEvent} ==> s'.log == s.log)
  {
    hide Apply, Closed;
    if op.RunPosted? {
      PostedWhileClosed(s, op.task, op.err);
      if s.posted <= multiset{PostedEvent} {
        OnlyTheEvent(s.posted, op.task);
      }
    } else {
      OtherWhileClosed(s, op);
    }
  }

  lemma {:induction false} RunInTwo(s: Socket, a: seq<Op>, b: seq<Op>)
    requires CanRun(s, a + b)
    ensures CanRun(s, a) && CanRun(Run(s, a), b) && Run(s, a + b) == Run(Run(s, a), b)
    decreases |a|
  {
    hide Enabled, Apply;
    if a == [] {
      assert a + b == b;
    } else {
      assert (a + b)[1..] == a[1..] + b;
      RunInTwo(Apply(s, a[0]), a[1..], b);
    }
  }

  lemma {:induction false} WaitingRun(s: Socket, ops: seq<Op>)
    requires Waiting(s) && CanRun(s, ops) && forall j :: 0 <= j < |ops| ==> !Decides(ops[j])
    ensures Waiting(Run(s, ops))
    decreases |ops|
  {
    hide Enabled, Apply, Waiting, Decides;
    if ops != [] {
      WaitingStep(s, ops[0]);
      WaitingRun(Apply(s, ops[0]), ops[1..]);
    }
  }

  /** One notice of data for every event. */
  function DataNotices(ops: seq<Op>): seq<Event> {
    if ops == [] then [] else (if IsEvent(ops[0]) then [OnDataAvailable] else []) + DataNotices(ops[1..])
  }

  lemma {:induction false} OpenRun(s: Socket, ops: seq<Op>)
    requires Open(s) && CanRun(s, ops) && forall j :: 0 <= j < |ops| ==> !Ends(ops[j])
    ensures Open(Run(s, ops)) && Run(s, ops).log == s.log + DataNotices(ops)
    decreases |ops|
  {
    hide Enabled, Apply, Open, Ends, IsEvent;
    if ops == [] {
      assert s.log + [] == s.log;
    } else {
      OpenStep(s, ops[0]);
      OpenRun(Apply(s, ops[0]), ops[1..]);
      var here := if IsEvent(ops[0]) then [OnDataAvailable] else [];
      assert s.log + here + DataNotices(ops[1..]) == s.log + (here + DataNotices(ops[1..]));
    }
  }

  /** Nothing but notices of failure or disconnection comes after the end. */
  lemma {:induction false} ClosedRun(s: Socket, ops: seq<Op>)
    requires Closed(s) && CanRun(s, ops)
    ensures Closed(Run(s, ops)) && s.log <= Run(s, ops).log
    ensures forall k :: |s.log| <= k < |Run(s, ops).log| ==> Run(s, ops).log[k] in [OnConnect(false), OnDisconnect]
    ensures s.posted <= multiset{PostedEvent} ==> Run(s, ops).log == s.log
    decreases |ops|
  {
    hide Enabled, Apply, Closed;
    if ops != [] {
      ClosedStep(s, ops[0]);
      ClosedRun(Apply(s, ops[0]), ops[1..]);
    }
  }

  // ---------------------------------------------------------------- the verdict

  lemma StartsWaiting()
    ensures Waiting(Connect(true, true))
  {
  }

  /** The first look at a started attempt is posted, and so is the failure of one that could not be started. */
  lemma ConnectPosts(created: bool, started: bool)
    ensures Connect(created, started).posted == multiset{if created && started then PostedEvent else PostedConnect}
    ensures Connect(created, started).state == (if created && started then Connecting else Disconnected)
  {
  }

  /** Events that report progress, and whatever else happens meanwhile, change nothing. */
  lemma Undecided(ops: seq<Op>)
    requires CanRun(Connect(true, true), ops) && forall j :: 0 <= j < |ops| ==> !Decides(ops[j])
    ensures Run(Connect(true, true), ops).state == Connecting && Run(Connect(true, true), ops).log == []
  {
    StartsWaiting();
    WaitingRun(Connect(true, true), ops);
  }

  /** The state right after the first decision. */
  lemma AtDecision(ops: seq<Op>, i: nat) returns (s: Socket, s': Socket)
    requires CanRun(Connect(true, true), ops) && FirstDecision(ops, i)
    ensures Waiting(s) && Enabled(s, ops[i]) && s' == Apply(s, ops[i])
    ensures CanRun(s', ops[i + 1..]) && Run(Connect(true, true), ops) == Run(s', ops[i + 1..])
  {
    hide Enabled, Apply, Waiting, Decides, Connect;
    StartsWaiting();
    assert ops == ops[..i] + ops[i..];
    RunInTwo(Connect(true, true), ops[..i], ops[i..]);
    s := Run(Connect(true, true), ops[..i]);
    WaitingRun(Connect(true, true), ops[..i]);
    s' := Apply(s, ops[i]);
    assert ops[i..][1..] == ops[i + 1..];
  }

  /** The first decision is no error: the listener is told of the connection, first of all. */
  lemma OpensIsReported(ops: seq<Op>, i: nat)
    requires CanRun(Connect(true, true), ops) && Opens(ops, i)
    ensures var log := Run(Connect(true, true), ops).log; log != [] && log[0] == OnConnect(true)
  {
    hide Enabled, Apply, Waiting, Connect, Closed, Open, Ends;
    var s, s' := AtDecision(ops, i);
    WaitingStep(s, ops[i]);
    OpenThenClosed(s', ops[i + 1..]);
  }

  lemma OpenThenClosed(s: Socket, ops: seq<Op>)
    requires Open(s) && CanRun(s, ops)
    ensures s.log <= Run(s, ops).log
    ensures forall k :: |s.log| <= k < |Run(s, ops).log| ==> Run(s, ops).log[k] != OnConnect(true)
    ensures Open(Run(s, ops)) <==> forall j :: 0 <= j < |ops| ==> !Ends(ops[j])
    ensures Open(Run(s, ops)) || Closed(Run(s, ops))
    decreases |ops|
  {
    hide Enabled, Apply, Ends, IsEvent;
    if ops != [] {
      var s' := Apply(s, ops[0]);
      OpenStep(s, ops[0]);
      if Ends(ops[0]) {
        ClosedRun(s', ops[1..]);
      } else {
        OpenThenClosed(s', ops[1..]);
        assert forall j :: 0 < j < |ops| ==> ops[j] == ops[1..][j - 1];
      }
    }
  }

  /** The first decision is an error: the socket is shut down, and the one notice is that of the failure. */
  lemma RefusedIsReported(ops: seq<Op>, i: nat)
    requires CanRun(Connect(true, true), ops) && FirstDecision(ops, i) && IsEvent(ops[i]) && ops[i].err == Refused
    ensures var s := Run(Connect(true, true), ops); s.state == Disconnected && s.log == [OnConnect(false)]
  {
    hide Enabled, Apply, Waiting, Connect;
    var s, s' := AtDecision(ops, i);
    WaitingStep(s, ops[i]);
    ClosedRun(s', ops[i + 1..]);
  }

  /** The attempt is given up first: there is no connection, and no notice of one. */
  lemma GivenUpIsNotReported(ops: seq<Op>, i: nat)
    requires CanRun(Connect(true, true), ops) && FirstDecision(ops, i) && GivesUp(ops[i])
    ensures var s := Run(Connect(true, true), ops); s.state == Disconnected && OnConnect(true) !in s.log
  {
    hide Enabled, Apply, Waiting, Connect;
    var s, s' := AtDecision(ops, i);
    WaitingStep(s, ops[i]);
    ClosedRun(s', ops[i + 1..]);
  }

  /** An attempt that could not even be started ends in a failure. */
  lemma NeverStarted(created: bool, started: bool, ops: seq<Op>)
    requires CanRun(Connect(created, started), ops) && !(created && started)
    ensures var s := Run(Connect(created, started), ops); s.state == Disconnected && OnConnect(true) !in s.log
  {
    ClosedRun(Connect(created, started), ops);
  }

  lemma {:induction false} FindDecision(ops: seq<Op>) returns (i: nat)
    requires exists j :: 0 <= j < |ops| && Decides(ops[j])
    ensures FirstDecision(ops, i)
  {
    hide Decides;
    if Decides(ops[0]) {
      i := 0;
    } else {
      var j :| 0 <= j < |ops| && Decides(ops[j]);
      assert Decides(ops[1..][j - 1]);
      i := FindDecision(ops[1..]);
      i := i + 1;
      assert ops[1..][i - 1] == ops[i];
      assert forall j :: 0 < j < i ==> ops[j] == ops[1..][j - 1];
    }
  }

  /**
   For every run of a socket made by Connect: the listener is told of a connection if and only if the
   attempt was started and the first thing that decided it was an event without an error.
   */
  lemma ReportedExactly(created: bool, started: bool, ops: seq<Op>)
    requires CanRun(Connect(created, started), ops)
    ensures OnConnect(true) in Run(Connect(created, started), ops).log <==>
            created && started && exists i :: Opens(ops, i)
  {
    hide Connect, CanRun, Run, Decides, IsEvent, GivesUp;
    if !(created && started) {
      NeverStarted(created, started, ops);
    } else if forall j :: 0 <= j < |ops| ==> !Decides(ops[j]) {
      Undecided(ops);
    } else {
      var i := FindDecision(ops);
      OneOfThree(ops[i]);
      if Opens(ops, i) {
        OpensIsReported(ops, i);
      } else {
        if IsEvent(ops[i]) {
          RefusedIsReported(ops, i);
        } else {
          GivenUpIsNotReported(ops, i);
        }
        assert forall k :: FirstDecision(ops, k) ==> k == i;
      }
    }
  }

  lemma OneOfThree(op: Op)
    requires Decides(op)
    ensures IsEvent(op) || GivesUp(op)
    ensures IsEvent(op) ==> op.err == NoError || op.err == Refused
  {
  }

  /**
   The socket is connected if and only if the attempt succeeded and nothing since has given the
   socket up or found it broken.
   */
  lemma ConnectedExactly(created: bool, started: bool, ops: seq<Op>)
    requires CanRun(Connect(created, started), ops)
    ensures Run(Connect(created, started), ops).state == Connected <==>
            created && started && exists i :: Opens(ops, i) && forall j :: i < j < |ops| ==> !Ends(ops[j])
  {
    hide Connect, CanRun, Run, Decides, IsEvent, GivesUp, Ends;
    if !(created && started) {
      NeverStarted(created, started, ops);
    } else if forall j :: 0 <= j < |ops| ==> !Decides(ops[j]) {
      Undecided(ops);
    } else {
      var i := FindDecision(ops);
      OneOfThree(ops[i]);
      assert forall k :: FirstDecision(ops, k) ==> k == i;
      if Opens(ops, i) {
        ConnectedAfter(ops, i);
      } else if IsEvent(ops[i]) {
        RefusedIsReported(ops, i);
      } else {
        GivenUpIsNotReported(ops, i);
      }
    }
  }

  lemma ConnectedAfter(ops: seq<Op>, i: nat)
    requires CanRun(Connect(true, true), ops) && Opens(ops, i)
    ensures Run(Connect(true, true), ops).state == Connected <==> forall j :: i < j < |ops| ==> !Ends(ops[j])
  {
    hide Enabled, Apply, Waiting, Connect, Ends;
    var s, s' := AtDecision(ops, i);
    WaitingStep(s, ops[i]);
    var rest := ops[i + 1..];
    OpenThenClosed(s', rest);
    assert forall j :: i < j < |ops| ==> ops[j] == rest[j - i - 1];
    assert forall j :: 0 <= j < |rest| ==> rest[j] == ops[j + i + 1];
  }

  /** As long as the connection lasts, the listener is told of every event, and of nothing else. */
  lemma DataIsReported(ops: seq<Op>, i: nat)
    requires CanRun(Connect(true, true), ops) && Opens(ops, i) && forall j :: i < j < |ops| ==> !Ends(ops[j])
    ensures Run(Connect(true, true), ops).log == [OnConnect(true)] + DataNotices(ops[i + 1..])
  {
    hide Enabled, Apply, Waiting, Connect, Ends;
    var s, s' := AtDecision(ops, i);
    WaitingStep(s, ops[i]);
    OpenRun(s', ops[i + 1..]);
  }
}
