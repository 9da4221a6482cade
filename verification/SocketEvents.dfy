/**
 The connection state machine of a socket made by Connect(), and what its listener sees. Callbacks
 that were posted to the task runner run in any order and arbitrarily late; listener callbacks come
 last in every operation, so what they do to the socket are further operations.
 */
module SocketEvents {
  import opened Common

  datatype State = Disconnected | Connecting | Connected

  datatype Posted = PostedEvent | PostedConnect | PostedDisconnect

  datatype Event = OnConnect(connected: bool) | OnDisconnect | OnDataAvailable

  /** What SO_ERROR reports. */
  datatype SockError = NoError | InProgress | Refused

  datatype Socket = Socket(
    alive: bool,
    state: State,
    handle: bool,               // sock_raw_ is valid
    watch: bool,                // its descriptor is watched
    posted: multiset<Posted>,
    log: seq<Event>,            // what the listener was told
    muted: bool)                // a notice was waived: Shutdown(false) or ReleaseSocket before it was due

  datatype Op =
    | WatchFires(err: SockError)
    | RunPosted(task: Posted, err: SockError)
    | UserShutdown(notify: bool)
    | Send(complete: bool)
    | Receive(broken: bool)
    | Release
    | Destroy

  function Shutdown(s: Socket, notify: bool): Socket {
    var posted :=
      if notify && s.state == Connected then s.posted + multiset{PostedDisconnect}
      else if notify && s.state == Connecting then s.posted + multiset{PostedConnect}
      else s.posted;
    s.(posted := posted, handle := false, watch := s.watch && !s.handle, state := Disconnected)
  }

  /** The constructor and DoConnect: the handle may not be created, connect() may fail at once. */
  function Connect(created: bool, started: bool): Socket {
    var s := Socket(true, Disconnected, created, created, multiset{}, [], false);
    if !created || !started then
      var s := Shutdown(s, false);
      s.(posted := s.posted + multiset{PostedConnect})
    else
      s.(state := Connecting, posted := s.posted + multiset{PostedEvent})
  }

  function OnEvent(s: Socket, err: SockError): Socket {
    match s.state
    case Disconnected => s
    case Connected => s.(log := s.log + [OnDataAvailable])
    case Connecting =>
      if err == InProgress then s
      else if err == NoError then s.(state := Connected, log := s.log + [OnConnect(true)])
      else
        var s := Shutdown(s, false);
        s.(log := s.log + [OnConnect(false)])
  }

  predicate Enabled(s: Socket, op: Op) {
    match op
    case WatchFires(_) => s.alive && s.watch
    case RunPosted(task, _) => task in s.posted
    case _ => s.alive
  }

  function Mute(s: Socket): Socket {
    s.(muted := s.muted || s.state != Disconnected)
  }

  function Apply(s: Socket, op: Op): Socket
    requires Enabled(s, op)
  {
    match op
    case WatchFires(err) => OnEvent(s, err)
    case RunPosted(task, err) =>
      var s := s.(posted := s.posted - multiset{task});
      if !s.alive then s
      else
        match task {
          case PostedEvent => OnEvent(s, err)
          case PostedConnect => s.(log := s.log + [OnConnect(false)])
          case PostedDisconnect => s.(log := s.log + [OnDisconnect])
        }
    case UserShutdown(notify) => Shutdown(if notify then s else Mute(s), notify)
    case Send(complete) => if s.state == Connected && !complete then Shutdown(s, true) else s
    case Receive(broken) => if s.state == Connected && broken then Shutdown(s, true) else s
    case Release => Mute(s).(state := Disconnected, watch := s.watch && !s.handle, handle := false)
    case Destroy => Shutdown(s, true).(alive := false)
  }

  predicate CanRun(s: Socket, ops: seq<Op>)
    decreases |ops|
  {
    ops == [] || (Enabled(s, ops[0]) && CanRun(Apply(s, ops[0]), ops[1..]))
  }

  function Run(s: Socket, ops: seq<Op>): Socket
    requires CanRun(s, ops)
    decreases |ops|
  {
    if ops == [] then s else Run(Apply(s, ops[0]), ops[1..])
  }

  // ---------------------------------------------------------------- the invariant

  function Count(log: seq<Event>, e: Event): nat {
    if log == [] then 0 else Count(log[..|log| - 1], e) + (if log[|log| - 1] == e then 1 else 0)
  }

  lemma CountOne(log: seq<Event>, e: Event, x: Event)
    ensures Count(log + [x], e) == Count(log, e) + (if x == e then 1 else 0)
  {
    assert (log + [x])[..|log|] == log;
  }

  function Connects(s: Socket): nat {
    Count(s.log, OnConnect(true)) + Count(s.log, OnConnect(false))
  }

  function Indicator(b: bool): nat {
    if b then 1 else 0
  }

  /**
   The one notice of connection is due, posted or given, unless it was waived; after a successful
   one the notice of disconnection is due, posted or given, unless it was waived. A destroyed
   socket gives no further notices.
   */
  predicate Conserved(s: Socket) {
    var made := Count(s.log, OnConnect(true));
    && (s.state == Connected ==> made == 1)
    && made + Count(s.log, OnConnect(false)) + s.posted[PostedConnect] + Indicator(s.state == Connecting) <= 1
    && (s.alive ==> 1 <= made + Count(s.log, OnConnect(false)) + s.posted[PostedConnect]
                         + Indicator(s.state == Connecting) + Indicator(s.muted))
    && Count(s.log, OnDisconnect) + s.posted[PostedDisconnect] + Indicator(s.state == Connected) <= made
    && (s.alive ==> made <= Count(s.log, OnDisconnect) + s.posted[PostedDisconnect]
                            + Indicator(s.state == Connected) + Indicator(s.muted))
  }

  /** Data and disconnection are only reported after a connection, and data not after disconnection. */
  predicate Ordered(log: seq<Event>) {
    && (forall j :: 0 <= j < |log| && !log[j].OnConnect? ==> OnConnect(true) in log[..j])
    && (forall i, j :: 0 <= i < j < |log| && log[i] == OnDisconnect ==> log[j] != OnDataAvailable)
  }

  predicate Inv(s: Socket) {
    && Conserved(s)
    && Ordered(s.log)
    && (s.state != Disconnected ==> s.handle)
    && s.handle == s.watch
    && (s.alive && s.state != Disconnected ==> s.watch)
  }

  lemma {:induction false} CountPositive(log: seq<Event>, e: Event)
    ensures 0 < Count(log, e) <==> e in log
  {
    if log != [] {
      CountPositive(log[..|log| - 1], e);
      assert log == log[..|log| - 1] + [log[|log| - 1]];
    }
  }

  lemma OrderedMore(log: seq<Event>, e: Event)
    requires Ordered(log)
    requires !e.OnConnect? ==> OnConnect(true) in log
    requires e == OnDataAvailable ==> OnDisconnect !in log
    ensures Ordered(log + [e])
  {
    var more := log + [e];
    assert more[..|log|] == log;
    forall j | 0 <= j < |more| && !more[j].OnConnect?
      ensures OnConnect(true) in more[..j]
    {
      assert j < |log| ==> more[..j] == log[..j];
    }
  }

  lemma LogOne(s: Socket, e: Event)
    requires Inv(s)
    requires e == OnDataAvailable ==> s.state == Connected
    requires e == OnDisconnect ==> 0 < s.posted[PostedDisconnect]
    ensures Ordered(s.log + [e])
    ensures forall x :: Count(s.log + [e], x) == Count(s.log, x) + Indicator(x == e)
  {
    forall x
      ensures Count(s.log + [e], x) == Count(s.log, x) + Indicator(x == e)
    {
      CountOne(s.log, x, e);
    }
    CountPositive(s.log, OnConnect(true));
    CountPositive(s.log, OnDisconnect);
    OrderedMore(s.log, e);
  }

  lemma OnEventKeeps(s: Socket, err: SockError)
    requires Inv(s)
    ensures Inv(OnEvent(s, err))
  {
    hide Ordered, Count;
    if s.state == Connected {
      LogOne(s, OnDataAvailable);
    } else if s.state == Connecting && err != InProgress {
      LogOne(s, OnConnect(err == NoError));
    }
  }

  /** Shutting down with notice, or after the notice was waived. */
  lemma ShutdownKeeps(s: Socket, notify: bool)
    requires Inv(s) && (notify || s.muted || s.state == Disconnected)
    ensures Inv(Shutdown(s, notify))
  {
    hide Ordered, Count;
  }

  lemma MuteKeeps(s: Socket)
    requires Inv(s)
    ensures Inv(Mute(s))
  {
    hide Ordered, Count;
  }

  lemma RunPostedKeeps(s: Socket, task: Posted, err: SockError)
    requires Inv(s) && task in s.posted
    ensures Inv(Apply(s, RunPosted(task, err)))
  {
    hide Ordered, Count, OnEvent;
    if task == PostedEvent {
      OnEventKeeps(s.(posted := s.posted - multiset{task}), err);
    } else {
      LogOne(s, if task == PostedConnect then OnConnect(false) else OnDisconnect);
    }
  }

  lemma ReleaseKeeps(s: Socket)
    requires Inv(s)
    ensures Inv(Mute(s).(state := Disconnected, watch := s.watch && !s.handle, handle := false))
  {
    hide Ordered, Count;
  }

  lemma DestroyKeeps(s: Socket)
    requires Inv(s) && s.state == Disconnected
    ensures Inv(s.(alive := false))
  {
    hide Ordered, Count;
  }

  lemma StepKeeps(s: Socket, op: Op)
    requires Inv(s) && Enabled(s, op)
    ensures Inv(Apply(s, op))
  {
    hide Inv, OnEvent;
    match op
    case WatchFires(err) => OnEventKeeps(s, err);
    case RunPosted(task, err) => RunPostedKeeps(s, task, err);
    case UserShutdown(notify) =>
      MuteKeeps(s);
      ShutdownKeeps(if notify then s else Mute(s), notify);
    case Send(_) => ShutdownKeeps(s, true);
    case Receive(_) => ShutdownKeeps(s, true);
    case Release => ReleaseKeeps(s);
    case Destroy =>
      ShutdownKeeps(s, true);
      DestroyKeeps(Shutdown(s, true));
  }

  lemma {:induction false} RunKeeps(s: Socket, ops: seq<Op>)
    requires Inv(s) && CanRun(s, ops)
    ensures Inv(Run(s, ops))
    decreases |ops|
  {
    hide Inv, Apply, Enabled;
    if ops != [] {
      StepKeeps(s, ops[0]);
      RunKeeps(Apply(s, ops[0]), ops[1..]);
    }
  }

  lemma ConnectInv(created: bool, started: bool)
    ensures Inv(Connect(created, started))
  {
  }

  /**
   In every run of a socket made by Connect: at most one OnConnect and at most one OnDisconnect;
   OnDisconnect and OnDataAvailable only after OnConnect(true); no OnDataAvailable after
   OnDisconnect; and a socket that is not disconnected has a valid, watched handle.
   */
  lemma ListenerGuarantees(created: bool, started: bool, ops: seq<Op>)
    requires CanRun(Connect(created, started), ops)
    ensures var s := Run(Connect(created, started), ops);
            && Connects(s) <= 1 && Count(s.log, OnDisconnect) <= 1
            && Ordered(s.log)
            && (s.state != Disconnected ==> s.handle && s.watch)
  {
    ConnectInv(created, started);
    RunKeeps(Connect(created, started), ops);
  }

  /**
   OnConnect is always called: once nothing is posted any more and the attempt is over, the listener
   has been told exactly once, unless the user waived the notice.
   */
  lemma OnConnectIsCalled(created: bool, started: bool, ops: seq<Op>)
    requires CanRun(Connect(created, started), ops)
    requires var s := Run(Connect(created, started), ops);
             s.alive && s.posted == multiset{} && s.state != Connecting && !s.muted
    ensures var s := Run(Connect(created, started), ops);
            && Connects(s) == 1
            && (s.state == Disconnected ==> Count(s.log, OnDisconnect) == Count(s.log, OnConnect(true)))
  {
    ConnectInv(created, started);
    RunKeeps(Connect(created, started), ops);
  }
}
