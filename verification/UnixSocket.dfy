/** The socket object. Every method does to the socket what the state machine of its events says. */
module UnixSocket {
  import opened Common
  import opened SocketEvents
  import Wire = SocketSend

  /** What recvmsg() reports. */
  datatype RecvResult = Data(bytes: seq<byte>) | RecvWouldBlock | EndOfStream | RecvFailed

  class UnixSocket {
    var alive: bool
    var state: State
    var handle: bool
    var watch: bool
    var posted: multiset<Posted>
    var log: seq<Event>
    ghost var muted: bool

    ghost function View(): Socket
      reads this
    {
      Socket(alive, state, handle, watch, posted, log, muted)
    }

    /** `created`: the handle could be made; `started`: connect() succeeded or is in progress. */
    constructor Connect(created: bool, started: bool)
      ensures View() == SocketEvents.Connect(created, started)
    {
      alive, state, handle, watch, posted, log, muted := true, Disconnected, created, created, multiset{}, [], false;
      new;
      DoConnect(started);
    }

    method DoConnect(started: bool)
      requires state == Disconnected && handle == watch && alive && posted == multiset{} && log == [] && !muted
      modifies this
      ensures View() == SocketEvents.Connect(old(handle), started)
    {
      if !handle {
        NotifyConnectionFailure();
        return;
      }
      if !started {
        NotifyConnectionFailure();
        return;
      }
      state := Connecting;
      posted := posted + multiset{PostedEvent};
    }

    /** NotifyConnectionState(false). */
    method NotifyConnectionFailure()
      modifies this`posted, this`handle, this`watch, this`state
      ensures View() == SocketEvents.Shutdown(old(View()), false).(posted := old(posted) + multiset{PostedConnect})
    {
      Shutdown(false);
      posted := posted + multiset{PostedConnect};
    }

    method Shutdown(notify: bool)
      modifies this`posted, this`handle, this`watch, this`state
      ensures View() == SocketEvents.Shutdown(old(View()), notify)
    {
      if notify {
        if state == Connected {
          posted := posted + multiset{PostedDisconnect};
        } else if state == Connecting {
          posted := posted + multiset{PostedConnect};
        }
      }
      if handle {
        watch := false;
        handle := false;
      }
      state := Disconnected;
    }

    method OnEvent(err: SockError)
      modifies this`posted, this`handle, this`watch, this`state, this`log
      ensures View() == SocketEvents.OnEvent(old(View()), err)
    {
      if state == Disconnected {
        return;
      }
      if state == Connected {
        log := log + [OnDataAvailable];
        return;
      }
      if err == InProgress {
        return;
      }
      if err == NoError {
        state := Connected;
        log := log + [OnConnect(true)];
        return;
      }
      Shutdown(false);
      log := log + [OnConnect(false)];
    }

    /**
     Sends all of `data`, or shuts the socket down: a false result means that the socket is not
     connected, and a true one that every byte is on the wire.
     */
    method Send(data: seq<byte>, fds: seq<int>, kernel: Wire.Kernel, script: seq<Wire.Choice>, withTimeout: bool)
      returns (ok: bool)
      requires alive
      modifies this`posted, this`handle, this`watch, this`state, kernel
      ensures View() == Apply(old(View()), SocketEvents.Send(ok))
      ensures !ok ==> state != Connected
      ensures ok ==> kernel.wire == old(kernel.wire) + data && old(state) == Connected
      ensures old(state) != Connected ==> !ok && kernel.wire == old(kernel.wire)
      ensures old(state) == Connected ==>
                var o := Wire.OutcomeOf(|data|, script, withTimeout);
                && kernel.wire == old(kernel.wire) + data[..o.sent]
                && (ok <==> if data == [] then o.Result() == 0 else o.ending == Wire.AllSent)
      ensures old(state) == Connected && data != [] && Wire.Accepting(|data|, script, withTimeout) ==> ok
    {
      if state != Connected {
        return false;
      }
      var sz, o := Wire.Send(data, fds, kernel, script, withTimeout);
      assert data[..|data|] == data;
      if data != [] && Wire.Accepting(|data|, script, withTimeout) {
        Wire.AcceptingKernelTakesAll(|data|, script, withTimeout);
      }
      if sz == |data| {
        return true;
      }
      Shutdown(true);
      return false;
    }

    /** The bytes received; an end of stream or an error shuts the socket down. */
    method Receive(result: RecvResult) returns (bytes: seq<byte>)
      requires alive
      modifies this`posted, this`handle, this`watch, this`state
      ensures View() == Apply(old(View()),
              SocketEvents.Receive(result.EndOfStream? || result.RecvFailed? || result == Data([])))
      ensures bytes == if old(state) == Connected && result.Data? then result.bytes else []
    {
      if state != Connected {
        return [];
      }
      match result {
        case RecvWouldBlock => return [];
        case EndOfStream => Shutdown(true); return [];
        case RecvFailed => Shutdown(true); return [];
        case Data(b) =>
          if b == [] {
            Shutdown(true);
          }
          return b;
      }
    }

    method ReleaseSocket()
      requires alive
      modifies this`handle, this`watch, this`state, this`muted
      ensures View() == Apply(old(View()), Release)
    {
      muted := muted || state != Disconnected;
      state := Disconnected;
      if handle {
        watch := false;
      }
      handle := false;
    }

    method Destroy()
      requires alive
      modifies this
      ensures View() == Apply(old(View()), SocketEvents.Destroy)
    {
      Shutdown(true);
      alive := false;
    }

    /** The task runner runs a posted callback; it does nothing once the socket is destroyed. */
    method RunTask(task: Posted, err: SockError)
      requires task in posted
      modifies this
      ensures View() == Apply(old(View()), RunPosted(task, err))
    {
      posted := posted - multiset{task};
      if !alive {
        return;
      }
      match task {
        case PostedEvent => OnEvent(err);
        case PostedConnect => log := log + [OnConnect(false)];
        case PostedDisconnect => log := log + [OnDisconnect];
      }
    }
  }
}
