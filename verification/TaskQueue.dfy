/**
 The data of the task runner and what each of its critical sections does to it. The poll array is
 touched by the run loop only; everything else is guarded by the lock.
 */
module TaskQueue {
  import opened Common

  /** An immediate task: one posted by a user, or the run of a file descriptor watch. */
  datatype Task = UserTask(id: nat) | RunWatch(fd: int)

  datatype Delayed = Delayed(deadline: int, id: nat)

  /** A registered watch: which registration it is, and where its descriptor is in the poll array. */
  datatype Watch = Watch(fd: int, reg: nat, pollFdIndex: nat)

  /** An entry of the poll array. A negative descriptor is ignored by poll(). */
  datatype PollFd = PollFd(fd: int, revents: bool)

  datatype Core = Core(
    eventFd: int,
    signalled: bool,           // the wake-up event
    immediate: seq<Task>,
    delayed: seq<Delayed>,     // a multimap: ascending deadlines, equal ones in insertion order
    quit: bool,
    advanced: nat,             // advanced_time_for_testing_
    watches: seq<Watch>,       // a map keyed by descriptor, in its ascending iteration order
    changed: bool,             // watch_tasks_changed_
    pollFds: seq<PollFd>)

  const SIZE_MAX: nat := TWO_TO_THE_64 - 1

  function Abs(x: int): int {
    if x < 0 then -x else x
  }

  // ---------------------------------------------------------------- posting

  function PushTask(c: Core, t: Task): Core {
    c.(immediate := c.immediate + [t])
  }

  /** std::multimap::insert: after every element whose key is not greater. */
  function InsertDelayed(q: seq<Delayed>, d: Delayed): seq<Delayed> {
    if q == [] then [d]
    else if d.deadline < q[|q| - 1].deadline then InsertDelayed(q[..|q| - 1], d) + [q[|q| - 1]]
    else q + [d]
  }

  function PushDelayed(c: Core, d: Delayed): Core {
    c.(delayed := InsertDelayed(c.delayed, d))
  }

  // ---------------------------------------------------------------- watches

  predicate Ascending(ws: seq<Watch>) {
    forall i, j :: 0 <= i < j < |ws| ==> ws[i].fd < ws[j].fd
  }

  /** The position of the first entry whose descriptor is not below `fd`. */
  function LowerBound(ws: seq<Watch>, fd: int): (i: nat)
    ensures i <= |ws|
    ensures forall j :: 0 <= j < i ==> ws[j].fd < fd
    ensures i < |ws| ==> fd <= ws[i].fd
  {
    if ws == [] || fd <= ws[0].fd then 0 else 1 + LowerBound(ws[1..], fd)
  }

  predicate Registered(ws: seq<Watch>, fd: int) {
    var i := LowerBound(ws, fd);
    i < |ws| && ws[i].fd == fd
  }

  function AddWatch(c: Core, fd: int, reg: nat): Core {
    var i, w := LowerBound(c.watches, fd), Watch(fd, reg, SIZE_MAX);
    var watches := if Registered(c.watches, fd) then c.watches[i := w] else c.watches[..i] + [w] + c.watches[i..];
    c.(watches := watches, changed := true)
  }

  function RemoveWatch(c: Core, fd: int): Core {
    var i := LowerBound(c.watches, fd);
    var watches := if Registered(c.watches, fd) then c.watches[..i] + c.watches[i + 1..] else c.watches;
    c.(watches := watches, changed := true)
  }

  function Reindexed(ws: seq<Watch>): (r: seq<Watch>)
    ensures |r| == |ws| && forall i :: 0 <= i < |r| ==> r[i] == ws[i].(pollFdIndex := i)
  {
    seq(|ws|, i requires 0 <= i < |ws| => ws[i].(pollFdIndex := i))
  }

  function Entries(ws: seq<Watch>): (r: seq<PollFd>)
    ensures |r| == |ws| && forall i :: 0 <= i < |r| ==> r[i] == PollFd(ws[i].fd, false)
  {
    seq(|ws|, i requires 0 <= i < |ws| => PollFd(ws[i].fd, false))
  }

  /** UpdateWatchTasksLocked: rebuilds the poll array when watches have come or gone. */
  function UpdateWatches(c: Core): Core {
    if !c.changed then c
    else c.(changed := false, watches := Reindexed(c.watches), pollFds := Entries(c.watches))
  }

  // ---------------------------------------------------------------- the run loop

  /** static_cast<int> of a 64-bit value. */
  function ToInt32(x: int): int {
    (x + 0x8000_0000) % TWO_TO_THE_32 - 0x8000_0000
  }

  /** GetDelayMsToNextTaskLocked: the argument for poll(), where -1 means no timeout. */
  function PollTimeout(c: Core, now: int): int {
    if c.immediate != [] then 0
    else if c.delayed != [] then Max(0, ToInt32(c.delayed[0].deadline - now - c.advanced))
    else -1
  }

  /** poll() has returned: `ready` tells which entries have events. */
  function PollReturned(c: Core, ready: seq<bool>): Core
    requires |ready| == |c.pollFds|
  {
    c.(pollFds := WithEvents(c.pollFds, ready))
  }

  function WithEvents(pollFds: seq<PollFd>, ready: seq<bool>): (r: seq<PollFd>)
    requires |ready| == |pollFds|
    ensures |r| == |pollFds| && forall i :: 0 <= i < |r| ==> r[i] == PollFd(pollFds[i].fd, ready[i])
  {
    seq(|pollFds|, i requires 0 <= i < |pollFds| => PollFd(pollFds[i].fd, ready[i]))
  }

  /** One round of PostFileDescriptorWatches. */
  function PostWatchAt(c: Core, i: nat): Core
    requires i < |c.pollFds|
  {
    var e := c.pollFds[i];
    if !e.revents then c
    else if e.fd == c.eventFd then
      c.(pollFds := c.pollFds[i := e.(revents := false)], signalled := false)
    else
      c.(pollFds := c.pollFds[i := PollFd(-e.fd, false)], immediate := c.immediate + [RunWatch(e.fd)])
  }

  datatype Popped = Popped(core: Core, task: Option<Task>, delayed: Option<Delayed>)

  /** The critical section of RunImmediateAndDelayedTask; `now` was read before the lock was taken. */
  function PopTasks(c: Core, now: int): Popped {
    var c1 := if c.immediate == [] then c else c.(immediate := c.immediate[1..]);
    var due := c.delayed != [] && now + c.advanced >= c.delayed[0].deadline;
    Popped(if due then c1.(delayed := c.delayed[1..]) else c1,
           if c.immediate == [] then None else Some(c.immediate[0]),
           if due then Some(c.delayed[0]) else None)
  }

  datatype Fetched = Fetched(core: Core, reg: Option<nat>)

  /** The index read by RunFileDescriptorWatch is inside the poll array and finds the descriptor there. */
  predicate IndexOk(c: Core, fd: int) {
    && Registered(c.watches, fd)
    && var k := c.watches[LowerBound(c.watches, fd)].pollFdIndex;
       k < |c.pollFds| && Abs(c.pollFds[k].fd) == fd
  }

  /** The critical section of RunFileDescriptorWatch: poll the descriptor again, take the callback. */
  function FetchWatch(c: Core, fd: int): Fetched {
    if !Registered(c.watches, fd) then Fetched(c, None)
    else
      var u := UpdateWatches(c);
      var w := u.watches[LowerBound(c.watches, fd)];
      var k := w.pollFdIndex;
      var pollFds := if k < |u.pollFds| then u.pollFds[k := u.pollFds[k].(fd := fd)] else u.pollFds;
      Fetched(u.(pollFds := pollFds), Some(w.reg))
  }
}
