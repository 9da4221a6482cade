/**
 The task runner as a state machine. One step is one critical section, one Notify, or one move of
 the run loop; any number of threads post, and their Notify may come arbitrarily late.
 */
module TaskRunnerRuns {
  import opened Common
  import opened TaskQueue

  /** Where the run loop is. */
  datatype Phase =
    | Top
    | Polling(timeout: int, wake: Option<int>)  // the deadline that the timeout was computed for
    | Posting(next: nat)
    | Dispatching(clock: int)
    | Running(task: Option<Task>, delayed: Option<Delayed>)
    | InCallback(delayed: Option<Delayed>)
    | Stopped

  datatype WatchEvent = Registering(reg: nat) | Unregistering(reg: nat) | Calling(reg: nat)

  /** A delayed task that was taken from the queue, and the adjusted clock at that time. */
  datatype Taken = Taken(d: Delayed, clock: int)

  datatype State = State(
    core: Core,
    now: int,
    notifiers: nat,            // threads between their critical section and their Notify
    phase: Phase,
    posted: seq<Task>,         // immediate tasks in posting order
    ran: seq<Task>,            // immediate tasks in the order they were started
    iterations: nat,           // rounds of the loop that reached RunImmediateAndDelayedTask
    nextDelayed: nat,
    taken: seq<Taken>,         // delayed tasks in the order they were started
    earlyPost: bool,           // a deadline was posted that lies before one already started
    nextReg: nat,
    watchLog: seq<WatchEvent>)

  datatype Step =
    | Post(id: nat)
    | PostDelayed(deadline: int)
    | Watch(fd: int)
    | Unwatch(fd: int)
    | Quit
    | Notify
    | AdvanceTime(ms: nat)
    | Tick(ms: nat)
    | LoopTop
    | PollReturn(ready: seq<bool>)
    | PostWatch
    | ReadClock
    | Dispatch
    | RunUserTask
    | RunWatchTask
    | CallbackDone
    | RunDelayed
    | EndRound

  /** Descriptors are positive, and users do not touch the wake-up event's. */
  predicate Enabled(s: State, step: Step) {
    match step
    case Post(_) => true
    case PostDelayed(_) => true
    case Watch(fd) => 0 < fd != s.core.eventFd
    case Unwatch(fd) => 0 < fd != s.core.eventFd
    case Quit => true
    case Notify => 0 < s.notifiers
    case AdvanceTime(_) => true
    case Tick(_) => true
    case LoopTop => s.phase.Top?
    case PollReturn(ready) =>
      && s.phase.Polling?
      && |ready| == |s.core.pollFds|
      && forall i :: 0 <= i < |ready| ==>
           && (ready[i] ==> 0 <= s.core.pollFds[i].fd)
           && (s.core.pollFds[i].fd == s.core.eventFd ==> ready[i] == s.core.signalled)
    case PostWatch => s.phase.Posting? && s.phase.next < |s.core.pollFds|
    case ReadClock => s.phase.Posting? && s.phase.next >= |s.core.pollFds|
    case Dispatch => s.phase.Dispatching?
    case RunUserTask => s.phase.Running? && s.phase.task.Some? && s.phase.task.value.UserTask?
    case RunWatchTask => s.phase.Running? && s.phase.task.Some? && s.phase.task.value.RunWatch?
    case CallbackDone => s.phase.InCallback?
    case RunDelayed => s.phase.Running? && s.phase.task.None? && s.phase.delayed.Some?
    case EndRound => s.phase.Running? && s.phase.task.None? && s.phase.delayed.None?
  }

  /** The caller of PostTask wakes the loop only if the queue was empty. */
  function Posted(s: State, t: Task): State {
    s.(core := PushTask(s.core, t),
       notifiers := s.notifiers + (if s.core.immediate == [] then 1 else 0),
       posted := s.posted + [t])
  }

  function Registrations(s: State, fd: int): seq<WatchEvent> {
    if Registered(s.core.watches, fd) then [Unregistering(s.core.watches[LowerBound(s.core.watches, fd)].reg)] else []
  }

  function Apply(s: State, step: Step): State
    requires Enabled(s, step)
  {
    match step
    case Post(id) => Posted(s, UserTask(id))
    case PostDelayed(deadline) =>
      s.(core := PushDelayed(s.core, Delayed(deadline, s.nextDelayed)),
         notifiers := s.notifiers + 1,
         nextDelayed := s.nextDelayed + 1,
         earlyPost := s.earlyPost || (s.taken != [] && deadline < s.taken[|s.taken| - 1].d.deadline))
    case Watch(fd) =>
      s.(core := AddWatch(s.core, fd, s.nextReg),
         notifiers := s.notifiers + 1,
         nextReg := s.nextReg + 1,
         watchLog := s.watchLog + Registrations(s, fd) + [Registering(s.nextReg)])
    case Unwatch(fd) =>
      s.(core := RemoveWatch(s.core, fd), watchLog := s.watchLog + Registrations(s, fd))
    case Quit => s.(core := s.core.(quit := true, signalled := true))
    case Notify => s.(notifiers := s.notifiers - 1, core := s.core.(signalled := true))
    case AdvanceTime(ms) => s.(core := s.core.(advanced := s.core.advanced + ms))
    case Tick(ms) => s.(now := s.now + ms)
    case LoopTop =>
      if s.core.quit then s.(phase := Stopped)
      else
        s.(core := UpdateWatches(s.core),
           phase := Polling(PollTimeout(s.core, s.now),
                            if s.core.delayed == [] then None else Some(s.core.delayed[0].deadline)))
    case PollReturn(ready) => s.(core := PollReturned(s.core, ready), phase := Posting(0))
    case PostWatch =>
      var i := s.phase.next;
      var e := s.core.pollFds[i];
      var posts := e.revents && e.fd != s.core.eventFd;
      s.(core := PostWatchAt(s.core, i),
         phase := Posting(i + 1),
         notifiers := s.notifiers + (if posts && s.core.immediate == [] then 1 else 0),
         posted := if posts then s.posted + [RunWatch(e.fd)] else s.posted)
    case ReadClock => s.(phase := Dispatching(s.now))
    case Dispatch =>
      var p := PopTasks(s.core, s.phase.clock);
      s.(core := p.core,
         phase := Running(p.task, p.delayed),
         iterations := s.iterations + 1,
         taken := if p.delayed.Some? then s.taken + [Taken(p.delayed.value, s.phase.clock + s.core.advanced)]
             else s.taken)
    case RunUserTask => s.(ran := s.ran + [s.phase.task.value], phase := s.phase.(task := None))
    case RunWatchTask =>
      var f := FetchWatch(s.core, s.phase.task.value.fd);
      s.(core := f.core,
         ran := s.ran + [s.phase.task.value],
         phase := if f.reg.Some? then InCallback(s.phase.delayed) else s.phase.(task := None),
         watchLog := if f.reg.Some? then s.watchLog + [Calling(f.reg.value)] else s.watchLog)
    case CallbackDone => s.(phase := Running(None, s.phase.delayed))
    case RunDelayed => s.(phase := Running(None, None))
    case EndRound => s.(phase := Top)
  }

  /** A new task runner: only the wake-up event is watched. */
  predicate Init(s: State) {
    && 0 < s.core.eventFd
    && s.core == Core(s.core.eventFd, s.core.signalled, [], [], false, 0,
                      [TaskQueue.Watch(s.core.eventFd, 0, SIZE_MAX)], true, [])
    && s.phase == Top && s.posted == [] && s.ran == [] && s.taken == [] && !s.earlyPost
    && s.nextReg == 1 && s.watchLog == [Registering(0)]
  }

  predicate CanRun(s: State, steps: seq<Step>)
    decreases |steps|
  {
    steps == [] || (Enabled(s, steps[0]) && CanRun(Apply(s, steps[0]), steps[1..]))
  }

  function Run(s: State, steps: seq<Step>): State
    requires CanRun(s, steps)
    decreases |steps|
  {
    if steps == [] then s else Run(Apply(s, steps[0]), steps[1..])
  }

  lemma {:induction false} OneMore(s: State, steps: seq<Step>, step: Step)
    requires CanRun(s, steps) && Enabled(Run(s, steps), step)
    ensures CanRun(s, steps + [step]) && Run(s, steps + [step]) == Apply(Run(s, steps), step)
    decreases |steps|
  {
    hide Apply, Enabled;
    if steps == [] {
      assert steps + [step] == [step];
    } else {
      assert (steps + [step])[1..] == steps[1..] + [step];
      OneMore(Apply(s, steps[0]), steps[1..], step);
    }
  }

  // ---------------------------------------------------------------- the poll array mirrors the watches

  predicate Mirrors(c: Core) {
    && |c.pollFds| == |c.watches|
    && forall i :: 0 <= i < |c.watches| ==> Abs(c.pollFds[i].fd) == c.watches[i].fd && c.watches[i].pollFdIndex == i
  }

  /** The task is queued, or about to be run. */
  predicate Pending(s: State, t: Task) {
    t in s.core.immediate || (s.phase.Running? && s.phase.task == Some(t))
  }

  predicate WatchesInv(c: Core) {
    && Ascending(c.watches)
    && 0 < c.eventFd && Registered(c.watches, c.eventFd)
    && (forall i :: 0 <= i < |c.watches| ==> 0 < c.watches[i].fd)
    && (!c.changed ==> Mirrors(c))
  }

  /** Events are only reported while they are being posted, and the wake-up event is never negated. */
  predicate EntriesInv(s: State) {
    forall i :: 0 <= i < |s.core.pollFds| ==>
      var e := s.core.pollFds[i];
      && e.fd != 0 && e.fd != -s.core.eventFd
      && (e.revents ==> 0 < e.fd && s.phase.Posting? && s.phase.next <= i)
  }

  ghost predicate TasksInv(s: State) {
    forall fd :: Pending(s, RunWatch(fd)) ==> 0 < fd != s.core.eventFd
  }

  predicate NegatedInv(s: State) {
    !s.core.changed ==>
      forall i :: 0 <= i < |s.core.pollFds| && s.core.pollFds[i].fd < 0 ==> Pending(s, RunWatch(-s.core.pollFds[i].fd))
  }

  ghost predicate PollInv(s: State) {
    WatchesInv(s.core) && EntriesInv(s) && TasksInv(s) && NegatedInv(s)
  }

  // ---------------------------------------------------------------- wake-ups

  predicate Polled(c: Core, fd: int) {
    exists i :: 0 <= i < |c.pollFds| && Abs(c.pollFds[i].fd) == fd
  }

  /** The loop has something to do that it did not know of when it went to poll. */
  predicate NeedsWake(s: State)
    requires s.phase.Polling?
  {
    || s.core.immediate != []
    || s.core.quit
    || (s.core.delayed != [] && (s.phase.wake.None? || s.core.delayed[0].deadline < s.phase.wake.value))
    || exists i :: 0 <= i < |s.core.watches| && !Polled(s.core, s.core.watches[i].fd)
  }

  /** Poll watches the wake-up event, and the event is or will be signalled when there is a need. */
  predicate WakeInv(s: State) {
    s.phase.Polling? ==>
      && (exists i :: 0 <= i < |s.core.pollFds| && s.core.pollFds[i].fd == s.core.eventFd)
      && (s.phase.timeout != 0 && NeedsWake(s) ==> s.core.signalled || 0 < s.notifiers)
  }

  // ---------------------------------------------------------------- order

  function InHand(s: State): seq<Task> {
    if s.phase.Running? && s.phase.task.Some? then [s.phase.task.value] else []
  }

  /** Every immediate task that was posted has been started, is about to be, or is queued, in order. */
  predicate FifoInv(s: State) {
    s.ran + InHand(s) + s.core.immediate == s.posted
  }

  predicate Before(a: Delayed, b: Delayed) {
    a.deadline < b.deadline || (a.deadline == b.deadline && a.id < b.id)
  }

  predicate Sorted(q: seq<Delayed>) {
    forall i, j :: 0 <= i < j < |q| ==> Before(q[i], q[j])
  }

  function Started(taken: seq<Taken>): seq<Delayed> {
    seq(|taken|, i requires 0 <= i < |taken| => taken[i].d)
  }

  /** No delayed task was started before its deadline. */
  predicate DueInv(s: State) {
    && (forall i :: 0 <= i < |s.taken| ==> s.taken[i].d.deadline <= s.taken[i].clock <= s.now + s.core.advanced)
    && (s.phase.Dispatching? ==> s.phase.clock <= s.now)
  }

  predicate IdsInv(s: State) {
    && Sorted(s.core.delayed)
    && (forall i :: 0 <= i < |s.core.delayed| ==> s.core.delayed[i].id < s.nextDelayed)
    && (forall i :: 0 <= i < |s.taken| ==> s.taken[i].d.id < s.nextDelayed)
  }

  /** Without an early post, what was started and what is queued is one sorted sequence. */
  predicate OrderInv(s: State) {
    !s.earlyPost ==> Sorted(Started(s.taken) + s.core.delayed)
  }

  /** One of the started tasks is followed, in what was started or is queued, by an earlier deadline. */
  predicate Inverted(started: seq<Delayed>, queued: seq<Delayed>) {
    exists i, j :: 0 <= i < j < |started + queued| && i < |started|
      && (started + queued)[j].deadline < (started + queued)[i].deadline
  }

  /** After an early post, some task is or will be started after one with a later deadline. */
  predicate DisorderInv(s: State) {
    s.earlyPost ==> Inverted(Started(s.taken), s.core.delayed)
  }

  // ---------------------------------------------------------------- callbacks of watches

  /** The registrations in force are distinct, known and not withdrawn; withdrawn ones are never called. */
  predicate CallbackInv(s: State) {
    && (forall i :: 0 <= i < |s.core.watches| ==>
          s.core.watches[i].reg < s.nextReg && Unregistering(s.core.watches[i].reg) !in s.watchLog)
    && (forall i, j :: 0 <= i < j < |s.core.watches| ==> s.core.watches[i].reg != s.core.watches[j].reg)
    && (forall i :: 0 <= i < |s.watchLog| && s.watchLog[i].Unregistering? ==> s.watchLog[i].reg < s.nextReg)
    && (forall i, j :: 0 <= i < j < |s.watchLog| && s.watchLog[i].Unregistering? ==>
       s.watchLog[j] != Calling(s.watchLog[i].reg))
  }
}
