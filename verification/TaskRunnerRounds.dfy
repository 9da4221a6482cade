/**
 Rounds of the run loop. A round of the task runner object is a sequence of steps of the state
 machine, and a descriptor that poll ignores is polled again after a bounded number of rounds.
 */
module TaskRunnerRounds {
  import opened Common
  import opened TaskQueue
  import opened TaskRunnerRuns
  import Order = TaskRunnerOrder
  import Polling = TaskRunnerPolling
  import opened TaskRunnerSingle
  import TaskRunner

  // ---------------------------------------------------------------- a round is a sequence of steps

  /** The steps of one thread that runs the loop and, when it posts a task, also notifies. */
  predicate LoopStep(step: Step) {
    || step.LoopTop? || step.PollReturn? || step.PostWatch? || step.Notify? || step.Tick? || step.ReadClock?
    || step.Dispatch?
  }

  ghost predicate Leads(s: State, steps: seq<Step>, s': State) {
    CanRun(s, steps) && Run(s, steps) == s' && forall i :: 0 <= i < |steps| ==> LoopStep(steps[i])
  }

  lemma First(s: State, step: Step, steps: seq<Step>, s': State)
    requires Enabled(s, step) && LoopStep(step) && Leads(Apply(s, step), steps, s')
    ensures Leads(s, [step] + steps, s')
  {
    hide Apply, Enabled;
    assert ([step] + steps)[1..] == steps;
  }

  lemma Last(s: State, steps: seq<Step>, s1: State, step: Step)
    requires Leads(s, steps, s1) && Enabled(s1, step) && LoopStep(step)
    ensures Leads(s, steps + [step], Apply(s1, step))
  {
    hide Apply, Enabled, Run, CanRun;
    OneMore(s, steps, step);
  }

  /** One entry of the poll array, as the object does it: the caller of PostTask wakes the loop at once. */
  lemma PostOne(s: State) returns (s': State)
    requires s.phase.Posting? && s.phase.next < |s.core.pollFds|
    ensures var after := Apply(s, PostWatch); s' == after || (Enabled(after, Notify) && s' == Apply(after, Notify))
    ensures TaskRunner.PostWatchesFrom(s.core, s.phase.next) == TaskRunner.PostWatchesFrom(s'.core, s.phase.next + 1)
    ensures s' == s.(core := s'.core, phase := Posting(s.phase.next + 1), posted := s'.posted)
    ensures |s'.core.pollFds| == |s.core.pollFds|
  {
    s' := Apply(s, PostWatch);
    if s'.notifiers != s.notifiers {
      s' := Apply(s', Notify);
    }
  }

  lemma NothingToPost(s: State)
    ensures Leads(s, [], s) && TaskRunner.PostWatchesFrom(s.core, |s.core.pollFds|) == s.core
  {
  }

  lemma {:induction false} PostAll(s: State) returns (steps: seq<Step>, s': State)
    requires s.phase.Posting? && s.phase.next <= |s.core.pollFds|
    ensures Leads(s, steps, s')
    ensures s'.core == TaskRunner.PostWatchesFrom(s.core, s.phase.next)
    ensures s' == s.(core := s'.core, phase := Posting(|s'.core.pollFds|), posted := s'.posted)
    decreases |s.core.pollFds| - s.phase.next
  {
    hide Leads, Apply, TaskRunner.PostWatchesFrom;
    if s.phase.next == |s.core.pollFds| {
      steps, s' := [], s;
      NothingToPost(s);
    } else {
      var s1 := PostOne(s);
      steps, s' := PostAll(s1);
      var afterPost := Apply(s, PostWatch);
      if s1 != afterPost {
        First(afterPost, Notify, steps, s');
        steps := [Notify] + steps;
      }
      First(s, PostWatch, steps, s');
      steps := [PostWatch] + steps;
    }
  }

  /**
   A round of the object, UnixTaskRunner.RunRound, is a sequence of the loop's own steps: the same
   queues, the same timeout, the same tasks to start.
   */
  lemma RoundIsSteps(s: State, ready: seq<bool>, later: int) returns (steps: seq<Step>, s': State)
    requires s.phase.Top? && !s.core.quit && s.now <= later
    requires Enabled(Apply(s, LoopTop), PollReturn(ready))
    ensures Leads(s, steps, s') && Apply(s, LoopTop).phase.timeout == PollTimeout(s.core, s.now)
    ensures var posted := TaskRunner.PostWatchesFrom(PollReturned(UpdateWatches(s.core), ready), 0);
            var p := PopTasks(posted, later);
            s'.core == p.core && s'.phase == Running(p.task, p.delayed)
    ensures s'.now == later && s'.iterations == s.iterations + 1 && s'.notifiers == s.notifiers
  {
    hide PollTimeout, PopTasks, UpdateWatches, PollReturned, TaskRunner.PostWatchesFrom, Leads;
    var s1 := Apply(s, LoopTop);
    var s2 := Apply(s1, PollReturn(ready));
    var posting, s3 := PostAll(s2);
    First(s1, PollReturn(ready), posting, s3);
    First(s, LoopTop, [PollReturn(ready)] + posting, s3);
    steps := [LoopTop] + ([PollReturn(ready)] + posting);
    Last(s, steps, s3, Tick(later - s.now));
    var s4 := Apply(s3, Tick(later - s.now));
    Last(s, steps + [Tick(later - s.now)], s4, ReadClock);
    var s5 := Apply(s4, ReadClock);
    Last(s, steps + [Tick(later - s.now)] + [ReadClock], s5, Dispatch);
    steps, s' := steps + [Tick(later - s.now)] + [ReadClock] + [Dispatch], Apply(s5, Dispatch);
  }

  // ---------------------------------------------------------------- ignored descriptors are polled again

  /** Poll attends to the descriptor, or it is not watched any more. */
  predicate Attended(c: Core, fd: int) {
    Registered(c.watches, fd) ==> !c.changed && exists i :: 0 <= i < |c.pollFds| && c.pollFds[i].fd == fd
  }

  /** At some time in the run the descriptor's task is run, and the descriptor is attended to again. */
  predicate PolledAgain(s: State, steps: seq<Step>, fd: int)
    requires CanRun(s, steps)
    decreases |steps|
  {
    steps != [] &&
    ((steps[0] == RunWatchTask && s.phase.task.value.fd == fd && Attended(Apply(s, steps[0]).core, fd)) ||
     PolledAgain(Apply(s, steps[0]), steps[1..], fd))
  }

  lemma FetchAttends(c: Core, fd: int)
    requires WatchesInv(c)
    ensures Attended(FetchWatch(c, fd).core, fd)
  {
    hide LowerBound;
    if Registered(c.watches, fd) {
      Polling.IndexChecksHold(c, fd);
      var k := UpdateWatches(c).watches[LowerBound(c.watches, fd)].pollFdIndex;
      assert FetchWatch(c, fd).core.pollFds[k].fd == fd;
    }
  }

  lemma RanGrows(s: State, step: Step)
    requires Enabled(s, step)
    ensures var s' := Apply(s, step);
            || s'.ran == s.ran
            || ((step == RunUserTask || step == RunWatchTask) && s.phase.Running? && s.phase.task.Some?
                && s'.ran == s.ran + [s.phase.task.value])
  {
    hide InsertDelayed, PollTimeout, FetchWatch, AddWatch, RemoveWatch, UpdateWatches;
  }

  /** A watch task that has been run in the meantime had its descriptor attended to again. */
  lemma {:induction false} RanMeansPolled(s: State, steps: seq<Step>, n: nat, fd: int)
    requires PollInv(s) && FifoInv(s) && CanRun(s, steps)
    requires |s.ran| <= n < |s.posted| && s.posted[n] == RunWatch(fd) && n < |Run(s, steps).ran|
    ensures PolledAgain(s, steps, fd)
    decreases |steps|
  {
    hide Apply, Enabled, PollInv, FifoInv, Attended;
    var s' := Apply(s, steps[0]);
    RanGrows(s, steps[0]);
    Polling.PollStepKeeps(s, steps[0]);
    Order.FifoStepKeeps(s, steps[0]);
    Order.StepProgress(s, steps[0]);
    if n < |s'.ran| {
      StartedAsPosted(s', n);
      AttendedAfter(s, steps[0]);
    } else {
      RanMeansPolled(s', steps[1..], n, fd);
    }
  }

  lemma StartedAsPosted(s: State, n: nat)
    requires FifoInv(s) && n < |s.ran|
    ensures n < |s.posted| && s.ran[n] == s.posted[n]
  {
  }

  lemma AttendedAfter(s: State, step: Step)
    requires PollInv(s) && Enabled(s, step) && (step == RunUserTask || step == RunWatchTask)
    requires s.phase.task.value.RunWatch?
    ensures step == RunWatchTask && Attended(Apply(s, step).core, s.phase.task.value.fd)
  {
    hide WatchesInv, EntriesInv, TasksInv, NegatedInv, Attended, FetchWatch;
    FetchAttends(s.core, s.phase.task.value.fd);
  }

  lemma PendingIsQueued(s: State, t: Task) returns (k: nat)
    requires Pending(s, t)
    ensures k < |ToRun(s)| && ToRun(s)[k] == t
  {
    if t in s.core.immediate {
      var j :| 0 <= j < |s.core.immediate| && s.core.immediate[j] == t;
      k := |InHand(s)| + j;
    } else {
      k := 0;
    }
  }

  /** In these steps the loop dispatches n times or more, and has started every task that it took. */
  predicate Rounds(s: State, steps: seq<Step>, n: int) {
    CanRun(s, steps) && InHand(Run(s, steps)) == [] && Run(s, steps).iterations >= s.iterations + n
  }

  lemma RunAfterRounds(s: State, steps: seq<Step>, k: nat, fd: int)
    requires PollInv(s) && FifoInv(s) && k < |ToRun(s)| && ToRun(s)[k] == RunWatch(fd)
    requires Rounds(s, steps, k + 1 - |InHand(s)|)
    ensures PolledAgain(s, steps, fd)
  {
    hide Run, CanRun, PolledAgain, PollInv;
    var n := |s.ran| + k;
    assert s.posted == s.ran + ToRun(s);
    Order.RunProgress(s, steps, n + 1);
    Order.RunKeepsFifo(s, steps);
    RanMeansPolled(s, steps, n, fd);
  }

  /**
   A descriptor that poll ignores has its task at some position k of the queue, and k + 1 rounds
   later (one less if a task is in hand) its task has been run and poll attends to it again, or it
   is not watched any more.
   */
  lemma IgnoredIsPolledAgain(s: State, before: seq<Step>, i: nat) returns (k: nat)
    requires Init(s) && CanRun(s, before)
    requires var s1 := Run(s, before); !s1.core.changed && i < |s1.core.pollFds| && s1.core.pollFds[i].fd < 0
    ensures var s1 := Run(s, before);
            var fd := -s1.core.pollFds[i].fd;
            && k < |ToRun(s1)| && ToRun(s1)[k] == RunWatch(fd)
            && forall after :: Rounds(s1, after, k + 1 - |InHand(s1)|) ==> PolledAgain(s1, after, fd)
  {
    hide Run, CanRun, PolledAgain;
    Polling.RunKeepsPollAndWake(s, before);
    Order.RunKeepsFifo(s, before);
    var s1 := Run(s, before);
    var fd := -s1.core.pollFds[i].fd;
    assert Pending(s1, RunWatch(fd));
    k := PendingIsQueued(s1, RunWatch(fd));
    forall after | Rounds(s1, after, k + 1 - |InHand(s1)|)
      ensures PolledAgain(s1, after, fd)
    {
      RunAfterRounds(s1, after, k, fd);
    }
  }
}
