/** When each watched descriptor has at most one task queued, and what breaks that. */
module TaskRunnerSingle {
  import opened Common
  import opened TaskQueue
  import opened TaskRunnerRuns
  import opened TaskRunnerPolling

  /** The immediate tasks still to be run. */
  function ToRun(s: State): seq<Task> {
    InHand(s) + s.core.immediate
  }

  /** No descriptor has two tasks. */
  predicate Single(tasks: seq<Task>) {
    forall i, j :: 0 <= i < j < |tasks| && tasks[i].RunWatch? ==> tasks[i] != tasks[j]
  }

  /** Poll ignores the descriptors that have a task. */
  predicate Ignored(tasks: seq<Task>, pollFds: seq<PollFd>) {
    forall i, k :: 0 <= i < |tasks| && tasks[i].RunWatch? && 0 <= k < |pollFds| ==> pollFds[k].fd != tasks[i].fd
  }

  predicate DistinctFds(pollFds: seq<PollFd>) {
    forall i, j :: 0 <= i < j < |pollFds| ==> Abs(pollFds[i].fd) != Abs(pollFds[j].fd)
  }

  /** The loop has been told to quit and will not poll again. */
  predicate Ending(s: State) {
    s.core.quit && (s.phase.Running? || s.phase.InCallback? || s.phase.Top? || s.phase.Stopped?)
  }

  predicate SingleInv(s: State) {
    && Single(ToRun(s))
    && (Ending(s) || (Ignored(ToRun(s), s.core.pollFds) && DistinctFds(s.core.pollFds)))
  }

  /** The step rebuilds the poll array, and the loop has not been told to quit. */
  predicate Rebuilds(s: State, step: Step)
    requires Enabled(s, step)
  {
    s.core.changed && !s.core.quit &&
    match step
    case LoopTop => true
    case RunWatchTask => Registered(s.core.watches, s.phase.task.value.fd)
    case _ => false
  }

  /** A registered descriptor has a task in the queue. */
  predicate Waits(c: Core, fd: int) {
    RunWatch(fd) in c.immediate && Registered(c.watches, fd)
  }

  /** The step rebuilds the poll array while some registered descriptor waits for its task. */
  ghost predicate Stale(s: State, step: Step)
    requires Enabled(s, step)
  {
    Rebuilds(s, step) && exists fd :: Waits(s.core, fd)
  }

  // ---------------------------------------------------------------- without a stale rebuild

  lemma RebuiltIgnores(c: Core)
    requires WatchesInv(c) && c.changed && forall fd :: !Waits(c, fd)
    ensures Ignored(c.immediate, UpdateWatches(c).pollFds) && DistinctFds(UpdateWatches(c).pollFds)
  {
    var pollFds := UpdateWatches(c).pollFds;
    forall i, k | 0 <= i < |c.immediate| && c.immediate[i].RunWatch? && 0 <= k < |pollFds|
      ensures pollFds[k].fd != c.immediate[i].fd
    {
      assert !Waits(c, c.immediate[i].fd);
      if c.watches[k].fd == c.immediate[i].fd {
        FoundWhereItIs(c.watches, c.immediate[i].fd, k);
      }
    }
  }

  /** Running the task of a watch lets poll attend to that descriptor, and to no other. */
  lemma FetchIgnores(c: Core, fd: int)
    requires WatchesInv(c) && 0 < fd && RunWatch(fd) !in c.immediate
    requires Ignored(c.immediate, UpdateWatches(c).pollFds) && DistinctFds(UpdateWatches(c).pollFds)
    requires Registered(c.watches, fd)
    ensures var c' := FetchWatch(c, fd).core;
            c'.immediate == c.immediate && Ignored(c.immediate, c'.pollFds) && DistinctFds(c'.pollFds)
  {
    hide LowerBound, UpdateWatches;
    IndexChecksHold(c, fd);
    RebuiltEntries(c);
  }

  lemma SingleAfterRunWatch(s: State)
    requires PollInv(s) && SingleInv(s) && Enabled(s, RunWatchTask) && !Stale(s, RunWatchTask)
    ensures SingleInv(Apply(s, RunWatchTask))
  {
    hide FetchWatch, LowerBound, UpdateWatches, Registered;
    var fd, c, s' := s.phase.task.value.fd, s.core, Apply(s, RunWatchTask);
    assert Pending(s, RunWatch(fd));
    var tasks := ToRun(s);
    InHandFirst(s);
    FetchUnregistered(c, fd);
    FetchKeepsQueue(c, fd);
    if Registered(c.watches, fd) && !Ending(s) {
      if c.changed {
        RebuiltIgnores(c);
      } else {
        RebuiltEntries(c);
      }
      FetchIgnores(c, fd);
    }
    NothingInHand(s');
  }

  lemma InHandFirst(s: State)
    requires s.phase.Running? && s.phase.task.Some?
    ensures |ToRun(s)| == |s.core.immediate| + 1 && ToRun(s)[0] == s.phase.task.value
    ensures forall i :: 0 <= i < |s.core.immediate| ==> ToRun(s)[i + 1] == s.core.immediate[i]
  {
  }

  lemma NothingInHand(s: State)
    requires !s.phase.Running? || s.phase.task.None?
    ensures ToRun(s) == s.core.immediate
  {
  }

  lemma FetchKeepsQueue(c: Core, fd: int)
    ensures FetchWatch(c, fd).core.immediate == c.immediate && FetchWatch(c, fd).core.quit == c.quit
  {
  }

  lemma FetchUnregistered(c: Core, fd: int)
    ensures !Registered(c.watches, fd) ==> FetchWatch(c, fd).core == c
  {
  }

  lemma OneMoreIgnored(tasks: seq<Task>, pollFds: seq<PollFd>, k: nat)
    requires Single(tasks) && Ignored(tasks, pollFds) && DistinctFds(pollFds) && k < |pollFds| && 0 < pollFds[k].fd
    requires forall i :: 0 <= i < |tasks| && tasks[i].RunWatch? ==> 0 < tasks[i].fd
    ensures var fd := pollFds[k].fd;
            var tasks', pollFds' := tasks + [RunWatch(fd)], pollFds[k := PollFd(-fd, false)];
            Single(tasks') && Ignored(tasks', pollFds') && DistinctFds(pollFds')
  {
  }

  lemma SingleAfterPost(s: State)
    requires PollInv(s) && SingleInv(s) && Enabled(s, PostWatch)
    ensures SingleInv(Apply(s, PostWatch))
  {
    hide WatchesInv, NegatedInv, Single, Ignored, DistinctFds;
    var s', k := Apply(s, PostWatch), s.phase.next;
    var e := s.core.pollFds[k];
    if e.revents && e.fd != s.core.eventFd {
      assert ToRun(s') == ToRun(s) + [RunWatch(e.fd)];
      forall i | 0 <= i < |ToRun(s)| && ToRun(s)[i].RunWatch?
        ensures 0 < ToRun(s)[i].fd
      {
        assert Pending(s, RunWatch(ToRun(s)[i].fd));
      }
      OneMoreIgnored(ToRun(s), s.core.pollFds, k);
    } else {
      assert ToRun(s') == ToRun(s);
      SameFdsSingle(ToRun(s), s.core.pollFds, s'.core.pollFds);
    }
  }

  lemma SameFdsSingle(tasks: seq<Task>, pollFds: seq<PollFd>, pollFds': seq<PollFd>)
    requires Ignored(tasks, pollFds) && DistinctFds(pollFds) && SameFds(pollFds, pollFds')
    ensures Ignored(tasks, pollFds') && DistinctFds(pollFds')
  {
  }

  lemma SingleAfterLoopTop(s: State)
    requires PollInv(s) && SingleInv(s) && Enabled(s, LoopTop) && !Stale(s, LoopTop)
    ensures SingleInv(Apply(s, LoopTop))
  {
    hide PollTimeout, Registered, WatchesInv;
    var s' := Apply(s, LoopTop);
    assert ToRun(s) == s.core.immediate == ToRun(s');
    if s.core.changed && !s.core.quit {
      RebuiltIgnores(s.core);
    }
  }

  lemma FdsAfterOther(s: State, step: Step)
    requires Enabled(s, step) && !step.RunWatchTask? && !step.PostWatch? && !step.LoopTop?
    ensures SameFds(s.core.pollFds, Apply(s, step).core.pollFds)
  {
    hide LowerBound, Registered, InsertDelayed, Registrations;
  }

  lemma DispatchTakesTheFirst(s: State)
    requires Enabled(s, Dispatch)
    ensures ToRun(Apply(s, Dispatch)) == ToRun(s)
  {
    var tasks := s.core.immediate;
    assert tasks != [] ==> [tasks[0]] + tasks[1..] == tasks;
  }

  lemma UserTaskGoes(s: State)
    requires Enabled(s, RunUserTask)
    ensures ToRun(s) != [] && ToRun(Apply(s, RunUserTask)) == ToRun(s)[1..]
  {
  }

  /** The tasks to run stay, lose the first one or get a user's task. */
  lemma TasksAfterOther(s: State, step: Step)
    requires Enabled(s, step) && !step.RunWatchTask? && !step.PostWatch? && !step.LoopTop?
    ensures var tasks := ToRun(Apply(s, step));
            if step.Post? then tasks == ToRun(s) + [UserTask(step.id)]
            else if step.RunUserTask? then ToRun(s) != [] && tasks == ToRun(s)[1..]
            else tasks == ToRun(s)
  {
    hide LowerBound, Registered, InsertDelayed, Registrations, WithEvents;
    if step.Dispatch? {
      DispatchTakesTheFirst(s);
    } else if step.RunUserTask? {
      UserTaskGoes(s);
    } else if !step.Post? {
      var s' := Apply(s, step);
      assert InHand(s') == InHand(s) && s'.core.immediate == s.core.immediate;
    }
  }

  predicate SameFds(pollFds: seq<PollFd>, pollFds': seq<PollFd>) {
    |pollFds'| == |pollFds| && forall k :: 0 <= k < |pollFds| ==> pollFds'[k].fd == pollFds[k].fd
  }

  lemma EndingGoesOn(s: State, step: Step)
    requires Enabled(s, step) && Ending(s)
    ensures Ending(Apply(s, step))
  {
    hide LowerBound, Registered, InsertDelayed, Registrations, FetchWatch, UpdateWatches;
    if step.RunWatchTask? {
      FetchKeepsQueue(s.core, s.phase.task.value.fd);
    }
  }

  lemma SingleAfterOther(s: State, step: Step)
    requires SingleInv(s) && Enabled(s, step) && !step.RunWatchTask? && !step.PostWatch? && !step.LoopTop?
    ensures SingleInv(Apply(s, step))
  {
    hide Apply, Enabled, ToRun, Ending;
    if Ending(s) {
      EndingGoesOn(s, step);
    }
    FdsAfterOther(s, step);
    TasksAfterOther(s, step);
  }

  lemma StepStaysSingle(s: State, step: Step)
    requires PollInv(s) && SingleInv(s) && Enabled(s, step) && !Stale(s, step)
    ensures SingleInv(Apply(s, step))
  {
    hide PollInv, SingleInv, Apply, Enabled, Stale;
    match step
    case RunWatchTask => SingleAfterRunWatch(s);
    case PostWatch => SingleAfterPost(s);
    case LoopTop => SingleAfterLoopTop(s);
    case _ => SingleAfterOther(s, step);
  }

  /** No rebuild of the poll array finds a registered descriptor whose task is queued. */
  ghost predicate NoStaleRebuild(s: State, steps: seq<Step>)
    requires CanRun(s, steps)
    decreases |steps|
  {
    steps != [] ==> !Stale(s, steps[0]) && NoStaleRebuild(Apply(s, steps[0]), steps[1..])
  }

  lemma {:induction false} RunStaysSingle(s: State, steps: seq<Step>)
    requires PollInv(s) && SingleInv(s) && CanRun(s, steps) && NoStaleRebuild(s, steps)
    ensures SingleInv(Run(s, steps))
    decreases |steps|
  {
    hide PollInv, SingleInv, Apply, Enabled, Stale;
    if steps != [] {
      PollStepKeeps(s, steps[0]);
      StepStaysSingle(s, steps[0]);
      RunStaysSingle(Apply(s, steps[0]), steps[1..]);
    }
  }

  /** In every run without a stale rebuild, each descriptor has at most one task queued or in hand. */
  lemma OneTaskPerDescriptor(s: State, steps: seq<Step>)
    requires Init(s) && CanRun(s, steps) && NoStaleRebuild(s, steps)
    ensures Single(ToRun(Run(s, steps)))
  {
    hide Run, CanRun, NoStaleRebuild;
    InitPoll(s);
    RunStaysSingle(s, steps);
  }

  lemma InitPoll(s: State)
    requires Init(s)
    ensures PollInv(s) && SingleInv(s)
  {
    assert s.core.watches[0].fd == s.core.eventFd;
    FoundWhereItIs(s.core.watches, s.core.eventFd, 0);
  }

  // ---------------------------------------------------------------- after a stale rebuild

  predicate Twice(tasks: seq<Task>, t: Task) {
    exists i, j :: 0 <= i < j < |tasks| && tasks[i] == tasks[j] == t
  }

  lemma TwiceAtTheEnd(tasks: seq<Task>, t: Task)
    requires t in tasks
    ensures Twice(tasks + [t], t)
  {
    var i :| 0 <= i < |tasks| && tasks[i] == t;
    assert (tasks + [t])[i] == (tasks + [t])[|tasks|] == t;
  }

  /** The loop posts tasks until it is past the ready descriptor, which has a task already. */
  lemma {:induction false} PostUpTo(s: State, steps: seq<Step>, fd: int, k: nat) returns (more: seq<Step>)
    requires CanRun(s, steps)
    requires var r := Run(s, steps);
             && r.phase.Posting? && r.phase.next <= k < |r.core.pollFds| && r.core.pollFds[k] == PollFd(fd, true)
             && fd != r.core.eventFd && RunWatch(fd) in r.core.immediate
    ensures CanRun(s, more) && steps <= more && Twice(Run(s, more).core.immediate, RunWatch(fd))
    decreases k - Run(s, steps).phase.next
  {
    hide CanRun, Run;
    var r := Run(s, steps);
    OneMore(s, steps, PostWatch);
    more := steps + [PostWatch];
    if r.phase.next < k {
      more := PostUpTo(s, more, fd, k);
    } else {
      TwiceAtTheEnd(r.core.immediate, RunWatch(fd));
    }
  }

  /** Poll reports the descriptor although it has a task already. */
  lemma PollAgain(s: State, steps: seq<Step>, fd: int, k: nat) returns (more: seq<Step>)
    requires CanRun(s, steps)
    requires var r := Run(s, steps);
             && r.phase.Polling? && k < |r.core.pollFds| && r.core.pollFds[k].fd == fd && 0 < fd != r.core.eventFd
             && 0 < r.core.eventFd && RunWatch(fd) in r.core.immediate
    ensures CanRun(s, more) && steps <= more && Twice(Run(s, more).core.immediate, RunWatch(fd))
  {
    hide CanRun, Run;
    var c := Run(s, steps).core;
    var ready := seq(|c.pollFds|, i requires 0 <= i < |c.pollFds| =>
                       i == k || (c.pollFds[i].fd == c.eventFd && c.signalled));
    OneMore(s, steps, PollReturn(ready));
    more := PostUpTo(s, steps + [PollReturn(ready)], fd, k);
  }

  /** From the end of a callback to the next poll. */
  lemma ToPoll(s: State, steps: seq<Step>) returns (more: seq<Step>)
    requires CanRun(s, steps)
    requires var r := Run(s, steps); r.phase.InCallback? && !r.core.quit && !r.core.changed
    ensures CanRun(s, more) && steps <= more && Run(s, more).phase.Polling? && Run(s, more).core == Run(s, steps).core
  {
    hide CanRun, Run, PollTimeout;
    var r := Run(s, steps);
    OneMore(s, steps, CallbackDone);
    more := steps + [CallbackDone];
    if r.phase.delayed.Some? {
      OneMore(s, more, RunDelayed);
      more := more + [RunDelayed];
    }
    OneMore(s, more, EndRound);
    more := more + [EndRound];
    OneMore(s, more, LoopTop);
    more := more + [LoopTop];
  }

  /** The rebuilt array has the waiting descriptor as one that poll attends to. */
  lemma RebuiltAttends(c: Core, fd: int)
    requires WatchesInv(c) && c.changed && Registered(c.watches, fd)
    ensures var u, k := UpdateWatches(c), LowerBound(c.watches, fd);
            !u.changed && u.immediate == c.immediate && k < |u.pollFds| && u.pollFds[k].fd == fd
    ensures forall fd' :: Registered(c.watches, fd') && 0 < fd' ==>
              var f, k := FetchWatch(c, fd'), LowerBound(c.watches, fd);
              && f.reg.Some? && !f.core.changed && f.core.immediate == c.immediate && f.core.quit == c.quit
              && f.core.eventFd == c.eventFd && k < |f.core.pollFds| && f.core.pollFds[k].fd == fd
  {
    hide LowerBound;
    forall fd' | Registered(c.watches, fd') && 0 < fd'
      ensures var f, k := FetchWatch(c, fd'), LowerBound(c.watches, fd);
              && f.reg.Some? && !f.core.changed && f.core.immediate == c.immediate && f.core.quit == c.quit
              && f.core.eventFd == c.eventFd && k < |f.core.pollFds| && f.core.pollFds[k].fd == fd
    {
      IndexChecksHold(c, fd');
    }
  }

  /**
   Conversely, from any state in which a step rebuilds the poll array while a registered descriptor
   waits for its task, the run can go on so that the descriptor has two tasks in the queue.
   */
  lemma StaleRebuildDoubles(s: State, step: Step) returns (steps: seq<Step>, fd: int)
    requires PollInv(s) && Enabled(s, step) && Stale(s, step)
    ensures CanRun(s, steps) && [step] <= steps && Twice(Run(s, steps).core.immediate, RunWatch(fd))
  {
    fd :| Waits(s.core, fd);
    assert Pending(s, RunWatch(fd));
    assert CanRun(s, []) && Run(s, []) == s;
    OneMore(s, [], step);
    assert [] + [step] == [step];
    RebuiltAttends(s.core, fd);
    hide CanRun, Run, LowerBound, UpdateWatches, FetchWatch, PollTimeout;
    var k := LowerBound(s.core.watches, fd);
    if step.LoopTop? {
      steps := PollAgain(s, [step], fd, k);
    } else {
      assert Pending(s, RunWatch(s.phase.task.value.fd));
      steps := ToPoll(s, [step]);
      steps := PollAgain(s, steps, fd, k);
    }
  }
}
