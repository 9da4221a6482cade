/**
 What the task runner does for its users, said of what they see: due delayed tasks are started,
 watches form a map, ready descriptors get their tasks, and Quit ends the loop.
 */
module TaskRunnerEffects {
  import opened Common
  import opened TaskQueue
  import opened TaskRunnerRuns
  import opened TaskRunnerOrder
  import Polling = TaskRunnerPolling
  import TaskRunner

  // ---------------------------------------------------------------- a round starts what it can

  /** The first delayed task has reached its deadline, by the clock that the round has read. */
  predicate FirstIsDue(s: State)
    requires s.phase.Dispatching?
  {
    s.core.delayed != [] && s.core.delayed[0].deadline <= s.phase.clock + s.core.advanced
  }

  /** A round starts the first immediate task if there is one, and the first delayed task if it is due. */
  lemma DispatchExactly(s: State)
    requires Enabled(s, Dispatch)
    ensures var s' := Apply(s, Dispatch);
            && s'.phase.Running?
            && (s.core.immediate == [] ==> s'.phase.task == None && s'.core.immediate == [])
            && (s.core.immediate != [] ==>
                  s'.phase.task == Some(s.core.immediate[0]) && s'.core.immediate == s.core.immediate[1..])
            && (FirstIsDue(s) ==>
                  && s'.taken == s.taken + [Taken(s.core.delayed[0], s.phase.clock + s.core.advanced)]
                  && s'.phase.delayed == Some(s.core.delayed[0]) && s'.core.delayed == s.core.delayed[1..])
            && (!FirstIsDue(s) ==>
                  s'.taken == s.taken && s'.phase.delayed == None && s'.core.delayed == s.core.delayed)
  {
  }

  /** The clock that deadlines are compared with: time passes, or is advanced by hand. */
  lemma ClockMoves(s: State, ms: nat)
    ensures var s' := Apply(s, Tick(ms)); s' == s.(now := s'.now) && s'.now == s.now + ms
    ensures var s' := Apply(s, AdvanceTime(ms));
            s' == s.(core := s.core.(advanced := s'.core.advanced)) && s'.core.advanced == s.core.advanced + ms
  {
  }

  // ---------------------------------------------------------------- delayed tasks are started

  /** Every round from now on finds the deadline reached. */
  predicate Reached(s: State, deadline: int) {
    && deadline <= s.now + s.core.advanced
    && (s.phase.Dispatching? ==> deadline <= s.phase.clock + s.core.advanced)
  }

  lemma ReachedStays(s: State, step: Step, deadline: int)
    requires Reached(s, deadline) && Enabled(s, step)
    ensures Reached(Apply(s, step), deadline)
  {
    hide LowerBound, Registered, InsertDelayed, PollTimeout;
  }

  /** How many tasks with an earlier deadline are posted. */
  function EarlierPosts(steps: seq<Step>, deadline: int): nat {
    if steps == [] then 0
    else (if steps[0].PostDelayed? && steps[0].deadline < deadline then 1 else 0) + EarlierPosts(steps[1..], deadline)
  }

  lemma TakenGrows(s: State, step: Step)
    requires Enabled(s, step)
    ensures s.taken <= Apply(s, step).taken
    ensures Apply(s, step).iterations == s.iterations + (if step.Dispatch? then 1 else 0)
  {
    hide LowerBound, Registered, InsertDelayed, PollTimeout, UpdateWatches, FetchWatch, AddWatch, RemoveWatch,
         PostWatchAt;
  }

  lemma {:induction false} RunTakenGrows(s: State, steps: seq<Step>)
    requires CanRun(s, steps)
    ensures s.taken <= Run(s, steps).taken && s.iterations <= Run(s, steps).iterations
    decreases |steps|
  {
    hide Apply, Enabled;
    if steps != [] {
      TakenGrows(s, steps[0]);
      RunTakenGrows(Apply(s, steps[0]), steps[1..]);
    }
  }

  /** The task is among those started from the n-th on. */
  predicate StartedFrom(taken: seq<Taken>, n: nat, d: Delayed) {
    exists i :: n <= i < |taken| && taken[i].d == d
  }

  /** A post moves a queued task back by one if its own deadline is earlier, and not at all otherwise. */
  lemma PostMovesBack(s: State, deadline: int, k: nat)
    requires IdsInv(s) && k < |s.core.delayed|
    ensures var q', d := Apply(s, PostDelayed(deadline)).core.delayed, s.core.delayed[k];
            var k' := if deadline < d.deadline then k + 1 else k;
            k' < |q'| && q'[k'] == d
  {
    hide InsertDelayed;
    var m := InsertPosition(s.core.delayed, Delayed(deadline, s.nextDelayed));
  }

  /** A round takes the first one, so every one behind it moves up. */
  lemma RoundMovesUp(s: State, k: nat)
    requires IdsInv(s) && Enabled(s, Dispatch) && k < |s.core.delayed| && Reached(s, s.core.delayed[k].deadline)
    ensures var s', d := Apply(s, Dispatch), s.core.delayed[k];
            if k == 0 then |s'.taken| == |s.taken| + 1 && s'.taken[|s.taken|].d == d
            else k - 1 < |s'.core.delayed| && s'.core.delayed[k - 1] == d
  {
    DispatchExactly(s);
    assert k > 0 ==> Before(s.core.delayed[0], s.core.delayed[k]);
  }

  /**
   Once its deadline has passed, the delayed task at position k of the queue is started within k + 1
   rounds, and one more for every earlier deadline posted meanwhile, whatever else is posted or watched.
   */
  lemma {:induction false} DueTaskIsStarted(s: State, steps: seq<Step>, k: nat)
    requires IdsInv(s) && CanRun(s, steps) && k < |s.core.delayed| && Reached(s, s.core.delayed[k].deadline)
    requires Run(s, steps).iterations >= s.iterations + k + 1 + EarlierPosts(steps, s.core.delayed[k].deadline)
    ensures StartedFrom(Run(s, steps).taken, |s.taken|, s.core.delayed[k])
    decreases |steps|
  {
    hide Apply, Enabled, IdsInv, Reached;
    var step, d := steps[0], s.core.delayed[k];
    var s', rest := Apply(s, step), steps[1..];
    IdsKept(s, step);
    ReachedStays(s, step, d.deadline);
    TakenGrows(s, step);
    RunTakenGrows(s', rest);
    if step.PostDelayed? {
      PostMovesBack(s, step.deadline, k);
      DueTaskIsStarted(s', rest, if step.deadline < d.deadline then k + 1 else k);
    } else if step.Dispatch? {
      RoundMovesUp(s, k);
      if k == 0 {
        assert Run(s, steps).taken[|s.taken|].d == d;
      } else {
        DueTaskIsStarted(s', rest, k - 1);
      }
    } else {
      DelayedUntouched(s, step);
      DueTaskIsStarted(s', rest, k);
    }
  }

  /** The same of every state reachable from a new task runner. */
  lemma NoDelayedStarvation(s: State, before: seq<Step>, after: seq<Step>, k: nat)
    requires Init(s) && CanRun(s, before) && CanRun(Run(s, before), after)
    requires k < |Run(s, before).core.delayed|
    requires var s1 := Run(s, before);
             var d := s1.core.delayed[k];
             && Reached(s1, d.deadline)
             && Run(s1, after).iterations >= s1.iterations + k + 1 + EarlierPosts(after, d.deadline)
    ensures var s1 := Run(s, before); StartedFrom(Run(s1, after).taken, |s1.taken|, s1.core.delayed[k])
  {
    hide Run, CanRun;
    assert DelayedInv(s) by { assert Started(s.taken) + s.core.delayed == []; }
    RunKeepsDelayed(s, before);
    DueTaskIsStarted(Run(s, before), after, k);
  }

  /** A posted delayed task is queued until it is started. */
  lemma {:induction false} DelayedTaskIsKept(s: State, steps: seq<Step>, d: Delayed)
    requires IdsInv(s) && CanRun(s, steps) && (d in s.core.delayed || d in Started(s.taken))
    ensures var s' := Run(s, steps); d in s'.core.delayed || d in Started(s'.taken)
    decreases |steps|
  {
    hide Apply, Enabled, IdsInv, Started;
    if steps != [] {
      IdsKept(s, steps[0]);
      StepKeepsTask(s, steps[0], d);
      DelayedTaskIsKept(Apply(s, steps[0]), steps[1..], d);
    }
  }

  lemma StepKeepsTask(s: State, step: Step, d: Delayed)
    requires IdsInv(s) && Enabled(s, step) && (d in s.core.delayed || d in Started(s.taken))
    ensures var s' := Apply(s, step); d in s'.core.delayed || d in Started(s'.taken)
  {
    hide Apply, Enabled, Sorted;
    if step.PostDelayed? {
      if d in s.core.delayed {
        var k :| 0 <= k < |s.core.delayed| && s.core.delayed[k] == d;
        PostMovesBack(s, step.deadline, k);
      }
      PostTakesNothing(s, step.deadline);
    } else if step.Dispatch? {
      DispatchMovesTheFirst(s);
      var all := Started(s.taken) + s.core.delayed;
      var s' := Apply(s, step);
      assert d in all && all == Started(s'.taken) + s'.core.delayed;
    } else {
      DelayedUntouched(s, step);
    }
  }

  lemma PostTakesNothing(s: State, deadline: int)
    ensures Apply(s, PostDelayed(deadline)).taken == s.taken
    ensures Delayed(deadline, s.nextDelayed) in Apply(s, PostDelayed(deadline)).core.delayed
  {
    InsertedIsThere(s.core.delayed, Delayed(deadline, s.nextDelayed));
  }

  lemma {:induction false} InsertedIsThere(q: seq<Delayed>, d: Delayed)
    ensures d in InsertDelayed(q, d)
  {
    if q != [] && d.deadline < q[|q| - 1].deadline {
      InsertedIsThere(q[..|q| - 1], d);
    }
  }

  /** Poll waits without a limit if and only if there is no task, and not at all with an immediate one. */
  lemma SleepsForeverExactly(c: Core, now: int)
    ensures PollTimeout(c, now) < 0 <==> c.immediate == [] && c.delayed == []
    ensures PollTimeout(c, now) < 0 ==> PollTimeout(c, now) == -1
    ensures c.immediate != [] ==> PollTimeout(c, now) == 0
  {
    hide ToInt32;
  }

  // ---------------------------------------------------------------- quitting

  /** The loop is on its way to start tasks once more. */
  function RoundsLeft(s: State): nat {
    if s.phase.Polling? || s.phase.Posting? || s.phase.Dispatching? then 1 else 0
  }

  lemma QuitStepEnds(s: State, step: Step)
    requires s.core.quit && Enabled(s, step)
    ensures var s' := Apply(s, step);
            s'.core.quit && s'.iterations + RoundsLeft(s') <= s.iterations + RoundsLeft(s)
  {
    hide LowerBound, Registered, InsertDelayed, PollTimeout;
  }

  /** After Quit the loop starts tasks at most once more, and only if it was already polling or posting. */
  lemma {:induction false} QuitEndsTheLoop(s: State, steps: seq<Step>)
    requires s.core.quit && CanRun(s, steps)
    ensures Run(s, steps).iterations + RoundsLeft(Run(s, steps)) <= s.iterations + RoundsLeft(s)
    decreases |steps|
  {
    hide Apply, Enabled, RoundsLeft;
    if steps != [] {
      QuitStepEnds(s, steps[0]);
      QuitEndsTheLoop(Apply(s, steps[0]), steps[1..]);
    }
  }

  /** At the top of the loop Quit takes effect at once, and nothing else does. */
  lemma QuitAtTheTop(s: State)
    requires Enabled(s, LoopTop)
    ensures Apply(s, LoopTop).phase.Stopped? <==> s.core.quit
    ensures s.core.quit ==> Apply(s, LoopTop).core == s.core
  {
  }

  lemma StoppingStep(s: State, step: Step)
    requires Enabled(s, step) && (s.phase.Stopped? ==> s.core.quit)
    ensures Apply(s, step).phase.Stopped? ==> Apply(s, step).core.quit
    ensures s.core.quit || step.Quit? || !Apply(s, step).core.quit
  {
    hide LowerBound, Registered, InsertDelayed, PollTimeout;
  }

  /** The loop ends only after somebody has called Quit. */
  lemma {:induction false} OnlyQuitEndsTheLoop(s: State, steps: seq<Step>)
    requires (s.phase.Stopped? ==> s.core.quit) && CanRun(s, steps) && Run(s, steps).phase.Stopped?
    ensures s.core.quit || exists i :: 0 <= i < |steps| && steps[i].Quit?
    decreases |steps|
  {
    hide Apply, Enabled;
    if steps != [] {
      StoppingStep(s, steps[0]);
      OnlyQuitEndsTheLoop(Apply(s, steps[0]), steps[1..]);
      if !Apply(s, steps[0]).core.quit {
        var i :| 0 <= i < |steps[1..]| && steps[1..][i].Quit?;
        assert steps[i + 1].Quit?;
      } else if !s.core.quit {
        assert steps[0].Quit?;
      }
    }
  }

  // ---------------------------------------------------------------- watches form a map

  lemma AddedAscending(c: Core, fd: int, reg: nat)
    requires Ascending(c.watches)
    ensures Ascending(AddWatch(c, fd, reg).watches)
  {
    hide LowerBound;
    if !Registered(c.watches, fd) {
      Polling.InsertedAscending(c.watches, TaskQueue.Watch(fd, reg, SIZE_MAX));
    }
  }

  /** The other entries are the same. */
  ghost predicate SameOthers(ws: seq<TaskQueue.Watch>, ws': seq<TaskQueue.Watch>, fd: int) {
    forall w: TaskQueue.Watch :: w.fd != fd ==> (w in ws <==> w in ws')
  }

  lemma ReplacedOne(ws: seq<TaskQueue.Watch>, k: nat, w: TaskQueue.Watch)
    requires k < |ws| && ws[k].fd == w.fd
    ensures SameOthers(ws, ws[k := w], w.fd)
  {
    var ws' := ws[k := w];
    assert forall i :: 0 <= i < |ws| && i != k ==> ws'[i] == ws[i];
  }

  lemma InsertedOne(ws: seq<TaskQueue.Watch>, k: nat, w: TaskQueue.Watch)
    requires k <= |ws|
    ensures SameOthers(ws, ws[..k] + [w] + ws[k..], w.fd)
  {
    assert ws == ws[..k] + ws[k..];
  }

  lemma RemovedOne(ws: seq<TaskQueue.Watch>, k: nat)
    requires k < |ws|
    ensures SameOthers(ws, ws[..k] + ws[k + 1..], ws[k].fd)
  {
    assert ws == ws[..k] + [ws[k]] + ws[k + 1..];
  }

  /** The entry of a descriptor is found by its key, wherever it is. */
  lemma FoundByKey(ws: seq<TaskQueue.Watch>, ws': seq<TaskQueue.Watch>, fd: int, g: int)
    requires Ascending(ws) && Ascending(ws') && SameOthers(ws, ws', fd) && g != fd
    ensures RegOf(ws, g) == RegOf(ws', g)
  {
    hide LowerBound;
    if Registered(ws, g) {
      var w := ws[LowerBound(ws, g)];
      assert w in ws';
      var j :| 0 <= j < |ws'| && ws'[j] == w;
      Polling.FoundWhereItIs(ws', g, j);
    } else if Registered(ws', g) {
      var w := ws'[LowerBound(ws', g)];
      assert w in ws;
      var j :| 0 <= j < |ws| && ws[j] == w;
      Polling.FoundWhereItIs(ws, g, j);
    }
  }

  /** Adding a watch registers it for its descriptor, and leaves the others as they were. */
  lemma AddIsUpdate(c: Core, fd: int, reg: nat, g: int)
    requires Ascending(c.watches)
    ensures RegOf(AddWatch(c, fd, reg).watches, g) == if g == fd then Some(reg) else RegOf(c.watches, g)
  {
    hide LowerBound, SameOthers, Ascending;
    var ws, k, w := c.watches, LowerBound(c.watches, fd), TaskQueue.Watch(fd, reg, SIZE_MAX);
    AddedAscending(c, fd, reg);
    if g == fd {
      Polling.FoundWhereItIs(AddWatch(c, fd, reg).watches, g, k);
    } else {
      if Registered(ws, fd) {
        ReplacedOne(ws, k, w);
      } else {
        InsertedOne(ws, k, w);
      }
      FoundByKey(ws, AddWatch(c, fd, reg).watches, fd, g);
    }
  }

  /** Removing a watch withdraws the one of its descriptor, and leaves the others as they were. */
  lemma RemoveIsErase(c: Core, fd: int, g: int)
    requires Ascending(c.watches)
    ensures RegOf(RemoveWatch(c, fd).watches, g) == if g == fd then None else RegOf(c.watches, g)
  {
    hide LowerBound, SameOthers, Ascending;
    var ws, k := c.watches, LowerBound(c.watches, fd);
    if Registered(ws, fd) {
      Polling.RemovedAscending(ws, k);
      RemovedOne(ws, k);
      if g == fd {
        RemovedIsGone(ws, k);
      } else {
        FoundByKey(ws, RemoveWatch(c, fd).watches, fd, g);
      }
    }
  }

  lemma RemovedIsGone(ws: seq<TaskQueue.Watch>, k: nat)
    requires Ascending(ws) && k < |ws|
    ensures !Registered(ws[..k] + ws[k + 1..], ws[k].fd)
  {
    hide LowerBound;
    Polling.RemovedAscending(ws, k);
  }

  // ---------------------------------------------------------------- ready descriptors get their tasks

  function TasksOf(e: PollFd, eventFd: int): seq<Task> {
    if e.revents && e.fd != eventFd then [RunWatch(e.fd)] else []
  }

  /** One task for each entry with events, in order, except the wake-up event. */
  function ReadyTasks(pollFds: seq<PollFd>, eventFd: int): seq<Task> {
    if pollFds == [] then []
    else TasksOf(pollFds[0], eventFd) + ReadyTasks(pollFds[1..], eventFd)
  }

  /** An entry after its events have been dealt with. */
  function Handled(e: PollFd, eventFd: int): PollFd {
    if !e.revents then e else PollFd(if e.fd == eventFd then e.fd else -e.fd, false)
  }

  /** The caller of PostTask wakes the loop at once. */
  function PostAt(c: Core, i: nat): Core
    requires i < |c.pollFds|
  {
    var c' := PostWatchAt(c, i);
    if c'.immediate != c.immediate && c.immediate == [] then c'.(signalled := true) else c'
  }

  lemma OnePosted(c: Core, i: nat)
    requires i < |c.pollFds|
    ensures var c', e := PostAt(c, i), c.pollFds[i];
            && TaskRunner.PostWatchesFrom(c, i) == TaskRunner.PostWatchesFrom(c', i + 1)
            && c'.immediate == c.immediate + TasksOf(e, c.eventFd)
            && c'.pollFds == c.pollFds[i := Handled(e, c.eventFd)]
            && c' == c.(immediate := c'.immediate, pollFds := c'.pollFds, signalled := c'.signalled)
  {
    assert c.pollFds[i := c.pollFds[i]] == c.pollFds;
  }

  lemma ReadyFirst(pollFds: seq<PollFd>, i: nat, e: PollFd, eventFd: int)
    requires i < |pollFds|
    ensures ReadyTasks(pollFds[i..], eventFd)
            == TasksOf(pollFds[i], eventFd) + ReadyTasks(pollFds[i := e][i + 1..], eventFd)
  {
    assert pollFds[i..][1..] == pollFds[i := e][i + 1..];
  }

  lemma {:induction false} TasksFrom(c: Core, i: nat)
    requires i <= |c.pollFds|
    ensures TaskRunner.PostWatchesFrom(c, i).immediate == c.immediate + ReadyTasks(c.pollFds[i..], c.eventFd)
    decreases |c.pollFds| - i
  {
    if i == |c.pollFds| {
      assert c.immediate + ReadyTasks([], c.eventFd) == c.immediate;
    } else {
      hide PostAt, Handled, TaskRunner.PostWatchesFrom, ReadyTasks, TasksOf;
      var c', e := PostAt(c, i), c.pollFds[i];
      OnePosted(c, i);
      TasksFrom(c', i + 1);
      ReadyFirst(c.pollFds, i, Handled(e, c.eventFd), c.eventFd);
      var here, rest := TasksOf(e, c.eventFd), ReadyTasks(c'.pollFds[i + 1..], c.eventFd);
      assert c.immediate + here + rest == c.immediate + (here + rest);
    }
  }

  lemma {:induction false} OthersStay(c: Core, i: nat)
    requires i <= |c.pollFds|
    ensures var c' := TaskRunner.PostWatchesFrom(c, i);
            c' == c.(immediate := c'.immediate, pollFds := c'.pollFds, signalled := c'.signalled)
    decreases |c.pollFds| - i
  {
    if i < |c.pollFds| {
      hide PostAt, Handled, TaskRunner.PostWatchesFrom;
      OnePosted(c, i);
      OthersStay(PostAt(c, i), i + 1);
    }
  }

  lemma {:induction false} EntriesFrom(c: Core, i: nat)
    requires i <= |c.pollFds|
    ensures var c' := TaskRunner.PostWatchesFrom(c, i);
            && |c'.pollFds| == |c.pollFds|
            && forall j :: 0 <= j < |c.pollFds| ==>
                 c'.pollFds[j] == if j < i then c.pollFds[j] else Handled(c.pollFds[j], c.eventFd)
    decreases |c.pollFds| - i
  {
    if i < |c.pollFds| {
      hide PostAt, Handled, TaskRunner.PostWatchesFrom;
      OnePosted(c, i);
      EntriesFrom(PostAt(c, i), i + 1);
    }
  }

  predicate IsReady(c: Core, i: int) {
    0 <= i < |c.pollFds| && c.pollFds[i].revents && c.pollFds[i].fd != c.eventFd
  }

  predicate EventFires(c: Core, i: int) {
    0 <= i < |c.pollFds| && c.pollFds[i].revents && c.pollFds[i].fd == c.eventFd
  }

  lemma OneSignals(c: Core, i: nat)
    requires i < |c.pollFds|
    ensures PostAt(c, i).signalled ==
            (if EventFires(c, i) then false else c.signalled || (c.immediate == [] && IsReady(c, i)))
    ensures PostAt(c, i).immediate == [] <==> c.immediate == [] && !IsReady(c, i)
    ensures forall j :: j != i ==> IsReady(PostAt(c, i), j) == IsReady(c, j)
    ensures forall j :: j != i ==> EventFires(PostAt(c, i), j) == EventFires(c, j)
  {
  }

  /** The task for the first ready descriptor is posted to an empty queue, so its caller wakes the loop. */
  ghost predicate Wakes(c: Core, from: int) {
    c.immediate == [] && exists j :: from <= j && IsReady(c, j)
  }

  /**
   The wake-up event is cleared when it has fired, and stays as it was otherwise, except that a first
   task posted to an empty queue signals it again.
   */
  lemma {:induction false} SignalFrom(c: Core, i: nat)
    requires i <= |c.pollFds|
    ensures var c' := TaskRunner.PostWatchesFrom(c, i);
            && (c'.signalled && (exists e :: i <= e && EventFires(c, e)) ==> Wakes(c, i))
            && (c'.signalled && !(exists e :: i <= e && EventFires(c, e)) ==> c.signalled || Wakes(c, i))
            && (!(exists e :: i <= e && EventFires(c, e)) && (c.signalled || Wakes(c, i)) ==> c'.signalled)
    decreases |c.pollFds| - i
  {
    if i < |c.pollFds| {
      hide PostAt, Handled, TaskRunner.PostWatchesFrom, TasksOf;
      var c' := PostAt(c, i);
      OnePosted(c, i);
      OneSignals(c, i);
      SignalFrom(c', i + 1);
      hide IsReady, EventFires;
      assert forall j :: i <= j && IsReady(c, j) ==> j == i || (i + 1 <= j && IsReady(c', j));
      assert forall j :: i + 1 <= j && IsReady(c', j) ==> IsReady(c, j);
      assert forall j :: i <= j && EventFires(c, j) ==> j == i || (i + 1 <= j && EventFires(c', j));
      assert forall j :: i + 1 <= j && EventFires(c', j) ==> EventFires(c, j);
    }
  }

  /** Every ready descriptor gets one task and is ignored from then on; the rest of the state stays. */
  lemma PostedExactly(c: Core)
    ensures var c' := TaskRunner.PostWatchesFrom(c, 0);
            && c'.immediate == c.immediate + ReadyTasks(c.pollFds, c.eventFd)
            && |c'.pollFds| == |c.pollFds|
            && (forall j :: 0 <= j < |c.pollFds| ==> c'.pollFds[j] == Handled(c.pollFds[j], c.eventFd))
            && c' == c.(immediate := c'.immediate, pollFds := c'.pollFds, signalled := c'.signalled)
  {
    hide TaskRunner.PostWatchesFrom, ReadyTasks, Handled;
    TasksFrom(c, 0);
    EntriesFrom(c, 0);
    OthersStay(c, 0);
    assert c.pollFds[0..] == c.pollFds;
  }
}
