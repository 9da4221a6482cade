/** Runs of the task runner that show what it does not guarantee. */
module TaskRunnerExamples {
  import opened Common
  import opened TaskQueue
  import opened TaskRunnerRuns

  /** A fresh runner whose wake-up event is descriptor 3. */
  const START := State(Core(3, false, [], [], false, 0, [TaskQueue.Watch(3, 0, SIZE_MAX)], true, []),
                       0, 0, Top, [], [], 0, 0, [], false, 1, [Registering(0)])

  /** Nothing is signalled or queued, only the wake-up event is watched, and one delayed task is due. */
  predicate Quiet(r: State) {
    && r.phase == Top && !r.core.quit && !r.core.signalled && r.core.eventFd == 3
    && r.core.immediate == [] && r.core.advanced == 0
    && |r.core.delayed| == 1 && r.core.delayed[0].deadline <= r.now
    && (if r.core.changed then r.core.watches == [TaskQueue.Watch(3, 0, SIZE_MAX)]
       else r.core.pollFds == [PollFd(3, false)])
  }

  /** The state in which the loop is about to look at the clock. */
  function Polled(r: State): State {
    r.(core := UpdateWatches(r.core), phase := Posting(1))
  }

  lemma QuietPoll(s: State, steps: seq<Step>) returns (more: seq<Step>)
    requires CanRun(s, steps) && Quiet(Run(s, steps))
    ensures CanRun(s, more) && Run(s, more) == Polled(Run(s, steps))
    ensures Run(s, more).core.pollFds == [PollFd(3, false)]
  {
    hide CanRun, Run, InsertDelayed, LowerBound, Registered, ToInt32;
    OneMore(s, steps, LoopTop);
    more := steps + [LoopTop];
    var r := Run(s, more);
    assert r.core.pollFds == [PollFd(3, false)];
    OneMore(s, more, PollReturn([false]));
    more := more + [PollReturn([false])];
    assert Run(s, more).core.pollFds == r.core.pollFds;
    OneMore(s, more, PostWatch);
    more := more + [PostWatch];
  }

  /** The due task is started. */
  lemma QuietRound(s: State, steps: seq<Step>) returns (more: seq<Step>)
    requires CanRun(s, steps) && Quiet(Run(s, steps))
    ensures CanRun(s, more)
    ensures var r := Run(s, steps);
            Run(s, more) == r.(core := UpdateWatches(r.core).(delayed := []),
                               taken := r.taken + [Taken(r.core.delayed[0], r.now)],
                               iterations := r.iterations + 1)
    ensures Run(s, more).core.pollFds == [PollFd(3, false)]
  {
    hide CanRun, Run, InsertDelayed, LowerBound, Registered, ToInt32;
    more := QuietPoll(s, steps);
    OneMore(s, more, ReadClock);
    more := more + [ReadClock];
    OneMore(s, more, Dispatch);
    more := more + [Dispatch];
    OneMore(s, more, RunDelayed);
    more := more + [RunDelayed];
    OneMore(s, more, EndRound);
    more := more + [EndRound];
  }

  /** A post whose clock was read long before its insertion makes delayed tasks start out of order. */
  lemma LatePostBreaksDeadlineOrder() returns (steps: seq<Step>)
    ensures Init(START) && CanRun(START, steps)
    ensures Run(START, steps).core.delayed == [] && !Sorted(Started(Run(START, steps).taken))
  {
    hide Apply;
    steps := LateRun();
    var taken := Run(START, steps).taken;
    assert Started(taken)[0] == Delayed(10, 0) && Started(taken)[1] == Delayed(5, 1);
  }

  lemma LateRun() returns (steps: seq<Step>)
    ensures CanRun(START, steps)
    ensures Run(START, steps).core.delayed == []
    ensures Run(START, steps).taken == [Taken(Delayed(10, 0), 10), Taken(Delayed(5, 1), 10)]
  {
    steps := [];
    OneMore(START, steps, PostDelayed(10)); steps := steps + [PostDelayed(10)];
    OneMore(START, steps, Tick(10)); steps := steps + [Tick(10)];
    steps := QuietRound(START, steps);
    OneMore(START, steps, PostDelayed(5)); steps := steps + [PostDelayed(5)];
    steps := QuietRound(START, steps);
  }

  /** Descriptor 5 is watched besides the wake-up event, and its watch is new. */
  predicate NewlyWatched(r: State) {
    && r.phase == Top && !r.core.quit && !r.core.signalled && r.core.eventFd == 3 && r.core.changed
    && |r.core.watches| == 2 && r.core.watches[0].fd == 3 && r.core.watches[1].fd == 5
  }

  /** Descriptor 5 is ready: its task is posted and poll is told to ignore it. */
  lemma PollReady(s: State, steps: seq<Step>) returns (more: seq<Step>)
    requires CanRun(s, steps) && NewlyWatched(Run(s, steps))
    ensures CanRun(s, more)
    ensures var r, r' := Run(s, steps), Run(s, more);
            && r'.phase == Posting(2) && !r'.core.quit && !r'.core.signalled && r'.core.eventFd == 3
            && r'.core.immediate == r.core.immediate + [RunWatch(5)] && r'.core.delayed == r.core.delayed
            && r'.core.pollFds == [PollFd(3, false), PollFd(-5, false)]
            && |r'.core.watches| == 2 && r'.core.watches[0].fd == 3 && r'.core.watches[1].fd == 5
  {
    hide CanRun, Run, InsertDelayed, LowerBound, Registered, ToInt32;
    var w := Run(s, steps).core.watches;
    OneMore(s, steps, LoopTop);
    more := steps + [LoopTop];
    assert Run(s, more).core.pollFds == [PollFd(3, false), PollFd(5, false)];
    OneMore(s, more, PollReturn([false, true]));
    more := more + [PollReturn([false, true])];
    assert Run(s, more).core.pollFds == [PollFd(3, false), PollFd(5, true)];
    OneMore(s, more, PostWatch);
    more := more + [PostWatch];
    OneMore(s, more, PostWatch);
    more := more + [PostWatch];
  }

  lemma WatchAgain(s: State, steps: seq<Step>) returns (more: seq<Step>)
    requires CanRun(s, steps) && Enabled(Run(s, steps), Unwatch(5))
    requires var ws := Run(s, steps).core.watches; |ws| == 2 && ws[0].fd == 3 && ws[1].fd == 5
    ensures CanRun(s, more)
    ensures var r, r' := Run(s, steps), Run(s, more);
            && r'.core == r.core.(watches := r'.core.watches, changed := true) && r'.phase == r.phase && r'.now == r.now
            && |r'.core.watches| == 2 && r'.core.watches[0].fd == 3 && r'.core.watches[1].fd == 5
  {
    hide CanRun, Run, InsertDelayed, ToInt32;
    var ws := Run(s, steps).core.watches;
    assert LowerBound(ws, 5) == 1 by { assert LowerBound(ws[1..], 5) == 0; }
    OneMore(s, steps, Unwatch(5));
    more := steps + [Unwatch(5)];
    assert Run(s, more).core.watches == [ws[0]];
    assert LowerBound([ws[0]], 5) == 1;
    OneMore(s, more, TaskRunnerRuns.Watch(5));
    more := more + [TaskRunnerRuns.Watch(5)];
  }

  /** The rest of a round: the first queued task is run. */
  lemma RunFirst(s: State, steps: seq<Step>) returns (more: seq<Step>)
    requires CanRun(s, steps)
    requires var r := Run(s, steps);
             r.phase == Posting(|r.core.pollFds|) && r.core.delayed == [] && r.core.immediate != [] &&
                 r.core.immediate[0].UserTask?
    ensures CanRun(s, more) && Run(s, more).phase == Top
    ensures var r := Run(s, steps); Run(s, more).core == r.core.(immediate := r.core.immediate[1..])
  {
    hide CanRun, Run, InsertDelayed, LowerBound, ToInt32;
    OneMore(s, steps, ReadClock);
    more := steps + [ReadClock];
    OneMore(s, more, Dispatch);
    more := more + [Dispatch];
    OneMore(s, more, RunUserTask);
    more := more + [RunUserTask];
    OneMore(s, more, EndRound);
    more := more + [EndRound];
  }

  lemma WatchFirst() returns (steps: seq<Step>)
    ensures CanRun(START, steps) && NewlyWatched(Run(START, steps))
    ensures Run(START, steps).core.immediate == [UserTask(1), UserTask(2)] && Run(START, steps).core.delayed == []
  {
    steps := [];
    var ws := START.core.watches;
    assert LowerBound(ws, 5) == 1;
    OneMore(START, steps, TaskRunnerRuns.Watch(5));
    steps := steps + [TaskRunnerRuns.Watch(5)];
    OneMore(START, steps, Post(1));
    steps := steps + [Post(1)];
    OneMore(START, steps, Post(2));
    steps := steps + [Post(2)];
  }

  /** A rebuild of the poll array forgets which descriptors have a task pending, so two can be. */
  lemma TwoTasksForOneDescriptor() returns (steps: seq<Step>)
    ensures Init(START) && CanRun(START, steps)
    ensures Run(START, steps).core.immediate == [UserTask(2), RunWatch(5), RunWatch(5)]
  {
    hide Apply, CanRun, Run;
    steps := WatchFirst();
    steps := PollReady(START, steps);
    steps := WatchAgain(START, steps);
    steps := RunFirst(START, steps);
    steps := PollReady(START, steps);
  }
}
