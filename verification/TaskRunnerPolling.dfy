/** What every run keeps about the poll array, the watches and the wake-up event. */
module TaskRunnerPolling {
  import opened Common
  import opened TaskQueue
  import opened TaskRunnerRuns

  // ---------------------------------------------------------------- watches

  lemma FoundWhereItIs(ws: seq<TaskQueue.Watch>, fd: int, i: nat)
    requires Ascending(ws) && i < |ws| && ws[i].fd == fd
    ensures Registered(ws, fd) && LowerBound(ws, fd) == i
  {
  }

  lemma InsertedAscending(ws: seq<TaskQueue.Watch>, w: TaskQueue.Watch)
    requires Ascending(ws) && !Registered(ws, w.fd)
    ensures var k := LowerBound(ws, w.fd); Ascending(ws[..k] + [w] + ws[k..])
  {
    hide LowerBound;
    var k := LowerBound(ws, w.fd);
    assert forall j :: k <= j < |ws| ==> w.fd < ws[j].fd;
  }

  lemma AddWatchKeeps(c: Core, fd: int, reg: nat)
    requires WatchesInv(c) && 0 < fd
    ensures WatchesInv(AddWatch(c, fd, reg))
  {
    hide LowerBound;
    var e, k := LowerBound(c.watches, c.eventFd), LowerBound(c.watches, fd);
    var c' := AddWatch(c, fd, reg);
    if Registered(c.watches, fd) {
      FoundWhereItIs(c'.watches, c.eventFd, e);
    } else {
      InsertedAscending(c.watches, TaskQueue.Watch(fd, reg, SIZE_MAX));
      FoundWhereItIs(c'.watches, c.eventFd, if e < k then e else e + 1);
    }
  }

  lemma RemovedAscending(ws: seq<TaskQueue.Watch>, k: nat)
    requires Ascending(ws) && k < |ws|
    ensures var less := ws[..k] + ws[k + 1..];
            Ascending(less) && forall i :: 0 <= i < |less| ==> less[i] == ws[if i < k then i else i + 1]
  {
  }

  lemma RemovedKeepsTheEvent(ws: seq<TaskQueue.Watch>, k: nat, eventFd: int)
    requires Ascending(ws) && Registered(ws, eventFd) && k < |ws| && ws[k].fd != eventFd
    ensures Registered(ws[..k] + ws[k + 1..], eventFd)
  {
    hide LowerBound;
    RemovedAscending(ws, k);
    var e := LowerBound(ws, eventFd);
    FoundWhereItIs(ws[..k] + ws[k + 1..], eventFd, if e < k then e else e - 1);
  }

  lemma RemoveWatchKeeps(c: Core, fd: int)
    requires WatchesInv(c) && fd != c.eventFd
    ensures WatchesInv(RemoveWatch(c, fd))
  {
    hide LowerBound, Ascending, Mirrors;
    if Registered(c.watches, fd) {
      var k := LowerBound(c.watches, fd);
      RemovedAscending(c.watches, k);
      RemovedKeepsTheEvent(c.watches, k, c.eventFd);
    }
  }

  lemma UpdateWatchesKeeps(c: Core)
    requires WatchesInv(c)
    ensures WatchesInv(UpdateWatches(c)) && !UpdateWatches(c).changed
    ensures |UpdateWatches(c).watches| == |c.watches|
    ensures forall i :: 0 <= i < |c.watches| ==>
            UpdateWatches(c).watches[i].fd == c.watches[i].fd && UpdateWatches(c).watches[i].reg == c.watches[i].reg
  {
    var e := LowerBound(c.watches, c.eventFd);
    FoundWhereItIs(UpdateWatches(c).watches, c.eventFd, e);
  }

  /** After the refresh both index checks of RunFileDescriptorWatch hold. */
  lemma IndexChecksHold(c: Core, fd: int)
    requires WatchesInv(c) && Registered(c.watches, fd)
    ensures IndexOk(UpdateWatches(c), fd)
    ensures LowerBound(UpdateWatches(c).watches, fd) == LowerBound(c.watches, fd)
  {
    UpdateWatchesKeeps(c);
    FoundWhereItIs(UpdateWatches(c).watches, fd, LowerBound(c.watches, fd));
  }

  lemma FetchWatchKeeps(c: Core, fd: int)
    requires WatchesInv(c) && 0 < fd
    ensures WatchesInv(FetchWatch(c, fd).core)
  {
    hide WatchesInv, LowerBound, Mirrors;
    if Registered(c.watches, fd) {
      UpdateWatchesKeeps(c);
      IndexChecksHold(c, fd);
      var u := UpdateWatches(c);
      EntryRestored(u, u.watches[LowerBound(c.watches, fd)].pollFdIndex, fd);
    }
  }

  /** An entry of the poll array gets its positive descriptor back. */
  lemma EntryRestored(c: Core, k: nat, fd: int)
    requires WatchesInv(c) && 0 < fd && k < |c.pollFds| && Abs(c.pollFds[k].fd) == fd
    ensures WatchesInv(c.(pollFds := c.pollFds[k := c.pollFds[k].(fd := fd)]))
  {
    hide LowerBound, Registered;
  }

  /** Only events and signs change in the poll array. */
  predicate SameDescriptors(c: Core, c': Core) {
    && c'.watches == c.watches && c'.changed == c.changed && c'.eventFd == c.eventFd
    && |c'.pollFds| == |c.pollFds|
    && forall i :: 0 <= i < |c.pollFds| ==> Abs(c'.pollFds[i].fd) == Abs(c.pollFds[i].fd)
  }

  lemma SameDescriptorsKeep(c: Core, c': Core)
    requires WatchesInv(c) && SameDescriptors(c, c')
    ensures WatchesInv(c')
  {
  }

  lemma UntouchedDescriptors(c: Core, c': Core)
    requires c'.watches == c.watches && c'.changed == c.changed && c'.eventFd == c.eventFd && c'.pollFds == c.pollFds
    ensures SameDescriptors(c, c')
  {
  }

  lemma ReportedDescriptorsStay(c: Core, ready: seq<bool>)
    requires |ready| == |c.pollFds|
    ensures SameDescriptors(c, PollReturned(c, ready))
  {
  }

  lemma PostedDescriptorsStay(c: Core, i: nat)
    requires i < |c.pollFds|
    ensures SameDescriptors(c, PostWatchAt(c, i))
  {
  }

  lemma DescriptorsStay(s: State, step: Step)
    requires Enabled(s, step)
    ensures || step.Watch? || step.Unwatch? || step.LoopTop? || step.RunWatchTask?
            || SameDescriptors(s.core, Apply(s, step).core)
  {
    hide InsertDelayed, PollTimeout, PollReturned, PostWatchAt, SameDescriptors;
    match step
    case Watch(_) =>
    case Unwatch(_) =>
    case LoopTop =>
    case RunWatchTask =>
    case PollReturn(ready) => ReportedDescriptorsStay(s.core, ready);
    case PostWatch => PostedDescriptorsStay(s.core, s.phase.next);
    case _ => UntouchedDescriptors(s.core, Apply(s, step).core);
  }

  lemma WatchesKept(s: State, step: Step)
    requires PollInv(s) && Enabled(s, step)
    ensures WatchesInv(Apply(s, step).core)
  {
    hide WatchesInv, LowerBound, Registered, InsertDelayed, PollTimeout, EntriesInv, NegatedInv;
    hide AddWatch, RemoveWatch, UpdateWatches, FetchWatch;
    match step
    case Watch(fd) => AddWatchKeeps(s.core, fd, s.nextReg);
    case Unwatch(fd) => RemoveWatchKeeps(s.core, fd);
    case LoopTop => UpdateWatchesKeeps(s.core);
    case RunWatchTask =>
      assert Pending(s, s.phase.task.value);
      FetchWatchKeeps(s.core, s.phase.task.value.fd);
    case _ =>
      DescriptorsStay(s, step);
      SameDescriptorsKeep(s.core, Apply(s, step).core);
  }

  // ---------------------------------------------------------------- poll array entries

  lemma FetchedEntries(c: Core, fd: int)
    requires WatchesInv(c) && 0 < fd
    ensures var c' := FetchWatch(c, fd).core;
            && 0 < c'.eventFd == c.eventFd
            && forall i :: 0 <= i < |c'.pollFds| ==>
                 || (c'.pollFds[i].fd > 0 && (c.changed ==> !c'.pollFds[i].revents))
                 || (i < |c.pollFds| && c'.pollFds[i] == c.pollFds[i])
    ensures !c.changed ==> forall i :: 0 <= i < |FetchWatch(c, fd).core.pollFds| ==>
                i < |c.pollFds| && FetchWatch(c, fd).core.pollFds[i].revents == c.pollFds[i].revents
  {
    hide LowerBound;
  }

  lemma RebuiltEntries(c: Core)
    requires WatchesInv(c)
    ensures 0 < UpdateWatches(c).eventFd == c.eventFd
    ensures UpdateWatches(c).immediate == c.immediate
    ensures c.changed ==> forall i :: 0 <= i < |UpdateWatches(c).pollFds| ==>
                UpdateWatches(c).pollFds[i].fd > 0 && !UpdateWatches(c).pollFds[i].revents
    ensures !c.changed ==> UpdateWatches(c) == c
  {
    hide LowerBound;
  }

  lemma EntriesKept(s: State, step: Step)
    requires PollInv(s) && Enabled(s, step)
    ensures EntriesInv(Apply(s, step))
  {
    hide FetchWatch, UpdateWatches, WatchesInv, NegatedInv, Registered, LowerBound, InsertDelayed, PollTimeout;
    match step
    case RunWatchTask =>
      assert Pending(s, s.phase.task.value);
      FetchedEntries(s.core, s.phase.task.value.fd);
    case LoopTop => RebuiltEntries(s.core);
    case _ =>
  }

  lemma TasksKept(s: State, step: Step)
    requires PollInv(s) && Enabled(s, step)
    ensures TasksInv(Apply(s, step))
  {
    hide WatchesInv, NegatedInv;
    var s' := Apply(s, step);
    forall fd | Pending(s', RunWatch(fd))
      ensures 0 < fd != s'.core.eventFd
    {
      if step.PostWatch? && !Pending(s, RunWatch(fd)) {
        assert fd == s.core.pollFds[s.phase.next].fd;
      } else {
        assert Pending(s, RunWatch(fd));
      }
    }
  }

  /** Running the task of a watch makes poll attend to its descriptor again, and changes no other entry. */
  lemma FetchUnnegates(c: Core, fd: int)
    requires WatchesInv(c) && 0 < fd
    ensures var c' := FetchWatch(c, fd).core;
            !c'.changed ==> forall i :: 0 <= i < |c'.pollFds| && c'.pollFds[i].fd < 0 ==>
                !c.changed && i < |c.pollFds| && c.pollFds[i] == c'.pollFds[i] && c.pollFds[i].fd != -fd
  {
    hide LowerBound;
    var c' := FetchWatch(c, fd).core;
    if Registered(c.watches, fd) {
      IndexChecksHold(c, fd);
    } else if !c.changed {
      forall i | 0 <= i < |c.pollFds| && c.pollFds[i].fd == -fd
        ensures false
      {
        FoundWhereItIs(c.watches, fd, i);
      }
    }
  }

  lemma NegatedKeptByRunWatch(s: State)
    requires PollInv(s) && Enabled(s, RunWatchTask)
    ensures NegatedInv(Apply(s, RunWatchTask))
  {
    hide FetchWatch, WatchesInv, Registered, LowerBound;
    var s', fd := Apply(s, RunWatchTask), s.phase.task.value.fd;
    assert Pending(s, RunWatch(fd));
    FetchUnnegates(s.core, fd);
    FetchTouchesOnlyThePollArray(s.core, fd);
    if !s'.core.changed {
      forall i | 0 <= i < |s'.core.pollFds| && s'.core.pollFds[i].fd < 0
        ensures Pending(s', RunWatch(-s'.core.pollFds[i].fd))
      {
        assert Pending(s, RunWatch(-s.core.pollFds[i].fd));
      }
    }
  }

  lemma FetchTouchesOnlyThePollArray(c: Core, fd: int)
    ensures var c' := FetchWatch(c, fd).core;
            c' == c.(watches := c'.watches, changed := c'.changed, pollFds := c'.pollFds)
  {
  }

  lemma NegatedKeptByPostWatch(s: State)
    requires PollInv(s) && Enabled(s, PostWatch)
    ensures NegatedInv(Apply(s, PostWatch))
  {
    hide WatchesInv, TasksInv;
    var s', k := Apply(s, PostWatch), s.phase.next;
    if !s'.core.changed {
      forall i | 0 <= i < |s'.core.pollFds| && s'.core.pollFds[i].fd < 0
        ensures Pending(s', RunWatch(-s'.core.pollFds[i].fd))
      {
        if s.core.pollFds[i].fd == s'.core.pollFds[i].fd {
          assert Pending(s, RunWatch(-s.core.pollFds[i].fd));
        } else {
          assert i == k && s'.core.immediate[|s.core.immediate|] == RunWatch(s.core.pollFds[k].fd);
        }
      }
    }
  }

  /** Only these steps touch the descriptors of the poll array. */
  predicate Repolls(step: Step) {
    step.Watch? || step.Unwatch? || step.LoopTop? || step.RunWatchTask? || step.PostWatch?
  }

  lemma FdsStay(s: State, step: Step)
    requires Enabled(s, step)
    ensures Repolls(step) ||
            (var c, c' := s.core, Apply(s, step).core;
             && c'.changed == c.changed && |c'.pollFds| == |c.pollFds|
             && forall i :: 0 <= i < |c.pollFds| ==> c'.pollFds[i].fd == c.pollFds[i].fd)
  {
    hide InsertDelayed, PollTimeout, AddWatch, RemoveWatch, UpdateWatches, PostWatchAt, FetchWatch;
  }

  lemma PendingStays(s: State, step: Step, fd: int)
    requires Enabled(s, step) && Pending(s, RunWatch(fd)) && step != RunWatchTask
    ensures Pending(Apply(s, step), RunWatch(fd))
  {
    hide InsertDelayed, PollTimeout, LowerBound;
  }

  lemma NegatedKeptByOther(s: State, step: Step)
    requires PollInv(s) && Enabled(s, step) && step != RunWatchTask && step != PostWatch
    requires !Apply(s, step).core.changed
    ensures NegatedInv(Apply(s, step))
  {
    hide WatchesInv, TasksInv, EntriesInv, Pending, UpdateWatches, PollReturned, InsertDelayed, PollTimeout;
    var s' := Apply(s, step);
    RebuiltEntries(s.core);
    FdsStay(s, step);
    forall i | 0 <= i < |s'.core.pollFds| && s'.core.pollFds[i].fd < 0
      ensures Pending(s', RunWatch(-s'.core.pollFds[i].fd))
    {
      PendingStays(s, step, -s.core.pollFds[i].fd);
    }
  }

  lemma NegatedKept(s: State, step: Step)
    requires PollInv(s) && Enabled(s, step)
    ensures NegatedInv(Apply(s, step))
  {
    hide WatchesInv, TasksInv, Pending, FetchWatch, UpdateWatches, PostWatchAt;
    hide Registered, LowerBound, InsertDelayed, PollTimeout;
    if step == RunWatchTask {
      NegatedKeptByRunWatch(s);
    } else if step == PostWatch {
      NegatedKeptByPostWatch(s);
    } else if !Apply(s, step).core.changed {
      NegatedKeptByOther(s, step);
    }
  }

  /** Every step keeps the correspondence of poll array, watches and queued watch tasks. */
  lemma PollStepKeeps(s: State, step: Step)
    requires PollInv(s) && Enabled(s, step)
    ensures PollInv(Apply(s, step))
  {
    hide WatchesInv, EntriesInv, TasksInv, NegatedInv, Apply, Enabled;
    WatchesKept(s, step);
    EntriesKept(s, step);
    TasksKept(s, step);
    NegatedKept(s, step);
  }

  // ---------------------------------------------------------------- wake-ups

  /** When the loop goes to poll it polls every watch, the wake-up event included. */
  lemma EverythingIsPolled(c: Core)
    requires WatchesInv(c) && !c.changed
    requires forall i :: 0 <= i < |c.pollFds| ==> c.pollFds[i].fd != -c.eventFd
    ensures forall i :: 0 <= i < |c.watches| ==> Polled(c, c.watches[i].fd)
    ensures exists i :: 0 <= i < |c.pollFds| && c.pollFds[i].fd == c.eventFd
  {
    hide LowerBound;
    var e := LowerBound(c.watches, c.eventFd);
    assert Abs(c.pollFds[e].fd) == c.eventFd;
    forall i | 0 <= i < |c.watches|
      ensures Polled(c, c.watches[i].fd)
    {
      assert Abs(c.pollFds[i].fd) == c.watches[i].fd;
    }
  }

  lemma WakeAtLoopTop(s: State)
    requires PollInv(s) && Enabled(s, LoopTop)
    ensures WakeInv(Apply(s, LoopTop))
  {
    hide WatchesInv, UpdateWatches, LowerBound, Polled, ToInt32, TasksInv, NegatedInv;
    UpdateWatchesKeeps(s.core);
    UpdateKeepsQueues(s.core);
    EntriesKept(s, LoopTop);
    var s' := Apply(s, LoopTop);
    if s'.phase.Polling? {
      EverythingIsPolled(s'.core);
    }
  }

  lemma UpdateKeepsQueues(c: Core)
    ensures var u := UpdateWatches(c);
            u == c.(watches := u.watches, changed := u.changed, pollFds := u.pollFds)
  {
  }

  /** Removing a watch leaves no new one. */
  lemma RemovedWatchesWereThere(c: Core, fd: int, i: nat)
    requires i < |RemoveWatch(c, fd).watches|
    ensures exists j :: 0 <= j < |c.watches| && c.watches[j] == RemoveWatch(c, fd).watches[i]
  {
    hide LowerBound;
    var k := LowerBound(c.watches, fd);
    if Registered(c.watches, fd) && i >= k {
      assert c.watches[i + 1] == RemoveWatch(c, fd).watches[i];
    } else {
      assert c.watches[i] == RemoveWatch(c, fd).watches[i];
    }
  }

  lemma WakeAtUnwatch(s: State, fd: int)
    requires WakeInv(s) && Enabled(s, Unwatch(fd))
    ensures WakeInv(Apply(s, Unwatch(fd)))
  {
    hide LowerBound, Registered, RemoveWatch;
    var s' := Apply(s, Unwatch(fd));
    RemoveKeepsTheRest(s.core, fd);
    if s'.phase.Polling? && exists i :: 0 <= i < |s'.core.watches| && !Polled(s'.core, s'.core.watches[i].fd) {
      var i :| 0 <= i < |s'.core.watches| && !Polled(s'.core, s'.core.watches[i].fd);
      RemovedWatchesWereThere(s.core, fd, i);
      var j :| 0 <= j < |s.core.watches| && s.core.watches[j] == s'.core.watches[i];
      assert !Polled(s.core, s.core.watches[j].fd);
    }
  }

  lemma RemoveKeepsTheRest(c: Core, fd: int)
    ensures var r := RemoveWatch(c, fd); r == c.(watches := r.watches, changed := true)
  {
  }

  lemma SamePollArray(c: Core, c': Core)
    ensures c.pollFds == c'.pollFds ==> forall fd :: Polled(c', fd) == Polled(c, fd)
  {
  }

  /** Every step keeps the wake-up guarantee. */
  lemma WakeStepKeeps(s: State, step: Step)
    requires PollInv(s) && WakeInv(s) && Enabled(s, step)
    ensures WakeInv(Apply(s, step))
  {
    hide PollInv, UpdateWatches, FetchWatch, LowerBound, Registered, RemoveWatch, InsertDelayed, PollTimeout;
    SamePollArray(s.core, Apply(s, step).core);
    match step
    case LoopTop => WakeAtLoopTop(s);
    case Unwatch(fd) => WakeAtUnwatch(s, fd);
    case _ =>
  }

  // ---------------------------------------------------------------- runs

  lemma {:induction false} RunKeepsPollAndWake(s: State, steps: seq<Step>)
    requires PollInv(s) && WakeInv(s) && CanRun(s, steps)
    ensures PollInv(Run(s, steps)) && WakeInv(Run(s, steps))
    decreases |steps|
  {
    hide PollInv, WakeInv, Apply, Enabled;
    if steps != [] {
      PollStepKeeps(s, steps[0]);
      WakeStepKeeps(s, steps[0]);
      RunKeepsPollAndWake(Apply(s, steps[0]), steps[1..]);
    }
  }

  /**
   No lost wake-up. In every interleaving, whenever the loop is in poll with a timeout other than
   zero while a task is queued, an earlier deadline or a new watch has appeared, or the loop should
   quit, the wake-up event is signalled or a thread is about to signal it; and poll attends to the
   event, whose entry is never negated.
   */
  lemma NoLostWakeUp(s: State, steps: seq<Step>)
    requires Init(s) && CanRun(s, steps)
    ensures WakeInv(Run(s, steps))
    ensures var c := Run(s, steps).core; forall i :: 0 <= i < |c.pollFds| ==> c.pollFds[i].fd != -c.eventFd
  {
    RunKeepsPollAndWake(s, steps);
  }

  /** Whenever the watches have not changed, poll array and watches correspond one to one. */
  lemma PollArrayMirrorsWatches(s: State, steps: seq<Step>)
    requires Init(s) && CanRun(s, steps)
    ensures var s' := Run(s, steps);
            !s'.core.changed ==>
              && Mirrors(s'.core)
              && forall i :: 0 <= i < |s'.core.pollFds| && s'.core.pollFds[i].fd < 0 ==>
                 Pending(s', RunWatch(-s'.core.pollFds[i].fd))
  {
    RunKeepsPollAndWake(s, steps);
  }

  /** The two index checks of RunFileDescriptorWatch never fail. */
  lemma IndexChecksNeverFail(s: State, steps: seq<Step>)
    requires Init(s) && CanRun(s, steps) && Enabled(Run(s, steps), RunWatchTask)
    ensures var s' := Run(s, steps);
            var fd := s'.phase.task.value.fd;
            Registered(s'.core.watches, fd) ==> IndexOk(UpdateWatches(s'.core), fd)
  {
    RunKeepsPollAndWake(s, steps);
    var s' := Run(s, steps);
    if Registered(s'.core.watches, s'.phase.task.value.fd) {
      IndexChecksHold(s'.core, s'.phase.task.value.fd);
    }
  }

  /** No registered watch is ignored for good: poll attends to it, or its task is on its way. */
  lemma NoWatchIsIgnored(s: State, steps: seq<Step>, i: nat)
    requires Init(s) && CanRun(s, steps)
    requires !Run(s, steps).core.changed && i < |Run(s, steps).core.watches|
    ensures var s' := Run(s, steps);
            && i < |s'.core.pollFds|
            && (s'.core.pollFds[i].fd == s'.core.watches[i].fd || Pending(s', RunWatch(s'.core.watches[i].fd)))
  {
    RunKeepsPollAndWake(s, steps);
  }
}
