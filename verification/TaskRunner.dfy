/**
 The task runner object. Methods that end in `Locked` are critical sections; the others are run
 without interruption here, while the state machine of the runs lets other threads come in between.
 Clock values and the events reported by poll() are arguments.
 */
module TaskRunner {
  import opened Common
  import opened TaskQueue
  import Runs = TaskRunnerRuns
  import Polling = TaskRunnerPolling

  /** PostTask as its caller sees it: the event is signalled if the queue was empty. */
  function PostAndWake(c: Core, t: Task): Core {
    PushTask(c, t).(signalled := c.signalled || c.immediate == [])
  }

  /** PostFileDescriptorWatches from entry `i` on. */
  function PostWatchesFrom(c: Core, i: nat): Core
    requires i <= |c.pollFds|
    decreases |c.pollFds| - i
  {
    if i == |c.pollFds| then c
    else
      var posts := c.pollFds[i].revents && c.pollFds[i].fd != c.eventFd;
      var c' := PostWatchAt(c, i);
      PostWatchesFrom(if posts && c.immediate == [] then c'.(signalled := true) else c', i + 1)
  }

  lemma InsertFurtherLeft(q: seq<Delayed>, d: Delayed, k: nat)
    requires 0 < k <= |q| && d.deadline < q[k - 1].deadline
    ensures InsertDelayed(q[..k], d) + q[k..] == InsertDelayed(q[..k - 1], d) + q[k - 1..]
  {
    assert q[..k][..k - 1] == q[..k - 1];
    var left := InsertDelayed(q[..k - 1], d);
    assert InsertDelayed(q[..k], d) == left + [q[k - 1]];
    assert left + [q[k - 1]] + q[k..] == left + q[k - 1..];
  }

  class UnixTaskRunner {
    const eventFd: int
    var eventSignalled: bool
    var immediateTasks: seq<Task>
    var delayedTasks: seq<Delayed>
    var quit: bool
    var advancedTime: nat
    var watchTasks: seq<Watch>
    var watchTasksChanged: bool
    var pollFds: seq<PollFd>

    function View(): Core
      reads this
    {
      Core(eventFd, eventSignalled, immediateTasks, delayedTasks, quit, advancedTime, watchTasks, watchTasksChanged,
          pollFds)
    }

    constructor (eventFd: int)
      requires 0 < eventFd
      ensures View() == Core(eventFd, true, [], [], false, 0, [Watch(eventFd, 0, SIZE_MAX)], true, [])
      ensures Runs.WatchesInv(View())
    {
      this.eventFd := eventFd;
      eventSignalled, immediateTasks, delayedTasks, quit, advancedTime := false, [], [], false, 0;
      watchTasks, watchTasksChanged, pollFds := [], false, [];
      new;
      AddFileDescriptorWatch(eventFd, 0);
      Polling.FoundWhereItIs(watchTasks, eventFd, 0);
    }

    method WakeUp()
      modifies this`eventSignalled
      ensures eventSignalled
    {
      eventSignalled := true;
    }

    method Quit()
      modifies this`quit, this`eventSignalled
      ensures View() == old(View()).(quit := true, signalled := true)
    {
      quit := true;
      WakeUp();
    }

    method AdvanceTimeForTesting(ms: nat)
      modifies this`advancedTime
      ensures View() == old(View()).(advanced := old(advancedTime) + ms)
    {
      advancedTime := advancedTime + ms;
    }

    method PostTask(task: Task)
      modifies this`immediateTasks, this`eventSignalled
      ensures View() == PostAndWake(old(View()), task)
    {
      var wasEmpty := immediateTasks == [];
      immediateTasks := immediateTasks + [task];
      if wasEmpty {
        WakeUp();
      }
    }

    method PostDelayedTask(id: nat, delayMs: nat, now: int)
      modifies this`delayedTasks, this`eventSignalled
      ensures View() == PushDelayed(old(View()), Delayed(now + delayMs + advancedTime, id)).(signalled := true)
    {
      var d := Delayed(now + delayMs + advancedTime, id);
      var k := |delayedTasks|;
      assert delayedTasks[..k] == delayedTasks && InsertDelayed(delayedTasks, d) + [] == InsertDelayed(delayedTasks, d);
      while 0 < k && d.deadline < delayedTasks[k - 1].deadline
        invariant 0 <= k <= |delayedTasks| && delayedTasks == old(delayedTasks)
        invariant InsertDelayed(delayedTasks, d) == InsertDelayed(delayedTasks[..k], d) + delayedTasks[k..]
      {
        InsertFurtherLeft(delayedTasks, d, k);
        k := k - 1;
      }
      assert InsertDelayed(delayedTasks[..k], d) == delayedTasks[..k] + [d];
      delayedTasks := delayedTasks[..k] + [d] + delayedTasks[k..];
      assert delayedTasks == InsertDelayed(old(delayedTasks), d);
      WakeUp();
    }

    /** The map lookup: the position of the first entry that is not below `fd`. */
    method FindWatch(fd: int) returns (i: nat)
      ensures i == LowerBound(watchTasks, fd)
    {
      i := 0;
      while i < |watchTasks| && watchTasks[i].fd < fd
        invariant i <= |watchTasks|
        invariant LowerBound(watchTasks, fd) == i + LowerBound(watchTasks[i..], fd)
      {
        i := i + 1;
      }
    }

    method AddFileDescriptorWatch(fd: int, reg: nat)
      modifies this`watchTasks, this`watchTasksChanged, this`eventSignalled
      ensures View() == AddWatch(old(View()), fd, reg).(signalled := true)
    {
      var i := FindWatch(fd);
      var w := Watch(fd, reg, SIZE_MAX);
      if i < |watchTasks| && watchTasks[i].fd == fd {
        watchTasks := watchTasks[i := w];
      } else {
        watchTasks := watchTasks[..i] + [w] + watchTasks[i..];
      }
      watchTasksChanged := true;
      WakeUp();
    }

    method RemoveFileDescriptorWatch(fd: int)
      modifies this`watchTasks, this`watchTasksChanged
      ensures View() == RemoveWatch(old(View()), fd)
    {
      var i := FindWatch(fd);
      if i < |watchTasks| && watchTasks[i].fd == fd {
        watchTasks := watchTasks[..i] + watchTasks[i + 1..];
      }
      watchTasksChanged := true;
    }

    method UpdateWatchTasksLocked()
      modifies this`watchTasks, this`watchTasksChanged, this`pollFds
      ensures View() == UpdateWatches(old(View()))
    {
      if !watchTasksChanged {
        return;
      }
      watchTasksChanged := false;
      pollFds := [];
      for i := 0 to |watchTasks|
        invariant |watchTasks| == |old(watchTasks)| && |pollFds| == i && !watchTasksChanged
        invariant forall k :: 0 <= k < i ==> watchTasks[k] == old(watchTasks)[k].(pollFdIndex := k)
        invariant forall k :: i <= k < |watchTasks| ==> watchTasks[k] == old(watchTasks)[k]
        invariant forall k :: 0 <= k < i ==> pollFds[k] == PollFd(old(watchTasks)[k].fd, false)
      {
        watchTasks := watchTasks[i := watchTasks[i].(pollFdIndex := |pollFds|)];
        pollFds := pollFds + [PollFd(watchTasks[i].fd, false)];
      }
      assert watchTasks == Reindexed(old(watchTasks)) && pollFds == Entries(old(watchTasks));
    }

    method GetDelayMsToNextTaskLocked(now: int) returns (ms: int)
      ensures ms == PollTimeout(View(), now)
      ensures immediateTasks != [] ==> ms == 0
      ensures ms < 0 <==> immediateTasks == [] && delayedTasks == []
    {
      if immediateTasks != [] {
        return 0;
      }
      if delayedTasks != [] {
        var diff := delayedTasks[0].deadline - now - advancedTime;
        return Max(0, ToInt32(diff));
      }
      return -1;
    }

    /** Posts a task for every ready descriptor and has poll ignore it until the task has run. */
    method PostFileDescriptorWatches()
      requires forall i :: 0 <= i < |pollFds| && pollFds[i].revents ==> 0 < pollFds[i].fd
      modifies this`pollFds, this`immediateTasks, this`eventSignalled
      ensures View() == PostWatchesFrom(old(View()), 0)
    {
      for i := 0 to |pollFds|
        invariant |pollFds| == |old(pollFds)|
        invariant PostWatchesFrom(old(View()), 0) == PostWatchesFrom(View(), i)
      {
        ghost var c := View();
        var handle := pollFds[i].fd;
        if !pollFds[i].revents {
          continue;
        }
        pollFds := pollFds[i := pollFds[i].(revents := false)];
        if handle == eventFd {
          eventSignalled := false;
          assert View() == PostWatchAt(c, i);
          continue;
        }
        PostTask(RunWatch(handle));
        pollFds := pollFds[i := pollFds[i].(fd := -pollFds[i].fd)];
        assert pollFds == PostWatchAt(c, i).pollFds;
      }
    }

    /** The tasks to run in this round; `now` is read before the lock is taken. */
    method TakeTasksLocked(now: int) returns (task: Option<Task>, delayed: Option<Delayed>)
      modifies this`immediateTasks, this`delayedTasks
      ensures Popped(View(), task, delayed) == PopTasks(old(View()), now)
      ensures task == if old(immediateTasks) == [] then None else Some(old(immediateTasks)[0])
      ensures delayed == if old(delayedTasks) != [] && old(delayedTasks)[0].deadline <= now + advancedTime
              then Some(old(delayedTasks)[0]) else None
    {
      task, delayed := None, None;
      if immediateTasks != [] {
        task := Some(immediateTasks[0]);
        immediateTasks := immediateTasks[1..];
      }
      if delayedTasks != [] {
        if now + advancedTime >= delayedTasks[0].deadline {
          delayed := Some(delayedTasks[0]);
          delayedTasks := delayedTasks[1..];
        }
      }
    }

    /** Takes the callback of a watch, if it is still registered; both index checks are asserted. */
    method RunFileDescriptorWatch(fd: int) returns (reg: Option<nat>)
      requires Runs.WatchesInv(View())
      modifies this`watchTasks, this`watchTasksChanged, this`pollFds
      ensures Fetched(View(), reg) == FetchWatch(old(View()), fd)
    {
      hide Runs.WatchesInv, LowerBound;
      var i := FindWatch(fd);
      if i == |watchTasks| || watchTasks[i].fd != fd {
        return None;
      }
      Polling.IndexChecksHold(View(), fd);
      UpdateWatchTasksLocked();
      var fdIndex := watchTasks[i].pollFdIndex;
      assert fdIndex < |pollFds|;
      assert Abs(pollFds[fdIndex].fd) == fd;
      pollFds := pollFds[fdIndex := pollFds[fdIndex].(fd := fd)];
      return Some(watchTasks[i].reg);
    }

    /** One round of Run() up to the tasks it starts; None means that the loop ends. */
    method RunRound(now: int, ready: seq<bool>, later: int)
      returns (round: Option<(int, Option<Task>, Option<Delayed>)>)
      requires |ready| == |UpdateWatches(View()).pollFds|
      requires forall i :: 0 <= i < |ready| && ready[i] ==> 0 < UpdateWatches(View()).pollFds[i].fd
      modifies this
      ensures old(quit) ==> round == None && View() == old(View())
      ensures !old(quit) ==>
                var posted := PostWatchesFrom(PollReturned(UpdateWatches(old(View())), ready), 0);
                var p := PopTasks(posted, later);
                View() == p.core && round == Some((PollTimeout(old(View()), now), p.task, p.delayed))
    {
      hide PostWatchesFrom, PopTasks, PollTimeout;
      if quit {
        return None;
      }
      var timeout := GetDelayMsToNextTaskLocked(now);
      UpdateWatchTasksLocked();
      Poll(ready);
      PostFileDescriptorWatches();
      var task, delayed := TakeTasksLocked(later);
      round := Some((timeout, task, delayed));
    }

    /** poll(): the kernel fills in the events. */
    method Poll(ready: seq<bool>)
      requires |ready| == |pollFds|
      modifies this`pollFds
      ensures View() == PollReturned(old(View()), ready)
    {
      pollFds := WithEvents(pollFds, ready);
    }
  }
}
