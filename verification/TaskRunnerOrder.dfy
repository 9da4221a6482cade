/** In which order the task runner starts tasks, and which callbacks of watches it calls. */
module TaskRunnerOrder {
  import opened Common
  import opened TaskQueue
  import opened TaskRunnerRuns

  // ---------------------------------------------------------------- immediate tasks

  lemma FifoStepKeeps(s: State, step: Step)
    requires FifoInv(s) && Enabled(s, step)
    ensures FifoInv(Apply(s, step))
  {
    hide LowerBound, Registered, InsertDelayed, PollTimeout;
    var s' := Apply(s, step);
    match step
    case Post(id) => assert s'.ran + InHand(s') + s'.core.immediate ==
        (s.ran + InHand(s) + s.core.immediate) + [UserTask(id)];
    case PostWatch => assert s'.posted == s.posted || s'.posted ==
        (s.ran + InHand(s) + s.core.immediate) + [s'.posted[|s.posted|]];
    case _ =>
  }

  lemma {:induction false} RunKeepsFifo(s: State, steps: seq<Step>)
    requires FifoInv(s) && CanRun(s, steps)
    ensures FifoInv(Run(s, steps))
    decreases |steps|
  {
    hide FifoInv, Apply, Enabled;
    if steps != [] {
      FifoStepKeeps(s, steps[0]);
      RunKeepsFifo(Apply(s, steps[0]), steps[1..]);
    }
  }

  /** Immediate tasks are started exactly once each, in the order in which they were posted. */
  lemma TasksRunOnceInPostingOrder(s: State, steps: seq<Step>)
    requires Init(s) && CanRun(s, steps)
    ensures var s' := Run(s, steps);
            s'.ran <= s'.posted && |s'.posted| == |s'.ran| + |InHand(s')| + |s'.core.immediate|
  {
    RunKeepsFifo(s, steps);
  }

  /** How many of the posted tasks have been taken from the queue. */
  function Dequeued(s: State): int {
    |s.posted| - |s.core.immediate|
  }

  lemma StepProgress(s: State, step: Step)
    requires FifoInv(s) && Enabled(s, step)
    ensures s.posted <= Apply(s, step).posted
    ensures Dequeued(s) <= Dequeued(Apply(s, step))
    ensures Apply(s, step).iterations == s.iterations + (if step.Dispatch? then 1 else 0)
    ensures step.Dispatch? && s.core.immediate != [] ==> Dequeued(Apply(s, step)) == Dequeued(s) + 1
  {
    hide LowerBound, Registered, InsertDelayed, PollTimeout;
  }

  lemma {:induction false} RunProgress(s: State, steps: seq<Step>, target: nat)
    requires FifoInv(s) && CanRun(s, steps) && target <= |s.posted|
    requires target <= Dequeued(s) || Run(s, steps).iterations >= s.iterations + target - Dequeued(s)
    ensures s.posted <= Run(s, steps).posted && target <= Dequeued(Run(s, steps))
    decreases |steps|
  {
    hide FifoInv, Apply, Enabled;
    if steps != [] {
      var s' := Apply(s, steps[0]);
      FifoStepKeeps(s, steps[0]);
      StepProgress(s, steps[0]);
      RunProgress(s', steps[1..], target);
    }
  }

  /**
   The task at position k of the queue is taken within the next k + 1 rounds of the loop, whatever
   else is posted, becomes due or is watched meanwhile.
   */
  lemma NoStarvation(s: State, steps: seq<Step>, k: nat)
    requires FifoInv(s) && CanRun(s, steps) && k < |s.core.immediate|
    requires Run(s, steps).iterations >= s.iterations + k + 1
    ensures var s' := Run(s, steps);
            var n := Dequeued(s) + k;
            && 0 <= n < |s'.ran + InHand(s')|
            && (s'.ran + InHand(s'))[n] == s.core.immediate[k]
  {
    var n := Dequeued(s) + k;
    RunProgress(s, steps, n + 1);
    RunKeepsFifo(s, steps);
    var s' := Run(s, steps);
    assert s.posted == s.ran + InHand(s) + s.core.immediate;
    assert s'.posted == (s'.ran + InHand(s')) + s'.core.immediate;
    assert s.posted[n] == s.core.immediate[k] && s'.posted[n] == s.posted[n];
  }

  // ---------------------------------------------------------------- the delayed queue

  /** The new element goes after all that are not later and before all that are. */
  lemma {:induction false} InsertPosition(q: seq<Delayed>, d: Delayed) returns (k: nat)
    requires Sorted(q)
    ensures k <= |q| && InsertDelayed(q, d) == q[..k] + [d] + q[k..]
    ensures forall i :: 0 <= i < k ==> q[i].deadline <= d.deadline
    ensures forall i :: k <= i < |q| ==> d.deadline < q[i].deadline
    decreases |q|
  {
    if q == [] || q[|q| - 1].deadline <= d.deadline {
      k := |q|;
      assert forall i :: 0 <= i < k - 1 ==> Before(q[i], q[k - 1]);
    } else {
      var front, last := q[..|q| - 1], q[|q| - 1];
      k := InsertPosition(front, d);
      assert front[..k] + [d] + front[k..] + [last] == q[..k] + [d] + q[k..];
    }
  }

  /** Inserting behind a sorted prefix, at the place of insertion, keeps the whole sorted. */
  lemma InsertedSorted(pre: seq<Delayed>, q: seq<Delayed>, d: Delayed, k: nat)
    requires Sorted(pre + q) && k <= |q|
    requires forall i :: 0 <= i < |pre| ==> pre[i].deadline <= d.deadline
    requires forall i :: 0 <= i < k ==> q[i].deadline <= d.deadline
    requires forall i :: k <= i < |q| ==> d.deadline < q[i].deadline
    requires forall x :: x in pre || x in q ==> x.id < d.id
    ensures Sorted(pre + (q[..k] + [d] + q[k..]))
  {
    var all, all' := pre + q, pre + (q[..k] + [d] + q[k..]);
    var m := |pre| + k;
    assert forall i :: 0 <= i < m ==> all'[i] == all[i] && Before(all'[i], d);
    assert forall i :: m < i < |all'| ==> all'[i] == all[i - 1] && Before(d, all'[i]);
    assert all'[m] == d;
  }

  lemma StartedOne(taken: seq<Taken>, t: Taken)
    ensures Started(taken + [t]) == Started(taken) + [t.d]
  {
  }

  lemma DispatchMovesTheFirst(s: State)
    requires Enabled(s, Dispatch)
    ensures var s' := Apply(s, Dispatch);
            Started(s'.taken) + s'.core.delayed == Started(s.taken) + s.core.delayed && |s.taken| <= |s'.taken|
  {
    var s' := Apply(s, Dispatch);
    if s'.phase.delayed.Some? {
      var d := s.core.delayed[0];
      StartedOne(s.taken, Taken(d, s.phase.clock + s.core.advanced));
      assert Started(s.taken) + [d] + s.core.delayed[1..] == Started(s.taken) + s.core.delayed;
    }
  }

  /** A step other than PostDelayed and Dispatch leaves the delayed tasks alone. */
  lemma DelayedUntouched(s: State, step: Step)
    requires Enabled(s, step) && !step.PostDelayed? && !step.Dispatch?
    ensures var s' := Apply(s, step);
            && s'.core.delayed == s.core.delayed && s'.taken == s.taken
            && s'.nextDelayed == s.nextDelayed && s'.earlyPost == s.earlyPost
  {
    hide LowerBound, Registered, InsertDelayed, PollTimeout;
  }

  predicate DelayedInv(s: State) {
    IdsInv(s) && OrderInv(s) && DisorderInv(s)
  }

  lemma InsertKeepsIds(q: seq<Delayed>, d: Delayed)
    requires Sorted(q) && forall x :: x in q ==> x.id < d.id
    ensures Sorted(InsertDelayed(q, d)) && forall x :: x in InsertDelayed(q, d) ==> x.id <= d.id
  {
    hide InsertDelayed;
    var k := InsertPosition(q, d);
    assert [] + q == q;
    InsertedSorted([], q, d, k);
    assert [] + (q[..k] + [d] + q[k..]) == InsertDelayed(q, d);
  }

  lemma IdsKept(s: State, step: Step)
    requires IdsInv(s) && Enabled(s, step)
    ensures IdsInv(Apply(s, step))
  {
    hide InsertDelayed, LowerBound, Registered, PollTimeout, UpdateWatches, FetchWatch, AddWatch, RemoveWatch,
         PostWatchAt;
    if step.PostDelayed? {
      InsertKeepsIds(s.core.delayed, Delayed(step.deadline, s.nextDelayed));
    } else if !step.Dispatch? {
      DelayedUntouched(s, step);
    }
  }

  lemma InsertKeepsOrder(started: seq<Delayed>, q: seq<Delayed>, d: Delayed)
    requires Sorted(q) && Sorted(started + q) && forall x :: x in started || x in q ==> x.id < d.id
    requires started != [] ==> started[|started| - 1].deadline <= d.deadline
    ensures Sorted(started + InsertDelayed(q, d))
  {
    hide InsertDelayed;
    var k := InsertPosition(q, d);
    forall i | 0 <= i < |started|
      ensures started[i].deadline <= d.deadline
    {
      assert i < |started| - 1 ==> Before((started + q)[i], (started + q)[|started| - 1]);
    }
    InsertedSorted(started, q, d, k);
  }

  lemma InsertKeepsDisorder(started: seq<Delayed>, q: seq<Delayed>, d: Delayed)
    requires Sorted(q)
    requires Inverted(started, q) || (started != [] && d.deadline < started[|started| - 1].deadline)
    ensures Inverted(started, InsertDelayed(q, d))
  {
    hide InsertDelayed;
    var k := InsertPosition(q, d);
    var all, all', m := started + q, started + InsertDelayed(q, d), |started| + k;
    assert all' == all[..m] + [d] + all[m..];
    if Inverted(started, q) {
      var i, j :| 0 <= i < j < |all| && i < |started| && all[j].deadline < all[i].deadline;
      assert all'[if j < m then j else j + 1] == all[j] && all'[i] == all[i];
    } else {
      assert all'[m] == d && all'[|started| - 1] == started[|started| - 1];
    }
  }

  lemma DelayedKeptByPost(s: State, deadline: int)
    requires DelayedInv(s)
    ensures OrderInv(Apply(s, PostDelayed(deadline))) && DisorderInv(Apply(s, PostDelayed(deadline)))
  {
    hide InsertDelayed, Inverted, Sorted;
    var s', d := Apply(s, PostDelayed(deadline)), Delayed(deadline, s.nextDelayed);
    if s'.earlyPost {
      InsertKeepsDisorder(Started(s.taken), s.core.delayed, d);
    } else {
      InsertKeepsOrder(Started(s.taken), s.core.delayed, d);
    }
  }

  lemma DelayedStepKeeps(s: State, step: Step)
    requires DelayedInv(s) && Enabled(s, step)
    ensures DelayedInv(Apply(s, step))
  {
    IdsKept(s, step);
    if step.PostDelayed? {
      DelayedKeptByPost(s, step.deadline);
    } else if step.Dispatch? {
      DispatchMovesTheFirst(s);
    } else {
      DelayedUntouched(s, step);
    }
  }

  lemma {:induction false} RunKeepsDelayed(s: State, steps: seq<Step>)
    requires DelayedInv(s) && CanRun(s, steps)
    ensures DelayedInv(Run(s, steps))
    decreases |steps|
  {
    hide DelayedInv, Apply, Enabled;
    if steps != [] {
      DelayedStepKeeps(s, steps[0]);
      RunKeepsDelayed(Apply(s, steps[0]), steps[1..]);
    }
  }

  lemma DueStepKeeps(s: State, step: Step)
    requires DueInv(s) && Enabled(s, step)
    ensures DueInv(Apply(s, step))
  {
    hide LowerBound, Registered, InsertDelayed, PollTimeout;
  }

  lemma {:induction false} RunKeepsDue(s: State, steps: seq<Step>)
    requires DueInv(s) && CanRun(s, steps)
    ensures DueInv(Run(s, steps))
    decreases |steps|
  {
    hide DueInv, Apply, Enabled;
    if steps != [] {
      DueStepKeeps(s, steps[0]);
      RunKeepsDue(Apply(s, steps[0]), steps[1..]);
    }
  }

  /** No delayed task is started before its deadline: right after its start the clock has reached it. */
  lemma NeverEarly(s: State, steps: seq<Step>)
    requires Init(s) && CanRun(s, steps)
    ensures var s' := Run(s, steps);
            forall t :: t in s'.taken ==> t.d.deadline <= t.clock <= s'.now + s'.core.advanced
  {
    RunKeepsDue(s, steps);
  }

  /**
   What was started, followed by what is still queued, is in the order of deadlines, ties in posting
   order, if and only if no post ever carried a deadline before one already started.
   */
  lemma DelayedOrderExactly(s: State, steps: seq<Step>)
    requires Init(s) && CanRun(s, steps)
    ensures var s' := Run(s, steps); Sorted(Started(s'.taken) + s'.core.delayed) <==> !s'.earlyPost
  {
    assert Started(s.taken) + s.core.delayed == [];
    RunKeepsDelayed(s, steps);
  }

  /** Every PostDelayedTask computes its deadline from the clock as it is when the task is inserted. */
  predicate AtomicPosts(s: State, steps: seq<Step>)
    requires CanRun(s, steps)
    decreases |steps|
  {
    steps != [] ==>
      && (steps[0].PostDelayed? ==> s.now + s.core.advanced <= steps[0].deadline)
      && AtomicPosts(Apply(s, steps[0]), steps[1..])
  }

  lemma {:induction false} AtomicPostsAreNeverEarly(s: State, steps: seq<Step>)
    requires DueInv(s) && !s.earlyPost && CanRun(s, steps) && AtomicPosts(s, steps)
    ensures !Run(s, steps).earlyPost
    decreases |steps|
  {
    hide LowerBound, Registered, InsertDelayed, PollTimeout;
    if steps != [] {
      DueStepKeeps(s, steps[0]);
      AtomicPostsAreNeverEarly(Apply(s, steps[0]), steps[1..]);
    }
  }

  /** With a monotone clock and atomic posts, delayed tasks start in deadline order, ties in posting order. */
  lemma DelayedTasksRunInOrder(s: State, steps: seq<Step>)
    requires Init(s) && CanRun(s, steps) && AtomicPosts(s, steps)
    ensures Sorted(Started(Run(s, steps).taken) + Run(s, steps).core.delayed)
  {
    hide Run, CanRun, AtomicPosts;
    assert Started(s.taken) + s.core.delayed == [];
    RunKeepsDelayed(s, steps);
    AtomicPostsAreNeverEarly(s, steps);
  }

  // ---------------------------------------------------------------- callbacks of watches

  /** A registration is in force. */
  predicate InForce(ws: seq<TaskQueue.Watch>, reg: nat) {
    exists i :: 0 <= i < |ws| && ws[i].reg == reg
  }

  /** Registrations survive as they are, except that `gone` may go and `newReg` may come. */
  predicate Evolves(ws: seq<TaskQueue.Watch>, ws': seq<TaskQueue.Watch>, gone: Option<nat>, newReg: nat) {
    && (forall i :: 0 <= i < |ws'| ==> ws'[i].reg == newReg || (InForce(ws, ws'[i].reg) && Some(ws'[i].reg) != gone))
    && (forall i, j :: 0 <= i < j < |ws'| ==> ws'[i].reg != ws'[j].reg)
  }

  predicate DistinctRegs(ws: seq<TaskQueue.Watch>) {
    forall i, j :: 0 <= i < j < |ws| ==> ws[i].reg != ws[j].reg
  }

  function RegOf(ws: seq<TaskQueue.Watch>, fd: int): Option<nat> {
    if Registered(ws, fd) then Some(ws[LowerBound(ws, fd)].reg) else None
  }

  lemma AddEvolves(c: Core, fd: int, reg: nat)
    requires DistinctRegs(c.watches) && !InForce(c.watches, reg)
    ensures Evolves(c.watches, AddWatch(c, fd, reg).watches, RegOf(c.watches, fd), reg)
  {
    hide LowerBound, DistinctRegs, Evolves, InForce;
    var ws, k, w := c.watches, LowerBound(c.watches, fd), TaskQueue.Watch(fd, reg, SIZE_MAX);
    if Registered(ws, fd) {
      WithOneReplacedEvolves(ws, k, w);
    } else {
      WithOneMoreEvolves(ws, k, w);
    }
  }

  lemma WithOneReplacedEvolves(ws: seq<TaskQueue.Watch>, k: nat, w: TaskQueue.Watch)
    requires DistinctRegs(ws) && k < |ws| && !InForce(ws, w.reg)
    ensures Evolves(ws, ws[k := w], Some(ws[k].reg), w.reg)
  {
    assert forall i :: 0 <= i < |ws| ==> InForce(ws, ws[i].reg);
  }

  lemma WithOneMoreEvolves(ws: seq<TaskQueue.Watch>, k: nat, w: TaskQueue.Watch)
    requires DistinctRegs(ws) && k <= |ws| && !InForce(ws, w.reg)
    ensures Evolves(ws, ws[..k] + [w] + ws[k..], None, w.reg)
  {
    assert forall i :: 0 <= i < |ws| ==> InForce(ws, ws[i].reg);
    var ws' := ws[..k] + [w] + ws[k..];
    assert forall i :: 0 <= i < |ws'| ==> ws'[i] == if i < k then ws[i] else if i == k then w else ws[i - 1];
  }

  lemma RemoveEvolves(c: Core, fd: int, reg: nat)
    requires DistinctRegs(c.watches)
    ensures Evolves(c.watches, RemoveWatch(c, fd).watches, RegOf(c.watches, fd), reg)
  {
    hide LowerBound, DistinctRegs, Evolves;
    if Registered(c.watches, fd) {
      WithoutOneEvolves(c.watches, LowerBound(c.watches, fd), reg);
    } else {
      SameEvolves(c.watches, reg);
    }
  }

  lemma SameEvolves(ws: seq<TaskQueue.Watch>, reg: nat)
    requires DistinctRegs(ws)
    ensures Evolves(ws, ws, None, reg)
  {
    assert forall i :: 0 <= i < |ws| ==> InForce(ws, ws[i].reg);
  }

  lemma WithoutOneEvolves(ws: seq<TaskQueue.Watch>, k: nat, reg: nat)
    requires DistinctRegs(ws) && k < |ws|
    ensures Evolves(ws, ws[..k] + ws[k + 1..], Some(ws[k].reg), reg)
  {
    var ws' := ws[..k] + ws[k + 1..];
    assert forall i :: 0 <= i < |ws'| ==> ws'[i] == ws[if i < k then i else i + 1];
    forall i | 0 <= i < |ws'|
      ensures InForce(ws, ws'[i].reg) && ws'[i].reg != ws[k].reg
    {
      assert ws'[i] == ws[if i < k then i else i + 1];
    }
  }

  lemma FetchTakesRegistered(c: Core, fd: int)
    ensures var f := FetchWatch(c, fd);
            && f.reg == RegOf(c.watches, fd)
            && |f.core.watches| == |c.watches|
            && forall i :: 0 <= i < |c.watches| ==> f.core.watches[i].reg == c.watches[i].reg
  {
  }

  /** Appending to the log: a withdrawn registration is not called later. */
  lemma LogGrows(s: State, gone: Option<nat>, more: seq<WatchEvent>, s': State)
    requires CallbackInv(s) && s.nextReg <= s'.nextReg
    requires gone.Some? ==> InForce(s.core.watches, gone.value)
    requires Evolves(s.core.watches, s'.core.watches, gone, s.nextReg)
    requires s'.nextReg == s.nextReg ==> !InForce(s'.core.watches, s.nextReg)
    requires s'.watchLog == s.watchLog + (if gone.Some? then [Unregistering(gone.value)] else []) + more
    requires forall i :: 0 <= i < |more| ==> more[i].Registering?
    ensures CallbackInv(s')
  {
    assert forall i :: 0 <= i < |s'.core.watches| ==> InForce(s'.core.watches, s'.core.watches[i].reg);
    forall i | 0 <= i < |s'.core.watches|
      ensures s'.core.watches[i].reg < s'.nextReg && Unregistering(s'.core.watches[i].reg) !in s'.watchLog
    {
    }
  }

  lemma CallbackKeptByFetch(s: State)
    requires CallbackInv(s) && Enabled(s, RunWatchTask)
    ensures CallbackInv(Apply(s, RunWatchTask))
  {
    hide FetchWatch, LowerBound;
    FetchTakesRegistered(s.core, s.phase.task.value.fd);
  }

  lemma CallbackKeptByWatch(s: State, fd: int)
    requires CallbackInv(s) && Enabled(s, Step.Watch(fd))
    ensures CallbackInv(Apply(s, Step.Watch(fd)))
  {
    hide LowerBound, AddWatch;
    assert !InForce(s.core.watches, s.nextReg);
    AddEvolves(s.core, fd, s.nextReg);
    LogGrows(s, RegOf(s.core.watches, fd), [Registering(s.nextReg)], Apply(s, Step.Watch(fd)));
  }

  lemma CallbackKeptByUnwatch(s: State, fd: int)
    requires CallbackInv(s) && Enabled(s, Unwatch(fd))
    ensures CallbackInv(Apply(s, Unwatch(fd)))
  {
    hide LowerBound, RemoveWatch;
    RemoveEvolves(s.core, fd, s.nextReg);
    RemovedStaysOut(s.core, fd, s.nextReg);
    LogGrows(s, RegOf(s.core.watches, fd), [], Apply(s, Unwatch(fd)));
  }

  lemma CallbackStepKeeps(s: State, step: Step)
    requires CallbackInv(s) && Enabled(s, step)
    ensures CallbackInv(Apply(s, step))
  {
    hide LowerBound, FetchWatch, AddWatch, RemoveWatch, InsertDelayed, PollTimeout, Registrations, CallbackInv;
    if step.Watch? {
      CallbackKeptByWatch(s, step.fd);
    } else if step.Unwatch? {
      CallbackKeptByUnwatch(s, step.fd);
    } else if step.RunWatchTask? {
      CallbackKeptByFetch(s);
    } else {
      SameRegistrations(s, Apply(s, step));
    }
  }

  lemma SameRegistrations(s: State, s': State)
    requires CallbackInv(s) && s'.nextReg == s.nextReg && s'.watchLog == s.watchLog
    requires |s'.core.watches| == |s.core.watches|
    requires forall i :: 0 <= i < |s.core.watches| ==> s'.core.watches[i].reg == s.core.watches[i].reg
    ensures CallbackInv(s')
  {
  }

  lemma RemovedStaysOut(c: Core, fd: int, reg: nat)
    requires !InForce(c.watches, reg)
    ensures !InForce(RemoveWatch(c, fd).watches, reg)
  {
    hide LowerBound;
  }

  lemma {:induction false} RunKeepsCallbacks(s: State, steps: seq<Step>)
    requires CallbackInv(s) && CanRun(s, steps)
    ensures CallbackInv(Run(s, steps))
    decreases |steps|
  {
    hide CallbackInv, Apply, Enabled;
    if steps != [] {
      CallbackStepKeeps(s, steps[0]);
      RunKeepsCallbacks(Apply(s, steps[0]), steps[1..]);
    }
  }

  /** Once a watch has been removed or replaced, no task takes its callback again. */
  lemma RemovedWatchIsNeverCalled(s: State, steps: seq<Step>, i: nat, j: nat)
    requires Init(s) && CanRun(s, steps)
    requires i < j < |Run(s, steps).watchLog| && Run(s, steps).watchLog[i].Unregistering?
    ensures Run(s, steps).watchLog[j] != Calling(Run(s, steps).watchLog[i].reg)
  {
    RunKeepsCallbacks(s, steps);
  }

  // ---------------------------------------------------------------- the poll timeout

  /** The delay to the earliest deadline, before it is cast to 32 bits. */
  function Delay(c: Core, now: int): int
    requires c.delayed != []
  {
    c.delayed[0].deadline - now - c.advanced
  }

  /**
   The loop sleeps past the earliest deadline exactly when that deadline is long overdue and its
   low 32 bits happen to be a positive int; otherwise it may wake early, when the delay does not fit
   an int, but never late.
   */
  lemma TimeoutExactly(c: Core, now: int)
    requires c.immediate == [] && c.delayed != []
    ensures var delay, timeout := Delay(c, now), PollTimeout(c, now);
            && (timeout > Max(0, delay) <==> delay < 0 && 0 < delay % TWO_TO_THE_32 < 0x8000_0000)
            && (timeout < Max(0, delay) <==> 0x7fff_ffff < delay)
            && (-0x8000_0000 <= delay ==> timeout <= Max(0, delay))
  {
    var delay := Delay(c, now);
    var low, high := delay % TWO_TO_THE_32, delay / TWO_TO_THE_32;
    CastKeepsLowBits(low, high);
    assert delay == low + TWO_TO_THE_32 * high;
  }

  /** One millisecond of sleep although the deadline was 2^32 - 1 ms ago, none although it is 2^31 ms ahead. */
  lemma TimeoutExamples(late: Core, soon: Core)
    requires late.immediate == soon.immediate == [] && late.advanced == soon.advanced == 0
    requires late.delayed == [Delayed(0, 0)] && soon.delayed == [Delayed(0x8000_0000, 0)]
    ensures PollTimeout(late, 0xffff_ffff) == 1 && PollTimeout(soon, 0) == 0
  {
    CastKeepsLowBits(1, -1);
    CastKeepsLowBits(0x8000_0000, 0);
  }

  lemma CastKeepsLowBits(low: int, high: int)
    requires 0 <= low < TWO_TO_THE_32
    ensures ToInt32(low + TWO_TO_THE_32 * high) == if low < 0x8000_0000 then low else low - TWO_TO_THE_32
  {
    var x := low + 0x8000_0000 + TWO_TO_THE_32 * high;
    if low < 0x8000_0000 {
      assert x / TWO_TO_THE_32 == high;
    } else {
      assert x == low - 0x8000_0000 + TWO_TO_THE_32 * (high + 1);
      assert x / TWO_TO_THE_32 == high + 1;
    }
  }
}
