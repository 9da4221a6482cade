/** What every run of the meta-tracing ring buffer guarantees. */
module MetatraceRuns {
  import opened Common
  import opened Metatrace

  lemma {:induction false} RunIsMonotone(s: Ring, steps: seq<Step>)
    requires CanRun(s, steps)
    ensures s.started <= Run(s, steps).started
    decreases |steps|
  {
    if steps != [] {
      RunIsMonotone(Apply(s, steps[0]), steps[1..]);
    }
  }

  /** Whatever the reader does. */
  lemma {:induction false} RunKeeps(s: Ring, steps: seq<Step>)
    requires Inv(s) && CanRun(s, steps) && Small(Run(s, steps))
    ensures Inv(Run(s, steps))
    decreases |steps|
  {
    hide Inv, Apply, Enabled;
    if steps != [] {
      RunIsMonotone(s, steps);
      StepKeeps(s, steps[0]);
      RunKeeps(Apply(s, steps[0]), steps[1..]);
    }
  }

  lemma NothingInFlight(s: Ring)
    requires s.appends == map[]
    ensures Returning(s.rd, s.appends) == {} && Settled(s) == s.wr
    ensures forall t :: !Stays(s.rd, s.appends, t)
  {
  }

  lemma ResetInv(s: Ring)
    requires s.appends == map[] && s.granted == {} && s.wr == s.rd == s.started == s.bankrupt == s.grants == 0
    requires !s.duplicate && !s.readTaskQueued && s.readTasks == 0 && s.reader == None
    ensures Inv(s) && Safe(s)
  {
    NothingInFlight(s);
  }

  // ---------------------------------------------------------------- safe runs

  predicate ReaderStill(steps: seq<Step>) {
    forall i :: 0 <= i < |steps| ==> steps[i] != EndRead
  }

  /** The state is safe whenever the reader has stored its position. */
  ghost predicate SafeStores(s: Ring, steps: seq<Step>)
    requires CanRun(s, steps)
    decreases |steps|
  {
    steps != [] ==>
      && (steps[0] == EndRead ==> Safe(Apply(s, steps[0])))
      && SafeStores(Apply(s, steps[0]), steps[1..])
  }

  lemma {:induction false} RunIsSafe(s: Ring, steps: seq<Step>)
    requires Inv(s) && Safe(s) && CanRun(s, steps) && Small(Run(s, steps)) && SafeStores(s, steps)
    ensures Inv(Run(s, steps)) && Safe(Run(s, steps))
    decreases |steps|
  {
    hide Inv, Safe, Apply, Enabled;
    if steps != [] {
      RunIsMonotone(s, steps);
      StepKeeps(s, steps[0]);
      if steps[0] != EndRead {
        StepIsSafe(s, steps[0]);
      }
      RunIsSafe(Apply(s, steps[0]), steps[1..]);
    }
  }

  lemma {:induction false} StillIsSafe(s: Ring, steps: seq<Step>)
    requires CanRun(s, steps) && ReaderStill(steps)
    ensures SafeStores(s, steps) && Run(s, steps).rd == s.rd
    decreases |steps|
  {
    if steps != [] {
      StillIsSafe(Apply(s, steps[0]), steps[1..]);
    }
  }

  function Slot(index: nat): nat {
    index % CAPACITY
  }

  lemma DifferentSlots(i: nat, j: nat, rd: nat)
    requires rd <= i < j < rd + CAPACITY
    ensures Slot(i) != Slot(j)
  {
    assert i == CAPACITY * (i / CAPACITY) + Slot(i) && j == CAPACITY * (j / CAPACITY) + Slot(j);
  }

  lemma UnreadSlotsDiffer(s: Ring)
    requires Inv(s)
    ensures forall i, j :: i in s.granted && j in s.granted && s.rd <= i < j ==> Slot(i) != Slot(j)
  {
    forall i, j | i in s.granted && j in s.granted && s.rd <= i < j
      ensures Slot(i) != Slot(j)
    {
      DifferentSlots(i, j, s.rd);
    }
  }

  /**
   From Reset, in every interleaving in which the state is safe whenever the reader has stored its
   position: no index is handed out twice, and unread records occupy different slots.
   */
  lemma AppendsGetDifferentRecords(steps: seq<Step>)
    requires CanRun(RESET, steps) && Small(Run(RESET, steps)) && SafeStores(RESET, steps)
    ensures var s := Run(RESET, steps);
            && !s.duplicate && |s.granted| == s.grants
            && forall i, j :: i in s.granted && j in s.granted && s.rd <= i < j ==> Slot(i) != Slot(j)
  {
    hide Run, CanRun, SafeStores, Inv, Safe;
    ResetInv(RESET);
    RunIsSafe(RESET, steps);
    UnreadSlotsDiffer(Run(RESET, steps));
    InvGivesCounts(Run(RESET, steps));
  }

  lemma InvGivesCounts(s: Ring)
    requires Inv(s)
    ensures Safe(s) ==> !s.duplicate
    ensures s.started == s.wr + s.bankrupt && (!s.duplicate ==> |s.granted| == s.grants)
    ensures forall i :: i in s.granted ==> i < s.rd + CAPACITY
  {
  }

  // ---------------------------------------------------------------- no overrun

  /** The append has found the buffer full. */
  predicate Overran(a: Append) {
    a.RollingBack? || (a.Slow? && a.size >= CAPACITY)
  }

  /** No append ever finds the buffer full. */
  predicate NoOverrun(s: Ring, steps: seq<Step>)
    requires CanRun(s, steps)
    decreases |steps|
  {
    && (forall t :: t in s.appends ==> !Overran(s.appends[t]))
    && (steps == [] || NoOverrun(Apply(s, steps[0]), steps[1..]))
  }

  /** All indices, handed out or in flight, are different ones below wr. */
  predicate Clean(s: Ring) {
    && !s.duplicate
    && (forall i :: i in s.granted ==> i < s.wr)
    && (forall t :: t in s.appends ==> s.appends[t].index < s.wr && s.appends[t].index !in s.granted)
    && (forall t, u :: t in s.appends && u in s.appends && t != u ==> s.appends[t].index != s.appends[u].index)
  }

  lemma StepIsClean(s: Ring, step: Step)
    requires Clean(s) && Enabled(s, step) && forall t :: t in s.appends ==> !Overran(s.appends[t])
    ensures Clean(Apply(s, step))
  {
  }

  lemma {:induction false} NoOverrunIsClean(s: Ring, steps: seq<Step>)
    requires CanRun(s, steps) && NoOverrun(s, steps) && Clean(s)
    ensures Clean(Run(s, steps))
    decreases |steps|
  {
    hide Clean, Apply, Enabled;
    if steps != [] {
      StepIsClean(s, steps[0]);
      NoOverrunIsClean(Apply(s, steps[0]), steps[1..]);
    }
  }

  /** Without overruns the reader may advance at any time. */
  lemma NoOverrunNoDuplicate(steps: seq<Step>)
    requires CanRun(RESET, steps) && NoOverrun(RESET, steps) && Small(Run(RESET, steps))
    ensures var s := Run(RESET, steps);
            && !s.duplicate && |s.granted| == s.grants
            && forall i, j :: i in s.granted && j in s.granted && s.rd <= i < j ==> Slot(i) != Slot(j)
  {
    hide Run, CanRun, NoOverrun, Inv, Safe;
    ResetInv(RESET);
    RunKeeps(RESET, steps);
    NoOverrunIsClean(RESET, steps);
    UnreadSlotsDiffer(Run(RESET, steps));
    InvGivesCounts(Run(RESET, steps));
  }

  // ---------------------------------------------------------------- the reader stands still

  lemma {:induction false} InitialSegment(g: set<nat>, n: nat)
    requires |g| == n && forall i :: i in g ==> i < n
    ensures forall i: nat :: i in g <==> i < n
  {
    if n > 0 {
      if n - 1 !in g {
        FitsBelow(g, n - 1);
      }
      var less := g - {n - 1};
      assert forall i :: i in less ==> i < n - 1;
      InitialSegment(less, n - 1);
    }
  }

  lemma {:induction false} FitsBelow(g: set<nat>, n: nat)
    requires forall i :: i in g ==> i < n
    ensures |g| <= n
  {
    if n == 0 {
      assert g == {};
    } else {
      FitsBelow(g - {n - 1}, n - 1);
    }
  }

  /** With nothing in flight, the indices handed out are exactly those below wr. */
  lemma QuiescentGrants(s: Ring)
    requires Inv(s) && Safe(s) && s.appends == map[]
    ensures (forall i: nat :: i in s.granted <==> i < s.wr) && s.grants == s.wr
  {
    NothingInFlight(s);
    InitialSegment(s.granted, s.wr);
  }

  /** Something has gone back or will, only because the window was full. */
  ghost predicate FullInv(s: Ring) {
    0 < s.bankrupt || Returning(s.rd, s.appends) != {} ==> s.rd + CAPACITY <= Settled(s)
  }

  lemma FetchAddKeepsFull(s: Ring, t: ThreadId)
    requires Inv(s) && Small(s) && Safe(s) && FullInv(s) && Enabled(s, FetchAdd(t))
    ensures FullInv(Apply(s, FetchAdd(t)))
  {
    hide IndicesOk, Apart, Returning;
    ReaderIsBelow(s);
    SizeOf(s, s.wr);
    var h := Returning(s.rd, s.appends);
    assert |h| > 0 <==> h != {};
    if s.wr < s.rd + CAPACITY {
      NewcomerStays(s.rd, s.appends, s.granted, t, s.wr);
    } else {
      NewcomerReturns(s.rd, s.appends, s.granted, t, s.wr, Settled(s));
    }
  }

  lemma StepKeepsFull(s: Ring, step: Step)
    requires Inv(s) && Small(s) && Safe(s) && FullInv(s) && Enabled(s, step) && step != EndRead
    ensures FullInv(Apply(s, step))
  {
    hide Inv, Safe, Returning, Apply;
    if step.FetchAdd? {
      FetchAddKeepsFull(s, step.t);
    } else {
      ReturningAfter(s, step);
      CountersAfter(s, step);
    }
  }

  lemma CountersAfter(s: Ring, step: Step)
    requires Enabled(s, step) && step != EndRead && !step.FetchAdd?
    ensures var s', n := Apply(s, step), if step.FetchSub? then 1 else 0;
            s'.rd == s.rd && s'.wr == s.wr - n && s'.bankrupt == s.bankrupt + n
  {
  }

  lemma ReplacedReturns(rd: nat, appends: map<ThreadId, Append>, t: ThreadId, a: Append)
    requires t in appends && (GoesBack(rd, a) <==> GoesBack(rd, appends[t]))
    ensures Returning(rd, appends[t := a]) == Returning(rd, appends)
  {
  }

  lemma RemovedReturns(rd: nat, appends: map<ThreadId, Append>, t: ThreadId)
    requires t in appends
    ensures Returning(rd, appends - {t}) == Returning(rd, appends) - {t}
    ensures !GoesBack(rd, appends[t]) ==> Returning(rd, appends - {t}) == Returning(rd, appends)
    ensures GoesBack(rd, appends[t]) ==> t in Returning(rd, appends)
  {
  }

  /** A step replaces one append by its next stage, or removes it, and does not change whether it goes back. */
  lemma AppendsAfter(s: Ring, step: Step)
    requires Enabled(s, step) && step != EndRead && !step.FetchAdd?
    ensures var s' := Apply(s, step);
            && s'.rd == s.rd
            && (step.FetchSub? ==>
                  step.t in s.appends && s'.appends == s.appends - {step.t} && GoesBack(s.rd, s.appends[step.t]))
            && (!step.FetchSub? && s'.appends != s.appends ==>
                  && (step.LoadReadIndex? || step.QueueReadTask?) && step.t in s.appends
                  && if step.t in s'.appends
                     then
                       && s'.appends == s.appends[step.t := s'.appends[step.t]]
                       && (GoesBack(s.rd, s'.appends[step.t]) <==> GoesBack(s.rd, s.appends[step.t]))
                     else s'.appends == s.appends - {step.t} && !GoesBack(s.rd, s.appends[step.t]))
  {
  }

  lemma ReturningAfter(s: Ring, step: Step)
    requires Enabled(s, step) && step != EndRead && !step.FetchAdd?
    ensures var s', h := Apply(s, step), Returning(s.rd, s.appends);
            && Returning(s'.rd, s'.appends) == (if step.FetchSub? then h - {step.t} else h)
            && (step.FetchSub? ==> step.t in h)
  {
    hide Returning, Apply, GoesBack;
    AppendsAfter(s, step);
    var s' := Apply(s, step);
    if s'.appends != s.appends {
      if step.t in s'.appends {
        ReplacedReturns(s.rd, s.appends, step.t, s'.appends[step.t]);
      } else {
        RemovedReturns(s.rd, s.appends, step.t);
      }
    }
  }

  lemma {:induction false} RunKeepsFull(s: Ring, steps: seq<Step>)
    requires Inv(s) && Safe(s) && FullInv(s) && CanRun(s, steps) && Small(Run(s, steps)) && ReaderStill(steps)
    ensures FullInv(Run(s, steps))
    decreases |steps|
  {
    hide Inv, Safe, FullInv, Apply, Enabled;
    if steps != [] {
      RunIsMonotone(s, steps);
      StepKeeps(s, steps[0]);
      StepIsSafe(s, steps[0]);
      StepKeepsFull(s, steps[0]);
      RunKeepsFull(Apply(s, steps[0]), steps[1..]);
    }
  }

  /**
   With the reader standing still, n completed appends give min(n, CAPACITY) records in different
   slots, the other appends get the bankruptcy record, and wr ends at min(n, CAPACITY).
   */
  lemma BankruptcyCount(steps: seq<Step>)
    requires CanRun(RESET, steps) && ReaderStill(steps)
    requires Run(RESET, steps).appends == map[] && Small(Run(RESET, steps))
    ensures var s := Run(RESET, steps);
            && s.grants == s.wr == |s.granted| == Min(s.started, CAPACITY)
            && s.bankrupt == s.started - Min(s.started, CAPACITY)
            && (forall i: nat :: i in s.granted <==> i < Min(s.started, CAPACITY))
  {
    hide Run, CanRun, ReaderStill, SafeStores, Inv, Safe, Returning;
    StillIsSafe(RESET, steps);
    ResetInv(RESET);
    NothingInFlight(RESET);
    RunIsSafe(RESET, steps);
    RunKeepsFull(RESET, steps);
    var s := Run(RESET, steps);
    QuiescentGrants(s);
    NothingInFlight(s);
    InvGivesCounts(s);
    assert s.wr > 0 ==> s.wr - 1 in s.granted;
  }
}
