/** When the read task of the meta-tracing ring buffer is posted, what the reader gets, and what overruns mean. */
module MetatraceTasks {
  import opened Common
  import opened Metatrace
  import opened MetatraceRuns
  import Exact = MetatraceExact

  // ---------------------------------------------------------------- the overrun flag

  /** Some append is on its way back, or got the bankruptcy record. */
  ghost predicate Overran(s: Ring) {
    0 < s.bankrupt || exists t :: t in s.appends && s.appends[t].RollingBack?
  }

  lemma OverrunStep(s: Ring, step: Step)
    requires Enabled(s, step) && (s.hasOverruns <==> Overran(s))
    ensures Apply(s, step).hasOverruns <==> Overran(Apply(s, step))
  {
    var s' := Apply(s, step);
    match step
    case FetchAdd(t) => OthersAlike(s, s', t);
    case LoadReadIndex(t) => OthersAlike(s, s', t);
    case QueueReadTask(t) =>
      OthersAlike(s, s', t);
      assert t in s'.appends ==> s'.appends[t].RollingBack?;
    case FetchSub(t) => assert s.appends[t].RollingBack?;
    case _ =>
  }

  lemma OthersAlike(s: Ring, s': Ring, t: ThreadId)
    requires forall u :: u != t ==> (u in s.appends <==> u in s'.appends)
    requires forall u :: u != t && u in s.appends ==> s'.appends[u] == s.appends[u]
    requires s'.bankrupt == s.bankrupt
    requires !(t in s.appends && s.appends[t].RollingBack?)
    ensures Overran(s) ==> Overran(s')
    ensures Overran(s') && !(t in s'.appends && s'.appends[t].RollingBack?) ==> Overran(s)
  {
    if u :| u in s.appends && s.appends[u].RollingBack? {
      assert u in s'.appends && s'.appends[u].RollingBack?;
    }
    if u :| u in s'.appends && s'.appends[u].RollingBack? && u != t {
      assert u in s.appends && s.appends[u].RollingBack?;
    }
  }

  lemma {:induction false} OverrunRun(s: Ring, steps: seq<Step>)
    requires CanRun(s, steps) && (s.hasOverruns <==> Overran(s))
    ensures Run(s, steps).hasOverruns <==> Overran(Run(s, steps))
    decreases |steps|
  {
    hide Apply, Enabled, Overran;
    if steps != [] {
      OverrunStep(s, steps[0]);
      OverrunRun(Apply(s, steps[0]), steps[1..]);
    }
  }

  /** In every run the overrun flag is set if and only if some append found the buffer full. */
  lemma OverrunsExactly(steps: seq<Step>)
    requires CanRun(RESET, steps)
    ensures Run(RESET, steps).hasOverruns <==> Overran(Run(RESET, steps))
  {
    OverrunRun(RESET, steps);
  }

  // ---------------------------------------------------------------- the read task

  const HALF: nat := 2048

  /**
   While the reader stands still: no read task means that nothing beyond the first half of the window
   was handed out or refused, and a read task that there were more appends than that.
   */
  ghost predicate HalfInv(s: Ring) {
    && (!s.readTaskQueued ==>
          (forall i :: i in s.granted ==> i < s.rd + HALF) && !Overran(s))
    && (s.readTaskQueued ==> HALF < s.started)
    && (forall t :: t in s.appends && s.appends[t].Slow? ==> s.rd + HALF <= s.appends[t].index < s.started)
    && (forall t :: t in s.appends ==> s.appends[t].index < s.started)
  }

  lemma SizeIs(s: Ring, t: ThreadId)
    requires Inv(s) && Small(s) && Enabled(s, LoadReadIndex(t)) && s.rd == 0
    ensures var index := s.appends[t].index; (index - s.rd) % TWO_TO_THE_64 == index < s.started
  {
    SizeOf(s, s.appends[t].index);
  }

  lemma HalfAdd(s: Ring, t: ThreadId)
    requires Inv(s) && HalfInv(s) && Enabled(s, FetchAdd(t))
    ensures HalfInv(Apply(s, FetchAdd(t)))
  {
    hide Inv;
    AddGives(s);
    OthersAlike(s, Apply(s, FetchAdd(t)), t);
  }

  lemma HalfLoad(s: Ring, t: ThreadId)
    requires Inv(s) && Small(s) && s.rd == 0 && HalfInv(s) && Enabled(s, LoadReadIndex(t))
    ensures HalfInv(Apply(s, LoadReadIndex(t)))
  {
    hide Inv;
    SizeIs(s, t);
    OthersAlike(s, Apply(s, LoadReadIndex(t)), t);
  }

  lemma HalfQueue(s: Ring, t: ThreadId)
    requires HalfInv(s) && Enabled(s, QueueReadTask(t))
    ensures HalfInv(Apply(s, QueueReadTask(t)))
  {
    assert s.appends[t].index < s.started;
  }

  lemma HalfSub(s: Ring, t: ThreadId)
    requires HalfInv(s) && Enabled(s, FetchSub(t))
    ensures HalfInv(Apply(s, FetchSub(t)))
  {
    assert s.appends[t].RollingBack?;
  }

  lemma HalfSame(s: Ring, s': Ring)
    requires HalfInv(s) && s' == s.(reader := s'.reader)
    ensures HalfInv(s')
  {
  }

  lemma HalfStep(s: Ring, step: Step)
    requires Inv(s) && Small(s) && s.rd == 0 && HalfInv(s) && Enabled(s, step)
    requires step != EndRead && step != ReadTaskDone
    ensures HalfInv(Apply(s, step)) && Apply(s, step).rd == 0
  {
    hide Inv, HalfInv;
    match step
    case FetchAdd(t) => HalfAdd(s, t);
    case LoadReadIndex(t) => HalfLoad(s, t);
    case QueueReadTask(t) => HalfQueue(s, t);
    case FetchSub(t) => HalfSub(s, t);
    case StartRead => HalfSame(s, Apply(s, step));
    case ReadNext => HalfSame(s, Apply(s, step));
  }

  lemma AddGives(s: Ring)
    requires Inv(s)
    ensures s.wr <= s.started
  {
  }

  predicate NoTaskDone(steps: seq<Step>) {
    forall i :: 0 <= i < |steps| ==> steps[i] != ReadTaskDone
  }

  lemma {:induction false} HalfRun(s: Ring, steps: seq<Step>)
    requires Inv(s) && s.rd == 0 && HalfInv(s) && CanRun(s, steps) && Small(Run(s, steps))
    requires ReaderStill(steps) && NoTaskDone(steps)
    ensures HalfInv(Run(s, steps)) && Run(s, steps).rd == 0
    decreases |steps|
  {
    hide Inv, Apply, Enabled, HalfInv;
    if steps != [] {
      RunIsMonotone(s, steps);
      StepKeeps(s, steps[0]);
      HalfStep(s, steps[0]);
      HalfRun(Apply(s, steps[0]), steps[1..]);
    }
  }

  lemma NothingYet()
    ensures HalfInv(RESET)
  {
  }

  lemma HalfGives(s: Ring)
    requires Inv(s) && HalfInv(s) && s.rd == 0
    ensures (exists i :: i in s.granted && HALF <= i) || Overran(s) ==> s.readTasks == 1
    ensures s.readTasks != 0 ==> HALF < s.started
  {
    hide IndicesOk, Overran;
  }

  /**
   From reset, with the reader still and no read task finished: once a record of the second half was
   handed out, or an append found the buffer full, the read task is posted, exactly once; and it is
   posted only if there were more appends than the first half holds.
   */
  lemma ReadTaskExactly(steps: seq<Step>)
    requires CanRun(RESET, steps) && ReaderStill(steps) && NoTaskDone(steps) && Small(Run(RESET, steps))
    ensures var s := Run(RESET, steps);
            && ((exists i :: i in s.granted && HALF <= i) || Overran(s) ==> s.readTasks == 1)
            && (s.readTasks != 0 ==> HALF < s.started)
  {
    hide Run, CanRun, ReaderStill, NoTaskDone, Inv, Safe, HalfInv, Overran, Small;
    ResetInv(RESET);
    NothingYet();
    HalfRun(RESET, steps);
    RunKeeps(RESET, steps);
    HalfGives(Run(RESET, steps));
  }

  // ---------------------------------------------------------------- the reader

  /** The reader reads on, record by record. */
  lemma {:induction false} ReadOn(s: Ring, n: nat) returns (steps: seq<Step>)
    requires s.reader.Some? && s.reader.value.cur + n <= s.reader.value.end
    requires forall i :: s.reader.value.cur <= i < s.reader.value.cur + n ==> i in s.granted
    ensures |steps| == n && (forall i :: 0 <= i < n ==> steps[i] == ReadNext)
    ensures CanRun(s, steps)
    ensures Run(s, steps) == s.(reader := Some(s.reader.value.(cur := s.reader.value.cur + n)))
    decreases n
  {
    if n == 0 {
      steps := [];
    } else {
      var s' := Apply(s, ReadNext);
      var rest := ReadOn(s', n - 1);
      steps := [ReadNext] + rest;
      assert steps[1..] == rest;
    }
  }

  /** With nothing in flight the reader gets every record not yet read, one after the other, and frees them all. */
  lemma ReaderGetsAll(s: Ring) returns (steps: seq<Step>)
    requires Inv(s) && Safe(s) && s.appends == map[] && s.reader == None && s.rd <= s.wr
    ensures |steps| == s.wr - s.rd + 2 && CanRun(s, steps) && Run(s, steps) == s.(rd := s.wr)
  {
    QuiescentGrants(s);
    var s1 := Apply(s, StartRead);
    var reading := ReadOn(s1, s.wr - s.rd);
    Exact.OneMore(s1, reading, EndRead);
    steps := [StartRead] + (reading + [EndRead]);
    assert steps[1..] == reading + [EndRead];
  }
}
