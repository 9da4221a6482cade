/**
 The meta-tracing ring buffer as a state machine over its atomic operations. An append is three or
 more steps of its thread (fetch_add, load of the read index, then the fast path, the slow path or
 the roll-back), which interleave freely with other appends and with the reader. Indices do not
 wrap: fewer than 2^64 records are appended.
 */
module Metatrace {
  import opened Common

  const CAPACITY: nat := 4096

  type ThreadId = nat

  /** Where an append is: the index it reserved and, on the slow path, the size it computed. */
  datatype Append =
    | Reserved(index: nat)
    | Slow(index: nat, size: int)
    | RollingBack(index: nat)

  datatype Reader = Reader(cur: nat, end: nat)

  datatype Ring = Ring(
    wr: nat,
    rd: nat,
    hasOverruns: bool,
    readTaskQueued: bool,
    appends: map<ThreadId, Append>,  // appends in flight
    reader: Option<Reader>,          // an iteration in progress
    readTasks: nat,                  // read tasks posted and not finished
    started: nat,                    // appends begun
    granted: set<nat>,               // indices whose record was handed to an append
    grants: nat,
    bankrupt: nat,                   // appends that got the bankruptcy record
    duplicate: bool)                 // an index was handed out twice

  /** RingBuffer::Reset. */
  const RESET := Ring(0, 0, false, false, map[], None, 0, 0, {}, 0, 0, false)

  datatype Step =
    | FetchAdd(t: ThreadId)
    | LoadReadIndex(t: ThreadId)
    | QueueReadTask(t: ThreadId)
    | FetchSub(t: ThreadId)
    | ReadTaskDone
    | StartRead
    | ReadNext
    | EndRead

  /** The reader stops at the first record that is not complete, so none that was not handed out. */
  predicate Enabled(s: Ring, step: Step) {
    match step
    case FetchAdd(t) => t !in s.appends
    case LoadReadIndex(t) => t in s.appends && s.appends[t].Reserved?
    case QueueReadTask(t) => t in s.appends && s.appends[t].Slow?
    case FetchSub(t) => t in s.appends && s.appends[t].RollingBack? && 0 < s.wr
    case ReadTaskDone => 0 < s.readTasks
    case StartRead => s.reader.None?
    case ReadNext => s.reader.Some? && s.reader.value.cur < s.reader.value.end && s.reader.value.cur in s.granted
    case EndRead => s.reader.Some?
  }

  /** The append of thread `t` returns At(index). */
  function Grant(s: Ring, t: ThreadId, index: nat): Ring {
    s.(appends := s.appends - {t},
       granted := s.granted + {index},
       grants := s.grants + 1,
       duplicate := s.duplicate || index in s.granted)
  }

  function Apply(s: Ring, step: Step): Ring
    requires Enabled(s, step)
  {
    match step
    case FetchAdd(t) =>
      s.(wr := s.wr + 1, appends := s.appends[t := Reserved(s.wr)], started := s.started + 1)
    case LoadReadIndex(t) =>
      var index := s.appends[t].index;
      var size := (index - s.rd) % TWO_TO_THE_64;
      if size < CAPACITY / 2 then Grant(s, t, index)
      else s.(appends := s.appends[t := Slow(index, size)])
    case QueueReadTask(t) =>
      var index, size := s.appends[t].index, s.appends[t].size;
      var s := if s.readTaskQueued then s else s.(readTaskQueued := true, readTasks := s.readTasks + 1);
      if size < CAPACITY then Grant(s, t, index)
      else s.(appends := s.appends[t := RollingBack(index)], hasOverruns := true)
    case FetchSub(t) =>
      s.(wr := s.wr - 1, appends := s.appends - {t}, bankrupt := s.bankrupt + 1)
    case ReadTaskDone => s.(readTasks := s.readTasks - 1, readTaskQueued := false)
    case StartRead => s.(reader := Some(Reader(s.rd, s.wr)))
    case ReadNext => s.(reader := Some(s.reader.value.(cur := s.reader.value.cur + 1)))
    case EndRead => s.(rd := s.reader.value.cur, reader := None)
  }

  predicate CanRun(s: Ring, steps: seq<Step>)
    decreases |steps|
  {
    steps == [] || (Enabled(s, steps[0]) && CanRun(Apply(s, steps[0]), steps[1..]))
  }

  function Run(s: Ring, steps: seq<Step>): Ring
    requires CanRun(s, steps)
    decreases |steps|
  {
    if steps == [] then s else Run(Apply(s, steps[0]), steps[1..])
  }

  // ---------------------------------------------------------------- what holds in every run

  /** The append will be rolled back, as long as the reader does not store its position. */
  predicate GoesBack(rd: nat, a: Append) {
    match a
    case Reserved(index) => (index - rd) % TWO_TO_THE_64 >= CAPACITY
    case Slow(_, size) => size >= CAPACITY
    case RollingBack(_) => true
  }

  function Returning(rd: nat, appends: map<ThreadId, Append>): (h: set<ThreadId>)
    ensures |h| <= |appends|
  {
    var h := set t | t in appends && GoesBack(rd, appends[t]);
    SubsetCount(h, appends.Keys);
    h
  }

  lemma {:induction false} SubsetCount(a: set<ThreadId>, b: set<ThreadId>)
    requires a <= b
    ensures |a| <= |b|
  {
    if t :| t in a {
      SubsetCount(a - {t}, b - {t});
    }
  }

  /** An append that found room has an index in the window. */
  predicate PathOk(rd: nat, a: Append) {
    a.Slow? && a.size < CAPACITY ==> a.index < rd + CAPACITY
  }

  /** Everything up to where the reader is was handed out. */
  predicate ReaderOk(rd: nat, reader: Option<Reader>, granted: set<nat>) {
    && (forall i :: 0 <= i < rd ==> i in granted)
    && (reader.Some? ==> rd <= reader.value.cur && forall i :: 0 <= i < reader.value.cur ==> i in granted)
  }

  predicate IndicesOk(s: Ring) {
    && ReaderOk(s.rd, s.reader, s.granted)
    && (forall i :: i in s.granted ==> i < s.rd + CAPACITY && i < s.started)
    && (forall t :: t in s.appends ==> PathOk(s.rd, s.appends[t]) && s.appends[t].index < s.started)
  }

  predicate CountsOk(s: Ring) {
    && s.wr == s.grants + |s.appends| && s.started == s.wr + s.bankrupt
    && (!s.duplicate ==> |s.granted| == s.grants)
    && (s.readTasks == if s.readTaskQueued then 1 else 0)
  }

  /** What every run keeps, whatever the reader does. */
  predicate Inv(s: Ring) {
    IndicesOk(s) && CountsOk(s)
  }

  /** Indices are far from wrapping around. */
  predicate Small(s: Ring) {
    s.started + CAPACITY < TWO_TO_THE_64
  }

  lemma ReaderIsBehind(s: Ring)
    requires IndicesOk(s)
    ensures s.rd <= s.started
  {
    assert s.rd > 0 ==> s.rd - 1 in s.granted;
  }

  lemma MoreAppends(appends: map<ThreadId, Append>, t: ThreadId, a: Append)
    ensures t !in appends ==> |appends[t := a]| == |appends| + 1
    ensures t in appends ==> |appends[t := a]| == |appends| && |appends - {t}| == |appends| - 1
  {
    if t in appends {
      assert appends[t := a].Keys == appends.Keys;
      assert (appends - {t}).Keys == appends.Keys - {t};
    } else {
      assert appends[t := a].Keys == appends.Keys + {t};
    }
  }

  /** The size that an append computes is its distance from the reader, or so large that it goes back. */
  lemma SizeOf(s: Ring, index: nat)
    requires IndicesOk(s) && Small(s) && index < s.started + CAPACITY
    ensures var size := (index - s.rd) % TWO_TO_THE_64;
            if s.rd <= index then size == index - s.rd else size >= CAPACITY
  {
    ReaderIsBehind(s);
    if index < s.rd {
      assert (index - s.rd) % TWO_TO_THE_64 == index - s.rd + TWO_TO_THE_64;
    }
  }

  lemma GrantKeeps(s: Ring, t: ThreadId)
    requires Inv(s) && t in s.appends && s.appends[t].index < s.rd + CAPACITY
    ensures Inv(Grant(s, t, s.appends[t].index))
  {
    MoreAppends(s.appends, t, s.appends[t]);
  }

  /** The append moves on along its path with the index it has. */
  lemma MoveOnKeeps(s: Ring, t: ThreadId, a: Append)
    requires Inv(s) && t in s.appends && a.index == s.appends[t].index && PathOk(s.rd, a)
    ensures Inv(s.(appends := s.appends[t := a]))
  {
    MoreAppends(s.appends, t, a);
  }

  /** The flags and the posted read task are not part of the index bookkeeping. */
  lemma FlagsKeep(s: Ring, s': Ring)
    requires Inv(s) && s' == s.(readTaskQueued := s'.readTaskQueued, readTasks := s'.readTasks,
             hasOverruns := s'.hasOverruns)
    requires s'.readTasks == if s'.readTaskQueued then 1 else 0
    ensures Inv(s')
  {
  }

  lemma FetchAddKeeps(s: Ring, t: ThreadId)
    requires Inv(s) && Enabled(s, FetchAdd(t))
    ensures Inv(Apply(s, FetchAdd(t)))
  {
    MoreAppends(s.appends, t, Reserved(s.wr));
  }

  lemma LoadReadIndexKeeps(s: Ring, t: ThreadId)
    requires Inv(s) && Small(s) && Enabled(s, LoadReadIndex(t))
    ensures Inv(Apply(s, LoadReadIndex(t)))
  {
    hide Inv;
    var index := s.appends[t].index;
    var size := (index - s.rd) % TWO_TO_THE_64;
    InvGives(s, t);
    if size < CAPACITY / 2 {
      GrantKeeps(s, t);
    } else {
      MoveOnKeeps(s, t, Slow(index, size));
    }
  }

  lemma InvGives(s: Ring, t: ThreadId)
    requires Inv(s) && t in s.appends
    ensures PathOk(s.rd, s.appends[t]) && s.readTasks == if s.readTaskQueued then 1 else 0
    ensures Small(s) ==> (s.appends[t].index - s.rd) % TWO_TO_THE_64 < CAPACITY ==> s.appends[t].index < s.rd + CAPACITY
  {
    if Small(s) {
      SizeOf(s, s.appends[t].index);
    }
  }

  lemma QueueReadTaskKeeps(s: Ring, t: ThreadId)
    requires Inv(s) && Enabled(s, QueueReadTask(t))
    ensures Inv(Apply(s, QueueReadTask(t)))
  {
    hide Inv;
    InvGives(s, t);
    var s1 := if s.readTaskQueued then s else s.(readTaskQueued := true, readTasks := s.readTasks + 1);
    FlagsKeep(s, s1);
    if s.appends[t].size < CAPACITY {
      GrantKeeps(s1, t);
    } else {
      MoveOnKeeps(s1, t, RollingBack(s.appends[t].index));
      var s2 := s1.(appends := s1.appends[t := RollingBack(s.appends[t].index)]);
      FlagsKeep(s2, s2.(hasOverruns := true));
    }
  }

  lemma FetchSubKeeps(s: Ring, t: ThreadId)
    requires Inv(s) && Enabled(s, FetchSub(t))
    ensures Inv(Apply(s, FetchSub(t)))
  {
    MoreAppends(s.appends, t, s.appends[t]);
  }

  lemma ReaderKeeps(s: Ring, step: Step)
    requires Inv(s) && Enabled(s, step) && (step.StartRead? || step.ReadNext? || step.EndRead?)
    ensures Inv(Apply(s, step))
  {
  }

  /** Every step keeps the invariant. */
  lemma StepKeeps(s: Ring, step: Step)
    requires Inv(s) && Small(s) && Enabled(s, step)
    ensures Inv(Apply(s, step))
  {
    hide IndicesOk;
    match step
    case FetchAdd(t) => FetchAddKeeps(s, t);
    case LoadReadIndex(t) => LoadReadIndexKeeps(s, t);
    case QueueReadTask(t) => QueueReadTaskKeeps(s, t);
    case FetchSub(t) => FetchSubKeeps(s, t);
    case ReadTaskDone => FlagsKeep(s, Apply(s, step));
    case StartRead => ReaderKeeps(s, step);
    case ReadNext => ReaderKeeps(s, step);
    case EndRead => ReaderKeeps(s, step);
  }

  // ---------------------------------------------------------------- when no index can be handed out twice

  /** Where wr will be once everything that goes back has gone back. */
  function Settled(s: Ring): int {
    s.wr - |Returning(s.rd, s.appends)|
  }

  /** The append will be handed the record at its index. */
  predicate Stays(rd: nat, appends: map<ThreadId, Append>, t: ThreadId) {
    t in appends && !GoesBack(rd, appends[t])
  }

  /** The indices handed out or to be handed out are different ones below `n`. */
  ghost predicate Apart(rd: nat, appends: map<ThreadId, Append>, granted: set<nat>, n: int) {
    && (forall i :: i in granted ==> i < n)
    && (forall t :: Stays(rd, appends, t) ==> appends[t].index < n && appends[t].index !in granted)
    && (forall t, u :: Stays(rd, appends, t) && Stays(rd, appends, u) && t != u ==>
       appends[t].index != appends[u].index)
  }

  /**
   No index was handed out twice, none is about to be, and as long as something has to go back a
   new append finds no room.
   */
  ghost predicate Safe(s: Ring) {
    && !s.duplicate
    && Apart(s.rd, s.appends, s.granted, Settled(s))
    && (Returning(s.rd, s.appends) != {} ==> s.rd + CAPACITY <= Settled(s) + 1)
  }

  lemma ReaderIsBelow(s: Ring)
    requires IndicesOk(s) && Safe(s)
    ensures s.rd <= Settled(s) <= s.wr
  {
    assert s.rd > 0 ==> s.rd - 1 in s.granted;
  }

  lemma NewcomerStays(rd: nat, appends: map<ThreadId, Append>, granted: set<nat>, t: ThreadId, n: nat)
    requires t !in appends && Apart(rd, appends, granted, n) && !GoesBack(rd, Reserved(n))
    ensures var more := appends[t := Reserved(n)];
            Returning(rd, more) == Returning(rd, appends) && Apart(rd, more, granted, n + 1)
  {
    var more := appends[t := Reserved(n)];
    assert Returning(rd, more) == Returning(rd, appends);
    assert forall u :: Stays(rd, more, u) ==> u == t || (Stays(rd, appends, u) && more[u] == appends[u]);
  }

  lemma NewcomerReturns(rd: nat, appends: map<ThreadId, Append>, granted: set<nat>, t: ThreadId, wr: nat, n: int)
    requires t !in appends && Apart(rd, appends, granted, n) && GoesBack(rd, Reserved(wr))
    ensures var more := appends[t := Reserved(wr)];
            |Returning(rd, more)| == |Returning(rd, appends)| + 1 && Apart(rd, more, granted, n)
  {
    var more := appends[t := Reserved(wr)];
    assert Returning(rd, more) == Returning(rd, appends) + {t};
    assert forall u :: Stays(rd, more, u) ==> Stays(rd, appends, u) && more[u] == appends[u];
  }

  /** A new append goes back, or is the next one to be handed a record. */
  lemma FetchAddIsSafe(s: Ring, t: ThreadId)
    requires Inv(s) && Small(s) && Safe(s) && Enabled(s, FetchAdd(t))
    ensures Safe(Apply(s, FetchAdd(t)))
  {
    hide IndicesOk, Apart, Returning;
    ReaderIsBelow(s);
    SizeOf(s, s.wr);
    var h := Returning(s.rd, s.appends);
    assert |h| > 0 <==> h != {};
    if s.wr < s.rd + CAPACITY {
      NewcomerStays(s.rd, s.appends, s.granted, t, s.wr);
    } else {
      NewcomerReturns(s.rd, s.appends, s.granted, t, s.wr, Settled(s));
    }
  }

  /** An append takes another step towards what it was bound for anyway. */
  lemma MoveOnIsSafe(s: Ring, s': Ring, t: ThreadId, a: Append)
    requires Safe(s) && t in s.appends && a.index == s.appends[t].index
    requires GoesBack(s.rd, a) <==> GoesBack(s.rd, s.appends[t])
    requires s'.rd == s.rd && s'.wr == s.wr && s'.granted == s.granted && s'.duplicate == s.duplicate
    requires s'.appends == s.appends[t := a]
    ensures Safe(s')
  {
    assert Returning(s.rd, s'.appends) == Returning(s.rd, s.appends);
    assert forall u :: Stays(s.rd, s'.appends, u) <==> Stays(s.rd, s.appends, u);
  }

  lemma GrantIsSafe(s: Ring, s': Ring, t: ThreadId)
    requires Safe(s) && Stays(s.rd, s.appends, t)
    requires s'.rd == s.rd && s'.wr == s.wr && s'.granted == s.granted + {s.appends[t].index}
    requires s'.duplicate == (s.duplicate || s.appends[t].index in s.granted) && s'.appends == s.appends - {t}
    ensures Safe(s')
  {
    assert Returning(s.rd, s'.appends) == Returning(s.rd, s.appends);
    assert forall u :: Stays(s.rd, s'.appends, u) ==> u != t && Stays(s.rd, s.appends, u);
  }

  lemma FetchSubIsSafe(s: Ring, t: ThreadId)
    requires Safe(s) && Enabled(s, FetchSub(t))
    ensures Safe(Apply(s, FetchSub(t)))
  {
    var s' := Apply(s, FetchSub(t));
    assert Returning(s.rd, s'.appends) == Returning(s.rd, s.appends) - {t};
    assert forall u :: Stays(s.rd, s'.appends, u) ==> u != t && Stays(s.rd, s.appends, u);
  }

  lemma SameIsSafe(s: Ring, s': Ring)
    requires Safe(s) && s'.rd == s.rd && s'.wr == s.wr && s'.granted == s.granted && s'.duplicate == s.duplicate
    requires s'.appends == s.appends
    ensures Safe(s')
  {
  }

  /** Every step but the reader's store keeps the state safe. */
  lemma StepIsSafe(s: Ring, step: Step)
    requires Inv(s) && Small(s) && Safe(s) && Enabled(s, step) && step != EndRead
    ensures Safe(Apply(s, step))
  {
    hide Inv, Safe, Returning;
    var s' := Apply(s, step);
    match step
    case FetchAdd(t) => FetchAddIsSafe(s, t);
    case LoadReadIndex(t) =>
      if t in s'.appends {
        MoveOnIsSafe(s, s', t, s'.appends[t]);
      } else {
        GrantIsSafe(s, s', t);
      }
    case QueueReadTask(t) =>
      if t in s'.appends {
        MoveOnIsSafe(s, s', t, s'.appends[t]);
      } else {
        GrantIsSafe(s, s', t);
      }
    case FetchSub(t) => FetchSubIsSafe(s, t);
    case _ => SameIsSafe(s, s');
  }
}
