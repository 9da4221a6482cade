/** A state of the ring is safe exactly when no continuation hands out an index twice before the reader's next store. */
module MetatraceExact {
  import opened Common
  import opened Metatrace
  import opened MetatraceRuns

  /** The steps lead from one state to another without a store of the reader. */
  predicate Leads(s: Ring, steps: seq<Step>, r: Ring) {
    CanRun(s, steps) && ReaderStill(steps) && Run(s, steps) == r
  }

  lemma {:induction false} OneMore(s: Ring, steps: seq<Step>, step: Step)
    requires CanRun(s, steps) && Enabled(Run(s, steps), step)
    ensures CanRun(s, steps + [step]) && Run(s, steps + [step]) == Apply(Run(s, steps), step)
    decreases |steps|
  {
    hide Apply, Enabled;
    if steps == [] {
      assert steps + [step] == [step];
    } else {
      assert (steps + [step])[1..] == steps[1..] + [step];
      OneMore(Apply(s, steps[0]), steps[1..], step);
    }
  }

  lemma Then(s: Ring, steps: seq<Step>, r: Ring, step: Step)
    requires Leads(s, steps, r) && Enabled(r, step) && step != EndRead
    ensures Leads(s, steps + [step], Apply(r, step))
  {
    hide Apply, Enabled;
    OneMore(s, steps, step);
  }

  /** The state `r'` differs from `r` in these parts, apart from the flags. */
  predicate Has(r: Ring, r': Ring, wr: nat, started: nat, appends: map<ThreadId, Append>, granted: set<nat>,
      duplicate: bool) {
    && r'.rd == r.rd && r'.reader == r.reader && r'.wr == wr && r'.started == started
    && r'.appends == appends && r'.granted == granted && r'.duplicate == duplicate
  }

  /** An append that stays is completed. */
  lemma Complete(s: Ring, steps: seq<Step>, r: Ring, t: ThreadId) returns (more: seq<Step>, r': Ring)
    requires Leads(s, steps, r) && Stays(r.rd, r.appends, t)
    ensures var i := r.appends[t].index;
            && Leads(s, more, r')
            && Has(r, r', r.wr, r.started, r.appends - {t}, r.granted + {i}, r.duplicate || i in r.granted)
  {
    hide Leads;
    more, r' := steps, r;
    if r'.appends[t].Reserved? {
      Then(s, more, r', LoadReadIndex(t));
      more, r' := more + [LoadReadIndex(t)], Apply(r', LoadReadIndex(t));
    }
    if t in r'.appends {
      Then(s, more, r', QueueReadTask(t));
      more, r' := more + [QueueReadTask(t)], Apply(r', QueueReadTask(t));
      assert r'.appends == r.appends - {t};
    }
  }

  /** An append that goes back gets as far as its roll-back. */
  lemma ToRollBack(s: Ring, steps: seq<Step>, r: Ring, t: ThreadId) returns (more: seq<Step>, r': Ring)
    requires Leads(s, steps, r) && t in r.appends && GoesBack(r.rd, r.appends[t])
    ensures Leads(s, more, r')
    ensures Has(r, r', r.wr, r.started, r.appends[t := RollingBack(r.appends[t].index)], r.granted, r.duplicate)
  {
    hide Leads;
    more, r' := steps, r;
    if r'.appends[t].Reserved? {
      Then(s, more, r', LoadReadIndex(t));
      more, r' := more + [LoadReadIndex(t)], Apply(r', LoadReadIndex(t));
    }
    if r'.appends[t].Slow? {
      Then(s, more, r', QueueReadTask(t));
      more, r' := more + [QueueReadTask(t)], Apply(r', QueueReadTask(t));
    }
    assert r'.appends == r.appends[t := RollingBack(r.appends[t].index)];
  }

  lemma GoBack(s: Ring, steps: seq<Step>, r: Ring, t: ThreadId) returns (more: seq<Step>, r': Ring)
    requires Leads(s, steps, r) && t in r.appends && GoesBack(r.rd, r.appends[t]) && 0 < r.wr
    ensures Leads(s, more, r') && Has(r, r', r.wr - 1, r.started, r.appends - {t}, r.granted, r.duplicate)
  {
    hide Leads;
    more, r' := ToRollBack(s, steps, r, t);
    Then(s, more, r', FetchSub(t));
    more, r' := more + [FetchSub(t)], Apply(r', FetchSub(t));
    assert r'.appends == r.appends - {t};
  }

  lemma {:induction false} GoBackAll(s: Ring, steps: seq<Step>, r: Ring, h: set<ThreadId>)
    returns (more: seq<Step>, r': Ring)
    requires Leads(s, steps, r) && h <= Returning(r.rd, r.appends) && |h| <= r.wr
    ensures Leads(s, more, r') && Has(r, r', r.wr - |h|, r.started, r.appends - h, r.granted, r.duplicate)
    decreases |h|
  {
    hide Leads, Returning, GoesBack;
    if h == {} {
      more, r' := steps, r;
      assert r.appends - h == r.appends;
    } else {
      var t :| t in h;
      OthersStillReturn(r.rd, r.appends, h, t);
      var more1, r1 := GoBack(s, steps, r, t);
      more, r' := GoBackAll(s, more1, r1, h - {t});
    }
  }

  lemma OthersStillReturn(rd: nat, appends: map<ThreadId, Append>, h: set<ThreadId>, t: ThreadId)
    requires h <= Returning(rd, appends) && t in h
    ensures t in appends && GoesBack(rd, appends[t])
    ensures h - {t} <= Returning(rd, appends - {t}) && |h - {t}| == |h| - 1
    ensures appends - {t} - (h - {t}) == appends - h
  {
    hide GoesBack;
  }

  lemma Fresh(ts: set<ThreadId>) returns (t: ThreadId)
    ensures t !in ts
  {
    var n := Bound(ts);
    t := n;
  }

  lemma {:induction false} Bound(ts: set<ThreadId>) returns (n: nat)
    ensures forall t :: t in ts ==> t < n
  {
    if ts == {} {
      n := 0;
    } else {
      var t :| t in ts;
      var rest := ts - {t};
      var m := Bound(rest);
      n := Max(m, t + 1);
      assert forall u :: u in ts ==> u == t || u in rest;
    }
  }

  /** A new append, completed at once. */
  lemma Append(s: Ring, steps: seq<Step>, r: Ring) returns (more: seq<Step>, r': Ring)
    requires Leads(s, steps, r) && r.rd <= r.wr < r.rd + CAPACITY
    ensures Leads(s, more, r')
    ensures Has(r, r', r.wr + 1, r.started + 1, r.appends, r.granted + {r.wr}, r.duplicate || r.wr in r.granted)
  {
    hide Leads;
    var t := Fresh(r.appends.Keys);
    Then(s, steps, r, FetchAdd(t));
    var r1 := Apply(r, FetchAdd(t));
    more, r' := Complete(s, steps + [FetchAdd(t)], r1, t);
    assert r'.appends == r.appends;
  }

  /** Appends up to an index that was handed out before. */
  lemma {:induction false} AppendUpTo(s: Ring, steps: seq<Step>, r: Ring, x: nat) returns (more: seq<Step>, r': Ring)
    requires Leads(s, steps, r) && r.rd <= r.wr <= x < r.rd + CAPACITY && x in r.granted
    ensures Leads(s, more, r') && r'.duplicate && r'.started <= r.started + CAPACITY + 1
    ensures r'.started <= r.started + x - r.wr + 1
    decreases x - r.wr
  {
    hide Leads;
    more, r' := Append(s, steps, r);
    if r.wr < x {
      more, r' := AppendUpTo(s, more, r', x);
    }
  }

  // ---------------------------------------------------------------- an unsafe state leads to a duplicate

  lemma {:induction false} SegmentFits(g: set<nat>, n: nat)
    requires forall i :: 0 <= i < n ==> i in g
    ensures n <= |g|
  {
    if n > 0 {
      SegmentFits(g - {n - 1}, n - 1);
    }
  }

  lemma ReaderIsNotPast(s: Ring)
    requires Inv(s) && !s.duplicate
    ensures s.rd <= Settled(s)
  {
    SegmentFits(s.granted, s.rd);
  }

  lemma StayingIsInWindow(s: Ring, t: ThreadId)
    requires Inv(s) && Small(s) && Stays(s.rd, s.appends, t)
    ensures s.appends[t].index < s.rd + CAPACITY
  {
    SizeOf(s, s.appends[t].index);
  }

  /** An index at or above where wr will be has been handed out. */
  lemma HighIndexDuplicates(s: Ring, steps: seq<Step>, r: Ring, x: nat) returns (more: seq<Step>, r': Ring)
    requires Leads(s, steps, r) && r.rd <= Settled(r) <= x < r.rd + CAPACITY && x in r.granted
    ensures Leads(s, more, r') && r'.duplicate && r'.started <= r.started + CAPACITY + 1
  {
    hide Leads, Returning;
    var more1, r1 := GoBackAll(s, steps, r, Returning(r.rd, r.appends));
    more, r' := AppendUpTo(s, more1, r1, x);
  }

  /** Two appends that stay have the same index. */
  lemma SameIndexDuplicates(s: Ring, t: ThreadId, u: ThreadId) returns (steps: seq<Step>, r: Ring)
    requires Stays(s.rd, s.appends, t) && Stays(s.rd, s.appends, u) && t != u
    requires s.appends[t].index == s.appends[u].index
    ensures Leads(s, steps, r) && r.duplicate && r.started == s.started
  {
    assert Leads(s, [], s);
    hide Leads, GoesBack;
    steps, r := Complete(s, [], s, t);
    steps, r := Complete(s, steps, r, u);
  }

  lemma HighStayingDuplicates(s: Ring, t: ThreadId) returns (steps: seq<Step>, r: Ring)
    requires Inv(s) && Small(s) && !s.duplicate && Stays(s.rd, s.appends, t) && Settled(s) <= s.appends[t].index
    ensures Leads(s, steps, r) && r.duplicate && r.started <= s.started + CAPACITY + 1
  {
    assert Leads(s, [], s);
    hide Leads, Inv, GoesBack;
    ReaderIsNotPast(s);
    StayingIsInWindow(s, t);
    var x := s.appends[t].index;
    var more, r1 := Complete(s, [], s, t);
    assert Returning(r1.rd, r1.appends) == Returning(s.rd, s.appends);
    steps, r := HighIndexDuplicates(s, more, r1, x);
  }

  /** Something has to go back although there is room. */
  lemma RoomDuplicates(s: Ring, t: ThreadId) returns (steps: seq<Step>, r: Ring)
    requires Inv(s) && !s.duplicate && t in Returning(s.rd, s.appends) && Settled(s) + 1 < s.rd + CAPACITY
    ensures Leads(s, steps, r) && r.duplicate && r.started <= s.started + CAPACITY + 1
  {
    assert Leads(s, [], s);
    hide Leads, Inv;
    ReaderIsNotPast(s);
    var h := Returning(s.rd, s.appends);
    steps, r := GoBackAll(s, [], s, h - {t});
    assert r.wr == Settled(s) + 1;
    steps, r := ToRollBack(s, steps, r, t);
    steps, r := OneMoreThenBack(s, steps, r, t);
  }

  /** The roll-back happens after a new append, so the next one gets the same index. */
  lemma OneMoreThenBack(s: Ring, steps: seq<Step>, r: Ring, t: ThreadId) returns (more: seq<Step>, r': Ring)
    requires Leads(s, steps, r) && t in r.appends && r.appends[t].RollingBack? && r.rd <= r.wr < r.rd + CAPACITY
    ensures Leads(s, more, r') && r'.duplicate && r'.started == r.started + 2
  {
    hide Leads;
    var b := Fresh(r.appends.Keys);
    var c := Fresh(r.appends.Keys + {b});
    Then(s, steps, r, FetchAdd(b));
    more, r' := steps + [FetchAdd(b)], Apply(r, FetchAdd(b));
    Then(s, more, r', FetchSub(t));
    more, r' := more + [FetchSub(t)], Apply(r', FetchSub(t));
    Then(s, more, r', FetchAdd(c));
    more, r' := more + [FetchAdd(c)], Apply(r', FetchAdd(c));
    assert r'.appends[b] == Reserved(r.wr) && r'.appends[c] == Reserved(r.wr);
    more, r' := Complete(s, more, r', b);
    more, r' := Complete(s, more, r', c);
  }

  /** Two appends stay with the same index. */
  predicate Clash(s: Ring, t: ThreadId, u: ThreadId) {
    Stays(s.rd, s.appends, t) && Stays(s.rd, s.appends, u) && t != u && s.appends[t].index == s.appends[u].index
  }

  lemma UnsafeDuplicates(s: Ring) returns (steps: seq<Step>, r: Ring)
    requires Inv(s) && Small(s) && !s.duplicate && !Safe(s)
    ensures Leads(s, steps, r) && r.duplicate && r.started <= s.started + CAPACITY + 1
  {
    assert Leads(s, [], s);
    hide Leads, Inv, GoesBack, Returning;
    if t, u :| Clash(s, t, u) {
      steps, r := SameIndexDuplicates(s, t, u);
    } else if t :| Stays(s.rd, s.appends, t) && s.appends[t].index in s.granted {
      steps, r := Complete(s, [], s, t);
    } else if t :| Stays(s.rd, s.appends, t) && Settled(s) <= s.appends[t].index {
      steps, r := HighStayingDuplicates(s, t);
    } else if x :| x in s.granted && Settled(s) <= x {
      ReaderIsNotPast(s);
      InvGivesCounts(s);
      steps, r := HighIndexDuplicates(s, [], s, x);
    } else {
      forall t, u | Stays(s.rd, s.appends, t) && Stays(s.rd, s.appends, u) && t != u
        ensures s.appends[t].index != s.appends[u].index
      {
        assert !Clash(s, t, u);
      }
      var t :| t in Returning(s.rd, s.appends);
      steps, r := RoomDuplicates(s, t);
    }
  }

  // ---------------------------------------------------------------- the exact condition

  /** What may happen before the reader stores its position again. */
  predicate Continuation(s: Ring, steps: seq<Step>) {
    CanRun(s, steps) && ReaderStill(steps) && Small(Run(s, steps))
  }

  /** In every reachable state: no continuation hands out an index twice if and only if the state is safe. */
  lemma SafeExactly(s: Ring)
    requires Inv(s) && !s.duplicate && s.started + 3 * CAPACITY < TWO_TO_THE_64
    ensures Safe(s) <==> forall steps :: Continuation(s, steps) ==> !Run(s, steps).duplicate
  {
    hide Inv, Safe, Run, CanRun;
    if Safe(s) {
      forall steps | Continuation(s, steps)
        ensures !Run(s, steps).duplicate
      {
        StillIsSafe(s, steps);
        RunIsSafe(s, steps);
        InvGivesCounts(Run(s, steps));
      }
    } else {
      var steps, r := UnsafeDuplicates(s);
      assert Continuation(s, steps);
    }
  }

  /** The same of runs from Reset, so of every state that the ring can be in. */
  lemma ReachableSafeExactly(steps: seq<Step>)
    requires CanRun(RESET, steps) && Run(RESET, steps).started + 3 * CAPACITY < TWO_TO_THE_64
    requires !Run(RESET, steps).duplicate
    ensures var s := Run(RESET, steps);
            Safe(s) <==> forall more :: Continuation(s, more) ==> !Run(s, more).duplicate
  {
    hide Inv, Safe, Run, CanRun, Continuation;
    ResetInv(RESET);
    RunKeeps(RESET, steps);
    SafeExactly(Run(RESET, steps));
  }

  // ---------------------------------------------------------------- a run that goes wrong

  /** One thread appends `n` records, all of which find room. */
  lemma {:induction false} Fill(n: nat) returns (steps: seq<Step>, r: Ring)
    requires n <= CAPACITY
    ensures Leads(RESET, steps, r) && r.wr == n && r.rd == 0 && r.started == n && r.appends == map[] && r.reader == None
    ensures !r.duplicate && forall i: nat :: i in r.granted <==> i < n
  {
    if n == 0 {
      steps, r := [], RESET;
    } else {
      var before, q := Fill(n - 1);
      steps, r := Append(RESET, before, q);
    }
  }

  /** The buffer is full, one append is about to roll back, and then the reader frees two records. */
  lemma OverrunThenAdvance() returns (steps: seq<Step>)
    ensures CanRun(RESET, steps)
    ensures var s := Run(RESET, steps);
            && s.wr == CAPACITY + 1 && s.rd == 2 && s.appends == map[1 := RollingBack(CAPACITY)]
            && s.started == CAPACITY + 1 && !s.duplicate
  {
    hide CanRun, Run;
    var r;
    steps, r := Fill(CAPACITY);
    OneMore(RESET, steps, FetchAdd(1));
    steps := steps + [FetchAdd(1)];
    OneMore(RESET, steps, LoadReadIndex(1));
    steps := steps + [LoadReadIndex(1)];
    OneMore(RESET, steps, QueueReadTask(1));
    steps := steps + [QueueReadTask(1)];
    OneMore(RESET, steps, StartRead);
    steps := steps + [StartRead];
    OneMore(RESET, steps, ReadNext);
    steps := steps + [ReadNext];
    OneMore(RESET, steps, ReadNext);
    steps := steps + [ReadNext];
    OneMore(RESET, steps, EndRead);
    steps := steps + [EndRead];
  }

  /** So distinct records are not guaranteed: an unsafe store, and then a run that hands out an index twice. */
  lemma AdvanceDuringRollBackIsUnsafe() returns (steps: seq<Step>, more: seq<Step>)
    ensures CanRun(RESET, steps) && !Safe(Run(RESET, steps))
    ensures Continuation(Run(RESET, steps), more) && Run(Run(RESET, steps), more).duplicate
  {
    hide CanRun, Run, Inv;
    steps := OverrunThenAdvance();
    var s := Run(RESET, steps);
    ResetInv(RESET);
    RunKeeps(RESET, steps);
    assert Returning(s.rd, s.appends) == {1};
    var r;
    more, r := UnsafeDuplicates(s);
  }
}
