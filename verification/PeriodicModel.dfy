/**
 Periodic tasks: generations that neutralise stale continuations. The task is called last in every
 operation, so whatever it does to its own PeriodicTask are further operations.
 */
module PeriodicModel {
  import opened Common

  // ---------------------------------------------------------------- the delay

  datatype Args = Args(periodMs: nat, task: Option<nat>, startFirstTaskImmediately: bool, useSuspendAwareTimer: bool,
      oneShot: bool)

  /** C++ remainder: it has the sign of the dividend. */
  function Remainder(a: int, b: nat): int
    requires 0 < b
  {
    if a >= 0 then a % b else -((-a) % b)
  }

  /** The period is a positive 32-bit number; the subtraction is done in 32 bits. */
  function NextDelayMs(nowMs: int, periodMs: nat, oneShot: bool): nat
    requires 0 < periodMs < TWO_TO_THE_32
  {
    if oneShot then periodMs
    else (periodMs - Remainder(nowMs, periodMs) % TWO_TO_THE_32) % TWO_TO_THE_32
  }

  predicate Aligned(nowMs: int, delay: nat, periodMs: nat)
    requires 0 < periodMs
  {
    1 <= delay <= periodMs && (nowMs + delay) % periodMs == 0
  }

  lemma AtLeast(p: nat, n: int)
    requires 0 < p
    ensures n >= 1 ==> p * n >= p
    ensures n <= -1 ==> p * n + p <= 0
  {
  }

  /** The quotient and the remainder are the only ones. */
  lemma RestIs(p: nat, q: int, r: nat)
    requires r < p
    ensures (p * q + r) % p == r
  {
    var x := p * q + r;
    var k, m := x / p, x % p;
    assert x == p * k + m;
    var d := q - k;
    assert p * d == m - r by { assert p * d == p * q - p * k; }
    AtLeast(p, d);
  }

  lemma AlignedForward(nowMs: int, periodMs: nat)
    requires 0 < periodMs < TWO_TO_THE_32 && 0 <= nowMs
    ensures Aligned(nowMs, NextDelayMs(nowMs, periodMs, false), periodMs)
  {
    var r := nowMs % periodMs;
    assert r % TWO_TO_THE_32 == r && (periodMs - r) % TWO_TO_THE_32 == periodMs - r;
    assert nowMs + (periodMs - r) == periodMs * (nowMs / periodMs + 1);
    RestIs(periodMs, nowMs / periodMs + 1, 0);
  }

  /** A remainder below zero makes the delay longer than the period, or takes it off the grid. */
  lemma MisalignedBackward(nowMs: int, periodMs: nat)
    requires 0 < periodMs < TWO_TO_THE_32 && nowMs < 0 && (-nowMs) % periodMs != 0
    ensures !Aligned(nowMs, NextDelayMs(nowMs, periodMs, false), periodMs)
  {
    var m := (-nowMs) % periodMs;
    var q := (-nowMs) / periodMs;
    assert (-m) % TWO_TO_THE_32 == TWO_TO_THE_32 - m;
    var d := periodMs + m - TWO_TO_THE_32;
    if periodMs + m < TWO_TO_THE_32 {
      assert d % TWO_TO_THE_32 == periodMs + m;
    } else {
      assert d % TWO_TO_THE_32 == d;
      assert nowMs + d == periodMs * (1 - q) - TWO_TO_THE_32;
      OffTheGrid(periodMs, 1 - q);
    }
  }

  lemma OffTheGrid(periodMs: nat, k: int)
    requires TWO_TO_THE_32 < 2 * periodMs && periodMs < TWO_TO_THE_32
    ensures (periodMs * k - TWO_TO_THE_32) % periodMs != 0
  {
    var r := 2 * periodMs - TWO_TO_THE_32;
    assert periodMs * k - TWO_TO_THE_32 == periodMs * (k - 2) + r;
    RestIs(periodMs, k - 2, r);
  }

  /**
   A repeating task is run within the period and on a multiple of it, if and only if the clock is not
   negative, or is itself on a multiple.
   */
  lemma DelayExactly(nowMs: int, periodMs: nat)
    requires 0 < periodMs < TWO_TO_THE_32
    ensures Aligned(nowMs, NextDelayMs(nowMs, periodMs, false), periodMs) <==> nowMs >= 0 || (-nowMs) % periodMs == 0
  {
    if nowMs >= 0 {
      AlignedForward(nowMs, periodMs);
    } else if (-nowMs) % periodMs == 0 {
      var q := (-nowMs) / periodMs;
      assert nowMs + periodMs == periodMs * (1 - q);
      RestIs(periodMs, 1 - q, 0);
      assert NextDelayMs(nowMs, periodMs, false) == periodMs;
    } else {
      MisalignedBackward(nowMs, periodMs);
    }
  }

  /** A one-shot task waits for its whole period, whatever the clock says. */
  lemma OneShotWaits(nowMs: int, periodMs: nat)
    requires 0 < periodMs < TWO_TO_THE_32
    ensures NextDelayMs(nowMs, periodMs, true) == periodMs
  {
  }

  /** One millisecond before the epoch a period of ten is waited for eleven. */
  lemma BeforeTheEpoch()
    ensures NextDelayMs(-1, 10, false) == 11 && !Aligned(-1, 11, 10)
  {
  }

  // ---------------------------------------------------------------- states

  /** A posted continuation or a timer watch: the 32-bit generation it is bound to, and the real one. */
  datatype Ticket = Ticket(generation: nat, epoch: nat)

  datatype Call = Call(epoch: nat, oneShot: bool, throughRunner: bool)

  datatype Periodic = Periodic(
    alive: bool,
    epoch: nat,               // how many times Reset has been called; the generation is this modulo 2^32
    args: Args,               // no task means not started
    timer: Option<Ticket>,    // the timer descriptor, with what its watch is bound to
    pending: multiset<Ticket>,
    calls: seq<Call>)         // calls of the task

  const NO_ARGS := Args(0, None, false, false, false)

  const NEW := Periodic(true, 0, NO_ARGS, None, multiset{}, [])

  function Current(s: Periodic): Ticket {
    Ticket(s.epoch % TWO_TO_THE_32, s.epoch)
  }

  function Reset(s: Periodic): Periodic {
    s.(epoch := s.epoch + 1, args := NO_ARGS, timer := None)
  }

  function PostNextTask(s: Periodic): Periodic {
    s.(pending := s.pending + multiset{Current(s)})
  }

  function CallTask(s: Periodic, epoch: nat, oneShot: bool, throughRunner: bool): Periodic {
    s.(calls := s.calls + [Call(epoch, oneShot, throughRunner)])
  }

  function Start(s: Periodic, args: Args, timerCreated: bool): Periodic {
    var s := Reset(s);
    if args.periodMs == 0 || args.task.None? then s
    else
      var s := s.(args := args);
      var s := if args.useSuspendAwareTimer && timerCreated then s.(timer := Some(Current(s))) else PostNextTask(s);
      if args.startFirstTaskImmediately then CallTask(s, s.epoch, args.oneShot, false) else s
  }

  datatype TimerRead = ReadOk | ReadAgain | ReadFailed

  /** `generation` is the one the continuation is bound to; `read` is the result of reading the timer. */
  function RunTaskAndPostNext(s: Periodic, generation: nat, read: TimerRead): Periodic {
    if !s.alive || s.args.task.None? || generation != s.epoch % TWO_TO_THE_32 then s
    else if s.timer.Some? && read == ReadAgain then s
    else Proceed(if s.timer.Some? && read == ReadFailed then s.(timer := None) else s)
  }

  /** The next continuation is posted unless a timer or a one-shot makes it needless, then the task is called. */
  function Proceed(s: Periodic): Periodic {
    var s' := if s.args.oneShot then Reset(s) else if s.timer.None? then PostNextTask(s) else s;
    CallTask(s', s.epoch, s.args.oneShot, true)
  }

  datatype Op =
    | DoStart(args: Args, timerCreated: bool)
    | DoReset
    | Destroy
    | Fire(ticket: Ticket, read: TimerRead)
    | TimerFires(read: TimerRead)

  predicate Enabled(s: Periodic, op: Op) {
    match op
    case DoStart(args, _) => s.alive && args.periodMs < TWO_TO_THE_32
    case DoReset => s.alive
    case Destroy => s.alive
    case Fire(ticket, _) => ticket in s.pending
    case TimerFires(_) => s.timer.Some?
  }

  function Apply(s: Periodic, op: Op): Periodic
    requires Enabled(s, op)
  {
    match op
    case DoStart(args, timerCreated) => Start(s, args, timerCreated)
    case DoReset => Reset(s)
    case Destroy => Reset(s).(alive := false)
    case Fire(ticket, read) => RunTaskAndPostNext(s.(pending := s.pending - multiset{ticket}), ticket.generation, read)
    case TimerFires(read) => RunTaskAndPostNext(s, s.timer.value.generation, read)
  }

  // ---------------------------------------------------------------- the invariant

  predicate Active(s: Periodic) {
    s.args.task.Some?
  }

  predicate TicketsOk(s: Periodic) {
    forall t :: t in s.pending ==> t.epoch <= s.epoch && t.generation == t.epoch % TWO_TO_THE_32
  }

  predicate OneShotRun(c: Call) {
    c.oneShot && c.throughRunner
  }

  predicate OneShotsOk(s: Periodic) {
    && (forall i :: 0 <= i < |s.calls| && OneShotRun(s.calls[i]) ==> s.calls[i].epoch < s.epoch)
    && (forall i, j :: 0 <= i < j < |s.calls| && OneShotRun(s.calls[i]) && OneShotRun(s.calls[j]) ==>
          s.calls[i].epoch < s.calls[j].epoch)
  }

  /** What holds in every run. */
  predicate Inv(s: Periodic) {
    && TicketsOk(s)
    && (s.timer.Some? ==> Active(s) && s.timer.value == Current(s))
    && (!s.alive ==> !Active(s))
    && OneShotsOk(s)
  }

  /** An active task has one continuation of the current generation or a timer, an inactive one neither. */
  predicate Tidy(s: Periodic) {
    && s.pending[Current(s)] == (if Active(s) && s.timer.None? then 1 else 0)
    && (s.timer.Some? ==> Active(s) && s.timer.value == Current(s))
  }

  lemma ResetKeeps(s: Periodic)
    requires Inv(s)
    ensures Inv(Reset(s)) && Tidy(Reset(s))
  {
    assert Current(Reset(s)) !in s.pending;
  }

  lemma DestroyKeeps(s: Periodic)
    requires Inv(s)
    ensures Inv(Reset(s).(alive := false)) && Tidy(Reset(s).(alive := false))
  {
    ResetKeeps(s);
  }

  lemma StartKeeps(s: Periodic, args: Args, timerCreated: bool)
    requires Inv(s) && s.alive
    ensures Inv(Start(s, args, timerCreated)) && Tidy(Start(s, args, timerCreated))
  {
    ResetKeeps(s);
    var s1 := Reset(s);
    assert s1.pending[Current(s1)] == 0;
  }

  /** The task is called last; a one-shot that came through the runner has been reset before. */
  lemma CallKeeps(s: Periodic, epoch: nat, oneShot: bool, throughRunner: bool)
    requires Inv(s)
    requires oneShot && throughRunner ==>
      epoch < s.epoch && forall i :: 0 <= i < |s.calls| && OneShotRun(s.calls[i]) ==> s.calls[i].epoch < epoch
    ensures Inv(CallTask(s, epoch, oneShot, throughRunner))
    ensures Tidy(CallTask(s, epoch, oneShot, throughRunner)) <==> Tidy(s)
  {
  }

  /** A continuation, current or not, that does act. */
  lemma ProceedKeeps(s: Periodic)
    requires Inv(s) && s.alive && Active(s)
    ensures Inv(Proceed(s))
    ensures Tidy(Proceed(s)) <==> s.args.oneShot || s.pending[Current(s)] == 0
  {
    if s.args.oneShot {
      ResetKeeps(s);
      CallKeeps(Reset(s), s.epoch, true, true);
    } else {
      var s1 := if s.timer.None? then PostNextTask(s) else s;
      assert s1.pending[Current(s)] == s.pending[Current(s)] + if s.timer.None? then 1 else 0;
      CallKeeps(s1, s.epoch, false, true);
    }
  }

  // ---------------------------------------------------------------- stale continuations

  /** Nothing is to be done, or the timer has woken up for no reason. */
  predicate Idle(s: Periodic, read: TimerRead) {
    !s.alive || s.args.task.None? || (s.timer.Some? && read == ReadAgain)
  }

  lemma SameResidue(a: nat, b: nat)
    requires b <= a
    ensures a % TWO_TO_THE_32 == b % TWO_TO_THE_32 <==> (a - b) % TWO_TO_THE_32 == 0
  {
    var m := TWO_TO_THE_32;
    assert a == m * (a / m) + a % m && b == m * (b / m) + b % m;
    assert a - b == m * (a / m - b / m) + (a % m - b % m);
  }

  /**
   A continuation whose epoch is over has no effect but to go if and only if there is nothing to do
   or the number of resets since is no multiple of 2^32; otherwise it calls the task that is current.
   */
  lemma StaleExactly(s: Periodic, t: Ticket, read: TimerRead)
    requires Inv(s) && t in s.pending && t != Current(s)
    ensures t.epoch < s.epoch
    ensures var s', gone := Apply(s, Fire(t, read)), s.(pending := s.pending - multiset{t});
            && (s' == gone <==> Idle(s, read) || (s.epoch - t.epoch) % TWO_TO_THE_32 != 0)
            && (s' != gone ==> s'.calls == s.calls + [Call(s.epoch, s.args.oneShot, true)])
  {
    SameResidue(s.epoch, t.epoch);
  }

  // ---------------------------------------------------------------- what the operations do

  /**
   Start makes the task active if and only if it is given a task and a period. It has a timer exactly
   if one was asked for and made, and is called at once exactly if that was asked for.
   */
  lemma StartExactly(s: Periodic, args: Args, timerCreated: bool)
    requires Enabled(s, DoStart(args, timerCreated))
    ensures var s' := Apply(s, DoStart(args, timerCreated));
            && s'.epoch == s.epoch + 1 && s'.alive == s.alive
            && (if 0 < args.periodMs && args.task.Some? then
                  && s'.args == args && (s'.timer.Some? <==> args.useSuspendAwareTimer && timerCreated)
                  && s'.calls == s.calls + (if args.startFirstTaskImmediately
                                            then [Call(s'.epoch, args.oneShot, false)] else [])
                else !Active(s') && s'.timer == None && s'.calls == s.calls)
  {
  }

  /** The continuation or timer is bound to the generation of a live, active task, and the timer has expired. */
  predicate Acts(s: Periodic, op: Op) {
    && s.alive && Active(s)
    && match op
       case Fire(ticket, read) =>
         ticket.generation == s.epoch % TWO_TO_THE_32 && (s.timer.Some? ==> read != ReadAgain)
       case TimerFires(read) => read != ReadAgain
       case _ => false
  }

  /**
   A continuation or timer that acts calls the task exactly once, and the task stays active unless it
   is a one-shot; a timer that cannot be read is given up. One that does not act changes nothing.
   */
  lemma CallsExactly(s: Periodic, op: Op)
    requires Inv(s) && Enabled(s, op) && (op.Fire? || op.TimerFires?)
    ensures var s' := Apply(s, op);
            if Acts(s, op) then
              && s'.calls == s.calls + [Call(s.epoch, s.args.oneShot, true)] && s'.alive
              && (s.args.oneShot ==> !Active(s') && s'.timer == None && s'.epoch == s.epoch + 1)
              && (!s.args.oneShot ==>
                    && s'.args == s.args && s'.epoch == s.epoch
                    && s'.timer == if op.read == ReadFailed then None else s.timer)
            else s' == s.(pending := s'.pending) && s'.pending <= s.pending
  {
  }

  /** Reset and Destroy end the task and call nothing. */
  lemma ResetCallsNothing(s: Periodic, op: Op)
    requires Enabled(s, op) && (op == DoReset || op == Destroy)
    ensures var s' := Apply(s, op);
            && !Active(s') && s'.timer == None && s'.calls == s.calls && s'.epoch == s.epoch + 1
            && s'.alive == (s.alive && op == DoReset)
  {
  }

  // ---------------------------------------------------------------- what every operation keeps

  lemma DropKeeps(s: Periodic, t: Ticket)
    requires Inv(s) && t in s.pending
    ensures var s1 := s.(pending := s.pending - multiset{t});
            Inv(s1) && s1.pending[Current(s)] == s.pending[Current(s)] - if t == Current(s) then 1 else 0
  {
  }

  /**
   A continuation that is not the current one, but bound to the same 32 bits, finds a repeating task
   without a timer.
   */
  predicate Doubles(s: Periodic, op: Op) {
    && op.Fire? && op.ticket != Current(s) && op.ticket.generation == s.epoch % TWO_TO_THE_32
    && s.alive && Active(s) && s.timer.None? && !s.args.oneShot
  }

  lemma FireKeeps(s: Periodic, t: Ticket, read: TimerRead)
    requires Inv(s) && t in s.pending
    ensures Inv(Apply(s, Fire(t, read)))
    ensures Tidy(s) ==> (Tidy(Apply(s, Fire(t, read))) <==> !Doubles(s, Fire(t, read)))
  {
    hide TicketsOk, OneShotsOk, Proceed;
    var s1 := s.(pending := s.pending - multiset{t});
    DropKeeps(s, t);
    if !Idle(s1, read) && t.generation == s.epoch % TWO_TO_THE_32 {
      var s2 := if s1.timer.Some? && read == ReadFailed then s1.(timer := None) else s1;
      TimerGone(s1, s2);
      ProceedKeeps(s2);
    } else {
      StaleStays(s, t, read);
    }
  }

  /** The current continuation is not pending while there is a timer or nothing to do. */
  lemma StaleStays(s: Periodic, t: Ticket, read: TimerRead)
    requires Inv(s) && t in s.pending && (Idle(s, read) || t.generation != s.epoch % TWO_TO_THE_32)
    ensures Tidy(s) ==> t != Current(s) && Tidy(s.(pending := s.pending - multiset{t}))
  {
    assert Tidy(s) && t == Current(s) ==> s.pending[t] >= 1;
  }

  lemma TimerFiresKeeps(s: Periodic, read: TimerRead)
    requires Inv(s) && s.timer.Some?
    ensures Inv(Apply(s, TimerFires(read))) && (Tidy(s) ==> Tidy(Apply(s, TimerFires(read))))
  {
    hide TicketsOk, OneShotsOk, Proceed;
    if !Idle(s, read) {
      var s1 := if read == ReadFailed then s.(timer := None) else s;
      TimerGone(s, s1);
      ProceedKeeps(s1);
    }
  }

  lemma TimerGone(s: Periodic, s1: Periodic)
    requires Inv(s) && (s1 == s || s1 == s.(timer := None))
    ensures Inv(s1)
  {
  }

  /** Every operation keeps the invariant, and the state tidy if and only if it does not double a continuation. */
  lemma StepKeeps(s: Periodic, op: Op)
    requires Inv(s) && Enabled(s, op)
    ensures Inv(Apply(s, op))
    ensures Tidy(s) ==> (Tidy(Apply(s, op)) <==> !Doubles(s, op))
  {
    hide TicketsOk, OneShotsOk;
    match op
    case DoStart(args, timerCreated) => StartKeeps(s, args, timerCreated);
    case DoReset => ResetKeeps(s);
    case Destroy => DestroyKeeps(s);
    case Fire(ticket, read) => FireKeeps(s, ticket, read);
    case TimerFires(read) => TimerFiresKeeps(s, read);
  }

  /** A doubled continuation: two of the current generation are pending. */
  lemma DoublingLeavesTwo(s: Periodic, op: Op)
    requires Inv(s) && Tidy(s) && Enabled(s, op) && Doubles(s, op)
    ensures Current(Apply(s, op)) == Current(s) && Apply(s, op).pending[Current(s)] == 2
  {
    DropKeeps(s, op.ticket);
  }

  // ---------------------------------------------------------------- runs

  predicate CanRun(s: Periodic, ops: seq<Op>)
    decreases |ops|
  {
    ops == [] || (Enabled(s, ops[0]) && CanRun(Apply(s, ops[0]), ops[1..]))
  }

  function Run(s: Periodic, ops: seq<Op>): Periodic
    requires CanRun(s, ops)
    decreases |ops|
  {
    if ops == [] then s else Run(Apply(s, ops[0]), ops[1..])
  }

  lemma {:induction false} RunKeeps(s: Periodic, ops: seq<Op>)
    requires Inv(s) && CanRun(s, ops)
    ensures Inv(Run(s, ops))
    decreases |ops|
  {
    hide Inv, Apply, Enabled;
    if ops != [] {
      StepKeeps(s, ops[0]);
      RunKeeps(Apply(s, ops[0]), ops[1..]);
    }
  }

  /** The state is tidy at every moment of the run. */
  predicate AlwaysTidy(s: Periodic, ops: seq<Op>)
    requires CanRun(s, ops)
    decreases |ops|
  {
    Tidy(s) && (ops == [] || AlwaysTidy(Apply(s, ops[0]), ops[1..]))
  }

  predicate NeverDoubles(s: Periodic, ops: seq<Op>)
    requires CanRun(s, ops)
    decreases |ops|
  {
    ops == [] || (!Doubles(s, ops[0]) && NeverDoubles(Apply(s, ops[0]), ops[1..]))
  }

  lemma {:induction false} RunTidyExactly(s: Periodic, ops: seq<Op>)
    requires Inv(s) && Tidy(s) && CanRun(s, ops)
    ensures AlwaysTidy(s, ops) <==> NeverDoubles(s, ops)
    decreases |ops|
  {
    hide Inv, Tidy, Doubles, Apply, Enabled;
    if ops != [] {
      StepKeeps(s, ops[0]);
      if Tidy(Apply(s, ops[0])) {
        RunTidyExactly(Apply(s, ops[0]), ops[1..]);
      } else {
        assert !AlwaysTidy(Apply(s, ops[0]), ops[1..]);
      }
    }
  }

  /**
   For every run: at every moment an active task has exactly one pending continuation of the current
   generation or a timer, and an inactive one neither, if and only if no stale continuation that is
   bound to the same 32 bits ever finds a repeating task without a timer.
   */
  lemma OneContinuation(ops: seq<Op>)
    requires CanRun(NEW, ops)
    ensures AlwaysTidy(NEW, ops) <==> NeverDoubles(NEW, ops)
  {
    RunTidyExactly(NEW, ops);
  }

  /** Through the task runner a one-shot task is called at most once per Start, in every run. */
  lemma OneShotOnce(ops: seq<Op>, i: nat, j: nat)
    requires CanRun(NEW, ops)
    requires var calls := Run(NEW, ops).calls;
             i < j < |calls| && OneShotRun(calls[i]) && OneShotRun(calls[j])
    ensures Run(NEW, ops).calls[i].epoch != Run(NEW, ops).calls[j].epoch
  {
    RunKeeps(NEW, ops);
  }

  // ---------------------------------------------------------------- a run that doubles

  lemma {:induction false} OneMore(s: Periodic, ops: seq<Op>, op: Op)
    requires CanRun(s, ops) && Enabled(Run(s, ops), op)
    ensures CanRun(s, ops + [op]) && Run(s, ops + [op]) == Apply(Run(s, ops), op)
    decreases |ops|
  {
    hide Apply, Enabled;
    if ops == [] {
      assert ops + [op] == [op];
    } else {
      assert (ops + [op])[1..] == ops[1..] + [op];
      OneMore(Apply(s, ops[0]), ops[1..], op);
    }
  }

  lemma {:induction false} ManyResets(s: Periodic, ops: seq<Op>, n: nat) returns (more: seq<Op>)
    requires CanRun(s, ops) && Run(s, ops).alive && 0 < n
    ensures CanRun(s, more)
    ensures Run(s, more) == Run(s, ops).(epoch := Run(s, ops).epoch + n, args := NO_ARGS, timer := None)
    decreases n
  {
    hide CanRun, Run;
    OneMore(s, ops, DoReset);
    more := ops + [DoReset];
    if 1 < n {
      more := ManyResets(s, more, n - 1);
    }
  }

  /**
   A repeating task is started, reset 2^32 - 1 times and started again while the first continuation
   is still queued. That continuation is stale, but acts, and leaves two of the current generation.
   */
  lemma StaleExample() returns (ops: seq<Op>)
    ensures CanRun(NEW, ops)
    ensures var s, fire := Run(NEW, ops), Fire(Ticket(1, 1), ReadOk);
            && Current(s) == Ticket(1, TWO_TO_THE_32 + 1) && Enabled(s, fire) && Doubles(s, fire)
            && Apply(s, fire).pending[Current(s)] == 2
  {
    hide CanRun, Run;
    var args := Args(1000, Some(0), false, false, false);
    NothingYet();
    OneMore(NEW, [], DoStart(args, false));
    ops := ManyResets(NEW, [] + [DoStart(args, false)], TWO_TO_THE_32 - 1);
    OneMore(NEW, ops, DoStart(args, false));
    ops := ops + [DoStart(args, false)];
  }

  lemma NothingYet()
    ensures CanRun(NEW, []) && Run(NEW, []) == NEW
  {
  }
}
