/** The periodic task object. */
module PeriodicTask {
  import opened Common
  import opened PeriodicModel

  /** A call of PostDelayedTask: the generation that the continuation is bound to, and the delay. */
  datatype Post = Post(generation: nat, delayMs: nat)

  class PeriodicTask {
    var alive: bool
    var generation: nat             // 32 bits
    var args: Args
    var timerFd: Option<nat>        // open, with a watch bound to this generation
    var posts: seq<Post>            // what was given to the task runner
    var ran: seq<nat>               // the tasks called
    ghost var epoch: nat            // counts the resets
    ghost var timerEpoch: nat
    ghost var pending: multiset<Ticket>
    ghost var calls: seq<Call>

    ghost predicate Valid()
      reads this
    {
      generation == epoch % TWO_TO_THE_32 && args.periodMs < TWO_TO_THE_32 && (args.task.Some? ==> 0 < args.periodMs)
    }

    ghost function View(): Periodic
      reads this
    {
      var timer := if timerFd.None? then None else Some(Ticket(timerFd.value, timerEpoch));
      Periodic(alive, epoch, args, timer, pending, calls)
    }

    constructor ()
      ensures Valid() && View() == NEW && posts == [] && ran == []
    {
      alive, generation, args, timerFd, posts, ran := true, 0, NO_ARGS, None, [], [];
      epoch, timerEpoch, pending, calls := 0, 0, multiset{}, [];
    }

    method Reset()
      requires Valid()
      modifies this`generation, this`epoch, this`args, this`timerFd
      ensures Valid() && View() == PeriodicModel.Reset(old(View()))
    {
      generation, epoch := (generation + 1) % TWO_TO_THE_32, epoch + 1;
      args := NO_ARGS;
      ResetTimerFd();
    }

    method ResetTimerFd()
      modifies this`timerFd
      ensures timerFd == None
    {
      if timerFd.None? {
        return;
      }
      timerFd := None;
    }

    method PostNextTask(nowMs: int)
      requires Valid() && args.task.Some?
      modifies this`pending, this`posts
      ensures View() == PeriodicModel.PostNextTask(old(View()))
      ensures posts == old(posts) + [Post(generation, NextDelayMs(nowMs, args.periodMs, args.oneShot))]
      ensures var delay := posts[|old(posts)|].delayMs;
              if args.oneShot then delay == args.periodMs else 0 <= nowMs ==> Aligned(nowMs, delay, args.periodMs)
    {
      OneShotWaits(nowMs, args.periodMs);
      DelayExactly(nowMs, args.periodMs);
      hide NextDelayMs, Aligned;
      posts := posts + [Post(generation, NextDelayMs(nowMs, args.periodMs, args.oneShot))];
      pending := pending + multiset{Ticket(generation, epoch)};
    }

    method RunTask(task: nat, ghost epoch: nat, ghost oneShot: bool, ghost throughRunner: bool)
      modifies this`ran, this`calls
      ensures ran == old(ran) + [task] && View() == CallTask(old(View()), epoch, oneShot, throughRunner)
    {
      ran := ran + [task];
      calls := calls + [Call(epoch, oneShot, throughRunner)];
    }

    /** One continuation is posted unless there is a timer, and the task is called if it is to start at once. */
    method Start(newArgs: Args, timerCreated: bool, nowMs: int)
      requires Valid() && newArgs.periodMs < TWO_TO_THE_32
      modifies this
      ensures Valid() && View() == PeriodicModel.Start(old(View()), newArgs, timerCreated)
      ensures posts == old(posts) + if args.task.Some? && timerFd.None?
                                    then [Post(generation, NextDelayMs(nowMs, newArgs.periodMs, newArgs.oneShot))]
                                        else []
      ensures ran == old(ran) + if args.task.Some? && newArgs.startFirstTaskImmediately then [args.task.value] else []
    {
      hide NextDelayMs;
      Reset();
      if newArgs.periodMs == 0 || newArgs.task.None? {
        return;
      }
      args := newArgs;
      if args.useSuspendAwareTimer {
        if timerCreated {
          timerFd, timerEpoch := Some(generation), epoch;
        }
      }
      if timerFd.None? {
        PostNextTask(nowMs);
      }
      if args.startFirstTaskImmediately {
        RunTask(args.task.value, epoch, args.oneShot, false);
      }
    }

    /** The continuation is current, and not a spurious wake-up of the timer. */
    ghost predicate Acts(boundGeneration: nat, read: TimerRead)
      reads this
    {
      alive && args.task.Some? && boundGeneration == generation && !(timerFd.Some? && read == ReadAgain)
    }

    /** The task that was current when the continuation ran is called, after the next one has been posted. */
    method RunTaskAndPostNext(boundGeneration: nat, read: TimerRead, nowMs: int)
      requires Valid()
      modifies this
      ensures Valid() && View() == PeriodicModel.RunTaskAndPostNext(old(View()), boundGeneration, read)
      ensures ran == old(ran) + if old(Acts(boundGeneration, read)) then [old(args).task.value] else []
      ensures posts == old(posts) + if old(Acts(boundGeneration, read)) && !old(args).oneShot && timerFd.None?
                                    then [Post(generation, NextDelayMs(nowMs, args.periodMs, false))] else []
    {
      hide NextDelayMs, PeriodicModel.Proceed;
      if !alive || args.task.None? || boundGeneration != generation {
        return;
      }
      if timerFd.Some? {
        if read != ReadOk {
          if read == ReadAgain {
            return;
          }
          ResetTimerFd();
        }
      }
      Proceed(nowMs);
    }

    method Proceed(nowMs: int)
      requires Valid() && args.task.Some?
      modifies this
      ensures Valid() && View() == PeriodicModel.Proceed(old(View())) && ran == old(ran) + [old(args).task.value]
      ensures posts == old(posts) + if !old(args).oneShot && timerFd.None?
                                    then [Post(generation, NextDelayMs(nowMs, args.periodMs, false))] else []
    {
      hide NextDelayMs;
      var task := args.task.value;
      ghost var epochNow, oneShot := epoch, args.oneShot;
      if args.oneShot {
        Reset();
      } else if timerFd.None? {
        PostNextTask(nowMs);
      }
      RunTask(task, epochNow, oneShot, true);
    }

    /** The task runner runs a posted continuation. */
    method Fire(boundGeneration: nat, ghost ticket: Ticket, read: TimerRead, nowMs: int)
      requires Valid() && ticket in pending && ticket.generation == boundGeneration
      modifies this
      ensures Valid() && View() == Apply(old(View()), PeriodicModel.Fire(ticket, read))
    {
      pending := pending - multiset{ticket};
      RunTaskAndPostNext(boundGeneration, read, nowMs);
    }

    method Destroy()
      requires Valid() && alive
      modifies this
      ensures Valid() && View() == Apply(old(View()), PeriodicModel.Destroy)
    {
      Reset();
      alive := false;
    }
  }
}
