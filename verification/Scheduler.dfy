/** The scheduler object: each critical section of the program as one method, proved to be a step of the
    state machine. Together with `SchedulerSafety` every sequence of calls keeps what is proved there. */
module Scheduler {
  import opened Wrappers
  import opened SchedulerModel
  import opened SchedulerSafety

  datatype ConfigError = NoHandlers | ConcurrencyNotPositive | CapacityNotPositive

  datatype ShutdownError = NegativeTimeout | DeadlinePassed

  class DaemonScheduler {
    const config: Config
    var pending: seq<Queued>
    var active: map<string, Queued>
    var busyResources: set<string>
    var sequence: nat
    var phase: Phase
    var lastError: Option<string>
    var futures: seq<FutureState>
    var dispatcher: Dispatcher
    var clock: real
    ghost var running: set<Queued>
    ghost var finishing: map<Queued, Option<string>>

    ghost function View(): State
      reads this
    {
      State(pending, active, busyResources, sequence, phase, lastError, futures, running, finishing, dispatcher, clock)
    }

    ghost predicate Valid()
      reads this
    {
      config.Valid() && Inv(config, View())
    }

    constructor (config: Config)
      requires config.Valid()
      ensures Valid() && View() == INITIAL && this.config == config
    {
      this.config := config;
      pending, active, busyResources, sequence := [], map[], {}, 0;
      phase, lastError, futures, dispatcher, clock := Created, None, [], NotStarted, 0.0;
      running, finishing := {}, map[];
      InitialInv(config);
    }

    static method Create(kinds: set<string>, maxConcurrency: int, queueCapacity: int)
      returns (r: Result<DaemonScheduler, ConfigError>)
      ensures r.Ok? <==> kinds != {} && maxConcurrency >= 1 && queueCapacity >= 1
      ensures r.Ok? ==> fresh(r.value) && r.value.Valid() && r.value.View() == INITIAL
      ensures r.Ok? ==> r.value.config == Config(kinds, maxConcurrency, queueCapacity)
    {
      if kinds == {} {
        return Err(NoHandlers);
      }
      if maxConcurrency < 1 {
        return Err(ConcurrencyNotPositive);
      }
      if queueCapacity < 1 {
        return Err(CapacityNotPositive);
      }
      var scheduler := new DaemonScheduler(Config(kinds, maxConcurrency, queueCapacity));
      r := Ok(scheduler);
    }

    /** The condition notifies its one waiter. */
    method NotifyDispatcher()
      modifies this`dispatcher
      ensures dispatcher == Notify(old(dispatcher))
    {
      if dispatcher.Asleep? {
        dispatcher := Awake;
      }
    }

    method Start() returns (r: Result<(), Error>)
      requires Valid()
      modifies this
      ensures Valid() && Next(config, old(View()), Event.Start, View())
      ensures r.Err? <==> old(phase) in {Stopping, Stopped}
    {
      hide Inv, IsNext, IsWakeTime;
      ghost var s := View();
      if phase in {Stopping, Stopped} {
        return Err(SchedulerStopped);
      }
      if phase == Running {
        return Ok(());
      }
      phase, dispatcher := Running, Awake;
      StepKeepsInv(config, s, Event.Start, View());
      r := Ok(());
    }

    method AppendQueued(task: Task, runAt: real, interval: Option<real>) returns (completion: nat)
      modifies this
      ensures View() == Enqueue(old(View()), task, runAt, interval)
      ensures completion == |old(futures)|
    {
      completion := |futures|;
      futures := futures + [Waiting];
      var queued := Queued(task, completion, runAt, sequence, interval);
      sequence := sequence + 1;
      pending := pending + [queued];
      active := active[task.identity := queued];
    }

    method Submit(task: Task, delay: real, interval: Option<real>) returns (r: Result<nat, Error>)
      requires Valid()
      modifies this
      ensures Valid() && Next(config, old(View()), Event.Submit(task, delay, interval), View())
      ensures r == SubmitOutcome(config, old(View()), task, delay, interval)
    {
      hide Inv, IsNext, IsWakeTime;
      ghost var s := View();
      if delay < 0.0 {
        return Err(NegativeDelay);
      }
      if interval.Some? && interval.value <= 0.0 {
        return Err(NonPositiveInterval);
      }
      if phase !in {Created, Running} {
        return Err(SchedulerStopped);
      }
      if task.kind !in config.kinds {
        return Err(UnknownKind);
      }
      if task.identity in active {
        return Ok(active[task.identity].completion);
      }
      if |active| >= config.queueCapacity {
        return Err(CapacityFull);
      }
      var completion := AppendQueued(task, clock + delay, interval);
      NotifyDispatcher();
      r := Ok(completion);
      StepKeepsInv(config, s, Event.Submit(task, delay, interval), View());
    }

    /** `min` over the eligible entries: the least one, or nothing. */
    method NextRunnable() returns (next: Option<Queued>)
      requires Valid()
      ensures IsNext(config, View(), clock, next)
    {
      hide Inv;
      PendingOrdered(config, View());
      next := None;
      if |busyResources| >= config.maxConcurrency {
        return;
      }
      for i := 0 to |pending|
        invariant next.None? ==> forall j :: 0 <= j < i ==> !Eligible(View(), clock, pending[j])
        invariant next.Some? ==>
                    && Eligible(View(), clock, next.value)
                    && exists k :: 0 <= k < i && pending[k] == next.value
        invariant next.Some? ==> forall j | 0 <= j < i && Eligible(View(), clock, pending[j]) ::
                    pending[j] != next.value ==> Before(next.value, pending[j])
      {
        var queued := pending[i];
        if queued.runAt <= clock && queued.task.resource !in busyResources {
          if next.None? || Before(queued, next.value) {
            next := Some(queued);
          }
        }
      }
    }

    /** How long the dispatcher may wait: until the first pending task on a free resource is due. */
    method WaitTimeout() returns (timeout: Option<real>)
      ensures timeout.Some? ==> timeout.value >= 0.0
      ensures IsWakeTime(config, View(), clock, if timeout.Some? then Some(clock + timeout.value) else None)
    {
      timeout := None;
      if |busyResources| >= config.maxConcurrency {
        return;
      }
      var nextRun: Option<real> := None;
      for i := 0 to |pending|
        invariant nextRun.None? ==> forall j :: 0 <= j < i ==> pending[j].task.resource in busyResources
        invariant nextRun.Some? ==>
                    exists j :: 0 <= j < i && pending[j].task.resource !in busyResources
                      && pending[j].runAt == nextRun.value
        invariant nextRun.Some? ==> forall j | 0 <= j < i && pending[j].task.resource !in busyResources ::
                    nextRun.value <= pending[j].runAt
      {
        if pending[i].task.resource !in busyResources && (nextRun.None? || pending[i].runAt < nextRun.value) {
          nextRun := Some(pending[i].runAt);
        }
      }
      if nextRun.Some? {
        timeout := Some(if nextRun.value - clock > 0.0 then nextRun.value - clock else 0.0);
      }
    }

    /** `list.remove`: the first entry equal to `queued` goes. */
    method RemovePending(queued: Queued)
      modifies this`pending
      ensures pending == Remove(old(pending), queued)
    {
      for i := 0 to |pending|
        invariant pending == old(pending)
        invariant Remove(pending, queued) == pending[..i] + Remove(pending[i..], queued)
      {
        if pending[i] == queued {
          pending := pending[..i] + pending[i + 1..];
          return;
        }
        assert pending[i..][1..] == pending[i + 1..];
        assert pending[..i + 1] == pending[..i] + [pending[i]];
      }
    }

    /** One turn of the dispatcher under the lock: hand out a task, stop, or compute the wait.
        `later` is the clock reading made when the wait is computed. */
    method DispatchStep(later: real) returns (next: Option<Queued>)
      requires Valid() && dispatcher == Awake && later >= clock
      modifies this
      ensures Valid()
      ensures next.Some? ==> Next(config, old(View()), Dispatch(next.value), View())
      ensures next.None? ==>
                || Next(config, old(View()), ExitDispatcher, View())
                || Next(config, old(View()), Sleep(later), View())
    {
      hide Inv, IsNext, IsWakeTime;
      ghost var s := View();
      next := NextRunnable();
      match next
      case Some(queued) =>
        RemovePending(queued);
        busyResources := busyResources + {queued.task.resource};
        running := running + {queued};
        StepKeepsInv(config, s, Dispatch(queued), View());
      case None =>
        if phase == Stopping && busyResources == {} {
          dispatcher := Exited(clock);
          StepKeepsInv(config, s, ExitDispatcher, View());
          return;
        }
        clock := later;
        var timeout := WaitTimeout();
        SameWakeTime(config, View(), s, later, if timeout.Some? then Some(clock + timeout.value) else None);
        dispatcher := Asleep(clock, if timeout.Some? then Some(clock + timeout.value) else None);
        StepKeepsInv(config, s, Sleep(later), View());
    }

    /** The locked part of a completion, run by the worker when the handler has returned or raised. */
    method Complete(queued: Queued, error: Option<string>)
      requires Valid() && queued in running
      modifies this
      ensures Valid() && Next(config, old(View()), Event.Complete(queued, error), View())
    {
      hide Inv, IsNext, IsWakeTime, Notify;
      ghost var s := View();
      busyResources := busyResources - {queued.task.resource};
      active := active - {queued.task.identity};
      lastError := error;
      running, finishing := running - {queued}, finishing[queued := error];
      NotifyDispatcher();
      if queued.interval.Some? && phase == Running {
        var _ := AppendQueued(queued.task, clock + queued.interval.value, queued.interval);
      }
      StepKeepsInv(config, s, Event.Complete(queued, error), View());
    }

    /** The rest of a completion: `set_result` or `set_exception` on a future nobody has settled yet. */
    method Resolve(queued: Queued, error: Option<string>)
      requires Valid() && queued in finishing && finishing[queued] == error
      modifies this
      ensures Valid() && Next(config, old(View()), Event.Resolve(queued), View())
      ensures old(futures[queued.completion]) == Waiting
    {
      ghost var s := View();
      hide Inv, IsNext, IsWakeTime;
      FinishingWaits(config, s, queued);
      futures := futures[queued.completion := Done(error)];
      finishing := finishing - {queued};
      StepKeepsInv(config, s, Event.Resolve(queued), View());
    }

    /** Empty the queue; drop each identity and cancel each future in turn. */
    method CancelAllPending()
      modifies this`pending, this`active, this`futures
      ensures View() == CancelPending(old(View()))
    {
      ghost var s := View();
      var cancelled := pending;
      pending := [];
      for i := 0 to |cancelled|
        invariant pending == [] && View() == s.(pending := [], active := active, futures := futures)
        invariant CancelPending(View().(pending := cancelled[i..])) == CancelPending(s)
      {
        ghost var before := View().(pending := cancelled[i..]);
        var queued := cancelled[i];
        active := active - {queued.task.identity};
        futures := Cancel(futures, queued.completion);
        assert CancelFirst(before) == View().(pending := cancelled[i + 1..]);
      }
    }

    /** Close admission and, unless told otherwise, cancel everything that has not started. */
    method CloseAdmission(cancelPending: bool)
      modifies this
      ensures View() == AfterBeginShutdown(old(View()), cancelPending)
    {
      hide CancelPending;
      if phase == Stopped {
        return;
      }
      phase := Stopping;
      NotifyDispatcher();
      if cancelPending {
        CancelAllPending();
      }
    }

    method BeginShutdown(timeout: real, cancelPending: bool) returns (r: Result<(), ShutdownError>)
      requires Valid()
      modifies this
      ensures Valid()
      ensures timeout < 0.0 ==> r == Err(NegativeTimeout) && View() == old(View())
      ensures timeout >= 0.0 ==> r == Ok(()) && Next(config, old(View()), Event.BeginShutdown(cancelPending), View())
    {
      hide Inv, AfterBeginShutdown;
      if timeout < 0.0 {
        return Err(NegativeTimeout);
      }
      ghost var s := View();
      CloseAdmission(cancelPending);
      StepKeepsInv(config, s, Event.BeginShutdown(cancelPending), View());
      r := Ok(());
    }

    /** The end of a shutdown call: the dispatcher has been joined, or the deadline has passed. */
    method EndShutdown() returns (r: Result<(), ShutdownError>)
      requires Valid() && phase in {Stopping, Stopped}
      requires dispatcher.Awake? || dispatcher.Asleep? || (running == {} && finishing == map[])
      modifies this
      ensures Valid()
      ensures r.Err? <==> old(dispatcher).Awake? || old(dispatcher).Asleep?
      ensures r.Err? ==> r == Err(DeadlinePassed) && View() == old(View())
      ensures r.Ok? ==> Next(config, old(View()), Event.EndShutdown, View())
    {
      hide Inv, IsNext, IsWakeTime;
      ghost var s := View();
      if dispatcher.Awake? || dispatcher.Asleep? {
        return Err(DeadlinePassed);
      }
      phase := Stopped;
      StepKeepsInv(config, s, Event.EndShutdown, View());
      r := Ok(());
    }
  }
}
