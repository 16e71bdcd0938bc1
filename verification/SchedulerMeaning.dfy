/** What the scheduler's steps do, field by field, and what follows for periodic tasks and for results. */
module SchedulerMeaning {
  import opened Wrappers
  import opened SchedulerModel
  import opened SchedulerSafety

  // ---------------------------------------------------------------- admission

  /** The checks of a submission, in the order in which they are made. */
  predicate Refused(c: Config, s: State, task: Task, delay: real, interval: Option<real>) {
    || delay < 0.0 || (interval.Some? && interval.value <= 0.0)
    || s.phase == Stopping || s.phase == Stopped
    || task.kind !in c.kinds
    || (task.identity !in s.active && |s.active| >= c.queueCapacity)
  }

  /** A refused or coalesced submission changes nothing. Otherwise one entry is added at the end, due after the
      delay, with a new waiting future; the dispatcher wakes up. */
  lemma SubmitMeans(c: Config, s: State, task: Task, delay: real, interval: Option<real>, s': State)
    requires Next(c, s, Submit(task, delay, interval), s')
    ensures Refused(c, s, task, delay, interval) || task.identity in s.active ==> s' == s
    ensures !Refused(c, s, task, delay, interval) && task.identity !in s.active ==>
              && |s'.pending| == |s.pending| + 1 && s'.pending[..|s.pending|] == s.pending
              && var q := s'.pending[|s.pending|];
              && q.task == task && q.interval == interval && q.runAt == s.now + delay
              && q.completion == |s.futures| && s'.futures == s.futures + [Waiting]
              && q.sequence == s.sequence && s'.sequence == s.sequence + 1
              && s'.active == s.active[task.identity := q]
              && !s'.dispatcher.Asleep? && (!s.dispatcher.Asleep? ==> s'.dispatcher == s.dispatcher)
              && s'.busy == s.busy && s'.running == s.running && s'.finishing == s.finishing
              && s'.phase == s.phase && s'.now == s.now && s'.lastError == s.lastError
  {
  }

  /** What the caller gets: an error by the first check that fails, the future of the task that is already
      active, or a new one. */
  lemma SubmitAnswers(c: Config, s: State, task: Task, delay: real, interval: Option<real>)
    ensures var r := SubmitOutcome(c, s, task, delay, interval);
            && (r.Err? <==> Refused(c, s, task, delay, interval))
            && (r.Ok? ==>
                  r.value == if task.identity in s.active then s.active[task.identity].completion else |s.futures|)
            && (delay < 0.0 ==> r == Err(NegativeDelay))
            && (delay >= 0.0 && interval.Some? && interval.value <= 0.0 ==> r == Err(NonPositiveInterval))
            && (r == Err(CapacityFull) ==> |s.active| >= c.queueCapacity && task.identity !in s.active)
            && (r == Err(UnknownKind) ==> task.kind !in c.kinds && s.phase in {Created, Running})
            && (r == Err(SchedulerStopped) ==> s.phase in {Stopping, Stopped})
  {
  }

  /** The new entry may run from clock + delay on and not before. */
  lemma SubmitIsDueAfterDelay(c: Config, s: State, task: Task, delay: real, interval: Option<real>, s': State, t: real)
    requires Next(c, s, Submit(task, delay, interval), s')
    requires !Refused(c, s, task, delay, interval) && task.identity !in s.active
    ensures s'.pending != []
    ensures Eligible(s', t, s'.pending[|s'.pending| - 1]) <==> t >= s.now + delay && task.resource !in s.busy
  {
    SubmitMeans(c, s, task, delay, interval, s');
  }

  // ---------------------------------------------------------------- dispatch

  /** The choice by fields: of the entries that are due on a free resource, the one with the lowest priority
      number, of these the one due first, of these the one submitted first; nothing only if there is none, or
      no slot is free. */
  lemma NextMeans(c: Config, s: State, t: real, next: Option<Queued>)
    requires IsNext(c, s, t, next)
    ensures next.None? ==> |s.busy| >= c.maxConcurrency
                           || forall q :: q in s.pending ==> q.runAt > t || q.task.resource in s.busy
    ensures next.Some? ==>
              && |s.busy| < c.maxConcurrency
              && next.value in s.pending && next.value.runAt <= t && next.value.task.resource !in s.busy
              && forall r :: r in s.pending && r.runAt <= t && r.task.resource !in s.busy ==>
                   || next.value == r || next.value.task.priority < r.task.priority
                   || (next.value.task.priority == r.task.priority
                       && (next.value.runAt < r.runAt
                           || (next.value.runAt == r.runAt && next.value.sequence < r.sequence)))
  {
    forall r | r in s.pending && r.runAt <= t && r.task.resource !in s.busy
      ensures next.None? ==> |s.busy| >= c.maxConcurrency
      ensures next.Some? && next.value != r ==> Before(next.value, r)
    {
      assert Eligible(s, t, r);
    }
  }

  /** The entry leaves the queue, where the others keep their places, and occupies its resource. */
  lemma DispatchMeans(c: Config, s: State, q: Queued, s': State)
    requires Inv(c, s) && Next(c, s, Dispatch(q), s')
    ensures exists i ::
              && 0 <= i < |s.pending| && s.pending[i] == q && s'.pending == s.pending[..i] + s.pending[i + 1..]
    ensures s' == s.(pending := s'.pending, busy := s.busy + {q.task.resource}, running := s.running + {q})
    ensures q.runAt <= s.now && q.task.resource !in s.busy && |s.busy| < c.maxConcurrency
    ensures forall r :: r in s.pending && r != q && r.runAt <= s.now && r.task.resource !in s.busy ==>
              || q.task.priority < r.task.priority
              || (q.task.priority == r.task.priority && q.runAt < r.runAt)
              || (q.task.priority == r.task.priority && q.runAt == r.runAt && q.sequence < r.sequence)
  {
    hide Inv;
    forall r | r in s.pending && r != q && r.runAt <= s.now && r.task.resource !in s.busy ensures Before(q, r) {
      assert Eligible(s, s.now, r);
    }
    hide IsNext, Remove;
    var i := RemovedAt(s.pending, q);
  }

  lemma {:induction false} RemovedAt(s: seq<Queued>, q: Queued) returns (i: nat)
    requires q in s
    ensures i < |s| && s[i] == q && Remove(s, q) == s[..i] + s[i + 1..]
  {
    if s[0] == q {
      i := 0;
    } else {
      i := RemovedAt(s[1..], q);
      i := i + 1;
      assert s[..i] == [s[0]] + s[1..][..i - 1] && s[i + 1..] == s[1..][i..];
    }
  }

  // ---------------------------------------------------------------- completion

  /** A completion frees the resource and the identity and remembers the outcome. A periodic task is admitted
      again while the scheduler runs: due one interval from now, with a new future. */
  lemma CompleteMeans(c: Config, s: State, q: Queued, error: Option<string>, s': State)
    requires Next(c, s, Complete(q, error), s')
    ensures s'.busy == s.busy - {q.task.resource} && s'.running == s.running - {q}
    ensures s'.finishing == s.finishing[q := error] && s'.lastError == error
    ensures s'.phase == s.phase && s'.now == s.now && !s'.dispatcher.Asleep?
    ensures q.interval.Some? && s.phase == Running ==>
              && |s'.pending| == |s.pending| + 1 && s'.pending[..|s.pending|] == s.pending
              && var r := s'.pending[|s.pending|];
              && r.task == q.task && r.interval == q.interval && r.runAt == s.now + q.interval.value
              && r.completion == |s.futures| && s'.futures == s.futures + [Waiting]
              && r.sequence == s.sequence && s'.sequence == s.sequence + 1
              && s'.active == s.active[q.task.identity := r]
    ensures q.interval.None? || s.phase != Running ==>
              && s'.pending == s.pending && s'.futures == s.futures && s'.sequence == s.sequence
              && s'.active == s.active - {q.task.identity}
  {
    if q.interval.Some? && s.phase == Running {
      var id := q.task.identity;
      assert (s.active - {id})[id := s'.active[id]] == s.active[id := s'.active[id]];
    }
  }

  /** The task is active under its identity, to be repeated at this interval. */
  predicate Repeats(s: State, task: Task, interval: real) {
    && task.identity in s.active && s.active[task.identity].task == task
    && s.active[task.identity].interval == Some(interval)
  }

  predicate Open(s: State) {
    s.phase == Created || s.phase == Running
  }

  lemma StepKeepsRepeating(c: Config, s: State, e: Event, s': State, task: Task, interval: real)
    requires Inv(c, s) && Next(c, s, e, s') && Repeats(s, task, interval) && Open(s) && Open(s')
    ensures Repeats(s', task, interval)
  {
    hide Inv, Next;
    match e
    case Submit(other, delay, i) => SubmitMeans(c, s, other, delay, i, s');
    case Complete(q, error) => CompleteKeepsRepeating(c, s, q, error, s', task, interval);
    case _ => OthersKeepActive(c, s, e, s');
  }

  lemma CompleteKeepsRepeating(c: Config, s: State, q: Queued, error: Option<string>, s': State,
                               task: Task, interval: real)
    requires Inv(c, s) && Next(c, s, Complete(q, error), s') && Repeats(s, task, interval)
    requires Open(s) && Open(s')
    ensures Repeats(s', task, interval)
  {
    CompletesARunning(c, s, q, error, s');
    NotStartedIsIdle(c, s);
    hide Inv, Next;
    CompleteMeans(c, s, q, error, s');
    OwnIdentity(c, s, q);
  }

  lemma CompletesARunning(c: Config, s: State, q: Queued, error: Option<string>, s': State)
    requires Next(c, s, Complete(q, error), s')
    ensures q in s.running
  {
  }

  lemma OthersKeepActive(c: Config, s: State, e: Event, s': State)
    requires Next(c, s, e, s') && !e.Submit? && !e.Complete? && Open(s) && Open(s')
    ensures s'.active == s.active
  {
    hide IsNext, IsWakeTime;
    if e.BeginShutdown? {
      CancelEmpties(s.(phase := Stopping, dispatcher := Notify(s.dispatcher)));
    }
  }

  lemma OwnIdentity(c: Config, s: State, q: Queued)
    requires Inv(c, s) && q in s.running
    ensures q.task.identity in s.active && s.active[q.task.identity] == q
  {
    assert q in Admitted(s);
  }

  /** As long as the scheduler has not been shut down a periodic task stays active: it is pending or in flight,
      through all its runs, with the same task and interval. */
  lemma {:induction false} PeriodicStaysActive(c: Config, s: State, es: seq<Event>, s': State, task: Task,
                                               interval: real)
    requires c.Valid() && Inv(c, s) && Run(c, s, es, s') && Repeats(s, task, interval)
    requires Open(s) && Open(s')
    ensures Repeats(s', task, interval)
    ensures exists q :: q in Waitlist(s') + s'.running && q.task == task && q.interval == Some(interval)
    decreases |es|
  {
    hide Inv, Next, Repeats;
    if es == [] {
      ActiveIsAdmitted(c, s, task, interval);
    } else {
      var m :| Next(c, s, es[0], m) && Run(c, m, es[1..], s');
      StepKeepsInv(c, s, es[0], m);
      OpenBefore(c, m, es[1..], s');
      StepKeepsRepeating(c, s, es[0], m, task, interval);
      PeriodicStaysActive(c, m, es[1..], s', task, interval);
    }
  }

  lemma OpenBefore(c: Config, m: State, es: seq<Event>, s': State)
    requires c.Valid() && Inv(c, m) && Run(c, m, es, s') && Open(s')
    ensures Open(m)
  {
    hide Inv, Run;
    if !Open(m) {
      ClosedRun(c, m, es, s');
    }
  }

  lemma ActiveIsAdmitted(c: Config, s: State, task: Task, interval: real)
    requires Inv(c, s) && Repeats(s, task, interval)
    ensures exists q :: q in Waitlist(s) + s.running && q.task == task && q.interval == Some(interval)
  {
    assert s.active[task.identity] in Waitlist(s) + s.running;
  }

  lemma NotStartedIsIdle(c: Config, s: State)
    requires Inv(c, s)
    ensures s.phase == Created ==> s.running == {}
  {
  }

  // ---------------------------------------------------------------- results

  /** Resolving gives the future the outcome that the completion remembered, and touches no other. */
  lemma ResolveMeans(c: Config, s: State, q: Queued, s': State)
    requires Next(c, s, Resolve(q), s')
    ensures q in s.finishing && q.completion < |s.futures|
    ensures s'.futures == s.futures[q.completion := Done(s.finishing[q])]
    ensures s' == s.(futures := s'.futures, finishing := s.finishing - {q})
  {
  }

  /** The future of a completed run is waiting to be resolved with that run's outcome, or has been. */
  ghost predicate HasOutcome(s: State, q: Queued, error: Option<string>) {
    && q.completion < |s.futures|
    && ((q in s.finishing && s.finishing[q] == error) || s.futures[q.completion] == Done(error))
  }

  lemma StepKeepsOutcome(c: Config, s: State, e: Event, s': State, q: Queued, error: Option<string>)
    requires Inv(c, s) && Next(c, s, e, s') && HasOutcome(s, q, error)
    ensures HasOutcome(s', q, error)
  {
    hide Inv, Next;
    StepSettlesOnce(c, s, e, s', q.completion);
    if q in s.finishing {
      FinishingWaits(c, s, q);
      match e
      case Complete(other, outcome) =>
        CompletesARunning(c, s, other, outcome, s');
        RunningIsNotFinishing(c, s, other);
        CompleteMeans(c, s, other, outcome, s');
      case Resolve(other) => ResolveMeans(c, s, other, s');
      case _ => OthersKeepFinishing(c, s, e, s');
    }
  }

  lemma RunningIsNotFinishing(c: Config, s: State, q: Queued)
    requires Inv(c, s) && q in s.running
    ensures q !in s.finishing
  {
    assert q in Admitted(s);
  }

  lemma OthersKeepFinishing(c: Config, s: State, e: Event, s': State)
    requires Next(c, s, e, s') && !e.Complete? && !e.Resolve?
    ensures s'.finishing == s.finishing
  {
    hide IsNext, IsWakeTime;
    if e.BeginShutdown? {
      CancelEmpties(s.(phase := Stopping, dispatcher := Notify(s.dispatcher)));
    }
  }

  /** A run of a task that completed with some outcome settles its own future with that outcome and no other. */
  lemma {:induction false} EveryRunGetsItsOwnOutcome(c: Config, s: State, q: Queued, error: Option<string>, m: State,
                                                     es: seq<Event>, s': State)
    requires c.Valid() && Inv(c, s) && Next(c, s, Complete(q, error), m) && Run(c, m, es, s')
    ensures q.completion < |s'.futures| && s'.futures[q.completion] in {Waiting, Done(error)}
    ensures s'.futures[q.completion] == Waiting ==> q in s'.finishing && s'.finishing[q] == error
    ensures s'.phase == Stopped ==> s'.futures[q.completion] == Done(error)
  {
    StepKeepsInv(c, s, Complete(q, error), m);
    hide Inv, Next, Run;
    CompleteMeans(c, s, q, error, m);
    assert q in m.finishing && m.finishing[q] == error;
    FinishingWaits(c, m, q);
    RunKeepsOutcome(c, m, es, s', q, error);
    RunKeepsInv(c, m, es, s');
    if q in s'.finishing {
      FinishingWaits(c, s', q);
      StoppedHasNoneFinishing(c, s');
    }
  }

  lemma StoppedHasNoneFinishing(c: Config, s: State)
    requires Inv(c, s)
    ensures s.phase == Stopped ==> s.finishing == map[]
  {
  }

  lemma {:induction false} RunKeepsOutcome(c: Config, s: State, es: seq<Event>, s': State, q: Queued,
                                           error: Option<string>)
    requires c.Valid() && Inv(c, s) && Run(c, s, es, s') && HasOutcome(s, q, error)
    ensures HasOutcome(s', q, error)
    decreases |es|
  {
    hide Inv, HasOutcome;
    if es != [] {
      var m :| Next(c, s, es[0], m) && Run(c, m, es[1..], s');
      StepKeepsInv(c, s, es[0], m);
      StepKeepsOutcome(c, s, es[0], m, q, error);
      RunKeepsOutcome(c, m, es[1..], s', q, error);
    }
  }

  // ---------------------------------------------------------------- shutdown

  /** Shutdown with `cancel_pending` cancels exactly the futures of the pending entries and drops exactly their
      identities; without it, it takes nothing away. What runs is left alone. */
  lemma BeginShutdownMeans(c: Config, s: State, cancelPending: bool, s': State)
    requires Inv(c, s) && Next(c, s, BeginShutdown(cancelPending), s')
    ensures s.phase == Stopped ==> s' == s
    ensures s.phase != Stopped ==> s'.phase == Stopping && !s'.dispatcher.Asleep?
    ensures s'.running == s.running && s'.finishing == s.finishing && s'.busy == s.busy && s'.now == s.now
    ensures s.phase != Stopped && !cancelPending ==>
              s'.pending == s.pending && s'.active == s.active && s'.futures == s.futures
    ensures s.phase != Stopped && cancelPending ==> s'.pending == [] && Cancels(s, s'.active, s'.futures)
  {
    hide CancelPending, Cancels, ActiveExact, FuturesExact, BusyExact, Below, Apart;
    if s.phase != Stopped {
      var closed := s.(phase := Stopping, dispatcher := Notify(s.dispatcher));
      CancelEmpties(closed);
      CancelMeans(s, closed);
    }
  }

  /** Exactly the futures of the pending entries are cancelled, and exactly their identities dropped. */
  ghost predicate Cancels(s: State, active: map<string, Queued>, futures: seq<FutureState>) {
    && |futures| == |s.futures|
    && (forall k :: 0 <= k < |s.futures| ==>
          futures[k] == if exists q :: q in s.pending && q.completion == k then Cancelled else s.futures[k])
    && (forall id :: id in active <==> id in s.active && s.active[id] !in s.pending)
    && (forall id :: id in active ==> active[id] == s.active[id])
  }

  lemma CancelMeans(s: State, closed: State)
    requires Books(s) && closed == s.(phase := closed.phase, dispatcher := closed.dispatcher)
    ensures Cancels(s, CancelPending(closed).active, CancelPending(closed).futures)
  {
    hide CancelPending, ActiveExact, FuturesExact, BusyExact, Below, Apart;
    CancelKeepsLength(closed);
    FuturesCancelled(closed, Live(s));
    IdentitiesDropped(closed, Admitted(s));
  }

  lemma FuturesCancelled(s: State, live: set<Queued>)
    requires (forall q :: q in s.pending ==> q in live) && Ordered(s.pending) && FuturesExact(live, s.futures)
    ensures |CancelPending(s).futures| == |s.futures|
    ensures forall k :: 0 <= k < |s.futures| ==>
              CancelPending(s).futures[k]
              == if exists q :: q in s.pending && q.completion == k then Cancelled else s.futures[k]
  {
    hide CancelPending, Ordered, FuturesExact;
    CancelKeepsLength(s);
    forall k: nat | k < |s.futures|
      ensures CancelPending(s).futures[k]
           == if exists q :: q in s.pending && q.completion == k then Cancelled else s.futures[k]
    {
      FutureCancelled(s, live, k);
    }
  }

  lemma IdentitiesDropped(s: State, admitted: set<Queued>)
    requires (forall q :: q in s.pending ==> q in admitted) && Ordered(s.pending) && ActiveExact(admitted, s.active)
    ensures var active := CancelPending(s).active;
            && (forall id :: id in active <==> id in s.active && s.active[id] !in s.pending)
            && (forall id :: id in active ==> active[id] == s.active[id])
  {
    hide CancelPending, Ordered, ActiveExact;
    var active := CancelPending(s).active;
    forall id ensures (id in active <==> id in s.active && s.active[id] !in s.pending)
                      && (id in active ==> active[id] == s.active[id]) {
      IdentityDropped(s, admitted, id);
    }
  }

  lemma {:induction false} CancelKeepsLength(s: State)
    ensures |CancelPending(s).futures| == |s.futures|
    decreases |s.pending|
  {
    if s.pending != [] {
      CancelKeepsLength(CancelFirst(s));
    }
  }

  lemma {:induction false} FutureCancelled(s: State, live: set<Queued>, k: nat)
    requires (forall q :: q in s.pending ==> q in live) && Ordered(s.pending) && FuturesExact(live, s.futures)
    requires k < |s.futures|
    ensures |CancelPending(s).futures| == |s.futures|
    ensures CancelPending(s).futures[k]
         == if exists q :: q in s.pending && q.completion == k then Cancelled else s.futures[k]
    decreases |s.pending|
  {
    if s.pending != [] {
      var q, rest := s.pending[0], CancelFirst(s);
      assert s.pending == [q] + rest.pending && q !in rest.pending;
      FuturesLose(live, s.futures, q, Cancelled);
      FutureCancelled(rest, live - {q}, k);
    }
  }

  lemma {:induction false} IdentityDropped(s: State, admitted: set<Queued>, id: string)
    requires (forall q :: q in s.pending ==> q in admitted) && Ordered(s.pending) && ActiveExact(admitted, s.active)
    ensures var active := CancelPending(s).active;
            && (id in active <==> id in s.active && s.active[id] !in s.pending)
            && (id in active ==> active[id] == s.active[id])
    decreases |s.pending|
  {
    if s.pending != [] {
      var q, rest := s.pending[0], CancelFirst(s);
      assert s.pending == [q] + rest.pending && q !in rest.pending;
      ActiveLoses(admitted, s.active, q);
      IdentityDropped(rest, admitted - {q}, id);
    }
  }
}
