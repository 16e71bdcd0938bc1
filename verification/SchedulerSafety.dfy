/** What every run of the scheduler keeps, and what shutdown reaches. */
module SchedulerSafety {
  import opened Wrappers
  import opened SchedulerModel

  // ---------------------------------------------------------------- the parts of the invariant

  lemma {:induction false} RemoveKeepsOrder(s: seq<Queued>, q: Queued)
    requires Ordered(s) && q in s
    ensures var r := Remove(s, q);
            && |r| == |s| - 1 && Ordered(r)
            && (forall x :: x in r <==> x in s && x != q)
            && (r != [] ==> r[0].sequence >= s[0].sequence)
  {
    if s[0] != q {
      RemoveKeepsOrder(s[1..], q);
    }
  }

  lemma {:induction false} RemoveKeepsOthers(s: seq<Queued>, q: Queued)
    ensures forall x :: x in Remove(s, q) ==> x in s
  {
    if s != [] && s[0] != q {
      RemoveKeepsOthers(s[1..], q);
    }
  }

  lemma ActiveGains(admitted: set<Queued>, active: map<string, Queued>, q: Queued)
    requires ActiveExact(admitted, active) && q.task.identity !in active
    ensures ActiveExact(admitted + {q}, active[q.task.identity := q])
  {
  }

  lemma ActiveLoses(admitted: set<Queued>, active: map<string, Queued>, q: Queued)
    requires ActiveExact(admitted, active) && q in admitted
    ensures ActiveExact(admitted - {q}, active - {q.task.identity})
    ensures |active - {q.task.identity}| == |active| - 1
  {
    var id := q.task.identity;
    assert active == (active - {id})[id := q];
  }

  lemma BusyGains(running: set<Queued>, busy: set<string>, q: Queued)
    requires BusyExact(running, busy) && q.task.resource !in busy
    ensures BusyExact(running + {q}, busy + {q.task.resource})
  {
    assert q !in running;
    assert Resources(running + {q}) == Resources(running) + {q.task.resource};
  }

  lemma BusyLoses(running: set<Queued>, busy: set<string>, q: Queued)
    requires BusyExact(running, busy) && q in running
    ensures BusyExact(running - {q}, busy - {q.task.resource})
  {
    assert Resources(running - {q}) == Resources(running) - {q.task.resource};
  }

  lemma FuturesGain(live: set<Queued>, futures: seq<FutureState>, q: Queued)
    requires FuturesExact(live, futures) && q.completion == |futures|
    ensures FuturesExact(live + {q}, futures + [Waiting])
  {
    forall k | 0 <= k <= |futures| && (futures + [Waiting])[k] == Waiting
      ensures exists x :: x in live + {q} && x.completion == k
    {
      if k < |futures| {
        var x :| x in live && x.completion == k;
        assert x in live + {q};
      } else {
        assert q in live + {q};
      }
    }
  }

  lemma FuturesLose(live: set<Queued>, futures: seq<FutureState>, q: Queued, outcome: FutureState)
    requires FuturesExact(live, futures) && q in live && outcome != Waiting
    ensures FuturesExact(live - {q}, futures[q.completion := outcome])
  {
    var futures' := futures[q.completion := outcome];
    forall k | 0 <= k < |futures'| && futures'[k] == Waiting
      ensures exists x :: x in live - {q} && x.completion == k
    {
      var x :| x in live && x.completion == k;
      assert x in live - {q};
    }
  }

  lemma OrderedGains(pending: seq<Queued>, q: Queued)
    requires Ordered(pending) && forall p :: p in pending ==> p.sequence < q.sequence
    ensures Ordered(pending + [q])
  {
    assert forall i :: 0 <= i < |pending| ==> pending[i] in pending;
  }

  // ---------------------------------------------------------------- single steps keep the invariant

  lemma EnqueueSets(s: State, task: Task, runAt: real, interval: Option<real>)
    ensures var s' := Enqueue(s, task, runAt, interval);
            var q := Queued(task, |s.futures|, runAt, s.sequence, interval);
            && Waitlist(s') == Waitlist(s) + {q} && s'.running == s.running && s'.finishing == s.finishing
            && Admitted(s') == Admitted(s) + {q}
            && Live(s') == Live(s) + {q}
  {
  }

  lemma EnqueueKeepsBooks(s: State, task: Task, runAt: real, interval: Option<real>)
    requires Books(s) && task.identity !in s.active
    ensures var s' := Enqueue(s, task, runAt, interval);
            Books(s') && s'.running == s.running && |s'.active| == |s.active| + 1
  {
    var s' := Enqueue(s, task, runAt, interval);
    var q := Queued(task, |s.futures|, runAt, s.sequence, interval);
    EnqueueSets(s, task, runAt, interval);
    assert Below(Live(s'), s'.sequence) && Apart(s');
    assert Ordered(s'.pending) by {
      assert forall p :: p in s.pending ==> p in Waitlist(s);
      OrderedGains(s.pending, q);
    }
    ActiveGains(Admitted(s), s.active, q);
    FuturesGain(Live(s), s.futures, q);
  }

  lemma DispatchSets(s: State, q: Queued)
    requires Ordered(s.pending) && q in s.pending
    ensures var s' := Dispatched(s, q);
            && Ordered(s'.pending)
            && Waitlist(s') == Waitlist(s) - {q} && q in Waitlist(s)
            && s'.running == s.running + {q} && s'.finishing == s.finishing
            && Admitted(s') == Admitted(s) && Live(s') == Live(s)
  {
    RemoveKeepsOrder(s.pending, q);
  }

  lemma DispatchKeepsBooks(s: State, q: Queued)
    requires Books(s) && q in s.pending && q.task.resource !in s.busy
    ensures Books(Dispatched(s, q)) && |Dispatched(s, q).running| == |s.running| + 1
  {
    DispatchSets(s, q);
    BusyGains(s.running, s.busy, q);
    assert Apart(Dispatched(s, q));
  }

  lemma ReleaseSets(s: State, q: Queued, error: Option<string>)
    requires Apart(s) && q in s.running
    ensures var s' := Released(s, q, error);
            && Waitlist(s') == Waitlist(s) && s'.running == s.running - {q}
               && s'.finishing.Keys == s.finishing.Keys + {q}
            && Admitted(s') == Admitted(s) - {q} && q in Admitted(s)
            && Live(s') == Live(s)
  {
  }

  lemma ReleaseKeepsBooks(s: State, q: Queued, error: Option<string>)
    requires Books(s) && q in s.running
    ensures var s' := Released(s, q, error);
            Books(s') && |s'.running| == |s.running| - 1 && |s'.active| == |s.active| - 1
            && q.task.identity !in s'.active
  {
    ReleaseSets(s, q, error);
    ActiveLoses(Admitted(s), s.active, q);
    BusyLoses(s.running, s.busy, q);
    assert Apart(Released(s, q, error));
  }

  lemma CompleteKeepsBooks(s: State, q: Queued, error: Option<string>)
    requires Books(s) && q in s.running
    ensures var s' := AfterComplete(s, q, error);
            Books(s') && |s'.running| == |s.running| - 1 && |s'.active| <= |s.active|
  {
    hide Books;
    ReleaseKeepsBooks(s, q, error);
    if q.interval.Some? && s.phase == Running {
      EnqueueKeepsBooks(Released(s, q, error), q.task, s.now + q.interval.value, q.interval);
    }
  }

  lemma ResolveSets(s: State, q: Queued)
    requires Apart(s) && q in s.finishing && q.completion < |s.futures|
    ensures var s' := Resolved(s, q);
            && Waitlist(s') == Waitlist(s) && s'.running == s.running && s'.finishing.Keys == s.finishing.Keys - {q}
            && Admitted(s') == Admitted(s) && Live(s') == Live(s) - {q} && q in Live(s)
  {
  }

  lemma ResolveKeepsBooks(s: State, q: Queued)
    requires Books(s) && q in s.finishing && q.completion < |s.futures|
    ensures Books(Resolved(s, q))
  {
    ResolveSets(s, q);
    FuturesLose(Live(s), s.futures, q, Done(s.finishing[q]));
    assert Apart(Resolved(s, q));
  }

  lemma CancelFirstSets(s: State)
    requires Ordered(s.pending) && Apart(s) && s.pending != []
    ensures var s', q := CancelFirst(s), s.pending[0];
            && Ordered(s'.pending) && Apart(s') && q in Admitted(s) && q in Live(s)
            && Admitted(s') == Admitted(s) - {q} && Live(s') == Live(s) - {q}
  {
    var s', q := CancelFirst(s), s.pending[0];
    assert s.pending == [q] + s'.pending;
    assert forall i :: 1 <= i < |s.pending| ==> s.pending[i] != q;
    assert q in Waitlist(s) && Waitlist(s') == Waitlist(s) - {q};
  }

  lemma CancelFirstKeepsBooks(s: State)
    requires Books(s) && s.pending != []
    ensures var s' := CancelFirst(s);
            Books(s') && |s'.active| <= |s.active|
  {
    var q := s.pending[0];
    CancelFirstSets(s);
    hide Ordered, Apart;
    ActiveLoses(Admitted(s), s.active, q);
    FuturesLose(Live(s), s.futures, q, Cancelled);
  }

  lemma {:induction false} CancelKeepsBooks(s: State)
    requires Books(s)
    ensures var s' := CancelPending(s);
            && Books(s') && s'.pending == [] && |s'.active| <= |s.active|
            && s' == s.(pending := [], active := s'.active, futures := s'.futures)
    decreases |s.pending|
  {
    if s.pending != [] {
      hide Books;
      CancelFirstKeepsBooks(s);
      CancelKeepsBooks(CancelFirst(s));
    }
  }

  lemma SubmitKeepsInv(c: Config, s: State, task: Task, delay: real, interval: Option<real>)
    requires Inv(c, s)
    ensures Inv(c, AfterSubmit(c, s, task, delay, interval))
  {
    hide Books;
    if SubmitOutcome(c, s, task, delay, interval).Ok? && task.identity !in s.active {
      EnqueueKeepsBooks(s, task, s.now + delay, interval);
      NotifyKeepsBooks(Enqueue(s, task, s.now + delay, interval), s.phase, Notify(s.dispatcher), s.now);
    }
  }

  lemma NotifyKeepsBooks(s: State, phase: Phase, dispatcher: Dispatcher, now: real)
    requires Books(s)
    ensures Books(s.(phase := phase, dispatcher := dispatcher, now := now))
  {
    var s' := s.(phase := phase, dispatcher := dispatcher, now := now);
    assert Waitlist(s') == Waitlist(s);
  }

  lemma DispatchKeepsInv(c: Config, s: State, q: Queued)
    requires Inv(c, s) && s.dispatcher == Awake
    requires |s.busy| < c.maxConcurrency && q in s.pending && q.task.resource !in s.busy
    ensures Inv(c, Dispatched(s, q))
  {
    hide Books;
    BusyCount(s);
    DispatchKeepsBooks(s, q);
    RemoveKeepsOthers(s.pending, q);
  }

  lemma CompleteKeepsInv(c: Config, s: State, q: Queued, error: Option<string>)
    requires Inv(c, s) && q in s.running
    ensures Inv(c, AfterComplete(s, q, error))
  {
    hide Books;
    CompleteKeepsBooks(s, q, error);
  }

  lemma ResolveKeepsInv(c: Config, s: State, q: Queued)
    requires Inv(c, s) && q in s.finishing && q.completion < |s.futures|
    ensures Inv(c, Resolved(s, q))
  {
    hide Books;
    ResolveKeepsBooks(s, q);
  }

  lemma BeginShutdownKeepsInv(c: Config, s: State, cancelPending: bool)
    requires Inv(c, s)
    ensures Inv(c, AfterBeginShutdown(s, cancelPending))
  {
    hide Books;
    if s.phase != Stopped {
      var closed := s.(phase := Stopping, dispatcher := Notify(s.dispatcher));
      NotifyKeepsBooks(s, Stopping, Notify(s.dispatcher), s.now);
      CancelKeepsBooks(closed);
    }
  }

  lemma StepKeepsInv(c: Config, s: State, e: Event, s': State)
    requires c.Valid() && Inv(c, s) && Next(c, s, e, s')
    ensures Inv(c, s')
  {
    hide Books;
    match e
    case Submit(task, delay, interval) => SubmitKeepsInv(c, s, task, delay, interval);
    case Dispatch(q) => DispatchKeepsInv(c, s, q);
    case Complete(q, error) => CompleteKeepsInv(c, s, q, error);
    case Resolve(q) => ResolveKeepsInv(c, s, q);
    case BeginShutdown(cancelPending) => BeginShutdownKeepsInv(c, s, cancelPending);
    case _ =>
      NotifyKeepsBooks(s, s'.phase, s'.dispatcher, s'.now);
      QuietStepKeepsInv(c, s, e, s');
  }

  lemma BusyCount(s: State)
    requires Books(s)
    ensures |s.busy| == |s.running|
  {
  }

  /** Steps that change only the phase, the dispatcher or the clock. */
  lemma QuietStepKeepsInv(c: Config, s: State, e: Event, s': State)
    requires c.Valid() && Inv(c, s) && Next(c, s, e, s')
    requires e.Start? || e.Advance? || e.Sleep? || e.ExitDispatcher? || e.Wake? || e.EndShutdown?
    ensures s' == s.(phase := s'.phase, dispatcher := s'.dispatcher, now := s'.now)
    ensures Phased(s') && SleepsSoundly(c, s')
  {
    hide Books;
    BusyCount(s);
    if e.ExitDispatcher? {
      assert |s.running| == 0;
      forall q | q in s.pending ensures q.runAt > s.now {
        assert !Eligible(s, s.now, q);
      }
    } else {
      hide IsNext;
    }
  }

  lemma {:induction false} RunKeepsInv(c: Config, s: State, es: seq<Event>, s': State)
    requires c.Valid() && Inv(c, s) && Run(c, s, es, s')
    ensures Inv(c, s')
    decreases |es|
  {
    hide Inv;
    if es != [] {
      var m :| Next(c, s, es[0], m) && Run(c, m, es[1..], s');
      StepKeepsInv(c, s, es[0], m);
      RunKeepsInv(c, m, es[1..], s');
    }
  }

  // ---------------------------------------------------------------- what holds in every reachable state

  ghost predicate Reachable(c: Config, s: State) {
    exists es :: Run(c, INITIAL, es, s)
  }

  lemma ReachableInv(c: Config, s: State)
    requires c.Valid() && Reachable(c, s)
    ensures Inv(c, s)
  {
    var es :| Run(c, INITIAL, es, s);
    InitialInv(c);
    RunKeepsInv(c, INITIAL, es, s);
  }

  lemma InitialInv(c: Config)
    ensures Inv(c, INITIAL)
  {
    assert Waitlist(INITIAL) == {} && Admitted(INITIAL) == {} && Live(INITIAL) == {};
    assert Resources({}) == {};
  }

  ghost function Identities(tasks: set<Queued>): set<string> {
    set q | q in tasks :: q.task.identity
  }

  /** Admission, mutual exclusion and the two bounds, in every reachable state: the active identities are
      the disjoint union of the pending and the in-flight ones, each held by one task; the busy resources
      are those of the in-flight tasks, one task each; neither bound is ever exceeded. */
  lemma AdmissionAndExclusion(c: Config, s: State)
    requires c.Valid() && Reachable(c, s)
    ensures s.active.Keys == Identities(Waitlist(s)) + Identities(s.running)
    ensures Identities(Waitlist(s)) !! Identities(s.running)
    ensures forall q, r | q in Waitlist(s) + s.running && r in Waitlist(s) + s.running ::
              q.task.identity == r.task.identity ==> q == r
    ensures s.busy == Resources(s.running)
    ensures forall q, r :: q in s.running && r in s.running && q.task.resource == r.task.resource ==> q == r
    ensures |s.running| == |s.busy| <= c.maxConcurrency
    ensures |s.active| <= c.queueCapacity
  {
    ReachableInv(c, s);
    ActiveIsUnion(Waitlist(s), s.running, s.active);
  }

  lemma ActiveIsUnion(waiting: set<Queued>, running: set<Queued>, active: map<string, Queued>)
    requires ActiveExact(waiting + running, active) && waiting !! running
    ensures active.Keys == Identities(waiting) + Identities(running)
    ensures Identities(waiting) !! Identities(running)
  {
    forall id | id in active ensures id in Identities(waiting) + Identities(running) {
      assert active[id] in waiting || active[id] in running;
    }
  }

  /** The dispatcher never sleeps through runnable work. While it waits, nothing can be dispatched before
      its wake time, something can from then on, and a wait without a wake time has nothing to wait for
      but a completion, a submission or a shutdown. */
  lemma NeverSleepsThroughWork(c: Config, s: State, t: real)
    requires c.Valid() && Reachable(c, s)
    requires s.dispatcher.Asleep? && t >= s.dispatcher.since
    ensures IsNext(c, s, t, None) <==> s.dispatcher.until.None? || t < s.dispatcher.until.value
  {
    ReachableInv(c, s);
    hide Books, Phased;
    WaitIsExact(c, s, s.dispatcher.since, s.dispatcher.until, t);
  }

  // ---------------------------------------------------------------- futures are settled once

  lemma StepSettlesOnce(c: Config, s: State, e: Event, s': State, k: nat)
    requires Inv(c, s) && Next(c, s, e, s') && k < |s.futures|
    ensures k < |s'.futures|
    ensures s.futures[k] != Waiting ==> s'.futures[k] == s.futures[k]
  {
    hide Inv, Phased, SleepsSoundly, IsNext, IsWakeTime;
    match e
    case BeginShutdown(cancelPending) =>
      CancelSettlesOnce(s.(phase := Stopping, dispatcher := Notify(s.dispatcher)), k);
    case Resolve(q) => FinishingWaits(c, s, q);
    case _ =>
  }

  lemma LiveCompletion(s: State, q: Queued)
    requires Books(s) && q in Live(s)
    ensures q.completion < |s.futures| && s.futures[q.completion] == Waiting
  {
  }

  lemma BooksOrdered(s: State)
    requires Books(s)
    ensures Ordered(s.pending)
  {
  }

  lemma PendingOrdered(c: Config, s: State)
    requires Inv(c, s)
    ensures Ordered(s.pending)
  {
  }

  lemma FinishingWaits(c: Config, s: State, q: Queued)
    requires Inv(c, s) && q in s.finishing
    ensures q.completion < |s.futures| && s.futures[q.completion] == Waiting
  {
    LiveCompletion(s, q);
  }

  lemma {:induction false} CancelSettlesOnce(s: State, k: nat)
    requires k < |s.futures|
    ensures |CancelPending(s).futures| == |s.futures|
    ensures s.futures[k] != Waiting ==> CancelPending(s).futures[k] == s.futures[k]
    decreases |s.pending|
  {
    if s.pending != [] {
      CancelSettlesOnce(CancelFirst(s), k);
    }
  }

  /** A future that has been cancelled or resolved keeps that outcome for the rest of every run. */
  lemma {:induction false} FuturesSettleOnce(c: Config, s: State, es: seq<Event>, s': State, k: nat)
    requires c.Valid() && Inv(c, s) && Run(c, s, es, s') && k < |s.futures|
    ensures k < |s'.futures|
    ensures s.futures[k] != Waiting ==> s'.futures[k] == s.futures[k]
    decreases |es|
  {
    hide Inv;
    if es != [] {
      var m :| Next(c, s, es[0], m) && Run(c, m, es[1..], s');
      StepKeepsInv(c, s, es[0], m);
      StepSettlesOnce(c, s, es[0], m, k);
      FuturesSettleOnce(c, m, es[1..], s', k);
    }
  }

  // ---------------------------------------------------------------- shutdown

  ghost predicate Settled(s: State) {
    forall k :: 0 <= k < |s.futures| ==> s.futures[k] != Waiting
  }

  /** Once stopped, the futures still waiting are exactly those of the tasks left pending. */
  lemma StoppedMeansSettled(c: Config, s: State)
    requires c.Valid() && Inv(c, s) && s.phase == Stopped
    ensures Settled(s) <==> s.pending == []
    ensures s.pending == [] ==> s.active == map[]
  {
    assert Admitted(s) == Waitlist(s) && Live(s) == Waitlist(s);
    if s.pending != [] {
      assert s.pending[0] in Live(s);
    } else {
      assert Waitlist(s) == {};
    }
  }

  /** The work a closed scheduler still has to do. */
  ghost function Remaining(s: State): nat {
    3 * |s.pending| + 2 * |s.running| + |s.finishing|
    + (if s.dispatcher.Exited? then 0 else 1) + (if s.phase == Stopped then 0 else 1)
  }

  ghost predicate Closed(s: State) {
    s.phase in {Stopping, Stopped}
  }

  lemma {:induction false} RemoveShortens(s: seq<Queued>, q: Queued)
    requires q in s
    ensures |Remove(s, q)| == |s| - 1
  {
    if s[0] != q {
      RemoveShortens(s[1..], q);
    }
  }

  lemma {:induction false} CancelEmpties(s: State)
    ensures var s' := CancelPending(s);
            s' == s.(pending := [], active := s'.active, futures := s'.futures)
    decreases |s.pending|
  {
    if s.pending != [] {
      CancelEmpties(CancelFirst(s));
    }
  }

  /** After admission has closed nothing becomes pending again, nothing is started that was not pending,
      and no step undoes any of the remaining work. */
  lemma ClosedStep(c: Config, s: State, e: Event, s': State)
    requires Inv(c, s) && Next(c, s, e, s') && Closed(s)
    ensures Closed(s') && (s.phase == Stopped ==> s'.phase == Stopped)
    ensures (forall q :: q in s'.pending ==> q in s.pending) && |s'.pending| <= |s.pending|
    ensures !e.Dispatch? && !e.BeginShutdown? ==> s'.pending == s.pending
    ensures forall q :: q in s'.running ==> q in s.running || q in s.pending
    ensures Remaining(s') <= Remaining(s)
    ensures e.Dispatch? || e.Complete? || e.Resolve? || e.ExitDispatcher? ==> Remaining(s') < Remaining(s)
    ensures e.EndShutdown? && s.phase == Stopping ==> Remaining(s') < Remaining(s)
  {
    hide Books, SleepsSoundly, IsWakeTime, IsNext, AfterSubmit, AfterComplete, Dispatched;
    match e
    case Submit(task, delay, interval) => ClosedSubmit(c, s, task, delay, interval);
    case Dispatch(q) => DispatchUsesUp(c, s, q);
    case Complete(q, error) => ClosedComplete(c, s, q, error);
    case BeginShutdown(_) => CancelEmpties(s.(phase := Stopping, dispatcher := Notify(s.dispatcher)));
    case _ =>
  }

  lemma ClosedSubmit(c: Config, s: State, task: Task, delay: real, interval: Option<real>)
    requires Closed(s)
    ensures AfterSubmit(c, s, task, delay, interval) == s
  {
  }

  lemma DispatchUsesUp(c: Config, s: State, q: Queued)
    requires Inv(c, s) && IsNext(c, s, s.now, Some(q))
    ensures var s' := Dispatched(s, q);
            && s' == s.(pending := s'.pending, busy := s'.busy, running := s.running + {q})
            && q in s.pending && |s'.pending| == |s.pending| - 1 && Remaining(s') < Remaining(s)
            && forall x :: x in s'.pending ==> x in s.pending
  {
    hide Inv;
    RemoveShortens(s.pending, q);
    RemoveKeepsOthers(s.pending, q);
  }

  lemma ClosedComplete(c: Config, s: State, q: Queued, error: Option<string>)
    requires Inv(c, s) && Closed(s) && q in s.running
    ensures var s' := AfterComplete(s, q, error);
            && s'.pending == s.pending && s'.phase == s.phase && s'.running == s.running - {q}
            && Remaining(s') < Remaining(s)
  {
    hide Inv;
  }

  lemma PickNext(c: Config, s: State, t: real) returns (next: Option<Queued>)
    requires Ordered(s.pending)
    ensures IsNext(c, s, t, next) && (next.Some? ==> next.value in s.pending)
  {
    if |s.busy| >= c.maxConcurrency {
      return None;
    }
    next := PickFrom(s, t, s.pending);
  }

  /** The least eligible entry of a part of the queue. */
  lemma {:induction false} PickFrom(s: State, t: real, part: seq<Queued>) returns (next: Option<Queued>)
    requires Ordered(part)
    ensures next.None? ==> forall q :: q in part ==> !Eligible(s, t, q)
    ensures next.Some? ==> next.value in part && Eligible(s, t, next.value)
    ensures next.Some? ==> forall r | r in part && Eligible(s, t, r) :: r != next.value ==> Before(next.value, r)
  {
    if part == [] {
      return None;
    }
    var front, last := part[..|part| - 1], part[|part| - 1];
    assert part == front + [last];
    next := PickFrom(s, t, front);
    if Eligible(s, t, last) && (next.None? || Before(last, next.value)) {
      next := Some(last);
    }
  }

  lemma AwakeWhenIdle(c: Config, s: State)
    requires Inv(c, s) && s.phase == Stopping && s.running == {} && !s.dispatcher.Exited? && s.dispatcher != NotStarted
    ensures s.busy == {} && s.dispatcher == Awake
  {
    assert Resources({}) == {};
  }

  lemma WorkLeft(c: Config, s: State) returns (e: Event)
    requires c.Valid() && Inv(c, s) && s.phase == Stopping
    ensures Enabled(c, s, e)
    ensures e.Resolve? || e.Complete? || e.Dispatch? || e.ExitDispatcher? || e.EndShutdown?
    ensures s.dispatcher == NotStarted ==> e.EndShutdown?
  {
    hide Books, SleepsSoundly, IsNext;
    if s.finishing != map[] {
      var q :| q in s.finishing;
      LiveCompletion(s, q);
      return Resolve(q);
    } else if s.running != {} {
      var q :| q in s.running;
      return Complete(q, None);
    } else if s.dispatcher == NotStarted || s.dispatcher.Exited? {
      return EndShutdown;
    }
    AwakeWhenIdle(c, s);
    BooksOrdered(s);
    var next := PickNext(c, s, s.now);
    return if next.Some? then Dispatch(next.value) else ExitDispatcher;
  }

  /** Until it has stopped, a closed scheduler always has a step that finishes part of its work. */
  lemma ShutdownProgress(c: Config, s: State) returns (e: Event, s': State)
    requires c.Valid() && Inv(c, s) && s.phase == Stopping
    ensures Next(c, s, e, s') && Remaining(s') < Remaining(s) && s'.now == s.now
    ensures e.Resolve? || e.Complete? || e.Dispatch? || e.ExitDispatcher? || e.EndShutdown?
    ensures s.dispatcher == NotStarted ==> e.EndShutdown? && s'.phase == Stopped
  {
    hide Inv, IsNext;
    e := WorkLeft(c, s);
    s' := match e
      case Resolve(q) => Resolved(s, q)
      case Complete(q, error) => AfterComplete(s, q, error)
      case Dispatch(q) => Dispatched(s, q)
      case ExitDispatcher => s.(dispatcher := Exited(s.now))
      case _ => s.(phase := Stopped);
    ClosedStep(c, s, e, s');
  }

  lemma DispatchPicksEligible(c: Config, s: State, q: Queued, s': State)
    requires Next(c, s, Dispatch(q), s')
    ensures Eligible(s, s.now, q) && s' == Dispatched(s, q)
  {
  }

  /** Steps taken to drain the scheduler without letting time pass leave what is not due in the queue. */
  lemma DrainStepKeepsLater(c: Config, s: State, e: Event, s': State, q: Queued)
    requires Inv(c, s) && Next(c, s, e, s') && s.phase == Stopping
    requires e.Resolve? || e.Complete? || e.Dispatch? || e.ExitDispatcher? || e.EndShutdown?
    requires q in s.pending && (q.runAt > s.now || e.EndShutdown?)
    ensures q in s'.pending
  {
    BooksOrdered(s);
    hide Inv, Next;
    if e.Dispatch? {
      DispatchPicksEligible(c, s, e.q, s');
      RemoveKeepsOrder(s.pending, e.q);
    } else {
      ClosedStep(c, s, e, s');
    }
  }

  lemma RunStep(c: Config, s: State, e: Event, m: State, es: seq<Event>, s': State)
    requires Next(c, s, e, m) && Run(c, m, es, s')
    ensures Run(c, s, [e] + es, s')
  {
    hide Next;
    assert ([e] + es)[1..] == es;
  }

  /** Shutdown can always finish: some run stops the scheduler without any time passing, and it leaves
      what it must, the tasks that are not due (all of them if no dispatcher was ever started). */
  lemma {:induction false} Drain(c: Config, s: State, q: Queued) returns (es: seq<Event>, s': State)
    requires c.Valid() && Inv(c, s) && s.phase == Stopping
    ensures Run(c, s, es, s') && Inv(c, s') && s'.phase == Stopped
    ensures q in s.pending && (q.runAt > s.now || s.dispatcher == NotStarted) ==> q in s'.pending
    decreases Remaining(s)
  {
    hide Inv, Next, Remaining;
    var e, m := ShutdownProgress(c, s);
    StepKeepsInv(c, s, e, m);
    ClosedStep(c, s, e, m);
    if q in s.pending && (q.runAt > s.now || s.dispatcher == NotStarted) {
      DrainStepKeepsLater(c, s, e, m, q);
    }
    if m.phase == Stopped {
      es, s' := [], m;
    } else {
      es, s' := Drain(c, m, q);
    }
    RunStep(c, s, e, m, es, s');
    es := [e] + es;
  }

  lemma {:induction false} ClosedRun(c: Config, s: State, es: seq<Event>, s': State)
    requires c.Valid() && Inv(c, s) && Run(c, s, es, s') && Closed(s)
    ensures Closed(s') && Inv(c, s')
    ensures (forall q :: q in s'.pending ==> q in s.pending) && |s'.pending| <= |s.pending|
    ensures s'.now >= s.now
    ensures s.dispatcher != NotStarted ==> s'.dispatcher != NotStarted
    ensures s'.dispatcher.Exited? ==> s'.dispatcher == s.dispatcher || s'.dispatcher.at >= s.now
    decreases |es|
  {
    hide Inv;
    if es != [] {
      var m :| Next(c, s, es[0], m) && Run(c, m, es[1..], s');
      StepKeepsInv(c, s, es[0], m);
      ClosedStep(c, s, es[0], m);
      ClosedStepClock(c, s, es[0], m);
      ClosedRun(c, m, es[1..], s');
    }
  }

  lemma ClosedStepClock(c: Config, s: State, e: Event, s': State)
    requires Inv(c, s) && Next(c, s, e, s') && Closed(s)
    ensures s'.now >= s.now
    ensures s.dispatcher != NotStarted ==> s'.dispatcher != NotStarted
    ensures s'.dispatcher.Exited? ==> s'.dispatcher == s.dispatcher || s'.dispatcher.at >= s.now
  {
    hide Books, SleepsSoundly, IsNext, IsWakeTime;
    if e.BeginShutdown? {
      CancelEmpties(s.(phase := Stopping, dispatcher := Notify(s.dispatcher)));
    }
  }

  lemma PhaseFacts(c: Config, s: State)
    requires Inv(c, s)
    ensures s.phase == Created ==> s.dispatcher == NotStarted
    ensures s.phase == Running ==> s.dispatcher.Awake? || s.dispatcher.Asleep?
  {
  }

  lemma ShutdownShape(c: Config, s: State, cancelPending: bool, s1: State)
    requires s.phase != Stopped && Next(c, s, BeginShutdown(cancelPending), s1)
    ensures s1.phase == Stopping && s1.now == s.now && s1.dispatcher == Notify(s.dispatcher)
    ensures s1.pending == if cancelPending then [] else s.pending
  {
    CancelEmpties(s.(phase := Stopping, dispatcher := Notify(s.dispatcher)));
  }

  lemma ShutdownBegun(c: Config, s: State, cancelPending: bool, s1: State)
    requires c.Valid() && Inv(c, s) && s.phase != Stopped && Next(c, s, BeginShutdown(cancelPending), s1)
    ensures Inv(c, s1) && s1.phase == Stopping && s1.now == s.now
    ensures s1.pending == if cancelPending then [] else s.pending
    ensures s.phase == Created ==> s1.dispatcher == NotStarted
    ensures s.phase == Running ==> s1.dispatcher == Awake
  {
    hide Inv, Next, AfterBeginShutdown;
    StepKeepsInv(c, s, BeginShutdown(cancelPending), s1);
    PhaseFacts(c, s);
    ShutdownShape(c, s, cancelPending, s1);
  }

  /** Shutting down with `cancel_pending` (the default): however the remaining steps interleave, once the
      call has returned nothing is pending or active and every future ever handed out is settled. */
  lemma ShutdownSettlesEverything(c: Config, s: State, s1: State, es: seq<Event>, s2: State)
    requires c.Valid() && Reachable(c, s) && s.phase != Stopped
    requires Next(c, s, BeginShutdown(true), s1) && Run(c, s1, es, s2)
    ensures s2.pending == []
    ensures s2.phase == Stopped ==> s2.active == map[] && Settled(s2)
  {
    hide Inv, Next, Settled;
    ReachableInv(c, s);
    ShutdownBegun(c, s, true, s1);
    ClosedRun(c, s1, es, s2);
    if s2.phase == Stopped {
      StoppedMeansSettled(c, s2);
    }
  }

  /** What must hold when an open scheduler is shut down without cancelling for no future to be left waiting. */
  predicate AllDue(s: State) {
    s.pending == [] || (s.phase == Running && forall q :: q in s.pending ==> q.runAt <= s.now)
  }

  /** Without `cancel_pending` every run settles every future if and only if all pending tasks are due
      and a dispatcher was started; otherwise some run stops with a future that waits forever. */
  lemma ShutdownWithoutCancelling(c: Config, s: State, s1: State)
    requires c.Valid() && Reachable(c, s) && s.phase in {Created, Running}
    requires Next(c, s, BeginShutdown(false), s1)
    ensures AllDue(s) <==> forall es, s2 :: Run(c, s1, es, s2) && s2.phase == Stopped ==> Settled(s2)
  {
    hide Inv, Next, Settled;
    ReachableInv(c, s);
    ShutdownBegun(c, s, false, s1);
    if AllDue(s) {
      forall es, s2 | Run(c, s1, es, s2) && s2.phase == Stopped ensures Settled(s2) {
        ClosedRun(c, s1, es, s2);
        StoppedMeansSettled(c, s2);
        if s2.pending != [] {
          LeftWhenStopped(c, s2, s2.pending[0]);
        }
      }
    } else {
      assert s.pending[0] in s.pending;
      var q :| q in s.pending && (s.phase == Created || q.runAt > s.now);
      var es, s2 := Drain(c, s1, q);
      StoppedMeansSettled(c, s2);
    }
  }

  lemma LeftWhenStopped(c: Config, s: State, q: Queued)
    requires Inv(c, s) && s.phase == Stopped && q in s.pending
    ensures s.dispatcher == NotStarted || (s.dispatcher.Exited? && q.runAt > s.dispatcher.at)
  {
  }

  /** Whatever a stopped scheduler has left was not due when its dispatcher left, unless it never had one. */
  lemma LeftIsLater(c: Config, s: State, q: Queued)
    requires c.Valid() && Reachable(c, s) && s.phase == Stopped && q in s.pending
    ensures s.dispatcher == NotStarted || (s.dispatcher.Exited? && q.runAt > s.dispatcher.at)
  {
    ReachableInv(c, s);
    LeftWhenStopped(c, s, q);
  }

  /** A task submitted to a scheduler that is never started: shutdown without cancelling leaves its future
      unsettled. */
  lemma UnstartedLeavesAFuture(c: Config, task: Task) returns (s: State)
    requires c.Valid() && task.kind in c.kinds
    ensures Run(c, INITIAL, [Submit(task, 0.0, None), BeginShutdown(false), EndShutdown], s)
    ensures s.phase == Stopped && s.futures == [Waiting]
  {
    hide Run;
    var s1 := AfterSubmit(c, INITIAL, task, 0.0, None);
    var s2 := AfterBeginShutdown(s1, false);
    s := s2.(phase := Stopped);
    var es := LastStep(c, s2, EndShutdown, s);
    es := Then(c, s1, BeginShutdown(false), s2, es, s);
    es := Then(c, INITIAL, Submit(task, 0.0, None), s1, es, s);
    assert es == [Submit(task, 0.0, None), BeginShutdown(false), EndShutdown];
  }

  /** A task that is not due yet: the dispatcher leaves without it, and its future stays unsettled. */
  lemma DelayedTaskIsLeft(c: Config, task: Task) returns (s: State)
    requires c.Valid() && task.kind in c.kinds
    ensures Run(c, INITIAL, [Start, Submit(task, 1.0, None), BeginShutdown(false), ExitDispatcher, EndShutdown], s)
    ensures s.phase == Stopped && s.futures == [Waiting]
  {
    hide Run;
    var s0 := INITIAL.(phase := Running, dispatcher := Awake);
    var s1 := AfterSubmit(c, s0, task, 1.0, None);
    var s2 := AfterBeginShutdown(s1, false);
    var s3 := s2.(dispatcher := Exited(s2.now));
    s := s3.(phase := Stopped);
    assert s2.pending == [Queued(task, 0, 1.0, 0, None)];
    assert IsNext(c, s2, s2.now, None);
    var es := LastStep(c, s3, EndShutdown, s);
    es := Then(c, s2, ExitDispatcher, s3, es, s);
    es := Then(c, s1, BeginShutdown(false), s2, es, s);
    es := Then(c, s0, Submit(task, 1.0, None), s1, es, s);
    es := Then(c, INITIAL, Start, s0, es, s);
    assert es == [Start, Submit(task, 1.0, None), BeginShutdown(false), ExitDispatcher, EndShutdown];
  }

  lemma LastStep(c: Config, s: State, e: Event, s': State) returns (all: seq<Event>)
    requires Next(c, s, e, s')
    ensures all == [e] && Run(c, s, all, s')
  {
    RunStep(c, s, e, s', [], s');
    all := [e];
    assert [e] + [] == [e];
  }

  lemma Then(c: Config, s: State, e: Event, m: State, es: seq<Event>, s': State) returns (all: seq<Event>)
    requires Next(c, s, e, m) && Run(c, m, es, s')
    ensures all == [e] + es && Run(c, s, all, s')
  {
    RunStep(c, s, e, m, es, s');
    all := [e] + es;
  }
}
