/**
 * The daemon scheduler as a state machine: every section the program runs under its condition
 * variable is one atomic step. The steps of the dispatcher thread, of the worker threads, of the
 * callers and of the clock interleave freely.
 */
module SchedulerModel {
  import opened Wrappers

  datatype Phase = Created | Running | Stopping | Stopped

  datatype Task = Task(kind: string, identity: string, resource: string, priority: int)

  datatype Queued = Queued(task: Task, completion: nat, runAt: real, sequence: nat, interval: Option<real>)

  /** A future handed to callers. `Done` carries the error of a failed run. */
  datatype FutureState = Waiting | Cancelled | Done(error: Option<string>)

  /** `Asleep(since, until)` is a wait on the condition entered at `since`; without `until` it is unbounded. */
  datatype Dispatcher = NotStarted | Awake | Asleep(since: real, until: Option<real>) | Exited(at: real)

  datatype Error = NegativeDelay | NonPositiveInterval | SchedulerStopped | UnknownKind | CapacityFull

  datatype Config = Config(kinds: set<string>, maxConcurrency: nat, queueCapacity: nat) {
    predicate Valid() {
      kinds != {} && maxConcurrency >= 1 && queueCapacity >= 1
    }
  }

  /** The fields of the scheduler, together with what its threads hold: `running` are the tasks given
      to the executor, `finishing` those whose completion step is done but whose future is not yet set. */
  datatype State = State(
    pending: seq<Queued>,
    active: map<string, Queued>,
    busy: set<string>,
    sequence: nat,
    phase: Phase,
    lastError: Option<string>,
    futures: seq<FutureState>,
    running: set<Queued>,
    finishing: map<Queued, Option<string>>,
    dispatcher: Dispatcher,
    now: real)

  const INITIAL := State([], map[], {}, 0, Created, None, [], {}, map[], NotStarted, 0.0)

  datatype Event =
    | Start
    | Submit(task: Task, delay: real, interval: Option<real>)
    | Advance(elapsed: real)
    | Dispatch(q: Queued)
    | Sleep(later: real)
    | ExitDispatcher
    | Wake
    | Complete(q: Queued, error: Option<string>)
    | Resolve(q: Queued)
    | BeginShutdown(cancelPending: bool)
    | EndShutdown

  // ---------------------------------------------------------------- selection and waiting

  /** The order in which eligible tasks are picked. */
  predicate Before(a: Queued, b: Queued) {
    || a.task.priority < b.task.priority
    || (a.task.priority == b.task.priority && a.runAt < b.runAt)
    || (a.task.priority == b.task.priority && a.runAt == b.runAt && a.sequence < b.sequence)
  }

  predicate Eligible(s: State, t: real, q: Queued) {
    q in s.pending && q.runAt <= t && q.task.resource !in s.busy
  }

  /** The task that may be dispatched at time `t`: the least eligible one, if the scheduler has a free slot. */
  ghost predicate IsNext(c: Config, s: State, t: real, next: Option<Queued>) {
    match next
    case None => |s.busy| >= c.maxConcurrency || forall q :: !Eligible(s, t, q)
    case Some(q) =>
      && |s.busy| < c.maxConcurrency
      && Eligible(s, t, q)
      && forall r :: Eligible(s, t, r) && r != q ==> Before(q, r)
  }

  /** When the earliest pending task on a free resource becomes due, if any may run at all. */
  ghost predicate IsWakeTime(c: Config, s: State, since: real, until: Option<real>) {
    match until
    case None => |s.busy| >= c.maxConcurrency || forall q :: q in s.pending ==> q.task.resource in s.busy
    case Some(t) =>
      && |s.busy| < c.maxConcurrency
      && t >= since
      && (forall q :: q in s.pending && q.task.resource !in s.busy ==> t <= if q.runAt > since then q.runAt else since)
      && exists q :: q in s.pending && q.task.resource !in s.busy && t == if q.runAt > since then q.runAt else since
  }

  /** The wait is exact: until the computed time nothing can be dispatched, from then on something can,
      and an unbounded wait means that the passing of time alone never makes anything dispatchable. */
  lemma WaitIsExact(c: Config, s: State, since: real, until: Option<real>, t: real)
    requires IsWakeTime(c, s, since, until) && t >= since
    ensures IsNext(c, s, t, None) <==> until.None? || t < until.value
  {
    if until.Some? {
      var q :| q in s.pending && q.task.resource !in s.busy
             && until.value == if q.runAt > since then q.runAt else since;
      if t >= until.value {
        assert Eligible(s, t, q);
      }
    }
  }

  /** The wake time depends on the queue and the busy resources alone. */
  lemma SameWakeTime(c: Config, a: State, b: State, since: real, until: Option<real>)
    requires a.pending == b.pending && a.busy == b.busy && IsWakeTime(c, a, since, until)
    ensures IsWakeTime(c, b, since, until)
  {
  }

  lemma NextIsUnique(c: Config, s: State, t: real, a: Option<Queued>, b: Option<Queued>)
    requires IsNext(c, s, t, a) && IsNext(c, s, t, b)
    ensures a == b
  {
    assert a.Some? && b.Some? ==> !(Before(a.value, b.value) && Before(b.value, a.value));
  }

  // ---------------------------------------------------------------- steps

  function Remove(s: seq<Queued>, q: Queued): seq<Queued> {
    if s == [] then [] else if s[0] == q then s[1..] else [s[0]] + Remove(s[1..], q)
  }

  /** `notify` reaches the dispatcher, the only thread that waits on the condition. */
  function Notify(d: Dispatcher): Dispatcher {
    if d.Asleep? then Awake else d
  }

  function SubmitOutcome(c: Config, s: State, task: Task, delay: real, interval: Option<real>): Result<nat, Error> {
    if delay < 0.0 then Err(NegativeDelay)
    else if interval.Some? && interval.value <= 0.0 then Err(NonPositiveInterval)
    else if s.phase !in {Created, Running} then Err(SchedulerStopped)
    else if task.kind !in c.kinds then Err(UnknownKind)
    else if task.identity in s.active then Ok(s.active[task.identity].completion)
    else if |s.active| >= c.queueCapacity then Err(CapacityFull)
    else Ok(|s.futures|)
  }

  /** Append a fresh queue entry with a future of its own. */
  function Enqueue(s: State, task: Task, runAt: real, interval: Option<real>): State {
    var q := Queued(task, |s.futures|, runAt, s.sequence, interval);
    s.(sequence := s.sequence + 1, pending := s.pending + [q], active := s.active[task.identity := q],
       futures := s.futures + [Waiting])
  }

  function AfterSubmit(c: Config, s: State, task: Task, delay: real, interval: Option<real>): State {
    if SubmitOutcome(c, s, task, delay, interval).Err? || task.identity in s.active then s
    else Enqueue(s, task, s.now + delay, interval).(dispatcher := Notify(s.dispatcher))
  }

  function Dispatched(s: State, q: Queued): State {
    s.(pending := Remove(s.pending, q), busy := s.busy + {q.task.resource}, running := s.running + {q})
  }

  /** What a completion does before a periodic task is admitted again. */
  function Released(s: State, q: Queued, error: Option<string>): State {
    s.(busy := s.busy - {q.task.resource}, active := s.active - {q.task.identity}, lastError := error,
       running := s.running - {q}, finishing := s.finishing[q := error], dispatcher := Notify(s.dispatcher))
  }

  function AfterComplete(s: State, q: Queued, error: Option<string>): State {
    if q.interval.Some? && s.phase == Running
    then Enqueue(Released(s, q, error), q.task, s.now + q.interval.value, q.interval)
    else Released(s, q, error)
  }

  function Resolved(s: State, q: Queued): State
    requires q in s.finishing && q.completion < |s.futures|
  {
    s.(futures := s.futures[q.completion := Done(s.finishing[q])], finishing := s.finishing - {q})
  }

  function Cancel(futures: seq<FutureState>, k: nat): seq<FutureState> {
    if k < |futures| && futures[k] == Waiting then futures[k := Cancelled] else futures
  }

  /** Take the first pending entry out, drop its identity and cancel its future. */
  function CancelFirst(s: State): State
    requires s.pending != []
  {
    var q := s.pending[0];
    s.(pending := s.pending[1..], active := s.active - {q.task.identity}, futures := Cancel(s.futures, q.completion))
  }

  function CancelPending(s: State): State
    decreases |s.pending|
  {
    if s.pending == [] then s else CancelPending(CancelFirst(s))
  }

  function AfterBeginShutdown(s: State, cancelPending: bool): State {
    if s.phase == Stopped then s
    else
      var closed := s.(phase := Stopping, dispatcher := Notify(s.dispatcher));
      if cancelPending then CancelPending(closed) else closed
  }

  ghost predicate Enabled(c: Config, s: State, e: Event) {
    match e
    case Start => true
    case Submit(_, _, _) => true
    case Advance(elapsed) => elapsed >= 0.0
    case Dispatch(q) => s.dispatcher == Awake && IsNext(c, s, s.now, Some(q))
    case Sleep(later) =>
      && s.dispatcher == Awake && IsNext(c, s, s.now, None)
      && !(s.phase == Stopping && s.busy == {}) && later >= s.now
    case ExitDispatcher =>
      s.dispatcher == Awake && IsNext(c, s, s.now, None) && s.phase == Stopping && s.busy == {}
    case Wake => s.dispatcher.Asleep?
    case Complete(q, _) => q in s.running
    case Resolve(q) => q in s.finishing && q.completion < |s.futures|
    case BeginShutdown(_) => true
    case EndShutdown =>
      && s.phase in {Stopping, Stopped} && (s.dispatcher == NotStarted || s.dispatcher.Exited?)
      && s.running == {} && s.finishing == map[]
  }

  ghost predicate Next(c: Config, s: State, e: Event, s': State) {
    && Enabled(c, s, e)
    && match e
       case Start => s' == if s.phase == Created then s.(phase := Running, dispatcher := Awake) else s
       case Submit(task, delay, interval) => s' == AfterSubmit(c, s, task, delay, interval)
       case Advance(elapsed) => s' == s.(now := s.now + elapsed)
       case Dispatch(q) => s' == Dispatched(s, q)
       case Sleep(later) =>
         && s'.dispatcher.Asleep? && s'.dispatcher.since == later && IsWakeTime(c, s, later, s'.dispatcher.until)
         && s' == s.(dispatcher := s'.dispatcher, now := later)
       case ExitDispatcher => s' == s.(dispatcher := Exited(s.now))
       case Wake => s' == s.(dispatcher := Awake)
       case Complete(q, error) => s' == AfterComplete(s, q, error)
       case Resolve(q) => s' == Resolved(s, q)
       case BeginShutdown(cancelPending) => s' == AfterBeginShutdown(s, cancelPending)
       case EndShutdown => s' == s.(phase := Stopped)
  }

  // ---------------------------------------------------------------- the invariant

  ghost function Waitlist(s: State): set<Queued> {
    set q | q in s.pending
  }

  /** The tasks that hold their identity: those pending and those in flight. */
  ghost function Admitted(s: State): set<Queued> {
    Waitlist(s) + s.running
  }

  ghost function Live(s: State): set<Queued> {
    Admitted(s) + s.finishing.Keys
  }

  ghost predicate Ordered(pending: seq<Queued>) {
    forall i, j :: 0 <= i < j < |pending| ==> pending[i].sequence < pending[j].sequence
  }

  /** No queue entry is in two places. */
  ghost predicate Apart(s: State) {
    Waitlist(s) !! s.running && Admitted(s) !! s.finishing.Keys
  }

  ghost predicate Below(live: set<Queued>, sequence: nat) {
    forall q :: q in live ==> q.sequence < sequence
  }

  /** `active` maps exactly the identities of the admitted tasks, each to its one task. */
  ghost predicate ActiveExact(admitted: set<Queued>, active: map<string, Queued>) {
    && (forall q :: q in admitted ==> q.task.identity in active && active[q.task.identity] == q)
    && (forall id :: id in active ==> active[id] in admitted && active[id].task.identity == id)
  }

  ghost function Resources(running: set<Queued>): set<string> {
    set q | q in running :: q.task.resource
  }

  /** The busy resources are exactly those of the in-flight tasks, one task per resource. */
  ghost predicate BusyExact(running: set<Queued>, busy: set<string>) {
    && busy == Resources(running)
    && (forall q, r :: q in running && r in running && q.task.resource == r.task.resource ==> q == r)
    && |busy| == |running|
  }

  /** The futures still waiting are exactly those of the live entries, one each. */
  ghost predicate FuturesExact(live: set<Queued>, futures: seq<FutureState>) {
    && (forall q :: q in live ==> q.completion < |futures| && futures[q.completion] == Waiting)
    && (forall q, r :: q in live && r in live && q.completion == r.completion ==> q == r)
    && (forall k :: 0 <= k < |futures| && futures[k] == Waiting ==> exists q :: q in live && q.completion == k)
  }

  ghost predicate Phased(s: State) {
    && (s.phase == Created ==> s.dispatcher == NotStarted)
    && (s.phase == Running ==> s.dispatcher.Awake? || s.dispatcher.Asleep?)
    && (s.dispatcher == NotStarted ==> s.running == {} && s.finishing == map[])
    && (s.dispatcher.Exited? ==>
          && s.phase in {Stopping, Stopped} && s.running == {}
          && forall q :: q in s.pending ==> q.runAt > s.dispatcher.at)
    && (s.phase == Stopped ==>
          (s.dispatcher == NotStarted || s.dispatcher.Exited?) && s.running == {} && s.finishing == map[])
  }

  /** A sleeping dispatcher has nothing to do before its wake time. */
  ghost predicate SleepsSoundly(c: Config, s: State) {
    s.dispatcher.Asleep? ==>
      && s.dispatcher.since <= s.now
      && IsWakeTime(c, s, s.dispatcher.since, s.dispatcher.until)
      && !(s.phase == Stopping && s.busy == {})
  }

  /** The part of the invariant that does not look at the phase or at the dispatcher. */
  ghost predicate Books(s: State) {
    && Ordered(s.pending) && Apart(s) && Below(Live(s), s.sequence)
    && ActiveExact(Admitted(s), s.active)
    && BusyExact(s.running, s.busy)
    && FuturesExact(Live(s), s.futures)
  }

  ghost predicate Inv(c: Config, s: State) {
    && Books(s)
    && |s.active| <= c.queueCapacity && |s.running| <= c.maxConcurrency
    && Phased(s) && SleepsSoundly(c, s)
  }

  /** `es` leads from `s` to `s'`, one atomic step after the other. */
  ghost predicate Run(c: Config, s: State, es: seq<Event>, s': State)
    decreases |es|
  {
    if es == [] then s == s' else exists m :: Next(c, s, es[0], m) && Run(c, m, es[1..], s')
  }
}
