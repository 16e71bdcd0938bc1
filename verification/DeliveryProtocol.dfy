/**
 * Delivery under concurrency and crashes. Any number of workers run `deliver`, each one store transaction
 * or one `send` at a time; a crash may strike between any two of these and drops the record lock.
 *
 * Every step concerns one record, so the system is a map from record ids to cells. The lock of a record
 * is the `session` of its cell: it is held while a session is there, and a crash removes the session.
 */
module DeliveryProtocol {
  import opened Wrappers
  import opened Delivery

  /** Where a worker inside `deliver` stands. `i` counts the required adapters already passed. */
  datatype Pc =
    | Checking
    | Preparing
    | Recovering
    | LookingUp
    | Looping(found: bool, i: nat)
    | Beginning(found: bool, i: nat)
    | Sending(i: nat)
    | Finishing(found: bool, i: nat, success: bool)
    | Finalizing

  /** A worker that holds the lock: the adapters it knows and the plan it has read. */
  datatype Session = Session(adapters: seq<string>, required: seq<string>, pc: Pc)

  /** One record id. `calls` counts every `send` call ever made, `accepted` those that returned true and
      `refused` those that returned false; `missing` are the adapters begun without a call, because the item or
      the adapter was not there, and `cut` those whose worker was lost after it had begun them. */
  datatype Cell = Cell(record: Option<Record>, session: Option<Session>, calls: multiset<string>, accepted: set<string>,
                       refused: set<string>, missing: set<string>, cut: set<string>)

  const EMPTY := Cell(None, None, multiset{}, {}, {}, {}, {})

  datatype Event =
    | Request(id: string, itemId: string)
    | Acquire(adapters: seq<string>)
    | Check
    | Prepare
    | Recover
    | LookUp(found: bool)
    | Turn
    | Begin
    | Send(success: bool)
    | SendRaises
    | Finish(now: string)
    | Finalize
    | Crash

  ghost predicate At(c: Cell, pc: Pc) {
    c.session.Some? && c.session.value.pc == pc
  }

  function Goto(c: Cell, pc: Pc): Cell
    requires c.session.Some?
  {
    c.(session := Some(c.session.value.(pc := pc)))
  }

  /** The adapter whose turn it is. */
  predicate HasAdapter(c: Cell, i: nat) {
    && c.record.Some? && c.session.Some?
    && i < |c.session.value.required| && c.session.value.required[i] in c.record.value.results
  }

  /** The adapter that the worker has begun and not finished. */
  function InFlight(c: Cell): set<string> {
    if c.session.None? then {}
    else match c.session.value.pc
      case Sending(i) => if i < |c.session.value.required| then {c.session.value.required[i]} else {}
      case Finishing(_, i, _) => if i < |c.session.value.required| then {c.session.value.required[i]} else {}
      case _ => {}
  }

  ghost predicate Next(c: Cell, e: Event, c': Cell) {
    match e
    case Request(id, itemId) =>
      && id == "delivery-" + itemId
      && c' == if c.record.Some? || itemId == "" then c else c.(record := Some(Record(id, itemId, Open, [], map[])))
    case Acquire(adapters) =>
      && c.session.None? && AdapterIds(adapters)
      && c' == c.(session := Some(Session(adapters, [], Checking)))
    case Check =>
      && At(c, Checking)
      && c' == if c.record.None? || c.record.value.status != Open then c.(session := None) else Goto(c, Preparing)
    case Prepare =>
      && At(c, Preparing) && c.record.Some?
      && c' == Goto(c, Recovering).(record := Some(Prepared(c.record.value, c.session.value.adapters)))
    case Recover =>
      && At(c, Recovering) && c.record.Some?
      && var recovered := Recovered(c.record.value);
         c' == c.(record := Some(recovered),
                  session := Some(c.session.value.(required := recovered.required, pc := LookingUp)))
    case LookUp(found) =>
      At(c, LookingUp) && c' == Goto(c, Looping(found, 0))
    case Turn =>
      && c.session.Some? && c.session.value.pc.Looping?
      && var Looping(found, i) := c.session.value.pc;
         if i == |c.session.value.required| then c' == Goto(c, Finalizing)
         else
           && HasAdapter(c, i)
           && c' == Goto(c, if c.record.value.results[c.session.value.required[i]].status != Pending
                            then Looping(found, i + 1) else Beginning(found, i))
    case Begin =>
      && c.session.Some? && c.session.value.pc.Beginning?
      && var Beginning(found, i) := c.session.value.pc;
         && HasAdapter(c, i)
         && var a := c.session.value.required[i];
            var known := found && a in c.session.value.adapters;
            c' == Goto(c, if known then Sending(i) else Finishing(found, i, false))
                  .(record := Some(Begun(c.record.value, a)), missing := if known then c.missing else c.missing + {a})
    case Send(success) =>
      && c.session.Some? && c.session.value.pc.Sending? && c.session.value.pc.i < |c.session.value.required|
      && var a := c.session.value.required[c.session.value.pc.i];
         c' == Goto(c, Finishing(true, c.session.value.pc.i, success))
               .(calls := c.calls + multiset{a}, accepted := if success then c.accepted + {a} else c.accepted,
                 refused := if success then c.refused else c.refused + {a})
    case SendRaises =>
      && c.session.Some? && c.session.value.pc.Sending? && c.session.value.pc.i < |c.session.value.required|
      && c' == c.(session := None, calls := c.calls + multiset{c.session.value.required[c.session.value.pc.i]},
                  cut := c.cut + InFlight(c))
    case Finish(now) =>
      && c.session.Some? && c.session.value.pc.Finishing?
      && var Finishing(found, i, success) := c.session.value.pc;
         && HasAdapter(c, i)
         && c' == Goto(c, Looping(found, i + 1))
                  .(record := Some(Finished(c.record.value, c.session.value.required[i], success, now)))
    case Finalize =>
      && At(c, Finalizing) && c.record.Some?
      && c' == c.(record := Some(Finalized(c.record.value)), session := None)
    case Crash =>
      c.session.Some? && c' == c.(session := None, cut := c.cut + InFlight(c))
  }

  // ---------------------------------------------------------------- the invariant

  /** The books of one adapter: it was begun at most once, sent at most once, and only what `send`
      acknowledged counts as sent. */
  ghost predicate AdapterBooks(calls: nat, accepted: bool, r: AdapterResult) {
    && r.attempts == (if r.status == Pending then 0 else 1)
    && calls <= r.attempts
    && (accepted ==> calls == 1)
    && (r.status == Sent ==> accepted)
  }

  ghost predicate RecordBooks(calls: multiset<string>, accepted: set<string>, r: Record) {
    && r.Valid()
    && (forall a :: a in r.results ==> AdapterBooks(calls[a], a in accepted, r.results[a]))
    && (forall a :: a !in r.results ==> calls[a] == 0 && a !in accepted)
    && (r.status != Open ==>
          r.required != [] && r.status == FinalStatus(r.results)
          && forall a :: a in r.results ==> r.results[a].Terminal())
  }

  ghost predicate NoneDelivering(r: Record, except: set<string>) {
    forall a :: a in r.results && a !in except ==> r.results[a].status != Delivering
  }

  /** The adapters before `i` have been dealt with. */
  ghost predicate Passed(r: Record, i: nat) {
    i <= |r.required| && forall j :: 0 <= j < i ==> r.required[j] in r.results && r.results[r.required[j]].Terminal()
  }

  ghost predicate SessionBooks(c: Cell, r: Record, s: Session) {
    && AdapterIds(s.adapters)
    && (s.pc != Checking ==> r.status == Open)
    && (!(s.pc.Checking? || s.pc.Preparing? || s.pc.Recovering?) ==> s.required == r.required)
    && match s.pc
       case Checking => true
       case Preparing => true
       case Recovering => true
       case LookingUp => NoneDelivering(r, {})
       case Looping(found, i) => NoneDelivering(r, {}) && Passed(r, i)
       case Beginning(found, i) =>
         && NoneDelivering(r, {}) && Passed(r, i)
         && i < |r.required| && r.required[i] in r.results && r.results[r.required[i]].status == Pending
       case Sending(i) =>
         && Passed(r, i) && i < |r.required| && NoneDelivering(r, {r.required[i]})
         && r.required[i] in r.results && r.results[r.required[i]].status == Delivering
         && c.calls[r.required[i]] == 0
       case Finishing(found, i, success) =>
         && Passed(r, i) && i < |r.required| && NoneDelivering(r, {r.required[i]})
         && r.required[i] in r.results && r.results[r.required[i]].status == Delivering
         && (success ==> r.required[i] in c.accepted)
       case Finalizing => Passed(r, |r.required|)
  }

  ghost predicate Inv(c: Cell) {
    match c.record
    case None =>
      && c.calls == multiset{} && c.accepted == {}
      && (c.session.Some? ==> c.session.value.pc == Checking && AdapterIds(c.session.value.adapters))
    case Some(r) => RecordBooks(c.calls, c.accepted, r) && (c.session.Some? ==> SessionBooks(c, r, c.session.value))
  }

  // ---------------------------------------------------------------- every step keeps it

  lemma RequestedHasBooks(c: Cell, r: Record)
    requires c.calls == multiset{} && c.accepted == {}
    requires r.id != "" && r.itemId != "" && r == Record(r.id, r.itemId, Open, [], map[])
    ensures RecordBooks(c.calls, c.accepted, r)
  {
  }

  lemma PreparedKeepsBooks(c: Cell, r: Record, adapters: seq<string>)
    requires RecordBooks(c.calls, c.accepted, r) && r.status == Open && AdapterIds(adapters)
    ensures RecordBooks(c.calls, c.accepted, Prepared(r, adapters)) && Prepared(r, adapters).status == Open
  {
  }

  lemma RecoveredKeepsBooks(c: Cell, r: Record)
    requires RecordBooks(c.calls, c.accepted, r) && r.status == Open
    ensures RecordBooks(c.calls, c.accepted, Recovered(r)) && NoneDelivering(Recovered(r), {})
            && Recovered(r).status == Open
  {
  }

  lemma BegunKeepsBooks(c: Cell, r: Record, i: nat)
    requires RecordBooks(c.calls, c.accepted, r) && r.status == Open && i < |r.required| && NoneDelivering(r, {})
             && Passed(r, i)
    requires r.required[i] in r.results && r.results[r.required[i]].status == Pending
    ensures var r', a := Begun(r, r.required[i]), r.required[i];
            && RecordBooks(c.calls, c.accepted, r') && Passed(r', i) && NoneDelivering(r', {a})
            && a in r'.results && r'.results[a].status == Delivering && c.calls[a] == 0
            && r'.required == r.required && r'.status == Open
  {
  }

  lemma FinishedKeepsBooks(c: Cell, r: Record, i: nat, success: bool, now: string)
    requires RecordBooks(c.calls, c.accepted, r) && r.status == Open && i < |r.required| && Passed(r, i)
    requires NoneDelivering(r, {r.required[i]})
    requires r.required[i] in r.results && r.results[r.required[i]].status == Delivering
    requires success ==> r.required[i] in c.accepted
    ensures var r' := Finished(r, r.required[i], success, now);
            && RecordBooks(c.calls, c.accepted, r') && Passed(r', i + 1) && NoneDelivering(r', {})
            && r'.required == r.required && r'.status == Open
  {
  }

  lemma FinalizedKeepsBooks(c: Cell, r: Record)
    requires RecordBooks(c.calls, c.accepted, r) && Passed(r, |r.required|)
    ensures RecordBooks(c.calls, c.accepted, Finalized(r))
  {
    forall a | a in r.results ensures r.results[a].Terminal() {
      var j :| 0 <= j < |r.required| && r.required[j] == a;
    }
    if r.required != [] {
      assert r.required[0] in r.results;
    }
  }

  lemma SentKeepsBooks(c: Cell, c': Cell, r: Record, a: string, success: bool)
    requires RecordBooks(c.calls, c.accepted, r) && a in r.results && r.results[a].status == Delivering
             && c.calls[a] == 0
    requires c'.calls == c.calls + multiset{a} && c'.accepted == if success then c.accepted + {a} else c.accepted
    ensures RecordBooks(c'.calls, c'.accepted, r)
  {
    forall x | x in r.results ensures AdapterBooks(c'.calls[x], x in c'.accepted, r.results[x]) {
      assert AdapterBooks(c.calls[x], x in c.accepted, r.results[x]);
    }
  }

  lemma StepKeepsInv(c: Cell, e: Event, c': Cell)
    requires Inv(c) && Next(c, e, c')
    ensures Inv(c')
  {
    hide RecordBooks, FinalStatus, Prepared, Recovered, Begun, Finished, Finalized;
    match e
    case Request(id, itemId) =>
      if c.record.None? && itemId != "" {
        RequestedHasBooks(c, Record(id, itemId, Open, [], map[]));
      }
    case Prepare => PreparedKeepsBooks(c, c.record.value, c.session.value.adapters);
    case Recover => RecoveredKeepsBooks(c, c.record.value);
    case Begin => BegunKeepsBooks(c, c.record.value, c.session.value.pc.i);
    case Send(success) =>
      SentKeepsBooks(c, c', c.record.value, c.session.value.required[c.session.value.pc.i], success);
    case SendRaises =>
      SentKeepsBooks(c, c', c.record.value, c.session.value.required[c.session.value.pc.i], false);
    case Finish(now) =>
      FinishedKeepsBooks(c, c.record.value, c.session.value.pc.i, c.session.value.pc.success, now);
    case Finalize => FinalizedKeepsBooks(c, c.record.value);
    case Acquire(_) =>
    case Check =>
    case LookUp(_) =>
    case Turn =>
    case Crash =>
  }

  /** A worker that holds a lock is never stuck: it can always take the next step of `deliver`. */
  lemma WorkerCanStep(c: Cell, found: bool, success: bool, now: string) returns (e: Event, c': Cell)
    requires Inv(c) && c.session.Some?
    ensures Next(c, e, c') && !e.Crash? && !e.Request? && !e.Acquire?
  {
    hide RecordBooks, FinalStatus, Prepared, Recovered;
    var s := c.session.value;
    match s.pc
    case Checking =>
      e := Check;
      c' := if c.record.None? || c.record.value.status != Open then c.(session := None) else Goto(c, Preparing);
    case Preparing =>
      e, c' := Prepare, Goto(c, Recovering).(record := Some(Prepared(c.record.value, s.adapters)));
    case Recovering =>
      var recovered := Recovered(c.record.value);
      e, c' := Recover, c.(record := Some(recovered),
                           session := Some(s.(required := recovered.required, pc := LookingUp)));
    case LookingUp =>
      e, c' := LookUp(found), Goto(c, Looping(found, 0));
    case Looping(found, i) =>
      e := Turn;
      if i == |s.required| {
        c' := Goto(c, Finalizing);
      } else {
        PlanHasResults(c.calls, c.accepted, c.record.value, i);
        var skip := c.record.value.results[s.required[i]].status != Pending;
        c' := Goto(c, if skip then Looping(found, i + 1) else Beginning(found, i));
      }
    case Beginning(found, i) =>
      var a := s.required[i];
      e := Begin;
      var known := found && a in s.adapters;
      c' := Goto(c, if known then Sending(i) else Finishing(found, i, false))
            .(record := Some(Begun(c.record.value, a)), missing := if known then c.missing else c.missing + {a});
    case Sending(i) =>
      var a := s.required[i];
      e := Send(success);
      c' := Goto(c, Finishing(true, i, success))
            .(calls := c.calls + multiset{a}, accepted := if success then c.accepted + {a} else c.accepted,
              refused := if success then c.refused else c.refused + {a});
    case Finishing(found, i, outcome) =>
      e := Finish(now);
      c' := Goto(c, Looping(found, i + 1)).(record := Some(Finished(c.record.value, s.required[i], outcome, now)));
    case Finalizing =>
      e, c' := Finalize, c.(record := Some(Finalized(c.record.value)), session := None);
  }

  lemma PlanHasResults(calls: multiset<string>, accepted: set<string>, r: Record, i: nat)
    requires RecordBooks(calls, accepted, r) && i < |r.required|
    ensures r.required[i] in r.results
  {
  }

  // ---------------------------------------------------------------- how a record may change

  /** Statuses only move forward: pending, then delivering, then one of sent, failed or uncertain. */
  ghost predicate Forward(r: AdapterResult, r': AdapterResult) {
    && (r.Terminal() ==> r' == r)
    && (r.status == Delivering ==> r'.status != Pending)
    && r.attempts <= r'.attempts
  }

  /** The plan is fixed once made, no adapter goes back, and a finished record is never touched again. */
  ghost predicate RecordEvolves(r: Record, r': Record) {
    && (r.required != [] ==> r'.required == r.required)
    && r.results.Keys <= r'.results.Keys
    && (forall a :: a in r.results ==> Forward(r.results[a], r'.results[a]))
    && (r.status != Open ==> r' == r)
  }

  ghost predicate Evolves(c: Cell, c': Cell) {
    c.record.Some? ==> c'.record.Some? && RecordEvolves(c.record.value, c'.record.value)
  }

  /** What one step may do to an adapter: begin it, or end what was begun. */
  ghost predicate OneStep(r: AdapterResult, r': AdapterResult) {
    || r' == r
    || (r.status == Pending && r' == AdapterResult(Delivering, r.attempts + 1, None))
    || (r.status == Delivering && r'.Terminal() && r'.attempts == r.attempts)
  }

  /** What one step may do to a record: plan it, with every adapter pending, and move adapters one step. */
  ghost predicate RecordSteps(r: Record, r': Record) {
    && (r.required != [] ==> r'.required == r.required)
    && (forall a :: a in r.results ==> a in r'.results && OneStep(r.results[a], r'.results[a]))
    && (forall a :: a in r'.results && a !in r.results ==> r.required == [] && r'.results[a].status == Pending)
    && (r.status != Open ==> r' == r)
  }

  /** One step takes an adapter from pending to delivering, from there to a terminal status, and nowhere else. */
  lemma StepByStep(c: Cell, e: Event, c': Cell)
    requires Inv(c) && Next(c, e, c') && c.record.Some?
    ensures c'.record.Some? && RecordSteps(c.record.value, c'.record.value)
  {
    var r := c.record.value;
    UnplannedHasNoResults(c.calls, c.accepted, r);
    hide RecordSteps, RecordBooks, NoneDelivering, Passed, Prepared, Recovered, Begun, Finished, Finalized;
    SameSteps(r);
    match e
    case Prepare => PreparedSteps(r, c.session.value.adapters);
    case Recover => RecoveredSteps(r);
    case Begin => BegunSteps(r, c.session.value.required[c.session.value.pc.i]);
    case Finish(now) =>
      FinishedSteps(r, c.session.value.required[c.session.value.pc.i], c.session.value.pc.success, now);
    case Finalize => FinalizedSteps(r);
    case Request(_, _) =>
    case Acquire(_) =>
    case Check =>
    case LookUp(_) =>
    case Turn =>
    case Send(_) =>
    case SendRaises =>
    case Crash =>
  }

  lemma SameSteps(r: Record)
    ensures RecordSteps(r, r)
  {
  }

  lemma PreparedSteps(r: Record, adapters: seq<string>)
    requires r.status == Open && (r.required == [] ==> r.results == map[])
    ensures RecordSteps(r, Prepared(r, adapters))
  {
  }

  lemma RecoveredSteps(r: Record)
    requires r.status == Open
    ensures RecordSteps(r, Recovered(r))
  {
  }

  lemma BegunSteps(r: Record, a: string)
    requires r.status == Open && a in r.results
    ensures RecordSteps(r, Begun(r, a))
  {
  }

  lemma FinishedSteps(r: Record, a: string, success: bool, now: string)
    requires r.status == Open && a in r.results && r.results[a].status == Delivering
    ensures RecordSteps(r, Finished(r, a, success, now))
  {
  }

  lemma FinalizedSteps(r: Record)
    requires r.status == Open
    ensures RecordSteps(r, Finalized(r))
  {
    hide FinalStatus;
  }

  /** Over several steps that is moving forward. */
  lemma StepEvolves(c: Cell, e: Event, c': Cell)
    requires Inv(c) && Next(c, e, c')
    ensures c.record.Some? ==> c'.record.Some? && RecordSteps(c.record.value, c'.record.value)
    ensures Evolves(c, c')
  {
    hide Inv, Next, RecordSteps, RecordEvolves;
    if c.record.Some? {
      StepByStep(c, e, c');
      StepsEvolve(c.record.value, c'.record.value);
    }
  }

  lemma StepsEvolve(r: Record, r': Record)
    requires RecordSteps(r, r')
    ensures RecordEvolves(r, r')
  {
  }

  lemma UnplannedHasNoResults(calls: multiset<string>, accepted: set<string>, r: Record)
    requires RecordBooks(calls, accepted, r)
    ensures r.required == [] ==> r.results == map[]
    ensures r.status != Open ==> r.required != []
    ensures forall a :: a in r.results && r.results[a].status == Delivering ==> r.results[a].attempts == 1
  {
  }

  // ---------------------------------------------------------------- whole runs

  /** Ids that no step has touched yet have no entry. */
  type System = map<string, Cell>

  function CellOf(s: System, id: string): Cell {
    if id in s then s[id] else EMPTY
  }

  ghost predicate SystemNext(s: System, id: string, e: Event, s': System) {
    && (e.Request? ==> e.id == id)
    && Next(CellOf(s, id), e, CellOf(s', id))
    && s' == s[id := CellOf(s', id)]
  }

  ghost predicate Run(s: System, es: seq<(string, Event)>, s': System)
    decreases |es|
  {
    if es == [] then s == s'
    else exists m :: SystemNext(s, es[0].0, es[0].1, m) && Run(m, es[1..], s')
  }

  ghost predicate SystemInv(s: System) {
    forall id :: Inv(CellOf(s, id))
  }

  lemma EvolvesTransitive(a: Cell, b: Cell, c: Cell)
    requires Evolves(a, b) && Evolves(b, c)
    ensures Evolves(a, c)
  {
  }

  lemma {:induction false} RunKeepsInv(s: System, es: seq<(string, Event)>, s': System)
    requires SystemInv(s) && Run(s, es, s')
    ensures SystemInv(s')
    ensures forall id :: Evolves(CellOf(s, id), CellOf(s', id))
    decreases |es|
  {
    hide Inv, Next, Evolves;
    if es == [] {
      forall id ensures Evolves(CellOf(s, id), CellOf(s, id)) { EvolvesReflexive(CellOf(s, id)); }
    } else {
      var m :| SystemNext(s, es[0].0, es[0].1, m) && Run(m, es[1..], s');
      var id := es[0].0;
      assert Inv(CellOf(s, id));
      StepKeepsInv(CellOf(s, id), es[0].1, CellOf(m, id));
      StepEvolves(CellOf(s, id), es[0].1, CellOf(m, id));
      forall x ensures Inv(CellOf(m, x)) && Evolves(CellOf(s, x), CellOf(m, x)) {
        if x != id {
          assert CellOf(m, x) == CellOf(s, x);
          EvolvesReflexive(CellOf(s, x));
        }
      }
      RunKeepsInv(m, es[1..], s');
      forall x ensures Evolves(CellOf(s, x), CellOf(s', x)) {
        EvolvesTransitive(CellOf(s, x), CellOf(m, x), CellOf(s', x));
      }
    }
  }

  lemma EvolvesReflexive(c: Cell)
    ensures Evolves(c, c)
  {
  }

  ghost predicate Reachable(s: System) {
    exists es :: Run(map[], es, s)
  }

  /** Whatever the workers and the crashes do: no adapter of any record is sent twice, none is attempted
      twice, and what counts as sent was acknowledged by exactly one `send`. A record is closed only when
      all its adapters are dealt with, as delivered exactly when all of them were sent. */
  lemma SentAtMostOnce(s: System, id: string, a: string)
    requires Reachable(s)
    ensures var c := CellOf(s, id);
            && c.calls[a] <= 1
            && (c.record.Some? && a in c.record.value.results ==>
                  && c.calls[a] <= c.record.value.results[a].attempts <= 1
                  && (c.record.value.results[a].status == Sent ==> a in c.accepted && c.calls[a] == 1))
            && (c.record.Some? && c.record.value.status != Open ==>
                  && c.record.value.required != []
                  && (forall x :: x in c.record.value.results ==> c.record.value.results[x].Terminal())
                  && (c.record.value.status == Delivered
                      <==> forall x :: x in c.record.value.results ==> c.record.value.results[x].status == Sent))
  {
    var es :| Run(map[], es, s);
    assert SystemInv(map[]);
    RunKeepsInv(map[], es, s);
    assert Inv(CellOf(s, id));
    hide SessionBooks;
    var c := CellOf(s, id);
    if c.record.Some? && a in c.record.value.results {
      assert AdapterBooks(c.calls[a], a in c.accepted, c.record.value.results[a]);
    }
  }

  /** Along every run from a reachable state, statuses only move forward and closed records stay as they are. */
  lemma OnlyForward(s: System, es: seq<(string, Event)>, s': System, id: string)
    requires Reachable(s) && Run(s, es, s')
    ensures Evolves(CellOf(s, id), CellOf(s', id))
  {
    var before :| Run(map[], before, s);
    assert SystemInv(map[]);
    hide Inv, Evolves, Next;
    RunKeepsInv(map[], before, s);
    RunKeepsInv(s, es, s');
  }

  // ---------------------------------------------------------------- why an adapter ended as it did

  /** One adapter: failed only if `send` refused or could not be called and the worker lived to record it; cut
      off only if in delivery still or uncertain; uncertain only if cut off. */
  ghost predicate Cause(c: Cell, a: string, status: AdapterStatus) {
    && (status == Pending ==> a !in c.refused && a !in c.missing && a !in c.cut)
    && (status == Delivering ==> (a in c.cut <==> a !in InFlight(c)))
    && (status == Sent ==> a in c.accepted && a !in c.cut)
    && (status == Failed ==> (a in c.refused || a in c.missing) && a !in c.cut)
    && (status == Uncertain ==> a in c.cut)
    && (a in c.refused ==> c.calls[a] == 1 && a !in c.accepted)
    && (a in c.missing ==> c.calls[a] == 0)
  }

  ghost predicate Causes(c: Cell) {
    match c.record
    case None => c.refused == {} && c.missing == {} && c.cut == {}
    case Some(r) =>
      && (forall a :: a in r.results ==> Cause(c, a, r.results[a].status))
      && (forall a :: a !in r.results ==> a !in c.refused && a !in c.missing && a !in c.cut)
      && (c.session.Some? ==> InDelivery(c, r, c.session.value))
  }

  /** What is known of the adapter in flight. */
  ghost predicate InDelivery(c: Cell, r: Record, s: Session) {
    match s.pc
    case Sending(i) =>
      i < |s.required| && s.required[i] in r.results && s.required[i] !in c.refused && s.required[i] !in c.missing
    case Finishing(_, i, success) =>
      && i < |s.required| && s.required[i] in r.results
      && (success ==> s.required[i] in c.accepted && s.required[i] !in c.refused)
      && (!success ==> s.required[i] in c.refused || s.required[i] in c.missing)
    case _ => true
  }

  lemma StepKeepsCauses(c: Cell, e: Event, c': Cell)
    requires Inv(c) && Causes(c) && Next(c, e, c')
    ensures Causes(c')
  {
    hide Inv, Next, Causes;
    match e
    case Prepare => PlanKeepsCauses(c, e, c');
    case Recover => RecoverKeepsCauses(c, e, c');
    case Begin => BeginKeepsCauses(c, e, c');
    case Send(_) => SendKeepsCauses(c, e, c');
    case Finish(_) => FinishKeepsCauses(c, e, c');
    case Crash => LossKeepsCauses(c, e, c');
    case SendRaises => LossKeepsCauses(c, e, c');
    case _ => QuietKeepsCauses(c, e, c');
  }

  lemma QuietKeepsCauses(c: Cell, e: Event, c': Cell)
    requires Inv(c) && Causes(c) && Next(c, e, c')
    requires e.Request? || e.Acquire? || e.Check? || e.LookUp? || e.Turn? || e.Finalize?
    ensures Causes(c')
  {
    hide RecordBooks, FinalStatus, NoneDelivering, Passed;
  }

  /** A worker is lost: the adapter it had begun is cut off. */
  lemma LossKeepsCauses(c: Cell, e: Event, c': Cell)
    requires Inv(c) && Causes(c) && Next(c, e, c') && (e.Crash? || e.SendRaises?)
    ensures Causes(c')
  {
    hide FinalStatus, Passed;
    if c.record.Some? {
      var r := c.record.value;
      forall a | a in r.results ensures Cause(c', a, r.results[a].status) {
        LossKeepsCause(c, e, c', a);
      }
    }
  }

  lemma LossKeepsCause(c: Cell, e: Event, c': Cell, a: string)
    requires Inv(c) && Causes(c) && Next(c, e, c') && (e.Crash? || e.SendRaises?)
    requires c.record.Some? && a in c.record.value.results
    ensures Cause(c', a, c.record.value.results[a].status)
  {
    hide RecordBooks, FinalStatus, Passed;
  }

  lemma PlanKeepsCauses(c: Cell, e: Event, c': Cell)
    requires Inv(c) && Causes(c) && Next(c, e, c') && e.Prepare?
    ensures Causes(c')
  {
    UnplannedHasNoResults(c.calls, c.accepted, c.record.value);
    NoneWithoutResult(c.calls, c.accepted, c.record.value);
    hide RecordBooks;
  }

  lemma NoneWithoutResult(calls: multiset<string>, accepted: set<string>, r: Record)
    requires RecordBooks(calls, accepted, r)
    ensures forall a :: a !in r.results ==> calls[a] == 0 && a !in accepted
  {
  }

  lemma RecoverKeepsCauses(c: Cell, e: Event, c': Cell)
    requires Inv(c) && Causes(c) && Next(c, e, c') && e.Recover?
    ensures Causes(c')
  {
    RecoveredMeans(c.record.value);
    hide RecordBooks, Recovered;
  }

  lemma BeginKeepsCauses(c: Cell, e: Event, c': Cell)
    requires Inv(c) && Causes(c) && Next(c, e, c') && e.Begin?
    ensures Causes(c')
  {
    hide Inv, Begun, Cause;
    BeginsUncalled(c, e, c');
    var r := c.record.value;
    BegunMeans(r, c.session.value.required[c.session.value.pc.i]);
    forall x | x in c'.record.value.results ensures Cause(c', x, c'.record.value.results[x].status) {
      BeginKeepsCause(c, e, c', x);
    }
  }

  /** The adapter about to begin is pending, and nothing has happened to it yet. */
  lemma BeginsUncalled(c: Cell, e: Event, c': Cell)
    requires Inv(c) && Causes(c) && Next(c, e, c') && e.Begin?
    ensures var s, r := c.session.value, c.record.value;
            var b := s.required[s.pc.i];
            && b in r.results && r.results[b].status == Pending && c.calls[b] == 0
            && b !in c.refused && b !in c.missing && b !in c.cut
  {
    var b := c.session.value.required[c.session.value.pc.i];
    assert AdapterBooks(c.calls[b], b in c.accepted, c.record.value.results[b]);
  }

  lemma BeginKeepsCause(c: Cell, e: Event, c': Cell, a: string)
    requires Inv(c) && Causes(c) && Next(c, e, c') && e.Begin?
    requires a in c.record.value.results
    ensures a in c'.record.value.results && Cause(c', a, c'.record.value.results[a].status)
  {
    hide Inv, Begun;
    BeginsUncalled(c, e, c');
    BegunMeans(c.record.value, c.session.value.required[c.session.value.pc.i]);
    assert Cause(c, a, c.record.value.results[a].status);
  }

  lemma SendKeepsCauses(c: Cell, e: Event, c': Cell)
    requires Inv(c) && Causes(c) && Next(c, e, c') && e.Send?
    ensures Causes(c')
  {
    var r, b := c.record.value, c.session.value.required[c.session.value.pc.i];
    assert AdapterBooks(c.calls[b], b in c.accepted, r.results[b]);
    hide RecordBooks, Passed, FinalStatus, NoneDelivering, Cause;
    forall a | a in r.results ensures Cause(c', a, r.results[a].status) {
      SendKeepsCause(c, e, c', a);
    }
  }

  lemma SendKeepsCause(c: Cell, e: Event, c': Cell, a: string)
    requires Inv(c) && Causes(c) && Next(c, e, c') && e.Send?
    requires a in c.record.value.results
    ensures c'.record == c.record && Cause(c', a, c.record.value.results[a].status)
  {
    var r, b := c.record.value, c.session.value.required[c.session.value.pc.i];
    assert Cause(c, a, r.results[a].status);
    assert AdapterBooks(c.calls[b], b in c.accepted, r.results[b]);
    hide RecordBooks, Passed, FinalStatus, NoneDelivering, Causes;
  }

  lemma FinishKeepsCauses(c: Cell, e: Event, c': Cell)
    requires Inv(c) && Causes(c) && Next(c, e, c') && e.Finish?
    ensures Causes(c')
  {
    var r, r' := c.record.value, c'.record.value;
    FinishedMeans(r, c.session.value.required[c.session.value.pc.i], c.session.value.pc.success, e.now);
    hide RecordBooks, Finished, Passed, NoneDelivering, Cause;
    forall a | a in r'.results ensures Cause(c', a, r'.results[a].status) {
      FinishKeepsCause(c, e, c', a);
    }
  }

  lemma FinishKeepsCause(c: Cell, e: Event, c': Cell, a: string)
    requires Inv(c) && Causes(c) && Next(c, e, c') && e.Finish?
    requires a in c.record.value.results
    ensures a in c'.record.value.results && Cause(c', a, c'.record.value.results[a].status)
  {
    FinishedMeans(c.record.value, c.session.value.required[c.session.value.pc.i], c.session.value.pc.success, e.now);
    assert Cause(c, a, c.record.value.results[a].status);
    hide RecordBooks, Finished, Passed, FinalStatus, NoneDelivering;
  }

  lemma {:induction false} RunKeepsCauses(s: System, es: seq<(string, Event)>, s': System)
    requires SystemInv(s) && Run(s, es, s') && forall id :: Causes(CellOf(s, id))
    ensures forall id :: Causes(CellOf(s', id))
    decreases |es|
  {
    hide Inv, Next, Causes, Evolves;
    if es != [] {
      var m :| SystemNext(s, es[0].0, es[0].1, m) && Run(m, es[1..], s');
      var id := es[0].0;
      assert Inv(CellOf(s, id)) && Causes(CellOf(s, id));
      StepKeepsInv(CellOf(s, id), es[0].1, CellOf(m, id));
      StepKeepsCauses(CellOf(s, id), es[0].1, CellOf(m, id));
      forall x ensures Inv(CellOf(m, x)) && Causes(CellOf(m, x)) {
        if x != id {
          assert CellOf(m, x) == CellOf(s, x);
        }
      }
      RunKeepsCauses(m, es[1..], s');
    }
  }

  /** In every reachable state: a failed adapter was finished by its worker, after its one `send` returned false
      or because there was nothing to call; one whose worker was lost after beginning it never counts as
      failed or sent, but is in delivery until a recovery makes it uncertain; and nothing else is uncertain. */
  lemma FailedOnlyIfFinished(s: System, id: string, a: string)
    requires Reachable(s) && CellOf(s, id).record.Some? && a in CellOf(s, id).record.value.results
    ensures var c := CellOf(s, id);
            var status := c.record.value.results[a].status;
            && (status == Failed ==>
                  && a !in c.cut
                  && ((a in c.refused && c.calls[a] == 1 && a !in c.accepted) || (a in c.missing && c.calls[a] == 0)))
            && (a in c.cut ==> status == Delivering || status == Uncertain)
            && (status == Uncertain ==> a in c.cut)
            && (status == Sent ==> a in c.accepted && a !in c.cut)
  {
    var es :| Run(map[], es, s);
    assert SystemInv(map[]) && forall x :: Causes(CellOf(map[], x));
    RunKeepsCauses(map[], es, s);
    assert Causes(CellOf(s, id));
  }
}
