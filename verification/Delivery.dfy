/** Durable delivery records: their constructor rules, the store's transactions on them, and the
    procedure that drives one record through its adapters. */
module Delivery {
  import opened Wrappers

  // ---------------------------------------------------------------- records

  datatype AdapterStatus = Pending | Delivering | Sent | Failed | Uncertain

  datatype AdapterResult = AdapterResult(status: AdapterStatus, attempts: nat, sentAt: Option<string>) {
    predicate Valid() {
      status == Sent <==> sentAt.Some?
    }

    /** The adapter has been dealt with, for good. */
    predicate Terminal() {
      status in {Sent, Failed, Uncertain}
    }
  }

  const FRESH := AdapterResult(Pending, 0, None)

  datatype RecordStatus = Open | Delivered | Undelivered

  /** `Open`, `Delivered` and `Undelivered` are the stored words "pending", "sent" and "failed". */
  datatype Record = Record(id: string, itemId: string, status: RecordStatus,
                           required: seq<string>, results: map<string, AdapterResult>) {
    predicate Valid() {
      && id != "" && itemId != ""
      && AdapterIds(required)
      && results.Keys == (set a | a in required)
      && forall a :: a in results ==> results[a].Valid()
    }
  }

  predicate AdapterIds(adapters: seq<string>) {
    && (forall a :: a in adapters ==> a != "")
    && forall i, j :: 0 <= i < j < |adapters| ==> adapters[i] != adapters[j]
  }

  datatype StoreError = NotFound | UnknownAdapter | InvalidRecord | SendRaised(adapter: string)

  // ---------------------------------------------------------------- what each transaction does to a record

  function Prepared(r: Record, adapters: seq<string>): Record {
    if r.required != [] then r
    else r.(required := adapters, results := map a | a in adapters :: FRESH)
  }

  function Recovered(r: Record): Record {
    r.(results := map a | a in r.results ::
         if r.results[a].status == Delivering then r.results[a].(status := Uncertain) else r.results[a])
  }

  function Begun(r: Record, a: string): Record
    requires a in r.results
  {
    if r.results[a].status != Pending then r
    else r.(results := r.results[a := AdapterResult(Delivering, r.results[a].attempts + 1, None)])
  }

  function Finished(r: Record, a: string, success: bool, now: string): Record
    requires a in r.results
  {
    r.(results := r.results[a := AdapterResult(
         if success then Sent else Failed, r.results[a].attempts, if success then Some(now) else None)])
  }

  function FinalStatus(results: map<string, AdapterResult>): RecordStatus {
    if results == map[] || exists a :: a in results && results[a].status in {Pending, Delivering} then Open
    else if forall a :: a in results ==> results[a].status == Sent then Delivered
    else Undelivered
  }

  function Finalized(r: Record): Record {
    r.(status := FinalStatus(r.results))
  }

  // ---------------------------------------------------------------- the same, field by field

  /** The plan is made once, with every adapter pending and not attempted. */
  lemma PreparedMeans(r: Record, adapters: seq<string>)
    ensures var after := Prepared(r, adapters);
            && after.id == r.id && after.itemId == r.itemId && after.status == r.status
            && (r.required != [] ==> after.required == r.required && after.results == r.results)
            && (r.required == [] ==>
                  && after.required == adapters
                  && (forall a :: a in after.results <==> a in adapters)
                  && forall a :: a in adapters ==> after.results[a] == AdapterResult(Pending, 0, None))
  {
  }

  /** Exactly the adapters that were in delivery become uncertain, with their attempts and times. */
  lemma RecoveredMeans(r: Record)
    ensures var after := Recovered(r);
            && after.id == r.id && after.itemId == r.itemId && after.status == r.status && after.required == r.required
            && after.results.Keys == r.results.Keys
            && forall a :: a in r.results ==>
                 && after.results[a].attempts == r.results[a].attempts && after.results[a].sentAt == r.results[a].sentAt
                 && after.results[a].status
                    == if r.results[a].status == Delivering then Uncertain else r.results[a].status
  {
  }

  /** A pending adapter goes into delivery with one more attempt; any other is left alone. */
  lemma BegunMeans(r: Record, a: string)
    requires a in r.results
    ensures var after := Begun(r, a);
            && after.id == r.id && after.itemId == r.itemId && after.status == r.status && after.required == r.required
            && after.results.Keys == r.results.Keys
            && (forall x :: x in r.results && x != a ==> after.results[x] == r.results[x])
            && (r.results[a].status != Pending ==> after.results[a] == r.results[a])
            && (r.results[a].status == Pending ==>
                  after.results[a] == AdapterResult(Delivering, r.results[a].attempts + 1, None))
  {
  }

  /** The adapter ends as sent, now, or as failed, without a time; its attempts stay. */
  lemma FinishedMeans(r: Record, a: string, success: bool, now: string)
    requires a in r.results
    ensures var after := Finished(r, a, success, now);
            && after.id == r.id && after.itemId == r.itemId && after.status == r.status && after.required == r.required
            && after.results.Keys == r.results.Keys
            && (forall x :: x in r.results && x != a ==> after.results[x] == r.results[x])
            && after.results[a].attempts == r.results[a].attempts
            && (success ==> after.results[a].status == Sent && after.results[a].sentAt == Some(now))
            && (!success ==> after.results[a].status == Failed && after.results[a].sentAt == None)
  {
  }

  /** The record is delivered if all its adapters were sent, still open if it has none or one is not dealt
      with, and undelivered otherwise. */
  lemma FinalizedMeans(r: Record)
    ensures var after := Finalized(r);
            && after.id == r.id && after.itemId == r.itemId
            && after.required == r.required && after.results == r.results
            && (after.status == Open
                <==> r.results.Keys == {} || exists a :: a in r.results && !r.results[a].Terminal())
            && (after.status == Delivered
                <==> r.results.Keys != {} && forall a :: a in r.results ==> r.results[a].status == Sent)
            && (after.status == Undelivered
                <==> && (forall a :: a in r.results ==> r.results[a].Terminal())
                     && (exists a :: a in r.results && r.results[a].status in {Failed, Uncertain}))
  {
    if r.results.Keys != {} {
      var a :| a in r.results.Keys;
      assert a in r.results;
    }
  }

  // ---------------------------------------------------------------- the store

  class DeliveryStore {
    var records: map<string, Record>

    ghost predicate Valid()
      reads this
    {
      forall id :: id in records ==> records[id].Valid() && records[id].id == id
    }

    constructor ()
      ensures Valid() && records == map[]
    {
      records := map[];
    }

    method Request(itemId: string) returns (r: Result<Record, StoreError>)
      requires Valid()
      modifies this
      ensures Valid()
      ensures var id := "delivery-" + itemId;
              if id in old(records) then r == Ok(old(records)[id]) && records == old(records)
              else if itemId == "" then r == Err(InvalidRecord) && records == old(records)
              else r == Ok(Record(id, itemId, Open, [], map[])) && records == old(records)[id := r.value]
    {
      var id := "delivery-" + itemId;
      if id in records {
        return Ok(records[id]);
      }
      if itemId == "" {
        return Err(InvalidRecord);
      }
      var record := Record(id, itemId, Open, [], map[]);
      records := records[id := record];
      r := Ok(record);
    }

    method Get(id: string) returns (r: Result<Record, StoreError>)
      ensures r == if id in records then Ok(records[id]) else Err(NotFound)
    {
      r := if id in records then Ok(records[id]) else Err(NotFound);
    }

    method Prepare(id: string, adapters: seq<string>) returns (r: Result<Record, StoreError>)
      requires Valid()
      modifies this
      ensures Valid()
      ensures r.Ok? <==> id in old(records) && (old(records)[id].required != [] || AdapterIds(adapters))
      ensures r.Ok? ==> r.value == Prepared(old(records)[id], adapters) && records == old(records)[id := r.value]
      ensures r.Err? ==> records == old(records)
    {
      if id !in records {
        return Err(NotFound);
      }
      var record := records[id];
      if record.required != [] {
        return Ok(record);
      }
      if !AdapterIds(adapters) {
        return Err(InvalidRecord);
      }
      var updated := record.(required := adapters, results := map a | a in adapters :: FRESH);
      records := records[id := updated];
      r := Ok(updated);
    }

    /** Every adapter that a crashed worker left in `Delivering` becomes `Uncertain`. */
    method Recover(id: string) returns (r: Result<Record, StoreError>)
      requires Valid()
      modifies this
      ensures Valid()
      ensures r.Ok? <==> id in old(records)
      ensures r.Ok? ==> r.value == Recovered(old(records)[id]) && records == old(records)[id := r.value]
      ensures r.Err? ==> records == old(records)
    {
      if id !in records {
        return Err(NotFound);
      }
      var record := records[id];
      var results, changed := record.results, false;
      var rest := record.results.Keys;
      while rest != {}
        invariant rest <= record.results.Keys == results.Keys
        invariant forall a :: a in rest ==> results[a] == record.results[a]
        invariant forall a :: a in results.Keys - rest ==> results[a] == Recovered(record).results[a]
        invariant !changed ==> results == record.results
      {
        var a :| a in rest;
        if results[a].status == Delivering {
          results := results[a := results[a].(status := Uncertain)];
          changed := true;
        }
        rest := rest - {a};
      }
      assert results == Recovered(record).results;
      if changed {
        records := records[id := record.(results := results)];
      }
      r := Ok(records[id]);
    }

    method Begin(id: string, adapter: string) returns (r: Result<Record, StoreError>)
      requires Valid()
      modifies this
      ensures Valid()
      ensures r.Ok? <==> id in old(records) && adapter in old(records)[id].results
      ensures r.Ok? ==> r.value == Begun(old(records)[id], adapter) && records == old(records)[id := r.value]
      ensures r.Err? ==> records == old(records)
    {
      if id !in records {
        return Err(NotFound);
      }
      var record := records[id];
      if adapter !in record.results {
        return Err(UnknownAdapter);
      }
      var result := record.results[adapter];
      if result.status != Pending {
        return Ok(record);
      }
      var begun := AdapterResult(Delivering, result.attempts + 1, None);
      var updated := record.(results := record.results[adapter := begun]);
      records := records[id := updated];
      r := Ok(updated);
    }

    method FinishAdapter(id: string, adapter: string, success: bool, now: string)
      returns (r: Result<Record, StoreError>)
      requires Valid()
      modifies this
      ensures Valid()
      ensures r.Ok? <==> id in old(records) && adapter in old(records)[id].results
      ensures r.Ok? ==> r.value == Finished(old(records)[id], adapter, success, now)
      ensures r.Ok? ==> records == old(records)[id := r.value]
      ensures r.Err? ==> records == old(records)
    {
      if id !in records {
        return Err(NotFound);
      }
      var record := records[id];
      if adapter !in record.results {
        return Err(UnknownAdapter);
      }
      var status := if success then Sent else Failed;
      var stamp := if success then Some(now) else None;
      var updated := record.(results :=
        record.results[adapter := AdapterResult(status, record.results[adapter].attempts, stamp)]);
      records := records[id := updated];
      r := Ok(updated);
    }

    method Finalize(id: string) returns (r: Result<Record, StoreError>)
      requires Valid()
      modifies this
      ensures Valid()
      ensures r.Ok? <==> id in old(records)
      ensures r.Ok? ==> r.value == Finalized(old(records)[id]) && records == old(records)[id := r.value]
      ensures r.Err? ==> records == old(records)
    {
      if id !in records {
        return Err(NotFound);
      }
      var record := records[id];
      var updated := record.(status := FinalStatus(record.results));
      records := records[id := updated];
      r := Ok(updated);
    }
  }

  // ---------------------------------------------------------------- driving one record

  datatype SendOutcome = Returned(success: bool) | Raised

  /** What `deliver` starts from once the record is prepared and an earlier crash is accounted for. */
  function Starting(r: Record, adapters: seq<string>): Record {
    Recovered(Prepared(r, adapters))
  }

  predicate Attempts(start: Record, a: string) {
    a in start.results && start.results[a].status == Pending
  }

  /** The result of an adapter that was pending: sent if and only if there is something to send, the
      adapter still exists and its `send` returned true. */
  function Settled(start: AdapterResult, success: bool, now: string): AdapterResult {
    AdapterResult(if success then Sent else Failed, start.attempts + 1, if success then Some(now) else None)
  }

  predicate Succeeds(itemExists: bool, adapters: seq<string>, send: string -> SendOutcome, a: string) {
    itemExists && a in adapters && send(a) == Returned(true)
  }

  /** The adapters whose `send` is called for the first `n` required ones, in order. */
  function Calls(start: Record, itemExists: bool, adapters: seq<string>, n: nat): seq<string>
    requires n <= |start.required|
  {
    if n == 0 then []
    else
      var a := start.required[n - 1];
      Calls(start, itemExists, adapters, n - 1)
      + (if Attempts(start, a) && itemExists && a in adapters then [a] else [])
  }

  /** Between two adapters: those in `done` are settled, all others are as they were at the start. */
  ghost predicate Progress(start: Record, cur: Record, done: set<string>, itemExists: bool, adapters: seq<string>,
                           send: string -> SendOutcome, now: string) {
    && cur.Valid() && cur == start.(results := cur.results) && cur.results.Keys == start.results.Keys
    && forall a :: a in start.results ==>
         cur.results[a] == if a in done && Attempts(start, a)
                           then Settled(start.results[a], Succeeds(itemExists, adapters, send, a), now)
                           else start.results[a]
  }

  /** A `deliver` that ran to its end: every pending adapter is settled, no other one has changed, and the
      status follows from the results. */
  ghost predicate Completed(start: Record, final: Record, itemExists: bool, adapters: seq<string>,
                            send: string -> SendOutcome, now: string) {
    && final == start.(results := final.results, status := FinalStatus(final.results))
    && final.results.Keys == start.results.Keys
    && forall a :: a in start.results ==>
         final.results[a] == if Attempts(start, a)
                             then Settled(start.results[a], Succeeds(itemExists, adapters, send, a), now)
                             else start.results[a]
  }

  /** The `send` of adapter `a` raised: it is left in `Delivering`, those in `done` are settled, all others are
      as they were at the start. */
  ghost predicate InterruptedAt(start: Record, cur: Record, done: set<string>, a: string, error: StoreError,
                                itemExists: bool, adapters: seq<string>, send: string -> SendOutcome, now: string) {
    && error == SendRaised(a) && itemExists && a in adapters && send(a) == Raised && Attempts(start, a)
    && cur == start.(results := cur.results) && cur.results.Keys == start.results.Keys
    && forall x :: x in start.results ==>
         cur.results[x] == if x == a then AdapterResult(Delivering, start.results[a].attempts + 1, None)
                           else if x in done && Attempts(start, x)
                           then Settled(start.results[x], Succeeds(itemExists, adapters, send, x), now)
                           else start.results[x]
  }

  /** A `deliver` that was cut short at the required adapter number `n`. */
  ghost predicate Interrupted(start: Record, cur: Record, n: nat, error: StoreError, itemExists: bool,
                              adapters: seq<string>, send: string -> SendOutcome, now: string) {
    && n < |start.required|
    && InterruptedAt(start, cur, (set x | x in start.required[..n]), start.required[n], error, itemExists, adapters,
                     send, now)
  }

  /** The last call that an interrupted `deliver` made is the one that raised. */
  lemma RaisingCallIsLast(id: string, start: Record, cur: Record, n: nat, error: StoreError, itemExists: bool,
                          adapters: seq<string>, send: string -> SendOutcome, now: string)
    requires Interrupted(start, cur, n, error, itemExists, adapters, send, now)
    ensures error.SendRaised?
    ensures CallsFor(id, Calls(start, itemExists, adapters, n + 1))
         == CallsFor(id, Calls(start, itemExists, adapters, n)) + [(id, error.adapter)]
  {
    CallsGrow(id, start, itemExists, adapters, n);
  }

  /** A completed `deliver` by fields: what was pending was attempted once more and ended as sent exactly if
      there was an item, the adapter was known and its `send` returned true, and as failed otherwise; what a
      crash had left in delivery is uncertain; everything else is as it was. */
  lemma CompletedMeans(r: Record, final: Record, itemExists: bool, adapters: seq<string>,
                       send: string -> SendOutcome, now: string, a: string)
    requires Completed(Starting(r, adapters), final, itemExists, adapters, send, now)
    ensures final.id == r.id && final.itemId == r.itemId
    ensures final.required == if r.required != [] then r.required else adapters
    ensures (r.required == [] && a in adapters) || (r.required != [] && a in r.results) ==> a in final.results
    ensures var planned := r.required == [] && a in adapters;
            var known := r.required != [] && a in r.results;
            && (planned || (known && r.results[a].status == Pending) ==>
                  var sent := itemExists && a in adapters && send(a) == Returned(true);
                  && final.results[a].status == (if sent then Sent else Failed)
                  && final.results[a].sentAt == (if sent then Some(now) else None)
                  && final.results[a].attempts == if planned then 1 else r.results[a].attempts + 1)
            && (known && r.results[a].status == Delivering ==>
                  final.results[a].status == Uncertain && final.results[a].attempts == r.results[a].attempts)
            && (known && r.results[a].Terminal() ==> final.results[a] == r.results[a])
  {
    PreparedMeans(r, adapters);
    RecoveredMeans(Prepared(r, adapters));
    hide Prepared, Recovered, FinalStatus;
  }

  /** `send` is called exactly for the required adapters that were pending and are known, if there is an item:
      in the order of the plan. */
  lemma {:induction false} CallsMeans(start: Record, itemExists: bool, adapters: seq<string>, n: nat)
    requires n <= |start.required|
    ensures forall a :: a in Calls(start, itemExists, adapters, n)
                   <==> && itemExists && a in adapters && a in start.required[..n]
                        && a in start.results && start.results[a].status == Pending
    ensures IsSubsequence(Calls(start, itemExists, adapters, n), start.required[..n])
  {
    if n > 0 {
      CallsMeans(start, itemExists, adapters, n - 1);
      assert start.required[..n] == start.required[..n - 1] + [start.required[n - 1]];
      var before := Calls(start, itemExists, adapters, n - 1);
      assert (before + [start.required[n - 1]])[..|before|] == before;
      assert start.required[..n][..n - 1] == start.required[..n - 1];
      assert before + [] == before;
    }
  }

  ghost predicate IsSubsequence(a: seq<string>, b: seq<string>)
    decreases |b|
  {
    || a == []
    || (b != [] && IsSubsequence(a, b[..|b| - 1]))
    || (b != [] && a[|a| - 1] == b[|b| - 1] && IsSubsequence(a[..|a| - 1], b[..|b| - 1]))
  }

  lemma ProgressCompletes(start: Record, cur: Record, done: set<string>, itemExists: bool, adapters: seq<string>,
                          send: string -> SendOutcome, now: string)
    requires Progress(start, cur, done, itemExists, adapters, send, now) && done == start.results.Keys
    ensures Completed(start, Finalized(cur), itemExists, adapters, send, now)
  {
  }

  /** A completed `deliver` on a plan with at least one adapter ends as delivered exactly when every adapter
      was sent, and as undelivered otherwise. With no adapter at all it leaves the record pending. */
  lemma CompletedStatus(r: Record, final: Record, itemExists: bool, adapters: seq<string>,
                        send: string -> SendOutcome, now: string)
    requires r.Valid() && AdapterIds(adapters)
    requires Completed(Starting(r, adapters), final, itemExists, adapters, send, now)
    ensures final.required == [] ==> final.status == Open
    ensures final.required != [] && (forall a :: a in final.results ==> final.results[a].status == Sent)
            ==> final.status == Delivered
    ensures final.required != [] && (exists a :: a in final.results && final.results[a].status != Sent)
            ==> final.status == Undelivered
    ensures forall a :: a in final.results ==> final.results[a].Terminal()
  {
    hide Starting, Record.Valid;
    StartingPlan(r, adapters);
    if final.required != [] {
      assert final.required[0] in final.results;
    }
  }

  lemma StartingPlan(r: Record, adapters: seq<string>)
    requires r.Valid() && AdapterIds(adapters)
    ensures var start := Starting(r, adapters);
            && start.results.Keys == (set a | a in start.required)
            && forall a :: a in start.results ==> start.results[a].status != Delivering
  {
  }

  ghost function CallsFor(id: string, adapters: seq<string>): seq<(string, string)> {
    seq(|adapters|, i requires 0 <= i < |adapters| => (id, adapters[i]))
  }

  lemma NoCallsYet(id: string, start: Record, itemExists: bool, adapters: seq<string>)
    ensures CallsFor(id, Calls(start, itemExists, adapters, 0)) == []
  {
  }

  lemma CallsGrow(id: string, start: Record, itemExists: bool, adapters: seq<string>, n: nat)
    requires n < |start.required|
    ensures var a := start.required[n];
            CallsFor(id, Calls(start, itemExists, adapters, n + 1))
            == CallsFor(id, Calls(start, itemExists, adapters, n))
               + if Attempts(start, a) && itemExists && a in adapters then [(id, a)] else []
  {
  }

  function PendingIds(records: map<string, Record>): set<string> {
    set id | id in records && records[id].status == Open
  }

  function NowDelivered(ids: set<string>, records: map<string, Record>): set<string> {
    set id | id in ids && id in records && records[id].status == Delivered
  }

  lemma NoneDelivered(records: map<string, Record>)
    ensures NowDelivered(PendingIds(records) - PendingIds(records), records) == {}
  {
  }

  lemma OneMoreDelivered(ids: set<string>, id: string, before: map<string, Record>, after: map<string, Record>)
    requires id !in ids && id in after && after == before[id := after[id]]
    ensures |NowDelivered(ids + {id}, after)|
         == |NowDelivered(ids, before)| + if after[id].status == Delivered then 1 else 0
  {
    if after[id].status == Delivered {
      assert NowDelivered(ids + {id}, after) == NowDelivered(ids, before) + {id};
    } else {
      assert NowDelivered(ids + {id}, after) == NowDelivered(ids, before);
    }
  }

  /** What `deliver` makes of one pending record. */
  ghost predicate Delivers(r: Record, final: Record, itemExists: string -> bool, adapters: seq<string>,
                           send: string -> string -> SendOutcome, now: string) {
    Completed(Starting(r, adapters), final, itemExists(r.itemId), adapters, send(r.id), now)
  }

  /** What a raising `send` makes of one pending record; the call that raised is `last`. */
  ghost predicate Stops(r: Record, cur: Record, at: nat, error: StoreError, last: (string, string),
                        itemExists: string -> bool, adapters: seq<string>,
                        send: string -> string -> SendOutcome, now: string) {
    && Interrupted(Starting(r, adapters), cur, at, error, itemExists(r.itemId), adapters, send(r.id), now)
    && error.SendRaised? && last == (r.id, error.adapter)
  }

  lemma InterruptedStops(r: Record, cur: Record, at: nat, error: StoreError, made: seq<(string, string)>,
                         calls: seq<(string, string)>, itemExists: string -> bool, adapters: seq<string>,
                         send: string -> string -> SendOutcome, now: string)
    requires Interrupted(Starting(r, adapters), cur, at, error, itemExists(r.itemId), adapters, send(r.id), now)
    requires calls == made + CallsFor(r.id, Calls(Starting(r, adapters), itemExists(r.itemId), adapters, at + 1))
    ensures calls != [] && Stops(r, cur, at, error, calls[|calls| - 1], itemExists, adapters, send, now)
  {
    hide Starting, CallsFor, Calls, InterruptedAt;
    RaisingCallIsLast(r.id, Starting(r, adapters), cur, at, error, itemExists(r.itemId), adapters, send(r.id), now);
  }

  lemma CompletedDelivers(r: Record, final: Record, itemExists: string -> bool, adapters: seq<string>,
                          send: string -> string -> SendOutcome, now: string)
    requires Completed(Starting(r, adapters), final, itemExists(r.itemId), adapters, send(r.id), now)
    ensures Delivers(r, final, itemExists, adapters, send, now)
  {
  }

  class DeliveryLoop {
    const store: DeliveryStore
    const adapters: seq<string>
    /** Every `send` call made so far. */
    ghost var calls: seq<(string, string)>

    constructor (store: DeliveryStore, adapters: seq<string>)
      requires AdapterIds(adapters)
      ensures this.store == store && this.adapters == adapters && calls == []
    {
      this.store, this.adapters, calls := store, adapters, [];
    }

    /** One round: deliver every record that was pending at its start, and count those now delivered. It ends
        early, with the other records as they were or already done, when a `send` raises. */
    method RunOnce(itemExists: string -> bool, send: string -> string -> SendOutcome, now: string)
      returns (r: Result<nat, StoreError>, ghost last: string, ghost at: nat)
      requires store.Valid() && AdapterIds(adapters)
      modifies this, store
      ensures store.Valid() && store.records.Keys == old(store.records).Keys
      ensures forall id :: id in store.records && old(store.records)[id].status != Open ==>
                store.records[id] == old(store.records)[id]
      ensures r.Ok? ==> forall id :: id in store.records && old(store.records)[id].status == Open ==>
                Delivers(old(store.records)[id], store.records[id], itemExists, adapters, send, now)
      ensures r.Ok? ==> r.value == |NowDelivered(PendingIds(old(store.records)), store.records)|
      ensures r.Err? ==>
                && last in store.records && old(store.records)[last].status == Open && calls != []
                && Stops(old(store.records)[last], store.records[last], at, r.error, calls[|calls| - 1],
                         itemExists, adapters, send, now)
      ensures r.Err? ==> forall id :: id in store.records && id != last && old(store.records)[id].status == Open ==>
                || store.records[id] == old(store.records)[id]
                || Delivers(old(store.records)[id], store.records[id], itemExists, adapters, send, now)
    {
      hide Starting, Record.Valid, Completed, Interrupted, NowDelivered, Delivers, Stops, CallsFor, Calls;
      last, at := "", 0;
      var rest, count := PendingIds(store.records), 0;
      ghost var pending, before := rest, store.records;
      NoneDelivered(store.records);
      while rest != {}
        invariant rest <= pending && store.Valid() && store.records.Keys == before.Keys
        invariant forall id :: id in before && id !in pending - rest ==> store.records[id] == before[id]
        invariant forall id :: id in pending - rest ==>
                    Delivers(before[id], store.records[id], itemExists, adapters, send, now)
        invariant count == |NowDelivered(pending - rest, store.records)|
      {
        var id :| id in rest;
        ghost var sofar, made := store.records, calls;
        var outcome: Result<Record, StoreError>;
        outcome, at := Deliver(id, itemExists(store.records[id].itemId), send(id), now);
        if outcome.Err? {
          last := id;
          InterruptedStops(before[id], store.records[id], at, outcome.error, made, calls, itemExists, adapters, send,
                           now);
          r := Err(outcome.error);
          return;
        }
        var final := outcome.value;
        CompletedDelivers(before[id], final, itemExists, adapters, send, now);
        OneMoreDelivered(pending - rest, id, sofar, store.records);
        assert pending - rest + {id} == pending - (rest - {id});
        rest := rest - {id};
        if final.status == Delivered {
          count := count + 1;
        }
      }
      assert pending - rest == pending;
      r := Ok(count);
    }

    /** `itemExists` says whether the inbox still has the item, `send` what each adapter's `send` does. */
    method Deliver(id: string, itemExists: bool, send: string -> SendOutcome, now: string)
      returns (r: Result<Record, StoreError>, ghost at: nat)
      requires store.Valid() && AdapterIds(adapters)
      modifies this, store
      ensures store.Valid()
      ensures id !in old(store.records) ==> r == Err(NotFound) && store.records == old(store.records)
      ensures id in old(store.records) && old(store.records)[id].status != Open
              ==> r == Ok(old(store.records)[id]) && store.records == old(store.records) && calls == old(calls)
      ensures id in old(store.records) && old(store.records)[id].status == Open ==>
                var start := Starting(old(store.records)[id], adapters);
                && id in store.records && store.records == old(store.records)[id := store.records[id]]
                && (r.Ok? ==> r.value == store.records[id])
                && (r.Ok? ==> Completed(start, r.value, itemExists, adapters, send, now))
                && (r.Ok? ==> calls == old(calls) + CallsFor(id, Calls(start, itemExists, adapters, |start.required|)))
                && (r.Err? ==> Interrupted(start, store.records[id], at, r.error, itemExists, adapters, send, now))
                && (r.Err? ==> calls == old(calls) + CallsFor(id, Calls(start, itemExists, adapters, at + 1)))
    {
      hide Starting, Record.Valid, Completed, InterruptedAt;
      at := 0;
      var record :- store.Get(id);
      if record.status != Open {
        r := Ok(record);
        return;
      }
      r, at := DeliverPending(id, itemExists, send, now);
    }

    method DeliverPending(id: string, itemExists: bool, send: string -> SendOutcome, now: string)
      returns (r: Result<Record, StoreError>, ghost at: nat)
      requires store.Valid() && AdapterIds(adapters)
      requires id in store.records && store.records[id].status == Open
      modifies this, store
      ensures store.Valid()
      ensures id in store.records && store.records == old(store.records)[id := store.records[id]]
      ensures var start := Starting(old(store.records)[id], adapters);
              && (r.Ok? ==> r.value == store.records[id])
              && (r.Ok? ==> Completed(start, r.value, itemExists, adapters, send, now))
              && (r.Ok? ==> calls == old(calls) + CallsFor(id, Calls(start, itemExists, adapters, |start.required|)))
              && (r.Err? ==> Interrupted(start, store.records[id], at, r.error, itemExists, adapters, send, now))
              && (r.Err? ==> calls == old(calls) + CallsFor(id, Calls(start, itemExists, adapters, at + 1)))
    {
      hide Progress, Starting, Record.Valid, Completed, InterruptedAt;
      var record := Plan(id, itemExists, send, now);
      var error: Option<StoreError>;
      error, at := DriveAll(id, record, itemExists, send, now);
      if error.Some? {
        r := Err(error.value);
        return;
      }
      ProgressCompletes(record, store.records[id], record.results.Keys, itemExists, adapters, send, now);
      r := store.Finalize(id);
    }

    /** The loop over the required adapters. */
    method DriveAll(id: string, start: Record, itemExists: bool, send: string -> SendOutcome, now: string)
      returns (error: Option<StoreError>, ghost at: nat)
      requires store.Valid() && id in store.records && start.status == Open
      requires start.results.Keys == set a | a in start.required
      requires forall i, j :: 0 <= i < j < |start.required| ==> start.required[i] != start.required[j]
      requires Progress(start, store.records[id], {}, itemExists, adapters, send, now)
      modifies this, store
      ensures store.Valid()
      ensures id in store.records && store.records == old(store.records)[id := store.records[id]]
      ensures error.None? ==> Progress(start, store.records[id], start.results.Keys, itemExists, adapters, send, now)
      ensures error.None? ==>
                calls == old(calls) + CallsFor(id, Calls(start, itemExists, adapters, |start.required|))
      ensures error.Some? ==> Interrupted(start, store.records[id], at, error.value, itemExists, adapters, send, now)
      ensures error.Some? ==> calls == old(calls) + CallsFor(id, Calls(start, itemExists, adapters, at + 1))
    {
      hide Progress, Record.Valid, InterruptedAt, Attempts, Calls, CallsFor, Settled, FinalStatus;
      at := 0;
      NoCallsYet(id, start, itemExists, adapters);
      var required := start.required;
      ghost var done := {};
      for i := 0 to |required|
        invariant store.Valid() && id in store.records
        invariant store.records == old(store.records)[id := store.records[id]]
        invariant done == set a | a in required[..i]
        invariant Progress(start, store.records[id], done, itemExists, adapters, send, now)
        invariant calls == old(calls) + CallsFor(id, Calls(start, itemExists, adapters, i))
      {
        var adapter := required[i];
        assert required[..i + 1] == required[..i] + [adapter];
        error := DriveAdapter(id, adapter, start, done, itemExists, send, now);
        CallsGrow(id, start, itemExists, adapters, i);
        at := i;
        if error.Some? {
          return;
        }
        done := done + {adapter};
      }
      assert required[..|required|] == required;
      error := None;
    }

    /** Fix the plan of a pending record and account for an earlier crash. */
    method Plan(id: string, ghost itemExists: bool, ghost send: string -> SendOutcome, ghost now: string)
      returns (start: Record)
      requires store.Valid() && id in store.records && AdapterIds(adapters)
      modifies store
      ensures store.Valid() && store.records == old(store.records)[id := start]
      ensures start == Starting(old(store.records)[id], adapters) && start.status == old(store.records)[id].status
      ensures Progress(start, start, {}, itemExists, adapters, send, now)
      ensures start.results.Keys == set a | a in start.required
      ensures forall i, j :: 0 <= i < j < |start.required| ==> start.required[i] != start.required[j]
    {
      var prepared := store.Prepare(id, adapters);
      var recovered := store.Recover(id);
      start := recovered.value;
    }

    /** The turn of one adapter: skip it, or begin, send and finish it. */
    method DriveAdapter(id: string, adapter: string, ghost start: Record, ghost done: set<string>,
                        itemExists: bool, send: string -> SendOutcome, now: string)
      returns (error: Option<StoreError>)
      requires store.Valid() && id in store.records && adapter in start.results && adapter !in done
      requires start.status == Open
      requires Progress(start, store.records[id], done, itemExists, adapters, send, now)
      modifies this, store
      ensures store.Valid() && id in store.records
      ensures store.records == old(store.records)[id := store.records[id]]
      ensures error.None? ==> Progress(start, store.records[id], done + {adapter}, itemExists, adapters, send, now)
      ensures calls == old(calls)
                + if Attempts(start, adapter) && itemExists && adapter in adapters then [(id, adapter)] else []
      ensures error.Some? ==>
                InterruptedAt(start, store.records[id], done, adapter, error.value, itemExists, adapters, send, now)
    {
      hide Record.Valid;
      error := None;
      var current := store.records[id];
      if current.results[adapter].status != Pending {
        return;
      }
      var begun := store.Begin(id, adapter);
      var success := false;
      if itemExists && adapter in adapters {
        calls := calls + [(id, adapter)];
        match send(adapter)
        case Raised => return Some(SendRaised(adapter));
        case Returned(value) => success := value;
      }
      var finished := store.FinishAdapter(id, adapter, success, now);
    }
  }
}
