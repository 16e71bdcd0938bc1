/** The live activity broker: a bounded queue per subscription whose drop counts account for every gap. */
module Activity {
  import opened Wrappers

  datatype LogEvent = LogEvent(turnId: Option<string>, body: string)

  /** One read: what it returned and how many events were lost since the previous read. */
  datatype Batch = Batch(events: seq<LogEvent>, dropped: nat)

  datatype Subscription = Subscription(turnId: string, events: seq<LogEvent>, dropped: nat, lastAccess: real)

  datatype Error = EmptyTurnId | NegativeTimeout | NonPositiveLimit | SubscriptionNotFound

  /** `Retry` stands for the wait on the condition: the read is attempted again after it. */
  datatype Attempt = Returned(batch: Batch) | Raised(error: Error) | Retry

  // ---------------------------------------------------------------- accounting

  /** The published events split, batch by batch, into `dropped` unseen events and the delivered ones,
      followed by `dropped` events not yet reported and the queue. */
  ghost predicate Accounted(published: seq<LogEvent>, batches: seq<Batch>, dropped: nat, queue: seq<LogEvent>)
    decreases |batches|
  {
    if batches == [] then
      |published| == dropped + |queue| && published[dropped..] == queue
    else
      var seen := batches[0].dropped + |batches[0].events|;
      && seen <= |published|
      && published[batches[0].dropped..seen] == batches[0].events
      && Accounted(published[seen..], batches[1..], dropped, queue)
  }

  /** A published event goes to the end of the queue; if the bound is exceeded the oldest ones go. */
  lemma {:induction false} PublishAccounted(published: seq<LogEvent>, batches: seq<Batch>, dropped: nat,
                                            queue: seq<LogEvent>, e: LogEvent, lost: nat)
    requires Accounted(published, batches, dropped, queue) && lost <= |queue| + 1
    ensures Accounted(published + [e], batches, dropped + lost, (queue + [e])[lost..])
    decreases |batches|
  {
    if batches == [] {
      assert (published + [e])[dropped..] == queue + [e];
      assert (published + [e])[dropped + lost..] == (queue + [e])[lost..];
    } else {
      var seen := batches[0].dropped + |batches[0].events|;
      PublishAccounted(published[seen..], batches[1..], dropped, queue, e, lost);
      assert (published + [e])[seen..] == published[seen..] + [e];
      assert (published + [e])[batches[0].dropped..seen] == published[batches[0].dropped..seen];
    }
  }

  /** A read reports all unreported drops and takes the oldest part of the queue. */
  lemma {:induction false} ReadAccounted(published: seq<LogEvent>, batches: seq<Batch>, dropped: nat,
                                         queue: seq<LogEvent>, count: nat)
    requires Accounted(published, batches, dropped, queue) && count <= |queue|
    ensures Accounted(published, batches + [Batch(queue[..count], dropped)], 0, queue[count..])
    decreases |batches|
  {
    var batches' := batches + [Batch(queue[..count], dropped)];
    if batches == [] {
      assert published[dropped..dropped + count] == queue[..count];
      assert published[dropped + count..] == queue[count..];
    } else {
      var seen := batches[0].dropped + |batches[0].events|;
      ReadAccounted(published[seen..], batches[1..], dropped, queue, count);
      assert batches'[1..] == batches[1..] + [Batch(queue[..count], dropped)];
    }
  }

  function Delivered(batches: seq<Batch>): seq<LogEvent> {
    if batches == [] then [] else batches[0].events + Delivered(batches[1..])
  }

  function Reported(batches: seq<Batch>): nat {
    if batches == [] then 0 else batches[0].dropped + Reported(batches[1..])
  }

  /** Nothing is lost silently: every published event was delivered, counted as dropped, or is still queued. */
  lemma NothingUnaccounted(published: seq<LogEvent>, batches: seq<Batch>, dropped: nat, queue: seq<LogEvent>)
    requires Accounted(published, batches, dropped, queue)
    ensures |published| == |Delivered(batches)| + Reported(batches) + dropped + |queue|
    ensures Reported(batches) == 0 && dropped == 0 ==> published == Delivered(batches) + queue
  {
    hide Accounted, Delivered, Reported;
    EventsAddUp(published, batches, dropped, queue);
    if Reported(batches) == 0 && dropped == 0 {
      WithoutDropsInOrder(published, batches, queue);
    }
  }

  lemma {:induction false} EventsAddUp(published: seq<LogEvent>, batches: seq<Batch>, dropped: nat,
                                       queue: seq<LogEvent>)
    requires Accounted(published, batches, dropped, queue)
    ensures |published| == |Delivered(batches)| + Reported(batches) + dropped + |queue|
    decreases |batches|
  {
    if batches != [] {
      var seen := batches[0].dropped + |batches[0].events|;
      EventsAddUp(published[seen..], batches[1..], dropped, queue);
    }
  }

  lemma {:induction false} WithoutDropsInOrder(published: seq<LogEvent>, batches: seq<Batch>, queue: seq<LogEvent>)
    requires Accounted(published, batches, 0, queue) && Reported(batches) == 0
    ensures published == Delivered(batches) + queue
    decreases |batches|
  {
    if batches == [] {
      assert published[0..] == published;
    } else {
      var first := batches[0].events;
      WithoutDropsInOrder(published[|first|..], batches[1..], queue);
      FirstThenRest(published, first, Delivered(batches[1..]), queue);
    }
  }

  lemma FirstThenRest(all: seq<LogEvent>, first: seq<LogEvent>, delivered: seq<LogEvent>, queue: seq<LogEvent>)
    requires |first| <= |all| && all[..|first|] == first && all[|first|..] == delivered + queue
    ensures all == first + delivered + queue
  {
    assert all == first + (delivered + queue);
  }

  // ---------------------------------------------------------------- the broker

  /** What a subscription has been offered since it was opened, and what its reads returned. */
  datatype History = History(published: seq<LogEvent>, batches: seq<Batch>)

  predicate Matches(s: Subscription, e: LogEvent) {
    e.turnId == Some(s.turnId)
  }

  function Offered(bound: nat, s: Subscription, e: LogEvent): Subscription {
    if !Matches(s, e) then s
    else
      var lost := if |s.events| + 1 > bound then |s.events| + 1 - bound else 0;
      s.(events := (s.events + [e])[lost..], dropped := s.dropped + lost)
  }

  /** An offered event joins the queue of a subscription to its turn and of no other. Exactly one event, the
      oldest, is given up for it, and only if the queue was full. */
  lemma OfferKeepsTheNewest(bound: nat, s: Subscription, e: LogEvent)
    requires bound >= 1 && |s.events| <= bound
    ensures var s' := Offered(bound, s, e);
            && s'.turnId == s.turnId && s'.lastAccess == s.lastAccess
            && (e.turnId != Some(s.turnId) ==> s' == s)
            && (e.turnId == Some(s.turnId) && |s.events| < bound ==>
                  s'.events == s.events + [e] && s'.dropped == s.dropped)
            && (e.turnId == Some(s.turnId) && |s.events| == bound ==>
                  s'.events == s.events[1..] + [e] && s'.dropped == s.dropped + 1)
  {
    if |s.events| == bound {
      assert (s.events + [e])[1..] == s.events[1..] + [e];
    }
  }

  function OfferedAll(bound: nat, s: Subscription, es: seq<LogEvent>): Subscription {
    if es == [] then s else Offered(bound, OfferedAll(bound, s, es[..|es| - 1]), es[|es| - 1])
  }

  /** The events that carry the turn id. */
  function OfTurn(es: seq<LogEvent>, turnId: string): seq<LogEvent> {
    if es == [] then []
    else OfTurn(es[..|es| - 1], turnId) + if es[|es| - 1].turnId == Some(turnId) then [es[|es| - 1]] else []
  }

  /** No more is lost than the bound demands: between two reads a queue holds the newest events of its turn,
      as many as fit, and counts all the others. */
  lemma {:induction false} NoMoreIsLost(bound: nat, s: Subscription, es: seq<LogEvent>)
    requires bound >= 1 && |s.events| <= bound
    ensures var s', all := OfferedAll(bound, s, es), s.events + OfTurn(es, s.turnId);
            var lost := if |all| > bound then |all| - bound else 0;
            s'.events == all[lost..] && s'.dropped == s.dropped + lost && s'.turnId == s.turnId
  {
    if es != [] {
      var before, e := es[..|es| - 1], es[|es| - 1];
      NoMoreIsLost(bound, s, before);
      var all := s.events + OfTurn(before, s.turnId);
      OfferKeepsTheNewest(bound, OfferedAll(bound, s, before), e);
      if e.turnId == Some(s.turnId) {
        assert s.events + OfTurn(es, s.turnId) == all + [e];
      } else {
        assert s.events + OfTurn(es, s.turnId) == all;
      }
    }
  }

  function Unexpired(subscriptions: map<string, Subscription>, cutoff: real): map<string, Subscription> {
    map id | id in subscriptions && subscriptions[id].lastAccess >= cutoff :: subscriptions[id]
  }

  ghost predicate Sound(bound: nat, s: Subscription, h: History) {
    && |s.events| <= bound
    && (s.events == [] ==> s.dropped == 0)
    && Accounted(h.published, h.batches, s.dropped, s.events)
  }

  class ActivityBroker {
    const maxEvents: nat
    const ttl: real
    var subscriptions: map<string, Subscription>
    ghost var history: map<string, History>

    /** For every live subscription the drop counts and the queue account for everything it was offered,
        and an empty queue hides no unreported drop. */
    ghost predicate Valid()
      reads this
    {
      && maxEvents >= 1
      && history.Keys == subscriptions.Keys
      && forall id :: id in subscriptions ==> Sound(maxEvents, subscriptions[id], history[id])
    }

    constructor (maxEvents: nat, ttl: real)
      requires maxEvents >= 1 && ttl > 0.0
      ensures Valid() && subscriptions == map[] && this.maxEvents == maxEvents && this.ttl == ttl
    {
      this.maxEvents, this.ttl := maxEvents, ttl;
      subscriptions, history := map[], map[];
    }

    /** Forget the subscriptions that nobody has read for longer than the time to live. */
    method Expire(now: real)
      requires Valid()
      modifies this
      ensures Valid()
      ensures subscriptions == Unexpired(old(subscriptions), now - ttl)
      ensures forall id :: id in subscriptions <==>
                             id in old(subscriptions) && now - old(subscriptions)[id].lastAccess <= ttl
      ensures forall id :: id in subscriptions ==>
                             subscriptions[id] == old(subscriptions)[id] && history[id] == old(history)[id]
    {
      var cutoff := now - ttl;
      var expired := set id | id in subscriptions && subscriptions[id].lastAccess < cutoff;
      subscriptions := subscriptions - expired;
      history := history - expired;
    }

    method Open(turnId: string, id: string, now: real) returns (r: Result<string, Error>)
      requires Valid()
      modifies this
      ensures Valid()
      ensures turnId == "" ==> r == Err(EmptyTurnId) && subscriptions == old(subscriptions) && history == old(history)
      ensures turnId != "" ==> r == Ok(id)
      ensures turnId != "" ==>
                subscriptions == Unexpired(old(subscriptions), now - ttl)[id := Subscription(turnId, [], 0, now)]
      ensures turnId != "" ==> history[id] == History([], [])
      ensures forall x :: x in subscriptions && x != id ==> history[x] == old(history)[x]
    {
      if turnId == "" {
        return Err(EmptyTurnId);
      }
      Expire(now);
      subscriptions := subscriptions[id := Subscription(turnId, [], 0, now)];
      history := history[id := History([], [])];
      r := Ok(id);
    }

    /** Append to one queue and let its oldest events go while it is over the bound. */
    method Offer(s: Subscription, e: LogEvent) returns (s': Subscription)
      requires |s.events| <= maxEvents && Matches(s, e)
      ensures s' == Offered(maxEvents, s, e)
    {
      var events, lost := LoseOldest(s.events + [e]);
      s' := s.(events := events, dropped := s.dropped + lost);
    }

    /** `popleft` while the queue is over the bound. */
    method LoseOldest(queue: seq<LogEvent>) returns (left: seq<LogEvent>, lost: nat)
      ensures lost == if |queue| > maxEvents then |queue| - maxEvents else 0
      ensures left == queue[lost..]
    {
      left, lost := queue, 0;
      while |left| > maxEvents
        invariant lost <= |queue| && left == queue[lost..]
        invariant lost > 0 ==> |left| >= maxEvents
      {
        left, lost := left[1..], lost + 1;
      }
    }

    method Publish(e: LogEvent, now: real)
      requires Valid()
      modifies this
      ensures Valid()
      ensures e.turnId.None? ==> subscriptions == old(subscriptions) && history == old(history)
      ensures e.turnId.Some? ==>
                && subscriptions.Keys == Unexpired(old(subscriptions), now - ttl).Keys
                && forall id :: id in subscriptions ==>
                     && subscriptions[id] == Offered(maxEvents, old(subscriptions)[id], e)
                     && history[id].batches == old(history)[id].batches
                     && history[id].published == old(history)[id].published
                                                 + if Matches(old(subscriptions)[id], e) then [e] else []
    {
      hide Sound, Offered, IsOffered;
      if e.turnId.None? {
        return;
      }
      Expire(now);
      ghost var before, offered := subscriptions, history;
      var rest := subscriptions.Keys;
      while rest != {}
        invariant rest <= before.Keys == subscriptions.Keys == history.Keys
        invariant forall id :: id in rest ==> subscriptions[id] == before[id] && history[id] == offered[id]
        invariant forall id :: id in before.Keys - rest ==>
                    IsOffered(maxEvents, e, before[id], offered[id], subscriptions[id], history[id])
      {
        var id :| id in rest;
        rest := rest - {id};
        var s := subscriptions[id];
        OneOffer(maxEvents, e, s, history[id]);
        if Some(s.turnId) != e.turnId {
          continue;
        }
        var s' := Offer(s, e);
        subscriptions := subscriptions[id := s'];
        history := history[id := history[id].(published := history[id].published + [e])];
      }
      forall id | id in subscriptions
        ensures && subscriptions[id] == Offered(maxEvents, before[id], e)
                && history[id].batches == offered[id].batches
                && history[id].published == offered[id].published + (if Matches(before[id], e) then [e] else [])
                && Sound(maxEvents, subscriptions[id], history[id])
      {
        OfferedMeans(maxEvents, e, before[id], offered[id], subscriptions[id], history[id]);
      }
    }

    /** One turn of the read loop. A read that times out reports the empty batch, which is a true report:
        an empty queue has no unreported drops. */
    method NextEvents(id: string, timeout: real, limit: int, remaining: real, now: real) returns (r: Attempt)
      requires Valid()
      modifies this
      ensures Valid()
      ensures timeout < 0.0 || limit < 1 ==>
                && r == Raised(if timeout < 0.0 then NegativeTimeout else NonPositiveLimit)
                && subscriptions == old(subscriptions) && history == old(history)
      ensures timeout >= 0.0 && limit >= 1 ==>
                var live := Unexpired(old(subscriptions), now - ttl);
                && subscriptions.Keys == live.Keys
                && (id !in live <==> r == Raised(SubscriptionNotFound))
                && (forall x :: x in live && x != id ==> subscriptions[x] == live[x] && history[x] == old(history)[x])
                && (id in live ==>
                      var s := live[id];
                      var count := if limit <= |s.events| then limit else |s.events|;
                      && subscriptions[id] == s.(events := s.events[count..], dropped := 0, lastAccess := now)
                      && (r == Retry <==> s.events == [] && remaining > 0.0)
                      && (r != Retry ==> r == Returned(Batch(s.events[..count], s.dropped)))
                      && history[id] == if r == Retry then old(history)[id]
                                        else old(history)[id].(batches := old(history)[id].batches + [r.batch]))
    {
      hide Sound;
      if timeout < 0.0 {
        return Raised(NegativeTimeout);
      }
      if limit < 1 {
        return Raised(NonPositiveLimit);
      }
      Expire(now);
      if id !in subscriptions {
        return Raised(SubscriptionNotFound);
      }
      var s := subscriptions[id];
      ghost var h := history[id];
      SoundBounds(maxEvents, s, h);
      ReadKeepsSound(maxEvents, s, h, if limit <= |s.events| then limit else |s.events|, now);
      subscriptions := subscriptions[id := s.(lastAccess := now)];
      if s.events != [] {
        var events, queue := TakeOldest(s.events, limit);
        r := Returned(Batch(events, s.dropped));
        subscriptions := subscriptions[id := s.(events := queue, dropped := 0, lastAccess := now)];
        history := history[id := h.(batches := h.batches + [r.batch])];
      } else if remaining <= 0.0 {
        r := Returned(Batch([], 0));
        history := history[id := h.(batches := h.batches + [r.batch])];
      } else {
        r := Retry;
      }
    }

    /** `popleft`, at most `limit` times. */
    method TakeOldest(queue: seq<LogEvent>, limit: int) returns (taken: seq<LogEvent>, left: seq<LogEvent>)
      requires limit >= 1
      ensures taken + left == queue && |taken| == if limit <= |queue| then limit else |queue|
    {
      var count := if limit <= |queue| then limit else |queue|;
      taken, left := [], queue;
      for i := 0 to count
        invariant taken == queue[..i] && left == queue[i..]
      {
        taken, left := taken + [left[0]], left[1..];
      }
    }

    method Close(id: string)
      requires Valid()
      modifies this
      ensures Valid() && subscriptions == old(subscriptions) - {id}
      ensures forall x :: x in subscriptions ==> history[x] == old(history)[x]
    {
      subscriptions := subscriptions - {id};
      history := history - {id};
    }
  }

  /** One subscription and its history before and after an event was offered to it. */
  ghost predicate IsOffered(bound: nat, e: LogEvent, s: Subscription, h: History, s': Subscription, h': History) {
    && s' == Offered(bound, s, e)
    && h' == (if Matches(s, e) then h.(published := h.published + [e]) else h)
    && Sound(bound, s', h')
  }

  lemma OneOffer(bound: nat, e: LogEvent, s: Subscription, h: History)
    requires bound >= 1 && Sound(bound, s, h)
    ensures |s.events| <= bound
    ensures if Matches(s, e) then IsOffered(bound, e, s, h, Offered(bound, s, e), h.(published := h.published + [e]))
            else IsOffered(bound, e, s, h, s, h)
  {
    if Matches(s, e) {
      OfferKeepsSound(bound, s, h, e);
    }
  }

  lemma OfferedMeans(bound: nat, e: LogEvent, s: Subscription, h: History, s': Subscription, h': History)
    requires IsOffered(bound, e, s, h, s', h')
    ensures s' == Offered(bound, s, e) && Sound(bound, s', h') && h'.batches == h.batches
    ensures h'.published == h.published + if Matches(s, e) then [e] else []
  {
    assert h.published + [] == h.published;
  }

  lemma SoundBounds(bound: nat, s: Subscription, h: History)
    requires Sound(bound, s, h)
    ensures |s.events| <= bound && (s.events == [] ==> s.dropped == 0)
  {
  }

  /** A read keeps the books, and so does the report of an empty queue. */
  lemma ReadKeepsSound(bound: nat, s: Subscription, h: History, count: nat, now: real)
    requires Sound(bound, s, h) && count <= |s.events|
    ensures Sound(bound, s.(events := s.events[count..], dropped := 0, lastAccess := now),
                  h.(batches := h.batches + [Batch(s.events[..count], s.dropped)]))
    ensures Sound(bound, s.(lastAccess := now), h)
  {
    ReadAccounted(h.published, h.batches, s.dropped, s.events, count);
  }

  lemma OfferKeepsSound(bound: nat, s: Subscription, h: History, e: LogEvent)
    requires bound >= 1 && Sound(bound, s, h) && Matches(s, e)
    ensures Sound(bound, Offered(bound, s, e), h.(published := h.published + [e]))
  {
    var lost := if |s.events| + 1 > bound then |s.events| + 1 - bound else 0;
    PublishAccounted(h.published, h.batches, s.dropped, s.events, e, lost);
  }
}
