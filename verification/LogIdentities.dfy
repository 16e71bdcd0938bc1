/** How a reader recognises an event that it has returned, or been told of, before. */
module LogIdentities {
  import opened Wrappers

  /** An event: `record` is everything in it but its id and its schema version. */
  datatype LogEvent = LogEvent(eventId: Option<string>, version: string, record: string) {
    function Key(): Key {
      if eventId.Some? then Id(eventId.value) else Legacy(record)
    }
  }

  datatype Key = Id(id: string) | Legacy(record: string)

  function KeysOf(events: seq<LogEvent>): set<Key> {
    set e | e in events :: e.Key()
  }

  /** Two events have the same key if they have the same id, or if they have none and the same record. */
  lemma SameKeyIff(a: LogEvent, b: LogEvent)
    ensures a.Key() == b.Key() <==> a.eventId == b.eventId && (a.eventId.None? ==> a.record == b.record)
  {
  }

  /** The events whose key was seen neither before nor in an earlier event. */
  function Canonical(events: seq<LogEvent>, seen: set<Key>): seq<LogEvent> {
    if events == [] then []
    else
      var before, e := events[..|events| - 1], events[|events| - 1];
      Canonical(before, seen) + if e.Key() in seen + KeysOf(before) then [] else [e]
  }

  /** The event that stands for each key: the one on record, else the first to come. */
  function Recorded(events: seq<LogEvent>, prints: map<Key, LogEvent>): map<Key, LogEvent> {
    if events == [] then prints
    else
      var before, e := Recorded(events[..|events| - 1], prints), events[|events| - 1];
      if e.Key() in before then before else before[e.Key() := e]
  }

  /** The events that differ from the one standing for their key. */
  function Conflicts(events: seq<LogEvent>, prints: map<Key, LogEvent>): seq<LogEvent> {
    if events == [] then []
    else
      var before, e := events[..|events| - 1], events[|events| - 1];
      var known := Recorded(before, prints);
      Conflicts(before, prints) + if e.Key() in known && known[e.Key()] != e then [e] else []
  }

  /** What one more event adds. */
  lemma OneMore(before: seq<LogEvent>, e: LogEvent, seen: set<Key>, prints: map<Key, LogEvent>)
    ensures KeysOf(before + [e]) == KeysOf(before) + {e.Key()}
    ensures Canonical(before + [e], seen)
            == Canonical(before, seen) + if e.Key() in seen + KeysOf(before) then [] else [e]
    ensures var known := Recorded(before, prints);
            && Recorded(before + [e], prints) == (if e.Key() in known then known else known[e.Key() := e])
            && Conflicts(before + [e], prints)
               == Conflicts(before, prints) + if e.Key() in known && known[e.Key()] != e then [e] else []
  {
    assert (before + [e])[..|before + [e]| - 1] == before;
  }

  class SeenEvents {
    var keys: set<Key>
    var prints: map<Key, LogEvent>

    ghost predicate Valid()
      reads this
    {
      && prints.Keys <= keys
      && forall k :: k in prints ==> prints[k].Key() == k
    }

    constructor (keys: set<Key>)
      ensures Valid() && this.keys == keys && prints == map[]
    {
      this.keys, prints := keys, map[];
    }

    method Reconcile(events: seq<LogEvent>) returns (canonical: seq<LogEvent>, conflicts: seq<LogEvent>)
      requires Valid()
      modifies this
      ensures Valid()
      ensures canonical == Canonical(events, old(keys)) && keys == old(keys) + KeysOf(events)
      ensures conflicts == Conflicts(events, old(prints)) && prints == Recorded(events, old(prints))
    {
      hide Canonical, Recorded, Conflicts, KeysOf;
      NothingYet(keys, prints);
      canonical, conflicts := [], [];
      for i := 0 to |events|
        invariant Valid()
        invariant canonical == Canonical(events[..i], old(keys)) && keys == old(keys) + KeysOf(events[..i])
        invariant conflicts == Conflicts(events[..i], old(prints)) && prints == Recorded(events[..i], old(prints))
      {
        var e, key := events[i], events[i].Key();
        OneMore(events[..i], e, old(keys), old(prints));
        assert events[..i + 1] == events[..i] + [e];
        if key !in keys {
          keys, prints, canonical := keys + {key}, prints[key := e], canonical + [e];
        } else if key !in prints {
          prints := prints[key := e];
        } else if prints[key] != e {
          conflicts := conflicts + [e];
        }
      }
      assert events[..|events|] == events;
    }
  }

  /** Every key comes out once, unless it was seen before. */
  lemma {:induction false} EachKeyOnce(events: seq<LogEvent>, seen: set<Key>)
    ensures KeysOf(Canonical(events, seen)) == KeysOf(events) - seen
    ensures var out := Canonical(events, seen); forall i, j :: 0 <= i < j < |out| ==> out[i].Key() != out[j].Key()
  {
    hide Canonical, KeysOf;
    NothingYet(seen, map[]);
    if events != [] {
      var before, e := events[..|events| - 1], events[|events| - 1];
      EachKeyOnce(before, seen);
      assert events == before + [e];
      var out := Canonical(before, seen);
      OneMore(before, e, seen, map[]);
      OneMore(out, e, seen, map[]);
      assert out + [] == out;
      OneKeyMore(KeysOf(before), seen, e.Key());
      forall i | 0 <= i < |out| ensures out[i].Key() in KeysOf(before) - seen {
        KeyIsListed(out, i);
      }
    }
  }

  lemma OneKeyMore(keys: set<Key>, seen: set<Key>, key: Key)
    ensures keys + {key} - seen == if key in seen + keys then keys - seen else keys - seen + {key}
  {
  }

  lemma KeyIsListed(events: seq<LogEvent>, i: nat)
    requires i < |events|
    ensures events[i].Key() in KeysOf(events)
  {
  }

  lemma NothingYet(seen: set<Key>, prints: map<Key, LogEvent>)
    ensures Canonical([], seen) == Conflicts([], prints) == [] && Recorded([], prints) == prints && KeysOf([]) == {}
  {
  }

  /** The chosen events in their order: `out` is what stands at the ascending `positions`. */
  ghost predicate Picked(events: seq<LogEvent>, positions: seq<nat>, out: seq<LogEvent>) {
    && |positions| == |out|
    && (forall i, j :: 0 <= i < j < |positions| ==> positions[i] < positions[j])
    && (forall k :: 0 <= k < |positions| ==> positions[k] < |events| && events[positions[k]] == out[k])
  }

  lemma PickedNext(before: seq<LogEvent>, e: LogEvent, positions: seq<nat>, out: seq<LogEvent>, take: bool)
    requires Picked(before, positions, out)
    ensures Picked(before + [e], if take then positions + [|before|] else positions,
                   out + if take then [e] else [])
    ensures forall i: nat :: i in positions ==> i < |before|
  {
    assert out + [] == out;
  }

  /** No event before this one has its key. */
  ghost predicate FirstWithKey(events: seq<LogEvent>, i: nat)
    requires i < |events|
  {
    forall j :: 0 <= j < i ==> events[j].Key() != events[i].Key()
  }

  /** What comes out are the first events of the unseen keys, in the order in which they came in. */
  lemma {:induction false} FirstOnesComeOut(events: seq<LogEvent>, seen: set<Key>) returns (positions: seq<nat>)
    ensures Picked(events, positions, Canonical(events, seen))
    ensures forall i: nat :: i < |events| ==>
              (i in positions <==> events[i].Key() !in seen && FirstWithKey(events, i))
  {
    hide Picked, Canonical;
    if events == [] {
      assert Picked([], [], Canonical([], seen)) by { NothingPicked(); NothingYet(seen, map[]); }
      return [];
    }
    var before, e := events[..|events| - 1], events[|events| - 1];
    var known := FirstOnesComeOut(before, seen);
    OneMore(before, e, seen, map[]);
    assert events == before + [e];
    var fits := e.Key() !in seen + KeysOf(before);
    PickedNext(before, e, known, Canonical(before, seen), fits);
    positions := if fits then known + [|before|] else known;
    assert fits <==> e.Key() !in seen && FirstWithKey(events, |before|) by { KnownKeys(before, e.Key()); }
    forall i: nat | i < |events|
      ensures i in positions <==> events[i].Key() !in seen && FirstWithKey(events, i)
    {
      if i < |before| {
        assert events[i] == before[i] && (FirstWithKey(events, i) <==> FirstWithKey(before, i));
      }
    }
  }

  lemma NothingPicked()
    ensures Picked([], [], [])
  {
  }

  lemma KnownKeys(events: seq<LogEvent>, key: Key)
    ensures key in KeysOf(events) <==> exists j :: 0 <= j < |events| && events[j].Key() == key
  {
    if j :| 0 <= j < |events| && events[j].Key() == key {
      assert events[j] in events;
    }
  }

  /** For each key stands the event on record, else the first one that came with it. */
  lemma {:induction false} FirstOnesStand(events: seq<LogEvent>, prints: map<Key, LogEvent>)
    ensures var known := Recorded(events, prints);
            && known.Keys == prints.Keys + KeysOf(events)
            && (forall k :: k in prints ==> known[k] == prints[k])
            && (forall i: nat :: i < |events| && events[i].Key() !in prints && FirstWithKey(events, i) ==>
                  events[i].Key() in known && known[events[i].Key()] == events[i])
  {
    hide KeysOf;
    NothingYet({}, prints);
    if events != [] {
      var before, e := events[..|events| - 1], events[|events| - 1];
      FirstOnesStand(before, prints);
      assert events == before + [e];
      OneMore(before, e, {}, prints);
      KnownKeys(before, e.Key());
      forall i: nat | i < |events| && events[i].Key() !in prints && FirstWithKey(events, i)
        ensures events[i].Key() in Recorded(events, prints)
                && Recorded(events, prints)[events[i].Key()] == events[i]
      {
        if i < |before| {
          assert events[i] == before[i] && FirstWithKey(before, i);
        }
      }
    }
  }

  /** Reported are exactly the events that differ from the one standing for their key, in order. */
  lemma {:induction false} DifferingOnesAreReported(events: seq<LogEvent>, prints: map<Key, LogEvent>)
    returns (positions: seq<nat>)
    ensures Picked(events, positions, Conflicts(events, prints))
    ensures forall i: nat :: i < |events| ==> events[i].Key() in Recorded(events, prints)
    ensures forall i: nat :: i < |events| ==>
              (i in positions <==> Recorded(events, prints)[events[i].Key()] != events[i])
  {
    hide Picked, Conflicts, Recorded, KeysOf;
    NothingYet({}, prints);
    if events == [] {
      NothingPicked();
      return [];
    }
    var before, e := events[..|events| - 1], events[|events| - 1];
    var known := DifferingOnesAreReported(before, prints);
    assert events == before + [e];
    OneMore(before, e, {}, prints);
    var standing := Recorded(before, prints);
    var differs := e.Key() in standing && standing[e.Key()] != e;
    PickedNext(before, e, known, Conflicts(before, prints), differs);
    positions := if differs then known + [|before|] else known;
  }

  /** Where a stream of events is cut into calls makes no difference to what is returned or reported. */
  lemma {:induction false} BatchesDoNotMatter(a: seq<LogEvent>, b: seq<LogEvent>, seen: set<Key>,
                                              prints: map<Key, LogEvent>)
    ensures KeysOf(a + b) == KeysOf(a) + KeysOf(b)
    ensures Canonical(a + b, seen) == Canonical(a, seen) + Canonical(b, seen + KeysOf(a))
    ensures Recorded(a + b, prints) == Recorded(b, Recorded(a, prints))
    ensures Conflicts(a + b, prints) == Conflicts(a, prints) + Conflicts(b, Recorded(a, prints))
  {
    hide Canonical, Recorded, Conflicts, KeysOf;
    if b == [] {
      assert a + b == a;
      NothingYet(seen + KeysOf(a), Recorded(a, prints));
    } else {
      var before, e := b[..|b| - 1], b[|b| - 1];
      BatchesDoNotMatter(a, before, seen, prints);
      assert b == before + [e] && a + b == a + before + [e];
      OneMore(a + before, e, seen, prints);
      OneMore(before, e, seen + KeysOf(a), Recorded(a, prints));
    }
  }
}
