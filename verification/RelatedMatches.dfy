/** The expansion of ranked memory matches along relations: who is added, with which score, in which order. */
module RelatedMatches {
  import opened Wrappers
  import opened Ordering

  datatype Entry = Entry(id: string, updatedAt: string, relations: map<string, seq<string>>) {
    function Targets(field: string): seq<string> {
      if field in relations then relations[field] else []
    }
  }

  datatype Match = Match(entry: Entry, score: real, reasons: seq<string>)

  datatype Descriptor = Descriptor(name: string, sourceField: string, inverse: Option<string>,
                                   transitive: bool, retrievalRule: string)

  // ---------------------------------------------------------------- ranking

  /** The sort key `(-score, updated_at, id)`, compared strictly. */
  predicate Ahead(a: Match, b: Match) {
    || a.score > b.score
    || (a.score == b.score && Less(a.entry.updatedAt, b.entry.updatedAt))
    || (a.score == b.score && a.entry.updatedAt == b.entry.updatedAt && Less(a.entry.id, b.entry.id))
  }

  lemma AheadTransitive(a: Match, b: Match, c: Match)
    requires Ahead(a, b) && Ahead(b, c)
    ensures Ahead(a, c)
  {
    if Less(a.entry.updatedAt, b.entry.updatedAt) && Less(b.entry.updatedAt, c.entry.updatedAt) {
      LessTransitive(a.entry.updatedAt, b.entry.updatedAt, c.entry.updatedAt);
    }
    if Less(a.entry.id, b.entry.id) && Less(b.entry.id, c.entry.id) {
      LessTransitive(a.entry.id, b.entry.id, c.entry.id);
    }
  }

  lemma AheadTrichotomy(a: Match, b: Match)
    ensures Ahead(a, b) || Ahead(b, a)
            || (a.score == b.score && a.entry.updatedAt == b.entry.updatedAt && a.entry.id == b.entry.id)
    ensures !(Ahead(a, b) && Ahead(b, a))
  {
    LessTrichotomy(a.entry.updatedAt, b.entry.updatedAt);
    LessTrichotomy(a.entry.id, b.entry.id);
  }

  ghost predicate Ranked(s: seq<Match>) {
    forall i, j :: 0 <= i < j < |s| ==> !Ahead(s[j], s[i])
  }

  function Insert(m: Match, s: seq<Match>): seq<Match> {
    if s == [] || !Ahead(s[0], m) then [m] + s else [s[0]] + Insert(m, s[1..])
  }

  /** `sorted` with the ranking key. */
  function Rank(s: seq<Match>): seq<Match> {
    if s == [] then [] else Insert(s[0], Rank(s[1..]))
  }

  lemma NotAheadTransitive(a: Match, b: Match, c: Match)
    requires !Ahead(b, a) && !Ahead(c, b)
    ensures !Ahead(c, a)
  {
    AheadTrichotomy(a, b);
    AheadTrichotomy(b, c);
    AheadTrichotomy(a, c);
    if Ahead(a, b) && Ahead(b, c) {
      AheadTransitive(a, b, c);
    }
  }

  lemma {:induction false} InsertRanks(m: Match, s: seq<Match>)
    requires Ranked(s)
    ensures Ranked(Insert(m, s)) && multiset(Insert(m, s)) == multiset(s) + multiset{m}
  {
    var r := Insert(m, s);
    if s == [] {
    } else if !Ahead(s[0], m) {
      forall j | 0 <= j < |s| ensures !Ahead(s[j], m) {
        if j > 0 {
          NotAheadTransitive(m, s[0], s[j]);
        }
      }
    } else {
      InsertRanks(m, s[1..]);
      AheadTrichotomy(m, s[0]);
      assert s == [s[0]] + s[1..];
      forall x | x in r[1..] ensures !Ahead(x, s[0]) {
        assert x in multiset(Insert(m, s[1..]));
        assert x == m || x in s[1..];
      }
    }
  }

  /** Ranked matches come with descending scores, equal scores by date, and equal dates by id. */
  lemma RankedMeans(s: seq<Match>)
    ensures Ranked(s) <==>
              forall i, j :: 0 <= i < j < |s| ==>
                var a, b := s[i], s[j];
                && a.score >= b.score
                && (a.score == b.score ==> !Less(b.entry.updatedAt, a.entry.updatedAt))
                && (a.score == b.score && a.entry.updatedAt == b.entry.updatedAt ==> !Less(b.entry.id, a.entry.id))
  {
  }

  lemma {:induction false} RankSorts(s: seq<Match>)
    ensures Ranked(Rank(s)) && multiset(Rank(s)) == multiset(s)
  {
    if s != [] {
      RankSorts(s[1..]);
      InsertRanks(s[0], Rank(s[1..]));
      assert s == [s[0]] + s[1..];
    }
  }

  // ---------------------------------------------------------------- derivations

  /** What the expansion reads: the registered relations, the entries it may add, and the ids of the nodes
      that the transitive closure of a relation reports from an entry (`MemoryGraph.TransitiveClosureFrom`). */
  datatype Memory = Memory(registry: seq<Descriptor>, eligible: seq<Entry>, closure: (string, string) -> seq<string>)

  /** One reason to add `target`: it is related to the entry of the direct match `source`. */
  datatype Derivation = Derivation(source: Match, target: string, descriptor: Descriptor, name: string, extra: real)

  const CLOSURE_PENALTY := 0.25

  function Penalty(d: Descriptor): real {
    if d.retrievalRule == "include_both_current_and_superseded" then 0.5 else 0.75
  }

  function Score(d: Derivation): real {
    var s := d.source.score - Penalty(d.descriptor) - d.extra;
    if s >= 0.1 then s else 0.1
  }

  function Reason(d: Derivation): string {
    d.name + ":" + d.source.entry.id
  }

  function InverseName(d: Descriptor): string {
    if d.inverse.Some? && d.inverse.value != "" then d.inverse.value else d.name
  }

  predicate Outgoing(mem: Memory, d: Derivation) {
    && d.descriptor in mem.registry && d.name == d.descriptor.name && d.extra == 0.0
    && d.target in d.source.entry.Targets(d.descriptor.sourceField)
  }

  predicate Incoming(mem: Memory, d: Derivation) {
    && d.descriptor in mem.registry && d.name == InverseName(d.descriptor) && d.extra == 0.0
    && d.target != d.source.entry.id
    && exists e :: e in mem.eligible && e.id == d.target && d.source.entry.id in e.Targets(d.descriptor.sourceField)
  }

  predicate Transitive(mem: Memory, d: Derivation) {
    && d.descriptor in mem.registry && d.descriptor.transitive
    && d.name == d.descriptor.name + "_closure" && d.extra == CLOSURE_PENALTY
    && d.target in mem.closure(d.source.entry.id, d.descriptor.name)
    && d.target != d.source.entry.id && d.target !in d.source.entry.Targets(d.descriptor.sourceField)
  }

  predicate Derives(mem: Memory, d: Derivation) {
    Outgoing(mem, d) || Incoming(mem, d) || Transitive(mem, d)
  }

  method OutgoingRefs(mem: Memory, m: Match) returns (refs: seq<Derivation>)
    ensures forall d :: d in refs <==> d.source == m && Outgoing(mem, d)
  {
    refs := [];
    for i := 0 to |mem.registry|
      invariant forall d :: d in refs <==> d.source == m && d.descriptor in mem.registry[..i] && Outgoing(mem, d)
    {
      var descriptor := mem.registry[i];
      var targets := m.entry.Targets(descriptor.sourceField);
      ghost var before := refs;
      assert mem.registry[..i + 1] == mem.registry[..i] + [descriptor];
      for j := 0 to |targets|
        invariant forall d :: d in refs <==>
                    || d in before
                    || (d.source == m && d.descriptor == descriptor && d.target in targets[..j] && Outgoing(mem, d))
      {
        refs := refs + [Derivation(m, targets[j], descriptor, descriptor.name, 0.0)];
      }
    }
  }

  method IncomingRefs(mem: Memory, m: Match) returns (refs: seq<Derivation>)
    ensures forall d :: d in refs <==> d.source == m && Incoming(mem, d)
  {
    refs := [];
    for i := 0 to |mem.eligible|
      invariant forall d :: d in refs <==> d.source == m && Incoming(mem.(eligible := mem.eligible[..i]), d)
    {
      var candidate := mem.eligible[i];
      assert mem.eligible[..i + 1] == mem.eligible[..i] + [candidate];
      if candidate.id == m.entry.id {
        continue;
      }
      ghost var before := refs;
      for j := 0 to |mem.registry|
        invariant forall d :: d in refs <==>
                    || d in before
                    || (d.source == m && d.descriptor in mem.registry[..j]
                        && Incoming(mem.(eligible := [candidate]), d))
      {
        var descriptor := mem.registry[j];
        assert mem.registry[..j + 1] == mem.registry[..j] + [descriptor];
        if m.entry.id in candidate.Targets(descriptor.sourceField) {
          refs := refs + [Derivation(m, candidate.id, descriptor, InverseName(descriptor), 0.0)];
        }
      }
    }
    assert mem.(eligible := mem.eligible[..|mem.eligible|]) == mem;
  }

  method TransitiveRefs(mem: Memory, m: Match) returns (refs: seq<Derivation>)
    ensures forall d :: d in refs <==> d.source == m && Transitive(mem, d)
  {
    refs := [];
    for i := 0 to |mem.registry|
      invariant forall d :: d in refs <==> d.source == m && d.descriptor in mem.registry[..i] && Transitive(mem, d)
    {
      var descriptor := mem.registry[i];
      assert mem.registry[..i + 1] == mem.registry[..i] + [descriptor];
      if !descriptor.transitive {
        continue;
      }
      var reached := mem.closure(m.entry.id, descriptor.name);
      var targets := m.entry.Targets(descriptor.sourceField);
      ghost var before := refs;
      for j := 0 to |reached|
        invariant forall d :: d in refs <==>
                    || d in before
                    || (d.source == m && d.descriptor == descriptor && d.target in reached[..j] && Transitive(mem, d))
      {
        if reached[j] != m.entry.id && reached[j] !in targets {
          refs := refs + [Derivation(m, reached[j], descriptor, descriptor.name + "_closure", CLOSURE_PENALTY)];
        }
      }
    }
  }

  // ---------------------------------------------------------------- the fold

  /** Of the derivations seen so far, `related` keeps for each target that may be added the best score and
      all the reasons. Nothing in this depends on the order in which they were seen. */
  ghost predicate Best(seen: set<Derivation>, byId: map<string, Entry>, direct: set<string>,
                       related: map<string, Match>) {
    && (forall id :: id in related <==> id !in direct && id in byId && Derived(seen, id))
    && (forall id :: id in related ==> BestFor(seen, id, byId, related[id]))
  }

  ghost predicate Derived(seen: set<Derivation>, id: string) {
    exists d :: d in seen && d.target == id
  }

  ghost predicate BestFor(seen: set<Derivation>, id: string, byId: map<string, Entry>, m: Match) {
    && id in byId && m.entry == byId[id]
    && (exists d :: d in seen && d.target == id && Score(d) == m.score)
    && (forall d :: d in seen && d.target == id ==> Score(d) <= m.score)
    && (forall r :: r in m.reasons <==> exists d :: d in seen && d.target == id && Reason(d) == r)
  }

  lemma BestForGrows(seen: set<Derivation>, d: Derivation, byId: map<string, Entry>, m: Match, m': Match)
    requires BestFor(seen, d.target, byId, m) && m'.entry == m.entry
    requires m'.score == if Score(d) > m.score then Score(d) else m.score
    requires forall r :: r in m'.reasons <==> r in m.reasons || r == Reason(d)
    ensures BestFor(seen + {d}, d.target, byId, m')
  {
    var seen' := seen + {d};
    assert d in seen';
    var best :| best in seen && best.target == d.target && Score(best) == m.score;
    assert best in seen';
    forall r | r in m'.reasons ensures exists x :: x in seen' && x.target == d.target && Reason(x) == r {
      if r != Reason(d) {
        var x :| x in seen && x.target == d.target && Reason(x) == r;
        assert x in seen';
      }
    }
  }

  lemma BestForOthers(seen: set<Derivation>, d: Derivation, id: string, byId: map<string, Entry>, m: Match)
    requires BestFor(seen, id, byId, m) && id != d.target
    ensures BestFor(seen + {d}, id, byId, m)
  {
    var best :| best in seen && best.target == id && Score(best) == m.score;
    assert best in seen + {d};
    forall r | r in m.reasons ensures exists x :: x in seen + {d} && x.target == id && Reason(x) == r {
      var x :| x in seen && x.target == id && Reason(x) == r;
      assert x in seen + {d};
    }
  }

  /** Take one derivation into account. */
  method AddRelatedMatch(related: map<string, Match>, byId: map<string, Entry>, direct: set<string>,
                         d: Derivation, ghost seen: set<Derivation>)
    returns (related': map<string, Match>)
    requires Best(seen, byId, direct, related)
    ensures Best(seen + {d}, byId, direct, related')
  {
    hide BestFor, Derived;
    related' := related;
    forall id | id in related && id != d.target ensures BestFor(seen + {d}, id, byId, related[id]) {
      BestForOthers(seen, d, id, byId, related[id]);
    }
    DerivedGrows(seen, d);
    if d.target in direct || d.target !in byId {
      return;
    }
    var entry, score, reason := byId[d.target], Score(d), Reason(d);
    if d.target !in related {
      related' := related[d.target := Match(entry, score, [reason])];
      FirstIsBest(seen, d, byId);
      return;
    }
    var current := related[d.target];
    BestEntry(seen, d.target, byId, current);
    if score > current.score {
      related' := related[d.target := Match(current.entry, score, current.reasons + [reason])];
    } else if reason !in current.reasons {
      related' := related[d.target := Match(current.entry, current.score, current.reasons + [reason])];
    }
    BestForGrows(seen, d, byId, current, related'[d.target]);
  }

  lemma BestEntry(seen: set<Derivation>, id: string, byId: map<string, Entry>, m: Match)
    requires BestFor(seen, id, byId, m)
    ensures id in byId && m.entry == byId[id]
  {
  }

  lemma DerivedGrows(seen: set<Derivation>, d: Derivation)
    ensures forall id :: Derived(seen + {d}, id) <==> Derived(seen, id) || id == d.target
  {
    assert d in seen + {d};
    forall id | Derived(seen, id) ensures Derived(seen + {d}, id) {
      var x :| x in seen && x.target == id;
      assert x in seen + {d};
    }
  }

  lemma FirstIsBest(seen: set<Derivation>, d: Derivation, byId: map<string, Entry>)
    requires d.target in byId && !Derived(seen, d.target)
    ensures BestFor(seen + {d}, d.target, byId, Match(byId[d.target], Score(d), [Reason(d)]))
  {
    assert d in seen + {d};
  }

  method AddAll(related: map<string, Match>, byId: map<string, Entry>, direct: set<string>,
                refs: seq<Derivation>, ghost seen: set<Derivation>)
    returns (related': map<string, Match>, ghost seen': set<Derivation>)
    requires Best(seen, byId, direct, related)
    ensures Best(seen', byId, direct, related')
    ensures forall d :: d in seen' <==> d in seen || d in refs
  {
    hide Best;
    related', seen' := related, seen;
    for i := 0 to |refs|
      invariant Best(seen', byId, direct, related')
      invariant forall d :: d in seen' <==> d in seen || d in refs[..i]
    {
      related' := AddRelatedMatch(related', byId, direct, refs[i], seen');
      seen' := seen' + {refs[i]};
      assert refs[..i + 1] == refs[..i] + [refs[i]];
    }
    assert refs[..|refs|] == refs;
  }

  // ---------------------------------------------------------------- the expansion

  function EntryIds(s: seq<Match>): set<string> {
    set m | m in s :: m.entry.id
  }

  ghost predicate DistinctEntries(s: seq<Match>) {
    forall i, j :: 0 <= i < j < |s| ==> s[i].entry.id != s[j].entry.id
  }

  /** `{entry.id: entry for entry in entries}`. */
  function ById(entries: seq<Entry>): map<string, Entry> {
    if entries == [] then map[]
    else ById(entries[..|entries| - 1])[entries[|entries| - 1].id := entries[|entries| - 1]]
  }

  lemma {:induction false} ByIdIds(entries: seq<Entry>)
    ensures forall id :: id in ById(entries) ==> ById(entries)[id].id == id
  {
    if entries != [] {
      ByIdIds(entries[..|entries| - 1]);
    }
  }

  /** Exactly the ids of the entries are known, and the last entry with an id is the one that is found. */
  lemma {:induction false} LastEntryIsFound(entries: seq<Entry>, i: nat)
    requires i < |entries|
    ensures entries[i].id in ById(entries)
    ensures (forall j :: i < j < |entries| ==> entries[j].id != entries[i].id) ==>
              ById(entries)[entries[i].id] == entries[i]
    ensures forall id :: id in ById(entries) ==> ById(entries)[id] in entries
  {
    var before := entries[..|entries| - 1];
    assert forall e :: e in before ==> e in entries;
    if i < |before| {
      LastEntryIsFound(before, i);
    } else if before != [] {
      LastEntryIsFound(before, 0);
    }
  }

  ghost predicate Derivable(mem: Memory, matches: seq<Match>, d: Derivation) {
    d.source in matches && Derives(mem, d)
  }

  /** One entry of the related part: its place among the entries, its score and its reasons. */
  ghost predicate RelatedEntry(mem: Memory, matches: seq<Match>, m: Match) {
    && m.entry.id in ById(mem.eligible) && m.entry == ById(mem.eligible)[m.entry.id]
    && (exists d :: Derivable(mem, matches, d) && d.target == m.entry.id && Score(d) == m.score)
    && (forall d :: Derivable(mem, matches, d) && d.target == m.entry.id ==> Score(d) <= m.score)
    && (forall r :: r in m.reasons <==>
          exists d :: Derivable(mem, matches, d) && d.target == m.entry.id && Reason(d) == r)
  }

  /** The related part of a result, before it is cut: the eligible entries that are no direct match and have
      a derivation, each once, ranked, with the best score over all its derivations and all their reasons. */
  ghost predicate RelatedPart(mem: Memory, matches: seq<Match>, related: seq<Match>) {
    && Ranked(related) && DistinctEntries(related)
    && (forall id :: id in EntryIds(related) <==>
          && id !in EntryIds(matches) && id in ById(mem.eligible)
          && exists d :: Derivable(mem, matches, d) && d.target == id)
    && (forall m :: m in related ==> RelatedEntry(mem, matches, m))
  }

  method CollectRelated(mem: Memory, direct: seq<Match>)
    returns (related: map<string, Match>, ghost seen: set<Derivation>)
    ensures Best(seen, ById(mem.eligible), EntryIds(direct), related)
    ensures forall d :: d in seen <==> Derivable(mem, direct, d)
  {
    hide Best, Outgoing, Incoming, Transitive;
    var byId, directIds := ById(mem.eligible), EntryIds(direct);
    related, seen := map[], {};
    assert Best(seen, byId, directIds, related) by { NothingYet(byId, directIds); }
    for i := 0 to |direct|
      invariant Best(seen, byId, directIds, related)
      invariant forall d :: d in seen <==> Derivable(mem, direct[..i], d)
    {
      assert direct[..i + 1] == direct[..i] + [direct[i]];
      var outgoing := OutgoingRefs(mem, direct[i]);
      related, seen := AddAll(related, byId, directIds, outgoing, seen);
      var incoming := IncomingRefs(mem, direct[i]);
      related, seen := AddAll(related, byId, directIds, incoming, seen);
      var transitive := TransitiveRefs(mem, direct[i]);
      related, seen := AddAll(related, byId, directIds, transitive, seen);
    }
    assert direct[..|direct|] == direct;
  }

  lemma NothingYet(byId: map<string, Entry>, direct: set<string>)
    ensures Best({}, byId, direct, map[])
  {
  }

  method Values(related: map<string, Match>) returns (values: seq<Match>)
    requires forall id :: id in related ==> related[id].entry.id == id
    ensures DistinctEntries(values)
    ensures forall m :: m in values <==> m.entry.id in related && related[m.entry.id] == m
  {
    values := [];
    var rest := related.Keys;
    while rest != {}
      invariant rest <= related.Keys
      invariant DistinctEntries(values)
      invariant forall m :: m in values <==> m.entry.id in related.Keys - rest && related[m.entry.id] == m
    {
      var id :| id in rest;
      assert forall i :: 0 <= i < |values| ==> values[i] in values;
      values := values + [related[id]];
      rest := rest - {id};
    }
  }

  lemma {:induction false} InsertKeepsEntries(m: Match, s: seq<Match>)
    requires DistinctEntries(s) && m.entry.id !in EntryIds(s)
    ensures var r := Insert(m, s);
            && |r| == |s| + 1 && DistinctEntries(r)
            && (forall x :: x in r <==> x == m || x in s)
            && EntryIds(r) == EntryIds(s) + {m.entry.id}
  {
    if s != [] && Ahead(s[0], m) {
      assert s == [s[0]] + s[1..];
      assert EntryIds(s) == EntryIds(s[1..]) + {s[0].entry.id};
      assert s[0].entry.id !in EntryIds(s[1..]);
      InsertKeepsEntries(m, s[1..]);
      var r := Insert(m, s);
      assert r[1..] == Insert(m, s[1..]);
      forall j | 1 <= j < |r| ensures r[j].entry.id != s[0].entry.id {
        assert r[j] in r[1..];
      }
    } else {
      assert forall j :: 0 <= j < |s| ==> s[j] in s;
    }
  }

  lemma {:induction false} RankKeepsEntries(s: seq<Match>)
    requires DistinctEntries(s)
    ensures DistinctEntries(Rank(s)) && |Rank(s)| == |s|
    ensures EntryIds(Rank(s)) == EntryIds(s)
    ensures forall m :: m in Rank(s) <==> m in s
  {
    if s != [] {
      assert s == [s[0]] + s[1..];
      assert forall j :: 1 <= j < |s| ==> s[j].entry.id != s[0].entry.id;
      RankKeepsEntries(s[1..]);
      InsertKeepsEntries(s[0], Rank(s[1..]));
      assert EntryIds(s) == EntryIds(s[1..]) + {s[0].entry.id};
    }
  }

  /** The related part: everything collected for the direct matches, ranked. */
  method RankRelated(mem: Memory, matches: seq<Match>, direct: seq<Match>) returns (related: seq<Match>)
    requires (forall m :: m in direct <==> m in matches) && EntryIds(direct) == EntryIds(matches)
    ensures RelatedPart(mem, matches, related)
  {
    hide Best, Derivable, Ranked;
    var best, seen := CollectRelated(mem, direct);
    ByIdIds(mem.eligible);
    BestEntries(seen, ById(mem.eligible), EntryIds(direct), best);
    var values := Values(best);
    related := Rank(values);
    RankSorts(values);
    RankKeepsEntries(values);
    BestIsRelatedPart(mem, matches, direct, seen, best, related);
  }

  lemma BestEntries(seen: set<Derivation>, byId: map<string, Entry>, direct: set<string>, related: map<string, Match>)
    requires Best(seen, byId, direct, related) && forall id :: id in byId ==> byId[id].id == id
    ensures forall id :: id in related ==> related[id].entry.id == id
  {
  }

  /** The direct matches ranked, then the related ones ranked, cut at the limit. */
  method ExpandRelatedMatches(mem: Memory, matches: seq<Match>, limit: int)
    returns (r: seq<Match>, ghost related: seq<Match>)
    ensures |matches| >= limit ==> r == Slice(Rank(matches), limit)
    ensures |matches| < limit ==> RelatedPart(mem, matches, related) && r == Slice(Rank(matches) + related, limit)
    ensures limit >= 0 ==> |r| <= limit
    ensures DistinctEntries(matches) ==> DistinctEntries(r)
  {
    hide Ranked;
    var direct := Rank(matches);
    related := [];
    RankSorts(matches);
    SameMembers(direct, matches);
    assert |direct| == |multiset(direct)| == |matches|;
    if DistinctEntries(matches) {
      RankKeepsEntries(matches);
    }
    if |direct| >= limit {
      return Slice(direct, limit), related;
    }
    var expanded := RankRelated(mem, matches, direct);
    related := expanded;
    RelatedIsApart(mem, matches, related);
    DistinctTogether(direct, related);
    hide RelatedPart;
    r := Slice(direct + expanded, limit);
  }

  lemma RelatedIsApart(mem: Memory, matches: seq<Match>, related: seq<Match>)
    requires RelatedPart(mem, matches, related)
    ensures EntryIds(matches) !! EntryIds(related) && DistinctEntries(related)
  {
  }

  lemma SameMembers(a: seq<Match>, b: seq<Match>)
    requires multiset(a) == multiset(b)
    ensures forall m :: m in a <==> m in b
    ensures EntryIds(a) == EntryIds(b)
  {
    forall m ensures m in a <==> m in b {
      assert m in multiset(a) <==> m in multiset(b);
    }
  }

  lemma DistinctTogether(a: seq<Match>, b: seq<Match>)
    requires EntryIds(a) !! EntryIds(b)
    ensures DistinctEntries(a) && DistinctEntries(b) ==> DistinctEntries(a + b)
  {
    assert forall i :: 0 <= i < |a| ==> a[i] in a;
    assert forall i :: 0 <= i < |b| ==> b[i] in b;
    forall i, j | 0 <= i < |a| && 0 <= j < |b| ensures a[i].entry.id != b[j].entry.id {
      assert a[i].entry.id in EntryIds(a) && b[j].entry.id in EntryIds(b);
    }
  }

  lemma BestIsRelatedEntry(mem: Memory, matches: seq<Match>, seen: set<Derivation>, m: Match)
    requires BestFor(seen, m.entry.id, ById(mem.eligible), m)
    requires forall d :: d in seen <==> Derivable(mem, matches, d)
    ensures RelatedEntry(mem, matches, m)
  {
    hide Derivable;
  }

  lemma BestIsRelatedPart(mem: Memory, matches: seq<Match>, direct: seq<Match>, seen: set<Derivation>,
                          best: map<string, Match>, related: seq<Match>)
    requires (forall m :: m in direct <==> m in matches) && EntryIds(direct) == EntryIds(matches)
    requires Best(seen, ById(mem.eligible), EntryIds(direct), best)
    requires forall d :: d in seen <==> Derivable(mem, direct, d)
    requires forall id :: id in best ==> best[id].entry.id == id
    requires Ranked(related) && DistinctEntries(related)
    requires forall m :: m in related <==> m.entry.id in best && best[m.entry.id] == m
    ensures RelatedPart(mem, matches, related)
  {
    assert forall d :: d in seen <==> Derivable(mem, matches, d);
    hide Derivable, Ranked, DistinctEntries, BestFor, RelatedEntry;
    forall m | m in related ensures RelatedEntry(mem, matches, m) {
      BestIsRelatedEntry(mem, matches, seen, m);
    }
    forall id ensures id in EntryIds(related) <==> id in best {
      assert id in best ==> best[id] in related;
    }
  }

  // ---------------------------------------------------------------- what scores and reasons say

  /** Why `target` is added for the direct match `source`, told by the fields: the entry of the match names it
      along the relation, an eligible entry with that id names the entry of the match, or the closure of a
      transitive relation reaches it indirectly. `off` is what that takes from the score of the match. */
  ghost predicate Because(mem: Memory, source: Match, d: Descriptor, target: string, off: real, reason: string) {
    var id, relations := source.entry.id, source.entry.relations;
    var penalty := if d.retrievalRule == "include_both_current_and_superseded" then 0.5 else 0.75;
    var named := d.sourceField in relations && target in relations[d.sourceField];
    && d in mem.registry
    && (|| (named && off == penalty && reason == d.name + ":" + id)
        || (&& target != id && off == penalty
            && (exists e :: e in mem.eligible && e.id == target
                            && d.sourceField in e.relations && id in e.relations[d.sourceField])
            && (if d.inverse.Some? && d.inverse.value != "" then reason == d.inverse.value + ":" + id
                else reason == d.name + ":" + id))
        || (&& d.transitive && target != id && !named && target in mem.closure(id, d.name)
            && off == penalty + 0.25 && reason == d.name + "_closure" + ":" + id))
  }

  lemma BecauseIsDerived(mem: Memory, source: Match, d: Descriptor, target: string, off: real, reason: string)
    ensures Because(mem, source, d, target, off, reason) <==>
              exists x :: Derives(mem, x) && x.source == source && x.descriptor == d && x.target == target
                          && Penalty(d) + x.extra == off && Reason(x) == reason
  {
    if Because(mem, source, d, target, off, reason) {
      var direct := Derivation(source, target, d, d.name, 0.0);
      var inverse := Derivation(source, target, d, InverseName(d), 0.0);
      var closure := Derivation(source, target, d, d.name + "_closure", CLOSURE_PENALTY);
      assert Transitive(mem, closure) || Outgoing(mem, direct) || Incoming(mem, inverse);
      assert Derives(mem, direct) || Derives(mem, inverse) || Derives(mem, closure);
    }
  }

  lemma DerivationIsBecause(mem: Memory, matches: seq<Match>, x: Derivation)
    requires Derivable(mem, matches, x)
    ensures x.source in matches
    ensures Because(mem, x.source, x.descriptor, x.target, Penalty(x.descriptor) + x.extra, Reason(x))
  {
    BecauseIsDerived(mem, x.source, x.descriptor, x.target, Penalty(x.descriptor) + x.extra, Reason(x));
  }

  lemma BecauseIsDerivable(mem: Memory, matches: seq<Match>, source: Match, d: Descriptor, target: string, off: real,
                           reason: string) returns (x: Derivation)
    requires source in matches && Because(mem, source, d, target, off, reason)
    ensures Derivable(mem, matches, x) && x.source == source && x.target == target
    ensures x.source.score - Penalty(x.descriptor) - x.extra == source.score - off && Reason(x) == reason
  {
    BecauseIsDerived(mem, source, d, target, off, reason);
    x :| Derives(mem, x) && x.source == source && x.descriptor == d && x.target == target
         && Penalty(d) + x.extra == off && Reason(x) == reason;
  }

  /** The related part, told by the fields. Its entries are added for exactly the reasons that hold. A score
      is the best that a reason gives, the score of its match less the penalty, but never below 0.1. */
  lemma RelatedIsExplained(mem: Memory, matches: seq<Match>, related: seq<Match>, m: Match)
    requires RelatedPart(mem, matches, related) && m in related
    ensures forall r :: r in m.reasons <==>
              exists s, d, off :: s in matches && Because(mem, s, d, m.entry.id, off, r)
    ensures forall s, d, off, r :: s in matches && Because(mem, s, d, m.entry.id, off, r) ==> m.score >= s.score - off
    ensures m.score >= 0.1
    ensures exists s, d, off, r :: && s in matches && Because(mem, s, d, m.entry.id, off, r)
                                   && m.score == if s.score - off >= 0.1 then s.score - off else 0.1
  {
    assert RelatedEntry(mem, matches, m);
    hide RelatedPart, Derivable, Because, Penalty, Reason;
    var id := m.entry.id;
    forall r ensures r in m.reasons <==> exists s, d, off :: s in matches && Because(mem, s, d, id, off, r) {
      if r in m.reasons {
        var x :| Derivable(mem, matches, x) && x.target == id && Reason(x) == r;
        DerivationIsBecause(mem, matches, x);
      }
      if s, d, off :| s in matches && Because(mem, s, d, id, off, r) {
        var x := BecauseIsDerivable(mem, matches, s, d, id, off, r);
      }
    }
    forall s, d, off, r | s in matches && Because(mem, s, d, id, off, r) ensures m.score >= s.score - off {
      var x := BecauseIsDerivable(mem, matches, s, d, id, off, r);
      assert Score(x) <= m.score;
    }
    var x :| Derivable(mem, matches, x) && x.target == id && Score(x) == m.score;
    DerivationIsBecause(mem, matches, x);
  }

  /** Who is in the related part: the eligible entries that are no direct match and are there for a reason. */
  lemma RelatedAreThoseWithAReason(mem: Memory, matches: seq<Match>, related: seq<Match>, id: string)
    requires RelatedPart(mem, matches, related)
    ensures (exists m :: m in related && m.entry.id == id) <==>
              && (forall m :: m in matches ==> m.entry.id != id) && (exists e :: e in mem.eligible && e.id == id)
              && exists s, d, off, r :: s in matches && Because(mem, s, d, id, off, r)
  {
    assert id in EntryIds(related) <==> exists m :: m in related && m.entry.id == id;
    assert id in EntryIds(matches) <==> exists m :: m in matches && m.entry.id == id;
    ByIdIds(mem.eligible);
    if mem.eligible != [] {
      LastEntryIsFound(mem.eligible, 0);
    }
    if e :| e in mem.eligible && e.id == id {
      var i :| 0 <= i < |mem.eligible| && mem.eligible[i] == e;
      LastEntryIsFound(mem.eligible, i);
    }
    hide Derivable, Because, Penalty, Reason, ById;
    if s, d, off, r :| s in matches && Because(mem, s, d, id, off, r) {
      var x := BecauseIsDerivable(mem, matches, s, d, id, off, r);
    }
    if x :| Derivable(mem, matches, x) && x.target == id {
      DerivationIsBecause(mem, matches, x);
    }
  }

  /** A related entry never scores as high as the match it owes its score to, unless that one scores 0.1 or
      less: it is at least 0.5 below, or at the least score that there is. */
  lemma RelatedStaysBelow(mem: Memory, matches: seq<Match>, related: seq<Match>, m: Match)
    requires RelatedPart(mem, matches, related) && m in related
    ensures m.score >= 0.1
    ensures m.score == 0.1 || exists s :: s in matches && m.score <= s.score - 0.5
    ensures (forall s :: s in matches ==> s.score > 0.1) ==> exists s :: s in matches && m.score < s.score
  {
    RelatedIsExplained(mem, matches, related, m);
    var s, d, off, r :| s in matches && Because(mem, s, d, m.entry.id, off, r)
                        && m.score == if s.score - off >= 0.1 then s.score - off else 0.1;
    assert off >= 0.5;
  }

  // ---------------------------------------------------------------- the order of derivations is irrelevant

  /** What a ranking says about an entry, apart from the order in which reasons were noted. */
  function Standing(m: Match): (Entry, real) {
    (m.entry, m.score)
  }

  ghost predicate Lists(s: seq<Match>, standing: (Entry, real)) {
    exists j :: 0 <= j < |s| && Standing(s[j]) == standing
  }

  /** Two rankings of the same entries with the same scores list them in the same order. */
  lemma {:induction false} RankingIsDetermined(a: seq<Match>, b: seq<Match>)
    requires Ranked(a) && Ranked(b) && DistinctEntries(a) && DistinctEntries(b)
    requires forall i :: 0 <= i < |a| ==> Lists(b, Standing(a[i]))
    requires forall j :: 0 <= j < |b| ==> Lists(a, Standing(b[j]))
    ensures |a| == |b| && forall i :: 0 <= i < |a| ==> Standing(a[i]) == Standing(b[i])
  {
    NonemptyTogether(a, b);
    NonemptyTogether(b, a);
    if a != [] {
      SameLeader(a, b);
      SameRest(a, b);
      SameRest(b, a);
      RankingIsDetermined(a[1..], b[1..]);
    }
  }

  lemma NonemptyTogether(a: seq<Match>, b: seq<Match>)
    requires forall i :: 0 <= i < |a| ==> Lists(b, Standing(a[i]))
    ensures a != [] ==> b != []
  {
    if a != [] {
      assert Lists(b, Standing(a[0]));
    }
  }

  lemma SameLeader(a: seq<Match>, b: seq<Match>)
    requires Ranked(a) && Ranked(b) && a != [] && b != [] && DistinctEntries(b)
    requires Lists(b, Standing(a[0])) && Lists(a, Standing(b[0]))
    ensures Standing(a[0]) == Standing(b[0])
  {
    var k :| 0 <= k < |b| && Standing(b[k]) == Standing(a[0]);
    var l :| 0 <= l < |a| && Standing(a[l]) == Standing(b[0]);
    AheadTrichotomy(a[0], b[0]);
    AheadTrichotomy(a[0], a[0]);
    AheadTrichotomy(b[0], b[0]);
    assert !Ahead(a[l], a[0]) && !Ahead(b[k], b[0]);
    assert b[k].entry.id == b[0].entry.id;
  }

  lemma SameRest(a: seq<Match>, b: seq<Match>)
    requires DistinctEntries(a) && a != [] && b != [] && Standing(a[0]) == Standing(b[0])
    requires forall i :: 0 <= i < |a| ==> Lists(b, Standing(a[i]))
    ensures forall i :: 0 <= i < |a[1..]| ==> Lists(b[1..], Standing(a[1..][i]))
  {
    forall i | 0 <= i < |a[1..]| ensures Lists(b[1..], Standing(a[1..][i])) {
      assert Lists(b, Standing(a[i + 1]));
      var j :| 0 <= j < |b| && Standing(b[j]) == Standing(a[i + 1]);
      assert j > 0 && b[1..][j - 1] == b[j];
    }
  }

  /** Whatever order the derivations are processed in, the related part lists the same entries with the
      same scores in the same order, and each entry gathers the same reasons. */
  lemma ExpansionIsDetermined(mem: Memory, matches: seq<Match>, a: seq<Match>, b: seq<Match>)
    requires RelatedPart(mem, matches, a) && RelatedPart(mem, matches, b)
    ensures |a| == |b|
    ensures forall i :: 0 <= i < |a| ==> Standing(a[i]) == Standing(b[i])
    ensures forall i, r :: 0 <= i < |a| ==> (r in a[i].reasons <==> r in b[i].reasons)
  {
    SameStandings(mem, matches, a, b);
    SameStandings(mem, matches, b, a);
    RankingIsDetermined(a, b);
    forall i, r | 0 <= i < |a| ensures r in a[i].reasons <==> r in b[i].reasons {
      assert a[i] in a && b[i] in b && Standing(a[i]) == Standing(b[i]);
    }
  }

  lemma SameStandings(mem: Memory, matches: seq<Match>, a: seq<Match>, b: seq<Match>)
    requires RelatedPart(mem, matches, a) && RelatedPart(mem, matches, b)
    ensures forall i :: 0 <= i < |a| ==> Lists(b, Standing(a[i]))
  {
    hide Derivable, Ranked;
    forall i | 0 <= i < |a| ensures Lists(b, Standing(a[i])) {
      assert a[i] in a && a[i].entry.id in EntryIds(a);
      var m :| m in b && m.entry.id == a[i].entry.id;
      var j :| 0 <= j < |b| && b[j] == m;
      var d :| Derivable(mem, matches, d) && d.target == m.entry.id && Score(d) == a[i].score;
      var e :| Derivable(mem, matches, e) && e.target == m.entry.id && Score(e) == m.score;
      assert Score(d) <= m.score && Score(e) <= a[i].score;
      assert Standing(b[j]) == Standing(a[i]);
    }
  }
}
