/**
 * The symbolic memory graph: shortest paths, bounded neighbourhoods and transitive closures,
 * three breadth-first searches over an adjacency built from an edge list.
 *
 * An edge may name ids that have no node. Such ids are traversed like any other and are only
 * filtered out when the node part of a result is assembled.
 */
module MemoryGraph {
  import opened Wrappers
  import opened Ordering

  type Id = string

  datatype Node = Node(id: Id, kind: string, text: string)

  datatype Edge = Edge(id: string, relation: string, source: Id, target: Id, confidence: real)

  /** Which edges are followed, and which of them may also be followed backwards.
      `symmetric` holds the relations whose registered descriptor is symmetric. */
  datatype Traversal = Traversal(relation: Option<string>, bidirectional: bool, symmetric: set<string>) {
    predicate Uses(e: Edge) {
      relation.None? || relation.value == e.relation
    }

    predicate Reverses(e: Edge) {
      bidirectional || e.relation in symmetric
    }
  }

  const ANY_DIRECTION := Traversal(None, true, {})

  type Adjacency = map<Id, seq<(Id, Edge)>>

  datatype SearchResult = SearchResult(nodes: seq<Node>, edges: seq<Edge>)

  function Front(s: seq<Edge>): seq<Edge>
    requires s != []
  {
    s[..|s| - 1]
  }

  function Last(s: seq<Edge>): Edge
    requires s != []
  {
    s[|s| - 1]
  }

  // ---------------------------------------------------------------- adjacency

  function Neighbours(adj: Adjacency, n: Id): seq<(Id, Edge)> {
    if n in adj then adj[n] else []
  }

  function Append(adj: Adjacency, n: Id, m: Id, e: Edge): Adjacency {
    adj[n := Neighbours(adj, n) + [(m, e)]]
  }

  function Link(adj: Adjacency, t: Traversal, e: Edge): Adjacency {
    if !t.Uses(e) then adj
    else
      var forward := Append(adj, e.source, e.target, e);
      if t.Reverses(e) then Append(forward, e.target, e.source, e) else forward
  }

  function AdjacencyOf(edges: seq<Edge>, t: Traversal): Adjacency {
    if edges == [] then map[] else Link(AdjacencyOf(Front(edges), t), t, Last(edges))
  }

  method BuildAdjacency(edges: seq<Edge>, t: Traversal) returns (adj: Adjacency)
    ensures adj == AdjacencyOf(edges, t)
  {
    adj := map[];
    for i := 0 to |edges|
      invariant adj == AdjacencyOf(edges[..i], t)
    {
      var e := edges[i];
      assert edges[..i + 1][..i] == edges[..i];
      if !t.Uses(e) {
        continue;
      }
      adj := Append(adj, e.source, e.target, e);
      if t.Reverses(e) {
        adj := Append(adj, e.target, e.source, e);
      }
    }
    assert edges[..|edges|] == edges;
  }

  /** Edge `e` of the list can be followed from `n` to `m`. */
  ghost predicate Arc(edges: seq<Edge>, t: Traversal, n: Id, m: Id, e: Edge) {
    && e in edges
    && t.Uses(e)
    && ((e.source == n && e.target == m) || (t.Reverses(e) && e.target == n && e.source == m))
  }

  lemma AppendAdds(adj: Adjacency, n: Id, m: Id, e: Edge, x: Id, y: Id, f: Edge)
    ensures (y, f) in Neighbours(Append(adj, n, m, e), x)
        <==> (y, f) in Neighbours(adj, x) || (x == n && (y, f) == (m, e))
  {
  }

  /** The adjacency lists hold exactly the arcs, and no id is a key without one. */
  lemma {:induction false} AdjacencyHoldsArcs(edges: seq<Edge>, t: Traversal)
    ensures forall n, m, e :: (m, e) in Neighbours(AdjacencyOf(edges, t), n) <==> Arc(edges, t, n, m, e)
    ensures forall n :: n in AdjacencyOf(edges, t) ==> AdjacencyOf(edges, t)[n] != []
  {
    if edges != [] {
      AdjacencyHoldsArcs(Front(edges), t);
      forall n, m, e
        ensures (m, e) in Neighbours(AdjacencyOf(edges, t), n) <==> Arc(edges, t, n, m, e)
      {
        LinkAddsArcs(AdjacencyOf(Front(edges), t), t, Last(edges), n, m, e);
        assert e in edges <==> e in Front(edges) || e == Last(edges);
      }
    }
  }

  lemma LinkAddsArcs(adj: Adjacency, t: Traversal, last: Edge, n: Id, m: Id, e: Edge)
    ensures (m, e) in Neighbours(Link(adj, t, last), n)
        <==> (m, e) in Neighbours(adj, n) || Arc([last], t, n, m, e)
  {
    var forward := Append(adj, last.source, last.target, last);
    AppendAdds(adj, last.source, last.target, last, n, m, e);
    AppendAdds(forward, last.target, last.source, last, n, m, e);
  }

  // ---------------------------------------------------------------- walks and distance

  /** `p` lists the edges of a walk from `a` to `b`. */
  ghost predicate Walk(edges: seq<Edge>, t: Traversal, a: Id, p: seq<Edge>, b: Id)
    decreases |p|
  {
    if p == [] then a == b
    else exists m :: Arc(edges, t, m, b, Last(p)) && Walk(edges, t, a, Front(p), m)
  }

  ghost predicate Reachable(edges: seq<Edge>, t: Traversal, a: Id, b: Id) {
    exists p :: Walk(edges, t, a, p, b)
  }

  lemma WalkExtend(edges: seq<Edge>, t: Traversal, a: Id, p: seq<Edge>, m: Id, e: Edge, b: Id)
    requires Walk(edges, t, a, p, m) && Arc(edges, t, m, b, e)
    ensures Walk(edges, t, a, p + [e], b)
  {
    assert Front(p + [e]) == p;
  }

  /** `x` is at most `k` arcs away from one of the roots. */
  ghost predicate Within(edges: seq<Edge>, t: Traversal, roots: set<Id>, k: nat, x: Id)
    decreases k
  {
    if k == 0 then
      x in roots
    else
      || Within(edges, t, roots, k - 1, x)
      || exists n, e :: Within(edges, t, roots, k - 1, n) && Arc(edges, t, n, x, e)
  }

  lemma {:induction false} WithinMonotone(edges: seq<Edge>, t: Traversal, roots: set<Id>, j: nat, k: nat, x: Id)
    requires j <= k && Within(edges, t, roots, j, x)
    ensures Within(edges, t, roots, k, x)
    decreases k
  {
    if j < k {
      WithinMonotone(edges, t, roots, j, k - 1, x);
    }
  }

  lemma {:induction false} WalkWithin(
      edges: seq<Edge>, t: Traversal, roots: set<Id>, a: Id, p: seq<Edge>, x: Id)
    requires a in roots && Walk(edges, t, a, p, x)
    ensures Within(edges, t, roots, |p|, x)
    decreases |p|
  {
    if p != [] {
      var m :| Arc(edges, t, m, x, Last(p)) && Walk(edges, t, a, Front(p), m);
      WalkWithin(edges, t, roots, a, Front(p), m);
    }
  }

  lemma {:induction false} WithinHasWalk(edges: seq<Edge>, t: Traversal, roots: set<Id>, k: nat, x: Id)
    returns (a: Id, p: seq<Edge>)
    requires Within(edges, t, roots, k, x)
    ensures a in roots && |p| <= k && Walk(edges, t, a, p, x)
    decreases k
  {
    if k == 0 {
      return x, [];
    } else if Within(edges, t, roots, k - 1, x) {
      a, p := WithinHasWalk(edges, t, roots, k - 1, x);
    } else {
      var n, e :| Within(edges, t, roots, k - 1, n) && Arc(edges, t, n, x, e);
      a, p := WithinHasWalk(edges, t, roots, k - 1, n);
      WalkExtend(edges, t, a, p, n, e, x);
      p := p + [e];
    }
  }

  /** Distance, stated by levels, is the length of the shortest walk. */
  lemma WithinIffWalk(edges: seq<Edge>, t: Traversal, roots: set<Id>, k: nat, x: Id)
    ensures Within(edges, t, roots, k, x)
        <==> exists a, p :: a in roots && |p| <= k && Walk(edges, t, a, p, x)
  {
    if Within(edges, t, roots, k, x) {
      var a, p := WithinHasWalk(edges, t, roots, k, x);
    }
    forall a, p | a in roots && |p| <= k && Walk(edges, t, a, p, x)
      ensures Within(edges, t, roots, k, x)
    {
      WalkWithin(edges, t, roots, a, p, x);
      WithinMonotone(edges, t, roots, |p|, k, x);
    }
  }

  ghost predicate Closed(edges: seq<Edge>, t: Traversal, s: set<Id>) {
    forall n, m, e :: n in s && Arc(edges, t, n, m, e) ==> m in s
  }

  lemma {:induction false} ClosedContainsWithin(
      edges: seq<Edge>, t: Traversal, roots: set<Id>, k: nat, x: Id, s: set<Id>)
    requires roots <= s && Closed(edges, t, s) && Within(edges, t, roots, k, x)
    ensures x in s
    decreases k
  {
    if k > 0 && !Within(edges, t, roots, k - 1, x) {
      var n, e :| Within(edges, t, roots, k - 1, n) && Arc(edges, t, n, x, e);
      ClosedContainsWithin(edges, t, roots, k - 1, n, s);
    } else if k > 0 {
      ClosedContainsWithin(edges, t, roots, k - 1, x, s);
    }
  }

  /** Every id that an edge mentions: the search space that makes the searches terminate. */
  ghost function Endpoints(edges: seq<Edge>): set<Id> {
    (set e | e in edges :: e.source) + (set e | e in edges :: e.target)
  }

  // ---------------------------------------------------------------- find_path

  type Queue = seq<(Id, seq<Edge>)>

  /** Each queued path is a shortest walk to its id; the queue spans the current level and the next
      one, in order; and everything within the current level of the start has been visited. */
  ghost predicate Frontier(edges: seq<Edge>, from: Id, level: nat, queue: Queue, visited: set<Id>) {
    && from in visited && visited <= {from} + Endpoints(edges)
    && (forall i :: 0 <= i < |queue| ==> ShortestEntry(edges, from, queue[i].1, queue[i].0, visited))
    && (forall i :: 0 <= i < |queue| ==> level <= |queue[i].1| <= level + 1)
    && (forall i, j :: 0 <= i < j < |queue| ==> |queue[i].1| <= |queue[j].1|)
    && forall x :: Within(edges, ANY_DIRECTION, {from}, level, x) ==> x in visited
  }

  ghost predicate ShortestEntry(edges: seq<Edge>, from: Id, path: seq<Edge>, x: Id, visited: set<Id>) {
    && x in visited
    && Walk(edges, ANY_DIRECTION, from, path, x)
    && (path != [] ==> !Within(edges, ANY_DIRECTION, {from}, |path| - 1, x))
  }

  ghost predicate Queued(queue: Queue, x: Id) {
    exists i :: 0 <= i < |queue| && queue[i].0 == x
  }

  ghost predicate Expanded(edges: seq<Edge>, done: set<Id>, visited: set<Id>) {
    forall n, m, e :: n in done && Arc(edges, ANY_DIRECTION, n, m, e) ==> m in visited
  }

  lemma Enqueue(edges: seq<Edge>, from: Id, level: nat, queue: Queue, visited: set<Id>,
                current: Id, walked: seq<Edge>, m: Id, e: Edge)
    requires Frontier(edges, from, level, queue, visited)
    requires Walk(edges, ANY_DIRECTION, from, walked, current) && |walked| == level
    requires Arc(edges, ANY_DIRECTION, current, m, e) && m !in visited
    ensures Frontier(edges, from, level, queue + [(m, walked + [e])], visited + {m})
  {
    WalkExtend(edges, ANY_DIRECTION, from, walked, current, e, m);
    assert m in Endpoints(edges);
    var longer := queue + [(m, walked + [e])];
    forall i | 0 <= i < |longer|
      ensures ShortestEntry(edges, from, longer[i].1, longer[i].0, visited + {m})
    {
      if i < |queue| {
        assert ShortestEntry(edges, from, queue[i].1, queue[i].0, visited);
      }
    }
  }

  /** Once the queue only holds the next level, that level has been discovered completely. */
  lemma NextLevel(edges: seq<Edge>, from: Id, level: nat, queue: Queue, done: set<Id>, visited: set<Id>)
    requires Frontier(edges, from, level, queue, visited) && Expanded(edges, done, visited)
    requires forall x :: x in visited && x !in done ==> Queued(queue, x)
    requires queue != [] && |queue[0].1| == level + 1
    ensures Frontier(edges, from, level + 1, queue, visited)
  {
    forall x | Within(edges, ANY_DIRECTION, {from}, level + 1, x)
      ensures x in visited
    {
      if !Within(edges, ANY_DIRECTION, {from}, level, x) {
        var n, e :| Within(edges, ANY_DIRECTION, {from}, level, n) && Arc(edges, ANY_DIRECTION, n, x, e);
        forall i | 0 <= i < |queue| ensures queue[i].0 != n {
          assert ShortestEntry(edges, from, queue[i].1, queue[i].0, visited);
        }
      }
    }
  }

  /** The head of the queue is settled: what is left of the queue is still a frontier. */
  lemma Dequeue(edges: seq<Edge>, from: Id, level: nat, queue: Queue, visited: set<Id>, done: set<Id>)
    requires Frontier(edges, from, level, queue, visited) && queue != []
    requires forall x :: x in visited && x !in done ==> Queued(queue, x)
    ensures ShortestEntry(edges, from, queue[0].1, queue[0].0, visited)
    ensures Frontier(edges, from, level, queue[1..], visited)
    ensures forall x :: x in visited && x !in done + {queue[0].0} ==> Queued(queue[1..], x)
  {
    forall x | Queued(queue, x) && x != queue[0].0 ensures Queued(queue[1..], x) {
      var j :| 0 <= j < |queue| && queue[j].0 == x;
      assert queue[1..][j - 1].0 == x;
    }
  }

  lemma EntryIsShortest(edges: seq<Edge>, from: Id, path: seq<Edge>, to: Id, visited: set<Id>)
    requires ShortestEntry(edges, from, path, to, visited)
    ensures path == [] <==> from == to
    ensures Reachable(edges, ANY_DIRECTION, from, to)
    ensures forall p :: Walk(edges, ANY_DIRECTION, from, p, to) ==> |path| <= |p|
  {
    if path != [] {
      WithinIffWalk(edges, ANY_DIRECTION, {from}, |path| - 1, to);
      if from == to {
        assert Walk(edges, ANY_DIRECTION, from, [], to);
      }
    }
  }

  lemma ClosedUnreachable(edges: seq<Edge>, t: Traversal, from: Id, to: Id, s: set<Id>)
    requires from in s && to !in s && Closed(edges, t, s)
    ensures !Reachable(edges, t, from, to)
  {
    forall p | Walk(edges, t, from, p, to) ensures false {
      WithinIffWalk(edges, t, {from}, |p|, to);
      ClosedContainsWithin(edges, t, {from}, |p|, to, s);
    }
  }

  /** The state of the search between two iterations: ids in `done` are expanded and are not `to`,
      every other visited id waits in the queue, and the head of the queue is at `level`. */
  ghost predicate Searching(edges: seq<Edge>, from: Id, to: Id, level: nat, queue: Queue, visited: set<Id>,
                            done: set<Id>) {
    && Frontier(edges, from, level, queue, visited)
    && (queue != [] ==> |queue[0].1| == level)
    && (forall x :: x in visited && x !in done ==> Queued(queue, x))
    && to !in done
    && Expanded(edges, done, visited)
  }

  lemma StartSearch(edges: seq<Edge>, from: Id, to: Id)
    ensures Searching(edges, from, to, 0, [(from, [])], {from}, {})
  {
    var queue: Queue := [(from, [])];
    assert queue[0].0 == from;
  }

  lemma SearchExhausted(edges: seq<Edge>, from: Id, to: Id, level: nat, visited: set<Id>, done: set<Id>)
    requires Searching(edges, from, to, level, [], visited, done)
    ensures !Reachable(edges, ANY_DIRECTION, from, to)
  {
    forall x | x in visited ensures x in done {
      assert !Queued([], x);
    }
    ClosedUnreachable(edges, ANY_DIRECTION, from, to, visited);
  }

  /** After an expansion the search is between two iterations again, at this level or the next. */
  lemma ChooseLevel(edges: seq<Edge>, from: Id, to: Id, level: nat, queue: Queue, visited: set<Id>, done: set<Id>)
    returns (level': nat)
    requires Frontier(edges, from, level, queue, visited) && Expanded(edges, done, visited) && to !in done
    requires forall x :: x in visited && x !in done ==> Queued(queue, x)
    ensures Searching(edges, from, to, level', queue, visited, done)
  {
    level' := level;
    if queue != [] && |queue[0].1| != level {
      NextLevel(edges, from, level, queue, done, visited);
      level' := level + 1;
    }
  }

  /** The inner loop of the search: queue every neighbour seen for the first time. */
  method EnqueueNeighbours(edges: seq<Edge>, from: Id, current: Id, walked: seq<Edge>, next: seq<(Id, Edge)>,
                           ghost level: nat, ghost done: set<Id>, rest: Queue, found: set<Id>)
    returns (queue: Queue, visited: set<Id>)
    requires Frontier(edges, from, level, rest, found)
    requires Walk(edges, ANY_DIRECTION, from, walked, current) && |walked| == level
    requires forall m, e :: (m, e) in next <==> Arc(edges, ANY_DIRECTION, current, m, e)
    requires forall x :: x in found && x !in done ==> Queued(rest, x)
    ensures Frontier(edges, from, level, queue, visited)
    ensures forall x :: x in visited && x !in done ==> Queued(queue, x)
    ensures Expanded(edges, {current}, visited) && visited <= {from} + Endpoints(edges)
    ensures found <= visited && (visited == found ==> queue == rest)
  {
    queue, visited := rest, found;
    for i := 0 to |next|
      invariant Frontier(edges, from, level, queue, visited)
      invariant forall x :: x in visited && x !in done ==> Queued(queue, x)
      invariant visited == found + set p | p in next[..i] :: p.0
      invariant found <= visited && (visited == found ==> queue == rest)
    {
      var (neighbour, edge) := next[i];
      assert (neighbour, edge) in next;
      assert next[..i + 1] == next[..i] + [(neighbour, edge)];
      if neighbour !in visited {
        Enqueue(edges, from, level, queue, visited, current, walked, neighbour, edge);
        ghost var shorter := queue;
        visited := visited + {neighbour};
        queue := queue + [(neighbour, walked + [edge])];
        assert queue[|queue| - 1].0 == neighbour;
        forall x | Queued(shorter, x) ensures Queued(queue, x) {
          var j :| 0 <= j < |shorter| && shorter[j].0 == x;
          assert queue[j].0 == x;
        }
      }
    }
    assert next[..|next|] == next;
  }

  /** One iteration for a head that is not the target: expand it and raise the level if it was the last of its own. */
  method ExpandHead(edges: seq<Edge>, from: Id, to: Id, adjacency: Adjacency, queue: Queue, visited: set<Id>,
                    ghost level: nat, ghost done: set<Id>)
    returns (queue': Queue, visited': set<Id>, ghost level': nat, ghost done': set<Id>)
    requires adjacency == AdjacencyOf(edges, ANY_DIRECTION)
    requires Searching(edges, from, to, level, queue, visited, done)
    requires queue != [] && queue[0].0 != to
    ensures Searching(edges, from, to, level', queue', visited', done')
    ensures visited <= visited' <= {from} + Endpoints(edges)
    ensures visited' == visited ==> |queue'| < |queue|
  {
    AdjacencyHoldsArcs(edges, ANY_DIRECTION);
    Dequeue(edges, from, level, queue, visited, done);
    var (current, walked) := queue[0];
    done' := done + {current};
    queue', visited' := EnqueueNeighbours(
      edges, from, current, walked, Neighbours(adjacency, current), level, done', queue[1..], visited);
    level' := ChooseLevel(edges, from, to, level, queue', visited', done');
  }

  /** A walk with the fewest edges, or the empty list when there is nothing to report. */
  method FindPath(edges: seq<Edge>, from: Id, to: Id) returns (path: seq<Edge>)
    ensures path == [] <==> from == to || !Reachable(edges, ANY_DIRECTION, from, to)
    ensures path != [] ==> Walk(edges, ANY_DIRECTION, from, path, to)
    ensures path != [] ==> forall p :: Walk(edges, ANY_DIRECTION, from, p, to) ==> |path| <= |p|
  {
    var adjacency := BuildAdjacency(edges, ANY_DIRECTION);
    if from !in adjacency {
      if from != to {
        AdjacencyHoldsArcs(edges, ANY_DIRECTION);
        assert Neighbours(adjacency, from) == [];
        ClosedUnreachable(edges, ANY_DIRECTION, from, to, {from});
      }
      return [];
    }
    var queue: Queue, visited := [(from, [])], {from};
    ghost var done: set<Id>, level := {}, 0;
    StartSearch(edges, from, to);
    while queue != []
      invariant Searching(edges, from, to, level, queue, visited, done)
      decreases {from} + Endpoints(edges) - visited, |queue|
    {
      if queue[0].0 == to {
        Dequeue(edges, from, level, queue, visited, done);
        EntryIsShortest(edges, from, queue[0].1, to, visited);
        return queue[0].1;
      }
      queue, visited, level, done := ExpandHead(edges, from, to, adjacency, queue, visited, level, done);
    }
    SearchExhausted(edges, from, to, level, visited, done);
    return [];
  }

  // ---------------------------------------------------------------- level-by-level expansion

  function EdgeIds(s: seq<Edge>): set<string> {
    set e | e in s :: e.id
  }

  ghost predicate DistinctIds(s: seq<Edge>) {
    forall i, j :: 0 <= i < j < |s| ==> s[i].id != s[j].id
  }

  ghost predicate Leads(edges: seq<Edge>, t: Traversal, from: set<Id>, x: Id) {
    exists n, e :: n in from && Arc(edges, t, n, x, e)
  }

  /** Some edge with this id can be followed out of the set. */
  ghost predicate Leaving(edges: seq<Edge>, t: Traversal, from: set<Id>, id: string) {
    exists n, m, e :: n in from && Arc(edges, t, n, m, e) && e.id == id
  }

  /** Follow one neighbour list: note new ids, and the edges whose id is new. */
  method ScanNeighbours(next: seq<(Id, Edge)>, frontier0: set<Id>, visited0: set<Id>, found0: seq<Edge>)
    returns (frontier: set<Id>, visited: set<Id>, found: seq<Edge>)
    requires DistinctIds(found0)
    ensures forall x :: x in visited <==> x in visited0 || exists e :: (x, e) in next
    ensures forall x :: x in frontier <==> x in frontier0 || (x !in visited0 && exists e :: (x, e) in next)
    ensures DistinctIds(found)
    ensures forall e :: e in found ==> e in found0 || exists m :: (m, e) in next
    ensures forall e :: e in found0 ==> e in found
    ensures forall m, e :: (m, e) in next ==> e.id in EdgeIds(found)
  {
    frontier, visited, found := frontier0, visited0, found0;
    for i := 0 to |next|
      invariant forall x :: x in visited <==> x in visited0 || exists e :: (x, e) in next[..i]
      invariant forall x :: x in frontier <==> x in frontier0 || (x !in visited0 && exists e :: (x, e) in next[..i])
      invariant DistinctIds(found)
      invariant forall e :: e in found ==> e in found0 || exists m :: (m, e) in next
      invariant forall e :: e in found0 ==> e in found
      invariant forall j :: 0 <= j < i ==> next[j].1.id in EdgeIds(found)
    {
      var (neighbour, edge) := next[i];
      assert next[..i + 1] == next[..i] + [(neighbour, edge)];
      assert (neighbour, edge) in next;
      if neighbour !in visited {
        frontier := frontier + {neighbour};
        visited := visited + {neighbour};
      }
      if edge.id !in EdgeIds(found) {
        found := found + [edge];
        assert edge in found;
      }
    }
    assert next[..|next|] == next;
  }

  /** Follow every id of a frontier once, in whatever order the set yields them. */
  method ExpandLevel(edges: seq<Edge>, t: Traversal, adjacency: Adjacency,
                     frontier: set<Id>, visited0: set<Id>, found0: seq<Edge>)
    returns (next: set<Id>, visited: set<Id>, found: seq<Edge>)
    requires adjacency == AdjacencyOf(edges, t) && DistinctIds(found0)
    ensures forall x :: x in next <==> x !in visited0 && Leads(edges, t, frontier, x)
    ensures visited == visited0 + next
    ensures DistinctIds(found)
    ensures forall e :: e in found ==> e in found0 || e in edges
    ensures forall id :: id in EdgeIds(found) <==> id in EdgeIds(found0) || Leaving(edges, t, frontier, id)
  {
    AdjacencyHoldsArcs(edges, t);
    next, visited, found := {}, visited0, found0;
    ghost var scanned: set<Id> := {};
    var rest := frontier;
    while rest != {}
      invariant rest !! scanned && rest + scanned == frontier
      invariant forall x :: x in next <==> x !in visited0 && Leads(edges, t, scanned, x)
      invariant visited == visited0 + next
      invariant DistinctIds(found)
      invariant forall e :: e in found ==> e in found0 || e in edges
      invariant forall id :: id in EdgeIds(found) <==> id in EdgeIds(found0) || Leaving(edges, t, scanned, id)
    {
      var n :| n in rest;
      rest := rest - {n};
      ghost var next0, visited', found' := next, visited, found;
      var list := Neighbours(adjacency, n);
      next, visited, found := ScanNeighbours(list, next, visited, found);
      NewIds(edges, t, scanned, n, list, found', found);
      NewIdsLead(edges, t, scanned, n, list);
      scanned := scanned + {n};
    }
    assert scanned == frontier;
  }

  lemma NewIdsLead(edges: seq<Edge>, t: Traversal, scanned: set<Id>, n: Id, list: seq<(Id, Edge)>)
    requires forall m, e :: (m, e) in list <==> Arc(edges, t, n, m, e)
    ensures forall x :: Leads(edges, t, scanned + {n}, x)
                   <==> Leads(edges, t, scanned, x) || exists e :: (x, e) in list
  {
  }

  lemma NewIds(edges: seq<Edge>, t: Traversal, scanned: set<Id>, n: Id, list: seq<(Id, Edge)>,
               found0: seq<Edge>, found: seq<Edge>)
    requires forall m, e :: (m, e) in list <==> Arc(edges, t, n, m, e)
    requires forall e :: e in found ==> e in found0 || exists m :: (m, e) in list
    requires forall e :: e in found0 ==> e in found
    requires forall m, e :: (m, e) in list ==> e.id in EdgeIds(found)
    ensures forall id :: id in EdgeIds(found) || Leaving(edges, t, scanned, id)
                   <==> id in EdgeIds(found0) || Leaving(edges, t, scanned + {n}, id)
  {
    forall id
      ensures id in EdgeIds(found) || Leaving(edges, t, scanned, id)
         <==> id in EdgeIds(found0) || Leaving(edges, t, scanned + {n}, id)
    {
      if id in EdgeIds(found) {
        var e :| e in found && e.id == id;
        if e in found0 {
          assert id in EdgeIds(found0);
        } else {
          var m :| (m, e) in list;
          assert n in scanned + {n} && Arc(edges, t, n, m, e);
        }
      }
      if id in EdgeIds(found0) {
        var e :| e in found0 && e.id == id;
        assert e in found;
      }
      if Leaving(edges, t, scanned, id) {
        var x, m, e :| x in scanned && Arc(edges, t, x, m, e) && e.id == id;
        assert x in scanned + {n};
      }
    }
  }

  // ---------------------------------------------------------------- results

  function NodeIds(nodes: seq<Node>): set<Id> {
    set n | n in nodes :: n.id
  }

  function IdsOf(nodes: seq<Node>): seq<Id> {
    seq(|nodes|, i requires 0 <= i < |nodes| => nodes[i].id)
  }

  /** `{node.id: node for node in nodes}`: a later node replaces an earlier one of the same id. */
  function NodeById(nodes: seq<Node>): (m: map<Id, Node>)
    ensures m.Keys == NodeIds(nodes)
    ensures forall id :: id in m ==> m[id] in nodes && m[id].id == id
  {
    if nodes == [] then map[]
    else
      var front, last := nodes[..|nodes| - 1], nodes[|nodes| - 1];
      assert nodes == front + [last];
      NodeById(front)[last.id := last]
  }

  /** Every node is the one that the node list has for its id. */
  ghost predicate Listed(nodes: seq<Node>, some: seq<Node>) {
    forall n :: n in some ==> n.id in NodeById(nodes) && n == NodeById(nodes)[n.id]
  }

  /** The nodes with the given ids, in ascending order of id; ids without a node are skipped. */
  method NodesInOrder(nodes: seq<Node>, ids: set<Id>) returns (r: seq<Node>)
    ensures Ascending(IdsOf(r))
    ensures NodeIds(r) == ids * NodeIds(nodes)
    ensures Listed(nodes, r)
  {
    var byId := NodeById(nodes);
    var sorted := Sorted(ids);
    r := [];
    for i := 0 to |sorted|
      invariant Ascending(IdsOf(r))
      invariant i < |sorted| ==> forall j :: 0 <= j < |r| ==> Less(r[j].id, sorted[i])
      invariant forall n :: n in r ==> n.id in ids && n.id in byId && n == byId[n.id]
      invariant forall j :: 0 <= j < i && sorted[j] in byId ==> byId[sorted[j]] in r
    {
      var id := sorted[i];
      ghost var r0 := r;
      if id in byId {
        assert IdsOf(r + [byId[id]]) == IdsOf(r) + [id];
        r := r + [byId[id]];
      }
      if i + 1 < |sorted| {
        forall j | 0 <= j < |r| ensures Less(r[j].id, sorted[i + 1]) {
          if j < |r0| {
            LessTransitive(r[j].id, id, sorted[i + 1]);
          }
        }
      }
    }
    forall id | id in ids * NodeIds(nodes) ensures id in NodeIds(r) {
      var j :| 0 <= j < |sorted| && sorted[j] == id;
      assert byId[sorted[j]] in r;
    }
  }

  // ---------------------------------------------------------------- search_graph

  function Matching(nodes: seq<Node>, matches: Node -> bool): seq<Node> {
    if nodes == [] then []
    else (if matches(nodes[0]) then [nodes[0]] else []) + Matching(nodes[1..], matches)
  }

  lemma {:induction false} MatchingIsFilter(nodes: seq<Node>, matches: Node -> bool)
    ensures forall n :: n in Matching(nodes, matches) <==> n in nodes && matches(n)
  {
    if nodes != [] {
      MatchingIsFilter(nodes[1..], matches);
    }
  }

  /** The id belongs to an edge with an endpoint at distance at most `k` from the roots. */
  ghost predicate EdgeWithin(edges: seq<Edge>, roots: set<Id>, k: nat, id: string) {
    exists e :: e in edges && e.id == id
             && (Within(edges, ANY_DIRECTION, roots, k, e.source) || Within(edges, ANY_DIRECTION, roots, k, e.target))
  }

  /** After `k` levels everything within `k` has been visited, and the frontier is what is exactly that far. */
  ghost predicate Layered(edges: seq<Edge>, t: Traversal, roots: set<Id>, k: nat, frontier: set<Id>, visited: set<Id>) {
    && (forall x :: x in visited <==> Within(edges, t, roots, k, x))
    && (forall x :: x in frontier <==> x in visited && (k == 0 || !Within(edges, t, roots, k - 1, x)))
  }

  /** The ids found so far are those of the edges leaving an id visited before the last level. */
  ghost predicate FoundBefore(edges: seq<Edge>, t: Traversal, visited: set<Id>, frontier: set<Id>, found: seq<Edge>) {
    forall id :: id in EdgeIds(found) <==> Leaving(edges, t, visited - frontier, id)
  }

  lemma NextLayer(edges: seq<Edge>, t: Traversal, roots: set<Id>, k: nat,
                  frontier: set<Id>, visited: set<Id>, next: set<Id>)
    requires Layered(edges, t, roots, k, frontier, visited)
    requires forall x :: x in next <==> x !in visited && Leads(edges, t, frontier, x)
    ensures Layered(edges, t, roots, k + 1, next, visited + next)
  {
    forall x ensures x in visited + next <==> Within(edges, t, roots, k + 1, x) {
      if Within(edges, t, roots, k + 1, x) && x !in visited {
        var n, e :| Within(edges, t, roots, k, n) && Arc(edges, t, n, x, e);
        assert n in frontier;
      }
    }
  }

  lemma NextFound(edges: seq<Edge>, t: Traversal, visited: set<Id>, frontier: set<Id>, next: set<Id>,
                  found0: seq<Edge>, found: seq<Edge>)
    requires frontier <= visited && visited !! next
    requires FoundBefore(edges, t, visited, frontier, found0)
    requires forall id :: id in EdgeIds(found) <==> id in EdgeIds(found0) || Leaving(edges, t, frontier, id)
    ensures FoundBefore(edges, t, visited + next, next, found)
  {
    assert visited + next - next == visited;
    assert visited - frontier + frontier == visited;
    LeavingUnion(edges, t, visited - frontier, frontier);
  }

  lemma LeavingUnion(edges: seq<Edge>, t: Traversal, a: set<Id>, b: set<Id>)
    ensures forall id :: Leaving(edges, t, a + b, id) <==> Leaving(edges, t, a, id) || Leaving(edges, t, b, id)
  {
    forall id | Leaving(edges, t, a, id) || Leaving(edges, t, b, id)
      ensures Leaving(edges, t, a + b, id)
    {
      var n, m, e :| (n in a || n in b) && Arc(edges, t, n, m, e) && e.id == id;
      assert n in a + b;
    }
  }

  lemma LeavingAnyDirection(edges: seq<Edge>, roots: set<Id>, k: nat, visited: set<Id>)
    requires forall x :: x in visited <==> Within(edges, ANY_DIRECTION, roots, k, x)
    ensures forall id :: Leaving(edges, ANY_DIRECTION, visited, id) <==> EdgeWithin(edges, roots, k, id)
  {
    forall id | EdgeWithin(edges, roots, k, id)
      ensures Leaving(edges, ANY_DIRECTION, visited, id)
    {
      var e :| e in edges && e.id == id && (e.source in visited || e.target in visited);
      assert Arc(edges, ANY_DIRECTION, e.source, e.target, e) && Arc(edges, ANY_DIRECTION, e.target, e.source, e);
    }
  }

  /** The result holds exactly the existing nodes at distance at most `depth` from the roots, and
      exactly the ids of the edges with an endpoint at distance at most `depth - 1`. */
  ghost predicate NodesWithin(nodes: seq<Node>, edges: seq<Edge>, roots: set<Id>, depth: nat, r: SearchResult)
    requires depth > 0
  {
    && (forall id :: id in NodeIds(r.nodes) <==>
          id in NodeIds(nodes) && Within(edges, ANY_DIRECTION, roots, depth, id))
    && (forall id :: id in EdgeIds(r.edges) <==> EdgeWithin(edges, roots, depth - 1, id))
  }

  /** The matched nodes and everything around them up to `depth` edges away. */
  method SearchGraph(nodes: seq<Node>, edges: seq<Edge>, matches: Node -> bool, limit: int, depth: int)
    returns (r: SearchResult)
    ensures var matched := Slice(Matching(nodes, matches), limit);
            && matched <= r.nodes
            && Ascending(IdsOf(r.nodes[|matched|..]))
            && Listed(nodes, r.nodes[|matched|..])
            && NodeIds(r.nodes[|matched|..]) !! NodeIds(matched)
            && (depth <= 0 ==> r == SearchResult(matched, []))
    ensures depth > 0 ==> NodesWithin(nodes, edges, NodeIds(Slice(Matching(nodes, matches), limit)), depth, r)
    ensures DistinctIds(r.edges) && forall e :: e in r.edges ==> e in edges
  {
    var matched := Slice(Matching(nodes, matches), limit);
    MatchingIsFilter(nodes, matches);
    var roots := NodeIds(matched);
    if depth <= 0 {
      return SearchResult(matched, []);
    }
    var adjacency := BuildAdjacency(edges, ANY_DIRECTION);
    var frontier, visited, found: seq<Edge> := roots, roots, [];
    for i := 0 to depth
      invariant Layered(edges, ANY_DIRECTION, roots, i, frontier, visited)
      invariant FoundBefore(edges, ANY_DIRECTION, visited, frontier, found)
      invariant roots <= visited
      invariant i > 0 ==> forall id :: id in EdgeIds(found) <==> EdgeWithin(edges, roots, i - 1, id)
      invariant DistinctIds(found) && forall e :: e in found ==> e in edges
    {
      var next, visited', found' := ExpandLevel(edges, ANY_DIRECTION, adjacency, frontier, visited, found);
      NextLayer(edges, ANY_DIRECTION, roots, i, frontier, visited, next);
      NextFound(edges, ANY_DIRECTION, visited, frontier, next, found, found');
      LeavingAnyDirection(edges, roots, i, visited);
      assert visited' - next == visited;
      frontier, visited, found := next, visited', found';
    }
    var expanded := NodesInOrder(nodes, visited - roots);
    r := SearchResult(matched + expanded, found);
    assert r.nodes[|matched|..] == expanded;
    NodeIdsConcat(matched, expanded);
  }

  lemma NodeIdsConcat(a: seq<Node>, b: seq<Node>)
    ensures NodeIds(a + b) == NodeIds(a) + NodeIds(b)
  {
    forall id | id in NodeIds(a) + NodeIds(b) ensures id in NodeIds(a + b) {
      var n :| (n in a || n in b) && n.id == id;
      assert n in a + b;
    }
  }

  // ---------------------------------------------------------------- what the undirected walks are

  /** A walk in any direction, by fields: the ids it visits are joined by its edges, in their order. */
  ghost predicate Visits(edges: seq<Edge>, p: seq<Edge>, ids: seq<Id>) {
    && |ids| == |p| + 1
    && forall i :: 0 <= i < |p| ==>
         && p[i] in edges
         && ((p[i].source == ids[i] && p[i].target == ids[i + 1])
             || (p[i].source == ids[i + 1] && p[i].target == ids[i]))
  }

  lemma {:induction false} WalkVisits(edges: seq<Edge>, a: Id, p: seq<Edge>, b: Id)
    ensures Walk(edges, ANY_DIRECTION, a, p, b)
       <==> exists ids :: Visits(edges, p, ids) && ids[0] == a && ids[|p|] == b
    decreases |p|
  {
    if p == [] {
      if a == b {
        assert Visits(edges, p, [a]);
      }
    } else {
      if Walk(edges, ANY_DIRECTION, a, p, b) {
        var m :| Arc(edges, ANY_DIRECTION, m, b, Last(p)) && Walk(edges, ANY_DIRECTION, a, Front(p), m);
        WalkVisits(edges, a, Front(p), m);
        var before :| Visits(edges, Front(p), before) && before[0] == a && before[|Front(p)|] == m;
        assert Visits(edges, p, before + [b]);
      }
      if ids :| Visits(edges, p, ids) && ids[0] == a && ids[|p|] == b {
        var before, m := ids[..|p|], ids[|p| - 1];
        assert Visits(edges, Front(p), before);
        WalkVisits(edges, a, Front(p), m);
        assert Arc(edges, ANY_DIRECTION, m, b, Last(p));
      }
    }
  }

  /** The nodes that match, in their order. */
  lemma {:induction false} MatchingKeepsOrder(a: seq<Node>, b: seq<Node>, matches: Node -> bool)
    ensures Matching(a + b, matches) == Matching(a, matches) + Matching(b, matches)
    ensures |a| == 1 ==> Matching(a, matches) == if matches(a[0]) then a else []
  {
    if a == [] {
      assert a + b == b;
    } else {
      assert (a + b)[1..] == a[1..] + b;
      MatchingKeepsOrder(a[1..], b, matches);
    }
  }

  /** Of several nodes with one id the last counts. */
  lemma {:induction false} LastNodeCounts(nodes: seq<Node>, i: nat)
    requires i < |nodes| && forall j :: i < j < |nodes| ==> nodes[j].id != nodes[i].id
    ensures nodes[i].id in NodeById(nodes) && NodeById(nodes)[nodes[i].id] == nodes[i]
  {
    var front := nodes[..|nodes| - 1];
    if i < |front| {
      LastNodeCounts(front, i);
    }
  }

  // ---------------------------------------------------------------- transitive_closure_from

  function Following(relation: string, symmetric: set<string>): Traversal {
    Traversal(Some(relation), false, symmetric)
  }

  /** Reachability is closed under arcs and is contained in every closed set with the start. */
  lemma ReachableIsLeastClosed(edges: seq<Edge>, t: Traversal, start: Id)
    ensures Reachable(edges, t, start, start)
    ensures forall n, m, e :: Reachable(edges, t, start, n) && Arc(edges, t, n, m, e) ==> Reachable(edges, t, start, m)
    ensures forall s: set<Id>, x :: start in s && Closed(edges, t, s) && Reachable(edges, t, start, x) ==> x in s
  {
    assert Walk(edges, t, start, [], start);
    forall n, m, e | Reachable(edges, t, start, n) && Arc(edges, t, n, m, e)
      ensures Reachable(edges, t, start, m)
    {
      var p :| Walk(edges, t, start, p, n);
      WalkExtend(edges, t, start, p, n, e, m);
    }
    forall s: set<Id>, x | start in s && Closed(edges, t, s) && Reachable(edges, t, start, x)
      ensures x in s
    {
      if x !in s {
        ClosedUnreachable(edges, t, start, x, s);
      }
    }
  }

  /** One step along an edge of the relation: from source to target, or back if the relation is symmetric. */
  ghost predicate StepsTo(edges: seq<Edge>, relation: string, symmetric: set<string>, a: Id, b: Id) {
    exists e :: e in edges && e.relation == relation
                && ((e.source == a && e.target == b) || (relation in symmetric && e.source == b && e.target == a))
  }

  /** The ids lead from the first to the last, one step after the other. */
  ghost predicate Chain(edges: seq<Edge>, relation: string, symmetric: set<string>, ids: seq<Id>) {
    ids != [] && forall i :: 0 <= i < |ids| - 1 ==> StepsTo(edges, relation, symmetric, ids[i], ids[i + 1])
  }

  ghost predicate LeadsTo(edges: seq<Edge>, relation: string, symmetric: set<string>, start: Id, x: Id) {
    exists ids :: Chain(edges, relation, symmetric, ids) && ids[0] == start && ids[|ids| - 1] == x
  }

  lemma FollowingSteps(edges: seq<Edge>, relation: string, symmetric: set<string>, n: Id, m: Id, e: Edge)
    ensures Arc(edges, Following(relation, symmetric), n, m, e)
       <==> && e in edges && e.relation == relation
            && ((e.source == n && e.target == m) || (relation in symmetric && e.source == m && e.target == n))
  {
  }

  /** What is reached is what a chain of ids leads to. */
  lemma ReachedByAChain(edges: seq<Edge>, relation: string, symmetric: set<string>, start: Id, x: Id)
    ensures Reachable(edges, Following(relation, symmetric), start, x)
       <==> LeadsTo(edges, relation, symmetric, start, x)
  {
    var t := Following(relation, symmetric);
    if Reachable(edges, t, start, x) {
      var p :| Walk(edges, t, start, p, x);
      var ids := WalkToChain(edges, relation, symmetric, start, p, x);
    }
    if LeadsTo(edges, relation, symmetric, start, x) {
      var ids :| Chain(edges, relation, symmetric, ids) && ids[0] == start && ids[|ids| - 1] == x;
      ChainToWalk(edges, relation, symmetric, ids);
    }
  }

  lemma {:induction false} WalkToChain(edges: seq<Edge>, relation: string, symmetric: set<string>,
                                       start: Id, p: seq<Edge>, x: Id)
    returns (ids: seq<Id>)
    requires Walk(edges, Following(relation, symmetric), start, p, x)
    ensures Chain(edges, relation, symmetric, ids) && ids[0] == start && ids[|ids| - 1] == x
    decreases |p|
  {
    if p == [] {
      ids := [start];
    } else {
      var t := Following(relation, symmetric);
      var m :| Arc(edges, t, m, x, Last(p)) && Walk(edges, t, start, Front(p), m);
      var before := WalkToChain(edges, relation, symmetric, start, Front(p), m);
      FollowingSteps(edges, relation, symmetric, m, x, Last(p));
      assert StepsTo(edges, relation, symmetric, m, x);
      ids := before + [x];
    }
  }

  lemma {:induction false} ChainToWalk(edges: seq<Edge>, relation: string, symmetric: set<string>, ids: seq<Id>)
    requires Chain(edges, relation, symmetric, ids)
    ensures Reachable(edges, Following(relation, symmetric), ids[0], ids[|ids| - 1])
    decreases |ids|
  {
    var t := Following(relation, symmetric);
    if |ids| == 1 {
      assert Walk(edges, t, ids[0], [], ids[0]);
    } else {
      var before := ids[..|ids| - 1];
      var m, x := before[|before| - 1], ids[|ids| - 1];
      ChainToWalk(edges, relation, symmetric, before);
      assert StepsTo(edges, relation, symmetric, ids[|ids| - 2], ids[|ids| - 2 + 1]);
      var e :| e in edges && e.relation == relation
               && ((e.source == m && e.target == x) || (relation in symmetric && e.source == x && e.target == m));
      FollowingSteps(edges, relation, symmetric, m, x, e);
      var p :| Walk(edges, t, ids[0], p, m);
      WalkExtend(edges, t, ids[0], p, m, e, x);
    }
  }

  /** The same for edges: those of the relation that leave a reached id, forwards or, if symmetric, backwards. */
  lemma EdgesByChains(edges: seq<Edge>, relation: string, symmetric: set<string>, start: Id, id: string)
    ensures var t := Following(relation, symmetric);
            (exists n, m, e :: Reachable(edges, t, start, n) && Arc(edges, t, n, m, e) && e.id == id)
            <==> exists e :: e in edges && e.id == id && e.relation == relation
                             && (LeadsTo(edges, relation, symmetric, start, e.source)
                                 || (relation in symmetric && LeadsTo(edges, relation, symmetric, start, e.target)))
  {
    hide Reachable, LeadsTo;
    var t := Following(relation, symmetric);
    if n, m, e :| Reachable(edges, t, start, n) && Arc(edges, t, n, m, e) && e.id == id {
      FollowingSteps(edges, relation, symmetric, n, m, e);
      ReachedByAChain(edges, relation, symmetric, start, n);
    }
    if e :| e in edges && e.id == id && e.relation == relation
            && (LeadsTo(edges, relation, symmetric, start, e.source)
                || (relation in symmetric && LeadsTo(edges, relation, symmetric, start, e.target))) {
      ReachedByAChain(edges, relation, symmetric, start, e.source);
      ReachedByAChain(edges, relation, symmetric, start, e.target);
      FollowingSteps(edges, relation, symmetric, e.source, e.target, e);
      FollowingSteps(edges, relation, symmetric, e.target, e.source, e);
    }
  }

  lemma ExhaustedIsReachable(edges: seq<Edge>, t: Traversal, start: Id, k: nat, visited: set<Id>)
    requires Layered(edges, t, {start}, k, {}, visited)
    ensures forall x :: x in visited <==> Reachable(edges, t, start, x)
  {
    forall x | x in visited ensures Reachable(edges, t, start, x) {
      WithinIffWalk(edges, t, {start}, k, x);
    }
    WithinMonotone(edges, t, {start}, 0, k, start);
    forall n, m, e | n in visited && Arc(edges, t, n, m, e) ensures m in visited {
      assert k > 0 && Within(edges, t, {start}, k - 1, n);
    }
    ReachableIsLeastClosed(edges, t, start);
  }

  lemma ClosureByChains(edges: seq<Edge>, relation: string, symmetric: set<string>, start: Id,
                        visited: set<Id>, found: seq<Edge>)
    requires var t := Following(relation, symmetric);
             && (forall x :: x in visited <==> Reachable(edges, t, start, x))
             && (forall id :: id in EdgeIds(found) <==> Leaving(edges, t, visited, id))
    ensures forall x :: x in visited <==> LeadsTo(edges, relation, symmetric, start, x)
    ensures forall id :: id in EdgeIds(found)
                    <==> exists e :: e in edges && e.id == id && e.relation == relation
                                     && (LeadsTo(edges, relation, symmetric, start, e.source)
                                         || (relation in symmetric
                                             && LeadsTo(edges, relation, symmetric, start, e.target)))
  {
    hide Reachable, LeadsTo, Following, EdgeIds;
    forall x ensures x in visited <==> LeadsTo(edges, relation, symmetric, start, x) {
      ReachedByAChain(edges, relation, symmetric, start, x);
    }
    forall id ensures id in EdgeIds(found)
                      <==> exists e :: e in edges && e.id == id && e.relation == relation
                                       && (LeadsTo(edges, relation, symmetric, start, e.source)
                                           || (relation in symmetric
                                               && LeadsTo(edges, relation, symmetric, start, e.target))) {
      EdgesByChains(edges, relation, symmetric, start, id);
    }
  }

  /** Everything that can be reached from one id along one relation. */
  method TransitiveClosureFrom(nodes: seq<Node>, edges: seq<Edge>, symmetric: set<string>, start: Id, relation: string)
    returns (r: SearchResult)
    ensures forall id :: id in NodeIds(r.nodes)
                    <==> id in NodeIds(nodes) && LeadsTo(edges, relation, symmetric, start, id)
    ensures forall id :: id in EdgeIds(r.edges)
                    <==> exists e :: e in edges && e.id == id && e.relation == relation
                                     && (LeadsTo(edges, relation, symmetric, start, e.source)
                                         || (relation in symmetric
                                             && LeadsTo(edges, relation, symmetric, start, e.target)))
    ensures Ascending(IdsOf(r.nodes)) && Listed(nodes, r.nodes)
    ensures DistinctIds(r.edges) && forall e :: e in r.edges ==> e in edges
  {
    var t := Following(relation, symmetric);
    var adjacency := BuildAdjacency(edges, t);
    var frontier, visited, found: seq<Edge> := {start}, {start}, [];
    ghost var level := 0;
    while frontier != {}
      invariant Layered(edges, t, {start}, level, frontier, visited)
      invariant FoundBefore(edges, t, visited, frontier, found)
      invariant visited <= {start} + Endpoints(edges)
      invariant DistinctIds(found) && forall e :: e in found ==> e in edges
      decreases {start} + Endpoints(edges) - visited, frontier != {}
    {
      var next, visited', found' := ExpandLevel(edges, t, adjacency, frontier, visited, found);
      NextLayer(edges, t, {start}, level, frontier, visited, next);
      NextFound(edges, t, visited, frontier, next, found, found');
      frontier, visited, found, level := next, visited', found', level + 1;
    }
    ExhaustedIsReachable(edges, t, start, level, visited);
    assert visited - frontier == visited;
    ClosureByChains(edges, relation, symmetric, start, visited, found);
    var reached := NodesInOrder(nodes, visited);
    r := SearchResult(reached, found);
  }
}
