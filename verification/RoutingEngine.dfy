/** The routing engine: its graph, and the methods that fill, search and penalise it.

  Dictionaries are maps.  The search does not depend on their iteration order, so
  loops over them visit the keys in any order; only the nearest-node scan does, and
  `order` is the order in which positions were first inserted.
 */
module Routing {
  import opened Walks
  import opened OpenSet
  import opened Wrappers
  import opened Sequences
  import opened Powers
  import opened AStar
  import opened Alternatives
  import opened Distances

  datatype Junction = Junction(id: Node, position: Position)

  datatype Road = Road(from: Node, to: Node, speed: Option<real>, capacity: Option<real>)

  datatype Answer = NotInitialised | NoPath | Found(path: seq<Node>, distance: real)

  const NO_GRAPH := Graph({}, map[])

  // ----- Distances along a path -----

  ghost function Length(g: Graph, p: seq<Node>, i: nat): real
    requires IsWalk(g, p) && i < |p|
  {
    if i == 0 then 0.0
    else
      assert HasEdge(g, p[i - 1], p[i]);
      Length(g, p, i - 1) + g.edges[Arc(p[i - 1], p[i])].distance
  }

  ghost function AnswerTo(q: Query): Answer
    requires Askable(q)
  {
    if Route(q).None? then NoPath
    else
      RouteIsSimplePath(q);
      Found(Route(q).value, Length(q.g, Route(q).value, |Route(q).value| - 1))
  }

  // ----- The nearest node -----

  lemma NonEmptyOrder(order: seq<Node>)
    requires Elements(order) != {}
    ensures order != []
  {
  }

  // The index of the first node at the least distance.
  function FirstNearest(order: seq<Node>, distance: map<Node, real>): nat
    requires order != [] && Elements(order) <= distance.Keys
    ensures FirstNearest(order, distance) < |order|
  {
    var last := |order| - 1;
    if last == 0 then 0
    else
      assert Elements(order[..last]) <= Elements(order);
      var k := FirstNearest(order[..last], distance);
      if distance[order[last]] < distance[order[k]] then last else k
  }

  lemma {:induction false} NearestIsFirstMinimum(order: seq<Node>, distance: map<Node, real>)
    requires order != [] && Elements(order) <= distance.Keys
    ensures var k := FirstNearest(order, distance);
            && (forall i :: 0 <= i < |order| ==> distance[order[k]] <= distance[order[i]])
            && (forall i :: 0 <= i < k ==> distance[order[k]] < distance[order[i]])
  {
    var last := |order| - 1;
    if last > 0 {
      var before := order[..last];
      assert Elements(before) <= Elements(order);
      NearestIsFirstMinimum(before, distance);
      assert forall i :: 0 <= i < last ==> order[i] == before[i];
    }
  }

  // ----- One more relaxed neighbour -----

  lemma NothingRelaxedYet(q: Query, s: Search, u: Node)
    requires u in s.score
    ensures RelaxSome(q, s, u, {}) == s
  {
  }

  lemma ImprovedOneMore(q: Query, score: map<Node, real>, u: Node, done: set<Node>, v: Node)
    requires u in score
    ensures Improved(q, score, u, done + {v}) ==
              Improved(q, score, u, done) + if Improves(q, score, u, v) then {v} else {}
  {
  }

  lemma PushOneMore(q: Query, score: map<Node, real>, u: Node, better: set<Node>, v: Node)
    requires u in score && HasEdge(q.g, u, v) && v !in better
    requires forall x :: x in better ==> HasEdge(q.g, u, x)
    ensures multiset(Pushes(q, score, u, better + {v})) ==
              multiset(Pushes(q, score, u, better)) + multiset{Entry(Via(q, score, u, v) + Estimate(q, v), v)}
  {
  }

  lemma UnimprovedScores(q: Query, s: Search, u: Node, done: set<Node>, v: Node)
    requires NonNegative(q.g) && u in s.score && v !in done
    ensures var so := RelaxSome(q, s, u, done);
            && u in so.score && so.score[u] == s.score[u]
            && (v in so.score <==> v in s.score) && (v in s.score ==> so.score[v] == s.score[v])
  {
  }

  // A neighbour that improves nothing changes nothing.
  lemma RelaxOneIdle(q: Query, s: Search, u: Node, done: set<Node>, v: Node)
    requires u in s.score && !Improves(q, s.score, u, v)
    ensures RelaxSome(q, s, u, done + {v}) == RelaxSome(q, s, u, done)
  {
    ImprovedOneMore(q, s.score, u, done, v);
    assert Improved(q, s.score, u, done + {v}) == Improved(q, s.score, u, done);
  }

  lemma RelaxOneMorePushed(q: Query, s: Search, u: Node, done: set<Node>, v: Node)
    requires u in s.score && Improves(q, s.score, u, v) && v !in done
    ensures RelaxSome(q, s, u, done + {v}).open ==
              RelaxSome(q, s, u, done).open + multiset{Entry(Via(q, s.score, u, v) + Estimate(q, v), v)}
  {
    ImprovedOneMore(q, s.score, u, done, v);
    PushOneMore(q, s.score, u, Improved(q, s.score, u, done), v);
  }

  lemma RelaxOneMoreLowered(q: Query, s: Search, u: Node, done: set<Node>, v: Node)
    requires u in s.score && Improves(q, s.score, u, v) && v !in done
    ensures RelaxSome(q, s, u, done + {v}).score == RelaxSome(q, s, u, done).score[v := Via(q, s.score, u, v)]
    ensures RelaxSome(q, s, u, done + {v}).parent == RelaxSome(q, s, u, done).parent[v := u]
  {
  }

  // The body of the loop over the neighbours: relax the edge to v if that is better.
  function RelaxOne(s: Search, u: Node, v: Node, tentative: real, priority: real): Search {
    if v !in s.score || tentative < s.score[v] then
      Search(s.open + multiset{Entry(priority, v)}, s.score[v := tentative], s.parent[v := u])
    else s
  }

  lemma RelaxOneMore(q: Query, s: Search, u: Node, done: set<Node>, v: Node, now: Search, e: Entry)
    requires u in s.score && Improves(q, s.score, u, v) && v !in done && now == RelaxSome(q, s, u, done)
    requires e == Entry(Via(q, s.score, u, v) + Estimate(q, v), v)
    ensures RelaxSome(q, s, u, done + {v}) ==
              Search(now.open + multiset{e}, now.score[v := Via(q, s.score, u, v)], now.parent[v := u])
  {
    RelaxOneMorePushed(q, s, u, done, v);
    RelaxOneMoreLowered(q, s, u, done, v);
  }

  lemma RelaxStep(q: Query, s: Search, u: Node, done: set<Node>, v: Node, now: Search, tentative: real, priority: real)
    requires NonNegative(q.g) && u in s.score && HasEdge(q.g, u, v) && v !in done
    requires now == RelaxSome(q, s, u, done) && u in now.score
    requires tentative == now.score[u] + Weight(q.g, u, v) && priority == tentative + Estimate(q, v)
    ensures RelaxSome(q, s, u, done + {v}) == RelaxOne(now, u, v, tentative, priority)
  {
    UnimprovedScores(q, s, u, done, v);
    assert tentative == Via(q, s.score, u, v);
    if Improves(q, s.score, u, v) {
      RelaxOneMore(q, s, u, done, v, now, Entry(priority, v));
    } else {
      RelaxOneIdle(q, s, u, done, v);
    }
  }

  // ----- Penalties and restoring -----

  // graph[u][v]["weight"] = w
  function SetWeight(g: Graph, u: Node, v: Node, w: real): Graph
    requires HasEdge(g, u, v)
  {
    g.(edges := g.edges[Arc(u, v) := g.edges[Arc(u, v)].(weight := w)])
  }

  lemma UsesStep(p: seq<Node>, i: nat, shorter: seq<Node>, longer: seq<Node>, a: Node, b: Node)
    requires i + 1 < |p| && shorter == p[..i + 1] && longer == p[..i + 2]
    ensures Uses(longer, a, b) <==> Uses(shorter, a, b) || (a == p[i] && b == p[i + 1])
  {
  }

  lemma FreshStep(p: seq<Node>, i: nat, shorter: seq<Node>)
    requires Distinct(p) && i + 1 < |p| && shorter == p[..i + 1]
    ensures !Uses(shorter, p[i], p[i + 1])
  {
  }

  lemma PenalisedStep(g: Graph, p: seq<Node>, i: nat, shorter: seq<Node>, longer: seq<Node>)
    requires Distinct(p) && i + 1 < |p| && HasEdge(g, p[i], p[i + 1])
    requires shorter == p[..i + 1] && longer == p[..i + 2]
    ensures HasEdge(Penalised(g, shorter), p[i], p[i + 1])
    ensures Weight(Penalised(g, shorter), p[i], p[i + 1]) == Weight(g, p[i], p[i + 1])
    ensures Penalised(g, longer) == SetWeight(Penalised(g, shorter), p[i], p[i + 1], Weight(g, p[i], p[i + 1]) * 1.5)
  {
    FreshStep(p, i, shorter);
    var n := SetWeight(Penalised(g, shorter), p[i], p[i + 1], Weight(g, p[i], p[i + 1]) * 1.5);
    forall a | a in g.edges ensures Penalised(g, longer).edges[a] == n.edges[a] {
      UsesStep(p, i, shorter, longer, a.from, a.to);
    }
    assert Penalised(g, longer).edges.Keys == n.edges.Keys;
  }

  lemma NothingPenalised(g: Graph, p: seq<Node>)
    requires |p| == 1
    ensures Penalised(g, p) == g
  {
  }

  // Two graphs that differ in their weights at most.
  ghost predicate SameButWeights(m: Graph, g: Graph) {
    && m.nodes == g.nodes
    && m.edges.Keys == g.edges.Keys
    && (forall a :: a in g.edges ==> m.edges[a] == g.edges[a].(weight := m.edges[a].weight))
  }

  lemma PenalisedSameButWeights(g: Graph, m: Graph, p: seq<Node>)
    requires SameButWeights(m, g)
    ensures SameButWeights(Penalised(m, p), g)
  {
  }

  lemma {:induction false} SameLength(g: Graph, m: Graph, p: seq<Node>, i: nat)
    requires SameButWeights(m, g) && IsWalk(g, p) && IsWalk(m, p) && i < |p|
    ensures Length(g, p, i) == Length(m, p, i)
  {
    if i > 0 {
      SameLength(g, m, p, i - 1);
      assert HasEdge(g, p[i - 1], p[i]);
    }
  }

  // ----- Filling the graph -----

  // Later entries for the same junction overwrite earlier ones.
  function PositionsOf(junctions: seq<Junction>): map<Node, Position> {
    if junctions == [] then map[]
    else
      var last := junctions[|junctions| - 1];
      PositionsOf(junctions[..|junctions| - 1])[last.id := last.position]
  }

  // Names in the order in which they first occur.
  function FirstSeen(junctions: seq<Junction>): seq<Node> {
    if junctions == [] then []
    else
      var before, last := FirstSeen(junctions[..|junctions| - 1]), junctions[|junctions| - 1].id;
      if last in before then before else before + [last]
  }

  predicate Named(position: map<Node, Position>, roads: seq<Road>) {
    forall e :: e in roads ==> e.from in position && e.to in position
  }

  // Road k is the first that names a junction without position.
  predicate FirstUnnamed(position: map<Node, Position>, roads: seq<Road>, k: nat) {
    && k < |roads| && Named(position, roads[..k])
    && !(roads[k].from in position && roads[k].to in position)
  }

  // The base weight of an edge is its distance; speed and capacity have defaults.
  function NewEdge(e: Road, position: map<Node, Position>, d: (Position, Position) -> real): Edge
    requires e.from in position && e.to in position
  {
    var distance := d(position[e.from], position[e.to]);
    Edge(distance, distance, OrElse(e.speed, 50.0), OrElse(e.capacity, 1000.0))
  }

  // Later roads between the same junctions overwrite earlier ones.
  function EdgesOf(roads: seq<Road>, position: map<Node, Position>, d: (Position, Position) -> real): map<Arc, Edge>
    requires Named(position, roads)
  {
    if roads == [] then map[]
    else
      var last := roads[|roads| - 1];
      EdgesOf(roads[..|roads| - 1], position, d)[Arc(last.from, last.to) := NewEdge(last, position, d)]
  }

  // A freshly built graph has the named roads as edges, and every edge weighs exactly
  // the distance between its ends.
  lemma {:induction false} BuiltEdges(roads: seq<Road>, position: map<Node, Position>, d: (Position, Position) -> real)
    requires Named(position, roads)
    ensures forall a :: a in EdgesOf(roads, position, d) <==> exists e :: e in roads && Arc(e.from, e.to) == a
    ensures forall a :: a in EdgesOf(roads, position, d) ==>
              && a.from in position && a.to in position
              && EdgesOf(roads, position, d)[a].distance == d(position[a.from], position[a.to])
              && EdgesOf(roads, position, d)[a].weight == d(position[a.from], position[a.to])
  {
    if roads != [] {
      var before, last := roads[..|roads| - 1], roads[|roads| - 1];
      BuiltEdges(before, position, d);
      assert forall e :: e in roads <==> e in before || e == last;
    }
  }

  // The key under which traffic data reports an edge.
  function EdgeId(a: Arc): string {
    a.from + "-" + a.to
  }

  // No reading divides by a capacity of zero.
  ghost predicate Applicable(g: Graph, traffic: map<string, Reading>) {
    forall a :: a in g.edges && EdgeId(a) in traffic ==> g.edges[a].capacity != 0.0
  }

  ghost function Reweighted(g: Graph, traffic: map<string, Reading>): Graph
    requires Applicable(g, traffic)
  {
    g.(edges := map a | a in g.edges ::
      if EdgeId(a) in traffic then g.edges[a].(weight := NewWeight(g.edges[a], traffic[EdgeId(a)])) else g.edges[a])
  }

  // One update after the other.
  ghost function ReweightedAll(g: Graph, updates: seq<map<string, Reading>>): (r: Graph)
    requires forall t :: t in updates ==> Applicable(g, t)
    ensures SameButWeights(r, g)
  {
    if updates == [] then g
    else
      var last := updates[|updates| - 1];
      assert last in updates && Applicable(g, last);
      Reweighted(ReweightedAll(g, updates[..|updates| - 1]), last)
  }

  // Later readings of an edge replace earlier ones.
  function Merged(updates: seq<map<string, Reading>>): map<string, Reading> {
    if updates == [] then map[] else Merged(updates[..|updates| - 1]) + updates[|updates| - 1]
  }

  lemma {:induction false} MergedIsApplicable(g: Graph, updates: seq<map<string, Reading>>)
    requires forall t :: t in updates ==> Applicable(g, t)
    ensures Applicable(g, Merged(updates))
  {
    if updates != [] {
      MergedIsApplicable(g, updates[..|updates| - 1]);
      assert updates[|updates| - 1] in updates;
    }
  }

  // Any number of updates amount to one with the latest readings.
  lemma {:induction false} UpdatesMerge(g: Graph, updates: seq<map<string, Reading>>)
    requires forall t :: t in updates ==> Applicable(g, t)
    ensures Applicable(g, Merged(updates)) && ReweightedAll(g, updates) == Reweighted(g, Merged(updates))
  {
    MergedIsApplicable(g, updates);
    if updates == [] {
      assert Reweighted(g, map[]).edges == g.edges;
    } else {
      var before := updates[..|updates| - 1];
      UpdatesMerge(g, before);
      assert ReweightedAll(g, updates).edges == Reweighted(g, Merged(updates)).edges;
    }
  }

  class RoutingEngine {
    var graph: Graph
    var nodePositions: map<Node, Position>
    var order: seq<Node>
    const haversine: (Position, Position) -> real

    constructor (haversine: (Position, Position) -> real)
      ensures graph.nodes == {} && nodePositions == map[] && Valid()
      ensures this.haversine == haversine
    {
      graph := NO_GRAPH;
      nodePositions := map[];
      order := [];
      this.haversine := haversine;
    }

    // ----- Filling the graph -----

    // A road that names a junction without position raises an error (ok is false); the
    // roads before it have been added then, and so has its own first node.
    method BuildGraph(junctions: seq<Junction>, roads: seq<Road>) returns (ok: bool)
      modifies this`graph, this`nodePositions, this`order
      ensures ok <==> Named(PositionsOf(junctions), roads)
      ensures nodePositions == PositionsOf(junctions)
      ensures ok ==> Valid() && graph == Graph(nodePositions.Keys, EdgesOf(roads, nodePositions, haversine))
      ensures !ok ==> exists k :: FirstUnnamed(nodePositions, roads, k) && StoppedAt(roads, k)
      ensures order == FirstSeen(junctions)
    {
      graph := NO_GRAPH;
      nodePositions := map[];
      order := [];
      for i := 0 to |junctions|
        invariant graph.edges == map[] && graph.nodes == nodePositions.Keys == Elements(order)
        invariant nodePositions == PositionsOf(junctions[..i])
        invariant order == FirstSeen(junctions[..i])
      {
        var j := junctions[i];
        assert junctions[..i + 1][..i] == junctions[..i];
        graph := graph.(nodes := graph.nodes + {j.id});
        if j.id !in nodePositions {
          order := order + [j.id];
        }
        nodePositions := nodePositions[j.id := j.position];
      }
      assert junctions[..|junctions|] == junctions;
      ok := AddRoads(roads);
    }

    ghost predicate StoppedAt(roads: seq<Road>, k: nat)
      requires k < |roads| && Named(nodePositions, roads[..k])
      reads this
    {
      graph == Graph(nodePositions.Keys + {roads[k].from}, EdgesOf(roads[..k], nodePositions, haversine))
    }

    method AddRoads(roads: seq<Road>) returns (ok: bool)
      requires graph.edges == map[] && graph.nodes == nodePositions.Keys == Elements(order)
      modifies this`graph
      ensures ok <==> Named(nodePositions, roads)
      ensures ok ==> Valid() && graph == Graph(nodePositions.Keys, EdgesOf(roads, nodePositions, haversine))
      ensures !ok ==> exists k :: FirstUnnamed(nodePositions, roads, k) && StoppedAt(roads, k)
    {
      for i := 0 to |roads|
        invariant graph.nodes == nodePositions.Keys && Closed(graph)
        invariant Named(nodePositions, roads[..i])
        invariant graph.edges == EdgesOf(roads[..i], nodePositions, haversine)
      {
        var e := roads[i];
        assert e in roads;
        assert roads[..i + 1][..i] == roads[..i];
        if e.from !in graph.nodes {
          graph := graph.(nodes := graph.nodes + {e.from});
        }
        if e.from !in nodePositions || e.to !in nodePositions {
          assert FirstUnnamed(nodePositions, roads, i) && StoppedAt(roads, i);
          return false;
        }
        ghost var before := graph;
        graph := graph.(edges := graph.edges[Arc(e.from, e.to) := NewEdge(e, nodePositions, haversine)]);
        forall u, v | HasEdge(graph, u, v) ensures u in graph.nodes && v in graph.nodes {
          assert HasEdge(before, u, v) || (u == e.from && v == e.to);
        }
      }
      assert roads[..|roads|] == roads;
      ok := true;
    }

    // Reweights every edge that has a reading; a capacity of zero would be a division by zero.
    method UpdateEdgeWeights(traffic: map<string, Reading>)
      requires Applicable(graph, traffic)
      modifies this`graph
      ensures graph == Reweighted(old(graph), traffic)
    {
      ghost var before := graph;
      var arcs := graph.edges.Keys;
      while arcs != {}
        invariant arcs <= before.edges.Keys && graph.nodes == before.nodes && graph.edges.Keys == before.edges.Keys
        invariant forall a :: a in before.edges ==>
                    graph.edges[a] == if a in arcs then before.edges[a] else Reweighted(before, traffic).edges[a]
        decreases arcs
      {
        var a :| a in arcs;
        if EdgeId(a) in traffic {
          graph := SetWeight(graph, a.from, a.to, NewWeight(graph.edges[a], traffic[EdgeId(a)]));
        }
        arcs := arcs - {a};
      }
      assert graph.edges == Reweighted(before, traffic).edges;
    }

    ghost predicate Valid()
      reads this
    {
      graph.nodes == nodePositions.Keys == Elements(order) && Closed(graph)
    }

    function Heuristic(a: Node, b: Node): real
      reads this`nodePositions
    {
      if a in nodePositions && b in nodePositions then haversine(nodePositions[a], nodePositions[b]) else 0.0
    }

    ghost function Estimates(end: Node): map<Node, real>
      reads this`nodePositions
    {
      map n | n in nodePositions :: Heuristic(n, end)
    }

    // The question `_astar_search` answers for two nodes.
    ghost function Ask(start: Node, end: Node): Query
      reads this`graph, this`nodePositions
    {
      Query(graph, Estimates(end), start, end)
    }

    // ----- Searching -----

    method AstarSearch(start: Node, end: Node) returns (r: Answer)
      requires Valid() && NonNegative(graph) && start in graph.nodes && end in graph.nodes
      ensures r == AnswerTo(Ask(start, end))
    {
      ghost var q := Ask(start, end);
      var open := multiset{Entry(0.0, start)};
      var parent: map<Node, Node> := map[];
      var score := map[start := 0.0];
      InitialInv(q);
      while open != multiset{}
        invariant Inv(q, Search(open, score, parent))
        invariant Run(q, Search(open, score, parent)) == Run(q, Initial(q))
        decreases Below(q, score), |open|
      {
        ghost var s := Search(open, score, parent);
        var entry, rest := Pop(open);
        var current := entry.node;
        if current == end {
          SearchEnds(q, s);
          r := Arrive(current, parent, q);
          return;
        }
        SearchGoesOn(q, s);
        open, score, parent := RelaxNeighbours(current, end, rest, score, parent, q);
      }
      SearchEnds(q, Search(open, score, parent));
      r := NoPath;
    }

    // The end has been popped.
    method Arrive(current: Node, parent: map<Node, Node>, ghost q: Query) returns (r: Answer)
      requires Askable(q) && q.g == graph
      requires Acyclic(parent) && Route(q) == Some(TraceBack(parent, [current]))
      ensures r == AnswerTo(q)
    {
      RouteIsSimplePath(q);
      var path := ReconstructPath(parent, current);
      r := CalculateRouteMetrics(path);
    }

    // The loop over the neighbours of an expanded node.  The f-score of a node is read
    // only where it has just been computed, so it needs no variable of its own.
    method RelaxNeighbours(current: Node, end: Node, rest: multiset<Entry>, score0: map<Node, real>,
                           parent0: map<Node, Node>, ghost q: Query)
      returns (open: multiset<Entry>, score: map<Node, real>, parent: map<Node, Node>)
      requires NonNegative(graph) && q == Ask(q.start, end)
      requires current in score0 && current in graph.nodes && Successors(graph, current) <= nodePositions.Keys
      ensures Search(open, score, parent) == Relax(q, Search(rest, score0, parent0), current)
    {
      ghost var s := Search(rest, score0, parent0);
      open, score, parent := rest, score0, parent0;
      var todo := Successors(graph, current);
      ghost var done := {};
      ghost var now := s;
      NothingRelaxedYet(q, s, current);
      while todo != {}
        invariant todo <= Successors(graph, current) && done == Successors(graph, current) - todo
        invariant now == RelaxSome(q, s, current, done)
        invariant now == Search(open, score, parent)
        decreases todo
      {
        var neighbor :| neighbor in todo;
        ghost var tentative, priority;
        open, score, parent, tentative, priority := RelaxNeighbour(current, neighbor, end, open, score, parent);
        RelaxStep(q, s, current, done, neighbor, now, tentative, priority);
        now := RelaxOne(now, current, neighbor, tentative, priority);
        todo := todo - {neighbor};
        done := done + {neighbor};
      }
      assert done == Successors(graph, current);
    }

    // The body of that loop.
    method RelaxNeighbour(current: Node, neighbor: Node, end: Node, open0: multiset<Entry>, score0: map<Node, real>,
                          parent0: map<Node, Node>)
      returns (open: multiset<Entry>, score: map<Node, real>, parent: map<Node, Node>, ghost g: real, ghost f: real)
      requires current in score0 && HasEdge(graph, current, neighbor)
      ensures g == score0[current] + Weight(graph, current, neighbor) && f == g + Heuristic(neighbor, end)
      ensures Search(open, score, parent) == RelaxOne(Search(open0, score0, parent0), current, neighbor, g, f)
    {
      open, score, parent := open0, score0, parent0;
      var tentative := score[current] + Weight(graph, current, neighbor);
      g, f := tentative, tentative + Heuristic(neighbor, end);
      if neighbor !in score || tentative < score[neighbor] {
        parent := parent[neighbor := current];
        score := score[neighbor := tentative];
        open := open + multiset{Entry(tentative + Heuristic(neighbor, end), neighbor)};
      }
    }

    method ReconstructPath(parent: map<Node, Node>, end: Node) returns (path: seq<Node>)
      requires Acyclic(parent)
      ensures path == TraceBack(parent, [end])
    {
      var totalPath := [end];
      var current := end;
      assert Reverse(totalPath) == [end];
      while current in parent
        invariant Chain(parent, Reverse(totalPath)) && Reverse(totalPath)[0] == current
        invariant TraceBack(parent, Reverse(totalPath)) == TraceBack(parent, [end])
        decreases |parent| + 1 - |Reverse(totalPath)|
      {
        ChainGrows(parent, Reverse(totalPath));
        ChainIsShort(parent, [parent[current]] + Reverse(totalPath));
        current := parent[current];
        ReverseAppend(totalPath, current);
        totalPath := totalPath + [current];
      }
      path := Reverse(totalPath);
    }

    method CalculateRouteMetrics(path: seq<Node>) returns (r: Answer)
      requires IsWalk(graph, path)
      ensures r == Found(path, Length(graph, path, |path| - 1))
    {
      var distance := 0.0;
      for i := 0 to |path| - 1
        invariant distance == Length(graph, path, i)
      {
        assert HasEdge(graph, path[i], path[i + 1]);
        distance := distance + graph.edges[Arc(path[i], path[i + 1])].distance;
      }
      r := Found(path, distance);
    }

    ghost function DistancesFrom(p: Position): map<Node, real>
      reads this
    {
      map n | n in nodePositions :: haversine(p, nodePositions[n])
    }

    ghost function Nearest(p: Position): Node
      requires Valid() && graph.nodes != {}
      reads this
    {
      NonEmptyOrder(order);
      order[FirstNearest(order, DistancesFrom(p))]
    }

    method FindNearestNode(p: Position) returns (nearest: Option<Node>)
      requires Valid()
      ensures nearest == if graph.nodes == {} then None else Some(Nearest(p))
    {
      nearest := None;
      ghost var d := DistancesFrom(p);
      var minDist := 0.0;
      for i := 0 to |order|
        invariant i == 0 <==> nearest == None
        invariant i > 0 ==> Elements(order[..i]) <= nodePositions.Keys
        invariant i > 0 ==> nearest == Some(order[..i][FirstNearest(order[..i], d)]) && minDist == d[nearest.value]
      {
        assert order[i] in order;
        assert order[..i + 1][..i] == order[..i];
        var dist := haversine(p, nodePositions[order[i]]);
        if nearest == None || dist < minDist {
          minDist := dist;
          nearest := Some(order[i]);
        }
      }
      assert order[..|order|] == order;
      assert order == [] ==> graph.nodes == {};
    }

    method FindRoute(origin: Position, destination: Position) returns (r: Answer)
      requires Valid() && NonNegative(graph)
      ensures r == if graph.nodes == {} then NotInitialised else AnswerTo(Ask(Nearest(origin), Nearest(destination)))
    {
      if graph.nodes == {} {
        return NotInitialised;
      }
      var startNode := FindNearestNode(origin);
      var endNode := FindNearestNode(destination);
      r := AstarSearch(startNode.value, endNode.value);
    }

    // ----- Alternatives -----

    // Raises the weight of every edge of a path in place.
    method PenalisePath(path: seq<Node>)
      requires IsWalk(graph, path) && Distinct(path)
      modifies this`graph
      ensures graph == Penalised(old(graph), path)
      ensures forall u, v :: HasEdge(old(graph), u, v) ==>
                && HasEdge(graph, u, v)
                && Weight(graph, u, v) == Weight(old(graph), u, v)
                     * if exists i :: 0 <= i < |path| - 1 && path[i] == u && path[i + 1] == v then 1.5 else 1.0
    {
      ghost var before := graph;
      NothingPenalised(before, path[..1]);
      for i := 0 to |path| - 1
        invariant graph == Penalised(before, path[..i + 1])
      {
        var u, v := path[i], path[i + 1];
        assert HasEdge(before, u, v);
        PenalisedStep(before, path, i, path[..i + 1], path[..i + 2]);
        graph := SetWeight(graph, u, v, Weight(graph, u, v) * 1.5);
      }
      assert path[..|path|] == path;
      forall u, v | HasEdge(before, u, v)
        ensures Uses(path, u, v) <==> exists i :: 0 <= i < |path| - 1 && path[i] == u && path[i + 1] == v
      {
        UsesMeans(path, u, v);
      }
    }

    // Writes saved weights back, edge by edge.
    method RestoreWeights(original: map<Arc, real>, ghost before: Graph)
      requires SameButWeights(graph, before) && original.Keys == before.edges.Keys
      requires forall a :: a in original ==> original[a] == before.edges[a].weight
      modifies this`graph
      ensures graph == before
    {
      var arcs := original.Keys;
      while arcs != {}
        invariant arcs <= before.edges.Keys && SameButWeights(graph, before)
        invariant forall a :: a in before.edges && a !in arcs ==> graph.edges[a] == before.edges[a]
        decreases arcs
      {
        var a :| a in arcs;
        graph := SetWeight(graph, a.from, a.to, original[a]);
        arcs := arcs - {a};
      }
      assert graph.edges == before.edges;
    }

    // One round: search, and penalise the edges of the path that was found.
    method NextAlternative(start: Node, end: Node, ghost now: Query) returns (route: Answer)
      requires Valid() && NonNegative(graph) && start in graph.nodes && end in graph.nodes && now == Ask(start, end)
      modifies this`graph
      ensures route == AnswerTo(now)
      ensures graph == Next(now).g && SameButWeights(graph, old(graph))
    {
      route := AstarSearch(start, end);
      if route != NoPath {
        RouteIsSimplePath(now);
        PenalisePath(route.path);
        PenalisedSameButWeights(now.g, now.g, route.path);
      }
    }

    method FindAlternatives(origin: Position, destination: Position, numRoutes: int := 3) returns (routes: seq<Answer>)
      requires Valid() && NonNegative(graph)
      modifies this`graph
      ensures graph == old(graph)
      ensures graph.nodes == {} ==> routes == []
      ensures graph.nodes != {} ==> IsAlternatives(old(Ask(Nearest(origin), Nearest(destination))), numRoutes, routes)
    {
      routes := [];
      if graph.nodes == {} {
        return;
      }
      var startNode := FindNearestNode(origin);
      var endNode := FindNearestNode(destination);
      var start, end := startNode.value, endNode.value;
      ghost var before := graph;
      var originalWeights := map a | a in graph.edges :: graph.edges[a].weight;
      routes := CollectRoutes(start, end, numRoutes);
      RestoreWeights(originalWeights, before);
    }

    // The loop that alternates searches and penalties.
    method CollectRoutes(start: Node, end: Node, numRoutes: int) returns (routes: seq<Answer>)
      requires Valid() && NonNegative(graph) && start in graph.nodes && end in graph.nodes
      modifies this`graph
      ensures SameButWeights(graph, old(graph)) && graph == Round(old(Ask(start, end)), |routes|).g
      ensures IsAlternatives(old(Ask(start, end)), numRoutes, routes)
    {
      routes := [];
      ghost var before := graph;
      ghost var q := Ask(start, end);
      ghost var now := q;
      var left := numRoutes;
      while left > 0
        invariant left == numRoutes - |routes| && (left >= 0 || routes == [])
        invariant now == Round(q, |routes|) && graph == now.g && SameButWeights(graph, before)
        invariant AnswersRounds(q, routes)
        decreases left
      {
        var route := NextAlternative(start, end, now);
        if route == NoPath {
          NoFirstRoute(q, routes, now);
          break;
        }
        AnswersOneMore(q, routes, now, route);
        routes := routes + [route];
        now := Next(now);
        left := left - 1;
      }
      FirstRoute(q, routes);
    }
  }

  // The answers of the first rounds, all of which found a path.
  ghost predicate AnswersRounds(q: Query, routes: seq<Answer>)
    requires Askable(q)
  {
    forall k {:trigger routes[k]} :: 0 <= k < |routes| ==> Route(Round(q, k)).Some? && routes[k] == AnswerTo(Round(q, k))
  }

  // Either every round found a path, and there are as many as were asked for, or the
  // first one did not and there are none.
  ghost predicate IsAlternatives(q: Query, numRoutes: int, routes: seq<Answer>)
    requires Askable(q)
  {
    && |routes| == (if Route(q).None? || numRoutes < 0 then 0 else numRoutes)
    && AnswersRounds(q, routes)
  }

  // A route takes the road from u to v.
  lemma TakesMeans(q: Query, routes: seq<Answer>, u: Node, v: Node, k: nat)
    requires Askable(q) && AnswersRounds(q, routes) && k < |routes|
    ensures routes[k].Found?
    ensures UsedIn(q, u, v, k) <==>
              exists i :: 0 <= i < |routes[k].path| - 1 && routes[k].path[i] == u && routes[k].path[i + 1] == v
  {
    assert routes[k] == AnswerTo(Round(q, k));
    UsesMeans(routes[k].path, u, v);
  }

  // The graph that is left when routes have been collected: every edge weighs 1.5 times as
  // much for every one of them that takes it.
  lemma RoutesWeigh(q: Query, routes: seq<Answer>, u: Node, v: Node, takers: set<nat>)
    requires Askable(q) && AnswersRounds(q, routes) && HasEdge(q.g, u, v)
    requires forall k: nat :: k in takers <==>
               && k < |routes| && routes[k].Found?
               && exists i :: 0 <= i < |routes[k].path| - 1 && routes[k].path[i] == u && routes[k].path[i + 1] == v
    ensures HasEdge(Round(q, |routes|).g, u, v)
    ensures Weight(Round(q, |routes|).g, u, v) == Weight(q.g, u, v) * Power(1.5, |takers|)
  {
    var n := |routes|;
    forall k: nat ensures k in takers <==> k < n && UsedIn(q, u, v, k) {
      if k < n {
        TakesMeans(q, routes, u, v, k);
      }
    }
    RoundWeighs(q, u, v, n, takers);
  }

  lemma NoFirstRoute(q: Query, routes: seq<Answer>, now: Query)
    requires Askable(q) && AnswersRounds(q, routes) && now == Round(q, |routes|) && Route(now).None?
    ensures Route(q).None? && routes == []
  {
    RoundsFindTogether(q, |routes|);
    FirstRoute(q, routes);
  }

  lemma FirstRoute(q: Query, routes: seq<Answer>)
    requires Askable(q) && AnswersRounds(q, routes)
    ensures routes != [] ==> Route(q).Some? && routes[0] == AnswerTo(q)
  {
    assert Round(q, 0) == q;
    assert routes != [] ==> routes[0] == AnswerTo(Round(q, 0));
  }

  lemma AnswersOneMore(q: Query, routes: seq<Answer>, now: Query, route: Answer)
    requires Askable(q) && AnswersRounds(q, routes) && now == Round(q, |routes|)
    requires Route(now).Some? && route == AnswerTo(now)
    ensures AnswersRounds(q, routes + [route])
    ensures Next(now) == Round(q, |routes + [route]|)
  {
    var more := routes + [route];
    forall k | 0 <= k < |more| ensures Route(Round(q, k)).Some? && more[k] == AnswerTo(Round(q, k)) {
      if k < |routes| {
        assert more[k] == routes[k];
      } else {
        assert k == |routes|;
      }
    }
    assert |more| - 1 == |routes|;
  }
}
