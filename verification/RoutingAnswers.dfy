/** What the engine's graph and answers are in plain terms: which junction, road and reading
  ends up where, and what an answer says.
 */
module RoutingAnswers {
  import opened Walks
  import opened Wrappers
  import opened Sequences
  import opened Powers
  import opened AStar
  import opened Alternatives
  import opened Distances
  import opened Routing

  // ----- Building -----

  // A junction stands where its last entry puts it, and only named junctions have positions.
  lemma {:induction false} LastPosition(junctions: seq<Junction>, k: nat)
    requires k < |junctions| && forall m :: k < m < |junctions| ==> junctions[m].id != junctions[k].id
    ensures junctions[k].id in PositionsOf(junctions)
    ensures PositionsOf(junctions)[junctions[k].id] == Position(junctions[k].position.lat, junctions[k].position.lon)
  {
    var last := |junctions| - 1;
    if k < last {
      LastPosition(junctions[..last], k);
    }
  }

  lemma {:induction false} OnlyNamed(junctions: seq<Junction>, id: Node)
    ensures id in PositionsOf(junctions) <==> exists k :: 0 <= k < |junctions| && junctions[k].id == id
  {
    if junctions != [] {
      var last := |junctions| - 1;
      OnlyNamed(junctions[..last], id);
      assert forall k :: 0 <= k < last ==> junctions[..last][k] == junctions[k];
    }
  }

  lemma {:induction false} SeenAreNamed(junctions: seq<Junction>)
    ensures Distinct(FirstSeen(junctions))
    ensures forall b :: b in FirstSeen(junctions) <==> exists k :: 0 <= k < |junctions| && junctions[k].id == b
  {
    if junctions != [] {
      var last := |junctions| - 1;
      SeenAreNamed(junctions[..last]);
      assert junctions == junctions[..last] + [junctions[last]];
    }
  }

  // The order in which ties between junctions are decided: each comes where it is first
  // named, before every junction that is named later only.
  lemma {:induction false} SeenInOrder(junctions: seq<Junction>, a: nat, b: nat)
    requires a < b < |FirstSeen(junctions)|
    ensures exists k :: 0 <= k < |junctions| && junctions[k].id == FirstSeen(junctions)[a]
                     && forall m :: 0 <= m <= k ==> junctions[m].id != FirstSeen(junctions)[b]
  {
    var last := |junctions| - 1;
    var before := FirstSeen(junctions[..last]);
    SeenAreNamed(junctions[..last]);
    if b < |before| {
      SeenInOrder(junctions[..last], a, b);
      var k :| 0 <= k < last && junctions[..last][k].id == before[a] && forall m :: 0 <= m <= k ==> junctions[..last][m].id != before[b];
      assert junctions[k].id == before[a] && forall m :: 0 <= m <= k ==> junctions[m].id == junctions[..last][m].id;
    } else {
      assert before[a] in before;
      var k :| 0 <= k < last && junctions[..last][k].id == before[a];
      assert junctions[k].id == before[a];
      forall m | 0 <= m <= k ensures junctions[m].id != junctions[last].id {
        assert junctions[..last][m].id == junctions[m].id;
      }
    }
  }

  // An edge is made of the last road between its ends: the distance is its weight, and
  // speed and capacity are the given ones, or 50 and 1000.
  lemma {:induction false} LastRoad(roads: seq<Road>, position: map<Node, Position>,
                                    d: (Position, Position) -> real, k: nat)
    requires Named(position, roads) && k < |roads|
    requires forall m :: k < m < |roads| ==> roads[m].from != roads[k].from || roads[m].to != roads[k].to
    ensures roads[k] in roads
    ensures var arc, r := Arc(roads[k].from, roads[k].to), roads[k];
            && arc in EdgesOf(roads, position, d)
            && EdgesOf(roads, position, d)[arc].distance == d(position[r.from], position[r.to])
            && EdgesOf(roads, position, d)[arc].weight == d(position[r.from], position[r.to])
            && EdgesOf(roads, position, d)[arc].speed == (match r.speed case Some(v) => v case None => 50.0)
            && EdgesOf(roads, position, d)[arc].capacity == (match r.capacity case Some(v) => v case None => 1000.0)
  {
    var last := |roads| - 1;
    if k < last {
      assert roads[..last][k] == roads[k];
      LastRoad(roads[..last], position, d, k);
    }
  }

  // ----- Reweighting -----

  // A reading under "u-v" gives the edge from u to v the sum of 0.4 times the minutes it
  // takes, 3 times its congestion up to one, and 0.3 times its length; nothing else changes.
  lemma ReweightedEdge(g: Graph, traffic: map<string, Reading>, u: Node, v: Node)
    requires Applicable(g, traffic) && Arc(u, v) in g.edges
    ensures Arc(u, v) in Reweighted(g, traffic).edges
    ensures u + "-" + v !in traffic ==> Reweighted(g, traffic).edges[Arc(u, v)] == g.edges[Arc(u, v)]
    ensures u + "-" + v in traffic ==>
              var e, r := g.edges[Arc(u, v)], traffic[u + "-" + v];
              var reported := match r.speed case Some(x) => x case None => e.speed;
              var speed := if reported > 1.0 then reported else 1.0;
              var density := match r.density case Some(x) => x case None => 0.0;
              && e.capacity != 0.0
              && var load := density / e.capacity;
                 var minutes := e.distance / speed * 60.0;
                 var weight := 0.4 * minutes + 3.0 * (if load < 1.0 then load else 1.0) + 0.3 * e.distance;
                 Reweighted(g, traffic).edges[Arc(u, v)] == Edge(e.distance, weight, e.speed, e.capacity)
  {
  }

  // Opposite roads have readings of their own.
  lemma ReadingsAreDirected(g: Graph, traffic: map<string, Reading>, u: Node, v: Node)
    requires Applicable(g, traffic) && Arc(u, v) in g.edges && Arc(v, u) in g.edges
    requires u + "-" + v !in traffic
    ensures Arc(u, v) in Reweighted(g, traffic).edges
    ensures Reweighted(g, traffic).edges[Arc(u, v)].weight == g.edges[Arc(u, v)].weight
  {
    ReweightedEdge(g, traffic, u, v);
  }

  // ----- Answers -----

  lemma {:induction false} LengthIsCost(g: Graph, now: Graph, p: seq<Node>, i: nat)
    requires SameButWeights(now, g) && IsWalk(now, p) && IsWalk(g, p) && i < |p|
    requires forall a :: a in g.edges ==> g.edges[a].weight == g.edges[a].distance
    ensures Length(now, p, i) == Cost(g, p, i)
  {
    if i > 0 {
      LengthIsCost(g, now, p, i - 1);
      assert HasEdge(g, p[i - 1], p[i]);
    }
  }

  // The distance of an answer is the sum of the straight lines along its path, however often
  // the weights have been changed since the graph was built.
  lemma DistanceAddsUp(position: map<Node, Position>, roads: seq<Road>, d: (Position, Position) -> real,
                       now: Graph, p: seq<Node>)
    requires Named(position, roads) && SameButWeights(now, Graph(position.Keys, EdgesOf(roads, position, d)))
    requires IsWalk(now, p)
    ensures IsWalk(Graph(position.Keys, EdgesOf(roads, position, d)), p)
    ensures Length(now, p, |p| - 1) == Total(Graph(position.Keys, EdgesOf(roads, position, d)), p)
  {
    var g := Graph(position.Keys, EdgesOf(roads, position, d));
    BuiltEdges(roads, position, d);
    assert forall u, v :: HasEdge(now, u, v) ==> HasEdge(g, u, v);
    LengthIsCost(g, now, p, |p| - 1);
  }

  // "No path found" means that there is none; a path is a way from start to end without
  // repetitions, and under an admissible estimate the cheapest.
  lemma AnswerMeans(q: Query)
    requires Askable(q)
    ensures AnswerTo(q) == NoPath <==> !exists w :: WalkFromTo(q.g, w, q.start, q.end)
    ensures AnswerTo(q) == NoPath || AnswerTo(q).Found?
    ensures AnswerTo(q).Found? ==>
              var p := AnswerTo(q).path;
              && WalkFromTo(q.g, p, q.start, q.end)
              && (forall i, j :: 0 <= i < j < |p| ==> p[i] != p[j])
              && (Admissible(q) ==> forall w :: WalkFromTo(q.g, w, q.start, q.end) ==> Total(q.g, p) <= Total(q.g, w))
  {
    RouteIsNoneIffUnreachable(q);
    if Route(q).Some? {
      RouteIsSimplePath(q);
      if Admissible(q) {
        RouteIsOptimal(q);
      }
    }
  }

  // The nearest node is the first inserted of those at the least distance.
  lemma NearestMeans(e: RoutingEngine, p: Position)
    requires e.Valid() && e.graph.nodes != {}
    ensures e.Nearest(p) in e.nodePositions
    ensures forall n :: n in e.nodePositions ==>
              e.haversine(p, e.nodePositions[e.Nearest(p)]) <= e.haversine(p, e.nodePositions[n])
    ensures exists k :: 0 <= k < |e.order| && e.order[k] == e.Nearest(p)
                     && forall i :: 0 <= i < k ==>
                          && e.order[i] in e.nodePositions
                          && e.haversine(p, e.nodePositions[e.Nearest(p)]) < e.haversine(p, e.nodePositions[e.order[i]])
  {
    NonEmptyOrder(e.order);
    NearestIsFirstMinimum(e.order, e.DistancesFrom(p));
    assert forall n :: n in e.nodePositions ==> n in Elements(e.order);
    assert forall i :: 0 <= i < |e.order| ==> e.order[i] in Elements(e.order);
  }

  // An engine's question starts at the start, ends at the end, and is asked of its graph.
  lemma AskMeans(e: RoutingEngine, start: Node, end: Node, n: Node)
    requires e.Valid() && end in e.nodePositions
    ensures var q := e.Ask(start, end);
            && q.g == e.graph && q.start == start && q.end == end
            && Estimate(q, n) == if n in e.nodePositions then e.haversine(e.nodePositions[n], e.nodePositions[end]) else 0.0
  {
  }

  // Alternatives are as many as asked for, or none if there is no way at all; the first is
  // the plain answer.
  lemma AlternativesMean(q: Query, numRoutes: int, routes: seq<Answer>)
    requires Askable(q) && IsAlternatives(q, numRoutes, routes)
    ensures |routes| == if numRoutes < 0 || !(exists w :: WalkFromTo(q.g, w, q.start, q.end)) then 0 else numRoutes
    ensures routes != [] ==> routes[0] == AnswerTo(q)
  {
    RouteIsNoneIffUnreachable(q);
    FirstRoute(q, routes);
  }

  lemma AlternativeOfRound(q: Query, routes: seq<Answer>, k: nat)
    requires Askable(q) && AnswersRounds(q, routes) && k < |routes|
    ensures routes[k].Found? && Route(Round(q, k)) == Some(routes[k].path)
  {
    assert routes[k] == AnswerTo(Round(q, k));
  }

  // Each is a way from start to end without repetitions.
  lemma AlternativeIsWay(q: Query, routes: seq<Answer>, k: nat)
    requires Askable(q) && AnswersRounds(q, routes) && k < |routes|
    ensures routes[k].Found? && WalkFromTo(q.g, routes[k].path, q.start, q.end)
    ensures forall i, j :: 0 <= i < j < |routes[k].path| ==> routes[k].path[i] != routes[k].path[j]
  {
    AlternativeOfRound(q, routes, k);
    RoundsFindTogether(q, k);
  }

  // Under an admissible estimate it costs at most 1.5^k times any other, in the weights of
  // the question.
  lemma AlternativeCosts(q: Query, routes: seq<Answer>, k: nat, w: seq<Node>)
    requires Askable(q) && AnswersRounds(q, routes) && k < |routes| && Admissible(q)
    requires WalkFromTo(q.g, w, q.start, q.end)
    ensures routes[k].Found? && IsWalk(q.g, routes[k].path)
    ensures Total(q.g, routes[k].path) <= Power(1.5, k) * Total(q.g, w)
  {
    AlternativeOfRound(q, routes, k);
    AlternativeWithin(q, k);
    WithinOne(q, routes[k].path, k, w);
  }

  lemma AlternativeWithin(q: Query, k: nat)
    requires Askable(q) && Admissible(q) && Route(Round(q, k)).Some?
    ensures Within(q, Route(Round(q, k)).value, k, 1.0)
  {
    assert forall x :: Times(1.0, x) == x;
    AlternativesWithinFactor(q, k, 1.0);
  }

  lemma WithinOne(q: Query, p: seq<Node>, k: nat, w: seq<Node>)
    requires Within(q, p, k, 1.0) && WalkFromTo(q.g, w, q.start, q.end)
    ensures Total(q.g, p) <= Power(1.5, k) * Total(q.g, w)
  {
    RaisedIsProduct(k, Total(q.g, w));
    assert Times(1.0, Raised(k, Total(q.g, w))) == Raised(k, Total(q.g, w));
  }
}
