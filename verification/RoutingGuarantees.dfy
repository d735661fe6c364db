/** What the routing engine promises on a freshly built graph, and on one that traffic has
  reweighted any number of times.
 */
module RoutingGuarantees {
  import opened Walks
  import opened Powers
  import opened AStar
  import opened Alternatives
  import opened Distances
  import opened Routing

  ghost predicate Cheapest(q: Query, p: seq<Node>) {
    && WalkFromTo(q.g, p, q.start, q.end)
    && forall w :: WalkFromTo(q.g, w, q.start, q.end) ==> Total(q.g, p) <= Total(q.g, w)
  }

  // ----- Freshly built graphs -----

  ghost function BuiltQuery(position: map<Node, Position>, roads: seq<Road>,
                            d: (Position, Position) -> real, start: Node, end: Node): Query
    requires Named(position, roads) && end in position
  {
    Query(Graph(position.Keys, EdgesOf(roads, position, d)), map n | n in position :: d(position[n], position[end]),
          start, end)
  }

  lemma BuiltQueryFacts(position: map<Node, Position>, roads: seq<Road>,
                        d: (Position, Position) -> real, start: Node, end: Node)
    requires Metric(d) && Named(position, roads) && start in position && end in position
    ensures var q := BuiltQuery(position, roads, d, start, end);
            Askable(q) && StraightLine(q, position, d) && Stretched(q, 1.0)
  {
    var q := BuiltQuery(position, roads, d, start, end);
    BuiltEdges(roads, position, d);
    assert forall u, v :: HasEdge(q.g, u, v) ==> Times(1.0, Weight(q.g, u, v)) == d(position[u], position[v]);
    StraightLineIsStretched(q, position, d, 1.0);
  }

  // The route on a built graph is the shortest, and its alternatives stay within 1.5^k.
  lemma BuiltRouteIsShortest(position: map<Node, Position>, roads: seq<Road>,
                             d: (Position, Position) -> real, start: Node, end: Node, k: nat)
    requires Metric(d) && Named(position, roads) && start in position && end in position
    ensures var q := BuiltQuery(position, roads, d, start, end);
            && Askable(q)
            && (Route(q).Some? ==>
                  && Cheapest(q, Route(q).value)
                  && Route(Round(q, k)).Some?
                  && Within(q, Route(Round(q, k)).value, k, 1.0))
  {
    var q := BuiltQuery(position, roads, d, start, end);
    BuiltQueryFacts(position, roads, d, start, end);
    AllRoundsWithin(q, k, 1.0);
  }

  lemma AllRoundsWithin(q: Query, k: nat, c: real)
    requires Askable(q) && Stretched(q, c)
    ensures Route(q).Some? ==> Route(Round(q, k)).Some? && Within(q, Route(Round(q, k)).value, k, c)
    ensures Route(q).Some? && c == 1.0 ==> Cheapest(q, Route(q).value)
  {
    if Route(q).Some? {
      RoundsFindTogether(q, k);
      AlternativesWithinFactor(q, k, c);
      RouteIsWithin(q, c);
      assert c == 1.0 ==> forall x :: Times(c, x) == x;
    }
  }

  // An engine that has just built its graph asks exactly these queries.
  lemma EngineAsksBuiltQuery(e: RoutingEngine, roads: seq<Road>, start: Node, end: Node)
    requires e.Valid() && Named(e.nodePositions, roads) && start in e.nodePositions && end in e.nodePositions
    requires e.graph == Graph(e.nodePositions.Keys, EdgesOf(roads, e.nodePositions, e.haversine))
    ensures e.Ask(start, end) == BuiltQuery(e.nodePositions, roads, e.haversine, start, end)
  {
  }

  // ----- Reweighted graphs -----

  // Traffic at speeds up to a limit and at densities from 0 to a load.
  ghost predicate UpTo(g: Graph, traffic: map<string, Reading>, limit: real, load: real) {
    forall a :: a in g.edges && EdgeId(a) in traffic ==>
      && g.edges[a].capacity > 0.0
      && SpeedOf(g.edges[a], traffic[EdgeId(a)]) <= limit
      && 0.0 <= OrElse(traffic[EdgeId(a)].density, 0.0) <= load
  }

  // What the engine searches after it has built a graph and traffic has reweighted it.
  ghost function TrafficQuery(position: map<Node, Position>, roads: seq<Road>, d: (Position, Position) -> real,
                              start: Node, end: Node, traffic: map<string, Reading>): Query
    requires Named(position, roads) && end in position
    requires Applicable(Graph(position.Keys, EdgesOf(roads, position, d)), traffic)
  {
    var q := BuiltQuery(position, roads, d, start, end);
    q.(g := Reweighted(q.g, traffic))
  }

  // No edge of the reweighted graph is longer than the excess allows.
  lemma TrafficQueryFacts(position: map<Node, Position>, roads: seq<Road>, d: (Position, Position) -> real,
                          start: Node, end: Node, traffic: map<string, Reading>, limit: real, load: real)
    requires Metric(d) && Named(position, roads) && start in position && end in position && limit >= 1.0
    requires UpTo(BuiltQuery(position, roads, d, start, end).g, traffic, limit, load)
    ensures var q := TrafficQuery(position, roads, d, start, end, traffic);
            Askable(q) && Stretched(q, Excess(limit))
  {
    var built, c := BuiltQuery(position, roads, d, start, end), Excess(limit);
    var q := TrafficQuery(position, roads, d, start, end, traffic);
    BuiltEdges(roads, position, d);
    forall u, v | HasEdge(q.g, u, v)
      ensures HasEdge(built.g, u, v)
      ensures Weight(q.g, u, v) >= 0.0 && d(position[u], position[v]) <= Times(c, Weight(q.g, u, v))
    {
      var a := Arc(u, v);
      if EdgeId(a) in traffic {
        EdgeCoversDistance(built.g.edges[a], traffic[EdgeId(a)], limit);
      } else {
        StretchMore(c, Weight(q.g, u, v));
      }
    }
    StraightLineIsStretched(q, position, d, c);
  }

  // A route is found after reweighting if and only if one was found before.
  lemma TrafficKeepsReachability(position: map<Node, Position>, roads: seq<Road>, d: (Position, Position) -> real,
                                 start: Node, end: Node, traffic: map<string, Reading>, limit: real, load: real)
    requires Metric(d) && Named(position, roads) && start in position && end in position && limit >= 1.0
    requires UpTo(BuiltQuery(position, roads, d, start, end).g, traffic, limit, load)
    ensures var built := BuiltQuery(position, roads, d, start, end);
            var q := TrafficQuery(position, roads, d, start, end, traffic);
            Askable(built) && Askable(q) && (Route(q).Some? <==> Route(built).Some?)
  {
    var built := BuiltQuery(position, roads, d, start, end);
    var q := TrafficQuery(position, roads, d, start, end, traffic);
    BuiltQueryFacts(position, roads, d, start, end);
    TrafficQueryFacts(position, roads, d, start, end, traffic, limit, load);
    assert forall u, v :: HasEdge(q.g, u, v) <==> HasEdge(built.g, u, v);
    assert forall w :: WalkFromTo(q.g, w, start, end) <==> WalkFromTo(built.g, w, start, end);
    RouteIsNoneIffUnreachable(built);
    RouteIsNoneIffUnreachable(q);
  }

  // At any speeds up to a limit and any densities, routes cost at most the excess times the
  // cheapest walk, and the k-th alternative that times 1.5^k.  The excess is 1 up to the
  // safe speed and below 10/3 always.
  lemma TrafficRouteIsWithin(position: map<Node, Position>, roads: seq<Road>, d: (Position, Position) -> real,
                             start: Node, end: Node, traffic: map<string, Reading>, limit: real, load: real, k: nat)
    requires Metric(d) && Named(position, roads) && start in position && end in position && limit >= 1.0
    requires UpTo(BuiltQuery(position, roads, d, start, end).g, traffic, limit, load)
    ensures var q := TrafficQuery(position, roads, d, start, end, traffic);
            && Askable(q)
            && (Route(q).Some? ==>
                  && (limit <= SAFE_SPEED ==> Cheapest(q, Route(q).value))
                  && Route(Round(q, k)).Some?
                  && Within(q, Route(Round(q, k)).value, k, Excess(limit)))
  {
    TrafficQueryFacts(position, roads, d, start, end, traffic, limit, load);
    AllRoundsWithin(TrafficQuery(position, roads, d, start, end, traffic), k, Excess(limit));
  }

  // ----- Repeated updates -----

  lemma {:induction false} MergedUpTo(g: Graph, updates: seq<map<string, Reading>>, limit: real, load: real)
    requires forall t :: t in updates ==> UpTo(g, t, limit, load)
    ensures UpTo(g, Merged(updates), limit, load)
  {
    if updates != [] {
      MergedUpTo(g, updates[..|updates| - 1], limit, load);
      assert updates[|updates| - 1] in updates;
    }
  }

  // An engine that has built its graph and then updated it any number of times searches the
  // query of the latest readings.
  lemma EngineAsksTrafficQuery(e: RoutingEngine, roads: seq<Road>, updates: seq<map<string, Reading>>,
                               start: Node, end: Node)
    requires e.Valid() && Named(e.nodePositions, roads) && start in e.nodePositions && end in e.nodePositions
    requires var built := Graph(e.nodePositions.Keys, EdgesOf(roads, e.nodePositions, e.haversine));
             (forall t :: t in updates ==> Applicable(built, t)) && e.graph == ReweightedAll(built, updates)
    ensures Applicable(Graph(e.nodePositions.Keys, EdgesOf(roads, e.nodePositions, e.haversine)), Merged(updates))
    ensures e.Ask(start, end) == TrafficQuery(e.nodePositions, roads, e.haversine, start, end, Merged(updates))
  {
    UpdatesMerge(Graph(e.nodePositions.Keys, EdgesOf(roads, e.nodePositions, e.haversine)), updates);
  }

  // However often such an engine was updated at speeds up to a limit, its routes and
  // alternatives stay within the excess.
  lemma EngineRouteIsWithin(e: RoutingEngine, roads: seq<Road>, updates: seq<map<string, Reading>>,
                            start: Node, end: Node, limit: real, load: real, k: nat)
    requires Metric(e.haversine) && limit >= 1.0
    requires e.Valid() && Named(e.nodePositions, roads) && start in e.nodePositions && end in e.nodePositions
    requires var built := Graph(e.nodePositions.Keys, EdgesOf(roads, e.nodePositions, e.haversine));
             && (forall t :: t in updates ==> Applicable(built, t) && UpTo(built, t, limit, load))
             && e.graph == ReweightedAll(built, updates)
    ensures var q := e.Ask(start, end);
            && Askable(q)
            && (Route(q).Some? ==>
                  && (limit <= SAFE_SPEED ==> Cheapest(q, Route(q).value))
                  && Route(Round(q, k)).Some?
                  && Within(q, Route(Round(q, k)).value, k, Excess(limit)))
  {
    EngineAsksTrafficQuery(e, roads, updates, start, end);
    MergedUpTo(BuiltQuery(e.nodePositions, roads, e.haversine, start, end).g, updates, limit, load);
    TrafficRouteIsWithin(e.nodePositions, roads, e.haversine, start, end, Merged(updates), limit, load, k);
  }
}
