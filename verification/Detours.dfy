/** How good the bounds on reweighted graphs are: a detour that the search misses, and with
  it the exact factor by which routes can exceed the cheapest walk at a given speed.
 */
module Detours {
  import opened Walks
  import opened OpenSet
  import opened Wrappers
  import opened Powers
  import opened AStar
  import opened Distances
  import opened Routing
  import opened RoutingGuarantees

  // On every built graph, under every such traffic, routes cost at most c times any walk.
  ghost predicate KeptWithin(d: (Position, Position) -> real, limit: real, load: real, c: real) {
    forall position, roads, start, end, traffic ::
      Named(position, roads) && start in position && end in position
      && UpTo(BuiltQuery(position, roads, d, start, end).g, traffic, limit, load)
      ==> RouteKept(TrafficQuery(position, roads, d, start, end, traffic), c)
  }

  ghost predicate RouteKept(q: Query, c: real) {
    Askable(q) && Route(q).Some? ==>
      && WalkFromTo(q.g, Route(q).value, q.start, q.end)
      && forall w :: WalkFromTo(q.g, w, q.start, q.end) ==> Total(q.g, Route(q).value) <= Times(c, Total(q.g, w))
  }

  lemma ExcessKeeps(d: (Position, Position) -> real, limit: real, load: real, c: real)
    requires Metric(d) && limit >= 1.0 && c >= Excess(limit)
    ensures KeptWithin(d, limit, load, c)
  {
    forall position, roads, start, end, traffic |
      Named(position, roads) && start in position && end in position
      && UpTo(BuiltQuery(position, roads, d, start, end).g, traffic, limit, load)
      ensures RouteKept(TrafficQuery(position, roads, d, start, end, traffic), c)
    {
      TrafficQueryFacts(position, roads, d, start, end, traffic, limit, load);
      MoreExcess(TrafficQuery(position, roads, d, start, end, traffic), Excess(limit), c);
    }
  }

  lemma MoreExcess(q: Query, excess: real, c: real)
    requires Askable(q) && Stretched(q, excess) && c >= excess
    ensures RouteKept(q, c)
  {
    if Route(q).Some? {
      RouteIsWithin(q, excess);
      forall w | WalkFromTo(q.g, w, q.start, q.end) ensures Total(q.g, Route(q).value) <= Times(c, Total(q.g, w)) {
        CostNonNegative(q.g, w, |w| - 1);
        TimesOrder(Total(q.g, w), excess, c);
      }
    }
  }

  // ----- Speeds and weights -----

  // What a unit of distance weighs at a speed, without congestion.
  function UnitWeight(speed: real): real
    requires speed >= 1.0
  {
    0.4 * (60.0 / speed) + 0.3
  }

  function Uncongested(distance: real, speed: real): Edge
    requires speed >= 1.0
  {
    Edge(distance, Times(distance, UnitWeight(speed)), 50.0, 1000.0)
  }

  function NewRoad(distance: real): Edge {
    Edge(distance, distance, 50.0, 1000.0)
  }

  lemma UncongestedWeight(distance: real, speed: real)
    requires speed >= 1.0
    ensures var e, r := NewRoad(distance), Reading(Some(speed), None);
            SpeedOf(e, r) == speed && e.(weight := NewWeight(e, r)) == Uncongested(distance, speed)
  {
    assert Congestion(0.0, 1000.0) == 0.0;
    var t := distance / speed;
    assert t * 60.0 == distance * (60.0 / speed);
    assert distance * (0.4 * (60.0 / speed) + 0.3) == 0.4 * (distance * (60.0 / speed)) + 0.3 * distance;
  }

  // The excess is the inverse of the unit weight, if that is below one.
  lemma ExcessIsInverse(limit: real)
    requires limit >= 1.0
    ensures UnitWeight(limit) > 0.0
    ensures limit > SAFE_SPEED ==> Times(Excess(limit), UnitWeight(limit)) == 1.0 && UnitWeight(limit) < 1.0
  {
    var unit := UnitWeight(limit);
    var x := 60.0 / limit;
    assert x * limit == 60.0;
    assert unit * limit * 10.0 == 240.0 + 3.0 * limit;
  }

  // A speed up to the limit at which a unit of distance has a given weight.
  lemma SpeedForWeight(unit: real, limit: real) returns (speed: real)
    requires limit >= 1.0 && UnitWeight(limit) <= unit < 1.0
    ensures 1.0 <= speed <= limit && UnitWeight(speed) == unit
  {
    var x := (unit - 0.3) / 0.4;
    var y := 60.0 / limit;
    assert y * limit == 60.0 && 0.0 < y <= x < 60.0;
    speed := 60.0 / x;
    assert speed * x == 60.0;
    Compare(speed, x, 60.0, 1.0);
    Compare(speed, x, 60.0, limit);
    TimesOrder(limit, y, x);
    assert 60.0 / speed == x;
  }

  // ----- A detour that the search misses -----

  // A way from s to e by a, of two edges of lengths l1 and l2 and weights w1 and w2, and a
  // direct road of length l1 + l2 and weight w.
  datatype Detour = Detour(s: Node, a: Node, e: Node, l1: real, l2: real, w1: real, w2: real, w: real) {

    // The direct road costs more than the detour, but less than the detour seems to from a.
    ghost predicate Tempting() {
      && s != a && a != e && s != e && DistinctIds()
      && w1 >= 0.0 && w2 >= 0.0 && w1 + w2 < w < w1 + l2
    }

    ghost function Roads(): Graph {
      Graph({s, a, e},
            map[Arc(s, a) := Edge(l1, w1, 50.0, 1000.0), Arc(a, e) := Edge(l2, w2, 50.0, 1000.0),
                Arc(s, e) := Edge(l1 + l2, w, 50.0, 1000.0)])
    }

    // The roads and readings that make it.
    function RoadList(): seq<Road> {
      [Road(s, a, None, None), Road(a, e, None, None), Road(s, e, None, None)]
    }

    function Traffic(fast: real, direct: real): map<string, Reading> {
      map[EdgeId(Arc(s, a)) := Reading(Some(fast), None), EdgeId(Arc(a, e)) := Reading(Some(fast), None),
          EdgeId(Arc(s, e)) := Reading(Some(direct), None)]
    }

    ghost predicate MadeBy(fast: real, direct: real) {
      && fast >= 1.0 && direct >= 1.0
      && w1 == Times(l1, UnitWeight(fast)) && w2 == Times(l2, UnitWeight(fast))
      && w == Times(l1 + l2, UnitWeight(direct))
    }

    predicate DistinctIds() {
      var ids := [EdgeId(Arc(s, a)), EdgeId(Arc(a, e)), EdgeId(Arc(s, e))];
      ids[0] != ids[1] && ids[0] != ids[2] && ids[1] != ids[2]
    }

    ghost predicate IsQuery(q: Query) {
      q.g == Roads() && q.start == s && q.end == e && Estimate(q, a) == l2 && Estimate(q, e) == 0.0
    }

    // Three points on a line.
    ghost predicate Placed(d: (Position, Position) -> real, position: map<Node, Position>) {
      && position.Keys == {s, a, e}
      && d(position[s], position[a]) == l1 && d(position[a], position[e]) == l2
      && d(position[s], position[e]) == l1 + l2
    }
  }

  lemma FirstPop(q: Query)
    requires Askable(q)
    ensures Inv(q, Initial(q)) && Least(Initial(q).open) == Entry(0.0, q.start)
    ensures Expand(q, Initial(q)) == Relax(q, Search(multiset{}, map[q.start := 0.0], map[]), q.start)
  {
    InitialInv(q);
    assert Initial(q).open - multiset{Entry(0.0, q.start)} == multiset{};
  }

  lemma DetourEdges(q: Query, x: Detour)
    requires x.Tempting() && x.IsQuery(q)
    ensures Askable(q) && Successors(q.g, x.s) == {x.a, x.e}
    ensures Weight(q.g, x.s, x.a) == x.w1 && Weight(q.g, x.a, x.e) == x.w2 && Weight(q.g, x.s, x.e) == x.w
  {
  }

  // After the first expansion both neighbours wait, and the end comes first.
  lemma DetourFirstStep(q: Query, x: Detour, rest: Search)
    requires x.Tempting() && x.IsQuery(q) && Askable(q)
    requires rest == Search(multiset{}, map[x.s := 0.0], map[])
    ensures Relax(q, rest, x.s).parent == map[x.a := x.s, x.e := x.s]
    ensures forall e :: e in Relax(q, rest, x.s).open <==> e == Entry(x.w1 + x.l2, x.a) || e == Entry(x.w, x.e)
  {
    DetourEdges(q, x);
    var better := Improved(q, rest.score, x.s, Successors(q.g, x.s));
    assert better == {x.a, x.e};
    PushedEntries(q, rest, x.s);
    assert Via(q, rest.score, x.s, x.a) == x.w1 && Via(q, rest.score, x.s, x.e) == x.w;
  }

  lemma EndComesFirst(x: Detour, heap: multiset<Entry>)
    requires x.Tempting()
    requires forall e :: e in heap <==> e == Entry(x.w1 + x.l2, x.a) || e == Entry(x.w, x.e)
    ensures heap != multiset{} && Least(heap).node == x.e
  {
    assert Entry(x.w, x.e) in heap;
    assert Le(Least(heap), Entry(x.w, x.e));
  }

  lemma DetourTrace(parent: map<Node, Node>, x: Detour)
    requires x.Tempting() && parent == map[x.a := x.s, x.e := x.s] && Acyclic(parent)
    ensures TraceBack(parent, [x.e]) == [x.s, x.e]
  {
  }

  lemma DetourSearch(q: Query, x: Detour)
    requires x.Tempting() && x.IsQuery(q) && Askable(q)
    ensures Route(q) == Some([x.s, x.e])
  {
    var s0 := Initial(q);
    FirstPop(q);
    var s1 := Expand(q, s0);
    DetourFirstStep(q, x, Search(multiset{}, map[x.s := 0.0], map[]));
    EndComesFirst(x, s1.open);
    SearchGoesOn(q, s0);
    DetourTrace(s1.parent, x);
    SearchEnds(q, s1);
  }

  lemma TwoStepCosts(g: Graph, p: seq<Node>)
    requires IsWalk(g, p) && 2 <= |p| <= 3
    ensures HasEdge(g, p[0], p[1]) && (|p| == 3 ==> HasEdge(g, p[1], p[2]))
    ensures Total(g, p) == Weight(g, p[0], p[1]) + if |p| == 3 then Weight(g, p[1], p[2]) else 0.0
  {
    assert Cost(g, p, 1) == Cost(g, p, 0) + Weight(g, p[0], p[1]);
  }

  // The search returns the direct road, though the detour is cheaper.
  lemma DetourIsMissed(q: Query, x: Detour)
    requires x.Tempting() && x.IsQuery(q)
    ensures Askable(q) && Route(q) == Some([x.s, x.e])
    ensures WalkFromTo(q.g, [x.s, x.e], x.s, x.e) && Total(q.g, [x.s, x.e]) == x.w
    ensures WalkFromTo(q.g, [x.s, x.a, x.e], x.s, x.e) && Total(q.g, [x.s, x.a, x.e]) == x.w1 + x.w2 < x.w
  {
    DetourEdges(q, x);
    DetourSearch(q, x);
    assert WalkFromTo(q.g, [x.s, x.e], x.s, x.e) && WalkFromTo(q.g, [x.s, x.a, x.e], x.s, x.e);
    TwoStepCosts(q.g, [x.s, x.e]);
    TwoStepCosts(q.g, [x.s, x.a, x.e]);
  }

  // ----- The roads and readings that make it -----

  lemma DetourEdgesOf(x: Detour, d: (Position, Position) -> real, position: map<Node, Position>)
    requires x.Tempting() && x.Placed(d, position)
    ensures Named(position, x.RoadList())
    ensures EdgesOf(x.RoadList(), position, d) ==
              map[Arc(x.s, x.a) := NewRoad(x.l1), Arc(x.a, x.e) := NewRoad(x.l2), Arc(x.s, x.e) := NewRoad(x.l1 + x.l2)]
  {
    var roads := x.RoadList();
    assert roads[..2][..1] == roads[..1] && roads[..1][..0] == [];
    assert EdgesOf(roads[..1], position, d) == map[Arc(x.s, x.a) := NewRoad(x.l1)];
    assert roads[..2][1] == roads[1];
  }

  ghost predicate IsNewDetour(x: Detour, g: Graph) {
    && g.nodes == {x.s, x.a, x.e}
    && g.edges ==
         map[Arc(x.s, x.a) := NewRoad(x.l1), Arc(x.a, x.e) := NewRoad(x.l2), Arc(x.s, x.e) := NewRoad(x.l1 + x.l2)]
  }

  lemma DetourUpTo(x: Detour, g: Graph, fast: real, direct: real, limit: real)
    requires x.Tempting() && x.MadeBy(fast, direct) && fast <= limit && direct <= limit && IsNewDetour(x, g)
    ensures UpTo(g, x.Traffic(fast, direct), limit, 0.0)
  {
    forall a | a in g.edges && EdgeId(a) in x.Traffic(fast, direct)
      ensures g.edges[a].capacity > 0.0 && SpeedOf(g.edges[a], x.Traffic(fast, direct)[EdgeId(a)]) <= limit
      ensures OrElse(x.Traffic(fast, direct)[EdgeId(a)].density, 0.0) == 0.0
    {
      if a == Arc(x.s, x.a) {
        DetourReading(x, g, a, fast, direct, fast, x.l1);
      } else if a == Arc(x.a, x.e) {
        DetourReading(x, g, a, fast, direct, fast, x.l2);
      } else {
        DetourReading(x, g, a, fast, direct, direct, x.l1 + x.l2);
      }
    }
  }

  lemma DetourReweighted(x: Detour, g: Graph, fast: real, direct: real)
    requires x.Tempting() && x.MadeBy(fast, direct) && IsNewDetour(x, g)
    requires Applicable(g, x.Traffic(fast, direct))
    ensures Reweighted(g, x.Traffic(fast, direct)) == x.Roads()
  {
    var r := Reweighted(g, x.Traffic(fast, direct));
    DetourReading(x, g, Arc(x.s, x.a), fast, direct, fast, x.l1);
    DetourReading(x, g, Arc(x.a, x.e), fast, direct, fast, x.l2);
    DetourReading(x, g, Arc(x.s, x.e), fast, direct, direct, x.l1 + x.l2);
    assert r.edges == x.Roads().edges;
  }

  lemma DetourReading(x: Detour, g: Graph, arc: Arc, fast: real, direct: real, speed: real, length: real)
    requires x.DistinctIds() && speed >= 1.0 && arc in g.edges && g.edges[arc] == NewRoad(length)
    requires (arc in [Arc(x.s, x.a), Arc(x.a, x.e)] && speed == fast) || (arc == Arc(x.s, x.e) && speed == direct)
    ensures var traffic := x.Traffic(fast, direct);
            && EdgeId(arc) in traffic && traffic[EdgeId(arc)] == Reading(Some(speed), None)
            && SpeedOf(g.edges[arc], traffic[EdgeId(arc)]) == speed && g.edges[arc].capacity == 1000.0
            && g.edges[arc].(weight := NewWeight(g.edges[arc], traffic[EdgeId(arc)])) == Uncongested(length, speed)
  {
    UncongestedWeight(length, speed);
  }

  // The detour is what traffic up to the limit, nowhere congested, makes of a built graph.
  lemma DetourIsTraffic(x: Detour, d: (Position, Position) -> real, fast: real, direct: real, limit: real,
                        position: map<Node, Position>)
    requires Metric(d) && x.Tempting() && x.Placed(d, position)
    requires x.MadeBy(fast, direct) && fast <= limit && direct <= limit
    ensures Named(position, x.RoadList())
    ensures UpTo(BuiltQuery(position, x.RoadList(), d, x.s, x.e).g, x.Traffic(fast, direct), limit, 0.0)
    ensures x.IsQuery(TrafficQuery(position, x.RoadList(), d, x.s, x.e, x.Traffic(fast, direct)))
  {
    DetourEdgesOf(x, d, position);
    var g := BuiltQuery(position, x.RoadList(), d, x.s, x.e).g;
    DetourUpTo(x, g, fast, direct, limit);
    DetourReweighted(x, g, fast, direct);
  }

  lemma DetourIsNotKept(q: Query, x: Detour, c: real)
    requires x.Tempting() && x.IsQuery(q) && x.w > Times(c, x.w1 + x.w2)
    ensures !RouteKept(q, c)
  {
    DetourIsMissed(q, x);
  }

  lemma OneIsNotKept(d: (Position, Position) -> real, limit: real, load: real, c: real,
                     position: map<Node, Position>, roads: seq<Road>, start: Node, end: Node, traffic: map<string, Reading>)
    requires Named(position, roads) && start in position && end in position
    requires UpTo(BuiltQuery(position, roads, d, start, end).g, traffic, limit, load)
    requires !RouteKept(TrafficQuery(position, roads, d, start, end, traffic), c)
    ensures !KeptWithin(d, limit, load, c)
  {
  }

  lemma DetourBreaks(x: Detour, d: (Position, Position) -> real, fast: real, direct: real, limit: real,
                     position: map<Node, Position>, c: real)
    requires Metric(d) && x.Tempting() && x.Placed(d, position)
    requires x.MadeBy(fast, direct) && fast <= limit && direct <= limit
    requires x.w > Times(c, x.w1 + x.w2)
    ensures !KeptWithin(d, limit, 0.0, c)
  {
    var roads, traffic := x.RoadList(), x.Traffic(fast, direct);
    DetourIsTraffic(x, d, fast, direct, limit, position);
    DetourIsNotKept(TrafficQuery(position, roads, d, x.s, x.e, traffic), x, c);
    OneIsNotKept(d, limit, 0.0, c, position, roads, x.s, x.e, traffic);
  }

  // ----- Where to put the middle -----

  ghost predicate Between(d: (Position, Position) -> real, a: Position, b: Position, c: Position, r: real) {
    d(a, b) == Times(d(a, c), r) && d(b, c) == Times(d(a, c), 1.0 - r)
  }

  // There are points between a and c in every ratio; great circles have them.
  ghost predicate Divisible(d: (Position, Position) -> real, a: Position, c: Position) {
    d(a, c) > 0.0 && forall r :: 0.0 < r < 1.0 ==> DividedAt(d, a, c, r)
  }

  ghost predicate DividedAt(d: (Position, Position) -> real, a: Position, c: Position, r: real) {
    exists b :: Between(d, a, b, c, r)
  }

  lemma DetourNames()
    ensures "s" != "a" && "a" != "e" && "s" != "e" && Detour("s", "a", "e", 1.0, 1.0, 1.0, 1.0, 1.0).DistinctIds()
  {
    assert "s"[0] != "a"[0] && "a"[0] != "e"[0] && "s"[0] != "e"[0];
    var ids := [EdgeId(Arc("s", "a")), EdgeId(Arc("a", "e")), EdgeId(Arc("s", "e"))];
    assert ids[0][0] != ids[1][0] && ids[0][2] != ids[2][2] && ids[1][0] != ids[2][0];
  }

  // What the detour seems to weigh from its middle, in units of the whole distance.
  function Seeming(r: real, unit: real): real {
    1.0 - Times(r, 1.0 - unit)
  }

  lemma SeemingBelowOne(r: real, unit: real)
    requires 0.0 < r && unit < 1.0
    ensures Seeming(r, unit) < 1.0
  {
    TimesStrictOrder(1.0 - unit, 0.0, r);
    assert Times(0.0, 1.0 - unit) == 0.0;
  }

  // Lengths and weights in those units.
  lemma Split(whole: real, r: real, unit: real)
    ensures Times(whole, r) + Times(whole, 1.0 - r) == whole
    ensures Times(Times(whole, r), unit) + Times(Times(whole, 1.0 - r), unit) == Times(whole, unit)
    ensures Times(Times(whole, r), unit) + Times(whole, 1.0 - r) == Times(whole, Seeming(r, unit))
  {
  }

  // The unit weights of detour and direct road make the latter tempting and too dear.
  lemma DetourWeights(whole: real, r: real, unit: real, middle: real, c: real, x: Detour)
    requires whole > 0.0 && 0.0 < r < 1.0 && unit > 0.0
    requires unit < middle < Seeming(r, unit) && Times(c, unit) < middle
    requires x == DetourOf(whole, r, unit, middle)
    ensures x.Tempting() && x.l1 + x.l2 == whole && x.w > Times(c, x.w1 + x.w2)
  {
    var top := Seeming(r, unit);
    Split(whole, r, unit);
    DetourNames();
    TimesOrder(whole, 0.0, r);
    TimesOrder(whole, 0.0, 1.0 - r);
    TimesOrder(unit, 0.0, x.l1);
    TimesOrder(unit, 0.0, x.l2);
    TimesStrictOrder(whole, unit, middle);
    TimesStrictOrder(whole, middle, top);
    TimesStrictOrder(whole, Times(c, unit), middle);
    TimesTwice(c, unit, whole);
    Commute(whole, unit, middle, top);
  }

  lemma Commute(whole: real, unit: real, middle: real, top: real)
    ensures Times(whole, unit) == Times(unit, whole) && Times(whole, middle) == Times(middle, whole)
    ensures Times(whole, top) == Times(top, whole) && Times(whole, 0.0) == 0.0 && Times(0.0, whole) == 0.0
    ensures Times(0.0, unit) == 0.0
  {
  }

  function DetourOf(whole: real, r: real, unit: real, middle: real): Detour {
    var l1, l2 := Times(whole, r), Times(whole, 1.0 - r);
    Detour("s", "a", "e", l1, l2, Times(l1, unit), Times(l2, unit), Times(whole, middle))
  }

  lemma MiddleWeight(c: real, unit: real, r: real) returns (middle: real)
    requires 0.0 < unit < 1.0 && 0.0 < r < 1.0
    requires unit < Seeming(r, unit) && Times(c, unit) < Seeming(r, unit)
    ensures unit < middle < Seeming(r, unit) && Times(c, unit) < middle < 1.0
  {
    var top := Seeming(r, unit);
    var low := if Times(c, unit) > unit then Times(c, unit) else unit;
    SeemingBelowOne(r, unit);
    middle := (low + top) / 2.0;
  }

  lemma TemptingDetour(d: (Position, Position) -> real, limit: real, c: real, a: Position, b: Position, e: Position, r: real)
    requires Metric(d) && limit > SAFE_SPEED && d(a, e) > 0.0 && 0.0 < r < 1.0 && Between(d, a, b, e, r)
    requires var unit := UnitWeight(limit);
             unit < Seeming(r, unit) && Times(c, unit) < Seeming(r, unit)
    ensures !KeptWithin(d, limit, 0.0, c)
  {
    var whole, unit := d(a, e), UnitWeight(limit);
    ExcessIsInverse(limit);
    var middle := MiddleWeight(c, unit, r);
    var direct := SpeedForWeight(middle, limit);
    var x := DetourOf(whole, r, unit, middle);
    DetourWeights(whole, r, unit, middle, c, x);
    DetourBreaks(x, d, limit, direct, limit, map[x.s := a, x.a := b, x.e := e], c);
  }

  // ----- The exact factor -----

  // A single road of some length is a route that costs more than c < 1 times itself.
  lemma NothingBelowOne(d: (Position, Position) -> real, limit: real, c: real, a: Position, b: Position)
    requires Metric(d) && d(a, b) > 0.0 && c < 1.0
    ensures !KeptWithin(d, limit, 0.0, c)
  {
    DetourNames();
    var position := map["s" := a, "e" := b];
    var roads := [Road("s", "e", None, None)];
    var q := TrafficQuery(position, roads, d, "s", "e", map[]);
    TrafficQueryFacts(position, roads, d, "s", "e", map[], 1.0, 0.0);
    SingleRoad(q, d(a, b), c);
    OneIsNotKept(d, limit, 0.0, c, position, roads, "s", "e", map[]);
  }

  lemma SingleRoad(q: Query, length: real, c: real)
    requires Askable(q) && Stretched(q, 1.0) && length > 0.0 && Estimate(q, q.start) == length && c < 1.0
    requires HasEdge(q.g, q.start, q.end)
    ensures !RouteKept(q, c)
  {
    assert WalkFromTo(q.g, [q.start, q.end], q.start, q.end);
    RouteIsNoneIffUnreachable(q);
    RouteIsSimplePath(q);
    var total := Total(q.g, Route(q).value);
    StretchedEstimate(q, 1.0, Route(q).value);
    assert total >= length;
    TimesStrictOrder(total, c, 1.0);
  }

  lemma LessLoad(d: (Position, Position) -> real, limit: real, load: real, c: real)
    requires load >= 0.0 && KeptWithin(d, limit, load, c)
    ensures KeptWithin(d, limit, 0.0, c)
  {
    forall position, roads, start, end, traffic |
      Named(position, roads) && start in position && end in position
      && UpTo(BuiltQuery(position, roads, d, start, end).g, traffic, limit, 0.0)
      ensures RouteKept(TrafficQuery(position, roads, d, start, end, traffic), c)
    {
      assert UpTo(BuiltQuery(position, roads, d, start, end).g, traffic, limit, load);
    }
  }

  // A ratio at which the detour is cheap enough.
  lemma RatioFor(c: real, unit: real) returns (r: real)
    requires 0.0 < unit < 1.0 && Times(c, unit) < 1.0
    ensures 0.0 < r < 1.0 && unit < Seeming(r, unit) && Times(c, unit) < Seeming(r, unit)
  {
    var low := if Times(c, unit) > unit then Times(c, unit) else unit;
    r := (1.0 - low) / 2.0;
    TimesOrder(r, 1.0 - unit, 1.0);
    assert Times(r, 1.0) == r;
  }

  lemma LessIsTooLittle(d: (Position, Position) -> real, limit: real, c: real, a: Position, b: Position)
    requires Metric(d) && Divisible(d, a, b) && limit >= 1.0 && c < Excess(limit)
    ensures !KeptWithin(d, limit, 0.0, c)
  {
    if limit <= SAFE_SPEED {
      NothingBelowOne(d, limit, c, a, b);
    } else {
      var unit := UnitWeight(limit);
      ExcessIsInverse(limit);
      TimesStrictOrder(unit, c, Excess(limit));
      var r := RatioFor(c, unit);
      assert DividedAt(d, a, b, r);
      var m :| Between(d, a, m, b, r);
      TemptingDetour(d, limit, c, a, m, b, r);
    }
  }

  // Whatever densities are allowed: traffic at speeds up to a limit keeps every route on
  // every built graph within a factor exactly from the excess on.
  lemma ExcessIsExact(d: (Position, Position) -> real, limit: real, load: real, c: real, a: Position, b: Position)
    requires Metric(d) && Divisible(d, a, b) && limit >= 1.0 && load >= 0.0
    ensures KeptWithin(d, limit, load, c) <==> c >= Excess(limit)
  {
    if c >= Excess(limit) {
      ExcessKeeps(d, limit, load, c);
    } else {
      LessIsTooLittle(d, limit, c, a, b);
      if KeptWithin(d, limit, load, c) {
        LessLoad(d, limit, load, c);
      }
    }
  }

  // Three points on a line, the middle one half way.
  ghost predicate OnALine(d: (Position, Position) -> real, a: Position, b: Position, c: Position) {
    d(a, b) > 0.0 && d(b, c) == d(a, b) && d(a, c) == 2.0 * d(a, b)
  }

  lemma FastIsUnsafe(d: (Position, Position) -> real, limit: real, a: Position, b: Position, c: Position)
    requires Metric(d) && OnALine(d, a, b, c) && limit > SAFE_SPEED
    ensures !KeptWithin(d, limit, 0.0, 1.0)
  {
    ExcessIsInverse(limit);
    assert Times(d(a, c), 0.5) == d(a, b);
    assert Times(1.0, UnitWeight(limit)) == UnitWeight(limit);
    TemptingDetour(d, limit, 1.0, a, b, c, 0.5);
  }

  // Three points suffice to show that routes are all the cheapest exactly up to the safe
  // speed: above it, even without any congestion, the search misses a detour.
  lemma SafeSpeedIsExact(d: (Position, Position) -> real, limit: real, load: real, a: Position, b: Position, c: Position)
    requires Metric(d) && OnALine(d, a, b, c) && load >= 0.0
    ensures KeptWithin(d, limit, load, 1.0) <==> limit <= SAFE_SPEED
  {
    if limit <= SAFE_SPEED {
      SlowKeeps(d, limit, load);
    } else {
      FastIsUnsafe(d, limit, a, b, c);
      if KeptWithin(d, limit, load, 1.0) {
        LessLoad(d, limit, load, 1.0);
      }
    }
  }

  lemma SlowKeeps(d: (Position, Position) -> real, limit: real, load: real)
    requires Metric(d) && limit <= SAFE_SPEED
    ensures KeptWithin(d, limit, load, 1.0)
  {
    ExcessKeeps(d, SAFE_SPEED, load, 1.0);
    forall position, roads, start, end, traffic |
      Named(position, roads) && start in position && end in position
      && UpTo(BuiltQuery(position, roads, d, start, end).g, traffic, limit, load)
      ensures RouteKept(TrafficQuery(position, roads, d, start, end, traffic), 1.0)
    {
      assert UpTo(BuiltQuery(position, roads, d, start, end).g, traffic, SAFE_SPEED, load);
    }
  }
}
