/** Distances between positions, the weights derived from them, and when the
  straight-line estimate of the search is admissible for those weights.
 */
module Distances {
  import opened Walks
  import opened AStar
  import opened Wrappers
  import opened Powers

  datatype Position = Position(lat: real, lon: real)

  // Live traffic on one edge.
  datatype Reading = Reading(speed: Option<real>, density: Option<real>)

  function OrElse<T>(o: Option<T>, default: T): T {
    match o
    case None => default
    case Some(v) => v
  }

  // What the search asks of great-circle distances.
  ghost predicate Metric(d: (Position, Position) -> real) {
    && (forall a, b :: d(a, b) >= 0.0)
    && (forall a :: d(a, a) == 0.0)
    && (forall a, b, c :: d(a, c) <= d(a, b) + d(b, c))
  }

  // ----- The weight of a reweighted edge -----

  function Travel(distance: real, speed: real): real
    requires speed > 0.0
  {
    distance / speed * 60.0
  }

  function Congestion(density: real, capacity: real): real
    requires capacity != 0.0
  {
    if density / capacity < 1.0 then density / capacity else 1.0
  }

  function SpeedOf(e: Edge, r: Reading): (speed: real)
    ensures speed >= 1.0
  {
    if OrElse(r.speed, e.speed) > 1.0 then OrElse(r.speed, e.speed) else 1.0
  }

  function NewWeight(e: Edge, r: Reading): real
    requires e.capacity != 0.0
  {
    0.4 * Travel(e.distance, SpeedOf(e, r))
    + 0.3 * Congestion(OrElse(r.density, 0.0), e.capacity) * 10.0
    + 0.3 * e.distance
  }

  // The fastest reported speed at which an uncongested edge still weighs at least its length.
  const SAFE_SPEED := 240.0 / 7.0

  lemma TravelAtLeast(distance: real, speed: real)
    requires distance >= 0.0 && speed > 0.0
    ensures Travel(distance, speed) * speed == distance * 60.0
    ensures Travel(distance, speed) >= 0.0
  {
  }

  // How much longer than its weight an edge may be, at speeds up to a limit.
  function Excess(limit: real): (c: real)
    requires limit >= 1.0
    ensures 1.0 <= c < 10.0 / 3.0
    ensures c == 1.0 <==> limit <= SAFE_SPEED
  {
    var c := 10.0 * limit / (240.0 + 3.0 * limit);
    ExcessBounds(limit, c);
    if c > 1.0 then c else 1.0
  }

  // c, which is y / x, compares to r as y to r * x.
  lemma Compare(c: real, x: real, y: real, r: real)
    requires x > 0.0 && c * x == y
    ensures c <= r <==> y <= r * x
    ensures c < r <==> y < r * x
  {
    assert (r - c) * x == r * x - y;
    assert r > c ==> (r - c) * x > 0.0;
    assert r < c ==> (r - c) * x < 0.0;
  }

  lemma ExcessBounds(limit: real, c: real)
    requires limit >= 1.0 && c == 10.0 * limit / (240.0 + 3.0 * limit)
    ensures c * (240.0 + 3.0 * limit) == 10.0 * limit
    ensures c < 10.0 / 3.0 && (c <= 1.0 <==> limit <= SAFE_SPEED)
  {
    var x, y := 240.0 + 3.0 * limit, 10.0 * limit;
    assert c * x == y;
    Compare(c, x, y, 1.0);
    Compare(c, x, y, 10.0 / 3.0);
  }

  lemma Divide(a: real, b: real, x: real)
    requires x > 0.0 && a * x <= b * x
    ensures a <= b
  {
    assert (b - a) * x >= 0.0;
  }

  lemma ShorterStill(c: real, weight: real)
    requires weight >= 0.0
    ensures c <= 1.0 ==> c * weight <= weight
  {
  }

  lemma LightestWeight(distance: real, speed: real, limit: real, weight: real)
    requires distance >= 0.0 && 1.0 <= speed <= limit && weight >= 0.4 * Travel(distance, speed) + 0.3 * distance
    ensures distance * (240.0 + 3.0 * limit) <= (10.0 * limit) * weight
  {
    var t := Travel(distance, speed);
    TravelAtLeast(distance, speed);
    assert t * limit >= t * speed;
    assert limit * weight >= limit * (0.4 * t + 0.3 * distance);
    assert limit * (0.4 * t + 0.3 * distance) == 0.4 * (t * limit) + 0.3 * (distance * limit);
  }

  // However congested, an edge is at most that much longer than its weight.
  lemma EdgeCoversDistance(e: Edge, r: Reading, limit: real)
    requires e.distance >= 0.0 && e.capacity > 0.0 && OrElse(r.density, 0.0) >= 0.0 && SpeedOf(e, r) <= limit
    ensures NewWeight(e, r) >= 0.0 && e.distance <= Times(Excess(limit), NewWeight(e, r))
  {
    var weight, x := NewWeight(e, r), 240.0 + 3.0 * limit;
    var c := 10.0 * limit / x;
    CongestionNonNegative(OrElse(r.density, 0.0), e.capacity);
    TravelAtLeast(e.distance, SpeedOf(e, r));
    LightestWeight(e.distance, SpeedOf(e, r), limit, weight);
    ExcessBounds(limit, c);
    assert (c * weight) * x == (c * x) * weight;
    Divide(e.distance, c * weight, x);
    ShorterStill(c, weight);
  }

  lemma CongestionNonNegative(density: real, capacity: real)
    requires density >= 0.0 && capacity > 0.0
    ensures Congestion(density, capacity) >= 0.0
  {
    assert density / capacity * capacity == density;
  }

  // An uncongested edge weighs at least its length exactly when it is that slow.
  lemma FreeEdgeCoversDistanceIff(e: Edge, r: Reading)
    requires e.distance > 0.0 && e.capacity != 0.0 && OrElse(r.density, 0.0) == 0.0
    ensures NewWeight(e, r) >= e.distance <==> SpeedOf(e, r) <= SAFE_SPEED
  {
    var t, speed, half := Travel(e.distance, SpeedOf(e, r)), SpeedOf(e, r), 1.75 * e.distance;
    assert 0.0 / e.capacity == 0.0;
    TravelAtLeast(e.distance, speed);
    Compare(t, speed, e.distance * 60.0, half);
    assert half * speed == e.distance * (1.75 * speed);
    if speed <= SAFE_SPEED {
      TimesOrder(e.distance, 1.75 * speed, 60.0);
    } else {
      TimesStrictOrder(e.distance, 60.0, 1.75 * speed);
    }
  }

  // ----- The straight-line estimate -----

  // q estimates the way to its end by straight-line distances.
  ghost predicate StraightLine(q: Query, position: map<Node, Position>, d: (Position, Position) -> real) {
    && q.g.nodes <= position.Keys && q.end in position
    && q.h == map n | n in position :: d(position[n], position[q.end])
  }

  // No edge is more than c times longer than its weight.
  ghost predicate CoversDistances(g: Graph, position: map<Node, Position>, d: (Position, Position) -> real, c: real)
    requires Closed(g) && g.nodes <= position.Keys
  {
    forall u, v :: HasEdge(g, u, v) ==> d(position[u], position[v]) <= Times(c, Weight(g, u, v))
  }

  lemma TimesAdds(c: real, x: real, y: real)
    ensures Times(c, x + y) == Times(c, x) + Times(c, y) && Times(c, 0.0) == 0.0
  {
  }

  lemma {:induction false} StraightIsShortest(g: Graph, position: map<Node, Position>, d: (Position, Position) -> real,
                                              c: real, w: seq<Node>, i: nat)
    requires Metric(d) && Closed(g) && g.nodes <= position.Keys && CoversDistances(g, position, d, c)
    requires IsWalk(g, w) && i < |w|
    ensures w[0] in position && w[i] in position && d(position[w[0]], position[w[i]]) <= Times(c, Cost(g, w, i))
  {
    WalkStaysInside(g, w, i);
    if i > 0 {
      var h := i - 1;
      StraightIsShortest(g, position, d, c, w, h);
      assert HasEdge(g, w[h], w[i]);
      TimesAdds(c, Cost(g, w, h), Weight(g, w[h], w[i]));
      assert d(position[w[0]], position[w[i]]) <= d(position[w[0]], position[w[h]]) + d(position[w[h]], position[w[i]]);
    } else {
      TimesAdds(c, 0.0, 0.0);
    }
  }

  // The straight-line estimate exceeds the cost to the end by the same factor at most.
  lemma StraightLineIsStretched(q: Query, position: map<Node, Position>, d: (Position, Position) -> real, c: real)
    requires Metric(d) && Askable(q) && StraightLine(q, position, d) && c >= 1.0 && CoversDistances(q.g, position, d, c)
    ensures Stretched(q, c)
  {
    forall w | IsWalk(q.g, w) && w[|w| - 1] == q.end ensures Estimate(q, w[0]) <= Times(c, Total(q.g, w)) {
      StraightIsShortest(q.g, position, d, c, w, |w| - 1);
    }
  }
}
