/** The penalty method behind `find_alternatives`: route, make the edges of the
  route half as expensive again, and route once more.
 */
module Alternatives {
  import opened Walks
  import opened AStar
  import opened Sequences
  import opened Powers

  ghost predicate Uses(p: seq<Node>, u: Node, v: Node) {
    exists i, j :: 0 <= i && j == i + 1 && j < |p| && p[i] == u && p[j] == v
  }

  // Every edge of the path is penalised once.
  ghost function Penalised(g: Graph, p: seq<Node>): Graph {
    g.(edges := map a | a in g.edges ::
      if Uses(p, a.from, a.to) then g.edges[a].(weight := g.edges[a].weight * 1.5) else g.edges[a])
  }

  // x after k penalties
  ghost function Raised(k: nat, x: real): real {
    if k == 0 then x else 1.5 * Raised(k - 1, x)
  }

  lemma {:induction false} RaisedIsProduct(k: nat, x: real)
    ensures Raised(k, x) == Power(1.5, k) * x
  {
    if k > 0 {
      RaisedIsProduct(k - 1, x);
    }
  }

  lemma {:induction false} RaisedAdds(k: nat, x: real, y: real)
    ensures Raised(k, x + y) == Raised(k, x) + Raised(k, y)
    ensures k > 0 || x + y == 0.0 ==> Raised(k, 0.0) == 0.0
  {
    if k > 0 {
      RaisedAdds(k - 1, x, y);
      RaisedAdds(k - 1, 0.0, 0.0);
    }
  }

  lemma PenalisedAskable(q: Query, p: seq<Node>)
    requires Askable(q)
    ensures Askable(q.(g := Penalised(q.g, p)))
  {
    var g := Penalised(q.g, p);
    forall u, v | HasEdge(g, u, v) ensures HasEdge(q.g, u, v) && v in g.nodes && u in g.nodes && Weight(g, u, v) >= 0.0 {
      assert HasEdge(q.g, u, v) && Weight(q.g, u, v) >= 0.0;
    }
  }

  // The question the next round asks.
  ghost function Next(q: Query): (r: Query)
    requires Askable(q)
    ensures Askable(r)
  {
    if Route(q).None? then q
    else
      PenalisedAskable(q, Route(q).value);
      q.(g := Penalised(q.g, Route(q).value))
  }

  // ----- Penalties keep weights between w and 1.5^k * w -----

  ghost predicate SameEdges(g: Graph, m: Graph) {
    m.nodes == g.nodes && forall u, v :: HasEdge(g, u, v) <==> HasEdge(m, u, v)
  }

  // m is g after k rounds of penalties
  ghost predicate Scaled(g: Graph, m: Graph, k: nat) {
    && SameEdges(g, m)
    && forall u, v :: HasEdge(g, u, v) ==>
         Weight(g, u, v) <= Weight(m, u, v) <= Raised(k, Weight(g, u, v))
  }

  lemma PenaltyScales(g: Graph, m: Graph, k: nat, p: seq<Node>)
    requires NonNegative(g) && Scaled(g, m, k)
    ensures Scaled(g, Penalised(m, p), k + 1)
  {
  }

  ghost predicate SameQuestion(q: Query, now: Query) {
    now.h == q.h && now.start == q.start && now.end == q.end
  }

  lemma NextScales(q: Query, now: Query, k: nat)
    requires Askable(q) && Askable(now) && SameQuestion(q, now) && Scaled(q.g, now.g, k)
    ensures SameQuestion(q, Next(now)) && Scaled(q.g, Next(now).g, k + 1)
  {
  }

  // The question round k asks, counting from 0.
  ghost function Round(q: Query, k: nat): (r: Query)
    requires Askable(q)
    ensures Askable(r) && SameQuestion(q, r) && Scaled(q.g, r.g, k)
  {
    if k == 0 then q
    else
      var last := Round(q, k - 1);
      NextScales(q, last, k - 1);
      Next(last)
  }

  lemma SameWalks(g: Graph, m: Graph, p: seq<Node>)
    requires SameEdges(g, m)
    ensures IsWalk(g, p) <==> IsWalk(m, p)
  {
  }

  lemma {:induction false} ScaledCost(g: Graph, m: Graph, k: nat, p: seq<Node>, i: nat)
    requires Scaled(g, m, k) && IsWalk(g, p) && IsWalk(m, p) && i < |p|
    ensures Cost(g, p, i) <= Cost(m, p, i) <= Raised(k, Cost(g, p, i))
  {
    if i == 0 {
      RaisedIsProduct(k, 0.0);
    } else {
      var h := i - 1;
      ScaledCost(g, m, k, p, h);
      assert HasEdge(g, p[h], p[i]);
      RaisedAdds(k, Cost(g, p, h), Weight(g, p[h], p[i]));
    }
  }

  // Within c under the scaled weights means within c and the penalties under the original ones.
  lemma Sandwich(g: Graph, m: Graph, k: nat, p: seq<Node>, w: seq<Node>, c: real)
    requires Scaled(g, m, k) && IsWalk(m, p) && IsWalk(m, w) && c >= 1.0 && Total(m, p) <= Times(c, Total(m, w))
    ensures IsWalk(g, p) && IsWalk(g, w) && Total(g, p) <= Times(c, Raised(k, Total(g, w)))
  {
    SameWalks(g, m, p);
    SameWalks(g, m, w);
    ScaledCost(g, m, k, p, |p| - 1);
    ScaledCost(g, m, k, w, |w| - 1);
    TimesOrder(c, Total(m, w), Raised(k, Total(g, w)));
  }

  lemma ScaledStretched(q: Query, now: Query, k: nat, c: real)
    requires Askable(q) && Stretched(q, c) && Askable(now) && SameQuestion(q, now) && Scaled(q.g, now.g, k)
    ensures Stretched(now, c)
  {
    forall w | IsWalk(now.g, w) && w[|w| - 1] == q.end ensures Estimate(now, w[0]) <= Times(c, Total(now.g, w)) {
      SameWalks(q.g, now.g, w);
      StretchedEstimate(q, c, w);
      ScaledCost(q.g, now.g, k, w, |w| - 1);
      TimesOrder(c, Total(q.g, w), Total(now.g, w));
    }
  }

  // The path costs at most c times any walk after k penalties.
  ghost predicate Within(q: Query, p: seq<Node>, k: nat, c: real) {
    && WalkFromTo(q.g, p, q.start, q.end) && Distinct(p)
    && forall w :: WalkFromTo(q.g, w, q.start, q.end) ==> Total(q.g, p) <= Times(c, Raised(k, Total(q.g, w)))
  }

  lemma ScaledOptimum(q: Query, now: Query, k: nat, c: real)
    requires Askable(q) && Stretched(q, c) && Askable(now) && SameQuestion(q, now) && Scaled(q.g, now.g, k)
    requires Route(now).Some?
    ensures Within(q, Route(now).value, k, c)
  {
    var p := Route(now).value;
    ScaledStretched(q, now, k, c);
    RouteIsWithin(now, c);
    RouteIsSimplePath(now);
    SameWalks(q.g, now.g, p);
    forall w | WalkFromTo(q.g, w, q.start, q.end) ensures Total(q.g, p) <= Times(c, Raised(k, Total(q.g, w))) {
      SameWalks(q.g, now.g, w);
      Sandwich(q.g, now.g, k, p, w, c);
    }
  }

  // The k-th alternative costs at most c * 1.5^k times the optimum, in the weights the
  // caller had before the call, when the heuristic overestimates by a factor of c at most.
  lemma AlternativesWithinFactor(q: Query, k: nat, c: real)
    requires Askable(q) && Stretched(q, c) && Route(Round(q, k)).Some?
    ensures Within(q, Route(Round(q, k)).value, k, c)
  {
    ScaledOptimum(q, Round(q, k), k, c);
  }

  lemma WithinFactor(q: Query, p: seq<Node>, k: nat, c: real)
    requires Within(q, p, k, c)
    ensures forall w :: WalkFromTo(q.g, w, q.start, q.end) ==> Total(q.g, p) <= c * (Power(1.5, k) * Total(q.g, w))
  {
    forall w | WalkFromTo(q.g, w, q.start, q.end) ensures Total(q.g, p) <= c * (Power(1.5, k) * Total(q.g, w)) {
      RaisedIsProduct(k, Total(q.g, w));
    }
  }

  // Whatever the heuristic: penalties never disconnect anything, so either every round
  // finds a path or already the first one finds none.
  lemma RoundsFindTogether(q: Query, k: nat)
    requires Askable(q)
    ensures Route(Round(q, k)).Some? <==> Route(q).Some?
    ensures Route(q).Some? ==>
              WalkFromTo(q.g, Route(Round(q, k)).value, q.start, q.end) && Distinct(Route(Round(q, k)).value)
  {
    var now := Round(q, k);
    RouteIsNoneIffUnreachable(q);
    RouteIsNoneIffUnreachable(now);
    forall w ensures WalkFromTo(q.g, w, q.start, q.end) <==> WalkFromTo(now.g, w, now.start, now.end) {
      SameWalks(q.g, now.g, w);
    }
    if Route(now).Some? {
      RouteIsSimplePath(now);
    }
  }

  // ----- What the penalties add up to -----

  lemma UsesMeans(p: seq<Node>, u: Node, v: Node)
    ensures Uses(p, u, v) <==> exists i :: 0 <= i < |p| - 1 && p[i] == u && p[i + 1] == v
  {
    if Uses(p, u, v) {
      var i, j :| 0 <= i && j == i + 1 && j < |p| && p[i] == u && p[j] == v;
      assert p[i] == u && p[i + 1] == v;
    }
    forall i | 0 <= i < |p| - 1 && p[i] == u && p[i + 1] == v ensures Uses(p, u, v) {
      var j := i + 1;
      assert p[i] == u && p[j] == v;
    }
  }

  // How many of the first k numbers are chosen.
  ghost function Count(chosen: nat -> bool, k: nat): nat {
    if k == 0 then 0 else Count(chosen, k - 1) + if chosen(k - 1) then 1 else 0
  }

  lemma {:induction false} CountIsSize(chosen: nat -> bool, k: nat, members: set<nat>)
    requires forall j: nat :: j in members <==> j < k && chosen(j)
    ensures |members| == Count(chosen, k)
  {
    if k == 0 {
      assert members == {};
    } else {
      var h := k - 1;
      CountIsSize(chosen, h, members - {h});
      if h in members {
        assert members == (members - {h}) + {h};
      } else {
        assert members - {h} == members;
      }
    }
  }

  // A weight that grows by half at the chosen steps and stays otherwise.
  lemma {:induction false} GrowsAtChosen(weight: nat -> real, chosen: nat -> bool, k: nat)
    requires forall j: nat {:trigger chosen(j)} :: j < k ==>
               weight(j + 1) == if chosen(j) then Times(weight(j), 1.5) else weight(j)
    ensures weight(k) == Times(weight(0), Power(1.5, Count(chosen, k)))
  {
    if k == 0 {
      TimesTwice(weight(0), 1.0, 1.0);
    } else {
      var h := k - 1;
      GrowsAtChosen(weight, chosen, h);
      TimesTwice(weight(0), Power(1.5, Count(chosen, h)), 1.5);
      assert weight(h + 1) == if chosen(h) then Times(weight(h), 1.5) else weight(h);
    }
  }

  // The route that round j returns uses the edge.
  ghost predicate UsedIn(q: Query, u: Node, v: Node, j: nat) {
    Askable(q) && Route(Round(q, j)).Some? && Uses(Route(Round(q, j)).value, u, v)
  }

  ghost function WeightIn(q: Query, u: Node, v: Node, j: nat): real {
    if Askable(q) && HasEdge(Round(q, j).g, u, v) then Weight(Round(q, j).g, u, v) else 0.0
  }

  lemma NextWeight(q: Query, u: Node, v: Node)
    requires Askable(q) && HasEdge(q.g, u, v)
    ensures HasEdge(Next(q).g, u, v)
    ensures Weight(Next(q).g, u, v) ==
              if Route(q).Some? && Uses(Route(q).value, u, v) then Times(Weight(q.g, u, v), 1.5) else Weight(q.g, u, v)
  {
  }

  lemma RoundStep(q: Query, u: Node, v: Node, j: nat)
    requires Askable(q) && HasEdge(q.g, u, v)
    ensures WeightIn(q, u, v, j + 1) == if UsedIn(q, u, v, j) then Times(WeightIn(q, u, v, j), 1.5) else WeightIn(q, u, v, j)
  {
    assert HasEdge(Round(q, j).g, u, v);
    NextWeight(Round(q, j), u, v);
  }

  // After k rounds an edge weighs its original weight times 1.5 for every one of them whose
  // route used it.
  lemma RoundWeight(q: Query, u: Node, v: Node, k: nat)
    requires Askable(q) && HasEdge(q.g, u, v)
    ensures WeightIn(q, u, v, k) == Times(WeightIn(q, u, v, 0), Power(1.5, Count((j: nat) => UsedIn(q, u, v, j), k)))
  {
    forall j: nat | j < k
      ensures WeightIn(q, u, v, j + 1) == if UsedIn(q, u, v, j) then Times(WeightIn(q, u, v, j), 1.5) else WeightIn(q, u, v, j)
    {
      RoundStep(q, u, v, j);
    }
    GrowsAtChosen((j: nat) => WeightIn(q, u, v, j), (j: nat) => UsedIn(q, u, v, j), k);
  }

  lemma WeightAt(q: Query, u: Node, v: Node, k: nat)
    requires Askable(q) && HasEdge(q.g, u, v)
    ensures HasEdge(Round(q, k).g, u, v) && WeightIn(q, u, v, k) == Weight(Round(q, k).g, u, v)
    ensures WeightIn(q, u, v, 0) == Weight(q.g, u, v)
  {
    assert Round(q, 0) == q;
  }

  lemma RoundWeighs(q: Query, u: Node, v: Node, k: nat, users: set<nat>)
    requires Askable(q) && HasEdge(q.g, u, v)
    requires forall j: nat :: j in users <==> j < k && UsedIn(q, u, v, j)
    ensures HasEdge(Round(q, k).g, u, v)
    ensures Weight(Round(q, k).g, u, v) == Times(Weight(q.g, u, v), Power(1.5, |users|))
  {
    WeightAt(q, u, v, k);
    RoundWeight(q, u, v, k);
    CountIsSize((j: nat) => UsedIn(q, u, v, j), k, users);
  }
}
