/** Weighted road graphs, the walks in them, and what those walks cost.

  The routing engine keeps a dictionary of dictionaries, `graph[u][v]`.  Here its
  outer keys are the nodes, and its entries are indexed by the pair (u, v).  A walk
  is a non-empty sequence of nodes joined by edges; it may repeat nodes.
 */
module Walks {
  import opened Sequences

  type Node = string

  datatype Edge = Edge(distance: real, weight: real, speed: real, capacity: real)

  datatype Arc = Arc(from: Node, to: Node)

  datatype Graph = Graph(nodes: set<Node>, edges: map<Arc, Edge>)

  predicate HasEdge(g: Graph, u: Node, v: Node) {
    Arc(u, v) in g.edges
  }

  function Weight(g: Graph, u: Node, v: Node): real
    requires HasEdge(g, u, v)
  {
    g.edges[Arc(u, v)].weight
  }

  // Every edge joins nodes of the graph.
  ghost predicate Closed(g: Graph) {
    forall u, v :: HasEdge(g, u, v) ==> u in g.nodes && v in g.nodes
  }

  // graph[u].keys()
  function Successors(g: Graph, u: Node): set<Node> {
    set v | v in g.nodes && HasEdge(g, u, v)
  }

  ghost predicate NonNegative(g: Graph) {
    forall u, v :: HasEdge(g, u, v) ==> Weight(g, u, v) >= 0.0
  }

  ghost predicate IsWalk(g: Graph, p: seq<Node>) {
    && p != []
    && p[0] in g.nodes
    && forall i, j :: 0 <= i && j == i + 1 && j < |p| ==> HasEdge(g, p[i], p[j])
  }

  ghost predicate WalkFromTo(g: Graph, p: seq<Node>, start: Node, end: Node) {
    IsWalk(g, p) && p[0] == start && p[|p| - 1] == end
  }

  // The cost of going along p from its first node to the one at index i.
  ghost function Cost(g: Graph, p: seq<Node>, i: nat): real
    requires IsWalk(g, p) && i < |p|
  {
    if i == 0 then 0.0 else Cost(g, p, i - 1) + Weight(g, p[i - 1], p[i])
  }

  ghost function Total(g: Graph, p: seq<Node>): real
    requires IsWalk(g, p)
  {
    Cost(g, p, |p| - 1)
  }

  lemma {:induction false} CostNonNegative(g: Graph, p: seq<Node>, i: nat)
    requires IsWalk(g, p) && i < |p| && NonNegative(g)
    ensures Cost(g, p, i) >= 0.0
  {
    if i > 0 {
      CostNonNegative(g, p, i - 1);
    }
  }

  lemma {:induction false} CostOfPrefix(g: Graph, p: seq<Node>, q: seq<Node>, i: nat)
    requires IsWalk(g, p) && IsWalk(g, q) && i < |p| && i < |q|
    requires forall k :: 0 <= k <= i ==> p[k] == q[k]
    ensures Cost(g, p, i) == Cost(g, q, i)
  {
    if i > 0 {
      CostOfPrefix(g, p, q, i - 1);
    }
  }

  lemma {:induction false} CostOfSuffix(g: Graph, p: seq<Node>, i: nat, k: nat)
    requires IsWalk(g, p) && Closed(g) && i + k < |p|
    ensures IsWalk(g, p[i..])
    ensures Cost(g, p[i..], k) == Cost(g, p, i + k) - Cost(g, p, i)
  {
    WalkStaysInside(g, p, i);
    if k > 0 {
      CostOfSuffix(g, p, i, k - 1);
    }
  }

  lemma {:induction false} WalkStaysInside(g: Graph, p: seq<Node>, i: nat)
    requires IsWalk(g, p) && Closed(g) && i < |p|
    ensures p[i] in g.nodes
  {
    if i > 0 {
      assert HasEdge(g, p[i - 1], p[i]);
    }
  }

  // Appending one edge to a walk.
  lemma {:induction false} ExtendWalk(g: Graph, p: seq<Node>, v: Node)
    requires IsWalk(g, p) && HasEdge(g, p[|p| - 1], v)
    ensures IsWalk(g, p + [v])
    ensures forall i :: 0 <= i < |p| ==> Cost(g, p + [v], i) == Cost(g, p, i)
    ensures Total(g, p + [v]) == Total(g, p) + Weight(g, p[|p| - 1], v)
  {
    var q := p + [v];
    assert IsWalk(g, q);
    forall i | 0 <= i < |p| ensures Cost(g, q, i) == Cost(g, p, i) {
      CostOfPrefix(g, q, p, i);
    }
  }

  // ----- The finitely many simple paths of a graph -----

  // All sequences over a set of nodes up to a length.
  ghost function SeqsOver(nodes: set<Node>, n: nat): set<seq<Node>> {
    if n == 0 then {[]}
    else
      var shorter := SeqsOver(nodes, n - 1);
      shorter + set s, v | s in shorter && v in nodes :: s + [v]
  }

  lemma {:induction false} SeqsOverComplete(nodes: set<Node>, n: nat, s: seq<Node>)
    requires |s| <= n && Elements(s) <= nodes
    ensures s in SeqsOver(nodes, n)
  {
    if n > 0 {
      if |s| < n {
        SeqsOverComplete(nodes, n - 1, s);
      } else {
        var t, v := s[..|s| - 1], s[|s| - 1];
        assert Elements(t) <= Elements(s);
        assert v in s;
        SeqsOverComplete(nodes, n - 1, t);
        assert s == t + [v];
      }
    }
  }

  ghost function SimplePaths(g: Graph, start: Node): set<seq<Node>> {
    set p | p in SeqsOver(g.nodes, |g.nodes|) && IsWalk(g, p) && Distinct(p) && p[0] == start
  }

  lemma {:induction false} SimplePathsComplete(g: Graph, p: seq<Node>)
    requires Closed(g) && IsWalk(g, p) && Distinct(p)
    ensures p in SimplePaths(g, p[0])
  {
    forall x | x in p ensures x in g.nodes {
      var i :| 0 <= i < |p| && p[i] == x;
      WalkStaysInside(g, p, i);
    }
    DistinctLength(p);
    SubsetSize(Elements(p), g.nodes);
    SeqsOverComplete(g.nodes, |g.nodes|, p);
  }
}
