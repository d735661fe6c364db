/** The A* search of the routing engine, as a function on search states.

  The search keeps no closed set: a node whose score drops after it was expanded
  is queued again, and the entries its old scores left behind stay in the heap.
  The start is queued with priority 0 instead of its f-score.  The scores of
  unvisited nodes are infinite; here they are absent from the map.
 */
module AStar {
  import opened Walks
  import opened OpenSet
  import opened Wrappers
  import opened Sequences
  import opened Powers

  // The graph, the estimate of every node's distance to the end, and the two ends.
  datatype Query = Query(g: Graph, h: map<Node, real>, start: Node, end: Node)

  datatype Search = Search(open: multiset<Entry>, score: map<Node, real>, parent: map<Node, Node>)

  ghost predicate Askable(q: Query) {
    && Closed(q.g)
    && NonNegative(q.g)
    && q.start in q.g.nodes
    && q.end in q.g.nodes
  }

  function Estimate(q: Query, v: Node): real {
    if v in q.h then q.h[v] else 0.0
  }

  function Initial(q: Query): Search {
    Search(multiset{Entry(0.0, q.start)}, map[q.start := 0.0], map[])
  }

  // ----- One expansion -----

  // Going through u gives v a strictly better score.
  predicate Improves(q: Query, score: map<Node, real>, u: Node, v: Node)
    requires u in score
  {
    HasEdge(q.g, u, v) && (v in score ==> Via(q, score, u, v) < score[v])
  }

  function Improved(q: Query, score: map<Node, real>, u: Node, vs: set<Node>): set<Node>
    requires u in score
  {
    set v | v in vs && Improves(q, score, u, v)
  }

  // The score v gets by way of u.
  function Via(q: Query, score: map<Node, real>, u: Node, v: Node): real
    requires u in score && HasEdge(q.g, u, v)
  {
    score[u] + Weight(q.g, u, v)
  }

  function Pushes(q: Query, score: map<Node, real>, u: Node, better: set<Node>): set<Entry>
    requires u in score && forall v :: v in better ==> HasEdge(q.g, u, v)
  {
    set v | v in better :: Entry(Via(q, score, u, v) + Estimate(q, v), v)
  }

  function Lowered(q: Query, score: map<Node, real>, u: Node, better: set<Node>): map<Node, real>
    requires u in score && forall v :: v in better ==> HasEdge(q.g, u, v)
  {
    map v | v in score.Keys + better :: if v in better then Via(q, score, u, v) else score[v]
  }

  function Rewired(parent: map<Node, Node>, u: Node, better: set<Node>): map<Node, Node> {
    map v | v in parent.Keys + better :: if v in better then u else parent[v]
  }

  // Relax the edges from u to vs.  The order of the neighbours does not matter.
  function RelaxSome(q: Query, s: Search, u: Node, vs: set<Node>): Search
    requires u in s.score
  {
    var better := Improved(q, s.score, u, vs);
    Search(
      s.open + multiset(Pushes(q, s.score, u, better)),
      Lowered(q, s.score, u, better),
      Rewired(s.parent, u, better))
  }

  function Relax(q: Query, s: Search, u: Node): Search
    requires u in s.score && u in q.g.nodes
  {
    RelaxSome(q, s, u, Successors(q.g, u))
  }

  // ----- What every state of the search satisfies -----

  // Following parents never goes round in a circle: every non-empty set of nodes
  // with parents has a member whose parent is outside.
  ghost predicate Circular(parent: map<Node, Node>, s: set<Node>) {
    s != {} && s <= parent.Keys && forall x :: x in s ==> parent[x] in s
  }

  ghost predicate Acyclic(parent: map<Node, Node>) {
    forall s :: !Circular(parent, s)
  }

  ghost predicate TreeInv(q: Query, score: map<Node, real>, parent: map<Node, Node>) {
    && q.start in score && score[q.start] == 0.0
    && score.Keys <= q.g.nodes
    && parent.Keys == score.Keys - {q.start}
    && (forall v :: v in score ==> score[v] >= 0.0)
    && (forall v {:trigger parent[v]} :: v in parent ==>
          && parent[v] in score
          && HasEdge(q.g, parent[v], v)
          && score[parent[v]] + Weight(q.g, parent[v], v) <= score[v])
    && Acyclic(parent)
  }

  // No edge out of v can improve any score.
  ghost predicate Relaxed(q: Query, score: map<Node, real>, v: Node)
    requires v in score
  {
    forall w :: HasEdge(q.g, v, w) ==> w in score && score[w] <= score[v] + Weight(q.g, v, w)
  }

  ghost function Priority(q: Query, score: map<Node, real>, v: Node): real
    requires v in score
  {
    if v == q.start then 0.0 else score[v] + Estimate(q, v)
  }

  // Entries are never below the current priority of their node, and a node that is
  // not fully relaxed waits in the heap at exactly its current priority.
  ghost predicate OpenInv(q: Query, s: Search)
  {
    && (forall e :: e in s.open ==> e.node in s.score && e.f >= Priority(q, s.score, e.node))
    && (forall v :: v in s.score ==>
          || (v != q.end && Relaxed(q, s.score, v))
          || Entry(Priority(q, s.score, v), v) in s.open)
  }

  // p is a simple path that accounts for the score of its last node.
  ghost predicate AttainedBy(q: Query, score: map<Node, real>, p: seq<Node>) {
    && IsWalk(q.g, p) && Distinct(p) && p[0] == q.start
    && (forall i :: 0 <= i < |p| ==> p[i] in score && score[p[i]] <= Cost(q.g, p, i))
    && score[p[|p| - 1]] == Total(q.g, p)
  }

  ghost predicate Attained(q: Query, score: map<Node, real>) {
    forall v :: v in score ==> exists p :: AttainedBy(q, score, p) && p[|p| - 1] == v
  }

  ghost predicate Inv(q: Query, s: Search) {
    && Askable(q)
    && TreeInv(q, s.score, s.parent)
    && OpenInv(q, s)
    && Attained(q, s.score)
  }

  lemma InitialInv(q: Query)
    requires Askable(q)
    ensures Inv(q, Initial(q))
  {
    assert AttainedBy(q, Initial(q).score, [q.start]);
  }

  // ----- One expansion keeps it, and makes progress -----

  lemma ImprovedFacts(q: Query, score: map<Node, real>, u: Node, v: Node)
    requires Closed(q.g) && NonNegative(q.g) && u in score && u in q.g.nodes && v in Improved(q, score, u, Successors(q.g, u))
    ensures HasEdge(q.g, u, v) && v in q.g.nodes && Weight(q.g, u, v) >= 0.0
    ensures v != u && (v in score ==> Via(q, score, u, v) < score[v])
  {
  }

  // Hanging nodes with strictly higher scores below u closes no circle: the part of
  // the circle that scores at most u would already have been one.
  lemma CircleWasThere(score: map<Node, real>, parent: map<Node, Node>, u: Node, better: set<Node>,
                       rewired: map<Node, Node>, ring: set<Node>) returns (was: set<Node>)
    requires u in score && u !in better
    requires forall x {:trigger parent[x]} :: x in parent ==> x in score && parent[x] in score && score[parent[x]] <= score[x]
    requires forall v :: v in better && v in score ==> score[u] < score[v]
    requires rewired.Keys == parent.Keys + better
    requires forall v :: v in rewired ==> rewired[v] == if v in better then u else parent[v]
    requires Circular(rewired, ring)
    ensures Circular(parent, was)
  {
    if ring !! better {
      was := ring;
    } else {
      was := set x | x in ring && x !in better && x in score && score[x] <= score[u];
      assert u in was;
    }
  }

  lemma RewiringKeepsAcyclic(score: map<Node, real>, parent: map<Node, Node>,
                             u: Node, better: set<Node>, rewired: map<Node, Node>)
    requires Acyclic(parent) && u in score && u !in better
    requires forall x {:trigger parent[x]} :: x in parent ==> x in score && parent[x] in score && score[parent[x]] <= score[x]
    requires forall v :: v in better && v in score ==> score[u] < score[v]
    requires rewired.Keys == parent.Keys + better
    requires forall v :: v in rewired ==> rewired[v] == if v in better then u else parent[v]
    ensures Acyclic(rewired)
  {
    forall ring ensures !Circular(rewired, ring) {
      if Circular(rewired, ring) {
        var was := CircleWasThere(score, parent, u, better, rewired, ring);
      }
    }
  }

  lemma RelaxKeepsTree(q: Query, s: Search, u: Node)
    requires Askable(q) && TreeInv(q, s.score, s.parent) && u in s.score
    ensures TreeInv(q, Relax(q, s, u).score, Relax(q, s, u).parent)
  {
    var better := Improved(q, s.score, u, Successors(q.g, u));
    var t := Relax(q, s, u);
    forall v | v in better
      ensures HasEdge(q.g, u, v) && v in q.g.nodes && Weight(q.g, u, v) >= 0.0 && v != u && v != q.start
      ensures v in s.score ==> Via(q, s.score, u, v) < s.score[v]
    {
      ImprovedFacts(q, s.score, u, v);
    }
    forall v | v in s.parent ensures s.score[s.parent[v]] <= s.score[v] {
      assert HasEdge(q.g, s.parent[v], v);
    }
    RewiringKeepsAcyclic(s.score, s.parent, u, better, t.parent);
  }

  // What an expansion of u does to scores and heap, in the terms the queue needs:
  // the better nodes are lowered and queued, nothing else moves.
  ghost predicate Expanded(q: Query, s: Search, u: Node, better: set<Node>, t: Search) {
    && u in s.score && u !in better && q.start !in better
    && t.score.Keys == s.score.Keys + better
    && (forall v :: v in better && v in s.score ==> t.score[v] < s.score[v])
    && (forall v :: v in s.score && v !in better ==> t.score[v] == s.score[v])
    && Relaxed(q, t.score, u)
    && (forall e :: e in t.open <==>
          e in s.open || (e.node in better && e.f == Priority(q, t.score, e.node)))
  }

  lemma PushedEntries(q: Query, s: Search, u: Node)
    requires u in s.score && u in q.g.nodes
    ensures forall e :: e in Relax(q, s, u).open <==>
              || e in s.open
              || (e.node in Improved(q, s.score, u, Successors(q.g, u))
                  && e.f == Via(q, s.score, u, e.node) + Estimate(q, e.node))
  {
  }

  lemma LoweredScores(q: Query, s: Search, u: Node)
    requires Askable(q) && TreeInv(q, s.score, s.parent) && u in s.score
    ensures var better, t := Improved(q, s.score, u, Successors(q.g, u)), Relax(q, s, u);
            && u !in better && q.start !in better
            && t.score.Keys == s.score.Keys + better
            && (forall v :: v in better ==> HasEdge(q.g, u, v) && t.score[v] == Via(q, s.score, u, v))
            && (forall v :: v in better && v in s.score ==> t.score[v] < s.score[v])
            && (forall v :: v in s.score && v !in better ==> t.score[v] == s.score[v])
            && Relaxed(q, t.score, u)
  {
  }

  lemma PushedAtPriority(q: Query, s: Search, u: Node, better: set<Node>, t: Search)
    requires u in s.score && better <= t.score.Keys && q.start !in better
    requires forall v :: v in better ==> HasEdge(q.g, u, v) && t.score[v] == Via(q, s.score, u, v)
    requires forall e :: e in t.open <==>
               || e in s.open
               || (e.node in better && e.f == Via(q, s.score, u, e.node) + Estimate(q, e.node))
    requires u !in better && t.score.Keys == s.score.Keys + better
    requires forall v :: v in better && v in s.score ==> t.score[v] < s.score[v]
    requires forall v :: v in s.score && v !in better ==> t.score[v] == s.score[v]
    requires Relaxed(q, t.score, u)
    ensures Expanded(q, s, u, better, t)
  {
  }

  lemma RelaxExpands(q: Query, s: Search, u: Node)
    requires Askable(q) && TreeInv(q, s.score, s.parent) && u in s.score
    ensures Expanded(q, s, u, Improved(q, s.score, u, Successors(q.g, u)), Relax(q, s, u))
  {
    LoweredScores(q, s, u);
    PushedEntries(q, s, u);
    PushedAtPriority(q, s, u, Improved(q, s.score, u, Successors(q.g, u)), Relax(q, s, u));
  }

  lemma QueuedOrRelaxed(q: Query, s: Search, e: Entry, better: set<Node>, t: Search, v: Node)
    requires OpenInv(q, s) && e in s.open && e.node != q.end && v in t.score
    requires Expanded(q, s.(open := s.open - multiset{e}), e.node, better, t)
    ensures (v != q.end && Relaxed(q, t.score, v)) || Entry(Priority(q, t.score, v), v) in t.open
  {
    var waiting := Entry(Priority(q, t.score, v), v);
    if v !in better && v != e.node {
      if waiting in s.open {
        assert waiting in s.open - multiset{e};
      } else {
        assert Relaxed(q, s.score, v);
      }
    }
  }

  lemma RelaxKeepsOpen(q: Query, s: Search, e: Entry, better: set<Node>, t: Search)
    requires OpenInv(q, s) && e in s.open && e.node != q.end
    requires Expanded(q, s.(open := s.open - multiset{e}), e.node, better, t)
    ensures OpenInv(q, t)
  {
    forall v | v in t.score
      ensures (v != q.end && Relaxed(q, t.score, v)) || Entry(Priority(q, t.score, v), v) in t.open
    {
      QueuedOrRelaxed(q, s, e, better, t, v);
    }
  }

  lemma {:induction false} CostGrows(g: Graph, p: seq<Node>, i: nat, j: nat)
    requires IsWalk(g, p) && NonNegative(g) && i <= j < |p|
    ensures Cost(g, p, i) <= Cost(g, p, j)
    decreases j
  {
    if i < j {
      CostGrows(g, p, i, j - 1);
    }
  }

  // The path of an improved node is the path of u and one more step; it is simple,
  // for going through any of its own nodes again could not have improved that node.
  lemma ImprovedPath(q: Query, s: Search, u: Node, v: Node, p: seq<Node>)
    requires Askable(q) && TreeInv(q, s.score, s.parent) && u in s.score
    requires AttainedBy(q, s.score, p) && p[|p| - 1] == u
    requires v in Improved(q, s.score, u, Successors(q.g, u))
    ensures AttainedBy(q, Relax(q, s, u).score, p + [v])
  {
    var t := Relax(q, s, u);
    ExtendWalk(q.g, p, v);
    forall i | 0 <= i < |p| ensures p[i] != v && t.score[p[i]] <= Cost(q.g, p, i) {
      CostGrows(q.g, p, i, |p| - 1);
      assert HasEdge(q.g, u, v) && Weight(q.g, u, v) >= 0.0;
    }
    assert t.score[u] == s.score[u];
  }

  lemma OtherPath(q: Query, s: Search, u: Node, v: Node, p: seq<Node>)
    requires Askable(q) && TreeInv(q, s.score, s.parent) && u in s.score
    requires AttainedBy(q, s.score, p) && p[|p| - 1] == v
    requires v !in Improved(q, s.score, u, Successors(q.g, u))
    ensures AttainedBy(q, Relax(q, s, u).score, p)
  {
  }

  lemma RelaxKeepsAttained(q: Query, s: Search, u: Node)
    requires Askable(q) && TreeInv(q, s.score, s.parent) && Attained(q, s.score) && u in s.score
    ensures Attained(q, Relax(q, s, u).score)
  {
    forall v | v in Relax(q, s, u).score
      ensures exists p :: AttainedBy(q, Relax(q, s, u).score, p) && p[|p| - 1] == v
    {
      if v in Improved(q, s.score, u, Successors(q.g, u)) {
        var p :| AttainedBy(q, s.score, p) && p[|p| - 1] == u;
        ImprovedPath(q, s, u, v, p);
        var longer := p + [v];
        assert longer[|longer| - 1] == v;
      } else {
        var p :| AttainedBy(q, s.score, p) && p[|p| - 1] == v;
        OtherPath(q, s, u, v, p);
      }
    }
  }

  // The simple paths that would still improve some score.  There are finitely many,
  // whatever the weights, and every improvement uses one up.
  ghost function Below(q: Query, score: map<Node, real>): set<seq<Node>> {
    set p | p in SimplePaths(q.g, q.start) && (p[|p| - 1] in score ==> Total(q.g, p) < score[p[|p| - 1]])
  }

  lemma BelowShrinks(q: Query, score: map<Node, real>, lower: map<Node, real>, p: seq<Node>)
    requires score.Keys <= lower.Keys && forall x :: x in score ==> lower[x] <= score[x]
    requires p in Below(q, score) && AttainedBy(q, lower, p)
    ensures Below(q, lower) < Below(q, score)
  {
  }

  lemma ImprovementShrinks(q: Query, s: Search, u: Node, v: Node, p: seq<Node>)
    requires Askable(q) && TreeInv(q, s.score, s.parent) && u in s.score
    requires AttainedBy(q, s.score, p) && p[|p| - 1] == u
    requires v in Improved(q, s.score, u, Successors(q.g, u))
    ensures Below(q, Relax(q, s, u).score) < Below(q, s.score)
  {
    var longer := p + [v];
    LoweredScores(q, s, u);
    ImprovedPath(q, s, u, v, p);
    SimplePathsComplete(q.g, longer);
    assert longer[|longer| - 1] == v;
    BelowShrinks(q, s.score, Relax(q, s, u).score, longer);
  }

  lemma NothingPushed(q: Query, s: Search, u: Node)
    requires u in s.score && u in q.g.nodes && Improved(q, s.score, u, Successors(q.g, u)) == {}
    ensures Relax(q, s, u).open == s.open
  {
  }

  lemma NothingLowered(q: Query, s: Search, u: Node)
    requires u in s.score && u in q.g.nodes && Improved(q, s.score, u, Successors(q.g, u)) == {}
    ensures Relax(q, s, u).score == s.score
  {
  }

  lemma RelaxProgress(q: Query, s: Search, u: Node)
    requires Askable(q) && TreeInv(q, s.score, s.parent) && Attained(q, s.score) && u in s.score
    ensures var t := Relax(q, s, u);
            Below(q, t.score) < Below(q, s.score) || (t.open == s.open && t.score == s.score)
  {
    var better := Improved(q, s.score, u, Successors(q.g, u));
    if better == {} {
      NothingPushed(q, s, u);
      NothingLowered(q, s, u);
    } else {
      var v :| v in better;
      var p :| AttainedBy(q, s.score, p) && p[|p| - 1] == u;
      ImprovementShrinks(q, s, u, v, p);
    }
  }

  // ----- The whole search -----

  ghost function Expand(q: Query, s: Search): Search
    requires Inv(q, s) && s.open != multiset{}
  {
    var e := Least(s.open);
    Relax(q, s.(open := s.open - multiset{e}), e.node)
  }

  lemma ExpandKeepsInv(q: Query, s: Search)
    requires Inv(q, s) && s.open != multiset{} && Least(s.open).node != q.end
    ensures Inv(q, Expand(q, s))
    ensures var t := Expand(q, s);
            Below(q, t.score) < Below(q, s.score) || (Below(q, t.score) == Below(q, s.score) && |t.open| < |s.open|)
  {
    var e := Least(s.open);
    var rest := s.(open := s.open - multiset{e});
    RelaxKeepsTree(q, rest, e.node);
    RelaxExpands(q, rest, e.node);
    RelaxKeepsOpen(q, s, e, Improved(q, s.score, e.node, Successors(q.g, e.node)), Expand(q, s));
    RelaxKeepsAttained(q, rest, e.node);
    RelaxProgress(q, rest, e.node);
  }

  // The state in which the end is popped, if that happens.
  ghost function Run(q: Query, s: Search): Option<Search>
    requires Inv(q, s)
    decreases Below(q, s.score), |s.open|
  {
    if s.open == multiset{} then None
    else if Least(s.open).node == q.end then Some(s)
    else
      ExpandKeepsInv(q, s);
      Run(q, Expand(q, s))
  }

  lemma {:induction false} RunEnds(q: Query, s: Search)
    requires Inv(q, s)
    ensures match Run(q, s)
            case None => exists t :: Inv(q, t) && t.open == multiset{}
            case Some(t) => Inv(q, t) && t.open != multiset{} && Least(t.open).node == q.end
    decreases Below(q, s.score), |s.open|
  {
    if s.open != multiset{} && Least(s.open).node != q.end {
      ExpandKeepsInv(q, s);
      RunEnds(q, Expand(q, s));
    }
  }

  // ----- Reading the path off the parents -----

  predicate IsParent(parent: map<Node, Node>, u: Node, v: Node) {
    v in parent && parent[v] == u
  }

  ghost predicate Chain(parent: map<Node, Node>, p: seq<Node>) {
    && p != [] && Distinct(p)
    && forall i, j :: 0 <= i && j == i + 1 && j < |p| ==> IsParent(parent, p[i], p[j])
  }

  // A parent that is already in the chain would close a circle.
  lemma ParentNotInChain(parent: map<Node, Node>, p: seq<Node>, k: nat)
    requires Acyclic(parent) && Chain(parent, p) && p[0] in parent && k < |p|
    ensures parent[p[0]] != p[k]
  {
    if parent[p[0]] == p[k] {
      var ring := set i | 0 <= i <= k :: p[i];
      forall x | x in ring ensures x in parent && parent[x] in ring {
        var i :| 0 <= i <= k && p[i] == x;
        if i > 0 {
          var h := i - 1;
          assert IsParent(parent, p[h], p[i]);
        }
      }
      assert p[0] in ring;
      assert Circular(parent, ring);
    }
  }

  lemma ChainGrows(parent: map<Node, Node>, p: seq<Node>)
    requires Acyclic(parent) && Chain(parent, p) && p[0] in parent
    ensures Chain(parent, [parent[p[0]]] + p)
  {
    var u := parent[p[0]];
    var r := [u] + p;
    forall k | 0 <= k < |p| ensures u != p[k] {
      ParentNotInChain(parent, p, k);
    }
    forall i, j | 0 <= i && j == i + 1 && j < |r| ensures IsParent(parent, r[i], r[j]) {
      if i == 0 {
        assert r[j] == p[0];
      } else {
        var h := i - 1;
        assert r[i] == p[h] && r[j] == p[i];
        assert IsParent(parent, p[h], p[i]);
      }
    }
  }

  lemma ChainIsShort(parent: map<Node, Node>, p: seq<Node>)
    requires Chain(parent, p)
    ensures |p| <= |parent| + 1
  {
    var tail := p[1..];
    forall x | x in tail ensures x in parent {
      var i :| 0 <= i < |tail| && tail[i] == x;
      var j := i + 1;
      assert IsParent(parent, p[i], p[j]);
    }
    DistinctLength(tail);
    SubsetSize(Elements(tail), parent.Keys);
  }

  // Put parents in front until a node has none.
  ghost function TraceBack(parent: map<Node, Node>, p: seq<Node>): (r: seq<Node>)
    requires Acyclic(parent) && Chain(parent, p)
    ensures Chain(parent, r) && r[0] !in parent && r[|r| - 1] == p[|p| - 1]
    decreases |parent| + 1 - |p|
  {
    if p[0] !in parent then p
    else
      ChainGrows(parent, p);
      ChainIsShort(parent, [parent[p[0]]] + p);
      TraceBack(parent, [parent[p[0]]] + p)
  }

  lemma {:induction false} ChainCost(q: Query, s: Search, p: seq<Node>, i: nat)
    requires TreeInv(q, s.score, s.parent) && Chain(s.parent, p) && p[0] == q.start && i < |p|
    ensures IsWalk(q.g, p) && p[i] in s.score && Cost(q.g, p, i) <= s.score[p[i]]
  {
    forall k, j | 0 <= k && j == k + 1 && j < |p| ensures HasEdge(q.g, p[k], p[j]) {
      assert IsParent(s.parent, p[k], p[j]);
    }
    if i > 0 {
      ChainCost(q, s, p, i - 1);
      var k := i - 1;
      assert IsParent(s.parent, p[k], p[i]);
    }
  }

  // Only the start has a score and no parent.
  lemma ChainStartsAtStart(q: Query, s: Search, p: seq<Node>)
    requires TreeInv(q, s.score, s.parent) && Chain(s.parent, p) && p[0] !in s.parent
    requires p[|p| - 1] in s.score
    ensures p[0] == q.start
  {
    if |p| > 1 {
      assert IsParent(s.parent, p[0], p[1]);
    }
  }

  // ----- The answer, and what it promises -----

  ghost function Route(q: Query): Option<seq<Node>>
    requires Askable(q)
  {
    InitialInv(q);
    RunEnds(q, Initial(q));
    match Run(q, Initial(q))
    case None => None
    case Some(t) => Some(TraceBack(t.parent, [q.end]))
  }

  // What a loop that expands one node at a time needs to know.
  lemma SearchGoesOn(q: Query, s: Search)
    requires Inv(q, s) && s.open != multiset{} && Least(s.open).node != q.end
    ensures Inv(q, Expand(q, s)) && Run(q, s) == Run(q, Expand(q, s))
    ensures var t := Expand(q, s);
            Below(q, t.score) < Below(q, s.score) || (Below(q, t.score) == Below(q, s.score) && |t.open| < |s.open|)
  {
    ExpandKeepsInv(q, s);
  }

  lemma SearchEnds(q: Query, s: Search)
    requires Inv(q, s) && Run(q, s) == Run(q, Initial(q))
    requires s.open == multiset{} || Least(s.open).node == q.end
    ensures Route(q) == if s.open == multiset{} then None else Some(TraceBack(s.parent, [q.end]))
  {
  }

  // The estimate never exceeds the cost of going on to the end.
  ghost predicate Admissible(q: Query)
    requires Askable(q)
  {
    && Estimate(q, q.end) == 0.0
    && forall w :: IsWalk(q.g, w) && w[|w| - 1] == q.end ==> Estimate(q, w[0]) <= Total(q.g, w)
  }

  // The estimate never exceeds c times that cost.
  ghost predicate Stretched(q: Query, c: real)
    requires Askable(q)
  {
    && c >= 1.0
    && Estimate(q, q.end) == 0.0
    && forall w :: IsWalk(q.g, w) && w[|w| - 1] == q.end ==> Estimate(q, w[0]) <= Times(c, Total(q.g, w))
  }

  lemma RouteFromState(q: Query) returns (t: Search)
    requires Askable(q) && Route(q).Some?
    ensures Inv(q, t) && t.open != multiset{} && Least(t.open).node == q.end && q.end in t.score
    ensures WalkFromTo(q.g, Route(q).value, q.start, q.end) && Distinct(Route(q).value)
    ensures Total(q.g, Route(q).value) <= t.score[q.end]
  {
    InitialInv(q);
    RunEnds(q, Initial(q));
    t := Run(q, Initial(q)).value;
    assert q.end in t.score;
    TracedPath(q, t);
  }

  lemma TracedPath(q: Query, t: Search)
    requires Askable(q) && TreeInv(q, t.score, t.parent) && q.end in t.score
    ensures var p := TraceBack(t.parent, [q.end]);
            WalkFromTo(q.g, p, q.start, q.end) && Distinct(p) && Total(q.g, p) <= t.score[q.end]
  {
    var p := TraceBack(t.parent, [q.end]);
    ChainStartsAtStart(q, t, p);
    ChainCost(q, t, p, |p| - 1);
  }

  // Whatever the heuristic, a returned path is a simple path from start to end.
  lemma RouteIsSimplePath(q: Query)
    requires Askable(q) && Route(q).Some?
    ensures WalkFromTo(q.g, Route(q).value, q.start, q.end) && Distinct(Route(q).value)
  {
    var _ := RouteFromState(q);
  }

  lemma {:induction false} ScoreFollowsWalk(q: Query, s: Search, w: seq<Node>, i: nat)
    requires TreeInv(q, s.score, s.parent) && IsWalk(q.g, w) && w[0] == q.start && i < |w|
    requires forall k :: 0 <= k < i && w[k] in s.score ==> Relaxed(q, s.score, w[k])
    ensures w[i] in s.score && s.score[w[i]] <= Cost(q.g, w, i)
  {
    if i > 0 {
      ScoreFollowsWalk(q, s, w, i - 1);
      assert HasEdge(q.g, w[i - 1], w[i]);
    }
  }

  // Whatever the heuristic, the search gives up exactly when the end cannot be reached.
  lemma RouteIsNoneIffUnreachable(q: Query)
    requires Askable(q)
    ensures Route(q) == None <==> !exists w :: WalkFromTo(q.g, w, q.start, q.end)
  {
    InitialInv(q);
    RunEnds(q, Initial(q));
    if Route(q) == None {
      var t :| Inv(q, t) && t.open == multiset{};
      forall w ensures !WalkFromTo(q.g, w, q.start, q.end) {
        if WalkFromTo(q.g, w, q.start, q.end) {
          ScoreFollowsWalk(q, t, w, |w| - 1);
        }
      }
    } else {
      RouteIsSimplePath(q);
    }
  }

  lemma StretchRest(c: real, done: real, rest: real)
    requires c >= 1.0 && done >= 0.0
    ensures done + Times(c, rest) <= Times(c, done + rest)
  {
    assert (c - 1.0) * done >= 0.0;
  }

  lemma StretchMore(c: real, x: real)
    requires c >= 1.0 && x >= 0.0
    ensures 0.0 <= x <= Times(c, x)
  {
    StretchRest(c, x, 0.0);
  }

  lemma StretchedEstimate(q: Query, c: real, w: seq<Node>)
    requires Askable(q) && Stretched(q, c) && IsWalk(q.g, w) && w[|w| - 1] == q.end
    ensures Estimate(q, w[0]) <= Times(c, Total(q.g, w))
  {
  }

  // The priority of a node on the walk, when its score is no more than the cost of
  // getting there, is no more than c times the cost of the walk.
  lemma PriorityBelowWalk(q: Query, score: map<Node, real>, w: seq<Node>, i: nat, c: real)
    requires Askable(q) && Stretched(q, c) && WalkFromTo(q.g, w, q.start, q.end)
    requires i < |w| && w[i] in score && score[w[i]] <= Cost(q.g, w, i)
    ensures Priority(q, score, w[i]) <= Times(c, Total(q.g, w))
  {
    CostNonNegative(q.g, w, i);
    CostNonNegative(q.g, w, |w| - 1);
    CostOfSuffix(q.g, w, i, |w| - 1 - i);
    assert w[i..][|w[i..]| - 1] == q.end;
    StretchedEstimate(q, c, w[i..]);
    StretchRest(c, Cost(q.g, w, i), Total(q.g, w) - Cost(q.g, w, i));
    StretchMore(c, Total(q.g, w));
  }

  lemma WaitingAbovePopped(q: Query, t: Search, v: Node)
    requires OpenInv(q, t) && t.open != multiset{} && Least(t.open).node == q.end
    requires v in t.score && (v == q.end || !Relaxed(q, t.score, v))
    ensures q.end in t.score && Priority(q, t.score, q.end) <= Priority(q, t.score, v)
  {
  }

  // When the end is popped, its score is at most c times the cost of any walk: the first
  // node of the walk that is not relaxed waits in the heap with no higher a priority.
  lemma PoppedScoreWithin(q: Query, t: Search, w: seq<Node>, c: real)
    requires Askable(q) && TreeInv(q, t.score, t.parent) && OpenInv(q, t)
    requires t.open != multiset{} && Least(t.open).node == q.end
    requires Stretched(q, c) && WalkFromTo(q.g, w, q.start, q.end)
    ensures q.end in t.score && t.score[q.end] <= Times(c, Total(q.g, w))
  {
    CostNonNegative(q.g, w, |w| - 1);
    StretchMore(c, Total(q.g, w));
    var i := FirstUnrelaxed(q, t, w, 0);
    ScoreFollowsWalk(q, t, w, i);
    PriorityBelowWalk(q, t.score, w, i, c);
    WaitingAbovePopped(q, t, w[i]);
  }

  // The first node of a walk to the end that is the end itself or not yet relaxed.
  lemma FirstUnrelaxed(q: Query, t: Search, w: seq<Node>, from: nat) returns (i: nat)
    requires from < |w| && w[|w| - 1] == q.end
    requires forall k :: 0 <= k < from && w[k] in t.score ==> Relaxed(q, t.score, w[k])
    ensures i < |w| && (w[i] in t.score ==> w[i] == q.end || !Relaxed(q, t.score, w[i]))
    ensures forall k :: 0 <= k < i && w[k] in t.score ==> Relaxed(q, t.score, w[k])
    decreases |w| - from
  {
    if from < |w| - 1 && (w[from] in t.score ==> Relaxed(q, t.score, w[from])) {
      i := FirstUnrelaxed(q, t, w, from + 1);
    } else {
      i := from;
    }
  }

  // With a heuristic that overestimates by a factor of c at most, so does the route.
  lemma RouteIsWithin(q: Query, c: real)
    requires Askable(q) && Stretched(q, c) && Route(q).Some?
    ensures WalkFromTo(q.g, Route(q).value, q.start, q.end)
    ensures forall w :: WalkFromTo(q.g, w, q.start, q.end) ==> Total(q.g, Route(q).value) <= Times(c, Total(q.g, w))
  {
    var t := RouteFromState(q);
    forall w | WalkFromTo(q.g, w, q.start, q.end) ensures Total(q.g, Route(q).value) <= Times(c, Total(q.g, w)) {
      PoppedScoreWithin(q, t, w, c);
    }
  }

  // With an admissible heuristic the returned path is the cheapest of all walks.
  lemma RouteIsOptimal(q: Query)
    requires Askable(q) && Admissible(q) && Route(q).Some?
    ensures WalkFromTo(q.g, Route(q).value, q.start, q.end)
    ensures forall w :: WalkFromTo(q.g, w, q.start, q.end) ==> Total(q.g, Route(q).value) <= Total(q.g, w)
  {
    assert forall x :: Times(1.0, x) == x;
    RouteIsWithin(q, 1.0);
  }
}
