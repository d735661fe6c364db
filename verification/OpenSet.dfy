/** The open set of the search: a binary heap of (f-score, node) tuples.

  Only what `heapq` promises is modelled: a multiset of tuples from which the
  least one is popped.  Tuples compare by f-score, then by node name, code point
  by code point; the order is total and antisymmetric, so the popped tuple is
  determined by the contents of the heap.
 */
module OpenSet {
  import opened Walks

  datatype Entry = Entry(f: real, node: Node)

  predicate StringLe(a: string, b: string) {
    a == [] || (b != [] && (a[0] < b[0] || (a[0] == b[0] && StringLe(a[1..], b[1..]))))
  }

  predicate Le(a: Entry, b: Entry) {
    a.f < b.f || (a.f == b.f && StringLe(a.node, b.node))
  }

  ghost predicate IsLeast(e: Entry, heap: multiset<Entry>) {
    e in heap && forall x :: x in heap ==> Le(e, x)
  }

  lemma {:induction false} StringLeTotal(a: string, b: string)
    ensures StringLe(a, b) || StringLe(b, a)
    ensures StringLe(a, b) && StringLe(b, a) ==> a == b
  {
    if a != [] && b != [] {
      StringLeTotal(a[1..], b[1..]);
      assert a == [a[0]] + a[1..] && b == [b[0]] + b[1..];
    }
  }

  lemma {:induction false} StringLeTransitive(a: string, b: string, c: string)
    requires StringLe(a, b) && StringLe(b, c)
    ensures StringLe(a, c)
  {
    if a != [] && a[0] == b[0] == c[0] {
      StringLeTransitive(a[1..], b[1..], c[1..]);
    }
  }

  // The order of strings: at the first difference the smaller character comes first, and a
  // string comes before its continuations.
  lemma {:induction false} StringLeMeans(a: string, b: string)
    ensures StringLe(a, b) <==>
              exists n :: 0 <= n <= |a| && n <= |b| && a[..n] == b[..n] && (n == |a| || (n < |b| && a[n] < b[n]))
  {
    if a == [] {
      assert a[..0] == b[..0];
    } else if b != [] {
      if a[0] < b[0] {
        assert a[..0] == b[..0];
      }
      var c, d := a[1..], b[1..];
      StringLeMeans(c, d);
      if a[0] == b[0] && StringLe(c, d) {
        var n :| 0 <= n <= |c| && n <= |d| && c[..n] == d[..n] && (n == |c| || (n < |d| && c[n] < d[n]));
        assert a[..n + 1] == [a[0]] + c[..n] && b[..n + 1] == [b[0]] + d[..n];
      }
      forall n | 0 < n <= |a| && n <= |b| && a[..n] == b[..n] && (n == |a| || (n < |b| && a[n] < b[n]))
        ensures a[0] == b[0] && StringLe(c, d)
      {
        assert a[..n][0] == b[..n][0];
        assert c[..n - 1] == a[..n][1..] && d[..n - 1] == b[..n][1..];
      }
    }
  }

  lemma {:induction false} LeastExists(heap: multiset<Entry>) returns (e: Entry)
    requires heap != multiset{}
    ensures IsLeast(e, heap)
    decreases |heap|
  {
    e :| e in heap;
    var rest := heap - multiset{e};
    if rest == multiset{} {
      StringLeTotal(e.node, e.node);
      assert forall x :: x in heap ==> x == e || x in rest;
    } else {
      var r := LeastExists(rest);
      StringLeTotal(e.node, r.node);
      StringLeTotal(e.node, e.node);
      var least := if Le(e, r) then e else r;
      forall x | x in heap ensures Le(least, x) {
        if x != e {
          assert x in rest;
          if Le(e, r) && e.f == r.f == x.f {
            StringLeTransitive(e.node, r.node, x.node);
          }
        }
      }
      e := least;
    }
  }

  lemma LeastIsUnique(a: Entry, b: Entry, heap: multiset<Entry>)
    requires IsLeast(a, heap) && IsLeast(b, heap)
    ensures a == b
  {
    assert Le(a, b) && Le(b, a);
    StringLeTotal(a.node, b.node);
  }

  lemma SomeLeast(heap: multiset<Entry>)
    requires heap != multiset{}
    ensures exists e :: IsLeast(e, heap)
  {
    var e := LeastExists(heap);
  }

  ghost function Least(heap: multiset<Entry>): (e: Entry)
    requires heap != multiset{}
    ensures IsLeast(e, heap)
  {
    SomeLeast(heap);
    var e :| IsLeast(e, heap);
    e
  }

  // heapq.heappop
  method Pop(heap: multiset<Entry>) returns (e: Entry, rest: multiset<Entry>)
    requires heap != multiset{}
    ensures e == Least(heap) && rest == heap - multiset{e}
    ensures e in heap && forall x :: x in heap ==> e.f < x.f || (e.f == x.f && StringLe(e.node, x.node))
  {
    ghost var least := LeastExists(heap);
    e :| e in heap && forall x :: x in heap ==> Le(e, x);
    rest := heap - multiset{e};
    LeastIsUnique(e, Least(heap), heap);
  }
}
