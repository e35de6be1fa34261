/** Undirected router graphs: walks and shortest distances. */
module Graph {

  /** An internal link between two routers. */
  datatype Link = Link(id: nat, a: nat, b: nat, weight: nat)

  ghost predicate Joins(l: Link, u: nat, v: nat) {
    (l.a == u && l.b == v) || (l.a == v && l.b == u)
  }

  ghost predicate Adjacent(links: seq<Link>, u: nat, v: nat) {
    exists l :: l in links && Joins(l, u, v)
  }

  ghost predicate IsWalk(links: seq<Link>, w: seq<nat>) {
    |w| > 0 && forall i :: 0 <= i < |w| - 1 ==> Adjacent(links, w[i], w[i + 1])
  }

  ghost predicate Connects(links: seq<Link>, w: seq<nat>, u: nat, v: nat) {
    IsWalk(links, w) && w[0] == u && w[|w| - 1] == v
  }

  /** A walk of k links leads from u to v, and none is shorter. */
  ghost predicate Distance(links: seq<Link>, u: nat, v: nat, k: nat) {
    && (exists w :: Connects(links, w, u, v) && |w| == k + 1)
    && (forall w :: Connects(links, w, u, v) ==> |w| >= k + 1)
  }

  /** A potential that is zero at v alone, changes by at most one along every link, and can be
      lowered along some link everywhere else. */
  ghost predicate IsPotential(links: seq<Link>, n: nat, v: nat, d: nat -> nat) {
    && v < n && (forall u :: 0 <= u < n ==> (d(u) == 0 <==> u == v))
    && (forall l :: l in links ==> l.a < n && l.b < n && d(l.a) <= d(l.b) + 1 && d(l.b) <= d(l.a) + 1)
    && (forall u :: 0 <= u < n && u != v ==> CanDescend(links, n, d, u))
  }

  ghost predicate CanDescend(links: seq<Link>, n: nat, d: nat -> nat, u: nat) {
    exists w: nat :: w < n && Adjacent(links, u, w) && d(w) + 1 == d(u)
  }

  lemma {:induction false} WalkLower(links: seq<Link>, n: nat, v: nat, d: nat -> nat, w: seq<nat>)
    requires IsPotential(links, n, v, d) && IsWalk(links, w) && w[|w| - 1] == v
    ensures |w| >= d(w[0]) + 1
  {
    if |w| > 1 {
      var t := w[1..];
      forall i | 0 <= i < |t| - 1 ensures Adjacent(links, t[i], t[i + 1]) {
        assert Adjacent(links, w[i + 1], w[i + 1 + 1]);
      }
      WalkLower(links, n, v, d, t);
      assert Adjacent(links, w[0], w[1]);
    }
  }

  lemma {:induction false} WalkDown(links: seq<Link>, n: nat, v: nat, d: nat -> nat, u: nat) returns (w: seq<nat>)
    requires IsPotential(links, n, v, d) && u < n
    ensures Connects(links, w, u, v) && |w| == d(u) + 1
    decreases d(u)
  {
    if u == v {
      w := [v];
    } else {
      assert CanDescend(links, n, d, u);
      var x: nat :| x < n && Adjacent(links, u, x) && d(x) + 1 == d(u);
      var t := WalkDown(links, n, v, d, x);
      w := [u] + t;
      forall i | 0 <= i < |w| - 1 ensures Adjacent(links, w[i], w[i + 1]) {
        if i > 0 { assert w[i] == t[i - 1] && w[i + 1] == t[i - 1 + 1]; }
      }
    }
  }

  /** A potential is the distance. */
  lemma PotentialIsDistance(links: seq<Link>, n: nat, v: nat, d: nat -> nat, u: nat)
    requires IsPotential(links, n, v, d) && u < n
    ensures Distance(links, u, v, d(u))
  {
    var w := WalkDown(links, n, v, d, u);
    forall w | Connects(links, w, u, v) ensures |w| >= d(u) + 1 { WalkLower(links, n, v, d, w); }
  }

  // ------------------------------------------------------------------------------------
  // Trees
  // ------------------------------------------------------------------------------------

  /** Links over the routers from lo to hi in which each router but lo is the lower end, b, of
      exactly one link, and that leads to a smaller router. */
  ghost predicate IsTree(links: seq<Link>, lo: nat, hi: nat) {
    && lo < hi && |links| == hi - lo - 1
    && (forall l :: l in links ==> lo <= l.a < l.b < hi)
    && (forall i, j :: 0 <= i < j < |links| ==> links[i].b != links[j].b)
    && (forall v :: lo < v < hi ==> HasParent(links, v))
  }

  ghost predicate HasParent(links: seq<Link>, v: nat) {
    exists l :: l in links && l.b == v
  }

  ghost predicate Connected(links: seq<Link>, u: nat, v: nat) {
    exists w :: Connects(links, w, u, v)
  }

  lemma Extend(links: seq<Link>, u: nat, x: nat, v: nat)
    requires Adjacent(links, u, x) && Connected(links, x, v)
    ensures Connected(links, u, v)
  {
    var t :| Connects(links, t, x, v);
    var w := [u] + t;
    forall i | 0 <= i < |w| - 1 ensures Adjacent(links, w[i], w[i + 1]) {
      if i > 0 { assert Adjacent(links, t[i - 1], t[i - 1 + 1]); }
    }
    assert Connects(links, w, u, v);
  }

  lemma {:induction false} Relay(links: seq<Link>, w: seq<nat>, u: nat, x: nat, v: nat)
    requires Connects(links, w, x, u) && Connected(links, x, v)
    ensures Connected(links, u, v)
  {
    if |w| > 1 {
      assert Adjacent(links, w[0], w[0 + 1]);
      var l :| l in links && Joins(l, w[0], w[1]);
      assert Joins(l, w[1], w[0]);
      Extend(links, w[1], x, v);
      var t := w[1..];
      forall i | 0 <= i < |t| - 1 ensures Adjacent(links, t[i], t[i + 1]) {
        assert Adjacent(links, w[i + 1], w[i + 1 + 1]);
      }
      Relay(links, t, u, w[1], v);
    }
  }

  lemma {:induction false} RootConnected(links: seq<Link>, lo: nat, hi: nat, v: nat)
    requires IsTree(links, lo, hi) && lo <= v < hi
    ensures Connected(links, v, lo)
  {
    if v == lo {
      assert Connects(links, [lo], lo, lo);
    } else {
      assert HasParent(links, v);
      var l :| l in links && l.b == v;
      RootConnected(links, lo, hi, l.a);
      assert Joins(l, v, l.a);
      Extend(links, v, l.a, lo);
    }
  }

  /** Any two routers of a tree are connected. */
  lemma TreeConnected(links: seq<Link>, lo: nat, hi: nat, u: nat, v: nat)
    requires IsTree(links, lo, hi) && lo <= u < hi && lo <= v < hi
    ensures Connected(links, u, v)
  {
    RootConnected(links, lo, hi, u);
    RootConnected(links, lo, hi, v);
    var w :| Connects(links, w, v, lo);
    assert Connects(links, [v], v, v);
    Relay(links, w, lo, v, v);
    var t :| Connects(links, t, lo, v);
    var r :| Connects(links, r, u, lo);
    JoinWalks(links, r, t, u, lo, v);
  }

  lemma JoinWalks(links: seq<Link>, r: seq<nat>, t: seq<nat>, u: nat, x: nat, v: nat)
    requires Connects(links, r, u, x) && Connects(links, t, x, v)
    ensures Connected(links, u, v)
  {
    var w := r + t[1..];
    forall i | 0 <= i < |w| - 1 ensures Adjacent(links, w[i], w[i + 1]) {
      if i < |r| - 1 {
        assert Adjacent(links, r[i], r[i + 1]);
      } else {
        var k := i - (|r| - 1);
        assert Adjacent(links, t[k], t[k + 1]);
        assert w[i] == t[k];
      }
    }
    assert Connects(links, w, u, v);
  }

  /** Three or more different routers, each joined to the next and the last to the first. */
  ghost predicate IsCycle(links: seq<Link>, w: seq<nat>) {
    && |w| >= 3 && (forall i, j :: 0 <= i < j < |w| ==> w[i] != w[j])
    && (forall i :: 0 <= i < |w| ==> Adjacent(links, w[i], After(w, i)))
  }

  function After(w: seq<nat>, i: nat): nat
    requires i < |w|
  {
    if i + 1 < |w| then w[i + 1] else w[0]
  }

  lemma LargestIn(w: seq<nat>) returns (i: nat)
    requires |w| > 0
    ensures i < |w| && forall k :: 0 <= k < |w| ==> w[k] <= w[i]
  {
    i := 0;
    for n := 1 to |w|
      invariant i < n && forall k :: 0 <= k < n ==> w[k] <= w[i]
    {
      if w[n] > w[i] { i := n; }
    }
  }

  /** A tree has no cycle: the largest router on it would have two parents. */
  lemma TreeAcyclic(links: seq<Link>, lo: nat, hi: nat, w: seq<nat>)
    requires IsTree(links, lo, hi)
    ensures !IsCycle(links, w)
  {
    if IsCycle(links, w) {
      var i := LargestIn(w);
      var before := if i == 0 then |w| - 1 else i - 1;
      var next := if i + 1 < |w| then i + 1 else 0;
      assert Adjacent(links, w[before], After(w, before)) && Adjacent(links, w[i], After(w, i));
      OneParent(links, lo, hi, w[before], w[next], w[i]);
    }
  }

  lemma OneParent(links: seq<Link>, lo: nat, hi: nat, u: nat, v: nat, x: nat)
    requires IsTree(links, lo, hi) && u < x && v < x && Adjacent(links, u, x) && Adjacent(links, x, v)
    ensures u == v
  {
    var k :| k in links && Joins(k, u, x);
    var l :| l in links && Joins(l, x, v);
    var i :| 0 <= i < |links| && links[i] == k;
    var j :| 0 <= j < |links| && links[j] == l;
    assert k.b == x == l.b;
  }

  /** A subtree hung below lo by one more link. */
  lemma HangBelow(s: seq<Link>, t: seq<Link>, l: Link, lo: nat, mid: nat, hi: nat)
    requires IsTree(s, lo, mid) && IsTree(t, mid, hi) && l.a == lo && l.b == mid
    ensures IsTree(s + t + [l], lo, hi)
  {
    var all := s + t + [l];
    assert all[|all| - 1] == l;
    forall v | lo < v < hi ensures HasParent(all, v) {
      if v < mid {
        assert HasParent(s, v);
        var k :| k in s && k.b == v;
        assert k in all;
      } else if v > mid {
        assert HasParent(t, v);
        var k :| k in t && k.b == v;
        assert k in all;
      }
    }
    forall i | 0 <= i < |all| ensures all[i] in s || all[i] in t || all[i] == l {}
    forall i | 0 <= i < |s| ensures s[i].b < mid { assert s[i] in s; }
    forall i | 0 <= i < |t| ensures t[i].b > mid { assert t[i] in t; }
  }
}
