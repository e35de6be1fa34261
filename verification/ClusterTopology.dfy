/** The nested clusters of configs/topologies/Cluster.py: every cluster gets a router, its
    controllers hang off that router, its sub-clusters' routers are linked to it. */
module ClusterTopology {
  import opened Graph

  datatype Node = Controller | Sub(cluster: Cluster)
  datatype Cluster = Cluster(nodes: seq<Node>)

  datatype ExtLink = ExtLink(id: nat, router: nat)

  /** The network built so far; the class counters are the numbers given out. */
  datatype State = State(routers: seq<nat>, ints: seq<Link>, exts: seq<ExtLink>,
                         numRouters: nat, numInts: nat, numExts: nat)

  // ------------------------------------------------------------------------------------
  // What makeTopology adds
  // ------------------------------------------------------------------------------------

  function Build(c: Cluster, st: State): State
    decreases c, |c.nodes| + 1
  {
    BuildNodes(c, |c.nodes|, st.numRouters,
               st.(routers := st.routers + [st.numRouters], numRouters := st.numRouters + 1))
  }

  /** The first n nodes of the cluster, whose router is given. */
  function BuildNodes(c: Cluster, n: nat, router: nat, st: State): State
    requires n <= |c.nodes|
    decreases c, n
  {
    if n == 0 then st
    else
      var s := BuildNodes(c, n - 1, router, st);
      match c.nodes[n - 1]
      case Controller => s.(exts := s.exts + [ExtLink(s.numExts, router)], numExts := s.numExts + 1)
      case Sub(d) =>
        var t := Build(d, s);
        t.(ints := t.ints + [Link(t.numInts, router, s.numRouters, 1)], numInts := t.numInts + 1)
  }

  class Network {
    var routers: seq<nat>
    var ints: seq<Link>
    var exts: seq<ExtLink>
    var numRouters: nat
    var numInts: nat
    var numExts: nat

    ghost function Abs(): State
      reads this
    {
      State(routers, ints, exts, numRouters, numInts, numExts)
    }

    method MakeTopology(c: Cluster) returns (router: nat)
      modifies this
      ensures Abs() == Build(c, old(Abs())) && router == old(numRouters)
      decreases c
    {
      router := numRouters;
      numRouters := numRouters + 1;
      routers := routers + [router];
      ghost var st := Abs();
      for i := 0 to |c.nodes|
        invariant Abs() == BuildNodes(c, i, router, st)
      {
        match c.nodes[i]
        case Controller =>
          exts := exts + [ExtLink(numExts, router)];
          numExts := numExts + 1;
        case Sub(d) =>
          var sub := MakeTopology(d);
          ints := ints + [Link(numInts, router, sub, 1)];
          numInts := numInts + 1;
      }
    }
  }

  // ------------------------------------------------------------------------------------
  // Counting clusters and controllers
  // ------------------------------------------------------------------------------------

  /** The clusters among the first n nodes, at any depth, and the cluster itself. */
  function Clusters(c: Cluster, n: nat): nat
    requires n <= |c.nodes|
    decreases c, n
  {
    if n == 0 then 1
    else Clusters(c, n - 1) + (match c.nodes[n - 1] case Controller => 0 case Sub(d) => Clusters(d, |d.nodes|))
  }

  /** __len__: the controllers of the cluster itself, and then those of its sub-clusters. */
  function Len(c: Cluster): nat
    decreases c, |c.nodes| + 1
  {
    Direct(c, |c.nodes|) + Nested(c, |c.nodes|)
  }

  function Direct(c: Cluster, n: nat): nat
    requires n <= |c.nodes|
  {
    if n == 0 then 0 else Direct(c, n - 1) + (if c.nodes[n - 1].Controller? then 1 else 0)
  }

  function Nested(c: Cluster, n: nat): nat
    requires n <= |c.nodes|
    decreases c, n
  {
    if n == 0 then 0
    else Nested(c, n - 1) + (match c.nodes[n - 1] case Controller => 0 case Sub(d) => Len(d))
  }

  // ------------------------------------------------------------------------------------
  // The result is a tree, with every number given out once
  // ------------------------------------------------------------------------------------

  /** t extends s by the routers from s.numRouters, joined to a tree, and by exts external
      links to them; all are numbered from the counters on, and the counters follow. */
  ghost predicate Grows(s: State, t: State, exts: nat) {
    && s.routers <= t.routers && s.ints <= t.ints && s.exts <= t.exts
    && t.numRouters - s.numRouters == |t.routers| - |s.routers|
    && t.numInts - s.numInts == |t.ints| - |s.ints|
    && t.numExts - s.numExts == |t.exts| - |s.exts| == exts
    && (forall i :: |s.routers| <= i < |t.routers| ==> t.routers[i] == s.numRouters + i - |s.routers|)
    && (forall i :: |s.ints| <= i < |t.ints| ==> t.ints[i].id == s.numInts + i - |s.ints| && t.ints[i].weight == 1)
    && (forall i :: |s.exts| <= i < |t.exts| ==>
          && t.exts[i].id == s.numExts + i - |s.exts|
          && s.numRouters <= t.exts[i].router < t.numRouters)
    && IsTree(t.ints[|s.ints|..], s.numRouters, t.numRouters)
  }

  lemma {:induction false} BuildGrows(c: Cluster, st: State)
    ensures Grows(st, Build(c, st), Len(c))
    ensures Build(c, st).numRouters == st.numRouters + Clusters(c, |c.nodes|)
    decreases c, |c.nodes| + 1
  {
    NodesGrow(c, |c.nodes|, st);
  }

  function WithRouter(st: State): State {
    st.(routers := st.routers + [st.numRouters], numRouters := st.numRouters + 1)
  }

  lemma {:induction false} NodesGrow(c: Cluster, n: nat, st: State)
    requires n <= |c.nodes|
    ensures var t := BuildNodes(c, n, st.numRouters, WithRouter(st));
      && Grows(st, t, Direct(c, n) + Nested(c, n))
      && t.numRouters == st.numRouters + Clusters(c, n)
    decreases c, n
  {
    hide Grows, IsTree;
    if n == 0 {
      NoNodes(c, st);
    } else {
      NodesGrow(c, n - 1, st);
      var s := BuildNodes(c, n - 1, st.numRouters, WithRouter(st));
      match c.nodes[n - 1]
      case Controller =>
        AddController(st, s, Direct(c, n - 1) + Nested(c, n - 1));
      case Sub(d) =>
        BuildGrows(d, s);
        AddSub(st, s, Build(d, s), Direct(c, n - 1) + Nested(c, n - 1), Len(d));
    }
  }

  lemma NoNodes(c: Cluster, st: State)
    ensures Grows(st, BuildNodes(c, 0, st.numRouters, WithRouter(st)), 0)
  {}

  lemma AddController(st: State, s: State, k: nat)
    requires Grows(st, s, k)
    ensures Grows(st, s.(exts := s.exts + [ExtLink(s.numExts, st.numRouters)], numExts := s.numExts + 1), k + 1)
  {
    hide IsTree;
    assert st.numRouters < s.numRouters by { TreeNonEmpty(s.ints[|st.ints|..], st.numRouters, s.numRouters); }
  }

  lemma TreeNonEmpty(links: seq<Link>, lo: nat, hi: nat)
    requires IsTree(links, lo, hi)
    ensures lo < hi
  {}

  lemma AddSub(st: State, s: State, t: State, k: nat, m: nat)
    requires Grows(st, s, k) && Grows(s, t, m)
    ensures var l := Link(t.numInts, st.numRouters, s.numRouters, 1);
      Grows(st, t.(ints := t.ints + [l], numInts := t.numInts + 1), k + m)
  {
    hide IsTree;
    var l := Link(t.numInts, st.numRouters, s.numRouters, 1);
    TreeNonEmpty(s.ints[|st.ints|..], st.numRouters, s.numRouters);
    TreeNonEmpty(t.ints[|s.ints|..], s.numRouters, t.numRouters);
    HangBelow(s.ints[|st.ints|..], t.ints[|s.ints|..], l, st.numRouters, s.numRouters, t.numRouters);
    assert (t.ints + [l])[|st.ints|..] == s.ints[|st.ints|..] + t.ints[|s.ints|..] + [l];
  }

  /** One router per cluster, one link less than routers, one external link per controller,
      and the routers and links make a connected graph without cycles. */
  lemma ClusterIsTree(c: Cluster, st: State)
    ensures var t := Build(c, st);
      && Grows(st, t, Len(c))
      && |t.routers| == |st.routers| + Clusters(c, |c.nodes|)
      && |t.ints| == |st.ints| + Clusters(c, |c.nodes|) - 1
      && |t.exts| == |st.exts| + Len(c)
    ensures var t := Build(c, st); var links := t.ints[|st.ints|..];
      && (forall u, v :: st.numRouters <= u < t.numRouters && st.numRouters <= v < t.numRouters ==>
            Connected(links, u, v))
      && (forall w :: !IsCycle(links, w))
  {
    hide Build, Clusters, Len, IsTree, Connected, IsCycle;
    BuildGrows(c, st);
    var t := Build(c, st);
    var links := t.ints[|st.ints|..];
    TreeSize(links, st.numRouters, t.numRouters);
    forall u: nat, v: nat | st.numRouters <= u < t.numRouters && st.numRouters <= v < t.numRouters
      ensures Connected(links, u, v)
    {
      TreeConnected(links, st.numRouters, t.numRouters, u, v);
    }
    forall w ensures !IsCycle(links, w) { TreeAcyclic(links, st.numRouters, t.numRouters, w); }
  }

  // ------------------------------------------------------------------------------------
  // What hangs off a cluster's own router
  // ------------------------------------------------------------------------------------

  /** The controllers at a router. */
  function Hanging(exts: seq<ExtLink>, router: nat): nat {
    if exts == [] then 0
    else Hanging(exts[..|exts| - 1], router) + (if exts[|exts| - 1].router == router then 1 else 0)
  }

  /** The links that lead down from a router. */
  function Leaving(ints: seq<Link>, router: nat): nat {
    if ints == [] then 0
    else Leaving(ints[..|ints| - 1], router) + (if ints[|ints| - 1].a == router then 1 else 0)
  }

  lemma {:induction false} HangingConcat(a: seq<ExtLink>, b: seq<ExtLink>, router: nat)
    ensures Hanging(a + b, router) == Hanging(a, router) + Hanging(b, router)
  {
    if b == [] {
      assert a + b == a;
    } else {
      assert (a + b)[..|a + b| - 1] == a + b[..|b| - 1];
      HangingConcat(a, b[..|b| - 1], router);
    }
  }

  lemma {:induction false} LeavingConcat(a: seq<Link>, b: seq<Link>, router: nat)
    ensures Leaving(a + b, router) == Leaving(a, router) + Leaving(b, router)
  {
    if b == [] {
      assert a + b == a;
    } else {
      assert (a + b)[..|a + b| - 1] == a + b[..|b| - 1];
      LeavingConcat(a, b[..|b| - 1], router);
    }
  }

  lemma {:induction false} NoneHanging(exts: seq<ExtLink>, router: nat)
    requires forall l <- exts :: l.router != router
    ensures Hanging(exts, router) == 0
  {
    if exts != [] { NoneHanging(exts[..|exts| - 1], router); }
  }

  lemma {:induction false} NoneLeaving(ints: seq<Link>, router: nat)
    requires forall l <- ints :: l.a != router
    ensures Leaving(ints, router) == 0
  {
    if ints != [] { NoneLeaving(ints[..|ints| - 1], router); }
  }

  /** What is built behind a state stays away from the routers that were there before. */
  lemma KeepsAway(s: State, t: State, k: nat, router: nat)
    requires Grows(s, t, k) && router < s.numRouters
    ensures Hanging(t.exts[|s.exts|..], router) == 0 && Leaving(t.ints[|s.ints|..], router) == 0
  {
    NoneHanging(t.exts[|s.exts|..], router);
    NoneLeaving(t.ints[|s.ints|..], router);
  }

  lemma {:induction false} NodesAtRouter(c: Cluster, n: nat, st: State)
    requires n <= |c.nodes|
    ensures var t := BuildNodes(c, n, st.numRouters, WithRouter(st));
      && |st.exts| <= |t.exts| && |st.ints| <= |t.ints|
      && Hanging(t.exts[|st.exts|..], st.numRouters) == Direct(c, n)
      && Leaving(t.ints[|st.ints|..], st.numRouters) == n - Direct(c, n)
  {
    hide Grows, Hanging, Leaving;
    if n == 0 {
      NothingYet(st);
    } else {
      NodesAtRouter(c, n - 1, st);
      NodesGrow(c, n - 1, st);
      var s := BuildNodes(c, n - 1, st.numRouters, WithRouter(st));
      var t := BuildNodes(c, n, st.numRouters, WithRouter(st));
      match c.nodes[n - 1]
      case Controller =>
        OneAtRouter(st, s, t, Direct(c, n - 1) + Nested(c, n - 1));
      case Sub(d) =>
        BuildGrows(d, s);
        SubAtRouter(st, s, Build(d, s), t, Direct(c, n - 1) + Nested(c, n - 1), Len(d));
    }
  }

  lemma NothingYet(st: State)
    ensures Hanging(st.exts[|st.exts|..], st.numRouters) == 0 && Leaving(st.ints[|st.ints|..], st.numRouters) == 0
  {}

  lemma OneAtRouter(st: State, s: State, t: State, k: nat)
    requires Grows(st, s, k)
    requires t == s.(exts := s.exts + [ExtLink(s.numExts, st.numRouters)], numExts := s.numExts + 1)
    ensures |st.exts| <= |t.exts| && |st.ints| <= |t.ints|
    ensures Hanging(t.exts[|st.exts|..], st.numRouters) == Hanging(s.exts[|st.exts|..], st.numRouters) + 1
    ensures Leaving(t.ints[|st.ints|..], st.numRouters) == Leaving(s.ints[|st.ints|..], st.numRouters)
  {
    hide IsTree;
    var x := ExtLink(s.numExts, st.numRouters);
    assert t.exts[|st.exts|..] == s.exts[|st.exts|..] + [x];
    HangingConcat(s.exts[|st.exts|..], [x], st.numRouters);
  }

  lemma SubAtRouter(st: State, s: State, u: State, t: State, k: nat, m: nat)
    requires Grows(st, s, k) && Grows(s, u, m)
    requires t == u.(ints := u.ints + [Link(u.numInts, st.numRouters, s.numRouters, 1)], numInts := u.numInts + 1)
    ensures |st.exts| <= |t.exts| && |st.ints| <= |t.ints|
    ensures Hanging(t.exts[|st.exts|..], st.numRouters) == Hanging(s.exts[|st.exts|..], st.numRouters)
    ensures Leaving(t.ints[|st.ints|..], st.numRouters) == Leaving(s.ints[|st.ints|..], st.numRouters) + 1
  {
    hide IsTree, Hanging;
    TreeNonEmpty(s.ints[|st.ints|..], st.numRouters, s.numRouters);
    KeepsAway(s, u, m, st.numRouters);
    var l := Link(u.numInts, st.numRouters, s.numRouters, 1);
    assert t.exts[|st.exts|..] == s.exts[|st.exts|..] + u.exts[|s.exts|..];
    assert t.ints[|st.ints|..] == s.ints[|st.ints|..] + u.ints[|s.ints|..] + [l];
    HangingConcat(s.exts[|st.exts|..], u.exts[|s.exts|..], st.numRouters);
    LeavingConcat(s.ints[|st.ints|..], u.ints[|s.ints|..], st.numRouters);
    LeavingConcat(s.ints[|st.ints|..] + u.ints[|s.ints|..], [l], st.numRouters);
  }

  /** A cluster's own router has its direct controllers, and one link down for each of its direct
      sub-clusters. */
  lemma AtRouter(c: Cluster, st: State)
    ensures var t := Build(c, st);
      && |st.exts| <= |t.exts| && |st.ints| <= |t.ints|
      && Hanging(t.exts[|st.exts|..], st.numRouters) == Direct(c, |c.nodes|)
      && Leaving(t.ints[|st.ints|..], st.numRouters) == |c.nodes| - Direct(c, |c.nodes|)
  {
    NodesAtRouter(c, |c.nodes|, st);
  }

  lemma TreeSize(links: seq<Link>, lo: nat, hi: nat)
    requires IsTree(links, lo, hi)
    ensures |links| == hi - lo - 1
  {}
}
