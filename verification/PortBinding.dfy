/** The order in which configs/example/read_config.py binds ports: one greedy pass over the
    sorted connection list, guarded by a counter per port. */
module PortBinding {

  /** A port of a named object. Names enter only through their order, so integers stand for
      them. */
  datatype Port = Port(owner: int, name: int)

  /** PortConnection: one indexed end of a connection. */
  datatype End = End(port: Port, index: nat)

  datatype Conn = Conn(from: End, to: End) {
    function Flip(): Conn { Conn(to, from) }
  }

  /** PortConnection.__cmp__. */
  predicate Before(a: End, b: End) {
    || a.port.owner < b.port.owner
    || (a.port.owner == b.port.owner && a.port.name < b.port.name)
    || (a.port == b.port && a.index < b.index)
  }

  predicate ConnBefore(x: Conn, y: Conn) {
    Before(x.from, y.from) || (x.from == y.from && Before(x.to, y.to))
  }

  // ------------------------------------------------------------------------------------
  // The connection list
  // ------------------------------------------------------------------------------------

  ghost predicate NoDuplicates(c: seq<Conn>) {
    forall x :: multiset(c)[x] <= 1
  }

  /** Every connection is listed in both directions, once; an end has one peer, and no port is
      connected to itself. */
  ghost predicate WellFormed(c: seq<Conn>) {
    && NoDuplicates(c)
    && (forall x :: x in c ==> x.Flip() in c && x.from.port != x.to.port)
    && (forall x, y :: x in c && y in c && x.from == y.from ==> x.to == y.to)
  }

  function Insert(s: seq<Conn>, x: Conn): seq<Conn> {
    if s != [] && ConnBefore(x, s[|s| - 1]) then Insert(s[..|s| - 1], x) + [s[|s| - 1]] else s + [x]
  }

  /** sorted(connections). */
  function Sort(s: seq<Conn>): seq<Conn> {
    if s == [] then [] else Insert(Sort(s[..|s| - 1]), s[|s| - 1])
  }

  ghost predicate Sorted(s: seq<Conn>) {
    forall i, j :: 0 <= i < j < |s| ==> !ConnBefore(s[j], s[i])
  }

  /** The ends on the left appear in strictly increasing order. */
  ghost predicate Ascending(s: seq<Conn>) {
    forall i, j :: 0 <= i < j < |s| ==> Before(s[i].from, s[j].from)
  }

  lemma {:induction false} InsertSorted(s: seq<Conn>, x: Conn)
    requires Sorted(s)
    ensures Sorted(Insert(s, x)) && multiset(Insert(s, x)) == multiset(s) + multiset{x}
  {
    if s != [] && ConnBefore(x, s[|s| - 1]) {
      var front, last := s[..|s| - 1], s[|s| - 1];
      assert s == front + [last];
      InsertSorted(front, x);
      InsertedBefore(front, last, x, Insert(front, x));
    }
  }

  lemma InsertedBefore(front: seq<Conn>, last: Conn, x: Conn, t: seq<Conn>)
    requires Sorted(front + [last]) && ConnBefore(x, last)
    requires Sorted(t) && multiset(t) == multiset(front) + multiset{x}
    ensures Sorted(t + [last]) && multiset(t + [last]) == multiset(front + [last]) + multiset{x}
  {
    forall j | 0 <= j < |t| ensures !ConnBefore(last, t[j]) {
      assert t[j] in multiset(t);
      if t[j] != x {
        assert (front + [last])[|front|] == last && t[j] in multiset(front);
        var i :| 0 <= i < |front| && front[i] == t[j];
        assert (front + [last])[i] == t[j];
      }
    }
  }

  lemma {:induction false} SortSorts(s: seq<Conn>)
    ensures Sorted(Sort(s)) && multiset(Sort(s)) == multiset(s)
  {
    if s != [] {
      assert s == s[..|s| - 1] + [s[|s| - 1]];
      SortSorts(s[..|s| - 1]);
      InsertSorted(Sort(s[..|s| - 1]), s[|s| - 1]);
    }
  }

  lemma TwiceCounts(s: seq<Conn>, i: nat, j: nat)
    requires i < j < |s| && s[i] == s[j]
    ensures multiset(s)[s[i]] >= 2
  {
    assert s == s[..j] + s[j..];
    assert s[i] in multiset(s[..j]) && s[j] in multiset(s[j..]);
    assert multiset(s) == multiset(s[..j]) + multiset(s[j..]);
  }

  lemma SortAscends(c: seq<Conn>)
    requires WellFormed(c)
    ensures Ascending(Sort(c)) && WellFormed(Sort(c)) && |Sort(c)| == |c|
    ensures forall x :: x in Sort(c) <==> x in c
  {
    hide Sort;
    var s := Sort(c);
    SortSorts(c);
    assert |multiset(s)| == |s| && |multiset(c)| == |c|;
    forall x ensures x in s <==> x in c { assert x in multiset(s) <==> x in multiset(c); }
    forall i, j | 0 <= i < j < |s| ensures Before(s[i].from, s[j].from) {
      assert s[i] in c && s[j] in c && !ConnBefore(s[j], s[i]);
      if s[i].from == s[j].from { TwiceCounts(s, i, j); }
    }
  }

  // ------------------------------------------------------------------------------------
  // The greedy pass
  // ------------------------------------------------------------------------------------

  /** How many ends of a port the made connections have used up. */
  function Used(made: seq<Conn>, p: Port): nat {
    if made == [] then 0
    else
      var x := made[|made| - 1];
      Used(made[..|made| - 1], p) + (if x.from.port == p then 1 else 0) + (if x.to.port == p then 1 else 0)
  }

  predicate Fits(made: seq<Conn>, x: Conn) {
    Used(made, x.from.port) == x.from.index && Used(made, x.to.port) == x.to.index
  }

  /** The connections made after the first n of s. */
  function Greedy(s: seq<Conn>, n: nat): seq<Conn>
    requires n <= |s|
  {
    if n == 0 then []
    else
      var made := Greedy(s, n - 1);
      if Fits(made, s[n - 1]) then made + [s[n - 1]] else made
  }

  function Made(c: seq<Conn>): seq<Conn> { Greedy(Sort(c), |Sort(c)|) }

  ghost predicate IsBound(made: seq<Conn>, e: End) {
    exists x :: x in made && (x.from == e || x.to == e)
  }

  /** The indices of a port in the order in which they are bound. */
  function Indices(made: seq<Conn>, p: Port): seq<nat> {
    if made == [] then []
    else
      var x := made[|made| - 1];
      Indices(made[..|made| - 1], p)
        + (if x.from.port == p then [x.from.index] else []) + (if x.to.port == p then [x.to.index] else [])
  }

  function Counting(n: nat): seq<nat> {
    seq(n, i => i)
  }

  lemma Snoc(made: seq<Conn>, x: Conn, p: Port)
    ensures Used(made + [x], p)
         == Used(made, p) + (if x.from.port == p then 1 else 0) + (if x.to.port == p then 1 else 0)
    ensures Indices(made + [x], p)
         == Indices(made, p) + (if x.from.port == p then [x.from.index] else [])
            + (if x.to.port == p then [x.to.index] else [])
  {
    assert (made + [x])[..|made|] == made;
  }

  /** The invariant of the pass: a port has bound exactly its first indices, in order. */
  ghost predicate Orderly(made: seq<Conn>) {
    && (forall e :: IsBound(made, e) <==> e.index < Used(made, e.port))
    && (forall p :: Indices(made, p) == Counting(Used(made, p)))
  }

  lemma BoundSnoc(made: seq<Conn>, x: Conn, e: End)
    ensures IsBound(made + [x], e) <==> IsBound(made, e) || x.from == e || x.to == e
  {
    if IsBound(made, e) {
      var y :| y in made && (y.from == e || y.to == e);
      assert y in made + [x];
    }
    assert x in made + [x];
  }

  lemma MakeOrderly(made: seq<Conn>, x: Conn)
    requires Orderly(made) && Fits(made, x) && x.from.port != x.to.port
    ensures Orderly(made + [x])
  {
    hide Used, Indices, IsBound;
    forall e ensures IsBound(made + [x], e) <==> e.index < Used(made + [x], e.port) {
      BoundSnoc(made, x, e);
      Snoc(made, x, e.port);
      assert IsBound(made, e) <==> e.index < Used(made, e.port);
    }
    forall p ensures Indices(made + [x], p) == Counting(Used(made + [x], p)) {
      Snoc(made, x, p);
      assert Indices(made, p) == Counting(Used(made, p));
    }
  }

  lemma {:induction false} GreedyOrderly(s: seq<Conn>, n: nat)
    requires WellFormed(s) && n <= |s|
    ensures Orderly(Greedy(s, n))
  {
    if n > 0 {
      GreedyOrderly(s, n - 1);
      hide Orderly, Fits;
      if Fits(Greedy(s, n - 1), s[n - 1]) { MakeOrderly(Greedy(s, n - 1), s[n - 1]); }
    }
  }

  /** Each made connection was made at its own turn. */
  lemma {:induction false} MadeAtTurn(s: seq<Conn>, n: nat, x: Conn) returns (m: nat)
    requires n <= |s| && x in Greedy(s, n)
    ensures m < n && s[m] == x && Fits(Greedy(s, m), x)
  {
    if x in Greedy(s, n - 1) { m := MadeAtTurn(s, n - 1, x); } else { m := n - 1; }
  }

  lemma {:induction false} GreedyGrows(s: seq<Conn>, m: nat, n: nat)
    requires m <= n <= |s|
    ensures Greedy(s, m) <= Greedy(s, n)
  {
    if m < n { GreedyGrows(s, m, n - 1); }
  }

  /** What has fitted was not bound before. */
  lemma FitsUnbound(made: seq<Conn>, x: Conn)
    requires Orderly(made) && Fits(made, x)
    ensures !IsBound(made, x.from) && !IsBound(made, x.to)
    ensures x !in made && x.Flip() !in made
  {
    hide Used, Indices;
    assert IsBound(made, x.from) <==> x.from.index < Used(made, x.from.port);
    assert IsBound(made, x.to) <==> x.to.index < Used(made, x.to.port);
  }

  ghost predicate OneWay(made: seq<Conn>) {
    forall i, j :: 0 <= i < j < |made| ==> made[i] != made[j] && made[i] != made[j].Flip()
  }

  lemma {:induction false} GreedyOneWay(s: seq<Conn>, n: nat)
    requires WellFormed(s) && n <= |s|
    ensures OneWay(Greedy(s, n))
  {
    if n > 0 {
      GreedyOneWay(s, n - 1);
      GreedyOrderly(s, n - 1);
      hide Orderly, Fits, OneWay;
      if Fits(Greedy(s, n - 1), s[n - 1]) {
        FitsUnbound(Greedy(s, n - 1), s[n - 1]);
        OneWaySnoc(Greedy(s, n - 1), s[n - 1]);
      }
    }
  }

  lemma OneWaySnoc(made: seq<Conn>, x: Conn)
    requires OneWay(made) && x !in made && x.Flip() !in made
    ensures OneWay(made + [x])
  {
    forall i | 0 <= i < |made| ensures made[i] != x && made[i] != x.Flip() { assert made[i] in made; }
  }

  // ------------------------------------------------------------------------------------
  // The length check
  // ------------------------------------------------------------------------------------

  ghost function Elements(s: seq<Conn>): set<Conn> { set x | x in s }
  ghost function FlipAll(s: seq<Conn>): seq<Conn> { seq(|s|, i requires 0 <= i < |s| => s[i].Flip()) }

  ghost predicate Distinct(s: seq<Conn>) {
    forall i, j :: 0 <= i < j < |s| ==> s[i] != s[j]
  }

  lemma {:induction false} DistinctSize(s: seq<Conn>)
    requires Distinct(s)
    ensures |Elements(s)| == |s|
  {
    if s != [] {
      var front, last := s[..|s| - 1], s[|s| - 1];
      DistinctSize(front);
      assert s == front + [last];
      assert Elements(s) == Elements(front) + {last};
    }
  }

  lemma FlipsDistinct(s: seq<Conn>)
    requires Distinct(s)
    ensures Distinct(FlipAll(s)) && forall x :: x in FlipAll(s) <==> x.Flip() in s
  {
    var t := FlipAll(s);
    forall i, j | 0 <= i < j < |s| ensures t[i] != t[j] {
      assert s[i] == t[i].Flip() && s[j] == t[j].Flip();
    }
    forall x ensures x in t <==> x.Flip() in s {
      if x.Flip() in s {
        var i :| 0 <= i < |s| && s[i] == x.Flip();
        assert t[i] == x;
      }
    }
  }

  /** Every listed connection is made in exactly one of its two directions. */
  ghost predicate Covers(made: seq<Conn>, c: seq<Conn>) {
    forall x :: x in c ==> (x in made <==> x.Flip() !in made)
  }

  lemma LengthCheck(made: seq<Conn>, c: seq<Conn>)
    requires WellFormed(c) && OneWay(made) && forall x :: x in made ==> x in c
    ensures 2 * |made| == |c| <==> Covers(made, c)
  {
    var both := made + FlipAll(made);
    BothWays(made, c);
    forall i, j | 0 <= i < j < |c| ensures c[i] != c[j] {
      if c[i] == c[j] { TwiceCounts(c, i, j); }
    }
    hide WellFormed, FlipAll, OneWay, NoDuplicates;
    DistinctSize(both);
    DistinctSize(c);
    if |both| == |c| { SameSize(Elements(both), Elements(c)); }
    assert Covers(made, c) <==> Elements(both) == Elements(c) by {
      CoversMeans(made, c, both);
    }
  }

  lemma BothWays(made: seq<Conn>, c: seq<Conn>)
    requires WellFormed(c) && OneWay(made) && forall x :: x in made ==> x in c
    ensures var both := made + FlipAll(made);
      && Distinct(both) && |both| == 2 * |made| && Elements(both) <= Elements(c)
      && (forall x :: x in both <==> x in made || x.Flip() in made)
      && (forall x :: !(x in made && x.Flip() in made))
  {
    FlipsDistinct(made);
    forall x ensures !(x in made && x.Flip() in made) {
      if x in made && x.Flip() in made { NotBothWays(made, c, x); }
    }
    forall x | x in FlipAll(made) ensures x in c { assert x.Flip().Flip() == x; }
    var both := made + FlipAll(made);
    forall i, j | 0 <= i < j < |both| ensures both[i] != both[j] {
      if i < |made| <= j { assert both[i] in made && both[j] in FlipAll(made); }
    }
  }

  lemma CoversMeans(made: seq<Conn>, c: seq<Conn>, both: seq<Conn>)
    requires forall x :: x in both <==> x in made || x.Flip() in made
    requires forall x :: !(x in made && x.Flip() in made)
    requires Elements(both) <= Elements(c)
    ensures Covers(made, c) <==> Elements(both) == Elements(c)
  {
    forall x | x in c ensures x in Elements(c) && (x in Elements(both) <==> x in made || x.Flip() in made) {}
  }

  lemma NotBothWays(made: seq<Conn>, c: seq<Conn>, x: Conn)
    requires WellFormed(c) && OneWay(made) && x in made && x in c
    ensures x.Flip() !in made
  {
    var i :| 0 <= i < |made| && made[i] == x;
    assert x.Flip().Flip() == x;
    forall y | y in made ensures x.Flip() != y {
      var j :| 0 <= j < |made| && made[j] == y;
    }
  }

  lemma SameSize(a: set<Conn>, b: set<Conn>)
    requires a <= b && |a| == |b|
    ensures a == b
  {
    if exists x :: x in b && x !in a {
      var x :| x in b && x !in a;
      SubsetSize(a, b - {x});
    }
  }

  lemma {:induction false} SubsetSize(a: set<Conn>, b: set<Conn>)
    requires a <= b
    ensures |a| <= |b|
    decreases |a|
  {
    if x :| x in a { SubsetSize(a - {x}, b - {x}); }
  }

  // ------------------------------------------------------------------------------------
  // When everything is bound
  // ------------------------------------------------------------------------------------

  ghost predicate IsEnd(c: seq<Conn>, e: End) {
    exists x :: x in c && x.from == e
  }

  function Previous(e: End): End
    requires e.index > 0
  {
    End(e.port, e.index - 1)
  }

  /** A choice, for each connected pair, of the end at whose turn it is to be bound, so that
      on every port each index gets its turn after the one before it. */
  ghost predicate IsSchedule(c: seq<Conn>, turn: map<End, End>) {
    forall x :: x in c ==> Scheduled(c, turn, x)
  }

  ghost predicate Scheduled(c: seq<Conn>, turn: map<End, End>, x: Conn) {
    && x.from in turn && x.to in turn
    && turn[x.from] == turn[x.to] && (turn[x.from] == x.from || turn[x.from] == x.to)
    && (x.from.index > 0 ==>
          && IsEnd(c, Previous(x.from))
          && Previous(x.from) in turn && Before(turn[Previous(x.from)], turn[x.from]))
  }

  lemma SchedulePeer(c: seq<Conn>, turn: map<End, End>, e: End) returns (x: Conn)
    requires WellFormed(c) && IsSchedule(c, turn) && IsEnd(c, e)
    ensures x in c && x.from == e && Scheduled(c, turn, x) && IsEnd(c, turn[e])
  {
    x :| x in c && x.from == e;
    assert Scheduled(c, turn, x);
    if turn[e] == x.to { assert x.Flip() in c && x.Flip().from == x.to; }
  }

  /** The turns of the first n list entries are over. */
  ghost predicate Over(s: seq<Conn>, n: nat, t: End)
    requires n <= |s|
  {
    exists i :: 0 <= i < n && s[i].from == t
  }

  lemma EarlierIsOver(s: seq<Conn>, n: nat, t: End)
    requires Ascending(s) && n < |s| && IsEnd(s, t) && Before(t, s[n].from)
    ensures Over(s, n, t)
  {
    var x :| x in s && x.from == t;
    var i :| 0 <= i < |s| && s[i] == x;
    assert i <= n || Before(s[n].from, s[i].from);
  }

  lemma SameConn(s: seq<Conn>, x: Conn, y: Conn)
    requires WellFormed(s) && x in s && y in s
    ensures x.Flip() in s && y.Flip() in s && x.Flip().Flip() == x
    ensures x.from == y.from || x.to == y.to ==> x == y
    ensures x.to == y.from || x.from == y.to ==> x == y.Flip()
  {}

  /** The pass keeps up with every schedule. */
  lemma {:induction false} KeepsUp(s: seq<Conn>, n: nat, turn: map<End, End>, e: End)
    requires WellFormed(s) && Ascending(s) && IsSchedule(s, turn) && n <= |s|
    requires IsEnd(s, e) && e in turn && Over(s, n, turn[e])
    ensures IsBound(Greedy(s, n), e)
    decreases n, 0
  {
    var x := SchedulePeer(s, turn, e);
    if Over(s, n - 1, turn[e]) {
      hide Ascending, WellFormed, IsSchedule, IsEnd, Over;
      KeepsUp(s, n - 1, turn, e);
      StaysBound(s, n, e);
    } else {
      var y := s[n - 1];
      assert y in s && y.from == turn[e];
      SameConn(s, x, y);
      assert Scheduled(s, turn, y) && Scheduled(s, turn, y.Flip());
      hide Ascending, WellFormed, IsSchedule, Over;
      Reached(s, n - 1, turn, y.from);
      Reached(s, n - 1, turn, y.to);
      BindsNow(s, n - 1);
    }
  }

  lemma StaysBound(s: seq<Conn>, n: nat, e: End)
    requires 0 < n <= |s| && IsBound(Greedy(s, n - 1), e)
    ensures IsBound(Greedy(s, n), e)
  {
    var x :| x in Greedy(s, n - 1) && (x.from == e || x.to == e);
    assert x in Greedy(s, n);
  }

  /** At the turn of an end all smaller indices of its port are bound. */
  lemma Reached(s: seq<Conn>, n: nat, turn: map<End, End>, e: End)
    requires WellFormed(s) && Ascending(s) && IsSchedule(s, turn) && n < |s|
    requires IsEnd(s, e) && e in turn && turn[e] == s[n].from
    ensures Used(Greedy(s, n), e.port) >= e.index
    decreases n, 1
  {
    hide WellFormed, Ascending, IsSchedule, IsEnd, Over, Greedy, Used, IsBound;
    if e.index > 0 {
      var p := Previous(e);
      var x := SchedulePeer(s, turn, e);
      var y := SchedulePeer(s, turn, p);
      EarlierIsOver(s, n, turn[p]);
      KeepsUp(s, n, turn, p);
      GreedyOrderly(s, n);
      assert IsBound(Greedy(s, n), p) <==> p.index < Used(Greedy(s, n), p.port);
    }
  }

  /** With all smaller indices bound, the entry at its turn is bound if it was not before. */
  lemma BindsNow(s: seq<Conn>, n: nat)
    requires WellFormed(s) && n < |s|
    requires Used(Greedy(s, n), s[n].from.port) >= s[n].from.index
    requires Used(Greedy(s, n), s[n].to.port) >= s[n].to.index
    ensures IsBound(Greedy(s, n + 1), s[n].from) && IsBound(Greedy(s, n + 1), s[n].to)
  {
    hide WellFormed, Used, IsBound, Indices;
    var made, x := Greedy(s, n), s[n];
    GreedyOrderly(s, n);
    assert x in s;
    assert IsBound(made, x.from) <==> x.from.index < Used(made, x.from.port);
    assert IsBound(made, x.to) <==> x.to.index < Used(made, x.to.port);
    if IsBound(made, x.from) || IsBound(made, x.to) {
      BoundTogether(s, n, x);
      StaysBound(s, n + 1, x.from);
      StaysBound(s, n + 1, x.to);
    } else {
      assert Greedy(s, n + 1) == made + [x];
      BoundSnoc(made, x, x.from);
      BoundSnoc(made, x, x.to);
    }
  }

  lemma BoundTogether(s: seq<Conn>, n: nat, x: Conn)
    requires WellFormed(s) && n <= |s| && x in s
    requires IsBound(Greedy(s, n), x.from) || IsBound(Greedy(s, n), x.to)
    ensures IsBound(Greedy(s, n), x.from) && IsBound(Greedy(s, n), x.to)
    ensures x in Greedy(s, n) || x.Flip() in Greedy(s, n)
  {
    var y :| y in Greedy(s, n) && (y.from == x.from || y.to == x.from || y.from == x.to || y.to == x.to);
    var m := MadeAtTurn(s, n, y);
    SameConn(s, x, y);
  }

  lemma ScheduleSuffices(s: seq<Conn>, turn: map<End, End>)
    requires WellFormed(s) && Ascending(s) && IsSchedule(s, turn)
    ensures Covers(Greedy(s, |s|), s)
  {
    GreedyOneWay(s, |s|);
    forall x | x in s ensures x in Greedy(s, |s|) <==> x.Flip() !in Greedy(s, |s|) {
      assert IsEnd(s, x.from) && Scheduled(s, turn, x);
      var y := SchedulePeer(s, turn, x.from);
      var t :| t in s && t.from == turn[x.from];
      var i :| 0 <= i < |s| && s[i] == t;
      assert Over(s, |s|, turn[x.from]);
      KeepsUp(s, |s|, turn, x.from);
      BoundTogether(s, |s|, x);
      if x in Greedy(s, |s|) { NotBothWays(Greedy(s, |s|), s, x); }
    }
  }

  /** The left end of the made connection that binds e. */
  ghost function TurnOf(made: seq<Conn>, e: End): End
    requires IsBound(made, e)
  {
    var x :| x in made && (x.from == e || x.to == e);
    x.from
  }

  /** The turns taken by a complete pass. */
  ghost function Taken(made: seq<Conn>): map<End, End> {
    var ends := (set x | x in made :: x.from) + (set x | x in made :: x.to);
    map e | e in ends && IsBound(made, e) :: TurnOf(made, e)
  }

  lemma OnlyBinder(s: seq<Conn>, x: Conn, y: Conn)
    requires WellFormed(s) && x in Greedy(s, |s|) && y in Greedy(s, |s|)
    requires y.from == x.from || y.to == x.from || y.from == x.to || y.to == x.to
    ensures y == x
  {
    hide Fits;
    var m := MadeAtTurn(s, |s|, x);
    var k := MadeAtTurn(s, |s|, y);
    GreedyOneWay(s, |s|);
    NotBothWays(Greedy(s, |s|), s, x);
    SameConn(s, x, y);
  }

  lemma TakenAt(s: seq<Conn>, x: Conn)
    requires WellFormed(s) && x in Greedy(s, |s|)
    ensures x in s
    ensures var turn := Taken(Greedy(s, |s|));
      x.from in turn && x.to in turn && turn[x.from] == turn[x.to] == x.from
  {
    hide WellFormed, Greedy, Fits;
    var made := Greedy(s, |s|);
    var m := MadeAtTurn(s, |s|, x);
    assert IsBound(made, x.from) && IsBound(made, x.to);
    forall y | y in made && (y.from == x.from || y.to == x.from || y.from == x.to || y.to == x.to)
      ensures y == x
    {
      OnlyBinder(s, x, y);
    }
  }

  lemma TakenInOrder(s: seq<Conn>, z: Conn, e: End)
    requires WellFormed(s) && Ascending(s) && z in Greedy(s, |s|) && e.index > 0
    requires e == z.from || e == z.to
    ensures var turn := Taken(Greedy(s, |s|));
      && IsEnd(s, Previous(e)) && Previous(e) in turn && Before(turn[Previous(e)], z.from)
  {
    hide Indices, Taken, TurnOf, Used;
    var m := MadeAtTurn(s, |s|, z);
    var p := Previous(e);
    GreedyOrderly(s, m);
    assert IsBound(Greedy(s, m), p) <==> p.index < Used(Greedy(s, m), p.port);
    var y :| y in Greedy(s, m) && (y.from == p || y.to == p);
    GreedyGrows(s, m, |s|);
    var k := MadeAtTurn(s, m, y);
    assert Before(s[k].from, s[m].from);
    TakenAt(s, y);
    assert y.Flip() in s && y.Flip().from == y.to;
  }

  lemma ScheduleNecessary(s: seq<Conn>)
    requires WellFormed(s) && Ascending(s) && Covers(Greedy(s, |s|), s)
    ensures IsSchedule(s, Taken(Greedy(s, |s|)))
  {
    var made := Greedy(s, |s|);
    forall x | x in s ensures Scheduled(s, Taken(made), x) {
      assert x.Flip().Flip() == x;
      var z := if x in made then x else x.Flip();
      hide WellFormed, Ascending, Covers, Taken, IsEnd, Greedy;
      TakenAt(s, z);
      if x.from.index > 0 { TakenInOrder(s, z, x.from); }
    }
  }

  /** The final check passes exactly when some choice of turns exists, and then every pair has
      been made exactly once. */
  lemma CheckExact(c: seq<Conn>)
    requires WellFormed(c)
    ensures 2 * |Made(c)| == |c| <==> Covers(Made(c), c)
    ensures Covers(Made(c), c) <==> exists turn :: IsSchedule(c, turn)
  {
    var s := Sort(c);
    SortAscends(c);
    GreedyOneWay(s, |s|);
    forall x | x in Made(c) ensures x in c { var m := MadeAtTurn(s, |s|, x); }
    LengthCheck(Made(c), c);
    SameMembers(s, c);
    hide WellFormed, Ascending, IsSchedule, Covers, Sort, Greedy;
    if turn :| IsSchedule(c, turn) {
      ScheduleSuffices(s, turn);
    }
    if Covers(Made(c), c) {
      ScheduleNecessary(s);
      assert IsSchedule(c, Taken(Made(c)));
    }
  }

  lemma SameMembers(s: seq<Conn>, c: seq<Conn>)
    requires forall x :: x in s <==> x in c
    ensures Covers(Made(c), s) <==> Covers(Made(c), c)
    ensures forall turn :: IsSchedule(s, turn) <==> IsSchedule(c, turn)
  {
    forall e ensures IsEnd(s, e) <==> IsEnd(c, e) {}
    forall turn, x ensures Scheduled(s, turn, x) <==> Scheduled(c, turn, x) {}
  }

  /** Whatever the outcome, each port binds its indices in order, no connection is made twice
      or in both directions. */
  lemma PassInvariant(c: seq<Conn>)
    requires WellFormed(c)
    ensures OneWay(Made(c)) && forall x :: x in Made(c) ==> x in c
    ensures forall p :: Indices(Made(c), p) == Counting(Used(Made(c), p))
  {
    var s := Sort(c);
    SortAscends(c);
    GreedyOneWay(s, |s|);
    GreedyOrderly(s, |s|);
    forall x | x in Made(c) ensures x in c { var m := MadeAtTurn(s, |s|, x); }
  }

  lemma {:induction false} GreedyAscends(s: seq<Conn>, n: nat)
    requires Ascending(s) && n <= |s|
    ensures Ascending(Greedy(s, n))
  {
    if n > 0 {
      GreedyAscends(s, n - 1);
      var made := Greedy(s, n - 1);
      forall i | 0 <= i < |made| ensures Before(made[i].from, s[n - 1].from) {
        var m := MadeAtTurn(s, n - 1, made[i]);
      }
    }
  }

  /** The pairs are made from the left in the order of object names, then of port names, then
      of indices. */
  lemma MadeInNameOrder(c: seq<Conn>)
    requires WellFormed(c)
    ensures forall i, j | 0 <= i < j < |Made(c)| ::
      var a, b := Made(c)[i].from, Made(c)[j].from;
      && a.port.owner <= b.port.owner && (a.port.owner == b.port.owner ==> a.port.name <= b.port.name)
      && (a.port == b.port ==> a.index < b.index)
  {
    SortAscends(c);
    GreedyAscends(Sort(c), |Sort(c)|);
    hide Sort, Greedy;
  }

  // ------------------------------------------------------------------------------------
  // bind_ports
  // ------------------------------------------------------------------------------------

  /** The connections bound, or the exception. */
  datatype Outcome = CannotBeOrdered | Bound(made: seq<Conn>)

  method BindPorts(c: seq<Conn>) returns (r: Outcome)
    requires WellFormed(c)
    ensures r.Bound? <==> exists turn :: IsSchedule(c, turn)
    ensures r.Bound? ==> r.made == Made(c) && Covers(r.made, c) && OneWay(r.made)
    ensures r.Bound? ==> forall p :: Indices(r.made, p) == Counting(Used(r.made, p))
    ensures r.Bound? ==> forall i, j | 0 <= i < j < |r.made| ::
      var a, b := r.made[i].from, r.made[j].from;
      && a.port.owner <= b.port.owner && (a.port.owner == b.port.owner ==> a.port.name <= b.port.name)
      && (a.port == b.port ==> a.index < b.index)
  {
    hide IsSchedule, Covers, OneWay, Indices, Sort, Used;
    CheckExact(c);
    PassInvariant(c);
    MadeInNameOrder(c);
    var used: map<Port, nat> := map[];
    for i := 0 to |c|
      invariant forall k :: 0 <= k < i ==> c[k].from.port in used
      invariant forall p :: p in used ==> used[p] == 0
    {
      used := used[c[i].from.port := 0];
    }
    SortAscends(c);
    var s := Sort(c);
    forall x | x in s ensures x.from.port in used && x.to.port in used {
      assert x.Flip() in c && x.Flip().from == x.to;
      var k :| 0 <= k < |c| && c[k] == x.Flip();
      var j :| 0 <= j < |c| && c[j] == x;
    }
    var made: seq<Conn> := [];
    NothingUsed();
    for i := 0 to |s|
      invariant forall x :: x in s ==> x.from.port in used && x.to.port in used
      invariant forall p :: p in used ==> used[p] == Used(made, p)
      invariant made == Greedy(s, i)
    {
      var x := s[i];
      assert x in s;
      if used[x.from.port] == x.from.index && used[x.to.port] == x.to.index {
        forall p ensures Used(made + [x], p)
          == Used(made, p) + (if x.from.port == p then 1 else 0) + (if x.to.port == p then 1 else 0)
        {
          Snoc(made, x, p);
        }
        made := made + [x];
        used := used[x.from.port := used[x.from.port] + 1];
        used := used[x.to.port := used[x.to.port] + 1];
      }
    }
    if 2 * |made| != |c| { return CannotBeOrdered; }
    return Bound(made);
  }

  lemma NothingUsed()
    ensures forall p :: Used([], p) == 0
  {}

  /** Three pairs, port 4 with port 3 at [1], port 3 at [0] with port 2 at [1], and port 2 at
      [0] with port 1, where the names of the ports fall as those of their objects rise. */
  function Falling(): seq<Conn> {
    var x, y, z := Conn(End(Port(4, 1), 0), End(Port(3, 2), 1)), Conn(End(Port(3, 2), 0), End(Port(2, 3), 1)),
      Conn(End(Port(2, 3), 0), End(Port(1, 4), 0));
    [x, x.Flip(), y, y.Flip(), z, z.Flip()]
  }

  function FallingTurns(): map<End, End> {
    var x, y, z := End(Port(1, 4), 0), End(Port(2, 3), 1), End(Port(3, 2), 1);
    map[x := x, End(Port(2, 3), 0) := x, y := y, End(Port(3, 2), 0) := y, z := z, End(Port(4, 1), 0) := z]
  }

  lemma FallingWellFormed()
    ensures WellFormed(Falling())
  {}

  lemma FallingScheduled()
    ensures IsSchedule(Falling(), FallingTurns())
  {
    var c := Falling();
    assert c[0].from == End(Port(4, 1), 0) && c[2].from == End(Port(3, 2), 0) && c[4].from == End(Port(2, 3), 0);
    forall x | x in c ensures Scheduled(c, FallingTurns(), x) {
      assert IsEnd(c, c[2].from) && IsEnd(c, c[4].from);
      hide IsEnd;
    }
  }

  /** The pass binds them; in the order of port names it could not. */
  lemma FallingIsBound()
    ensures WellFormed(Falling()) && Covers(Made(Falling()), Falling()) && 2 * |Made(Falling())| == |Falling()|
  {
    hide Made, Covers, Falling, FallingTurns, IsSchedule, WellFormed;
    FallingWellFormed();
    FallingScheduled();
    CheckExact(Falling());
  }

  /** Three pairs: port 1 at [0] with port 2 at [1], port 2 at [0] with port 3 at [1], and port
      3 at [0] with port 4 at [0]. They could be bound in the opposite order. */
  function ByHand(): seq<Conn> {
    [ Conn(End(Port(3, 0), 0), End(Port(4, 0), 0)),
      Conn(End(Port(2, 0), 0), End(Port(3, 0), 1)),
      Conn(End(Port(1, 0), 0), End(Port(2, 0), 1)) ]
  }

  function Listed(): seq<Conn> {
    var o := ByHand();
    [o[0], o[0].Flip(), o[1], o[1].Flip(), o[2], o[2].Flip()]
  }

  /** An order exists in which every index follows the one before it, but the sorted pass does
      not find it: the exception says more than the code has found out. */
  lemma OrderableButRefused()
    ensures WellFormed(Listed()) && !Covers(Made(Listed()), Listed()) && 2 * |Made(Listed())| != |Listed()|
    ensures Covers(ByHand(), Listed()) && forall p :: Indices(ByHand(), p) == Counting(Used(ByHand(), p))
  {
    hide Made, Used, Indices, IsSchedule;
    OrderedByHand(ByHand()[0], ByHand()[1], ByHand()[2]);
    ListedWellFormed();
    ListedCovered();
    CheckExact(Listed());
    forall turn ensures !IsSchedule(Listed(), turn) { NoSchedule(turn); }
  }

  lemma ListedWellFormed()
    ensures WellFormed(Listed())
  {}

  lemma ListedCovered()
    ensures Covers(ByHand(), Listed())
  {}

  lemma NoSchedule(turn: map<End, End>)
    ensures !IsSchedule(Listed(), turn)
  {
    var x, y, z := ByHand()[0], ByHand()[1].Flip(), ByHand()[2].Flip();
    assert x in Listed() && y in Listed() && z in Listed();
    hide Listed, IsEnd;
    assert IsSchedule(Listed(), turn) ==> Scheduled(Listed(), turn, x);
    assert IsSchedule(Listed(), turn) ==> Scheduled(Listed(), turn, y);
    assert IsSchedule(Listed(), turn) ==> Scheduled(Listed(), turn, z);
  }

  lemma OrderedByHand(x: Conn, y: Conn, z: Conn)
    requires [x, y, z] == ByHand()
    ensures forall p :: Indices([x, y, z], p) == Counting(Used([x, y, z], p))
  {
    assert x == ByHand()[0] && y == ByHand()[1] && z == ByHand()[2];
    assert [x, y, z] == ([] + [x] + [y]) + [z];
    forall p ensures Indices([x, y, z], p) == Counting(Used([x, y, z], p)) {
      Snoc([], x, p);
      Snoc([] + [x], y, p);
      Snoc([] + [x] + [y], z, p);
    }
  }
}
