/** The backtracking search of hw1/queens.c: three "owner" arrays replace the search for
    conflicts, and every entry is restored when the recursion returns. */
module Queens {

  const MAXQUEENS: nat := 100
  const MAXDIAGS: nat := MAXQUEENS + MAXQUEENS - 1
  const EMPTY: nat := MAXQUEENS + 1

  /** An unsigned counter after k increments; range is one more than ULONG_MAX. */
  function Counted(start: nat, k: nat, range: nat): (c: nat)
    requires start < range
    ensures c < range
  {
    if k == 0 then start
    else
      var c := Counted(start, k - 1, range) + 1;
      if c == range then 0 else c
  }

  lemma {:induction false} CountedAdd(start: nat, a: nat, b: nat, range: nat)
    requires start < range
    ensures Counted(Counted(start, a, range), b, range) == Counted(start, a + b, range)
  {
    if b > 0 { CountedAdd(start, a, b - 1, range); }
  }

  /** The counter is exact up to wrap-around: it differs from the true count by a multiple
      of range, and by nothing while the true count fits. */
  lemma {:induction false} CountedExact(k: nat, range: nat) returns (wraps: nat)
    requires 0 < range
    ensures k == wraps * range + Counted(0, k, range)
    ensures k < range ==> wraps == 0
  {
    wraps := 0;
    if k > 0 {
      wraps := CountedExact(k - 1, range);
      if Counted(0, k, range) == 0 {
        assert k == (wraps + 1) * range;
        wraps := wraps + 1;
      }
    }
  }

  // ------------------------------------------------------------------------------------
  // What a solution is, said without any search
  // ------------------------------------------------------------------------------------

  /** A placement gives, rank by rank, the file of the queen on that rank. */
  type Placement = seq<nat>

  predicate Attack(q: Placement, i: nat, j: nat)
    requires i < j < |q|
  {
    q[i] == q[j] || q[i] + i == q[j] + j || q[i] + j == q[j] + i
  }

  ghost predicate Peaceful(n: nat, q: Placement) {
    && (forall i :: 0 <= i < |q| ==> q[i] < n)
    && (forall i, j :: 0 <= i < j < |q| ==> !Attack(q, i, j))
  }

  ghost predicate IsSolution(n: nat, q: Placement) {
    |q| == n && Peaceful(n, q)
  }

  function Apart(x: nat, y: nat): nat { if x < y then y - x else x - y }

  /** Two queens attack each other on one file, or as many files apart as ranks. */
  lemma AttackIsQueenMove(q: Placement, i: nat, j: nat)
    requires i < j < |q|
    ensures Attack(q, i, j) <==> Apart(q[i], q[j]) == 0 || Apart(q[i], q[j]) == Apart(i, j)
  {}

  /** The smallest boards: one has no queens, two have no solution, and the fourth has one. */
  lemma SmallBoards()
    ensures IsSolution(0, []) && IsSolution(1, [0])
    ensures forall s :: !IsSolution(2, s) && !IsSolution(3, s)
    ensures IsSolution(4, [1, 3, 0, 2])
  {
    forall s ensures !IsSolution(2, s) && !IsSolution(3, s) {
      if |s| == 2 || |s| == 3 { assert Attack(s, 0, 1) || s[0] >= |s| || s[1] >= |s| || |s| == 3; }
      if |s| == 3 {
        assert Attack(s, 0, 1) || Attack(s, 0, 2) || Attack(s, 1, 2) || s[0] >= 3 || s[1] >= 3 || s[2] >= 3;
      }
    }
  }

  ghost predicate LexLess(a: Placement, b: Placement) {
    exists k :: DifferFirstAt(a, b, k)
  }

  ghost predicate DifferFirstAt(a: Placement, b: Placement, k: nat) {
    k < |a| && k < |b| && a[..k] == b[..k] && a[k] < b[k]
  }

  // ------------------------------------------------------------------------------------
  // The order in which the search meets the solutions
  // ------------------------------------------------------------------------------------

  predicate Fits(q: Placement, f: nat) {
    forall i :: 0 <= i < |q| ==> !Attack(q + [f], i, |q|)
  }

  /** The solutions that extend q, in the order of the search. */
  function Solutions(n: nat, q: Placement): seq<Placement>
    requires |q| <= n
    decreases n - |q|, n + 2
  {
    if |q| == n then [q] else SolutionsFrom(n, q, 0)
  }

  /** Those whose queen on rank |q| stands on file f or further right. */
  function SolutionsFrom(n: nat, q: Placement, f: nat): seq<Placement>
    requires |q| < n && f <= n
    decreases n - |q|, n - f + 1
  {
    if f == n then []
    else SolutionsAt(n, q, f) + SolutionsFrom(n, q, f + 1)
  }

  /** Those whose queen on rank |q| stands on file f. */
  function SolutionsAt(n: nat, q: Placement, f: nat): seq<Placement>
    requires |q| < n
    decreases n - |q|, 0
  {
    if Fits(q, f) then Solutions(n, q + [f]) else []
  }

  lemma Regroup(a: seq<Placement>, b: seq<Placement>, c: seq<Placement>)
    ensures a + (b + c) == (a + b) + c
  {}

  lemma ExtendPeaceful(n: nat, q: Placement, f: nat)
    requires Peaceful(n, q) && f < n
    ensures Peaceful(n, q + [f]) <==> Fits(q, f)
  {
    var e := q + [f];
    if Fits(q, f) {
      forall i, j | 0 <= i < j < |e| ensures !Attack(e, i, j) {
        if j < |q| { assert !Attack(q, i, j); }
      }
    }
  }

  lemma {:induction false} Sound(n: nat, q: Placement, s: Placement)
    requires |q| <= n && Peaceful(n, q) && s in Solutions(n, q)
    ensures IsSolution(n, s) && q <= s
    decreases n - |q|, n + 1
  {
    if |q| < n { SoundFrom(n, q, 0, s); }
  }

  lemma {:induction false} SoundFrom(n: nat, q: Placement, f: nat, s: Placement)
    requires |q| < n && f <= n && Peaceful(n, q) && s in SolutionsFrom(n, q, f)
    ensures IsSolution(n, s) && q <= s && f <= s[|q|]
    decreases n - |q|, n - f
  {
    if Fits(q, f) && s in Solutions(n, q + [f]) {
      ExtendPeaceful(n, q, f);
      Sound(n, q + [f], s);
      assert q <= q + [f] <= s;
    } else {
      SoundFrom(n, q, f + 1, s);
    }
  }

  lemma {:induction false} Complete(n: nat, q: Placement, s: Placement)
    requires |q| <= n && IsSolution(n, s) && q <= s
    ensures s in Solutions(n, q)
    decreases n - |q|, n + 1
  {
    if |q| < n { CompleteFrom(n, q, 0, s); } else { assert q == s; }
  }

  lemma {:induction false} CompleteFrom(n: nat, q: Placement, f: nat, s: Placement)
    requires |q| < n && f <= n && IsSolution(n, s) && q <= s && f <= s[|q|]
    ensures s in SolutionsFrom(n, q, f)
    decreases n - |q|, n - f
  {
    if s[|q|] == f {
      var e := q + [f];
      assert e <= s;
      forall i | 0 <= i < |q| ensures !Attack(e, i, |q|) { assert !Attack(s, i, |q|); }
      Complete(n, e, s);
    } else {
      CompleteFrom(n, q, f + 1, s);
    }
  }

  ghost predicate Increasing(s: seq<Placement>) {
    forall i, j :: 0 <= i < j < |s| ==> LexLess(s[i], s[j])
  }

  lemma {:induction false} InLexOrder(n: nat, q: Placement)
    requires |q| <= n && Peaceful(n, q)
    ensures Increasing(Solutions(n, q))
    decreases n - |q|, n + 1
  {
    if |q| < n { InLexOrderFrom(n, q, 0); }
  }

  lemma {:induction false} InLexOrderFrom(n: nat, q: Placement, f: nat)
    requires |q| < n && f <= n && Peaceful(n, q)
    ensures Increasing(SolutionsFrom(n, q, f))
    decreases n - |q|, n - f
  {
    if f < n {
      InLexOrderFrom(n, q, f + 1);
      if Fits(q, f) {
        ExtendPeaceful(n, q, f);
        InLexOrder(n, q + [f]);
        forall a, b | a in Solutions(n, q + [f]) && b in SolutionsFrom(n, q, f + 1)
          ensures LexLess(a, b)
        {
          Sound(n, q + [f], a);
          SoundFrom(n, q, f + 1, b);
          assert DifferFirstAt(a, b, |q|);
        }
      }
    }
  }

  // ------------------------------------------------------------------------------------
  // Exact counting
  // ------------------------------------------------------------------------------------

  lemma LexLessIrreflexive(a: Placement)
    ensures !LexLess(a, a)
  {}

  ghost function Elements(s: seq<Placement>): set<Placement> {
    set a | a in s
  }

  lemma {:induction false} DistinctCount(s: seq<Placement>)
    requires Increasing(s)
    ensures |Elements(s)| == |s|
  {
    if s != [] {
      var last, front := s[|s| - 1], s[..|s| - 1];
      forall i | 0 <= i < |front| ensures front[i] != last {
        assert LexLess(s[i], s[|s| - 1]);
        LexLessIrreflexive(last);
      }
      DistinctCount(front);
      assert s == front + [last];
      assert Elements(s) == Elements(front) + {last};
    }
  }

  ghost predicate IsSolutionSet(n: nat, all: set<Placement>) {
    forall s :: s in all <==> IsSolution(n, s)
  }

  /** The list of the search holds every solution exactly once, so its length is the number
      of solutions. */
  lemma SolutionCount(n: nat)
    ensures IsSolutionSet(n, Elements(Solutions(n, [])))
    ensures forall all | IsSolutionSet(n, all) :: |all| == |Solutions(n, [])|
  {
    InLexOrder(n, []);
    forall s ensures s in Elements(Solutions(n, [])) <==> IsSolution(n, s) {
      if IsSolution(n, s) { Complete(n, [], s); }
      if s in Solutions(n, []) { Sound(n, [], s); }
    }
    DistinctCount(Solutions(n, []));
    forall all | IsSolutionSet(n, all) ensures |all| == |Solutions(n, [])| {
      assert all == Elements(Solutions(n, []));
    }
  }

  // ------------------------------------------------------------------------------------
  // The owner arrays
  // ------------------------------------------------------------------------------------

  /** Each queen of q owns its file, and no other file has an owner; likewise for the diagonals. */
  ghost predicate FileOwned(q: Placement, file: seq<nat>) {
    && (forall r :: 0 <= r < |q| ==> q[r] < |file| && file[q[r]] == r)
    && (forall f :: 0 <= f < |file| ==> file[f] == EMPTY || (file[f] < |q| && q[file[f]] == f))
  }

  ghost predicate ForwardOwned(q: Placement, fordiag: seq<nat>) {
    && (forall r :: 0 <= r < |q| ==> r + q[r] < |fordiag| && fordiag[r + q[r]] == r)
    && (forall d :: 0 <= d < |fordiag| ==>
          fordiag[d] == EMPTY || (fordiag[d] < |q| && fordiag[d] + q[fordiag[d]] == d))
  }

  ghost predicate BackwardOwned(n: nat, q: Placement, bakdiag: seq<nat>) {
    && (forall r :: 0 <= r < |q| ==> 0 <= r + n - 1 - q[r] < |bakdiag| && bakdiag[r + n - 1 - q[r]] == r)
    && (forall d :: 0 <= d < |bakdiag| ==>
          bakdiag[d] == EMPTY || (bakdiag[d] < |q| && bakdiag[d] + n - 1 - q[bakdiag[d]] == d))
  }

  /** Each placed queen owns its file and its two diagonals; everything else is EMPTY. */
  ghost predicate Owned(n: nat, q: Placement, file: seq<nat>, fordiag: seq<nat>, bakdiag: seq<nat>)
  {
    && |file| == MAXQUEENS && |fordiag| == MAXDIAGS && |bakdiag| == MAXDIAGS
    && |q| <= n <= MAXQUEENS && Peaceful(n, q)
    && FileOwned(q, file) && ForwardOwned(q, fordiag) && BackwardOwned(n, q, bakdiag)
  }

  /** The constant-time conflict test is exact. */
  lemma ConflictTest(n: nat, q: Placement, f: nat, file: seq<nat>, fordiag: seq<nat>, bakdiag: seq<nat>)
    requires Owned(n, q, file, fordiag, bakdiag) && |q| < n && f < n
    ensures (file[f] >= |q| && fordiag[|q| + f] >= |q| && bakdiag[|q| + n - 1 - f] >= |q|)
       <==> Fits(q, f)
    ensures Fits(q, f) ==> file[f] == fordiag[|q| + f] == bakdiag[|q| + n - 1 - f] == EMPTY
  {
    if Fits(q, f) {
      FreeSquare(n, q, f, file, fordiag, bakdiag);
    } else {
      var i :| 0 <= i < |q| && Attack(q + [f], i, |q|);
      assert file[q[i]] == i && fordiag[i + q[i]] == i && bakdiag[i + n - 1 - q[i]] == i;
    }
  }

  lemma FreeSquare(n: nat, q: Placement, f: nat, file: seq<nat>, fordiag: seq<nat>, bakdiag: seq<nat>)
    requires Owned(n, q, file, fordiag, bakdiag) && |q| < n && f < n && Fits(q, f)
    ensures file[f] == fordiag[|q| + f] == bakdiag[|q| + n - 1 - f] == EMPTY
  {
    forall r | 0 <= r < |q| ensures q[r] != f && r + q[r] != |q| + f && r + f != |q| + q[r] {
      assert !Attack(q + [f], r, |q|);
    }
  }

  lemma PlaceOwned(n: nat, q: Placement, f: nat, file: seq<nat>, fordiag: seq<nat>, bakdiag: seq<nat>)
    requires Owned(n, q, file, fordiag, bakdiag) && |q| < n && f < n && Fits(q, f)
    ensures Owned(n, q + [f], file[f := |q|], fordiag[|q| + f := |q|], bakdiag[|q| + n - 1 - f := |q|])
  {
    ExtendPeaceful(n, q, f);
    hide FileOwned, ForwardOwned, BackwardOwned, Peaceful, Fits;
    MarkFile(q, f, file);
    MarkForward(q, f, fordiag);
    MarkBackward(n, q, f, bakdiag);
  }

  lemma MarkFile(q: Placement, f: nat, file: seq<nat>)
    requires FileOwned(q, file) && f < |file| && Fits(q, f)
    ensures FileOwned(q + [f], file[f := |q|])
  {
    forall r | 0 <= r < |q| ensures q[r] != f { assert !Attack(q + [f], r, |q|); }
  }

  lemma MarkForward(q: Placement, f: nat, fordiag: seq<nat>)
    requires ForwardOwned(q, fordiag) && |q| + f < |fordiag| && Fits(q, f)
    ensures ForwardOwned(q + [f], fordiag[|q| + f := |q|])
  {
    forall r | 0 <= r < |q| ensures r + q[r] != |q| + f { assert !Attack(q + [f], r, |q|); }
  }

  lemma MarkBackward(n: nat, q: Placement, f: nat, bakdiag: seq<nat>)
    requires BackwardOwned(n, q, bakdiag) && 0 <= |q| + n - 1 - f < |bakdiag| && Fits(q, f)
    ensures BackwardOwned(n, q + [f], bakdiag[|q| + n - 1 - f := |q|])
  {
    forall r | 0 <= r < |q| ensures r + n - 1 - q[r] != |q| + n - 1 - f { assert !Attack(q + [f], r, |q|); }
  }

  class Search {
    const queens: nat
    const printing: bool
    const findall: bool
    const queen: array<nat>
    const file: array<nat>
    const fordiag: array<nat>
    const bakdiag: array<nat>
    const range: nat
    var solutions: nat
    /** The boards handed to pboard(), oldest first. */
    var boards: seq<Placement>

    ghost predicate Valid()
      reads this, queen, file, fordiag, bakdiag
    {
      && queen.Length == file.Length == MAXQUEENS
      && fordiag.Length == bakdiag.Length == MAXDIAGS
      && queen != file && queen != fordiag && queen != bakdiag
      && file != fordiag && file != bakdiag && fordiag != bakdiag
      && solutions < range
    }

    /** The queens of q stand on the first ranks, as the owner arrays see them. */
    ghost predicate Placed(q: Placement)
      reads this, queen, file, fordiag, bakdiag
    {
      && Valid() && |q| <= queens <= MAXQUEENS && queen[..|q|] == q
      && Owned(queens, q, file[..], fordiag[..], bakdiag[..])
    }

    constructor (n: nat, printing: bool, findall: bool, range: nat)
      requires n <= MAXQUEENS && range > 0
      ensures queens == n && this.range == range && this.printing == printing && this.findall == findall
      ensures Placed([]) && AllEmpty() && solutions == 0 && boards == []
      ensures fresh(queen) && fresh(file) && fresh(fordiag) && fresh(bakdiag)
    {
      queens, this.printing, this.findall, this.range := n, printing, findall, range;
      queen := new nat[MAXQUEENS](_ => 0);
      file := new nat[MAXQUEENS](_ => 0);
      fordiag := new nat[MAXDIAGS](_ => 0);
      bakdiag := new nat[MAXDIAGS](_ => 0);
      solutions, boards := 0, [];
      new;
      for i := 0 to MAXQUEENS
        invariant Valid() && solutions == 0 && boards == []
        invariant forall k :: 0 <= k < i ==> file[k] == EMPTY
      {
        file[i] := EMPTY;
      }
      for i := 0 to MAXDIAGS
        invariant Valid() && solutions == 0 && boards == []
        invariant forall k :: 0 <= k < i ==> fordiag[k] == bakdiag[k] == EMPTY
        invariant forall k :: 0 <= k < MAXQUEENS ==> file[k] == EMPTY
      {
        bakdiag[i] := EMPTY;
        fordiag[i] := bakdiag[i];
      }
    }

    ghost predicate AllEmpty()
      reads file, fordiag, bakdiag
    {
      && (forall k :: 0 <= k < file.Length ==> file[k] == EMPTY)
      && (forall k :: 0 <= k < fordiag.Length ==> fordiag[k] == EMPTY)
      && (forall k :: 0 <= k < bakdiag.Length ==> bakdiag[k] == EMPTY)
    }

    /** The part of a list of solutions that the run reports: all, or the first alone. */
    ghost function Reported(s: seq<Placement>): seq<Placement> {
      if findall || s == [] then s else s[..1]
    }

    /** The conflict test on square (level, f): no earlier queen owns its lines. */
    method IsFree(level: nat, f: nat, ghost q: Placement) returns (free: bool)
      requires Placed(q) && level == |q| < queens && f < queens
      ensures free <==> Fits(q, f)
      ensures free ==>
        file[f] == fordiag[level + f] == bakdiag[level + queens - 1 - f] == EMPTY
    {
      ConflictTest(queens, q, f, file[..], fordiag[..], bakdiag[..]);
      return file[f] >= level && fordiag[level + f] >= level && bakdiag[level + queens - 1 - f] >= level;
    }

    method Place(level: nat, f: nat, ghost q: Placement)
      requires Placed(q) && level == |q| < queens && f < queens && Fits(q, f)
      modifies queen, file, fordiag, bakdiag
      ensures Placed(q + [f])
      ensures file[..] == old(file[..])[f := level]
      ensures fordiag[..] == old(fordiag[..])[level + f := level]
      ensures bakdiag[..] == old(bakdiag[..])[level + queens - 1 - f := level]
    {
      hide Owned, Fits;
      PlaceOwned(queens, q, f, file[..], fordiag[..], bakdiag[..]);
      queen[level] := f;
      assert queen[..level + 1] == q + [f];
      Mark(level, f, level);
    }

    /** The triple assignment: the file and both diagonals of square (level, f) get an owner. */
    method Mark(level: nat, f: nat, owner: nat)
      requires Valid() && level < queens <= MAXQUEENS && f < queens
      modifies file, fordiag, bakdiag
      ensures file[..] == old(file[..])[f := owner]
      ensures fordiag[..] == old(fordiag[..])[level + f := owner]
      ensures bakdiag[..] == old(bakdiag[..])[level + queens - 1 - f := owner]
    {
      file[f] := owner;
      fordiag[level + f] := owner;
      bakdiag[level + queens - 1 - f] := owner;
    }

    /** The counter and the output after the solutions met, from given earlier values. */
    ghost predicate Reports(count: nat, shown: seq<Placement>, met: seq<Placement>)
      reads this
    {
      && count < range
      && solutions == Counted(count, |Reported(met)|, range)
      && boards == shown + (if printing then Reported(met) else [])
    }

    lemma ReportsAdd(count: nat, shown: seq<Placement>, met: seq<Placement>, more: seq<Placement>,
                     count': nat, shown': seq<Placement>)
      requires findall || met == []
      requires count < range && count' == Counted(count, |met|, range)
      requires shown' == shown + (if printing then met else [])
      requires Reports(count', shown', more)
      ensures Reports(count, shown, met + more)
    {
      CountedAdd(count, |met|, |Reported(more)|, range);
      assert Reported(met + more) == met + Reported(more);
    }

    /** find(level), with q the queens already placed. The result tells whether the program
        has left through exit(0). */
    method Find(level: nat, ghost q: Placement) returns (exited: bool)
      requires Placed(q) && level == |q|
      modifies this, queen, file, fordiag, bakdiag
      ensures Valid()
      ensures Reports(old(solutions), old(boards), Solutions(queens, q))
      ensures exited <==> !findall && Solutions(queens, q) != []
      ensures exited ==> queen[..queens] == Solutions(queens, q)[0]
      ensures !exited ==> queen[..level] == q
      ensures !exited ==>
        file[..] == old(file[..]) && fordiag[..] == old(fordiag[..]) && bakdiag[..] == old(bakdiag[..])
      decreases queens - level, 1
    {
      hide Owned, Fits, SolutionsAt;
      if level == queens {
        assert Solutions(queens, q) == [q] && Reported([q]) == [q];
        assert Counted(solutions, 0, range) == solutions;
        solutions := if solutions + 1 == range then 0 else solutions + 1;
        if printing { boards := boards + [queen[..queens]]; }
        return !findall;
      }
      ghost var met: seq<Placement> := [];
      exited := false;
      for f := 0 to queens
        invariant Placed(q)
        invariant file[..] == old(file[..]) && fordiag[..] == old(fordiag[..]) && bakdiag[..] == old(bakdiag[..])
        invariant Solutions(queens, q) == met + SolutionsFrom(queens, q, f)
        invariant !findall ==> met == []
        invariant Reports(old(solutions), old(boards), met)
      {
        ghost var count, shown := solutions, boards;
        exited := Try(level, f, q);
        ReportsAdd(old(solutions), old(boards), met, SolutionsAt(queens, q, f), count, shown);
        Regroup(met, SolutionsAt(queens, q, f), SolutionsFrom(queens, q, f + 1));
        met := met + SolutionsAt(queens, q, f);
        if exited { return; }
      }
    }

    /** The body of the loop: the queen of this rank tries file f. */
    method Try(level: nat, f: nat, ghost q: Placement) returns (exited: bool)
      requires Placed(q) && level == |q| < queens && f < queens
      modifies this, queen, file, fordiag, bakdiag
      ensures Valid()
      ensures Reports(old(solutions), old(boards), SolutionsAt(queens, q, f))
      ensures exited <==> !findall && SolutionsAt(queens, q, f) != []
      ensures exited ==> queen[..queens] == SolutionsAt(queens, q, f)[0]
      ensures !exited ==> queen[..level] == q
      ensures !exited ==>
        file[..] == old(file[..]) && fordiag[..] == old(fordiag[..]) && bakdiag[..] == old(bakdiag[..])
      decreases queens - level, 0
    {
      hide Owned, Fits, Solutions;
      exited := false;
      var free := IsFree(level, f, q);
      if free {
        Place(level, f, q);
        exited := Find(level + 1, q + [f]);
        if exited { return; }
        assert queen[..level] == (q + [f])[..level] == q;
        Mark(level, f, EMPTY);
      }
    }
  }

  datatype Outcome = BadSize | Finished(count: nat, boards: seq<Placement>)

  /** main() after its options are read: n is the number asked for, range is one more than
      ULONG_MAX. */
  method Run(n: int, printing: bool, findall: bool, range: nat) returns (r: Outcome)
    requires range > 1
    ensures r.BadSize? <==> n <= 0 || n > MAXQUEENS
    ensures r.Finished? && findall ==> forall all | IsSolutionSet(n, all) :: r.count == Counted(0, |all|, range)
    ensures r.Finished? && findall && printing ==> Increasing(r.boards) && IsSolutionSet(n, Elements(r.boards))
    ensures r.Finished? && !findall ==> (r.count == 1 <==> exists s :: IsSolution(n, s)) && r.count <= 1
    ensures r.Finished? && !findall && printing && r.count == 1 ==>
      && |r.boards| == 1 && IsSolution(n, r.boards[0])
      && forall s | IsSolution(n, s) :: s == r.boards[0] || LexLess(r.boards[0], s)
    ensures r.Finished? && !printing ==> r.boards == []
  {
    if n <= 0 || n > MAXQUEENS { return BadSize; }
    var search := new Search(n, printing, findall, range);
    var exited := search.Find(0, []);
    r := Finished(search.solutions, search.boards);
    SolutionCount(n);
    InLexOrder(n, []);
    if !findall {
      FirstOnly(n);
      var _ := CountedExact(1, range);
    }
  }

  /** The first list entry is the lexicographic minimum of all solutions, and the list is
      empty only when there is no solution at all. */
  lemma FirstOnly(n: nat)
    ensures Solutions(n, []) != [] <==> exists s :: IsSolution(n, s)
    ensures Solutions(n, []) != [] ==> IsSolution(n, Solutions(n, [])[0])
    ensures forall s | IsSolution(n, s) :: s == Solutions(n, [])[0] || LexLess(Solutions(n, [])[0], s)
  {
    forall s | IsSolution(n, s)
      ensures s in Solutions(n, []) && (s == Solutions(n, [])[0] || LexLess(Solutions(n, [])[0], s))
    {
      Complete(n, [], s);
      InLexOrder(n, []);
    }
    if Solutions(n, []) != [] { Sound(n, [], Solutions(n, [])[0]); }
  }
}
