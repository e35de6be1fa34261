/** The bounded reorder queue of util/o3-pipeview.py: instructions arrive out of order, and
    print them in order while holding only a bounded number back. */
module PipeView {

  /** The fields of an instruction record that the queue and its filters look at. */
  datatype Inst = Inst(sn: nat, fetch: nat, retire: nat)

  // ------------------------------------------------------------------------------------
  // The stable sort by sequence number, one insertion at a time
  // ------------------------------------------------------------------------------------

  /** Put x after every entry whose number is not larger. */
  function Insert(s: seq<Inst>, x: Inst): seq<Inst> {
    if s != [] && s[|s| - 1].sn > x.sn then Insert(s[..|s| - 1], x) + [s[|s| - 1]] else s + [x]
  }

  /** list.sort(compare_by_sn): stable, so earlier arrivals come first among equals. */
  function Sort(s: seq<Inst>): seq<Inst> {
    if s == [] then [] else Insert(Sort(s[..|s| - 1]), s[|s| - 1])
  }

  ghost predicate Sorted(s: seq<Inst>) {
    forall i, j :: 0 <= i < j < |s| ==> s[i].sn <= s[j].sn
  }

  lemma {:induction false} InsertSorted(s: seq<Inst>, x: Inst)
    requires Sorted(s)
    ensures Sorted(Insert(s, x))
    ensures multiset(Insert(s, x)) == multiset(s) + multiset{x}
    ensures |Insert(s, x)| == |s| + 1
  {
    if s != [] && s[|s| - 1].sn > x.sn {
      var front, last := s[..|s| - 1], s[|s| - 1];
      assert s == front + [last];
      InsertSorted(front, x);
      InsertedBelow(front, last, x, Insert(front, x));
    }
  }

  lemma InsertedBelow(front: seq<Inst>, last: Inst, x: Inst, t: seq<Inst>)
    requires Sorted(front + [last]) && last.sn > x.sn
    requires Sorted(t) && multiset(t) == multiset(front) + multiset{x}
    ensures Sorted(t + [last])
    ensures multiset(t + [last]) == multiset(front + [last]) + multiset{x}
  {
    forall y: Inst | y in multiset(t) ensures y.sn <= last.sn {
      if y != x {
        assert (front + [last])[|front|] == last && y in multiset(front);
        var i :| 0 <= i < |front| && front[i] == y;
        assert (front + [last])[i] == y;
      }
    }
  }

  lemma {:induction false} SortSorts(s: seq<Inst>)
    ensures Sorted(Sort(s)) && multiset(Sort(s)) == multiset(s) && |Sort(s)| == |s|
  {
    if s != [] {
      assert s == s[..|s| - 1] + [s[|s| - 1]];
      SortSorts(s[..|s| - 1]);
      InsertSorted(Sort(s[..|s| - 1]), s[|s| - 1]);
    }
  }

  lemma {:induction false} SortOfSorted(s: seq<Inst>)
    requires Sorted(s)
    ensures Sort(s) == s
  {
    if s != [] {
      SortOfSorted(s[..|s| - 1]);
    }
  }

  /** Sorting what is left of a sorted list together with newcomers is the same as sorting
      all of it, when the part already gone is not larger than any newcomer. */
  lemma {:induction false} InsertBehind(gone: seq<Inst>, s: seq<Inst>, x: Inst)
    requires gone == [] || gone[|gone| - 1].sn <= x.sn
    ensures Insert(gone + s, x) == gone + Insert(s, x)
  {
    if s == [] {
      assert gone + s == gone;
    } else if s[|s| - 1].sn > x.sn {
      assert (gone + s)[..|gone + s| - 1] == gone + s[..|s| - 1];
      InsertBehind(gone, s[..|s| - 1], x);
      assert gone + Insert(s[..|s| - 1], x) + [s[|s| - 1]] == gone + (Insert(s[..|s| - 1], x) + [s[|s| - 1]]);
    } else {
      assert (gone + s) + [x] == gone + (s + [x]);
    }
  }

  // ------------------------------------------------------------------------------------
  // Disorder
  // ------------------------------------------------------------------------------------

  /** How many entries of s have a number above sn. */
  function Larger(s: seq<Inst>, sn: nat): nat {
    if s == [] then 0 else Larger(s[..|s| - 1], sn) + (if s[|s| - 1].sn > sn then 1 else 0)
  }

  lemma {:induction false} LargerConcat(a: seq<Inst>, b: seq<Inst>, sn: nat)
    ensures Larger(a + b, sn) == Larger(a, sn) + Larger(b, sn)
  {
    if b == [] {
      assert a + b == a;
    } else {
      assert (a + b)[..|a + b| - 1] == a + b[..|b| - 1];
      LargerConcat(a, b[..|b| - 1], sn);
    }
  }

  lemma {:induction false} LargerInsert(s: seq<Inst>, x: Inst, sn: nat)
    ensures Larger(Insert(s, x), sn) == Larger(s + [x], sn)
  {
    if s != [] && s[|s| - 1].sn > x.sn {
      LargerInsert(s[..|s| - 1], x, sn);
      LargerConcat(s[..|s| - 1], [x], sn);
      LargerConcat(s, [x], sn);
      LargerConcat(Insert(s[..|s| - 1], x), [s[|s| - 1]], sn);
    }
  }

  lemma {:induction false} LargerSort(s: seq<Inst>, sn: nat)
    ensures Larger(Sort(s), sn) == Larger(s, sn)
  {
    if s != [] {
      LargerSort(s[..|s| - 1], sn);
      LargerInsert(Sort(s[..|s| - 1]), s[|s| - 1], sn);
      LargerConcat(Sort(s[..|s| - 1]), [s[|s| - 1]], sn);
    }
  }

  lemma {:induction false} LargerBounds(s: seq<Inst>, sn: nat)
    ensures Larger(s, sn) <= |s|
    ensures (forall x :: x in s ==> x.sn > sn) ==> Larger(s, sn) == |s|
    ensures (forall x :: x in s ==> x.sn <= sn) ==> Larger(s, sn) == 0
  {
    if s != [] { LargerBounds(s[..|s| - 1], sn); }
  }

  /** In a sorted list cut in two, more entries exceed sn than lie behind the cut exactly
      when the last entry before the cut exceeds it. */
  lemma CutLarger(gone: seq<Inst>, rest: seq<Inst>, sn: nat)
    requires gone != [] && Sorted(gone + rest)
    ensures Larger(gone + rest, sn) > |rest| <==> gone[|gone| - 1].sn > sn
  {
    var s, k := gone + rest, |gone| - 1;
    LargerConcat(gone, rest, sn);
    LargerConcat(gone[..k], [gone[k]], sn);
    assert gone == gone[..k] + [gone[k]];
    LargerBounds(rest, sn);
    if gone[k].sn > sn {
      forall x | x in rest ensures x.sn > sn {
        var j :| 0 <= j < |rest| && rest[j] == x;
        assert s[k].sn <= s[|gone| + j].sn;
      }
    } else {
      forall x | x in gone ensures x.sn <= sn {
        var j :| 0 <= j < |gone| && gone[j] == x;
        assert s[j].sn <= s[k].sn;
      }
      LargerBounds(gone, sn);
    }
  }

  // ------------------------------------------------------------------------------------
  // The queue as a function of the stream
  // ------------------------------------------------------------------------------------

  datatype State = State(queue: seq<Inst>, popped: seq<Inst>)

  /** print_insts: sort, then pop until lower entries are left. */
  function Flush(st: State, lower: nat): State {
    var q := Sort(st.queue);
    if |q| <= lower then State(q, st.popped)
    else State(q[|q| - lower..], st.popped + q[..|q| - lower])
  }

  /** queue_inst. */
  function Feed(st: State, x: Inst, high: nat, low: nat): State {
    var grown := st.(queue := st.queue + [x]);
    if |grown.queue| > high then Flush(grown, low) else grown
  }

  /** The state after the first n instructions of the stream. */
  function After(s: seq<Inst>, n: nat, high: nat, low: nat): State
    requires n <= |s|
  {
    if n == 0 then State([], []) else Feed(After(s, n - 1, high, low), s[n - 1], high, low)
  }

  /** What a whole run pops, up to the flush at the end of the trace. */
  function Run(s: seq<Inst>, high: nat, low: nat): seq<Inst> {
    Flush(After(s, |s|, high, low), 0).popped
  }

  /** The queue length after n arrivals, and how many had arrived at the latest flush. Both
      depend on the thresholds alone. */
  function Held(n: nat, high: nat, low: nat): nat {
    if n == 0 then 0
    else if Held(n - 1, high, low) + 1 > high then low
    else Held(n - 1, high, low) + 1
  }

  function LastFlush(n: nat, high: nat, low: nat): (f: nat)
    ensures f <= n
  {
    if n == 0 then 0
    else if Held(n - 1, high, low) + 1 > high then n
    else LastFlush(n - 1, high, low)
  }

  /** At most low instructions with larger numbers had arrived at the latest flush before
      instruction i. */
  ghost predicate InTime(s: seq<Inst>, i: nat, high: nat, low: nat)
    requires i < |s|
  {
    Larger(s[..LastFlush(i, high, low)], s[i].sn) <= low
  }

  /** The documented assumption: no instruction has more than low larger ones before it. */
  ghost predicate BoundedDisorder(s: seq<Inst>, low: nat) {
    forall i :: 0 <= i < |s| ==> Larger(s[..i], s[i].sn) <= low
  }

  lemma FlushConserves(st: State, lower: nat)
    ensures var fl := Flush(st, lower);
      && multiset(fl.popped + fl.queue) == multiset(st.popped + st.queue)
      && st.popped <= fl.popped
      && |fl.queue| == (if |st.queue| <= lower then |st.queue| else lower)
      && fl.popped + fl.queue == st.popped + Sort(st.queue)
  {
    hide Sort;
    SortSorts(st.queue);
    var q, fl := Sort(st.queue), Flush(st, lower);
    if |q| > lower {
      var a, b := q[..|q| - lower], q[|q| - lower..];
      assert q == a + b;
      assert (st.popped + a) + b == st.popped + (a + b);
    }
    assert fl.popped + fl.queue == st.popped + q;
  }

  /** Every instruction is either popped or waiting, as often as it arrived. */
  ghost predicate Conserves(st: State, arrived: seq<Inst>) {
    multiset(st.popped + st.queue) == multiset(arrived)
  }

  lemma TakeSnoc(s: seq<Inst>, n: nat)
    requires n < |s|
    ensures s[..n + 1] == s[..n] + [s[n]]
  {}

  lemma CutInThree(s: seq<Inst>, i: nat)
    requires i < |s|
    ensures s == s[..i] + ([s[i]] + s[i + 1..])
  {}

  lemma FeedOneConserves(st: State, x: Inst, fed: seq<Inst>, high: nat, low: nat)
    requires Conserves(st, fed)
    ensures Conserves(Feed(st, x, high, low), fed + [x])
  {
    hide Sort, Flush;
    var grown := State(st.queue + [x], st.popped);
    assert Conserves(grown, fed + [x]) by {
      assert st.popped + (st.queue + [x]) == (st.popped + st.queue) + [x];
    }
    FlushConserves(grown, low);
  }

  lemma NothingConserved(s: seq<Inst>, high: nat, low: nat)
    ensures Conserves(After(s, 0, high, low), s[..0])
  {}

  lemma {:induction false} FeedConserves(s: seq<Inst>, n: nat, high: nat, low: nat)
    requires low <= high && n <= |s|
    ensures Conserves(After(s, n, high, low), s[..n])
  {
    hide Feed, Flush, Sort, Conserves;
    if n == 0 {
      NothingConserved(s, high, low);
    } else {
      FeedConserves(s, n - 1, high, low);
      var st, fed := After(s, n - 1, high, low), After(s, n, high, low);
      assert fed == Feed(st, s[n - 1], high, low);
      FeedOneConserves(st, s[n - 1], s[..n - 1], high, low);
      assert Conserves(fed, s[..n - 1] + [s[n - 1]]);
      TakeSnoc(s, n - 1);
    }
  }

  /** The queue never exceeds its threshold, and its length depends on the count alone. */
  lemma {:induction false} QueueLength(s: seq<Inst>, n: nat, high: nat, low: nat)
    requires low <= high && n <= |s|
    ensures |After(s, n, high, low).queue| == Held(n, high, low) <= high
  {
    hide Sort;
    if n > 0 {
      QueueLength(s, n - 1, high, low);
      var st := After(s, n - 1, high, low);
      SortSorts(st.queue + [s[n - 1]]);
    }
  }

  /** Nothing is lost or invented, whatever the stream. */
  lemma RunConserves(s: seq<Inst>, high: nat, low: nat)
    requires low <= high
    ensures multiset(Run(s, high, low)) == multiset(s)
  {
    hide After, Sort;
    FeedConserves(s, |s|, high, low);
    FlushConserves(After(s, |s|, high, low), 0);
    assert s[..|s|] == s && Flush(After(s, |s|, high, low), 0).queue == [];
    assert Run(s, high, low) == Run(s, high, low) + [];
  }

  // ------------------------------------------------------------------------------------
  // When the run is the sort
  // ------------------------------------------------------------------------------------

  lemma FeedStep(st: State, x: Inst, high: nat, low: nat)
    requires low <= high
    ensures var fed := Feed(st, x, high, low);
      && st.popped <= fed.popped
      && fed.popped + Sort(fed.queue) == st.popped + Sort(st.queue + [x])
      && (|st.queue| < high ==> fed.popped == st.popped)
      && (|st.queue| >= high ==> fed.popped != [] && |fed.queue| == low && Sorted(fed.queue))
  {
    hide Sort;
    var grown := State(st.queue + [x], st.popped);
    SortSorts(grown.queue);
    if |grown.queue| > high {
      FlushConserves(grown, low);
      SortOfSorted(Flush(grown, low).queue);
    }
  }

  /** The popped part and the sorted queue make up the sorted stream so far. */
  ghost predicate InOrder(s: seq<Inst>, n: nat, high: nat, low: nat)
    requires n <= |s|
  {
    Sort(s[..n]) == After(s, n, high, low).popped + Sort(After(s, n, high, low).queue)
  }

  lemma {:induction false} SinceFlush(s: seq<Inst>, n: nat, high: nat, low: nat)
    requires low <= high && n <= |s|
    ensures After(s, n, high, low).popped == After(s, LastFlush(n, high, low), high, low).popped
    ensures LastFlush(n, high, low) == 0 ==> After(s, n, high, low).popped == []
  {
    hide Feed, Flush, Sort;
    if n > 0 {
      QueueLength(s, n - 1, high, low);
      FeedStep(After(s, n - 1, high, low), s[n - 1], high, low);
      SinceFlush(s, n - 1, high, low);
    }
  }

  lemma {:induction false} AtFlush(s: seq<Inst>, n: nat, high: nat, low: nat)
    requires low <= high && n <= |s| && LastFlush(n, high, low) > 0
    ensures var st := After(s, LastFlush(n, high, low), high, low);
      st.popped != [] && |st.queue| == low && Sorted(st.queue)
  {
    hide Feed, Flush, Sort;
    if LastFlush(n, high, low) == n {
      QueueLength(s, n - 1, high, low);
      FeedStep(After(s, n - 1, high, low), s[n - 1], high, low);
    } else {
      AtFlush(s, n - 1, high, low);
    }
  }

  /** A newcomer sorts behind everything popped exactly when it is in time. */
  lemma InTimeMeans(s: seq<Inst>, i: nat, high: nat, low: nat)
    requires low <= high && i < |s|
    requires InOrder(s, LastFlush(i, high, low), high, low)
    ensures var gone := After(s, i, high, low).popped;
      InTime(s, i, high, low) <==> gone == [] || gone[|gone| - 1].sn <= s[i].sn
  {
    hide After, Sort;
    var f := LastFlush(i, high, low);
    SinceFlush(s, i, high, low);
    if f > 0 {
      AtFlush(s, i, high, low);
      var st := After(s, f, high, low);
      SortOfSorted(st.queue);
      SortSorts(s[..f]);
      LargerSort(s[..f], s[i].sn);
      CutLarger(st.popped, st.queue, s[i].sn);
    }
  }

  lemma NothingInOrder(s: seq<Inst>, high: nat, low: nat)
    ensures InOrder(s, 0, high, low)
  {
    assert s[..0] == [];
  }

  lemma {:induction false} StaysInOrder(s: seq<Inst>, n: nat, high: nat, low: nat)
    requires low <= high && n <= |s|
    requires forall i :: 0 <= i < n ==> InTime(s, i, high, low)
    ensures InOrder(s, n, high, low)
  {
    hide After, InTime, Sort;
    if n > 0 {
      StaysInOrder(s, n - 1, high, low);
      StaysInOrder(s, LastFlush(n - 1, high, low), high, low);
      InTimeMeans(s, n - 1, high, low);
      OneMoreInOrder(s, n - 1, high, low);
    } else {
      NothingInOrder(s, high, low);
    }
  }

  lemma OneMoreInOrder(s: seq<Inst>, n: nat, high: nat, low: nat)
    requires low <= high && n < |s| && InOrder(s, n, high, low)
    requires var gone := After(s, n, high, low).popped; gone == [] || gone[|gone| - 1].sn <= s[n].sn
    ensures InOrder(s, n + 1, high, low)
  {
    hide Feed, Flush, Sort;
    var st, x := After(s, n, high, low), s[n];
    InsertBehind(st.popped, Sort(st.queue), x);
    FeedStep(st, x, high, low);
    SortSnoc(s[..n], x);
    SortSnoc(st.queue, x);
    assert s[..n + 1] == s[..n] + [x];
  }

  lemma SortSnoc(s: seq<Inst>, x: Inst)
    ensures Sort(s + [x]) == Insert(Sort(s), x)
  {
    assert (s + [x])[..|s|] == s;
  }

  lemma {:induction false} PoppedGrows(s: seq<Inst>, i: nat, n: nat, high: nat, low: nat)
    requires low <= high && i <= n <= |s|
    ensures After(s, i, high, low).popped <= After(s, n, high, low).popped
  {
    hide Feed, Sort;
    if i < n {
      PoppedGrows(s, i, n - 1, high, low);
      FeedStep(After(s, n - 1, high, low), s[n - 1], high, low);
    }
  }

  /** A newcomer that belongs before something already popped spoils the run. */
  lemma LateSpoils(s: seq<Inst>, i: nat, high: nat, low: nat)
    requires low <= high && i < |s|
    requires var gone := After(s, i, high, low).popped; gone != [] && gone[|gone| - 1].sn > s[i].sn
    ensures !Sorted(Run(s, high, low))
  {
    hide After, Conserves;
    var gone, run := After(s, i, high, low).popped, Run(s, high, low);
    assert gone <= run by {
      PoppedGrows(s, i, |s|, high, low);
      FlushConserves(After(s, |s|, high, low), 0);
    }
    var pre, tail, rest := s[..i], [s[i]] + s[i + 1..], run[|gone|..];
    assert s[i] in rest by {
      CutInThree(s, i);
      assert run == gone + rest;
      RunConserves(s, high, low);
      FeedConserves(s, i, high, low);
      LeftOver(After(s, i, high, low), rest, pre, tail, s[i]);
    }
    var j :| 0 <= j < |rest| && rest[j] == s[i];
    assert run[|gone| + j] == rest[j] && run[|gone| - 1] == gone[|gone| - 1];
  }

  lemma LeftOver(st: State, rest: seq<Inst>, pre: seq<Inst>, tail: seq<Inst>, x: Inst)
    requires multiset(st.popped + rest) == multiset(pre + tail) && Conserves(st, pre) && x in tail
    ensures x in rest
  {
    assert multiset(st.popped + rest) == multiset(st.popped) + multiset(rest);
    assert multiset(st.popped + st.queue) == multiset(st.popped) + multiset(st.queue);
    assert multiset(pre + tail) == multiset(pre) + multiset(tail);
    LeftInBag(multiset(st.popped), multiset(rest), multiset(pre), multiset(tail), x);
  }

  lemma LeftInBag(gone: multiset<Inst>, rest: multiset<Inst>, pre: multiset<Inst>, tail: multiset<Inst>, x: Inst)
    requires gone + rest == pre + tail && gone <= pre && x in tail
    ensures x in rest
  {
    assert (gone + rest)[x] == (pre + tail)[x];
  }

  /** The run pops the sorted stream exactly when every instruction is in time. */
  lemma SortedIffInTime(s: seq<Inst>, high: nat, low: nat)
    requires low <= high
    ensures Run(s, high, low) == Sort(s) <==> forall i :: 0 <= i < |s| ==> InTime(s, i, high, low)
  {
    hide After, InTime, Sort;
    if forall i :: 0 <= i < |s| ==> InTime(s, i, high, low) {
      StaysInOrder(s, |s|, high, low);
      assert s[..|s|] == s;
      FlushConserves(After(s, |s|, high, low), 0);
    } else {
      var i := FirstLate(s, high, low);
      StaysInOrder(s, LastFlush(i, high, low), high, low);
      InTimeMeans(s, i, high, low);
      LateSpoils(s, i, high, low);
      SortSorts(s);
    }
  }

  lemma FirstLate(s: seq<Inst>, high: nat, low: nat) returns (i: nat)
    requires !forall i :: 0 <= i < |s| ==> InTime(s, i, high, low)
    ensures i < |s| && !InTime(s, i, high, low) && forall k :: 0 <= k < i ==> InTime(s, k, high, low)
  {
    i := 0;
    while InTime(s, i, high, low)
      invariant i < |s| && forall k :: 0 <= k < i ==> InTime(s, k, high, low)
      decreases |s| - i
    {
      i := i + 1;
    }
  }

  /** The documented assumption suffices. */
  lemma BoundedDisorderSorts(s: seq<Inst>, high: nat, low: nat)
    requires low <= high && BoundedDisorder(s, low)
    ensures Run(s, high, low) == Sort(s)
  {
    hide Run, Sort;
    forall i | 0 <= i < |s| ensures InTime(s, i, high, low) {
      var f := LastFlush(i, high, low);
      assert s[..i] == s[..f] + s[f..i];
      LargerConcat(s[..f], s[f..i], s[i].sn);
    }
    SortedIffInTime(s, high, low);
  }

  /** And it cannot be weakened by a single place, for any thresholds. */
  lemma DisorderBoundIsTight(high: nat, low: nat) returns (s: seq<Inst>)
    requires low <= high
    ensures BoundedDisorder(s, low + 1) && Run(s, high, low) != Sort(s)
  {
    hide Run, Sort, Held, LastFlush;
    var below := seq(high - low, (i: nat) => Inst(i, 1, 1));
    var above := seq(low + 1, (i: nat) => Inst(high - low + 1 + i, 1, 1));
    var x := Inst(high - low, 1, 1);
    s := below + above + [x];
    forall i | 0 <= i < |s| ensures Larger(s[..i], s[i].sn) <= low + 1 {
      if i == high + 1 {
        assert s[..i] == below + above;
        LargerConcat(below, above, x.sn);
        LargerBounds(below, x.sn);
        LargerBounds(above, x.sn);
      } else {
        LargerBounds(s[..i], s[i].sn);
      }
    }
    FirstFlush(high, low);
    assert s[..high + 1] == below + above;
    LargerConcat(below, above, x.sn);
    LargerBounds(above, x.sn);
    assert !InTime(s, high + 1, high, low);
    SortedIffInTime(s, high, low);
  }

  /** Nor is it necessary: while the queue can hold more than low, a stream that exceeds the
      bound may still come out sorted. */
  lemma DisorderedButSorted(high: nat, low: nat) returns (s: seq<Inst>)
    requires low < high
    ensures !BoundedDisorder(s, low) && Run(s, high, low) == Sort(s)
  {
    hide Run, Sort, LastFlush, Held;
    var above, x := seq(low + 1, (i: nat) => Inst(1 + i, 1, 1)), Inst(0, 1, 1);
    s := above + [x];
    assert s[..low + 1] == above;
    LargerBounds(above, x.sn);
    assert Larger(s[..low + 1], s[low + 1].sn) == low + 1;
    forall i | 0 <= i < |s| ensures InTime(s, i, high, low) {
      FillingUp(i, high, low);
      LargerBounds(s[..0], s[i].sn);
    }
    SortedIffInTime(s, high, low);
  }

  /** With a single threshold every arrival beyond it flushes. */
  lemma {:induction false} FlushesEachTime(n: nat, t: nat)
    ensures Held(n, t, t) == if n <= t then n else t
    ensures LastFlush(n, t, t) == if n <= t then 0 else n
  {
    if n > 0 { FlushesEachTime(n - 1, t); }
  }

  lemma OneThreshold(s: seq<Inst>, t: nat)
    ensures Run(s, t, t) == Sort(s) <==> BoundedDisorder(s, t)
  {
    hide Run, Sort, LastFlush, Held;
    forall i | 0 <= i < |s| ensures InTime(s, i, t, t) <==> Larger(s[..i], s[i].sn) <= t {
      FlushesEachTime(i, t);
      LargerBounds(s[..i], s[i].sn);
      LargerBounds(s[..0], s[i].sn);
    }
    SortedIffInTime(s, t, t);
  }

  /** "Otherwise they will appear out of order" is right exactly if the thresholds coincide. */
  lemma DocumentedOtherwise(high: nat, low: nat)
    requires low <= high
    ensures (forall s :: Run(s, high, low) == Sort(s) <==> BoundedDisorder(s, low)) <==> high == low
  {
    hide Run, Sort, BoundedDisorder;
    if low < high {
      var s := DisorderedButSorted(high, low);
      assert !(Run(s, high, low) == Sort(s) <==> BoundedDisorder(s, low));
    } else {
      forall s ensures Run(s, high, low) == Sort(s) <==> BoundedDisorder(s, low) { OneThreshold(s, low); }
    }
  }

  lemma FirstFlush(high: nat, low: nat)
    ensures LastFlush(high + 1, high, low) == high + 1
  {
    FillingUp(high, high, low);
  }

  lemma {:induction false} FillingUp(n: nat, high: nat, low: nat)
    requires n <= high
    ensures Held(n, high, low) == n && LastFlush(n, high, low) == 0
  {
    if n > 0 { FillingUp(n - 1, high, low); }
  }

  /** A queue that has just reached the upper threshold is left alone; one more arrival flushes it. */
  lemma ReachedIsHeld(s: seq<Inst>, high: nat, low: nat)
    requires low <= high < |s|
    ensures |After(s, high, high, low).queue| == high && After(s, high, high, low).popped == []
    ensures After(s, high + 1, high, low).popped != [] && |After(s, high + 1, high, low).queue| == low
  {
    hide Sort, Flush, Held, LastFlush;
    FillingUp(high, high, low);
    FirstFlush(high, low);
    QueueLength(s, high, high, low);
    SinceFlush(s, high, high, low);
    AtFlush(s, high + 1, high, low);
  }

  // ------------------------------------------------------------------------------------
  // The global queue and its operations
  // ------------------------------------------------------------------------------------

  /** The ranges asked for on the command line; zero or a negative value means no limit. */
  datatype Limits = Limits(snStart: int, snStop: int, tickStart: int, tickStop: int, onlyCommitted: bool)

  predicate Kept(l: Limits, x: Inst) {
    && !(l.snStart > 0 && x.sn < l.snStart)
    && !(l.snStop > 0 && x.sn > l.snStop)
    && !(l.tickStart > 0 && x.fetch < l.tickStart)
    && !(l.tickStop > 0 && x.fetch > l.tickStop)
    && !(l.onlyCommitted && x.retire == 0)
  }

  function Keep(l: Limits, s: seq<Inst>): seq<Inst> {
    if s == [] then [] else Keep(l, s[..|s| - 1]) + (if Kept(l, s[|s| - 1]) then [s[|s| - 1]] else [])
  }

  lemma KeepSnoc(l: Limits, s: seq<Inst>, x: Inst)
    ensures Keep(l, s + [x]) == Keep(l, s) + if Kept(l, x) then [x] else []
  {
    assert (s + [x])[..|s|] == s;
  }

  lemma {:induction false} KeepCounts(l: Limits, s: seq<Inst>, x: Inst)
    ensures multiset(Keep(l, s))[x] == if Kept(l, x) then multiset(s)[x] else 0
  {
    hide Kept;
    if s != [] {
      KeepCounts(l, s[..|s| - 1], x);
      assert s == s[..|s| - 1] + [s[|s| - 1]];
    }
  }

  /** An instruction is printed if it lies within every limit that is set, and was committed
      when only those are asked for; as often as it came, and in the same order. */
  lemma FilterMeans(l: Limits, s: seq<Inst>)
    ensures forall x | x in Keep(l, s) ::
      && (l.snStart > 0 ==> x.sn >= l.snStart) && (l.snStop > 0 ==> x.sn <= l.snStop)
      && (l.tickStart > 0 ==> x.fetch >= l.tickStart) && (l.tickStop > 0 ==> x.fetch <= l.tickStop)
      && (l.onlyCommitted ==> x.retire > 0)
    ensures forall x: Inst |
      && (l.snStart > 0 ==> x.sn >= l.snStart) && (l.snStop > 0 ==> x.sn <= l.snStop)
      && (l.tickStart > 0 ==> x.fetch >= l.tickStart) && (l.tickStop > 0 ==> x.fetch <= l.tickStop)
      && (l.onlyCommitted ==> x.retire > 0)
      :: multiset(Keep(l, s))[x] == multiset(s)[x]
  {
    forall x: Inst
      ensures multiset(Keep(l, s))[x] == (if Kept(l, x) then multiset(s)[x] else 0)
      ensures x in Keep(l, s) ==> Kept(l, x)
    {
      KeepCounts(l, s, x);
    }
    hide Keep;
  }

  lemma {:induction false} NoLimits(l: Limits, s: seq<Inst>)
    requires l.snStart <= 0 && l.snStop <= 0 && l.tickStart <= 0 && l.tickStop <= 0 && !l.onlyCommitted
    ensures Keep(l, s) == s
  {
    if s != [] { NoLimits(l, s[..|s| - 1]); }
  }

  lemma {:induction false} KeepSorted(l: Limits, s: seq<Inst>)
    requires Sorted(s)
    ensures Sorted(Keep(l, s)) && forall x :: x in Keep(l, s) ==> x in s
  {
    hide Kept;
    if s != [] {
      var front, last := s[..|s| - 1], s[|s| - 1];
      KeepSorted(l, front);
      forall x | x in Keep(l, front) ensures x in s && x.sn <= last.sn {
        var i :| 0 <= i < |front| && front[i] == x;
        assert s[i] == x;
      }
    }
  }

  class Viewer {
    const high: nat
    const low: nat
    const limits: Limits
    var queue: seq<Inst>
    /** The instructions handed to print_inst, oldest first. */
    var printed: seq<Inst>
    /** Everything ever taken off the queue, printed or filtered out. */
    ghost var popped: seq<Inst>

    ghost predicate Valid()
      reads this
    {
      low <= high && printed == Keep(limits, popped)
    }

    constructor (high: nat, low: nat, limits: Limits)
      requires low <= high
      ensures Valid() && this.high == high && this.low == low && this.limits == limits
      ensures queue == [] && popped == []
    {
      this.high, this.low, this.limits := high, low, limits;
      queue, printed, popped := [], [], [];
    }

    method PrintInsts(lower: nat)
      requires Valid()
      modifies this
      ensures Valid() && State(queue, popped) == Flush(State(old(queue), old(popped)), lower)
      ensures forall x | x in printed ::
        && (limits.snStart > 0 ==> x.sn >= limits.snStart) && (limits.snStop > 0 ==> x.sn <= limits.snStop)
        && (limits.tickStart > 0 ==> x.fetch >= limits.tickStart)
        && (limits.tickStop > 0 ==> x.fetch <= limits.tickStop)
        && (limits.onlyCommitted ==> x.retire > 0)
      ensures forall x: Inst |
        && (limits.snStart > 0 ==> x.sn >= limits.snStart) && (limits.snStop > 0 ==> x.sn <= limits.snStop)
        && (limits.tickStart > 0 ==> x.fetch >= limits.tickStart)
        && (limits.tickStop > 0 ==> x.fetch <= limits.tickStop)
        && (limits.onlyCommitted ==> x.retire > 0)
        :: multiset(printed)[x] == multiset(popped)[x]
    {
      hide Sort, Kept, Keep;
      queue := Sort(queue);
      ghost var q, n := queue, 0;
      while |queue| > lower
        invariant 0 <= n <= |q| && queue == q[n..] && popped == old(popped) + q[..n]
        invariant |q| <= lower ==> n == 0
        invariant |q| > lower ==> |queue| >= lower
        invariant printed == Keep(limits, popped)
      {
        var item := queue[0];
        queue := queue[1..];
        if Kept(limits, item) { printed := printed + [item]; }
        KeepSnoc(limits, popped, item);
        TakeSnoc(q, n);
        popped, n := popped + [item], n + 1;
      }
      FilterMeans(limits, popped);
    }

    method QueueInst(inst: Inst)
      requires Valid()
      modifies this
      ensures Valid() && State(queue, popped) == Feed(State(old(queue), old(popped)), inst, high, low)
      ensures |old(queue)| <= high ==> |queue| <= high
    {
      hide Sort;
      SortSorts(queue + [inst]);
      queue := queue + [inst];
      if |queue| > high { PrintInsts(low); }
    }

    /** The instructions of a trace in the order in which they leave the pipeline, and the
        final call at its end. */
    method ProcessTrace(s: seq<Inst>)
      requires Valid() && queue == [] && popped == []
      modifies this
      ensures printed == Keep(limits, Run(s, high, low))
      ensures BoundedDisorder(s, low) ==> printed == Keep(limits, Sort(s)) && Sorted(printed)
      ensures forall x | x in printed ::
        && (limits.snStart > 0 ==> x.sn >= limits.snStart) && (limits.snStop > 0 ==> x.sn <= limits.snStop)
        && (limits.tickStart > 0 ==> x.fetch >= limits.tickStart)
        && (limits.tickStop > 0 ==> x.fetch <= limits.tickStop)
        && (limits.onlyCommitted ==> x.retire > 0)
      ensures forall x: Inst |
        && (limits.snStart > 0 ==> x.sn >= limits.snStart) && (limits.snStop > 0 ==> x.sn <= limits.snStop)
        && (limits.tickStart > 0 ==> x.fetch >= limits.tickStart)
        && (limits.tickStop > 0 ==> x.fetch <= limits.tickStop)
        && (limits.onlyCommitted ==> x.retire > 0)
        :: multiset(printed)[x] == multiset(s)[x]
      ensures (limits.snStart <= 0 && limits.snStop <= 0 && limits.tickStart <= 0 && limits.tickStop <= 0
               && !limits.onlyCommitted) ==> printed == Run(s, high, low)
    {
      hide Flush, Sort, Feed, Keep;
      for i := 0 to |s|
        invariant Valid() && State(queue, popped) == After(s, i, high, low)
      {
        QueueInst(s[i]);
      }
      PrintInsts(0);
      if BoundedDisorder(s, low) {
        BoundedDisorderSorts(s, high, low);
        SortSorts(s);
        KeepSorted(limits, Sort(s));
      }
      FilterMeans(limits, Run(s, high, low));
      RunConserves(s, high, low);
      if limits.snStart <= 0 && limits.snStop <= 0 && limits.tickStart <= 0 && limits.tickStop <= 0
        && !limits.onlyCommitted { NoLimits(limits, Run(s, high, low)); }
    }
  }
}
