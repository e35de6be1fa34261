/** Copyright years of util/find_copyrights.py: datestr writes a set of years as a list of
    ranges, process_dates reads such a list back. */
module DateRanges {

  datatype Option<T> = None | Some(value: T)

  /** The years first, first + 1, ..., second. */
  datatype Range = Range(first: int, second: int)

  predicate Within(y: int, r: Range) { r.first <= y <= r.second }

  ghost predicate Covered(y: int, rs: seq<Range>) {
    exists i :: 0 <= i < |rs| && Within(y, rs[i])
  }

  /** Ascending ranges with a gap between neighbours that make up exactly the given years. */
  ghost predicate Exact(rs: seq<Range>, years: set<int>) {
    && (forall i :: 0 <= i < |rs| ==> rs[i].first <= rs[i].second)
    && (forall i, j :: 0 <= i < j < |rs| ==> rs[i].second + 1 < rs[j].first)
    && (forall y :: y in years <==> Covered(y, rs))
  }

  // ------------------------------------------------------------------------------------
  // The list of ranges is determined by the years, and no list of ranges is shorter
  // ------------------------------------------------------------------------------------

  lemma {:induction false} ExactUnique(rs: seq<Range>, ts: seq<Range>, years: set<int>)
    requires Exact(rs, years) && Exact(ts, years)
    ensures rs == ts
  {
    hide Exact;
    SomeYear(rs, years);
    SomeYear(ts, years);
    if rs != [] && ts != [] {
      FirstNotLonger(rs, ts, years);
      FirstNotLonger(ts, rs, years);
      WithoutFirst(rs, years);
      WithoutFirst(ts, years);
      ExactUnique(rs[1..], ts[1..], set y | y in years && y > rs[0].second);
      assert rs == [rs[0]] + rs[1..] && ts == [ts[0]] + ts[1..];
    }
  }

  lemma EachEndIn(rs: seq<Range>, years: set<int>, i: nat)
    requires Exact(rs, years) && i < |rs|
    ensures rs[i].first in years && rs[i].second in years && rs[i].second + 1 !in years
  {
    assert Within(rs[i].first, rs[i]) && Within(rs[i].second, rs[i]);
    assert Covered(rs[i].first, rs) && Covered(rs[i].second, rs);
  }

  lemma SomeYear(rs: seq<Range>, years: set<int>)
    requires Exact(rs, years)
    ensures rs == [] <==> forall y :: y !in years
  {
    if rs != [] { EachEndIn(rs, years, 0); }
  }

  lemma WithinIn(ts: seq<Range>, years: set<int>, i: nat, y: int)
    requires i < |ts| && forall x :: x in years <==> Covered(x, ts)
    ensures Within(y, ts[i]) ==> y in years
  {
    assert Within(y, ts[i]) ==> Covered(y, ts);
  }

  lemma FirstNotLonger(rs: seq<Range>, ts: seq<Range>, years: set<int>)
    requires Exact(rs, years) && Exact(ts, years) && rs != [] && ts != []
    ensures ts[0].first <= rs[0].first && rs[0].second <= ts[0].second
  {
    EachEndIn(rs, years, 0);
    EachEndIn(ts, years, 0);
    WithinIn(rs, years, 0, ts[0].second + 1);
  }

  lemma {:induction false} WithoutFirst(rs: seq<Range>, years: set<int>)
    requires Exact(rs, years) && rs != []
    ensures Exact(rs[1..], set y | y in years && y > rs[0].second)
  {
    var rest := rs[1..];
    forall y ensures y in years && y > rs[0].second <==> Covered(y, rest) {
      if y in years && y > rs[0].second {
        var i :| 0 <= i < |rs| && Within(y, rs[i]);
        assert rest[i - 1] == rs[i];
      }
      if Covered(y, rest) {
        var i :| 0 <= i < |rest| && Within(y, rest[i]);
        assert rs[i + 1] == rest[i];
      }
    }
  }

  lemma Shortest(rs: seq<Range>, ts: seq<Range>, years: set<int>)
    requires Exact(rs, years) && forall y :: y in years <==> Covered(y, ts)
    ensures |rs| <= |ts|
  {
    if rs != [] {
      var used := OneRangeEach(rs, ts, years, |rs|);
      SizeBelow(used, |ts|);
    }
  }

  /** No range of ts reaches into two of rs, so the first k of rs use up k of ts. */
  lemma {:induction false} OneRangeEach(rs: seq<Range>, ts: seq<Range>, years: set<int>, k: nat)
    returns (used: set<int>)
    requires Exact(rs, years) && forall y :: y in years <==> Covered(y, ts)
    requires 0 < k <= |rs|
    ensures |used| == k
    ensures forall c <- used :: 0 <= c < |ts| && ts[c].second <= rs[k - 1].second
  {
    used := {};
    if k > 1 { used := OneRangeEach(rs, ts, years, k - 1); }
    EachEndIn(rs, years, k - 1);
    var c :| 0 <= c < |ts| && Within(rs[k - 1].first, ts[c]);
    WithinIn(ts, years, c, rs[k - 1].second + 1);
    used := used + {c};
  }

  lemma {:induction false} SizeBelow(s: set<int>, n: nat)
    requires forall c <- s :: 0 <= c < n
    ensures |s| <= n
  {
    if n == 0 {
      assert forall c :: c !in s;
    } else {
      SizeBelow(s - {n - 1}, n - 1);
    }
  }

  // ------------------------------------------------------------------------------------
  // Decimal numbers
  // ------------------------------------------------------------------------------------

  predicate IsDigit(c: char) { '0' <= c <= '9' }

  predicate AllDigits(t: string) { forall i :: 0 <= i < |t| ==> IsDigit(t[i]) }

  function DigitOf(c: char): (d: nat)
    requires IsDigit(c)
    ensures d < 10
  {
    c as int - '0' as int
  }

  function CharOf(d: nat): (c: char)
    requires d < 10
    ensures IsDigit(c) && DigitOf(c) == d
  {
    ('0' as int + d) as char
  }

  function Decimal(n: nat): (t: string)
    ensures |t| > 0 && AllDigits(t)
  {
    if n < 10 then [CharOf(n)] else Decimal(n / 10) + [CharOf(n % 10)]
  }

  function Value(t: string): nat
    requires AllDigits(t)
  {
    if t == [] then 0 else 10 * Value(t[..|t| - 1]) + DigitOf(t[|t| - 1])
  }

  lemma {:induction false} ValueOfDecimal(n: nat)
    ensures Value(Decimal(n)) == n
  {
    if n >= 10 {
      ValueOfDecimal(n / 10);
      assert Decimal(n)[..|Decimal(n)| - 1] == Decimal(n / 10);
    } else {
      assert Value([CharOf(n)][..0]) == 0;
    }
  }

  lemma FourDigits(n: nat)
    ensures |Decimal(n)| < 4 <==> n < 1000
    ensures |Decimal(n)| == 4 <==> 1000 <= n <= 9999
  {
    assert n >= 10 ==> |Decimal(n)| == |Decimal(n / 10)| + 1;
    assert n >= 100 ==> |Decimal(n / 10)| == |Decimal(n / 10 / 10)| + 1;
    assert n >= 1000 ==> |Decimal(n / 10 / 10)| == |Decimal(n / 10 / 10 / 10)| + 1;
    assert n >= 10000 ==> |Decimal(n / 10 / 10 / 10)| == |Decimal(n / 10 / 10 / 10 / 10)| + 1;
  }

  /** Reading only the first four digits loses years. */
  lemma {:induction false} LeadingFour(n: nat)
    requires n >= 1000
    ensures |Decimal(n)| >= 4
    ensures if n <= 9999 then Value(Decimal(n)[..4]) == n else Value(Decimal(n)[..4]) <= 9999
  {
    FourDigits(n);
    if n <= 9999 {
      assert Decimal(n)[..4] == Decimal(n);
      ValueOfDecimal(n);
    } else {
      LeadingFour(n / 10);
      FourDigits(n / 10);
      assert Decimal(n)[..4] == Decimal(n / 10)[..4];
    }
  }

  // ------------------------------------------------------------------------------------
  // Text
  // ------------------------------------------------------------------------------------

  /** '%d'. */
  function Show(y: int): string {
    if y < 0 then "-" + Decimal(-y) else Decimal(y)
  }

  function ShowRange(r: Range): string {
    if r.first == r.second then Show(r.first) else Show(r.first) + "-" + Show(r.second)
  }

  function ShowAll(rs: seq<Range>): (ps: seq<string>)
    ensures |ps| == |rs| && forall i :: 0 <= i < |rs| ==> ps[i] == ShowRange(rs[i])
  {
    if rs == [] then [] else ShowAll(rs[..|rs| - 1]) + [ShowRange(rs[|rs| - 1])]
  }

  /** ','.join. */
  function Join(ps: seq<string>): string {
    if ps == [] then "" else if |ps| == 1 then ps[0] else ps[0] + "," + Join(ps[1..])
  }

  /** str.split(','). */
  function Split(t: string): (ps: seq<string>)
    ensures |ps| > 0
  {
    if t == "" then [""]
    else if t[0] == ',' then [""] + Split(t[1..])
    else var ps := Split(t[1..]); [[t[0]] + ps[0]] + ps[1..]
  }

  lemma {:induction false} SplitPiece(p: string, t: string)
    requires ',' !in p
    ensures Split(p + "," + t) == [p] + Split(t)
    ensures Split(p) == [p]
  {
    if p == "" {
      assert "" + "," + t == "," + t && ("," + t)[1..] == t;
    } else {
      SplitPiece(p[1..], t);
      assert (p + "," + t)[1..] == p[1..] + "," + t;
      assert [p[0]] + p[1..] == p;
    }
  }

  lemma {:induction false} SplitJoin(ps: seq<string>)
    requires ps != [] && forall i :: 0 <= i < |ps| ==> ',' !in ps[i]
    ensures Split(Join(ps)) == ps
  {
    hide Split;
    SplitPiece(ps[0], if |ps| == 1 then "" else Join(ps[1..]));
    if |ps| > 1 {
      SplitJoin(ps[1..]);
    }
    assert ps == [ps[0]] + ps[1..];
  }

  predicate IsSpace(c: char) { c == ' ' || 9 <= c as int <= 13 }

  lemma WhiteSpace(c: char)
    ensures IsSpace(c) <==> c in [' ', '\t', '\n', '\U{B}', '\U{C}', '\r']
  {}

  function StripLeft(t: string): string {
    if t != "" && IsSpace(t[0]) then StripLeft(t[1..]) else t
  }

  function StripRight(t: string): string {
    if t != "" && IsSpace(t[|t| - 1]) then StripRight(t[..|t| - 1]) else t
  }

  function Strip(t: string): string { StripRight(StripLeft(t)) }

  /** The regular expression for a range, matched at the start of the text: four digits, a
      dash with or without space around it, four digits. */
  function MatchRange(t: string): (m: Option<Range>)
    ensures m.Some? ==> m.value.first >= 0 && m.value.second >= 0
  {
    if |t| < 4 || !AllDigits(t[..4]) then None else
    var dash := StripLeft(t[4..]);
    if dash == "" || dash[0] != '-' then None else
    var last := StripLeft(dash[1..]);
    if |last| < 4 || !AllDigits(last[..4]) then None
    else Some(Range(Value(t[..4]), Value(last[..4])))
  }

  /** int(): an optional sign and digits; None stands for ValueError. */
  function ParseInt(t: string): Option<int> {
    var signed := t != "" && (t[0] == '-' || t[0] == '+');
    var digits := if signed then t[1..] else t;
    if digits == "" || !AllDigits(digits) then None
    else var v: int := Value(digits); Some(if t[0] == '-' then -v else v)
  }

  /** Whether a date that is already stripped stands for the year. */
  predicate Names(date: string, y: int) {
    match MatchRange(date)
    case Some(r) => Within(y, r)
    case None => ParseInt(date) == Some(y)
  }

  ghost predicate Listed(text: string, y: int) {
    exists i :: 0 <= i < |Split(text)| && Names(Strip(Split(text)[i]), y)
  }

  // ------------------------------------------------------------------------------------
  // What is read back from one piece of the text
  // ------------------------------------------------------------------------------------

  lemma ShowRangeText(r: Range)
    ensures ',' !in ShowRange(r) && Strip(ShowRange(r)) == ShowRange(r)
  {
  }

  lemma ReadSingle(y: int, x: int)
    ensures Names(Show(y), x) <==> x == y
  {
    hide Decimal, Value;
    if y >= 0 {
      ValueOfDecimal(y);
      NoDash(Decimal(y));
    } else {
      var t, d := Show(y), Decimal(-y);
      ValueOfDecimal(-y);
      assert t == "-" + d && t[1..] == d;
      assert |t| >= 4 ==> !IsDigit(t[..4][0]);
      assert MatchRange(t) == None && ParseInt(t) == Some(y);
    }
  }

  lemma NoDash(t: string)
    requires t != "" && AllDigits(t)
    ensures MatchRange(t) == None && ParseInt(t) == Some(Value(t))
  {
    assert IsDigit(t[0]);
    if |t| > 4 { assert StripLeft(t[4..]) == t[4..] && IsDigit(t[4..][0]); }
  }

  /** A range of at least two years can be read back exactly if both ends have four digits. */
  predicate Readable(r: Range) {
    r.first < r.second ==> 1000 <= r.first && r.second <= 9999
  }

  lemma ReadRange(r: Range, x: int)
    requires r.first < r.second
    ensures Names(ShowRange(r), x) ==> Within(x, r)
    ensures Readable(r) ==> (Names(ShowRange(r), x) <==> Within(x, r))
    ensures !Readable(r) ==> !Names(ShowRange(r), r.second)
  {
    NotANumber(Show(r.first), Show(r.second));
    if 1000 <= r.first <= 9999 {
      LeadingFour(r.second);
      MatchesFour(r.first, r.second);
    } else {
      assert ShowRange(r) == Show(r.first) + ("-" + Show(r.second));
      NoMatch(r.first, "-" + Show(r.second));
    }
  }

  lemma MatchesFour(y: int, z: int)
    requires 1000 <= y <= 9999 && z >= 1000 && |Decimal(z)| >= 4
    ensures MatchRange(Show(y) + "-" + Show(z)) == Some(Range(y, Value(Decimal(z)[..4])))
  {
    hide Decimal;
    var t, f, l := Show(y) + "-" + Show(z), Decimal(y), Decimal(z);
    FourDigits(y);
    ValueOfDecimal(y);
    assert t[..4] == f && t[4..] == "-" + l && ("-" + l)[1..] == l;
    assert StripLeft("-" + l) == "-" + l && StripLeft(l) == l;
  }

  lemma NotANumber(f: string, l: string)
    requires f != ""
    ensures ParseInt(f + "-" + l) == None
  {
    var t := f + "-" + l;
    assert t[|f|] == '-' && t[1..][|f| - 1] == '-';
  }

  lemma NoMatch(y: int, rest: string)
    requires !(1000 <= y <= 9999) && rest != "" && rest[0] == '-'
    ensures MatchRange(Show(y) + rest) == None
  {
    var t := Show(y) + rest;
    if y < 0 {
      assert |t| >= 4 ==> !IsDigit(t[..4][0]);
    } else {
      FourDigits(y);
      if y < 1000 {
        var n := |Show(y)|;
        assert |t| >= 4 ==> !IsDigit(t[..4][n]);
      } else {
        assert t[4..][0] == Show(y)[4];
        assert StripLeft(t[4..]) == t[4..];
      }
    }
  }

  // ------------------------------------------------------------------------------------
  // Texts written by hand
  // ------------------------------------------------------------------------------------

  ghost predicate Spaces(s: string) { forall i :: 0 <= i < |s| ==> IsSpace(s[i]) }

  lemma {:induction false} SkipSpaces(s: string, t: string)
    requires Spaces(s)
    ensures StripLeft(s + t) == StripLeft(t)
  {
    if s == "" {
      assert s + t == t;
    } else {
      SkipSpaces(s[1..], t);
      assert (s + t)[1..] == s[1..] + t;
    }
  }

  lemma {:induction false} DropSpaces(t: string, s: string)
    requires Spaces(s)
    ensures StripRight(t + s) == StripRight(t)
  {
    if s == "" {
      assert t + s == t;
    } else {
      DropSpaces(t, s[..|s| - 1]);
      assert (t + s)[..|t + s| - 1] == t + s[..|s| - 1];
    }
  }

  /** A text that is empty or neither begins nor ends with a space. */
  ghost predicate Bare(t: string) { t == "" || (!IsSpace(t[0]) && !IsSpace(t[|t| - 1])) }

  /** Stripping takes off the spaces at both ends, and nothing else. */
  lemma Stripped(l: string, t: string, r: string)
    requires Spaces(l) && Bare(t) && Spaces(r)
    ensures Strip(l + t + r) == t
  {
    assert l + t + r == l + (t + r);
    SkipSpaces(l, t + r);
    if t == "" {
      assert t + r == r && r + "" == r;
      SkipSpaces(r, "");
    } else {
      assert (t + r)[0] == t[0];
      DropSpaces(t, r);
    }
  }

  /** Whatever spaces stand around the pieces of a list, the same years are read. */
  lemma SpacesIgnored(ps: seq<string>, qs: seq<string>, ls: seq<string>, rs: seq<string>, y: int)
    requires |ps| == |qs| == |ls| == |rs| && ps != []
    requires forall i :: 0 <= i < |ps| ==> ',' !in ps[i] && Bare(ps[i]) && Spaces(ls[i]) && Spaces(rs[i])
    requires forall i :: 0 <= i < |ps| ==> qs[i] == ls[i] + ps[i] + rs[i]
    ensures Listed(Join(qs), y) <==> exists i :: 0 <= i < |ps| && Names(ps[i], y)
  {
    hide Names, Split, Strip, Join;
    forall i | 0 <= i < |ps| ensures ',' !in qs[i] && Strip(qs[i]) == ps[i] {
      Stripped(ls[i], ps[i], rs[i]);
    }
    SplitJoin(qs);
    if i :| 0 <= i < |ps| && Names(ps[i], y) { assert Names(Strip(Split(Join(qs))[i]), y); }
  }

  /** Four digits, a dash with any spaces around it and four digits are a range of years,
      whatever follows. */
  lemma DashIsRange(f: string, l: string, dash: string, r: string, last: string, rest: string)
    requires |f| == |last| == 4 && AllDigits(f) && AllDigits(last)
    requires dash == "-" && Spaces(l) && Spaces(r)
    ensures forall y :: Names(f + l + dash + r + last + rest, y) <==> Value(f) <= y <= Value(last)
  {
    var t, behind := f + l + dash + r + last + rest, last + rest;
    assert t[..4] == f && t[4..] == l + (dash + (r + behind));
    SkipSpaces(l, dash + (r + behind));
    assert (dash + (r + behind))[1..] == r + behind;
    SkipSpaces(r, behind);
    assert IsDigit(behind[0]) && behind[..4] == last;
    hide Value;
  }

  /** A number, with or without a sign, is one year. */
  lemma SignedYear(d: string)
    requires d != "" && AllDigits(d)
    ensures forall y :: Names(d, y) <==> y == Value(d)
    ensures forall y :: Names("+" + d, y) <==> y == Value(d)
    ensures forall y :: Names("-" + d, y) <==> y == -(Value(d) as int)
  {
    hide Value;
    NoDash(d);
    assert ("+" + d)[1..] == d && ("-" + d)[1..] == d;
    assert |d| >= 3 ==> !IsDigit(("+" + d)[..4][0]) && !IsDigit(("-" + d)[..4][0]);
  }

  /** A piece without a digit names no year. */
  lemma NoDigits(t: string, y: int)
    requires forall i :: 0 <= i < |t| ==> !IsDigit(t[i])
    ensures !Names(t, y)
  {
    if |t| >= 4 { assert t[..4][0] == t[0]; }
    if |t| >= 2 { assert t[1..][0] == t[1]; }
  }

  /** An instance: the list "2004, 2005 - 2007". */
  lemma ByHand(y: int)
    ensures Listed("2004, 2005 - 2007", y) <==> 2004 <= y <= 2007
  {
    hide Names, Listed, Value, Strip, Split, Join;
    var ps, qs := ["2004", "2005 - 2007"], ["2004", " 2005 - 2007"];
    var ls, rs := ["", " "], ["", ""];
    assert qs[0] == ls[0] + ps[0] + rs[0] && qs[1] == ls[1] + ps[1] + rs[1];
    SpacesIgnored(ps, qs, ls, rs, y);
    TwoPieces();
    FourNumbers();
    SignedYear("2004");
    SpacedRange(y);
    assert Names(ps[0], y) <==> y == 2004;
    assert Names(ps[1], y) <==> 2005 <= y <= 2007;
  }

  lemma TwoPieces()
    ensures Join(["2004", " 2005 - 2007"]) == "2004, 2005 - 2007"
  {
    assert ["2004", " 2005 - 2007"][1..] == [" 2005 - 2007"];
  }

  lemma SpacedRange(y: int)
    ensures Names("2005 - 2007", y) <==> 2005 <= y <= 2007
  {
    hide Names, Value;
    FourNumbers();
    DashIsRange("2005", " ", "-", " ", "2007", "");
    assert "2005 - 2007" == "2005" + " " + "-" + " " + "2007" + "";
  }

  lemma FourNumbers()
    ensures AllDigits("2004") && AllDigits("2005") && AllDigits("2007")
    ensures Value("2004") == 2004 && Value("2005") == 2005 && Value("2007") == 2007
  {
    assert Value("2") == 2 && "20"[..1] == "2" && Value("20") == 20 && "200"[..2] == "20" && Value("200") == 200;
    assert "2004"[..3] == "200" && "2005"[..3] == "200" && "2007"[..3] == "200";
  }

  // ------------------------------------------------------------------------------------
  // The round trip
  // ------------------------------------------------------------------------------------

  lemma ReadPieces(rs: seq<Range>, y: int)
    requires rs != []
    ensures Listed(Join(ShowAll(rs)), y) <==>
            exists i :: 0 <= i < |rs| && Names(ShowRange(rs[i]), y)
  {
    var ps := ShowAll(rs);
    forall i | 0 <= i < |rs| ensures ',' !in ps[i] && Strip(ps[i]) == ps[i] { ShowRangeText(rs[i]); }
    SplitJoin(ps);
    if i :| 0 <= i < |rs| && Names(ShowRange(rs[i]), y) {
      assert Names(Strip(Split(Join(ps))[i]), y);
    }
  }

  lemma ReadOne(r: Range, y: int)
    requires r.first <= r.second
    ensures Names(ShowRange(r), y) ==> Within(y, r)
    ensures Readable(r) ==> (Names(ShowRange(r), y) <==> Within(y, r))
    ensures !Readable(r) ==> !Names(ShowRange(r), r.second)
  {
    if r.first < r.second { ReadRange(r, y); } else { ReadSingle(r.first, y); }
  }

  /** No year is ever invented. */
  lemma ReadsOnlyYears(rs: seq<Range>, years: set<int>, y: int)
    requires Exact(rs, years) && rs != [] && Listed(Join(ShowAll(rs)), y)
    ensures y in years
  {
    ReadPieces(rs, y);
    var i :| 0 <= i < |rs| && Names(ShowRange(rs[i]), y);
    ReadOne(rs[i], y);
    WithinIn(rs, years, i, y);
  }

  /** All years survive exactly if no run of consecutive years has an end without four digits. */
  lemma RoundTrip(rs: seq<Range>, years: set<int>)
    requires Exact(rs, years) && rs != []
    ensures (forall y :: y in years <==> Listed(Join(ShowAll(rs)), y))
            <==> forall i :: 0 <= i < |rs| ==> Readable(rs[i])
  {
    var t := Join(ShowAll(rs));
    forall y | Listed(t, y) ensures y in years { ReadsOnlyYears(rs, years, y); }
    if forall i :: 0 <= i < |rs| ==> Readable(rs[i]) {
      forall y | y in years ensures Listed(t, y) {
        var i :| 0 <= i < |rs| && Within(y, rs[i]);
        ReadOne(rs[i], y);
        ReadPieces(rs, y);
      }
    } else {
      var i :| 0 <= i < |rs| && !Readable(rs[i]);
      LastYearLost(rs, years, i);
      EachEndIn(rs, years, i);
    }
  }

  lemma LastYearLost(rs: seq<Range>, years: set<int>, i: nat)
    requires Exact(rs, years) && i < |rs| && !Readable(rs[i])
    ensures !Listed(Join(ShowAll(rs)), rs[i].second)
  {
    hide Listed, Names, ShowRange, ShowAll, Join, Covered, Readable;
    ReadPieces(rs, rs[i].second);
    forall j | 0 <= j < |rs| ensures !Names(ShowRange(rs[j]), rs[i].second) {
      ReadOne(rs[j], rs[i].second);
    }
  }

  /** "999-1000" is neither matched as a range nor read as a number: both years are gone. */
  lemma YearsLost()
    ensures Exact([Range(999, 1000)], {999, 1000}) && Join(ShowAll([Range(999, 1000)])) == "999-1000"
    ensures !Listed("999-1000", 999) && !Listed("999-1000", 1000)
  {
    hide Listed, Names, ShowRange, Show, Join, ShowAll;
    var r := Range(999, 1000);
    assert forall y :: Within(y, [r][0]) <==> y in {999, 1000};
    OnePiece(r);
    LongYear();
    ReadPieces([r], 999);
    ReadPieces([r], 1000);
  }

  lemma OnePiece(r: Range)
    ensures Join(ShowAll([r])) == ShowRange(r)
  {
    assert [r][..0] == [];
  }

  lemma LongYear()
    ensures ShowRange(Range(999, 1000)) == "999-1000"
    ensures forall y :: !Names(ShowRange(Range(999, 1000)), y)
  {
    hide Show, MatchRange, ParseInt;
    ThreeDigits();
    NoMatch(999, "-" + Show(1000));
    NotANumber(Show(999), Show(1000));
    assert Show(999) + "-" + Show(1000) == Show(999) + ("-" + Show(1000));
  }

  lemma ThreeDigits()
    ensures Show(999) == "999" && Show(1000) == "1000"
  {
    assert Decimal(99) == "99" && Decimal(100) == "100" by { assert Decimal(10) == "10"; }
  }

  /** process_dates(datestr(years)) == years for years of four digits. */
  lemma FourDigitRoundTrip(rs: seq<Range>, years: set<int>)
    requires Exact(rs, years) && rs != [] && forall y <- years :: 1000 <= y <= 9999
    ensures forall y :: y in years <==> Listed(Join(ShowAll(rs)), y)
  {
    forall i | 0 <= i < |rs| ensures Readable(rs[i]) { EachEndIn(rs, years, i); }
    RoundTrip(rs, years);
  }

  // ------------------------------------------------------------------------------------
  // The two functions of the script
  // ------------------------------------------------------------------------------------

  ghost predicate Least(m: int, s: set<int>) { m in s && forall y <- s :: m <= y }

  lemma EmptyOrNot(s: set<int>)
    ensures s == {} || exists x :: x in s
  {
    if forall x :: x !in s { assert s == {}; }
  }

  lemma {:induction false} HasLeast(s: set<int>)
    requires s != {}
    ensures exists m :: Least(m, s)
  {
    EmptyOrNot(s);
    var x :| x in s;
    var rest := s - {x};
    if rest == {} {
      assert forall y <- s :: y !in rest;
      assert Least(x, s);
    } else {
      HasLeast(rest);
      var m :| Least(m, rest);
      assert forall y <- s :: y == x || y in rest;
      assert Least(if m < x then m else x, s);
    }
  }

  ghost predicate Increasing(list: seq<int>) {
    forall i, j :: 0 <= i < j < |list| ==> list[i] < list[j]
  }

  /** list(dates) after sort(). */
  method SortedYears(dates: set<int>) returns (list: seq<int>)
    ensures Increasing(list) && forall y :: y in dates <==> y in list
  {
    list := [];
    var rest := dates;
    while rest != {}
      invariant Increasing(list)
      invariant forall y :: y in dates <==> y in list || y in rest
      invariant forall i, y :: 0 <= i < |list| && y in rest ==> list[i] < y
      decreases rest
    {
      HasLeast(rest);
      ghost var least :| Least(least, rest);
      var m :| m in rest && forall y <- rest :: m <= y;
      list, rest := list + [m], rest - {m};
    }
  }

  lemma OneRange(y: int)
    ensures Exact([Range(y, y)], {y})
  {
    assert forall x :: Within(x, [Range(y, y)][0]) <==> x in {y};
  }

  lemma SameYears(rs: seq<Range>, seen: set<int>, years: set<int>)
    requires Exact(rs, seen) && forall y :: y in seen <==> y in years
    ensures Exact(rs, years)
  {
  }

  lemma ShowMore(rs: seq<Range>, r: Range)
    ensures ShowAll(rs + [r]) == ShowAll(rs) + [ShowRange(r)]
  {
    assert (rs + [r])[..|rs|] == rs;
  }

  /** The next year either lengthens the last range or starts a new one. */
  lemma NextYear(rs: seq<Range>, r: Range, years: set<int>, next: int)
    requires Exact(rs + [r], years) && next > r.second
    ensures next == r.second + 1 ==> Exact(rs + [Range(r.first, next)], years + {next})
    ensures next > r.second + 1 ==> Exact(rs + [r] + [Range(next, next)], years + {next})
  {
    var was, n := rs + [r], |rs|;
    assert was[n] == r && forall i :: 0 <= i < n ==> rs[i] == was[i] && rs[i].second + 1 < r.first;
    var longer, more := rs + [Range(r.first, next)], rs + [r] + [Range(next, next)];
    forall y
      ensures Covered(y, was) || y == next ==> Covered(y, more)
      ensures next == r.second + 1 && (Covered(y, was) || y == next) ==> Covered(y, longer)
    {
      assert Within(y, more[n + 1]) <==> y == next;
      assert Within(next, longer[n]);
      if i :| 0 <= i <= n && Within(y, was[i]) {
        assert more[i] == was[i] && (i < n ==> longer[i] == was[i]);
        assert Within(y, r) ==> Within(y, longer[n]);
      }
    }
    forall y
      ensures Covered(y, more) ==> Covered(y, was) || y == next
      ensures next == r.second + 1 && Covered(y, longer) ==> Covered(y, was) || y == next
    {
      if i :| 0 <= i < |more| && Within(y, more[i]) { assert i <= n ==> more[i] == was[i]; }
      if i :| 0 <= i < |longer| && Within(y, longer[i]) {
        assert i < n ==> longer[i] == was[i];
        assert next == r.second + 1 && i == n && y != next ==> Within(y, was[n]);
      }
    }
  }

  /** Popping from an empty list raises an exception, so an empty set gives None. */
  method DateStr(dates: set<int>) returns (text: Option<string>, ghost runs: seq<Range>)
    ensures text.None? <==> dates == {}
    ensures text.Some? ==> runs != [] && Exact(runs, dates) && text.value == Join(ShowAll(runs))
  {
    hide Exact, Decimal, Show, ShowRange, ShowAll, Join;
    runs := [];
    var list := SortedYears(dates);
    EmptyOrNot(dates);
    assert dates == {} ==> list == [] by { assert list != [] ==> list[0] in list; }
    if list == [] { return None, []; }
    var first, rest := list[0], list[1..];
    assert first in dates;
    var second := first;
    var output: seq<string> := [];
    ghost var n, seen := 1, {first};
    OneRange(first);
    assert [] + [Range(first, second)] == [Range(first, first)];
    while rest != []
      invariant 1 <= n <= |list| && rest == list[n..]
      invariant second == list[n - 1] && output == ShowAll(runs)
      invariant forall y :: y in seen <==> y in list[..n]
      invariant Exact(runs + [Range(first, second)], seen)
    {
      var next := rest[0];
      rest := rest[1..];
      assert list[..n + 1] == list[..n] + [next];
      NextYear(runs, Range(first, second), seen, next);
      if next == second + 1 {
        second := next;
      } else {
        output := output + [ShowRange(Range(first, second))];
        ShowMore(runs, Range(first, second));
        runs := runs + [Range(first, second)];
        first := next;
        second := next;
      }
      n, seen := n + 1, seen + {next};
    }
    assert list[..n] == list;
    SameYears(runs + [Range(first, second)], seen, dates);
    output := output + [ShowRange(Range(first, second))];
    ShowMore(runs, Range(first, second));
    runs := runs + [Range(first, second)];
    text := Some(Join(output));
  }

  method ProcessDates(dates: string) returns (output: set<int>)
    ensures forall y :: y in output <==> Listed(dates, y)
  {
    var ps := Split(dates);
    output := {};
    for k := 0 to |ps|
      invariant forall y :: y in output <==> exists i :: 0 <= i < k && Names(Strip(ps[i]), y)
    {
      var date := Strip(ps[k]);
      match MatchRange(date) {
        case Some(r) =>
          ghost var before := output;
          var i := r.first;
          while i <= r.second
            invariant r.first <= i && (i <= r.second + 1 || i == r.first)
            invariant forall y :: y in output <==> y in before || r.first <= y < i
          {
            output := output + {i};
            i := i + 1;
          }
        case None =>
          var year := ParseInt(date);
          if year.Some? { output := output + {year.value}; }
      }
    }
  }
}
