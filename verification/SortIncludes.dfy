/** The include sorter of util/sort_includes.py, line by line: it gathers each run of includes,
    cleans the lines up, and writes the run back sorted within blocks of one kind each. */
module SortIncludes {

  // ------------------------------------------------------------------------------------
  // Python's order on strings
  // ------------------------------------------------------------------------------------

  predicate Leq(a: string, b: string) {
    a == "" || (b != "" && (a[0] < b[0] || (a[0] == b[0] && Leq(a[1..], b[1..]))))
  }

  lemma {:induction false} LeqTotal(a: string, b: string)
    ensures Leq(a, b) || Leq(b, a)
    ensures Leq(a, b) && Leq(b, a) ==> a == b
  {
    if a != "" && b != "" {
      LeqTotal(a[1..], b[1..]);
      assert a == [a[0]] + a[1..] && b == [b[0]] + b[1..];
    }
  }

  lemma {:induction false} LeqTransitive(a: string, b: string, c: string)
    requires Leq(a, b) && Leq(b, c)
    ensures Leq(a, c)
  {
    if a != "" && a[0] == b[0] && b[0] == c[0] { LeqTransitive(a[1..], b[1..], c[1..]); }
  }

  /** The first difference decides, and a prefix comes first. */
  lemma {:induction false} LeqMeans(p: string, a: char, s: string, b: char, t: string)
    ensures Leq(p, p + t)
    ensures a < b ==> Leq(p + ([a] + s), p + ([b] + t)) && !Leq(p + ([b] + t), p + ([a] + s))
  {
    if p == "" {
      assert p + ([a] + s) == [a] + s && p + ([b] + t) == [b] + t && p + t == t;
    } else {
      LeqMeans(p[1..], a, s, b, t);
      assert (p + t)[1..] == p[1..] + t;
      assert (p + ([a] + s))[1..] == p[1..] + ([a] + s) && (p + ([b] + t))[1..] == p[1..] + ([b] + t);
    }
  }

  // ------------------------------------------------------------------------------------
  // sorted(set(lines))
  // ------------------------------------------------------------------------------------

  function InsertNew(x: string, s: seq<string>): seq<string> {
    if s == [] then [x]
    else if x == s[0] then s
    else if Leq(x, s[0]) then [x] + s
    else [s[0]] + InsertNew(x, s[1..])
  }

  function SortUnique(lines: seq<string>): seq<string> {
    if lines == [] then [] else InsertNew(lines[0], SortUnique(lines[1..]))
  }

  ghost predicate Ascending(s: seq<string>) {
    forall i, j :: 0 <= i < j < |s| ==> Leq(s[i], s[j]) && s[i] != s[j]
  }

  lemma {:induction false} InsertNewKeeps(x: string, s: seq<string>)
    requires Ascending(s)
    ensures Ascending(InsertNew(x, s))
    ensures forall y :: y in InsertNew(x, s) <==> y == x || y in s
  {
    if s != [] && x != s[0] {
      LeqTotal(x, s[0]);
      if Leq(x, s[0]) {
        forall j | 0 <= j < |s| ensures Leq(x, s[j]) && x != s[j] {
          if j > 0 {
            LeqTransitive(x, s[0], s[j]);
            LeqTotal(s[0], s[j]);
          }
        }
      } else {
        InsertNewKeeps(x, s[1..]);
        forall y | y in InsertNew(x, s[1..]) ensures Leq(s[0], y) && s[0] != y {}
        assert s == [s[0]] + s[1..];
      }
    }
  }

  lemma {:induction false} SortUniqueSorts(lines: seq<string>)
    ensures Ascending(SortUnique(lines))
    ensures forall y :: y in SortUnique(lines) <==> y in lines
  {
    if lines != [] {
      SortUniqueSorts(lines[1..]);
      InsertNewKeeps(lines[0], SortUnique(lines[1..]));
    }
  }

  lemma {:induction false} AscendingUnique(s: seq<string>, t: seq<string>)
    requires Ascending(s) && Ascending(t) && forall y :: y in s <==> y in t
    ensures s == t
  {
    if s != [] { assert s[0] in t; }
    if t != [] { assert t[0] in s; }
    if s != [] && t != [] {
      assert s[0] in t && t[0] in s;
      LeqTotal(s[0], t[0]);
      forall y ensures y in s[1..] <==> y in t[1..] {
        assert y in s[1..] <==> y in s && y != s[0];
        assert y in t[1..] <==> y in t && y != t[0];
      }
      AscendingUnique(s[1..], t[1..]);
      assert s == [s[0]] + s[1..] && t == [t[0]] + t[1..];
    }
  }

  // ------------------------------------------------------------------------------------
  // The text that the script writes
  // ------------------------------------------------------------------------------------

  datatype Entry = Entry(kind: nat, text: string)

  /** match_line: the kind of an include and its cleaned-up line, or no include. */
  datatype Match = Other | Include(entry: Entry)

  predicate IsSpace(c: char) { c == ' ' || 9 <= c as int <= 13 }

  lemma WhiteSpace(c: char)
    ensures IsSpace(c) <==> c in [' ', '\t', '\n', '\U{B}', '\U{C}', '\r']
  {}

  predicate Blank(line: string) { forall i :: 0 <= i < |line| ==> IsSpace(line[i]) }

  /** block_order, with the ten kinds numbered as in includes_re. */
  const BLOCK_ORDER: seq<seq<nat>> := [[0], [1], [2], [3], [4], [5], [6, 7, 8, 9]]

  predicate Ordered(kind: nat, blocks: seq<seq<nat>>) {
    exists i :: 0 <= i < |blocks| && kind in blocks[i]
  }

  /** A cleaned-up line is matched as itself, blank lines are no includes, and every kind
      has its block. */
  ghost predicate Stable(m: string -> Match) {
    forall line :: m(line).Include? ==>
      && !Blank(line) && Ordered(m(line).entry.kind, BLOCK_ORDER)
      && Clean(m, m(line).entry)
  }

  ghost predicate Clean(m: string -> Match, e: Entry) {
    m(e.text) == Include(e) && !Blank(e.text) && Ordered(e.kind, BLOCK_ORDER)
  }

  function Texts(entries: seq<Entry>, kinds: seq<nat>): seq<string> {
    if entries == [] then []
    else (if entries[0].kind in kinds then [entries[0].text] else []) + Texts(entries[1..], kinds)
  }

  /** dump_includes: non-empty blocks in order, a blank line between two of them. */
  function Dump(entries: seq<Entry>, blocks: seq<seq<nat>>): seq<string> {
    if blocks == [] then [] else
    Glue(SortUnique(Texts(entries, blocks[0])), Dump(entries, blocks[1..]))
  }

  function Glue(a: seq<string>, b: seq<string>): seq<string> {
    if a == [] then b else if b == [] then a else a + [""] + b
  }

  /** What is written for the given lines while a run with the given entries is being read. */
  function Written(m: string -> Match, lines: seq<string>, run: seq<Entry>, reading: bool): seq<string> {
    if lines == [] then
      if reading then Dump(run, BLOCK_ORDER) else []
    else match m(lines[0])
      case Include(e) => Written(m, lines[1..], run + [e], true)
      case Other =>
        if reading && Blank(lines[0]) then Written(m, lines[1..], run, true)
        else if reading then Dump(run, BLOCK_ORDER) + ["", lines[0]] + Written(m, lines[1..], [], false)
        else [lines[0]] + Written(m, lines[1..], [], false)
  }

  // ------------------------------------------------------------------------------------
  // Reading a written run again
  // ------------------------------------------------------------------------------------

  ghost predicate SameEntries(a: seq<Entry>, b: seq<Entry>) { forall e :: e in a <==> e in b }

  lemma {:induction false} TextsOf(entries: seq<Entry>, kinds: seq<nat>)
    ensures forall t :: t in Texts(entries, kinds) <==>
              exists i :: 0 <= i < |entries| && entries[i].text == t && entries[i].kind in kinds
  {
    if entries != [] {
      TextsOf(entries[1..], kinds);
      forall t ensures t in Texts(entries, kinds) <==>
        exists i :: 0 <= i < |entries| && entries[i].text == t && entries[i].kind in kinds
      {
        if i :| 0 <= i < |entries| && entries[i].text == t && entries[i].kind in kinds {
          assert i > 0 ==> entries[1..][i - 1] == entries[i];
        }
        if i :| 0 <= i < |entries| - 1 && entries[1..][i].text == t && entries[1..][i].kind in kinds {
          assert entries[i + 1] == entries[1..][i];
        }
      }
    }
  }

  /** What is written for a run depends only on the set of its entries. */
  lemma {:induction false} DumpOfSet(a: seq<Entry>, b: seq<Entry>, blocks: seq<seq<nat>>)
    requires SameEntries(a, b)
    ensures Dump(a, blocks) == Dump(b, blocks)
  {
    if blocks != [] {
      var s, t := Texts(a, blocks[0]), Texts(b, blocks[0]);
      SameTexts(a, b, blocks[0]);
      SameTexts(b, a, blocks[0]);
      SortUniqueSorts(s);
      SortUniqueSorts(t);
      AscendingUnique(SortUnique(s), SortUnique(t));
      DumpOfSet(a, b, blocks[1..]);
    }
  }

  lemma SameTexts(a: seq<Entry>, b: seq<Entry>, kinds: seq<nat>)
    requires SameEntries(a, b)
    ensures forall t :: t in Texts(a, kinds) ==> t in Texts(b, kinds)
  {
    TextsOf(a, kinds);
    TextsOf(b, kinds);
    forall t | t in Texts(a, kinds) ensures t in Texts(b, kinds) {
      var i :| 0 <= i < |a| && a[i].text == t && a[i].kind in kinds;
      assert a[i] in b;
      var j :| 0 <= j < |b| && b[j] == a[i];
      assert b[j].text == t;
    }
  }

  /** The includes among the lines, cleaned up. */
  function Found(m: string -> Match, lines: seq<string>): seq<Entry> {
    if lines == [] then []
    else (if m(lines[0]).Include? then [m(lines[0]).entry] else []) + Found(m, lines[1..])
  }

  lemma {:induction false} FoundIn(m: string -> Match, lines: seq<string>)
    ensures forall e :: e in Found(m, lines) <==>
              exists i :: 0 <= i < |lines| && m(lines[i]) == Include(e)
  {
    if lines != [] {
      FoundIn(m, lines[1..]);
      forall e ensures e in Found(m, lines) <==> exists i :: 0 <= i < |lines| && m(lines[i]) == Include(e) {
        if i :| 0 <= i < |lines| && m(lines[i]) == Include(e) {
          assert i > 0 ==> lines[1..][i - 1] == lines[i];
        }
        if i :| 0 <= i < |lines| - 1 && m(lines[1..][i]) == Include(e) {
          assert lines[i + 1] == lines[1..][i];
        }
      }
    }
  }

  /** Lines that a run can consist of. */
  ghost predicate RunLines(m: string -> Match, lines: seq<string>) {
    forall i :: 0 <= i < |lines| ==> m(lines[i]).Include? || (m(lines[i]).Other? && Blank(lines[i]))
  }

  lemma {:induction false} ReadRun(m: string -> Match, lines: seq<string>, tail: seq<string>,
                                   run: seq<Entry>, reading: bool)
    requires RunLines(m, lines) && lines != [] && (reading || m(lines[0]).Include?)
    ensures Written(m, lines + tail, run, reading) == Written(m, tail, run + Found(m, lines), true)
    decreases |lines|
  {
    assert (lines + tail)[1..] == lines[1..] + tail;
    var next := if m(lines[0]).Include? then run + [m(lines[0]).entry] else run;
    assert next + Found(m, lines[1..]) == run + Found(m, lines);
    if |lines| > 1 {
      ReadRun(m, lines[1..], tail, next, true);
    } else {
      assert lines[1..] + tail == tail && next + [] == next;
    }
  }

  /** The line is the cleaned-up text of an entry of the run. */
  ghost predicate TextIn(t: string, run: seq<Entry>) { exists i :: 0 <= i < |run| && run[i].text == t }

  /** A written run holds exactly the entries it was written for, and starts with one. */
  lemma {:induction false} DumpHolds(run: seq<Entry>, blocks: seq<seq<nat>>)
    ensures forall t :: t in Dump(run, blocks) ==> t == "" || TextIn(t, run)
    ensures Dump(run, blocks) != [] ==> TextIn(Dump(run, blocks)[0], run)
    ensures forall i :: 0 <= i < |run| && Ordered(run[i].kind, blocks) ==> run[i].text in Dump(run, blocks)
  {
    if blocks != [] {
      var block, rest := SortUnique(Texts(run, blocks[0])), Dump(run, blocks[1..]);
      DumpHolds(run, blocks[1..]);
      SortUniqueSorts(Texts(run, blocks[0]));
      TextsOf(run, blocks[0]);
      assert forall t :: t in block ==> TextIn(t, run);
      assert block != [] ==> block[0] in block;
      forall i | 0 <= i < |run| && Ordered(run[i].kind, blocks) ensures run[i].text in Dump(run, blocks) {
        var k :| 0 <= k < |blocks| && run[i].kind in blocks[k];
        if k == 0 {
          assert run[i].text in block;
        } else {
          assert blocks[1..][k - 1] == blocks[k];
        }
      }
    }
  }

  lemma DumpReads(m: string -> Match, run: seq<Entry>)
    requires Stable(m) && m("") == Other && run != [] && forall e <- run :: Clean(m, e)
    ensures RunLines(m, Dump(run, BLOCK_ORDER)) && Dump(run, BLOCK_ORDER) != []
    ensures m(Dump(run, BLOCK_ORDER)[0]).Include?
    ensures SameEntries(Found(m, Dump(run, BLOCK_ORDER)), run)
  {
    hide Dump, Blank, Found, Ordered;
    var lines := Dump(run, BLOCK_ORDER);
    DumpHolds(run, BLOCK_ORDER);
    FoundIn(m, lines);
    assert run[0] in run && run[0].text in lines;
    forall t | TextIn(t, run) ensures m(t).Include? && m(t).entry in run && m(t).entry.text == t {
      var i :| 0 <= i < |run| && run[i].text == t;
      assert run[i] in run && Clean(m, run[i]);
    }
    EmptyIsBlank();
    forall e ensures e in Found(m, lines) <==> e in run {
      if e in run {
        assert Clean(m, e) && e.text in lines;
        var k :| 0 <= k < |lines| && lines[k] == e.text;
      }
    }
  }

  lemma EmptyIsBlank()
    ensures Blank("")
  {
  }

  // ------------------------------------------------------------------------------------
  // Sorting twice changes nothing more
  // ------------------------------------------------------------------------------------

  lemma {:induction false} Idempotent(m: string -> Match, lines: seq<string>, run: seq<Entry>, reading: bool)
    requires Stable(m) && m("") == Other
    requires (reading <==> run != []) && forall e <- run :: Clean(m, e)
    ensures var once := Written(m, lines, run, reading); Written(m, once, [], false) == once
    decreases |lines|
  {
    var dump := Dump(run, BLOCK_ORDER);
    if reading { DumpReads(m, run); }
    if lines == [] {
      if reading {
        ReadRun(m, dump, [], [], false);
        assert dump + [] == dump && [] + Found(m, dump) == Found(m, dump);
        DumpOfSet(Found(m, dump), run, BLOCK_ORDER);
      }
    } else if m(lines[0]).Include? {
      Idempotent(m, lines[1..], run + [m(lines[0]).entry], true);
    } else if reading && Blank(lines[0]) {
      Idempotent(m, lines[1..], run, true);
    } else {
      var rest := Written(m, lines[1..], [], false);
      Idempotent(m, lines[1..], [], false);
      if reading {
        RunThenLine(m, dump, lines[0], rest);
        DumpOfSet(Found(m, dump), run, BLOCK_ORDER);
      } else {
        assert ([lines[0]] + rest)[1..] == rest;
      }
    }
  }

  lemma RunThenLine(m: string -> Match, dump: seq<string>, line: string, rest: seq<string>)
    requires RunLines(m, dump) && dump != [] && m(dump[0]).Include?
    requires m("") == Other && m(line) == Other && !Blank(line)
    ensures Written(m, dump + ["", line] + rest, [], false)
            == Dump(Found(m, dump), BLOCK_ORDER) + ["", line] + Written(m, rest, [], false)
  {
    var tail := ["", line] + rest;
    assert dump + ["", line] + rest == dump + tail && [] + Found(m, dump) == Found(m, dump);
    ReadRun(m, dump, tail, [], false);
    assert tail[1..] == [line] + rest && ([line] + rest)[1..] == rest;
  }

  /** The output of the script is a fixed point of the script. */
  lemma SortingTwice(m: string -> Match, lines: seq<string>)
    requires Stable(m)
    ensures Written(m, Written(m, lines, [], false), [], false) == Written(m, lines, [], false)
  {
    EmptyIsBlank();
    Idempotent(m, lines, [], false);
  }

  // ------------------------------------------------------------------------------------
  // Nothing is lost, invented or moved
  // ------------------------------------------------------------------------------------

  datatype Item = Line(line: string) | Run(entries: set<Entry>)

  /** The text up to sorting: non-blank lines in order, each run of includes as the set of its
      cleaned-up entries. */
  function Content(m: string -> Match, lines: seq<string>, run: set<Entry>): seq<Item> {
    if lines == [] then
      if run == {} then [] else [Run(run)]
    else match m(lines[0])
      case Include(e) => Content(m, lines[1..], run + {e})
      case Other =>
        if Blank(lines[0]) then Content(m, lines[1..], run)
        else (if run == {} then [] else [Run(run)]) + [Line(lines[0])] + Content(m, lines[1..], {})
  }

  ghost function Elements(run: seq<Entry>): set<Entry> { set e | e in run }

  lemma SameElements(a: seq<Entry>, b: seq<Entry>)
    requires SameEntries(a, b) && b != []
    ensures a != [] && Elements(a) == Elements(b) != {}
  {
    assert b[0] in a && b[0] in Elements(b);
  }

  lemma OneMoreElement(run: seq<Entry>, e: Entry)
    ensures Elements(run + [e]) == Elements(run) + {e}
  {
  }

  lemma NoElements()
    ensures Elements([]) == {}
  {
  }

  lemma {:induction false} ContentOfRun(m: string -> Match, lines: seq<string>, tail: seq<string>, run: set<Entry>)
    requires RunLines(m, lines)
    ensures Content(m, lines + tail, run) == Content(m, tail, run + Elements(Found(m, lines)))
    decreases |lines|
  {
    if lines == [] {
      assert lines + tail == tail && run + Elements([]) == run;
    } else {
      assert (lines + tail)[1..] == lines[1..] + tail;
      var next := if m(lines[0]).Include? then run + {m(lines[0]).entry} else run;
      ContentOfRun(m, lines[1..], tail, next);
      assert next + Elements(Found(m, lines[1..])) == run + Elements(Found(m, lines));
    }
  }

  lemma ContentOfRunAndLine(m: string -> Match, dump: seq<string>, line: string, rest: seq<string>)
    requires RunLines(m, dump) && Found(m, dump) != []
    requires m("") == Other && m(line) == Other && !Blank(line)
    ensures Content(m, dump + ["", line] + rest, {})
            == [Run(Elements(Found(m, dump))), Line(line)] + Content(m, rest, {})
  {
    var tail := ["", line] + rest;
    ContentOfRun(m, dump, tail, {});
    assert dump + ["", line] + rest == dump + tail;
    assert tail[1..] == [line] + rest && ([line] + rest)[1..] == rest;
    assert Found(m, dump)[0] in Elements(Found(m, dump));
    assert {} + Elements(Found(m, dump)) == Elements(Found(m, dump));
  }

  lemma {:induction false} ContentKept(m: string -> Match, lines: seq<string>, run: seq<Entry>, reading: bool)
    requires Stable(m) && m("") == Other
    requires (reading <==> run != []) && forall e <- run :: Clean(m, e)
    ensures Content(m, Written(m, lines, run, reading), {}) == Content(m, lines, Elements(run))
    decreases |lines|
  {
    hide Dump, Found, RunLines, Elements, Ordered, Blank;
    var dump := Dump(run, BLOCK_ORDER);
    if reading {
      DumpReads(m, run);
      SameElements(Found(m, dump), run);
      assert dump + [] == dump && {} + Elements(run) == Elements(run);
    }
    NoElements();
    if lines == [] {
      if reading { ContentOfRun(m, dump, [], {}); }
    } else if m(lines[0]).Include? {
      ContentKept(m, lines[1..], run + [m(lines[0]).entry], true);
      OneMoreElement(run, m(lines[0]).entry);
    } else if reading && Blank(lines[0]) {
      ContentKept(m, lines[1..], run, true);
    } else {
      var rest := Written(m, lines[1..], [], false);
      ContentKept(m, lines[1..], [], false);
      if reading {
        ContentOfRunAndLine(m, dump, lines[0], rest);
      } else {
        assert ([lines[0]] + rest)[1..] == rest;
      }
    }
  }

  /** Sorting keeps every other line in order, and in each run exactly the set of includes. */
  lemma SortingKeepsContent(m: string -> Match, lines: seq<string>)
    requires Stable(m)
    ensures Content(m, Written(m, lines, [], false), {}) == Content(m, lines, {})
  {
    EmptyIsBlank();
    ContentKept(m, lines, [], false);
    assert Elements([]) == {};
  }

  // ------------------------------------------------------------------------------------
  // What a written run looks like
  // ------------------------------------------------------------------------------------

  /** The block of a line: main, python, c, stl, cc and m5header, numbered from zero, have one
      each, and the four kinds of swig share the last. */
  function BlockIndex(m: string -> Match, line: string): nat
    requires m(line).Include?
  {
    if m(line).entry.kind < 6 then m(line).entry.kind else 6
  }

  /** Lines i and j follow each other inside one block, or a blank line parts their blocks. */
  ghost predicate InTurn(m: string -> Match, lines: seq<string>, i: nat, j: nat)
    requires i < j < |lines| && m(lines[i]).Include? && m(lines[j]).Include?
  {
    if exists k :: i < k < j && lines[k] == ""
    then BlockIndex(m, lines[i]) < BlockIndex(m, lines[j])
    else BlockIndex(m, lines[i]) == BlockIndex(m, lines[j]) && Leq(lines[i], lines[j]) && lines[i] != lines[j]
  }

  /** Includes from block low on, block after block, with single blank lines between the blocks
      and nowhere else. */
  ghost predicate InBlocks(m: string -> Match, lines: seq<string>, low: nat) {
    && (forall i :: 0 <= i < |lines| && lines[i] == "" ==> 0 < i < |lines| - 1)
    && (forall i, j :: 0 <= i < |lines| && j == i + 1 < |lines| && lines[i] == "" ==> lines[j] != "")
    && (forall i :: 0 <= i < |lines| && lines[i] != "" ==> m(lines[i]).Include? && low <= BlockIndex(m, lines[i]))
    && (forall i, j :: 0 <= i < j < |lines| && lines[i] != "" && lines[j] != "" ==> InTurn(m, lines, i, j))
  }

  lemma BlockAlone(m: string -> Match, a: seq<string>, low: nat)
    requires Ascending(a) && forall t <- a :: t != "" && m(t).Include? && BlockIndex(m, t) == low
    ensures InBlocks(m, a, low)
  {
    forall i | 0 <= i < |a| ensures a[i] in a {}
  }

  lemma BehindBlock(m: string -> Match, a: seq<string>, rest: seq<string>, low: nat)
    requires InBlocks(m, a, low) && a != [] && forall t <- a :: t != "" && BlockIndex(m, t) == low
    requires InBlocks(m, rest, low + 1) && rest != []
    ensures InBlocks(m, a + [""] + rest, low)
  {
    hide Leq, BlockIndex;
    var lines, n := a + [""] + rest, |a| + 1;
    forall i | 0 <= i < |a| ensures lines[i] == a[i] && a[i] in a {}
    assert lines[|a|] == "" && forall i :: n <= i < |lines| ==> lines[i] == rest[i - n];
    forall i, j | 0 <= i < j < |lines| && lines[i] != "" && lines[j] != "" ensures InTurn(m, lines, i, j) {
      if j < |a| {
        assert InTurn(m, a, i, j);
      } else if i < |a| {
        assert lines[|a|] == "" && i < |a| < j;
      } else {
        InTurnShifted(m, lines, rest, n, i - n, j - n);
      }
    }
  }

  lemma InTurnShifted(m: string -> Match, lines: seq<string>, rest: seq<string>, n: nat, i: nat, j: nat)
    requires |lines| == n + |rest| && forall k :: n <= k < |lines| ==> lines[k] == rest[k - n]
    requires i < j < |rest| && m(rest[i]).Include? && m(rest[j]).Include? && InTurn(m, rest, i, j)
    ensures InTurn(m, lines, i + n, j + n)
  {
    if k :| i < k < j && rest[k] == "" { assert lines[k + n] == ""; }
    if k :| i + n < k < j + n && lines[k] == "" { assert rest[k - n] == ""; }
  }

  lemma OneBlock(m: string -> Match, run: seq<Entry>, b: nat)
    requires b < |BLOCK_ORDER| && forall e <- run :: Clean(m, e)
    ensures var a := SortUnique(Texts(run, BLOCK_ORDER[b]));
      Ascending(a) && forall t <- a :: t != "" && m(t).Include? && BlockIndex(m, t) == b
  {
    hide Texts, SortUnique, Blank, Ascending, Ordered;
    var texts := Texts(run, BLOCK_ORDER[b]);
    TextsOf(run, BLOCK_ORDER[b]);
    SortUniqueSorts(texts);
    EmptyIsBlank();
    forall t | t in SortUnique(texts) ensures t != "" && m(t).Include? && BlockIndex(m, t) == b {
      var i :| 0 <= i < |run| && run[i].text == t && run[i].kind in BLOCK_ORDER[b];
      assert run[i] in run && Clean(m, run[i]);
    }
  }

  lemma {:induction false} DumpInBlocks(m: string -> Match, run: seq<Entry>, b: nat)
    requires b <= |BLOCK_ORDER| && forall e <- run :: Clean(m, e)
    ensures InBlocks(m, Dump(run, BLOCK_ORDER[b..]), b)
    decreases |BLOCK_ORDER| - b
  {
    if b < |BLOCK_ORDER| {
      hide InBlocks, Texts, SortUnique, BlockIndex, Ascending, Clean, Glue;
      var a, rest := SortUnique(Texts(run, BLOCK_ORDER[b])), Dump(run, BLOCK_ORDER[b + 1..]);
      assert BLOCK_ORDER[b..][0] == BLOCK_ORDER[b] && BLOCK_ORDER[b..][1..] == BLOCK_ORDER[b + 1..];
      assert Dump(run, BLOCK_ORDER[b..]) == Glue(a, rest);
      DumpInBlocks(m, run, b + 1);
      OneBlock(m, run, b);
      GlueBlocks(m, a, rest, b);
    } else {
      assert BLOCK_ORDER[b..] == [];
    }
  }

  lemma GlueBlocks(m: string -> Match, a: seq<string>, rest: seq<string>, b: nat)
    requires Ascending(a) && forall t <- a :: t != "" && m(t).Include? && BlockIndex(m, t) == b
    requires InBlocks(m, rest, b + 1)
    ensures InBlocks(m, Glue(a, rest), b)
  {
    hide InTurn, Ascending, BlockIndex;
    BlockAlone(m, a, b);
    if a != [] && rest != [] { BehindBlock(m, a, rest, b); }
  }

  /** The blocks of a written run come in the order of the script, and each is sorted. */
  lemma RunInBlocks(m: string -> Match, lines: seq<string>)
    requires Stable(m)
    ensures InBlocks(m, Dump(Found(m, lines), BLOCK_ORDER), 0)
  {
    hide Dump, InBlocks, Found;
    FoundIn(m, lines);
    forall e | e in Found(m, lines) ensures Clean(m, e) {
      var i :| 0 <= i < |lines| && m(lines[i]) == Include(e);
    }
    DumpInBlocks(m, Found(m, lines), 0);
    assert BLOCK_ORDER[0..] == BLOCK_ORDER;
  }

  /** Text without includes is not touched. */
  lemma {:induction false} NoIncludes(m: string -> Match, lines: seq<string>, tail: seq<string>)
    requires forall t <- lines :: m(t).Other?
    ensures Written(m, lines + tail, [], false) == lines + Written(m, tail, [], false)
  {
    if lines == [] {
      assert lines + tail == tail;
    } else {
      assert (lines + tail)[1..] == lines[1..] + tail;
      NoIncludes(m, lines[1..], tail);
      assert lines == [lines[0]] + lines[1..];
    }
  }

  /** A run of includes with blank lines among them is written as its blocks, one blank line,
      and the text that follows. */
  lemma RunThenText(m: string -> Match, lines: seq<string>, other: string, tail: seq<string>)
    requires RunLines(m, lines) && lines != [] && m(lines[0]).Include? && m(other).Other? && !Blank(other)
    ensures Written(m, lines + [other] + tail, [], false)
         == Dump(Found(m, lines), BLOCK_ORDER) + ["", other] + Written(m, tail, [], false)
    ensures Written(m, lines, [], false) == Dump(Found(m, lines), BLOCK_ORDER)
  {
    hide Dump, Blank, Found;
    assert lines + [other] + tail == lines + ([other] + tail) && lines + [] == lines;
    ReadRun(m, lines, [other] + tail, [], false);
    ReadRun(m, lines, [], [], false);
    assert [] + Found(m, lines) == Found(m, lines) && ([other] + tail)[1..] == tail;
  }

  // ------------------------------------------------------------------------------------
  // The sorter
  // ------------------------------------------------------------------------------------

  lemma GlueAssociates(a: seq<string>, b: seq<string>, c: seq<string>)
    ensures Glue(Glue(a, b), c) == Glue(a, Glue(b, c))
  {
    if a != [] && b != [] && c != [] {
      assert (a + [""] + b) + [""] + c == a + [""] + (b + [""] + c);
    }
  }

  class Sorter {
    var includes: map<nat, seq<string>>

    ghost predicate Gathered(kinds: seq<nat>, t: string)
      reads this
    {
      exists k :: k in kinds && k in includes && t in includes[k]
    }

    /** The dictionary holds the entries of the run, kind by kind. */
    ghost predicate Holds(run: seq<Entry>)
      reads this
    {
      forall k, t :: k in includes && t in includes[k] <==> Entry(k, t) in run
    }

    constructor ()
      ensures Holds([])
    {
      includes := map[];
    }

    method Reset()
      modifies this
      ensures Holds([])
    {
      includes := map[];
    }

    method Add(e: Entry, ghost run: seq<Entry>)
      requires Holds(run)
      modifies this
      ensures Holds(run + [e])
    {
      includes := includes[e.kind := if e.kind in includes then includes[e.kind] + [e.text] else [e.text]];
      forall k, t ensures k in includes && t in includes[k] <==> Entry(k, t) in run + [e] {
        assert Entry(k, t) in run + [e] <==> Entry(k, t) in run || Entry(k, t) == e;
      }
    }

    method DumpBlocks(kinds: seq<nat>) returns (lines: seq<string>)
      ensures Ascending(lines) && forall t :: t in lines <==> Gathered(kinds, t)
    {
      var all: seq<string> := [];
      for i := 0 to |kinds|
        invariant forall t :: t in all <==> Gathered(kinds[..i], t)
      {
        if kinds[i] in includes { all := all + includes[kinds[i]]; }
        assert kinds[..i + 1] == kinds[..i] + [kinds[i]];
      }
      assert kinds[..|kinds|] == kinds;
      SortUniqueSorts(all);
      lines := SortUnique(all);
    }

    lemma BlockOf(run: seq<Entry>, kinds: seq<nat>, lines: seq<string>)
      requires Holds(run) && Ascending(lines) && forall t :: t in lines <==> Gathered(kinds, t)
      ensures lines == SortUnique(Texts(run, kinds))
    {
      TextsOf(run, kinds);
      SortUniqueSorts(Texts(run, kinds));
      forall t ensures t in lines <==> t in Texts(run, kinds) {
        if i :| 0 <= i < |run| && run[i].text == t && run[i].kind in kinds {
          assert Entry(run[i].kind, t) in run;
        }
        if k :| k in kinds && k in includes && t in includes[k] {
          assert Entry(k, t) in run;
        }
      }
      AscendingUnique(lines, SortUnique(Texts(run, kinds)));
    }

    method DumpIncludes(ghost run: seq<Entry>) returns (lines: seq<string>)
      requires Holds(run)
      modifies this
      ensures Holds([]) && lines == Dump(run, BLOCK_ORDER)
    {
      lines := [];
      for i := 0 to |BLOCK_ORDER|
        invariant Holds(run) && Glue(lines, Dump(run, BLOCK_ORDER[i..])) == Dump(run, BLOCK_ORDER)
      {
        var block := DumpBlocks(BLOCK_ORDER[i]);
        BlockOf(run, BLOCK_ORDER[i], block);
        GlueAssociates(lines, block, Dump(run, BLOCK_ORDER[i + 1..]));
        if block != [] { lines := Glue(lines, block); }
      }
      Reset();
    }

    /** __call__: the lines it yields, a dumped run being several lines. */
    method Sort(m: string -> Match, lines: seq<string>) returns (output: seq<string>)
      modifies this
      ensures output == Written(m, lines, [], false)
    {
      hide Dump;
      Reset();
      output := [];
      var reading := false;
      ghost var run: seq<Entry> := [];
      for i := 0 to |lines|
        invariant Holds(run) && (reading <==> run != [])
        invariant output + Written(m, lines[i..], run, reading) == Written(m, lines, [], false)
      {
        ghost var rest := lines[i + 1..];
        assert lines[i..][1..] == rest;
        match m(lines[i]) {
          case Include(e) =>
            Add(e, run);
            run, reading := run + [e], true;
          case Other =>
            if reading && Blank(lines[i]) {
            } else if reading {
              var dump := DumpIncludes(run);
              ghost var was := output;
              output := output + dump + [""] + [lines[i]];
              assert output + Written(m, rest, [], false)
                  == was + (dump + ["", lines[i]] + Written(m, rest, [], false));
              run, reading := [], false;
            } else {
              ghost var was := output;
              output := output + [lines[i]];
              assert output + Written(m, rest, [], false) == was + ([lines[i]] + Written(m, rest, [], false));
            }
        }
      }
      if reading {
        var dump := DumpIncludes(run);
        output := output + dump;
      }
    }
  }
}
