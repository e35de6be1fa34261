/** The matchers of util/sort_includes.py: which lines are includes, of which kind, and how they
    are cleaned up; and what sorting cleaned-up lines means for directories and files. */
module IncludeMatcher {
  import opened SortIncludes

  datatype Option<T> = None | Some(value: T)

  // ------------------------------------------------------------------------------------
  // The regular expression of an include statement
  // ------------------------------------------------------------------------------------

  /** The groups for the file and for the rest of the line. */
  datatype Groups = NoMatch | Groups(path: string, extra: string)

  function SkipSpace(t: string): (rest: string)
    ensures forall c :: c in rest ==> c in t
  {
    if t != "" && IsSpace(t[0]) then SkipSpace(t[1..]) else t
  }

  /** Cut at the last c, as a greedy group before c does. */
  function CutAtLast(t: string, c: char): (g: Groups)
    ensures g.NoMatch? <==> c !in t
    ensures g.Groups? ==> t == g.path + [c] + g.extra && c !in g.extra
    ensures g.Groups? ==> forall x :: x in g.path || x in g.extra ==> x in t
  {
    if t == "" then NoMatch
    else if t[|t| - 1] == c then Groups(t[..|t| - 1], "")
    else match CutAtLast(t[..|t| - 1], c)
      case NoMatch => NoMatch
      case Groups(path, extra) => Groups(path, extra + [t[|t| - 1]])
  }

  /** A keyword, optional space, and a name between the delimiters. Lines hold no line breaks. */
  function Parse(keyword: string, l: char, r: char, line: string): (g: Groups)
    ensures g.Groups? ==> r !in g.extra && '\n' !in g.path && '\n' !in g.extra
  {
    if !(keyword <= line) || '\n' in line then NoMatch
    else Named(SkipSpace(line[|keyword|..]), l, r)
  }

  /** The part of the expression behind the space. */
  function Named(rest: string, l: char, r: char): (g: Groups)
    ensures g.Groups? ==> r !in g.extra && forall x :: x in g.path || x in g.extra ==> x in rest
  {
    if rest == "" || rest[0] != l then NoMatch else CutAtLast(rest[1..], r)
  }

  /** The cleaned-up statement. */
  function Text(keyword: string, l: char, path: string, r: char, extra: string): string {
    keyword + " " + [l] + path + [r] + extra
  }

  lemma CutUnique(path: string, c: char, extra: string)
    requires c !in extra
    ensures CutAtLast(path + [c] + extra, c) == Groups(path, extra)
  {
    hide CutAtLast;
    var t := path + [c] + extra;
    var g := CutAtLast(t, c);
    assert t[|path|] == c;
    CutNotLater(t, path, extra, g.path, g.extra, c);
    CutNotLater(t, g.path, g.extra, path, extra, c);
    assert t[..|path|] == path && t[|path| + 1..] == extra;
    assert t[..|g.path|] == g.path && t[|g.path| + 1..] == g.extra;
  }

  lemma CutNotLater(t: string, p: string, e: string, q: string, f: string, c: char)
    requires t == p + [c] + e == q + [c] + f && c !in e
    ensures |q| <= |p|
  {
    assert t[|q|] == c;
    assert forall k :: |p| < k < |t| ==> t[k] == e[k - |p| - 1];
  }

  /** A cleaned-up statement is matched by its own expression, with the same groups. */
  lemma ParseText(keyword: string, l: char, path: string, r: char, extra: string)
    requires r !in extra && !IsSpace(l)
    requires '\n' !in keyword && '\n' !in path && '\n' !in extra && r != '\n'
    ensures Parse(keyword, l, r, Text(keyword, l, path, r, extra)) == Groups(path, extra)
  {
    hide CutAtLast, SkipSpace;
    var name := [l] + path + [r] + extra;
    NameFollows(keyword, l, path, r, extra);
    assert name[1..] == path + [r] + extra;
    CutUnique(path, r, extra);
    OneLine(keyword, l, path, r, extra);
  }

  lemma {:induction false} SkipAll(sp: string, t: string)
    requires (forall i :: 0 <= i < |sp| ==> IsSpace(sp[i])) && t != "" && !IsSpace(t[0])
    ensures SkipSpace(sp + t) == t
  {
    if sp == "" {
      assert sp + t == t;
    } else {
      SkipAll(sp[1..], t);
      assert (sp + t)[1..] == sp[1..] + t;
    }
  }

  /** Any space, or none, may stand before the opening delimiter. */
  lemma ParseSpaced(keyword: string, sp: string, l: char, path: string, r: char, extra: string)
    requires r !in extra && !IsSpace(l) && r != '\n' && forall i :: 0 <= i < |sp| ==> IsSpace(sp[i]) && sp[i] != '\n'
    requires l != '\n' && '\n' !in keyword && '\n' !in path && '\n' !in extra
    ensures Parse(keyword, l, r, keyword + sp + ([l] + path + [r] + extra)) == Groups(path, extra)
  {
    hide CutAtLast, SkipSpace;
    var name := [l] + path + [r] + extra;
    var line := keyword + sp + name;
    assert line[|keyword|..] == sp + name && name[1..] == path + [r] + extra;
    SkipAll(sp, name);
    CutUnique(path, r, extra);
    assert '\n' !in name && '\n' !in line;
  }

  lemma NameFollows(keyword: string, l: char, path: string, r: char, extra: string)
    requires !IsSpace(l)
    ensures var t := Text(keyword, l, path, r, extra);
      keyword <= t && SkipSpace(t[|keyword|..]) == [l] + path + [r] + extra
  {
    var t, name := Text(keyword, l, path, r, extra), [l] + path + [r] + extra;
    assert t[|keyword|..] == " " + name && (" " + name)[1..] == name;
    assert SkipSpace(name) == name;
  }

  lemma OneLine(keyword: string, l: char, path: string, r: char, extra: string)
    requires '\n' !in keyword && '\n' !in path && '\n' !in extra && l != '\n' && r != '\n'
    ensures '\n' !in Text(keyword, l, path, r, extra)
  {
  }

  /** And by no expression with another opening delimiter or another keyword. */
  lemma ParseForeign(keyword: string, l: char, path: string, r: char, extra: string, key: string, l': char, r': char)
    requires !IsSpace(l)
    requires (key == keyword && l' != l) || exists i :: 0 <= i < |key| && i < |keyword| && key[i] != keyword[i]
    ensures Parse(key, l', r', Text(keyword, l, path, r, extra)) == NoMatch
  {
    var t := Text(keyword, l, path, r, extra);
    if i :| 0 <= i < |key| && i < |keyword| && key[i] != keyword[i] {
      assert t[i] == keyword[i];
    } else {
      NameFollows(keyword, l, path, r, extra);
    }
  }

  // ------------------------------------------------------------------------------------
  // The kinds of includes
  // ------------------------------------------------------------------------------------

  predicate EndsWith(t: string, suffix: string) {
    |t| >= |suffix| && t[|t| - |suffix|..] == suffix
  }

  predicate IsWord(t: string) {
    t != "" && forall i :: 0 <= i < |t| ==>
      'a' <= t[i] <= 'z' || 'A' <= t[i] <= 'Z' || '0' <= t[i] <= '9' || t[i] == '_'
  }

  lemma WordExamples()
    ensures IsWord("type_traits") && IsWord("Qt4")
    ensures !IsWord("") && !IsWord("sys/types") && !IsWord("a-b") && !IsWord("a.b")
  {
    assert "sys/types"[3] == '/' && "a-b"[1] == '-' && "a.b"[1] == '.';
  }

  predicate CxxHeader(t: string) {
    EndsWith(t, ".hh") || EndsWith(t, ".hxx") || EndsWith(t, ".hpp") || EndsWith(t, ".H")
  }

  /** The keys of cpp_c_headers without their .h. */
  const C_HEADERS := ["assert", "ctype", "errno", "float", "limits", "locale", "math", "setjmp", "signal",
                      "stdarg", "stddef", "stdio", "stdlib", "string", "time", "wchar", "wctype"]

  lemma CHeadersAreWords()
    ensures forall i :: 0 <= i < |C_HEADERS| ==> IsWord(C_HEADERS[i])
  {}

  /** cpp_c_headers: the STL header of a C header has a c in front and no .h. */
  function StlName(path: string): (name: Option<string>)
    ensures name.Some? ==> IsWord(name.value)
    ensures name.Some? ==> |name.value| > 0 && name.value[0] == 'c' && path == name.value[1..] + ".h"
  {
    CHeadersAreWords();
    if EndsWith(path, ".h") && path[..|path| - 2] in C_HEADERS then Some("c" + path[..|path| - 2]) else None
  }

  /** Exactly the paths of the table have an STL header. */
  lemma StlTable(base: string)
    ensures StlName(base + ".h") == if base in C_HEADERS then Some("c" + base) else None
    ensures !EndsWith(base, ".h") ==> StlName(base) == None
  {
    assert (base + ".h")[|base|..] == ".h" && (base + ".h")[..|base|] == base;
  }

  /** The primary header of a source file below src/. */
  function MainHeader(filename: string): Option<string> {
    if !("src/" <= filename) then None else
    match CutAtLast(filename[4..], '.')
    case NoMatch => None
    case Groups(base, ext) =>
      if ext == "c" then Some(base + ".h")
      else if ext == "cc" || ext == "cpp" then Some(base + ".hh")
      else None
  }

  const INCLUDE := "#include"
  const SWIG_IMPORT := "%import"
  const SWIG_INCLUDE := "%include"

  function Found(kind: nat, keyword: string, l: char, g: Groups, r: char): Match
    requires g.Groups?
  {
    Include(Entry(kind, Text(keyword, l, g.path, r, g.extra)))
  }

  /** match_line: the first matcher of includes_re that applies. */
  function MatchLine(main: Option<string>, cpp: bool, line: string): Match {
    var q, a := Parse(INCLUDE, '"', '"', line), Parse(INCLUDE, '<', '>', line);
    if q.Groups? && main == Some(q.path) then Found(0, INCLUDE, '"', q, '"')
    else if a.Groups? && a.path == "Python.h" then Found(1, INCLUDE, '<', a, '>')
    else if a.Groups? && EndsWith(a.path, ".h") then
      if cpp && StlName(a.path).Some? then Found(3, INCLUDE, '<', a.(path := StlName(a.path).value), '>')
      else Found(2, INCLUDE, '<', a, '>')
    else if a.Groups? && IsWord(a.path) then Found(3, INCLUDE, '<', a, '>')
    else if a.Groups? && CxxHeader(a.path) then Found(4, INCLUDE, '<', a, '>')
    else if q.Groups? && (EndsWith(q.path, ".h") || EndsWith(q.path, ".hh")) then Found(5, INCLUDE, '"', q, '"')
    else MatchSwig(line)
  }

  function MatchSwig(line: string): Match {
    var s0, s1 := Parse(SWIG_IMPORT, '<', '>', line), Parse(SWIG_INCLUDE, '<', '>', line);
    var s2, s3 := Parse(SWIG_IMPORT, '"', '"', line), Parse(SWIG_INCLUDE, '"', '"', line);
    if s0.Groups? then Found(6, SWIG_IMPORT, '<', s0, '>')
    else if s1.Groups? then Found(7, SWIG_INCLUDE, '<', s1, '>')
    else if s2.Groups? then Found(8, SWIG_IMPORT, '"', s2, '"')
    else if s3.Groups? then Found(9, SWIG_INCLUDE, '"', s3, '"')
    else Other
  }

  function Matcher(filename: string, cpp: bool): string -> Match {
    line => MatchLine(MainHeader(filename), cpp, line)
  }

  // ------------------------------------------------------------------------------------
  // The script recognises its own cleaned-up lines
  // ------------------------------------------------------------------------------------

  /** What the six expressions make of a cleaned-up statement of the first keyword. */
  lemma OwnInclude(l: char, path: string, r: char, extra: string)
    requires (l == '<' && r == '>') || (l == '"' && r == '"')
    requires r !in extra && '\n' !in path && '\n' !in extra
    ensures var t := Text(INCLUDE, l, path, r, extra);
      && Parse(INCLUDE, l, r, t) == Groups(path, extra)
      && (l == '<' ==> Parse(INCLUDE, '"', '"', t) == NoMatch)
      && (l == '"' ==> Parse(INCLUDE, '<', '>', t) == NoMatch)
  {
    hide Parse, Text;
    ParseText(INCLUDE, l, path, r, extra);
    if l == '<' {
      ParseForeign(INCLUDE, l, path, r, extra, INCLUDE, '"', '"');
    } else {
      ParseForeign(INCLUDE, l, path, r, extra, INCLUDE, '<', '>');
    }
  }

  lemma OwnSwig(keyword: string, l: char, path: string, r: char, extra: string)
    requires keyword == SWIG_IMPORT || keyword == SWIG_INCLUDE
    requires (l == '<' && r == '>') || (l == '"' && r == '"')
    requires r !in extra && '\n' !in path && '\n' !in extra
    ensures var t := Text(keyword, l, path, r, extra);
      && Parse(INCLUDE, '<', '>', t) == Parse(INCLUDE, '"', '"', t) == NoMatch
      && Parse(keyword, l, r, t) == Groups(path, extra)
      && (l == '<' ==> Parse(keyword, '"', '"', t) == NoMatch)
      && (l == '"' ==> Parse(keyword, '<', '>', t) == NoMatch)
      && (keyword == SWIG_INCLUDE ==> Parse(SWIG_IMPORT, '<', '>', t) == Parse(SWIG_IMPORT, '"', '"', t) == NoMatch)
      && (keyword == SWIG_IMPORT ==> Parse(SWIG_INCLUDE, '<', '>', t) == Parse(SWIG_INCLUDE, '"', '"', t) == NoMatch)
  {
    hide Parse, Text;
    ParseText(keyword, l, path, r, extra);
    var other := if keyword == SWIG_IMPORT then SWIG_INCLUDE else SWIG_IMPORT;
    assert INCLUDE[0] != keyword[0] && other[2] != keyword[2];
    ParseForeign(keyword, l, path, r, extra, INCLUDE, '<', '>');
    ParseForeign(keyword, l, path, r, extra, INCLUDE, '"', '"');
    ParseForeign(keyword, l, path, r, extra, other, '<', '>');
    ParseForeign(keyword, l, path, r, extra, other, '"', '"');
    ParseForeign(keyword, l, path, r, extra, keyword, if l == '<' then '"' else '<', if l == '<' then '"' else '>');
  }

  lemma WordIsPlain(t: string)
    requires IsWord(t)
    ensures '\n' !in t && t != "Python.h" && !EndsWith(t, ".h")
  {
    assert "Python.h"[6] == '.';
    assert |t| >= 2 ==> t[|t| - 2..][0] == t[|t| - 2] != '.';
  }

  lemma MatchedAgain(main: Option<string>, cpp: bool, line: string)
    requires MatchLine(main, cpp, line).Include?
    ensures MatchLine(main, cpp, MatchLine(main, cpp, line).entry.text) == MatchLine(main, cpp, line)
  {
    hide Parse, Text, EndsWith, IsWord, CxxHeader, StlName;
    var q, a := Parse(INCLUDE, '"', '"', line), Parse(INCLUDE, '<', '>', line);
    if q.Groups? && main == Some(q.path) {
      OwnInclude('"', q.path, '"', q.extra);
    } else if a.Groups? && EndsWith(a.path, ".h") && a.path != "Python.h" && cpp && StlName(a.path).Some? {
      WordIsPlain(StlName(a.path).value);
      OwnInclude('<', StlName(a.path).value, '>', a.extra);
    } else if a.Groups? && (a.path == "Python.h" || EndsWith(a.path, ".h") || IsWord(a.path) || CxxHeader(a.path)) {
      OwnInclude('<', a.path, '>', a.extra);
    } else if q.Groups? && (EndsWith(q.path, ".h") || EndsWith(q.path, ".hh")) {
      OwnInclude('"', q.path, '"', q.extra);
    } else {
      SwigAgain(line);
    }
  }

  lemma SwigAgain(line: string)
    requires MatchSwig(line).Include?
    ensures var t := MatchSwig(line).entry.text;
      && MatchSwig(t) == MatchSwig(line)
      && Parse(INCLUDE, '<', '>', t) == Parse(INCLUDE, '"', '"', t) == NoMatch
  {
    hide Parse, Text;
    var s0, s1 := Parse(SWIG_IMPORT, '<', '>', line), Parse(SWIG_INCLUDE, '<', '>', line);
    var s2, s3 := Parse(SWIG_IMPORT, '"', '"', line), Parse(SWIG_INCLUDE, '"', '"', line);
    if s0.Groups? { OwnSwig(SWIG_IMPORT, '<', s0.path, '>', s0.extra); }
    else if s1.Groups? { OwnSwig(SWIG_INCLUDE, '<', s1.path, '>', s1.extra); }
    else if s2.Groups? { OwnSwig(SWIG_IMPORT, '"', s2.path, '"', s2.extra); }
    else { OwnSwig(SWIG_INCLUDE, '"', s3.path, '"', s3.extra); }
  }

  /** The hypothesis of the sorting theorems holds for the expressions of the script. */
  lemma MatcherStable(filename: string, cpp: bool)
    ensures Stable(Matcher(filename, cpp))
  {
    hide MatchLine;
    var m := Matcher(filename, cpp);
    forall line | m(line).Include?
      ensures !Blank(line) && Ordered(m(line).entry.kind, BLOCK_ORDER) && Clean(m, m(line).entry)
    {
      KindOrdered(MainHeader(filename), cpp, line);
      MatchedAgain(MainHeader(filename), cpp, line);
      KindOrdered(MainHeader(filename), cpp, m(line).entry.text);
    }
  }

  lemma KindOrdered(main: Option<string>, cpp: bool, line: string)
    requires MatchLine(main, cpp, line).Include?
    ensures !Blank(line) && Ordered(MatchLine(main, cpp, line).entry.kind, BLOCK_ORDER)
  {
    hide Text, EndsWith, IsWord, CxxHeader, StlName, SkipSpace, Named;
    var kind := MatchLine(main, cpp, line).entry.kind;
    assert line != "" && !IsSpace(line[0]);
    assert kind in BLOCK_ORDER[if kind < 6 then kind else 6];
  }

  /** Sorting the includes of a file twice changes nothing more, and sorting keeps its content. */
  lemma ScriptSortsOnce(filename: string, cpp: bool, lines: seq<string>)
    ensures var m := Matcher(filename, cpp); var once := Written(m, lines, [], false);
      Written(m, once, [], false) == once && Content(m, once, {}) == Content(m, lines, {})
  {
    hide Stable, Matcher;
    var m := Matcher(filename, cpp);
    MatcherStable(filename, cpp);
    SortingTwice(m, lines);
    SortingKeepsContent(m, lines);
  }

  /** The runs that the script writes come in its blocks. */
  lemma ScriptInBlocks(filename: string, cpp: bool, lines: seq<string>)
    ensures var m := Matcher(filename, cpp); InBlocks(m, Dump(SortIncludes.Found(m, lines), BLOCK_ORDER), 0)
  {
    hide Stable, Matcher;
    MatcherStable(filename, cpp);
    RunInBlocks(Matcher(filename, cpp), lines);
  }

  // ------------------------------------------------------------------------------------
  // Which include is of which kind
  // ------------------------------------------------------------------------------------

  lemma Suffix(base: string, suffix: string)
    ensures EndsWith(base + suffix, suffix)
  {
    assert (base + suffix)[|base|..] == suffix;
  }

  /** A dot in a name makes it no word, and its last characters tell the header it is. */
  lemma OneSuffix(base: string)
    ensures EndsWith(base + ".h", ".h") && !IsWord(base + ".h")
    ensures forall x | x in {".hh", ".hxx", ".hpp", ".H"} ::
      !EndsWith(base + x, ".h") && !IsWord(base + x) && CxxHeader(base + x)
  {
    Suffix(base, ".h"); Suffix(base, ".hh"); Suffix(base, ".hxx"); Suffix(base, ".hpp"); Suffix(base, ".H");
    assert (base + ".h")[|base|] == '.';
    forall x | x in {".hh", ".hxx", ".hpp", ".H"}
      ensures !EndsWith(base + x, ".h") && !IsWord(base + x) && CxxHeader(base + x)
    {
      var t := base + x;
      assert t[|base|] == '.' && (t[|t| - 2..][0] == t[|t| - 2]) && (t[|t| - 2..][1] == t[|t| - 1]);
    }
  }

  /** Headers in angle brackets, whatever the file: the header of Python is a block of its own,
      C headers end in .h and may be STL headers in C++, STL headers are words, and C++ headers
      end in .hh, .hxx, .hpp or .H. */
  lemma AngleKinds(main: Option<string>, cpp: bool, base: string, extra: string)
    requires '\n' !in base && '\n' !in extra && '>' !in extra
    ensures var t := Text(INCLUDE, '<', "Python.h", '>', extra); MatchLine(main, cpp, t) == Include(Entry(1, t))
    ensures IsWord(base) ==>
      var t := Text(INCLUDE, '<', base, '>', extra); MatchLine(main, cpp, t) == Include(Entry(3, t))
    ensures forall x | x in {".hh", ".hxx", ".hpp", ".H"} ::
      var t := Text(INCLUDE, '<', base + x, '>', extra); MatchLine(main, cpp, t) == Include(Entry(4, t))
    ensures base != "Python" ==>
      var t := Text(INCLUDE, '<', base + ".h", '>', extra);
      match StlName(base + ".h")
      case Some(name) =>
        MatchLine(main, cpp, t) == Include(if cpp then Entry(3, Text(INCLUDE, '<', name, '>', extra)) else Entry(2, t))
      case None => MatchLine(main, cpp, t) == Include(Entry(2, t))
  {
    hide Parse, Text, EndsWith, IsWord, CxxHeader, StlName;
    OneSuffix(base);
    OwnInclude('<', "Python.h", '>', extra);
    OwnInclude('<', base, '>', extra);
    OwnInclude('<', base + ".h", '>', extra);
    if IsWord(base) { WordIsPlain(base); }
    assert "Python.h"[..6] == "Python" && (base + ".h")[..|base|] == base;
    forall x | x in {".hh", ".hxx", ".hpp", ".H"}
      ensures MatchLine(main, cpp, Text(INCLUDE, '<', base + x, '>', extra))
           == Include(Entry(4, Text(INCLUDE, '<', base + x, '>', extra)))
    {
      OneSuffix("Python");
      assert "Python" + ".h" == "Python.h";
      OwnInclude('<', base + x, '>', extra);
    }
  }

  /** Headers in quotes: the header of the source file itself is a block of its own, and the
      others end in .h or .hh. */
  lemma QuoteKinds(main: Option<string>, cpp: bool, base: string, extra: string)
    requires '\n' !in base && '\n' !in extra && '"' !in extra
    ensures main == Some(base) ==>
      var t := Text(INCLUDE, '"', base, '"', extra); MatchLine(main, cpp, t) == Include(Entry(0, t))
    ensures forall x | x in {".h", ".hh"} && main != Some(base + x) ::
      var t := Text(INCLUDE, '"', base + x, '"', extra); MatchLine(main, cpp, t) == Include(Entry(5, t))
  {
    hide Parse, Text, EndsWith, IsWord, CxxHeader, StlName;
    OwnInclude('"', base, '"', extra);
    forall x | x in {".h", ".hh"} && main != Some(base + x)
      ensures MatchLine(main, cpp, Text(INCLUDE, '"', base + x, '"', extra))
           == Include(Entry(5, Text(INCLUDE, '"', base + x, '"', extra)))
    {
      Suffix(base, x);
      OwnInclude('"', base + x, '"', extra);
    }
  }

  /** Other names are no includes: in angle brackets one that ends in .cc, say, and in quotes any
      that does not end in an h and is not the primary header. */
  lemma NoKind(main: Option<string>, cpp: bool, base: string, c: char, extra: string)
    requires '\n' !in base && '\n' !in extra && c != '\n'
    ensures '>' !in extra ==> MatchLine(main, cpp, Text(INCLUDE, '<', base + ".cc", '>', extra)) == Other
    ensures '"' !in extra && c != 'h' && main != Some(base + [c]) ==>
      MatchLine(main, cpp, Text(INCLUDE, '"', base + [c], '"', extra)) == Other
  {
    hide Parse, Text, StlName, MatchSwig, EndsWith, IsWord, CxxHeader;
    if '>' !in extra {
      OwnInclude('<', base + ".cc", '>', extra);
      NotSwig('<', base + ".cc", '>', extra);
      NotHeader(base);
    }
    if '"' !in extra && c != 'h' {
      OwnInclude('"', base + [c], '"', extra);
      NotSwig('"', base + [c], '"', extra);
      NotEnding(base, c, ".h");
      NotEnding(base, c, ".hh");
    }
  }

  lemma NotEnding(base: string, c: char, suffix: string)
    requires suffix != "" && suffix[|suffix| - 1] != c
    ensures !EndsWith(base + [c], suffix)
  {
    var t := base + [c];
    if |suffix| <= |t| { assert t[|t| - |suffix|..][|suffix| - 1] == c; }
  }

  lemma NotHeader(base: string)
    ensures var path := base + ".cc"; path != "Python.h" && !EndsWith(path, ".h") && !IsWord(path) && !CxxHeader(path)
  {
    hide EndsWith;
    var path := base + ".cc";
    assert path == (base + ".c") + ['c'] && path[|base|] == '.' && path[|path| - 1] == 'c';
    NotEnding(base + ".c", 'c', ".h");
    NotEnding(base + ".c", 'c', ".hh");
    NotEnding(base + ".c", 'c', ".hxx");
    NotEnding(base + ".c", 'c', ".hpp");
    NotEnding(base + ".c", 'c', ".H");
  }

  lemma NotSwig(l: char, path: string, r: char, extra: string)
    requires !IsSpace(l)
    ensures MatchSwig(Text(INCLUDE, l, path, r, extra)) == Other
  {
    hide Parse, Text;
    assert INCLUDE[0] != SWIG_IMPORT[0] && INCLUDE[0] != SWIG_INCLUDE[0];
    ParseForeign(INCLUDE, l, path, r, extra, SWIG_IMPORT, '<', '>');
    ParseForeign(INCLUDE, l, path, r, extra, SWIG_INCLUDE, '<', '>');
    ParseForeign(INCLUDE, l, path, r, extra, SWIG_IMPORT, '"', '"');
    ParseForeign(INCLUDE, l, path, r, extra, SWIG_INCLUDE, '"', '"');
  }

  /** The statements of swig. */
  lemma SwigKinds(main: Option<string>, cpp: bool, path: string, extra: string)
    requires '\n' !in path && '\n' !in extra && '>' !in extra && '"' !in extra
    ensures var t := Text(SWIG_IMPORT, '<', path, '>', extra); MatchLine(main, cpp, t) == Include(Entry(6, t))
    ensures var t := Text(SWIG_INCLUDE, '<', path, '>', extra); MatchLine(main, cpp, t) == Include(Entry(7, t))
    ensures var t := Text(SWIG_IMPORT, '"', path, '"', extra); MatchLine(main, cpp, t) == Include(Entry(8, t))
    ensures var t := Text(SWIG_INCLUDE, '"', path, '"', extra); MatchLine(main, cpp, t) == Include(Entry(9, t))
  {
    hide Parse, Text;
    OwnSwig(SWIG_IMPORT, '<', path, '>', extra);
    OwnSwig(SWIG_INCLUDE, '<', path, '>', extra);
    OwnSwig(SWIG_IMPORT, '"', path, '"', extra);
    OwnSwig(SWIG_INCLUDE, '"', path, '"', extra);
  }

  /** The primary header of a source file has its path below src/ and its own extension. */
  lemma MainHeaders(base: string)
    ensures MainHeader("src/" + base + ".cc") == Some(base + ".hh")
    ensures MainHeader("src/" + base + ".cpp") == Some(base + ".hh")
    ensures MainHeader("src/" + base + ".c") == Some(base + ".h")
    ensures MainHeader("src/" + base + ".hh") == None
    ensures !("src/" <= base) ==> MainHeader(base) == None
  {
    hide MainHeader;
    MainOf(base, "cc");
    MainOf(base, "cpp");
    MainOf(base, "c");
    MainOf(base, "hh");
    assert "." + "cc" == ".cc" && "." + "cpp" == ".cpp" && "." + "c" == ".c" && "." + "hh" == ".hh";
    if !("src/" <= base) { NotBelowSource(base); }
  }

  lemma MainOf(base: string, ext: string)
    requires '.' !in ext
    ensures MainHeader("src/" + base + ("." + ext))
         == if ext == "c" then Some(base + ".h") else if ext == "cc" || ext == "cpp" then Some(base + ".hh") else None
  {
    hide CutAtLast;
    var t := "src/" + base + ("." + ext);
    assert t[4..] == base + ['.'] + ext;
    CutUnique(base, '.', ext);
  }

  lemma NotBelowSource(filename: string)
    requires !("src/" <= filename)
    ensures MainHeader(filename) == None
  {}

  // ------------------------------------------------------------------------------------
  // Directories before files
  // ------------------------------------------------------------------------------------

  /** Cleaned-up statements with one keyword and one pair of delimiters, as in the blocks for
      which the script announces directories before files. */
  ghost predicate Statements(keyword: string, l: char, r: char, lines: seq<string>) {
    forall t <- lines :: Parse(keyword, l, r, t).Groups? && t == keyword + " " + [l] + Tail(keyword, l, r, t)
  }

  /** The text behind the opening delimiter. */
  function Tail(keyword: string, l: char, r: char, t: string): string {
    match Parse(keyword, l, r, t)
    case NoMatch => ""
    case Groups(path, extra) => path + [r] + extra
  }

  predicate IsDirectory(keyword: string, l: char, r: char, t: string) {
    match Parse(keyword, l, r, t)
    case NoMatch => false
    case Groups(path, _) => '/' in path
  }

  ghost predicate DirectoriesFirst(keyword: string, l: char, r: char, block: seq<string>) {
    forall i, j :: 0 <= i < j < |block| && IsDirectory(keyword, l, r, block[j]) ==> IsDirectory(keyword, l, r, block[i])
  }

  lemma {:induction false} CommonPrefix(p: string, a: string, b: string)
    ensures Leq(p + a, p + b) <==> Leq(a, b)
  {
    if p == "" {
      assert p + a == a && p + b == b;
    } else {
      CommonPrefix(p[1..], a, b);
      assert (p + a)[1..] == p[1..] + a && (p + b)[1..] == p[1..] + b;
    }
  }

  /** A sorted block has its directories first if and only if, among its lines, the text behind
      the delimiter of every directory is below that of every file. */
  lemma DirectoriesFirstIff(keyword: string, l: char, r: char, lines: seq<string>)
    requires Statements(keyword, l, r, lines)
    ensures DirectoriesFirst(keyword, l, r, SortUnique(lines)) <==>
            forall d, f | d in lines && f in lines &&
                          IsDirectory(keyword, l, r, d) && !IsDirectory(keyword, l, r, f) ::
              Leq(Tail(keyword, l, r, d), Tail(keyword, l, r, f))
  {
    hide IsDirectory, Tail, Parse, Leq, SortUnique;
    var block := SortUnique(lines);
    SortUniqueSorts(lines);
    forall d, f | d in lines && f in lines
      ensures Leq(d, f) <==> Leq(Tail(keyword, l, r, d), Tail(keyword, l, r, f))
    {
      CommonPrefix(keyword + " " + [l], Tail(keyword, l, r, d), Tail(keyword, l, r, f));
    }
    if DirectoriesFirst(keyword, l, r, block) {
      forall d, f | d in lines && f in lines && IsDirectory(keyword, l, r, d) && !IsDirectory(keyword, l, r, f)
        ensures Leq(d, f)
      {
        var j :| 0 <= j < |block| && block[j] == d;
        var i :| 0 <= i < |block| && block[i] == f;
        assert i != j && !(i < j);
      }
    } else {
      var i, j :| 0 <= i < j < |block| &&
        IsDirectory(keyword, l, r, block[j]) && !IsDirectory(keyword, l, r, block[i]);
      assert block[j] in lines && block[i] in lines;
      LeqTotal(block[i], block[j]);
      assert !Leq(block[j], block[i]);
    }
  }

  /** Two system headers of a C file, a directory and a file that is below it where they first
      differ: the file comes out first. */
  lemma LowerFileFirst(prefix: string, d: string, f: string)
    requires '/' in prefix + d && '/' !in prefix + f && d != "" && f != "" && f[0] < d[0]
    requires '\n' !in prefix + d && EndsWith(prefix + d, ".h") && prefix + d != "Python.h"
    requires '\n' !in prefix + f && EndsWith(prefix + f, ".h") && prefix + f != "Python.h"
    ensures var directory, file := "#include <" + (prefix + d) + ">", "#include <" + (prefix + f) + ">";
      && MatchLine(None, false, directory) == Include(Entry(2, directory))
      && MatchLine(None, false, file) == Include(Entry(2, file))
      && IsDirectory(INCLUDE, '<', '>', directory) && !IsDirectory(INCLUDE, '<', '>', file)
      && SortUnique([directory, file]) == [file, directory]
  {
    hide Parse, EndsWith, IsWord, CxxHeader, StlName, Leq;
    var directory, file := "#include <" + (prefix + d) + ">", "#include <" + (prefix + f) + ">";
    assert directory == Text(INCLUDE, '<', prefix + d, '>', "") && file == Text(INCLUDE, '<', prefix + f, '>', "");
    OwnInclude('<', prefix + d, '>', "");
    OwnInclude('<', prefix + f, '>', "");
    var p := "#include <" + prefix;
    assert directory == p + (d + ">") && file == p + (f + ">");
    CommonPrefix(p, d + ">", f + ">");
    FirstDiffers(d + ">", f + ">");
    assert [directory, file][1..] == [file] && [file][1..] == [];
    assert SortUnique([file]) == [file] && InsertNew(directory, [file][1..]) == [directory];
  }

  lemma FirstDiffers(a: string, b: string)
    requires a != "" && b != "" && b[0] < a[0]
    ensures !Leq(a, b)
  {}

  /** The smallest example among the usual headers. */
  lemma FileBeforeDirectory()
    ensures SortUnique(["#include <sys/types.h>", "#include <stdio.h>"])
            == ["#include <stdio.h>", "#include <sys/types.h>"]
  {
    hide *;
    SystemPaths();
    LowerFileFirst("s", "ys/types.h", "tdio.h");
    assert "#include <" + ("s" + "ys/types.h") + ">" == "#include <sys/types.h>";
    assert "#include <" + ("s" + "tdio.h") + ">" == "#include <stdio.h>";
  }

  lemma SystemPaths()
    ensures "s" + "ys/types.h" == "sys/types.h" && "s" + "tdio.h" == "stdio.h"
    ensures '/' in "sys/types.h" && '/' !in "stdio.h" && '\n' !in "sys/types.h" && '\n' !in "stdio.h"
    ensures EndsWith("sys/types.h", ".h") && EndsWith("stdio.h", ".h")
  {
    assert "sys/types.h"[3] == '/' && "sys/types.h"[9..] == ".h" && "stdio.h"[5..] == ".h";
  }
}
