/** The `string_builder` fixer (desloppify/lang/go/fixers/string_builder.py):
    `s += expr` flagged inside a `for` loop becomes `sb.WriteString(expr)`;
    the first time a loop is met a `strings.Builder` is declared above it
    and its value assigned back after the loop's closing line. */
module StringBuilder {
  import opened Wrappers
  import opened Text
  import Smells
  import opened FixerCommon
  import opened FixerApply

  // ---------------------------------------------------------------------
  // detect_string_concat
  // ---------------------------------------------------------------------

  /** `f"string_concat::{m['line']}"` */
  function EntryName(id: Smells.SmellId, line: nat): string
  {
    "string_concat::" + NatToString(line)
  }

  /** `detect_string_concat`: the samples of `string_concat_loop`. */
  function DetectStringConcat(entries: seq<Smells.Entry>): (r: seq<Entry>)
    ensures forall x | x in r :: exists e, m | e in entries && m in e.matches ::
      e.id == Smells.StringConcatLoop && x == Smells.FixEntry(m.file, m.line, "string_concat::" + NatToString(m.line), m.content)
  {
    Smells.Flatten(entries, {Smells.StringConcatLoop}, EntryName)
  }

  /** No sample of the smell is lost. */
  lemma DetectStringConcatComplete(entries: seq<Smells.Entry>, e: Smells.Entry, m: Smells.Match)
    requires e in entries && e.id == Smells.StringConcatLoop && m in e.matches
    ensures Smells.FixEntry(m.file, m.line, "string_concat::" + NatToString(m.line), m.content) in DetectStringConcat(entries)
  {
    Smells.FlattenComplete(entries, {Smells.StringConcatLoop}, EntryName, e, m);
  }

  // ---------------------------------------------------------------------
  // _CONCAT_RE
  // ---------------------------------------------------------------------

  /** The groups used from a match: the variable (group 2) and the
      stripped expression (group 3). Group 1 is the line's indent. */
  datatype Concat = Concat(name: string, expr: string)

  /** The end of a line's text: before a final `\n`, where `$` also
      matches. */
  function BodyEnd(s: string): nat
  {
    if s != [] && s[|s| - 1] == '\n' then |s| - 1 else |s|
  }

  /** `^(\s*)(\w+)\s*\+=\s*(.+)$`. Whitespace and word characters are
      disjoint, so groups 1 and 2 are the whole indent and the whole word.
      `.+` crosses no newline and must end where `$` matches, at the end
      of the text; after `\s*` gives back what `.+` needs, group 3 starts
      at the last index of the skipped whitespace that still leaves it a
      character, and its stripped value is the stripped rest of the line. */
  function ConcatMatch(s: string): (r: Option<Concat>)
    ensures r.Some? ==> |r.value.name| > 0
  {
    var w := IndentLen(s);
    var e := WordEnd(s, w);
    if e == w then None
    else
      var a := SkipSpace(s, e);
      if !At(s, a, "+=") then None
      else
        var q := a + 2;
        var l := BodyEnd(s);
        var j := if SkipSpace(s, q) < l then SkipSpace(s, q) else l - 1;
        if j < q || '\n' in s[j..l] then None
        else Some(Concat(s[w..e], Strip(s[q..l])))
  }

  /** `f"{indent}sb.WriteString({expr})\n"` */
  function WriteLine(line: string, m: Concat): string
  {
    Indent(line) + "sb.WriteString(" + m.expr + ")\n"
  }

  /** `f"{for_indent}var sb strings.Builder\n"` */
  function DeclLine(forLine: string): string
  {
    Indent(forLine) + "var sb strings.Builder\n"
  }

  /** `f"{for_indent}{var_name} = sb.String()\n"` */
  function AssignLine(forLine: string, name: string): string
  {
    Indent(forLine) + name + " = sb.String()\n"
  }

  /** A line whose word after the indent is followed by `.` is no
      concatenation. */
  lemma DottedShape(s: string, n: nat)
    requires n + 3 <= |s| && IndentLen(s) == n
    requires IsWordChar(s[n]) && IsWordChar(s[n + 1]) && s[n + 2] == '.'
    ensures ConcatMatch(s).None?
  {
    WordEndAt(s, n, n + 2);
    SkipSpaceUpTo(s, n + 2, n + 2);
  }

  /** A rewritten line keeps its indent and is not a concatenation, so a
      second pass leaves it alone. */
  lemma WriteLineFinal(line: string, m: Concat)
    ensures StartsWith(WriteLine(line, m), Indent(line)) && ConcatMatch(WriteLine(line, m)).None?
  {
    var w := Indent(line);
    var u := "sb.WriteString(" + m.expr + ")\n";
    var s := WriteLine(line, m);
    assert s == w + u;
    LStripSpec(line);
    assert u[0] == 's' && u[1] == 'b' && u[2] == '.';
    IndentOf(w, u);
    var n := |w|;
    assert forall k | 0 <= k < 3 :: s[n + k] == u[k];
    DottedShape(s, n);
  }

  /** `^(\s*)(\w+)\s*\+=\s*(.+)$` matches all of `s`, read off at given
      indices: group 1 is `s[..w]`, group 2 `s[w..e]`, `\s*` takes
      `s[e..a]`, `+=` sits at `a`, `\s*` takes `s[a + 2..j]`, group 3 is
      `s[j..l]`, and `$` holds at `l`: the end, or just before a final
      newline. */
  predicate ConcatShape(s: string, w: nat, e: nat, a: nat, j: nat, l: nat)
  {
    w < e <= a && a + 2 <= j < l <= |s|
    && AllSpace(s[..w]) && IsWord(s[w..e]) && AllSpace(s[e..a]) && s[a..a + 2] == "+="
    && AllSpace(s[a + 2..j]) && '\n' !in s[j..l] && (s[l..] == "" || s[l..] == "\n")
  }

  /** Every way the pattern can match is found: the name is group 2, the
      expression is group 3 stripped (the same whichever spaces `\s*` gave
      back to it), and the indent is group 1. */
  lemma ConcatMatchComplete(s: string, w: nat, e: nat, a: nat, j: nat, l: nat)
    requires ConcatShape(s, w, e, a, j, l)
    ensures ConcatMatch(s) == Some(Concat(s[w..e], Strip(s[a + 2..l])))
    ensures Strip(s[a + 2..l]) == Strip(s[j..l])
    ensures Indent(s) == s[..w]
  {
    ConcatHead(s, w, e, a);
    ConcatRhs(s, a + 2, j, l);
    ConcatMatchAt(s, w, e, a, l);
  }

  /** `^(\s*)(\w+)\s*\+=` over `[0, a + 2)`: the scan's stopping points. */
  lemma ConcatHead(s: string, w: nat, e: nat, a: nat)
    requires w < e <= a && a + 2 <= |s|
    requires AllSpace(s[..w]) && IsWord(s[w..e]) && AllSpace(s[e..a]) && s[a..a + 2] == "+="
    ensures IndentLen(s) == w && Indent(s) == s[..w] && WordEnd(s, w) == e && SkipSpace(s, e) == a
    ensures At(s, a, "+=")
  {
    assert forall k | 0 <= k < w :: IsSpace(s[..w][k]);
    assert IsWordChar(s[w..e][0]);
    SkipSpaceUpTo(s, 0, w);
    assert forall k | w <= k < e :: s[k] == s[w..e][k - w];
    assert forall k | e <= k < a :: s[k] == s[e..a][k - e];
    assert s[a] == s[a..a + 2][0] == '+';
    assert e < a ==> IsSpace(s[e..a][0]);
    WordEndAt(s, w, e);
    SkipSpaceUpTo(s, e, a);
  }

  /** `ConcatMatch` once the scan's stopping points are known. */
  lemma ConcatMatchAt(s: string, w: nat, e: nat, a: nat, l: nat)
    requires w < e <= a && a + 2 <= l <= |s|
    requires IndentLen(s) == w && WordEnd(s, w) == e && SkipSpace(s, e) == a && At(s, a, "+=") && BodyEnd(s) == l
    requires var k := if SkipSpace(s, a + 2) < l then SkipSpace(s, a + 2) else l - 1;
      a + 2 <= k && '\n' !in s[k..l]
    ensures ConcatMatch(s) == Some(Concat(s[w..e], Strip(s[a + 2..l])))
  {
  }

  /** `\s*(.+)$` from `q`, just past `+=`: the scan finds the end of the
      line's text and a group 3 without a newline. */
  lemma ConcatRhs(s: string, q: nat, j: nat, l: nat)
    requires q <= j < l <= |s| && AllSpace(s[q..j]) && '\n' !in s[j..l] && (s[l..] == "" || s[l..] == "\n")
    ensures BodyEnd(s) == l
    ensures var k := if SkipSpace(s, q) < l then SkipSpace(s, q) else l - 1;
      q <= k && '\n' !in s[k..l]
    ensures Strip(s[q..l]) == Strip(s[j..l])
  {
    assert s[l - 1] == s[j..l][l - 1 - j];
    if s[l..] == "\n" {
      assert s[|s| - 1] == s[l..][0];
    }
    assert forall k | q <= k < j :: s[k] == s[q..j][k - q];
    SkipSpaceThrough(s, q, j);
    var p := SkipSpace(s, q);
    if p < l {
      assert forall k | p <= k < l :: s[k] == s[j..l][k - j];
    } else {
      assert s[l - 1..l] == [s[l - 1]];
    }
    SliceJoin(s, q, j, l);
    StripSpacesFront(s[q..j], s[j..l]);
  }

  /** Every match has that shape, read off at the indices the scan stops
      at. */
  lemma ConcatMatchSound(s: string) returns (w: nat, e: nat, a: nat, j: nat, l: nat)
    requires ConcatMatch(s).Some?
    ensures ConcatShape(s, w, e, a, j, l)
    ensures ConcatMatch(s) == Some(Concat(s[w..e], Strip(s[a + 2..l])))
  {
    w, e, a, j, l := ConcatMatchFacts(s);
    ShapeOfScan(s, w, e, a, j, l);
  }

  /** What a match tells about the scan's stopping points. */
  lemma ConcatMatchFacts(s: string) returns (w: nat, e: nat, a: nat, j: nat, l: nat)
    requires ConcatMatch(s).Some?
    ensures w == IndentLen(s) && e == WordEnd(s, w) && a == SkipSpace(s, e) && l == BodyEnd(s)
    ensures j == (if SkipSpace(s, a + 2) < l then SkipSpace(s, a + 2) else l - 1)
    ensures w < e && At(s, a, "+=") && a + 2 <= j < l && '\n' !in s[j..l]
    ensures ConcatMatch(s) == Some(Concat(s[w..e], Strip(s[a + 2..l])))
  {
    w := IndentLen(s);
    e := WordEnd(s, w);
    a := SkipSpace(s, e);
    l := BodyEnd(s);
    j := if SkipSpace(s, a + 2) < l then SkipSpace(s, a + 2) else l - 1;
  }


  /** The scan's stopping points give the pattern's shape. */
  lemma ShapeOfScan(s: string, w: nat, e: nat, a: nat, j: nat, l: nat)
    requires w == IndentLen(s) && e == WordEnd(s, w) && a == SkipSpace(s, e) && l == BodyEnd(s)
    requires w < e && At(s, a, "+=") && a + 2 <= l
    requires j == (if SkipSpace(s, a + 2) < l then SkipSpace(s, a + 2) else l - 1)
    requires a + 2 <= j < l && '\n' !in s[j..l]
    ensures ConcatShape(s, w, e, a, j, l)
  {
    SpaceRun(s, 0, w);
    assert s[..w] == s[0..w];
    WordRun(s, w);
    SpaceRun(s, e, a);
    SpaceRun(s, a + 2, j);
    if l < |s| {
      assert s[l..] == [s[l]];
    }
  }

  // ---------------------------------------------------------------------
  // The end of a loop
  // ---------------------------------------------------------------------

  /** The brace scan from line `j`, the depth so far being `depth` and
      `found` telling whether a `{` was seen: the first line after which a
      `{` was seen and the depth is at most zero. */
  function LoopEndFrom(lines: seq<string>, j: nat, depth: int, found: bool): (r: Option<nat>)
    ensures r.Some? ==> j <= r.value < |lines|
    decreases |lines| - j
  {
    if j >= |lines| then None
    else
      var d := depth + Net(lines[j], '{', '}');
      var fo := found || '{' in lines[j];
      if fo && d <= 0 then Some(j) else LoopEndFrom(lines, j + 1, d, fo)
  }

  /** `loop_end`: the line that closes the loop, or `start` when the scan
      finds none. */
  function LoopEnd(lines: seq<string>, start: nat): (r: nat)
    requires start < |lines|
    ensures start <= r < |lines|
  {
    match LoopEndFrom(lines, start, 0, false)
    case None => start
    case Some(j) => j
  }

  /** The depth over lines `a..b`. */
  function Depth(lines: seq<string>, a: nat, b: nat): int
    requires a <= b <= |lines|
    decreases b - a
  {
    if a == b then 0 else Net(lines[a], '{', '}') + Depth(lines, a + 1, b)
  }

  /** A `{` on one of the lines `a..b`. */
  predicate Opened(lines: seq<string>, a: nat, b: nat)
    requires a <= b <= |lines|
  {
    exists k | a <= k < b :: '{' in lines[k]
  }

  /** The line after which the scan from `a` stops. */
  predicate Closes(lines: seq<string>, a: nat, e: nat)
    requires a <= e < |lines|
  {
    Opened(lines, a, e + 1) && Depth(lines, a, e + 1) <= 0
  }

  /** `e` is the first line that closes what the scan from `a` opened, or
      no line does. */
  predicate FirstClose(lines: seq<string>, a: nat, e: nat)
    requires a <= e < |lines|
  {
    (forall k | a <= k < e :: !Closes(lines, a, k))
    && (Closes(lines, a, e) || forall k | a <= k < |lines| :: !Closes(lines, a, k))
  }

  lemma {:induction false} DepthSnoc(lines: seq<string>, a: nat, b: nat)
    requires a <= b < |lines|
    ensures Depth(lines, a, b + 1) == Depth(lines, a, b) + Net(lines[b], '{', '}')
    decreases b - a
  {
    if a < b {
      DepthSnoc(lines, a + 1, b);
    }
  }

  /** The scan stops at the first line that closes what it opened, and
      finds nothing when no line does. */
  lemma {:induction false} LoopEndFromSpec(lines: seq<string>, a: nat, j: nat, depth: int, found: bool)
    requires a <= j <= |lines|
    requires depth == Depth(lines, a, j) && found == Opened(lines, a, j)
    requires forall k | a <= k < j :: !Closes(lines, a, k)
    ensures match LoopEndFrom(lines, j, depth, found)
      case Some(e) => Closes(lines, a, e) && forall k | a <= k < e :: !Closes(lines, a, k)
      case None => forall k | a <= k < |lines| :: !Closes(lines, a, k)
    decreases |lines| - j
  {
    if j < |lines| {
      DepthSnoc(lines, a, j);
      assert Opened(lines, a, j + 1) == (found || '{' in lines[j]) by {
        if '{' in lines[j] {
          assert Opened(lines, a, j + 1);
        }
        if Opened(lines, a, j + 1) {
          var k :| a <= k < j + 1 && '{' in lines[k];
          if k < j {
            assert Opened(lines, a, j);
          }
        }
        if found {
          var k :| a <= k < j && '{' in lines[k];
          assert Opened(lines, a, j + 1);
        }
      }
      var d := depth + Net(lines[j], '{', '}');
      var fo := found || '{' in lines[j];
      if !(fo && d <= 0) {
        LoopEndFromSpec(lines, a, j + 1, d, fo);
      }
    }
  }

  /** `LoopEnd` names the first closing line after `start`, and is `start`
      only when that is the first or there is none. */
  lemma LoopEndSpec(lines: seq<string>, start: nat)
    requires start < |lines|
    ensures FirstClose(lines, start, LoopEnd(lines, start))
  {
    assert !Opened(lines, start, start);
    LoopEndFromSpec(lines, start, start, 0, false);
  }

  // ---------------------------------------------------------------------
  // One entry
  // ---------------------------------------------------------------------

  /** The lines, the ids and `processed_loops` so far. */
  datatype State = State(lines: seq<string>, removed: seq<string>, loops: set<nat>)

  /** The lines after `lines.insert(for_idx, ...)` of the declaration. */
  function WithDecl(lines: seq<string>, f: nat): (r: seq<string>)
    requires f < |lines|
    ensures |r| == |lines| + 1
  {
    lines[..f] + [DeclLine(lines[f])] + lines[f..]
  }

  /** The insertions for a loop met the first time: the declaration at the
      loop's index, then the assignment after the line that closes it. */
  function AddBuilder(lines: seq<string>, f: nat, name: string): (r: seq<string>)
    requires f < |lines|
    ensures |r| == |lines| + 2
  {
    var withDecl := WithDecl(lines, f);
    var e := LoopEnd(withDecl, f + 1);
    withDecl[..e + 1] + [AssignLine(lines[f], name)] + withDecl[e + 1..]
  }

  /** The body of the entry loop for line number `lineNo`. The line numbers
      are those of the entries: lines inserted for earlier entries are not
      counted in. */
  function Step(st: State, lineNo: nat): State
  {
    if lineNo == 0 || lineNo > |st.lines| then st
    else
      var idx := lineNo - 1;
      match ConcatMatch(st.lines[idx])
      case None => st
      case Some(m) =>
        match EnclosingFor(st.lines, idx)
        case None => st
        case Some(f) =>
          EnclosingForAbove(st.lines, idx);
          var rewritten := st.lines[idx := WriteLine(st.lines[idx], m)];
          var removed := st.removed + ["string-builder::" + NatToString(lineNo)];
          if f in st.loops then State(rewritten, removed, st.loops)
          else State(AddBuilder(rewritten, f, m.name), removed, st.loops + {f})
  }

  /** Where the lines go for a loop met the first time: the declaration
      sits right above the loop line, which keeps its text, and the
      assignment right after the line the scan stopped at; that line is the
      first one that closes the loop, or the loop line itself when none
      does. */
  lemma AddBuilderShape(lines: seq<string>, f: nat, name: string)
    requires f < |lines|
    ensures var r := AddBuilder(lines, f, name);
      var withDecl := WithDecl(lines, f);
      var e := LoopEnd(withDecl, f + 1);
      && f + 1 <= e < |lines| + 1
      && (forall k | 0 <= k < f :: r[k] == lines[k])
      && r[f] == DeclLine(lines[f]) && StartsWith(r[f], Indent(lines[f]))
      && (forall k | f <= k < e :: r[k + 1] == lines[k])
      && r[e + 1] == AssignLine(lines[f], name)
      && (forall k | e <= k < |lines| :: r[k + 2] == lines[k])
      && FirstClose(withDecl, f + 1, e)
  {
    LoopEndSpec(WithDecl(lines, f), f + 1);
  }

  /** A flagged line of an already processed loop is rewritten in place:
      nothing is inserted. A new loop adds two lines and is remembered. */
  lemma StepCounts(st: State, lineNo: nat)
    ensures var st' := Step(st, lineNo);
      && |st'.lines| + 2 * |st.loops| == |st.lines| + 2 * |st'.loops|
      && st.loops <= st'.loops && |st'.loops| <= |st.loops| + 1
      && |st.removed| <= |st'.removed| <= |st.removed| + 1
      && |st'.loops| - |st.loops| <= |st'.removed| - |st.removed|
  {
  }

  // ---------------------------------------------------------------------
  // The transform
  // ---------------------------------------------------------------------

  /** The entry loop over line numbers in the order given. */
  function Built(lines: seq<string>, order: seq<nat>): State
  {
    if order == [] then State(lines, [], {})
    else Step(Built(lines, order[..|order| - 1]), order[|order| - 1])
  }

  /** `_transform` as a function: the entries by ascending line. */
  function Transform(lines: seq<string>, es: seq<Entry>): (seq<string>, seq<string>)
  {
    var st := Built(lines, SortBy(LineNums(es), false));
    (st.lines, st.removed)
  }

  /** Two lines per builder, none otherwise; at most one builder per id. */
  lemma {:induction false} BuiltCounts(lines: seq<string>, order: seq<nat>)
    ensures var st := Built(lines, order);
      |st.lines| == |lines| + 2 * |st.loops| && |st.loops| <= |st.removed| <= |order|
  {
    if order != [] {
      BuiltCounts(lines, order[..|order| - 1]);
      StepCounts(Built(lines, order[..|order| - 1]), order[|order| - 1]);
    }
  }

  /** The line count grows by two per loop given a builder. */
  lemma TransformLineCount(lines: seq<string>, es: seq<Entry>)
    ensures var (out, removed) := Transform(lines, es);
      |lines| <= |out| <= |lines| + 2 * |removed| && (|out| - |lines|) % 2 == 0 && |removed| <= |es|
  {
    var order := SortBy(LineNums(es), false);
    var st := Built(lines, order);
    assert Transform(lines, es) == (st.lines, st.removed);
    BuiltCounts(lines, order);
    SortBySpec(LineNums(es), false);
    assert |order| == |multiset(order)| == |multiset(LineNums(es))| == |es|;
  }

  /** Every id names the line of a rewrite made in `order`. */
  lemma {:induction false} BuiltIds(lines: seq<string>, order: seq<nat>)
    ensures forall x | x in Built(lines, order).removed :: exists n | n in order :: x == "string-builder::" + NatToString(n)
  {
    if order != [] {
      var prefix := order[..|order| - 1];
      BuiltIds(lines, prefix);
      StepIds(Built(lines, prefix), order[|order| - 1]);
      assert forall k | k in prefix :: k in order;
    }
  }

  /** Every id names the line of an entry of the file. */
  lemma TransformIds(lines: seq<string>, es: seq<Entry>)
    ensures forall x | x in Transform(lines, es).1 :: exists e | e in es :: x == "string-builder::" + NatToString(e.line)
  {
    var order := SortBy(LineNums(es), false);
    BuiltIds(lines, order);
    SortBySpec(LineNums(es), false);
    forall x | x in Transform(lines, es).1
      ensures exists e | e in es :: x == "string-builder::" + NatToString(e.line)
    {
      var n :| n in order && x == "string-builder::" + NatToString(n);
      assert n in multiset(LineNums(es));
      var i :| 0 <= i < |es| && LineNums(es)[i] == n;
      assert es[i] in es;
    }
  }

  /** The step for a flagged concatenation inside a loop. */
  lemma StepFound(st: State, lineNo: nat, m: Concat, f: nat)
    requires 1 <= lineNo <= |st.lines| && ConcatMatch(st.lines[lineNo - 1]) == Some(m)
    requires EnclosingFor(st.lines, lineNo - 1) == Some(f)
    ensures f < |st.lines|
    ensures var rewritten := st.lines[lineNo - 1 := WriteLine(st.lines[lineNo - 1], m)];
      var removed := st.removed + ["string-builder::" + NatToString(lineNo)];
      Step(st, lineNo) == if f in st.loops then State(rewritten, removed, st.loops)
                          else State(AddBuilder(rewritten, f, m.name), removed, st.loops + {f})
  {
    EnclosingForAbove(st.lines, lineNo - 1);
  }

  /** One step adds at most its own id. */
  lemma StepIds(st: State, lineNo: nat)
    ensures var r := Step(st, lineNo).removed;
      r == st.removed || r == st.removed + ["string-builder::" + NatToString(lineNo)]
  {
  }

  /** A flagged line in an already processed loop is only rewritten. */
  lemma StepInPlace(st: State, lineNo: nat, m: Concat, f: nat)
    requires 1 <= lineNo <= |st.lines| && ConcatMatch(st.lines[lineNo - 1]) == Some(m)
    requires EnclosingFor(st.lines, lineNo - 1) == Some(f) && f in st.loops
    ensures Step(st, lineNo).lines == st.lines[lineNo - 1 := WriteLine(st.lines[lineNo - 1], m)]
  {
  }

  // ---------------------------------------------------------------------
  // The methods
  // ---------------------------------------------------------------------

  /** The `for j in range(for_idx + 1, len(lines))` brace scan, character
      by character. */
  method FindLoopEnd(lines: seq<string>, start: nat) returns (loopEnd: nat)
    requires start < |lines|
    ensures loopEnd == LoopEnd(lines, start)
  {
    var braceDepth := 0;
    var foundOpen := false;
    loopEnd := start;
    for j := start to |lines|
      invariant LoopEndFrom(lines, j, braceDepth, foundOpen) == LoopEndFrom(lines, start, 0, false)
    {
      var line := lines[j];
      ghost var depth0, found0 := braceDepth, foundOpen;
      for c := 0 to |line|
        invariant braceDepth == depth0 + Net(line[..c], '{', '}')
        invariant foundOpen == (found0 || '{' in line[..c])
      {
        NetSnoc(line, c, '{', '}');
        assert line[..c + 1] == line[..c] + [line[c]];
        if line[c] == '{' {
          braceDepth := braceDepth + 1;
          foundOpen := true;
        } else if line[c] == '}' {
          braceDepth := braceDepth - 1;
        }
      }
      assert line[..|line|] == line;
      if foundOpen && braceDepth <= 0 {
        loopEnd := j;
        return;
      }
    }
  }

  /** The insertions for a loop met the first time, on the list. */
  method InsertBuilder(lines: seq<string>, f: nat, varName: string) returns (r: seq<string>)
    requires f < |lines|
    ensures r == AddBuilder(lines, f, varName)
  {
    var forIndent := Indent(lines[f]);
    r := lines[..f] + [forIndent + "var sb strings.Builder\n"] + lines[f..];
    var loopEnd := FindLoopEnd(r, f + 1);
    var assignLine := forIndent + varName + " = sb.String()\n";
    r := r[..loopEnd + 1] + [assignLine] + r[loopEnd + 1..];
  }

  /** The body of the entry loop for one entry. */
  method ApplyEntry(lines: seq<string>, removed: seq<string>, processedLoops: set<nat>, lineNo: nat)
    returns (lines': seq<string>, removed': seq<string>, processedLoops': set<nat>)
    ensures State(lines', removed', processedLoops') == Step(State(lines, removed, processedLoops), lineNo)
  {
    lines', removed', processedLoops' := lines, removed, processedLoops;
    if lineNo == 0 || lineNo > |lines| {
      return;
    }
    var idx := lineNo - 1;
    var m := ConcatMatch(lines[idx]);
    if m.None? {
      return;
    }
    var varName, expr := m.value.name, m.value.expr;
    var indent := Indent(lines[idx]);
    var forIdx := FindEnclosingFor(lines, idx);
    if forIdx.None? {
      return;
    }
    var f := forIdx.value;
    StepFound(State(lines, removed, processedLoops), lineNo, m.value, f);
    lines' := lines[idx := indent + "sb.WriteString(" + expr + ")\n"];
    removed' := removed + ["string-builder::" + NatToString(lineNo)];
    if f !in processedLoops {
      processedLoops' := processedLoops + {f};
      lines' := InsertBuilder(lines', f, varName);
    }
  }

  /** `_transform`: the entry loop on a list changed in place. */
  method BuildStrings(lines: seq<string>, es: seq<Entry>) returns (out: seq<string>, removed: seq<string>)
    ensures (out, removed) == Transform(lines, es)
  {
    var order := SortBy(LineNums(es), false);
    var cur := lines;
    removed := [];
    var processedLoops: set<nat> := {};
    for j := 0 to |order|
      invariant State(cur, removed, processedLoops) == Built(lines, order[..j])
    {
      assert order[..j + 1][..j] == order[..j];
      cur, removed, processedLoops := ApplyEntry(cur, removed, processedLoops, order[j]);
    }
    assert order[..|order|] == order;
    out := cur;
  }

  /** `fix_string_builder`: the shared file loop with this transform. */
  method FixStringBuilder(entries: seq<Entry>, dryRun: bool, files: map<string, string>, writeFails: set<string>)
    returns (results: seq<FixResult>, written: map<string, string>)
    ensures var groups := Groups(entries);
      var ps := SortedPaths(groups.Keys);
      results == Results(ps, groups, files, Transform) && written == Written(ps, groups, files, Transform, dryRun, writeFails)
  {
    results, written := ApplyFixer(entries, Transform, dryRun, files, writeFails);
  }
}
