/** The `regex_hoist` fixer (desloppify/lang/go/fixers/regex_hoist.py):
    a `regexp.Compile`/`MustCompile` assignment flagged inside a `for` loop
    is moved above the loop. */
module RegexHoist {
  import opened Wrappers
  import opened Text
  import Smells
  import opened FixerCommon
  import opened FixerApply

  // ---------------------------------------------------------------------
  // detect_regex_in_loop
  // ---------------------------------------------------------------------

  /** `f"regex_in_loop::{m['line']}"` */
  function EntryName(id: Smells.SmellId, line: nat): string
  {
    "regex_in_loop::" + NatToString(line)
  }

  /** `detect_regex_in_loop`: the samples of `regex_in_loop`. */
  function DetectRegexInLoop(entries: seq<Smells.Entry>): (r: seq<Entry>)
    ensures forall x | x in r :: exists e, m | e in entries && m in e.matches ::
      e.id == Smells.RegexInLoop && x == Smells.FixEntry(m.file, m.line, "regex_in_loop::" + NatToString(m.line), m.content)
  {
    Smells.Flatten(entries, {Smells.RegexInLoop}, EntryName)
  }

  /** No sample of the smell is lost. */
  lemma DetectRegexInLoopComplete(entries: seq<Smells.Entry>, e: Smells.Entry, m: Smells.Match)
    requires e in entries && e.id == Smells.RegexInLoop && m in e.matches
    ensures Smells.FixEntry(m.file, m.line, "regex_in_loop::" + NatToString(m.line), m.content) in DetectRegexInLoop(entries)
  {
    Smells.FlattenComplete(entries, {Smells.RegexInLoop}, EntryName, e, m);
  }

  // ---------------------------------------------------------------------
  // _REGEX_ASSIGN_RE
  // ---------------------------------------------------------------------

  /** The groups used from a match: the variable (group 2) and the call
      (group 3). */
  datatype Assign = Assign(name: string, call: string)

  /** `^(\s*)(\w+)\s*:?=\s*`: the index where the right-hand side starts, or
      -1. Whitespace and word characters are disjoint, so group 1 is the
      whole indentation and group 2 the whole word; an optional `:` must be
      followed by `=`. */
  function RhsStart(s: string): int
  {
    var w := IndentLen(s);
    var e := WordEnd(s, w);
    if e == w then -1
    else
      var a := SkipSpace(s, e);
      var b := if CharAt(s, a, ':') then a + 1 else a;
      if CharAt(s, b, '=') then SkipSpace(s, b + 1) else -1
  }

  /** `regexp\.(?:MustCompile|Compile)\s*\(` at `k`: the index of the
      opening parenthesis, or -1. */
  function CallOpen(s: string, k: nat): int
  {
    if !At(s, k, "regexp.") then -1
    else
      var n := if At(s, k + 7, "MustCompile") then k + 18 else if At(s, k + 7, "Compile") then k + 14 else -1;
      if n < 0 then -1
      else
        var o := Spaces0(s, n);
        if CharAt(s, o, '(') then o else -1
  }

  /** The whole pattern. `.*\)\s*$` must end at the last non-space
      character, since `\s*$` cannot cross anything else; that character
      must be a `)` after the opening one, and `.` crosses no newline. */
  function AssignMatch(s: string): (r: Option<Assign>)
    ensures r.Some? ==> |r.value.name| > 0 && r.value.name[0] != ' ' && |r.value.call| > 0
  {
    var k := RhsStart(s);
    if k < 0 then None
    else
      var o := CallOpen(s, k);
      var c := |RStrip(s)|;
      if o < 0 || c - 1 <= o || s[c - 1] != ')' || '\n' in s[o + 1..c - 1] then None
      else
        var w := IndentLen(s);
        WordEndSpec(s, w);
        Some(Assign(s[w..WordEnd(s, w)], s[k..c]))
  }

  /** A matched assignment is never an empty line. */
  lemma AssignNonEmpty(s: string)
    requires AssignMatch(s).Some?
    ensures s != ""
  {
  }

  /** `^(\s*)(\w+)\s*:?=\s*(regexp\.(?:MustCompile|Compile)\s*\(.*\))\s*$`
      matches all of `s`, read off at given indices: group 1 is `s[..w]`,
      group 2 `s[w..e]`, `\s*` takes `s[e..a]`, the optional `:` sits at `a`
      when `b == a + 1`, `=` at `b`, `\s*` takes `s[b + 1..k]`, group 3 is
      `s[k..c]` (`regexp.`, the name `fn`, spaces, `(` at `o`, a body without
      a newline, `)` at `c - 1`), and only whitespace follows. */
  predicate AssignShape(s: string, w: nat, e: nat, a: nat, b: nat, k: nat, fn: string, o: nat, c: nat)
  {
    w < e <= a <= b < k && k + 7 + |fn| <= o && o + 2 <= c <= |s|
    && AllSpace(s[..w]) && IsWord(s[w..e]) && AllSpace(s[e..a])
    && (b == a || (b == a + 1 && s[a] == ':')) && s[b] == '='
    && AllSpace(s[b + 1..k]) && s[k..k + 7] == "regexp."
    && (fn == "MustCompile" || fn == "Compile") && s[k + 7..k + 7 + |fn|] == fn
    && AllSpace(s[k + 7 + |fn|..o]) && s[o] == '(' && s[c - 1] == ')'
    && '\n' !in s[o + 1..c - 1] && AllSpace(s[c..])
  }

  /** Every way the pattern can match is found, with group 2 as the name,
      group 3 as the call, and group 1 as the indent. */
  lemma AssignMatchComplete(s: string, w: nat, e: nat, a: nat, b: nat, k: nat, fn: string, o: nat, c: nat)
    requires AssignShape(s, w, e, a, b, k, fn, o, c)
    ensures AssignMatch(s) == Some(Assign(s[w..e], s[k..c]))
    ensures Indent(s) == s[..w]
  {
    AssignHead(s, w, e, a, b, k);
    AssignCall(s, k, fn, o, c);
    AssignMatchAt(s, w, e, k, o, c);
  }

  /** `^(\s*)(\w+)\s*:?=\s*` stops where the shape says. */
  lemma AssignHead(s: string, w: nat, e: nat, a: nat, b: nat, k: nat)
    requires w < e <= a <= b < k < |s| && s[k] == 'r'
    requires AllSpace(s[..w]) && IsWord(s[w..e]) && AllSpace(s[e..a])
    requires (b == a || (b == a + 1 && s[a] == ':')) && s[b] == '=' && AllSpace(s[b + 1..k])
    ensures IndentLen(s) == w && Indent(s) == s[..w] && WordEnd(s, w) == e && RhsStart(s) == k
  {
    assert forall i | 0 <= i < w :: s[i] == s[..w][i];
    assert s[w] == s[w..e][0];
    SkipSpaceUpTo(s, 0, w);
    assert forall i | w <= i < e :: s[i] == s[w..e][i - w];
    assert forall i | e <= i < a :: s[i] == s[e..a][i - e];
    assert forall i | b + 1 <= i < k :: s[i] == s[b + 1..k][i - b - 1];
    WordEndAt(s, w, e);
    SkipSpaceUpTo(s, e, a);
    SkipSpaceUpTo(s, b + 1, k);
    RhsStartAt(s, w, e, a, b, k);
  }

  /** `RhsStart` from the stopping points of its scans. */
  lemma RhsStartAt(s: string, w: nat, e: nat, a: nat, b: nat, k: nat)
    requires w < e <= a <= b < k <= |s| && IndentLen(s) == w && WordEnd(s, w) == e
    requires SkipSpace(s, e) == a && (b == a || (b == a + 1 && s[a] == ':')) && s[b] == '='
    requires SkipSpace(s, b + 1) == k
    ensures RhsStart(s) == k
  {
  }

  /** Group 3: the call opens at `o` and the line's last non-space
      character is its closing `)`. */
  lemma AssignCall(s: string, k: nat, fn: string, o: nat, c: nat)
    requires k + 7 + |fn| <= o && o + 2 <= c <= |s|
    requires s[k..k + 7] == "regexp." && (fn == "MustCompile" || fn == "Compile") && s[k + 7..k + 7 + |fn|] == fn
    requires AllSpace(s[k + 7 + |fn|..o]) && s[o] == '(' && s[c - 1] == ')' && AllSpace(s[c..])
    ensures CallOpen(s, k) == o && |RStrip(s)| == c
  {
    CallOpenAt(s, k, fn, o);
    assert s == s[..c] + s[c..];
    RStripTail(s[..c], s[c..]);
  }

  /** `regexp\.(?:MustCompile|Compile)\s*\(` at `k` opens at `o`. */
  lemma CallOpenAt(s: string, k: nat, fn: string, o: nat)
    requires k + 7 + |fn| <= o < |s|
    requires s[k..k + 7] == "regexp." && (fn == "MustCompile" || fn == "Compile") && s[k + 7..k + 7 + |fn|] == fn
    requires AllSpace(s[k + 7 + |fn|..o]) && s[o] == '('
    ensures CallOpen(s, k) == o
  {
    var n := k + 7 + |fn|;
    assert forall i | n <= i < o :: s[i] == s[n..o][i - n];
    SkipSpaceUpTo(s, n, o);
    CallName(s, k, fn);
  }

  /** Which of the two names follows `regexp.`. */
  lemma CallName(s: string, k: nat, fn: string)
    requires k + 7 + |fn| <= |s| && s[k..k + 7] == "regexp."
    requires (fn == "MustCompile" || fn == "Compile") && s[k + 7..k + 7 + |fn|] == fn
    ensures At(s, k, "regexp.")
    ensures At(s, k + 7, "MustCompile") <==> fn == "MustCompile"
    ensures fn == "Compile" ==> At(s, k + 7, "Compile")
  {
    assert s[k + 7] == fn[0];
  }

  /** `AssignMatch` once the scan's stopping points are known. */
  lemma AssignMatchAt(s: string, w: nat, e: nat, k: nat, o: nat, c: nat)
    requires w < e && o + 2 <= c <= |s|
    requires IndentLen(s) == w && WordEnd(s, w) == e && RhsStart(s) == k
    requires CallOpen(s, k) == o && |RStrip(s)| == c && s[c - 1] == ')' && '\n' !in s[o + 1..c - 1]
    ensures AssignMatch(s) == Some(Assign(s[w..e], s[k..c]))
  {
  }

  /** Every match has that shape, read off at the indices the scan stops
      at. */
  lemma AssignMatchSound(s: string) returns (w: nat, e: nat, a: nat, b: nat, k: nat, fn: string, o: nat, c: nat)
    requires AssignMatch(s).Some?
    ensures AssignShape(s, w, e, a, b, k, fn, o, c)
    ensures AssignMatch(s) == Some(Assign(s[w..e], s[k..c]))
  {
    w, e, a, b, k, fn, o, c := AssignMatchFacts(s);
    AssignShapeOfScan(s, w, e, a, b, k, fn, o, c);
  }

  /** The scan's stopping points give the pattern's shape. */
  lemma AssignShapeOfScan(s: string, w: nat, e: nat, a: nat, b: nat, k: nat, fn: string, o: nat, c: nat)
    requires w == IndentLen(s) && w < e == WordEnd(s, w) && a == SkipSpace(s, e)
    requires b == (if CharAt(s, a, ':') then a + 1 else a) && CharAt(s, b, '=') && k == SkipSpace(s, b + 1)
    requires At(s, k, "regexp.") && fn == (if At(s, k + 7, "MustCompile") then "MustCompile" else "Compile")
    requires At(s, k + 7, fn) && o == SkipSpace(s, k + 7 + |fn|)
    requires CharAt(s, o, '(') && o + 2 <= c == |RStrip(s)| && s[c - 1] == ')' && '\n' !in s[o + 1..c - 1]
    ensures AssignShape(s, w, e, a, b, k, fn, o, c)
  {
    SpaceRun(s, 0, w);
    assert s[..w] == s[0..w];
    WordRun(s, w);
    SpaceRun(s, e, a);
    SpaceRun(s, b + 1, k);
    SpaceRun(s, k + 7 + |fn|, o);
    RStripSpec(s);
  }

  /** What a match tells about the scan's stopping points. */
  lemma AssignMatchFacts(s: string) returns (w: nat, e: nat, a: nat, b: nat, k: nat, fn: string, o: nat, c: nat)
    requires AssignMatch(s).Some?
    ensures w == IndentLen(s) && w < e == WordEnd(s, w) && a == SkipSpace(s, e)
    ensures b == (if CharAt(s, a, ':') then a + 1 else a) && CharAt(s, b, '=') && k == SkipSpace(s, b + 1)
    ensures At(s, k, "regexp.") && fn == (if At(s, k + 7, "MustCompile") then "MustCompile" else "Compile")
    ensures At(s, k + 7, fn) && o == SkipSpace(s, k + 7 + |fn|)
    ensures CharAt(s, o, '(') && o + 2 <= c == |RStrip(s)| && s[c - 1] == ')' && '\n' !in s[o + 1..c - 1]
    ensures AssignMatch(s) == Some(Assign(s[w..e], s[k..c]))
  {
    var r := RhsStart(s);
    var q := CallOpen(s, r);
    assert r >= 0 && q >= 0;
    w, e, a, b := RhsStartFacts(s);
    k := r;
    fn := CallOpenFacts(s, k);
    o, c := q, |RStrip(s)|;
  }

  /** What a right-hand side found tells about the left-hand side. */
  lemma RhsStartFacts(s: string) returns (w: nat, e: nat, a: nat, b: nat)
    requires RhsStart(s) >= 0
    ensures w == IndentLen(s) && w < e == WordEnd(s, w) && a == SkipSpace(s, e)
    ensures b == (if CharAt(s, a, ':') then a + 1 else a) && CharAt(s, b, '=') && RhsStart(s) == SkipSpace(s, b + 1)
  {
    w := IndentLen(s);
    e := WordEnd(s, w);
    a := SkipSpace(s, e);
    b := if CharAt(s, a, ':') then a + 1 else a;
  }

  /** What a call found tells about its name and its `(`. */
  lemma CallOpenFacts(s: string, k: nat) returns (fn: string)
    requires CallOpen(s, k) >= 0
    ensures fn == (if At(s, k + 7, "MustCompile") then "MustCompile" else "Compile")
    ensures At(s, k, "regexp.") && At(s, k + 7, fn) && CallOpen(s, k) == SkipSpace(s, k + 7 + |fn|)
    ensures CharAt(s, CallOpen(s, k), '(')
  {
    fn := if At(s, k + 7, "MustCompile") then "MustCompile" else "Compile";
  }

  // ---------------------------------------------------------------------
  // One entry
  // ---------------------------------------------------------------------

  /** `f"{for_indent}{var_name} := {regex_call}\n"` */
  function HoistLine(forLine: string, m: Assign): string
  {
    Indent(forLine) + m.name + " := " + m.call + "\n"
  }

  /** The body of the entry loop for line number `lineNo`: `None` when the
      entry is skipped (out of range, no assignment, no enclosing loop);
      otherwise the line is emptied and the hoisted assignment is inserted
      at the index of the enclosing `for`. */
  function HoistOne(lines: seq<string>, lineNo: nat): Option<seq<string>>
  {
    if lineNo == 0 || lineNo > |lines| then None
    else
      var idx := lineNo - 1;
      match AssignMatch(lines[idx])
      case None => None
      case Some(m) =>
        match EnclosingFor(lines, idx)
        case None => None
        case Some(f) =>
          var blanked := lines[idx := ""];
          EnclosingForAbove(lines, idx);
          Some(blanked[..f] + [HoistLine(lines[f], m)] + blanked[f..])
  }

  /** Where every line goes in one hoist: the lines above the loop stay,
      the hoisted assignment takes the loop's index and starts with the
      loop's indentation, every other line moves down by one, and the
      flagged line is left empty. */
  lemma HoistOneShape(lines: seq<string>, lineNo: nat, m: Assign, f: nat)
    requires 1 <= lineNo <= |lines| && AssignMatch(lines[lineNo - 1]) == Some(m)
    requires EnclosingFor(lines, lineNo - 1) == Some(f)
    ensures f < lineNo && ForLine(lines[f])
    ensures HoistOne(lines, lineNo).Some?
    ensures var nl := HoistOne(lines, lineNo).value;
      && |nl| == |lines| + 1
      && nl[f] == HoistLine(lines[f], m) && StartsWith(nl[f], Indent(lines[f]))
      && (forall k | 0 <= k < f :: nl[k] == lines[k])
      && (forall k | f <= k < |lines| && k != lineNo - 1 :: nl[k + 1] == lines[k])
      && nl[lineNo] == ""
  {
    var idx := lineNo - 1;
    EnclosingForAbove(lines, idx);
    var h := HoistLine(lines[f], m);
    assert HoistOne(lines, lineNo) == Some(lines[idx := ""][..f] + [h] + lines[idx := ""][f..]);
    InsertLayout(lines, idx, f, h);
    assert h[0..|Indent(lines[f])|] == Indent(lines[f]);
  }

  /** Blanking line `idx` and inserting `h` at `f <= idx`: what lies
      above `f` stays, the rest moves down by one. */
  lemma InsertLayout(lines: seq<string>, idx: nat, f: nat, h: string)
    requires f <= idx < |lines|
    ensures var blanked := lines[idx := ""];
      var nl := blanked[..f] + [h] + blanked[f..];
      && |nl| == |lines| + 1 && nl[f] == h && nl[idx + 1] == ""
      && (forall k | 0 <= k < f :: nl[k] == lines[k])
      && (forall k | f <= k < |lines| && k != idx :: nl[k + 1] == lines[k])
  {
    var blanked := lines[idx := ""];
    var nl := blanked[..f] + [h] + blanked[f..];
    forall k | 0 <= k < f
      ensures nl[k] == lines[k]
    {
      assert nl[k] == blanked[k];
    }
    forall k | f <= k < |lines| && k != idx
      ensures nl[k + 1] == lines[k]
    {
      assert nl[k + 1] == blanked[k];
    }
    assert nl[idx + 1] == blanked[idx];
  }

  // ---------------------------------------------------------------------
  // The transform
  // ---------------------------------------------------------------------

  /** The entry loop over line numbers in the order given: the lines so far
      and the `regex-hoist::<line>` ids. */
  function Hoisted(lines: seq<string>, order: seq<nat>): (seq<string>, seq<string>)
  {
    if order == [] then (lines, [])
    else
      var (cur, ids) := Hoisted(lines, order[..|order| - 1]);
      var n := order[|order| - 1];
      match HoistOne(cur, n)
      case None => (cur, ids)
      case Some(nl) => (nl, ids + ["regex-hoist::" + NatToString(n)])
  }

  /** `[ln for ln in lines if ln != ""]` */
  function DropEmpty(xs: seq<string>): (r: seq<string>)
  {
    if xs == [] then []
    else DropEmpty(xs[..|xs| - 1]) + (if xs[|xs| - 1] == "" then [] else [xs[|xs| - 1]])
  }

  /** The number of empty lines. */
  function EmptyCount(xs: seq<string>): nat
  {
    if xs == [] then 0
    else EmptyCount(xs[..|xs| - 1]) + (if xs[|xs| - 1] == "" then 1 else 0)
  }

  /** Dropping the empty lines keeps every other line, in order. */
  lemma {:induction false} DropEmptySpec(xs: seq<string>)
    ensures |DropEmpty(xs)| + EmptyCount(xs) == |xs|
    ensures forall x | x in DropEmpty(xs) :: x != "" && x in xs
    ensures forall x | x in xs && x != "" :: x in DropEmpty(xs)
  {
    if xs != [] {
      DropEmptySpec(xs[..|xs| - 1]);
      assert xs == xs[..|xs| - 1] + [xs[|xs| - 1]];
    }
  }

  /** `_transform` as a function: the entries by descending line, then the
      empty lines dropped. */
  function Transform(lines: seq<string>, es: seq<Entry>): (seq<string>, seq<string>)
  {
    var (cur, ids) := Hoisted(lines, SortBy(LineNums(es), true));
    (DropEmpty(cur), ids)
  }

  // ---------------------------------------------------------------------
  // Properties
  // ---------------------------------------------------------------------

  /** The lines of the first `i` entries contain every empty line of the
      input and one more per hoist; one line is added per hoist. */
  lemma {:induction false} HoistedCounts(lines: seq<string>, order: seq<nat>)
    ensures var (cur, ids) := Hoisted(lines, order);
      |cur| == |lines| + |ids| && EmptyCount(cur) == EmptyCount(lines) + |ids|
  {
    if order != [] {
      var (cur, ids) := Hoisted(lines, order[..|order| - 1]);
      HoistedCounts(lines, order[..|order| - 1]);
      var n := order[|order| - 1];
      match HoistOne(cur, n)
      case None =>
        assert Hoisted(lines, order) == (cur, ids);
      case Some(nl) =>
        assert Hoisted(lines, order) == (nl, ids + ["regex-hoist::" + NatToString(n)]);
        HoistOneEmpties(cur, n);
        assert |nl| == |cur| + 1 by { HoistOneShape(cur, n, AssignMatch(cur[n - 1]).value, EnclosingFor(cur, n - 1).value); }
    }
  }

  /** One hoist empties one non-empty line and inserts a non-empty one. */
  lemma HoistOneEmpties(lines: seq<string>, lineNo: nat)
    requires HoistOne(lines, lineNo).Some?
    ensures EmptyCount(HoistOne(lines, lineNo).value) == EmptyCount(lines) + 1
  {
    var idx := lineNo - 1;
    var m := AssignMatch(lines[idx]).value;
    var f := EnclosingFor(lines, idx).value;
    EnclosingForAbove(lines, idx);
    var blanked := lines[idx := ""];
    AssignNonEmpty(lines[idx]);
    EmptyCountSet(lines, idx);
    EmptyCountInsert(blanked, f, HoistLine(lines[f], m));
  }

  lemma {:induction false} EmptyCountAppend(xs: seq<string>, ys: seq<string>)
    ensures EmptyCount(xs + ys) == EmptyCount(xs) + EmptyCount(ys)
    decreases |ys|
  {
    if ys != [] {
      EmptyCountAppend(xs, ys[..|ys| - 1]);
      assert (xs + ys)[..|xs + ys| - 1] == xs + ys[..|ys| - 1];
      assert (xs + ys)[|xs + ys| - 1] == ys[|ys| - 1];
    } else {
      assert xs + ys == xs;
    }
  }

  lemma EmptyCountSet(xs: seq<string>, i: nat)
    requires i < |xs| && xs[i] != ""
    ensures EmptyCount(xs[i := ""]) == EmptyCount(xs) + 1
  {
    assert xs == xs[..i] + [xs[i]] + xs[i + 1..];
    assert xs[i := ""] == xs[..i] + [""] + xs[i + 1..];
    EmptyCountAppend(xs[..i] + [xs[i]], xs[i + 1..]);
    EmptyCountAppend(xs[..i], [xs[i]]);
    EmptyCountAppend(xs[..i] + [""], xs[i + 1..]);
    EmptyCountAppend(xs[..i], [""]);
    assert EmptyCount([""]) == 1 && EmptyCount([xs[i]]) == 0 by {
      assert [""][..0] == [] && [xs[i]][..0] == [];
    }
  }

  lemma EmptyCountInsert(xs: seq<string>, f: nat, x: string)
    requires f <= |xs| && x != ""
    ensures EmptyCount(xs[..f] + [x] + xs[f..]) == EmptyCount(xs)
  {
    assert xs == xs[..f] + xs[f..];
    EmptyCountAppend(xs[..f], xs[f..]);
    EmptyCountAppend(xs[..f] + [x], xs[f..]);
    EmptyCountAppend(xs[..f], [x]);
    assert EmptyCount([x]) == 0 by {
      assert [x][..0] == [];
    }
  }

  /** Hoisting moves lines and never adds or removes one: the output has
      as many lines as the input has non-empty lines (every line of a file
      split with kept ends is non-empty). */
  lemma TransformLineCount(lines: seq<string>, es: seq<Entry>)
    ensures |Transform(lines, es).0| == |lines| - EmptyCount(lines)
  {
    var (cur, ids) := Hoisted(lines, SortBy(LineNums(es), true));
    HoistedCounts(lines, SortBy(LineNums(es), true));
    DropEmptySpec(cur);
  }

  /** No line of the output is empty. */
  lemma TransformNoEmpty(lines: seq<string>, es: seq<Entry>)
    ensures forall x | x in Transform(lines, es).0 :: x != ""
  {
    DropEmptySpec(Hoisted(lines, SortBy(LineNums(es), true)).0);
  }

  /** Every id names the line of a hoist made in `order`, one per hoist. */
  lemma {:induction false} HoistedIds(lines: seq<string>, order: seq<nat>)
    ensures forall x | x in Hoisted(lines, order).1 :: exists n | n in order :: x == "regex-hoist::" + NatToString(n)
    ensures |Hoisted(lines, order).1| <= |order|
  {
    if order != [] {
      var prefix := order[..|order| - 1];
      HoistedIds(lines, prefix);
      var (cur, ids) := Hoisted(lines, prefix);
      var n := order[|order| - 1];
      assert forall k | k in prefix :: k in order;
      match HoistOne(cur, n)
      case None =>
        assert Hoisted(lines, order) == (cur, ids);
      case Some(nl) =>
        assert Hoisted(lines, order) == (nl, ids + ["regex-hoist::" + NatToString(n)]);
    }
  }

  /** Every id names the line of an entry of the file. */
  lemma TransformIds(lines: seq<string>, es: seq<Entry>)
    ensures forall x | x in Transform(lines, es).1 :: exists e | e in es :: x == "regex-hoist::" + NatToString(e.line)
    ensures |Transform(lines, es).1| <= |es|
  {
    var order := SortBy(LineNums(es), true);
    HoistedIds(lines, order);
    SortBySpec(LineNums(es), true);
    assert |order| == |multiset(order)| == |multiset(LineNums(es))| == |es|;
    forall x | x in Transform(lines, es).1
      ensures exists e | e in es :: x == "regex-hoist::" + NatToString(e.line)
    {
      var n :| n in order && x == "regex-hoist::" + NatToString(n);
      assert n in multiset(LineNums(es));
      var i :| 0 <= i < |es| && LineNums(es)[i] == n;
      assert es[i] in es;
    }
  }

  /** When no entry can be hoisted, the only change is that empty lines are
      dropped. */
  lemma {:induction false} HoistedNone(lines: seq<string>, order: seq<nat>)
    requires forall n | n in order :: HoistOne(lines, n).None?
    ensures Hoisted(lines, order) == (lines, [])
  {
    if order != [] {
      HoistedNone(lines, order[..|order| - 1]);
    }
  }

  // ---------------------------------------------------------------------
  // The shifted entries
  // ---------------------------------------------------------------------

  /** Two flagged assignments in the same loop, the lower one first in the
      loop body (the line above it not an assignment, such as the `for`
      line itself): hoisting the lower one first inserts a line above the
      loop, so the upper one's line number now names the line above it,
      which does not match, and the upper assignment stays in the loop
      although it qualifies on the file as read. */
  lemma ShiftSkipsEntry(lines: seq<string>, es: seq<Entry>, a: nat, b: nat, f: nat)
    requires f < a < b < |lines|
    requires |es| == 2 && es[0].line == a + 1 && es[1].line == b + 1
    requires AssignMatch(lines[a]).Some? && AssignMatch(lines[b]).Some? && AssignMatch(lines[a - 1]).None?
    requires EnclosingFor(lines, a) == Some(f) && EnclosingFor(lines, b) == Some(f)
    ensures Transform(lines, es).1 == [HoistId(b + 1)]
    ensures Qualifies(lines, a) && a + 1 in LineSet(es)
  {
    TransformTwo(lines, es, a + 1, b + 1);
    ShiftedIds(lines, a, b, f);
    assert es[0] in es;
  }

  /** The loop over `[b + 1, a + 1]` records the lower line only. */
  lemma ShiftedIds(lines: seq<string>, a: nat, b: nat, f: nat)
    requires f < a < b < |lines|
    requires AssignMatch(lines[b]).Some? && AssignMatch(lines[a - 1]).None?
    requires EnclosingFor(lines, b) == Some(f)
    ensures Hoisted(lines, [b + 1, a + 1]).1 == [HoistId(b + 1)]
  {
    var nl := ShiftedLine(lines, a, b, f);
    ShiftedPair(lines, a, b, nl);
  }

  /** Two entries in ascending order are hoisted in descending order. */
  lemma TransformTwo(lines: seq<string>, es: seq<Entry>, x: nat, y: nat)
    requires x < y && |es| == 2 && es[0].line == x && es[1].line == y
    ensures Transform(lines, es).1 == Hoisted(lines, [y, x]).1
  {
    var nums := LineNums(es);
    assert nums == [x, y] by {
      assert |nums| == 2 && nums[0] == x && nums[1] == y;
    }
    SortTwo(x, y);
  }

  /** The loop over `[b + 1, a + 1]` hoists the lower line only, when the
      line above `a` is what the first hoist moves to `a`. */
  lemma ShiftedPair(lines: seq<string>, a: nat, b: nat, nl: seq<string>)
    requires 1 <= a < b < |lines|
    requires HoistOne(lines, b + 1) == Some(nl) && a < |nl| && nl[a] == lines[a - 1] && AssignMatch(lines[a - 1]).None?
    ensures Hoisted(lines, [b + 1, a + 1]).1 == [HoistId(b + 1)]
  {
    HoistedNone1(nl, a + 1, lines[a - 1]);
    ShiftedHoisted(lines, b + 1, a + 1, nl);
  }

  /** Two line numbers in descending order. */
  lemma SortTwo(x: nat, y: nat)
    requires x < y
    ensures SortBy([x, y], true) == [y, x]
  {
    assert [x, y][1..] == [y] && [y][1..] == [];
    assert SortBy([y], true) == [y];
    assert InsertBy(x, [y], true) == [y] + InsertBy(x, [], true);
  }

  /** The loop over `[x, y]` when `x` is hoisted and `y`, read on the
      changed lines, is not. */
  lemma ShiftedHoisted(lines: seq<string>, x: nat, y: nat, nl: seq<string>)
    requires HoistOne(lines, x) == Some(nl)
    requires HoistOne(nl, y).None?
    ensures Hoisted(lines, [x, y]).1 == [HoistId(x)]
  {
    HoistedFirst(lines, x, nl);
    HoistedSecondSkipped(lines, x, y, nl);
  }

  /** After one hoist, the line above `a` (between the loop and the
      hoisted line) has moved down to `a`. */
  lemma ShiftedLine(lines: seq<string>, a: nat, b: nat, f: nat) returns (nl: seq<string>)
    requires f < a < b < |lines|
    requires AssignMatch(lines[b]).Some? && EnclosingFor(lines, b) == Some(f)
    ensures HoistOne(lines, b + 1) == Some(nl) && a < |nl| && nl[a] == lines[a - 1]
  {
    HoistOneShape(lines, b + 1, AssignMatch(lines[b]).value, f);
    nl := HoistOne(lines, b + 1).value;
    var k: nat := a - 1;
    assert nl[k + 1] == lines[k];
  }

  lemma HoistedNone1(nl: seq<string>, n: nat, line: string)
    requires 1 <= n <= |nl| && nl[n - 1] == line && AssignMatch(line).None?
    ensures HoistOne(nl, n).None?
  {
  }

  /** The first entry, hoisted. */
  lemma HoistedFirst(lines: seq<string>, n: nat, nl: seq<string>)
    requires HoistOne(lines, n) == Some(nl)
    ensures Hoisted(lines, [n]) == (nl, [HoistId(n)])
  {
    HoistedAfter(lines, [], n, nl);
    assert [] + [n] == [n];
  }

  lemma HoistedAfter(lines: seq<string>, order: seq<nat>, n: nat, nl: seq<string>)
    requires Hoisted(lines, order) == (lines, []) && HoistOne(lines, n) == Some(nl)
    ensures Hoisted(lines, order + [n]) == (nl, [HoistId(n)])
  {
    var o := order + [n];
    assert o[..|o| - 1] == order && o[|o| - 1] == n;
    var ids: seq<string> := [];
    assert Hoisted(lines, o) == (nl, ids + ["regex-hoist::" + NatToString(n)]);
    assert ids + [HoistId(n)] == [HoistId(n)];
  }

  /** The second entry, skipped. */
  lemma HoistedSecondSkipped(lines: seq<string>, x: nat, y: nat, nl: seq<string>)
    requires Hoisted(lines, [x]) == (nl, [HoistId(x)]) && HoistOne(nl, y).None?
    ensures Hoisted(lines, [x, y]).1 == [HoistId(x)]
  {
    assert [x, y][..1] == [x];
  }

  /** The line at `idx` is an assignment inside a loop: the hoist the
      comment on the descending sort promises for every entry. */
  predicate Qualifies(lines: seq<string>, idx: nat)
  {
    idx < |lines| && AssignMatch(lines[idx]).Some? && EnclosingFor(lines, idx).Some?
  }

  /** An entry line to move: flagged and qualifying on the file as read. */
  predicate Planned(lines: seq<string>, nums: set<nat>, idx: nat)
  {
    idx + 1 in nums && Qualifies(lines, idx)
  }

  /** The concatenation of a list of line lists. */
  function Flatten(ss: seq<seq<string>>): seq<string>
  {
    if ss == [] then [] else Flatten(ss[..|ss| - 1]) + ss[|ss| - 1]
  }

  /** A line of any of the lists is in their concatenation. */
  lemma {:induction false} FlattenHas(ss: seq<seq<string>>, k: nat, x: string)
    requires k < |ss| && x in ss[k]
    ensures x in Flatten(ss)
  {
    var init := ss[..|ss| - 1];
    if k < |ss| - 1 {
      assert init[k] == ss[k];
      FlattenHas(init, k, x);
    }
    assert Flatten(ss) == Flatten(init) + ss[|ss| - 1];
  }

  /** The assignment hoisted from line `idx` above the loop at `k`, if
      `idx` is planned and its loop starts at `k`. */
  function HoistFrom(lines: seq<string>, nums: set<nat>, k: nat, idx: nat): seq<string>
    requires k < |lines|
  {
    if Planned(lines, nums, idx) && EnclosingFor(lines, idx) == Some(k)
    then [HoistLine(lines[k], AssignMatch(lines[idx]).value)] else []
  }

  /** The hoisted assignments of the planned lines whose loop starts at
      `k`, upper lines first (the order the descending loop leaves them in
      when nothing shifts). */
  function HoistsAt(lines: seq<string>, nums: set<nat>, k: nat): seq<string>
    requires k < |lines|
  {
    Flatten(seq(|lines|, idx requires 0 <= idx < |lines| => HoistFrom(lines, nums, k, idx)))
  }

  /** The lines laid out with every planned hoist in place: each line is
      preceded by the assignments hoisted above it, and a planned line is
      left empty. */
  function Layout(lines: seq<string>, nums: set<nat>): seq<string>
  {
    Flatten(seq(|lines|, k requires 0 <= k < |lines| => Slot(lines, nums, k)))
  }

  /** What line `k` becomes: the assignments hoisted above it, then the
      line itself, or an empty line if it is planned. */
  function Slot(lines: seq<string>, nums: set<nat>, k: nat): seq<string>
    requires k < |lines|
  {
    HoistsAt(lines, nums, k) + [if Planned(lines, nums, k) then "" else lines[k]]
  }

  /** The ids, in entry order, one per planned line number. */
  function PlannedIds(lines: seq<string>, order: seq<nat>): seq<string>
  {
    if order == [] then []
    else
      var n := order[|order| - 1];
      var init := order[..|order| - 1];
      PlannedIds(lines, init) + (if Fresh(lines, n, init) then [HoistId(n)] else [])
  }

  /** `f"regex-hoist::{entry['line']}"` */
  function HoistId(n: nat): string
  {
    "regex-hoist::" + NatToString(n)
  }

  /** Line number `n` qualifies and was not seen before. */
  predicate Fresh(lines: seq<string>, n: nat, seen: seq<nat>)
  {
    n >= 1 && Qualifies(lines, n - 1) && n !in seen
  }

  /** `_transform` with every flagged line located on the file as read: the
      hoists land where the descending sort was meant to put them. */
  function CorrectedTransform(lines: seq<string>, es: seq<Entry>): (seq<string>, seq<string>)
  {
    (DropEmpty(Layout(lines, LineSet(es))), PlannedIds(lines, SortBy(LineNums(es), true)))
  }

  /** Every planned line's assignment is hoisted, with the indentation of
      its loop, and every line not planned is kept. */
  lemma CorrectedLayout(lines: seq<string>, nums: set<nat>)
    ensures forall idx: nat | Planned(lines, nums, idx) ::
      EnclosingFor(lines, idx).value < |lines| &&
      HoistLine(lines[EnclosingFor(lines, idx).value], AssignMatch(lines[idx]).value) in Layout(lines, nums)
    ensures forall k | 0 <= k < |lines| && !Planned(lines, nums, k) :: lines[k] in Layout(lines, nums)
  {
    var slots := seq(|lines|, k requires 0 <= k < |lines| => Slot(lines, nums, k));
    assert Layout(lines, nums) == Flatten(slots);
    forall idx: nat | Planned(lines, nums, idx)
      ensures EnclosingFor(lines, idx).value < |lines|
      ensures HoistLine(lines[EnclosingFor(lines, idx).value], AssignMatch(lines[idx]).value) in Layout(lines, nums)
    {
      var f := EnclosingFor(lines, idx).value;
      EnclosingForAbove(lines, idx);
      var x := HoistLine(lines[f], AssignMatch(lines[idx]).value);
      var from := seq(|lines|, i requires 0 <= i < |lines| => HoistFrom(lines, nums, f, i));
      assert from[idx] == [x];
      FlattenHas(from, idx, x);
      assert slots[f] == Flatten(from) + [if Planned(lines, nums, f) then "" else lines[f]];
      FlattenHas(slots, f, x);
    }
    forall k | 0 <= k < |lines| && !Planned(lines, nums, k)
      ensures lines[k] in Layout(lines, nums)
    {
      assert slots[k] == HoistsAt(lines, nums, k) + [lines[k]];
      FlattenHas(slots, k, lines[k]);
    }
  }

  /** The corrected output holds every planned hoist and every non-empty
      line not planned, and no empty line. */
  lemma CorrectedTransformLines(lines: seq<string>, es: seq<Entry>)
    ensures var out := CorrectedTransform(lines, es).0;
      && (forall idx: nat | Planned(lines, LineSet(es), idx) ::
            EnclosingFor(lines, idx).value < |lines| &&
            HoistLine(lines[EnclosingFor(lines, idx).value], AssignMatch(lines[idx]).value) in out)
      && (forall k | 0 <= k < |lines| && !Planned(lines, LineSet(es), k) && lines[k] != "" :: lines[k] in out)
      && (forall x | x in out :: x != "")
  {
    var nums := LineSet(es);
    CorrectedLayout(lines, nums);
    DropEmptySpec(Layout(lines, nums));
  }

  lemma PlannedIdsMembers(lines: seq<string>, order: seq<nat>, x: string)
    ensures x in PlannedIds(lines, order) <==> exists n | n in order :: n >= 1 && Qualifies(lines, n - 1) && x == HoistId(n)
  {
    if x in PlannedIds(lines, order) {
      PlannedIdFrom(lines, order, x);
    }
    if exists n | n in order :: n >= 1 && Qualifies(lines, n - 1) && x == HoistId(n) {
      var n :| n in order && n >= 1 && Qualifies(lines, n - 1) && x == HoistId(n);
      PlannedIdOf(lines, order, n);
    }
  }

  /** A planned id comes from a qualifying line number of the order. */
  lemma {:induction false} PlannedIdFrom(lines: seq<string>, order: seq<nat>, x: string)
    requires x in PlannedIds(lines, order)
    ensures exists n | n in order :: n >= 1 && Qualifies(lines, n - 1) && x == HoistId(n)
  {
    var init := order[..|order| - 1];
    var n := order[|order| - 1];
    assert order == init + [n];
    if x in PlannedIds(lines, init) {
      PlannedIdFrom(lines, init, x);
      var k :| k in init && k >= 1 && Qualifies(lines, k - 1) && x == HoistId(k);
      assert k in order;
    } else {
      assert Fresh(lines, n, init) && x == HoistId(n);
    }
  }

  /** A qualifying line number of the order has its id planned. */
  lemma {:induction false} PlannedIdOf(lines: seq<string>, order: seq<nat>, n: nat)
    requires n in order && n >= 1 && Qualifies(lines, n - 1)
    ensures HoistId(n) in PlannedIds(lines, order)
  {
    var init := order[..|order| - 1];
    var last := order[|order| - 1];
    assert order == init + [last];
    if n in init {
      PlannedIdOf(lines, init, n);
    } else {
      assert n == last && Fresh(lines, n, init);
    }
  }

  /** The corrected ids name exactly the flagged lines that qualify. */
  lemma CorrectedTransformIds(lines: seq<string>, es: seq<Entry>, x: string)
    ensures x in CorrectedTransform(lines, es).1 <==>
      exists e | e in es :: e.line >= 1 && Qualifies(lines, e.line - 1) && x == HoistId(e.line)
  {
    var order := SortBy(LineNums(es), true);
    assert CorrectedTransform(lines, es).1 == PlannedIds(lines, order);
    PlannedIdsMembers(lines, order, x);
    SortBySpec(LineNums(es), true);
    if x in PlannedIds(lines, order) {
      IdFromOrder(lines, es, order, x);
    }
    if exists e | e in es :: e.line >= 1 && Qualifies(lines, e.line - 1) && x == HoistId(e.line) {
      IdInOrder(lines, es, order, x);
    }
  }

  lemma IdFromOrder(lines: seq<string>, es: seq<Entry>, order: seq<nat>, x: string)
    requires multiset(order) == multiset(LineNums(es))
    requires exists n | n in order :: n >= 1 && Qualifies(lines, n - 1) && x == HoistId(n)
    ensures exists e | e in es :: e.line >= 1 && Qualifies(lines, e.line - 1) && x == HoistId(e.line)
  {
    var n :| n in order && n >= 1 && Qualifies(lines, n - 1) && x == HoistId(n);
    var i := EntryOf(es, order, n);
    assert es[i] in es && es[i].line == n;
  }

  /** A line number of the sorted order comes from some entry. */
  lemma EntryOf(es: seq<Entry>, order: seq<nat>, n: nat) returns (i: nat)
    requires multiset(order) == multiset(LineNums(es)) && n in order
    ensures i < |es| && es[i].line == n
  {
    assert n in multiset(LineNums(es));
    i :| 0 <= i < |es| && LineNums(es)[i] == n;
  }

  lemma IdInOrder(lines: seq<string>, es: seq<Entry>, order: seq<nat>, x: string)
    requires multiset(order) == multiset(LineNums(es))
    requires exists e | e in es :: e.line >= 1 && Qualifies(lines, e.line - 1) && x == HoistId(e.line)
    ensures exists n | n in order :: n >= 1 && Qualifies(lines, n - 1) && x == HoistId(n)
  {
    var e :| e in es && e.line >= 1 && Qualifies(lines, e.line - 1) && x == HoistId(e.line);
    var i :| 0 <= i < |es| && es[i] == e;
    assert LineNums(es)[i] == e.line;
    assert e.line in multiset(order);
  }

  // ---------------------------------------------------------------------
  // The method
  // ---------------------------------------------------------------------

  /** `lines[idx] = ""` and `lines.insert(for_idx, hoist_line)`, with the
      hoisted line built from the loop line's indentation. */
  method InsertHoist(cur: seq<string>, idx: nat, f: nat, m: Assign) returns (cur': seq<string>)
    requires f <= idx < |cur|
    ensures cur' == cur[idx := ""][..f] + [HoistLine(cur[f], m)] + cur[idx := ""][f..]
  {
    var forLine := cur[f];
    var forIndent := forLine[..|forLine| - |LStrip(forLine)|];
    assert forIndent == Indent(forLine);
    var hoistLine := forIndent + m.name + " := " + m.call + "\n";
    assert hoistLine == HoistLine(forLine, m);
    var blanked := cur[idx := ""];
    cur' := blanked[..f] + [hoistLine] + blanked[f..];
  }

  /** The body of the entry loop for one entry: the line is rewritten and
      its id recorded when it qualifies. */
  method HoistEntry(cur: seq<string>, removed: seq<string>, lineNo: nat) returns (cur': seq<string>, removed': seq<string>)
    ensures HoistOne(cur, lineNo).None? ==> cur' == cur && removed' == removed
    ensures HoistOne(cur, lineNo).Some? ==> cur' == HoistOne(cur, lineNo).value && removed' == removed + [HoistId(lineNo)]
  {
    cur', removed' := cur, removed;
    if 1 <= lineNo <= |cur| {
      var idx := lineNo - 1;
      var m := AssignMatch(cur[idx]);
      if m.Some? {
        var forIdx := FindEnclosingFor(cur, idx);
        if forIdx.Some? {
          EnclosingForAbove(cur, idx);
          cur' := InsertHoist(cur, idx, forIdx.value, m.value);
          removed' := removed + ["regex-hoist::" + NatToString(lineNo)];
        }
      }
    }
  }

  /** `_transform`: the entry loop on a list changed in place. */
  method HoistRegexes(lines: seq<string>, es: seq<Entry>) returns (out: seq<string>, removed: seq<string>)
    ensures (out, removed) == Transform(lines, es)
  {
    var order := SortBy(LineNums(es), true);
    var cur := lines;
    removed := [];
    for j := 0 to |order|
      invariant (cur, removed) == Hoisted(lines, order[..j])
    {
      assert order[..j + 1][..j] == order[..j];
      cur, removed := HoistEntry(cur, removed, order[j]);
    }
    assert order[..|order|] == order;
    out := DropEmpty(cur);
  }

  /** `fix_regex_hoist`: the shared file loop with this transform. */
  method FixRegexHoist(entries: seq<Entry>, dryRun: bool, files: map<string, string>, writeFails: set<string>)
    returns (results: seq<FixResult>, written: map<string, string>)
    ensures var groups := Groups(entries);
      var ps := SortedPaths(groups.Keys);
      results == Results(ps, groups, files, Transform) && written == Written(ps, groups, files, Transform, dryRun, writeFails)
  {
    results, written := ApplyFixer(entries, Transform, dryRun, files, writeFails);
  }

  /** `fix_regex_hoist` with the corrected transform. */
  method FixRegexHoistCorrected(entries: seq<Entry>, dryRun: bool, files: map<string, string>, writeFails: set<string>)
    returns (results: seq<FixResult>, written: map<string, string>)
    ensures var groups := Groups(entries);
      var ps := SortedPaths(groups.Keys);
      results == Results(ps, groups, files, CorrectedTransform)
      && written == Written(ps, groups, files, CorrectedTransform, dryRun, writeFails)
  {
    results, written := ApplyFixer(entries, CorrectedTransform, dryRun, files, writeFails);
  }
}
