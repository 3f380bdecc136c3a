/** The `error_wrap` fixer (desloppify/lang/go/fixers/error_wrap.py): a bare
    `return err`, alone on its line or as the body of a one-line
    `if err != nil { return err }`, is rewritten to wrap the error with the
    enclosing function's name. */
module ErrorWrap {
  import opened Wrappers
  import opened Text
  import Smells
  import SmellPatterns
  import opened FixerCommon
  import opened FixerApply

  // ---------------------------------------------------------------------
  // detect_bare_errors
  // ---------------------------------------------------------------------

  /** The smells this fixer repairs. */
  const Kept: set<Smells.SmellId> := {Smells.BareErrorReturn, Smells.EmptyErrorCheck}

  /** `f"{e['id']}::{m['line']}"` */
  function EntryName(id: Smells.SmellId, line: nat): string
  {
    Smells.Name(id) + "::" + NatToString(line)
  }

  /** `detect_bare_errors`: the samples of `bare_error_return` and
      `empty_error_check`, each named after its smell and line. */
  function DetectBareErrors(entries: seq<Smells.Entry>): (r: seq<Entry>)
    ensures forall x | x in r :: exists e, m | e in entries && m in e.matches ::
      e.id in Kept && x == Smells.FixEntry(m.file, m.line, EntryName(e.id, m.line), m.content)
  {
    Smells.Flatten(entries, Kept, EntryName)
  }

  /** No sample of the two smells is lost. */
  lemma DetectBareErrorsComplete(entries: seq<Smells.Entry>, e: Smells.Entry, m: Smells.Match)
    requires e in entries && e.id in Kept && m in e.matches
    ensures Smells.FixEntry(m.file, m.line, EntryName(e.id, m.line), m.content) in DetectBareErrors(entries)
  {
    Smells.FlattenComplete(entries, Kept, EntryName, e, m);
  }

  // ---------------------------------------------------------------------
  // The two patterns
  // ---------------------------------------------------------------------

  /** `_SINGLE_LINE_CHECK_RE.match(line)`:
      `^(\s*)if\s+err\s*!=\s*nil\s*\{\s*return\s+err\s*\}`. Group 1 is the
      whole leading whitespace, since `if` cannot start with a space. */
  predicate SingleLineCheck(line: string)
  {
    var h := SmellPatterns.ErrCheckHead(line, IndentLen(line));
    h >= 0 && SmellPatterns.ReturnErrBrace(line, h)
  }

  /** `_BARE_RETURN_RE.match(line)`: `^(\s*)return\s+err\s*$`. */
  predicate BareReturn(line: string)
  {
    SmellPatterns.ReturnErrRest(line, IndentLen(line))
  }

  /** The wrapped return, `return fmt.Errorf("<func>: %w", err)`. */
  function Wrap(func: string): string
  {
    "return fmt.Errorf(\"" + func + ": %w\", err)"
  }

  /** The new text of a line that matches one of the patterns. */
  function Rewrite(line: string, func: string): Option<string>
  {
    if SingleLineCheck(line) then Some(Indent(line) + CheckText(func))
    else if BareReturn(line) then Some(Indent(line) + ReturnText(func))
    else None
  }

  /** `find_enclosing_func(lines, i) or "operation"` */
  function FuncLabel(lines: seq<string>, i: nat): string
    requires i < |lines|
  {
    match EnclosingFunc(lines, i)
    case Some(name) => name
    case None => "operation"
  }

  /** Line `k` after the transform. */
  function WrappedLine(lines: seq<string>, nums: set<nat>, k: nat): string
    requires k < |lines|
  {
    if k + 1 in nums && Rewrite(lines[k], FuncLabel(lines, k)).Some? then Rewrite(lines[k], FuncLabel(lines, k)).value
    else lines[k]
  }

  /** The lines after the transform. */
  function Wrapped(lines: seq<string>, nums: set<nat>): (r: seq<string>)
    ensures |r| == |lines|
  {
    seq(|lines|, k requires 0 <= k < |lines| => WrappedLine(lines, nums, k))
  }

  /** `_transform` as a function: the rewritten lines and one
      `error-wrap::<line>` id per changed line. */
  function Transform(lines: seq<string>, es: seq<Entry>): (seq<string>, seq<string>)
  {
    var out := Wrapped(lines, LineSet(es));
    (out, ChangedIds("error-wrap::", lines, out))
  }

  // ---------------------------------------------------------------------
  // Properties
  // ---------------------------------------------------------------------

  /** The text after the indent of a rewritten one-line check. */
  function CheckText(func: string): string
  {
    "if err != nil { " + Wrap(func) + " }\n"
  }

  /** The text after the indent of a rewritten bare return. */
  function ReturnText(func: string): string
  {
    Wrap(func) + "\n"
  }

  /** `if err != nil {` from `n`, one space apart. */
  lemma CheckHeadShape(s: string, n: nat)
    requires n + 15 <= |s|
    requires s[n] == 'i' && s[n + 1] == 'f' && s[n + 2] == ' ' && s[n + 3] == 'e' && s[n + 4] == 'r'
    requires s[n + 5] == 'r' && s[n + 6] == ' ' && s[n + 7] == '!' && s[n + 8] == '=' && s[n + 9] == ' '
    requires s[n + 10] == 'n' && s[n + 11] == 'i' && s[n + 12] == 'l' && s[n + 13] == ' ' && s[n + 14] == '{'
    ensures SmellPatterns.ErrCheckHead(s, n) == n + 15
  {
    assert At(s, n, "if");
    SkipSpaceUpTo(s, n + 2, n + 3);
    assert At(s, n + 3, "err");
    SkipSpaceUpTo(s, n + 6, n + 7);
    assert At(s, n + 7, "!=");
    SkipSpaceUpTo(s, n + 9, n + 10);
    assert At(s, n + 10, "nil");
    SkipSpaceUpTo(s, n + 13, n + 14);
  }

  /** ` return f` from `i` is not `\s*return\s+err\s*\}`. */
  lemma ReturnFmtShape(s: string, i: nat)
    requires i + 9 <= |s|
    requires s[i] == ' ' && s[i + 1] == 'r' && s[i + 2] == 'e' && s[i + 3] == 't' && s[i + 4] == 'u'
    requires s[i + 5] == 'r' && s[i + 6] == 'n' && s[i + 7] == ' ' && s[i + 8] == 'f'
    ensures !SmellPatterns.ReturnErrBrace(s, i)
  {
    SkipSpaceUpTo(s, i, i + 1);
    assert At(s, i + 1, "return");
    SkipSpaceUpTo(s, i + 7, i + 8);
    assert !At(s, i + 8, "err");
  }

  /** `return f` from `n` is not `return\s+err\s*$`. */
  lemma ReturnShape(s: string, n: nat)
    requires n + 8 <= |s|
    requires s[n] == 'r' && s[n + 1] == 'e' && s[n + 2] == 't' && s[n + 3] == 'u' && s[n + 4] == 'r'
    requires s[n + 5] == 'n' && s[n + 6] == ' ' && s[n + 7] == 'f'
    ensures !SmellPatterns.ReturnErrRest(s, n) && SmellPatterns.ErrCheckHead(s, n) == -1
  {
    assert !At(s, n, "if");
    assert At(s, n, "return");
    SkipSpaceUpTo(s, n + 6, n + 7);
    assert !At(s, n + 7, "err");
  }

  /** The first characters of a rewritten one-line check. */
  lemma CheckTextChars(func: string)
    ensures var u := CheckText(func);
      && |u| >= 24 && u[0] == 'i' && u[1] == 'f' && u[2] == ' ' && u[3] == 'e' && u[4] == 'r' && u[5] == 'r'
      && u[6] == ' ' && u[7] == '!' && u[8] == '=' && u[9] == ' ' && u[10] == 'n' && u[11] == 'i'
      && u[12] == 'l' && u[13] == ' ' && u[14] == '{' && u[15] == ' ' && u[16] == 'r' && u[17] == 'e'
      && u[18] == 't' && u[19] == 'u' && u[20] == 'r' && u[21] == 'n' && u[22] == ' ' && u[23] == 'f'
  {
    ReturnTextChars(func);
  }

  /** The first characters of a rewritten bare return (and of `Wrap`). */
  lemma ReturnTextChars(func: string)
    ensures var u := ReturnText(func);
      && |u| >= 8 && u[0] == 'r' && u[1] == 'e' && u[2] == 't' && u[3] == 'u' && u[4] == 'r' && u[5] == 'n'
      && u[6] == ' ' && u[7] == 'f'
    ensures var u := Wrap(func);
      && |u| >= 8 && u[0] == 'r' && u[1] == 'e' && u[2] == 't' && u[3] == 'u' && u[4] == 'r' && u[5] == 'n'
      && u[6] == ' ' && u[7] == 'f'
  {
  }

  /** A rewritten one-line check matches neither pattern: its `return` is
      followed by `fmt`, not `err`. */
  lemma CheckTextFinal(w: string, func: string)
    requires AllSpace(w)
    ensures !SingleLineCheck(w + CheckText(func)) && !BareReturn(w + CheckText(func))
  {
    var u := CheckText(func);
    var s := w + u;
    var n := |w|;
    IndentOf(w, u);
    CheckTextChars(func);
    assert forall k | 0 <= k < 24 :: s[n + k] == u[k];
    CheckHeadShape(s, n);
    ReturnFmtShape(s, n + 15);
    assert !At(s, n, "return");
  }

  /** A rewritten bare return matches neither pattern. */
  lemma ReturnTextFinal(w: string, func: string)
    requires AllSpace(w)
    ensures !SingleLineCheck(w + ReturnText(func)) && !BareReturn(w + ReturnText(func))
  {
    var u := ReturnText(func);
    var s := w + u;
    var n := |w|;
    IndentOf(w, u);
    ReturnTextChars(func);
    assert forall k | 0 <= k < 8 :: s[n + k] == u[k];
    ReturnShape(s, n);
  }

  /** A matching line starts, after its indent, with `if` or `return`. */
  lemma MatchStart(line: string)
    requires SingleLineCheck(line) || BareReturn(line)
    ensures At(line, IndentLen(line), "if") || At(line, IndentLen(line), "return")
  {
  }

  /** A rewritten line keeps the indent and matches neither pattern, so a
      second pass leaves it alone. */
  lemma RewriteFinal(line: string, func: string, other: string)
    requires Rewrite(line, func).Some?
    ensures var r := Rewrite(line, func).value;
      StartsWith(r, Indent(line)) && Rewrite(r, other).None?
  {
    LStripSpec(line);
    if SingleLineCheck(line) {
      CheckTextFinal(Indent(line), func);
    } else {
      ReturnTextFinal(Indent(line), func);
    }
  }

  /** A line that starts with `f` is no `func` header. */
  lemma NotFuncHeader(s: string)
    requires s != [] && s[0] != 'f'
    ensures FuncName(s).None?
  {
  }

  /** Neither a matching line nor its rewrite is a `func` header, so the
      transform never changes the name found for a later line. */
  lemma RewriteNotHeader(line: string, func: string)
    requires Rewrite(line, func).Some?
    ensures FuncName(line).None? && FuncName(Rewrite(line, func).value).None?
  {
    LStripSpec(line);
    MatchStart(line);
    var w := Indent(line);
    var r := Rewrite(line, func).value;
    assert r == w + CheckText(func) || r == w + ReturnText(func);
    if w == [] {
      assert line[0] == 'i' || line[0] == 'r';
      assert r[0] == 'i' || r[0] == 'r';
    } else {
      assert IsSpace(line[0]) && IsSpace(r[0]);
    }
    NotFuncHeader(line);
    NotFuncHeader(r);
  }

  /** No line is inserted or removed; an unflagged line, or one that
      matches neither pattern, is kept as it is. */
  lemma WrappedKeeps(lines: seq<string>, nums: set<nat>, k: nat)
    requires k < |lines|
    requires k + 1 !in nums || (!SingleLineCheck(lines[k]) && !BareReturn(lines[k]))
    ensures Wrapped(lines, nums)[k] == lines[k]
  {
  }

  /** Running the transform on its own output changes nothing and reports
      nothing. */
  lemma TransformIdempotent(lines: seq<string>, es: seq<Entry>)
    ensures Transform(Transform(lines, es).0, es) == (Transform(lines, es).0, [])
  {
    var nums := LineSet(es);
    var out := Wrapped(lines, nums);
    forall k | 0 <= k < |out|
      ensures WrappedLine(out, nums, k) == out[k]
    {
      if k + 1 in nums && Rewrite(lines[k], FuncLabel(lines, k)).Some? {
        RewriteFinal(lines[k], FuncLabel(lines, k), FuncLabel(out, k));
      }
    }
    assert Wrapped(out, nums) == out;
    ChangedIdsNone("error-wrap::", out);
  }

  // ---------------------------------------------------------------------
  // The method
  // ---------------------------------------------------------------------

  /** Line `i` gets its final text `line`: the rewritten lines still hold no
      header, and the id list grows by the id of line `i` if it changed. */
  lemma WrapStep(lines: seq<string>, nums: set<nat>, out: seq<string>, i: nat, line: string)
    requires |out| == |lines| && i < |lines|
    requires forall k | 0 <= k < i :: out[k] == WrappedLine(lines, nums, k)
    requires forall k | i <= k < |lines| :: out[k] == lines[k]
    requires forall k | 0 <= k < |lines| :: FuncName(out[k]) == FuncName(lines[k])
    requires line == WrappedLine(lines, nums, i)
    ensures forall k | 0 <= k < i + 1 :: out[i := line][k] == WrappedLine(lines, nums, k)
    ensures forall k | i + 1 <= k < |lines| :: out[i := line][k] == lines[k]
    ensures forall k | 0 <= k < |lines| :: FuncName(out[i := line][k]) == FuncName(lines[k])
    ensures ChangedIds("error-wrap::", lines[..i + 1], out[i := line][..i + 1])
            == ChangedIds("error-wrap::", lines[..i], out[..i]) + (if line != lines[i] then ["error-wrap::" + NatToString(i + 1)] else [])
  {
    var out' := out[i := line];
    if line != lines[i] {
      RewriteNotHeader(lines[i], FuncLabel(lines, i));
    }
    ChangedIdsStep("error-wrap::", lines, out', i);
    assert out'[..i] == out[..i];
  }

  /** The two matches tried on one flagged line: the one-line check first,
      then the bare return. A rewrite always changes the line. */
  method WrapLine(line: string, funcName: string) returns (line': string, changed: bool)
    ensures line' == if Rewrite(line, funcName).Some? then Rewrite(line, funcName).value else line
    ensures changed <==> line' != line
    ensures changed <==> Rewrite(line, funcName).Some?
  {
    if Rewrite(line, funcName).Some? {
      RewriteFinal(line, funcName, funcName);
    }
    line', changed := line, false;
    if SingleLineCheck(line) {
      line', changed := Indent(line) + CheckText(funcName), true;
    } else if BareReturn(line) {
      line', changed := Indent(line) + ReturnText(funcName), true;
    }
  }

  /** `_transform`: rewrite the flagged lines in place, naming each after
      the function found above it in the list being rewritten. */
  method WrapErrors(lines: seq<string>, es: seq<Entry>) returns (out: seq<string>, removed: seq<string>)
    ensures (out, removed) == Transform(lines, es)
  {
    var entryLines := set e | e in es :: e.line;
    assert entryLines == LineSet(es);
    out := lines;
    removed := [];
    for i := 0 to |lines|
      invariant |out| == |lines|
      invariant forall k | 0 <= k < i :: out[k] == WrappedLine(lines, entryLines, k)
      invariant forall k | i <= k < |lines| :: out[k] == lines[k]
      invariant forall k | 0 <= k < |lines| :: FuncName(out[k]) == FuncName(lines[k])
      invariant removed == ChangedIds("error-wrap::", lines[..i], out[..i])
    {
      var lineNum := i + 1;
      var line := out[i];
      if lineNum in entryLines {
        var found := FindEnclosingFunc(out, i);
        EnclosingFuncSame(out, lines, i);
        var funcName := if found.Some? then found.value else "operation";
        assert funcName == FuncLabel(lines, i);
        var changed;
        line, changed := WrapLine(line, funcName);
        if changed {
          removed := removed + ["error-wrap::" + NatToString(lineNum)];
        }
      }
      assert line == WrappedLine(lines, entryLines, i);
      WrapStep(lines, entryLines, out, i, line);
      out := out[i := line];
    }
    assert lines[..|lines|] == lines && out[..|lines|] == out;
    assert out == Wrapped(lines, entryLines);
  }

  /** `fix_error_wrap`: the shared file loop with this transform. */
  method FixErrorWrap(entries: seq<Entry>, dryRun: bool, files: map<string, string>, writeFails: set<string>)
    returns (results: seq<FixResult>, written: map<string, string>)
    ensures var groups := Groups(entries);
      var ps := SortedPaths(groups.Keys);
      results == Results(ps, groups, files, Transform) && written == Written(ps, groups, files, Transform, dryRun, writeFails)
  {
    results, written := ApplyFixer(entries, Transform, dryRun, files, writeFails);
  }
}
