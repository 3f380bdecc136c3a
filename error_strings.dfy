/** The `error_strings` fixer (desloppify/lang/go/fixers/error_strings.py):
    on each flagged line, the first error literal that starts with a capital
    letter is lower-cased and loses a trailing period. */
module ErrorStrings {
  import opened Wrappers
  import opened Text
  import Smells
  import opened FixerApply

  // ---------------------------------------------------------------------
  // detect_error_strings
  // ---------------------------------------------------------------------

  /** `f"error_string::{m['line']}"` */
  function EntryName(id: Smells.SmellId, line: nat): string
  {
    "error_string::" + NatToString(line)
  }

  /** `detect_error_strings`: the samples of `error_string_format`. */
  function DetectErrorStrings(entries: seq<Smells.Entry>): (r: seq<Entry>)
    ensures forall x | x in r :: exists e, m | e in entries && m in e.matches ::
      e.id == Smells.ErrorStringFormat && x == Smells.FixEntry(m.file, m.line, "error_string::" + NatToString(m.line), m.content)
  {
    Smells.Flatten(entries, {Smells.ErrorStringFormat}, EntryName)
  }

  /** No sample of the smell is lost. */
  lemma DetectErrorStringsComplete(entries: seq<Smells.Entry>, e: Smells.Entry, m: Smells.Match)
    requires e in entries && e.id == Smells.ErrorStringFormat && m in e.matches
    ensures Smells.FixEntry(m.file, m.line, "error_string::" + NatToString(m.line), m.content) in DetectErrorStrings(entries)
  {
    Smells.FlattenComplete(entries, {Smells.ErrorStringFormat}, EntryName, e, m);
  }

  // ---------------------------------------------------------------------
  // _ERROR_STRING_RE
  // ---------------------------------------------------------------------

  /** `((?:errors\.New|fmt\.Errorf)\s*\(\s*")([A-Z])` at `k`: the index of
      the capital letter, or -1. Both names are ten characters long. */
  function LiteralHead(s: string, k: nat): int
  {
    if !(At(s, k, "errors.New") || At(s, k, "fmt.Errorf")) then -1
    else
      var a := Spaces0(s, k + 10);
      if !CharAt(s, a, '(') then -1
      else
        var b := Spaces0(s, a + 1);
        if CharAt(s, b, '"') && b + 1 < |s| && IsUpper(s[b + 1]) then b + 1 else -1
  }

  /** `(?:[^"\\]|\\.)*"` from `j`: the index after the closing quote, or -1.
      A backslash takes the next character with it unless that is a
      newline (`.`); the loop can only stop at a quote, so backtracking
      never finds another match. */
  function LiteralEnd(s: string, j: nat): (e: int)
    ensures e == -1 || (j < e <= |s| && s[e - 1] == '"')
    decreases |s| - j
  {
    if j >= |s| then -1
    else if s[j] == '"' then j + 1
    else if s[j] == '\\' then (if j + 1 < |s| && s[j + 1] != '\n' then LiteralEnd(s, j + 2) else -1)
    else LiteralEnd(s, j + 1)
  }

  /** The pattern matches at `k`. */
  predicate MatchAt(s: string, k: nat)
  {
    LiteralHead(s, k) >= 0 && LiteralEnd(s, LiteralHead(s, k) + 1) >= 0
  }

  /** `_ERROR_STRING_RE.search(s)` from `k`: the leftmost match start. */
  function SearchFrom(s: string, k: nat): (r: Option<nat>)
    requires k <= |s|
    ensures r.Some? ==> k <= r.value <= |s| && MatchAt(s, r.value)
    decreases |s| - k
  {
    if MatchAt(s, k) then Some(k)
    else if k == |s| then None
    else SearchFrom(s, k + 1)
  }

  /** The match found is the leftmost one. */
  lemma {:induction false} SearchFromLeftmost(s: string, k: nat, j: nat)
    requires k <= j <= |s|
    requires SearchFrom(s, k).None? || j < SearchFrom(s, k).value
    ensures !MatchAt(s, j)
    decreases |s| - k
  {
    if k < j {
      SearchFromLeftmost(s, k + 1, j);
    }
  }

  /** A match: its start, the index of the capital letter (group 2) and
      its end. */
  datatype Span = Span(start: nat, letter: nat, end: nat)

  /** `_ERROR_STRING_RE.search(line)` */
  function Search(line: string): (r: Option<Span>)
    ensures r.Some? ==> var m := r.value;
      m.start < m.letter < m.end <= |line| && IsUpper(line[m.letter]) && line[m.end - 1] == '"'
  {
    match SearchFrom(line, 0)
    case None => None
    case Some(k) =>
      var q := LiteralHead(line, k);
      Some(Span(k, q, LiteralEnd(line, q + 1)))
  }

  // ---------------------------------------------------------------------
  // The rewrite of one line
  // ---------------------------------------------------------------------

  /** Group 3 after `if rest.endswith('."'): rest = rest[:-2] + '"'`. */
  function StripPeriod(rest: string): string
  {
    if EndsWith(rest, ".\"") then rest[..|rest| - 2] + "\"" else rest
  }

  /** `line[:m.start()] + new_segment + line[m.end():]` for a match `m`. */
  function Splice(line: string, m: Span): (r: string)
    requires m.start <= m.letter < m.end <= |line|
  {
    line[..m.start] + (line[m.start..m.letter] + [ToLower(line[m.letter])] + StripPeriod(line[m.letter + 1..m.end]))
    + line[m.end..]
  }

  /** The new text of a line that holds a capital error literal: the text
      before the match, the prefix (group 1), the lowered letter, the rest
      of the literal (group 3) and the text after the match. */
  function FixLine(line: string): Option<string>
  {
    match Search(line)
    case None => None
    case Some(m) => Some(Splice(line, m))
  }

  /** A splice keeps everything before the letter and everything after the
      match, and lower-cases the letter. */
  lemma SpliceKeeps(line: string, m: Span)
    requires m.start <= m.letter < m.end <= |line| && IsUpper(line[m.letter])
    ensures var r := Splice(line, m);
      && m.letter < |r| && r[..m.letter] == line[..m.letter] && IsLower(r[m.letter])
      && EndsWith(r, line[m.end..])
  {
    var r := Splice(line, m);
    var rest := StripPeriod(line[m.letter + 1..m.end]);
    assert r == line[..m.letter] + [ToLower(line[m.letter])] + rest + line[m.end..];
  }

  /** The rewrite keeps everything before the capital letter and
      everything after the literal, and lower-cases the letter. */
  lemma FixLineKeeps(line: string)
    requires FixLine(line).Some?
    ensures var m := Search(line).value;
      var r := FixLine(line).value;
      && m.letter < |r| && r[..m.letter] == line[..m.letter] && IsLower(r[m.letter])
      && EndsWith(r, line[m.end..])
  {
    SpliceKeeps(line, Search(line).value);
  }

  /** One period is dropped exactly when the literal ends in `."`. */
  lemma FixLineLength(line: string)
    requires FixLine(line).Some?
    ensures var m := Search(line).value;
      |FixLine(line).value| == if EndsWith(line[m.letter + 1..m.end], ".\"") then |line| - 1 else |line|
  {
  }

  /** The literal just rewritten is not matched again at its start: its
      first letter is now lower-case. */
  lemma FixLineFinal(line: string)
    requires FixLine(line).Some?
    ensures !MatchAt(FixLine(line).value, Search(line).value.start)
  {
    var m := Search(line).value;
    FixLineKeeps(line);
    LiteralHeadSame(line, FixLine(line).value, m.start, m.letter);
  }

  /** A line that agrees with `s` before `q` and has no capital at `q` has
      no literal head at `k`. */
  lemma LiteralHeadSame(s: string, t: string, k: nat, q: nat)
    requires LiteralHead(s, k) == q >= 0 && q < |t| && t[..q] == s[..q] && !IsUpper(t[q])
    ensures LiteralHead(t, k) == -1
  {
    var a := Spaces0(s, k + 10);
    var b := Spaces0(s, a + 1);
    assert k + 10 <= a < b && b + 1 == q;
    SkipSpaceAgree(s, t, k + 10, q);
    SkipSpaceAgree(s, t, a + 1, q);
    PrefixAgree(s, t, q, k, k + 10);
    PrefixAgree(s, t, q, a, q);
    assert Spaces0(t, k + 10) == a && t[a] == '(';
    assert Spaces0(t, a + 1) == b && t[b] == '"';
  }

  /** Two strings with the same first `q` characters agree on every slice
      below `q`. */
  lemma PrefixAgree(s: string, t: string, q: nat, i: nat, j: nat)
    requires i <= j <= q <= |s| && q <= |t| && s[..q] == t[..q]
    ensures s[i..j] == t[i..j] && forall p | i <= p < j :: s[p] == t[p]
  {
    assert s[i..j] == s[..q][i..j];
    assert t[i..j] == t[..q][i..j];
    assert forall p | i <= p < j :: s[p] == s[i..j][p - i] && t[p] == t[i..j][p - i];
  }

  /** `SkipSpace` stops at the same index in two strings that agree up to
      a point beyond that index. */
  lemma {:induction false} SkipSpaceAgree(s: string, t: string, i: nat, n: nat)
    requires i <= |s| && SkipSpace(s, i) < n <= |s| && n <= |t| && s[..n] == t[..n]
    ensures i <= |t| && SkipSpace(t, i) == SkipSpace(s, i)
    decreases |s| - i
  {
    assert s[i] == s[..n][i] == t[..n][i] == t[i];
    if IsSpace(s[i]) {
      SkipSpaceAgree(s, t, i + 1, n);
    }
  }

  /** A rewrite always changes the line. */
  lemma FixLineChanges(line: string)
    requires FixLine(line).Some?
    ensures FixLine(line).value != line
  {
    FixLineKeeps(line);
  }

  // ---------------------------------------------------------------------
  // The transform
  // ---------------------------------------------------------------------

  /** `_transform` as a function: every flagged line with a capital
      literal rewritten, one `error-string::<line>` id per changed line. */
  function Transform(lines: seq<string>, es: seq<Entry>): (seq<string>, seq<string>)
  {
    var out := Rewritten(lines, LineSet(es), FixLine);
    (out, ChangedIds("error-string::", lines, out))
  }

  /** The splice of one match, step by step. */
  method LowerLiteral(line: string, m: Span) returns (r: string)
    requires m.start <= m.letter < m.end <= |line|
    ensures r == Splice(line, m)
  {
    var prefix := line[m.start..m.letter];
    var firstChar := line[m.letter];
    var rest := line[m.letter + 1..m.end];
    var newFirst := ToLower(firstChar);
    if EndsWith(rest, ".\"") {
      rest := rest[..|rest| - 2] + "\"";
    }
    var newSegment := prefix + [newFirst] + rest;
    r := line[..m.start] + newSegment + line[m.end..];
  }

  /** `_transform`: rewrite the flagged lines in place. */
  method LowerErrorStrings(lines: seq<string>, es: seq<Entry>) returns (out: seq<string>, removed: seq<string>)
    ensures (out, removed) == Transform(lines, es)
  {
    var entryLines := set e | e in es :: e.line;
    assert entryLines == LineSet(es);
    out := lines;
    removed := [];
    for i := 0 to |lines|
      invariant |out| == |lines|
      invariant forall k | 0 <= k < i :: out[k] == RewrittenLine(lines[k], k, entryLines, FixLine)
      invariant forall k | i <= k < |lines| :: out[k] == lines[k]
      invariant removed == ChangedIds("error-string::", lines[..i], out[..i])
    {
      var line := out[i];
      if i + 1 in entryLines {
        var found := Search(line);
        if found.Some? {
          FixLineChanges(line);
          line := LowerLiteral(line, found.value);
          removed := removed + ["error-string::" + NatToString(i + 1)];
        }
      }
      RewriteStep("error-string::", lines, entryLines, FixLine, out, i, line);
      out := out[i := line];
    }
    RewriteDone(lines, entryLines, FixLine, out);
  }

  /** A flagged line without a capital error literal, and every unflagged
      line, is left as it is. */
  lemma TransformKeeps(lines: seq<string>, es: seq<Entry>, k: nat)
    requires k < |lines| && (k + 1 !in LineSet(es) || Search(lines[k]).None?)
    ensures Transform(lines, es).0[k] == lines[k]
  {
  }

  /** A flagged line with a capital error literal is rewritten. */
  lemma TransformRewrites(lines: seq<string>, es: seq<Entry>, k: nat)
    requires k < |lines| && k + 1 in LineSet(es) && Search(lines[k]).Some?
    ensures Transform(lines, es).0[k] == Splice(lines[k], Search(lines[k]).value) != lines[k]
  {
    FixLineChanges(lines[k]);
  }

  /** `fix_error_strings`: the shared file loop with this transform. */
  method FixErrorStrings(entries: seq<Entry>, dryRun: bool, files: map<string, string>, writeFails: set<string>)
    returns (results: seq<FixResult>, written: map<string, string>)
    ensures var groups := Groups(entries);
      var ps := SortedPaths(groups.Keys);
      results == Results(ps, groups, files, Transform) && written == Written(ps, groups, files, Transform, dryRun, writeFails)
  {
    results, written := ApplyFixer(entries, Transform, dryRun, files, writeFails);
  }
}
