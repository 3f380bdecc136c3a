/** Shared helpers of the Go fixers (desloppify/lang/go/fixers/common.py):
    the bracket scanner `find_balanced_end`, the blank-line filter
    `collapse_blank_lines`, the backward searches `find_enclosing_func` and
    `find_enclosing_for`. The file loop `apply_fixer` is in
    `fixer_apply.dfy`. */
module FixerCommon {
  import opened Wrappers
  import opened Text

  // ---------------------------------------------------------------------
  // find_balanced_end
  // ---------------------------------------------------------------------

  /** The `track` argument: which bracket kind ends the scan. */
  datatype Track = Parens | Braces

  /** `paren_depth` and `brace_depth`, carried from line to line. */
  datatype Depths = Depths(paren: int, brace: int)

  /** How a line's scan ends: at a closing bracket that balances the tracked
      kind, or at the end of the line with the depths reached. */
  datatype LineEnd = Closed | Open(depths: Depths)

  predicate IsQuote(ch: char)
  {
    ch == '\'' || ch == '"' || ch == '`'
  }

  /** The character loop over `line` from `k`, inside the quote `inStr` (if
      any), at depths `d`. A quote closes only when the character before it
      is not a backslash; brackets inside quotes are not counted. */
  function ScanLine(line: string, k: nat, inStr: Option<char>, d: Depths, track: Track): LineEnd
    requires k <= |line|
    decreases |line| - k
  {
    if k == |line| then Open(d)
    else
      var ch := line[k];
      if inStr.Some? then
        var closes := ch == inStr.value && (k == 0 || line[k - 1] != '\\');
        ScanLine(line, k + 1, if closes then None else inStr, d, track)
      else if IsQuote(ch) then ScanLine(line, k + 1, Some(ch), d, track)
      else if ch == '(' then ScanLine(line, k + 1, None, Depths(d.paren + 1, d.brace), track)
      else if ch == ')' then
        if track == Parens && d.paren - 1 <= 0 then Closed
        else ScanLine(line, k + 1, None, Depths(d.paren - 1, d.brace), track)
      else if ch == '{' then ScanLine(line, k + 1, None, Depths(d.paren, d.brace + 1), track)
      else if ch == '}' then
        if track == Braces && d.brace - 1 <= 0 then Closed
        else ScanLine(line, k + 1, None, Depths(d.paren, d.brace - 1), track)
      else ScanLine(line, k + 1, None, d, track)
  }

  /** The line loop from `idx` up to (not including) `stop`: the first line
      whose scan closes. Depths carry over; the quote state starts afresh on
      every line. */
  function BalancedFrom(lines: seq<string>, idx: nat, stop: nat, d: Depths, track: Track): (r: Option<nat>)
    requires stop <= |lines|
    ensures r.Some? ==> idx <= r.value < stop
    decreases stop - idx
  {
    if idx >= stop then None
    else
      match ScanLine(lines[idx], 0, None, d, track)
      case Closed => Some(idx)
      case Open(d') => BalancedFrom(lines, idx + 1, stop, d', track)
  }

  /** `find_balanced_end(lines, start, track=track, max_lines=maxLines)` */
  function BalancedEnd(lines: seq<string>, start: nat, track: Track, maxLines: nat): (r: Option<nat>)
    ensures r.Some? ==> start <= r.value < start + maxLines && r.value < |lines|
  {
    var stop := if start + maxLines < |lines| then start + maxLines else |lines|;
    BalancedFrom(lines, start, stop, Depths(0, 0), track)
  }

  /** Between `k` and `e` no quote `q` closes: every `q` there follows a
      backslash. */
  predicate NoCloseBetween(line: string, k: nat, e: nat, q: char)
    requires k <= e <= |line|
  {
    forall i | k <= i < e :: line[i] == q ==> i > 0 && line[i - 1] == '\\'
  }

  /** Inside a quote, the scan runs over everything up to the first quote
      that closes it. */
  lemma {:induction false} InQuote(line: string, k: nat, e: nat, q: char, d: Depths, track: Track)
    requires k <= e <= |line| && NoCloseBetween(line, k, e, q)
    ensures ScanLine(line, k, Some(q), d, track) == ScanLine(line, e, Some(q), d, track)
    decreases e - k
  {
    if k < e {
      InQuote(line, k + 1, e, q, d, track);
    }
  }

  /** A quoted segment is skipped whole: brackets inside it do not change the
      depths and cannot end the scan, and a quote after a backslash does not
      close it. */
  lemma QuotedSkipped(line: string, k: nat, e: nat, d: Depths, track: Track)
    requires k < e < |line| && IsQuote(line[k]) && line[e] == line[k]
    requires NoCloseBetween(line, k + 1, e, line[k]) && line[e - 1] != '\\'
    ensures ScanLine(line, k, None, d, track) == ScanLine(line, e + 1, None, d, track)
  {
    InQuote(line, k + 1, e, line[k], d, track);
  }

  /** `find_balanced_end` itself: the line loop and the character loop. */
  method FindBalancedEnd(lines: seq<string>, start: nat, track: Track, maxLines: nat) returns (r: Option<nat>)
    ensures r == BalancedEnd(lines, start, track, maxLines)
  {
    var parenDepth := 0;
    var braceDepth := 0;
    var stop := if start + maxLines < |lines| then start + maxLines else |lines|;
    var idx := start;
    while idx < stop
      invariant BalancedFrom(lines, idx, stop, Depths(parenDepth, braceDepth), track) == BalancedEnd(lines, start, track, maxLines)
      decreases stop - idx
    {
      var line := lines[idx];
      var inStr: Option<char> := None;
      var prevCh: string := "";
      ghost var d0 := Depths(parenDepth, braceDepth);
      for k := 0 to |line|
        invariant ScanLine(line, k, inStr, Depths(parenDepth, braceDepth), track) == ScanLine(line, 0, None, d0, track)
        invariant prevCh == if k == 0 then "" else [line[k - 1]]
      {
        var ch := line[k];
        if inStr.Some? {
          if ch == inStr.value && prevCh != "\\" {
            inStr := None;
          }
          prevCh := [ch];
          continue;
        }
        if IsQuote(ch) {
          inStr := Some(ch);
        } else if ch == '(' {
          parenDepth := parenDepth + 1;
        } else if ch == ')' {
          parenDepth := parenDepth - 1;
          if track == Parens && parenDepth <= 0 {
            return Some(idx);
          }
        } else if ch == '{' {
          braceDepth := braceDepth + 1;
        } else if ch == '}' {
          braceDepth := braceDepth - 1;
          if track == Braces && braceDepth <= 0 {
            return Some(idx);
          }
        }
        prevCh := [ch];
      }
      idx := idx + 1;
    }
    return None;
  }

  // ---------------------------------------------------------------------
  // collapse_blank_lines
  // ---------------------------------------------------------------------

  /** `result` after the first `n` lines. */
  function Collapsed(lines: seq<string>, removed: set<nat>, n: nat): (r: seq<string>)
    requires n <= |lines|
  {
    if n == 0 then []
    else
      var r := Collapsed(lines, removed, n - 1);
      var line := lines[n - 1];
      if n - 1 in removed then r
      else if IsBlank(line) && r != [] && IsBlank(r[|r| - 1]) then r
      else r + [line]
  }

  /** `collapse_blank_lines(lines, removed_indices)`; None and the empty set
      both remove nothing. */
  function CollapseBlankLines(lines: seq<string>, removed: set<nat>): seq<string>
  {
    Collapsed(lines, removed, |lines|)
  }

  /** The first `n` lines less the removed ones. */
  function Kept(lines: seq<string>, removed: set<nat>, n: nat): seq<string>
    requires n <= |lines|
  {
    if n == 0 then []
    else Kept(lines, removed, n - 1) + (if n - 1 in removed then [] else [lines[n - 1]])
  }

  /** The non-blank lines of `xs`, in order. */
  function NonBlank(xs: seq<string>): seq<string>
  {
    if xs == [] then []
    else NonBlank(xs[..|xs| - 1]) + (if IsBlank(xs[|xs| - 1]) then [] else [xs[|xs| - 1]])
  }

  lemma NonBlankSnoc(xs: seq<string>, x: string)
    ensures NonBlank(xs + [x]) == NonBlank(xs) + (if IsBlank(x) then [] else [x])
  {
    assert (xs + [x])[..|xs|] == xs;
  }

  predicate NoDoubleBlank(xs: seq<string>)
  {
    forall i | 0 <= i < |xs| - 1 :: !(IsBlank(xs[i]) && IsBlank(xs[i + 1]))
  }

  /** The result never has two blank lines in a row. */
  lemma {:induction false} CollapsedNoDoubleBlank(lines: seq<string>, removed: set<nat>, n: nat)
    requires n <= |lines|
    ensures NoDoubleBlank(Collapsed(lines, removed, n))
  {
    if n > 0 {
      CollapsedNoDoubleBlank(lines, removed, n - 1);
      var r := Collapsed(lines, removed, n - 1);
      var line := lines[n - 1];
      if n - 1 !in removed && !(IsBlank(line) && r != [] && IsBlank(r[|r| - 1])) {
        var r' := r + [line];
        assert forall i | 0 <= i < |r| :: r'[i] == r[i];
      }
    }
  }

  /** The result keeps every non-blank line that is not removed, in order,
      and no other non-blank line. */
  lemma {:induction false} CollapsedNonBlank(lines: seq<string>, removed: set<nat>, n: nat)
    requires n <= |lines|
    ensures NonBlank(Collapsed(lines, removed, n)) == NonBlank(Kept(lines, removed, n))
  {
    if n > 0 {
      CollapsedNonBlank(lines, removed, n - 1);
      var r := Collapsed(lines, removed, n - 1);
      var line := lines[n - 1];
      var k := Kept(lines, removed, n - 1);
      if n - 1 !in removed {
        assert Kept(lines, removed, n) == k + [line];
        NonBlankSnoc(k, line);
        if !(IsBlank(line) && r != [] && IsBlank(r[|r| - 1])) {
          assert Collapsed(lines, removed, n) == r + [line];
          NonBlankSnoc(r, line);
        } else {
          assert Collapsed(lines, removed, n) == r;
        }
      } else {
        assert Kept(lines, removed, n) == k + [];
        assert k + [] == k;
      }
    }
  }

  /** Every line of the result is a line that was not removed. */
  lemma {:induction false} CollapsedKept(lines: seq<string>, removed: set<nat>, n: nat)
    requires n <= |lines|
    ensures forall i | 0 <= i < |Collapsed(lines, removed, n)| :: Collapsed(lines, removed, n)[i] in Kept(lines, removed, n)
  {
    if n > 0 {
      CollapsedKept(lines, removed, n - 1);
      var r := Collapsed(lines, removed, n - 1);
      var k := Kept(lines, removed, n - 1);
      assert forall x | x in k :: x in Kept(lines, removed, n);
    }
  }

  /** The loop of `collapse_blank_lines`, with its `prev_blank` flag. */
  method CollapseBlank(lines: seq<string>, removed: set<nat>) returns (result: seq<string>)
    ensures result == CollapseBlankLines(lines, removed)
  {
    result := [];
    var prevBlank := false;
    for idx := 0 to |lines|
      invariant result == Collapsed(lines, removed, idx)
      invariant prevBlank == (result != [] && IsBlank(result[|result| - 1]))
    {
      var line := lines[idx];
      if idx in removed {
        continue;
      }
      var isBlank := Strip(line) == "";
      if isBlank && prevBlank {
        continue;
      }
      result := result + [line];
      prevBlank := isBlank;
    }
  }

  // ---------------------------------------------------------------------
  // find_enclosing_func
  // ---------------------------------------------------------------------

  /** `_FUNC_RE.match(line)`, i.e. `^func\s+(?:\([^)]*\)\s+)?(\w+)\s*\(`:
      the function or method name. A `(` after `func\s+` must open a
      receiver, since the name cannot start with it. */
  function FuncName(line: string): Option<string>
  {
    if !At(line, 0, "func") then None
    else
      var a := Spaces1(line, 4);
      if a < 0 then None
      else
        var b := if a < |line| && line[a] == '(' then
                   (var c := FindChar(line, ')', a + 1); if c < 0 then -1 else Spaces1(line, c + 1))
                 else a;
        if b < 0 then None
        else
          var w := WordEnd(line, b);
          var q := SkipSpace(line, w);
          if w > b && q < |line| && line[q] == '(' then Some(line[b..w]) else None
  }

  /** The backward search from `i`: the name of the nearest header. */
  function EnclosingFunc(lines: seq<string>, i: nat): Option<string>
    requires i < |lines|
  {
    if FuncName(lines[i]).Some? then FuncName(lines[i])
    else if i == 0 then None
    else EnclosingFunc(lines, i - 1)
  }

  /** There is no name exactly when no line up to `i` is a header. */
  lemma {:induction false} EnclosingFuncNone(lines: seq<string>, i: nat)
    requires i < |lines|
    ensures EnclosingFunc(lines, i).None? <==> forall k | 0 <= k <= i :: FuncName(lines[k]).None?
  {
    if FuncName(lines[i]).None? && i > 0 {
      EnclosingFuncNone(lines, i - 1);
    }
  }

  /** The header a found name comes from: at or above `i`, with no header
      between it and `i`. */
  lemma {:induction false} HeaderAbove(lines: seq<string>, i: nat) returns (k: nat)
    requires i < |lines| && EnclosingFunc(lines, i).Some?
    ensures k <= i && FuncName(lines[k]) == EnclosingFunc(lines, i)
    ensures forall m | k < m <= i :: FuncName(lines[m]).None?
  {
    if FuncName(lines[i]).Some? {
      k := i;
    } else {
      k := HeaderAbove(lines, i - 1);
    }
  }

  /** The name is that of the nearest header at or above `i`, and there is
      none exactly when no line up to `i` is a header. */
  lemma EnclosingFuncSpec(lines: seq<string>, i: nat)
    requires i < |lines|
    ensures EnclosingFunc(lines, i).None? <==> forall k | 0 <= k <= i :: FuncName(lines[k]).None?
    ensures EnclosingFunc(lines, i).Some? ==>
      exists k | 0 <= k <= i :: FuncName(lines[k]) == EnclosingFunc(lines, i)
        && forall m | k < m <= i :: FuncName(lines[m]).None?
  {
    EnclosingFuncNone(lines, i);
    if EnclosingFunc(lines, i).Some? {
      var k := HeaderAbove(lines, i);
    }
  }

  /** The search sees only the headers: two line lists with the same
      headers up to `i` give the same name. */
  lemma {:induction false} EnclosingFuncSame(a: seq<string>, b: seq<string>, i: nat)
    requires i < |a| && i < |b|
    requires forall k | 0 <= k <= i :: FuncName(a[k]) == FuncName(b[k])
    ensures EnclosingFunc(a, i) == EnclosingFunc(b, i)
  {
    if FuncName(a[i]).None? && i > 0 {
      EnclosingFuncSame(a, b, i - 1);
    }
  }

  /** `find_enclosing_func(lines, line_idx)` */
  method FindEnclosingFunc(lines: seq<string>, lineIdx: nat) returns (r: Option<string>)
    requires lineIdx < |lines|
    ensures r == EnclosingFunc(lines, lineIdx)
  {
    var i: nat := lineIdx;
    while true
      invariant i <= lineIdx
      invariant EnclosingFunc(lines, i) == EnclosingFunc(lines, lineIdx)
      decreases i
    {
      var m := FuncName(lines[i]);
      if m.Some? {
        return m;
      }
      if i == 0 {
        return None;
      }
      i := i - 1;
    }
  }

  // ---------------------------------------------------------------------
  // find_enclosing_for
  // ---------------------------------------------------------------------

  /** `_FOR_RE.match(line)`, i.e. `^\s*for\s+`. */
  predicate ForLine(line: string)
  {
    var g := SkipSpace(line, 0);
    At(line, g, "for") && Spaces1(line, g + 3) >= 0
  }

  /** What a line adds to the backward brace balance: +1 per `}`, -1 per
      `{`. */
  function LineBalance(line: string): int
  {
    CountChar(line, '}') - CountChar(line, '{')
  }

  /** The backward balance of lines `k..i`. */
  function Balance(lines: seq<string>, k: nat, i: nat): int
    requires k <= i < |lines|
    decreases i - k
  {
    if k == i then LineBalance(lines[i]) else LineBalance(lines[k]) + Balance(lines, k + 1, i)
  }

  /** The backward search from `i`, the balance of the lines below it being
      `depth`. */
  function EnclosingForFrom(lines: seq<string>, i: nat, depth: int): Option<nat>
    requires i < |lines|
  {
    var d := depth + LineBalance(lines[i]);
    if ForLine(lines[i]) && d == -1 then Some(i)
    else if d < 0 then None
    else if i == 0 then None
    else EnclosingForFrom(lines, i - 1, d)
  }

  /** `find_enclosing_for(lines, line_idx)` */
  function EnclosingFor(lines: seq<string>, i: nat): Option<nat>
    requires i < |lines|
  {
    EnclosingForFrom(lines, i, 0)
  }

  /** The loop found is the nearest `for` line at whose level the backward
      balance up to `idx` is exactly -1, and no line in between takes that
      balance below 0. */
  lemma {:induction false} EnclosingForFound(lines: seq<string>, i: nat, idx: nat, depth: int)
    requires i <= idx < |lines|
    requires i == idx ==> depth == 0
    requires i < idx ==> depth == Balance(lines, i + 1, idx)
    requires EnclosingForFrom(lines, i, depth).Some?
    ensures var f := EnclosingForFrom(lines, i, depth).value;
      && f <= i && ForLine(lines[f]) && Balance(lines, f, idx) == -1
      && forall m | f < m <= i :: Balance(lines, m, idx) >= 0 && !(ForLine(lines[m]) && Balance(lines, m, idx) == -1)
    decreases i
  {
    var d := depth + LineBalance(lines[i]);
    assert d == Balance(lines, i, idx);
    if !(ForLine(lines[i]) && d == -1) {
      EnclosingForFound(lines, i - 1, idx, d);
    }
  }

  /** When there is no such loop, every `for` line above with balance -1 is
      cut off by a line below it whose balance is negative. */
  lemma {:induction false} EnclosingForNone(lines: seq<string>, i: nat, idx: nat, depth: int)
    requires i <= idx < |lines|
    requires i == idx ==> depth == 0
    requires i < idx ==> depth == Balance(lines, i + 1, idx)
    requires EnclosingForFrom(lines, i, depth).None?
    ensures forall k | 0 <= k <= i && ForLine(lines[k]) && Balance(lines, k, idx) == -1 ::
      exists m | k < m <= i :: Balance(lines, m, idx) < 0
    decreases i
  {
    var d := depth + LineBalance(lines[i]);
    assert d == Balance(lines, i, idx);
    if d >= 0 && i > 0 {
      EnclosingForNone(lines, i - 1, idx, d);
      forall k | 0 <= k <= i && ForLine(lines[k]) && Balance(lines, k, idx) == -1
        ensures exists m | k < m <= i :: Balance(lines, m, idx) < 0
      {
        assert k < i;
        var m :| k < m <= i - 1 && Balance(lines, m, idx) < 0;
      }
      assert forall k | 0 <= k <= i && ForLine(lines[k]) && Balance(lines, k, idx) == -1 :: exists m | k < m <= i :: Balance(lines, m, idx) < 0;
    } else if d < 0 {
      forall k | 0 <= k <= i && ForLine(lines[k]) && Balance(lines, k, idx) == -1
        ensures exists m | k < m <= i :: Balance(lines, m, idx) < 0
      {
        assert Balance(lines, i, idx) < 0;
      }
    } else {
      assert i == 0 && Balance(lines, 0, idx) >= 0;
    }
  }

  /** The loop found is at or above the line. */
  lemma EnclosingForAbove(lines: seq<string>, idx: nat)
    requires idx < |lines| && EnclosingFor(lines, idx).Some?
    ensures EnclosingFor(lines, idx).value <= idx && ForLine(lines[EnclosingFor(lines, idx).value])
  {
    EnclosingForFound(lines, idx, idx, 0);
  }

  /** `find_enclosing_for` itself: the backward line loop and the reversed
      character loop. */
  method FindEnclosingFor(lines: seq<string>, lineIdx: nat) returns (r: Option<nat>)
    requires lineIdx < |lines|
    ensures r == EnclosingFor(lines, lineIdx)
  {
    var braceDepth := 0;
    var i: nat := lineIdx;
    while true
      invariant i <= lineIdx
      invariant EnclosingForFrom(lines, i, braceDepth) == EnclosingFor(lines, lineIdx)
      decreases i
    {
      var line := lines[i];
      ghost var before := braceDepth;
      for c := |line| downto 0
        invariant braceDepth == before + LineBalance(line[c..])
      {
        assert line[c..] == [line[c]] + line[c + 1..];
        if line[c] == '}' {
          braceDepth := braceDepth + 1;
        } else if line[c] == '{' {
          braceDepth := braceDepth - 1;
        }
      }
      assert line[0..] == line;
      if ForLine(line) && braceDepth == -1 {
        return Some(i);
      }
      if braceDepth < 0 {
        return None;
      }
      if i == 0 {
        return None;
      }
      i := i - 1;
    }
  }
}
