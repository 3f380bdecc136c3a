/** The three complexity signals computed over one Go file
    (desloppify/lang/go/detectors/complexity.py):
    - `compute_max_params`: the most parameters in a `func` header;
    - `compute_nesting_depth`: the deepest brace nesting outside literals;
    - `compute_long_functions`: the longest function over 80 lines.
    The regex `finditer` / `search` calls become recursive functions over
    the text; the source's own loops are methods proved equal to
    specification functions that follow the same steps. */
module GoComplexity {
  import opened Wrappers
  import opened Text
  import opened Signals

  /** `^` in MULTILINE mode matches at `p`. */
  predicate LineStart(s: string, p: nat)
  {
    p == 0 || (p <= |s| && s[p - 1] == '\n')
  }

  // ---------------------------------------------------------------------
  // The header regexes
  // ---------------------------------------------------------------------

  /** `(?:\([^)]+\)\s+)?` at `a`: where what follows starts, or -1. A `(`
      here must open a receiver, since `\w+` cannot start with it. */
  function ReceiverEnd(s: string, a: nat): (r: int)
    requires a <= |s|
    ensures r == -1 || a <= r <= |s|
  {
    if a < |s| && s[a] == '(' then
      var c := FindChar(s, ')', a + 1);
      if c <= a + 1 then -1 else Spaces1(s, c + 1)
    else a
  }

  /** `func\s+(?:\([^)]+\)\s+)?(\w+)` at `p`: the bounds of the name. Each
      part is greedy and what follows it cannot start with what it consumes,
      so the match is unique. */
  function NameSpan(s: string, p: nat): (r: Option<(nat, nat)>)
    requires p <= |s|
    ensures r.Some? ==> p + 4 < r.value.0 < r.value.1 <= |s|
  {
    if !At(s, p, "func") then None
    else
      var a := Spaces1(s, p + 4);
      if a < 0 then None
      else
        var b := ReceiverEnd(s, a);
        if b < 0 then None
        else
          var w := WordEnd(s, b);
          if w == b then None else Some((b, w))
  }

  /** `func\s+(?:\([^)]+\)\s+)?\w+\s*\(` at `p`: the index just past `(`. */
  function ParamsStart(s: string, p: nat): (r: Option<nat>)
    requires p <= |s|
    ensures r.Some? ==> p < r.value <= |s| && s[r.value - 1] == '('
  {
    match NameSpan(s, p)
    case None => None
    case Some(span) =>
      var q := SkipSpace(s, span.1);
      if q < |s| && s[q] == '(' then Some(q + 1) else None
  }

  /** `func\s+(?:\([^)]+\)\s+)?\w+\s*\(` matches at `p`, read off at given
      indices: `\s+` takes `s[p + 4..a]`; when `a < b` a receiver `(` sits
      at `a`, its text `s[a + 1..c]` holds no `)`, its `)` sits at `c` and
      `\s+` takes `s[c + 1..b]` (when `a == b` there is no receiver and `c`
      plays no part); the name is `s[b..e]`, `\s*` takes `s[e..o]`, and the
      parameter list opens at `o`. */
  predicate HeaderShape(s: string, p: nat, a: nat, c: nat, b: nat, e: nat, o: nat)
  {
    p + 4 < a <= b < e <= o < |s| && s[p..p + 4] == "func" && AllSpace(s[p + 4..a])
    && (a == b || (s[a] == '(' && a + 1 < c && c + 1 < b && ')' !in s[a + 1..c] && s[c] == ')'
                   && AllSpace(s[c + 1..b])))
    && IsWord(s[b..e]) && AllSpace(s[e..o]) && s[o] == '('
  }

  /** Every header is found, and its parameter list starts just past the
      `(` after the name: a receiver's `(...)` is never taken for it. */
  lemma ParamsStartComplete(s: string, p: nat, a: nat, c: nat, b: nat, e: nat, o: nat)
    requires HeaderShape(s, p, a, c, b, e, o)
    ensures NameSpan(s, p) == Some((b, e)) && ParamsStart(s, p) == Some(o + 1)
  {
    assert At(s, p, "func");
    assert forall k | p + 4 <= k < a :: s[k] == s[p + 4..a][k - p - 4];
    assert IsWordChar(s[b..e][0]);
    SkipSpaceUpTo(s, p + 4, a);
    ReceiverAt(s, a, c, b);
    NameAt(s, b, e, o);
  }

  /** The optional receiver ends where the shape says. */
  lemma ReceiverAt(s: string, a: nat, c: nat, b: nat)
    requires a <= b < |s| && IsWordChar(s[b])
    requires a == b || (s[a] == '(' && a + 1 < c && c + 1 < b && ')' !in s[a + 1..c] && s[c] == ')'
                        && AllSpace(s[c + 1..b]))
    ensures ReceiverEnd(s, a) == b
  {
    if a < b {
      assert forall k | a + 1 <= k < c :: s[k] == s[a + 1..c][k - a - 1];
      assert forall k | c + 1 <= k < b :: s[k] == s[c + 1..b][k - c - 1];
      FindCharAt(s, ')', a + 1, c);
      SkipSpaceUpTo(s, c + 1, b);
    }
  }

  /** The name and the spaces before the parameter list. */
  lemma NameAt(s: string, b: nat, e: nat, o: nat)
    requires b < e <= o < |s| && IsWord(s[b..e]) && AllSpace(s[e..o]) && s[o] == '('
    ensures WordEnd(s, b) == e && SkipSpace(s, e) == o
  {
    assert forall k | b <= k < e :: s[k] == s[b..e][k - b];
    assert forall k | e <= k < o :: s[k] == s[e..o][k - e];
    WordEndAt(s, b, e);
    SkipSpaceUpTo(s, e, o);
  }

  /** Every header found has that shape. */
  lemma ParamsStartSound(s: string, p: nat) returns (a: nat, c: nat, b: nat, e: nat, o: nat)
    requires p <= |s| && ParamsStart(s, p).Some?
    ensures HeaderShape(s, p, a, c, b, e, o) && ParamsStart(s, p) == Some(o + 1)
  {
    a, c, b, e, o := HeaderFacts(s, p);
    HeaderShapeOfScan(s, p, a, c, b, e, o);
  }

  /** What a header found tells about the scan's stopping points. */
  lemma HeaderFacts(s: string, p: nat) returns (a: nat, c: nat, b: nat, e: nat, o: nat)
    requires p <= |s| && ParamsStart(s, p).Some?
    ensures At(s, p, "func") && p + 4 < a == SkipSpace(s, p + 4) <= |s|
    ensures b == ReceiverEnd(s, a) && a <= b < e == WordEnd(s, b) && o == SkipSpace(s, e) < |s| && s[o] == '('
    ensures c == (if s[a] == '(' then FindChar(s, ')', a + 1) else 0)
    ensures ParamsStart(s, p) == Some(o + 1)
  {
    var span := NameSpan(s, p).value;
    a := Spaces1(s, p + 4);
    b, e := span.0, span.1;
    o := SkipSpace(s, e);
    c := if s[a] == '(' then FindChar(s, ')', a + 1) else 0;
  }

  /** The scan's stopping points give the header's shape. */
  lemma HeaderShapeOfScan(s: string, p: nat, a: nat, c: nat, b: nat, e: nat, o: nat)
    requires At(s, p, "func") && p + 4 < a == SkipSpace(s, p + 4) <= |s|
    requires b == ReceiverEnd(s, a) && a <= b < e == WordEnd(s, b) && o == SkipSpace(s, e) < |s| && s[o] == '('
    requires c == (if s[a] == '(' then FindChar(s, ')', a + 1) else 0)
    ensures HeaderShape(s, p, a, c, b, e, o)
  {
    SpaceRun(s, p + 4, a);
    WordRun(s, b);
    SpaceRun(s, e, o);
    ReceiverShape(s, a, c, b);
  }

  /** The receiver the scan passed, if any, has the shape's form. */
  lemma ReceiverShape(s: string, a: nat, c: nat, b: nat)
    requires a < |s| && b == ReceiverEnd(s, a) && a <= b < |s|
    requires c == (if s[a] == '(' then FindChar(s, ')', a + 1) else 0)
    ensures a == b || (s[a] == '(' && a + 1 < c && c + 1 < b && ')' !in s[a + 1..c] && s[c] == ')'
                       && AllSpace(s[c + 1..b]))
  {
    if s[a] == '(' {
      FindCharFirst(s, ')', a + 1);
      assert forall k | a + 1 <= k < c :: s[a + 1..c][k - a - 1] == s[k];
      SpaceRun(s, c + 1, b);
    }
  }

  /** `func_re.finditer(content)` of `compute_max_params`, searching from
      `p`: the end of each match, i.e. where its parameter list starts, just
      past its `(`. */
  function ParamHeaders(s: string, p: nat): (r: seq<nat>)
    requires p <= |s|
    ensures forall j | 0 <= j < |r| :: p < r[j] <= |s| && s[r[j] - 1] == '('
    decreases |s| - p
  {
    if p == |s| then []
    else if LineStart(s, p) && ParamsStart(s, p).Some? then
      [ParamsStart(s, p).value] + ParamHeaders(s, ParamsStart(s, p).value)
    else ParamHeaders(s, p + 1)
  }

  // ---------------------------------------------------------------------
  // compute_max_params
  // ---------------------------------------------------------------------

  /** The `while i < len(content) and depth > 0` loop: the final `(i, depth)`. */
  function CloseParen(s: string, i: nat, depth: int): (r: (nat, int))
    requires i <= |s|
    ensures i <= r.0 <= |s|
    ensures r.0 == i ==> r.1 == depth
    decreases |s| - i
  {
    if i < |s| && depth > 0 then CloseParen(s, i + 1, depth + Delta(s[i], '(', ')')) else (i, depth)
  }

  /** The parameter text of a list opening just before `start`
      (`content[start:i - 1]`), or None when its parentheses never close. */
  function ParamText(s: string, start: nat): Option<string>
    requires start <= |s|
  {
    var r := CloseParen(s, start, 1);
    if r.1 != 0 then None else Some(s[start..r.0 - 1])
  }

  /** The parameter count of a parameter text, or None when it is blank
      (the `if not param_str: continue`). */
  function ParamCount(t: string): Option<nat>
  {
    var p := Strip(t);
    if p == [] then None else Some(NonBlankCount(Split(p, ',')))
  }

  /** What one header contributes: the count of its parameters, or None
      when its list never closes or is blank. */
  function HeaderParams(s: string, start: nat): Option<nat>
    requires start <= |s|
  {
    match ParamText(s, start)
    case None => None
    case Some(t) => ParamCount(t)
  }

  /** What the headers `hs` contribute, in order. */
  function HeaderCounts(s: string, hs: seq<nat>): (r: seq<Option<nat>>)
    requires forall j | 0 <= j < |hs| :: hs[j] <= |s|
    ensures |r| == |hs|
  {
    seq(|hs|, j requires 0 <= j < |hs| => HeaderParams(s, hs[j]))
  }

  /** `compute_max_params(content, lines)` */
  function MaxParamsSignal(s: string): Option<Signal>
  {
    var m := MaxOf(HeaderCounts(s, ParamHeaders(s, 0)));
    if m > 5 then Some(Signal(m, "function with " + NatToString(m) + " params")) else None
  }

  /** A signal is reported exactly when some header has more than five
      parameters, and its value is the largest count. */
  lemma MaxParamsSignalSpec(s: string)
    ensures var hs := ParamHeaders(s, 0);
      && (MaxParamsSignal(s).Some? <==> exists j | 0 <= j < |hs| :: HeaderParams(s, hs[j]).Some? && HeaderParams(s, hs[j]).value > 5)
      && (MaxParamsSignal(s).Some? ==>
            (forall j | 0 <= j < |hs| :: HeaderParams(s, hs[j]).Some? ==> HeaderParams(s, hs[j]).value <= MaxParamsSignal(s).value.value)
            && exists j | 0 <= j < |hs| :: HeaderParams(s, hs[j]) == Some(MaxParamsSignal(s).value.value))
  {
    var hs := ParamHeaders(s, 0);
    var xs := HeaderCounts(s, hs);
    MaxOfSpec(xs);
    assert forall j | 0 <= j < |hs| :: xs[j] == HeaderParams(s, hs[j]);
  }

  /** The depth loop stops at the `)` that balances the `(` before `start`:
      inside the list the parentheses balance and never close more than they
      open, so nested parentheses do not end it. */
  lemma ParamTextBalanced(s: string, start: nat)
    requires start <= |s|
    ensures match ParamText(s, start)
      case None => true
      case Some(t) =>
        start + |t| < |s| && s[start + |t|] == ')' && Net(t, '(', ')') == 0
        && forall k | 0 <= k <= |t| :: Net(t[..k], '(', ')') >= 0
  {
    CloseParenSpec(s, start, 1);
    var r := CloseParen(s, start, 1);
    if r.1 == 0 {
      var t := s[start..r.0 - 1];
      forall k | 0 <= k <= |t|
        ensures Net(t[..k], '(', ')') >= 0
      {
        assert t[..k] == s[start..start + k];
      }
    }
  }

  /** The paren loop from `i` at `depth > 0`: when it reaches depth 0 it ends
      just past a `)`, the depth before that `)` is 1 and never drops
      below 1 before it. */
  lemma {:induction false} CloseParenSpec(s: string, i: nat, depth: int)
    requires i <= |s| && depth > 0
    ensures var r := CloseParen(s, i, depth);
      r.1 == 0 ==>
        i < r.0 && s[r.0 - 1] == ')' && depth + Net(s[i..r.0 - 1], '(', ')') == 1
        && forall k | i <= k <= r.0 - 1 :: depth + Net(s[i..k], '(', ')') >= 1
    decreases |s| - i
  {
    if i < |s| {
      var d := depth + Delta(s[i], '(', ')');
      var r := CloseParen(s, i, depth);
      assert r == CloseParen(s, i + 1, d);
      if d > 0 {
        CloseParenSpec(s, i + 1, d);
        if r.1 == 0 {
          forall k | i < k <= r.0 - 1
            ensures depth + Net(s[i..k], '(', ')') >= 1
          {
            NetCons(s, i, k, '(', ')');
          }
          NetCons(s, i, r.0 - 1, '(', ')');
          assert s[i..i] == [];
        }
      } else {
        assert s[i..i] == [];
      }
    }
  }

  /** `Net` read from the front. */
  lemma {:induction false} NetCons(s: string, i: nat, k: nat, open: char, close: char)
    requires i < k <= |s|
    ensures Net(s[i..k], open, close) == Delta(s[i], open, close) + Net(s[i + 1..k], open, close)
    decreases k - i
  {
    var whole, tail := s[i..k], s[i + 1..k];
    if k == i + 1 {
      assert whole[..0] == [] && whole[0] == s[i];
      assert Net(whole, open, close) == Net([], open, close) + Delta(s[i], open, close);
      assert tail == [];
    } else {
      NetCons(s, i, k - 1, open, close);
      assert whole[..k - 1 - i] == s[i..k - 1] && whole[k - 1 - i] == s[k - 1];
      assert tail[..k - 2 - i] == s[i + 1..k - 1] && tail[k - 2 - i] == s[k - 1];
      assert Net(whole, open, close) == Net(s[i..k - 1], open, close) + Delta(s[k - 1], open, close);
      assert Net(tail, open, close) == Net(s[i + 1..k - 1], open, close) + Delta(s[k - 1], open, close);
    }
  }

  /** The `for m in func_re.finditer(content)` loop of `compute_max_params`. */
  method ComputeMaxParams(content: string) returns (r: Option<Signal>)
    ensures r == MaxParamsSignal(content)
  {
    var headers := ParamHeaders(content, 0);
    ghost var counts := HeaderCounts(content, headers);
    var maxParams := 0;
    for h := 0 to |headers|
      invariant maxParams == MaxOf(counts[..h])
    {
      assert counts[..h + 1][..h] == counts[..h];
      var count := CountParams(content, headers[h]);
      if count.Some? && count.value > maxParams {
        maxParams := count.value;
      }
    }
    assert counts[..|headers|] == counts;
    if maxParams > 5 {
      return Some(Signal(maxParams, "function with " + NatToString(maxParams) + " params"));
    }
    return None;
  }

  /** One pass of that loop: the paren-depth scan, then the count, or None
      where the source `continue`s. */
  method CountParams(content: string, start: nat) returns (count: Option<nat>)
    requires start <= |content|
    ensures count == HeaderParams(content, start)
  {
    var depth := 1;
    var i := start;
    while i < |content| && depth > 0
      invariant start <= i <= |content|
      invariant CloseParen(content, i, depth) == CloseParen(content, start, 1)
    {
      var ch := content[i];
      if ch == '(' {
        depth := depth + 1;
      } else if ch == ')' {
        depth := depth - 1;
      }
      i := i + 1;
    }
    if depth != 0 {
      return None;
    }
    var paramStr := Strip(content[start..i - 1]);
    if paramStr == [] {
      return None;
    }
    return Some(NonBlankCount(Split(paramStr, ',')));
  }

  // ---------------------------------------------------------------------
  // compute_nesting_depth
  // ---------------------------------------------------------------------

  /** The scanner state: `current_depth`, `max_depth`, `in_string`,
      `in_raw_string`. */
  datatype Nest = Nest(depth: int, maxDepth: int, inString: bool, inRaw: bool)

  const NestStart := Nest(0, 0, false, false)

  /** One character of the `for ch in stripped` loop. Inside a `"` literal a
      backslash is passed over like any other character: it does not protect
      the quote after it (the source's own "approximation"). */
  function NestStep(st: Nest, ch: char): Nest
  {
    if st.inRaw then (if ch == '`' then st.(inRaw := false) else st)
    else if st.inString then (if ch == '"' then st.(inString := false) else st)
    else if ch == '"' then st.(inString := true)
    else if ch == '`' then st.(inRaw := true)
    else if ch == '{' then
      st.(depth := st.depth + 1, maxDepth := if st.depth + 1 > st.maxDepth then st.depth + 1 else st.maxDepth)
    else if ch == '}' then st.(depth := st.depth - 1)
    else st
  }

  /** The character loop over `s`. */
  function NestScan(st: Nest, s: string): Nest
  {
    if s == [] then st else NestStep(NestScan(st, s[..|s| - 1]), s[|s| - 1])
  }

  /** Blank lines and `//` lines are skipped. */
  predicate NestSkipped(line: string)
  {
    Strip(line) == [] || StartsWith(Strip(line), "//")
  }

  /** The line loop over `lines`; literal state carries from line to line. */
  function NestLines(st: Nest, lines: seq<string>): Nest
  {
    if lines == [] then st
    else
      var prev := NestLines(st, lines[..|lines| - 1]);
      var line := lines[|lines| - 1];
      if NestSkipped(line) then prev else NestScan(prev, Strip(line))
  }

  /** `compute_nesting_depth(content, lines)` */
  function NestingSignal(lines: seq<string>): Option<Signal>
  {
    var eff := NestLines(NestStart, lines).maxDepth - 1;
    if eff > 4 then Some(Signal(eff, "nesting depth " + NatToString(eff))) else None
  }

  /** The text the character loop sees: the stripped lines that are not
      skipped, one after the other. */
  function Stream(lines: seq<string>): string
  {
    if lines == [] then []
    else
      var line := lines[|lines| - 1];
      Stream(lines[..|lines| - 1]) + (if NestSkipped(line) then [] else Strip(line))
  }

  lemma {:induction false} NestScanAppend(st: Nest, a: string, b: string)
    ensures NestScan(st, a + b) == NestScan(NestScan(st, a), b)
    decreases |b|
  {
    if b == [] {
      assert a + b == a;
    } else {
      var b0 := b[..|b| - 1];
      NestScanAppend(st, a, b0);
      assert (a + b)[..|a + b| - 1] == a + b0;
    }
  }

  /** Line boundaries do not matter: the line loop is the character loop
      over the stream, so literals and depth run on across lines. */
  lemma {:induction false} NestLinesStream(st: Nest, lines: seq<string>)
    ensures NestLines(st, lines) == NestScan(st, Stream(lines))
  {
    if lines != [] {
      var init := lines[..|lines| - 1];
      var line := lines[|lines| - 1];
      NestLinesStream(st, init);
      if NestSkipped(line) {
        assert Stream(lines) == Stream(init) + [] == Stream(init);
      } else {
        NestScanAppend(st, Stream(init), Strip(line));
      }
    }
  }

  /** `max_depth` bounds every depth reached and, unless it is still its
      starting value, is reached after some prefix. */
  lemma {:induction false} NestMax(st: Nest, s: string)
    requires st.depth <= st.maxDepth
    ensures var r := NestScan(st, s);
      && st.maxDepth <= r.maxDepth && r.depth <= r.maxDepth
      && (forall k | 0 <= k <= |s| :: NestScan(st, s[..k]).depth <= r.maxDepth)
      && (r.maxDepth == st.maxDepth || exists k | 0 < k <= |s| :: NestScan(st, s[..k]).depth == r.maxDepth)
  {
    if s != [] {
      var init := s[..|s| - 1];
      NestMax(st, init);
      var r := NestScan(st, s);
      var p := NestScan(st, init);
      forall k | 0 <= k <= |s|
        ensures NestScan(st, s[..k]).depth <= r.maxDepth
      {
        if k < |s| {
          assert s[..k] == init[..k];
        } else {
          assert s[..k] == s;
        }
      }
      if r.maxDepth != p.maxDepth {
        assert s[..|s|] == s;
      } else if p.maxDepth != st.maxDepth {
        var k :| 0 < k <= |init| && NestScan(st, init[..k]).depth == p.maxDepth;
        assert s[..k] == init[..k];
      }
    }
  }

  /** A brace-free stretch inside a `"` literal that holds no `"`. */
  predicate QuotedText(body: string)
  {
    forall i | 0 <= i < |body| :: body[i] != '"'
  }

  lemma {:induction false} NestInsideQuotes(st: Nest, body: string)
    requires st.inString && !st.inRaw && QuotedText(body)
    ensures NestScan(st, body) == st
  {
    if body != [] {
      NestInsideQuotes(st, body[..|body| - 1]);
    }
  }

  /** Braces inside a `"` literal do not count: a closed literal leaves the
      state as it was. */
  lemma NestQuoted(st: Nest, body: string)
    requires !st.inString && !st.inRaw && QuotedText(body)
    ensures NestScan(st, ['"'] + body + ['"']) == st
  {
    var open := NestScan(st, ['"']);
    assert open == st.(inString := true) by {
      assert ['"'][..0] == [];
      assert open == NestStep(NestScan(st, []), '"');
    }
    NestScanAppend(st, ['"'], body);
    NestInsideQuotes(open, body);
    NestScanAppend(st, ['"'] + body, ['"']);
    assert NestScan(open, ['"']) == st by {
      assert ['"'][..0] == [];
      assert NestScan(open, ['"']) == NestStep(NestScan(open, []), '"');
    }
  }

  /** A backslash does not protect the quote after it: `"\"` is a complete
      literal, and what follows it is code again. */
  lemma NestEscapeApproximation(st: Nest)
    requires !st.inString && !st.inRaw
    ensures NestScan(st, ['"', '\\', '"']) == st
  {
    NestQuoted(st, ['\\']);
    assert ['"'] + ['\\'] + ['"'] == ['"', '\\', '"'];
  }

  /** The signal is reported exactly when the text reaches depth 6 or more
      (outside literals), i.e. `max_depth - 1 > 4`. */
  lemma NestingSignalSpec(lines: seq<string>)
    ensures var s := Stream(lines);
      NestingSignal(lines).Some? <==> exists k | 0 <= k <= |s| :: NestScan(NestStart, s[..k]).depth >= 6
  {
    var s := Stream(lines);
    NestLinesStream(NestStart, lines);
    NestMax(NestStart, s);
  }

  /** The `for line in lines` loop of `compute_nesting_depth`. */
  method ComputeNestingDepth(lines: seq<string>) returns (r: Option<Signal>)
    ensures r == NestingSignal(lines)
  {
    var maxDepth, currentDepth, inString, inRaw := 0, 0, false, false;
    for l := 0 to |lines|
      invariant Nest(currentDepth, maxDepth, inString, inRaw) == NestLines(NestStart, lines[..l])
    {
      assert lines[..l + 1][..l] == lines[..l];
      var stripped := Strip(lines[l]);
      if stripped == [] || StartsWith(stripped, "//") {
        continue;
      }
      for c := 0 to |stripped|
        invariant Nest(currentDepth, maxDepth, inString, inRaw)
                  == NestScan(NestLines(NestStart, lines[..l]), stripped[..c])
      {
        assert stripped[..c + 1][..c] == stripped[..c];
        var ch := stripped[c];
        if inRaw {
          if ch == '`' {
            inRaw := false;
          }
          continue;
        }
        if inString {
          if ch == '"' {
            inString := false;
          } else if ch == '\\' {
            continue;
          }
          continue;
        }
        if ch == '"' {
          inString := true;
        } else if ch == '`' {
          inRaw := true;
        } else if ch == '{' {
          currentDepth := currentDepth + 1;
          if currentDepth > maxDepth {
            maxDepth := currentDepth;
          }
        } else if ch == '}' {
          currentDepth := currentDepth - 1;
        }
      }
      assert stripped[..|stripped|] == stripped;
    }
    assert lines[..|lines|] == lines;
    var eff := maxDepth - 1;
    if eff > 4 {
      return Some(Signal(eff, "nesting depth " + NatToString(eff)));
    }
    return None;
  }

  // ---------------------------------------------------------------------
  // compute_long_functions
  // ---------------------------------------------------------------------

  /** `^func\s+` at `p`: where the match ends. */
  function FuncMatch(s: string, p: nat): (r: Option<nat>)
    requires p <= |s|
    ensures r.Some? ==> p < r.value <= |s|
  {
    if LineStart(s, p) && At(s, p, "func") && Spaces1(s, p + 4) >= 0 then Some(Spaces1(s, p + 4)) else None
  }

  /** `func_re.finditer(content)` of `compute_long_functions`, searching
      from `p`: the start of each match. */
  function FuncStarts(s: string, p: nat): (r: seq<nat>)
    requires p <= |s|
    ensures forall j | 0 <= j < |r| :: p <= r[j] < |s|
    decreases |s| - p
  {
    if p == |s| then []
    else
      match FuncMatch(s, p)
      case Some(e) => [p] + FuncStarts(s, e)
      case None => FuncStarts(s, p + 1)
  }

  /** The brace loop `for i in range(abs_start, len(content))` from `i` at
      `depth`: the index of the `}` that brings the depth to 0. */
  function BraceClose(s: string, i: nat, depth: int): (r: Option<nat>)
    requires i <= |s|
    ensures r.Some? ==> i <= r.value < |s| && s[r.value] == '}'
    decreases |s| - i
  {
    if i == |s| then None
    else if s[i] == '{' then BraceClose(s, i + 1, depth + 1)
    else if s[i] == '}' then (if depth - 1 == 0 then Some(i) else BraceClose(s, i + 1, depth - 1))
    else BraceClose(s, i + 1, depth)
  }

  /** `re.search(r"func\s+(?:\([^)]+\)\s+)?(\w+)", t)` from `k`: the name of
      the leftmost match, or `"?"`. */
  function FirstName(t: string, k: nat): string
    requires k <= |t|
    decreases |t| - k
  {
    if k == |t| then "?"
    else
      match NameSpan(t, k)
      case Some(span) => t[span.0..span.1]
      case None => FirstName(t, k + 1)
  }

  /** The function whose `func` is at `p`: its name and LOC, or None when no
      `{` follows it or its braces never balance. */
  function Measure(s: string, p: nat): Option<LongFunc>
    requires p < |s|
  {
    var b := FindChar(s, '{', p);
    if b < 0 then None
    else
      match BraceClose(s, b, 0)
      case None => None
      case Some(e) =>
        Some(LongFunc(FirstName(s[p..], 0), CountChar(s[..e + 1], '\n') - CountChar(s[..p], '\n') + 1))
  }

  /** The measurement of each header, in order. */
  function Measures(s: string, ps: seq<nat>): (r: seq<Option<LongFunc>>)
    requires forall j | 0 <= j < |ps| :: ps[j] < |s|
    ensures |r| == |ps|
  {
    seq(|ps|, j requires 0 <= j < |ps| => Measure(s, ps[j]))
  }

  /** `compute_long_functions(content, lines)` */
  function LongSignal(s: string): Option<Signal>
  {
    var fs := Keep(Measures(s, FuncStarts(s, 0)));
    if fs == [] then None
    else
      var f := Longest(fs);
      LongestSpec(fs);
      Some(Signal(f.loc, "long function (" + f.name + ": " + NatToString(f.loc) + " LOC)"))
  }

  /** A long function is reported exactly when some function is over 80
      lines, and then it is one of the longest. */
  lemma LongSignalSpec(s: string)
    ensures var ps := FuncStarts(s, 0);
      && (LongSignal(s).Some? <==> exists j | 0 <= j < |ps| :: Measure(s, ps[j]).Some? && Measure(s, ps[j]).value.loc > 80)
      && (LongSignal(s).Some? ==> forall j | 0 <= j < |ps| :: Measure(s, ps[j]).Some? ==>
            Measure(s, ps[j]).value.loc <= LongSignal(s).value.value)
  {
    var ps := FuncStarts(s, 0);
    var ms := Measures(s, ps);
    KeepLongest(ms);
    assert forall j | 0 <= j < |ps| :: ms[j] == Measure(s, ps[j]);
  }

  /** The brace loop ends at the `}` that balances the first `{`: from there
      to the end the braces balance, and in between the depth stays at 1 or
      more. */
  lemma FuncBodyBalanced(s: string, b: nat)
    requires b < |s| && s[b] == '{'
    ensures match BraceClose(s, b, 0)
      case None => true
      case Some(e) =>
        Net(s[b..e + 1], '{', '}') == 0 && forall k | b < k <= e :: Net(s[b..k], '{', '}') >= 1
  {
    assert BraceClose(s, b, 0) == BraceClose(s, b + 1, 1);
    BraceCloseSpec(s, b + 1, 1);
    match BraceClose(s, b, 0)
    case None =>
    case Some(e) =>
      NetCons(s, b, e + 1, '{', '}');
      forall k | b < k <= e
        ensures Net(s[b..k], '{', '}') >= 1
      {
        NetCons(s, b, k, '{', '}');
      }
  }

  lemma {:induction false} BraceCloseSpec(s: string, i: nat, depth: int)
    requires i <= |s| && depth >= 1
    ensures match BraceClose(s, i, depth)
      case None => true
      case Some(e) =>
        depth + Net(s[i..e + 1], '{', '}') == 0 && forall k | i <= k <= e :: depth + Net(s[i..k], '{', '}') >= 1
    decreases |s| - i
  {
    if i < |s| {
      var d := depth + Delta(s[i], '{', '}');
      assert s[i..i] == [];
      if s[i] == '}' && d == 0 {
        assert s[i..i + 1][..0] == [];
      } else {
        assert BraceClose(s, i, depth) == BraceClose(s, i + 1, d);
        BraceCloseSpec(s, i + 1, d);
        match BraceClose(s, i + 1, d)
        case None =>
        case Some(e) => BraceCloseStep(s, i, i + 1, depth, e);
      }
    }
  }

  /** One character more in front of a balanced run: the run from `j = i + 1`
      closes at `e` from the depth after `s[i]`, so the run from `i` does
      too. */
  lemma BraceCloseStep(s: string, i: nat, j: nat, depth: int, e: nat)
    requires j == i + 1 && i < e < |s| && depth >= 1
    requires depth + Delta(s[i], '{', '}') + Net(s[j..e + 1], '{', '}') == 0
    requires forall k | j <= k <= e :: depth + Delta(s[i], '{', '}') + Net(s[j..k], '{', '}') >= 1
    ensures depth + Net(s[i..e + 1], '{', '}') == 0
    ensures forall k | i <= k <= e :: depth + Net(s[i..k], '{', '}') >= 1
  {
    assert s[i..i] == [];
    NetCons(s, i, e + 1, '{', '}');
    forall k | i < k <= e
      ensures depth + Net(s[i..k], '{', '}') >= 1
    {
      NetCons(s, i, k, '{', '}');
    }
  }

  /** A measured function spans at least its own line. */
  lemma MeasureLoc(s: string, p: nat)
    requires p < |s|
    ensures Measure(s, p).Some? ==> Measure(s, p).value.loc >= 1
  {
    var b := FindChar(s, '{', p);
    if b >= 0 && BraceClose(s, b, 0).Some? {
      var e := BraceClose(s, b, 0).value;
      assert s[..e + 1] == s[..p] + s[p..e + 1];
      CountCharAppend(s[..p], s[p..e + 1], '\n');
    }
  }

  /** The `for m in func_re.finditer(content)` loop of
      `compute_long_functions`. */
  method ComputeLongFunctions(content: string) returns (r: Option<Signal>)
    ensures r == LongSignal(content)
  {
    var starts := FuncStarts(content, 0);
    ghost var ms := Measures(content, starts);
    var results: seq<LongFunc> := [];
    for h := 0 to |starts|
      invariant results == Keep(ms[..h])
    {
      assert ms[..h + 1][..h] == ms[..h];
      var f := MeasureFunction(content, starts[h]);
      if f.Some? && f.value.loc > 80 {
        results := results + [f.value];
      }
    }
    assert ms[..|starts|] == ms;
    if results != [] {
      var longest := Longest(results);
      LongestSpec(results);
      return Some(Signal(longest.loc, "long function (" + longest.name + ": " + NatToString(longest.loc) + " LOC)"));
    }
    return None;
  }

  /** One pass of that loop: find the `{`, then count braces to the end. */
  method MeasureFunction(content: string, start: nat) returns (f: Option<LongFunc>)
    requires start < |content|
    ensures f == Measure(content, start)
  {
    var fnLine: int := CountChar(content[..start], '\n');
    var braceIdx := FindChar(content, '{', start);
    if braceIdx < 0 {
      return None;
    }
    var depth := 0;
    for i := braceIdx to |content|
      invariant BraceClose(content, i, depth) == BraceClose(content, braceIdx, 0)
    {
      if content[i] == '{' {
        depth := depth + 1;
      } else if content[i] == '}' {
        depth := depth - 1;
        if depth == 0 {
          var endLine: int := CountChar(content[..i + 1], '\n');
          var loc: int := endLine - fnLine + 1;
          return Some(LongFunc(FirstName(content[start..], 0), loc));
        }
      }
    }
    return None;
  }
}
