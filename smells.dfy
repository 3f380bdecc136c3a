/** Go smell detection (desloppify/lang/go/detectors/smells.py): the smell
    catalog, the per-line checks with their string/comment and file-kind
    filters, the two multi-line detectors, and the aggregation into one
    report entry per smell, sorted by severity. Files are given as inputs
    (path, content and the content's lines); reading them is not modelled. */
module Smells {
  import opened Wrappers
  import opened Text
  import opened SmellScan
  import P = SmellPatterns

  datatype Severity = High | Medium | Low

  /** `severity_order` */
  function Rank(s: Severity): nat
  {
    match s
    case High => 0
    case Medium => 1
    case Low => 2
  }

  datatype SmellId =
    | BareErrorReturn | IgnoredError | PanicInLib | EmptyErrorCheck
    | ErrorStringFormat | NilErrorInit | InitFunction | GlobalMutable
    | MagicNumber | TodoFixme | HardcodedUrl | EmptyInterface
    | StringConcatLoop | DeferInLoop | RegexInLoop
    | GoroutineLeak | MutexCopy | UnbufferedChannel

  /** `SMELL_CHECKS`, in order. */
  const Catalog: seq<SmellId> := [
    BareErrorReturn, IgnoredError, PanicInLib, EmptyErrorCheck,
    ErrorStringFormat, NilErrorInit, InitFunction, GlobalMutable,
    MagicNumber, TodoFixme, HardcodedUrl, EmptyInterface,
    StringConcatLoop, DeferInLoop, RegexInLoop,
    GoroutineLeak, MutexCopy, UnbufferedChannel]

  /** Position of a smell in `SMELL_CHECKS`. */
  function Index(id: SmellId): (n: nat)
    ensures n < |Catalog| && Catalog[n] == id
  {
    match id
    case BareErrorReturn => 0
    case IgnoredError => 1
    case PanicInLib => 2
    case EmptyErrorCheck => 3
    case ErrorStringFormat => 4
    case NilErrorInit => 5
    case InitFunction => 6
    case GlobalMutable => 7
    case MagicNumber => 8
    case TodoFixme => 9
    case HardcodedUrl => 10
    case EmptyInterface => 11
    case StringConcatLoop => 12
    case DeferInLoop => 13
    case RegexInLoop => 14
    case GoroutineLeak => 15
    case MutexCopy => 16
    case UnbufferedChannel => 17
  }

  /** The catalog lists every smell exactly once. */
  lemma CatalogIndex(n: nat)
    requires n < |Catalog|
    ensures Index(Catalog[n]) == n
  {
  }

  /** The `id` string. */
  function Name(id: SmellId): string
  {
    match id
    case BareErrorReturn => "bare_error_return"
    case IgnoredError => "ignored_error"
    case PanicInLib => "panic_in_lib"
    case EmptyErrorCheck => "empty_error_check"
    case ErrorStringFormat => "error_string_format"
    case NilErrorInit => "nil_error_init"
    case InitFunction => "init_function"
    case GlobalMutable => "global_mutable"
    case MagicNumber => "magic_number"
    case TodoFixme => "todo_fixme"
    case HardcodedUrl => "hardcoded_url"
    case EmptyInterface => "empty_interface"
    case StringConcatLoop => "string_concat_loop"
    case DeferInLoop => "defer_in_loop"
    case RegexInLoop => "regex_in_loop"
    case GoroutineLeak => "goroutine_leak"
    case MutexCopy => "mutex_copy"
    case UnbufferedChannel => "unbuffered_channel"
  }

  function Label(id: SmellId): string
  {
    match id
    case BareErrorReturn => "Bare error return without wrapping context"
    case IgnoredError => "Error assigned to _ (ignored)"
    case PanicInLib => "panic() outside main/test files"
    case EmptyErrorCheck => "if err != nil { return err } without context"
    case ErrorStringFormat => "Error string starts with capital letter or ends with punctuation"
    case NilErrorInit => "var err error without immediate use"
    case InitFunction => "func init() usage"
    case GlobalMutable => "Package-level var with mutable type (slice/map)"
    case MagicNumber => "Magic numbers (>1000 in logic)"
    case TodoFixme => "TODO/FIXME/HACK/XXX comments"
    case HardcodedUrl => "Hardcoded URL in source code"
    case EmptyInterface => "interface{} or any as parameter type"
    case StringConcatLoop => "String concatenation with += inside a for loop"
    case DeferInLoop => "defer inside a for/range loop"
    case RegexInLoop => "regexp.Compile/MustCompile inside a for loop"
    case GoroutineLeak => "go func() without WaitGroup or channel signal"
    case MutexCopy => "Passing sync.Mutex by value"
    case UnbufferedChannel => "make(chan ...) without buffer size"
  }

  function SeverityOf(id: SmellId): Severity
  {
    match id
    case IgnoredError | PanicInLib | DeferInLoop | MutexCopy => High
    case BareErrorReturn | EmptyErrorCheck | InitFunction | GlobalMutable
       | HardcodedUrl | StringConcatLoop | RegexInLoop | GoroutineLeak => Medium
    case ErrorStringFormat | NilErrorInit | MagicNumber | TodoFixme
       | EmptyInterface | UnbufferedChannel => Low
  }

  /** The single-line pattern of a check; `None` for the four multi-line
      detectors. */
  function PatternOf(id: SmellId): Option<P.Pattern>
  {
    match id
    case BareErrorReturn => Some(P.BareErrorReturn)
    case IgnoredError => Some(P.IgnoredError)
    case PanicInLib => Some(P.PanicCall)
    case ErrorStringFormat => Some(P.ErrorStringFormat)
    case NilErrorInit => Some(P.NilErrorInit)
    case InitFunction => Some(P.InitFunction)
    case GlobalMutable => Some(P.GlobalMutable)
    case MagicNumber => Some(P.MagicNumber)
    case TodoFixme => Some(P.TodoFixme)
    case HardcodedUrl => Some(P.HardcodedUrl)
    case EmptyInterface => Some(P.EmptyInterface)
    case GoroutineLeak => Some(P.GoroutineLeak)
    case MutexCopy => Some(P.MutexCopy)
    case UnbufferedChannel => Some(P.UnbufferedChannel)
    case EmptyErrorCheck | StringConcatLoop | DeferInLoop | RegexInLoop => None
  }

  /** One reported occurrence: file, 1-based line, stripped text cut to 100. */
  datatype Match = Match(file: string, line: nat, content: string)

  function Sample(path: string, i: nat, text: string): (m: Match)
    ensures m.line == i + 1 && |m.content| <= 100
  {
    Match(path, i + 1, Take(Strip(text), 100))
  }

  /** A file's contents, or a read that failed (`OSError`, decode error). */
  datatype Source = Unreadable | Text(content: string)

  datatype GoFile = GoFile(path: string, src: Source)

  // ---------------------------------------------------------------------
  // Single-line checks
  // ---------------------------------------------------------------------

  /** `Path(path).name == "main.go"` */
  predicate IsMainGo(path: string)
  {
    path == "main.go" || EndsWith(path, "/main.go")
  }

  /** `panic_in_lib` is skipped for main.go, `package main` and tests. */
  predicate PanicExempt(path: string, content: string)
  {
    IsMainGo(path) || Contains(content, "package main") || EndsWith(path, "_test.go")
  }

  /** Line `line` is reported for `id`: the pattern is found, its match does
      not start in a literal or comment, and for `ignored_error` the line is
      not an import or a var declaration. */
  predicate LineHit(pat: P.Pattern, id: SmellId, line: string)
  {
    var m := P.Search(pat, line);
    m.Some? && !InString(line, m.value)
    && !(id == IgnoredError && (StartsWith(Strip(line), "import") || StartsWith(Strip(line), "var")))
  }

  /** `Sample` of every line `i < n` for which `keep(i)` holds, in line
      order: the shape of each detector's `for i, line in enumerate(lines)`
      loop. */
  function Samples(path: string, lines: seq<string>, keep: nat -> bool, n: nat): seq<Match>
    requires n <= |lines|
  {
    if n == 0 then []
    else
      Samples(path, lines, keep, n - 1)
      + (if keep(n - 1) then [Sample(path, n - 1, lines[n - 1])] else [])
  }

  /** Line `i` (reported as `i + 1`) is in the result exactly when `keep(i)`. */
  lemma {:induction false} SamplesMembers(path: string, lines: seq<string>, keep: nat -> bool, n: nat, m: Match)
    requires n <= |lines|
    ensures m in Samples(path, lines, keep, n) <==>
      1 <= m.line <= n && keep(m.line - 1) && m == Sample(path, m.line - 1, lines[m.line - 1])
  {
    if n > 0 {
      SamplesMembers(path, lines, keep, n - 1, m);
    }
  }

  /** Each line is reported at most once, in line order. */
  lemma {:induction false} SamplesIncreasing(path: string, lines: seq<string>, keep: nat -> bool, n: nat)
    requires n <= |lines|
    ensures Increasing(Samples(path, lines, keep, n))
    ensures forall m | m in Samples(path, lines, keep, n) :: 1 <= m.line <= n
  {
    if n > 0 {
      SamplesIncreasing(path, lines, keep, n - 1);
      var a := Samples(path, lines, keep, n - 1);
      var b: seq<Match> := if keep(n - 1) then [Sample(path, n - 1, lines[n - 1])] else [];
      forall x, y | 0 <= x < y < |a + b|
        ensures (a + b)[x].line < (a + b)[y].line
      {
        if y >= |a| {
          assert (a + b)[x] == a[x] && a[x] in a;
        }
      }
    }
  }

  /** The lines one single-line check keeps. */
  function LineKeep(lines: seq<string>, sl: set<int>, pat: P.Pattern, id: SmellId): nat -> bool
  {
    (k: nat) => k < |lines| && k !in sl && LineHit(pat, id, lines[k])
  }

  /** Matches of one single-line check over `lines[..n]`. */
  function LineMatches(path: string, lines: seq<string>, sl: set<int>, pat: P.Pattern, id: SmellId, n: nat): seq<Match>
    requires n <= |lines|
  {
    Samples(path, lines, LineKeep(lines, sl, pat, id), n)
  }

  /** The single-line matches of `id` in one readable file. */
  function SingleLine(path: string, content: string, lines: seq<string>, id: SmellId): seq<Match>
  {
    if PatternOf(id).None? || (id == PanicInLib && PanicExempt(path, content)) then []
    else LineMatches(path, lines, RawStringLines(lines), PatternOf(id).value, id, |lines|)
  }

  // ---------------------------------------------------------------------
  // _detect_empty_error_check
  // ---------------------------------------------------------------------

  /** First index at or after `i` whose line is not blank (or `|lines|`). */
  function NextNonBlank(lines: seq<string>, i: nat): (r: nat)
    requires i <= |lines|
    ensures i <= r <= |lines|
    decreases |lines| - i
  {
    if i < |lines| && IsBlank(lines[i]) then NextNonBlank(lines, i + 1) else i
  }

  /** `NextNonBlank` skips exactly the blank lines before the first
      non-blank one. */
  lemma {:induction false} NextNonBlankSpec(lines: seq<string>, i: nat)
    requires i <= |lines|
    ensures BlankBetween(lines, i, NextNonBlank(lines, i))
    ensures NextNonBlank(lines, i) < |lines| ==> !IsBlank(lines[NextNonBlank(lines, i)])
    decreases |lines| - i
  {
    if i < |lines| && IsBlank(lines[i]) {
      NextNonBlankSpec(lines, i + 1);
    }
  }

  /** Line `i` is reported as an empty error check, computed as the
      detector does it. */
  predicate EmptyCheckAt(lines: seq<string>, i: nat)
    requires i < |lines|
  {
    var st := Strip(lines[i]);
    P.ErrCheckOneLineFound(st) || (P.ErrCheckOpen(st) && BlockFound(lines, i))
  }

  /** The lines the detector reports. */
  function EmptyKeep(lines: seq<string>): nat -> bool
  {
    (k: nat) => k < |lines| && EmptyCheckAt(lines, k)
  }

  function EmptyErrorChecks(path: string, lines: seq<string>): seq<Match>
  {
    Samples(path, lines, EmptyKeep(lines), |lines|)
  }

  /** `while j < len(lines) and lines[j].strip() == "": j += 1` */
  method SkipBlankLines(lines: seq<string>, i: nat) returns (j: nat)
    requires i <= |lines|
    ensures j == NextNonBlank(lines, i)
  {
    j := i;
    while j < |lines| && IsBlank(lines[j])
      invariant i <= j <= |lines|
      invariant NextNonBlank(lines, j) == NextNonBlank(lines, i)
    {
      j := j + 1;
    }
  }

  /** One iteration of the detector's line loop. */
  method CheckEmptyError(lines: seq<string>, i: nat) returns (hit: bool)
    requires i < |lines|
    ensures hit == EmptyCheckAt(lines, i)
  {
    var stripped := Strip(lines[i]);
    if P.ErrCheckOneLineFound(stripped) {
      return true;
    }
    hit := false;
    if P.ErrCheckOpen(stripped) {
      var j := SkipBlankLines(lines, i + 1);
      if j < |lines| && P.ReturnErrLine(lines[j]) {
        var k := SkipBlankLines(lines, j + 1);
        hit := k < |lines| && Strip(lines[k]) == "}";
      }
    }
  }

  method DetectEmptyErrorCheck(path: string, lines: seq<string>) returns (found: seq<Match>)
    ensures found == EmptyErrorChecks(path, lines)
  {
    found := [];
    for i := 0 to |lines|
      invariant found == Samples(path, lines, EmptyKeep(lines), i)
    {
      var hit := CheckEmptyError(lines, i);
      if hit {
        found := found + [Sample(path, i, lines[i])];
      }
    }
  }

  predicate BlankBetween(lines: seq<string>, a: nat, b: nat)
    requires a <= b <= |lines|
  {
    forall t | a <= t < b :: IsBlank(lines[t])
  }

  /** Lines `j` and `k` complete the block form opened on line `i`:
      blank lines, `return err`, blank lines, a line that is exactly `}`. */
  predicate BlockAt(lines: seq<string>, i: nat, j: nat, k: nat)
  {
    i < j < k < |lines|
    && BlankBetween(lines, i + 1, j) && P.ReturnErrLine(lines[j])
    && BlankBetween(lines, j + 1, k) && Strip(lines[k]) == "}"
  }

  /** The block form as described: `if err != nil {`, then after blank
      lines `return err`, then after blank lines a line that is exactly `}`. */
  predicate BlockForm(lines: seq<string>, i: nat)
    requires i < |lines|
  {
    P.ErrCheckOpen(Strip(lines[i])) && exists j, k | i < j < k < |lines| :: BlockAt(lines, i, j, k)
  }

  lemma ReturnErrNotBlank(s: string)
    requires P.ReturnErrLine(s)
    ensures !IsBlank(s)
  {
    var a := SkipSpace(s, 0);
    assert s[a] == 'r';
    BlankIffAllSpace(s);
  }

  lemma CloseBraceNotBlank(s: string)
    requires Strip(s) == "}"
    ensures !IsBlank(s)
  {
  }

  /** The first non-blank line at or after `a` is `j` when the lines in
      between are blank and `j` is not. */
  lemma {:induction false} NextNonBlankIs(lines: seq<string>, a: nat, j: nat)
    requires a <= j < |lines| && BlankBetween(lines, a, j) && !IsBlank(lines[j])
    ensures NextNonBlank(lines, a) == j
    decreases j - a
  {
    if a < j {
      NextNonBlankIs(lines, a + 1, j);
    }
  }

  /** The block form as the detector computes it. */
  predicate BlockFound(lines: seq<string>, i: nat)
    requires i < |lines|
  {
    var j := NextNonBlank(lines, i + 1);
    j < |lines| && P.ReturnErrLine(lines[j]) &&
    var k := NextNonBlank(lines, j + 1);
    k < |lines| && Strip(lines[k]) == "}"
  }

  /** The detector's block is an instance of the block form. */
  lemma BlockFoundSound(lines: seq<string>, i: nat)
    requires i < |lines| && BlockFound(lines, i)
    ensures BlockAt(lines, i, NextNonBlank(lines, i + 1), NextNonBlank(lines, NextNonBlank(lines, i + 1) + 1))
  {
    var j := NextNonBlank(lines, i + 1);
    NextNonBlankSpec(lines, i + 1);
    NextNonBlankSpec(lines, j + 1);
  }

  /** Every instance of the block form is found by the detector. */
  lemma BlockFoundComplete(lines: seq<string>, i: nat, j: nat, k: nat)
    requires BlockAt(lines, i, j, k)
    ensures BlockFound(lines, i)
  {
    ReturnErrNotBlank(lines[j]);
    CloseBraceNotBlank(lines[k]);
    NextNonBlankIs(lines, i + 1, j);
    NextNonBlankIs(lines, j + 1, k);
  }

  lemma BlockFoundIff(lines: seq<string>, i: nat)
    requires i < |lines|
    ensures BlockFound(lines, i) <==> exists j, k :: BlockAt(lines, i, j, k)
  {
    if BlockFound(lines, i) {
      BlockFoundSound(lines, i);
    }
    if exists j, k :: BlockAt(lines, i, j, k) {
      var j, k :| BlockAt(lines, i, j, k);
      BlockFoundComplete(lines, i, j, k);
    }
  }

  /** The detector reports line `i` exactly for the one-line form or the
      block form. */
  lemma EmptyCheckAtIff(lines: seq<string>, i: nat)
    requires i < |lines|
    ensures EmptyCheckAt(lines, i) <==> P.ErrCheckOneLineFound(Strip(lines[i])) || BlockForm(lines, i)
  {
    BlockFoundIff(lines, i);
  }

  /** The detector reports line `i` (1-based `i + 1`) exactly when the
      check holds there. */
  lemma EmptyErrorChecksMembers(path: string, lines: seq<string>, m: Match)
    ensures m in EmptyErrorChecks(path, lines) <==>
      1 <= m.line <= |lines| && EmptyCheckAt(lines, m.line - 1) && m == Sample(path, m.line - 1, lines[m.line - 1])
  {
    SamplesMembers(path, lines, EmptyKeep(lines), |lines|, m);
  }

  /** Each line is reported at most once, in line order. */
  lemma EmptyErrorChecksIncreasing(path: string, lines: seq<string>)
    ensures Increasing(EmptyErrorChecks(path, lines))
  {
    SamplesIncreasing(path, lines, EmptyKeep(lines), |lines|);
  }

  // ---------------------------------------------------------------------
  // _detect_loop_smells
  // ---------------------------------------------------------------------

  /** Strictly increasing line numbers: no line reported twice. */
  predicate Increasing(ms: seq<Match>)
  {
    forall a, b | 0 <= a < b < |ms| :: ms[a].line < ms[b].line
  }

  datatype LoopFound = LoopFound(defers: seq<Match>, concats: seq<Match>, regexes: seq<Match>)

  const NoFindings := LoopFound([], [], [])

  function Plus(a: LoopFound, b: LoopFound): LoopFound
  {
    LoopFound(a.defers + b.defers, a.concats + b.concats, a.regexes + b.regexes)
  }

  lemma PlusAssoc(a: LoopFound, b: LoopFound, c: LoopFound)
    ensures Plus(Plus(a, b), c) == Plus(a, Plus(b, c))
  {
    assert (a.defers + b.defers) + c.defers == a.defers + (b.defers + c.defers);
    assert (a.concats + b.concats) + c.concats == a.concats + (b.concats + c.concats);
    assert (a.regexes + b.regexes) + c.regexes == a.regexes + (b.regexes + c.regexes);
  }

  /** Findings on one loop-body line `k`. */
  function BodyLine(path: string, lines: seq<string>, k: nat): LoopFound
    requires k < |lines|
  {
    var st := Strip(lines[k]);
    var m := [Sample(path, k, lines[k])];
    LoopFound(
      if P.DeferHead(st) then m else [],
      if P.ConcatAssignFound(st) then m else [],
      if P.RegexpCompileFound(st) then m else [])
  }

  /** The findings of one line inside a loop: none on a raw-string line. */
  function LoopStep(path: string, lines: seq<string>, sl: set<int>): nat -> LoopFound
  {
    (k: nat) => if k < |lines| && k !in sl then BodyLine(path, lines, k) else NoFindings
  }

  /** Findings on body lines `lo..hi-1`, one `step` per line. */
  function Body(step: nat -> LoopFound, lo: nat, hi: nat): LoopFound
    requires lo <= hi
    decreases hi - lo
  {
    if hi == lo then NoFindings else Plus(Body(step, lo, hi - 1), step(hi - 1))
  }

  /** The `j` loop: the first line (not in a raw string) after which a `{`
      has been seen and the brace depth is <= 0, or `|lines|`. */
  function LoopEnd(lines: seq<string>, sl: set<int>, j: nat, depth: int, open: bool): (r: nat)
    requires j <= |lines|
    ensures j <= r <= |lines|
    decreases |lines| - j
  {
    if j == |lines| then |lines|
    else if j in sl then LoopEnd(lines, sl, j + 1, depth, open)
    else
      var d := depth + Net(lines[j], '{', '}');
      var o := open || '{' in lines[j];
      if o && d <= 0 then j else LoopEnd(lines, sl, j + 1, d, o)
  }

  function Min(a: nat, b: nat): nat { if a <= b then a else b }

  /** The outer `i` loop over lines `i..n-1`: a line where `head` holds
      opens a loop whose body runs to line `end(i)`; scanning resumes after
      it. */
  function Loops(step: nat -> LoopFound, head: nat -> bool, end: nat -> nat, i: nat, n: nat): LoopFound
    requires forall k: nat :: k <= end(k)
    decreases if i < n then n - i else 0
  {
    if i >= n then NoFindings
    else if !head(i) then Loops(step, head, end, i + 1, n)
    else Plus(Body(step, i + 1, Min(end(i) + 1, n)), Loops(step, head, end, end(i) + 1, n))
  }

  /** Line `k` opens a loop: `^\s*for\s+`, outside raw strings. */
  function LoopHead(lines: seq<string>, sl: set<int>): nat -> bool
  {
    (k: nat) => k < |lines| && k !in sl && P.ForHead(lines[k])
  }

  /** Where the loop opened at line `k` ends. */
  function LoopEnds(lines: seq<string>, sl: set<int>): (end: nat -> nat)
    ensures forall k: nat :: k <= end(k)
  {
    (k: nat) => if k <= |lines| then LoopEnd(lines, sl, k, 0, false) else k
  }

  /** The outer `i` loop from line `i`. */
  function LoopSmellsFrom(path: string, lines: seq<string>, sl: set<int>, i: nat): LoopFound
  {
    Loops(LoopStep(path, lines, sl), LoopHead(lines, sl), LoopEnds(lines, sl), i, |lines|)
  }

  /** The `for ch in lines[j]` loop: depth change and whether a `{` occurs. */
  method CountBraces(line: string, depth0: int, open0: bool) returns (depth: int, open: bool)
    ensures depth == depth0 + Net(line, '{', '}')
    ensures open == (open0 || '{' in line)
  {
    depth, open := depth0, open0;
    for c := 0 to |line|
      invariant depth == depth0 + Net(line[..c], '{', '}')
      invariant open == (open0 || '{' in line[..c])
    {
      NetSnoc(line, c, '{', '}');
      assert line[..c + 1] == line[..c] + [line[c]];
      if line[c] == '{' {
        depth := depth + 1;
        open := true;
      } else if line[c] == '}' {
        depth := depth - 1;
      }
    }
    assert line[..|line|] == line;
  }

  /** The `j` loop of `_detect_loop_smells`. */
  method FindLoopEnd(lines: seq<string>, sl: set<int>, i: nat) returns (j: nat)
    requires i <= |lines|
    ensures j == LoopEnd(lines, sl, i, 0, false)
  {
    var depth := 0;
    var open := false;
    j := i;
    while j < |lines|
      invariant i <= j <= |lines|
      invariant LoopEnd(lines, sl, j, depth, open) == LoopEnd(lines, sl, i, 0, false)
    {
      if j in sl {
        j := j + 1;
        continue;
      }
      depth, open := CountBraces(lines[j], depth, open);
      if open && depth <= 0 {
        break;
      }
      j := j + 1;
    }
  }

  /** The `k` loop over a loop body. */
  method ScanBody(path: string, lines: seq<string>, sl: set<int>, lo: nat, hi: nat) returns (body: LoopFound)
    requires lo <= hi <= |lines|
    ensures body == Body(LoopStep(path, lines, sl), lo, hi)
  {
    body := NoFindings;
    for k := lo to hi
      invariant body == Body(LoopStep(path, lines, sl), lo, k)
    {
      var found := ScanStep(path, lines, sl, k);
      body := Plus(body, found);
    }
  }

  /** One pass of the `k` loop: raw-string lines are skipped. */
  method ScanStep(path: string, lines: seq<string>, sl: set<int>, k: nat) returns (found: LoopFound)
    requires k < |lines|
    ensures found == LoopStep(path, lines, sl)(k)
  {
    found := NoFindings;
    if k !in sl {
      found := ScanLine(path, lines, k);
    }
  }

  /** One pass of the `k` loop on a line outside raw strings. */
  method ScanLine(path: string, lines: seq<string>, k: nat) returns (found: LoopFound)
    requires k < |lines|
    ensures found == BodyLine(path, lines, k)
  {
    var stripped := Strip(lines[k]);
    var m := [Sample(path, k, lines[k])];
    found := NoFindings;
    if P.DeferHead(stripped) {
      found := found.(defers := m);
    }
    if P.ConcatAssignFound(stripped) {
      found := found.(concats := m);
    }
    if P.RegexpCompileFound(stripped) {
      found := found.(regexes := m);
    }
  }

  method DetectLoopSmells(path: string, lines: seq<string>, sl: set<int>) returns (found: LoopFound)
    ensures found == LoopSmellsFrom(path, lines, sl, 0)
  {
    ghost var step, head, end := LoopStep(path, lines, sl), LoopHead(lines, sl), LoopEnds(lines, sl);
    found := NoFindings;
    var i := 0;
    while i < |lines|
      invariant Plus(found, Loops(step, head, end, i, |lines|)) == Loops(step, head, end, 0, |lines|)
      decreases |lines| - i
    {
      if i in sl || !P.ForHead(lines[i]) {
        assert !head(i);
        LoopsSkip(step, head, end, i, |lines|);
        i := i + 1;
        continue;
      }
      var loopEnd := FindLoopEnd(lines, sl, i);
      var body := ScanBody(path, lines, sl, i + 1, Min(loopEnd + 1, |lines|));
      assert head(i) && end(i) == loopEnd;
      LoopsAt(step, head, end, i, |lines|);
      PlusAssoc(found, body, Loops(step, head, end, loopEnd + 1, |lines|));
      found := Plus(found, body);
      i := loopEnd + 1;
    }
    assert Loops(step, head, end, i, |lines|) == NoFindings;
    assert Plus(found, NoFindings) == found;
  }

  /** A line that opens no loop adds nothing. */
  lemma LoopsSkip(step: nat -> LoopFound, head: nat -> bool, end: nat -> nat, i: nat, n: nat)
    requires (forall k: nat :: k <= end(k)) && i < n && !head(i)
    ensures Loops(step, head, end, i, n) == Loops(step, head, end, i + 1, n)
  {
  }

  /** A loop contributes its body, and scanning resumes after its end. */
  lemma LoopsAt(step: nat -> LoopFound, head: nat -> bool, end: nat -> nat, i: nat, n: nat)
    requires (forall k: nat :: k <= end(k)) && i < n && head(i)
    ensures Loops(step, head, end, i, n)
            == Plus(Body(step, i + 1, Min(end(i) + 1, n)), Loops(step, head, end, end(i) + 1, n))
  {
  }

  /** Every match has a line number in `lo+1..hi`. */
  predicate Within(ms: seq<Match>, lo: int, hi: int)
  {
    forall m | m in ms :: lo < m.line <= hi
  }

  /** Each of the three lists reports lines `lo+1..hi`, each at most once,
      in line order. */
  predicate Ordered(f: LoopFound, lo: int, hi: int)
  {
    Increasing(f.defers) && Increasing(f.concats) && Increasing(f.regexes)
    && Within(f.defers, lo, hi) && Within(f.concats, lo, hi) && Within(f.regexes, lo, hi)
  }

  lemma IncreasingAppend(a: seq<Match>, b: seq<Match>, lo: int, mid: int, hi: int)
    requires lo <= mid <= hi
    requires Increasing(a) && Increasing(b) && Within(a, lo, mid) && Within(b, mid, hi)
    ensures Increasing(a + b) && Within(a + b, lo, hi)
  {
    forall x, y | 0 <= x < y < |a + b|
      ensures (a + b)[x].line < (a + b)[y].line
    {
      if y >= |a| && x < |a| {
        assert (a + b)[x] == a[x] && (a + b)[y] == b[y - |a|];
        assert a[x] in a && b[y - |a|] in b;
      }
    }
    forall m | m in a + b
      ensures lo < m.line <= hi
    {
      assert m in a || m in b;
    }
  }

  lemma OrderedPlus(a: LoopFound, b: LoopFound, lo: int, mid: int, hi: int)
    requires lo <= mid <= hi && Ordered(a, lo, mid) && Ordered(b, mid, hi)
    ensures Ordered(Plus(a, b), lo, hi)
  {
    IncreasingAppend(a.defers, b.defers, lo, mid, hi);
    IncreasingAppend(a.concats, b.concats, lo, mid, hi);
    IncreasingAppend(a.regexes, b.regexes, lo, mid, hi);
  }

  /** Each loop step reports only its own line. */
  lemma LoopStepOrdered(path: string, lines: seq<string>, sl: set<int>)
    ensures forall k: nat :: Ordered(LoopStep(path, lines, sl)(k), k, k + 1)
  {
  }

  lemma {:induction false} BodyOrdered(step: nat -> LoopFound, lo: nat, hi: nat)
    requires lo <= hi && forall k | lo <= k < hi :: Ordered(step(k), k, k + 1)
    ensures Ordered(Body(step, lo, hi), lo, hi)
    decreases hi - lo
  {
    if hi > lo {
      BodyOrdered(step, lo, hi - 1);
      OrderedPlus(Body(step, lo, hi - 1), step(hi - 1), lo, hi - 1, hi);
    }
  }

  /** Loop bodies never overlap: scanning resumes after each loop, so every
      loop smell reports a line at most once, in line order, and only lines
      after `i`. */
  lemma LoopSmellsOrdered(path: string, lines: seq<string>, sl: set<int>, i: nat)
    ensures Ordered(LoopSmellsFrom(path, lines, sl, i), i, |lines|)
  {
    LoopStepOrdered(path, lines, sl);
    LoopsOrdered(LoopStep(path, lines, sl), LoopHead(lines, sl), LoopEnds(lines, sl), i, |lines|);
  }

  lemma {:induction false} LoopsOrdered(step: nat -> LoopFound, head: nat -> bool, end: nat -> nat, i: nat, n: nat)
    requires (forall k: nat :: k <= end(k)) && forall k: nat :: Ordered(step(k), k, k + 1)
    ensures Ordered(Loops(step, head, end, i, n), i, n)
    decreases if i < n then n - i else 0
  {
    if i < n {
      if !head(i) {
        LoopsOrdered(step, head, end, i + 1, n);
        LoopsSkip(step, head, end, i, n);
      } else {
        LoopsOrdered(step, head, end, end(i) + 1, n);
        LoopsAt(step, head, end, i, n);
        LoopCombine(step, i, end(i), n, Loops(step, head, end, end(i) + 1, n));
      }
    } else {
      assert Loops(step, head, end, i, n) == NoFindings;
    }
  }

  /** A loop's body comes before everything after its end. */
  lemma LoopCombine(step: nat -> LoopFound, i: nat, e: nat, n: nat, rest: LoopFound)
    requires (forall k: nat :: Ordered(step(k), k, k + 1)) && i < n && i <= e
    requires e < n || rest == NoFindings
    requires Ordered(rest, e + 1, n)
    ensures Ordered(Plus(Body(step, i + 1, Min(e + 1, n)), rest), i, n)
  {
    var hi := Min(e + 1, n);
    BodyOrdered(step, i + 1, hi);
    OrderedPlus(Body(step, i + 1, hi), rest, i, hi, n);
  }


  // ---------------------------------------------------------------------
  // detect_smells
  // ---------------------------------------------------------------------

  /** The multi-line findings of `id` in one readable file. */
  function MultiLine(path: string, lines: seq<string>, id: SmellId): seq<Match>
  {
    if id == EmptyErrorCheck then EmptyErrorChecks(path, lines)
    else if id == DeferInLoop then LoopSmellsFrom(path, lines, RawStringLines(lines), 0).defers
    else if id == StringConcatLoop then LoopSmellsFrom(path, lines, RawStringLines(lines), 0).concats
    else if id == RegexInLoop then LoopSmellsFrom(path, lines, RawStringLines(lines), 0).regexes
    else []
  }

  /** Everything one file contributes to `smell_counts[id]`. */
  function FileMatches(f: GoFile, id: SmellId): seq<Match>
  {
    match f.src
    case Unreadable => []
    case Text(content) =>
      var lines := SplitLines(content);
      SingleLine(f.path, content, lines, id) + MultiLine(f.path, lines, id)
  }

  /** `smell_counts[id]` after the first `n` files. */
  function AllMatches(files: seq<GoFile>, id: SmellId, n: nat): seq<Match>
    requires n <= |files|
  {
    if n == 0 then [] else AllMatches(files, id, n - 1) + FileMatches(files[n - 1], id)
  }

  datatype Entry = Entry(id: SmellId, title: string, severity: Severity, count: nat, files: nat, matches: seq<Match>)

  function FileSet(ms: seq<Match>): set<string>
  {
    set m | m in ms :: m.file
  }

  function Summarize(id: SmellId, ms: seq<Match>): Entry
  {
    Entry(id, Label(id), SeverityOf(id), |ms|, |FileSet(ms)|, if |ms| <= 50 then ms else ms[..50])
  }

  /** `smell_counts[id]`, empty for a smell the map lacks. */
  function CountOf(counts: map<SmellId, seq<Match>>, id: SmellId): seq<Match>
  {
    if id in counts then counts[id] else []
  }

  /** The entries of the first `c` catalog smells that have matches, in
      catalog order (before sorting). */
  function Summaries(counts: map<SmellId, seq<Match>>, c: nat): seq<Entry>
    requires c <= |Catalog|
  {
    if c == 0 then []
    else
      var id := Catalog[c - 1];
      var ms := CountOf(counts, id);
      Summaries(counts, c - 1) + (if ms == [] then [] else [Summarize(id, ms)])
  }

  /** Sort key order: severity rank, then descending count. */
  predicate KeyLe(a: Entry, b: Entry)
  {
    Rank(a.severity) < Rank(b.severity) || (Rank(a.severity) == Rank(b.severity) && a.count >= b.count)
  }

  predicate SameKey(a: Entry, b: Entry)
  {
    Rank(a.severity) == Rank(b.severity) && a.count == b.count
  }

  /** Insert `x` before the first element whose key is not smaller. */
  function Insert(x: Entry, s: seq<Entry>): seq<Entry>
  {
    if s == [] || (KeyLe(x, s[0])) then [x] + s else [s[0]] + Insert(x, s[1..])
  }

  /** `entries.sort(key=...)`: a stable sort by `KeyLe`. */
  function SortEntries(s: seq<Entry>): seq<Entry>
  {
    if s == [] then [] else Insert(s[0], SortEntries(s[1..]))
  }

  predicate Sorted(s: seq<Entry>)
  {
    forall a, b | 0 <= a < b < |s| :: KeyLe(s[a], s[b])
  }

  /** Equal keys stay in catalog order. */
  predicate TiesInCatalogOrder(s: seq<Entry>)
  {
    forall a, b | 0 <= a < b < |s| && SameKey(s[a], s[b]) :: Index(s[a].id) < Index(s[b].id)
  }

  predicate CatalogOrdered(s: seq<Entry>)
  {
    forall a, b | 0 <= a < b < |s| :: Index(s[a].id) < Index(s[b].id)
  }

  /** `x` may stand before `y` in a stably sorted list. */
  predicate Precedes(x: Entry, y: Entry)
  {
    KeyLe(x, y) && (SameKey(x, y) ==> Index(x.id) < Index(y.id))
  }

  predicate StablySorted(s: seq<Entry>)
  {
    forall a, b | 0 <= a < b < |s| :: Precedes(s[a], s[b])
  }

  lemma StablySortedCons(h: Entry, t: seq<Entry>)
    requires StablySorted(t) && forall e | e in t :: Precedes(h, e)
    ensures StablySorted([h] + t)
  {
    var r := [h] + t;
    forall a, b | 0 <= a < b < |r|
      ensures Precedes(r[a], r[b])
    {
      if a == 0 {
        assert r[b] == t[b - 1] && t[b - 1] in t;
      } else {
        assert r[a] == t[a - 1] && r[b] == t[b - 1];
      }
    }
  }

  lemma {:induction false} InsertPerm(x: Entry, s: seq<Entry>)
    ensures multiset(Insert(x, s)) == multiset(s) + multiset{x}
  {
    if s != [] && !KeyLe(x, s[0]) {
      InsertPerm(x, s[1..]);
      assert s == [s[0]] + s[1..];
    }
  }

  lemma StablySortedTail(s: seq<Entry>)
    requires s != [] && StablySorted(s)
    ensures StablySorted(s[1..]) && forall e | e in s[1..] :: Precedes(s[0], e)
  {
    var rest := s[1..];
    forall a, b | 0 <= a < b < |rest|
      ensures Precedes(rest[a], rest[b])
    {
      assert rest[a] == s[a + 1] && rest[b] == s[b + 1];
    }
    forall e | e in rest
      ensures Precedes(s[0], e)
    {
      var b :| 0 <= b < |rest| && rest[b] == e;
      assert s[b + 1] == e;
    }
  }

  lemma {:induction false} InsertSorted(x: Entry, s: seq<Entry>)
    requires StablySorted(s)
    requires forall e | e in s :: Index(x.id) < Index(e.id)
    ensures StablySorted(Insert(x, s))
  {
    if s == [] || KeyLe(x, s[0]) {
      forall e | e in s
        ensures Precedes(x, e)
      {
        if e != s[0] {
          StablySortedTail(s);
          assert e in s[1..];
        }
      }
      StablySortedCons(x, s);
    } else {
      var h, rest := s[0], s[1..];
      StablySortedTail(s);
      InsertSorted(x, rest);
      var t := Insert(x, rest);
      InsertPerm(x, rest);
      forall e | e in t
        ensures Precedes(h, e)
      {
        assert e in multiset(t);
      }
      StablySortedCons(h, t);
    }
  }

  lemma CatalogOrderedTail(s: seq<Entry>)
    requires s != [] && CatalogOrdered(s)
    ensures CatalogOrdered(s[1..])
    ensures forall e | e in s[1..] :: Index(s[0].id) < Index(e.id)
  {
    var rest := s[1..];
    forall a, b | 0 <= a < b < |rest|
      ensures Index(rest[a].id) < Index(rest[b].id)
    {
      assert rest[a] == s[a + 1] && rest[b] == s[b + 1];
    }
    forall e | e in rest
      ensures Index(s[0].id) < Index(e.id)
    {
      var b :| 0 <= b < |rest| && rest[b] == e;
      assert s[b + 1] == e;
    }
  }

  /** The sort is a permutation. */
  lemma {:induction false} SortEntriesPerm(s: seq<Entry>)
    ensures multiset(SortEntries(s)) == multiset(s)
  {
    if s != [] {
      SortEntriesPerm(s[1..]);
      InsertPerm(s[0], SortEntries(s[1..]));
      assert s == [s[0]] + s[1..];
    }
  }

  /** The sort is stable: sorted by key, ties in catalog order. */
  lemma {:induction false} SortEntriesSorted(s: seq<Entry>)
    requires CatalogOrdered(s)
    ensures StablySorted(SortEntries(s))
  {
    if s != [] {
      var rest := s[1..];
      CatalogOrderedTail(s);
      SortEntriesSorted(rest);
      var sorted := SortEntries(rest);
      SortEntriesPerm(rest);
      forall e | e in sorted
        ensures Index(s[0].id) < Index(e.id)
      {
        assert e in multiset(rest);
      }
      InsertSorted(s[0], sorted);
    }
  }

  /** A stably sorted list is sorted by key with ties in catalog order. */
  lemma StablySortedMeans(s: seq<Entry>)
    requires StablySorted(s)
    ensures Sorted(s) && TiesInCatalogOrder(s)
  {
  }

  /** The aggregation step of `detect_smells`: one entry per smell with
      matches, sorted. */
  function Aggregate(counts: map<SmellId, seq<Match>>): seq<Entry>
  {
    SortEntries(Summaries(counts, |Catalog|))
  }

  /** `smell_counts` once every file has been scanned. */
  function Counts(files: seq<GoFile>): map<SmellId, seq<Match>>
  {
    map id | id in Catalog :: AllMatches(files, id, |files|)
  }

  /** Every smell is in the catalog. */
  lemma CatalogAll()
    ensures forall id: SmellId :: id in Catalog
  {
    forall id: SmellId
      ensures id in Catalog
    {
      assert Catalog[Index(id)] == id;
    }
  }

  /** `smell_counts` before any file: an empty list for every smell. */
  function NoCounts(): (m: map<SmellId, seq<Match>>)
    ensures forall id: SmellId :: id in m && m[id] == []
  {
    CatalogAll();
    map id | id in Catalog :: []
  }

  lemma CountsAre(files: seq<GoFile>, counts: map<SmellId, seq<Match>>)
    requires forall id: SmellId :: id in counts && counts[id] == AllMatches(files, id, |files|)
    ensures counts == Counts(files)
  {
    CatalogAll();
  }

  /** `detect_smells(path)`: the sorted entries. */
  function Report(files: seq<GoFile>): seq<Entry>
  {
    Aggregate(Counts(files))
  }

  /** The body of the line loop: search, then the string/comment filter,
      then the `ignored_error` import/var filter. */
  method CheckLine(pat: P.Pattern, id: SmellId, line: string) returns (hit: bool)
    ensures hit == LineHit(pat, id, line)
  {
    hit := false;
    var m := P.Search(pat, line);
    if m.None? {
      return;
    }
    var inString := MatchIsInString(line, m.value);
    if inString {
      return;
    }
    if id == IgnoredError {
      var stripped := Strip(line);
      if StartsWith(stripped, "import") || StartsWith(stripped, "var") {
        return;
      }
    }
    hit := true;
  }

  /** The `for i, line in enumerate(lines)` loop of one single-line check. */
  method ScanLines(path: string, lines: seq<string>, sl: set<int>, pat: P.Pattern, id: SmellId)
    returns (found: seq<Match>)
    ensures found == LineMatches(path, lines, sl, pat, id, |lines|)
  {
    found := [];
    for i := 0 to |lines|
      invariant found == LineMatches(path, lines, sl, pat, id, i)
    {
      LineMatchesStep(path, lines, sl, pat, id, i);
      if i in sl {
        continue;
      }
      var hit := CheckLine(pat, id, lines[i]);
      if hit {
        found := found + [Sample(path, i, lines[i])];
      }
    }
  }

  lemma LineMatchesStep(path: string, lines: seq<string>, sl: set<int>, pat: P.Pattern, id: SmellId, i: nat)
    requires i < |lines|
    ensures LineMatches(path, lines, sl, pat, id, i + 1) == LineMatches(path, lines, sl, pat, id, i)
      + (if i !in sl && LineHit(pat, id, lines[i]) then [Sample(path, i, lines[i])] else [])
  {
  }

  /** One run of a single-line check over a file, with its `pattern is
      None` and `panic_in_lib` skips. */
  method CheckOne(path: string, content: string, lines: seq<string>, sl: set<int>, id: SmellId)
    returns (found: seq<Match>)
    requires sl == RawStringLines(lines)
    ensures found == SingleLine(path, content, lines, id)
  {
    found := [];
    var pat := PatternOf(id);
    if pat.None? {
      return;
    }
    var isMain := Contains(content, "package main");
    var isTest := EndsWith(path, "_test.go");
    if id == PanicInLib && (IsMainGo(path) || isMain || isTest) {
      return;
    }
    found := ScanLines(path, lines, sl, pat.value, id);
  }

  /** The `for check in SMELL_CHECKS` loop over one file. */
  method SingleLineChecks(counts: map<SmellId, seq<Match>>, path: string, content: string, lines: seq<string>, sl: set<int>)
    returns (updated: map<SmellId, seq<Match>>)
    requires sl == RawStringLines(lines) && forall id: SmellId :: id in counts
    ensures forall id: SmellId :: id in updated && updated[id] == counts[id] + SingleLine(path, content, lines, id)
  {
    updated := counts;
    ghost var add := (id: SmellId) => SingleLine(path, content, lines, id);
    ghost var done: set<SmellId> := {};
    for c := 0 to |Catalog|
      invariant AddedFor(updated, counts, add, done)
      invariant forall id: SmellId :: id in done <==> Index(id) < c
    {
      var id := Catalog[c];
      var found := CheckOne(path, content, lines, sl, id);
      assert found == add(id);
      CatalogIndex(c);
      AddedOne(updated, counts, add, done, id);
      DoneStep(c, id);
      updated := updated[id := updated[id] + found];
      done := done + {id};
    }
  }

  /** `updated` is `counts` with `add(id)` appended for each smell in `done`. */
  ghost predicate AddedFor(updated: map<SmellId, seq<Match>>, counts: map<SmellId, seq<Match>>,
                           add: SmellId -> seq<Match>, done: set<SmellId>)
    requires forall id: SmellId :: id in counts
  {
    forall id: SmellId :: id in updated && updated[id] == counts[id] + (if id in done then add(id) else [])
  }

  lemma AddedOne(updated: map<SmellId, seq<Match>>, counts: map<SmellId, seq<Match>>,
                 add: SmellId -> seq<Match>, done: set<SmellId>, x: SmellId)
    requires (forall id: SmellId :: id in counts) && x !in done && AddedFor(updated, counts, add, done)
    ensures AddedFor(updated[x := updated[x] + add(x)], counts, add, done + {x})
  {
  }

  /** The smells before position `c + 1` of the catalog are those before `c`
      and the one at `c`. */
  lemma DoneStep(c: nat, x: SmellId)
    requires Index(x) == c
    ensures forall id: SmellId :: Index(id) < c + 1 <==> (Index(id) < c || id == x)
  {
    forall id: SmellId
      ensures Index(id) < c + 1 <==> (Index(id) < c || id == x)
    {
      if id != x {
        IndexInjective(id, x);
      }
    }
  }

  lemma IndexInjective(a: SmellId, b: SmellId)
    requires a != b
    ensures Index(a) != Index(b)
  {
  }

  /** The two multi-line detectors over one file. */
  method MultiLineChecks(counts: map<SmellId, seq<Match>>, path: string, lines: seq<string>, sl: set<int>)
    returns (updated: map<SmellId, seq<Match>>)
    requires sl == RawStringLines(lines) && forall id: SmellId :: id in counts
    ensures forall id: SmellId :: id in updated && updated[id] == counts[id] + MultiLine(path, lines, id)
  {
    var ee := DetectEmptyErrorCheck(path, lines);
    updated := counts[EmptyErrorCheck := counts[EmptyErrorCheck] + ee];
    var loops := DetectLoopSmells(path, lines, sl);
    updated := updated[DeferInLoop := updated[DeferInLoop] + loops.defers];
    updated := updated[StringConcatLoop := updated[StringConcatLoop] + loops.concats];
    updated := updated[RegexInLoop := updated[RegexInLoop] + loops.regexes];
  }

  lemma AppendAssoc(a: seq<Match>, b: seq<Match>, c: seq<Match>)
    ensures (a + b) + c == a + (b + c)
  {
  }

  /** One readable file: every single-line check in catalog order, then the
      two multi-line detectors, each appending to `smell_counts`. */
  method ScanFile(counts: map<SmellId, seq<Match>>, f: GoFile) returns (updated: map<SmellId, seq<Match>>)
    requires f.src.Text? && forall id: SmellId :: id in counts
    ensures forall id: SmellId :: id in updated && updated[id] == counts[id] + FileMatches(f, id)
  {
    var lines := SplitLines(f.src.content);
    var sl := BuildStringLineSet(lines);
    var mid := SingleLineChecks(counts, f.path, f.src.content, lines, sl);
    updated := MultiLineChecks(mid, f.path, lines, sl);
    forall id: SmellId
      ensures updated[id] == counts[id] + FileMatches(f, id)
    {
      AppendAssoc(counts[id], SingleLine(f.path, f.src.content, lines, id), MultiLine(f.path, lines, id));
    }
  }

  /** The `for check in SMELL_CHECKS` loop that builds one entry per smell
      with matches. */
  method BuildEntries(counts: map<SmellId, seq<Match>>) returns (entries: seq<Entry>)
    requires forall id: SmellId :: id in counts
    ensures entries == Summaries(counts, |Catalog|)
  {
    entries := [];
    for c := 0 to |Catalog|
      invariant entries == Summaries(counts, c)
    {
      var id := Catalog[c];
      var ms := counts[id];
      if ms != [] {
        entries := entries + [Summarize(id, ms)];
      }
    }
  }

  method DetectSmells(files: seq<GoFile>) returns (entries: seq<Entry>, total: nat)
    ensures entries == Report(files) && total == |files|
  {
    var counts := NoCounts();
    for fi := 0 to |files|
      invariant forall id: SmellId :: id in counts && counts[id] == AllMatches(files, id, fi)
    {
      if files[fi].src.Unreadable? {
        continue;
      }
      counts := ScanFile(counts, files[fi]);
    }
    CountsAre(files, counts);
    entries := BuildEntries(counts);
    entries := SortEntries(entries);
    total := |files|;
  }

  // ---------------------------------------------------------------------
  // Properties of the report
  // ---------------------------------------------------------------------

  lemma CatalogOrderedSnoc(s: seq<Entry>, x: Entry)
    requires CatalogOrdered(s) && forall e | e in s :: Index(e.id) < Index(x.id)
    ensures CatalogOrdered(s + [x])
  {
    var r := s + [x];
    forall a, b | 0 <= a < b < |r|
      ensures Index(r[a].id) < Index(r[b].id)
    {
      assert r[a] == s[a] && s[a] in s;
      if b < |s| {
        assert r[b] == s[b];
      }
    }
  }

  /** Entries are built in catalog order, each from its smell's matches. */
  lemma {:induction false} SummariesSound(counts: map<SmellId, seq<Match>>, c: nat)
    requires c <= |Catalog|
    ensures CatalogOrdered(Summaries(counts, c))
    ensures forall e | e in Summaries(counts, c) ::
      Index(e.id) < c && CountOf(counts, e.id) != [] && e == Summarize(e.id, CountOf(counts, e.id))
  {
    SummariesMembers(counts, c);
    if c > 0 {
      SummariesSound(counts, c - 1);
      var id := Catalog[c - 1];
      var ms := CountOf(counts, id);
      CatalogIndex(c - 1);
      if ms != [] {
        CatalogOrderedSnoc(Summaries(counts, c - 1), Summarize(id, ms));
      } else {
        assert Summaries(counts, c) == Summaries(counts, c - 1);
      }
    }
  }

  /** The entries for the first `c` smells. */
  lemma {:induction false} SummariesMembers(counts: map<SmellId, seq<Match>>, c: nat)
    requires c <= |Catalog|
    ensures forall e | e in Summaries(counts, c) ::
      Index(e.id) < c && CountOf(counts, e.id) != [] && e == Summarize(e.id, CountOf(counts, e.id))
  {
    if c > 0 {
      SummariesMembers(counts, c - 1);
      var id := Catalog[c - 1];
      var ms := CountOf(counts, id);
      var s := Summaries(counts, c - 1);
      CatalogIndex(c - 1);
      if ms != [] {
        var x := Summarize(id, ms);
        assert Summaries(counts, c) == s + [x];
        assert x.id == id;
        forall e | e in s + [x]
          ensures Index(e.id) < c && CountOf(counts, e.id) != [] && e == Summarize(e.id, CountOf(counts, e.id))
        {
          if e !in s {
            assert e == x;
          }
        }
      } else {
        assert Summaries(counts, c) == s + [];
      }
    }
  }


  /** Every smell among the first `c` with a match has its entry. */
  lemma SummariesComplete(counts: map<SmellId, seq<Match>>, c: nat, id: SmellId)
    requires c <= |Catalog| && Index(id) < c && CountOf(counts, id) != []
    ensures Summarize(id, CountOf(counts, id)) in Summaries(counts, c)
  {
    SummariesHas(counts, c, Index(id));
  }

  /** The same, for the smell at catalog position `n`. */
  lemma {:induction false} SummariesHas(counts: map<SmellId, seq<Match>>, c: nat, n: nat)
    requires n < c <= |Catalog| && CountOf(counts, Catalog[n]) != []
    ensures Summarize(Catalog[n], CountOf(counts, Catalog[n])) in Summaries(counts, c)
  {
    SummariesLast(counts, c);
    if n < c - 1 {
      SummariesHas(counts, c - 1, n);
    }
  }

  lemma SummariesLast(counts: map<SmellId, seq<Match>>, c: nat)
    requires 0 < c <= |Catalog|
    ensures Summaries(counts, c) == Summaries(counts, c - 1) +
      (if CountOf(counts, Catalog[c - 1]) == [] then [] else [Summarize(Catalog[c - 1], CountOf(counts, Catalog[c - 1]))])
  {
  }

  /** The number of distinct files is at least one and at most the number
      of matches. */
  lemma {:induction false} FileSetSize(ms: seq<Match>)
    ensures |FileSet(ms)| <= |ms|
    ensures ms != [] ==> |FileSet(ms)| >= 1
  {
    if ms != [] {
      var last := ms[|ms| - 1];
      var init := ms[..|ms| - 1];
      assert ms == init + [last];
      FileSetSize(init);
      assert FileSet(ms) == FileSet(init) + {last.file};
    }
  }

  /** One entry per smell with at least one match, built from all its
      matches; entries sorted high < medium < low, then by descending
      count, ties in catalog order. */
  lemma AggregateFacts(counts: map<SmellId, seq<Match>>)
    ensures StablySorted(Aggregate(counts))
    ensures forall e | e in Aggregate(counts) ::
      CountOf(counts, e.id) != [] && e == Summarize(e.id, CountOf(counts, e.id))
    ensures forall id: SmellId | CountOf(counts, id) != [] :: Summarize(id, CountOf(counts, id)) in Aggregate(counts)
  {
    var s := Summaries(counts, |Catalog|);
    SummariesSound(counts, |Catalog|);
    SortEntriesPerm(s);
    SortEntriesSorted(s);
    forall e
      ensures e in Aggregate(counts) <==> e in s
    {
      assert e in Aggregate(counts) <==> e in multiset(Aggregate(counts));
    }
    forall id: SmellId | CountOf(counts, id) != []
      ensures Summarize(id, CountOf(counts, id)) in Aggregate(counts)
    {
      SummariesComplete(counts, |Catalog|, id);
    }
  }

  /** `smell_counts[id]` holds every match of `id`, file by file. */
  lemma CountsAll(files: seq<GoFile>, id: SmellId)
    ensures CountOf(Counts(files), id) == AllMatches(files, id, |files|)
  {
    assert Catalog[Index(id)] == id;
  }

  /** The report of a tree: one entry per smell found in some file, built
      from all of that smell's matches, sorted by severity and descending
      count with ties in catalog order. */
  lemma ReportFacts(files: seq<GoFile>)
    ensures Sorted(Report(files)) && TiesInCatalogOrder(Report(files))
    ensures forall e | e in Report(files) ::
      AllMatches(files, e.id, |files|) != [] && e == Summarize(e.id, AllMatches(files, e.id, |files|))
    ensures forall id: SmellId | AllMatches(files, id, |files|) != [] ::
      Summarize(id, AllMatches(files, id, |files|)) in Report(files)
  {
    AggregateFacts(Counts(files));
    StablySortedMeans(Report(files));
    forall id: SmellId
      ensures CountOf(Counts(files), id) == AllMatches(files, id, |files|)
    {
      CountsAll(files, id);
    }
  }

  /** What an entry reports about its matches: their number, the number of
      distinct files among them (at least one, at most the count), their
      smell's severity, and the first 50 of them in order. */
  lemma SummarizeFacts(id: SmellId, ms: seq<Match>)
    requires ms != []
    ensures var e := Summarize(id, ms);
      e.id == id && e.title == Label(id) && e.severity == SeverityOf(id)
      && e.count == |ms| && e.files == |FileSet(ms)| && 1 <= e.files <= e.count
      && |e.matches| == Min(|ms|, 50) && e.matches == ms[..|e.matches|]
  {
    FileSetSize(ms);
  }

  /** No single-line finding of `panic_in_lib` in main.go, in a `package
      main` file or in a test file. */
  lemma PanicExemptFiles(path: string, content: string, lines: seq<string>)
    requires IsMainGo(path) || Contains(content, "package main") || EndsWith(path, "_test.go")
    ensures SingleLine(path, content, lines, PanicInLib) == []
  {
  }

  /** A single-line finding comes from a line outside every multi-line raw
      string, whose leftmost pattern match starts outside literals and
      comments; `ignored_error` never reports an `import` or `var` line. */
  lemma SingleLineSound(path: string, content: string, lines: seq<string>, id: SmellId, m: Match)
    requires m in SingleLine(path, content, lines, id)
    ensures PatternOf(id).Some? && 1 <= m.line <= |lines|
    ensures var i := m.line - 1; var line := lines[i];
      i !in RawStringLines(lines)
      && P.Search(PatternOf(id).value, line).Some?
      && !InString(line, P.Search(PatternOf(id).value, line).value)
      && (id == IgnoredError ==> !StartsWith(Strip(line), "import") && !StartsWith(Strip(line), "var"))
  {
    SamplesMembers(path, lines, LineKeep(lines, RawStringLines(lines), PatternOf(id).value, id), |lines|, m);
  }

  // ---------------------------------------------------------------------
  // The fixers' detect_* flattening
  // ---------------------------------------------------------------------

  /** An entry handed to a fixer. */
  datatype FixEntry = FixEntry(file: string, line: nat, name: string, content: string)

  function Flatten1(e: Entry, name: (SmellId, nat) -> string): seq<FixEntry>
  {
    seq(|e.matches|, k requires 0 <= k < |e.matches| =>
      FixEntry(e.matches[k].file, e.matches[k].line, name(e.id, e.matches[k].line), e.matches[k].content))
  }

  /** The samples one entry contributes. */
  function Contribution(e: Entry, keep: set<SmellId>, name: (SmellId, nat) -> string): seq<FixEntry>
  {
    if e.id in keep then Flatten1(e, name) else []
  }

  /** Keep the samples of the smells in `keep`, in report order. */
  function Flatten(entries: seq<Entry>, keep: set<SmellId>, name: (SmellId, nat) -> string): (r: seq<FixEntry>)
    ensures forall x | x in r :: exists e, m | e in entries && m in e.matches ::
      e.id in keep && x == FixEntry(m.file, m.line, name(e.id, m.line), m.content)
  {
    if entries == [] then []
    else
      var rest := Flatten(entries[1..], keep, name);
      var e := entries[0];
      var mine := Contribution(e, keep, name);
      assert forall x | x in mine :: exists m | m in e.matches ::
        e.id in keep && x == FixEntry(m.file, m.line, name(e.id, m.line), m.content);
      mine + rest
  }

  /** Flattening one entry more appends its contribution. */
  lemma {:induction false} FlattenSnoc(xs: seq<Entry>, e: Entry, keep: set<SmellId>, name: (SmellId, nat) -> string)
    ensures Flatten(xs + [e], keep, name) == Flatten(xs, keep, name) + Contribution(e, keep, name)
    decreases |xs|
  {
    var ys := xs + [e];
    if xs == [] {
      assert ys[1..] == [];
    } else {
      assert ys[0] == xs[0] && ys[1..] == xs[1..] + [e];
      FlattenSnoc(xs[1..], e, keep, name);
      assert Flatten(ys, keep, name) == Contribution(xs[0], keep, name) + Flatten(ys[1..], keep, name);
      assert Flatten(xs, keep, name) == Contribution(xs[0], keep, name) + Flatten(xs[1..], keep, name);
    }
  }

  /** The `for e in entries: if e["id"] in …: for m in e["matches"]:
      flat.append(…)` loops of the fixers' `detect_*` functions. */
  method FlattenEntries(entries: seq<Entry>, keep: set<SmellId>, name: (SmellId, nat) -> string)
    returns (flat: seq<FixEntry>)
    ensures flat == Flatten(entries, keep, name)
  {
    flat := [];
    var i := 0;
    while i < |entries|
      invariant 0 <= i <= |entries|
      invariant flat == Flatten(entries[..i], keep, name)
    {
      var e := entries[i];
      if e.id in keep {
        flat := AppendMatches(flat, e, name);
      }
      assert entries[..i + 1] == entries[..i] + [e];
      FlattenSnoc(entries[..i], e, keep, name);
      i := i + 1;
    }
    assert entries[..i] == entries;
  }

  /** The inner `for m in e["matches"]` loop. */
  method AppendMatches(flat: seq<FixEntry>, e: Entry, name: (SmellId, nat) -> string) returns (flat': seq<FixEntry>)
    ensures flat' == flat + Flatten1(e, name)
  {
    flat' := flat;
    var j := 0;
    while j < |e.matches|
      invariant 0 <= j <= |e.matches|
      invariant flat' == flat + Flatten1(e, name)[..j]
    {
      var m := e.matches[j];
      flat' := flat' + [FixEntry(m.file, m.line, name(e.id, m.line), m.content)];
      j := j + 1;
    }
    assert Flatten1(e, name)[..j] == Flatten1(e, name);
  }

  /** Every sample of a kept smell is handed on. */
  lemma {:induction false} FlattenComplete(entries: seq<Entry>, keep: set<SmellId>, name: (SmellId, nat) -> string,
                                           e: Entry, m: Match)
    requires e in entries && e.id in keep && m in e.matches
    ensures FixEntry(m.file, m.line, name(e.id, m.line), m.content) in Flatten(entries, keep, name)
  {
    if e == entries[0] {
      var k :| 0 <= k < |e.matches| && e.matches[k] == m;
      assert Flatten1(e, name)[k] == FixEntry(m.file, m.line, name(e.id, m.line), m.content);
    } else {
      FlattenComplete(entries[1..], keep, name, e, m);
    }
  }
}
