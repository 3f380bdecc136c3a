/** The regular expressions of the Go smell detector
    (desloppify/lang/go/detectors/smells.py), each written as a predicate
    `XAt(s, k)`: "the pattern matches `s` starting at index `k`".
    Every pattern here backtracks only in ways that cannot succeed (a
    shorter `\s*` or `\w+` leaves a space or word character where the next
    token needs something else), so each is a deterministic scan; where a
    real choice remains (`\w+` in `global_mutable`, `[^)]*` in
    `empty_interface`/`mutex_copy`) it is an explicit `exists`.
    The catalog patterns are also reachable through `MatchAt(p, s, k)`,
    and `re.search` on them is `Search`: the leftmost matching index.
    Where the detector only asks whether a pattern occurs, `XFound(s)` is
    the plain existence of a match. `^`-anchored patterns match only at
    index 0 (lines hold no newline). */
module SmellPatterns {
  import opened Wrappers
  import opened Text

  /** The single-line checks of `SMELL_CHECKS` that carry a pattern. */
  datatype Pattern =
    | BareErrorReturn     // ^\s*return\s+err\s*$
    | IgnoredError        // _\s*(?:,\s*_\s*)?=\s*\w+.*\(
    | PanicCall           // (?<!\w)panic\s*\(
    | ErrorStringFormat   // (?:errors\.New|fmt\.Errorf)\s*\(\s*"[A-Z]
    | NilErrorInit        // ^\s*var\s+err\s+error\s*$
    | InitFunction        // ^func\s+init\s*\(\s*\)\s*\{
    | GlobalMutable       // ^var\s+\w+\s*=?\s*(?:map\[|(?:\[\]))
    | MagicNumber         // (?:==|!=|>=?|<=?|[+\-*/])\s*\d{4,}
    | TodoFixme           // //\s*(?:TODO|FIXME|HACK|XXX)
    | HardcodedUrl        // ["']https?://[^\s"']+["']
    | EmptyInterface      // func\s+\w+\([^)]*\b(?:interface\{\}|\bany\b)
    | GoroutineLeak       // go\s+func\s*\(
    | MutexCopy           // func\s+\w+\([^)]*\bsync\.Mutex\b
    | UnbufferedChannel   // make\(\s*chan\s+\w+\s*\)

  /** No word character just before `q` (`\b` before a word character). */
  predicate NoWordBefore(s: string, q: int)
  {
    q == 0 || (0 < q <= |s| && !IsWordChar(s[q - 1]))
  }

  /** No word character at `q` (`\b` after a word character). */
  predicate NoWordAfter(s: string, q: int)
  {
    q == |s| || (0 <= q < |s| && !IsWordChar(s[q]))
  }

  /** `return\s+err\s*$` at `i` */
  predicate ReturnErrRest(s: string, i: int)
  {
    At(s, i, "return") && Spaces1(s, i + 6) >= 0 && At(s, Spaces1(s, i + 6), "err")
    && AllSpace(s[Spaces1(s, i + 6) + 3..])
  }

  /** `if\s+err\s*!=\s*nil\s*\{` at `k`; the index after the brace, or -1. */
  function ErrCheckHead(s: string, k: int): int
  {
    if !At(s, k, "if") then -1
    else
      var a := Spaces1(s, k + 2);
      if !At(s, a, "err") then -1
      else
        var b := Spaces0(s, a + 3);
        if !At(s, b, "!=") then -1
        else
          var c := Spaces0(s, b + 2);
          if !At(s, c, "nil") then -1
          else
            var d := Spaces0(s, c + 3);
            if CharAt(s, d, '{') then d + 1 else -1
  }

  /** `\s*return\s+err\s*\}` at `i` */
  predicate ReturnErrBrace(s: string, i: int)
  {
    0 <= i <= |s| &&
    var a := SkipSpace(s, i);
    At(s, a, "return") && Spaces1(s, a + 6) >= 0 && At(s, Spaces1(s, a + 6), "err")
    && CharAt(s, Spaces0(s, Spaces1(s, a + 6) + 3), '}')
  }

  /** `_\s*(?:,\s*_\s*)?=\s*\w+.*\(` after the `=` at `i`. */
  predicate CallAfterAssign(s: string, i: int)
  {
    0 <= i <= |s| &&
    var q := SkipSpace(s, i);
    q < |s| && IsWordChar(s[q]) &&
    var r := FindChar(s, '(', q + 1);
    var n := FindChar(s, '\n', q + 1);
    r != -1 && (n == -1 || n > r)
  }

  predicate IgnoredErrorAt(s: string, k: int)
  {
    CharAt(s, k, '_') &&
    var a := SkipSpace(s, k + 1);
    (CharAt(s, a, '=') && CallAfterAssign(s, a + 1))
    || (CharAt(s, a, ',') &&
        var b := SkipSpace(s, a + 1);
        CharAt(s, b, '_') && CharAt(s, SkipSpace(s, b + 1), '=')
        && CallAfterAssign(s, SkipSpace(s, b + 1) + 1))
  }

  /** `(?:map\[|(?:\[\]))` after `\s*=?\s*` from `j` */
  predicate MutableTypeAfter(s: string, j: int)
  {
    0 <= j <= |s| &&
    var a := SkipSpace(s, j);
    var b := if CharAt(s, a, '=') then SkipSpace(s, a + 1) else a;
    At(s, b, "map[") || At(s, b, "[]")
  }

  predicate GlobalMutableAt(s: string, k: int)
  {
    k == 0 && At(s, 0, "var") && Spaces1(s, 3) >= 0 &&
    var i := Spaces1(s, 3);
    exists j | i < j <= WordEnd(s, i) :: MutableTypeAfter(s, j)
  }

  /** Length of the comparison or arithmetic operator at `k`, 0 if none. */
  function OperatorLen(s: string, k: int): nat
  {
    if At(s, k, "==") || At(s, k, "!=") || At(s, k, ">=") || At(s, k, "<=") then 2
    else if CharAt(s, k, '>') || CharAt(s, k, '<') || CharAt(s, k, '+')
         || CharAt(s, k, '-') || CharAt(s, k, '*') || CharAt(s, k, '/') then 1
    else 0
  }

  /** Four digits starting at `i` (`\d{4,}` needs only the first four). */
  predicate FourDigits(s: string, i: int)
  {
    0 <= i && i + 4 <= |s| && forall t | i <= t < i + 4 :: IsDigit(s[t])
  }

  /** End of the run of characters other than whitespace and quotes. */
  function UrlEnd(s: string, i: nat): (j: nat)
    requires i <= |s|
    ensures i <= j <= |s|
    decreases |s| - i
  {
    if i < |s| && !IsSpace(s[i]) && s[i] != '"' && s[i] != '\'' then UrlEnd(s, i + 1) else i
  }

  predicate HardcodedUrlAt(s: string, k: int)
  {
    (CharAt(s, k, '"') || CharAt(s, k, '\'')) && At(s, k + 1, "http") &&
    var p := if CharAt(s, k + 5, 's') then k + 6 else k + 5;
    At(s, p, "://") &&
    var e := UrlEnd(s, p + 3);
    e > p + 3 && (CharAt(s, e, '"') || CharAt(s, e, '\''))
  }

  /** Index just after `func\s+\w+\(` at `k`, or -1. */
  function ParamListStart(s: string, k: int): int
  {
    if !At(s, k, "func") then -1
    else
      var i := Spaces1(s, k + 4);
      if i < 0 then -1
      else
        var e := WordEnd(s, i);
        if e > i && CharAt(s, e, '(') then e + 1 else -1
  }

  /** `[^)]*` spans `s[a..q]`. */
  predicate NoCloseParen(s: string, a: int, q: int)
  {
    0 <= a <= q <= |s| && forall t | a <= t < q :: s[t] != ')'
  }

  predicate EmptyInterfaceAt(s: string, k: int)
  {
    var a := ParamListStart(s, k);
    a >= 0 && exists q | a <= q <= |s| ::
      NoCloseParen(s, a, q) && NoWordBefore(s, q)
      && (At(s, q, "interface{}") || (At(s, q, "any") && NoWordAfter(s, q + 3)))
  }

  predicate MutexCopyAt(s: string, k: int)
  {
    var a := ParamListStart(s, k);
    a >= 0 && exists q | a <= q <= |s| ::
      NoCloseParen(s, a, q) && NoWordBefore(s, q)
      && At(s, q, "sync.Mutex") && NoWordAfter(s, q + 10)
  }

  predicate PanicCallAt(s: string, k: int)
  {
    NoWordBefore(s, k) && At(s, k, "panic") && CharAt(s, Spaces0(s, k + 5), '(')
  }

  predicate ErrorStringFormatAt(s: string, k: int)
  {
    (At(s, k, "errors.New") || At(s, k, "fmt.Errorf")) &&
    var a := Spaces0(s, k + 10);
    CharAt(s, a, '(') && CharAt(s, Spaces0(s, a + 1), '"')
    && Spaces0(s, a + 1) + 1 < |s| && IsUpper(s[Spaces0(s, a + 1) + 1])
  }

  predicate NilErrorInitAt(s: string, k: int)
  {
    k == 0 && At(s, SkipSpace(s, 0), "var") &&
    var a := Spaces1(s, SkipSpace(s, 0) + 3);
    At(s, a, "err") && At(s, Spaces1(s, a + 3), "error")
    && AllSpace(s[Spaces1(s, a + 3) + 5..])
  }

  predicate InitFunctionAt(s: string, k: int)
  {
    k == 0 && At(s, 0, "func") && At(s, Spaces1(s, 4), "init") &&
    var a := Spaces0(s, Spaces1(s, 4) + 4);
    CharAt(s, a, '(') && CharAt(s, Spaces0(s, a + 1), ')')
    && CharAt(s, Spaces0(s, Spaces0(s, a + 1) + 1), '{')
  }

  predicate MagicNumberAt(s: string, k: int)
  {
    OperatorLen(s, k) > 0 && FourDigits(s, Spaces0(s, k + OperatorLen(s, k)))
  }

  predicate TodoFixmeAt(s: string, k: int)
  {
    At(s, k, "//") &&
    var a := Spaces0(s, k + 2);
    At(s, a, "TODO") || At(s, a, "FIXME") || At(s, a, "HACK") || At(s, a, "XXX")
  }

  predicate GoroutineLeakAt(s: string, k: int)
  {
    At(s, k, "go") && At(s, Spaces1(s, k + 2), "func")
    && CharAt(s, Spaces0(s, Spaces1(s, k + 2) + 4), '(')
  }

  predicate UnbufferedChannelAt(s: string, k: int)
  {
    At(s, k, "make(") && At(s, Spaces0(s, k + 5), "chan") &&
    var a := Spaces1(s, Spaces0(s, k + 5) + 4);
    a >= 0 && WordEnd(s, a) > a && CharAt(s, SkipSpace(s, WordEnd(s, a)), ')')
  }

  /** `^\s*return\s+err\s*$`; with `re.match` on an unstripped line it is
      the same test. */
  predicate ReturnErrLine(s: string)
  {
    ReturnErrRest(s, SkipSpace(s, 0))
  }

  /** `if\s+err\s*!=\s*nil\s*\{\s*return\s+err\s*\}` at `k` */
  predicate ErrCheckOneLineAt(s: string, k: int)
  {
    ErrCheckHead(s, k) >= 0 && ReturnErrBrace(s, ErrCheckHead(s, k))
  }

  /** `re.search` of the one-line error check finds something. */
  predicate ErrCheckOneLineFound(s: string)
  {
    exists k | 0 <= k <= |s| :: ErrCheckOneLineAt(s, k)
  }

  /** `re.match(r'if\s+err\s*!=\s*nil\s*\{', s)` */
  predicate ErrCheckOpen(s: string)
  {
    ErrCheckHead(s, 0) >= 0
  }

  /** `^\s*for\s+` */
  predicate ForHead(s: string)
  {
    At(s, SkipSpace(s, 0), "for") && Spaces1(s, SkipSpace(s, 0) + 3) >= 0
  }

  /** `^\s*defer\s+` */
  predicate DeferHead(s: string)
  {
    At(s, SkipSpace(s, 0), "defer") && Spaces1(s, SkipSpace(s, 0) + 5) >= 0
  }

  /** `\w+\s*\+=\s*` at `k` */
  predicate ConcatAssignAt(s: string, k: int)
  {
    0 <= k < |s| && IsWordChar(s[k]) && At(s, SkipSpace(s, WordEnd(s, k)), "+=")
  }

  predicate ConcatAssignFound(s: string)
  {
    exists k | 0 <= k <= |s| :: ConcatAssignAt(s, k)
  }

  /** `regexp\.(?:Compile|MustCompile)\s*\(` at `k` */
  predicate RegexpCompileAt(s: string, k: int)
  {
    var n := if At(s, k, "regexp.Compile") then 14 else if At(s, k, "regexp.MustCompile") then 18 else 0;
    n > 0 && CharAt(s, Spaces0(s, k + n), '(')
  }

  predicate RegexpCompileFound(s: string)
  {
    exists k | 0 <= k <= |s| :: RegexpCompileAt(s, k)
  }

  predicate MatchAt(p: Pattern, s: string, k: int)
  {
    match p
    case BareErrorReturn => k == 0 && ReturnErrLine(s)
    case IgnoredError => IgnoredErrorAt(s, k)
    case PanicCall => PanicCallAt(s, k)
    case ErrorStringFormat => ErrorStringFormatAt(s, k)
    case NilErrorInit => NilErrorInitAt(s, k)
    case InitFunction => InitFunctionAt(s, k)
    case GlobalMutable => GlobalMutableAt(s, k)
    case MagicNumber => MagicNumberAt(s, k)
    case TodoFixme => TodoFixmeAt(s, k)
    case HardcodedUrl => HardcodedUrlAt(s, k)
    case EmptyInterface => EmptyInterfaceAt(s, k)
    case GoroutineLeak => GoroutineLeakAt(s, k)
    case MutexCopy => MutexCopyAt(s, k)
    case UnbufferedChannel => UnbufferedChannelAt(s, k)
  }

  /** Leftmost match at or after `k`. */
  function SearchFrom(p: Pattern, s: string, k: nat): (r: Option<nat>)
    requires k <= |s|
    decreases |s| - k
  {
    if MatchAt(p, s, k) then Some(k)
    else if k == |s| then None
    else SearchFrom(p, s, k + 1)
  }

  /** `re.search(pattern, s)`, reduced to the start of the match. */
  function Search(p: Pattern, s: string): Option<nat>
  {
    SearchFrom(p, s, 0)
  }

  lemma {:induction false} SearchFromSpec(p: Pattern, s: string, k: nat)
    requires k <= |s|
    ensures var r := SearchFrom(p, s, k);
      (r.Some? ==> k <= r.value <= |s| && MatchAt(p, s, r.value))
      && forall j | k <= j <= |s| && (r.None? || j < r.value) :: !MatchAt(p, s, j)
    decreases |s| - k
  {
    if !MatchAt(p, s, k) && k < |s| {
      SearchFromSpec(p, s, k + 1);
    }
  }

  /** `re.search` finds the leftmost match, and finds nothing only when no
      index matches. */
  lemma SearchSpec(p: Pattern, s: string)
    ensures var r := Search(p, s);
      (r.Some? ==> r.value <= |s| && MatchAt(p, s, r.value))
      && forall j | 0 <= j <= |s| && (r.None? || j < r.value) :: !MatchAt(p, s, j)
  {
    SearchFromSpec(p, s, 0);
  }
}
