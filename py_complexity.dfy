/** The three complexity signals computed over one Python file
    (desloppify/lang/python/detectors/complexity.py):
    - `compute_max_params`: the most real parameters in a `def` header;
    - `_detect_indent_unit` and `compute_nesting_depth`: the deepest
      indentation, in units of the gcd of the file's indents;
    - `compute_long_functions`: the longest function over 80 lines.
    The source's loops are methods proved equal to specification functions;
    the indent unit is also characterised as a greatest common divisor. */
module PyComplexity {
  import opened Wrappers
  import opened Text
  import opened Signals

  // ---------------------------------------------------------------------
  // compute_max_params
  // ---------------------------------------------------------------------

  /** `def\s+\w+\s*\(([^)]*)\)` (DOTALL) at `p`: the bounds of the captured
      parameter text. Each part is greedy and what follows it cannot start
      with what it consumes, so the match is unique; it ends just past the
      `)` at the second bound. */
  function DefParams(s: string, p: nat): (r: Option<(nat, nat)>)
    requires p <= |s|
    ensures r.Some? ==> p < r.value.0 <= r.value.1 < |s| && s[r.value.0 - 1] == '(' && s[r.value.1] == ')'
  {
    if !At(s, p, "def") then None
    else
      var a := Spaces1(s, p + 3);
      if a < 0 then None
      else
        var w := WordEnd(s, a);
        if w == a then None
        else
          var q := SkipSpace(s, w);
          if q < |s| && s[q] == '(' then
            var c := FindChar(s, ')', q + 1);
            if c < 0 then None else Some((q + 1, c))
          else None
  }

  /** `param_re.finditer(content)` searching from `p`: the bounds of each
      match's parameter text, in order. */
  function ParamMatches(s: string, p: nat): (r: seq<(nat, nat)>)
    requires p <= |s|
    ensures forall j | 0 <= j < |r| :: p < r[j].0 <= r[j].1 < |s|
    decreases |s| - p
  {
    if p == |s| then []
    else
      match DefParams(s, p)
      case Some(m) => [m] + ParamMatches(s, m.1 + 1)
      case None => ParamMatches(s, p + 1)
  }

  /** A stripped parameter that does not count: `self`, `cls`, `*args`,
      `**kwargs` or a bare `*`. */
  predicate Ignored(p: string)
  {
    p == "self" || p == "cls" || StartsWith(p, "*")
  }

  /** `len(real_params)` for the pieces of a parameter text. */
  function RealCount(parts: seq<string>): nat
  {
    if parts == [] then 0
    else
      var p := Strip(parts[|parts| - 1]);
      RealCount(parts[..|parts| - 1]) + (if p != [] && !Ignored(p) then 1 else 0)
  }

  /** The number of non-blank pieces that are ignored. */
  function IgnoredCount(parts: seq<string>): nat
  {
    if parts == [] then 0
    else
      var p := Strip(parts[|parts| - 1]);
      IgnoredCount(parts[..|parts| - 1]) + (if p != [] && Ignored(p) then 1 else 0)
  }

  /** The real parameters are the non-blank pieces less the ignored ones. */
  lemma {:induction false} RealPartition(parts: seq<string>)
    ensures RealCount(parts) + IgnoredCount(parts) == NonBlankCount(parts)
  {
    if parts != [] {
      RealPartition(parts[..|parts| - 1]);
    }
  }

  /** The real parameter count of each match, in order. */
  function MatchCounts(s: string, ms: seq<(nat, nat)>): (r: seq<Option<nat>>)
    requires forall j | 0 <= j < |ms| :: ms[j].0 <= ms[j].1 <= |s|
    ensures |r| == |ms|
  {
    seq(|ms|, j requires 0 <= j < |ms| => Some(RealCount(Split(s[ms[j].0..ms[j].1], ','))))
  }

  /** `compute_max_params(content, lines)` */
  function MaxParamsSignal(s: string): Option<Signal>
  {
    var m := MaxOf(MatchCounts(s, ParamMatches(s, 0)));
    if m > 7 then Some(Signal(m, "function with " + NatToString(m) + " params")) else None
  }

  /** A signal is reported exactly when some header has more than seven
      real parameters, and its value is the largest such count. */
  lemma MaxParamsSignalSpec(s: string)
    ensures var ms := ParamMatches(s, 0);
      && (MaxParamsSignal(s).Some? <==> exists j | 0 <= j < |ms| :: RealCount(Split(s[ms[j].0..ms[j].1], ',')) > 7)
      && (MaxParamsSignal(s).Some? ==>
            (forall j | 0 <= j < |ms| :: RealCount(Split(s[ms[j].0..ms[j].1], ',')) <= MaxParamsSignal(s).value.value)
            && exists j | 0 <= j < |ms| :: RealCount(Split(s[ms[j].0..ms[j].1], ',')) == MaxParamsSignal(s).value.value)
  {
    var ms := ParamMatches(s, 0);
    var xs := MatchCounts(s, ms);
    MaxOfSpec(xs);
    assert forall j | 0 <= j < |ms| :: xs[j] == Some(RealCount(Split(s[ms[j].0..ms[j].1], ',')));
  }

  /** The `for m in param_re.finditer(content)` loop. */
  method ComputeMaxParams(content: string) returns (r: Option<Signal>)
    ensures r == MaxParamsSignal(content)
  {
    var ms := ParamMatches(content, 0);
    ghost var counts := MatchCounts(content, ms);
    var maxParams := 0;
    for h := 0 to |ms|
      invariant maxParams == MaxOf(counts[..h])
    {
      assert counts[..h + 1][..h] == counts[..h];
      var realParams := RealCount(Split(content[ms[h].0..ms[h].1], ','));
      if realParams > maxParams {
        maxParams := realParams;
      }
    }
    assert counts[..|ms|] == counts;
    if maxParams > 7 {
      return Some(Signal(maxParams, "function with " + NatToString(maxParams) + " params"));
    }
    return None;
  }

  // ---------------------------------------------------------------------
  // Greatest common divisors
  // ---------------------------------------------------------------------

  /** `math.gcd` on naturals; `Gcd(0, x) == x`. */
  function Gcd(a: nat, b: nat): nat
    decreases b
  {
    if b == 0 then a else Gcd(b, a % b)
  }

  predicate Divides(d: nat, x: nat)
  {
    d > 0 && x % d == 0
  }

  lemma MulMod(d: nat, k: int)
    requires d > 0
    ensures (d * k) % d == 0
  {
    var q, r := (d * k) / d, (d * k) % d;
    assert d * k == d * q + r;
    assert d * (k - q) == r;
    if k - q >= 1 {
      assert false;
    } else if k - q <= -1 {
      assert false;
    }
  }

  lemma DivSum(d: nat, x: nat, y: nat)
    requires Divides(d, x) && Divides(d, y)
    ensures Divides(d, x + y)
  {
    var p, q := x / d, y / d;
    assert x == d * p;
    assert y == d * q;
    assert x + y == d * (p + q);
    MulMod(d, p + q);
  }

  lemma DivDiff(d: nat, x: nat, y: nat)
    requires Divides(d, x) && Divides(d, y) && y <= x
    ensures Divides(d, x - y)
  {
    var p, q := x / d, y / d;
    assert x == d * p;
    assert y == d * q;
    assert x - y == d * (p - q);
    MulMod(d, p - q);
  }

  lemma DivMul(d: nat, x: nat, k: nat)
    requires Divides(d, x)
    ensures Divides(d, k * x)
  {
    var p := x / d;
    assert x == d * p;
    assert k * x == d * (k * p);
    MulMod(d, k * p);
  }

  lemma DivTrans(d: nat, g: nat, x: nat)
    requires Divides(d, g) && Divides(g, x)
    ensures Divides(d, x)
  {
    var q := x / g;
    assert x == g * q;
    DivMul(d, g, q);
    assert q * g == x;
  }

  /** A positive number below `d` is its own remainder, so `d` does not
      divide it. */
  lemma SmallNotDiv(d: nat, x: nat)
    requires d > 0
    ensures 0 < x < d ==> !Divides(d, x)
  {
    if 0 < x < d {
      var q, r := x / d, x % d;
      assert x == d * q + r;
      if q >= 1 {
        assert false;
      } else if q <= -1 {
        assert false;
      }
      assert r == x;
    }
  }

  /** A positive number has no divisor larger than itself. */
  lemma DivLe(d: nat, x: nat)
    requires Divides(d, x) && x > 0
    ensures d <= x
  {
    SmallNotDiv(d, x);
  }

  lemma DivSelf(d: nat)
    requires d > 0
    ensures Divides(d, d)
  {
    MulMod(d, 1);
  }

  /** The gcd divides both arguments. */
  lemma {:induction false} GcdDivides(a: nat, b: nat)
    requires a > 0 || b > 0
    ensures Gcd(a, b) > 0 && Divides(Gcd(a, b), a) && Divides(Gcd(a, b), b)
    decreases b
  {
    if b > 0 {
      GcdDivides(b, a % b);
      var g := Gcd(a, b);
      DivMul(g, b, a / b);
      DivSum(g, (a / b) * b, a % b);
      assert a == (a / b) * b + a % b;
    } else {
      DivSelf(a);
    }
  }

  /** Every common divisor divides the gcd. */
  lemma {:induction false} GcdGreatest(a: nat, b: nat, d: nat)
    requires Divides(d, a) && Divides(d, b)
    ensures Divides(d, Gcd(a, b))
    decreases b
  {
    if b > 0 {
      DivMul(d, b, a / b);
      assert a == (a / b) * b + a % b;
      DivDiff(d, a, (a / b) * b);
      assert a - (a / b) * b == a % b;
      GcdGreatest(b, a % b, d);
    }
  }

  /** The divisors of `Gcd(a, b)` are exactly the common divisors of `a` and
      `b`. */
  lemma GcdIff(a: nat, b: nat, d: nat)
    requires d > 0
    ensures Divides(d, Gcd(a, b)) <==> Divides(d, a) && Divides(d, b)
  {
    if Divides(d, a) && Divides(d, b) {
      GcdGreatest(a, b, d);
    }
    if Divides(d, Gcd(a, b)) {
      if a > 0 || b > 0 {
        GcdDivides(a, b);
        DivTrans(d, Gcd(a, b), a);
        DivTrans(d, Gcd(a, b), b);
      } else {
        assert a % d == 0;
      }
    }
  }

  // ---------------------------------------------------------------------
  // _detect_indent_unit
  // ---------------------------------------------------------------------

  /** A line the indentation scans look at: not blank once left-stripped,
      and not a `#` comment. */
  predicate Code(line: string)
  {
    var stripped := LStrip(line);
    stripped != [] && !StartsWith(stripped, "#")
  }

  /** A line whose indent goes into the indent set. */
  predicate Counted(line: string)
  {
    Code(line) && 0 < IndentLen(line) <= 16
  }

  /** The `indents` set after the first loop over `lines`. */
  function Indents(lines: seq<string>): set<nat>
  {
    if lines == [] then {}
    else
      var line := lines[|lines| - 1];
      Indents(lines[..|lines| - 1]) + (if Counted(line) then {IndentLen(line)} else {})
  }

  /** The set holds exactly the indents of the counted lines, each in 1..16. */
  lemma {:induction false} IndentsMembers(lines: seq<string>, x: nat)
    ensures x in Indents(lines) <==> exists k | 0 <= k < |lines| :: Counted(lines[k]) && IndentLen(lines[k]) == x
    ensures x in Indents(lines) ==> 0 < x <= 16
  {
    if lines != [] {
      var init := lines[..|lines| - 1];
      IndentsMembers(init, x);
      assert forall k | 0 <= k < |init| :: lines[k] == init[k];
      if x !in Indents(init) && x in Indents(lines) {
        assert Counted(lines[|lines| - 1]) && IndentLen(lines[|lines| - 1]) == x;
      }
    }
  }

  /** The gcd of the counted indents in line order (`Gcd(0, x) == x`). */
  function GcdAll(lines: seq<string>): nat
  {
    if lines == [] then 0
    else
      var line := lines[|lines| - 1];
      var g := GcdAll(lines[..|lines| - 1]);
      if Counted(line) then Gcd(g, IndentLen(line)) else g
  }

  /** `g` has exactly the common divisors of `xs` as its divisors. */
  ghost predicate SameDivisors(g: nat, xs: set<nat>)
  {
    forall d: nat | d > 0 :: Divides(d, g) <==> forall x | x in xs :: Divides(d, x)
  }

  /** `g` is the greatest common divisor of the non-empty `xs`: positive,
      dividing each, and divisible by every common divisor (hence the
      largest of them). */
  ghost predicate IsGcdOf(g: nat, xs: set<nat>)
  {
    && g > 0
    && (forall x | x in xs :: Divides(g, x))
    && (forall d: nat | d > 0 && (forall x | x in xs :: Divides(d, x)) :: Divides(d, g) && d <= g)
  }

  /** Folding one more element into a gcd keeps the common divisors. */
  lemma SameDivisorsAdd(g: nat, xs: set<nat>, x: nat)
    requires SameDivisors(g, xs)
    ensures SameDivisors(Gcd(g, x), xs + {x})
  {
    forall d: nat | d > 0
      ensures Divides(d, Gcd(g, x)) <==> forall y | y in xs + {x} :: Divides(d, y)
    {
      GcdIff(g, x, d);
    }
  }

  lemma {:induction false} GcdAllDivisors(lines: seq<string>)
    ensures SameDivisors(GcdAll(lines), Indents(lines))
  {
    if lines != [] {
      var init := lines[..|lines| - 1];
      GcdAllDivisors(init);
      var line := lines[|lines| - 1];
      if Counted(line) {
        SameDivisorsAdd(GcdAll(init), Indents(init), IndentLen(line));
      }
    } else {
      forall d: nat | d > 0
        ensures Divides(d, 0)
      {
      }
    }
  }

  /** With a positive element, a number with exactly the common divisors is
      their greatest common divisor. */
  lemma SameDivisorsGcd(g: nat, xs: set<nat>)
    requires SameDivisors(g, xs)
    requires forall x | x in xs :: x > 0
    requires xs != {}
    ensures IsGcdOf(g, xs)
  {
    var x0 :| x0 in xs;
    SmallNotDiv(x0 + 1, x0);
    assert !Divides(x0 + 1, g);
    assert Divides(x0 + 1, 0);
    DivSelf(g);
    forall d: nat | d > 0 && (forall x | x in xs :: Divides(d, x))
      ensures Divides(d, g) && d <= g
    {
      DivLe(d, g);
    }
  }

  /** Two positive numbers with the same divisors are equal. */
  lemma SameDivisorsUnique(g1: nat, g2: nat, xs: set<nat>)
    requires SameDivisors(g1, xs) && SameDivisors(g2, xs) && g1 > 0 && g2 > 0
    ensures g1 == g2
  {
    DivSelf(g1);
    DivSelf(g2);
    DivLe(g1, g2);
    DivLe(g2, g1);
  }

  /** Any number with exactly the common divisors of the indents gives the
      same unit as the line-order fold: the order in which the set yields its
      elements does not matter. */
  lemma UnitFromDivisors(lines: seq<string>, g: nat)
    requires Indents(lines) != {} && SameDivisors(g, Indents(lines))
    ensures (if g >= 1 then g else 1) == IndentUnit(lines)
  {
    var xs := Indents(lines);
    GcdAllDivisors(lines);
    forall x | x in xs
      ensures x > 0
    {
      IndentsMembers(lines, x);
    }
    SameDivisorsGcd(g, xs);
    SameDivisorsGcd(GcdAll(lines), xs);
    SameDivisorsUnique(g, GcdAll(lines), xs);
  }

  /** `_detect_indent_unit(lines)` */
  function IndentUnit(lines: seq<string>): nat
  {
    if Indents(lines) == {} then 4
    else
      var unit := GcdAll(lines);
      if unit >= 1 then unit else 1
  }

  /** The unit is 4 when no line is indented by 1 to 16 columns, and
      otherwise the greatest common divisor of those indents. */
  lemma IndentUnitSpec(lines: seq<string>)
    ensures Indents(lines) == {} ==> IndentUnit(lines) == 4
    ensures Indents(lines) != {} ==> IsGcdOf(IndentUnit(lines), Indents(lines))
  {
    if Indents(lines) != {} {
      GcdAllDivisors(lines);
      forall x | x in Indents(lines)
        ensures x > 0
      {
        IndentsMembers(lines, x);
      }
      SameDivisorsGcd(GcdAll(lines), Indents(lines));
    }
  }

  /** The two loops of `_detect_indent_unit`: collect the set, then fold
      `gcd` over it in whatever order the set yields its elements. */
  method DetectIndentUnit(lines: seq<string>) returns (unit: nat)
    ensures unit == IndentUnit(lines)
  {
    var indents: set<nat> := {};
    for l := 0 to |lines|
      invariant indents == Indents(lines[..l])
    {
      assert lines[..l + 1][..l] == lines[..l];
      var line := lines[l];
      var stripped := LStrip(line);
      if stripped != [] && !StartsWith(stripped, "#") {
        var indent := |line| - |stripped|;
        if 0 < indent <= 16 {
          indents := indents + {indent};
        }
      }
    }
    assert lines[..|lines|] == lines;
    if indents == {} {
      return 4;
    }
    var g: nat := 0;
    var rest := indents;
    forall d: nat | d > 0
      ensures Divides(d, 0)
    {
    }
    while rest != {}
      invariant rest <= indents
      invariant SameDivisors(g, indents - rest)
      decreases |rest|
    {
      var i :| i in rest;
      SameDivisorsAdd(g, indents - rest, i);
      assert indents - rest + {i} == indents - (rest - {i});
      g := Gcd(g, i);
      rest := rest - {i};
    }
    assert indents - rest == indents;
    UnitFromDivisors(lines, g);
    unit := if g >= 1 then g else 1;
  }

  // ---------------------------------------------------------------------
  // compute_nesting_depth
  // ---------------------------------------------------------------------

  /** What one line contributes to `max_depth`: its indent in units, or
      None when it is blank or a comment. */
  function LineDepth(line: string, unit: nat): Option<nat>
    requires unit > 0
  {
    if Code(line) then Some(IndentLen(line) / unit) else None
  }

  /** What each line contributes, in order. */
  function Depths(lines: seq<string>, unit: nat): (r: seq<Option<nat>>)
    requires unit > 0
    ensures |r| == |lines|
  {
    seq(|lines|, k requires 0 <= k < |lines| => LineDepth(lines[k], unit))
  }

  /** `compute_nesting_depth(content, lines)` */
  function NestingSignal(lines: seq<string>): Option<Signal>
  {
    IndentUnitSpec(lines);
    var m := MaxOf(Depths(lines, IndentUnit(lines)));
    if m > 4 then Some(Signal(m, "nesting depth " + NatToString(m))) else None
  }

  /** A signal is reported exactly when some code line is indented more than
      four units, and its value is the deepest such line's depth. */
  lemma NestingSignalSpec(lines: seq<string>)
    ensures IndentUnit(lines) > 0
    ensures var unit := IndentUnit(lines);
      && (NestingSignal(lines).Some? <==> exists k | 0 <= k < |lines| :: Code(lines[k]) && IndentLen(lines[k]) / unit > 4)
      && (NestingSignal(lines).Some? ==>
            (forall k | 0 <= k < |lines| && Code(lines[k]) :: IndentLen(lines[k]) / unit <= NestingSignal(lines).value.value)
            && exists k | 0 <= k < |lines| :: Code(lines[k]) && IndentLen(lines[k]) / unit == NestingSignal(lines).value.value)
  {
    IndentUnitSpec(lines);
    var unit := IndentUnit(lines);
    var xs := Depths(lines, unit);
    MaxOfSpec(xs);
    assert forall k | 0 <= k < |lines| :: xs[k] == LineDepth(lines[k], unit);
    if NestingSignal(lines).Some? {
      var j :| 0 <= j < |xs| && xs[j] == Some(MaxOf(xs));
      assert Code(lines[j]) && IndentLen(lines[j]) / unit == MaxOf(xs);
    }
  }

  /** The `for line in lines` loop of `compute_nesting_depth`. */
  method ComputeNestingDepth(lines: seq<string>) returns (r: Option<Signal>)
    ensures r == NestingSignal(lines)
  {
    var indentUnit := DetectIndentUnit(lines);
    IndentUnitSpec(lines);
    ghost var depths := Depths(lines, indentUnit);
    var maxDepth := 0;
    for l := 0 to |lines|
      invariant maxDepth == MaxOf(depths[..l])
    {
      assert depths[..l + 1][..l] == depths[..l];
      var line := lines[l];
      var stripped := LStrip(line);
      if stripped == [] || StartsWith(stripped, "#") {
        continue;
      }
      var indent := |line| - |stripped|;
      var depth := indent / indentUnit;
      if depth > maxDepth {
        maxDepth := depth;
      }
    }
    assert depths[..|lines|] == depths;
    if maxDepth > 4 {
      return Some(Signal(maxDepth, "nesting depth " + NatToString(maxDepth)));
    }
    return None;
  }

  // ---------------------------------------------------------------------
  // compute_long_functions
  // ---------------------------------------------------------------------

  /** `^(\s*)def\s+(\w+)` matched against a line: the indent length and the
      name. */
  function DefLine(line: string): Option<(nat, string)>
  {
    var g := SkipSpace(line, 0);
    if !At(line, g, "def") then None
    else
      var a := Spaces1(line, g + 3);
      if a < 0 then None
      else
        var w := WordEnd(line, a);
        if w == a then None else Some((g, line[a..w]))
  }

  /** The inner `while j < len(lines)` loop from `j`: the first non-blank
      line indented at most `indent`, or the end. */
  function FnEnd(lines: seq<string>, j: nat, indent: nat): (r: nat)
    requires j <= |lines|
    ensures j <= r <= |lines|
    decreases |lines| - j
  {
    if j == |lines| then j
    else if IsBlank(lines[j]) then FnEnd(lines, j + 1, indent)
    else if IndentLen(lines[j]) <= indent then j
    else FnEnd(lines, j + 1, indent)
  }

  /** The body runs over blank lines and lines indented deeper than the
      `def`, and stops at the first line that is neither. */
  lemma {:induction false} FnEndSpec(lines: seq<string>, j: nat, indent: nat)
    requires j <= |lines|
    ensures forall k | j <= k < FnEnd(lines, j, indent) :: IsBlank(lines[k]) || IndentLen(lines[k]) > indent
    ensures FnEnd(lines, j, indent) < |lines| ==>
      !IsBlank(lines[FnEnd(lines, j, indent)]) && IndentLen(lines[FnEnd(lines, j, indent)]) <= indent
    decreases |lines| - j
  {
    if j < |lines| && (IsBlank(lines[j]) || IndentLen(lines[j]) > indent) {
      FnEndSpec(lines, j + 1, indent);
    }
  }

  /** A measured function: its name and the lines `start..end` it spans. */
  datatype Span = Span(name: string, start: nat, end: nat)

  /** The functions the outer loop measures from line `i`, in order; after
      each one the scan resumes at its end. */
  function Defs(lines: seq<string>, i: nat): (r: seq<Span>)
    requires i <= |lines|
    ensures forall k | 0 <= k < |r| :: i <= r[k].start < r[k].end <= |lines|
    decreases |lines| - i
  {
    if i == |lines| then []
    else
      match DefLine(lines[i])
      case None => Defs(lines, i + 1)
      case Some(d) =>
        var j := FnEnd(lines, i + 1, d.0);
        [Span(d.1, i, j)] + Defs(lines, j)
  }

  lemma DefsSkip(lines: seq<string>, i: nat)
    requires i < |lines| && DefLine(lines[i]).None?
    ensures Defs(lines, i) == Defs(lines, i + 1)
  {
  }

  lemma DefsAt(lines: seq<string>, i: nat)
    requires i < |lines| && DefLine(lines[i]).Some?
    ensures var d := DefLine(lines[i]).value;
      var j := FnEnd(lines, i + 1, d.0);
      Defs(lines, i) == [Span(d.1, i, j)] + Defs(lines, j)
  {
  }

  /** No span starts before an earlier one ends. */
  predicate Disjoint(ds: seq<Span>)
  {
    forall a, b | 0 <= a < b < |ds| :: ds[a].end <= ds[b].start
  }

  lemma DisjointCons(x: Span, ds: seq<Span>)
    requires Disjoint(ds) && forall k | 0 <= k < |ds| :: x.end <= ds[k].start
    ensures Disjoint([x] + ds)
  {
    var xs := [x] + ds;
    forall a, b | 0 <= a < b < |xs|
      ensures xs[a].end <= xs[b].start
    {
      assert xs[b] == ds[b - 1];
      if a > 0 {
        assert xs[a] == ds[a - 1];
      }
    }
  }

  /** The measured spans do not overlap, so a `def` nested in a measured
      function is never measured on its own. */
  lemma {:induction false} DefsOrdered(lines: seq<string>, i: nat)
    requires i <= |lines|
    ensures Disjoint(Defs(lines, i))
    decreases |lines| - i
  {
    if i < |lines| {
      if DefLine(lines[i]).None? {
        DefsSkip(lines, i);
        DefsOrdered(lines, i + 1);
      } else {
        var d := DefLine(lines[i]).value;
        var j := FnEnd(lines, i + 1, d.0);
        DefsAt(lines, i);
        DefsOrdered(lines, j);
        DisjointCons(Span(d.1, i, j), Defs(lines, j));
      }
    }
  }

  /** Line `k` lies in one of the spans `ds`. */
  predicate Covered(ds: seq<Span>, k: nat)
  {
    exists a | 0 <= a < |ds| :: ds[a].start <= k < ds[a].end
  }

  lemma CoveredCons(x: Span, rest: seq<Span>, k: nat)
    requires x.start <= k < x.end || Covered(rest, k)
    ensures Covered([x] + rest, k)
  {
    var ds := [x] + rest;
    if x.start <= k < x.end {
      assert ds[0] == x;
    } else {
      var a :| 0 <= a < |rest| && rest[a].start <= k < rest[a].end;
      assert ds[a + 1] == rest[a];
    }
  }

  /** Every `def` line from `i` on lies in some measured span: it starts one
      or is nested in one. */
  lemma {:induction false} DefsCover(lines: seq<string>, i: nat, k: nat)
    requires i <= k < |lines| && DefLine(lines[k]).Some?
    ensures Covered(Defs(lines, i), k)
    decreases |lines| - i
  {
    match DefLine(lines[i])
    case None =>
      DefsSkip(lines, i);
      DefsCover(lines, i + 1, k);
    case Some(d) =>
      var j := FnEnd(lines, i + 1, d.0);
      DefsAt(lines, i);
      if j <= k {
        DefsCover(lines, j, k);
      }
      CoveredCons(Span(d.1, i, j), Defs(lines, j), k);
  }

  /** Each measured span as a `(name, loc)` measurement. */
  function Locs(ds: seq<Span>): (r: seq<Option<LongFunc>>)
    ensures |r| == |ds|
  {
    seq(|ds|, k requires 0 <= k < |ds| => Some(LongFunc(ds[k].name, ds[k].end - ds[k].start)))
  }

  /** The report for the measured spans `ds`. */
  function SpanSignal(ds: seq<Span>): Option<Signal>
  {
    var fs := Keep(Locs(ds));
    if fs == [] then None
    else
      var f := Longest(fs);
      LongestSpec(fs);
      Some(Signal(f.loc, "long function (" + f.name + ": " + NatToString(f.loc) + " LOC)"))
  }

  /** `compute_long_functions(content, lines)` */
  function LongSignal(lines: seq<string>): Option<Signal>
  {
    SpanSignal(Defs(lines, 0))
  }

  /** A long function is reported exactly when some measured function spans
      more than 80 lines, and then none is longer. */
  lemma LongSignalSpec(lines: seq<string>)
    ensures var ds := Defs(lines, 0);
      && (LongSignal(lines).Some? <==> exists k | 0 <= k < |ds| :: ds[k].end - ds[k].start > 80)
      && (LongSignal(lines).Some? ==> forall k | 0 <= k < |ds| :: ds[k].end - ds[k].start <= LongSignal(lines).value.value)
  {
    SpanSignalSpec(Defs(lines, 0));
  }

  lemma SpanSignalSpec(ds: seq<Span>)
    ensures SpanSignal(ds).Some? <==> exists k | 0 <= k < |ds| :: ds[k].end - ds[k].start > 80
    ensures SpanSignal(ds).Some? ==> forall k | 0 <= k < |ds| :: ds[k].end - ds[k].start <= SpanSignal(ds).value.value
  {
    var ms := Locs(ds);
    KeepLongest(ms);
    assert forall k | 0 <= k < |ds| :: ms[k] == Some(LongFunc(ds[k].name, ds[k].end - ds[k].start));
  }

  /** Measuring one more span keeps its function when it is over 80
      lines. */
  lemma KeepLocsSnoc(done: seq<Span>, span: Span)
    ensures Keep(Locs(done + [span])) == Keep(Locs(done)) +
      (if span.end - span.start > 80 then [LongFunc(span.name, span.end - span.start)] else [])
  {
    var ms := Locs(done + [span]);
    assert ms[..|done|] == Locs(done);
    assert ms[|done|] == Some(LongFunc(span.name, span.end - span.start));
  }

  /** The nested `while` loops of `compute_long_functions`. */
  method ComputeLongFunctions(lines: seq<string>) returns (r: Option<Signal>)
    ensures r == LongSignal(lines)
  {
    var results: seq<LongFunc> := [];
    ghost var done: seq<Span> := [];
    var i := 0;
    while i < |lines|
      invariant i <= |lines|
      invariant done + Defs(lines, i) == Defs(lines, 0)
      invariant results == Keep(Locs(done))
      decreases |lines| - i
    {
      var m := DefLine(lines[i]);
      if m.None? {
        DefsSkip(lines, i);
        i := i + 1;
        continue;
      }
      var fnIndent := m.value.0;
      var fnName := m.value.1;
      var fnStart := i;
      var j := FunctionEnd(lines, i + 1, fnIndent);
      var fnLoc := j - fnStart;
      ghost var span := Span(fnName, fnStart, j);
      DefsAt(lines, i);
      assert done + [span] + Defs(lines, j) == done + Defs(lines, i);
      KeepLocsSnoc(done, span);
      if fnLoc > 80 {
        results := results + [LongFunc(fnName, fnLoc)];
      }
      done := done + [span];
      i := j;
    }
    assert done == Defs(lines, 0);
    if results != [] {
      var longest := Longest(results);
      LongestSpec(results);
      return Some(Signal(longest.loc, "long function (" + longest.name + ": " + NatToString(longest.loc) + " LOC)"));
    }
    return None;
  }

  /** The inner `while j < len(lines)` loop. */
  method FunctionEnd(lines: seq<string>, start: nat, fnIndent: nat) returns (j: nat)
    requires start <= |lines|
    ensures j == FnEnd(lines, start, fnIndent)
  {
    j := start;
    while j < |lines|
      invariant start <= j <= |lines|
      invariant FnEnd(lines, j, fnIndent) == FnEnd(lines, start, fnIndent)
      decreases |lines| - j
    {
      if IsBlank(lines[j]) {
        j := j + 1;
        continue;
      }
      var lineIndent := |lines[j]| - |LStrip(lines[j])|;
      if lineIndent <= fnIndent && !IsBlank(lines[j]) {
        break;
      }
      j := j + 1;
    }
  }
}
