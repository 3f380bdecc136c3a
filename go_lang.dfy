/** The Go language binding (desloppify/lang/go/__init__.py): the area a
    file is grouped under, and the ordered zone rules that classify paths. */
module GoLang {
  import opened Text

  // ---------------------------------------------------------------------
  // _get_go_area
  // ---------------------------------------------------------------------

  /** `_get_go_area`: the first two `/`-separated components joined back
      together when there are more than two, else the first one. Python's
      `split` never returns an empty list, so the `else filepath` fallback
      is never taken. */
  function GoArea(path: string): string
  {
    var parts := Split(path, '/');
    if |parts| > 2 then Join(parts[..2], '/') else parts[0]
  }

  /** Splitting a text without the separator gives the text alone. */
  lemma SplitNone(s: string, sep: char)
    requires sep !in s
    ensures Split(s, sep) == [s]
  {
    FindCharFirst(s, sep, 0);
  }

  /** Splitting a text with the separator gives the part before its first
      occurrence, then the pieces of the rest. */
  lemma SplitFirst(s: string, sep: char) returns (head: string, rest: string)
    requires sep in s
    ensures sep !in head && s == head + [sep] + rest
    ensures Split(s, sep) == [head] + Split(rest, sep)
  {
    var k := FindChar(s, sep, 0);
    FindCharFirst(s, sep, 0);
    head, rest := s[..k], s[k + 1..];
    assert s == head + [sep] + rest;
  }

  /** Splitting at a first separator the caller knows of. */
  lemma SplitCons(head: string, sep: char, rest: string)
    requires sep !in head
    ensures Split(head + [sep] + rest, sep) == [head] + Split(rest, sep)
  {
    var s := head + [sep] + rest;
    var k := FindChar(s, sep, 0);
    FindCharFirst(s, sep, 0);
    assert s[|head|] == sep;
    assert forall j | 0 <= j < |head| :: s[j] == head[j];
    assert k == |head|;
    assert s[..k] == head;
    assert s[k + 1..] == rest;
  }

  /** The separator count of a text split at its first separator. */
  lemma CountAfterFirst(head: string, sep: char, rest: string)
    requires sep !in head
    ensures CountChar(head + [sep] + rest, sep) == 1 + CountChar(rest, sep)
    ensures CountChar(head + [sep], sep) == 1
  {
    CountCharNone(head, sep);
    CountCharAppend(head, [sep], sep);
    CountCharAppend(head + [sep], rest, sep);
  }

  /** `r` is the part of `path` before its second `/` when there are at
      least two, before its only `/` when there is one, and the whole path
      when there is none: a prefix of the path, holding at most one `/`, and
      followed in the path by a `/` unless it is the whole path. */
  predicate IsArea(path: string, r: string)
  {
    && |r| <= |path| && r == path[..|r|]
    && (r == path <==> '/' !in path)
    && ('/' in path ==> path[|r|] == '/')
    && CountChar(r, '/') == (if CountChar(path, '/') >= 2 then 1 else 0)
  }

  lemma AreaOfNone(path: string)
    requires '/' !in path
    ensures IsArea(path, GoArea(path))
  {
    SplitNone(path, '/');
    CountCharNone(path, '/');
  }

  /** A path with one `/` has the part before it as its area. */
  lemma AreaOfOne(a: string, rest: string)
    requires '/' !in a && '/' !in rest
    ensures IsArea(a + ['/'] + rest, GoArea(a + ['/'] + rest))
  {
    var path := a + ['/'] + rest;
    SplitCons(a, '/', rest);
    SplitNone(rest, '/');
    assert GoArea(path) == a;
    CountAfterFirst(a, '/', rest);
    CountCharNone(a, '/');
    CountCharNone(rest, '/');
    assert path[..|a|] == a;
    assert path[|a|] == '/';
  }

  lemma AreaTwoValue(a: string, b: string, rest: string)
    requires '/' !in a && '/' !in b
    ensures GoArea(a + ['/'] + (b + ['/'] + rest)) == a + ['/'] + b
  {
    var path := a + ['/'] + (b + ['/'] + rest);
    SplitCons(a, '/', b + ['/'] + rest);
    SplitCons(b, '/', rest);
    var parts := Split(path, '/');
    assert parts == [a, b] + Split(rest, '/');
    assert parts[..2] == [a, b];
    JoinCons(a, [b], '/');
  }

  lemma AreaTwoShape(a: string, b: string, rest: string)
    requires '/' !in a && '/' !in b
    ensures IsArea(a + ['/'] + (b + ['/'] + rest), a + ['/'] + b)
  {
    var path := a + ['/'] + (b + ['/'] + rest);
    var r := a + ['/'] + b;
    assert path == r + ['/'] + rest;
    assert path[..|r|] == r;
    CountAfterFirst(a, '/', b + ['/'] + rest);
    CountAfterFirst(b, '/', rest);
    CountAfterFirst(a, '/', b);
    CountCharNone(b, '/');
  }

  /** A path with two or more `/` has the part before the second as its
      area. */
  lemma AreaOfTwo(a: string, b: string, rest: string)
    requires '/' !in a && '/' !in b
    ensures IsArea(a + ['/'] + (b + ['/'] + rest), GoArea(a + ['/'] + (b + ['/'] + rest)))
  {
    AreaTwoValue(a, b, rest);
    AreaTwoShape(a, b, rest);
  }

  /** `_get_go_area` gives the part of the path before its second `/`, or
      before its only `/`, or the whole path. */
  lemma GoAreaSpec(path: string)
    ensures IsArea(path, GoArea(path))
  {
    if '/' !in path {
      AreaOfNone(path);
    } else {
      var a, rest := SplitFirst(path, '/');
      if '/' !in rest {
        AreaOfOne(a, rest);
      } else {
        var b, rest2 := SplitFirst(rest, '/');
        AreaOfTwo(a, b, rest2);
      }
    }
  }

  // ---------------------------------------------------------------------
  // GO_ZONE_RULES
  // ---------------------------------------------------------------------

  datatype Zone = Production | Test | Generated | Config | Script

  /** A zone and the path fragments that place a file in it. */
  datatype ZoneRule = ZoneRule(zone: Zone, patterns: seq<string>)

  /** Some fragment of the list occurs in the path. */
  predicate AnyIn(path: string, patterns: seq<string>)
  {
    patterns != [] && (Contains(path, patterns[0]) || AnyIn(path, patterns[1..]))
  }

  predicate Matches(path: string, rule: ZoneRule)
  {
    AnyIn(path, rule.patterns)
  }

  /** The zone of the first rule with a fragment occurring in the path, and
      `Production` when no rule has one. */
  function Classify(path: string, rules: seq<ZoneRule>): Zone
  {
    if rules == [] then Production
    else if Matches(path, rules[0]) then rules[0].zone
    else Classify(path, rules[1..])
  }

  /** `Classify` picks the first matching rule. */
  lemma {:induction false} ClassifySpec(path: string, rules: seq<ZoneRule>)
    ensures (forall i | 0 <= i < |rules| :: !Matches(path, rules[i])) ==> Classify(path, rules) == Production
    ensures forall i | 0 <= i < |rules| && Matches(path, rules[i]) && (forall j | 0 <= j < i :: !Matches(path, rules[j]))
      :: Classify(path, rules) == rules[i].zone
  {
    if rules != [] && !Matches(path, rules[0]) {
      ClassifySpec(path, rules[1..]);
      forall i | 0 <= i < |rules| && Matches(path, rules[i]) && (forall j | 0 <= j < i :: !Matches(path, rules[j]))
        ensures Classify(path, rules) == rules[i].zone
      {
        assert i > 0 && rules[1..][i - 1] == rules[i];
        assert forall j | 0 <= j < i - 1 :: rules[1..][j] == rules[j + 1];
      }
      assert forall i | 0 <= i < |rules[1..]| :: rules[1..][i] == rules[i + 1];
    }
  }

  const GeneratedRule := ZoneRule(Generated, [".pb.go", "_pb2.go", "_string.go"])
  const TestRule := ZoneRule(Test, ["_test.go", "/testdata/", "/testutil/"])
  const ConfigRule := ZoneRule(Config, ["go.mod", "go.sum"])

  /** `GO_ZONE_RULES`: the Go rules ahead of the shared ones, which are
      defined outside this package and so are a parameter here. */
  function GoZoneRules(common: seq<ZoneRule>): seq<ZoneRule>
  {
    [GeneratedRule, TestRule, ConfigRule] + common
  }

  /** The order decides overlaps: a generated fragment wins over a test or
      config one, a test fragment over a config one, and the shared rules
      only see paths none of the Go fragments occur in. */
  lemma GoZoneOrder(path: string, common: seq<ZoneRule>)
    ensures Matches(path, GeneratedRule) ==> Classify(path, GoZoneRules(common)) == Generated
    ensures !Matches(path, GeneratedRule) && Matches(path, TestRule) ==> Classify(path, GoZoneRules(common)) == Test
    ensures !Matches(path, GeneratedRule) && !Matches(path, TestRule) && Matches(path, ConfigRule)
      ==> Classify(path, GoZoneRules(common)) == Config
    ensures !Matches(path, GeneratedRule) && !Matches(path, TestRule) && !Matches(path, ConfigRule)
      ==> Classify(path, GoZoneRules(common)) == Classify(path, common)
  {
    var rules := GoZoneRules(common);
    var r1 := rules[1..];
    var r2 := r1[1..];
    assert rules[0] == GeneratedRule && r1[0] == TestRule && r2[0] == ConfigRule && r2[1..] == common;
    if !Matches(path, GeneratedRule) {
      assert Classify(path, rules) == Classify(path, r1);
      if !Matches(path, TestRule) {
        assert Classify(path, r1) == Classify(path, r2);
      }
    }
  }

  /** A text lacking one of the characters of `t` does not contain `t`. */
  lemma MissingChar(s: string, t: string, c: char)
    requires c in t && c !in s
    ensures !Contains(s, t)
  {
    var k :| 0 <= k < |t| && t[k] == c;
    forall i | 0 <= i <= |s| - |t|
      ensures !At(s, i, t)
    {
      assert s[i..i + |t|][k] == s[i + k];
      assert s[i + k] in s;
    }
  }

  /** A text ending in `t` contains it. */
  lemma SuffixContained(s: string, t: string)
    requires EndsWith(s, t)
    ensures Contains(s, t)
  {
    assert At(s, |s| - |t|, t);
  }

  /** A test file of the package root is in the test zone. */
  lemma MainTestZone(common: seq<ZoneRule>)
    ensures Classify("main_test.go", GoZoneRules(common)) == Test
  {
    var path := "main_test.go";
    MissingChar(path, ".pb.go", 'p');
    MissingChar(path, "_pb2.go", 'p');
    MissingChar(path, "_string.go", 'r');
    assert !Matches(path, GeneratedRule);
    assert path[4..] == "_test.go";
    SuffixContained(path, "_test.go");
    assert Matches(path, TestRule);
    GoZoneOrder(path, common);
  }

  /** Generated protocol-buffer code is in the generated zone. */
  lemma GenPbZone(common: seq<ZoneRule>)
    ensures Classify("gen.pb.go", GoZoneRules(common)) == Generated
  {
    var path := "gen.pb.go";
    assert path[3..] == ".pb.go";
    SuffixContained(path, ".pb.go");
    assert Matches(path, GeneratedRule);
    GoZoneOrder(path, common);
  }

  lemma MainNotGenerated()
    ensures !Matches("main.go", GeneratedRule)
  {
    MissingChar("main.go", ".pb.go", 'p');
    MissingChar("main.go", "_pb2.go", '_');
    MissingChar("main.go", "_string.go", '_');
  }

  lemma MainNotTest()
    ensures !Matches("main.go", TestRule)
  {
    MissingChar("main.go", "_test.go", '_');
    MissingChar("main.go", "/testdata/", '/');
    MissingChar("main.go", "/testutil/", '/');
  }

  lemma MainNotConfig()
    ensures !Matches("main.go", ConfigRule)
  {
    MissingChar("main.go", "go.mod", 'd');
    MissingChar("main.go", "go.sum", 's');
  }

  /** `main.go` matches none of the Go rules, so it is production code
      unless a shared rule claims it. */
  lemma MainZone(common: seq<ZoneRule>)
    ensures Classify("main.go", GoZoneRules(common)) == Classify("main.go", common)
  {
    MainNotGenerated();
    MainNotTest();
    MainNotConfig();
    GoZoneOrder("main.go", common);
  }
}
