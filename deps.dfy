/** Import extraction and the package dependency graph of the Go
    detector (desloppify/lang/go/detectors/deps.py).
    The three regular expressions are written as deterministic matchers
    (`GroupAt`, `SingleAt`, `LineAt`), each giving the match that starts
    at a position, if any; `re.finditer` is a scan that resumes after each
    match (`GroupsFrom`, `SinglesFrom`, `LinePaths`). Files are given as
    inputs: their resolved path, their directory relative to the scan root
    and their content (`None` when reading fails). The edge set of the
    graph is `Edges`, and a node's `imports`/`importers` are its out- and
    in-neighbours in it. */
module Deps {
  import opened Wrappers
  import opened Text

  // ---------------------------------------------------------------
  // The import regular expressions
  // ---------------------------------------------------------------

  /** A character of `[\w.]`, the alias of an import (`pb`, `.`, `_`). */
  predicate IsAliasChar(c: char)
  {
    IsWordChar(c) || c == '.'
  }

  /** End of the run of alias characters starting at `i`. */
  function AliasEnd(s: string, i: nat): (j: nat)
    requires i <= |s|
    ensures i <= j <= |s|
    decreases |s| - i
  {
    if i < |s| && IsAliasChar(s[i]) then AliasEnd(s, i + 1) else i
  }

  lemma {:induction false} AliasEndSpec(s: string, i: nat)
    requires i <= |s|
    ensures forall k | i <= k < AliasEnd(s, i) :: IsAliasChar(s[k])
    ensures AliasEnd(s, i) < |s| ==> !IsAliasChar(s[AliasEnd(s, i)])
    decreases |s| - i
  {
    if i < |s| && IsAliasChar(s[i]) {
      AliasEndSpec(s, i + 1);
    }
  }

  /** The keyword `import` at `i`. */
  predicate ImportAt(s: string, i: int)
  {
    0 <= i && i + 6 <= |s| && s[i] == 'i' && s[i + 1] == 'm' && s[i + 2] == 'p'
    && s[i + 3] == 'o' && s[i + 4] == 'r' && s[i + 5] == 't'
  }

  /** A match that captures an import path and ends before `end`. */
  datatype PathMatch = PathMatch(end: nat, path: string)

  /** A captured import path: non-empty and free of `"`. */
  predicate IsPath(x: string)
  {
    x != [] && forall i | 0 <= i < |x| :: x[i] != '"'
  }

  /** `"([^"]+)"` at `q`. */
  function QuotedAt(s: string, q: nat): (m: Option<PathMatch>)
    ensures m.Some? ==> q + 2 < m.value.end <= |s|
  {
    if CharAt(s, q, '"') then
      var c := FindChar(s, '"', q + 1);
      if c > q + 1 then Some(PathMatch(c + 1, s[q + 1..c])) else None
    else None
  }

  /** What `QuotedAt` captures is a path that runs up to the first `"`. */
  lemma QuotedPath(s: string, q: nat)
    requires QuotedAt(s, q).Some?
    ensures IsPath(QuotedAt(s, q).value.path)
  {
    FindCharFirst(s, '"', q + 1);
  }

  /** `(?:[\w.]+\s+)?"([^"]+)"` at `j`. A greedy `[\w.]+` or `\s+` that
      gave characters back would leave an alias character or a space
      where the next token needs a space or a quote, so the only choice is
      whether the alias is present. */
  function LineAt(s: string, j: nat): (m: Option<PathMatch>)
    requires j <= |s|
    ensures m.Some? ==> j < m.value.end <= |s|
  {
    var w := AliasEnd(s, j);
    var b := Spaces1(s, w);
    var aliased := if w > j && b >= 0 then QuotedAt(s, b) else None;
    if aliased.Some? then aliased else QuotedAt(s, j)
  }

  /** The paths `_IMPORT_LINE_RE.finditer(b)` captures from `p` on. */
  function LinePaths(b: string, p: nat): seq<string>
    requires p <= |b|
    decreases |b| - p
  {
    match LineAt(b, p)
    case Some(m) => [m.path] + LinePaths(b, m.end)
    case None => if p < |b| then LinePaths(b, p + 1) else []
  }

  /** One match of the group regex: its span and its captured body. */
  datatype Group = Group(start: nat, end: nat, body: string)

  /** The span `m.span()` of a match. */
  datatype Span = Span(start: nat, end: nat)

  /** `import\s*\((.*?)\)` (DOTALL) at `p`. The lazy body ends at the
      first `)` after the `(`. */
  function GroupAt(s: string, p: nat): (g: Option<Group>)
    requires p <= |s|
    ensures g.Some? ==> g.value.start == p < g.value.end <= |s|
  {
    if ImportAt(s, p) then
      var a := SkipSpace(s, p + 6);
      if CharAt(s, a, '(') then
        var c := FindChar(s, ')', a + 1);
        if c >= 0 then Some(Group(p, c + 1, s[a + 1..c])) else None
      else None
    else None
  }

  /** `_GROUP_IMPORT_RE.finditer(s)` from `p` on. */
  function GroupsFrom(s: string, p: nat): seq<Group>
    requires p <= |s|
    decreases |s| - p
  {
    match GroupAt(s, p)
    case Some(g) => [g] + GroupsFrom(s, g.end)
    case None => if p < |s| then GroupsFrom(s, p + 1) else []
  }

  function Spans(gs: seq<Group>): (r: seq<Span>)
  {
    seq(|gs|, i requires 0 <= i < |gs| => Span(gs[i].start, gs[i].end))
  }

  /** The paths of every block, block by block. */
  function GroupPaths(gs: seq<Group>): seq<string>
  {
    if gs == [] then [] else LinePaths(gs[0].body, 0) + GroupPaths(gs[1..])
  }

  /** `^\s*import\s+(?:[\w.]+\s+)?"([^"]+)"` (MULTILINE) at `p`. `^`
      holds at 0 and after a newline; `\s*` may run over further lines. */
  function SingleAt(s: string, p: nat): (m: Option<PathMatch>)
    requires p <= |s|
    ensures m.Some? ==> p < m.value.end <= |s|
  {
    if p == 0 || s[p - 1] == '\n' then
      var a := SkipSpace(s, p);
      var b := Spaces1(s, a + 6);
      if ImportAt(s, a) && b >= 0 then LineAt(s, b) else None
    else None
  }

  /** One single-import match: where it starts, and its path. */
  datatype Single = Single(start: nat, path: string)

  /** `_SINGLE_IMPORT_RE.finditer(s)` from `p` on. */
  function SinglesFrom(s: string, p: nat): seq<Single>
    requires p <= |s|
    decreases |s| - p
  {
    match SingleAt(s, p)
    case Some(m) => [Single(p, m.path)] + SinglesFrom(s, m.end)
    case None => if p < |s| then SinglesFrom(s, p + 1) else []
  }

  /** `any(gs <= k < ge for gs, ge in spans)` */
  predicate InSpans(spans: seq<Span>, k: int)
  {
    exists i | 0 <= i < |spans| :: spans[i].start <= k < spans[i].end
  }

  /** The paths of the single imports that start outside every span. */
  function Kept(ss: seq<Single>, spans: seq<Span>): seq<string>
  {
    if ss == [] then []
    else (if InSpans(spans, ss[0].start) then [] else [ss[0].path]) + Kept(ss[1..], spans)
  }

  /** `_extract_imports(content)`: the block paths, then the kept single
      imports. */
  function Imports(s: string): seq<string>
  {
    var gs := GroupsFrom(s, 0);
    GroupPaths(gs) + Kept(SinglesFrom(s, 0), Spans(gs))
  }

  // ---------------------------------------------------------------
  // _extract_imports, as loops
  // ---------------------------------------------------------------

  /** The inner `for line_match in _IMPORT_LINE_RE.finditer(block)`. */
  method BlockPaths(block: string) returns (paths: seq<string>)
    ensures paths == LinePaths(block, 0)
  {
    paths := [];
    var p := 0;
    while p < |block|
      invariant p <= |block|
      invariant paths + LinePaths(block, p) == LinePaths(block, 0)
      decreases |block| - p
    {
      var m := LineAt(block, p);
      if m.Some? {
        paths := paths + [m.value.path];
        p := m.value.end;
      } else {
        p := p + 1;
      }
    }
  }

  lemma GroupsCons(g: Group, rest: seq<Group>)
    ensures GroupPaths([g] + rest) == LinePaths(g.body, 0) + GroupPaths(rest)
  {
    assert ([g] + rest)[1..] == rest;
  }

  /** `_GROUP_IMPORT_RE.finditer(content)`, as a loop over positions. */
  method FindGroups(s: string) returns (groups: seq<Group>)
    ensures groups == GroupsFrom(s, 0)
  {
    groups := [];
    var p := 0;
    while p < |s|
      invariant p <= |s|
      invariant groups + GroupsFrom(s, p) == GroupsFrom(s, 0)
      decreases |s| - p
    {
      var g := GroupAt(s, p);
      if g.Some? {
        groups := groups + [g.value];
        p := g.value.end;
      } else {
        p := p + 1;
      }
    }
  }

  lemma GroupPathsSnoc(gs: seq<Group>, g: Group)
    ensures GroupPaths(gs + [g]) == GroupPaths(gs) + LinePaths(g.body, 0)
  {
    if gs == [] {
      assert [g] + [] == [g];
      GroupsCons(g, []);
    } else {
      assert (gs + [g])[1..] == gs[1..] + [g];
      GroupPathsSnoc(gs[1..], g);
    }
  }

  /** The first loop of `_extract_imports`: block paths and spans. */
  method GroupImports(s: string) returns (imports: seq<string>, spans: seq<Span>)
    ensures imports == GroupPaths(GroupsFrom(s, 0))
    ensures spans == Spans(GroupsFrom(s, 0))
  {
    var groups := FindGroups(s);
    imports := [];
    spans := [];
    for i := 0 to |groups|
      invariant imports == GroupPaths(groups[..i])
      invariant spans == Spans(groups[..i])
    {
      var g := groups[i];
      assert groups[..i + 1] == groups[..i] + [g];
      GroupPathsSnoc(groups[..i], g);
      spans := spans + [Span(g.start, g.end)];
      var paths := BlockPaths(g.body);
      imports := imports + paths;
    }
    assert groups[..|groups|] == groups;
  }

  /** The `any(...)` test of one match start against the spans. */
  method StartsInGroup(spans: seq<Span>, k: nat) returns (inGroup: bool)
    ensures inGroup == InSpans(spans, k)
  {
    inGroup := false;
    var i := 0;
    while i < |spans|
      invariant i <= |spans|
      invariant inGroup == exists j | 0 <= j < i :: spans[j].start <= k < spans[j].end
    {
      if spans[i].start <= k < spans[i].end {
        inGroup := true;
      }
      i := i + 1;
    }
  }

  /** `_SINGLE_IMPORT_RE.finditer(content)`, as a loop over positions. */
  method FindSingles(s: string) returns (singles: seq<Single>)
    ensures singles == SinglesFrom(s, 0)
  {
    singles := [];
    var p := 0;
    while p < |s|
      invariant p <= |s|
      invariant singles + SinglesFrom(s, p) == SinglesFrom(s, 0)
      decreases |s| - p
    {
      var m := SingleAt(s, p);
      if m.Some? {
        singles := singles + [Single(p, m.value.path)];
        p := m.value.end;
      } else {
        p := p + 1;
      }
    }
  }

  lemma KeptSnoc(ss: seq<Single>, m: Single, spans: seq<Span>)
    ensures Kept(ss + [m], spans) == Kept(ss, spans) + (if InSpans(spans, m.start) then [] else [m.path])
  {
    if ss == [] {
      assert [m] + [] == [m];
      assert ([m])[1..] == [];
    } else {
      assert (ss + [m])[1..] == ss[1..] + [m];
      KeptSnoc(ss[1..], m, spans);
    }
  }

  /** The second loop of `_extract_imports`: single imports outside the
      spans. */
  method SingleImports(s: string, spans: seq<Span>) returns (kept: seq<string>)
    ensures kept == Kept(SinglesFrom(s, 0), spans)
  {
    var singles := FindSingles(s);
    kept := [];
    for i := 0 to |singles|
      invariant kept == Kept(singles[..i], spans)
    {
      var m := singles[i];
      assert singles[..i + 1] == singles[..i] + [m];
      KeptSnoc(singles[..i], m, spans);
      var inGroup := StartsInGroup(spans, m.start);
      if !inGroup {
        kept := kept + [m.path];
      }
    }
    assert singles[..|singles|] == singles;
  }

  /** `_extract_imports(content)` */
  method ExtractImports(content: string) returns (imports: seq<string>)
    ensures imports == Imports(content)
  {
    var spans;
    imports, spans := GroupImports(content);
    var singles := SingleImports(content, spans);
    imports := imports + singles;
  }

  // ---------------------------------------------------------------
  // Properties of import extraction
  // ---------------------------------------------------------------

  lemma LineAtPath(s: string, j: nat)
    requires j <= |s| && LineAt(s, j).Some?
    ensures IsPath(LineAt(s, j).value.path)
  {
    var w := AliasEnd(s, j);
    var b := Spaces1(s, w);
    if w > j && b >= 0 && QuotedAt(s, b).Some? {
      QuotedPath(s, b);
    } else {
      QuotedPath(s, j);
    }
  }

  lemma {:induction false} LinePathsArePaths(b: string, p: nat)
    requires p <= |b|
    ensures forall x | x in LinePaths(b, p) :: IsPath(x)
    decreases |b| - p
  {
    var m := LineAt(b, p);
    if m.Some? {
      LineAtPath(b, p);
      LinePathsArePaths(b, m.value.end);
    } else if p < |b| {
      LinePathsArePaths(b, p + 1);
    }
  }

  lemma {:induction false} GroupPathsArePaths(gs: seq<Group>)
    ensures forall x | x in GroupPaths(gs) :: IsPath(x)
  {
    if gs != [] {
      LinePathsArePaths(gs[0].body, 0);
      GroupPathsArePaths(gs[1..]);
    }
  }

  lemma {:induction false} SinglesArePaths(s: string, p: nat)
    requires p <= |s|
    ensures forall m | m in SinglesFrom(s, p) :: IsPath(m.path)
    decreases |s| - p
  {
    var m := SingleAt(s, p);
    if m.Some? {
      var a := SkipSpace(s, p);
      LineAtPath(s, Spaces1(s, a + 6));
      SinglesArePaths(s, m.value.end);
    } else if p < |s| {
      SinglesArePaths(s, p + 1);
    }
  }

  /** A path is kept exactly when some single import carrying it starts
      outside every group span: a match inside a block never duplicates
      the block's paths. */
  lemma {:induction false} KeptMembers(ss: seq<Single>, spans: seq<Span>, x: string)
    ensures x in Kept(ss, spans) <==> exists m | m in ss :: m.path == x && !InSpans(spans, m.start)
  {
    if ss != [] {
      KeptMembers(ss[1..], spans, x);
      assert forall m | m in ss :: m == ss[0] || m in ss[1..];
    }
  }

  /** Every extracted import is a non-empty string without quotes. */
  lemma ImportsArePaths(s: string)
    ensures forall x | x in Imports(s) :: IsPath(x)
  {
    var gs := GroupsFrom(s, 0);
    GroupPathsArePaths(gs);
    SinglesArePaths(s, 0);
    forall x | x in Kept(SinglesFrom(s, 0), Spans(gs))
      ensures IsPath(x)
    {
      KeptMembers(SinglesFrom(s, 0), Spans(gs), x);
    }
  }

  /** `SkipSpace` runs over `n` whitespace characters and stops at the
      first non-space after them. */
  lemma {:induction false} SkipSpaceRun(s: string, i: nat, n: nat)
    requires i + n <= |s| && forall k | i <= k < i + n :: IsSpace(s[k])
    requires i + n < |s| ==> !IsSpace(s[i + n])
    ensures SkipSpace(s, i) == i + n
    decreases n
  {
    if n > 0 {
      SkipSpaceRun(s, i + 1, n - 1);
    }
  }

  /** `AliasEnd` runs over `n` alias characters and stops after them. */
  lemma {:induction false} AliasEndRun(s: string, i: nat, n: nat)
    requires i + n <= |s| && forall k | i <= k < i + n :: IsAliasChar(s[k])
    requires i + n < |s| ==> !IsAliasChar(s[i + n])
    ensures AliasEnd(s, i) == i + n
    decreases n
  {
    if n > 0 {
      AliasEndRun(s, i + 1, n - 1);
    }
  }

  /** `"path"` written at `q`. */
  predicate QuotedPathAt(s: string, q: nat, path: string)
  {
    IsPath(path) && q + |path| + 2 <= |s| && s[q] == '"' && s[q + |path| + 1] == '"'
    && forall k | 0 <= k < |path| :: s[q + 1 + k] == path[k]
  }

  /** A quoted path is captured whole. */
  lemma QuotedAtPath(s: string, q: nat, path: string)
    requires QuotedPathAt(s, q, path)
    ensures QuotedAt(s, q) == Some(PathMatch(q + |path| + 2, path))
  {
    FindCharFirst(s, '"', q + 1);
    assert forall k | q + 1 <= k < q + |path| + 1 :: s[k] == path[k - q - 1];
    assert FindChar(s, '"', q + 1) == q + |path| + 1;
    assert s[q + 1..q + |path| + 1] == path;
  }

  /** An import line without an alias: the match captures the quoted
      path. */
  lemma LineAtPlain(s: string, q: nat, path: string)
    requires QuotedPathAt(s, q, path)
    ensures LineAt(s, q) == Some(PathMatch(q + |path| + 2, path))
  {
    QuotedAtPath(s, q, path);
    AliasEndRun(s, q, 0);
  }

  /** An import line with an alias (alias characters from `j` to `n`,
      whitespace up to `b`): the match captures the quoted path, so the
      alias is dropped. */
  lemma LineAtAlias(s: string, j: nat, n: nat, b: nat, path: string)
    requires j < n < b && QuotedPathAt(s, b, path)
    requires forall k | j <= k < n :: IsAliasChar(s[k])
    requires forall k | n <= k < b :: IsSpace(s[k])
    ensures LineAt(s, j) == Some(PathMatch(b + |path| + 2, path))
  {
    QuotedAtPath(s, b, path);
    AliasEndRun(s, j, n - j);
    SkipSpaceRun(s, n, b - n);
  }

  /** The single-import matcher at offset 0: whitespace up to `a`, the
      keyword, whitespace up to `b`, then a non-space. */
  lemma SingleAtStart(s: string, a: nat, b: nat)
    requires a + 6 < b < |s| && ImportAt(s, a) && !IsSpace(s[b])
    requires forall k | 0 <= k < a :: IsSpace(s[k])
    requires forall k | a + 6 <= k < b :: IsSpace(s[k])
    ensures SingleAt(s, 0) == LineAt(s, b)
  {
    assert !IsSpace(s[a]);
    SkipSpaceRun(s, 0, a);
    SkipSpaceRun(s, a + 6, b - a - 6);
    assert Spaces1(s, a + 6) == b;
  }

  /** `import alias "path"` or `import "path"` at the start of the
      content is a single import whose path is the line's path. */
  lemma SingleImportAt(s: string, a: nat, b: nat)
    requires a + 6 < b < |s| && ImportAt(s, a) && !IsSpace(s[b])
    requires forall k | 0 <= k < a :: IsSpace(s[k])
    requires forall k | a + 6 <= k < b :: IsSpace(s[k])
    requires LineAt(s, b).Some?
    ensures |SinglesFrom(s, 0)| > 0 && SinglesFrom(s, 0)[0] == Single(0, LineAt(s, b).value.path)
  {
    SingleAtStart(s, a, b);
    var e := SingleAt(s, 0).value.end;
    assert SinglesFrom(s, 0) == [Single(0, LineAt(s, b).value.path)] + SinglesFrom(s, e);
  }

  // ---------------------------------------------------------------
  // Package ids
  // ---------------------------------------------------------------

  /** `p.replace(sep, "/")` for a one-character separator. */
  function Normalize(p: string, sep: char): (r: string)
    ensures |r| == |p|
  {
    if p == [] then [] else [if p[0] == sep then '/' else p[0]] + Normalize(p[1..], sep)
  }

  lemma {:induction false} NormalizeSpec(p: string, sep: char)
    ensures forall i | 0 <= i < |p| :: Normalize(p, sep)[i] == (if p[i] == sep then '/' else p[i])
  {
    if p != [] {
      NormalizeSpec(p[1..], sep);
    }
  }

  lemma {:induction false} NormalizeAppend(p: string, t: string, sep: char)
    ensures Normalize(p + t, sep) == Normalize(p, sep) + Normalize(t, sep)
  {
    NormalizeSpec(p + t, sep);
    NormalizeSpec(p, sep);
    NormalizeSpec(t, sep);
    var l := Normalize(p + t, sep);
    var r := Normalize(p, sep) + Normalize(t, sep);
    forall i | 0 <= i < |l|
      ensures l[i] == r[i]
    {
      if i >= |p| {
        assert (p + t)[i] == t[i - |p|];
      }
    }
  }

  /** Where the scan runs: the module path from `go.mod` (if any) and the
      platform's path separator. */
  datatype Root = Root(modulePath: Option<string>, sep: char)

  /** The package id of a file in directory `relDir` (relative to the
      scan root, `"."` for the root itself). An empty module path counts
      as none. */
  function PkgId(root: Root, relDir: string): string
  {
    var raw :=
      if root.modulePath.Some? && root.modulePath.value != [] then
        (if relDir != "." then root.modulePath.value + "/" + relDir else root.modulePath.value)
      else relDir;
    Normalize(raw, root.sep)
  }

  /** The three rules for package ids; no separator survives. */
  lemma PkgIdRules(root: Root, relDir: string)
    ensures root.modulePath.Some? && root.modulePath.value != [] && relDir == "." ==>
      PkgId(root, relDir) == Normalize(root.modulePath.value, root.sep)
    ensures root.modulePath.Some? && root.modulePath.value != [] && relDir != "." ==>
      PkgId(root, relDir) == Normalize(root.modulePath.value, root.sep) + "/" + Normalize(relDir, root.sep)
    ensures root.modulePath.None? || root.modulePath.value == [] ==> PkgId(root, relDir) == Normalize(relDir, root.sep)
    ensures forall i | 0 <= i < |PkgId(root, relDir)| :: PkgId(root, relDir)[i] != root.sep || root.sep == '/'
  {
    if root.modulePath.Some? && root.modulePath.value != [] && relDir != "." {
      var m := root.modulePath.value;
      NormalizeAppend(m + "/", relDir, root.sep);
      NormalizeAppend(m, "/", root.sep);
    }
    var raw :=
      if root.modulePath.Some? && root.modulePath.value != [] then
        (if relDir != "." then root.modulePath.value + "/" + relDir else root.modulePath.value)
      else relDir;
    NormalizeSpec(raw, root.sep);
  }

  // ---------------------------------------------------------------
  // The dependency graph
  // ---------------------------------------------------------------

  /** A discovered `.go` file: resolved path, directory relative to the
      scan root, and content (`None` when reading it fails). */
  datatype SourceFile = SourceFile(path: string, relDir: string, content: Option<string>)

  predicate IsTestFile(path: string)
  {
    EndsWith(path, "_test.go")
  }

  /** `_find_go_files`: the discovered files that are not tests. */
  function GoFiles(all: seq<SourceFile>): seq<SourceFile>
  {
    if all == [] then []
    else (if IsTestFile(all[0].path) then [] else [all[0]]) + GoFiles(all[1..])
  }

  lemma {:induction false} GoFilesMembers(all: seq<SourceFile>)
    ensures forall f :: f in GoFiles(all) <==> f in all && !IsTestFile(f.path)
  {
    if all != [] {
      GoFilesMembers(all[1..]);
      assert forall f | f in all :: f == all[0] || f in all[1..];
    }
  }

  function Pkg(root: Root, f: SourceFile): string
  {
    PkgId(root, f.relDir)
  }

  /** A discovered file with its package id, as `file_to_pkg` records
      it, and the imports extracted from its content. */
  datatype Unit = Unit(path: string, pkg: string, imports: seq<string>)

  function Located(root: Root, f: SourceFile): Unit
  {
    Unit(f.path, Pkg(root, f), ImportsOf(f.content))
  }

  /** The package id of every discovered file, in discovery order. */
  function Locate(root: Root, files: seq<SourceFile>): (r: seq<Unit>)
    ensures |r| == |files|
    ensures forall i | 0 <= i < |files| :: r[i] == Located(root, files[i])
  {
    seq(|files|, i requires 0 <= i < |files| => Located(root, files[i]))
  }

  /** `pkg_to_files.get(pkg, [])` */
  function Listed(pkgs: map<string, seq<string>>, pkg: string): seq<string>
  {
    if pkg in pkgs then pkgs[pkg] else []
  }

  /** `pkg_to_files` after the first `n` files: each file is appended to
      the list of its package id. */
  function PkgMap(files: seq<Unit>, n: nat): map<string, seq<string>>
    requires n <= |files|
  {
    if n == 0 then map[]
    else
      var m := PkgMap(files, n - 1);
      var p := files[n - 1].pkg;
      m[p := Listed(m, p) + [files[n - 1].path]]
  }

  /** `pkg_to_files.get(imp, [])` after all files. */
  function Targets(files: seq<Unit>, imp: string): seq<string>
  {
    Listed(PkgMap(files, |files|), imp)
  }

  /** The files listed for a package are exactly the files whose package
      id it is. */
  lemma {:induction false} PkgMapMembers(files: seq<Unit>, pkg: string, n: nat, t: string)
    requires n <= |files|
    ensures t in Listed(PkgMap(files, n), pkg) <==>
      exists j | 0 <= j < n :: files[j].path == t && files[j].pkg == pkg
  {
    if n > 0 {
      var m := PkgMap(files, n - 1);
      var f := files[n - 1];
      var p := f.pkg;
      assert PkgMap(files, n) == m[p := Listed(m, p) + [f.path]];
      PkgMapMembers(files, pkg, n - 1, t);
      if p == pkg {
        assert Listed(PkgMap(files, n), pkg) == Listed(m, pkg) + [f.path];
        if t == f.path {
          assert files[n - 1].path == t && files[n - 1].pkg == pkg;
        }
      } else {
        assert Listed(PkgMap(files, n), pkg) == Listed(m, pkg);
      }
    }
  }

  function PathSet(files: seq<Unit>): set<string>
  {
    set f | f in files :: f.path
  }

  /** Locating files keeps their paths. */
  lemma LocatePaths(root: Root, files: seq<SourceFile>, p: string)
    ensures p in PathSet(Locate(root, files)) <==> exists f | f in files :: f.path == p
  {
    var units := Locate(root, files);
    if p in PathSet(units) {
      var u :| u in units && u.path == p;
      var j :| 0 <= j < |units| && units[j] == u;
      assert files[j] in files;
    }
    if exists f | f in files :: f.path == p {
      var f :| f in files && f.path == p;
      var j :| 0 <= j < |files| && files[j] == f;
      assert units[j] in units;
    }
  }

  /** The imports of a file; an unreadable file has none. */
  function ImportsOf(content: Option<string>): seq<string>
  {
    if content.Some? then Imports(content.value) else []
  }

  /** `acc` with the edges from `src` to each of `targets` other than
      `src` added, one target at a time. */
  function AddTargets(acc: set<(string, string)>, src: string, targets: seq<string>): set<(string, string)>
    decreases |targets|
  {
    if targets == [] then acc
    else AddTargets(if targets[0] != src then acc + {(src, targets[0])} else acc, src, targets[1..])
  }

  /** `acc` with the edges of each import of `src` added, in order. */
  function AddImports(acc: set<(string, string)>, files: seq<Unit>, src: string, imps: seq<string>)
    : set<(string, string)>
    decreases |imps|
  {
    if imps == [] then acc
    else AddImports(AddTargets(acc, src, Targets(files, imps[0])), files, src, imps[1..])
  }

  /** `acc` with the edges of `files[n..]` added, file by file. */
  function AddFiles(acc: set<(string, string)>, files: seq<Unit>, n: nat): set<(string, string)>
    requires n <= |files|
    decreases |files| - n
  {
    if n == |files| then acc
    else AddFiles(AddImports(acc, files, files[n].path, files[n].imports), files, n + 1)
  }

  /** All edges of the graph. */
  function Edges(files: seq<Unit>): set<(string, string)>
  {
    AddFiles({}, files, 0)
  }

  /** A graph node: the files it imports and the files importing it. */
  datatype Node = Node(imports: set<string>, importers: set<string>)

  function NodeOf(edges: set<(string, string)>, p: string): Node
  {
    Node(set e | e in edges && e.0 == p :: e.1, set e | e in edges && e.1 == p :: e.0)
  }

  /** `build_dep_graph(path)` before `finalize_graph`. */
  function DepGraph(root: Root, all: seq<SourceFile>): map<string, Node>
  {
    Graph(Locate(root, GoFiles(all)))
  }

  /** One node per file, each agreeing with the edges. */
  function Graph(files: seq<Unit>): map<string, Node>
  {
    map p | p in PathSet(files) :: NodeOf(Edges(files), p)
  }

  /** Every node agrees with the edge set. */
  predicate Holds(graph: map<string, Node>, edges: set<(string, string)>)
  {
    forall p | p in graph :: graph[p] == NodeOf(edges, p)
  }

  lemma NodeOfIff(edges: set<(string, string)>, s: string, t: string)
    ensures t in NodeOf(edges, s).imports <==> (s, t) in edges
    ensures s in NodeOf(edges, t).importers <==> (s, t) in edges
  {
    if t in NodeOf(edges, s).imports {
      var e :| e in edges && e.0 == s && e.1 == t;
      assert e == (s, t);
    }
    if s in NodeOf(edges, t).importers {
      var e :| e in edges && e.1 == t && e.0 == s;
      assert e == (s, t);
    }
  }

  /** Adding one edge changes exactly its two endpoints' nodes. */
  lemma AddEdge(edges: set<(string, string)>, s: string, t: string, p: string)
    requires s != t
    ensures NodeOf(edges + {(s, t)}, p).imports == NodeOf(edges, p).imports + (if p == s then {t} else {})
    ensures NodeOf(edges + {(s, t)}, p).importers == NodeOf(edges, p).importers + (if p == t then {s} else {})
  {
    var e2 := edges + {(s, t)};
    forall x
      ensures x in NodeOf(e2, p).imports <==> x in NodeOf(edges, p).imports + (if p == s then {t} else {})
    {
      NodeOfIff(e2, p, x);
      NodeOfIff(edges, p, x);
    }
    forall x
      ensures x in NodeOf(e2, p).importers <==> x in NodeOf(edges, p).importers + (if p == t then {s} else {})
    {
      NodeOfIff(e2, x, p);
      NodeOfIff(edges, x, p);
    }
  }

  /** `graph[s]["imports"].add(t)` and `graph[t]["importers"].add(s)`. */
  method Link(graph: map<string, Node>, s: string, t: string, ghost edges: set<(string, string)>)
    returns (g: map<string, Node>)
    requires s in graph && t in graph && s != t && Holds(graph, edges)
    ensures g.Keys == graph.Keys && Holds(g, edges + {(s, t)})
  {
    g := graph[s := Node(graph[s].imports + {t}, graph[s].importers)];
    g := g[t := Node(g[t].imports, g[t].importers + {s})];
    forall p | p in g
      ensures g[p] == NodeOf(edges + {(s, t)}, p)
    {
      AddEdge(edges, s, t, p);
    }
  }

  /** `for target in target_files: if target != resolved: ...` */
  method LinkTargets(graph: map<string, Node>, src: string, targets: seq<string>, ghost edges: set<(string, string)>)
    returns (g: map<string, Node>)
    requires src in graph && (forall t | t in targets :: t in graph) && Holds(graph, edges)
    ensures g.Keys == graph.Keys && Holds(g, AddTargets(edges, src, targets))
  {
    g := graph;
    ghost var done := edges;
    var l := 0;
    while l < |targets|
      invariant l <= |targets|
      invariant g.Keys == graph.Keys && Holds(g, done)
      invariant AddTargets(done, src, targets[l..]) == AddTargets(edges, src, targets)
    {
      var target := targets[l];
      assert targets[l..][1..] == targets[l + 1..];
      if target != src {
        g := Link(g, src, target, done);
        done := done + {(src, target)};
      }
      l := l + 1;
    }
  }

  /** The first loop of `build_dep_graph`: `pkg_to_files`. */
  method PackageFiles(files: seq<Unit>) returns (pkgs: map<string, seq<string>>)
    ensures pkgs == PkgMap(files, |files|)
  {
    pkgs := map[];
    var i := 0;
    while i < |files|
      invariant i <= |files|
      invariant pkgs == PkgMap(files, i)
    {
      var pkg := files[i].pkg;
      pkgs := pkgs[pkg := Listed(pkgs, pkg) + [files[i].path]];
      i := i + 1;
    }
  }

  /** The targets of one import are files of the graph. */
  lemma TargetsAreFiles(files: seq<Unit>, imp: string)
    ensures forall t | t in Targets(files, imp) :: t in PathSet(files)
  {
    forall t | t in Targets(files, imp)
      ensures t in PathSet(files)
    {
      PkgMapMembers(files, imp, |files|, t);
      var j :| 0 <= j < |files| && files[j].path == t && files[j].pkg == imp;
      assert files[j] in files;
    }
  }

  /** `for imp in imports: target_files = pkg_to_files.get(imp, []) ...` */
  method LinkImports(graph: map<string, Node>, files: seq<Unit>, pkgs: map<string, seq<string>>,
                     src: string, imps: seq<string>, ghost edges: set<(string, string)>)
    returns (g: map<string, Node>)
    requires graph.Keys == PathSet(files) && src in graph && Holds(graph, edges)
    requires pkgs == PkgMap(files, |files|)
    ensures g.Keys == graph.Keys && Holds(g, AddImports(edges, files, src, imps))
  {
    g := graph;
    ghost var done := edges;
    var k := 0;
    while k < |imps|
      invariant k <= |imps|
      invariant g.Keys == graph.Keys && Holds(g, done)
      invariant AddImports(done, files, src, imps[k..]) == AddImports(edges, files, src, imps)
    {
      var imp := imps[k];
      var targets := Listed(pkgs, imp);
      assert targets == Targets(files, imp);
      TargetsAreFiles(files, imp);
      g := LinkTargets(g, src, targets, done);
      assert imps[k..][1..] == imps[k + 1..];
      done := AddTargets(done, src, targets);
      k := k + 1;
    }
  }

  /** The graph initialisation loop: one empty node per file. */
  method InitGraph(files: seq<Unit>) returns (graph: map<string, Node>)
    ensures graph.Keys == PathSet(files) && Holds(graph, {})
  {
    graph := map[];
    var i := 0;
    while i < |files|
      invariant i <= |files|
      invariant graph.Keys == PathSet(files[..i])
      invariant forall p | p in graph :: graph[p] == Node({}, {})
    {
      assert files[..i + 1] == files[..i] + [files[i]];
      assert PathSet(files[..i + 1]) == PathSet(files[..i]) + {files[i].path};
      graph := graph[files[i].path := Node({}, {})];
      i := i + 1;
    }
    assert files[..i] == files;
    forall p | p in graph
      ensures graph[p] == NodeOf({}, p)
    {
    }
  }

  /** `build_dep_graph` on the discovered files, up to `finalize_graph`. */
  method BuildDepGraph(root: Root, all: seq<SourceFile>) returns (graph: map<string, Node>)
    ensures graph == DepGraph(root, all)
  {
    var go := GoFiles(all);
    var files := Locate(root, go);
    graph := LinkFiles(go, files);
    GraphHolds(graph, files);
  }

  /** A graph whose nodes are the files and agree with all edges is the
      graph. */
  lemma GraphHolds(graph: map<string, Node>, files: seq<Unit>)
    requires graph.Keys == PathSet(files) && Holds(graph, Edges(files))
    ensures graph == Graph(files)
  {
  }

  /** The three loops of `build_dep_graph` over the located files. */
  method LinkFiles(go: seq<SourceFile>, files: seq<Unit>) returns (graph: map<string, Node>)
    requires |files| == |go|
    requires forall i | 0 <= i < |go| :: files[i].path == go[i].path && files[i].imports == ImportsOf(go[i].content)
    ensures graph.Keys == PathSet(files) && Holds(graph, Edges(files))
  {
    var pkgs := PackageFiles(files);
    graph := InitGraph(files);
    ghost var done: set<(string, string)> := {};
    var i := 0;
    while i < |files|
      invariant i <= |files|
      invariant graph.Keys == PathSet(files) && Holds(graph, done)
      invariant AddFiles(done, files, i) == AddFiles({}, files, 0)
    {
      assert files[i] in files;
      graph := LinkFile(graph, files, pkgs, go[i], files[i], done);
      done := AddImports(done, files, files[i].path, files[i].imports);
      i := i + 1;
    }
    assert done == AddFiles(done, files, i);
  }

  /** One pass of the third loop: read the file (skipping it when that
      fails), extract its imports and link them. */
  method LinkFile(graph: map<string, Node>, files: seq<Unit>, pkgs: map<string, seq<string>>,
                  f: SourceFile, u: Unit, ghost edges: set<(string, string)>)
    returns (g: map<string, Node>)
    requires graph.Keys == PathSet(files) && u in files && Holds(graph, edges)
    requires pkgs == PkgMap(files, |files|)
    requires u.path == f.path && u.imports == ImportsOf(f.content)
    ensures g.Keys == graph.Keys && Holds(g, AddImports(edges, files, u.path, u.imports))
  {
    g := graph;
    if f.content.Some? {
      var imports := ExtractImports(f.content.value);
      g := LinkImports(graph, files, pkgs, f.path, imports, edges);
    }
  }

  // ---------------------------------------------------------------
  // Properties of the graph
  // ---------------------------------------------------------------

  /** The edges added for a list of targets. */
  lemma {:induction false} AddTargetsMembers(acc: set<(string, string)>, src: string, targets: seq<string>,
                                             e: (string, string))
    ensures e in AddTargets(acc, src, targets) <==> e in acc || (e.0 == src && e.1 != src && e.1 in targets)
    decreases |targets|
  {
    if targets != [] {
      var next := if targets[0] != src then acc + {(src, targets[0])} else acc;
      AddTargetsMembers(next, src, targets[1..], e);
      assert targets == [targets[0]] + targets[1..];
    }
  }

  /** The edges added for an import list. */
  lemma {:induction false} AddImportsMembers(acc: set<(string, string)>, files: seq<Unit>,
                                             src: string, imps: seq<string>, s: string, t: string)
    ensures (s, t) in AddImports(acc, files, src, imps) <==>
      (s, t) in acc || (s == src && t != src && exists imp | imp in imps :: t in Targets(files, imp))
    decreases |imps|
  {
    if imps != [] {
      var ts := Targets(files, imps[0]);
      AddImportsMembers(AddTargets(acc, src, ts), files, src, imps[1..], s, t);
      AddTargetsMembers(acc, src, ts, (s, t));
      assert imps == [imps[0]] + imps[1..];
      if exists imp | imp in imps :: t in Targets(files, imp) {
        var imp :| imp in imps && t in Targets(files, imp);
        if imp != imps[0] {
          assert imp in imps[1..];
        }
      }
    }
  }

  /** The edges added for `files[n..]`. */
  lemma {:induction false} AddFilesMembers(acc: set<(string, string)>, files: seq<Unit>, n: nat,
                                           s: string, t: string)
    requires n <= |files|
    ensures (s, t) in AddFiles(acc, files, n) <==>
      (s, t) in acc || (t != s && exists j, imp | n <= j < |files| && imp in files[j].imports ::
        files[j].path == s && t in Targets(files, imp))
    decreases |files| - n
  {
    if n < |files| {
      var f := files[n];
      var next := AddImports(acc, files, f.path, f.imports);
      AddFilesMembers(next, files, n + 1, s, t);
      AddImportsMembers(acc, files, f.path, f.imports, s, t);
      if (s, t) in next && (s, t) !in acc {
        var imp :| imp in f.imports && t in Targets(files, imp);
        assert n <= n < |files| && imp in files[n].imports && files[n].path == s;
      }
      if t != s && exists j, imp | n <= j < |files| && imp in files[j].imports ::
        files[j].path == s && t in Targets(files, imp) {
        var j, imp :| n <= j < |files| && imp in files[j].imports && files[j].path == s && t in Targets(files, imp);
        if j == n {
          assert (s, t) in next;
        }
      }
    }
  }

  /** The edges, one by one: `s` imports `t` exactly when a readable file
      `s` has an import whose package holds `t`, and `t` is not `s`. */
  lemma EdgesMembers(files: seq<Unit>, s: string, t: string)
    ensures (s, t) in Edges(files) <==>
      t != s && exists j, imp | 0 <= j < |files| && imp in files[j].imports ::
        files[j].path == s && t in Targets(files, imp)
  {
    AddFilesMembers({}, files, 0, s, t);
  }

  /** A node for every non-test file, and no other. */
  lemma DepGraphNodes(root: Root, all: seq<SourceFile>, p: string)
    ensures p in DepGraph(root, all) <==> exists f | f in all :: f.path == p && !IsTestFile(f.path)
  {
    GoFilesMembers(all);
    LocatePaths(root, GoFiles(all), p);
  }

  /** Symmetry: `t` is among `s`'s imports exactly when `s` is among
      `t`'s importers; both ends of an edge are nodes. */
  lemma DepGraphSymmetric(root: Root, all: seq<SourceFile>, s: string, t: string)
    requires s in DepGraph(root, all)
    ensures t in DepGraph(root, all)[s].imports ==> t in DepGraph(root, all)
    ensures t in DepGraph(root, all) ==>
      (t in DepGraph(root, all)[s].imports <==> s in DepGraph(root, all)[t].importers)
  {
    var files := Locate(root, GoFiles(all));
    var edges := Edges(files);
    NodeOfIff(edges, s, t);
    if (s, t) in edges {
      EdgesMembers(files, s, t);
      var j, imp :| 0 <= j < |files| && imp in files[j].imports && files[j].path == s && t in Targets(files, imp);
      TargetsAreFiles(files, imp);
    }
  }

  /** No file imports itself. */
  lemma DepGraphNoSelfEdges(root: Root, all: seq<SourceFile>, s: string)
    requires s in DepGraph(root, all)
    ensures s !in DepGraph(root, all)[s].imports && s !in DepGraph(root, all)[s].importers
  {
    var files := Locate(root, GoFiles(all));
    NodeOfIff(Edges(files), s, s);
    EdgesMembers(files, s, s);
  }

  /** An edge comes from a file `s` importing the package id of a file
      `t`. */
  lemma EdgeSound(files: seq<Unit>, s: string, t: string)
    requires (s, t) in Edges(files)
    ensures t != s && exists f, u | f in files && u in files :: f.path == s && u.path == t && u.pkg in f.imports
  {
    EdgesMembers(files, s, t);
    var j, imp :| 0 <= j < |files| && imp in files[j].imports && files[j].path == s && t in Targets(files, imp);
    PkgMapMembers(files, imp, |files|, t);
    var k :| 0 <= k < |files| && files[k].path == t && files[k].pkg == imp;
    assert files[j] in files && files[k] in files;
  }

  /** Every such import yields an edge. */
  lemma EdgeComplete(files: seq<Unit>, f: Unit, u: Unit)
    requires f in files && u in files && u.pkg in f.imports && u.path != f.path
    ensures (f.path, u.path) in Edges(files)
  {
    var j :| 0 <= j < |files| && files[j] == f;
    var k :| 0 <= k < |files| && files[k] == u;
    PkgMapMembers(files, u.pkg, |files|, u.path);
    assert u.path in Targets(files, u.pkg);
    EdgesMembers(files, f.path, u.path);
  }

  /** What an edge means: `t` is in `s`'s imports exactly when `t` is not
      `s` and the file at `s` imports the package id of the file at `t`.
      An import naming no local package adds nothing. */
  lemma DepGraphEdges(root: Root, all: seq<SourceFile>, s: string, t: string)
    requires s in DepGraph(root, all)
    ensures var files := Locate(root, GoFiles(all));
      t in DepGraph(root, all)[s].imports <==>
      t != s && exists f, u | f in files && u in files :: f.path == s && u.path == t && u.pkg in f.imports
  {
    GraphEdges(Locate(root, GoFiles(all)), s, t);
  }

  lemma GraphEdges(files: seq<Unit>, s: string, t: string)
    requires s in Graph(files)
    ensures t in Graph(files)[s].imports <==>
      t != s && exists f, u | f in files && u in files :: f.path == s && u.path == t && u.pkg in f.imports
  {
    NodeOfIff(Edges(files), s, t);
    if (s, t) in Edges(files) {
      EdgeSound(files, s, t);
    }
    if t != s && exists f, u | f in files && u in files :: f.path == s && u.path == t && u.pkg in f.imports {
      var f, u :| f in files && u in files && f.path == s && u.path == t && u.pkg in f.imports;
      EdgeComplete(files, f, u);
    }
  }

  /** The pairs `(src, t)` for `t` in a set are as many as the set. */
  lemma {:induction false} PairsCard(src: string, ts: set<string>)
    ensures |set t | t in ts :: (src, t)| == |ts|
    decreases |ts|
  {
    if ts != {} {
      var x :| x in ts;
      PairsCard(src, ts - {x});
      assert (set t | t in ts :: (src, t)) == (set t | t in ts - {x} :: (src, t)) + {(src, x)};
    }
  }

  /** Importing a package whose files other than the importer number K
      adds exactly K edges out of the importer. */
  lemma ImportEdgeCount(files: seq<Unit>, src: string, imp: string)
    ensures |AddImports({}, files, src, [imp])|
      == |set u | u in files && u.pkg == imp && u.path != src :: u.path|
  {
    var ts := set u | u in files && u.pkg == imp && u.path != src :: u.path;
    var added := AddTargets({}, src, Targets(files, imp));
    assert [imp][1..] == [];
    assert AddImports({}, files, src, [imp]) == added;
    forall e
      ensures e in added <==> e in set t | t in ts :: (src, t)
    {
      AddTargetsMembers({}, src, Targets(files, imp), e);
      PkgMapMembers(files, imp, |files|, e.1);
      if e in added {
        var j :| 0 <= j < |files| && files[j].path == e.1 && files[j].pkg == imp;
        assert files[j] in files;
      }
      if e in set t | t in ts :: (src, t) {
        var u :| u in files && u.pkg == imp && u.path != src && u.path == e.1;
        var j :| 0 <= j < |files| && files[j] == u;
      }
    }
    assert added == set t | t in ts :: (src, t);
    PairsCard(src, ts);
  }
}
