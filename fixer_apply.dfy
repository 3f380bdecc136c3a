/** The file loop shared by every Go fixer, `apply_fixer`
    (desloppify/lang/go/fixers/common.py). Files are a map from paths to
    contents: a path that is absent cannot be read, which skips it as the
    source's `OSError` handler does. A write either replaces the content or,
    for a path in `writeFails`, raises an `OSError` that the same handler
    catches. The transform is a parameter. */
module FixerApply {
  import opened Wrappers
  import opened Text
  import Smells

  /** A flattened fixer entry: the file it belongs to, its 1-based line, its
      name and the flagged line's text. */
  type Entry = Smells.FixEntry

  /** One `{"file", "removed", "lines_removed"}` result. */
  datatype FixResult = FixResult(file: string, removed: seq<string>, linesRemoved: int)

  /** `transform_fn(lines, file_entries) -> (new_lines, removed_names)` */
  type Transform = (seq<string>, seq<Entry>) -> (seq<string>, seq<string>)

  // ---------------------------------------------------------------------
  // Lines of a file
  // ---------------------------------------------------------------------

  /** `s.splitlines(keepends=True)`, splitting at `\n`: every piece but the
      last ends with its `\n`. */
  function SplitKeep(s: string): (r: seq<string>)
    decreases |s|
  {
    if s == [] then []
    else
      var k := FindChar(s, '\n', 0);
      if k < 0 then [s] else [s[..k + 1]] + SplitKeep(s[k + 1..])
  }

  /** Joining the kept-ends pieces gives the text back. */
  lemma {:induction false} SplitKeepJoin(s: string)
    ensures Concat(SplitKeep(s)) == s
    decreases |s|
  {
    if s != [] {
      var k := FindChar(s, '\n', 0);
      if k >= 0 {
        var rest := s[k + 1..];
        SplitKeepJoin(rest);
        ConcatCons(s[..k + 1], SplitKeep(rest));
        assert s == s[..k + 1] + rest;
      } else {
        ConcatCons(s, []);
      }
    }
  }

  lemma ConcatCons(x: string, xs: seq<string>)
    ensures Concat([x] + xs) == x + Concat(xs)
  {
    assert ([x] + xs)[1..] == xs;
  }

  /** `len(s.splitlines())`: the same number of pieces as with kept ends. */
  function LineCount(s: string): nat
  {
    |SplitKeep(s)|
  }

  // ---------------------------------------------------------------------
  // Grouping by file
  // ---------------------------------------------------------------------

  /** `by_file[p]`: the entries of file `p`, in order. */
  function Group(entries: seq<Entry>, p: string): seq<Entry>
  {
    if entries == [] then []
    else
      var e := entries[|entries| - 1];
      Group(entries[..|entries| - 1], p) + (if e.file == p then [e] else [])
  }

  /** The files named by the entries. */
  function FileSet(entries: seq<Entry>): set<string>
  {
    if entries == [] then {} else FileSet(entries[..|entries| - 1]) + {entries[|entries| - 1].file}
  }

  /** A file's group holds exactly the entries that name it, and a file no
      entry names has an empty group. */
  lemma {:induction false} GroupSpec(entries: seq<Entry>, p: string)
    ensures forall e :: e in Group(entries, p) <==> e in entries && e.file == p
    ensures p !in FileSet(entries) <==> Group(entries, p) == []
  {
    if entries != [] {
      var init := entries[..|entries| - 1];
      GroupSpec(init, p);
      assert entries == init + [entries[|entries| - 1]];
    }
  }

  /** `by_file` once every entry is added. */
  function Groups(entries: seq<Entry>): (m: map<string, seq<Entry>>)
    ensures m.Keys == FileSet(entries)
  {
    map p | p in FileSet(entries) :: Group(entries, p)
  }

  // ---------------------------------------------------------------------
  // Sorted paths
  // ---------------------------------------------------------------------

  /** Python's `<` on strings: lexicographic on code points. */
  predicate StrLt(a: string, b: string)
    decreases |a|
  {
    if a == [] then b != []
    else if b == [] then false
    else if a[0] != b[0] then a[0] < b[0]
    else StrLt(a[1..], b[1..])
  }

  lemma {:induction false} StrLtAsym(a: string, b: string)
    ensures !(StrLt(a, b) && StrLt(b, a))
    decreases |a|
  {
    if a != [] && b != [] && a[0] == b[0] {
      StrLtAsym(a[1..], b[1..]);
    }
  }

  lemma {:induction false} StrLtTotal(a: string, b: string)
    ensures a == b || StrLt(a, b) || StrLt(b, a)
    decreases |a|
  {
    if a != [] && b != [] && a[0] == b[0] {
      StrLtTotal(a[1..], b[1..]);
      if a[1..] == b[1..] {
        assert a == [a[0]] + a[1..] && b == [b[0]] + b[1..];
      }
    }
  }

  lemma {:induction false} StrLtTrans(a: string, b: string, c: string)
    requires StrLt(a, b) && StrLt(b, c)
    ensures StrLt(a, c)
    decreases |a|
  {
    if a != [] && a[0] == b[0] && b[0] == c[0] {
      StrLtTrans(a[1..], b[1..], c[1..]);
    }
  }

  /** `p` comes first in `s`. */
  predicate IsLeast(p: string, s: set<string>)
  {
    p in s && forall q | q in s && q != p :: StrLt(p, q)
  }

  lemma {:induction false} LeastExists(s: set<string>)
    requires s != {}
    ensures exists p :: IsLeast(p, s)
    decreases |s|
  {
    var x :| x in s;
    if s - {x} == {} {
      assert s == {x};
      assert IsLeast(x, s);
    } else {
      LeastExists(s - {x});
      var m :| IsLeast(m, s - {x});
      StrLtTotal(x, m);
      if StrLt(x, m) {
        forall q | q in s && q != x
          ensures StrLt(x, q)
        {
          if q != m {
            StrLtTrans(x, m, q);
          }
        }
        assert IsLeast(x, s);
      } else {
        assert IsLeast(m, s);
      }
    }
  }

  lemma LeastUnique(p: string, q: string, s: set<string>)
    requires IsLeast(p, s) && IsLeast(q, s)
    ensures p == q
  {
    StrLtAsym(p, q);
  }

  /** `sorted(by_file.items())`, by path: the least path first. */
  ghost function SortedPaths(s: set<string>): seq<string>
    decreases |s|
  {
    if s == {} then []
    else
      LeastExists(s);
      var p :| IsLeast(p, s);
      [p] + SortedPaths(s - {p})
  }

  lemma SortedPathsFirst(s: set<string>, p: string)
    requires IsLeast(p, s)
    ensures SortedPaths(s) == [p] + SortedPaths(s - {p})
  {
    LeastExists(s);
    var p' :| IsLeast(p', s) && SortedPaths(s) == [p'] + SortedPaths(s - {p'});
    LeastUnique(p, p', s);
  }

  /** The sorted paths are exactly the paths of the set. */
  lemma {:induction false} SortedPathsMembers(s: set<string>)
    ensures forall p :: p in SortedPaths(s) <==> p in s
    decreases |s|
  {
    if s != {} {
      LeastExists(s);
      var p :| IsLeast(p, s);
      SortedPathsFirst(s, p);
      SortedPathsMembers(s - {p});
    }
  }

  /** The paths come in strictly increasing order, so no path is visited
      twice. */
  lemma {:induction false} SortedPathsOrdered(s: set<string>)
    ensures forall i, j | 0 <= i < j < |SortedPaths(s)| :: StrLt(SortedPaths(s)[i], SortedPaths(s)[j])
    decreases |s|
  {
    if s != {} {
      LeastExists(s);
      var p :| IsLeast(p, s);
      SortedPathsFirst(s, p);
      var rest := SortedPaths(s - {p});
      SortedPathsOrdered(s - {p});
      SortedPathsMembers(s - {p});
      var xs := SortedPaths(s);
      forall i, j | 0 <= i < j < |xs|
        ensures StrLt(xs[i], xs[j])
      {
        assert xs[j] == rest[j - 1];
        if i > 0 {
          assert xs[i] == rest[i - 1];
        } else {
          assert rest[j - 1] in rest;
          assert xs[j] in s && xs[j] != p;
        }
      }
    }
  }

  // ---------------------------------------------------------------------
  // One file
  // ---------------------------------------------------------------------

  /** What the loop body does for one path: None when the file cannot be
      read or its content does not change; otherwise the result and the new
      content. */
  function FixFile(p: string, es: seq<Entry>, files: map<string, string>, t: Transform): Option<(FixResult, string)>
  {
    if p !in files then None
    else
      var original := files[p];
      var out := t(SplitKeep(original), es);
      var newContent := Concat(out.0);
      if newContent == original then None
      else Some((FixResult(p, out.1, LineCount(original) - LineCount(newContent)), newContent))
  }

  /** A transform that returns the lines it was given records nothing. */
  lemma UnchangedNoResult(p: string, es: seq<Entry>, files: map<string, string>, t: Transform)
    requires p in files && t(SplitKeep(files[p]), es).0 == SplitKeep(files[p])
    ensures FixFile(p, es, files, t).None?
  {
    SplitKeepJoin(files[p]);
  }

  /** `results` after the paths `ps`. */
  function Results(ps: seq<string>, groups: map<string, seq<Entry>>, files: map<string, string>, t: Transform): seq<FixResult>
  {
    if ps == [] then []
    else
      var p := ps[|ps| - 1];
      var prev := Results(ps[..|ps| - 1], groups, files, t);
      if p !in groups then prev
      else
        match FixFile(p, groups[p], files, t)
        case Some(o) => prev + [o.0]
        case None => prev
  }

  /** The files after the paths `ps`: a changed file is replaced unless this
      is a dry run or its write fails. */
  function Written(ps: seq<string>, groups: map<string, seq<Entry>>, files: map<string, string>, t: Transform,
                   dryRun: bool, writeFails: set<string>): map<string, string>
  {
    if ps == [] then files
    else
      var p := ps[|ps| - 1];
      var prev := Written(ps[..|ps| - 1], groups, files, t, dryRun, writeFails);
      if p !in groups then prev
      else
        match FixFile(p, groups[p], files, t)
        case Some(o) => if !dryRun && p !in writeFails then prev[p := o.1] else prev
        case None => prev
  }

  /** A dry run writes nothing. */
  lemma {:induction false} DryRunWritesNothing(ps: seq<string>, groups: map<string, seq<Entry>>, files: map<string, string>,
                                               t: Transform, writeFails: set<string>)
    ensures Written(ps, groups, files, t, true, writeFails) == files
  {
    if ps != [] {
      DryRunWritesNothing(ps[..|ps| - 1], groups, files, t, writeFails);
    }
  }

  /** The names a line-rewriting transform reports: `tag` and the 1-based
      number of each line that `after` changed, in line order. */
  function ChangedIds(tag: string, before: seq<string>, after: seq<string>): seq<string>
    requires |before| == |after|
  {
    if before == [] then []
    else
      var n := |before| - 1;
      ChangedIds(tag, before[..n], after[..n]) + (if before[n] != after[n] then [tag + NatToString(n + 1)] else [])
  }

  /** Extending both line lists by one line adds that line's id, if any. */
  lemma ChangedIdsStep(tag: string, before: seq<string>, after: seq<string>, i: nat)
    requires |before| == |after| && i < |before|
    ensures ChangedIds(tag, before[..i + 1], after[..i + 1])
            == ChangedIds(tag, before[..i], after[..i]) + (if before[i] != after[i] then [tag + NatToString(i + 1)] else [])
  {
    assert before[..i + 1][..i] == before[..i];
    assert after[..i + 1][..i] == after[..i];
  }

  /** An id is reported exactly for each changed line. */
  lemma {:induction false} ChangedIdsMembers(tag: string, before: seq<string>, after: seq<string>, x: string)
    requires |before| == |after|
    ensures x in ChangedIds(tag, before, after)
            <==> exists k | 0 <= k < |before| :: before[k] != after[k] && x == tag + NatToString(k + 1)
  {
    if before != [] {
      var n := |before| - 1;
      ChangedIdsMembers(tag, before[..n], after[..n], x);
      if x in ChangedIds(tag, before[..n], after[..n]) {
        var k :| 0 <= k < n && before[..n][k] != after[..n][k] && x == tag + NatToString(k + 1);
        assert before[k] != after[k];
      }
    }
  }

  /** A transform that changes no line reports nothing. */
  lemma {:induction false} ChangedIdsNone(tag: string, lines: seq<string>)
    ensures ChangedIds(tag, lines, lines) == []
  {
    if lines != [] {
      ChangedIdsNone(tag, lines[..|lines| - 1]);
    }
  }

  /** The entries' line numbers, `{e["line"] for e in file_entries}`. */
  function LineSet(es: seq<Entry>): set<nat>
  {
    set e | e in es :: e.line
  }

  // ---------------------------------------------------------------------
  // Entries in line order
  // ---------------------------------------------------------------------

  /** The entries' line numbers, in entry order. */
  function LineNums(es: seq<Entry>): (r: seq<nat>)
    ensures |r| == |es| && forall i | 0 <= i < |es| :: r[i] == es[i].line
  {
    seq(|es|, i requires 0 <= i < |es| => es[i].line)
  }

  /** `a` may come before `b`: ascending, or descending when `desc`. */
  predicate Before(a: nat, b: nat, desc: bool)
  {
    if desc then a >= b else a <= b
  }

  predicate Ordered(s: seq<nat>, desc: bool)
  {
    forall i, j | 0 <= i < j < |s| :: Before(s[i], s[j], desc)
  }

  function InsertBy(x: nat, s: seq<nat>, desc: bool): seq<nat>
  {
    if s == [] then [x]
    else if Before(x, s[0], desc) then [x] + s
    else [s[0]] + InsertBy(x, s[1..], desc)
  }

  /** `sorted(..., key=...)` on the line numbers. The sort is stable, but
      entries with equal keys have equal line numbers, so the order of the
      numbers is the same for any sort. */
  function SortBy(s: seq<nat>, desc: bool): seq<nat>
  {
    if s == [] then [] else InsertBy(s[0], SortBy(s[1..], desc), desc)
  }

  lemma {:induction false} InsertByPerm(x: nat, s: seq<nat>, desc: bool)
    ensures multiset(InsertBy(x, s, desc)) == multiset(s) + multiset{x}
  {
    if s != [] && !Before(x, s[0], desc) {
      InsertByPerm(x, s[1..], desc);
      assert s == [s[0]] + s[1..];
    }
  }

  lemma {:induction false} InsertByOrdered(x: nat, s: seq<nat>, desc: bool)
    requires Ordered(s, desc)
    ensures Ordered(InsertBy(x, s, desc), desc)
  {
    if s != [] && !Before(x, s[0], desc) {
      InsertByOrdered(x, s[1..], desc);
      InsertByPerm(x, s[1..], desc);
      var t := InsertBy(x, s[1..], desc);
      forall j | 0 <= j < |t|
        ensures Before(s[0], t[j], desc)
      {
        assert t[j] in multiset(t);
        if t[j] != x {
          assert t[j] in multiset(s[1..]);
          var k :| 0 <= k < |s[1..]| && s[1..][k] == t[j];
          assert s[k + 1] == t[j];
        }
      }
    }
  }

  /** The sorted numbers are the entries' numbers, in order. */
  lemma {:induction false} SortBySpec(s: seq<nat>, desc: bool)
    ensures multiset(SortBy(s, desc)) == multiset(s)
    ensures Ordered(SortBy(s, desc), desc)
  {
    if s != [] {
      SortBySpec(s[1..], desc);
      InsertByPerm(s[0], SortBy(s[1..], desc), desc);
      InsertByOrdered(s[0], SortBy(s[1..], desc), desc);
      assert s == [s[0]] + s[1..];
    }
  }

  // ---------------------------------------------------------------------
  // Transforms that rewrite flagged lines one by one
  // ---------------------------------------------------------------------

  /** Line `k` (0-based) after a transform that offers `f(line)` for each
      flagged line and keeps every other line. */
  function RewrittenLine(line: string, k: nat, nums: set<nat>, f: string -> Option<string>): string
  {
    if k + 1 in nums && f(line).Some? then f(line).value else line
  }

  /** All lines after such a transform: none inserted or removed. */
  function Rewritten(lines: seq<string>, nums: set<nat>, f: string -> Option<string>): (r: seq<string>)
    ensures |r| == |lines|
  {
    seq(|lines|, k requires 0 <= k < |lines| => RewrittenLine(lines[k], k, nums, f))
  }

  /** One step of the `for i in range(len(lines))` loop of such a transform:
      line `i` receives its final text. */
  lemma RewriteStep(tag: string, lines: seq<string>, nums: set<nat>, f: string -> Option<string>,
                    out: seq<string>, i: nat, line: string)
    requires |out| == |lines| && i < |lines|
    requires forall k | 0 <= k < i :: out[k] == RewrittenLine(lines[k], k, nums, f)
    requires forall k | i <= k < |lines| :: out[k] == lines[k]
    requires line == RewrittenLine(lines[i], i, nums, f)
    ensures forall k | 0 <= k < i + 1 :: out[i := line][k] == RewrittenLine(lines[k], k, nums, f)
    ensures forall k | i + 1 <= k < |lines| :: out[i := line][k] == lines[k]
    ensures ChangedIds(tag, lines[..i + 1], out[i := line][..i + 1])
            == ChangedIds(tag, lines[..i], out[..i]) + (if line != lines[i] then [tag + NatToString(i + 1)] else [])
  {
    ChangedIdsStep(tag, lines, out[i := line], i);
    assert out[i := line][..i] == out[..i];
  }

  /** The loop's end: every line holds its final text. */
  lemma RewriteDone(lines: seq<string>, nums: set<nat>, f: string -> Option<string>, out: seq<string>)
    requires |out| == |lines|
    requires forall k | 0 <= k < |lines| :: out[k] == RewrittenLine(lines[k], k, nums, f)
    ensures out == Rewritten(lines, nums, f)
      && lines[..|lines|] == lines && out[..|lines|] == out
  {
  }

  /** When no rewrite can be rewritten again, a second pass changes
      nothing. */
  lemma RewrittenIdempotent(lines: seq<string>, nums: set<nat>, f: string -> Option<string>)
    requires forall k | 0 <= k < |lines| && f(lines[k]).Some? :: f(f(lines[k]).value).None?
    ensures Rewritten(Rewritten(lines, nums, f), nums, f) == Rewritten(lines, nums, f)
  {
    var out := Rewritten(lines, nums, f);
    assert forall k | 0 <= k < |out| :: RewrittenLine(out[k], k, nums, f) == out[k];
  }

  // ---------------------------------------------------------------------
  // The method
  // ---------------------------------------------------------------------

  lemma GroupSnoc(entries: seq<Entry>, i: nat, p: string)
    requires i < |entries|
    ensures Group(entries[..i + 1], p) == Group(entries[..i], p) + (if entries[i].file == p then [entries[i]] else [])
    ensures FileSet(entries[..i + 1]) == FileSet(entries[..i]) + {entries[i].file}
  {
    assert entries[..i + 1][..i] == entries[..i];
  }

  /** The `by_file` loop: a `defaultdict(list)` filled in entry order. */
  method GroupByFile(entries: seq<Entry>) returns (byFile: map<string, seq<Entry>>)
    ensures byFile == Groups(entries)
  {
    byFile := map[];
    for i := 0 to |entries|
      invariant byFile.Keys == FileSet(entries[..i])
      invariant forall p | p in byFile :: byFile[p] == Group(entries[..i], p)
    {
      var e := entries[i];
      GroupSnoc(entries, i, e.file);
      if e.file in byFile {
        byFile := byFile[e.file := byFile[e.file] + [e]];
      } else {
        GroupSpec(entries[..i], e.file);
        byFile := byFile[e.file := [e]];
      }
      forall p | p in byFile
        ensures byFile[p] == Group(entries[..i + 1], p)
      {
        GroupSnoc(entries, i, p);
      }
    }
    assert entries[..|entries|] == entries;
  }

  /** Taking the least remaining path keeps `visited` a prefix of the
      sorted order. */
  lemma SortedStep(visited: seq<string>, rest: set<string>, p: string)
    requires IsLeast(p, rest)
    ensures (visited + [p]) + SortedPaths(rest - {p}) == visited + SortedPaths(rest)
  {
    SortedPathsFirst(rest, p);
  }

  lemma VisitStep(visited: seq<string>, p: string, groups: map<string, seq<Entry>>, files: map<string, string>,
                  t: Transform, dryRun: bool, writeFails: set<string>)
    requires p in groups
    ensures var o := FixFile(p, groups[p], files, t);
      && Results(visited + [p], groups, files, t)
         == Results(visited, groups, files, t) + (if o.Some? then [o.value.0] else [])
      && Written(visited + [p], groups, files, t, dryRun, writeFails)
         == (var w := Written(visited, groups, files, t, dryRun, writeFails);
             if o.Some? && !dryRun && p !in writeFails then w[p := o.value.1] else w)
  {
    assert (visited + [p])[..|visited|] == visited;
  }

  /** The `try` block of the loop for one path: read, transform, and when
      the content changed record the result and, unless this is a dry run,
      write the file. */
  method FixOneFile(p: string, es: seq<Entry>, t: Transform, dryRun: bool, files: map<string, string>,
                    writeFails: set<string>, results: seq<FixResult>, written: map<string, string>)
    returns (results': seq<FixResult>, written': map<string, string>)
    ensures var o := FixFile(p, es, files, t);
      && results' == results + (if o.Some? then [o.value.0] else [])
      && written' == if o.Some? && !dryRun && p !in writeFails then written[p := o.value.1] else written
  {
    results', written' := results, written;
    if p in files {
      var original := files[p];
      var lines := SplitKeep(original);
      var out := t(lines, es);
      var newLines, removedNames := out.0, out.1;
      var newContent := Concat(newLines);
      if newContent != original {
        var linesRemoved := LineCount(original) - LineCount(newContent);
        results' := results' + [FixResult(p, removedNames, linesRemoved)];
        if !dryRun {
          if p !in writeFails {
            written' := written'[p := newContent];
          }
        }
      }
    }
  }

  /** `apply_fixer` itself: group the entries, then visit the files in path
      order. */
  method ApplyFixer(entries: seq<Entry>, t: Transform, dryRun: bool, files: map<string, string>, writeFails: set<string>)
    returns (results: seq<FixResult>, written: map<string, string>)
    ensures var groups := Groups(entries);
      var ps := SortedPaths(groups.Keys);
      results == Results(ps, groups, files, t) && written == Written(ps, groups, files, t, dryRun, writeFails)
  {
    var byFile := GroupByFile(entries);
    results, written := VisitFiles(byFile, t, dryRun, files, writeFails);
  }

  /** The `for filepath, file_entries in sorted(by_file.items())` loop; the
      sort becomes repeated selection of the least remaining path. */
  method VisitFiles(byFile: map<string, seq<Entry>>, t: Transform, dryRun: bool, files: map<string, string>,
                    writeFails: set<string>)
    returns (results: seq<FixResult>, written: map<string, string>)
    ensures var ps := SortedPaths(byFile.Keys);
      results == Results(ps, byFile, files, t) && written == Written(ps, byFile, files, t, dryRun, writeFails)
  {
    results := [];
    written := files;
    var rest := byFile.Keys;
    ghost var visited: seq<string> := [];
    while rest != {}
      invariant rest <= byFile.Keys
      invariant visited + SortedPaths(rest) == SortedPaths(byFile.Keys)
      invariant results == Results(visited, byFile, files, t)
      invariant written == Written(visited, byFile, files, t, dryRun, writeFails)
      decreases |rest|
    {
      LeastExists(rest);
      var p :| IsLeast(p, rest);
      SortedStep(visited, rest, p);
      VisitStep(visited, p, byFile, files, t, dryRun, writeFails);
      results, written := FixOneFile(p, byFile[p], t, dryRun, files, writeFails, results, written);
      visited := visited + [p];
      rest := rest - {p};
    }
    assert visited == SortedPaths(byFile.Keys);
  }
}
