/** The `mutex_pointer` fixer (desloppify/lang/go/fixers/mutex_pointer.py):
    a `sync.Mutex` taken by value on a flagged line becomes a pointer. */
module MutexPointer {
  import opened Wrappers
  import opened Text
  import Smells
  import SmellPatterns
  import opened FixerApply

  // ---------------------------------------------------------------------
  // detect_mutex_copy
  // ---------------------------------------------------------------------

  /** `f"mutex_copy::{m['line']}"` */
  function EntryName(id: Smells.SmellId, line: nat): string
  {
    "mutex_copy::" + NatToString(line)
  }

  /** `detect_mutex_copy`: the samples of `mutex_copy`. */
  function DetectMutexCopy(entries: seq<Smells.Entry>): (r: seq<Entry>)
    ensures forall x | x in r :: exists e, m | e in entries && m in e.matches ::
      e.id == Smells.MutexCopy && x == Smells.FixEntry(m.file, m.line, "mutex_copy::" + NatToString(m.line), m.content)
  {
    Smells.Flatten(entries, {Smells.MutexCopy}, EntryName)
  }

  /** No sample of the smell is lost. */
  lemma DetectMutexCopyComplete(entries: seq<Smells.Entry>, e: Smells.Entry, m: Smells.Match)
    requires e in entries && e.id == Smells.MutexCopy && m in e.matches
    ensures Smells.FixEntry(m.file, m.line, "mutex_copy::" + NatToString(m.line), m.content) in DetectMutexCopy(entries)
  {
    Smells.FlattenComplete(entries, {Smells.MutexCopy}, EntryName, e, m);
  }

  // ---------------------------------------------------------------------
  // _MUTEX_VALUE_RE.sub(r'\1 *sync.Mutex', line)
  // ---------------------------------------------------------------------

  /** `(\w+)\s+sync\.Mutex\b` at `p`: the end of the match, or -1. A
      shorter `\w+` would leave a word character where `\s+` needs a
      space, so the identifier is the whole word run from `p`. */
  function MutexAt(s: string, p: nat): int
    requires p <= |s|
  {
    var w := WordEnd(s, p);
    var a := Spaces1(s, w);
    if w > p && a >= 0 && At(s, a, "sync.Mutex") && SmellPatterns.NoWordAfter(s, a + 10) then a + 10 else -1
  }

  /** The substitution from `p` on: each match, tried left to right and
      resuming after the previous one, is replaced by its identifier and
      ` *sync.Mutex`. */
  function Sub(s: string, p: nat): string
    requires p <= |s|
    decreases |s| - p
  {
    if p == |s| then []
    else if MutexAt(s, p) >= 0 then s[p..WordEnd(s, p)] + " " + "*sync.Mutex" + Sub(s, MutexAt(s, p))
    else [s[p]] + Sub(s, p + 1)
  }

  /** The new text of a flagged line: a line that already mentions
      `*sync.Mutex` is skipped, and a line the substitution leaves as it is
      is not rewritten. */
  function FixMutex(line: string): Option<string>
  {
    if Contains(line, "*sync.Mutex") then None
    else
      var n := Sub(line, 0);
      if n != line then Some(n) else None
  }

  /** Some match starts at or after `p`. */
  predicate MatchFrom(s: string, p: nat)
    requires p <= |s|
  {
    exists j | p <= j < |s| :: MutexAt(s, j) >= 0
  }

  /** Without a match, the substitution copies the text. */
  lemma {:induction false} SubNoMatch(s: string, p: nat)
    requires p <= |s| && !MatchFrom(s, p)
    ensures Sub(s, p) == s[p..]
    decreases |s| - p
  {
    if p < |s| {
      assert MutexAt(s, p) < 0;
      SubNoMatch(s, p + 1);
    }
  }

  /** With a match, the output mentions `*sync.Mutex`. */
  lemma {:induction false} SubMatch(s: string, p: nat)
    requires p <= |s| && MatchFrom(s, p)
    ensures Contains(Sub(s, p), "*sync.Mutex")
    decreases |s| - p
  {
    var j :| p <= j < |s| && MutexAt(s, j) >= 0;
    if MutexAt(s, p) >= 0 {
      var pre := s[p..WordEnd(s, p)] + " ";
      assert Sub(s, p) == pre + "*sync.Mutex" + Sub(s, MutexAt(s, p));
      ContainsMiddle(pre, "*sync.Mutex", Sub(s, MutexAt(s, p)));
    } else {
      assert MatchFrom(s, p + 1);
      SubMatch(s, p + 1);
      ContainsPrepend([s[p]], Sub(s, p + 1), "*sync.Mutex");
    }
  }

  /** A flagged line is rewritten exactly when it does not yet mention
      `*sync.Mutex` and holds a by-value mutex; the rewrite mentions
      `*sync.Mutex`. */
  lemma FixMutexIff(line: string)
    ensures FixMutex(line).Some? <==> !Contains(line, "*sync.Mutex") && MatchFrom(line, 0)
    ensures FixMutex(line).Some? ==> Contains(FixMutex(line).value, "*sync.Mutex")
  {
    if !Contains(line, "*sync.Mutex") {
      if MatchFrom(line, 0) {
        SubMatch(line, 0);
      } else {
        SubNoMatch(line, 0);
      }
    }
  }

  /** A rewritten line is skipped by a second pass. */
  lemma FixMutexFinal(line: string)
    requires FixMutex(line).Some?
    ensures FixMutex(FixMutex(line).value).None?
  {
    FixMutexIff(line);
  }

  // ---------------------------------------------------------------------
  // The transform
  // ---------------------------------------------------------------------

  /** `_transform` as a function: each flagged line rewritten if the
      substitution changes it, one `mutex-pointer::<line>` id per changed
      line. */
  function Transform(lines: seq<string>, es: seq<Entry>): (seq<string>, seq<string>)
  {
    var out := Rewritten(lines, LineSet(es), FixMutex);
    (out, ChangedIds("mutex-pointer::", lines, out))
  }

  /** `_transform`: rewrite the flagged lines in place. */
  method PointerMutexes(lines: seq<string>, es: seq<Entry>) returns (out: seq<string>, removed: seq<string>)
    ensures (out, removed) == Transform(lines, es)
  {
    var entryLines := set e | e in es :: e.line;
    assert entryLines == LineSet(es);
    out := lines;
    removed := [];
    for i := 0 to |lines|
      invariant |out| == |lines|
      invariant forall k | 0 <= k < i :: out[k] == RewrittenLine(lines[k], k, entryLines, FixMutex)
      invariant forall k | i <= k < |lines| :: out[k] == lines[k]
      invariant removed == ChangedIds("mutex-pointer::", lines[..i], out[..i])
    {
      var line := out[i];
      if i + 1 in entryLines && !Contains(line, "*sync.Mutex") {
        var newLine := Sub(line, 0);
        if newLine != line {
          line := newLine;
          removed := removed + ["mutex-pointer::" + NatToString(i + 1)];
        }
      }
      RewriteStep("mutex-pointer::", lines, entryLines, FixMutex, out, i, line);
      out := out[i := line];
    }
    RewriteDone(lines, entryLines, FixMutex, out);
  }

  /** A second run changes nothing and reports nothing. */
  lemma TransformIdempotent(lines: seq<string>, es: seq<Entry>)
    ensures Transform(Transform(lines, es).0, es) == (Transform(lines, es).0, [])
  {
    var nums := LineSet(es);
    forall k | 0 <= k < |lines| && FixMutex(lines[k]).Some?
      ensures FixMutex(FixMutex(lines[k]).value).None?
    {
      FixMutexFinal(lines[k]);
    }
    RewrittenIdempotent(lines, nums, FixMutex);
    ChangedIdsNone("mutex-pointer::", Rewritten(lines, nums, FixMutex));
  }

  /** `fix_mutex_pointer`: the shared file loop with this transform. */
  method FixMutexPointer(entries: seq<Entry>, dryRun: bool, files: map<string, string>, writeFails: set<string>)
    returns (results: seq<FixResult>, written: map<string, string>)
    ensures var groups := Groups(entries);
      var ps := SortedPaths(groups.Keys);
      results == Results(ps, groups, files, Transform) && written == Written(ps, groups, files, Transform, dryRun, writeFails)
  {
    results, written := ApplyFixer(entries, Transform, dryRun, files, writeFails);
  }
}
