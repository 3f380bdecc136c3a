/** Character classes and string helpers shared by the scanners.
    Strings are `seq<char>`; character classes are the ASCII parts of
    Python's `str.isspace`, `\w` and `\d` (non-ASCII letters, digits and
    spaces are not modelled). */
module Text {

  /** Python's whitespace (`str.strip`, regex `\s`), ASCII part. */
  predicate IsSpace(c: char)
  {
    c == ' ' || c == '\t' || c == '\n' || c == '\r'
    || c == '\U{000B}' || c == '\U{000C}' || ('\U{001C}' <= c <= '\U{001F}')
  }

  predicate IsDigit(c: char) { '0' <= c <= '9' }

  predicate IsUpper(c: char) { 'A' <= c <= 'Z' }

  predicate IsLower(c: char) { 'a' <= c <= 'z' }

  /** Regex `\w`, ASCII part. */
  predicate IsWordChar(c: char)
  {
    IsUpper(c) || IsLower(c) || IsDigit(c) || c == '_'
  }

  /** ASCII lower-casing, as `str.lower` does on `A`-`Z`. */
  function ToLower(c: char): (r: char)
    ensures IsUpper(c) ==> IsLower(r)
    ensures !IsUpper(c) ==> r == c
  {
    if IsUpper(c) then (c as int - 'A' as int + 'a' as int) as char else c
  }

  predicate AllSpace(s: string)
  {
    forall i | 0 <= i < |s| :: IsSpace(s[i])
  }

  /** `t` occurs in `s` at index `i`. */
  predicate At(s: string, i: int, t: string)
  {
    0 <= i && i + |t| <= |s| && s[i..i + |t|] == t
  }

  predicate StartsWith(s: string, p: string) { At(s, 0, p) }

  predicate EndsWith(s: string, p: string)
  {
    |p| <= |s| && s[|s| - |p|..] == p
  }

  /** `t in s` for strings. */
  predicate Contains(s: string, t: string)
  {
    exists i | 0 <= i <= |s| - |t| :: At(s, i, t)
  }


  /** A string occurs in any text that has it in the middle. */
  lemma ContainsMiddle(a: string, t: string, b: string)
    ensures Contains(a + t + b, t)
  {
    assert At(a + t + b, |a|, t);
  }

  /** An occurrence survives putting text in front. */
  lemma ContainsPrepend(a: string, s: string, t: string)
    requires Contains(s, t)
    ensures Contains(a + s, t)
  {
    var i :| 0 <= i <= |s| - |t| && At(s, i, t);
    assert (a + s)[|a| + i..|a| + i + |t|] == s[i..i + |t|];
    assert At(a + s, |a| + i, t);
  }

  /** `s[i] == c`, false past the end. */
  predicate CharAt(s: string, i: int, c: char)
  {
    0 <= i < |s| && s[i] == c
  }

  /** `\s+` at `i` followed by what starts at the returned index, or -1. */
  function Spaces1(s: string, i: int): int
  {
    if 0 <= i <= |s| && SkipSpace(s, i) > i then SkipSpace(s, i) else -1
  }

  /** `\s*` from `i` (an index in range) */
  function Spaces0(s: string, i: int): int
  {
    if 0 <= i <= |s| then SkipSpace(s, i) else -1
  }

  /** First index at or after `i` that is not whitespace (or `|s|`). */
  function SkipSpace(s: string, i: nat): (j: nat)
    requires i <= |s|
    ensures i <= j <= |s|
    decreases |s| - i
  {
    if i < |s| && IsSpace(s[i]) then SkipSpace(s, i + 1) else i
  }

  /** `SkipSpace` stops at the first non-space character. */
  lemma {:induction false} SkipSpaceSpec(s: string, i: nat)
    requires i <= |s|
    ensures forall k | i <= k < SkipSpace(s, i) :: IsSpace(s[k])
    ensures SkipSpace(s, i) < |s| ==> !IsSpace(s[SkipSpace(s, i)])
    decreases |s| - i
  {
    if i < |s| && IsSpace(s[i]) {
      SkipSpaceSpec(s, i + 1);
    }
  }

  /** First index at or after `i` that is not a word character (or `|s|`). */
  function WordEnd(s: string, i: nat): (j: nat)
    requires i <= |s|
    ensures i <= j <= |s|
    decreases |s| - i
  {
    if i < |s| && IsWordChar(s[i]) then WordEnd(s, i + 1) else i
  }

  /** `WordEnd` stops at the first non-word character. */
  lemma {:induction false} WordEndSpec(s: string, i: nat)
    requires i <= |s|
    ensures forall k | i <= k < WordEnd(s, i) :: IsWordChar(s[k])
    ensures WordEnd(s, i) < |s| ==> !IsWordChar(s[WordEnd(s, i)])
    decreases |s| - i
  {
    if i < |s| && IsWordChar(s[i]) {
      WordEndSpec(s, i + 1);
    }
  }

  /** `\w+` matches the whole of `s`. */
  predicate IsWord(s: string)
  {
    s != [] && forall i | 0 <= i < |s| :: IsWordChar(s[i])
  }

  /** First index at or after `i` holding `c`, if any. */
  function FindChar(s: string, c: char, i: nat): (r: int)
    requires i <= |s|
    ensures r == -1 || (i <= r < |s| && s[r] == c)
    decreases |s| - i
  {
    if i == |s| then -1 else if s[i] == c then i else FindChar(s, c, i + 1)
  }

  /** `FindChar` finds the first occurrence. */
  lemma {:induction false} FindCharFirst(s: string, c: char, i: nat)
    requires i <= |s|
    ensures forall k | i <= k < (if FindChar(s, c, i) == -1 then |s| else FindChar(s, c, i)) :: s[k] != c
    decreases |s| - i
  {
    if i < |s| && s[i] != c {
      FindCharFirst(s, c, i + 1);
    }
  }

  /** `FindChar` stops at the first occurrence. */
  lemma {:induction false} FindCharAt(s: string, c: char, i: nat, n: nat)
    requires i <= n < |s| && s[n] == c && forall k | i <= k < n :: s[k] != c
    ensures FindChar(s, c, i) == n
    decreases n - i
  {
    if i < n {
      FindCharAt(s, c, i + 1, n);
    }
  }

  /** Length of the leading whitespace. */
  function IndentLen(s: string): (n: nat)
    ensures n <= |s|
  {
    SkipSpace(s, 0)
  }

  /** `s` begins with whitespace `w` followed by a non-space. */
  lemma IndentOf(w: string, rest: string)
    requires AllSpace(w) && rest != [] && !IsSpace(rest[0])
    ensures IndentLen(w + rest) == |w| && Indent(w + rest) == w
  {
    SkipSpaceUpTo(w + rest, 0, |w|);
  }

  /** `SkipSpace` stops at the first non-space. */
  lemma {:induction false} SkipSpaceUpTo(s: string, i: nat, n: nat)
    requires i <= n < |s| && !IsSpace(s[n]) && forall k | i <= k < n :: IsSpace(s[k])
    ensures SkipSpace(s, i) == n
    decreases n - i
  {
    if i < n {
      SkipSpaceUpTo(s, i + 1, n);
    }
  }

  /** `WordEnd` stops at the first non-word character. */
  lemma {:induction false} WordEndAt(s: string, i: nat, n: nat)
    requires i <= n < |s| && !IsWordChar(s[n]) && forall k | i <= k < n :: IsWordChar(s[k])
    ensures WordEnd(s, i) == n
    decreases n - i
  {
    if i < n {
      WordEndAt(s, i + 1, n);
    }
  }

  /** `SkipSpace` passes a run of whitespace. */
  lemma {:induction false} SkipSpaceThrough(s: string, i: nat, n: nat)
    requires i <= n <= |s| && forall k | i <= k < n :: IsSpace(s[k])
    ensures SkipSpace(s, i) == SkipSpace(s, n)
    decreases n - i
  {
    if i < n {
      SkipSpaceThrough(s, i + 1, n);
    }
  }

  /** `SkipSpace` on a suffix: text in front only shifts the index. */
  lemma {:induction false} SkipSpaceShift(x: string, y: string, i: nat)
    requires i <= |y|
    ensures SkipSpace(x + y, |x| + i) == |x| + SkipSpace(y, i)
    decreases |y| - i
  {
    if i < |y| {
      assert (x + y)[|x| + i] == y[i];
      if IsSpace(y[i]) {
        SkipSpaceShift(x, y, i + 1);
      }
    }
  }

  /** `WordEnd` on a suffix: text in front only shifts the index. */
  lemma {:induction false} WordEndShift(x: string, y: string, i: nat)
    requires i <= |y|
    ensures WordEnd(x + y, |x| + i) == |x| + WordEnd(y, i)
    decreases |y| - i
  {
    if i < |y| {
      assert (x + y)[|x| + i] == y[i];
      if IsWordChar(y[i]) {
        WordEndShift(x, y, i + 1);
      }
    }
  }

  /** The text `SkipSpace` passes, or any part of it from `i`, is whitespace. */
  lemma SpaceRun(s: string, i: nat, n: nat)
    requires i <= |s| && i <= n <= SkipSpace(s, i)
    ensures AllSpace(s[i..n])
  {
    SkipSpaceSpec(s, i);
    assert forall k | 0 <= k < n - i :: s[i..n][k] == s[i + k];
  }

  /** The text `WordEnd` passes is a word when it is not empty. */
  lemma WordRun(s: string, i: nat)
    requires i <= |s| && i < WordEnd(s, i)
    ensures IsWord(s[i..WordEnd(s, i)])
  {
    WordEndSpec(s, i);
    assert forall k | 0 <= k < WordEnd(s, i) - i :: s[i..WordEnd(s, i)][k] == s[i + k];
  }

  /** Adjacent slices join up. */
  lemma SliceJoin(s: string, i: nat, j: nat, k: nat)
    requires i <= j <= k <= |s|
    ensures s[i..j] + s[j..k] == s[i..k]
  {
  }

  /** `s[:len(s) - len(s.lstrip())]` */
  function Indent(s: string): (r: string)
    ensures |r| <= |s|
  {
    s[..IndentLen(s)]
  }

  /** `s.lstrip()` */
  function LStrip(s: string): (r: string)
    ensures |r| <= |s|
  {
    s[IndentLen(s)..]
  }

  /** `s.rstrip()` */
  function RStrip(s: string): (r: string)
    ensures |r| <= |s|
  {
    if s != [] && IsSpace(s[|s| - 1]) then RStrip(s[..|s| - 1]) else s
  }

  /** `s.strip()` */
  function Strip(s: string): (r: string)
    ensures |r| <= |s|
  {
    RStrip(LStrip(s))
  }

  /** `s.strip() == ""` */
  predicate IsBlank(s: string)
  {
    Strip(s) == []
  }

  /** The indent is whitespace, and the rest starts with a non-space. */
  lemma LStripSpec(s: string)
    ensures s == Indent(s) + LStrip(s) && AllSpace(Indent(s))
    ensures LStrip(s) == [] || !IsSpace(LStrip(s)[0])
  {
    SkipSpaceSpec(s, 0);
  }

  /** `rstrip` removes exactly the trailing whitespace. */
  lemma {:induction false} RStripSpec(s: string)
    ensures StartsWith(s, RStrip(s)) && AllSpace(s[|RStrip(s)|..])
    ensures RStrip(s) == [] || !IsSpace(RStrip(s)[|RStrip(s)| - 1])
    decreases |s|
  {
    if s != [] && IsSpace(s[|s| - 1]) {
      var t := s[..|s| - 1];
      RStripSpec(t);
      var r := RStrip(t);
      assert s[..|r|] == t[..|r|];
      assert forall k | |r| <= k < |s| - 1 :: s[k] == t[k];
    }
  }

  /** `rstrip` removes a whitespace tail and nothing before it. */
  lemma {:induction false} RStripTail(u: string, z: string)
    requires u != [] && !IsSpace(u[|u| - 1]) && AllSpace(z)
    ensures RStrip(u + z) == u
    decreases |z|
  {
    if z == [] {
      assert u + z == u;
    } else {
      var y := z[..|z| - 1];
      assert (u + z)[..|u + z| - 1] == u + y;
      RStripTail(u, y);
    }
  }

  /** Leading whitespace makes no difference to `strip`. */
  lemma StripSpacesFront(pre: string, x: string)
    requires AllSpace(pre)
    ensures Strip(pre + x) == Strip(x)
  {
    var u := pre + x;
    assert forall k | 0 <= k < |pre| :: u[k] == pre[k];
    SkipSpaceThrough(u, 0, |pre|);
    SkipSpaceShift(pre, x, 0);
    assert LStrip(u) == x[IndentLen(x)..];
  }

  lemma BlankIffAllSpace(s: string)
    ensures IsBlank(s) <==> AllSpace(s)
  {
    LStripSpec(s);
    RStripSpec(LStrip(s));
    var l := LStrip(s);
    if !AllSpace(s) {
      assert l != [];
    }
  }

  /** Decimal rendering of a natural number, as `str(n)` / f-strings do. */
  function NatToString(n: nat): (r: string)
    ensures r != [] && forall i | 0 <= i < |r| :: IsDigit(r[i])
  {
    if n < 10 then [(n + '0' as int) as char]
    else NatToString(n / 10) + [(n % 10 + '0' as int) as char]
  }

  /** Number of occurrences of `c` in `s` (`s.count(c)`). */
  function CountChar(s: string, c: char): nat
  {
    if s == [] then 0 else (if s[0] == c then 1 else 0) + CountChar(s[1..], c)
  }

  lemma CountCharAppend(s: string, t: string, c: char)
    ensures CountChar(s + t, c) == CountChar(s, c) + CountChar(t, c)
  {
    if s != [] {
      assert (s + t)[1..] == s[1..] + t;
      CountCharAppend(s[1..], t, c);
    } else {
      assert s + t == t;
    }
  }

  /** The concatenation of a list of strings, `"".join(xs)`. */
  function Concat(xs: seq<string>): string
  {
    if xs == [] then [] else xs[0] + Concat(xs[1..])
  }

  /** +1 for `open`, -1 for `close`, 0 otherwise. */
  function Delta(ch: char, open: char, close: char): int
  {
    if ch == open then 1 else if ch == close then -1 else 0
  }

  /** Net bracket depth change over `s`, as a character loop that adds one
      per `open` and subtracts one per `close` computes it. */
  function Net(s: string, open: char, close: char): int
  {
    if s == [] then 0 else Net(s[..|s| - 1], open, close) + Delta(s[|s| - 1], open, close)
  }

  lemma NetSnoc(s: string, n: nat, open: char, close: char)
    requires n < |s|
    ensures Net(s[..n + 1], open, close) == Net(s[..n], open, close) + Delta(s[n], open, close)
  {
    assert s[..n + 1][..n] == s[..n];
  }

  /** `s[:n]`, Python slicing with a bound that may exceed the length. */
  function Take(s: string, n: nat): (r: string)
    ensures |r| <= n
    ensures |s| <= n ==> r == s
  {
    if |s| <= n then s else s[..n]
  }

  /** `s.split(sep)` */
  function Split(s: string, sep: char): (r: seq<string>)
    ensures |r| >= 1
    decreases |s|
  {
    var k := FindChar(s, sep, 0);
    if k < 0 then [s] else [s[..k]] + Split(s[k + 1..], sep)
  }

  /** `s.splitlines()`, splitting at `\n`: a final `\n` ends the last line
      and opens no empty one. */
  function SplitLines(s: string): (r: seq<string>)
    ensures forall i | 0 <= i < |r| :: '\n' !in r[i]
    decreases |s|
  {
    if s == [] then []
    else
      var k := FindChar(s, '\n', 0);
      FindCharFirst(s, '\n', 0);
      if k < 0 then [s] else [s[..k]] + SplitLines(s[k + 1..])
  }

  /** `sep.join(parts)` */
  function Join(parts: seq<string>, sep: char): string
  {
    if parts == [] then []
    else if |parts| == 1 then parts[0]
    else parts[0] + [sep] + Join(parts[1..], sep)
  }

  lemma JoinCons(x: string, xs: seq<string>, sep: char)
    requires xs != []
    ensures Join([x] + xs, sep) == x + [sep] + Join(xs, sep)
  {
    assert ([x] + xs)[1..] == xs;
  }

  /** Joining the lines with `\n` gives back a text that does not end
      with a newline. */
  lemma {:induction false} SplitLinesJoin(s: string)
    requires s == [] || s[|s| - 1] != '\n'
    ensures Join(SplitLines(s), '\n') == s
    decreases |s|
  {
    if s != [] {
      var k := FindChar(s, '\n', 0);
      if k >= 0 {
        var rest := s[k + 1..];
        assert rest != [] && rest[|rest| - 1] == s[|s| - 1];
        SplitLinesJoin(rest);
        JoinCons(s[..k], SplitLines(rest), '\n');
        assert s == s[..k] + ['\n'] + rest;
      }
    }
  }

  /** Splitting loses nothing: joining the pieces gives the text back. */
  lemma {:induction false} SplitJoin(s: string, sep: char)
    ensures Join(Split(s, sep), sep) == s
    decreases |s|
  {
    var k := FindChar(s, sep, 0);
    if k >= 0 {
      var rest := s[k + 1..];
      SplitJoin(rest, sep);
      JoinCons(s[..k], Split(rest, sep), sep);
      assert s == s[..k] + [sep] + rest;
    }
  }

  /** No piece holds the separator, and there is one piece more than there
      are separators. */
  lemma {:induction false} SplitPieces(s: string, sep: char)
    ensures forall j | 0 <= j < |Split(s, sep)| :: sep !in Split(s, sep)[j]
    ensures |Split(s, sep)| == CountChar(s, sep) + 1
    decreases |s|
  {
    var k := FindChar(s, sep, 0);
    FindCharFirst(s, sep, 0);
    if k < 0 {
      CountCharNone(s, sep);
    } else {
      var rest := s[k + 1..];
      SplitPieces(rest, sep);
      assert s == s[..k] + ([sep] + rest);
      CountCharAppend(s[..k], [sep] + rest, sep);
      CountCharAppend([sep], rest, sep);
      CountCharNone(s[..k], sep);
    }
  }

  lemma {:induction false} CountCharNone(s: string, c: char)
    requires c !in s
    ensures CountChar(s, c) == 0
    decreases |s|
  {
    if s != [] {
      assert s[0] != c;
      CountCharNone(s[1..], c);
    }
  }

  /** `len([p.strip() for p in parts if p.strip()])` */
  function NonBlankCount(parts: seq<string>): (n: nat)
    ensures n <= |parts|
  {
    if parts == [] then 0
    else NonBlankCount(parts[..|parts| - 1]) + (if Strip(parts[|parts| - 1]) != [] then 1 else 0)
  }
}
