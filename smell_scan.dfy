/** The two hand-rolled literal scanners of the Go smell detector
    (desloppify/lang/go/detectors/smells.py):
    - `_build_string_line_set`: which lines lie inside a multi-line raw
      (backtick) string;
    - `_match_is_in_string`: whether a match position lies inside a `"` or
      backtick literal, or inside a `//` comment.
    Each is a method with the source's loops, proved equal to a recursive
    specification function that follows the same steps; the lemmas state what
    the scanners promise about literals and comments. */
module SmellScan {
  import opened Text

  /** `line[i:i+2] == "//"` (both loops test `ch == '/' and line[i+1] == '/'`). */
  predicate CommentAt(line: string, i: nat)
  {
    i + 1 < |line| && line[i] == '/' && line[i + 1] == '/'
  }

  /** A stretch of text that none of the scanners reacts to. */
  predicate Plain(s: string)
  {
    forall i | 0 <= i < |s| :: s[i] != '"' && s[i] != '`' && s[i] != '/'
  }

  /** Text inside a `"` literal that neither closes nor escapes anything. */
  predicate QuoteBody(s: string)
  {
    forall i | 0 <= i < |s| :: s[i] != '"' && s[i] != '\\'
  }

  /** The body of a `"` literal that may hold escapes: characters other
      than `"` and `\`, and `\` pairs that protect the next character. */
  predicate Escaped(s: string)
    decreases |s|
  {
    s == []
    || (s[0] == '\\' && |s| >= 2 && Escaped(s[2..]))
    || (s[0] != '\\' && s[0] != '"' && Escaped(s[1..]))
  }

  // ---------------------------------------------------------------------
  // _match_is_in_string
  // ---------------------------------------------------------------------

  /** The scanner's `in_string`: None, '"' or '`'. */
  datatype Lit = Code | Quoted | Raw

  /** The loop of `_match_is_in_string` continued from index `i` in state `st`. */
  function InStringFrom(line: string, m: nat, i: nat, st: Lit): bool
    requires i <= |line|
    decreases |line| - i
  {
    if i == |line| || i == m then st != Code
    else match st
      case Code =>
        if CommentAt(line, i) then m > i
        else if line[i] == '"' then InStringFrom(line, m, i + 1, Quoted)
        else if line[i] == '`' then InStringFrom(line, m, i + 1, Raw)
        else InStringFrom(line, m, i + 1, Code)
      case Quoted =>
        if line[i] == '\\' && i + 1 < |line| then InStringFrom(line, m, i + 2, Quoted)
        else if line[i] == '"' then InStringFrom(line, m, i + 1, Code)
        else InStringFrom(line, m, i + 1, Quoted)
      case Raw =>
        if line[i] == '`' then InStringFrom(line, m, i + 1, Code)
        else InStringFrom(line, m, i + 1, Raw)
  }

  /** `_match_is_in_string(line, m)` */
  function InString(line: string, m: nat): bool
  {
    InStringFrom(line, m, 0, Code)
  }

  method MatchIsInString(line: string, matchStart: nat) returns (r: bool)
    ensures r == InString(line, matchStart)
  {
    var i := 0;
    var st := Code;
    while i < |line|
      invariant i <= |line|
      invariant InStringFrom(line, matchStart, i, st) == InString(line, matchStart)
    {
      if i == matchStart {
        return st != Code;
      }
      var ch := line[i];
      if st == Code {
        if ch == '/' && i + 1 < |line| && line[i + 1] == '/' {
          return matchStart > i;
        }
        if ch == '"' {
          st := Quoted;
          i := i + 1;
          continue;
        }
        if ch == '`' {
          st := Raw;
          i := i + 1;
          continue;
        }
      } else if st == Quoted {
        if ch == '\\' && i + 1 < |line| {
          i := i + 2;
          continue;
        }
        if ch == '"' {
          st := Code;
          i := i + 1;
          continue;
        }
      } else {
        if ch == '`' {
          st := Code;
          i := i + 1;
          continue;
        }
      }
      i := i + 1;
    }
    return st != Code;
  }

  // ---------------------------------------------------------------------
  // What the scanner promises about literals and comments
  // ---------------------------------------------------------------------

  /** A stretch of a line that the scanner enters and leaves in code state:
      text that opens nothing, a closed `"` literal, or a closed backtick
      literal. */
  datatype Piece = Bare(text: string) | DoubleQuoted(body: string) | BackQuoted(body: string)

  /** The text of a piece. */
  function Show(x: Piece): string
  {
    match x
    case Bare(t) => t
    case DoubleQuoted(s) => "\"" + s + "\""
    case BackQuoted(s) => "`" + s + "`"
  }

  /** Plain text is plain, and a literal's body does not end it early. */
  predicate PieceOk(x: Piece)
  {
    match x
    case Bare(t) => Plain(t)
    case DoubleQuoted(s) => Escaped(s)
    case BackQuoted(s) => forall i | 0 <= i < |s| :: s[i] != '`'
  }

  /** A `"` piece without backslashes, so the scan visits every position of
      it (after a `\` it jumps over the next character). */
  predicate NoEscapes(x: Piece)
  {
    x.DoubleQuoted? ==> QuoteBody(x.body)
  }

  lemma {:induction false} QuoteBodyEscaped(s: string)
    requires QuoteBody(s)
    ensures Escaped(s)
    decreases |s|
  {
    if s != [] {
      assert forall i | 0 <= i < |s| - 1 :: s[1..][i] == s[i + 1];
      QuoteBodyEscaped(s[1..]);
    }
  }

  /** The text of a run of pieces. */
  function Render(ps: seq<Piece>): string
  {
    if ps == [] then [] else Show(ps[0]) + Render(ps[1..])
  }

  /** A line prefix made of plain text and closed literals, in any order. */
  predicate Closed(ps: seq<Piece>)
  {
    forall i | 0 <= i < |ps| :: PieceOk(ps[i])
  }

  /** Code state over plain text: no position in it is "in string", and the
      scan comes out of it in code state. */
  lemma {:induction false} PlainRun(line: string, m: nat, i: nat, j: nat)
    requires i <= j <= |line| && Plain(line[i..j])
    ensures i <= m < j ==> !InStringFrom(line, m, i, Code)
    ensures m >= j ==> InStringFrom(line, m, i, Code) == InStringFrom(line, m, j, Code)
    decreases j - i
  {
    if i < j && i != m {
      assert line[i] == line[i..j][0];
      assert line[i + 1..j] == line[i..j][1..];
      PlainRun(line, m, i + 1, j);
    }
  }

  /** Inside a `"` literal whose body runs over `[i, j)` and whose closing
      quote is at `j`: every position up to the closing quote is in string,
      and the scan goes on after it in code state. */
  lemma {:induction false} QuotedRun(line: string, m: nat, i: nat, j: nat)
    requires i <= j < |line| && line[j] == '"' && QuoteBody(line[i..j])
    ensures i <= m <= j ==> InStringFrom(line, m, i, Quoted)
    ensures m > j ==> InStringFrom(line, m, i, Quoted) == InStringFrom(line, m, j + 1, Code)
    decreases j - i
  {
    if i < j && i != m {
      assert line[i] == line[i..j][0];
      assert line[i + 1..j] == line[i..j][1..];
      QuotedRun(line, m, i + 1, j);
    }
  }

  /** A `"` literal body with escapes over `[i, j)`, closing quote at `j`:
      the scan comes out after the closing quote in code state. */
  lemma {:induction false} EscRun(line: string, m: nat, i: nat, j: nat)
    requires i <= j < m && j < |line| && line[j] == '"' && Escaped(line[i..j])
    ensures InStringFrom(line, m, i, Quoted) == InStringFrom(line, m, j + 1, Code)
    decreases j - i
  {
    if i < j {
      var b := line[i..j];
      assert line[i] == b[0];
      if line[i] == '\\' {
        assert b[2..] == line[i + 2..j];
        EscRun(line, m, i + 2, j);
      } else {
        assert b[1..] == line[i + 1..j];
        EscRun(line, m, i + 1, j);
      }
    }
  }

  /** The same for a backtick literal, which has no escapes. */
  lemma {:induction false} RawRun(line: string, m: nat, i: nat, j: nat)
    requires i <= j < |line| && line[j] == '`' && forall k | i <= k < j :: line[k] != '`'
    ensures i <= m <= j ==> InStringFrom(line, m, i, Raw)
    ensures m > j ==> InStringFrom(line, m, i, Raw) == InStringFrom(line, m, j + 1, Code)
    decreases j - i
  {
    if i < j && i != m {
      RawRun(line, m, i + 1, j);
    }
  }

  /** The delimiters and the body of `c s c` found at `i`. */
  lemma Delimited(line: string, i: nat, c: char, s: string)
    requires i + |s| + 2 <= |line| && line[i..i + |s| + 2] == [c] + s + [c]
    ensures line[i] == c && line[i + |s| + 1] == c && line[i + 1..i + |s| + 1] == s
  {
    var d := [c] + s + [c];
    assert forall k | i <= k < i + |s| + 2 :: line[k] == d[k - i];
    assert forall k | i + 1 <= k < i + |s| + 1 :: line[k] == s[k - i - 1];
    assert line[i + 1..i + |s| + 1] == s;
  }

  /** A `"` literal from `i` to its closing quote at `j`, entered in code
      state. */
  lemma QuotedStep(line: string, m: nat, i: nat, j: nat)
    requires i < j < |line| && line[i] == '"' && line[j] == '"' && QuoteBody(line[i + 1..j])
    ensures i <= m <= j ==> (InStringFrom(line, m, i, Code) <==> m > i)
    ensures m > j ==> InStringFrom(line, m, i, Code) == InStringFrom(line, m, j + 1, Code)
  {
    if m != i {
      QuotedRun(line, m, i + 1, j);
    }
  }

  /** A backtick literal from `i` to its closing backtick at `j`, entered in
      code state. */
  lemma RawStep(line: string, m: nat, i: nat, j: nat)
    requires i < j < |line| && line[i] == '`' && line[j] == '`' && forall k | i < k < j :: line[k] != '`'
    ensures i <= m <= j ==> (InStringFrom(line, m, i, Code) <==> m > i)
    ensures m > j ==> InStringFrom(line, m, i, Code) == InStringFrom(line, m, j + 1, Code)
  {
    if m != i {
      RawRun(line, m, i + 1, j);
    }
  }

  /** A piece without escapes at `i`, entered in code state: a position
      in it is in string exactly when the piece is a literal and the position
      lies after its opening quote. */
  lemma PieceInside(line: string, m: nat, i: nat, x: Piece)
    requires PieceOk(x) && NoEscapes(x) && i + |Show(x)| <= |line| && line[i..i + |Show(x)|] == Show(x)
    requires i <= m < i + |Show(x)|
    ensures InStringFrom(line, m, i, Code) <==> !x.Bare? && m > i
  {
    match x
    case Bare(t) =>
      PlainRun(line, m, i, i + |t|);
    case DoubleQuoted(s) =>
      Delimited(line, i, '"', s);
      QuotedStep(line, m, i, i + |s| + 1);
    case BackQuoted(s) =>
      Delimited(line, i, '`', s);
      assert forall k | i + 1 <= k < i + |s| + 1 :: line[k] == s[k - i - 1];
      RawStep(line, m, i, i + |s| + 1);
  }

  /** Any piece at `i`, escapes included, entered in code state, is left in
      code state. */
  lemma PieceSkip(line: string, m: nat, i: nat, j: nat, x: Piece)
    requires PieceOk(x) && j == i + |Show(x)| <= |line| && line[i..j] == Show(x) && m >= j
    ensures InStringFrom(line, m, i, Code) == InStringFrom(line, m, j, Code)
  {
    match x
    case Bare(t) =>
      PlainRun(line, m, i, j);
    case DoubleQuoted(s) =>
      Delimited(line, i, '"', s);
      EscRun(line, m, i + 1, j - 1);
    case BackQuoted(s) =>
      Delimited(line, i, '`', s);
      assert forall k | i + 1 <= k < i + |s| + 1 :: line[k] == s[k - i - 1];
      RawStep(line, m, i, j - 1);
  }

  /** A run of pieces at `i`, entered in code state, is left in code state. */
  lemma {:induction false} PiecesFrom(line: string, m: nat, i: nat, j: nat, ps: seq<Piece>)
    requires Closed(ps) && j == i + |Render(ps)| <= |line| && line[i..j] == Render(ps) && m >= j
    ensures InStringFrom(line, m, i, Code) == InStringFrom(line, m, j, Code)
    decreases |ps|
  {
    if ps != [] {
      var k := PiecesHead(line, i, j, ps);
      PieceSkip(line, m, i, k, ps[0]);
      PiecesFrom(line, m, k, j, ps[1..]);
    } else {
      assert i == j;
    }
  }

  /** The first piece of a run found at `i`, and where the rest begins. */
  lemma PiecesHead(line: string, i: nat, j: nat, ps: seq<Piece>) returns (k: nat)
    requires ps != [] && Closed(ps) && j == i + |Render(ps)| <= |line| && line[i..j] == Render(ps)
    ensures k == i + |Show(ps[0])| <= j && PieceOk(ps[0]) && line[i..k] == Show(ps[0])
    ensures Closed(ps[1..]) && j == k + |Render(ps[1..])| && line[k..j] == Render(ps[1..])
  {
    var a := Show(ps[0]);
    var b := Render(ps[1..]);
    assert Render(ps) == a + b;
    assert j == i + |a| + |b| && line[i..i + |a| + |b|] == a + b;
    SliceCat(line, i, a, b);
    ClosedTail(ps);
    k := i + |a|;
  }

  /** The two halves of a concatenation found at `i`. */
  lemma SliceCat(line: string, i: nat, a: string, b: string)
    requires i + |a| + |b| <= |line| && line[i..i + |a| + |b|] == a + b
    ensures line[i..i + |a|] == a && line[i + |a|..i + |a| + |b|] == b
  {
    assert line[i..i + |a|] == line[i..i + |a| + |b|][..|a|];
    assert line[i + |a|..i + |a| + |b|] == line[i..i + |a| + |b|][|a|..];
  }

  /** Where the first two parts of `p + t + r` lie. */
  lemma PrefixParts(p: string, t: string, r: string)
    ensures (p + t + r)[0..|p|] == p && (p + t + r)[|p|..|p| + |t|] == t
  {
    var line := p + t + r;
    assert forall k | |p| <= k < |p| + |t| :: line[k] == t[k - |p|];
  }

  lemma ClosedTail(ps: seq<Piece>)
    requires ps != [] && Closed(ps)
    ensures PieceOk(ps[0]) && Closed(ps[1..])
  {
    assert forall k | 0 <= k < |ps| - 1 :: ps[1..][k] == ps[k + 1];
  }

  /** After any number of plain stretches and closed literals the scan is in
      code state, whatever the literals hold (a `//` inside one included). */
  lemma CodeAfterPieces(ps: seq<Piece>, r: string, m: nat)
    requires Closed(ps) && m >= |Render(ps)|
    ensures InString(Render(ps) + r, m) == InStringFrom(Render(ps) + r, m, |Render(ps)|, Code)
  {
    var p := Render(ps);
    assert (p + r)[0..|p|] == p;
    PiecesFrom(p + r, m, 0, |p|, ps);
  }

  /** The piece `x` after the closed prefix `ps`: a position in it is in
      string exactly when `x` is a literal and the position lies after its
      opening quote. */
  lemma InPiece(ps: seq<Piece>, x: Piece, r: string, m: nat)
    requires Closed(ps) && PieceOk(x) && NoEscapes(x)
    requires |Render(ps)| <= m < |Render(ps)| + |Show(x)|
    ensures InString(Render(ps) + Show(x) + r, m) <==> !x.Bare? && m > |Render(ps)|
  {
    var p := Render(ps);
    var line := p + Show(x) + r;
    PrefixParts(p, Show(x), r);
    PiecesFrom(line, m, 0, |p|, ps);
    PieceInside(line, m, |p|, x);
  }

  /** Text that opens nothing, after closed literals: no position in it is in
      string, and the scan leaves it in code state. */
  lemma PlainPrefix(ps: seq<Piece>, t: string, r: string, m: nat)
    requires Closed(ps) && Plain(t) && m >= |Render(ps)|
    ensures m < |Render(ps)| + |t| ==> !InString(Render(ps) + t + r, m)
    ensures m >= |Render(ps)| + |t| ==>
      InString(Render(ps) + t + r, m) == InStringFrom(Render(ps) + t + r, m, |Render(ps)| + |t|, Code)
  {
    var p := Render(ps);
    var line := p + t + r;
    PrefixParts(p, t, r);
    PiecesFrom(line, m, 0, |p|, ps);
    PlainRun(line, m, |p|, |p| + |t|);
  }

  /** A match starting on a `//` outside any literal is not in a comment;
      every later position of the line is. */
  lemma CommentStartsAfterSlashes(ps: seq<Piece>, r: string, m: nat)
    requires Closed(ps)
    ensures !InString(Render(ps) + "//" + r, |Render(ps)|)
    ensures m > |Render(ps)| ==> InString(Render(ps) + "//" + r, m)
  {
    var p := Render(ps);
    var line := p + ("//" + r);
    assert p + "//" + r == line;
    CodeAfterPieces(ps, "//" + r, |p|);
    if m > |p| {
      CodeAfterPieces(ps, "//" + r, m);
    }
    assert CommentAt(line, |p|);
  }

  /** A `//` inside a literal opens no comment: once the literal closes,
      plain text after it is not in string. */
  lemma SlashesInLiteral(ps: seq<Piece>, x: Piece, t: string, r: string, m: nat)
    requires Closed(ps) && PieceOk(x) && !x.Bare? && StartsWith(x.body, "//") && Plain(t)
    requires |Render(ps)| + |Show(x)| <= m < |Render(ps)| + |Show(x)| + |t|
    ensures !InString(Render(ps) + Show(x) + t + r, m)
  {
    var p := Render(ps);
    RenderSnoc(ps, x);
    assert Closed(ps + [x]) by {
      assert forall k | 0 <= k < |ps| :: (ps + [x])[k] == ps[k];
    }
    PlainPrefix(ps + [x], t, r, m);
  }

  lemma {:induction false} RenderSnoc(ps: seq<Piece>, x: Piece)
    ensures Render(ps + [x]) == Render(ps) + Show(x)
    decreases |ps|
  {
    if ps != [] {
      assert (ps + [x])[1..] == ps[1..] + [x];
      RenderSnoc(ps[1..], x);
    } else {
      assert ps + [x] == [x];
    }
  }

  /** Every position after an opening `"` up to and including its closing
      quote is inside the literal; the opening quote itself is not. */
  lemma QuotedLiteral(ps: seq<Piece>, s: string, r: string, k: nat)
    requires Closed(ps) && QuoteBody(s)
    requires |Render(ps)| <= k <= |Render(ps)| + 1 + |s|
    ensures InString(Render(ps) + "\"" + s + "\"" + r, k) <==> k > |Render(ps)|
  {
    Assoc3(Render(ps), "\"", s, "\"", r);
    QuoteBodyEscaped(s);
    InPiece(ps, DoubleQuoted(s), r, k);
  }

  lemma Assoc3(p: string, a: string, b: string, c: string, r: string)
    ensures p + a + b + c + r == p + (a + b + c) + r
  {
  }

  /** Every position after an opening backtick up to and including its
      closing backtick is inside the literal; the opening one is not. */
  lemma RawLiteral(ps: seq<Piece>, s: string, r: string, k: nat)
    requires Closed(ps) && forall i | 0 <= i < |s| :: s[i] != '`'
    requires |Render(ps)| <= k <= |Render(ps)| + 1 + |s|
    ensures InString(Render(ps) + "`" + s + "`" + r, k) <==> k > |Render(ps)|
  {
    Assoc3(Render(ps), "`", s, "`", r);
    InPiece(ps, BackQuoted(s), r, k);
  }

  /** An escaped quote in an earlier literal does not end it early: after
      `"a\"b"`, a match in the plain text that follows is not in string. */
  lemma EscapeInEarlierLiteral(t: string, r: string, m: nat)
    requires Plain(t) && 6 <= m < 6 + |t|
    ensures !InString("\"a\\\"b\"" + t + r, m)
  {
    var body := "a\\\"b";
    assert Escaped(body) by {
      assert body[1..][2..] == "b" && "b"[1..] == [];
    }
    var ps := [DoubleQuoted(body)];
    assert Render(ps) == "\"a\\\"b\"" by {
      assert ps[1..] == [];
    }
    PlainPrefix(ps, t, r, m);
  }

  /** A backslash inside a `"` literal protects the next character: `\"`
      does not close the literal. */
  lemma EscapedQuoteDoesNotClose(ps: seq<Piece>, r: string)
    requires Closed(ps)
    ensures InString(Render(ps) + "\"\\\"" + r, |Render(ps)| + 3)
  {
    var p := Render(ps);
    var line := p + ("\"\\\"" + r);
    assert p + "\"\\\"" + r == line;
    CodeAfterPieces(ps, "\"\\\"" + r, |p| + 3);
    assert line[|p|] == '"' && line[|p| + 1] == '\\' && |line| >= |p| + 3;
    assert InStringFrom(line, |p| + 3, |p| + 1, Quoted);
  }

  /** Backtick literals have no escapes: a backslash before a backtick does
      not keep the literal open. */
  lemma RawLiteralHasNoEscapes(ps: seq<Piece>, r: string)
    requires Closed(ps)
    ensures !InString(Render(ps) + "`\\`" + r, |Render(ps)| + 3)
  {
    var p := Render(ps);
    var line := p + ("`\\`" + r);
    assert p + "`\\`" + r == line;
    CodeAfterPieces(ps, "`\\`" + r, |p| + 3);
    assert line[|p|] == '`' && line[|p| + 1] == '\\' && line[|p| + 2] == '`';
    assert !InStringFrom(line, |p| + 3, |p| + 3, Code);
    assert InStringFrom(line, |p| + 3, |p| + 1, Raw) == InStringFrom(line, |p| + 3, |p| + 2, Raw);
  }

  // ---------------------------------------------------------------------
  // _build_string_line_set
  // ---------------------------------------------------------------------

  /** The inner loop that skips a `"` string; `pos` is just after the
      opening quote, the result just after the closing one (or past the end). */
  function SkipQuoted(line: string, pos: nat): (r: nat)
    ensures r >= pos
    decreases |line| - pos
  {
    if pos >= |line| then pos
    else if line[pos] == '\\' then SkipQuoted(line, pos + 2)
    else if line[pos] == '"' then pos + 1
    else SkipQuoted(line, pos + 1)
  }

  /** Whether the scan of one line, from `pos`, ends with `in_raw_string`
      set: a backtick outside `"` strings and before any `//` with no
      closing backtick on the line. */
  function OpensRawFrom(line: string, pos: nat): bool
    decreases |line| - pos
  {
    if pos >= |line| then false
    else if line[pos] == '"' then OpensRawFrom(line, SkipQuoted(line, pos + 1))
    else if CommentAt(line, pos) then false
    else if line[pos] == '`' then
      var close := FindChar(line, '`', pos + 1);
      if close == -1 then true else OpensRawFrom(line, close + 1)
    else OpensRawFrom(line, pos + 1)
  }

  predicate OpensRaw(line: string)
  {
    OpensRawFrom(line, 0)
  }

  /** `"`" in line` */
  predicate HasBacktick(line: string)
  {
    exists k | 0 <= k < |line| :: line[k] == '`'
  }

  /** The outer loop of `_build_string_line_set` from line `i`, with
      `in_raw_string == inRaw`. */
  function RawLinesFrom(lines: seq<string>, i: nat, inRaw: bool): set<int>
    requires i <= |lines|
    decreases |lines| - i
  {
    if i == |lines| then {}
    else if inRaw then {i} + RawLinesFrom(lines, i + 1, !HasBacktick(lines[i]))
    else RawLinesFrom(lines, i + 1, OpensRaw(lines[i]))
  }

  /** `_build_string_line_set(lines)` */
  function RawStringLines(lines: seq<string>): set<int>
  {
    RawLinesFrom(lines, 0, false)
  }

  method BuildStringLineSet(lines: seq<string>) returns (stringLines: set<int>)
    ensures stringLines == RawStringLines(lines)
  {
    var inRaw := false;
    stringLines := {};
    for i := 0 to |lines|
      invariant stringLines + RawLinesFrom(lines, i, inRaw) == RawStringLines(lines)
      invariant forall k | k in stringLines :: k < i
    {
      var line := lines[i];
      if inRaw {
        stringLines := stringLines + {i};
        if HasBacktick(line) {
          inRaw := false;
        }
        continue;
      }
      var pos := 0;
      while pos < |line|
        invariant !inRaw
        invariant OpensRawFrom(line, pos) == OpensRaw(line)
      {
        var ch := line[pos];
        if ch == '"' {
          pos := pos + 1;
          ghost var from := pos;
          while pos < |line|
            invariant SkipQuoted(line, pos) == SkipQuoted(line, from)
          {
            if line[pos] == '\\' {
              pos := pos + 2;
              continue;
            }
            if line[pos] == '"' {
              pos := pos + 1;
              break;
            }
            pos := pos + 1;
          }
          continue;
        }
        if ch == '/' && pos + 1 < |line| && line[pos + 1] == '/' {
          break;
        }
        if ch == '`' {
          var close := FindChar(line, '`', pos + 1);
          if close == -1 {
            inRaw := true;
            break;
          } else {
            pos := close + 1;
            continue;
          }
        }
        pos := pos + 1;
      }
      assert inRaw == OpensRaw(line);
    }
  }

  /** Whether the scanner is inside a raw string when it reaches line `k`:
      a per-line reading of the same loop. */
  function InRawBefore(lines: seq<string>, k: nat): bool
    requires k <= |lines|
  {
    if k == 0 then false
    else if InRawBefore(lines, k - 1) then !HasBacktick(lines[k - 1])
    else OpensRaw(lines[k - 1])
  }

  lemma {:induction false} RawLinesFromMembers(lines: seq<string>, i: nat, inRaw: bool, k: int)
    requires i <= |lines|
    requires inRaw == InRawBefore(lines, i)
    ensures k in RawLinesFrom(lines, i, inRaw) <==> i <= k < |lines| && InRawBefore(lines, k)
    decreases |lines| - i
  {
    if i < |lines| {
      var next := if inRaw then !HasBacktick(lines[i]) else OpensRaw(lines[i]);
      RawLinesFromMembers(lines, i + 1, next, k);
    }
  }

  /** A line is in the raw-string set exactly when the scan is inside a raw
      string on reaching it; the first line never is. */
  lemma RawStringLinesMembers(lines: seq<string>, k: int)
    ensures k in RawStringLines(lines) <==> 0 <= k < |lines| && InRawBefore(lines, k)
    ensures 0 !in RawStringLines(lines)
  {
    RawLinesFromMembers(lines, 0, false, k);
    RawLinesFromMembers(lines, 0, false, 0);
  }

  /** A raw string opened on line `a` (not itself inside one) and closed on
      line `b`: lines a+1..b are marked, line `a` and line b+1 are not. */
  lemma RawSpan(lines: seq<string>, a: nat, b: nat)
    requires a < b < |lines|
    requires a !in RawStringLines(lines) && OpensRaw(lines[a])
    requires forall k | a < k < b :: !HasBacktick(lines[k])
    requires HasBacktick(lines[b])
    ensures forall k | a < k <= b :: k in RawStringLines(lines)
    ensures b + 1 !in RawStringLines(lines)
  {
    RawStringLinesMembers(lines, a);
    RawStringLinesMembers(lines, b + 1);
    var k := a + 1;
    while k <= b
      invariant a + 1 <= k <= b + 1
      invariant InRawBefore(lines, k - 1) == (k - 1 > a)
      invariant forall j | a < j < k :: j in RawStringLines(lines)
    {
      RawStringLinesMembers(lines, k);
      k := k + 1;
    }
  }

  lemma {:induction false} SkipQuotedShift(x: string, r: string, j: nat)
    ensures SkipQuoted(x + r, |x| + j) == |x| + SkipQuoted(r, j)
    decreases |r| - j
  {
    if j < |r| {
      assert (x + r)[|x| + j] == r[j];
      if r[j] == '\\' { SkipQuotedShift(x, r, j + 2); }
      else if r[j] != '"' { SkipQuotedShift(x, r, j + 1); }
    }
  }

  lemma {:induction false} FindCharShift(x: string, r: string, c: char, j: nat)
    requires j <= |r|
    ensures FindChar(x + r, c, |x| + j) == (if FindChar(r, c, j) == -1 then -1 else |x| + FindChar(r, c, j))
    decreases |r| - j
  {
    if j < |r| {
      assert (x + r)[|x| + j] == r[j];
      FindCharShift(x, r, c, j + 1);
    }
  }

  /** The line scan looks only forward: text before the scan position does
      not matter. */
  lemma {:induction false} OpensRawShift(x: string, r: string, j: nat)
    ensures OpensRawFrom(x + r, |x| + j) == OpensRawFrom(r, j)
    decreases |r| - j
  {
    var line := x + r;
    if j < |r| {
      assert line[|x| + j] == r[j];
      assert CommentAt(line, |x| + j) == CommentAt(r, j);
      if r[j] == '"' {
        SkipQuotedShift(x, r, j + 1);
        OpensRawShift(x, r, SkipQuoted(r, j + 1));
      } else if !CommentAt(r, j) {
        if r[j] == '`' {
          FindCharShift(x, r, '`', j + 1);
          var close := FindChar(r, '`', j + 1);
          if close != -1 { OpensRawShift(x, r, close + 1); }
        } else {
          OpensRawShift(x, r, j + 1);
        }
      }
    }
  }

  lemma {:induction false} SkipQuoteBody(line: string, i: nat, s: string)
    requires i + |s| < |line| && line[i..i + |s|] == s && QuoteBody(s) && line[i + |s|] == '"'
    ensures SkipQuoted(line, i) == i + |s| + 1
    decreases |s|
  {
    if s != [] {
      assert line[i] == s[0];
      assert line[i + 1..i + 1 + |s[1..]|] == s[1..];
      SkipQuoteBody(line, i + 1, s[1..]);
    }
  }

  /** A backtick inside a `"` string opens nothing: the scan resumes after
      the string as if it were not there. */
  lemma BacktickInQuotesOpensNothing(s: string, r: string)
    requires QuoteBody(s)
    ensures OpensRaw("\"" + s + "\"" + r) == OpensRaw(r)
  {
    var x := "\"" + s + "\"";
    var line := x + r;
    assert line[1..1 + |s|] == s && line[1 + |s|] == '"';
    SkipQuoteBody(line, 1, s);
    OpensRawShift(x, r, 0);
  }

  lemma {:induction false} PlainOpensNothing(p: string, r: string, j: nat)
    requires Plain(p) && j <= |p|
    ensures OpensRawFrom(p + r, j) == OpensRawFrom(p + r, |p|)
    decreases |p| - j
  {
    if j < |p| {
      assert (p + r)[j] == p[j];
      PlainOpensNothing(p, r, j + 1);
    }
  }

  /** A backtick after `//` opens nothing. */
  lemma BacktickInCommentOpensNothing(p: string, r: string)
    requires Plain(p)
    ensures !OpensRaw(p + "//" + r)
  {
    var line := p + ("//" + r);
    assert p + "//" + r == line;
    PlainOpensNothing(p, "//" + r, 0);
    assert CommentAt(line, |p|);
  }
}
