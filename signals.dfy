/** Values shared by the complexity detectors of both languages: a reported
    signal, the running maximum of per-header parameter counts, and the
    selection of the longest function among those over 80 lines
    (desloppify/lang/go/detectors/complexity.py and
    desloppify/lang/python/detectors/complexity.py keep the same shape). */
module Signals {
  import opened Wrappers

  /** A reported signal: `(value, label)`, the label as `summary`. */
  datatype Signal = Signal(value: int, summary: string)

  /** `max_params` after the contributions `xs`, starting from 0. */
  function MaxOf(xs: seq<Option<nat>>): nat
  {
    if xs == [] then 0
    else
      var m := MaxOf(xs[..|xs| - 1]);
      match xs[|xs| - 1]
      case Some(n) => if n > m then n else m
      case None => m
  }

  /** The maximum is at least every count, and is 0 or one of them. */
  lemma {:induction false} MaxOfSpec(xs: seq<Option<nat>>)
    ensures forall j | 0 <= j < |xs| :: xs[j].Some? ==> xs[j].value <= MaxOf(xs)
    ensures MaxOf(xs) == 0 || exists j | 0 <= j < |xs| :: xs[j] == Some(MaxOf(xs))
  {
    if xs != [] {
      var init := xs[..|xs| - 1];
      MaxOfSpec(init);
      var m := MaxOf(init);
      if m != 0 && MaxOf(xs) == m {
        var j :| 0 <= j < |init| && init[j] == Some(m);
        assert xs[j] == init[j];
      }
      assert forall j | 0 <= j < |init| :: xs[j] == init[j];
    }
  }

  /** A function and its length in lines. */
  datatype LongFunc = LongFunc(name: string, loc: int)

  /** `results` after the measurements `ms`: the functions over 80 lines,
      in order. */
  function Keep(ms: seq<Option<LongFunc>>): (r: seq<LongFunc>)
    ensures forall j | 0 <= j < |r| :: r[j].loc > 80
  {
    if ms == [] then []
    else
      var prev := Keep(ms[..|ms| - 1]);
      match ms[|ms| - 1]
      case Some(f) => if f.loc > 80 then prev + [f] else prev
      case None => prev
  }

  /** `max(results, key=lambda x: x[1])`: the first of the longest. */
  function Longest(fs: seq<LongFunc>): (r: LongFunc)
    requires fs != []
  {
    if |fs| == 1 then fs[0]
    else
      var m := Longest(fs[..|fs| - 1]);
      if fs[|fs| - 1].loc > m.loc then fs[|fs| - 1] else m
  }

  /** The longest is one of them, no other is longer, and every one before
      it is shorter. */
  lemma {:induction false} LongestSpec(fs: seq<LongFunc>)
    requires fs != []
    ensures exists j | 0 <= j < |fs| :: fs[j] == Longest(fs) && forall i | 0 <= i < j :: fs[i].loc < fs[j].loc
    ensures forall i | 0 <= i < |fs| :: fs[i].loc <= Longest(fs).loc
  {
    if |fs| > 1 {
      var init := fs[..|fs| - 1];
      var last := |fs| - 1;
      LongestSpec(init);
      var j :| 0 <= j < |init| && init[j] == Longest(init) && forall i | 0 <= i < j :: init[i].loc < init[j].loc;
      assert forall i | 0 <= i < |init| :: fs[i] == init[i];
      if fs[last].loc > Longest(init).loc {
        assert fs[last] == Longest(fs) && forall i | 0 <= i < last :: fs[i].loc < fs[last].loc;
      } else {
        assert fs[j] == Longest(fs) && forall i | 0 <= i < j :: fs[i].loc < fs[j].loc;
      }
    } else {
      assert fs[0] == Longest(fs);
    }
  }

  /** `results` holds exactly the measured functions over 80 lines. */
  lemma {:induction false} KeepMembers(ms: seq<Option<LongFunc>>, f: LongFunc)
    ensures f in Keep(ms) <==> f.loc > 80 && exists j | 0 <= j < |ms| :: ms[j] == Some(f)
  {
    if ms != [] {
      var init := ms[..|ms| - 1];
      KeepMembers(init, f);
      assert forall j | 0 <= j < |init| :: ms[j] == init[j];
      if f.loc > 80 && ms[|ms| - 1] != Some(f) && exists j | 0 <= j < |ms| :: ms[j] == Some(f) {
        var j :| 0 <= j < |ms| && ms[j] == Some(f);
        assert j < |init|;
      }
    }
  }

  /** Something is kept exactly when some measurement is over 80 lines, and
      then the longest kept is at least as long as every measurement. */
  lemma KeepLongest(ms: seq<Option<LongFunc>>)
    ensures Keep(ms) != [] <==> exists j | 0 <= j < |ms| :: ms[j].Some? && ms[j].value.loc > 80
    ensures Keep(ms) != [] ==> forall j | 0 <= j < |ms| :: ms[j].Some? ==> ms[j].value.loc <= Longest(Keep(ms)).loc
  {
    var fs := Keep(ms);
    forall j | 0 <= j < |ms| && ms[j].Some? && ms[j].value.loc > 80
      ensures ms[j].value in fs
    {
      KeepMembers(ms, ms[j].value);
    }
    if fs != [] {
      LongestSpec(fs);
      KeepMembers(ms, fs[0]);
      forall j | 0 <= j < |ms| && ms[j].Some?
        ensures ms[j].value.loc <= Longest(fs).loc
      {
        if ms[j].value.loc > 80 {
          var i :| 0 <= i < |fs| && fs[i] == ms[j].value;
        }
      }
    }
  }
}
