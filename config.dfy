/** The per-repository Go configuration (desloppify/lang/go/config.py): the
    defaults, and the merge of a parsed YAML override file into them. YAML
    values are a datatype; reading and parsing the file are left to the
    caller, who passes in what the parser produced. */
module Config {
  import opened Wrappers

  /** A value `yaml.safe_load` produces, with string keys. */
  datatype Value =
    | Null
    | Bool(b: bool)
    | Int(i: int)
    | Str(s: string)
    | List(items: seq<Value>)
    | Dict(entries: map<string, Value>)

  /** `GO_DEFAULTS` */
  const GoDefaults: map<string, Value> := map[
    "zones" := Dict(map[
      "generated" := List([Str("_gen.go"), Str("_mock.go"), Str("_string.go")]),
      "test" := List([Str("/testutil/")]),
      "config" := List([Str("Makefile"), Str("Dockerfile")]),
      "script" := List([Str("/tools/")])]),
    "entry_patterns" := List([
      Str("main.go"), Str("/cmd/"), Str("_test.go"), Str("/testdata/"),
      Str("/lambda/"), Str("handler.go"), Str("/migrations/"),
      Str(".pb.go"), Str("_gen.go"), Str("_mock.go"), Str("doc.go")]),
    "exclusions" := List([Str("vendor"), Str(".git"), Str("testdata"), Str("bin")]),
    "boundaries" := List([]),
    "thresholds" := Dict(map[
      "large_file" := Int(500),
      "complexity" := Int(20),
      "monster_function" := Int(150)])]

  // ---------------------------------------------------------------------
  // _merge_config
  // ---------------------------------------------------------------------

  /** The `for item in value: if item not in base[key]: append` loop, over
      the first items of the override list. */
  function Union(xs: seq<Value>, ys: seq<Value>): seq<Value>
  {
    if ys == [] then xs
    else
      var u := Union(xs, ys[..|ys| - 1]);
      if ys[|ys| - 1] in u then u else u + [ys[|ys| - 1]]
  }

  /** What `base[key]` holds after the merge of one key present on both
      sides: dicts merge recursively, lists are extended, anything else is
      replaced. */
  function MergeValue(b: Value, o: Value): Value
    decreases o, 4
  {
    if b.Dict? && o.Dict? then Dict(MergeMaps(b.entries, o.entries))
    else if b.List? && o.List? then List(Union(b.items, o.items))
    else o
  }

  /** What `base[key]` holds after the merge of `key`. */
  function MergeEntry(base: map<string, Value>, overrides: map<string, Value>, key: string): Value
    requires key in overrides
    decreases Dict(overrides), 2
  {
    if key !in base then overrides[key] else MergeValue(base[key], overrides[key])
  }

  /** `base` after `_merge_config(base, overrides)`. */
  function MergeMaps(base: map<string, Value>, overrides: map<string, Value>): map<string, Value>
    decreases Dict(overrides), 3
  {
    map k | k in base.Keys + overrides.Keys :: if k in overrides then MergeEntry(base, overrides, k) else base[k]
  }

  // ---------------------------------------------------------------------
  // Properties of the merge
  // ---------------------------------------------------------------------

  /** Every key of either side is kept; a key only in the overrides is
      added with its value; a key the overrides do not mention is left
      alone. */
  lemma MergeKeys(base: map<string, Value>, overrides: map<string, Value>)
    ensures var r := MergeMaps(base, overrides);
      && r.Keys == base.Keys + overrides.Keys
      && (forall k | k in overrides && k !in base :: r[k] == overrides[k])
      && (forall k | k in base && k !in overrides :: r[k] == base[k])
  {
  }

  /** A key on both sides: dicts are merged recursively, two lists are
      unioned, and any other pair is replaced by the override. */
  lemma MergeBoth(base: map<string, Value>, overrides: map<string, Value>, k: string)
    requires k in base && k in overrides
    ensures var r := MergeMaps(base, overrides)[k];
      var b, o := base[k], overrides[k];
      && (b.Dict? && o.Dict? ==> r == Dict(MergeMaps(b.entries, o.entries)))
      && (b.List? && o.List? ==> r == List(Union(b.items, o.items)))
      && (!(b.Dict? && o.Dict?) && !(b.List? && o.List?) ==> r == o)
  {
    assert MergeMaps(base, overrides)[k] == MergeEntry(base, overrides, k) == MergeValue(base[k], overrides[k]);
  }

  /** The union keeps the base list as a prefix and appends, once each,
      the override items it lacks; nothing else is added. */
  lemma {:induction false} UnionSpec(xs: seq<Value>, ys: seq<Value>)
    ensures var u := Union(xs, ys);
      && |xs| <= |u| && u[..|xs|] == xs
      && (forall y | y in ys :: y in u)
      && (forall x | x in u :: x in xs || x in ys)
      && (forall i, j | |xs| <= i < j < |u| :: u[i] != u[j])
      && (forall i | |xs| <= i < |u| :: u[i] !in xs)
  {
    if ys != [] {
      var init := ys[..|ys| - 1];
      UnionSpec(xs, init);
      assert forall y | y in init :: y in ys;
      assert ys == init + [ys[|ys| - 1]];
    }
  }

  /** The items of `ys` that `xs` lacks, each at its first occurrence in
      `ys` and in the order of `ys`. */
  function Fresh(xs: seq<Value>, ys: seq<Value>): seq<Value>
  {
    if ys == [] then []
    else
      var init, y := ys[..|ys| - 1], ys[|ys| - 1];
      if y in xs || y in init then Fresh(xs, init) else Fresh(xs, init) + [y]
  }

  /** An item is fresh exactly when the overrides hold it and the base
      does not. */
  lemma {:induction false} FreshMembers(xs: seq<Value>, ys: seq<Value>, v: Value)
    ensures v in Fresh(xs, ys) <==> v in ys && v !in xs
  {
    if ys != [] {
      var init := ys[..|ys| - 1];
      FreshMembers(xs, init, v);
      assert ys == init + [ys[|ys| - 1]];
    }
  }

  /** The union is the base list followed by the fresh override items, in
      the order the overrides list them. */
  lemma {:induction false} UnionAppendsFresh(xs: seq<Value>, ys: seq<Value>)
    ensures Union(xs, ys) == xs + Fresh(xs, ys)
  {
    if ys != [] {
      var init, y := ys[..|ys| - 1], ys[|ys| - 1];
      UnionAppendsFresh(xs, init);
      FreshMembers(xs, init, y);
      assert y in xs + Fresh(xs, init) <==> y in xs || y in init;
    }
  }

  /** Extending a list by items it already holds changes nothing. */
  lemma {:induction false} UnionHeld(xs: seq<Value>, ys: seq<Value>)
    requires forall y | y in ys :: y in xs
    ensures Union(xs, ys) == xs
  {
    if ys != [] {
      UnionHeld(xs, ys[..|ys| - 1]);
    }
  }

  /** Merging a value into itself gives it back. */
  lemma {:induction false} MergeValueSelf(v: Value)
    ensures MergeValue(v, v) == v
    decreases v, 4
  {
    match v
    case Dict(m) => MergeMapsSelf(m);
    case List(xs) => UnionHeld(xs, xs);
    case _ =>
  }

  lemma {:induction false} MergeMapsSelf(m: map<string, Value>)
    ensures MergeMaps(m, m) == m
    decreases Dict(m), 3
  {
    forall k | k in m
      ensures MergeMaps(m, m)[k] == m[k]
    {
      assert m[k] < Dict(m);
      MergeValueSelf(m[k]);
    }
  }

  /** Merging the same override value a second time changes nothing. */
  lemma {:induction false} MergeValueTwice(b: Value, o: Value)
    ensures MergeValue(MergeValue(b, o), o) == MergeValue(b, o)
    decreases o, 4
  {
    if b.Dict? && o.Dict? {
      MergeMapsTwice(b.entries, o.entries);
    } else if b.List? && o.List? {
      UnionSpec(b.items, o.items);
      UnionHeld(Union(b.items, o.items), o.items);
    } else {
      MergeValueSelf(o);
    }
  }

  /** Merging the same overrides a second time leaves the configuration
      unchanged. */
  lemma {:induction false} MergeMapsTwice(base: map<string, Value>, overrides: map<string, Value>)
    ensures MergeMaps(MergeMaps(base, overrides), overrides) == MergeMaps(base, overrides)
    decreases Dict(overrides), 3
  {
    var r := MergeMaps(base, overrides);
    forall k | k in overrides
      ensures MergeMaps(r, overrides)[k] == r[k]
    {
      assert overrides[k] < Dict(overrides);
      if k in base {
        MergeValueTwice(base[k], overrides[k]);
      } else {
        MergeValueSelf(overrides[k]);
      }
    }
  }

  /** An empty override leaves the base as it is. */
  lemma MergeEmpty(base: map<string, Value>)
    ensures MergeMaps(base, map[]) == base
  {
  }

  // ---------------------------------------------------------------------
  // load_go_config
  // ---------------------------------------------------------------------

  /** The state of `.desloppify/go.yaml`: absent, not parsable, or parsed
      to a value. */
  datatype ConfigFile = Missing | Unparsable | Parsed(v: Value)

  /** Python truthiness, for `yaml.safe_load(...) or {}`. */
  predicate Falsy(v: Value)
  {
    match v
    case Null => true
    case Bool(b) => !b
    case Int(i) => i == 0
    case Str(s) => s == ""
    case List(xs) => xs == []
    case Dict(m) => m == map[]
  }

  /** `load_go_config`: a fresh copy of the defaults, merged with the
      overrides when the file parses. A parsed value that is neither falsy
      nor a mapping has no `items()`, and the error escapes. */
  function LoadGoConfig(file: ConfigFile): (r: Result<map<string, Value>>)
  {
    match file
    case Missing => Ok(GoDefaults)
    case Unparsable => Ok(GoDefaults)
    case Parsed(v) =>
      if Falsy(v) then Ok(MergeMaps(GoDefaults, map[]))
      else if v.Dict? then Ok(MergeMaps(GoDefaults, v.entries))
      else Err("AttributeError: object has no attribute 'items'")
  }

  /** Without a usable override file the result is the defaults; with one
      it is the defaults merged with it, so every default key survives. */
  lemma LoadGoConfigSpec(file: ConfigFile)
    ensures file.Missing? || file.Unparsable? || (file.Parsed? && Falsy(file.v)) ==> LoadGoConfig(file) == Ok(GoDefaults)
    ensures file.Parsed? && file.v.Dict? && file.v.entries != map[] ==> LoadGoConfig(file) == Ok(MergeMaps(GoDefaults, file.v.entries))
    ensures LoadGoConfig(file).Ok? ==> GoDefaults.Keys <= LoadGoConfig(file).value.Keys
    ensures LoadGoConfig(file).Err? <==> file.Parsed? && !Falsy(file.v) && !file.v.Dict?
  {
    MergeEmpty(GoDefaults);
  }

  // ---------------------------------------------------------------------
  // The method
  // ---------------------------------------------------------------------

  /** `base` with the keys of `done` merged. */
  function PartlyMerged(base: map<string, Value>, overrides: map<string, Value>, done: set<string>): map<string, Value>
    requires done <= overrides.Keys
  {
    map k | k in base.Keys + done :: if k in done then MergeEntry(base, overrides, k) else base[k]
  }

  lemma PartlyStep(base: map<string, Value>, overrides: map<string, Value>, done: set<string>, key: string)
    requires done <= overrides.Keys && key in overrides && key !in done
    ensures PartlyMerged(base, overrides, done + {key}) == PartlyMerged(base, overrides, done)[key := MergeEntry(base, overrides, key)]
  {
  }

  /** `_merge_config` on a dictionary held in a variable: the loop over
      the override keys, the recursive merge of nested dicts and the
      append loop of lists. */
  method MergeConfig(base: map<string, Value>, overrides: map<string, Value>) returns (r: map<string, Value>)
    ensures r == MergeMaps(base, overrides)
    decreases Dict(overrides)
  {
    r := base;
    var todo := overrides.Keys;
    while todo != {}
      invariant todo <= overrides.Keys
      invariant r == PartlyMerged(base, overrides, overrides.Keys - todo)
      decreases todo
    {
      var key :| key in todo;
      var value := overrides[key];
      ghost var done := overrides.Keys - todo;
      PartlyStep(base, overrides, done, key);
      assert (key in r <==> key in base) && (key in r ==> r[key] == base[key]);
      if key !in r {
        assert value == MergeEntry(base, overrides, key);
        r := r[key := value];
      } else if r[key].Dict? && value.Dict? {
        assert value < Dict(overrides);
        var sub := MergeConfig(r[key].entries, value.entries);
        assert Dict(sub) == MergeEntry(base, overrides, key);
        r := r[key := Dict(sub)];
      } else if r[key].List? && value.List? {
        var items := r[key].items;
        for i := 0 to |value.items|
          invariant items == Union(r[key].items, value.items[..i])
        {
          assert value.items[..i + 1][..i] == value.items[..i];
          var item := value.items[i];
          if item !in items {
            items := items + [item];
          }
        }
        assert value.items[..|value.items|] == value.items;
        assert List(items) == MergeEntry(base, overrides, key);
        r := r[key := List(items)];
      } else {
        assert value == MergeEntry(base, overrides, key);
        r := r[key := value];
      }
      todo := todo - {key};
      assert overrides.Keys - todo == done + {key};
    }
    assert overrides.Keys - todo == overrides.Keys;
  }
}
