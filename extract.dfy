/** The Go AST extractor (cmd/go-extract/extract.go, types in
    cmd/go-extract/main.go): functions, structs and interfaces of one file,
    with methods attached to their receiver structs. The parser is not
    modelled: a parsed file is the sequence of declaration nodes
    `ast.Inspect` hands to the callback, in visiting order, over the small
    subset of type expressions the extractor distinguishes. */
module Extract {
  import opened Wrappers
  import opened Text

  // ---------------------------------------------------------------------
  // The AST subset
  // ---------------------------------------------------------------------

  /** A type expression. `Other` is any other node, carrying what `%T`
      prints for it (such as `*ast.FuncType`). */
  datatype Expr =
    | Ident(name: string)
    | Star(x: Expr)
    | Selector(x: Expr, sel: string)
    | ArrayType(elt: Expr)
    | MapType(key: Expr, value: Expr)
    | InterfaceType
    | Index(x: Expr, index: Expr)
    | IndexList(x: Expr, indices: seq<Expr>)
    | Other(goType: string)

  /** One `*ast.Field`: its names (none for an embedded type or an
      unnamed parameter) and its type. */
  datatype Field = Field(names: seq<string>, typ: Expr)

  /** Byte offsets of a function body in the source. */
  datatype Span = Span(start: int, end: int)

  /** A `*ast.FuncDecl`: name, first and last line, body offsets (none for
      a declaration without a body), parameter and receiver lists (none for
      a nil `*ast.FieldList`). */
  datatype Func = Func(name: string, line: int, endLine: int, body: Option<Span>,
                       params: Option<seq<Field>>, recv: Option<seq<Field>>)

  /** The type of a `*ast.TypeSpec`. */
  datatype TypeKind =
    | StructType(endLine: int, fields: Option<seq<Field>>)
    | InterfaceKind(methods: Option<seq<Field>>)
    | OtherType

  /** A spec of a `*ast.GenDecl`. */
  datatype Spec = TypeSpec(name: string, line: int, typ: TypeKind) | OtherSpec

  /** A node the inspection callback handles. */
  datatype Node = FuncNode(f: Func) | GenNode(isType: bool, specs: seq<Spec>)

  /** The output records. */
  datatype FunctionInfo = FunctionInfo(name: string, file: string, line: int, endLine: int, loc: int, body: string,
                                       params: seq<string>, receiver: string, exported: bool)
  datatype StructInfo = StructInfo(name: string, file: string, line: int, loc: int, methods: seq<string>,
                                   fields: seq<string>, embedded: seq<string>, exported: bool)
  datatype InterfaceInfo = InterfaceInfo(name: string, file: string, line: int, methods: seq<string>)
  datatype ExtractResult = ExtractResult(functions: seq<FunctionInfo>, structs: seq<StructInfo>, interfaces: seq<InterfaceInfo>)

  // ---------------------------------------------------------------------
  // isExported, receiverTypeName, typeString
  // ---------------------------------------------------------------------

  /** `isExported`: the first character is an upper-case letter. */
  predicate IsExported(name: string)
  {
    if name == "" then false else IsUpper(name[0])
  }

  /** `receiverTypeName`: pointers and one type argument are looked
      through; any other form has no name. */
  function ReceiverTypeName(e: Expr): string
  {
    match e
    case Star(x) => ReceiverTypeName(x)
    case Ident(name) => name
    case Index(x, _) => ReceiverTypeName(x)
    case _ => ""
  }

  /** `typeString` */
  function TypeString(e: Expr): string
  {
    match e
    case Ident(name) => name
    case Star(x) => "*" + TypeString(x)
    case Selector(x, sel) => TypeString(x) + "." + sel
    case ArrayType(elt) => "[]" + TypeString(elt)
    case MapType(k, v) => "map[" + TypeString(k) + "]" + TypeString(v)
    case InterfaceType => "interface{}"
    case Index(x, i) => TypeString(x) + "[" + TypeString(i) + "]"
    case IndexList(_, _) => "*ast.IndexListExpr"
    case Other(t) => t
  }

  /** The receiver forms: an identifier under pointers and type arguments. */
  predicate ReceiverForm(e: Expr)
  {
    match e
    case Ident(_) => true
    case Star(x) => ReceiverForm(x)
    case Index(x, _) => ReceiverForm(x)
    case _ => false
  }

  /** The identifier of a receiver form. */
  function BaseName(e: Expr): string
    requires ReceiverForm(e)
  {
    match e
    case Ident(name) => name
    case Star(x) => BaseName(x)
    case Index(x, _) => BaseName(x)
  }

  /** The number of pointers in front of the identifier of a receiver
      form. */
  function Stars(e: Expr): nat
    requires ReceiverForm(e)
  {
    match e
    case Ident(_) => 0
    case Star(x) => 1 + Stars(x)
    case Index(x, _) => Stars(x)
  }

  /** The receiver name is the identifier of a receiver form, and nothing
      for every other expression. */
  lemma {:induction false} ReceiverTypeNameSpec(e: Expr)
    ensures ReceiverForm(e) ==> ReceiverTypeName(e) == BaseName(e)
    ensures !ReceiverForm(e) ==> ReceiverTypeName(e) == ""
  {
    match e
    case Star(x) => ReceiverTypeNameSpec(x);
    case Index(x, _) => ReceiverTypeNameSpec(x);
    case _ =>
  }

  /** The type arguments after the identifier of a receiver form, as
      `typeString` renders them. */
  function Args(e: Expr): string
    requires ReceiverForm(e)
  {
    match e
    case Ident(_) => ""
    case Star(x) => Args(x)
    case Index(x, i) => Args(x) + "[" + TypeString(i) + "]"
  }

  /** `k` pointer marks. */
  function StarMarks(k: nat): (r: string)
    ensures |r| == k && forall j | 0 <= j < k :: r[j] == '*'
  {
    if k == 0 then "" else "*" + StarMarks(k - 1)
  }

  /** The rendered type of a receiver form is its pointers, its name and,
      after that, nothing or its type arguments in brackets; so the name
      `receiverTypeName` attaches a method to is the one the type string
      shows. */
  lemma {:induction false} ReceiverInTypeString(e: Expr)
    requires ReceiverForm(e)
    ensures TypeString(e) == StarMarks(Stars(e)) + BaseName(e) + Args(e)
    ensures Args(e) == "" || Args(e)[0] == '['
  {
    match e
    case Ident(_) =>
    case Star(x) =>
      ReceiverInTypeString(x);
    case Index(x, i) =>
      ReceiverInTypeString(x);
      var p, a := StarMarks(Stars(x)) + BaseName(x), Args(x);
      assert TypeString(e) == (p + a) + ("[" + TypeString(i) + "]");
      assert Args(e) == a + ("[" + TypeString(i) + "]");
  }

  /** No bracket in an identifier or in a `%T` rendering. */
  predicate Plain(e: Expr)
  {
    match e
    case Ident(name) => '[' !in name && ']' !in name
    case Star(x) => Plain(x)
    case Selector(x, sel) => Plain(x) && '[' !in sel && ']' !in sel
    case ArrayType(elt) => Plain(elt)
    case MapType(k, v) => Plain(k) && Plain(v)
    case InterfaceType => true
    case Index(x, i) => Plain(x) && Plain(i)
    case IndexList(_, _) => true
    case Other(t) => '[' !in t && ']' !in t
  }

  /** Opening minus closing brackets. */
  function Diff(s: string): int
  {
    CountChar(s, '[') - CountChar(s, ']')
  }

  lemma DiffAppend(a: string, b: string)
    ensures Diff(a + b) == Diff(a) + Diff(b)
  {
    CountCharAppend(a, b, '[');
    CountCharAppend(a, b, ']');
  }

  lemma DiffNone(s: string)
    requires '[' !in s && ']' !in s
    ensures Diff(s) == 0
  {
    CountCharNone(s, '[');
    CountCharNone(s, ']');
  }

  /** Text without brackets around a balanced string keeps it balanced. */
  lemma DiffWrap(p: string, a: string, q: string)
    requires Diff(p) == 0 && Diff(q) == 0
    ensures Diff(p + a + q) == Diff(a)
  {
    DiffAppend(p, a);
    DiffAppend(p + a, q);
  }

  /** Two balanced strings inside `[` and `]`. */
  lemma DiffBrackets(p: string, a: string, b: string)
    requires Diff(p) == 0 && Diff(a) == 0 && Diff(b) == 0
    ensures Diff(p + "[" + a + "]" + b) == 0
  {
    DiffAppend(p, "[");
    DiffAppend(p + "[", a);
    DiffAppend(p + "[" + a, "]");
    DiffAppend(p + "[" + a + "]", b);
  }

  /** Brackets in a rendered type come in pairs. */
  lemma {:induction false} TypeStringBalanced(e: Expr)
    requires Plain(e)
    ensures Diff(TypeString(e)) == 0
  {
    match e
    case Ident(name) => DiffNone(name);
    case Star(x) =>
      TypeStringBalanced(x);
      StarBalanced(x);
    case Selector(x, sel) =>
      TypeStringBalanced(x);
      SelectorBalanced(x, sel);
    case ArrayType(elt) =>
      TypeStringBalanced(elt);
      ArrayBalanced(elt);
    case MapType(k, v) =>
      TypeStringBalanced(k);
      TypeStringBalanced(v);
      MapBalanced(k, v);
    case InterfaceType =>
      DiffNone("interface{}");
    case Index(x, i) =>
      TypeStringBalanced(x);
      TypeStringBalanced(i);
      IndexBalanced(x, i);
    case IndexList(_, _) =>
      DiffNone("*ast.IndexListExpr");
    case Other(t) => DiffNone(t);
  }

  // One step of `TypeStringBalanced` per composite expression.

  lemma StarBalanced(x: Expr)
    requires Diff(TypeString(x)) == 0
    ensures Diff(TypeString(Star(x))) == 0
  {
    DiffWrap("*", TypeString(x), "");
    assert "*" + TypeString(x) + "" == TypeString(Star(x));
  }

  lemma SelectorBalanced(x: Expr, sel: string)
    requires Diff(TypeString(x)) == 0 && '[' !in sel && ']' !in sel
    ensures Diff(TypeString(Selector(x, sel))) == 0
  {
    assert forall c | c in "." + sel :: c == '.' || c in sel;
    DiffNone("." + sel);
    DiffWrap("", TypeString(x), "." + sel);
    assert "" + TypeString(x) + ("." + sel) == TypeString(Selector(x, sel));
  }

  lemma ArrayBalanced(elt: Expr)
    requires Diff(TypeString(elt)) == 0
    ensures Diff(TypeString(ArrayType(elt))) == 0
  {
    DiffBrackets("", "", TypeString(elt));
    assert "" + "[" + "" + "]" + TypeString(elt) == TypeString(ArrayType(elt));
  }

  lemma MapBalanced(k: Expr, v: Expr)
    requires Diff(TypeString(k)) == 0 && Diff(TypeString(v)) == 0
    ensures Diff(TypeString(MapType(k, v))) == 0
  {
    DiffNone("map");
    DiffBrackets("map", TypeString(k), TypeString(v));
    assert "map" + "[" == "map[";
    assert "map" + "[" + TypeString(k) + "]" + TypeString(v) == TypeString(MapType(k, v));
  }

  lemma IndexBalanced(x: Expr, i: Expr)
    requires Diff(TypeString(x)) == 0 && Diff(TypeString(i)) == 0
    ensures Diff(TypeString(Index(x, i))) == 0
  {
    DiffBrackets(TypeString(x), TypeString(i), "");
    assert TypeString(x) + "[" + TypeString(i) + "]" + "" == TypeString(Index(x, i));
  }

  // ---------------------------------------------------------------------
  // extractParams, extractStruct, extractInterface
  // ---------------------------------------------------------------------

  /** The names of a field list, field by field, in order. */
  function Names(fs: seq<Field>): seq<string>
  {
    if fs == [] then [] else Names(fs[..|fs| - 1]) + fs[|fs| - 1].names
  }

  /** The type strings of the unnamed fields, in order. */
  function Embedded(fs: seq<Field>): seq<string>
  {
    if fs == [] then []
    else Embedded(fs[..|fs| - 1]) + (if fs[|fs| - 1].names == [] then [TypeString(fs[|fs| - 1].typ)] else [])
  }

  /** The number of unnamed fields. */
  function Unnamed(fs: seq<Field>): nat
  {
    if fs == [] then 0 else Unnamed(fs[..|fs| - 1]) + (if fs[|fs| - 1].names == [] then 1 else 0)
  }

  /** Names are collected field by field: the names of two lists are the
      names of the first followed by those of the second. */
  lemma {:induction false} NamesAppend(a: seq<Field>, b: seq<Field>)
    ensures Names(a + b) == Names(a) + Names(b)
    decreases |b|
  {
    if b == [] {
      assert a + b == a;
    } else {
      NamesAppend(a, b[..|b| - 1]);
      assert (a + b)[..|a + b| - 1] == a + b[..|b| - 1];
    }
  }

  /** A name is collected exactly when some field declares it. */
  lemma {:induction false} NamesMembers(fs: seq<Field>, x: string)
    ensures x in Names(fs) <==> exists i | 0 <= i < |fs| :: x in fs[i].names
  {
    if fs != [] {
      NamesMembers(fs[..|fs| - 1], x);
      if x in Names(fs[..|fs| - 1]) {
        var i :| 0 <= i < |fs| - 1 && x in fs[..|fs| - 1][i].names;
        assert x in fs[i].names;
      }
    }
  }

  /** Every field goes to exactly one side: an unnamed one adds one
      embedded type, a named one adds its names. */
  lemma {:induction false} EmbeddedCount(fs: seq<Field>)
    ensures |Embedded(fs)| == Unnamed(fs) <= |fs|
    ensures forall i | 0 <= i < |fs| && fs[i].names == [] :: TypeString(fs[i].typ) in Embedded(fs)
  {
    if fs != [] {
      var init := fs[..|fs| - 1];
      EmbeddedCount(init);
      forall i | 0 <= i < |fs| && fs[i].names == []
        ensures TypeString(fs[i].typ) in Embedded(fs)
      {
        if i < |fs| - 1 {
          assert init[i] == fs[i];
        }
      }
    }
  }

  /** `extractParams`: one name per declared name; a nil list gives an
      empty, non-nil list. */
  method ExtractParams(fields: Option<seq<Field>>) returns (params: seq<string>)
    ensures params == if fields.None? then [] else Names(fields.value)
  {
    if fields.None? {
      return [];
    }
    var list := fields.value;
    params := [];
    for i := 0 to |list|
      invariant params == Names(list[..i])
    {
      assert list[..i + 1][..i] == list[..i];
      var field := list[i];
      for j := 0 to |field.names|
        invariant params == Names(list[..i]) + field.names[..j]
      {
        assert field.names[..j + 1] == field.names[..j] + [field.names[j]];
        params := params + [field.names[j]];
      }
      assert field.names[..|field.names|] == field.names;
    }
    assert list[..|list|] == list;
  }

  /** `extractStruct` as a function. */
  function StructOf(ts: Spec, file: string): StructInfo
    requires ts.TypeSpec? && ts.typ.StructType?
  {
    var fs := if ts.typ.fields.None? then [] else ts.typ.fields.value;
    StructInfo(ts.name, file, ts.line, ts.typ.endLine - ts.line + 1, [], Names(fs), Embedded(fs), IsExported(ts.name))
  }

  /** `extractStruct`: the loop over the fields. */
  method ExtractStruct(ts: Spec, file: string) returns (si: StructInfo)
    requires ts.TypeSpec? && ts.typ.StructType?
    ensures si == StructOf(ts, file)
    ensures si.loc == ts.typ.endLine - ts.line + 1 && si.methods == [] && si.exported == IsExported(si.name)
    ensures |si.embedded| <= |if ts.typ.fields.None? then [] else ts.typ.fields.value|
  {
    var loc := ts.typ.endLine - ts.line + 1;
    var fields: seq<string> := [];
    var embedded: seq<string> := [];
    var list := if ts.typ.fields.None? then [] else ts.typ.fields.value;
    for i := 0 to |list|
      invariant fields == Names(list[..i]) && embedded == Embedded(list[..i])
    {
      assert list[..i + 1][..i] == list[..i];
      var field := list[i];
      if |field.names| == 0 {
        embedded := embedded + [TypeString(field.typ)];
      } else {
        for j := 0 to |field.names|
          invariant fields == Names(list[..i]) + field.names[..j]
        {
          assert field.names[..j + 1] == field.names[..j] + [field.names[j]];
          fields := fields + [field.names[j]];
        }
        assert field.names[..|field.names|] == field.names;
      }
    }
    assert list[..|list|] == list;
    EmbeddedCount(list);
    si := StructInfo(ts.name, file, ts.line, loc, [], fields, embedded, IsExported(ts.name));
  }

  /** `extractInterface` as a function. */
  function InterfaceOf(ts: Spec, file: string): InterfaceInfo
    requires ts.TypeSpec? && ts.typ.InterfaceKind?
  {
    InterfaceInfo(ts.name, file, ts.line, if ts.typ.methods.None? then [] else Names(ts.typ.methods.value))
  }

  /** `extractInterface`: only named entries are methods; embedded
      interfaces add none. */
  method ExtractInterface(ts: Spec, file: string) returns (ii: InterfaceInfo)
    requires ts.TypeSpec? && ts.typ.InterfaceKind?
    ensures ii == InterfaceOf(ts, file)
  {
    var methods := ExtractParams(ts.typ.methods);
    ii := InterfaceInfo(ts.name, file, ts.line, methods);
  }

  // ---------------------------------------------------------------------
  // extractFunction
  // ---------------------------------------------------------------------

  /** The body text: the bytes between the body's offsets when both lie
      within the source. */
  function BodyText(src: string, body: Option<Span>): string
    requires body.Some? ==> body.value.start <= body.value.end
  {
    if body.Some? && body.value.start >= 0 && body.value.end <= |src| then src[body.value.start..body.value.end] else ""
  }

  /** The receiver name of the first receiver field, or nothing. */
  function Receiver(recv: Option<seq<Field>>): string
  {
    if recv.Some? && |recv.value| > 0 then ReceiverTypeName(recv.value[0].typ) else ""
  }

  /** `extractFunction` as a function. */
  function FunctionOf(fn: Func, file: string, src: string): FunctionInfo
    requires fn.body.Some? ==> fn.body.value.start <= fn.body.value.end
  {
    FunctionInfo(fn.name, file, fn.line, fn.endLine, fn.endLine - fn.line + 1, BodyText(src, fn.body),
                 if fn.params.None? then [] else Names(fn.params.value), Receiver(fn.recv), IsExported(fn.name))
  }

  /** `extractFunction`. A body's start offset never exceeds its end (Go
      would panic on the slice otherwise). */
  method ExtractFunction(fn: Func, file: string, src: string) returns (fi: FunctionInfo)
    requires fn.body.Some? ==> fn.body.value.start <= fn.body.value.end
    ensures fi == FunctionOf(fn, file, src)
    ensures fi.loc == fi.endLine - fi.line + 1 && |fi.body| <= |src|
  {
    var loc := fn.endLine - fn.line + 1;
    var body := "";
    if fn.body.Some? {
      var bodyStart, bodyEnd := fn.body.value.start, fn.body.value.end;
      if bodyStart >= 0 && bodyEnd <= |src| {
        body := src[bodyStart..bodyEnd];
      }
    }
    var params := ExtractParams(fn.params);
    var receiver := "";
    if fn.recv.Some? && |fn.recv.value| > 0 {
      receiver := ReceiverTypeName(fn.recv.value[0].typ);
    }
    fi := FunctionInfo(fn.name, file, fn.line, fn.endLine, loc, body, params, receiver, IsExported(fn.name));
  }

  // ---------------------------------------------------------------------
  // extractFile
  // ---------------------------------------------------------------------

  /** The bodies of the nodes have well-ordered offsets. */
  predicate WellFormed(nodes: seq<Node>)
  {
    forall i | 0 <= i < |nodes| && nodes[i].FuncNode? && nodes[i].f.body.Some? ::
      nodes[i].f.body.value.start <= nodes[i].f.body.value.end
  }

  /** The functions, in visiting order. */
  function Functions(nodes: seq<Node>, file: string, src: string): seq<FunctionInfo>
    requires WellFormed(nodes)
  {
    if nodes == [] then []
    else
      var n := nodes[|nodes| - 1];
      Functions(nodes[..|nodes| - 1], file, src) + (if n.FuncNode? then [FunctionOf(n.f, file, src)] else [])
  }

  /** The structs of a list of specs, before methods are attached. */
  function SpecStructs(specs: seq<Spec>, file: string): seq<StructInfo>
  {
    if specs == [] then []
    else
      var s := specs[|specs| - 1];
      SpecStructs(specs[..|specs| - 1], file) + (if s.TypeSpec? && s.typ.StructType? then [StructOf(s, file)] else [])
  }

  /** The interfaces of a list of specs. */
  function SpecInterfaces(specs: seq<Spec>, file: string): seq<InterfaceInfo>
  {
    if specs == [] then []
    else
      var s := specs[|specs| - 1];
      SpecInterfaces(specs[..|specs| - 1], file) + (if s.TypeSpec? && s.typ.InterfaceKind? then [InterfaceOf(s, file)] else [])
  }

  /** The structs of `type` declarations, in visiting order. */
  function Structs(nodes: seq<Node>, file: string): seq<StructInfo>
  {
    if nodes == [] then []
    else
      var n := nodes[|nodes| - 1];
      Structs(nodes[..|nodes| - 1], file) + (if n.GenNode? && n.isType then SpecStructs(n.specs, file) else [])
  }

  /** The interfaces of `type` declarations, in visiting order. */
  function Interfaces(nodes: seq<Node>, file: string): seq<InterfaceInfo>
  {
    if nodes == [] then []
    else
      var n := nodes[|nodes| - 1];
      Interfaces(nodes[..|nodes| - 1], file) + (if n.GenNode? && n.isType then SpecInterfaces(n.specs, file) else [])
  }

  /** The names of the functions whose receiver is `name`, in order. */
  function MethodsOf(fns: seq<FunctionInfo>, name: string): seq<string>
  {
    if fns == [] then []
    else
      var f := fns[|fns| - 1];
      MethodsOf(fns[..|fns| - 1], name) + (if f.receiver != "" && f.receiver == name then [f.name] else [])
  }

  /** `extractFile` on a parsed file: every struct gets the methods of its
      receiver name. */
  function ExtractNodes(nodes: seq<Node>, file: string, src: string): ExtractResult
    requires WellFormed(nodes)
  {
    var fns := Functions(nodes, file, src);
    var sts := Structs(nodes, file);
    ExtractResult(fns, seq(|sts|, i requires 0 <= i < |sts| => sts[i].(methods := MethodsOf(fns, sts[i].name))),
                  Interfaces(nodes, file))
  }

  /** A method name is attached exactly when a function with that receiver
      declares it. */
  lemma {:induction false} MethodsOfMembers(fns: seq<FunctionInfo>, name: string, x: string)
    ensures x in MethodsOf(fns, name) <==> exists i | 0 <= i < |fns| :: fns[i].receiver == name != "" && fns[i].name == x
  {
    if fns != [] {
      var init := fns[..|fns| - 1];
      MethodsOfMembers(init, name, x);
      if x in MethodsOf(init, name) {
        var i :| 0 <= i < |init| && init[i].receiver == name != "" && init[i].name == x;
        assert fns[i] == init[i];
      }
      if exists i | 0 <= i < |fns| :: fns[i].receiver == name != "" && fns[i].name == x {
        var i :| 0 <= i < |fns| && fns[i].receiver == name != "" && fns[i].name == x;
        if i < |init| {
          assert init[i] == fns[i];
        }
      }
    }
  }

  /** The result of `ExtractNodes`: one struct per struct declaration, each
      with exactly the methods declared on its name; the functions and
      interfaces as visited. */
  lemma ExtractNodesSpec(nodes: seq<Node>, file: string, src: string)
    requires WellFormed(nodes)
    ensures var r := ExtractNodes(nodes, file, src);
      && |r.structs| == |Structs(nodes, file)|
      && forall i | 0 <= i < |r.structs| ::
           r.structs[i] == Structs(nodes, file)[i].(methods := MethodsOf(r.functions, r.structs[i].name))
  {
  }

  /** The source given to `extractFile`: unreadable, unparsable, or its text
      and parsed nodes. */
  datatype Source = Unreadable(cause: string) | Unparsable(cause: string) | Parsed(text: string, nodes: seq<Node>)

  /** `extractFile` as a function. */
  function ExtractFileOf(file: string, src: Source): Result<ExtractResult>
    requires src.Parsed? ==> WellFormed(src.nodes)
  {
    match src
    case Unreadable(cause) => Err("reading file: " + cause)
    case Unparsable(cause) => Err("parsing file: " + cause)
    case Parsed(text, nodes) => Ok(ExtractNodes(nodes, file, text))
  }

  /** The callback on one `type` declaration: the loop over its specs. */
  method VisitSpecs(specs: seq<Spec>, file: string, structs: seq<StructInfo>, interfaces: seq<InterfaceInfo>)
    returns (structs': seq<StructInfo>, interfaces': seq<InterfaceInfo>)
    ensures structs' == structs + SpecStructs(specs, file)
    ensures interfaces' == interfaces + SpecInterfaces(specs, file)
  {
    var newStructs: seq<StructInfo>, newInterfaces: seq<InterfaceInfo> := [], [];
    for k := 0 to |specs|
      invariant newStructs == SpecStructs(specs[..k], file)
      invariant newInterfaces == SpecInterfaces(specs[..k], file)
    {
      SpecsSnoc(specs, k, file);
      newStructs, newInterfaces := VisitSpec(specs[k], file, newStructs, newInterfaces);
    }
    assert specs[..|specs|] == specs;
    structs', interfaces' := structs + newStructs, interfaces + newInterfaces;
  }

  /** The specs up to `k` inclusive: those before `k`, then spec `k`'s
      struct or interface. */
  lemma SpecsSnoc(specs: seq<Spec>, k: nat, file: string)
    requires k < |specs|
    ensures var spec := specs[k];
      && SpecStructs(specs[..k + 1], file)
        == SpecStructs(specs[..k], file) + (if spec.TypeSpec? && spec.typ.StructType? then [StructOf(spec, file)] else [])
      && SpecInterfaces(specs[..k + 1], file)
        == SpecInterfaces(specs[..k], file) + (if spec.TypeSpec? && spec.typ.InterfaceKind? then [InterfaceOf(spec, file)] else [])
  {
    assert specs[..k + 1][..k] == specs[..k];
  }

  /** One pass of the spec loop: a struct or interface type is recorded,
      anything else is passed over. */
  method VisitSpec(spec: Spec, file: string, structs: seq<StructInfo>, interfaces: seq<InterfaceInfo>)
    returns (structs': seq<StructInfo>, interfaces': seq<InterfaceInfo>)
    ensures structs' == structs + (if spec.TypeSpec? && spec.typ.StructType? then [StructOf(spec, file)] else [])
    ensures interfaces' == interfaces + (if spec.TypeSpec? && spec.typ.InterfaceKind? then [InterfaceOf(spec, file)] else [])
  {
    structs', interfaces' := structs, interfaces;
    if spec.TypeSpec? {
      match spec.typ
      case StructType(_, _) =>
        var si := ExtractStruct(spec, file);
        structs' := structs' + [si];
      case InterfaceKind(_) =>
        var ii := ExtractInterface(spec, file);
        interfaces' := interfaces' + [ii];
      case OtherType =>
    }
  }

  /** The inspection callback over the nodes: functions and type
      declarations are collected, and each function with a receiver name
      is filed under it. */
  method VisitNodes(nodes: seq<Node>, file: string, text: string)
    returns (functions: seq<FunctionInfo>, structs: seq<StructInfo>, interfaces: seq<InterfaceInfo>,
             methodsByReceiver: map<string, seq<string>>)
    requires WellFormed(nodes)
    ensures functions == Functions(nodes, file, text)
    ensures structs == Structs(nodes, file)
    ensures interfaces == Interfaces(nodes, file)
    ensures forall name :: (name in methodsByReceiver <==> MethodsOf(functions, name) != [])
    ensures forall name | name in methodsByReceiver :: methodsByReceiver[name] == MethodsOf(functions, name)
  {
    functions, structs, interfaces := [], [], [];
    methodsByReceiver := map[];
    for i := 0 to |nodes|
      invariant WellFormed(nodes[..i])
      invariant functions == Functions(nodes[..i], file, text)
      invariant structs == Structs(nodes[..i], file)
      invariant interfaces == Interfaces(nodes[..i], file)
      invariant forall name :: (name in methodsByReceiver <==> MethodsOf(functions, name) != [])
      invariant forall name | name in methodsByReceiver :: methodsByReceiver[name] == MethodsOf(functions, name)
    {
      assert nodes[..i + 1][..i] == nodes[..i];
      var node := nodes[i];
      match node
      case FuncNode(fn) =>
        var fi := ExtractFunction(fn, file, text);
        functions, methodsByReceiver := FileFunction(functions, methodsByReceiver, fi);
      case GenNode(isType, specs) =>
        if isType {
          structs, interfaces := VisitSpecs(specs, file, structs, interfaces);
        }
    }
    assert nodes[..|nodes|] == nodes;
  }

  /** One function visited: appended to the list, and filed under its
      receiver name when it has one. */
  method FileFunction(functions: seq<FunctionInfo>, methodsByReceiver: map<string, seq<string>>, fi: FunctionInfo)
    returns (functions': seq<FunctionInfo>, methodsByReceiver': map<string, seq<string>>)
    requires forall name :: (name in methodsByReceiver <==> MethodsOf(functions, name) != [])
    requires forall name | name in methodsByReceiver :: methodsByReceiver[name] == MethodsOf(functions, name)
    ensures functions' == functions + [fi]
    ensures forall name :: (name in methodsByReceiver' <==> MethodsOf(functions', name) != [])
    ensures forall name | name in methodsByReceiver' :: methodsByReceiver'[name] == MethodsOf(functions', name)
  {
    functions' := functions + [fi];
    assert functions'[..|functions'| - 1] == functions;
    methodsByReceiver' := methodsByReceiver;
    if fi.receiver != "" {
      var prev := if fi.receiver in methodsByReceiver then methodsByReceiver[fi.receiver] else [];
      methodsByReceiver' := methodsByReceiver[fi.receiver := prev + [fi.name]];
    }
  }

  /** The loop that gives each struct the methods filed under its name. */
  method AttachMethods(structs: seq<StructInfo>, functions: seq<FunctionInfo>, methodsByReceiver: map<string, seq<string>>)
    returns (structs': seq<StructInfo>)
    requires NoMethods(structs)
    requires forall name :: (name in methodsByReceiver <==> MethodsOf(functions, name) != [])
    requires forall name | name in methodsByReceiver :: methodsByReceiver[name] == MethodsOf(functions, name)
    ensures |structs'| == |structs|
    ensures forall k | 0 <= k < |structs| :: structs'[k] == structs[k].(methods := MethodsOf(functions, structs[k].name))
  {
    structs' := structs;
    for i := 0 to |structs|
      invariant |structs'| == |structs|
      invariant forall k | 0 <= k < i :: structs'[k] == structs[k].(methods := MethodsOf(functions, structs[k].name))
      invariant forall k | i <= k < |structs| :: structs'[k] == structs[k]
    {
      var s := structs'[i];
      if s.name in methodsByReceiver {
        structs' := structs'[i := s.(methods := methodsByReceiver[s.name])];
      }
    }
  }

  /** `extractFile`: read, parse, inspect, attach. */
  method ExtractFile(file: string, src: Source) returns (r: Result<ExtractResult>)
    requires src.Parsed? ==> WellFormed(src.nodes)
    ensures r == ExtractFileOf(file, src)
  {
    if src.Unreadable? {
      return Err("reading file: " + src.cause);
    }
    if src.Unparsable? {
      return Err("parsing file: " + src.cause);
    }
    var functions, structs, interfaces, methodsByReceiver := VisitNodes(src.nodes, file, src.text);
    StructsNoMethods(src.nodes, file);
    structs := AttachMethods(structs, functions, methodsByReceiver);
    assert structs == ExtractNodes(src.nodes, file, src.text).structs;
    r := Ok(ExtractResult(functions, structs, interfaces));
  }

  /** Structs leave the callback with no methods. */
  predicate NoMethods(sts: seq<StructInfo>)
  {
    forall i | 0 <= i < |sts| :: sts[i].methods == []
  }

  lemma {:induction false} SpecStructsNoMethods(specs: seq<Spec>, file: string)
    ensures NoMethods(SpecStructs(specs, file))
  {
    if specs != [] {
      SpecStructsNoMethods(specs[..|specs| - 1], file);
    }
  }

  lemma {:induction false} StructsNoMethods(nodes: seq<Node>, file: string)
    ensures NoMethods(Structs(nodes, file))
  {
    if nodes != [] {
      StructsNoMethods(nodes[..|nodes| - 1], file);
      var n := nodes[|nodes| - 1];
      if n.GenNode? && n.isType {
        SpecStructsNoMethods(n.specs, file);
      }
    }
  }
}
