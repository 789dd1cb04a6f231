/** The legacy extractor for Python (`ASTParser`, src/ast_parser/parser.py): a walk over
    Python's own `ast` tree that records classes, functions, methods, variables, imports,
    inheritance and calls for one file at a time, on one long-lived parser object. */
module LegacyPython {

  import opened Wrappers
  import opened Text
  import opened Schema
  import opened Json

  /** A parameter: its name and its annotation expression, if any. */
  datatype Param = Param(name: string, annotation: Option<PyNode>)

  /** One `name [as asName]` of an import statement. */
  datatype Alias = Alias(name: string, asName: Option<string>)

  /** The part of Python's `ast` the extractor reads. Every node kind it does not
      single out is `Other`, carrying its child nodes in `ast.iter_child_nodes` order
      (an `async def` is one of these). For a `def`, `argExtras` are the parts of the
      signature between the plain parameters and the defaults (`*args`, keyword-only
      parameters and their defaults, `**kwargs`), and `defaults` are the default
      values of the positional parameters, positional-only ones included. */
  datatype PyNode =
    | ClassDef(name: string, bases: seq<PyNode>, keywords: seq<PyNode>, body: seq<PyNode>,
               decorators: seq<PyNode>, line: nat, endLine: Option<nat>)
    | FunctionDef(name: string, posOnly: seq<Param>, args: seq<Param>, argExtras: seq<PyNode>,
                  defaults: seq<PyNode>, body: seq<PyNode>, decorators: seq<PyNode>,
                  result: Option<PyNode>, line: nat, endLine: Option<nat>)
    | Import(names: seq<Alias>)
    | ImportFrom(modName: Option<string>, names: seq<Alias>, level: nat)
    | Assign(targets: seq<PyNode>, value: PyNode, line: nat, endLine: Option<nat>)
    | Call(func: PyNode, callArgs: seq<PyNode>)
    | Name(ident: string)
    | Attribute(obj: PyNode, attr: string)
    | Str(s: string)
    | Expr(expr: PyNode)
    | Other(children: seq<PyNode>)

  /** The parser object: the graph so far, the file being read, the enclosing function
      and class ids, and the file's import alias table. */
  datatype LState = LState(
    nodes: NodeMap,
    relations: seq<Relation>,
    file: string,
    currentFunction: Option<string>,
    currentClass: Option<string>,
    imports: map<string, string>)

  /** The state after a step, and whether the step raised. A raised exception leaves
      everything done so far in place. */
  datatype Run = Run(st: LState, failed: bool)

  function Fresh(): LState {
    LState(NoNodes(), [], "", None, None, map[])
  }

  /** The parser's state changes only by appending relations. */
  ghost predicate Grows(a: LState, b: LState) {
    a.relations <= b.relations && a.file == b.file
  }

  // ---------------------------------------------------------------------------------
  // Parameters

  /** What is recorded per parameter: the name, the annotation when it is a bare name,
      and whether a default belongs to it. */
  datatype ArgInfo = ArgInfo(name: string, typ: Option<string>, hasDefault: bool)

  function AnnotationName(a: Option<PyNode>): Option<string> {
    match a
    case Some(Name(t)) => Some(t)
    case _ => None
  }

  function ArgInfos(ps: seq<Param>): (r: seq<ArgInfo>)
    ensures |r| == |ps|
    ensures forall i :: 0 <= i < |r| ==> r[i] == ArgInfo(ps[i].name, AnnotationName(ps[i].annotation), false)
  {
    if |ps| == 0 then [] else [ArgInfo(ps[0].name, AnnotationName(ps[0].annotation), false)] + ArgInfos(ps[1..])
  }

  /** The default marks as written: default `i` (counting over positional-only and
      plain parameters together) marks plain parameter `n - d + i`, read with Python's
      list indexing, where a negative index counts from the end and one below `-n`
      raises `IndexError`. */
  function MarkAsWritten(flags: seq<bool>, offset: int, i: nat, d: nat): (r: Result<seq<bool>, string>)
    ensures r.Ok? ==> |r.value| == |flags|
    decreases d - i
  {
    if i >= d then Ok(flags)
    else
      var index := offset + i;
      if index < |flags| then
        if index < -|flags| then Err("IndexError: list index out of range")
        else
          var k := if index < 0 then index + |flags| else index;
          MarkAsWritten(flags[k := true], offset, i + 1, d)
      else MarkAsWritten(flags, offset, i + 1, d)
  }

  /** `n` parameters, none marked yet. */
  function NoMarks(n: nat): (r: seq<bool>)
    ensures |r| == n && forall k :: 0 <= k < n ==> !r[k]
  {
    seq(n, k => false)
  }

  function DefaultMarksAsWritten(n: nat, d: nat): Result<seq<bool>, string> {
    MarkAsWritten(NoMarks(n), n - d, 0, d)
  }

  /** The marks the code means: the last `d` of all positional parameters have
      defaults, so plain parameter `k` has one iff `k >= n - d`. */
  function DefaultMarks(n: nat, d: nat): (r: seq<bool>)
    ensures |r| == n
  {
    seq(n, k => k >= n - d)
  }

  /** What the marking loop leaves, in closed form: a flag is set if it was set, or
      if some remaining default points at it directly or through a negative index. */
  lemma {:induction false} MarkAsWrittenMarks(flags: seq<bool>, offset: int, i: nat, d: nat)
    requires i < d ==> offset + i >= -|flags|
    ensures MarkAsWritten(flags, offset, i, d).Ok?
    ensures forall k :: 0 <= k < |flags| ==>
      MarkAsWritten(flags, offset, i, d).value[k] ==
        (flags[k] || (i <= k - offset < d) || (i <= k - |flags| - offset < d))
    decreases d - i
  {
    if i < d {
      var index := offset + i;
      if index < |flags| {
        var k := if index < 0 then index + |flags| else index;
        MarkAsWrittenMarks(flags[k := true], offset, i + 1, d);
      } else {
        MarkAsWrittenMarks(flags, offset, i + 1, d);
      }
    }
  }

  /** The loop as written raises exactly when there are more than twice as many
      defaults as plain parameters, which needs positional-only defaults. */
  lemma {:induction false} AsWrittenFailsIff(n: nat, d: nat)
    ensures DefaultMarksAsWritten(n, d).Err? <==> d > 2 * n
  {
    if d > 2 * n {
      assert MarkAsWritten(NoMarks(n), n - d, 0, d).Err?;
    } else {
      MarkAsWrittenMarks(NoMarks(n), n - d, 0, d);
    }
  }

  /** When the loop as written does not raise, it sets the marks the code means. */
  lemma {:induction false} AsWrittenAgreesWhenItSucceeds(n: nat, d: nat)
    requires d <= 2 * n
    ensures DefaultMarksAsWritten(n, d) == Ok(DefaultMarks(n, d))
  {
    var offset: int := n - d;
    MarkAsWrittenMarks(NoMarks(n), offset, 0, d);
    var r0 := MarkAsWritten(NoMarks(n), offset, 0, d);
    assert r0 == DefaultMarksAsWritten(n, d);
    var r := r0.value;
    forall k | 0 <= k < n
      ensures r[k] == DefaultMarks(n, d)[k]
    {
      assert r[k] == (NoMarks(n)[k] || (0 <= k - offset < d) || (0 <= k - n - offset < d));
    }
    assert r == DefaultMarks(n, d);
  }

  /** `def f(a=0, /)`: one positional-only default, no plain parameter, and the
      loop as written indexes an empty list. */
  lemma PositionalOnlyDefaultRaises()
    ensures DefaultMarksAsWritten(0, 1).Err?
  {
    AsWrittenFailsIff(0, 1);
  }

  /** The corrected marking never raises, and marks exactly the trailing parameters
      that defaults cover. */
  lemma DefaultMarksSpec(n: nat, d: nat)
    ensures |DefaultMarks(n, d)| == n
    ensures forall k :: 0 <= k < n ==> (DefaultMarks(n, d)[k] <==> k + d >= n)
  {
  }

  function WithMarks(infos: seq<ArgInfo>, marks: seq<bool>): (r: seq<ArgInfo>)
    requires |marks| == |infos|
    ensures |r| == |infos|
    ensures forall i :: 0 <= i < |r| ==> r[i] == infos[i].(hasDefault := marks[i])
  {
    seq(|infos|, i requires 0 <= i < |infos| => infos[i].(hasDefault := marks[i]))
  }

  /** The JSON object recorded per parameter: `name`, then `type`, then `has_default`,
      each of the last two only when present. */
  function ArgValue(a: ArgInfo): Value {
    VDict([Entry("name", VStr(a.name))]
      + (if a.typ.Some? then [Entry("type", VStr(a.typ.value))] else [])
      + (if a.hasDefault then [Entry("has_default", VBool(true))] else []))
  }

  function ArgValues(infos: seq<ArgInfo>): (r: seq<Value>)
    ensures |r| == |infos| && forall i :: 0 <= i < |r| ==> r[i] == ArgValue(infos[i])
  {
    seq(|infos|, i requires 0 <= i < |infos| => ArgValue(infos[i]))
  }

  /** Reals never occur in a parameter list, so their rendering is never consulted. */
  function NoReals(r: real): string { "" }

  /** The `args` property: the JSON text of the parameter list, always stored, `[]`
      when there are no plain parameters. */
  function ArgsJson(infos: seq<ArgInfo>): string {
    Encode(VList(ArgValues(infos)), NoReals)
  }

  /** `_parse_function_args`, as written (`fixed` false) or with the intended
      default alignment (`fixed` true). Only plain parameters are listed. */
  function ParseFunctionArgs(st: LState, f: PyNode, id: string, fixed: bool): (r: Run)
    requires f.FunctionDef?
    ensures r.st.relations == st.relations && r.st.file == st.file
    ensures r.st.currentFunction == st.currentFunction && r.st.currentClass == st.currentClass
    ensures r.st.imports == st.imports
    ensures r.failed <==> !fixed && |f.defaults| > 2 * |f.args|
    ensures !r.failed && id in st.nodes.byId ==>
      id in r.st.nodes.byId
      && r.st.nodes.byId[id].props == st.nodes.byId[id].props["args" :=
           VStr(ArgsJson(WithMarks(ArgInfos(f.args), DefaultMarks(|f.args|, |f.defaults|))))]
  {
    var infos := ArgInfos(f.args);
    var marks := if fixed then Ok(DefaultMarks(|infos|, |f.defaults|))
                 else DefaultMarksAsWritten(|infos|, |f.defaults|);
    AsWrittenFailsIff(|infos|, |f.defaults|);
    if marks.Err? then Run(st, true)
    else
      AsWrittenAgreesWhenItSucceeds2(|infos|, |f.defaults|, fixed, marks);
      Run(SetProp(st, id, "args", VStr(ArgsJson(WithMarks(infos, marks.value)))), false)
  }

  lemma AsWrittenAgreesWhenItSucceeds2(n: nat, d: nat, fixed: bool, marks: Result<seq<bool>, string>)
    requires marks == (if fixed then Ok(DefaultMarks(n, d)) else DefaultMarksAsWritten(n, d))
    requires marks.Ok?
    ensures marks.value == DefaultMarks(n, d)
  {
    if !fixed {
      AsWrittenFailsIff(n, d);
      AsWrittenAgreesWhenItSucceeds(n, d);
    }
  }

  /** `self.nodes[id].properties[key] = v`. */
  function SetProp(st: LState, id: string, key: string, v: Value): (r: LState)
    ensures r == st.(nodes := r.nodes)
    ensures r.nodes.byId.Keys == st.nodes.byId.Keys
    ensures id in st.nodes.byId ==> r.nodes.byId[id] == st.nodes.byId[id].(props := st.nodes.byId[id].props[key := v])
    ensures forall k :: k in st.nodes.byId && k != id ==> r.nodes.byId[k] == st.nodes.byId[k]
  {
    if id in st.nodes.byId then
      var n := st.nodes.byId[id];
      st.(nodes := Put(st.nodes, id, n.(props := n.props[key := v])))
    else st
  }

  // ---------------------------------------------------------------------------------
  // Imports

  /** Python truthiness of an optional string. */
  predicate Truthy(s: Option<string>) {
    s.Some? && s.value != ""
  }

  /** `name.asname or name.name`. */
  function AsName(a: Alias): string {
    if Truthy(a.asName) then a.asName.value else a.name
  }

  /** The dotted name an alias stands for: `M.S` under `from M import S`, else `S`. */
  function ImportTarget(m: Option<string>, a: Alias): string {
    if Truthy(m) then m.value + "." + a.name else a.name
  }

  /** The `IMPORTS` relation of one alias: to `Module:<target>`, with `alias` null
      when the local name is the imported one, and `level` for `from` imports. */
  function ImportRelation(file: string, m: Option<string>, a: Alias, level: Option<nat>): (r: Relation)
    ensures r.source == FileId(file) && r.kind == Imports
    ensures r.target == "Module:" + ImportTarget(m, a)
    ensures "alias" in r.props && (r.props["alias"] == VNone <==> AsName(a) == a.name)
  {
    var alias := if AsName(a) != a.name then VStr(AsName(a)) else VNone;
    var props := if level.Some? then map["alias" := alias, "level" := VInt(level.value)] else map["alias" := alias];
    Relation(FileId(file), "Module:" + ImportTarget(m, a), Imports, props)
  }

  /** `_parse_import` over the aliases of one statement (`level` is `None` for a plain
      `import`). */
  function ImportAliases(st: LState, m: Option<string>, names: seq<Alias>, level: Option<nat>): (r: LState)
    ensures r.nodes == st.nodes && r.file == st.file
    ensures r.currentFunction == st.currentFunction && r.currentClass == st.currentClass
    ensures |r.relations| == |st.relations| + |names| && st.relations <= r.relations
    ensures forall i :: 0 <= i < |names| ==>
      r.relations[|st.relations| + i] == ImportRelation(st.file, m, names[i], level)
    ensures forall key :: key in r.imports <==>
      key in st.imports || exists i :: 0 <= i < |names| && AsName(names[i]) == key
    decreases |names|
  {
    if |names| == 0 then st
    else
      var a := names[0];
      var st1 := st.(imports := st.imports[AsName(a) := ImportTarget(m, a)],
                     relations := st.relations + [ImportRelation(st.file, m, a, level)]);
      var r := ImportAliases(st1, m, names[1..], level);
      assert forall i :: 1 <= i < |names| ==> names[1..][i - 1] == names[i];
      r
  }

  /** After an import statement, a local name maps to what the LAST alias binding it
      imports. */
  lemma {:induction false} ImportLastWins(st: LState, m: Option<string>, names: seq<Alias>, level: Option<nat>, i: nat)
    requires i < |names|
    requires forall j :: i < j < |names| ==> AsName(names[j]) != AsName(names[i])
    ensures ImportAliases(st, m, names, level).imports[AsName(names[i])] == ImportTarget(m, names[i])
    decreases |names|
  {
    var a := names[0];
    var st1 := st.(imports := st.imports[AsName(a) := ImportTarget(m, a)],
                   relations := st.relations + [ImportRelation(st.file, m, a, level)]);
    if i == 0 {
      ImportUntouched(st1, m, names[1..], level, AsName(a));
    } else {
      ImportLastWins(st1, m, names[1..], level, i - 1);
    }
  }

  /** A local name no alias binds keeps its entry. */
  lemma {:induction false} ImportUntouched(st: LState, m: Option<string>, names: seq<Alias>, level: Option<nat>, key: string)
    requires key in st.imports
    requires forall j :: 0 <= j < |names| ==> AsName(names[j]) != key
    ensures ImportAliases(st, m, names, level).imports[key] == st.imports[key]
    decreases |names|
  {
    if |names| > 0 {
      var a := names[0];
      var st1 := st.(imports := st.imports[AsName(a) := ImportTarget(m, a)],
                     relations := st.relations + [ImportRelation(st.file, m, a, level)]);
      ImportUntouched(st1, m, names[1..], level, key);
    }
  }

  /** `_parse_import` for either statement form. */
  function ParseImport(st: LState, n: PyNode): (r: LState)
    requires n.Import? || n.ImportFrom?
    ensures r.nodes == st.nodes && r.file == st.file && st.relations <= r.relations
    ensures r.currentFunction == st.currentFunction && r.currentClass == st.currentClass
  {
    if n.Import? then ImportAliases(st, None, n.names, None)
    else ImportAliases(st, n.modName, n.names, Some(n.level))
  }

  // ---------------------------------------------------------------------------------
  // Assignments

  /** The kind a module-walk assignment gets from its context: class attribute when in
      a class but not in a function, local when in a function, global otherwise. */
  function VariableKind(currentClass: Option<string>, currentFunction: Option<string>): Kind {
    if currentClass.Some? && currentFunction.None? then ClassVariable
    else if currentFunction.Some? then LocalVariable
    else GlobalVariable
  }

  /** The owner whose `DEFINES` edge records the variable. */
  function VariableOwner(st: LState): string {
    if st.currentClass.Some? && st.currentFunction.None? then st.currentClass.value
    else if st.currentFunction.Some? then st.currentFunction.value
    else FileId(st.file)
  }

  /** The targets of an assignment that are plain names. */
  function NameTargets(ts: seq<PyNode>): (r: seq<string>)
    ensures forall i :: 0 <= i < |r| ==> Name(r[i]) in ts
  {
    if |ts| == 0 then []
    else (if ts[0].Name? then [ts[0].ident] else []) + NameTargets(ts[1..])
  }

  /** One variable node and its `DEFINES` edge per name target. */
  function DefineVariables(st: LState, names: seq<string>, idKind: Kind, kind: Kind, owner: string,
                           line: nat, endLine: Option<nat>): (r: LState)
    ensures r.file == st.file && r.imports == st.imports
    ensures r.currentFunction == st.currentFunction && r.currentClass == st.currentClass
    ensures r.relations == st.relations + DefineEdges(owner, idKind, st.file, names, line)
    ensures r.nodes.byId.Keys >= st.nodes.byId.Keys
    ensures forall id :: HasKind(st.nodes, id, kind) ==> HasKind(r.nodes, id, kind)
    ensures forall i :: 0 <= i < |names| ==> HasKind(r.nodes, NodeId(idKind, st.file, names[i], line), kind)
    decreases |names|
  {
    if |names| == 0 then st
    else
      var id := NodeId(idKind, st.file, names[0], line);
      var st1 := st.(nodes := Put(st.nodes, id, MakeNode(id, kind, names[0], st.file, line, endLine, map[])),
                     relations := st.relations + [Relation(owner, id, Defines, map[])]);
      var r := DefineVariables(st1, names[1..], idKind, kind, owner, line, endLine);
      assert forall i :: 1 <= i < |names| ==> names[1..][i - 1] == names[i];
      assert r.relations == st.relations + DefineEdges(owner, idKind, st.file, names, line) by {
        AppendAssoc(st.relations, [Relation(owner, id, Defines, map[])], DefineEdges(owner, idKind, st.file, names[1..], line));
      }
      r
  }

  /** `_parse_assignment`: ids use the `Variable` prefix whatever the kind. */
  function ParseAssignment(st: LState, n: PyNode): (r: LState)
    requires n.Assign?
    ensures r.file == st.file && r.currentFunction == st.currentFunction && r.currentClass == st.currentClass
    ensures r.imports == st.imports && st.relations <= r.relations
    ensures r.nodes.byId.Keys >= st.nodes.byId.Keys
    ensures var names := NameTargets(n.targets);
      r.relations == st.relations + DefineEdges(VariableOwner(st), Variable, st.file, names, n.line)
      && forall i :: 0 <= i < |names| ==>
        HasKind(r.nodes, NodeId(Variable, st.file, names[i], n.line), VariableKind(st.currentClass, st.currentFunction))
  {
    DefineVariables(st, NameTargets(n.targets), Variable, VariableKind(st.currentClass, st.currentFunction),
                    VariableOwner(st), n.line, n.endLine)
  }

  /** `_parse_class_attribute`: ids and kind `ClassVariable`, owned by the class. */
  function ParseClassAttribute(st: LState, classId: string, n: PyNode): (r: LState)
    requires n.Assign?
    ensures r.file == st.file && r.currentFunction == st.currentFunction && r.currentClass == st.currentClass
    ensures r.imports == st.imports && st.relations <= r.relations
    ensures r.nodes.byId.Keys >= st.nodes.byId.Keys
    ensures var names := NameTargets(n.targets);
      r.relations == st.relations + DefineEdges(classId, ClassVariable, st.file, names, n.line)
      && forall i :: 0 <= i < |names| ==> HasKind(r.nodes, NodeId(ClassVariable, st.file, names[i], n.line), ClassVariable)
  {
    DefineVariables(st, NameTargets(n.targets), ClassVariable, ClassVariable, classId, n.line, n.endLine)
  }

  // ---------------------------------------------------------------------------------
  // Calls

  /** The relation `_find_function_calls` emits for one call expression, if any: a
      call of a bare name goes to the same-file function of that name, a call of
      `obj.m` to the same-file method `m`, both assumed at line 0. */
  function CallRelation(st: LState, n: PyNode): Option<Relation> {
    if st.currentFunction.None? || !n.Call? then None
    else match n.func
      case Name(f) => Some(Relation(st.currentFunction.value, NodeId(Function, st.file, f, 0), Calls, map[]))
      case Attribute(Name(o), m) =>
        Some(Relation(st.currentFunction.value, NodeId(Method, st.file, m, 0), Calls, map["object" := VStr(o)]))
      case _ => None
  }

  /** `_find_function_calls`: a pre-order walk over every node below `n`, `n` included,
      descending into nested definitions as well. */
  function FindCalls(st: LState, n: PyNode): (r: LState)
    ensures r == st.(relations := r.relations) && st.relations <= r.relations
    ensures st.currentFunction.None? ==> r == st
    ensures forall i :: |st.relations| <= i < |r.relations| ==>
      r.relations[i].kind == Calls && r.relations[i].source == st.currentFunction.value
    decreases n, 2
  {
    var here := CallRelation(st, n);
    var st1 := if here.Some? then st.(relations := st.relations + [here.value]) else st;
    match n
    case ClassDef(_, _, _, _, _, _, _) => FindCallsClass(st1, n)
    case FunctionDef(_, _, _, _, _, _, _, _, _, _) => FindCallsDef(st1, n)
    case Import(_) => st1
    case ImportFrom(_, _, _) => st1
    case Assign(targets, value, _, _) => FindCalls(FindCallsIn(st1, targets), value)
    case Call(func, callArgs) => FindCallsIn(FindCalls(st1, func), callArgs)
    case Name(_) => st1
    case Attribute(obj, _) => FindCalls(st1, obj)
    case Str(_) => st1
    case Expr(e) => FindCalls(st1, e)
    case Other(children) => FindCallsIn(st1, children)
  }

  /** The children of a class definition: bases, keywords, body, decorators. */
  function FindCallsClass(st: LState, n: PyNode): (r: LState)
    requires n.ClassDef?
    ensures r == st.(relations := r.relations) && st.relations <= r.relations
    ensures st.currentFunction.None? ==> r == st
    ensures forall i :: |st.relations| <= i < |r.relations| ==>
      r.relations[i].kind == Calls && r.relations[i].source == st.currentFunction.value
    decreases n, 1
  {
    var st1 := FindCallsIn(st, n.bases);
    var st2 := FindCallsIn(st1, n.keywords);
    var st3 := FindCallsIn(st2, n.body);
    FindCallsIn(st3, n.decorators)
  }

  /** The children of a function definition: the signature, then body, decorators
      and return annotation. */
  function FindCallsDef(st: LState, n: PyNode): (r: LState)
    requires n.FunctionDef?
    ensures r == st.(relations := r.relations) && st.relations <= r.relations
    ensures st.currentFunction.None? ==> r == st
    ensures forall i :: |st.relations| <= i < |r.relations| ==>
      r.relations[i].kind == Calls && r.relations[i].source == st.currentFunction.value
    decreases n, 1
  {
    var st1 := FindCallsParams(st, n.posOnly);
    var st2 := FindCallsParams(st1, n.args);
    var st3 := FindCallsIn(st2, n.argExtras);
    var st4 := FindCallsIn(st3, n.defaults);
    var st5 := FindCallsIn(st4, n.body);
    var st6 := FindCallsIn(st5, n.decorators);
    if n.result.Some? then FindCalls(st6, n.result.value) else st6
  }

  function FindCallsIn(st: LState, ns: seq<PyNode>): (r: LState)
    ensures r == st.(relations := r.relations) && st.relations <= r.relations
    ensures st.currentFunction.None? ==> r == st
    ensures forall i :: |st.relations| <= i < |r.relations| ==>
      r.relations[i].kind == Calls && r.relations[i].source == st.currentFunction.value
    decreases ns, 0
  {
    if |ns| == 0 then st else FindCallsIn(FindCalls(st, ns[0]), ns[1..])
  }

  /** The annotations of a parameter list, in order. */
  function FindCallsParams(st: LState, ps: seq<Param>): (r: LState)
    ensures r == st.(relations := r.relations) && st.relations <= r.relations
    ensures st.currentFunction.None? ==> r == st
    ensures forall i :: |st.relations| <= i < |r.relations| ==>
      r.relations[i].kind == Calls && r.relations[i].source == st.currentFunction.value
    decreases ps, 0
  {
    if |ps| == 0 then st
    else
      var st1 := if ps[0].annotation.Some? then FindCalls(st, ps[0].annotation.value) else st;
      FindCallsParams(st1, ps[1..])
  }

  /** A call found directly in a function body is reported from that function. */
  lemma CallOfNameReported(st: LState, f: string, callArgs: seq<PyNode>)
    requires st.currentFunction.Some?
    ensures var r := FindCalls(st, Call(Name(f), callArgs));
      |r.relations| > |st.relations|
      && r.relations[|st.relations|] == Relation(st.currentFunction.value, NodeId(Function, st.file, f, 0), Calls, map[])
  {
  }

  // ---------------------------------------------------------------------------------
  // Definitions

  /** The property set on a function or method node before its body is read. */
  function IsMethodProps(isMethod: bool): map<string, Value> {
    map["is_method" := VBool(isMethod)]
  }

  /** The body of a function or method, with the function as context: a statement
      that is a string expression becomes the docstring (the last one wins), and
      every statement is searched for calls. */
  function ParseBody(st: LState, id: string, body: seq<PyNode>): (r: LState)
    ensures r == st.(nodes := r.nodes, relations := r.relations) && st.relations <= r.relations
    ensures r.nodes.byId.Keys == st.nodes.byId.Keys
    decreases |body|
  {
    if |body| == 0 then st
    else
      var st1 := match body[0]
        case Expr(Str(s)) => SetProp(st, id, "docstring", VStr(s))
        case _ => st;
      ParseBody(FindCalls(st1, body[0]), id, body[1..])
  }

  /** The common part of `_parse_function` and `_parse_method`: the node, the edge from
      its owner, then, with the new id as the current function, the parameters and the
      body; the previous function is restored unless the parameter step raised. */
  function ParseDefinition(st: LState, f: PyNode, kind: Kind, ownerEdge: Relation, fixed: bool): (r: Run)
    requires f.FunctionDef?
    ensures Grows(st, r.st) && r.st.imports == st.imports && r.st.nodes.byId.Keys >= st.nodes.byId.Keys
    ensures |r.st.relations| > |st.relations| && r.st.relations[|st.relations|] == ownerEdge
    ensures NodeId(kind, st.file, f.name, f.line) in r.st.nodes.byId
    ensures r.failed <==> !fixed && |f.defaults| > 2 * |f.args|
    ensures !r.failed ==> r.st.currentFunction == st.currentFunction && r.st.currentClass == st.currentClass
    ensures r.failed ==> r.st.currentFunction == Some(NodeId(kind, st.file, f.name, f.line)) && r.st.currentClass == st.currentClass
  {
    var id := NodeId(kind, st.file, f.name, f.line);
    var node := MakeNode(id, kind, f.name, st.file, f.line, f.endLine, IsMethodProps(kind == Method));
    var st1 := st.(nodes := Put(st.nodes, id, node), relations := st.relations + [ownerEdge]);
    var st2 := st1.(currentFunction := Some(id));
    var a := ParseFunctionArgs(st2, f, id, fixed);
    if a.failed then a
    else
      var st3 := ParseBody(a.st, id, f.body);
      Run(st3.(currentFunction := st.currentFunction), false)
  }

  /** `_parse_function`: a `Function` node contained in the file. */
  function ParseFunction(st: LState, f: PyNode, fixed: bool): (r: Run)
    requires f.FunctionDef?
    ensures Grows(st, r.st) && r.st.imports == st.imports && r.st.nodes.byId.Keys >= st.nodes.byId.Keys
    ensures var id := NodeId(Function, st.file, f.name, f.line);
      id in r.st.nodes.byId && |r.st.relations| > |st.relations|
      && r.st.relations[|st.relations|] == Relation(FileId(st.file), id, Contains, map[])
    ensures r.failed <==> !fixed && |f.defaults| > 2 * |f.args|
    ensures !r.failed ==> r.st.currentFunction == st.currentFunction && r.st.currentClass == st.currentClass
  {
    var id := NodeId(Function, st.file, f.name, f.line);
    ParseDefinition(st, f, Function, Relation(FileId(st.file), id, Contains, map[]), fixed)
  }

  /** `_parse_method`: a `Method` node defined by the class. */
  function ParseMethod(st: LState, classId: string, f: PyNode, fixed: bool): (r: Run)
    requires f.FunctionDef?
    ensures Grows(st, r.st) && r.st.imports == st.imports && r.st.nodes.byId.Keys >= st.nodes.byId.Keys
    ensures var id := NodeId(Method, st.file, f.name, f.line);
      id in r.st.nodes.byId && |r.st.relations| > |st.relations|
      && r.st.relations[|st.relations|] == Relation(classId, id, Defines, map[])
    ensures r.failed <==> !fixed && |f.defaults| > 2 * |f.args|
    ensures !r.failed ==> r.st.currentFunction == st.currentFunction && r.st.currentClass == st.currentClass
  {
    var id := NodeId(Method, st.file, f.name, f.line);
    ParseDefinition(st, f, Method, Relation(classId, id, Defines, map[]), fixed)
  }

  /** The `EXTENDS` edges of a class: one per base that is a bare name, to the
      same-file class of that name (or of what the name was imported as), assumed
      at line 0. */
  function BaseEdges(st: LState, classId: string, bases: seq<PyNode>): (r: seq<Relation>)
    ensures |r| <= |bases|
    ensures forall i :: 0 <= i < |r| ==> r[i].source == classId && r[i].kind == Extends
  {
    if |bases| == 0 then []
    else
      var here := match bases[0]
        case Name(b) =>
          var target := if b in st.imports then st.imports[b] else b;
          [Relation(classId, NodeId(Class, st.file, target, 0), Extends, map[])]
        case _ => [];
      here + BaseEdges(st, classId, bases[1..])
  }

  /** `_parse_class`: the class node, `CONTAINS` from the file, `EXTENDS` per base,
      then the methods and class attributes of its body with the class as context.
      Other statements of the body, nested classes included, are not visited. */
  function ParseClass(st: LState, c: PyNode, fixed: bool): (r: Run)
    requires c.ClassDef?
    ensures Grows(st, r.st) && r.st.imports == st.imports && r.st.nodes.byId.Keys >= st.nodes.byId.Keys
    ensures var id := NodeId(Class, st.file, c.name, c.line);
      |r.st.relations| > |st.relations|
      && r.st.relations[|st.relations|] == Relation(FileId(st.file), id, Contains, map[])
      && id in r.st.nodes.byId
    ensures fixed ==> !r.failed
    ensures !r.failed ==> r.st.currentFunction == st.currentFunction && r.st.currentClass == st.currentClass
  {
    var id := NodeId(Class, st.file, c.name, c.line);
    var st1 := st.(nodes := Put(st.nodes, id, MakeNode(id, Class, c.name, st.file, c.line, c.endLine, map[])),
                   relations := st.relations + [Relation(FileId(st.file), id, Contains, map[])]);
    var st2 := st1.(relations := st1.relations + BaseEdges(st1, id, c.bases), currentClass := Some(id));
    var b := ParseClassBody(st2, id, c.body, fixed);
    if b.failed then b else Run(b.st.(currentClass := st.currentClass), false)
  }

  function ParseClassBody(st: LState, classId: string, body: seq<PyNode>, fixed: bool): (r: Run)
    ensures Grows(st, r.st) && r.st.imports == st.imports
    ensures fixed ==> !r.failed
    ensures !r.failed ==> r.st.currentFunction == st.currentFunction && r.st.currentClass == st.currentClass
    ensures r.st.nodes.byId.Keys >= st.nodes.byId.Keys
    decreases |body|
  {
    if |body| == 0 then Run(st, false)
    else
      var one := match body[0]
        case FunctionDef(_, _, _, _, _, _, _, _, _, _) => ParseMethod(st, classId, body[0], fixed)
        case Assign(_, _, _, _) => Run(ParseClassAttribute(st, classId, body[0]), false)
        case _ => Run(st, false);
      if one.failed then one else ParseClassBody(one.st, classId, body[1..], fixed)
  }

  // ---------------------------------------------------------------------------------
  // The module walk

  /** `_parse_ast` on one node: definitions, imports and assignments are handled where
      they stand; any other node is looked through, so definitions nested in `if`,
      `try`, `with` or `async def` are found as if at module level. */
  function ParseNode(st: LState, n: PyNode, fixed: bool): (r: Run)
    ensures Grows(st, r.st) && r.st.nodes.byId.Keys >= st.nodes.byId.Keys
    ensures fixed ==> !r.failed
    ensures !r.failed ==> r.st.currentFunction == st.currentFunction && r.st.currentClass == st.currentClass
    decreases n, 1
  {
    match n
    case ClassDef(_, _, _, _, _, _, _) => ParseClass(st, n, fixed)
    case FunctionDef(_, _, _, _, _, _, _, _, _, _) => ParseFunction(st, n, fixed)
    case Import(_) => Run(ParseImport(st, n), false)
    case ImportFrom(_, _, _) => Run(ParseImport(st, n), false)
    case Assign(_, _, _, _) => Run(ParseAssignment(st, n), false)
    case Call(func, callArgs) =>
      var a := ParseNode(st, func, fixed);
      if a.failed then a else ParseNodes(a.st, callArgs, fixed)
    case Name(_) => Run(st, false)
    case Attribute(obj, _) => ParseNode(st, obj, fixed)
    case Str(_) => Run(st, false)
    case Expr(e) => ParseNode(st, e, fixed)
    case Other(children) => ParseNodes(st, children, fixed)
  }

  function ParseNodes(st: LState, ns: seq<PyNode>, fixed: bool): (r: Run)
    ensures Grows(st, r.st) && r.st.nodes.byId.Keys >= st.nodes.byId.Keys
    ensures fixed ==> !r.failed
    ensures !r.failed ==> r.st.currentFunction == st.currentFunction && r.st.currentClass == st.currentClass
    decreases ns, 0
  {
    if |ns| == 0 then Run(st, false)
    else
      var a := ParseNode(st, ns[0], fixed);
      if a.failed then a else ParseNodes(a.st, ns[1..], fixed)
  }

  /** `parse_file`: the file's module body, or `None` when reading or parsing the file
      failed. The file and alias table are reset; the enclosing class and function are
      not. On success the result is everything the parser holds, earlier files
      included; on any exception it is empty, while the parser keeps what it did. */
  function ParseFile(st: LState, path: string, tree: Option<seq<PyNode>>, fixed: bool)
    : (r: (LState, (NodeMap, seq<Relation>)))
    ensures tree.None? ==> r.1 == (NoNodes(), [])
    ensures r.0.file == path && st.relations <= r.0.relations && st.nodes.byId.Keys <= r.0.nodes.byId.Keys
    ensures tree.Some? ==> FileId(path) in r.0.nodes.byId
    ensures tree.Some? && !ParseNodes(StartFile(st, path), tree.value, fixed).failed ==>
      r.1 == (r.0.nodes, r.0.relations) && FileId(path) in r.0.nodes.byId
    ensures tree.Some? && ParseNodes(StartFile(st, path), tree.value, fixed).failed ==> r.1 == (NoNodes(), [])
  {
    var st0 := st.(file := path, imports := map[]);
    if tree.None? then (st0, (NoNodes(), []))
    else
      var a := ParseNodes(StartFile(st, path), tree.value, fixed);
      if a.failed then (a.st, (NoNodes(), []))
      else (a.st, (a.st.nodes, a.st.relations))
  }

  /** The state once the file node is recorded. */
  function StartFile(st: LState, path: string): (r: LState)
    ensures r.file == path && r.relations == st.relations && FileId(path) in r.nodes.byId
    ensures st.nodes.byId.Keys <= r.nodes.byId.Keys
  {
    st.(file := path, imports := map[], nodes := Put(st.nodes, FileId(path), FileNode(path)))
  }

  /** The walked files whose names end in `.py`, in walk order. */
  function PythonFiles(files: seq<(string, Option<seq<PyNode>>)>): (r: seq<(string, Option<seq<PyNode>>)>)
    ensures forall x :: x in r <==> x in files && EndsWith(x.0, ".py")
    decreases |files|
  {
    if |files| == 0 then []
    else
      var rest := files[1..];
      assert forall x :: x in files <==> x == files[0] || x in rest;
      (if EndsWith(files[0].0, ".py") then [files[0]] else []) + PythonFiles(rest)
  }

  /** Filtering distributes over concatenation. */
  lemma {:induction false} PythonFilesAppend(a: seq<(string, Option<seq<PyNode>>)>, b: seq<(string, Option<seq<PyNode>>)>)
    ensures PythonFiles(a + b) == PythonFiles(a) + PythonFiles(b)
    decreases |a|
  {
    if |a| > 0 {
      assert (a + b)[1..] == a[1..] + b;
      PythonFilesAppend(a[1..], b);
    } else {
      assert a + b == b;
    }
  }

  /** `parse_directory`: nodes and relations are reset, the walked files whose names
      end in `.py` are read in order, and the parser's whole graph is returned,
      including what failed files left behind. With no such file the graph is empty;
      otherwise the last one is current, and every one that could be read has its
      file node. */
  function ParseDirectory(st: LState, files: seq<(string, Option<seq<PyNode>>)>, fixed: bool): (r: LState)
    ensures var py := PythonFiles(files);
      && (|py| == 0 ==> r.nodes == NoNodes() && r.relations == [])
      && (|py| > 0 ==> r.file == py[|py| - 1].0)
    ensures forall x :: x in files && EndsWith(x.0, ".py") && x.1.Some? ==> FileId(x.0) in r.nodes.byId
  {
    var py := PythonFiles(files);
    var r := ParseFiles(st.(nodes := NoNodes(), relations := []), py, fixed);
    assert forall x :: x in files && EndsWith(x.0, ".py") && x.1.Some? ==> FileId(x.0) in r.nodes.byId by {
      forall x | x in files && EndsWith(x.0, ".py") && x.1.Some?
        ensures FileId(x.0) in r.nodes.byId
      {
        var i :| 0 <= i < |py| && py[i] == x;
      }
    }
    r
  }

  /** A walked file whose name does not end in `.py` makes no difference, wherever it
      comes in the walk. */
  lemma NonPythonFileIgnored(st: LState, a: seq<(string, Option<seq<PyNode>>)>, f: (string, Option<seq<PyNode>>),
                             b: seq<(string, Option<seq<PyNode>>)>, fixed: bool)
    requires !EndsWith(f.0, ".py")
    ensures ParseDirectory(st, a + [f] + b, fixed) == ParseDirectory(st, a + b, fixed)
  {
    SkipNonPython(a, f, b);
  }

  lemma SkipNonPython(a: seq<(string, Option<seq<PyNode>>)>, f: (string, Option<seq<PyNode>>),
                      b: seq<(string, Option<seq<PyNode>>)>)
    requires !EndsWith(f.0, ".py")
    ensures PythonFiles(a + [f] + b) == PythonFiles(a + b)
  {
    PythonFilesAppend(a + [f], b);
    PythonFilesAppend(a, [f]);
    PythonFilesAppend(a, b);
    assert PythonFiles([f]) == [] by {
      assert [f][1..] == [];
    }
  }

  function ParseFiles(st: LState, files: seq<(string, Option<seq<PyNode>>)>, fixed: bool): (r: LState)
    ensures st.relations <= r.relations && st.nodes.byId.Keys <= r.nodes.byId.Keys
    ensures |files| > 0 ==> r.file == files[|files| - 1].0
    ensures |files| == 0 ==> r == st
    ensures forall i :: 0 <= i < |files| && files[i].1.Some? ==> FileId(files[i].0) in r.nodes.byId
    decreases |files|
  {
    if |files| == 0 then st
    else
      var rest := files[1..];
      assert |rest| > 0 ==> rest[|rest| - 1] == files[|files| - 1];
      ParseFiles(NextFile(st, files[0].0, files[0].1, fixed), rest, fixed)
  }

  /** The parser's state after one more file. */
  function NextFile(st: LState, path: string, tree: Option<seq<PyNode>>, fixed: bool): (r: LState)
    ensures r.file == path && st.relations <= r.relations && st.nodes.byId.Keys <= r.nodes.byId.Keys
    ensures tree.Some? ==> FileId(path) in r.nodes.byId
  {
    ParseFile(st, path, tree, fixed).0
  }

  /** With the corrected parameter step, a walk from a clean context never raises and
      every assignment it reaches is a global variable defined by the file. */
  lemma CleanWalkMakesGlobals(st: LState, a: PyNode)
    requires a.Assign? && st.currentClass.None? && st.currentFunction.None?
    ensures var r := ParseNode(st, a, true);
      !r.failed
      && r.st.relations == st.relations + DefineEdges(FileId(st.file), Variable, st.file, NameTargets(a.targets), a.line)
      && forall i :: 0 <= i < |NameTargets(a.targets)| ==>
        HasKind(r.st.nodes, NodeId(Variable, st.file, NameTargets(a.targets)[i], a.line), GlobalVariable)
  {
    ParseNodeAssign(st, a, true);
    assert VariableKind(st.currentClass, st.currentFunction) == GlobalVariable;
    assert VariableOwner(st) == FileId(st.file);
  }

  /** As written, a method whose positional-only defaults outnumber the rest makes the
      file fail with the method still the current function and its class still the
      current class: the next file's module-level assignments become local variables
      of that method. */
  lemma {:induction false} FailureLeavesStaleContext(st: LState, path: string, other: string, m: PyNode, x: string, line: nat)
    requires st.currentClass.None? && st.currentFunction.None?
    requires m == FunctionDef("m", [Param("a", None)], [], [], [Str("0")], [], [], None, 2, None)
    ensures var c := ClassDef("C", [], [], [m], [], 1, None);
      var r1 := ParseFile(st, path, Some([c]), false);
      var s := r1.0;
      r1.1 == (NoNodes(), [])
      && s.currentFunction == Some(NodeId(Method, path, "m", 2))
      && var r2 := ParseNode(StartFile(s, other), Assign([Name(x)], Str(""), line, None), false);
         HasKind(r2.st.nodes, NodeId(Variable, other, x, line), LocalVariable)
  {
    var c := ClassDef("C", [], [], [m], [], 1, None);
    var s0 := StartFile(st, path);
    var cid := NodeId(Class, path, "C", 1);
    var st1 := s0.(nodes := Put(s0.nodes, cid, MakeNode(cid, Class, "C", path, 1, None, map[])),
                   relations := s0.relations + [Relation(FileId(path), cid, Contains, map[])]);
    var st2 := st1.(relations := st1.relations + BaseEdges(st1, cid, []), currentClass := Some(cid));
    var mr := ParseMethod(st2, cid, m, false);
    assert mr.failed && mr.st.currentClass == Some(cid);
    assert ParseClassBody(st2, cid, [m], false) == mr;
    assert ParseClass(s0, c, false) == mr;
    assert ParseNodes(s0, [c], false) == mr;
    var s := mr.st;
    assert ParseFile(st, path, Some([c]), false) == (s, (NoNodes(), []));
    var a := Assign([Name(x)], Str(""), line, None);
    assert NameTargets(a.targets) == [x];
    StaleFunctionMakesLocals(StartFile(s, other), a, false);
  }

  lemma ParseNodeAssign(st: LState, a: PyNode, fixed: bool)
    requires a.Assign?
    ensures ParseNode(st, a, fixed) == Run(ParseAssignment(st, a), false)
  {
  }

  /** While a function is current, every assignment the module walk reaches is
      recorded as a local variable of that function. */
  lemma StaleFunctionMakesLocals(st: LState, a: PyNode, fixed: bool)
    requires a.Assign? && st.currentFunction.Some?
    ensures var r := ParseNode(st, a, fixed);
      r.st.relations == st.relations + DefineEdges(st.currentFunction.value, Variable, st.file, NameTargets(a.targets), a.line)
      && forall i :: 0 <= i < |NameTargets(a.targets)| ==>
        HasKind(r.st.nodes, NodeId(Variable, st.file, NameTargets(a.targets)[i], a.line), LocalVariable)
  {
    ParseNodeAssign(st, a, fixed);
  }

  /** The corrected parser's walk never raises, so a file it can read always yields
      its graph. */
  lemma FixedNeverFails(st: LState, path: string, tree: seq<PyNode>)
    ensures ParseFile(st, path, Some(tree), true).1 == (ParseFile(st, path, Some(tree), true).0.nodes,
                                                       ParseFile(st, path, Some(tree), true).0.relations)
  {
  }
}
