/** The ast-grep Python extractor (`PythonAdapter`, python_adapter.py): imports, top-level
    classes with their methods and attributes, top-level functions, parameters, calls and
    module-level variables, read from a tree-sitter tree. A reference through a name the
    file imported becomes a pending reference; any other reference becomes an edge to a
    same-file id ending in `:0`. Every edge is appended directly, past the dedup set. */
module PythonAdapter {

  import opened Wrappers
  import opened Text
  import opened Schema
  import opened Syntax
  import opened AdapterState
  import Json

  /** The adapter: the shared accumulator, the file being read, the ids of the enclosing
      class and function, and the file's alias table (alias to dotted path). */
  datatype PState = PState(
    st: State,
    file: string,
    currentClass: Option<string>,
    currentFunction: Option<string>,
    imports: map<string, string>)

  /** A newly constructed adapter. */
  function NewAdapter(): PState {
    PState(Fresh(), "", None, None, map[])
  }

  /** What every step of the walk keeps: the file, the alias table and the module-to-file
      map stay, relations and pending references only grow at the end, and no node id is
      lost. */
  ghost predicate Grows(a: PState, b: PState) {
    && a.file == b.file && a.imports == b.imports
    && a.st.relations <= b.st.relations && a.st.pending <= b.st.pending
    && a.st.nodes.byId.Keys <= b.st.nodes.byId.Keys && a.st.moduleToFile == b.st.moduleToFile
  }

  // ---------------------------------------------------------------------------------
  // Imports

  /** The name a child of `import ...` binds: a dotted name binds itself, `X as Y` binds
      `Y` to `X`; both record an `IMPORTS_MODULE` reference whose module is the first
      dotted segment of `X`. */
  function ModuleBinding(fileId: string, c: Tree): Option<Binding> {
    if c.kind == "dotted_name" then
      Some(Binding(c.text, c.text, ModuleImport(fileId, FirstSegment(c.text, '.'), c.text, Some(c.text))))
    else if c.kind == "aliased_import" && Field(c, "name").Some? && Field(c, "alias").Some? then
      var name := Field(c, "name").value.text;
      var alias := Field(c, "alias").value.text;
      Some(Binding(alias, name, ModuleImport(fileId, FirstSegment(name, '.'), name, Some(alias))))
    else None
  }

  /** A binding that records the module import of its own target under its own alias. */
  predicate IsModuleBinding(fileId: string, b: Binding) {
    b.ref == ModuleImport(fileId, FirstSegment(b.target, '.'), b.target, Some(b.alias))
  }

  /** The bindings of the children of one `import` statement, in order. */
  function ModuleBindings(fileId: string, cs: seq<Tree>): (r: seq<Binding>)
    ensures |r| <= |cs|
    ensures forall i :: 0 <= i < |r| ==> IsModuleBinding(fileId, r[i])
    decreases |cs|
  {
    if |cs| == 0 then []
    else
      (match ModuleBinding(fileId, cs[0]) case Some(b) => [b] case None => [])
      + ModuleBindings(fileId, cs[1..])
  }

  /** `from M import S`: the alias table maps to `M.S`, or to `S` alone when the module
      text is missing or empty. */
  function FromTarget(m: Option<string>, symbol: string): string {
    if m.Some? && m.value != "" then m.value + "." + symbol else symbol
  }

  /** The name a child of `from M import ...` binds. Every `dotted_name` child counts,
      the statement's own module name included. */
  function SymbolBinding(fileId: string, m: Option<string>, c: Tree): Option<Binding> {
    if c.kind == "dotted_name" then
      Some(Binding(c.text, FromTarget(m, c.text), SymbolImport(fileId, m, c.text, c.text)))
    else if c.kind == "aliased_import" && Field(c, "name").Some? && Field(c, "alias").Some? then
      var name := Field(c, "name").value.text;
      var alias := Field(c, "alias").value.text;
      Some(Binding(alias, FromTarget(m, name), SymbolImport(fileId, m, name, alias)))
    else None
  }

  /** A binding whose reference names the imported symbol, the module it came from and
      the alias, and whose table entry is the symbol qualified by that module. */
  predicate IsSymbolBinding(fileId: string, m: Option<string>, b: Binding) {
    && b.ref.SymbolImport? && b.ref.sourceId == fileId && b.ref.fromModule == m
    && b.ref.asName == b.alias && b.target == FromTarget(m, b.ref.symbol)
  }

  /** The bindings of the children of one `from` statement, in order. */
  function SymbolBindings(fileId: string, m: Option<string>, cs: seq<Tree>): (r: seq<Binding>)
    ensures |r| <= |cs|
    ensures forall i :: 0 <= i < |r| ==> IsSymbolBinding(fileId, m, r[i])
    decreases |cs|
  {
    if |cs| == 0 then []
    else
      (match SymbolBinding(fileId, m, cs[0]) case Some(b) => [b] case None => [])
      + SymbolBindings(fileId, m, cs[1..])
  }

  /** Each dotted name of an `import` statement binds itself. */
  lemma {:induction false} DottedNameBindsItself(fileId: string, cs: seq<Tree>, i: nat)
    requires i < |cs| && cs[i].kind == "dotted_name"
    ensures var x := cs[i].text;
      Binding(x, x, ModuleImport(fileId, FirstSegment(x, '.'), x, Some(x))) in ModuleBindings(fileId, cs)
    decreases |cs|
  {
    if i > 0 {
      DottedNameBindsItself(fileId, cs[1..], i - 1);
      assert cs[1..][i - 1] == cs[i];
    }
  }

  /** Each `X as Y` of an `import` statement binds `Y` to `X`. */
  lemma {:induction false} AliasedImportBindsAlias(fileId: string, cs: seq<Tree>, i: nat)
    requires i < |cs| && cs[i].kind == "aliased_import"
    requires Field(cs[i], "name").Some? && Field(cs[i], "alias").Some?
    ensures var x := Field(cs[i], "name").value.text;
      var y := Field(cs[i], "alias").value.text;
      Binding(y, x, ModuleImport(fileId, FirstSegment(x, '.'), x, Some(y))) in ModuleBindings(fileId, cs)
    decreases |cs|
  {
    if i > 0 {
      AliasedImportBindsAlias(fileId, cs[1..], i - 1);
      assert cs[1..][i - 1] == cs[i];
    }
  }

  /** Each imported symbol of a `from` statement is bound, under its alias when it has
      one, to the symbol qualified by the module. */
  lemma {:induction false} FromImportBindsSymbol(fileId: string, m: Option<string>, cs: seq<Tree>, i: nat)
    requires i < |cs| && cs[i].kind == "aliased_import"
    requires Field(cs[i], "name").Some? && Field(cs[i], "alias").Some?
    ensures var s := Field(cs[i], "name").value.text;
      var a := Field(cs[i], "alias").value.text;
      Binding(a, FromTarget(m, s), SymbolImport(fileId, m, s, a)) in SymbolBindings(fileId, m, cs)
    decreases |cs|
  {
    if i > 0 {
      FromImportBindsSymbol(fileId, m, cs[1..], i - 1);
      assert cs[1..][i - 1] == cs[i];
    }
  }

  /** In `from m import s` the module's own `dotted_name` child is read as an imported
      symbol too: the alias table maps `m` to `m.m`, and a pending `IMPORTS_SYMBOL`
      for `m` precedes the one for `s`. */
  lemma ModuleNameAlsoBound(fileId: string, m: string, s: string, line: nat)
    requires m != ""
    ensures var mn := Tree("dotted_name", m, map[], [], line, line);
      var sn := Tree("dotted_name", s, map[], [], line, line);
      SymbolBindings(fileId, Some(m), [mn, sn]) ==
        [Binding(m, m + "." + m, SymbolImport(fileId, Some(m), m, m)),
         Binding(s, m + "." + s, SymbolImport(fileId, Some(m), s, s))]
  {
    var mn := Tree("dotted_name", m, map[], [], line, line);
    var sn := Tree("dotted_name", s, map[], [], line, line);
    assert [mn, sn][1..] == [sn];
  }

  /** The text of the `module_name` field of a `from` statement. */
  function FromModule(n: Tree): Option<string> {
    match Field(n, "module_name")
    case Some(mn) => Some(mn.text)
    case None => None
  }

  /** The bindings of the `import` statements found, in order. */
  function ModuleHitsBindings(fileId: string, hits: seq<Hit>): (r: seq<Binding>)
    ensures forall i :: 0 <= i < |r| ==> IsModuleBinding(fileId, r[i])
    decreases |hits|
  {
    if |hits| == 0 then []
    else ModuleBindings(fileId, hits[0].node.children) + ModuleHitsBindings(fileId, hits[1..])
  }

  /** The bindings of the `from` statements found, in order. */
  function SymbolHitsBindings(fileId: string, hits: seq<Hit>): (r: seq<Binding>)
    ensures forall i :: 0 <= i < |r| ==> r[i].ref.SymbolImport? && r[i].ref.sourceId == fileId
    decreases |hits|
  {
    if |hits| == 0 then []
    else
      var m := FromModule(hits[0].node);
      var here := SymbolBindings(fileId, m, hits[0].node.children);
      assert forall i :: 0 <= i < |here| ==> IsSymbolBinding(fileId, m, here[i]);
      here + SymbolHitsBindings(fileId, hits[1..])
  }

  /** A pending `IMPORTS_MODULE` or `IMPORTS_SYMBOL` reference from the file node. */
  predicate ImportRef(fileId: string, p: Pending) {
    p.sourceId == fileId && (p.ModuleImport? || p.SymbolImport?)
  }

  /** Every binding of a file: all `import` statements first, then all `from` statements. */
  function ImportBindings(fileId: string, root: Tree): (r: seq<Binding>)
    ensures forall i :: 0 <= i < |r| ==> ImportRef(fileId, r[i].ref)
  {
    ModuleHitsBindings(fileId, Find(root, "import_statement"))
    + SymbolHitsBindings(fileId, Find(root, "import_from_statement"))
  }

  /** `_parse_imports`: only the alias table and the pending list change; every name bound
      is in the table, and each binding adds one `IMPORTS_MODULE` or `IMPORTS_SYMBOL`
      reference from the file node. */
  function ParseImports(ps: PState, root: Tree): (r: PState)
    ensures r == ps.(imports := r.imports, st := ps.st.(pending := r.st.pending))
    ensures var bs := ImportBindings(FileId(ps.file), root);
      && |r.st.pending| == |ps.st.pending| + |bs| && ps.st.pending <= r.st.pending
      && (forall i :: 0 <= i < |bs| ==> bs[i].alias in r.imports)
      && (forall k :: k in ps.imports ==> k in r.imports)
    ensures forall i :: |ps.st.pending| <= i < |r.st.pending| ==> ImportRef(FileId(ps.file), r.st.pending[i])
  {
    var fid := FileId(ps.file);
    var bs := ImportBindings(fid, root);
    var r := ps.(imports := BindAll(ps.imports, bs), st := ps.st.(pending := ps.st.pending + RefsOf(bs)));
    assert forall i :: |ps.st.pending| <= i < |r.st.pending| ==> r.st.pending[i] == bs[i - |ps.st.pending|].ref;
    r
  }

  // ---------------------------------------------------------------------------------
  // Calls

  /** `_process_call`: nothing outside a function. A call of a bare name `f` is a pending
      `CALLS` when `f` is an imported alias and otherwise an edge to `Function:{file}:f:0`;
      a call `o.m(...)` on a bare name `o` is a pending `CALLS_METHOD` when `o` is an
      imported alias and otherwise an edge to `Method:{file}:m:0` carrying `object`. */
  function ProcessCall(ps: PState, call: Tree): (r: PState)
    ensures r == ps.(st := r.st) && r.st == ps.st.(relations := r.st.relations, pending := r.st.pending)
    ensures ps.currentFunction.None? ==> r == ps
    ensures |ps.st.relations| <= |r.st.relations| <= |ps.st.relations| + 1 && ps.st.relations <= r.st.relations
    ensures |ps.st.pending| <= |r.st.pending| <= |ps.st.pending| + 1 && ps.st.pending <= r.st.pending
    ensures |r.st.relations| == |ps.st.relations| + 1 ==>
      var e := r.st.relations[|ps.st.relations|];
      e.source == ps.currentFunction.value && e.kind == Calls && |e.target| >= 2 && e.target[|e.target| - 2..] == ":0"
    ensures |r.st.pending| == |ps.st.pending| + 1 ==>
      var p := r.st.pending[|ps.st.pending|];
      && p.sourceId == ps.currentFunction.value
      && ((p.FunctionCall? && p.original in ps.imports) || (p.MethodCall? && p.originalObj in ps.imports))
  {
    match (ps.currentFunction, Field(call, "function"))
    case (Some(cf), Some(fn)) =>
      if fn.kind == "identifier" then
        var f := fn.text;
        if f in ps.imports then
          var full := ps.imports[f];
          ps.(st := AddPending(ps.st, FunctionCall(cf, FirstSegment(full, '.'), LastSegment(full, '.'), f)))
        else
          GuessedIdEndsInZero(Function, ps.file, f);
          ps.(st := Append(ps.st, Relation(cf, NodeId(Function, ps.file, f, 0), Calls, map[])))
      else if fn.kind == "attribute" then
        match (Field(fn, "object"), Field(fn, "attribute"))
        case (Some(o), Some(a)) =>
          if o.kind != "identifier" then ps
          else if o.text in ps.imports then
            var full := ps.imports[o.text];
            ps.(st := AddPending(ps.st, MethodCall(cf, FirstSegment(full, '.'), LastSegment(full, '.'), a.text, o.text)))
          else
            GuessedIdEndsInZero(Method, ps.file, a.text);
            ps.(st := Append(ps.st, Relation(cf, NodeId(Method, ps.file, a.text, 0), Calls, map["object" := VStr(o.text)])))
        case _ => ps
      else ps
    case _ => ps
  }

  /** The edge a call of the bare, non-imported name `f` gives inside a function. */
  lemma LocalCallEdge(ps: PState, call: Tree, f: Tree)
    requires ps.currentFunction.Some? && Field(call, "function") == Some(f)
    requires f.kind == "identifier" && f.text !in ps.imports
    ensures ProcessCall(ps, call).st.relations
      == ps.st.relations + [Relation(ps.currentFunction.value, NodeId(Function, ps.file, f.text, 0), Calls, map[])]
    ensures ProcessCall(ps, call).st.pending == ps.st.pending
  {
  }

  /** A call of an imported alias is resolved later: the reference names the first and
      last dotted segments of the alias target and the alias itself. */
  lemma ImportedCallPending(ps: PState, call: Tree, f: Tree)
    requires ps.currentFunction.Some? && Field(call, "function") == Some(f)
    requires f.kind == "identifier" && f.text in ps.imports
    ensures var full := ps.imports[f.text];
      var p := ProcessCall(ps, call).st.pending[|ps.st.pending|];
      && ProcessCall(ps, call).st.relations == ps.st.relations
      && p == FunctionCall(ps.currentFunction.value, FirstSegment(full, '.'), LastSegment(full, '.'), f.text)
      && '.' !in p.modName && '.' !in p.symbol
  {
    var full := ps.imports[f.text];
    FirstSegmentSpec(full, '.');
    LastSegmentSpec(full, '.');
  }

  /** `o.m()` on a name that is not imported calls the same-file method `m`, recording `o`;
      on an imported alias it is a pending `CALLS_METHOD` whose class is the last dotted
      segment of the alias target. */
  lemma MethodCallOutcome(ps: PState, call: Tree, fn: Tree, o: Tree, a: Tree)
    requires ps.currentFunction.Some? && Field(call, "function") == Some(fn) && fn.kind == "attribute"
    requires Field(fn, "object") == Some(o) && Field(fn, "attribute") == Some(a) && o.kind == "identifier"
    ensures var r := ProcessCall(ps, call);
      if o.text in ps.imports then
        && r.st.relations == ps.st.relations
        && r.st.pending == ps.st.pending + [MethodCall(ps.currentFunction.value,
             FirstSegment(ps.imports[o.text], '.'), LastSegment(ps.imports[o.text], '.'), a.text, o.text)]
      else
        && r.st.pending == ps.st.pending
        && r.st.relations == ps.st.relations
             + [Relation(ps.currentFunction.value, NodeId(Method, ps.file, a.text, 0), Calls, map["object" := VStr(o.text)])]
  {
  }

  /** A `CALLS` edge from the function `id`. */
  predicate CallEdge(id: string, e: Relation) {
    e.source == id && e.kind == Calls
  }

  /** A pending call reference (`CALLS` or `CALLS_METHOD`) from the function `id`. */
  predicate CallRef(id: string, p: Pending) {
    p.sourceId == id && (p.FunctionCall? || p.MethodCall?)
  }

  /** `_find_function_calls`: every call found, in pre-order. Outside a function nothing
      changes; inside, every new edge is a `CALLS` from the current function, and every
      new pending reference is a call through an alias, also from it. */
  function FindCalls(ps: PState, hits: seq<Hit>): (r: PState)
    ensures r == ps.(st := r.st) && r.st == ps.st.(relations := r.st.relations, pending := r.st.pending)
    ensures ps.currentFunction.None? ==> r == ps
    ensures ps.st.relations <= r.st.relations && ps.st.pending <= r.st.pending
    ensures forall i :: |ps.st.relations| <= i < |r.st.relations| ==> CallEdge(ps.currentFunction.value, r.st.relations[i])
    ensures forall i :: |ps.st.pending| <= i < |r.st.pending| ==> CallRef(ps.currentFunction.value, r.st.pending[i])
    decreases |hits|
  {
    if |hits| == 0 then ps
    else
      var p1 := ProcessCall(ps, hits[0].node);
      var r := FindCalls(p1, hits[1..]);
      assert forall i :: |ps.st.relations| <= i < |p1.st.relations| ==> r.st.relations[i] == p1.st.relations[i];
      assert forall i :: |ps.st.pending| <= i < |p1.st.pending| ==> r.st.pending[i] == p1.st.pending[i];
      r
  }

  /** The calls of a definition body, read with `id` as the current function; the previous
      function is restored afterwards. */
  function BodyCalls(ps: PState, def: Tree, id: string): (r: PState)
    ensures r == ps.(st := r.st) && r.st == ps.st.(relations := r.st.relations, pending := r.st.pending)
    ensures ps.st.relations <= r.st.relations && ps.st.pending <= r.st.pending
    ensures forall i :: |ps.st.relations| <= i < |r.st.relations| ==>
      r.st.relations[i].source == id && r.st.relations[i].kind == Calls
    ensures forall i :: |ps.st.pending| <= i < |r.st.pending| ==> r.st.pending[i].sourceId == id
  {
    match Field(def, "body")
    case Some(body) =>
      var inner := FindCalls(ps.(currentFunction := Some(id)), FindAll(body, {"call"}, []));
      inner.(currentFunction := ps.currentFunction)
    case None => ps
  }

  // ---------------------------------------------------------------------------------
  // Parameters

  /** `child.field("name") or child.child(0)`. */
  function ParamName(c: Tree): Option<Tree> {
    match Field(c, "name")
    case Some(n) => Some(n)
    case None => if |c.children| > 0 then Some(c.children[0]) else None
  }

  /** The JSON object `_parse_function_args` records for one child of the parameter list:
      a bare identifier gives its name, a typed parameter its name and type when it has
      one, a parameter with a default its name and `has_default`. Other children (a
      typed parameter with a default, `*args`, punctuation) give nothing. */
  function ParamEntry(c: Tree): Option<Value> {
    if c.kind == "identifier" then Some(VDict([Entry("name", VStr(c.text))]))
    else if c.kind == "typed_parameter" && ParamName(c).Some? then
      var typ := match Field(c, "type") case Some(t) => [Entry("type", VStr(t.text))] case None => [];
      Some(VDict([Entry("name", VStr(ParamName(c).value.text))] + typ))
    else if c.kind == "default_parameter" && ParamName(c).Some? then
      Some(VDict([Entry("name", VStr(ParamName(c).value.text)), Entry("has_default", VBool(true))]))
    else None
  }

  /** The recognised parameters, in order: the list is empty exactly when no child is
      recognised. */
  function ParamEntries(cs: seq<Tree>): (r: seq<Value>)
    ensures |r| <= |cs|
    ensures |r| == 0 <==> forall i :: 0 <= i < |cs| ==> ParamEntry(cs[i]).None?
    decreases |cs|
  {
    if |cs| == 0 then []
    else
      var rest := ParamEntries(cs[1..]);
      assert forall i :: 1 <= i < |cs| ==> cs[i] == cs[1..][i - 1];
      (match ParamEntry(cs[0]) case Some(v) => [v] case None => []) + rest
  }

  /** A typed parameter with a default value is not one of the recognised shapes. */
  lemma TypedDefaultNotRecorded(c: Tree)
    requires c.kind == "typed_default_parameter"
    ensures ParamEntries([c]) == []
  {
  }

  function NoReals(x: real): string { "" }

  /** `_parse_function_args`: the `args` property (the JSON text of the recognised
      parameters) is written exactly when the definition has a parameter list with at
      least one recognised parameter; nothing else changes. */
  function ParseFunctionArgs(ps: PState, def: Tree, id: string): (r: PState)
    ensures r == ps.(st := ps.st.(nodes := r.st.nodes)) && r.st.nodes.byId.Keys == ps.st.nodes.byId.Keys
    ensures forall k :: k in ps.st.nodes.byId && k != id ==> r.st.nodes.byId[k] == ps.st.nodes.byId[k]
    ensures id in ps.st.nodes.byId ==>
      var before := ps.st.nodes.byId[id].props;
      var after := r.st.nodes.byId[id].props;
      && ("args" in after <==> ("args" in before
            || (Field(def, "parameters").Some? && |ParamEntries(Field(def, "parameters").value.children)| > 0)))
      && (forall k :: k in before && k != "args" ==> k in after && after[k] == before[k])
  {
    match Field(def, "parameters")
    case None => ps
    case Some(params) =>
      var args := ParamEntries(params.children);
      if |args| == 0 then ps
      else ps.(st := SetNodeProp(ps.st, id, "args", VStr(Json.Encode(VList(args), NoReals))))
  }

  // ---------------------------------------------------------------------------------
  // Definitions

  /** The properties of a function or method node. */
  function IsMethodProps(isMethod: bool): map<string, Value> {
    map["is_method" := VBool(isMethod)]
  }

  /** `_parse_method`: a `Method` node with `DEFINES` from the enclosing class, its
      parameters, then the calls of its body made from it. A definition without a name
      is skipped. */
  function ParseMethod(ps: PState, m: Tree): (r: PState)
    ensures Grows(ps, r) && r == ps.(st := r.st) && r.st.moduleDefs == ps.st.moduleDefs
    ensures Field(m, "name").None? ==> r == ps
    ensures Field(m, "name").Some? ==>
      var id := NodeId(Method, ps.file, Field(m, "name").value.text, m.line);
      && id in r.st.nodes.byId
      && (ps.currentClass.Some? ==>
            |r.st.relations| > |ps.st.relations|
            && r.st.relations[|ps.st.relations|] == Relation(ps.currentClass.value, id, Defines, map[]))
  {
    match Field(m, "name")
    case None => ps
    case Some(nameNode) =>
      var id := NodeId(Method, ps.file, nameNode.text, m.line);
      var st1 := AddNode(ps.st, MakeNode(id, Method, nameNode.text, ps.file, m.line, Some(m.endLine), IsMethodProps(true)));
      var st2 := if ps.currentClass.Some? then Append(st1, Relation(ps.currentClass.value, id, Defines, map[])) else st1;
      var p3 := ParseFunctionArgs(ps.(st := st2), m, id);
      BodyCalls(p3, m, id)
  }

  /** `_parse_function`: a `Function` node contained in the file, indexed under the
      module when `build_index` is set and the module name is not empty, then its
      parameters and the calls of its body. */
  function ParseFunction(ps: PState, f: Tree, buildIndex: bool, modName: string): (r: PState)
    ensures Grows(ps, r) && r == ps.(st := r.st)
    ensures Field(f, "name").None? ==> r == ps
    ensures Field(f, "name").Some? ==>
      var name := Field(f, "name").value.text;
      var id := NodeId(Function, ps.file, name, f.line);
      && id in r.st.nodes.byId
      && |r.st.relations| > |ps.st.relations|
      && r.st.relations[|ps.st.relations|] == Relation(FileId(ps.file), id, Contains, map[])
      && (buildIndex && modName != "" ==>
            modName in r.st.moduleDefs && name in r.st.moduleDefs[modName] && r.st.moduleDefs[modName][name] == id)
  {
    match Field(f, "name")
    case None => ps
    case Some(nameNode) =>
      var id := NodeId(Function, ps.file, nameNode.text, f.line);
      var st1 := AddNode(ps.st, MakeNode(id, Function, nameNode.text, ps.file, f.line, Some(f.endLine), IsMethodProps(false)));
      var st2 := Append(st1, Relation(FileId(ps.file), id, Contains, map[]));
      var st3 := if buildIndex && modName != "" then IndexSymbol(st2, modName, nameNode.text, id) else st2;
      var p4 := ParseFunctionArgs(ps.(st := st3), f, id);
      BodyCalls(p4, f, id)
  }

  /** `_parse_top_level_functions` keeps a definition whose parent is the module (or
      that has no parent), or whose parent is a decorator wrapper directly in the module. */
  predicate TopLevelFunction(h: Hit) {
    || |h.ancestors| == 0 || h.ancestors[0] == "module"
    || (h.ancestors[0] == "decorated_definition" && |h.ancestors| > 1 && h.ancestors[1] == "module")
  }

  /** The top-level function definitions of a search, in order. */
  function ParseFunctions(ps: PState, hits: seq<Hit>, buildIndex: bool, modName: string): (r: PState)
    ensures Grows(ps, r) && r == ps.(st := r.st)
    decreases |hits|
  {
    if |hits| == 0 then ps
    else
      var p1 := if TopLevelFunction(hits[0]) then ParseFunction(ps, hits[0].node, buildIndex, modName) else ps;
      ParseFunctions(p1, hits[1..], buildIndex, modName)
  }

  /** A function nested in another definition, or a method, is not read as a function. */
  lemma NestedFunctionSkipped(ps: PState, h: Hit, buildIndex: bool, modName: string)
    requires |h.ancestors| > 0 && h.ancestors[0] != "module"
    requires h.ancestors[0] != "decorated_definition" || |h.ancestors| == 1 || h.ancestors[1] != "module"
    ensures ParseFunctions(ps, [h], buildIndex, modName) == ps
  {
  }

  // ---------------------------------------------------------------------------------
  // Variables

  /** The names an assignment's left side binds: a bare identifier, or the identifiers
      of a comma-separated pattern; any other target binds nothing. */
  function AssignedNames(a: Tree): (r: seq<string>) {
    match Field(a, "left")
    case None => []
    case Some(left) =>
      if left.kind == "identifier" then [left.text]
      else if left.kind == "pattern_list" then TextsOfKind(left.children, "identifier")
      else []
  }

  /** How `_parse_assignment` records a variable: the prefix of its id, its node type and
      the owner of the `DEFINES` edge. */
  datatype Role = Role(idKind: Kind, kind: Kind, owner: string)

  /** In a class but not in a function: a class variable of the class. In a function: a
      local of the function. Otherwise, for a module-level assignment: a global defined by
      the file, whose id nevertheless uses the `Variable` prefix. */
  function VariableRole(ps: PState, fileId: string, isGlobal: bool): (r: Option<Role>)
    ensures r.Some? && r.value.kind == ClassVariable <==> ps.currentClass.Some? && ps.currentFunction.None?
    ensures r.Some? && r.value.kind == LocalVariable <==> ps.currentFunction.Some?
    ensures r.Some? && r.value.kind == GlobalVariable <==> ps.currentClass.None? && ps.currentFunction.None? && isGlobal
    ensures r.Some? && r.value.kind == GlobalVariable ==> r.value.idKind == Variable && r.value.owner == fileId
    ensures r.Some? ==> r.value.kind in {ClassVariable, LocalVariable, GlobalVariable}
  {
    if ps.currentClass.Some? && ps.currentFunction.None? then Some(Role(ClassVariable, ClassVariable, ps.currentClass.value))
    else if ps.currentFunction.Some? then Some(Role(LocalVariable, LocalVariable, ps.currentFunction.value))
    else if isGlobal then Some(Role(Variable, GlobalVariable, fileId))
    else None
  }

  /** One node and one `DEFINES` edge per name. */
  function DefineVariables(st: State, file: string, names: seq<string>, role: Role, line: nat, endLine: nat): (r: State)
    ensures r == st.(nodes := r.nodes, relations := r.relations)
    ensures r.relations == st.relations + DefineEdges(role.owner, role.idKind, file, names, line)
    ensures r.nodes.byId.Keys >= st.nodes.byId.Keys
    ensures forall id :: HasKind(st.nodes, id, role.kind) ==> HasKind(r.nodes, id, role.kind)
    ensures forall i :: 0 <= i < |names| ==> HasKind(r.nodes, NodeId(role.idKind, file, names[i], line), role.kind)
    decreases |names|
  {
    if |names| == 0 then st
    else
      var id := NodeId(role.idKind, file, names[0], line);
      var st1 := st.(nodes := Put(st.nodes, id, MakeNode(id, role.kind, names[0], file, line, Some(endLine), map[])),
                     relations := st.relations + [Relation(role.owner, id, Defines, map[])]);
      var r := DefineVariables(st1, file, names[1..], role, line, endLine);
      assert forall i :: 1 <= i < |names| ==> names[1..][i - 1] == names[i];
      assert r.relations == st.relations + DefineEdges(role.owner, role.idKind, file, names, line) by {
        AppendAssoc(st.relations, [Relation(role.owner, id, Defines, map[])], DefineEdges(role.owner, role.idKind, file, names[1..], line));
      }
      r
  }

  /** `_parse_assignment`: each name the left side binds gets a node of the type its
      context decides, with a `DEFINES` edge from the owner. */
  function ParseAssignment(ps: PState, a: Tree, fileId: string, isGlobal: bool): (r: PState)
    ensures r == ps.(st := r.st) && r.st == ps.st.(nodes := r.st.nodes, relations := r.st.relations)
    ensures r.st.nodes.byId.Keys >= ps.st.nodes.byId.Keys
    ensures VariableRole(ps, fileId, isGlobal).None? ==> r == ps
    ensures VariableRole(ps, fileId, isGlobal).Some? ==>
      var role := VariableRole(ps, fileId, isGlobal).value;
      && r.st.relations == ps.st.relations + DefineEdges(role.owner, role.idKind, ps.file, AssignedNames(a), a.line)
      && forall i :: 0 <= i < |AssignedNames(a)| ==>
           HasKind(r.st.nodes, NodeId(role.idKind, ps.file, AssignedNames(a)[i], a.line), role.kind)
  {
    match VariableRole(ps, fileId, isGlobal)
    case None => ps
    case Some(role) => ps.(st := DefineVariables(ps.st, ps.file, AssignedNames(a), role, a.line, a.endLine))
  }

  /** `_parse_global_variables`' parent walk: going up from the assignment, the module is
      reached before any function or class definition. */
  predicate ModuleScope(ancestors: seq<string>)
    decreases |ancestors|
  {
    if |ancestors| == 0 then false
    else if ancestors[0] == "function_definition" || ancestors[0] == "class_definition" then false
    else if ancestors[0] == "module" then true
    else ModuleScope(ancestors[1..])
  }

  /** The walk's verdict, stated without the walk: some ancestor is the module and none
      nearer is a function or class definition. */
  lemma {:induction false} ModuleScopeIff(ancestors: seq<string>)
    ensures ModuleScope(ancestors) <==>
      exists i :: 0 <= i < |ancestors| && ancestors[i] == "module"
        && forall j :: 0 <= j < i ==> ancestors[j] != "function_definition" && ancestors[j] != "class_definition"
    decreases |ancestors|
  {
    if |ancestors| > 0 {
      var t := ancestors[1..];
      ModuleScopeIff(t);
      if ancestors[0] != "function_definition" && ancestors[0] != "class_definition" && ancestors[0] != "module" {
        if ModuleScope(t) {
          var i :| 0 <= i < |t| && t[i] == "module"
            && forall j :: 0 <= j < i ==> t[j] != "function_definition" && t[j] != "class_definition";
          assert ancestors[i + 1] == "module";
          forall j | 0 <= j < i + 1
            ensures ancestors[j] != "function_definition" && ancestors[j] != "class_definition"
          {
            if j > 0 { assert ancestors[j] == t[j - 1]; }
          }
        }
        if exists i :: 0 <= i < |ancestors| && ancestors[i] == "module"
             && forall j :: 0 <= j < i ==> ancestors[j] != "function_definition" && ancestors[j] != "class_definition" {
          var i :| 0 <= i < |ancestors| && ancestors[i] == "module"
            && forall j :: 0 <= j < i ==> ancestors[j] != "function_definition" && ancestors[j] != "class_definition";
          assert i > 0;
          assert t[i - 1] == "module";
          forall j | 0 <= j < i - 1
            ensures t[j] != "function_definition" && t[j] != "class_definition"
          {
            assert t[j] == ancestors[j + 1];
          }
        }
      }
    }
  }

  /** The module-level assignments of a search, each read with `is_global` set. */
  function ParseGlobals(ps: PState, hits: seq<Hit>, fileId: string): (r: PState)
    ensures r == ps.(st := r.st) && r.st == ps.st.(nodes := r.st.nodes, relations := r.st.relations)
    ensures ps.st.relations <= r.st.relations && r.st.nodes.byId.Keys >= ps.st.nodes.byId.Keys
    ensures ps.currentClass.None? && ps.currentFunction.None? ==>
      forall i :: |ps.st.relations| <= i < |r.st.relations| ==>
        r.st.relations[i].source == fileId && r.st.relations[i].kind == Defines
    decreases |hits|
  {
    if |hits| == 0 then ps
    else
      var p1 := if ModuleScope(hits[0].ancestors) then ParseAssignment(ps, hits[0].node, fileId, true) else ps;
      var r := ParseGlobals(p1, hits[1..], fileId);
      assert forall i :: |ps.st.relations| <= i < |p1.st.relations| ==> r.st.relations[i] == p1.st.relations[i];
      r
  }

  /** `_parse_class_attribute`: an assignment to a bare name in a class body gives a
      class variable, with `DEFINES` from the class when there is one. */
  function ParseClassAttribute(ps: PState, a: Tree): (r: PState)
    ensures r == ps.(st := r.st) && r.st == ps.st.(nodes := r.st.nodes, relations := r.st.relations)
    ensures r.st.nodes.byId.Keys >= ps.st.nodes.byId.Keys && ps.st.relations <= r.st.relations
    ensures match Field(a, "left")
      case Some(left) =>
        left.kind == "identifier" ==>
          var id := NodeId(ClassVariable, ps.file, left.text, a.line);
          && HasKind(r.st.nodes, id, ClassVariable)
          && r.st.relations == ps.st.relations
               + (if ps.currentClass.Some? then [Relation(ps.currentClass.value, id, Defines, map[])] else [])
      case None => r == ps
  {
    match Field(a, "left")
    case Some(left) =>
      if left.kind != "identifier" then ps
      else
        var id := NodeId(ClassVariable, ps.file, left.text, a.line);
        var st1 := AddNode(ps.st, MakeNode(id, ClassVariable, left.text, ps.file, a.line, Some(a.endLine), map[]));
        ps.(st := if ps.currentClass.Some? then Append(st1, Relation(ps.currentClass.value, id, Defines, map[])) else st1)
    case None => ps
  }

  // ---------------------------------------------------------------------------------
  // Classes

  /** One base of the class's argument list: an imported alias becomes a pending
      `EXTENDS` naming the first and last dotted segments of its target; another bare
      name an edge to `Class:{file}:{base}:0`; anything else is ignored. */
  function ParseBase(ps: PState, classId: string, b: Tree): (r: PState)
    ensures r == ps.(st := ps.st.(relations := r.st.relations, pending := r.st.pending))
    ensures b.kind != "identifier" ==> r == ps
    ensures b.kind == "identifier" && b.text in ps.imports ==>
      var full := ps.imports[b.text];
      r.st.relations == ps.st.relations
      && r.st.pending == ps.st.pending + [BaseClass(classId, FirstSegment(full, '.'), LastSegment(full, '.'), b.text)]
    ensures b.kind == "identifier" && b.text !in ps.imports ==>
      r.st.pending == ps.st.pending
      && r.st.relations == ps.st.relations + [Relation(classId, NodeId(Class, ps.file, b.text, 0), Extends, map[])]
  {
    if b.kind != "identifier" then ps
    else if b.text in ps.imports then
      var full := ps.imports[b.text];
      ps.(st := AddPending(ps.st, BaseClass(classId, FirstSegment(full, '.'), LastSegment(full, '.'), b.text)))
    else ps.(st := Append(ps.st, Relation(classId, NodeId(Class, ps.file, b.text, 0), Extends, map[])))
  }

  /** All bases in order: each identifier gives exactly one edge or one pending reference,
      every edge an `EXTENDS` from the class, every reference an `EXTENDS` through an
      alias from the class. */
  function ParseBases(ps: PState, classId: string, bs: seq<Tree>): (r: PState)
    ensures r == ps.(st := ps.st.(relations := r.st.relations, pending := r.st.pending))
    ensures ps.st.relations <= r.st.relations && ps.st.pending <= r.st.pending
    ensures (|r.st.relations| - |ps.st.relations|) + (|r.st.pending| - |ps.st.pending|) == |TextsOfKind(bs, "identifier")|
    ensures forall i :: |ps.st.relations| <= i < |r.st.relations| ==>
      r.st.relations[i].source == classId && r.st.relations[i].kind == Extends
    ensures forall i :: |ps.st.pending| <= i < |r.st.pending| ==>
      r.st.pending[i].BaseClass? && r.st.pending[i].sourceId == classId && r.st.pending[i].original in ps.imports
    decreases |bs|
  {
    if |bs| == 0 then ps
    else
      var p1 := ParseBase(ps, classId, bs[0]);
      var r := ParseBases(p1, classId, bs[1..]);
      assert forall i :: |ps.st.relations| <= i < |p1.st.relations| ==> r.st.relations[i] == p1.st.relations[i];
      assert forall i :: |ps.st.pending| <= i < |p1.st.pending| ==> r.st.pending[i] == p1.st.pending[i];
      r
  }

  /** The assignments among the children of an expression statement in a class body. */
  function ParseClassAttributes(ps: PState, cs: seq<Tree>): (r: PState)
    ensures r == ps.(st := r.st) && r.st == ps.st.(nodes := r.st.nodes, relations := r.st.relations)
    ensures r.st.nodes.byId.Keys >= ps.st.nodes.byId.Keys && ps.st.relations <= r.st.relations
    decreases |cs|
  {
    if |cs| == 0 then ps
    else
      var p1 := if cs[0].kind == "assignment" then ParseClassAttribute(ps, cs[0]) else ps;
      ParseClassAttributes(p1, cs[1..])
  }

  /** One statement of a class body: a method, a decorated method, or an expression
      statement holding class attributes. */
  function ParseClassMember(ps: PState, c: Tree): (r: PState)
    ensures Grows(ps, r) && r == ps.(st := r.st) && r.st.moduleDefs == ps.st.moduleDefs
  {
    if c.kind == "function_definition" then ParseMethod(ps, c)
    else if c.kind == "decorated_definition" then
      match Field(c, "definition")
      case Some(d) => if d.kind == "function_definition" then ParseMethod(ps, d) else ps
      case None => ps
    else if c.kind == "expression_statement" then ParseClassAttributes(ps, c.children)
    else ps
  }

  /** The statements of a class body, in order. */
  function ParseClassMembers(ps: PState, cs: seq<Tree>): (r: PState)
    ensures Grows(ps, r) && r == ps.(st := r.st) && r.st.moduleDefs == ps.st.moduleDefs
    decreases |cs|
  {
    if |cs| == 0 then ps else ParseClassMembers(ParseClassMember(ps, cs[0]), cs[1..])
  }

  /** `_parse_class`: a `Class` node contained in the file and indexed under the module,
      its bases, then its body with the class as the current class; the previous class
      is restored afterwards. A definition without a name is skipped. */
  function ParseClass(ps: PState, c: Tree, buildIndex: bool, modName: string): (r: PState)
    ensures Grows(ps, r) && r == ps.(st := r.st)
    ensures Field(c, "name").None? ==> r == ps
    ensures Field(c, "name").Some? ==>
      var name := Field(c, "name").value.text;
      var id := NodeId(Class, ps.file, name, c.line);
      && id in r.st.nodes.byId
      && |r.st.relations| > |ps.st.relations|
      && r.st.relations[|ps.st.relations|] == Relation(FileId(ps.file), id, Contains, map[])
      && (buildIndex && modName != "" ==>
            modName in r.st.moduleDefs && name in r.st.moduleDefs[modName] && r.st.moduleDefs[modName][name] == id)
  {
    match Field(c, "name")
    case None => ps
    case Some(nameNode) =>
      var id := NodeId(Class, ps.file, nameNode.text, c.line);
      var st1 := AddNode(ps.st, MakeNode(id, Class, nameNode.text, ps.file, c.line, Some(c.endLine), map[]));
      var st2 := Append(st1, Relation(FileId(ps.file), id, Contains, map[]));
      var st3 := if buildIndex && modName != "" then IndexSymbol(st2, modName, nameNode.text, id) else st2;
      ClassBody(ps.(st := st3), c, id)
  }

  /** The bases and then the body of the class `id`, read with it as the current class. */
  function ClassBody(ps: PState, c: Tree, id: string): (r: PState)
    ensures Grows(ps, r) && r == ps.(st := r.st) && r.st.moduleDefs == ps.st.moduleDefs
  {
    var p4 := match Field(c, "superclasses")
      case Some(sup) => ParseBases(ps, id, sup.children)
      case None => ps;
    var p5 := match Field(c, "body")
      case Some(body) => ParseClassMembers(p4.(currentClass := Some(id)), body.children)
      case None => p4.(currentClass := Some(id));
    p5.(currentClass := ps.currentClass)
  }

  /** `_parse_classes` keeps a class whose parent is the module (or that has no parent):
      nested and decorated classes are not read. */
  predicate TopLevelClass(h: Hit) {
    |h.ancestors| == 0 || h.ancestors[0] == "module"
  }

  /** The top-level classes of a search, in order. */
  function ParseClasses(ps: PState, hits: seq<Hit>, buildIndex: bool, modName: string): (r: PState)
    ensures Grows(ps, r) && r == ps.(st := r.st)
    decreases |hits|
  {
    if |hits| == 0 then ps
    else
      var p1 := if TopLevelClass(hits[0]) then ParseClass(ps, hits[0].node, buildIndex, modName) else ps;
      ParseClasses(p1, hits[1..], buildIndex, modName)
  }

  // ---------------------------------------------------------------------------------
  // Files

  /** `parse_file`: the file becomes the current file and the alias table is emptied
      (the enclosing class and function are not reset). When the source cannot be read
      the result is empty; otherwise the file node is recorded, the module registered
      with `build_index`, and imports, classes, top-level functions and module-level
      variables are read in that order. The accumulated nodes and relations are the
      result. */
  function ParseFile(ps: PState, path: string, root: Option<Tree>, buildIndex: bool): (r: (PState, (NodeMap, seq<Relation>)))
    ensures r.0.file == path && r.0.currentClass == ps.currentClass && r.0.currentFunction == ps.currentFunction
    ensures ps.st.relations <= r.0.st.relations && ps.st.pending <= r.0.st.pending
    ensures root.None? ==> r.1 == (NoNodes(), []) && r.0.st == ps.st && r.0.imports == map[]
    ensures root.Some? ==>
      && r.1 == (r.0.st.nodes, r.0.st.relations)
      && FileId(path) in r.0.st.nodes.byId
      && (buildIndex ==> ModuleName(path) in r.0.st.moduleToFile && r.0.st.moduleToFile[ModuleName(path)] == FileId(path))
  {
    var ps0 := ps.(file := path, imports := map[]);
    match root
    case None => (ps0, (NoNodes(), []))
    case Some(t) =>
      var (st1, fid) := CreateFileNode(ps0.st, path);
      var modName := ModuleName(path);
      var p1 := ps0.(st := RegisterModule(st1, modName, fid, buildIndex));
      var p2 := ParseImports(p1, t);
      var p3 := ParseClasses(p2, Find(t, "class_definition"), buildIndex, modName);
      var p4 := ParseFunctions(p3, Find(t, "function_definition"), buildIndex, modName);
      var p5 := ParseGlobals(p4, Find(t, "assignment"), fid);
      (p5, (p5.st.nodes, p5.st.relations))
  }
}
