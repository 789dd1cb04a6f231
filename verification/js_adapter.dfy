/** The ast-grep JavaScript/TypeScript extractor (`JavaScriptAstGrepAdapter`,
    javascript_adapter.py): imports, classes with their inheritance and methods,
    function declarations, arrow functions bound by `const`/`let`, top-level variables
    and export marks. Structural edges go through the dedup set; a reference through an
    imported name becomes a pending reference. */
module JsAdapter {

  import opened Wrappers
  import opened Text
  import opened Schema
  import opened Syntax
  import opened AdapterState

  /** The adapter: the shared accumulator, the file being read and its alias table
      (imported name to module specifier). */
  datatype JState = JState(st: State, file: string, imports: map<string, string>)

  /** `_get_language_from_file`: from the lower-cased extension. */
  function LanguageOf(path: string): (r: string)
    ensures r in {"typescript", "tsx", "jsx", "javascript"}
    ensures r == "typescript" <==> Lower(SplitExt(path).1) == ".ts"
    ensures r == "tsx" <==> Lower(SplitExt(path).1) == ".tsx"
    ensures r == "jsx" <==> Lower(SplitExt(path).1) == ".jsx"
  {
    var ext := Lower(SplitExt(path).1);
    if ext == ".ts" then "typescript"
    else if ext == ".tsx" then "tsx"
    else if ext == ".jsx" then "jsx"
    else "javascript"
  }

  // ---------------------------------------------------------------------------------
  // Imports

  /** The module specifier of an import: the first string literal found, with quote
      characters stripped from both ends. */
  function ImportSource(n: Tree): Option<string> {
    match FirstHit(FindAll(n, {"string"}, []))
    case Some(s) => Some(StripChars(s.text, {'"', '\''}))
    case None => None
  }

  /** The first identifier child's text, as `[c for c in children if identifier][0]`. */
  function FirstIdentifier(t: Tree): Option<string> {
    match FirstOfKind(t.children, "identifier")
    case Some(i) => Some(i.text)
    case None => None
  }

  /** The first identifier of each hit that has one, in order. */
  function FirstIdentifiers(hits: seq<Hit>): (r: seq<string>)
    ensures |r| <= |hits|
    decreases |hits|
  {
    if |hits| == 0 then []
    else (match FirstIdentifier(hits[0].node) case Some(x) => [x] case None => []) + FirstIdentifiers(hits[1..])
  }

  /** The specifier names of each `{ ... }` group found, in order. */
  function NamedImportNames(groups: seq<Hit>): seq<string>
    decreases |groups|
  {
    if |groups| == 0 then []
    else FirstIdentifiers(FindAll(groups[0].node, {"import_specifier"}, [])) + NamedImportNames(groups[1..])
  }

  /** The names one import binds: the default import (identifier children of the first
      import clause), then every named specifier, then every namespace alias. */
  function ImportedNames(n: Tree): seq<string> {
    match FirstHit(FindAll(n, {"import_clause"}, []))
    case None => []
    case Some(clause) =>
      TextsOfKind(clause.children, "identifier")
      + NamedImportNames(FindAll(clause, {"named_imports"}, []))
      + FirstIdentifiers(FindAll(clause, {"namespace_import"}, []))
  }

  /** Each name bound to the whole module specifier, with a pending `IMPORTS` whose module
      is the specifier's text before the first '/'. */
  function NameBindings(fileId: string, src: string, names: seq<string>): (r: seq<Binding>)
    ensures |r| == |names|
    ensures forall i :: 0 <= i < |r| ==>
      r[i] == Binding(names[i], src, NameImport(fileId, FirstSegment(src, '/'), names[i], names[i]))
  {
    seq(|names|, i requires 0 <= i < |names| => Binding(names[i], src, NameImport(fileId, FirstSegment(src, '/'), names[i], names[i])))
  }

  /** The bindings of one import statement: none when it has no (or an empty) specifier. */
  function ImportStatementBindings(fileId: string, n: Tree): (r: seq<Binding>)
    ensures ImportSource(n).None? || ImportSource(n).value == "" ==> r == []
    ensures ImportSource(n).Some? && ImportSource(n).value != "" ==>
      var src := ImportSource(n).value;
      && |r| == |ImportedNames(n)|
      && forall i :: 0 <= i < |r| ==>
           && r[i].alias == ImportedNames(n)[i] && r[i].target == src
           && r[i].ref == NameImport(fileId, FirstSegment(src, '/'), r[i].alias, r[i].alias)
  {
    match ImportSource(n)
    case Some(src) => if src == "" then [] else NameBindings(fileId, src, ImportedNames(n))
    case None => []
  }

  /** The bindings of all import statements found, in order. */
  function ImportHitsBindings(fileId: string, hits: seq<Hit>): (r: seq<Binding>)
    ensures forall i :: 0 <= i < |r| ==>
      (r[i].ref.NameImport? && r[i].ref.sourceId == fileId
       && r[i].ref.symbol == r[i].alias && r[i].ref.modName == FirstSegment(r[i].target, '/'))
    decreases |hits|
  {
    if |hits| == 0 then []
    else ImportStatementBindings(fileId, hits[0].node) + ImportHitsBindings(fileId, hits[1..])
  }

  /** A relative specifier such as `./utils` has `.` as its root module. */
  lemma RelativeRootIsDot(rest: string)
    ensures FirstSegment("./" + rest, '/') == "."
  {
    assert ("./" + rest)[1] == '/';
    assert IndexOf("./" + rest, '/') == 1 by {
      IndexOfUnique("./" + rest, '/', 1);
    }
  }

  /** `_parse_imports`: only the alias table and the pending list change; every imported
      name is in the table, and one `IMPORTS` reference per name is recorded from the
      file node. */
  function ParseImports(js: JState, root: Tree, fileId: string): (r: JState)
    ensures r == js.(imports := r.imports, st := js.st.(pending := r.st.pending))
    ensures var bs := ImportHitsBindings(fileId, Find(root, "import_statement"));
      && r.st.pending == js.st.pending + RefsOf(bs)
      && (forall i :: 0 <= i < |bs| ==> bs[i].alias in r.imports)
      && (forall k :: k in js.imports ==> k in r.imports)
  {
    var bs := ImportHitsBindings(fileId, Find(root, "import_statement"));
    js.(imports := BindAll(js.imports, bs), st := js.st.(pending := js.st.pending + RefsOf(bs)))
  }

  // ---------------------------------------------------------------------------------
  // Scope tests

  /** `_is_inside_class`: some ancestor is a class declaration. */
  predicate InsideClass(ancestors: seq<string>) {
    "class_declaration" in ancestors
  }

  /** The kinds `_is_top_level` stops at. */
  predicate Scope(k: string) {
    k == "function_declaration" || k == "arrow_function" || k == "class_declaration" || k == "method_definition"
  }

  /** `_is_top_level`'s walk up the ancestors: false at a function, arrow function, class
      or method, or at a statement block whose parent is a function, arrow function or
      method; true once the root is passed. */
  predicate TopLevel(ancestors: seq<string>)
    decreases |ancestors|
  {
    if |ancestors| == 0 then true
    else
      var k := ancestors[0];
      if Scope(k) then false
      else if k == "statement_block" && |ancestors| > 1
        && (ancestors[1] == "function_declaration" || ancestors[1] == "arrow_function" || ancestors[1] == "method_definition")
      then false
      else TopLevel(ancestors[1..])
  }

  /** The statement-block test adds nothing: a node is top level exactly when no ancestor
      is a function, arrow function, class or method. A function expression does not
      count, so declarations in its body are top level. */
  lemma {:induction false} TopLevelIff(ancestors: seq<string>)
    ensures TopLevel(ancestors) <==> forall i :: 0 <= i < |ancestors| ==> !Scope(ancestors[i])
    decreases |ancestors|
  {
    if |ancestors| > 0 {
      TopLevelIff(ancestors[1..]);
      assert forall i :: 1 <= i < |ancestors| ==> ancestors[i] == ancestors[1..][i - 1];
      if !Scope(ancestors[0]) && ancestors[0] == "statement_block" && |ancestors| > 1 && Scope(ancestors[1]) {
        assert !TopLevel(ancestors);
      }
    }
  }

  // ---------------------------------------------------------------------------------
  // Functions and methods

  /** `_extract_function_params`: the parameter names of the first parameter list found
      under the definition: bare identifiers, and the first identifier of each
      TypeScript required or optional parameter. */
  function ParamNames(def: Tree): seq<string> {
    match FirstHit(FindAll(def, {"formal_parameters"}, []))
    case None => []
    case Some(params) => ParamNamesOf(params.children)
  }

  function ParamNamesOf(cs: seq<Tree>): (r: seq<string>)
    ensures |r| <= |cs|
    decreases |cs|
  {
    if |cs| == 0 then []
    else
      var here :=
        if cs[0].kind == "identifier" then [cs[0].text]
        else if cs[0].kind == "required_parameter" || cs[0].kind == "optional_parameter" then
          (match FirstIdentifier(cs[0]) case Some(x) => [x] case None => [])
        else [];
      here + ParamNamesOf(cs[1..])
  }

  /** `_is_async_function`: an `async` child. */
  predicate IsAsync(def: Tree) {
    exists i :: 0 <= i < |def.children| && def.children[i].kind == "async"
  }

  function StrList(xs: seq<string>): (r: seq<Value>)
    ensures |r| == |xs| && forall i :: 0 <= i < |xs| ==> r[i] == VStr(xs[i])
  {
    seq(|xs|, i requires 0 <= i < |xs| => VStr(xs[i]))
  }

  /** The properties of a function node of the given style. */
  function FunctionProps(def: Tree, file: string, style: string): map<string, Value> {
    map["is_method" := VBool(false), "parameters" := VList(StrList(ParamNames(def))),
        "language" := VStr(LanguageOf(file)), "function_style" := VStr(style), "is_async" := VBool(IsAsync(def))]
  }

  /** A `Function` node for `def` under `name`, with its source text as snippet, contained
      in the file and indexed under the module when `build_index` is set. */
  function AddFunction(js: JState, def: Tree, name: string, style: string, fileId: string,
                       buildIndex: bool, modName: string): (r: JState)
    ensures r == js.(st := r.st) && js.st.relations <= r.st.relations && js.st.pending == r.st.pending
    ensures r.st.nodes.byId.Keys == js.st.nodes.byId.Keys + {NodeId(Function, js.file, name, def.line)}
    ensures HasKind(r.st.nodes, NodeId(Function, js.file, name, def.line), Function)
    ensures r.st.moduleToFile == js.st.moduleToFile
    ensures buildIndex && modName != "" ==>
      (modName in r.st.moduleDefs && name in r.st.moduleDefs[modName]
       && r.st.moduleDefs[modName][name] == NodeId(Function, js.file, name, def.line))
  {
    var id := NodeId(Function, js.file, name, def.line);
    var n := Node(id, Function, name, js.file, def.line, Some(def.endLine), def.text, FunctionProps(def, js.file, style));
    var e := Relation(fileId, id, Contains, map[]);
    var st1 := AddRelation(AddNode(js.st, n), e);
    js.(st := if buildIndex && modName != "" then IndexSymbol(st1, modName, name, id) else st1)
  }

  /** The function declarations found: those outside every class, with a name. */
  function ParseFunctionDecls(js: JState, hits: seq<Hit>, fileId: string, buildIndex: bool, modName: string): (r: JState)
    ensures r == js.(st := r.st) && js.st.relations <= r.st.relations && js.st.pending == r.st.pending
    ensures r.st.nodes.byId.Keys >= js.st.nodes.byId.Keys && r.st.moduleToFile == js.st.moduleToFile
    decreases |hits|
  {
    if |hits| == 0 then js
    else
      var h := hits[0];
      var j1 := if InsideClass(h.ancestors) then js
        else match Field(h.node, "name")
          case Some(nm) => AddFunction(js, h.node, nm.text, "standard", fileId, buildIndex, modName)
          case None => js;
      ParseFunctionDecls(j1, hits[1..], fileId, buildIndex, modName)
  }

  /** A declarator holding an arrow function anywhere below it gives a `Function` node at
      the first such arrow function, named after the declarator. */
  function ArrowDeclarators(js: JState, ds: seq<Hit>, fileId: string, buildIndex: bool, modName: string): (r: JState)
    ensures r == js.(st := r.st) && js.st.relations <= r.st.relations && js.st.pending == r.st.pending
    ensures r.st.nodes.byId.Keys >= js.st.nodes.byId.Keys && r.st.moduleToFile == js.st.moduleToFile
    decreases |ds|
  {
    if |ds| == 0 then js
    else
      var d := ds[0].node;
      var j1 := match (FirstHit(FindAll(d, {"arrow_function"}, [])), Field(d, "name"))
        case (Some(arrow), Some(nm)) => AddFunction(js, arrow, nm.text, "arrow", fileId, buildIndex, modName)
        case _ => js;
      ArrowDeclarators(j1, ds[1..], fileId, buildIndex, modName)
  }

  /** `_parse_arrow_functions`: every `const`/`let` declaration outside every class, with
      all declarators found below it (nested ones included). */
  function ParseArrowFunctions(js: JState, hits: seq<Hit>, fileId: string, buildIndex: bool, modName: string): (r: JState)
    ensures r == js.(st := r.st) && js.st.relations <= r.st.relations && js.st.pending == r.st.pending
    ensures r.st.nodes.byId.Keys >= js.st.nodes.byId.Keys && r.st.moduleToFile == js.st.moduleToFile
    decreases |hits|
  {
    if |hits| == 0 then js
    else
      var h := hits[0];
      var j1 := if InsideClass(h.ancestors) then js
        else ArrowDeclarators(js, FindAll(h.node, {"variable_declarator"}, h.ancestors), fileId, buildIndex, modName);
      ParseArrowFunctions(j1, hits[1..], fileId, buildIndex, modName)
  }

  /** A declaration nested in a class yields no function node, whatever it holds. */
  lemma InClassNoFunction(js: JState, h: Hit, fileId: string, buildIndex: bool, modName: string)
    requires InsideClass(h.ancestors)
    ensures ParseFunctionDecls(js, [h], fileId, buildIndex, modName) == js
    ensures ParseArrowFunctions(js, [h], fileId, buildIndex, modName) == js
  {
  }

  // ---------------------------------------------------------------------------------
  // Classes

  /** The class name: the first identifier or type identifier child. */
  function ClassName(c: Tree): Option<string> {
    match FirstOfKinds(c.children, {"identifier", "type_identifier"})
    case Some(n) => Some(n.text)
    case None => None
  }

  /** `_extract_class_inheritance`: the first identifier under the first heritage clause
      is the parent. An imported parent becomes a pending `EXTENDS` naming the parent
      itself and the root of its module specifier; any other parent a deduped edge to
      `Class:{file}:{parent}:0`. */
  function ParseInheritance(js: JState, c: Tree, classId: string): (r: JState)
    ensures r == js.(st := r.st) && r.st.nodes == js.st.nodes && r.st.moduleDefs == js.st.moduleDefs
    ensures r.st.moduleToFile == js.st.moduleToFile && js.st.relations <= r.st.relations
    ensures |r.st.relations| <= |js.st.relations| + 1 && |r.st.pending| <= |js.st.pending| + 1
    ensures js.st.pending <= r.st.pending
    ensures |r.st.pending| > |js.st.pending| ==>
      var p := r.st.pending[|js.st.pending|];
      p.BaseClass? && p.sourceId == classId && p.symbol == p.original && p.original in js.imports
      && p.modName == FirstSegment(js.imports[p.original], '/')
    ensures |r.st.relations| > |js.st.relations| ==>
      var e := r.st.relations[|js.st.relations|];
      e.source == classId && e.kind == Extends && |r.st.pending| == |js.st.pending|
  {
    match FirstHit(FindAll(c, {"class_heritage"}, []))
    case None => js
    case Some(heritage) =>
      match FirstHit(FindAll(heritage, {"identifier"}, []))
      case None => js
      case Some(p) =>
        if p.text in js.imports then
          js.(st := AddPending(js.st, BaseClass(classId, FirstSegment(js.imports[p.text], '/'), p.text, p.text)))
        else
          js.(st := AddRelation(js.st, Relation(classId, NodeId(Class, js.file, p.text, 0), Extends, map[])))
  }

  /** The properties of a method node. */
  function MethodProps(m: Tree, file: string, className: string): map<string, Value> {
    map["is_method" := VBool(true), "parent_class" := VStr(className),
        "parameters" := VList(StrList(ParamNames(m))), "language" := VStr(LanguageOf(file)),
        "is_async" := VBool(IsAsync(m))]
  }

  /** The named method definitions found, each a `Method` node with a deduped `DEFINES`
      from the class. */
  function ParseMethods(js: JState, ms: seq<Hit>, classId: string, className: string): (r: JState)
    ensures r == js.(st := r.st) && js.st.relations <= r.st.relations && js.st.pending == r.st.pending
    ensures r.st.nodes.byId.Keys >= js.st.nodes.byId.Keys
    ensures r.st.moduleDefs == js.st.moduleDefs && r.st.moduleToFile == js.st.moduleToFile
    ensures forall i :: |js.st.relations| <= i < |r.st.relations| ==>
      r.st.relations[i].source == classId && r.st.relations[i].kind == Defines
    decreases |ms|
  {
    if |ms| == 0 then js
    else
      var m := ms[0].node;
      var j1 := match Field(m, "name")
        case Some(nm) =>
          var id := NodeId(Method, js.file, nm.text, m.line);
          var n := Node(id, Method, nm.text, js.file, m.line, Some(m.endLine), m.text, MethodProps(m, js.file, className));
          js.(st := AddRelation(AddNode(js.st, n), Relation(classId, id, Defines, map[])))
        case None => js;
      var r := ParseMethods(j1, ms[1..], classId, className);
      assert forall i :: |js.st.relations| <= i < |j1.st.relations| ==> r.st.relations[i] == j1.st.relations[i];
      r
  }

  /** The inheritance, then the methods of the first class body found. */
  function ClassBody(js: JState, c: Tree, id: string, name: string): (r: JState)
    ensures r == js.(st := r.st) && js.st.relations <= r.st.relations && js.st.pending <= r.st.pending
    ensures r.st.nodes.byId.Keys >= js.st.nodes.byId.Keys && r.st.moduleToFile == js.st.moduleToFile
  {
    var j2 := ParseInheritance(js, c, id);
    match FirstHit(FindAll(c, {"class_body"}, []))
    case Some(body) => ParseMethods(j2, FindAll(body, {"method_definition"}, []), id, name)
    case None => j2
  }

  /** `_parse_classes` for one class declaration with a non-empty name: the node (source
      text as snippet, `language` property), a deduped `CONTAINS`, the inheritance, the
      methods of the first class body found, then the index entry. */
  function ParseClass(js: JState, c: Tree, fileId: string, buildIndex: bool, modName: string): (r: JState)
    ensures r == js.(st := r.st) && js.st.relations <= r.st.relations && js.st.pending <= r.st.pending
    ensures r.st.nodes.byId.Keys >= js.st.nodes.byId.Keys && r.st.moduleToFile == js.st.moduleToFile
    ensures ClassName(c).None? || ClassName(c).value == "" ==> r == js
    ensures ClassName(c).Some? && ClassName(c).value != "" ==>
      var id := NodeId(Class, js.file, ClassName(c).value, c.line);
      && id in r.st.nodes.byId
      && (buildIndex && modName != "" ==>
            modName in r.st.moduleDefs && ClassName(c).value in r.st.moduleDefs[modName]
            && r.st.moduleDefs[modName][ClassName(c).value] == id)
  {
    match ClassName(c)
    case None => js
    case Some(name) =>
      if name == "" then js
      else
        var id := NodeId(Class, js.file, name, c.line);
        var n := Node(id, Class, name, js.file, c.line, Some(c.endLine), c.text, map["language" := VStr(LanguageOf(js.file))]);
        var j1 := js.(st := AddRelation(AddNode(js.st, n), Relation(fileId, id, Contains, map[])));
        var j3 := ClassBody(j1, c, id, name);
        js.(st := if buildIndex && modName != "" then IndexSymbol(j3.st, modName, name, id) else j3.st)
  }

  /** Every class declaration found, nested ones included. */
  function ParseClasses(js: JState, hits: seq<Hit>, fileId: string, buildIndex: bool, modName: string): (r: JState)
    ensures r == js.(st := r.st) && js.st.relations <= r.st.relations && js.st.pending <= r.st.pending
    ensures r.st.nodes.byId.Keys >= js.st.nodes.byId.Keys && r.st.moduleToFile == js.st.moduleToFile
    decreases |hits|
  {
    if |hits| == 0 then js
    else ParseClasses(ParseClass(js, hits[0].node, fileId, buildIndex, modName), hits[1..], fileId, buildIndex, modName)
  }

  // ---------------------------------------------------------------------------------
  // Variables

  /** The variable pass: the adapter, the names seen so far, and the names emitted, in
      order. */
  datatype Scan = Scan(js: JState, seen: set<string>, emitted: seq<string>)

  /** The emitted names are pairwise distinct and are exactly the names seen. */
  ghost predicate ScanOk(v: Scan) {
    && (forall i, j :: 0 <= i < j < |v.emitted| ==> v.emitted[i] != v.emitted[j])
    && (forall k :: k in v.seen <==> k in v.emitted)
  }

  /** Whether a declarator's own children include an arrow function. */
  predicate HasArrowChild(d: Tree) {
    exists i :: 0 <= i < |d.children| && d.children[i].kind == "arrow_function"
  }

  /** Every node that `b` adds or changes over `a` is a `Variable` whose
      `declaration_type` is one of `types`. */
  predicate TypedNew(a: NodeMap, b: NodeMap, types: set<string>) {
    forall k :: k in b.byId && !(k in a.byId && b.byId[k] == a.byId[k]) ==>
      && b.byId[k].kind == Variable && "declaration_type" in b.byId[k].props
      && b.byId[k].props["declaration_type"].VStr? && b.byId[k].props["declaration_type"].str in types
  }

  lemma TypedNewTrans(a: NodeMap, b: NodeMap, c: NodeMap, types: set<string>)
    requires TypedNew(a, b, types) && TypedNew(b, c, types)
    ensures TypedNew(a, c, types)
  {
    forall k | k in c.byId && !(k in a.byId && c.byId[k] == a.byId[k])
      ensures c.byId[k].kind == Variable && "declaration_type" in c.byId[k].props
      ensures c.byId[k].props["declaration_type"].VStr? && c.byId[k].props["declaration_type"].str in types
    {
      if k in b.byId && c.byId[k] == b.byId[k] {
        assert !(k in a.byId && b.byId[k] == a.byId[k]);
      }
    }
  }

  /** One direct child of a declaration: a `variable_declarator` with a name not seen
      before and, for `const`/`let`, no arrow function among its own children gives a
      `Variable` node at the declarator's line whose `declaration_type` is the
      declaration's type, and a deduped `CONTAINS`; any other child emits nothing. */
  function Declarator(v: Scan, d: Tree, declType: string, skipArrows: bool, fileId: string): (r: Scan)
    ensures ScanOk(v) ==> ScanOk(r)
    ensures v.emitted <= r.emitted && |r.emitted| <= |v.emitted| + 1
    ensures r.js == v.js.(st := r.js.st) && v.js.st.relations <= r.js.st.relations && r.js.st.pending == v.js.st.pending
    ensures r.js.st.nodes.byId.Keys >= v.js.st.nodes.byId.Keys
    ensures r.js.st.moduleDefs == v.js.st.moduleDefs && r.js.st.moduleToFile == v.js.st.moduleToFile
    ensures skipArrows && HasArrowChild(d) ==> r == v
    ensures |r.emitted| > |v.emitted| <==>
      d.kind == "variable_declarator" && !(skipArrows && HasArrowChild(d))
      && Field(d, "name").Some? && Field(d, "name").value.text !in v.seen
    ensures |r.emitted| > |v.emitted| ==>
      var name := r.emitted[|v.emitted|];
      var id := NodeId(Variable, v.js.file, name, d.line);
      && name == Field(d, "name").value.text && name !in v.seen && HasKind(r.js.st.nodes, id, Variable)
      && "declaration_type" in r.js.st.nodes.byId[id].props
      && r.js.st.nodes.byId[id].props["declaration_type"] == VStr(declType)
    ensures TypedNew(v.js.st.nodes, r.js.st.nodes, {declType})
  {
    if d.kind != "variable_declarator" || (skipArrows && HasArrowChild(d)) then v
    else match Field(d, "name")
      case None => v
      case Some(nm) =>
        if nm.text in v.seen then v else EmitVariable(v, nm.text, d.line, declType, fileId)
  }

  /** The emitting branch of `Declarator`: a `Variable` node for a new name, typed by
      the declaration, with a deduped `CONTAINS` from the file. */
  function EmitVariable(v: Scan, name: string, line: nat, declType: string, fileId: string): (r: Scan)
    requires name !in v.seen
    ensures ScanOk(v) ==> ScanOk(r)
    ensures r.seen == v.seen + {name} && r.emitted == v.emitted + [name]
    ensures r.js == v.js.(st := r.js.st) && v.js.st.relations <= r.js.st.relations && r.js.st.pending == v.js.st.pending
    ensures r.js.st.moduleDefs == v.js.st.moduleDefs && r.js.st.moduleToFile == v.js.st.moduleToFile
    ensures var id := NodeId(Variable, v.js.file, name, line);
      && r.js.st.nodes.byId.Keys == v.js.st.nodes.byId.Keys + {id} && HasKind(r.js.st.nodes, id, Variable)
      && "declaration_type" in r.js.st.nodes.byId[id].props
      && r.js.st.nodes.byId[id].props["declaration_type"] == VStr(declType)
    ensures TypedNew(v.js.st.nodes, r.js.st.nodes, {declType})
  {
    var id := NodeId(Variable, v.js.file, name, line);
    var props := map["declaration_type" := VStr(declType), "language" := VStr(LanguageOf(v.js.file))];
    var n := MakeNode(id, Variable, name, v.js.file, line, None, props);
    var st1 := AddNode(v.js.st, n);
    var st2 := AddRelation(st1, Relation(fileId, id, Contains, map[]));
    assert st2.nodes.byId[id] == n && n.props["declaration_type"] == VStr(declType);
    PutTypedNew(v.js.st.nodes, id, n, declType);
    var r := Scan(v.js.(st := st2), v.seen + {name}, v.emitted + [name]);
    assert ScanOk(v) ==> ScanOk(r) by {
      if ScanOk(v) {
        FreshNameKeepsScanOk(v, r, name);
      }
    }
    r
  }

  /** Recording one typed variable node adds only that typed node. */
  lemma PutTypedNew(m: NodeMap, id: string, n: Node, declType: string)
    requires n.kind == Variable && "declaration_type" in n.props && n.props["declaration_type"] == VStr(declType)
    ensures TypedNew(m, Put(m, id, n), {declType})
  {
  }

  /** Emitting a name not seen before keeps the emitted names distinct and equal to
      the names seen. */
  lemma FreshNameKeepsScanOk(v: Scan, r: Scan, name: string)
    requires ScanOk(v) && name !in v.seen
    requires r.seen == v.seen + {name} && r.emitted == v.emitted + [name]
    ensures ScanOk(r)
  {
    assert forall i :: 0 <= i < |v.emitted| ==> v.emitted[i] in v.seen;
  }

  /** The direct children of one declaration, in order. */
  function Declarators(v: Scan, ds: seq<Tree>, declType: string, skipArrows: bool, fileId: string): (r: Scan)
    ensures ScanOk(v) ==> ScanOk(r)
    ensures v.emitted <= r.emitted
    ensures r.js == v.js.(st := r.js.st) && v.js.st.relations <= r.js.st.relations && r.js.st.pending == v.js.st.pending
    ensures r.js.st.nodes.byId.Keys >= v.js.st.nodes.byId.Keys
    ensures r.js.st.moduleDefs == v.js.st.moduleDefs && r.js.st.moduleToFile == v.js.st.moduleToFile
    ensures TypedNew(v.js.st.nodes, r.js.st.nodes, {declType})
    decreases |ds|
  {
    if |ds| == 0 then v
    else
      var v1 := Declarator(v, ds[0], declType, skipArrows, fileId);
      var r := Declarators(v1, ds[1..], declType, skipArrows, fileId);
      TypedNewTrans(v.js.st.nodes, v1.js.st.nodes, r.js.st.nodes, {declType});
      r
  }

  /** The declaration type of a `lexical_declaration`: its first `const` or `let`
      keyword, "let" when there is none. */
  function LexicalType(decl: Tree): (r: string)
    ensures r == "const" || r == "let"
    ensures (forall i :: 0 <= i < |decl.children| ==> decl.children[i].kind !in {"const", "let"}) ==> r == "let"
    ensures (exists i :: 0 <= i < |decl.children| && decl.children[i].kind in {"const", "let"}) ==>
      exists i :: 0 <= i < |decl.children| && decl.children[i].kind == r
        && forall j :: 0 <= j < i ==> decl.children[j].kind !in {"const", "let"}
  {
    match FirstOfKinds(decl.children, {"const", "let"})
    case Some(k) => k.kind
    case None => "let"
  }

  /** The top-level declarations found, in order: `const`/`let` declarations skip
      declarators holding an arrow function and give their nodes the declaration's
      keyword; `var` declarations skip nothing and give `var`. */
  function Declarations(v: Scan, hits: seq<Hit>, isVar: bool, fileId: string): (r: Scan)
    ensures ScanOk(v) ==> ScanOk(r)
    ensures v.emitted <= r.emitted
    ensures r.js == v.js.(st := r.js.st) && v.js.st.relations <= r.js.st.relations && r.js.st.pending == v.js.st.pending
    ensures r.js.st.nodes.byId.Keys >= v.js.st.nodes.byId.Keys
    ensures r.js.st.moduleDefs == v.js.st.moduleDefs && r.js.st.moduleToFile == v.js.st.moduleToFile
    ensures isVar ==> TypedNew(v.js.st.nodes, r.js.st.nodes, {"var"})
    ensures !isVar ==> TypedNew(v.js.st.nodes, r.js.st.nodes, {"const", "let"})
    decreases |hits|
  {
    if |hits| == 0 then v
    else
      var h := hits[0];
      var types: set<string> := if isVar then {"var"} else {"const", "let"};
      var v1 := if !TopLevel(h.ancestors) then v
        else if isVar then Declarators(v, h.node.children, "var", false, fileId)
        else Declarators(v, h.node.children, LexicalType(h.node), true, fileId);
      assert TypedNew(v.js.st.nodes, v1.js.st.nodes, types);
      var r := Declarations(v1, hits[1..], isVar, fileId);
      TypedNewTrans(v.js.st.nodes, v1.js.st.nodes, r.js.st.nodes, types);
      r
  }

  /** A top-level `var` declarator keeps an arrow function value: unlike `const` and
      `let`, it still gives a `var` variable node. */
  lemma VarKeepsArrowDeclarator(v: Scan, h: Hit, d: Tree, fileId: string)
    requires TopLevel(h.ancestors) && h.node.children == [d]
    requires d.kind == "variable_declarator" && HasArrowChild(d)
    requires Field(d, "name").Some? && Field(d, "name").value.text !in v.seen
    ensures var r := Declarations(v, [h], true, fileId);
      var id := NodeId(Variable, v.js.file, Field(d, "name").value.text, d.line);
      && r.emitted == v.emitted + [Field(d, "name").value.text]
      && HasKind(r.js.st.nodes, id, Variable) && r.js.st.nodes.byId[id].props["declaration_type"] == VStr("var")
    ensures Declarations(v, [h], false, fileId) == v
  {
    var r1 := Declarator(v, d, "var", false, fileId);
    assert Declarators(r1, [], "var", false, fileId) == r1;
    assert Declarators(v, [d], "var", false, fileId) == r1;
    var t := LexicalType(h.node);
    assert Declarators(v, [d], t, true, fileId) == Declarators(Declarator(v, d, t, true, fileId), [], t, true, fileId);
  }

  /** `_parse_variables`: `const`/`let` declarations first, then `var` ones, sharing one
      set of processed names, so a name is emitted at most once per file. */
  function ParseVariables(js: JState, root: Tree, fileId: string): (r: Scan)
    ensures ScanOk(r)
    ensures r.js == js.(st := r.js.st) && js.st.relations <= r.js.st.relations && r.js.st.pending == js.st.pending
    ensures r.js.st.nodes.byId.Keys >= js.st.nodes.byId.Keys
    ensures r.js.st.moduleDefs == js.st.moduleDefs && r.js.st.moduleToFile == js.st.moduleToFile
  {
    var v0 := Scan(js, {}, []);
    var v1 := Declarations(v0, Find(root, "lexical_declaration"), false, fileId);
    Declarations(v1, Find(root, "variable_declaration"), true, fileId)
  }

  // ---------------------------------------------------------------------------------
  // Exports

  /** Whether the node is the current file's and has the exported name. */
  predicate ExportMatch(n: Node, name: string, file: string) {
    n.name == name && n.filePath == file
  }

  /** A node's properties once it is marked as a named export. */
  function Marked(props: map<string, Value>): map<string, Value> {
    props["exported" := VBool(true)]["export_type" := VStr("named")]
  }

  /** `exported = True`, `export_type = "named"` on every node of the file with that name. */
  function MarkExported(m: NodeMap, name: string, file: string): (r: NodeMap)
    ensures r.keys == m.keys && r.byId.Keys == m.byId.Keys
    ensures forall k :: k in m.byId ==>
      r.byId[k] == if ExportMatch(m.byId[k], name, file)
        then m.byId[k].(props := Marked(m.byId[k].props))
        else m.byId[k]
  {
    NodeMap(m.keys, map k | k in m.byId :: if ExportMatch(m.byId[k], name, file)
      then m.byId[k].(props := Marked(m.byId[k].props))
      else m.byId[k])
  }

  /** The name a directly exported declaration gives: a function's name field, a class's
      name, or the name of the first declarator of a `const`/`let`. */
  function ExportedName(c: Tree): Option<string> {
    if c.kind == "function_declaration" then
      match Field(c, "name") case Some(n) => Some(n.text) case None => None
    else if c.kind == "class_declaration" then ClassName(c)
    else if c.kind == "lexical_declaration" then
      match FirstHit(FindAll(c, {"variable_declarator"}, []))
      case Some(d) => (match Field(d, "name") case Some(n) => Some(n.text) case None => None)
      case None => None
    else None
  }

  /** Marks each name in turn: every node of the file whose name is listed ends up marked
      as a named export, once or many times alike, and every other node is unchanged. */
  function MarkAll(m: NodeMap, names: seq<string>, file: string): (r: NodeMap)
    ensures r.keys == m.keys && r.byId.Keys == m.byId.Keys
    ensures forall k :: k in m.byId && m.byId[k].filePath != file ==> r.byId[k] == m.byId[k]
    ensures forall k :: k in m.byId && m.byId[k].filePath == file && m.byId[k].name in names ==>
      r.byId[k] == m.byId[k].(props := Marked(m.byId[k].props))
    ensures forall k :: k in m.byId && m.byId[k].name !in names ==> r.byId[k] == m.byId[k]
    decreases |names|
  {
    if |names| == 0 then m
    else
      var m1 := MarkExported(m, names[0], file);
      var r := MarkAll(m1, names[1..], file);
      assert forall p :: Marked(Marked(p)) == Marked(p);
      assert forall n :: n in names <==> n == names[0] || n in names[1..];
      r
  }

  /** The names one child of an export statement marks: the specifiers of an export
      clause, or the non-empty name of an exported declaration. */
  function ExportChildNames(c: Tree): seq<string> {
    if c.kind == "export_clause" then FirstIdentifiers(FindAll(c, {"export_specifier"}, []))
    else match ExportedName(c)
      case Some(n) => if n != "" then [n] else []
      case None => []
  }

  function ExportNames(cs: seq<Tree>): seq<string>
    decreases |cs|
  {
    if |cs| == 0 then [] else ExportChildNames(cs[0]) + ExportNames(cs[1..])
  }

  function ExportHitsNames(hits: seq<Hit>): seq<string>
    decreases |hits|
  {
    if |hits| == 0 then [] else ExportNames(hits[0].node.children) + ExportHitsNames(hits[1..])
  }

  /** `_parse_exports`: every node of the current file whose name an export statement
      gives is marked as a named export; no other node changes and none is added or
      removed. */
  function ParseExports(js: JState, root: Tree): (r: JState)
    ensures r == js.(st := js.st.(nodes := r.st.nodes))
    ensures r.st.nodes.keys == js.st.nodes.keys && r.st.nodes.byId.Keys == js.st.nodes.byId.Keys
    ensures forall k :: k in js.st.nodes.byId && js.st.nodes.byId[k].filePath != js.file ==>
      r.st.nodes.byId[k] == js.st.nodes.byId[k]
    ensures var names := ExportHitsNames(Find(root, "export_statement"));
      forall k :: k in js.st.nodes.byId ==>
        r.st.nodes.byId[k] ==
          if js.st.nodes.byId[k].filePath == js.file && js.st.nodes.byId[k].name in names
          then js.st.nodes.byId[k].(props := Marked(js.st.nodes.byId[k].props))
          else js.st.nodes.byId[k]
  {
    js.(st := js.st.(nodes := MarkAll(js.st.nodes, ExportHitsNames(Find(root, "export_statement")), js.file)))
  }

  /** Marking a name leaves a node of the file with that name marked as a named export. */
  lemma MarkedNodeIsExported(m: NodeMap, name: string, file: string, k: string)
    requires k in m.byId && ExportMatch(m.byId[k], name, file)
    ensures var p := MarkExported(m, name, file).byId[k].props;
      "exported" in p && p["exported"] == VBool(true) && "export_type" in p && p["export_type"] == VStr("named")
  {
  }

  // ---------------------------------------------------------------------------------
  // Files

  /** `parse_file`: the alias table is emptied; when the source cannot be read the result
      is empty; otherwise the file node, the module registration, then imports, classes,
      function declarations, arrow functions, variables and export marks. */
  function ParseFile(js: JState, path: string, root: Option<Tree>, buildIndex: bool): (r: (JState, (NodeMap, seq<Relation>)))
    ensures r.0.file == path && js.st.relations <= r.0.st.relations && js.st.pending <= r.0.st.pending
    ensures root.None? ==> r.1 == (NoNodes(), []) && r.0.st == js.st && r.0.imports == map[]
    ensures root.Some? ==>
      && r.1 == (r.0.st.nodes, r.0.st.relations)
      && FileId(path) in r.0.st.nodes.byId
      && (buildIndex ==> ModuleName(path) in r.0.st.moduleToFile && r.0.st.moduleToFile[ModuleName(path)] == FileId(path))
  {
    var j0 := js.(file := path, imports := map[]);
    match root
    case None => (j0, (NoNodes(), []))
    case Some(t) =>
      var (st1, fid) := CreateFileNode(j0.st, path);
      var modName := ModuleName(path);
      var j1 := j0.(st := RegisterModule(st1, modName, fid, buildIndex));
      var j7 := ParseContents(j1, t, fid, buildIndex, modName);
      (j7, (j7.st.nodes, j7.st.relations))
  }

  /** The passes over an opened file: imports, classes, function declarations, arrow
      functions, variables, exports. */
  function ParseContents(j1: JState, t: Tree, fid: string, buildIndex: bool, modName: string): (r: JState)
    ensures r.file == j1.file && r.st.moduleToFile == j1.st.moduleToFile
    ensures j1.st.relations <= r.st.relations && j1.st.pending <= r.st.pending
    ensures j1.st.nodes.byId.Keys <= r.st.nodes.byId.Keys
  {
    var j2 := ImportPass(j1, t, fid);
    var j3 := ParseClasses(j2, Find(t, "class_declaration"), fid, buildIndex, modName);
    var j4 := ParseFunctionDecls(j3, Find(t, "function_declaration"), fid, buildIndex, modName);
    var j5 := ParseArrowFunctions(j4, Find(t, "lexical_declaration"), fid, buildIndex, modName);
    var j6 := ParseVariables(j5, t, fid).js;
    ExportPass(j6, t)
  }

  /** The import pass, as the later passes see it: only pending references and the
      alias table change. */
  function ImportPass(js: JState, t: Tree, fid: string): (r: JState)
    ensures r.file == js.file && r.st.relations == js.st.relations && js.st.pending <= r.st.pending
    ensures r.st.nodes == js.st.nodes && r.st.moduleToFile == js.st.moduleToFile
  {
    ParseImports(js, t, fid)
  }

  /** The export pass, as the file's result sees it: only node properties change. */
  function ExportPass(js: JState, t: Tree): (r: JState)
    ensures r.file == js.file && r.st.relations == js.st.relations && r.st.pending == js.st.pending
    ensures r.st.nodes.byId.Keys == js.st.nodes.byId.Keys && r.st.moduleToFile == js.st.moduleToFile
  {
    ParseExports(js, t)
  }
}
