/** The tree-sitter JavaScript/TypeScript parser (`TypeScriptParser`,
    typescript_parser.py): per-file extraction of functions, arrow functions, classes
    with inheritance and methods, top-level variables, imports and export marks, then a
    directory-wide second pass resolving pending imports against the module index.
    Unlike the adapters, its first pass appends relations without deduplication, and
    its second pass deduplicates on its own key `source:type:target`. */
module TsParser {

  import opened Wrappers
  import opened Text
  import opened Schema
  import opened Syntax
  import opened AdapterState
  import Js = JsAdapter

  /** The three tree-sitter grammars the parser holds. */
  datatype Grammar = JavaScript | TypeScript | Tsx

  /** `_get_parser_for_file` (and `_get_query_language`): chosen on the lower-cased
      extension; `.jsx` and anything unknown use the JavaScript grammar. */
  function GrammarFor(path: string): (r: Grammar)
    ensures r == TypeScript <==> Js.LanguageOf(path) == "typescript"
    ensures r == Tsx <==> Js.LanguageOf(path) == "tsx"
    ensures r == JavaScript <==> Js.LanguageOf(path) == "javascript" || Js.LanguageOf(path) == "jsx"
  {
    var ext := Lower(SplitExt(path).1);
    if ext == ".ts" then TypeScript else if ext == ".tsx" then Tsx else JavaScript
  }

  /** Which of the two ways to order the extraction steps. `AsWritten` is the order of
      `_parse_tree`: functions, classes, variables, imports, exports. `ImportsFirst`
      reads the imports before everything else, so that inheritance sees them. */
  datatype Order = AsWritten | ImportsFirst

  /** The last child of a kind: what a loop over the children that overwrites a variable
      on each match leaves behind. */
  function LastOfKind(ts: seq<Tree>, kind: string): (r: Option<Tree>)
    ensures r.Some? ==> r.value.kind == kind && r.value in ts
    ensures r.None? <==> forall i :: 0 <= i < |ts| ==> ts[i].kind != kind
    decreases |ts|
  {
    if |ts| == 0 then None
    else if ts[|ts| - 1].kind == kind then Some(ts[|ts| - 1])
    else LastOfKind(ts[..|ts| - 1], kind)
  }

  // ---------------------------------------------------------------------------------
  // Imports

  /** The module specifier: the last string child, quotes stripped from both ends. */
  function ImportSource(n: Tree): Option<string> {
    match LastOfKind(n.children, "string")
    case Some(s) => Some(StripChars(s.text, {'"', '\''}))
    case None => None
  }

  /** Every identifier of every import specifier, so `{a as b}` gives both `a` and `b`. */
  function SpecifierNames(cs: seq<Tree>, kind: string): (r: seq<string>)
    decreases |cs|
  {
    if |cs| == 0 then []
    else (if cs[0].kind == kind then TextsOfKind(cs[0].children, "identifier") else []) + SpecifierNames(cs[1..], kind)
  }

  /** `_extract_import_names`: per child of the clause, a default import's identifier,
      the specifiers of a `{ ... }` group, or the identifiers of a namespace import. */
  function ClauseNames(cs: seq<Tree>): seq<string>
    decreases |cs|
  {
    if |cs| == 0 then []
    else
      var here :=
        if cs[0].kind == "identifier" then [cs[0].text]
        else if cs[0].kind == "named_imports" then SpecifierNames(cs[0].children, "import_specifier")
        else if cs[0].kind == "namespace_import" then TextsOfKind(cs[0].children, "identifier")
        else [];
      here + ClauseNames(cs[1..])
  }

  /** The names of the last import clause child. */
  function ImportedNames(n: Tree): seq<string> {
    match LastOfKind(n.children, "import_clause")
    case Some(c) => ClauseNames(c.children)
    case None => []
  }

  /** A renamed specifier binds both the exported name and the local one. */
  lemma RenamedSpecifierBindsBoth(a: Tree, kw: Tree, b: Tree)
    requires a.kind == "identifier" && kw.kind == "as" && b.kind == "identifier"
    ensures SpecifierNames([Tree("import_specifier", "", map[], [a, kw, b], 0, 0)], "import_specifier") == [a.text, b.text]
  {
    var s := Tree("import_specifier", "", map[], [a, kw, b], 0, 0);
    assert TextsOfKind(s.children, "identifier") == [a.text] + TextsOfKind([kw, b], "identifier");
    assert TextsOfKind([kw, b], "identifier") == TextsOfKind([b], "identifier");
    assert [s][1..] == [];
  }

  /** The bindings of one import statement: none without a non-empty specifier. */
  function StatementBindings(fileId: string, n: Tree): (r: seq<Binding>)
    ensures ImportSource(n).None? || ImportSource(n).value == "" ==> r == []
    ensures ImportSource(n).Some? && ImportSource(n).value != "" ==> r == Js.NameBindings(fileId, ImportSource(n).value, ImportedNames(n))
  {
    match ImportSource(n)
    case Some(src) => if src == "" then [] else Js.NameBindings(fileId, src, ImportedNames(n))
    case None => []
  }

  function HitsBindings(fileId: string, hits: seq<Hit>): (r: seq<Binding>)
    ensures forall i :: 0 <= i < |r| ==>
      (r[i].ref.NameImport? && r[i].ref.sourceId == fileId
       && r[i].ref.symbol == r[i].alias && r[i].ref.modName == FirstSegment(r[i].target, '/'))
    decreases |hits|
  {
    if |hits| == 0 then []
    else StatementBindings(fileId, hits[0].node) + HitsBindings(fileId, hits[1..])
  }

  /** The bindings of every import statement of the file. */
  function FileBindings(ts: Js.JState, root: Tree): seq<Binding> {
    HitsBindings(FileId(ts.file), Find(root, "import_statement"))
  }

  /** `_extract_imports`: every imported name enters the alias table and gets a pending
      `IMPORTS` from the file node; nothing else changes. */
  function ExtractImports(ts: Js.JState, root: Tree): (r: Js.JState)
    ensures r == ts.(imports := r.imports, st := ts.st.(pending := r.st.pending))
    ensures var bs := FileBindings(ts, root);
      && r.st.pending == ts.st.pending + RefsOf(bs)
      && (forall i :: 0 <= i < |bs| ==> bs[i].alias in r.imports)
      && (forall k :: k in ts.imports ==> k in r.imports)
  {
    var bs := FileBindings(ts, root);
    ts.(imports := BindAll(ts.imports, bs), st := ts.st.(pending := ts.st.pending + RefsOf(bs)))
  }

  // ---------------------------------------------------------------------------------
  // Functions

  /** `_extract_function_params`: over every `formal_parameters` child, the bare
      identifiers and every identifier of a TypeScript required or optional parameter. */
  function ParamNames(def: Tree): seq<string> {
    FormalLists(def.children)
  }

  function FormalLists(cs: seq<Tree>): seq<string>
    decreases |cs|
  {
    if |cs| == 0 then []
    else (if cs[0].kind == "formal_parameters" then ParamsOf(cs[0].children) else []) + FormalLists(cs[1..])
  }

  function ParamsOf(cs: seq<Tree>): seq<string>
    decreases |cs|
  {
    if |cs| == 0 then []
    else
      var here :=
        if cs[0].kind == "identifier" then [cs[0].text]
        else if cs[0].kind == "required_parameter" || cs[0].kind == "optional_parameter" then TextsOfKind(cs[0].children, "identifier")
        else [];
      here + ParamsOf(cs[1..])
  }

  /** A `Function` node for `def`, with its text as snippet, a `CONTAINS` from the file
      node appended, and an index entry when `build_index` is set and the module has a
      name. */
  function AddFunction(ts: Js.JState, def: Tree, name: string, style: string, buildIndex: bool, modName: string): (r: Js.JState)
    ensures r == ts.(st := r.st) && r.st.pending == ts.st.pending && r.st.moduleToFile == ts.st.moduleToFile
    ensures r.st.relations == ts.st.relations + [Relation(FileId(ts.file), NodeId(Function, ts.file, name, def.line), Contains, map[])]
    ensures r.st.nodes.byId.Keys == ts.st.nodes.byId.Keys + {NodeId(Function, ts.file, name, def.line)}
    ensures HasKind(r.st.nodes, NodeId(Function, ts.file, name, def.line), Function)
  {
    var id := NodeId(Function, ts.file, name, def.line);
    var props := map["is_method" := VBool(false), "parameters" := VList(Js.StrList(ParamNames(def))),
                     "language" := VStr(Js.LanguageOf(ts.file)), "function_style" := VStr(style),
                     "is_async" := VBool(Js.IsAsync(def))];
    var st1 := Append(AddNode(ts.st, Node(id, Function, name, ts.file, def.line, Some(def.endLine), def.text, props)),
                      Relation(FileId(ts.file), id, Contains, map[]));
    ts.(st := if buildIndex && modName != "" then IndexSymbol(st1, modName, name, id) else st1)
  }

  /** Whether a function declaration outside every class, with a non-empty identifier
      name, gives a node. */
  function DeclaredName(h: Hit): Option<string> {
    if Js.InsideClass(h.ancestors) then None
    else match Field(h.node, "name")
      case Some(n) => if n.kind == "identifier" && n.text != "" then Some(n.text) else None
      case None => None
  }

  /** The standard half of `_extract_functions`. */
  function ExtractDeclarations(ts: Js.JState, hits: seq<Hit>, buildIndex: bool, modName: string): (r: Js.JState)
    ensures r == ts.(st := r.st) && r.st.pending == ts.st.pending && r.st.moduleToFile == ts.st.moduleToFile
    ensures ts.st.relations <= r.st.relations && r.st.nodes.byId.Keys >= ts.st.nodes.byId.Keys
    ensures |r.st.relations| - |ts.st.relations| == |hits| - |Skipped(hits)|
    ensures forall i :: |ts.st.relations| <= i < |r.st.relations| ==>
      r.st.relations[i].source == FileId(ts.file) && r.st.relations[i].kind == Contains
    decreases |hits|
  {
    if |hits| == 0 then ts
    else
      var t1 := match DeclaredName(hits[0])
        case Some(name) => AddFunction(ts, hits[0].node, name, "standard", buildIndex, modName)
        case None => ts;
      var r := ExtractDeclarations(t1, hits[1..], buildIndex, modName);
      assert forall i :: |ts.st.relations| <= i < |t1.st.relations| ==> r.st.relations[i] == t1.st.relations[i];
      r
  }

  /** The declarations that give no node: inside a class, or without a usable name. */
  function Skipped(hits: seq<Hit>): (r: seq<Hit>)
    ensures |r| <= |hits|
    decreases |hits|
  {
    if |hits| == 0 then []
    else (if DeclaredName(hits[0]).None? then [hits[0]] else []) + Skipped(hits[1..])
  }

  /** A declarator directly under `const`/`let` whose value is an arrow function, outside
      every class: its name and the arrow function. */
  function ArrowOf(h: Hit): Option<(string, Tree)> {
    if ParentKind(h) != "lexical_declaration" || Js.InsideClass(h.ancestors) then None
    else match (Field(h.node, "name"), Field(h.node, "value"))
      case (Some(n), Some(v)) =>
        if n.kind == "identifier" && v.kind == "arrow_function" then Some((n.text, v)) else None
      case _ => None
  }

  /** The arrow-function half of `_extract_functions`, over every declarator of the file
      in document order; the node sits at the arrow function's line. */
  function ExtractArrows(ts: Js.JState, hits: seq<Hit>, buildIndex: bool, modName: string): (r: Js.JState)
    ensures r == ts.(st := r.st) && r.st.pending == ts.st.pending && r.st.moduleToFile == ts.st.moduleToFile
    ensures ts.st.relations <= r.st.relations && r.st.nodes.byId.Keys >= ts.st.nodes.byId.Keys
    ensures forall i :: |ts.st.relations| <= i < |r.st.relations| ==>
      r.st.relations[i].source == FileId(ts.file) && r.st.relations[i].kind == Contains
    decreases |hits|
  {
    if |hits| == 0 then ts
    else
      var t1 := match ArrowOf(hits[0])
        case Some(a) => AddFunction(ts, a.1, a.0, "arrow", buildIndex, modName)
        case None => ts;
      var r := ExtractArrows(t1, hits[1..], buildIndex, modName);
      assert forall i :: |ts.st.relations| <= i < |t1.st.relations| ==> r.st.relations[i] == t1.st.relations[i];
      r
  }

  /** `_extract_functions`: standard declarations, then arrow functions. */
  function ExtractFunctions(ts: Js.JState, root: Tree, buildIndex: bool, modName: string): (r: Js.JState)
    ensures r == ts.(st := r.st) && r.st.pending == ts.st.pending && r.st.moduleToFile == ts.st.moduleToFile
    ensures ts.st.relations <= r.st.relations && r.st.nodes.byId.Keys >= ts.st.nodes.byId.Keys
    ensures forall i :: |ts.st.relations| <= i < |r.st.relations| ==>
      r.st.relations[i].source == FileId(ts.file) && r.st.relations[i].kind == Contains
  {
    var t1 := ExtractDeclarations(ts, Find(root, "function_declaration"), buildIndex, modName);
    var r := ExtractArrows(t1, FindAll(root, {"variable_declarator"}, []), buildIndex, modName);
    assert forall i :: |ts.st.relations| <= i < |t1.st.relations| ==> r.st.relations[i] == t1.st.relations[i];
    r
  }

  // ---------------------------------------------------------------------------------
  // Classes

  /** Every identifier child of every `class_heritage` child. */
  function HeritageParents(cs: seq<Tree>): seq<string>
    decreases |cs|
  {
    if |cs| == 0 then []
    else (if cs[0].kind == "class_heritage" then TextsOfKind(cs[0].children, "identifier") else []) + HeritageParents(cs[1..])
  }

  /** The edges to same-file parents, `Class:{file}:{parent}:0`. */
  function LocalParentEdges(classId: string, file: string, parents: seq<string>): (r: seq<Relation>)
    ensures |r| == |parents|
    ensures forall i :: 0 <= i < |r| ==> r[i] == Relation(classId, NodeId(Class, file, parents[i], 0), Extends, map[])
  {
    seq(|parents|, i requires 0 <= i < |parents| => Relation(classId, NodeId(Class, file, parents[i], 0), Extends, map[]))
  }

  /** The deferred reference for an imported parent: module is the alias target's first
      '.' segment, name its last. */
  function DeferredParent(classId: string, target: string, parent: string): (p: Pending)
    ensures p.BaseClass? && p.sourceId == classId && p.original == parent
    ensures p.modName == (if '.' in target then Split(target, '.')[0] else target)
    ensures p.symbol == (var parts := Split(target, '.'); if '.' in target then parts[|parts| - 1] else target)
  {
    FirstSegmentGuarded(target, '.');
    LastSegmentGuarded(target, '.');
    BaseClass(classId, FirstSegment(target, '.'), LastSegment(target, '.'), parent)
  }

  /** `_extract_class_inheritance`: each parent in the alias table becomes a pending
      `EXTENDS`; any other an appended edge to a same-file class. */
  function ParentRefs(ts: Js.JState, classId: string, parents: seq<string>): (r: Js.JState)
    ensures r == ts.(st := ts.st.(relations := r.st.relations, pending := r.st.pending))
    ensures ts.st.relations <= r.st.relations && ts.st.pending <= r.st.pending
    ensures |r.st.relations| - |ts.st.relations| + |r.st.pending| - |ts.st.pending| == |parents|
    decreases |parents|
  {
    if |parents| == 0 then ts
    else
      var p := parents[0];
      var t1 := if p in ts.imports then ts.(st := AddPending(ts.st, DeferredParent(classId, ts.imports[p], p)))
        else ts.(st := Append(ts.st, Relation(classId, NodeId(Class, ts.file, p, 0), Extends, map[])));
      ParentRefs(t1, classId, parents[1..])
  }

  /** With an empty alias table every parent is taken to be a class of the same file. */
  lemma {:induction false} ParentsWithoutImports(ts: Js.JState, classId: string, parents: seq<string>)
    requires ts.imports == map[]
    ensures var r := ParentRefs(ts, classId, parents);
      r.st.pending == ts.st.pending && r.st.relations == ts.st.relations + LocalParentEdges(classId, ts.file, parents)
    decreases |parents|
  {
    if |parents| > 0 {
      var p := parents[0];
      var e := Relation(classId, NodeId(Class, ts.file, p, 0), Extends, map[]);
      var t1 := ts.(st := Append(ts.st, e));
      assert ParentRefs(ts, classId, parents) == ParentRefs(t1, classId, parents[1..]);
      ParentsWithoutImports(t1, classId, parents[1..]);
      var rest := LocalParentEdges(classId, ts.file, parents[1..]);
      assert LocalParentEdges(classId, ts.file, parents) == [e] + rest;
      AppendAssoc(ts.st.relations, [e], rest);
    }
  }

  /** The pending references imported parents become, in order. */
  function DeferredParents(classId: string, imports: map<string, string>, parents: seq<string>): (r: seq<Pending>)
    requires forall i :: 0 <= i < |parents| ==> parents[i] in imports
    ensures |r| == |parents|
    ensures forall i :: 0 <= i < |parents| ==> r[i] == DeferredParent(classId, imports[parents[i]], parents[i])
  {
    seq(|parents|, i requires 0 <= i < |parents| => DeferredParent(classId, imports[parents[i]], parents[i]))
  }

  /** An imported first parent is deferred before the rest are looked at. */
  lemma ImportedParentStep(ts: Js.JState, classId: string, parents: seq<string>)
    requires |parents| > 0 && parents[0] in ts.imports
    ensures ParentRefs(ts, classId, parents)
      == ParentRefs(ts.(st := AddPending(ts.st, DeferredParent(classId, ts.imports[parents[0]], parents[0]))), classId, parents[1..])
  {
  }

  /** The deferred references of a list are the first one's, then the rest's. */
  lemma DeferredParentsCons(classId: string, imports: map<string, string>, parents: seq<string>)
    requires |parents| > 0 && forall i :: 0 <= i < |parents| ==> parents[i] in imports
    ensures DeferredParents(classId, imports, parents)
      == [DeferredParent(classId, imports[parents[0]], parents[0])] + DeferredParents(classId, imports, parents[1..])
  {
    var rest := parents[1..];
    assert forall i :: 0 <= i < |rest| ==> rest[i] == parents[i + 1];
  }

  /** Parents that are all imported names are all deferred, in order, and give no edge. */
  lemma {:induction false} ImportedParentsDeferred(ts: Js.JState, classId: string, parents: seq<string>)
    requires forall i :: 0 <= i < |parents| ==> parents[i] in ts.imports
    ensures var r := ParentRefs(ts, classId, parents);
      && r.st.relations == ts.st.relations
      && r.st.pending == ts.st.pending + DeferredParents(classId, ts.imports, parents)
    decreases |parents|
  {
    if |parents| > 0 {
      var p := parents[0];
      var d := DeferredParent(classId, ts.imports[p], p);
      var t1 := ts.(st := AddPending(ts.st, d));
      ImportedParentStep(ts, classId, parents);
      var rest := parents[1..];
      assert forall i :: 0 <= i < |rest| ==> rest[i] == parents[i + 1];
      ImportedParentsDeferred(t1, classId, rest);
      DeferredParentsCons(classId, ts.imports, parents);
      AppendAssoc(ts.st.pending, [d], DeferredParents(classId, ts.imports, rest));
    } else {
      assert DeferredParents(classId, ts.imports, parents) == [];
    }
  }

  /** The name of a method definition: its last property identifier, when not empty. */
  function MethodName(m: Tree): Option<string> {
    match LastOfKind(m.children, "property_identifier")
    case Some(n) => if n.text != "" then Some(n.text) else None
    case None => None
  }

  /** One method definition: a `Method` node under the class with a `DEFINES` edge. */
  function AddMethod(ts: Js.JState, m: Tree, classId: string, className: string): (r: Js.JState)
    ensures r == ts.(st := ts.st.(nodes := r.st.nodes, relations := r.st.relations))
    ensures MethodName(m).None? ==> r == ts
    ensures MethodName(m).Some? ==>
      var id := NodeId(Method, ts.file, MethodName(m).value, m.line);
      r.st.relations == ts.st.relations + [Relation(classId, id, Defines, map[])] && HasKind(r.st.nodes, id, Method)
    ensures r.st.nodes.byId.Keys >= ts.st.nodes.byId.Keys
  {
    match MethodName(m)
    case None => ts
    case Some(name) =>
      var id := NodeId(Method, ts.file, name, m.line);
      var props := map["is_method" := VBool(true), "parent_class" := VStr(className),
                       "parameters" := VList(Js.StrList(ParamNames(m))), "language" := VStr(Js.LanguageOf(ts.file)),
                       "is_async" := VBool(Js.IsAsync(m))];
      ts.(st := Append(AddNode(ts.st, Node(id, Method, name, ts.file, m.line, Some(m.endLine), m.text, props)),
                       Relation(classId, id, Defines, map[])))
  }

  /** The method definitions among the children of one class body. */
  function BodyMethods(ts: Js.JState, ms: seq<Tree>, classId: string, className: string): (r: Js.JState)
    ensures r == ts.(st := ts.st.(nodes := r.st.nodes, relations := r.st.relations))
    ensures ts.st.relations <= r.st.relations && r.st.nodes.byId.Keys >= ts.st.nodes.byId.Keys
    ensures forall i :: |ts.st.relations| <= i < |r.st.relations| ==>
      r.st.relations[i].source == classId && r.st.relations[i].kind == Defines
    decreases |ms|
  {
    if |ms| == 0 then ts
    else
      var t1 := if ms[0].kind == "method_definition" then AddMethod(ts, ms[0], classId, className) else ts;
      var r := BodyMethods(t1, ms[1..], classId, className);
      assert forall i :: |ts.st.relations| <= i < |t1.st.relations| ==> r.st.relations[i] == t1.st.relations[i];
      r
  }

  /** `_extract_class_methods`: the methods of every `class_body` child. */
  function ClassMethods(ts: Js.JState, cs: seq<Tree>, classId: string, className: string): (r: Js.JState)
    ensures r == ts.(st := ts.st.(nodes := r.st.nodes, relations := r.st.relations))
    ensures ts.st.relations <= r.st.relations && r.st.nodes.byId.Keys >= ts.st.nodes.byId.Keys
    ensures forall i :: |ts.st.relations| <= i < |r.st.relations| ==>
      r.st.relations[i].source == classId && r.st.relations[i].kind == Defines
    decreases |cs|
  {
    if |cs| == 0 then ts
    else
      var t1 := if cs[0].kind == "class_body" then BodyMethods(ts, cs[0].children, classId, className) else ts;
      var r := ClassMethods(t1, cs[1..], classId, className);
      assert forall i :: |ts.st.relations| <= i < |t1.st.relations| ==> r.st.relations[i] == t1.st.relations[i];
      r
  }

  /** The class node and its `CONTAINS` from the file node. */
  function AddClassNode(ts: Js.JState, c: Tree, name: string): (r: Js.JState)
    ensures r == ts.(st := ts.st.(nodes := r.st.nodes, relations := r.st.relations))
    ensures r.st.relations == ts.st.relations + [Relation(FileId(ts.file), NodeId(Class, ts.file, name, c.line), Contains, map[])]
    ensures r.st.nodes.byId.Keys == ts.st.nodes.byId.Keys + {NodeId(Class, ts.file, name, c.line)}
  {
    var id := NodeId(Class, ts.file, name, c.line);
    var n := Node(id, Class, name, ts.file, c.line, Some(c.endLine), c.text, map["language" := VStr(Js.LanguageOf(ts.file))]);
    ts.(st := Append(AddNode(ts.st, n), Relation(FileId(ts.file), id, Contains, map[])))
  }

  /** One class declaration of `_extract_classes`: one whose name is empty or already
      processed in this file is skipped; otherwise its node, `CONTAINS`, inheritance and
      methods, then its index entry. */
  function ExtractClass(v: Js.Scan, c: Tree, buildIndex: bool, modName: string): (r: Js.Scan)
    ensures Js.ScanOk(v) ==> Js.ScanOk(r)
    ensures v.emitted <= r.emitted && |r.emitted| <= |v.emitted| + 1
    ensures r.js == v.js.(st := r.js.st) && r.js.st.moduleToFile == v.js.st.moduleToFile
    ensures v.js.st.relations <= r.js.st.relations && v.js.st.pending <= r.js.st.pending
    ensures r.js.st.nodes.byId.Keys >= v.js.st.nodes.byId.Keys
    ensures v.js.imports == map[] ==> r.js.st.pending == v.js.st.pending
    ensures |r.emitted| == |v.emitted| ==> r == v
    ensures |r.emitted| > |v.emitted| ==>
      var name := r.emitted[|v.emitted|];
      && Js.ClassName(c) == Some(name) && name !in v.seen
      && NodeId(Class, v.js.file, name, c.line) in r.js.st.nodes.byId
      && (buildIndex && modName != "" ==>
            modName in r.js.st.moduleDefs && name in r.js.st.moduleDefs[modName]
            && r.js.st.moduleDefs[modName][name] == NodeId(Class, v.js.file, name, c.line))
  {
    match Js.ClassName(c)
    case None => v
    case Some(name) =>
      if name == "" || name in v.seen then v
      else
        Js.Scan(NewClass(v.js, c, name, buildIndex, modName), v.seen + {name}, v.emitted + [name])
  }

  /** The work for one new class: its node and `CONTAINS`, its parents, its methods,
      then its index entry. */
  function NewClass(ts: Js.JState, c: Tree, name: string, buildIndex: bool, modName: string): (r: Js.JState)
    ensures r == ts.(st := r.st) && r.st.moduleToFile == ts.st.moduleToFile
    ensures ts.st.relations <= r.st.relations && ts.st.pending <= r.st.pending
    ensures r.st.nodes.byId.Keys >= ts.st.nodes.byId.Keys + {NodeId(Class, ts.file, name, c.line)}
    ensures ts.imports == map[] ==> r.st.pending == ts.st.pending
    ensures buildIndex && modName != "" ==>
      modName in r.st.moduleDefs && name in r.st.moduleDefs[modName]
      && r.st.moduleDefs[modName][name] == NodeId(Class, ts.file, name, c.line)
  {
    var id := NodeId(Class, ts.file, name, c.line);
    var t1 := AddClassNode(ts, c, name);
    var t2 := ParentRefs(t1, id, HeritageParents(c.children));
    assert ts.imports == map[] ==> t2.st.pending == ts.st.pending by {
      if ts.imports == map[] { ParentsWithoutImports(t1, id, HeritageParents(c.children)); }
    }
    var t3 := ClassMethods(t2, c.children, id, name);
    t3.(st := if buildIndex && modName != "" then IndexSymbol(t3.st, modName, name, id) else t3.st)
  }

  /** `_extract_classes` over every class declaration of the file, sharing one set of
      processed names. */
  function ExtractClasses(v: Js.Scan, hits: seq<Hit>, buildIndex: bool, modName: string): (r: Js.Scan)
    ensures Js.ScanOk(v) ==> Js.ScanOk(r)
    ensures v.emitted <= r.emitted
    ensures r.js == v.js.(st := r.js.st) && r.js.st.moduleToFile == v.js.st.moduleToFile
    ensures v.js.st.relations <= r.js.st.relations && v.js.st.pending <= r.js.st.pending
    ensures r.js.st.nodes.byId.Keys >= v.js.st.nodes.byId.Keys
    ensures v.js.imports == map[] ==> r.js.st.pending == v.js.st.pending
    decreases |hits|
  {
    if |hits| == 0 then v else ExtractClasses(ExtractClass(v, hits[0].node, buildIndex, modName), hits[1..], buildIndex, modName)
  }

  // ---------------------------------------------------------------------------------
  // Variables

  /** `_is_top_level` of this parser: no enclosing function, arrow function, class or
      method. */
  predicate TopLevel(ancestors: seq<string>) {
    forall i :: 0 <= i < |ancestors| ==> !Js.Scope(ancestors[i])
  }

  /** The adapter's longer test, with its statement-block clause, decides the same. */
  lemma SameTopLevelAsAdapter(ancestors: seq<string>)
    ensures TopLevel(ancestors) <==> Js.TopLevel(ancestors)
  {
    Js.TopLevelIff(ancestors);
  }

  /** The name a declarator's identifier name field gives. */
  function DeclaratorName(d: Tree): Option<string> {
    if d.kind != "variable_declarator" then None
    else match Field(d, "name")
      case Some(n) => if n.kind == "identifier" then Some(n.text) else None
      case None => None
  }

  /** Whether the declaration query matches: a declarator child named by an identifier. */
  predicate Captured(decl: Tree) {
    exists i :: 0 <= i < |decl.children| && DeclaratorName(decl.children[i]).Some?
  }

  /** The first captured name inside the declaration, in document order: the first
      declarator below it that sits directly in a declaration of the same kind and is
      named by an identifier. */
  function FirstCapturedName(declKind: string, hits: seq<Hit>): Option<string>
    decreases |hits|
  {
    if |hits| == 0 then None
    else if ParentKind(hits[0]) == declKind && DeclaratorName(hits[0].node).Some? then DeclaratorName(hits[0].node)
    else FirstCapturedName(declKind, hits[1..])
  }

  function VariableName(decl: Tree): Option<string> {
    FirstCapturedName(decl.kind, FindAll(decl, {"variable_declarator"}, []))
  }

  /** Whether some declarator child has a child whose kind mentions `arrow_function`. */
  predicate HoldsArrow(decl: Tree) {
    exists i, j :: 0 <= i < |decl.children| && decl.children[i].kind == "variable_declarator"
      && 0 <= j < |decl.children[i].children| && Text.Contains(decl.children[i].children[j].kind, "arrow_function")
  }

  /** The first `const`, `let` or `var` keyword child, "let" when there is none. */
  function DeclarationType(decl: Tree): (r: string)
    ensures r in {"const", "let", "var"}
  {
    match FirstOfKinds(decl.children, {"const", "let", "var"})
    case Some(k) => k.kind
    case None => "let"
  }

  /** One captured declaration: at top level, with a non-empty name not processed yet
      and no arrow function, it gives a `Variable` node at the declaration's line and a
      `CONTAINS` from the file node; one name per declaration. */
  function Declaration(v: Js.Scan, h: Hit): (r: Js.Scan)
    ensures Js.ScanOk(v) ==> Js.ScanOk(r)
    ensures v.emitted <= r.emitted && |r.emitted| <= |v.emitted| + 1
    ensures r.js == v.js.(st := v.js.st.(nodes := r.js.st.nodes, relations := r.js.st.relations))
    ensures v.js.st.relations <= r.js.st.relations && r.js.st.nodes.byId.Keys >= v.js.st.nodes.byId.Keys
    ensures |r.emitted| > |v.emitted| ==>
      && TopLevel(h.ancestors) && !HoldsArrow(h.node)
      && VariableName(h.node) == Some(r.emitted[|v.emitted|])
      && HasKind(r.js.st.nodes, NodeId(Variable, v.js.file, r.emitted[|v.emitted|], h.node.line), Variable)
  {
    if !TopLevel(h.ancestors) || !Captured(h.node) || HoldsArrow(h.node) then v
    else match VariableName(h.node)
      case None => v
      case Some(name) =>
        if name == "" || name in v.seen then v
        else
          var id := NodeId(Variable, v.js.file, name, h.node.line);
          var props := map["declaration_type" := VStr(DeclarationType(h.node)), "language" := VStr(Js.LanguageOf(v.js.file))];
          var st1 := AddNode(v.js.st, MakeNode(id, Variable, name, v.js.file, h.node.line, None, props));
          assert HasKind(st1.nodes, id, Variable);
          Js.Scan(v.js.(st := Append(st1, Relation(FileId(v.js.file), id, Contains, map[]))), v.seen + {name}, v.emitted + [name])
  }

  function Declarations(v: Js.Scan, hits: seq<Hit>): (r: Js.Scan)
    ensures Js.ScanOk(v) ==> Js.ScanOk(r)
    ensures v.emitted <= r.emitted
    ensures r.js == v.js.(st := v.js.st.(nodes := r.js.st.nodes, relations := r.js.st.relations))
    ensures v.js.st.relations <= r.js.st.relations && r.js.st.nodes.byId.Keys >= v.js.st.nodes.byId.Keys
    decreases |hits|
  {
    if |hits| == 0 then v else Declarations(Declaration(v, hits[0]), hits[1..])
  }

  /** `_extract_variables`: `const`/`let` declarations, then `var` ones, sharing one set
      of processed names, so no name is emitted twice in a file. */
  function ExtractVariables(ts: Js.JState, root: Tree): (r: Js.Scan)
    ensures Js.ScanOk(r)
    ensures r.js == ts.(st := ts.st.(nodes := r.js.st.nodes, relations := r.js.st.relations))
    ensures ts.st.relations <= r.js.st.relations && r.js.st.nodes.byId.Keys >= ts.st.nodes.byId.Keys
  {
    var v1 := Declarations(Js.Scan(ts, {}, []), Find(root, "lexical_declaration"));
    Declarations(v1, Find(root, "variable_declaration"))
  }

  // ---------------------------------------------------------------------------------
  // Exports

  /** `_extract_entity_name`: the first identifier child, or the first identifier child
      of the first declarator child that has one. A TypeScript class, named by a type
      identifier, has none. */
  function EntityName(cs: seq<Tree>): Option<string>
    decreases |cs|
  {
    if |cs| == 0 then None
    else if cs[0].kind == "identifier" then Some(cs[0].text)
    else if cs[0].kind == "variable_declarator" && FirstOfKind(cs[0].children, "identifier").Some? then
      Some(FirstOfKind(cs[0].children, "identifier").value.text)
    else EntityName(cs[1..])
  }

  /** The names one child of an export statement marks. */
  function ExportChildNames(c: Tree): seq<string> {
    if c.kind == "function_declaration" || c.kind == "class_declaration" || c.kind == "lexical_declaration" then
      match EntityName(c.children)
      case Some(n) => if n != "" then [n] else []
      case None => []
    else if c.kind == "export_clause" then SpecifierNames(c.children, "export_specifier")
    else []
  }

  function ExportNames(cs: seq<Tree>): seq<string>
    decreases |cs|
  {
    if |cs| == 0 then [] else ExportChildNames(cs[0]) + ExportNames(cs[1..])
  }

  function ExportHitsNames(hits: seq<Hit>): seq<string>
    decreases |hits|
  {
    if |hits| == 0 then [] else ExportNames(hits[0].node.children) + ExportHitsNames(hits[1..])
  }

  /** `_extract_exports`: every node of the current file whose name an export statement
      gives is marked as a named export; no other node changes and none is added or
      removed. */
  function ExtractExports(ts: Js.JState, root: Tree): (r: Js.JState)
    ensures r == ts.(st := ts.st.(nodes := r.st.nodes))
    ensures r.st.nodes.keys == ts.st.nodes.keys && r.st.nodes.byId.Keys == ts.st.nodes.byId.Keys
    ensures forall k :: k in ts.st.nodes.byId && ts.st.nodes.byId[k].filePath != ts.file ==>
      r.st.nodes.byId[k] == ts.st.nodes.byId[k]
    ensures var names := ExportHitsNames(Find(root, "export_statement"));
      forall k :: k in ts.st.nodes.byId ==>
        r.st.nodes.byId[k] ==
          if ts.st.nodes.byId[k].filePath == ts.file && ts.st.nodes.byId[k].name in names
          then ts.st.nodes.byId[k].(props := Js.Marked(ts.st.nodes.byId[k].props))
          else ts.st.nodes.byId[k]
  {
    ts.(st := ts.st.(nodes := Js.MarkAll(ts.st.nodes, ExportHitsNames(Find(root, "export_statement")), ts.file)))
  }

  // ---------------------------------------------------------------------------------
  // Files

  /** The state the class step starts from: after functions, and after imports too when
      they come first. */
  function BeforeClasses(ts: Js.JState, root: Tree, buildIndex: bool, modName: string, order: Order): (r: Js.JState)
    ensures r.file == ts.file && ts.st.relations <= r.st.relations && ts.st.pending <= r.st.pending
    ensures r.st.nodes.byId.Keys >= ts.st.nodes.byId.Keys && r.st.moduleToFile == ts.st.moduleToFile
    ensures order == AsWritten ==> r.imports == ts.imports && r.st.pending == ts.st.pending
    ensures order == ImportsFirst ==>
      r.st.pending == ts.st.pending + RefsOf(FileBindings(ts, root))
      && forall i :: 0 <= i < |FileBindings(ts, root)| ==> FileBindings(ts, root)[i].alias in r.imports
  {
    match order
    case AsWritten => ExtractFunctions(ts, root, buildIndex, modName)
    case ImportsFirst => ExtractFunctions(ExtractImports(ts, root), root, buildIndex, modName)
  }

  /** `_parse_tree` in the given order. */
  function ParseTree(ts: Js.JState, root: Tree, buildIndex: bool, modName: string, order: Order): (r: Js.JState)
    ensures r.file == ts.file && ts.st.relations <= r.st.relations && ts.st.pending <= r.st.pending
    ensures r.st.nodes.byId.Keys >= ts.st.nodes.byId.Keys && r.st.moduleToFile == ts.st.moduleToFile
  {
    var a := BeforeClasses(ts, root, buildIndex, modName, order);
    var b := ExtractClasses(Js.Scan(a, {}, []), Find(root, "class_declaration"), buildIndex, modName).js;
    var c := ExtractVariables(b, root).js;
    var d := if order == AsWritten then ExtractImports(c, root) else c;
    ExtractExports(d, root)
  }

  /** `parse_file`: the file and alias table are reset, and so are nodes and relations
      for a standalone parse (`build_index` false); pending references, the index and
      the dedup set are kept. An unreadable file gives an empty result. */
  function ParseFile(ts: Js.JState, path: string, root: Option<Tree>, buildIndex: bool, order: Order)
    : (r: (Js.JState, (NodeMap, seq<Relation>)))
    ensures r.0.file == path && ts.st.pending <= r.0.st.pending
    ensures buildIndex ==> ts.st.relations <= r.0.st.relations
    ensures root.None? ==> r.1 == (NoNodes(), [])
    ensures root.Some? ==>
      && r.1 == (r.0.st.nodes, r.0.st.relations)
      && FileId(path) in r.0.st.nodes.byId
      && (buildIndex ==> ModuleName(path) in r.0.st.moduleToFile && r.0.st.moduleToFile[ModuleName(path)] == FileId(path))
  {
    var st0 := if buildIndex then ts.st else ts.st.(nodes := NoNodes(), relations := []);
    var t0 := Js.JState(st0, path, map[]);
    match root
    case None => (t0, (NoNodes(), []))
    case Some(t) =>
      var (st1, fid) := CreateFileNode(t0.st, path);
      var modName := ModuleName(path);
      var t1 := t0.(st := RegisterModule(st1, modName, fid, buildIndex));
      var t2 := ParseTree(t1, t, buildIndex, modName, order);
      (t2, (t2.st.nodes, t2.st.relations))
  }

  /** A standalone parse does not depend on the nodes and relations held before. */
  lemma StandaloneForgetsGraph(ts: Js.JState, nodes: NodeMap, rels: seq<Relation>, path: string, root: Option<Tree>, order: Order)
    ensures ParseFile(ts, path, root, false, order) == ParseFile(ts.(st := ts.st.(nodes := nodes, relations := rels)), path, root, false, order)
  {
  }

  /** As written, the alias table is empty whenever inheritance is read, so no parent is
      ever deferred: every pending reference the tree adds is an `IMPORTS`. */
  lemma AsWrittenTreeDefersNoParent(ts: Js.JState, t: Tree, buildIndex: bool, modName: string)
    requires ts.imports == map[]
    ensures var r := ParseTree(ts, t, buildIndex, modName, AsWritten);
      forall i :: |ts.st.pending| <= i < |r.st.pending| ==> r.st.pending[i].NameImport?
  {
    var a := BeforeClasses(ts, t, buildIndex, modName, AsWritten);
    var b := ExtractClasses(Js.Scan(a, {}, []), Find(t, "class_declaration"), buildIndex, modName).js;
    assert b.st.pending == ts.st.pending;
    var c := ExtractVariables(b, t).js;
    var d := ExtractImports(c, t);
    assert d.st.pending == ts.st.pending + RefsOf(FileBindings(c, t));
  }

  /** The same for a whole file. */
  lemma AsWrittenNeverDefersParent(ts: Js.JState, path: string, t: Tree, buildIndex: bool)
    ensures var r := ParseFile(ts, path, Some(t), buildIndex, AsWritten).0;
      forall i :: |ts.st.pending| <= i < |r.st.pending| ==> r.st.pending[i].NameImport?
  {
    var st0 := if buildIndex then ts.st else ts.st.(nodes := NoNodes(), relations := []);
    var t0 := Js.JState(st0, path, map[]);
    var (st1, fid) := CreateFileNode(t0.st, path);
    var t1 := t0.(st := RegisterModule(st1, ModuleName(path), fid, buildIndex));
    AsWrittenTreeDefersNoParent(t1, t, buildIndex, ModuleName(path));
  }

  /** With the imports read first, a class whose parents are all imported names gets
      one pending `EXTENDS` per parent and no same-file edge. */
  lemma ImportsFirstDefersImportedParents(ts: Js.JState, root: Tree, buildIndex: bool, modName: string, c: Tree, classId: string)
    requires forall p :: p in HeritageParents(c.children) ==>
      exists i :: 0 <= i < |FileBindings(ts, root)| && FileBindings(ts, root)[i].alias == p
    ensures var a := BeforeClasses(ts, root, buildIndex, modName, ImportsFirst);
      var parents := HeritageParents(c.children);
      var r := ParentRefs(a, classId, parents);
      && (forall i :: 0 <= i < |parents| ==> parents[i] in a.imports)
      && r.st.relations == a.st.relations
      && r.st.pending == a.st.pending + DeferredParents(classId, a.imports, parents)
  {
    var a := BeforeClasses(ts, root, buildIndex, modName, ImportsFirst);
    var parents := HeritageParents(c.children);
    forall i | 0 <= i < |parents|
      ensures parents[i] in a.imports
    {
      assert parents[i] in parents;
    }
    ImportedParentsDeferred(a, classId, parents);
  }

  // ---------------------------------------------------------------------------------
  // Second pass

  /** The resolver's dedup key. */
  function ResolveKey(source: string, kind: RelKind, target: string): string {
    source + ":" + RelKindName(kind) + ":" + target
  }

  function KeyOf(r: Relation): string {
    ResolveKey(r.source, r.kind, r.target)
  }

  /** One entry of `_process_pending_imports`. An entry without `imported_name` raises
      `KeyError` and one whose module is not indexed is passed over: both leave the
      state alone. A known symbol links to its definition; an unknown one to the
      module's file node, carrying the name. The relation is appended only when its key
      is new. */
  function ResolveOne(st: State, p: Pending): (r: State)
    ensures r == st.(relations := r.relations, established := r.established)
    ensures st.relations <= r.relations && |r.relations| <= |st.relations| + 1 && st.established <= r.established
    ensures PendingName(p).None? || PendingModule(p).None? || PendingModule(p).value !in st.moduleDefs ==> r == st
    ensures |r.relations| > |st.relations| ==>
      var e := r.relations[|st.relations|];
      e.source == p.sourceId && e.kind == PendingKind(p)
      && KeyOf(e) !in st.established && r.established == st.established + {KeyOf(e)}
    ensures |r.relations| == |st.relations| ==> r == st
    ensures PendingName(p).Some? && PendingModule(p).Some? && PendingModule(p).value in st.moduleDefs ==>
      var m, s := PendingModule(p).value, PendingName(p).value;
      && (s in st.moduleDefs[m] ==>
            (ResolveKey(p.sourceId, PendingKind(p), st.moduleDefs[m][s]) !in st.established <==>
             r.relations == st.relations + [Relation(p.sourceId, st.moduleDefs[m][s], PendingKind(p), map[])]))
      && (s !in st.moduleDefs[m] && m in st.moduleToFile ==>
            (ResolveKey(p.sourceId, PendingKind(p), st.moduleToFile[m]) !in st.established <==>
             r.relations == st.relations + [Relation(p.sourceId, st.moduleToFile[m], PendingKind(p), map["imported_name" := VStr(s)])]))
      && (s !in st.moduleDefs[m] && m !in st.moduleToFile ==> r == st)
  {
    if PendingModule(p).None? || PendingName(p).None? then st
    else
      var m, s := PendingModule(p).value, PendingName(p).value;
      if m !in st.moduleDefs then st
      else
        var target: Option<(string, map<string, Value>)> := if s in st.moduleDefs[m] then Some((st.moduleDefs[m][s], map[]))
          else if m in st.moduleToFile then Some((st.moduleToFile[m], map["imported_name" := VStr(s)]))
          else None;
        match target
        case None => st
        case Some((t, props)) =>
          var key := ResolveKey(p.sourceId, PendingKind(p), t);
          if key in st.established then st
          else st.(relations := st.relations + [Relation(p.sourceId, t, PendingKind(p), props)], established := st.established + {key})
  }

  /** The resolver over a list of entries, in order. The relations held before stay an
      unchanged prefix; every appended relation has a key that was new and is now
      recorded, and no two appended relations share a key. */
  function Resolve(st: State, ps: seq<Pending>): (r: State)
    ensures r == st.(relations := r.relations, established := r.established)
    ensures st.relations <= r.relations && st.established <= r.established
    ensures forall i :: |st.relations| <= i < |r.relations| ==>
      KeyOf(r.relations[i]) in r.established && KeyOf(r.relations[i]) !in st.established
    ensures forall i, j :: |st.relations| <= i < j < |r.relations| ==> KeyOf(r.relations[i]) != KeyOf(r.relations[j])
    decreases |ps|
  {
    if |ps| == 0 then st
    else
      var s1 := ResolveOne(st, ps[0]);
      var r := Resolve(s1, ps[1..]);
      assert forall i :: |st.relations| <= i < |s1.relations| ==> r.relations[i] == s1.relations[i];
      r
  }

  /** `_process_pending_imports` over the parser's own pending list. */
  function ProcessPending(st: State): (r: State)
    ensures r == st.(relations := r.relations, established := r.established) && st.relations <= r.relations
  {
    Resolve(st, st.pending)
  }

  /** Two references into the same indexed module, from the same source and of the same
      type, naming symbols the module does not define: only the first reaches the file
      node, because both share one key. */
  lemma FallbackKeepsFirstSymbol(st: State, p1: Pending, p2: Pending)
    requires p1.sourceId == p2.sourceId && PendingKind(p1) == PendingKind(p2)
    requires PendingModule(p1).Some? && PendingModule(p1) == PendingModule(p2)
    requires PendingName(p1).Some? && PendingName(p2).Some?
    requires var m := PendingModule(p1).value;
      m in st.moduleDefs && m in st.moduleToFile
      && PendingName(p1).value !in st.moduleDefs[m] && PendingName(p2).value !in st.moduleDefs[m]
    ensures Resolve(st, [p1, p2]) == ResolveOne(st, p1)
  {
    var s1 := ResolveOne(st, p1);
    var m := PendingModule(p1).value;
    var key := ResolveKey(p1.sourceId, PendingKind(p1), st.moduleToFile[m]);
    assert key in s1.established;
    assert Resolve(s1, [p2]) == ResolveOne(s1, p2);
    assert [p1, p2][1..] == [p2];
  }

  /** The extensions `parse_directory` picks, compared case-sensitively. */
  predicate Eligible(path: string) {
    EndsWith(path, ".js") || EndsWith(path, ".ts") || EndsWith(path, ".jsx") || EndsWith(path, ".tsx")
  }

  /** Every eligible file with a standalone-free (`build_index`) parse, in order. */
  function ParseFiles(ts: Js.JState, files: seq<(string, Option<Tree>)>, order: Order): (r: Js.JState)
    ensures ts.st.relations <= r.st.relations && ts.st.pending <= r.st.pending
    decreases |files|
  {
    if |files| == 0 then ts
    else
      var t1 := if Eligible(files[0].0) then ParseFile(ts, files[0].0, files[0].1, true, order).0 else ts;
      ParseFiles(t1, files[1..], order)
  }

  /** `parse_directory`: every index is reset, each eligible file is parsed with
      `build_index`, then the second pass runs once. Its relations extend those of the
      first pass. */
  function ParseDirectory(ts: Js.JState, files: seq<(string, Option<Tree>)>, order: Order): (r: (Js.JState, (NodeMap, seq<Relation>)))
    ensures var first := ParseFiles(ts.(st := AdapterState.Fresh()), files, order);
      && first.st.relations <= r.1.1
      && r.1 == (r.0.st.nodes, r.0.st.relations)
      && r.0.st.nodes == first.st.nodes && r.0.st.pending == first.st.pending
  {
    var first := ParseFiles(ts.(st := AdapterState.Fresh()), files, order);
    var t := first.(st := ProcessPending(first.st));
    (t, (t.st.nodes, t.st.relations))
  }
}
