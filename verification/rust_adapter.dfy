/** The ast-grep Rust extractor (`RustAdapter`, rust_adapter.py): `use` declarations
    become pending module references, structs become class nodes, top-level
    `fn` items become functions, and the `fn` items of an `impl` block become methods
    of the first struct node of that name the adapter has seen. */
module RustAdapter {

  import opened Wrappers
  import opened Text
  import opened Schema
  import opened Syntax
  import opened AdapterState

  /** The path of a `use_declaration`: the stripped text with `use ` and a trailing
      `;` removed, or `None` when the text does not start with `use `. */
  function UsePath(text: string): Option<string> {
    StatementArgument(text, "use ")
  }

  function PathOptions(texts: seq<string>): (r: seq<Option<string>>)
    ensures |r| == |texts| && forall j :: 0 <= j < |texts| ==> r[j] == UsePath(texts[j])
  {
    seq(|texts|, j requires 0 <= j < |texts| => UsePath(texts[j]))
  }

  /** The paths of the declarations that start with `use `, in order. */
  function UsePaths(texts: seq<string>): (r: seq<string>)
    ensures |r| <= |texts|
    ensures forall i :: 0 <= i < |r| ==> exists j :: 0 <= j < |texts| && UsePath(texts[j]) == Some(r[i])
  {
    Somes(PathOptions(texts))
  }

  /** No declaration starting with `use ` is lost. */
  lemma UsePathsComplete(texts: seq<string>, j: nat)
    requires j < |texts| && UsePath(texts[j]).Some?
    ensures UsePath(texts[j]).value in UsePaths(texts)
  {
    SomesComplete(PathOptions(texts), j);
  }

  /** The `IMPORTS_MODULE` reference for one use path: the root module is the first
      piece of the path split on `::` (the whole path when it has no `::`). */
  function UseRef(fileId: string, path: string): (p: Pending)
    ensures p.ModuleImport? && p.sourceId == fileId && p.fullPath == path && p.alias.None?
    ensures StartsWith(path, p.modName) && (p.modName == path || OccursAt(path, "::", |p.modName|))
    ensures forall i :: 0 <= i < |p.modName| ==> !OccursAt(path, "::", i)
  {
    PrefixBeforeSpec(path, "::");
    ModuleImport(fileId, PrefixBefore(path, "::"), path, None)
  }

  /** `use <root>::<rest>;` records the module `<root>` with the full path
      `<root>::<rest>`, for a root without colons and a path without blank ends. */
  lemma QualifiedUse(fileId: string, root: string, rest: string)
    requires |root| > 0 && ':' !in root && root[0] !in Whitespace
    requires |rest| > 0 && rest[|rest| - 1] !in Whitespace && rest[|rest| - 1] != ';'
    ensures var path := root + "::" + rest;
      && UsePath("use " + path + ";") == Some(path)
      && UseRef(fileId, path) == ModuleImport(fileId, root, path, None)
  {
    var path := root + "::" + rest;
    assert path[0] == root[0] && path[|path| - 1] == rest[|rest| - 1];
    StatementArgumentRoundTrip("use ", path);
    PrefixBeforeOfJoin(root, rest);
  }

  /** `_parse_use_declarations`, given the paths: one reference per path, in order;
      nothing else changes. */
  function ParseUses(st: State, paths: seq<string>, fileId: string): (r: State)
    ensures r == st.(pending := r.pending) && st.pending <= r.pending
    ensures |r.pending| == |st.pending| + |paths|
    ensures forall i :: 0 <= i < |paths| ==> r.pending[|st.pending| + i] == UseRef(fileId, paths[i])
  {
    var refs := seq(|paths|, i requires 0 <= i < |paths| => UseRef(fileId, paths[i]));
    st.(pending := st.pending + refs)
  }

  /** The `function_item` children of a node, and only those. */
  function FunctionItems(t: Tree): (r: seq<Tree>)
    ensures forall i :: 0 <= i < |r| ==> r[i] in t.children && r[i].kind == "function_item"
    ensures forall c :: c in t.children && c.kind == "function_item" ==> c in r
  {
    var r := OfKind(t.children, "function_item");
    assert forall c :: c in t.children && c.kind == "function_item" ==> c in r by {
      forall c | c in t.children && c.kind == "function_item"
        ensures c in r
      {
        OfKindComplete(t.children, "function_item", c);
      }
    }
    r
  }

  /** `_parse_structs`: every named `struct_item` of the file, nested ones included,
      becomes a class node at its line with `CONTAINS` from the file, and is indexed
      under its name when `build_index` is set. */
  function ParseStructs(st: State, root: Tree, fileId: string, file: string, buildIndex: bool, modName: string): (r: State)
    ensures !buildIndex ==> r.moduleDefs == st.moduleDefs
    ensures r.pending == st.pending && r.moduleToFile == st.moduleToFile
    ensures st.relations <= r.relations && st.nodes.byId.Keys <= r.nodes.byId.Keys
    ensures Deduplicated(st) ==> Deduplicated(r)
  {
    AddClasses(st, fileId, file, Named(NodesOf(Find(root, "struct_item"))), buildIndex, modName)
  }

  /** Every named struct item is recorded, with its `CONTAINS` edge. With
      `build_index` its name is indexed, pointing at a struct of that name (the last
      one found), and so at this one when no struct of that name sits on another line. */
  lemma StructRecorded(st: State, root: Tree, fileId: string, file: string, buildIndex: bool, modName: string, j: nat)
    requires var ss := NodesOf(Find(root, "struct_item")); j < |ss| && Field(ss[j], "name").Some?
    ensures var ss := NodesOf(Find(root, "struct_item"));
      var r := ParseStructs(st, root, fileId, file, buildIndex, modName);
      var name := Field(ss[j], "name").value.text;
      var id := NodeId(Class, file, name, ss[j].line);
      && id in r.nodes.byId && RelationKey(Relation(fileId, id, Contains, map[])) in r.established
      && (buildIndex ==>
            && modName in r.moduleDefs && name in r.moduleDefs[modName]
            && (exists i :: 0 <= i < |ss| && Field(ss[i], "name").Some? && Field(ss[i], "name").value.text == name
                  && r.moduleDefs[modName][name] == NodeId(Class, file, name, ss[i].line))
            && ((forall i :: 0 <= i < |ss| && Field(ss[i], "name").Some? && Field(ss[i], "name").value.text == name
                   ==> ss[i].line == ss[j].line) ==> r.moduleDefs[modName][name] == id))
  {
    var ss := NodesOf(Find(root, "struct_item"));
    var spots := Named(ss);
    var name := Field(ss[j], "name").value.text;
    var k :| 0 <= k < |spots| && spots[k] == Spot(name, ss[j].line);
    AddClassesRecordsEach(st, fileId, file, spots, buildIndex, modName, k);
    if buildIndex {
      StructIndexed(st, fileId, file, modName, ss, spots, k);
    }
  }

  /** The index step of `StructRecorded`, over the named spots of the struct items. */
  lemma StructIndexed(st: State, fileId: string, file: string, modName: string, ss: seq<Tree>, spots: seq<Spot>, k: nat)
    requires spots == Named(ss) && k < |spots|
    ensures var r := AddClasses(st, fileId, file, spots, true, modName);
      var name := spots[k].name;
      && modName in r.moduleDefs && name in r.moduleDefs[modName]
      && exists i :: 0 <= i < |ss| && Field(ss[i], "name").Some? && Field(ss[i], "name").value.text == name
           && r.moduleDefs[modName][name] == NodeId(Class, file, name, ss[i].line)
  {
    var m := AddClassesIndexesName(st, fileId, file, spots, modName, k);
    var i := NamedIndex(ss, m);
  }

  /** `_parse_functions`: the named `function_item` children of the root become
      function nodes with `CONTAINS` from the file; items inside `impl` blocks or
      modules are not top-level and are not visited. */
  function ParseFunctions(st: State, root: Tree, fileId: string, file: string): (r: State)
    ensures r.pending == st.pending && r.moduleToFile == st.moduleToFile
    ensures st.relations <= r.relations && st.nodes.byId.Keys <= r.nodes.byId.Keys
    ensures Deduplicated(st) ==> Deduplicated(r)
  {
    var spots := Named(FunctionItems(root));
    var r := AddEntities(st, fileId, Function, Function, Contains, file, spots);
    assert Deduplicated(st) ==> Deduplicated(r) by {
      if Deduplicated(st) { AddEntitiesKeepsDeduplicated(st, fileId, Function, Function, Contains, file, spots); }
    }
    r
  }

  /** Every function node `_parse_functions` adds comes from a named `function_item`
      child of the root, and every such child is recorded. */
  lemma FunctionsFromRoot(st: State, root: Tree, fileId: string, file: string, k: string)
    requires var r := ParseFunctions(st, root, fileId, file);
      k in r.nodes.byId && !(k in st.nodes.byId && r.nodes.byId[k] == st.nodes.byId[k])
    ensures var n := ParseFunctions(st, root, fileId, file).nodes.byId[k];
      && n.kind == Function && k == NodeId(Function, file, n.name, n.line)
      && exists c :: c in root.children && c.kind == "function_item" && Field(c, "name").Some?
           && Field(c, "name").value.text == n.name && c.line == n.line
  {
    var spots := Named(FunctionItems(root));
    var n := ParseFunctions(st, root, fileId, file).nodes.byId[k];
    AddEntitiesNewFromSpots(st, fileId, Function, Function, Contains, file, spots, k);
    assert Spot(n.name, n.line) in spots;
  }

  lemma FunctionRecorded(st: State, root: Tree, fileId: string, file: string, c: Tree)
    requires c in root.children && c.kind == "function_item" && Field(c, "name").Some?
    ensures var r := ParseFunctions(st, root, fileId, file);
      var id := NodeId(Function, file, Field(c, "name").value.text, c.line);
      id in r.nodes.byId && r.nodes.byId[id].kind == Function
      && RelationKey(Relation(fileId, id, Contains, map[])) in r.established
  {
    var items := FunctionItems(root);
    var spots := Named(items);
    var i :| 0 <= i < |items| && items[i] == c;
    var k :| 0 <= k < |spots| && spots[k] == Spot(Field(c, "name").value.text, c.line);
    AddEntitiesRecordsEach(st, fileId, Function, Function, Contains, file, spots, k);
  }

  /** One iteration of `_parse_impl_blocks`. The impl's type text is looked up among
      the class nodes the adapter holds, in insertion order; an impl without a type,
      for a type with no class node (an external type) or without a body adds
      nothing. Otherwise each named `function_item` child of the body becomes a
      method with `DEFINES` from that class node. */
  function ParseImpl(st: State, impl: Tree, file: string): (r: State)
    ensures (Field(impl, "type").None? || FirstClassNamed(st.nodes, Field(impl, "type").value.text).None?) ==> r == st
    ensures r.pending == st.pending && r.moduleDefs == st.moduleDefs && r.moduleToFile == st.moduleToFile
    ensures st.relations <= r.relations && st.nodes.byId.Keys <= r.nodes.byId.Keys && st.established <= r.established
    ensures forall i :: |st.relations| <= i < |r.relations| ==>
      r.relations[i].kind == Defines && ClassNamed(st.nodes, r.relations[i].source, Field(impl, "type").value.text)
    ensures Deduplicated(st) ==> Deduplicated(r)
  {
    match Field(impl, "type")
    case None => st
    case Some(ty) =>
      match FirstClassNamed(st.nodes, ty.text)
      case None => st
      case Some(owner) =>
        match Field(impl, "body")
        case None => st
        case Some(body) =>
          var spots := Named(FunctionItems(body));
          assert Deduplicated(st) ==> Deduplicated(AddEntities(st, owner, Method, Method, Defines, file, spots)) by {
            if Deduplicated(st) {
              AddEntitiesKeepsDeduplicated(st, owner, Method, Method, Defines, file, spots);
            }
          }
          AddEntities(st, owner, Method, Method, Defines, file, spots)
  }

  /** When the impl's type names a class node, each named `fn` of the body is recorded
      as a method with `DEFINES` from the first such class node. */
  lemma ImplMethodRecorded(st: State, impl: Tree, file: string, c: Tree)
    requires Field(impl, "type").Some? && Field(impl, "body").Some?
    requires c in Field(impl, "body").value.children && c.kind == "function_item" && Field(c, "name").Some?
    requires FirstClassNamed(st.nodes, Field(impl, "type").value.text).Some?
    ensures var r := ParseImpl(st, impl, file);
      var owner := FirstClassNamed(st.nodes, Field(impl, "type").value.text).value;
      var id := NodeId(Method, file, Field(c, "name").value.text, c.line);
      && id in r.nodes.byId && r.nodes.byId[id].kind == Method
      && RelationKey(Relation(owner, id, Defines, map[])) in r.established
  {
    var body := Field(impl, "body").value;
    var items := FunctionItems(body);
    var spots := Named(items);
    var owner := FirstClassNamed(st.nodes, Field(impl, "type").value.text).value;
    assert ParseImpl(st, impl, file) == AddEntities(st, owner, Method, Method, Defines, file, spots);
    var i :| 0 <= i < |items| && items[i] == c;
    var spot := Spot(Field(c, "name").value.text, c.line);
    assert spot in spots;
    var k :| 0 <= k < |spots| && spots[k] == spot;
    AddEntitiesRecordsEach(st, owner, Method, Method, Defines, file, spots, k);
  }

  /** `_parse_impl_blocks` over every `impl_item` of the file, in order; each lookup
      sees the methods and structs added before it. */
  function ParseImpls(st: State, impls: seq<Tree>, file: string): (r: State)
    ensures r.pending == st.pending && r.moduleDefs == st.moduleDefs && r.moduleToFile == st.moduleToFile
    ensures st.relations <= r.relations && st.nodes.byId.Keys <= r.nodes.byId.Keys && st.established <= r.established
    ensures Deduplicated(st) ==> Deduplicated(r)
    decreases |impls|
  {
    if |impls| == 0 then st
    else ParseImpls(ParseImpl(st, impls[0], file), impls[1..], file)
  }

  /** `parse_file`: a file that cannot be read or parsed gives `({}, [])` and leaves the
      accumulator as it was; otherwise the file node, the module registration, the use
      declarations, the structs, the top-level functions and the impl blocks, in that
      order. No struct is current afterwards. */
  function ParseFile(w: Walk, path: string, root: Option<Tree>, buildIndex: bool): (r: (Walk, (NodeMap, seq<Relation>)))
    ensures r.0.file == path && r.0.current.None?
    ensures root.None? ==> r.1 == (NoNodes(), []) && r.0.st == w.st
    ensures root.Some? ==>
      && r.1 == (r.0.st.nodes, r.0.st.relations)
      && FileId(path) in r.0.st.nodes.byId
      && w.st.relations <= r.0.st.relations && w.st.pending <= r.0.st.pending
      && (buildIndex ==> r.0.st.moduleToFile == w.st.moduleToFile[ModuleName(path) := FileId(path)])
      && (Deduplicated(w.st) ==> Deduplicated(r.0.st))
  {
    match root
    case None => (Walk(w.st, path, None), (NoNodes(), []))
    case Some(t) =>
      var st1 := OpenFile(w.st, path, buildIndex);
      var st5 := ParseContents(st1, t, path, buildIndex);
      (Walk(st5, path, None), (st5.nodes, st5.relations))
  }

  /** The passes over an opened file: `use` declarations, structs, functions, impls. */
  function ParseContents(st: State, t: Tree, path: string, buildIndex: bool): (r: State)
    ensures r.moduleToFile == st.moduleToFile
    ensures st.relations <= r.relations && st.pending <= r.pending && st.nodes.byId.Keys <= r.nodes.byId.Keys
    ensures Deduplicated(st) ==> Deduplicated(r)
  {
    var fid := FileId(path);
    var st2 := ParseUses(st, UsePaths(TextsOf(NodesOf(Find(t, "use_declaration")))), fid);
    assert st2 == st.(pending := st2.pending);
    var st3 := ParseStructs(st2, t, fid, path, buildIndex, ModuleName(path));
    var st4 := ParseFunctions(st3, t, fid, path);
    ParseImpls(st4, NodesOf(Find(t, "impl_item")), path)
  }
}
