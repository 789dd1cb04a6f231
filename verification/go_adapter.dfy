/** The ast-grep Go extractor (`GoAdapter`, go_adapter.py): import specs become
    pending module references named after the last path element, struct type
    declarations become class nodes, function declarations become functions, and a
    method declaration becomes a method of the first struct node named after its
    receiver type. */
module GoAdapter {

  import opened Wrappers
  import opened Text
  import opened Schema
  import opened Syntax
  import opened AdapterState

  /** The first tree of `ts` of the given kind. */
  function FirstOfKind(ts: seq<Tree>, kind: string): (r: Option<Tree>)
    ensures r.Some? ==> exists i :: (0 <= i < |ts| && ts[i] == r.value && r.value.kind == kind
      && forall j :: 0 <= j < i ==> ts[j].kind != kind)
    ensures r.None? ==> forall i :: 0 <= i < |ts| ==> ts[i].kind != kind
    decreases |ts|
  {
    if |ts| == 0 then None
    else if ts[0].kind == kind then Some(ts[0])
    else
      var r := FirstOfKind(ts[1..], kind);
      assert r.Some? ==> exists i :: (0 <= i < |ts| && ts[i] == r.value && r.value.kind == kind
          && forall j :: 0 <= j < i ==> ts[j].kind != kind) by {
        if r.Some? {
          var i :| 0 <= i < |ts[1..]| && ts[1..][i] == r.value && r.value.kind == kind
            && forall j :: 0 <= j < i ==> ts[1..][j].kind != kind;
          assert forall j :: 1 <= j < i + 1 ==> ts[j] == ts[1..][j - 1];
        }
      }
      assert r.None? ==> forall i :: 1 <= i < |ts| ==> ts[i] == ts[1..][i - 1];
      r
  }

  // Imports

  const Quote := {'"'}

  /** The import specs of one `import_declaration`, given its children: a direct
      `import_spec` child, or each `import_spec` child of an `import_spec_list` child. */
  function SpecsIn(cs: seq<Tree>): (r: seq<Tree>)
    ensures forall i :: 0 <= i < |r| ==> (r[i].kind == "import_spec"
      && (r[i] in cs || exists l :: l in cs && l.kind == "import_spec_list" && r[i] in l.children))
    decreases |cs|
  {
    if |cs| == 0 then []
    else
      var here :=
        if cs[0].kind == "import_spec" then [cs[0]]
        else if cs[0].kind == "import_spec_list" then OfKind(cs[0].children, "import_spec")
        else [];
      here + SpecsIn(cs[1..])
  }

  /** Both shapes of spec are found, wherever they sit among the children. */
  lemma {:induction false} SpecsInComplete(cs: seq<Tree>, s: Tree)
    requires s.kind == "import_spec"
    requires s in cs || exists l :: l in cs && l.kind == "import_spec_list" && s in l.children
    ensures s in SpecsIn(cs)
    decreases |cs|
  {
    if cs[0] == s {
    } else if cs[0].kind == "import_spec_list" && s in cs[0].children {
      OfKindComplete(cs[0].children, "import_spec", s);
    } else {
      assert s in cs[1..] || exists l :: l in cs[1..] && l.kind == "import_spec_list" && s in l.children by {
        if s !in cs[1..] {
          var l :| l in cs && l.kind == "import_spec_list" && s in l.children;
          if l == cs[0] {
            assert false;
          }
          assert l in cs[1..];
        }
      }
      SpecsInComplete(cs[1..], s);
    }
  }

  /** The specs of every declaration, in order. */
  function AllSpecs(decls: seq<Tree>): (r: seq<Tree>)
    ensures forall i :: 0 <= i < |r| ==> r[i].kind == "import_spec"
    decreases |decls|
  {
    if |decls| == 0 then [] else SpecsIn(decls[0].children) + AllSpecs(decls[1..])
  }

  lemma {:induction false} AllSpecsComplete(decls: seq<Tree>, i: nat, s: Tree)
    requires i < |decls| && s in SpecsIn(decls[i].children)
    ensures s in AllSpecs(decls)
    decreases |decls|
  {
    if i > 0 {
      AllSpecsComplete(decls[1..], i - 1, s);
    }
  }

  /** The import path of a spec: its `path` field's text with the quotes stripped. */
  function SpecPath(spec: Tree): Option<string> {
    match Field(spec, "path")
    case None => None
    case Some(p) => Some(StripChars(p.text, Quote))
  }

  function SpecPaths(specs: seq<Tree>): (r: seq<string>)
    ensures forall i :: 0 <= i < |r| ==> exists j :: 0 <= j < |specs| && SpecPath(specs[j]) == Some(r[i])
  {
    Somes(seq(|specs|, j requires 0 <= j < |specs| => SpecPath(specs[j])))
  }

  lemma SpecPathsComplete(specs: seq<Tree>, j: nat)
    requires j < |specs| && SpecPath(specs[j]).Some?
    ensures SpecPath(specs[j]).value in SpecPaths(specs)
  {
    SomesComplete(seq(|specs|, j requires 0 <= j < |specs| => SpecPath(specs[j])), j);
  }

  /** The reference for one import path: the module is the last `/`-separated
      element of the path. */
  function ImportRef(fileId: string, path: string): (p: Pending)
    ensures p.ModuleImport? && p.sourceId == fileId && p.fullPath == path && p.alias.None?
    ensures EndsWith(path, p.modName) && '/' !in p.modName
    ensures '/' !in path ==> p.modName == path
  {
    LastSegmentSpec(path, '/');
    ModuleImport(fileId, LastSegment(path, '/'), path, None)
  }

  /** `import "<dir>/<name>"` refers to the module `<name>` under the full path
      `<dir>/<name>`. */
  lemma QuotedImport(fileId: string, dir: string, name: string)
    requires |name| > 0 && '/' !in name && '"' !in dir && '"' !in name
    ensures var path := dir + "/" + name;
      && StripChars("\"" + path + "\"", Quote) == path
      && ImportRef(fileId, path) == ModuleImport(fileId, name, path, None)
  {
    var path := dir + "/" + name;
    assert path == dir + ['/'] + name;
    assert path[|path| - 1] == name[|name| - 1] && path[0] != '"' by {
      if |dir| > 0 {
        assert path[0] == dir[0];
      }
    }
    StripCharsWrapped("\"", path, "\"", Quote);
    LastSegmentOfJoin(dir, '/', name);
  }

  /** `_parse_imports`, given the paths of every import spec of the file: one reference
      per path, in order; nothing else changes. */
  function ParseImports(st: State, paths: seq<string>, fileId: string): (r: State)
    ensures r == st.(pending := r.pending) && st.pending <= r.pending
    ensures |r.pending| == |st.pending| + |paths|
    ensures forall i :: 0 <= i < |paths| ==> r.pending[|st.pending| + i] == ImportRef(fileId, paths[i])
  {
    var refs := seq(|paths|, i requires 0 <= i < |paths| => ImportRef(fileId, paths[i]));
    st.(pending := st.pending + refs)
  }

  function FileImportPaths(root: Tree): seq<string> {
    SpecPaths(AllSpecs(NodesOf(Find(root, "import_declaration"))))
  }

  /** `_parse_imports` on a whole file: only the pending references grow. */
  function ParseFileImports(st: State, root: Tree, fileId: string): (r: State)
    ensures r == st.(pending := r.pending) && st.pending <= r.pending
    ensures |r.pending| == |st.pending| + |FileImportPaths(root)|
    ensures r.relations == st.relations && r.established == st.established && r.nodes == st.nodes
    ensures r.moduleToFile == st.moduleToFile
  {
    ParseImports(st, FileImportPaths(root), fileId)
  }

  /** An import spec nested in an `import_spec_list` of any import declaration has its
      path among the file's import paths. */
  lemma GroupedImportFound(root: Tree, i: nat, l: Tree, s: Tree)
    requires var decls := NodesOf(Find(root, "import_declaration"));
      i < |decls| && l in decls[i].children && l.kind == "import_spec_list"
    requires s in l.children && s.kind == "import_spec" && SpecPath(s).Some?
    ensures SpecPath(s).value in FileImportPaths(root)
  {
    var decls := NodesOf(Find(root, "import_declaration"));
    SpecsInComplete(decls[i].children, s);
    AllSpecsComplete(decls, i, s);
    var specs := AllSpecs(decls);
    var j :| 0 <= j < |specs| && specs[j] == s;
    SpecPathsComplete(specs, j);
  }

  // Types

  /** The `type_spec` of a type declaration: its field of that name, else its first
      child of that kind. */
  function TypeSpec(decl: Tree): Option<Tree> {
    if Field(decl, "type_spec").Some? then Field(decl, "type_spec")
    else FirstOfKind(decl.children, "type_spec")
  }

  /** A struct type declaration's class spot: the spec's name at the declaration's
      line, provided the spec's `type` field is a `struct_type`. */
  function StructSpot(decl: Tree): (r: Option<Spot>)
    ensures r.Some? <==> (TypeSpec(decl).Some? && Field(TypeSpec(decl).value, "name").Some?
      && Field(TypeSpec(decl).value, "type").Some? && Field(TypeSpec(decl).value, "type").value.kind == "struct_type")
    ensures r.Some? ==> r.value == Spot(Field(TypeSpec(decl).value, "name").value.text, decl.line)
  {
    match TypeSpec(decl)
    case None => None
    case Some(spec) =>
      match Field(spec, "name")
      case None => None
      case Some(n) =>
        match Field(spec, "type")
        case None => None
        case Some(ty) => if ty.kind == "struct_type" then Some(Spot(n.text, decl.line)) else None
  }

  function StructSpots(decls: seq<Tree>): seq<Spot> {
    Somes(seq(|decls|, j requires 0 <= j < |decls| => StructSpot(decls[j])))
  }

  /** `_parse_type_declarations`: the struct declarations of the file become class
      nodes with `CONTAINS` from the file, indexed under their names when
      `build_index` is set; other type declarations add nothing. */
  function ParseTypes(st: State, root: Tree, fileId: string, file: string, buildIndex: bool, modName: string): (r: State)
    ensures !buildIndex ==> r.moduleDefs == st.moduleDefs
    ensures r.pending == st.pending && r.moduleToFile == st.moduleToFile
    ensures st.relations <= r.relations && st.nodes.byId.Keys <= r.nodes.byId.Keys
    ensures Deduplicated(st) ==> Deduplicated(r)
  {
    AddClasses(st, fileId, file, StructSpots(NodesOf(Find(root, "type_declaration"))), buildIndex, modName)
  }

  /** Every struct declaration is recorded as a class node at the declaration's line.
      With `build_index` its name is indexed, pointing at a struct of that name (the
      last one found), and so at this one when no struct of that name sits on another
      line. */
  lemma StructRecorded(st: State, root: Tree, fileId: string, file: string, buildIndex: bool, modName: string, j: nat)
    requires var ds := NodesOf(Find(root, "type_declaration")); j < |ds| && StructSpot(ds[j]).Some?
    ensures var ds := NodesOf(Find(root, "type_declaration"));
      var r := ParseTypes(st, root, fileId, file, buildIndex, modName);
      var name := StructSpot(ds[j]).value.name;
      var id := NodeId(Class, file, name, ds[j].line);
      && id in r.nodes.byId && RelationKey(Relation(fileId, id, Contains, map[])) in r.established
      && (buildIndex ==>
            && modName in r.moduleDefs && name in r.moduleDefs[modName]
            && (exists i :: 0 <= i < |ds| && StructSpot(ds[i]).Some? && StructSpot(ds[i]).value.name == name
                  && r.moduleDefs[modName][name] == NodeId(Class, file, name, ds[i].line))
            && ((forall i :: 0 <= i < |ds| && StructSpot(ds[i]).Some? && StructSpot(ds[i]).value.name == name
                   ==> ds[i].line == ds[j].line) ==> r.moduleDefs[modName][name] == id))
  {
    var ds := NodesOf(Find(root, "type_declaration"));
    var opts := seq(|ds|, j requires 0 <= j < |ds| => StructSpot(ds[j]));
    SomesComplete(opts, j);
    var spots := StructSpots(ds);
    var name := StructSpot(ds[j]).value.name;
    var k :| 0 <= k < |spots| && spots[k] == StructSpot(ds[j]).value;
    AddClassesRecordsEach(st, fileId, file, spots, buildIndex, modName, k);
    if buildIndex {
      var m := AddClassesIndexesName(st, fileId, file, spots, modName, k);
      var i :| 0 <= i < |opts| && opts[i] == Some(spots[m]);
      assert StructSpot(ds[i]) == Some(spots[m]);
    }
  }

  // Functions

  /** `_parse_functions`: every named `function_declaration` becomes a function node
      with `CONTAINS` from the file. */
  function ParseFunctions(st: State, root: Tree, fileId: string, file: string): (r: State)
    ensures r.pending == st.pending && r.moduleToFile == st.moduleToFile
    ensures st.relations <= r.relations && st.nodes.byId.Keys <= r.nodes.byId.Keys
    ensures Deduplicated(st) ==> Deduplicated(r)
  {
    var spots := Named(NodesOf(Find(root, "function_declaration")));
    var r := AddEntities(st, fileId, Function, Function, Contains, file, spots);
    assert Deduplicated(st) ==> Deduplicated(r) by {
      if Deduplicated(st) {
        AddEntitiesKeepsDeduplicated(st, fileId, Function, Function, Contains, file, spots);
      }
    }
    r
  }

  lemma FunctionRecorded(st: State, root: Tree, fileId: string, file: string, j: nat)
    requires var fs := NodesOf(Find(root, "function_declaration")); j < |fs| && Field(fs[j], "name").Some?
    ensures var fs := NodesOf(Find(root, "function_declaration"));
      var r := ParseFunctions(st, root, fileId, file);
      var id := NodeId(Function, file, Field(fs[j], "name").value.text, fs[j].line);
      id in r.nodes.byId && r.nodes.byId[id].kind == Function
      && RelationKey(Relation(fileId, id, Contains, map[])) in r.established
  {
    var fs := NodesOf(Find(root, "function_declaration"));
    var spots := Named(fs);
    var k :| 0 <= k < |spots| && spots[k] == Spot(Field(fs[j], "name").value.text, fs[j].line);
    AddEntitiesRecordsEach(st, fileId, Function, Function, Contains, file, spots, k);
  }

  // Methods

  /** The type a receiver parameter names: `T` for `(r T)`, and for `(r *T)` the first
      `type_identifier` under the pointer type. */
  function ParamType(p: Tree): Option<string> {
    if p.kind != "parameter_declaration" then None
    else
      match Field(p, "type")
      case None => None
      case Some(ty) =>
        if ty.kind == "pointer_type" then
          match FirstOfKind(ty.children, "type_identifier")
          case None => None
          case Some(id) => Some(id.text)
        else if ty.kind == "type_identifier" then Some(ty.text)
        else None
  }

  /** The position of the first parameter that names a type; `|cs|` when none does. */
  function FirstTyped(cs: seq<Tree>): (k: nat)
    ensures k <= |cs|
    ensures forall j :: 0 <= j < k ==> ParamType(cs[j]).None?
    ensures k < |cs| ==> ParamType(cs[k]).Some?
    decreases |cs|
  {
    if |cs| == 0 || ParamType(cs[0]).Some? then 0
    else
      var k := FirstTyped(cs[1..]);
      assert forall j :: 1 <= j < k + 1 ==> cs[j] == cs[1..][j - 1];
      1 + k
  }

  /** `_extract_receiver_type`: the type named by the first parameter of the receiver
      that names one; `None` exactly when none does. */
  function ReceiverType(cs: seq<Tree>): (r: Option<string>)
    ensures r.None? <==> FirstTyped(cs) == |cs|
    ensures r.Some? ==> r == ParamType(cs[FirstTyped(cs)])
    decreases |cs|
  {
    if |cs| == 0 then None
    else if ParamType(cs[0]).Some? then ParamType(cs[0])
    else
      var r := ReceiverType(cs[1..]);
      assert FirstTyped(cs) == 1 + FirstTyped(cs[1..]);
      r
  }

  /** A value receiver `(r T)` and a pointer receiver `(r *T)` name the same type. */
  lemma ValueAndPointerReceiversAgree(p: Tree, q: Tree, tyId: Tree, star: Tree)
    requires p.kind == "parameter_declaration" && Field(p, "type") == Some(tyId) && tyId.kind == "type_identifier"
    requires q.kind == "parameter_declaration" && Field(q, "type").Some?
    requires Field(q, "type").value.kind == "pointer_type" && Field(q, "type").value.children == [star, tyId]
    requires star.kind != "type_identifier"
    ensures ReceiverType([p]) == ReceiverType([q]) == Some(tyId.text)
  {
    assert ParamType(p) == Some(tyId.text);
    var ptr := Field(q, "type").value;
    assert FirstOfKind(ptr.children, "type_identifier") == Some(tyId) by {
      assert ptr.children[0] == star && ptr.children[1] == tyId;
    }
    assert ParamType(q) == Some(tyId.text);
  }

  /** One iteration of `_parse_methods`. A method without a name, without a receiver,
      whose receiver names no type (or the empty one), or whose type has no class
      node adds nothing; otherwise a method node at the declaration's line with
      `DEFINES` from the first class node of that name. */
  function ParseMethod(st: State, decl: Tree, file: string): (r: State)
    ensures var ty := if Field(decl, "receiver").Some? then ReceiverType(Field(decl, "receiver").value.children) else None;
      if Field(decl, "name").Some? && ty.Some? && ty.value != "" && FirstClassNamed(st.nodes, ty.value).Some? then
        var owner := FirstClassNamed(st.nodes, ty.value).value;
        var id := NodeId(Method, file, Field(decl, "name").value.text, decl.line);
        && ClassNamed(st.nodes, owner, ty.value)
        && id in r.nodes.byId && r.nodes.byId[id].kind == Method
        && RelationKey(Relation(owner, id, Defines, map[])) in r.established
        && r.nodes.byId.Keys == st.nodes.byId.Keys + {id}
      else r == st
    ensures r.pending == st.pending && r.moduleDefs == st.moduleDefs && r.moduleToFile == st.moduleToFile
    ensures st.relations <= r.relations && st.nodes.byId.Keys <= r.nodes.byId.Keys && st.established <= r.established
    ensures Deduplicated(st) ==> Deduplicated(r)
  {
    match Field(decl, "name")
    case None => st
    case Some(n) =>
      match Field(decl, "receiver")
      case None => st
      case Some(recv) =>
        match ReceiverType(recv.children)
        case None => st
        case Some(ty) =>
          if ty == "" then st
          else
            match FirstClassNamed(st.nodes, ty)
            case None => st
            case Some(owner) => AddEntity(st, owner, EntityNode(Method, Method, file, Spot(n.text, decl.line)), Defines)
  }

  /** `_parse_methods` over every `method_declaration` of the file, in order. */
  function ParseMethods(st: State, decls: seq<Tree>, file: string): (r: State)
    ensures r.pending == st.pending && r.moduleDefs == st.moduleDefs && r.moduleToFile == st.moduleToFile
    ensures st.relations <= r.relations && st.nodes.byId.Keys <= r.nodes.byId.Keys && st.established <= r.established
    ensures Deduplicated(st) ==> Deduplicated(r)
    decreases |decls|
  {
    if |decls| == 0 then st
    else ParseMethods(ParseMethod(st, decls[0], file), decls[1..], file)
  }

  /** `parse_file`: a file that cannot be read or parsed gives `({}, [])` and leaves the
      accumulator as it was; otherwise the file node, the module registration, the
      imports, the struct types, the functions and the methods, in that order. */
  function ParseFile(w: Walk, path: string, root: Option<Tree>, buildIndex: bool): (r: (Walk, (NodeMap, seq<Relation>)))
    ensures r.0.file == path && r.0.current.None?
    ensures root.None? ==> r.1 == (NoNodes(), []) && r.0.st == w.st
    ensures root.Some? ==>
      && r.1 == (r.0.st.nodes, r.0.st.relations)
      && FileId(path) in r.0.st.nodes.byId
      && w.st.relations <= r.0.st.relations && w.st.pending <= r.0.st.pending
      && (buildIndex ==> r.0.st.moduleToFile == w.st.moduleToFile[ModuleName(path) := FileId(path)])
      && (Deduplicated(w.st) ==> Deduplicated(r.0.st))
  {
    match root
    case None => (Walk(w.st, path, None), (NoNodes(), []))
    case Some(t) =>
      var st1 := OpenFile(w.st, path, buildIndex);
      var st5 := ParseContents(st1, t, path, buildIndex);
      (Walk(st5, path, None), (st5.nodes, st5.relations))
  }

  /** The passes over an opened file: imports, struct types, functions, methods. */
  function ParseContents(st: State, t: Tree, path: string, buildIndex: bool): (r: State)
    ensures r.moduleToFile == st.moduleToFile
    ensures st.relations <= r.relations && st.pending <= r.pending && st.nodes.byId.Keys <= r.nodes.byId.Keys
    ensures Deduplicated(st) ==> Deduplicated(r)
  {
    var fid := FileId(path);
    var st2 := ParseFileImports(st, t, fid);
    assert Deduplicated(st) ==> Deduplicated(st2);
    var st3 := ParseTypes(st2, t, fid, path, buildIndex, ModuleName(path));
    var st4 := ParseFunctions(st3, t, fid, path);
    ParseMethods(st4, NodesOf(Find(t, "method_declaration")), path)
  }
}
