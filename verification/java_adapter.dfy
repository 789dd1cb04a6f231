/** The ast-grep Java extractor (`JavaAdapter`, java_adapter.py): import declarations
    become pending module references, and every named class declaration yields a
    class node with its methods and fields. Structural edges go through the dedup set. */
module JavaAdapter {

  import opened Wrappers
  import opened Text
  import opened Schema
  import opened Syntax
  import opened AdapterState

  /** The imported path of an `import_declaration`: the stripped text with `import `
      and a trailing `;` removed, or `None` when the text does not start with `import `. */
  function ImportPath(text: string): Option<string> {
    StatementArgument(text, "import ")
  }

  /** The result of `ImportPath` for each declaration text. */
  function PathOptions(texts: seq<string>): (r: seq<Option<string>>)
    ensures |r| == |texts| && forall j :: 0 <= j < |texts| ==> r[j] == ImportPath(texts[j])
  {
    seq(|texts|, j requires 0 <= j < |texts| => ImportPath(texts[j]))
  }

  /** The paths of the declarations that start with `import `, in order. */
  function ImportPaths(texts: seq<string>): (r: seq<string>)
    ensures |r| <= |texts|
    ensures forall i :: 0 <= i < |r| ==> exists j :: 0 <= j < |texts| && ImportPath(texts[j]) == Some(r[i])
  {
    Somes(PathOptions(texts))
  }

  /** No declaration starting with `import ` is lost. */
  lemma ImportPathsComplete(texts: seq<string>, j: nat)
    requires j < |texts| && ImportPath(texts[j]).Some?
    ensures ImportPath(texts[j]).value in ImportPaths(texts)
  {
    SomesComplete(PathOptions(texts), j);
  }

  /** The `IMPORTS_MODULE` reference recorded for one import path: the root module is
      the path up to the first '.'. */
  function ModuleRef(fileId: string, path: string): (p: Pending)
    ensures p.ModuleImport? && p.sourceId == fileId && p.fullPath == path && p.alias.None?
    ensures StartsWith(path, p.modName) && '.' !in p.modName && (|p.modName| < |path| ==> path[|p.modName|] == '.')
  {
    FirstSegmentSpec(path, '.');
    ModuleImport(fileId, FirstSegment(path, '.'), path, None)
  }

  /** `import <root>.<rest>;` records the module `<root>` with the full path
      `<root>.<rest>`, for a root without dots and a path without blank ends. */
  lemma QualifiedImport(fileId: string, root: string, rest: string)
    requires |root| > 0 && '.' !in root && root[0] !in Whitespace
    requires |rest| > 0 && rest[|rest| - 1] !in Whitespace && rest[|rest| - 1] != ';'
    ensures var path := root + "." + rest;
      && ImportPath("import " + path + ";") == Some(path)
      && ModuleRef(fileId, path) == ModuleImport(fileId, root, path, None)
  {
    var path := root + "." + rest;
    assert path[0] == root[0] && path[|path| - 1] == rest[|rest| - 1];
    StatementArgumentRoundTrip("import ", path);
    assert path == root + ['.'] + rest;
    FirstSegmentOfJoin(root, '.', rest);
  }

  /** `_parse_imports`, given the paths of the file's import declarations: one
      `IMPORTS_MODULE` reference per path, in order; nothing else changes. */
  function ParseImports(st: State, paths: seq<string>, fileId: string): (r: State)
    ensures r == st.(pending := r.pending) && st.pending <= r.pending
    ensures |r.pending| == |st.pending| + |paths|
    ensures forall i :: 0 <= i < |paths| ==> r.pending[|st.pending| + i] == ModuleRef(fileId, paths[i])
  {
    var refs := seq(|paths|, i requires 0 <= i < |paths| => ModuleRef(fileId, paths[i]));
    st.(pending := st.pending + refs)
  }

  /** The methods of a class body: every named `method_declaration` below it. */
  function MethodSpots(body: Tree): seq<Spot> {
    Named(NodesOf(FindAll(body, {"method_declaration"}, [])))
  }

  /** The fields of a class body: the named `variable_declarator` children of every
      `field_declaration` below it, each at its own line. */
  function DeclaratorSpots(decls: seq<Hit>): (r: seq<Spot>)
    ensures forall s :: s in r ==> exists i, c :: (0 <= i < |decls| && c in decls[i].node.children
      && c.kind == "variable_declarator" && Field(c, "name").Some? && s == Spot(Field(c, "name").value.text, c.line))
    decreases |decls|
  {
    if |decls| == 0 then []
    else
      var here := Named(OfKind(decls[0].node.children, "variable_declarator"));
      var rest := DeclaratorSpots(decls[1..]);
      assert forall i :: 1 <= i < |decls| ==> decls[i] == decls[1..][i - 1];
      here + rest
  }

  /** A named declarator child of a field declaration is among the field spots. */
  lemma {:induction false} DeclaratorSpotsComplete(decls: seq<Hit>, i: nat, c: Tree)
    requires i < |decls| && c in decls[i].node.children && c.kind == "variable_declarator" && Field(c, "name").Some?
    ensures Spot(Field(c, "name").value.text, c.line) in DeclaratorSpots(decls)
    decreases |decls|
  {
    if i == 0 {
      var kids := OfKind(decls[0].node.children, "variable_declarator");
      OfKindComplete(decls[0].node.children, "variable_declarator", c);
      var j :| 0 <= j < |kids| && kids[j] == c;
    } else {
      DeclaratorSpotsComplete(decls[1..], i - 1, c);
    }
  }

  function FieldSpots(body: Tree): seq<Spot> {
    DeclaratorSpots(FindAll(body, {"field_declaration"}, []))
  }

  /** `_parse_methods` then `_parse_fields`: methods become `Method` nodes, fields
      become `ClassVariable` nodes whose ids carry the `Variable` prefix; each gets a
      `DEFINES` edge from the class. */
  function ParseMembers(st: State, classId: string, file: string, body: Tree): (r: State)
    ensures r == st.(nodes := r.nodes, relations := r.relations, established := r.established)
    ensures st.relations <= r.relations && st.established <= r.established && st.nodes.byId.Keys <= r.nodes.byId.Keys
    ensures Deduplicated(st) ==> Deduplicated(r)
  {
    var st1 := AddEntities(st, classId, Method, Method, Defines, file, MethodSpots(body));
    assert Deduplicated(st) ==> Deduplicated(st1) by {
      if Deduplicated(st) {
        AddEntitiesKeepsDeduplicated(st, classId, Method, Method, Defines, file, MethodSpots(body));
      }
    }
    assert Deduplicated(st1) ==> Deduplicated(AddEntities(st1, classId, ClassVariable, Variable, Defines, file, FieldSpots(body))) by {
      if Deduplicated(st1) {
        AddEntitiesKeepsDeduplicated(st1, classId, ClassVariable, Variable, Defines, file, FieldSpots(body));
      }
    }
    AddEntities(st1, classId, ClassVariable, Variable, Defines, file, FieldSpots(body))
  }

  /** Every field declarator of the body is recorded as a `ClassVariable` node with a
      `Variable:` id and a `DEFINES` edge from the class. */
  lemma FieldRecorded(st: State, classId: string, file: string, body: Tree, i: nat, c: Tree)
    requires var decls := FindAll(body, {"field_declaration"}, []);
      i < |decls| && c in decls[i].node.children && c.kind == "variable_declarator" && Field(c, "name").Some?
    ensures var r := ParseMembers(st, classId, file, body);
      var id := NodeId(Variable, file, Field(c, "name").value.text, c.line);
      && id in r.nodes.byId && r.nodes.byId[id].kind == ClassVariable
      && RelationKey(Relation(classId, id, Defines, map[])) in r.established
  {
    var spots := FieldSpots(body);
    var s := Spot(Field(c, "name").value.text, c.line);
    DeclaratorSpotsComplete(FindAll(body, {"field_declaration"}, []), i, c);
    var k :| 0 <= k < |spots| && spots[k] == s;
    var st1 := AddEntities(st, classId, Method, Method, Defines, file, MethodSpots(body));
    AddEntitiesRecordsEach(st1, classId, ClassVariable, Variable, Defines, file, spots, k);
  }

  /** Every named method below the class body is recorded as a `Method` node with a
      `DEFINES` edge from the class. */
  lemma MethodRecorded(st: State, classId: string, file: string, body: Tree, j: nat)
    requires var ms := NodesOf(FindAll(body, {"method_declaration"}, []));
      j < |ms| && Field(ms[j], "name").Some?
    ensures var ms := NodesOf(FindAll(body, {"method_declaration"}, []));
      var r := ParseMembers(st, classId, file, body);
      var id := NodeId(Method, file, Field(ms[j], "name").value.text, ms[j].line);
      id in r.nodes.byId && RelationKey(Relation(classId, id, Defines, map[])) in r.established
  {
    var ms := NodesOf(FindAll(body, {"method_declaration"}, []));
    var spots := MethodSpots(body);
    var s := Spot(Field(ms[j], "name").value.text, ms[j].line);
    var k :| 0 <= k < |spots| && spots[k] == s;
    AddEntitiesRecordsEach(st, classId, Method, Method, Defines, file, spots, k);
  }

  /** One iteration of `_parse_classes`: an unnamed declaration is skipped; a named one
      gets a class node at its line, `CONTAINS` from the file, an index entry under the
      file's module when `build_index` is set, and its members. */
  function ParseClass(st: State, decl: Tree, fileId: string, file: string, buildIndex: bool, modName: string): (r: State)
    ensures Field(decl, "name").None? ==> r == st
    ensures Field(decl, "name").Some? ==>
      var name := Field(decl, "name").value.text;
      var id := NodeId(Class, file, name, decl.line);
      && id in r.nodes.byId
      && RelationKey(Relation(fileId, id, Contains, map[])) in r.established
      && (buildIndex ==> modName in r.moduleDefs && name in r.moduleDefs[modName] && r.moduleDefs[modName][name] == id)
    ensures !buildIndex ==> r.moduleDefs == st.moduleDefs
    ensures r.pending == st.pending && r.moduleToFile == st.moduleToFile && st.relations <= r.relations
    ensures st.nodes.byId.Keys <= r.nodes.byId.Keys && st.established <= r.established
    ensures Deduplicated(st) ==> Deduplicated(r)
  {
    match Field(decl, "name")
    case None => st
    case Some(n) =>
      var id := NodeId(Class, file, n.text, decl.line);
      var st1 := AddClass(st, fileId, file, Spot(n.text, decl.line), buildIndex, modName);
      match Field(decl, "body")
      case None => st1
      case Some(body) => ParseMembers(st1, id, file, body)
  }

  /** `_parse_classes` over every `class_declaration` of the file, nested ones included. */
  function ParseClasses(st: State, decls: seq<Tree>, fileId: string, file: string, buildIndex: bool, modName: string): (r: State)
    ensures !buildIndex ==> r.moduleDefs == st.moduleDefs
    ensures r.pending == st.pending && r.moduleToFile == st.moduleToFile && st.relations <= r.relations
    ensures st.nodes.byId.Keys <= r.nodes.byId.Keys && st.established <= r.established
    ensures Deduplicated(st) ==> Deduplicated(r)
    decreases |decls|
  {
    if |decls| == 0 then st
    else ParseClasses(ParseClass(st, decls[0], fileId, file, buildIndex, modName), decls[1..], fileId, file, buildIndex, modName)
  }

  /** Every named class declaration of the file keeps its class node and its
      `CONTAINS` edge from the file, whatever follows it. */
  lemma {:induction false} ClassRecorded(st: State, decls: seq<Tree>, fileId: string, file: string, buildIndex: bool, modName: string, j: nat)
    requires j < |decls| && Field(decls[j], "name").Some?
    ensures var r := ParseClasses(st, decls, fileId, file, buildIndex, modName);
      var id := NodeId(Class, file, Field(decls[j], "name").value.text, decls[j].line);
      id in r.nodes.byId && RelationKey(Relation(fileId, id, Contains, map[])) in r.established
    decreases |decls|
  {
    var st1 := ParseClass(st, decls[0], fileId, file, buildIndex, modName);
    if j > 0 {
      ClassRecorded(st1, decls[1..], fileId, file, buildIndex, modName, j - 1);
      assert decls[1..][j - 1] == decls[j];
    }
  }

  /** `parse_file`: a file that cannot be read or parsed gives `({}, [])` and leaves the
      accumulator as it was; otherwise the file node, the module registration, the
      imports and the classes, and the adapter's whole node map and relation list are
      returned. No class is current afterwards. */
  function ParseFile(w: Walk, path: string, root: Option<Tree>, buildIndex: bool): (r: (Walk, (NodeMap, seq<Relation>)))
    ensures r.0.file == path && r.0.current.None?
    ensures root.None? ==> r.1 == (NoNodes(), []) && r.0.st == w.st
    ensures root.Some? ==>
      && r.1 == (r.0.st.nodes, r.0.st.relations)
      && FileId(path) in r.0.st.nodes.byId
      && w.st.relations <= r.0.st.relations && w.st.pending <= r.0.st.pending
      && (buildIndex ==> r.0.st.moduleToFile == w.st.moduleToFile[ModuleName(path) := FileId(path)])
      && (Deduplicated(w.st) ==> Deduplicated(r.0.st))
  {
    match root
    case None => (Walk(w.st, path, None), (NoNodes(), []))
    case Some(t) =>
      var fid := FileId(path);
      var st1 := OpenFile(w.st, path, buildIndex);
      var st2 := ParseImports(st1, ImportPaths(TextsOf(NodesOf(Find(t, "import_declaration")))), fid);
      var st3 := ParseClasses(st2, NodesOf(Find(t, "class_declaration")), fid, path, buildIndex, ModuleName(path));
      (Walk(st3, path, None), (st3.nodes, st3.relations))
  }
}
