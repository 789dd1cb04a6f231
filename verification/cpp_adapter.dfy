/** The ast-grep C++ extractor (`CppAdapter`, cpp_adapter.py): `#include` directives
    become pending module references, class specifiers yield class nodes with their
    methods, and function definitions directly under the root yield function nodes.
    Structural edges go through the dedup set. */
module CppAdapter {

  import opened Wrappers
  import opened Text
  import opened Schema
  import opened Syntax
  import opened AdapterState

  /** The characters `strip('<>"')` removes around an include target. */
  const Brackets: set<char> := {'<', '>', '"'}

  /** The target of a directive: the stripped text after the eight characters of
      `#include`, with blanks and then `<`, `>` and `"` removed from both ends; `None`
      when the directive does not start with `#include`. */
  function IncludeTarget(text: string): (r: Option<string>)
    ensures r.Some? <==> StartsWith(Strip(text), "#include")
    ensures r.Some? ==> Trimmed(r.value, Brackets)
  {
    var t := Strip(text);
    if !StartsWith(t, "#include") then None
    else
      StripCharsTrimmed(Strip(t[8..]), Brackets);
      Some(StripChars(Strip(t[8..]), Brackets))
  }

  /** The `IMPORTS_MODULE` reference of one target: the full path is the last '/'
      segment (the whole target when it has no '/'), and the module is that segment
      without its extension. */
  function IncludeRef(fileId: string, target: string): (p: Pending)
    ensures p.ModuleImport? && p.sourceId == fileId && p.alias.None?
    ensures '/' !in p.fullPath && EndsWith(target, p.fullPath)
    ensures '/' !in target ==> p.fullPath == target
    ensures p.modName + SplitExt(p.fullPath).1 == p.fullPath
  {
    var file := LastSegment(target, '/');
    LastSegmentSpec(target, '/');
    SplitExtSpec(file);
    ModuleImport(fileId, SplitExt(file).0, file, None)
  }

  /** `#include <target>` gives the target back, when it has no bracket at either
      end. */
  lemma AngleIncludeTarget(target: string)
    requires |target| > 0 && Trimmed(target, Brackets)
    ensures IncludeTarget("#include <" + target + ">") == Some(target)
  {
    var text := "#include <" + target + ">";
    assert text[0] == '#' && text[|text| - 1] == '>';
    StripCharsKeepsClean(text, Whitespace);
    assert text[..8] == "#include";
    var wrapped := "<" + target + ">";
    assert text[8..] == " " + wrapped + "";
    assert wrapped[0] == '<' && wrapped[|wrapped| - 1] == '>';
    StripCharsWrapped(" ", wrapped, "", Whitespace);
    StripCharsWrapped("<", target, ">", Brackets);
  }

  /** A target `dir/name.ext` records the module `name` with the full path `name.ext`,
      for a file name with exactly one dot. */
  lemma IncludeRefOfPath(fileId: string, dir: string, name: string, ext: string)
    requires |name| > 0 && '.' !in name && '/' !in name
    requires '.' !in ext && '/' !in ext
    ensures IncludeRef(fileId, dir + "/" + name + "." + ext) == ModuleImport(fileId, name, name + "." + ext, None)
  {
    var file := name + "." + ext;
    assert '/' !in file by {
      forall k | 0 <= k < |file|
        ensures file[k] != '/'
      {
        if k < |name| { assert file[k] == name[k]; }
        else if k > |name| { assert file[k] == ext[k - |name| - 1]; }
      }
    }
    assert dir + "/" + name + "." + ext == dir + ['/'] + file;
    LastSegmentOfJoin(dir, '/', file);
    SplitExtOfJoin(name, ext);
  }

  /** `#include <dir/name.ext>` records the module `name` with the full path
      `name.ext`. */
  lemma AngleInclude(fileId: string, dir: string, name: string, ext: string)
    requires |dir| > 0 && dir[0] !in Brackets
    requires |name| > 0 && '.' !in name && '/' !in name
    requires |ext| > 0 && '.' !in ext && '/' !in ext && ext[|ext| - 1] !in Brackets
    ensures var target := dir + "/" + name + "." + ext;
      && IncludeTarget("#include <" + target + ">") == Some(target)
      && IncludeRef(fileId, target) == ModuleImport(fileId, name, name + "." + ext, None)
  {
    var target := dir + "/" + name + "." + ext;
    assert target[0] == dir[0] && target[|target| - 1] == ext[|ext| - 1];
    AngleIncludeTarget(target);
    IncludeRefOfPath(fileId, dir, name, ext);
  }

  /** The include targets of the file's directives that start with `#include`. */
  function IncludeTargets(texts: seq<string>): (r: seq<string>)
    ensures |r| <= |texts|
    ensures forall i :: 0 <= i < |r| ==> exists j :: 0 <= j < |texts| && IncludeTarget(texts[j]) == Some(r[i])
  {
    Somes(seq(|texts|, j requires 0 <= j < |texts| => IncludeTarget(texts[j])))
  }

  /** No directive starting with `#include` is lost. */
  lemma IncludeTargetsComplete(texts: seq<string>, j: nat)
    requires j < |texts| && IncludeTarget(texts[j]).Some?
    ensures IncludeTarget(texts[j]).value in IncludeTargets(texts)
  {
    SomesComplete(seq(|texts|, j requires 0 <= j < |texts| => IncludeTarget(texts[j])), j);
  }

  /** `_parse_includes`, given the targets: one reference per target, in order; nothing
      else changes. */
  function ParseIncludes(st: State, targets: seq<string>, fileId: string): (r: State)
    ensures r == st.(pending := r.pending) && st.pending <= r.pending
    ensures |r.pending| == |st.pending| + |targets|
    ensures forall i :: 0 <= i < |targets| ==> r.pending[|st.pending| + i] == IncludeRef(fileId, targets[i])
  {
    var refs := seq(|targets|, i requires 0 <= i < |targets| => IncludeRef(fileId, targets[i]));
    st.(pending := st.pending + refs)
  }

  // ---------------------------------------------------------------------------------
  // Function names

  /** An `identifier` node with the given text occurs strictly below `t`. */
  ghost predicate IdentifierBelow(t: Tree, name: string)
    decreases t
  {
    exists i :: 0 <= i < |t.children| &&
      ((t.children[i].kind == "identifier" && t.children[i].text == name) || IdentifierBelow(t.children[i], name))
  }

  /** Python truthiness of an optional name: present and non-empty. */
  predicate Truthy(n: Option<string>) {
    n.Some? && n.value != ""
  }

  /** `_extract_function_name`: the `declarator` field when it is an identifier;
      otherwise the first child that is an identifier, or the first truthy name found
      through a child whose kind mentions `declarator`. Whatever it returns is the text
      of an identifier below the declarator, and a declarator with an identifier child
      always yields a name. */
  function DeclaratorName(d: Tree): (r: Option<string>)
    ensures r.Some? ==> IdentifierBelow(d, r.value)
    ensures r.None? ==> forall i :: 0 <= i < |d.children| ==> d.children[i].kind != "identifier"
    decreases d, 1
  {
    match Field(d, "declarator")
    case Some(f) =>
      if f.kind == "identifier" then
        var i :| 0 <= i < |d.children| && d.children[i] == f;
        Some(f.text)
      else ChildName(d, 0)
    case None => ChildName(d, 0)
  }

  /** The loop over the children of `d` from position `k` on. */
  function ChildName(d: Tree, k: nat): (r: Option<string>)
    requires k <= |d.children|
    ensures r.Some? ==> IdentifierBelow(d, r.value)
    ensures r.None? ==> forall i :: k <= i < |d.children| ==> d.children[i].kind != "identifier"
    decreases d, 0, |d.children| - k
  {
    if k == |d.children| then None
    else
      var c := d.children[k];
      if c.kind == "identifier" then Some(c.text)
      else if Text.Contains(c.kind, "declarator") && Truthy(DeclaratorName(c)) then DeclaratorName(c)
      else ChildName(d, k + 1)
  }

  /** The spot of a `function_definition`: its line and the name of its declarator,
      or `None` when it has no declarator or the name is missing or empty. */
  function FunctionSpot(def: Tree): (r: Option<Spot>)
    ensures r.Some? ==> (r.value.line == def.line && r.value.name != ""
      && Field(def, "declarator").Some? && IdentifierBelow(Field(def, "declarator").value, r.value.name))
  {
    match Field(def, "declarator")
    case None => None
    case Some(d) =>
      var n := DeclaratorName(d);
      if Truthy(n) then Some(Spot(n.value, def.line)) else None
  }

  /** The spots of a list of function definitions, skipping those without a name. */
  function FunctionSpots(defs: seq<Tree>): (r: seq<Spot>)
    ensures forall i :: 0 <= i < |r| ==> exists j :: 0 <= j < |defs| && FunctionSpot(defs[j]) == Some(r[i])
  {
    Somes(seq(|defs|, j requires 0 <= j < |defs| => FunctionSpot(defs[j])))
  }

  /** No named definition is skipped. */
  lemma FunctionSpotsComplete(defs: seq<Tree>, j: nat)
    requires j < |defs| && FunctionSpot(defs[j]).Some?
    ensures FunctionSpot(defs[j]).value in FunctionSpots(defs)
  {
    SomesComplete(seq(|defs|, j requires 0 <= j < |defs| => FunctionSpot(defs[j])), j);
  }

  // ---------------------------------------------------------------------------------
  // Classes and functions

  /** One iteration of `_parse_classes`: a named `class_specifier` gets a class node,
      `CONTAINS` from the file, an index entry with `build_index`, and a `DEFINES`
      edge to every named function definition below its body. */
  function ParseClass(st: State, spec: Tree, fileId: string, file: string, buildIndex: bool, modName: string): (r: State)
    ensures Field(spec, "name").None? ==> r == st
    ensures Field(spec, "name").Some? ==>
      var name := Field(spec, "name").value.text;
      var id := NodeId(Class, file, name, spec.line);
      && id in r.nodes.byId
      && RelationKey(Relation(fileId, id, Contains, map[])) in r.established
      && (buildIndex ==> modName in r.moduleDefs && name in r.moduleDefs[modName] && r.moduleDefs[modName][name] == id)
    ensures !buildIndex ==> r.moduleDefs == st.moduleDefs
    ensures r.pending == st.pending && r.moduleToFile == st.moduleToFile && st.relations <= r.relations
    ensures st.nodes.byId.Keys <= r.nodes.byId.Keys && st.established <= r.established
    ensures Deduplicated(st) ==> Deduplicated(r)
  {
    match Field(spec, "name")
    case None => st
    case Some(n) =>
      var id := NodeId(Class, file, n.text, spec.line);
      var st1 := AddClass(st, fileId, file, Spot(n.text, spec.line), buildIndex, modName);
      match Field(spec, "body")
      case None => st1
      case Some(body) =>
        var spots := MethodSpots(body);
        assert Deduplicated(st) ==> Deduplicated(AddEntities(st1, id, Method, Method, Defines, file, spots)) by {
          if Deduplicated(st) {
            AddEntitiesKeepsDeduplicated(st1, id, Method, Method, Defines, file, spots);
          }
        }
        AddEntities(st1, id, Method, Method, Defines, file, spots)
  }

  /** `_parse_class_methods`: every named `function_definition` below the body. */
  function MethodSpots(body: Tree): seq<Spot> {
    FunctionSpots(NodesOf(FindAll(body, {"function_definition"}, [])))
  }

  /** Every named function definition below a class body becomes a method node with
      a `DEFINES` edge from the class. */
  lemma MethodRecorded(st: State, spec: Tree, fileId: string, file: string, buildIndex: bool, modName: string, j: nat)
    requires Field(spec, "name").Some? && Field(spec, "body").Some?
    requires var ds := NodesOf(FindAll(Field(spec, "body").value, {"function_definition"}, []));
      j < |ds| && FunctionSpot(ds[j]).Some?
    ensures var ds := NodesOf(FindAll(Field(spec, "body").value, {"function_definition"}, []));
      var r := ParseClass(st, spec, fileId, file, buildIndex, modName);
      var classId := NodeId(Class, file, Field(spec, "name").value.text, spec.line);
      var s := FunctionSpot(ds[j]).value;
      var mid := NodeId(Method, file, s.name, s.line);
      && mid in r.nodes.byId && r.nodes.byId[mid].kind == Method && s.line == ds[j].line
      && RelationKey(Relation(classId, mid, Defines, map[])) in r.established
  {
    var body := Field(spec, "body").value;
    var ds := NodesOf(FindAll(body, {"function_definition"}, []));
    var n := Field(spec, "name").value;
    var classId := NodeId(Class, file, n.text, spec.line);
    var st1 := AddClass(st, fileId, file, Spot(n.text, spec.line), buildIndex, modName);
    var spots := MethodSpots(body);
    FunctionSpotsComplete(ds, j);
    var k :| 0 <= k < |spots| && spots[k] == FunctionSpot(ds[j]).value;
    AddEntitiesRecordsEach(st1, classId, Method, Method, Defines, file, spots, k);
  }

  /** `_parse_classes` over every `class_specifier` of the file. */
  function ParseClasses(st: State, specs: seq<Tree>, fileId: string, file: string, buildIndex: bool, modName: string): (r: State)
    ensures !buildIndex ==> r.moduleDefs == st.moduleDefs
    ensures r.pending == st.pending && r.moduleToFile == st.moduleToFile && st.relations <= r.relations
    ensures st.nodes.byId.Keys <= r.nodes.byId.Keys && st.established <= r.established
    ensures Deduplicated(st) ==> Deduplicated(r)
    decreases |specs|
  {
    if |specs| == 0 then st
    else ParseClasses(ParseClass(st, specs[0], fileId, file, buildIndex, modName), specs[1..], fileId, file, buildIndex, modName)
  }

  /** Every named class specifier keeps its class node and `CONTAINS` edge. */
  lemma {:induction false} ClassRecorded(st: State, specs: seq<Tree>, fileId: string, file: string, buildIndex: bool, modName: string, j: nat)
    requires j < |specs| && Field(specs[j], "name").Some?
    ensures var r := ParseClasses(st, specs, fileId, file, buildIndex, modName);
      var id := NodeId(Class, file, Field(specs[j], "name").value.text, specs[j].line);
      id in r.nodes.byId && RelationKey(Relation(fileId, id, Contains, map[])) in r.established
    decreases |specs|
  {
    var st1 := ParseClass(st, specs[0], fileId, file, buildIndex, modName);
    if j > 0 {
      ClassRecorded(st1, specs[1..], fileId, file, buildIndex, modName, j - 1);
      assert specs[1..][j - 1] == specs[j];
    }
  }

  /** The function definitions `_parse_functions` looks at: direct children of the
      root only, so a definition nested in a namespace or class is not among them. */
  function TopLevelDefinitions(root: Tree): (r: seq<Tree>)
    ensures forall i :: 0 <= i < |r| ==> r[i] in root.children && r[i].kind == "function_definition"
    ensures forall c :: c in root.children && c.kind == "function_definition" ==> c in r
  {
    var r := OfKind(root.children, "function_definition");
    assert forall c :: c in root.children && c.kind == "function_definition" ==> c in r by {
      forall c | c in root.children && c.kind == "function_definition"
        ensures c in r
      {
        OfKindComplete(root.children, "function_definition", c);
      }
    }
    r
  }

  /** `_parse_functions`: a function node and `CONTAINS` from the file for every named
      top-level definition; the pending list and the indexes are untouched, and the
      relations stay deduplicated. */
  function ParseFunctions(st: State, root: Tree, fileId: string, file: string): (r: State)
    ensures r.pending == st.pending && r.moduleDefs == st.moduleDefs && r.moduleToFile == st.moduleToFile
    ensures st.relations <= r.relations && st.nodes.byId.Keys <= r.nodes.byId.Keys
    ensures forall i :: |st.relations| <= i < |r.relations| ==>
      r.relations[i].source == fileId && r.relations[i].kind == Contains
    ensures Deduplicated(st) ==> Deduplicated(r)
  {
    var spots := FunctionSpots(TopLevelDefinitions(root));
    var r := AddEntities(st, fileId, Function, Function, Contains, file, spots);
    assert Deduplicated(st) ==> Deduplicated(r) by {
      if Deduplicated(st) { AddEntitiesKeepsDeduplicated(st, fileId, Function, Function, Contains, file, spots); }
    }
    r
  }

  /** Every named definition that is a direct child of the root gets its function node
      and its `CONTAINS` key. */
  lemma FunctionRecorded(st: State, root: Tree, fileId: string, file: string, c: Tree)
    requires c in root.children && c.kind == "function_definition" && FunctionSpot(c).Some?
    ensures var r := ParseFunctions(st, root, fileId, file);
      var id := NodeId(Function, file, FunctionSpot(c).value.name, c.line);
      id in r.nodes.byId && r.nodes.byId[id].kind == Function
      && RelationKey(Relation(fileId, id, Contains, map[])) in r.established
  {
    var defs := TopLevelDefinitions(root);
    var spots := FunctionSpots(defs);
    var j :| 0 <= j < |defs| && defs[j] == c;
    FunctionSpotsComplete(defs, j);
    var k :| 0 <= k < |spots| && spots[k] == FunctionSpot(c).value;
    AddEntitiesRecordsEach(st, fileId, Function, Function, Contains, file, spots, k);
  }

  /** Every function node `_parse_functions` adds comes from a named definition that
      is a direct child of the root. */
  lemma FunctionsOnlyFromRoot(st: State, root: Tree, fileId: string, file: string, k: string)
    requires var r := ParseFunctions(st, root, fileId, file);
      k in r.nodes.byId && !(k in st.nodes.byId && r.nodes.byId[k] == st.nodes.byId[k])
    ensures var n := ParseFunctions(st, root, fileId, file).nodes.byId[k];
      && n.kind == Function && k == NodeId(Function, file, n.name, n.line)
      && exists c :: c in root.children && c.kind == "function_definition" && FunctionSpot(c) == Some(Spot(n.name, n.line))
  {
    var spots := FunctionSpots(TopLevelDefinitions(root));
    var r := ParseFunctions(st, root, fileId, file);
    var n := r.nodes.byId[k];
    assert IsEntityOf(n, k, Function, Function, file);
    AddEntitiesNewFromSpots(st, fileId, Function, Function, Contains, file, spots, k);
    var i :| 0 <= i < |spots| && spots[i] == Spot(n.name, n.line);
    var defs := TopLevelDefinitions(root);
    var j :| 0 <= j < |defs| && FunctionSpot(defs[j]) == Some(spots[i]);
  }

  /** `parse_file`: a file that cannot be read or parsed gives `({}, [])` and leaves the
      accumulator as it was; otherwise the file node, the module registration, the
      includes, the classes and the top-level functions. */
  function ParseFile(w: Walk, path: string, root: Option<Tree>, buildIndex: bool): (r: (Walk, (NodeMap, seq<Relation>)))
    ensures r.0.file == path && r.0.current.None?
    ensures root.None? ==> r.1 == (NoNodes(), []) && r.0.st == w.st
    ensures root.Some? ==>
      && r.1 == (r.0.st.nodes, r.0.st.relations)
      && FileId(path) in r.0.st.nodes.byId
      && w.st.relations <= r.0.st.relations && w.st.pending <= r.0.st.pending
      && (buildIndex ==> r.0.st.moduleToFile == w.st.moduleToFile[ModuleName(path) := FileId(path)])
      && (Deduplicated(w.st) ==> Deduplicated(r.0.st))
  {
    match root
    case None => (Walk(w.st, path, None), (NoNodes(), []))
    case Some(t) =>
      var fid := FileId(path);
      var st1 := OpenFile(w.st, path, buildIndex);
      var st2 := ParseIncludes(st1, IncludeTargets(TextsOf(NodesOf(Find(t, "preproc_include")))), fid);
      var st3 := ParseClasses(st2, NodesOf(Find(t, "class_specifier")), fid, path, buildIndex, ModuleName(path));
      var spots := FunctionSpots(TopLevelDefinitions(t));
      assert Deduplicated(w.st) ==> Deduplicated(ParseFunctions(st3, t, fid, path)) by {
        if Deduplicated(w.st) {
          AddEntitiesKeepsDeduplicated(st3, fid, Function, Function, Contains, path, spots);
        }
      }
      var st4 := ParseFunctions(st3, t, fid, path);
      (Walk(st4, path, None), (st4.nodes, st4.relations))
  }
}
