/** The accumulator every extractor threads through a file: nodes, relations, the
    cross-file index, pending references and the relation dedup set, with the
    shared helpers of `LanguageAdapter` (base_adapter.py). */
module AdapterState {

  import opened Wrappers
  import opened Text
  import opened Schema
  import opened Syntax

  /** A reference the first pass could not resolve because it goes through an imported
      alias. One variant per record shape the extractors emit. */
  datatype Pending =
    | ModuleImport(sourceId: string, modName: string, fullPath: string, alias: Option<string>)
    | SymbolImport(sourceId: string, fromModule: Option<string>, symbol: string, asName: string)
    | BaseClass(sourceId: string, modName: string, symbol: string, original: string)
    | FunctionCall(sourceId: string, modName: string, symbol: string, original: string)
    | MethodCall(sourceId: string, modName: string, className: string, methodName: string, originalObj: string)
    | NameImport(sourceId: string, modName: string, symbol: string, original: string)

  /** The record's `type` entry. */
  function PendingKind(p: Pending): RelKind {
    match p
    case ModuleImport(_, _, _, _) => ImportsModule
    case SymbolImport(_, _, _, _) => ImportsSymbol
    case BaseClass(_, _, _, _) => Extends
    case FunctionCall(_, _, _, _) => Calls
    case MethodCall(_, _, _, _, _) => CallsMethod
    case NameImport(_, _, _, _) => Imports
  }

  /** The record's `imported_module` entry; `None` stands for Python's `None`. */
  function PendingModule(p: Pending): Option<string> {
    match p
    case SymbolImport(_, m, _, _) => m
    case ModuleImport(_, m, _, _) => Some(m)
    case BaseClass(_, m, _, _) => Some(m)
    case FunctionCall(_, m, _, _) => Some(m)
    case MethodCall(_, m, _, _, _) => Some(m)
    case NameImport(_, m, _, _) => Some(m)
  }

  /** The record's `imported_name` entry, absent from module and method-call records. */
  function PendingName(p: Pending): Option<string> {
    match p
    case ModuleImport(_, _, _, _) => None
    case MethodCall(_, _, _, _, _) => None
    case SymbolImport(_, _, s, _) => Some(s)
    case BaseClass(_, _, s, _) => Some(s)
    case FunctionCall(_, _, s, _) => Some(s)
    case NameImport(_, _, s, _) => Some(s)
  }

  /** The per-parser accumulator. */
  datatype State = State(
    nodes: NodeMap,
    relations: seq<Relation>,
    moduleDefs: map<string, map<string, string>>,
    pending: seq<Pending>,
    moduleToFile: map<string, string>,
    established: set<string>)

  /** A freshly constructed adapter: everything empty. */
  function Fresh(): State {
    State(NoNodes(), [], map[], [], map[], {})
  }

  /** The text f-string formatting gives a `symbol` property. The adapters only ever
      store a string there, so the other scalars are rendered as Python would and a
      float, list or dictionary, which would be shown by its `repr`, is left as `""`. */
  function SymbolText(props: map<string, Value>): string {
    if "symbol" !in props then ""
    else match props["symbol"]
      case VStr(s) => s
      case VBool(b) => if b then "True" else "False"
      case VNone => "None"
      case VInt(n) => IntToString(n)
      case _ => ""
  }

  /** The dedup key of a relation: `source|TYPE|target`, extended with `|symbol` for
      `IMPORTS_DEFINITION`. (`IMPORTS_FROM` has its own branch that builds the same
      three-part key.) */
  function RelationKey(r: Relation): string {
    var base := r.source + "|" + RelKindName(r.kind) + "|" + r.target;
    if r.kind == ImportsDefinition then base + "|" + SymbolText(r.props) else base
  }

  /** `_add_relation`: appends `r` only when its key has not been seen. */
  function AddRelation(st: State, r: Relation): (st': State)
    ensures st'.established == st.established + {RelationKey(r)}
    ensures RelationKey(r) in st.established ==> st'.relations == st.relations
    ensures RelationKey(r) !in st.established ==> st'.relations == st.relations + [r]
    ensures st'.nodes == st.nodes && st'.moduleDefs == st.moduleDefs && st'.pending == st.pending
    ensures st'.moduleToFile == st.moduleToFile
  {
    var key := RelationKey(r);
    if key in st.established then st
    else st.(relations := st.relations + [r], established := st.established + {key})
  }

  /** `self.relations.append(...)`: the extractors' direct path, which bypasses the dedup set. */
  function Append(st: State, r: Relation): State {
    st.(relations := st.relations + [r])
  }

  /** `self.nodes[n.id] = n`. */
  function AddNode(st: State, n: Node): State {
    st.(nodes := Put(st.nodes, n.id, n))
  }

  /** `self.nodes[id].properties[key] = v`, for a node the extractor has just recorded. */
  function SetNodeProp(st: State, id: string, key: string, v: Value): (r: State)
    ensures r == st.(nodes := r.nodes) && r.nodes.byId.Keys == st.nodes.byId.Keys
    ensures id in st.nodes.byId ==> r.nodes.byId[id] == st.nodes.byId[id].(props := st.nodes.byId[id].props[key := v])
    ensures forall k :: k in st.nodes.byId && k != id ==> r.nodes.byId[k] == st.nodes.byId[k]
  {
    if id in st.nodes.byId then
      var n := st.nodes.byId[id];
      st.(nodes := Put(st.nodes, id, n.(props := n.props[key := v])))
    else st
  }

  /** `_create_file_node`: records the file node and returns its id. */
  function CreateFileNode(st: State, path: string): (r: (State, string))
    ensures r.1 == FileId(path) && r.1 in r.0.nodes.byId && r.0.nodes.byId[r.1] == FileNode(path)
    ensures r.0.relations == st.relations && r.0.established == st.established
  {
    (AddNode(st, FileNode(path)), FileId(path))
  }

  /** The index step of every `parse_file`: with `build_index`, the module gets an
      (initially empty) symbol map if it has none, and is pointed at the file node. */
  function RegisterModule(st: State, modName: string, fileId: string, buildIndex: bool): (st': State)
    ensures !buildIndex ==> st' == st
    ensures buildIndex ==> modName in st'.moduleDefs && st'.moduleToFile == st.moduleToFile[modName := fileId]
    ensures buildIndex && modName in st.moduleDefs ==> st'.moduleDefs == st.moduleDefs
    ensures st'.relations == st.relations && st'.nodes == st.nodes
  {
    if !buildIndex then st
    else
      var defs := if modName in st.moduleDefs then st.moduleDefs else st.moduleDefs[modName := map[]];
      st.(moduleDefs := defs, moduleToFile := st.moduleToFile[modName := fileId])
  }

  /** `module_definitions[module][name] = id`. The module was registered at the start of
      the file; were it not, the source would raise `KeyError`, which the enclosing
      `parse_file` turns into an empty result. */
  function IndexSymbol(st: State, modName: string, name: string, id: string): (st': State)
    ensures modName in st'.moduleDefs && name in st'.moduleDefs[modName] && st'.moduleDefs[modName][name] == id
    ensures forall m :: m in st.moduleDefs && m != modName ==> m in st'.moduleDefs && st'.moduleDefs[m] == st.moduleDefs[m]
  {
    var inner := if modName in st.moduleDefs then st.moduleDefs[modName] else map[];
    st.(moduleDefs := st.moduleDefs[modName := inner[name := id]])
  }

  /** Appends a pending reference. */
  function AddPending(st: State, p: Pending): State {
    st.(pending := st.pending + [p])
  }

  /** One name an import statement binds: the alias, what the alias table maps it to, and
      the pending reference recorded for it. */
  datatype Binding = Binding(alias: string, target: string, ref: Pending)

  /** The alias table after `imports[b.alias] = b.target` for each binding in turn. */
  function BindAll(imports: map<string, string>, bs: seq<Binding>): (r: map<string, string>)
    ensures forall k :: k in r <==> k in imports || exists i :: 0 <= i < |bs| && bs[i].alias == k
    decreases |bs|
  {
    if |bs| == 0 then imports
    else
      var r := BindAll(imports[bs[0].alias := bs[0].target], bs[1..]);
      assert forall i :: 1 <= i < |bs| ==> bs[i] == bs[1..][i - 1];
      r
  }

  /** The pending references of a list of bindings, in order. */
  function RefsOf(bs: seq<Binding>): (r: seq<Pending>)
    ensures |r| == |bs| && forall i :: 0 <= i < |bs| ==> r[i] == bs[i].ref
  {
    seq(|bs|, i requires 0 <= i < |bs| => bs[i].ref)
  }

  /** The last binding of a name decides what the alias table maps it to. */
  lemma {:induction false} BindAllLastWins(imports: map<string, string>, bs: seq<Binding>, i: nat)
    requires i < |bs| && forall j :: i < j < |bs| ==> bs[j].alias != bs[i].alias
    ensures bs[i].alias in BindAll(imports, bs) && BindAll(imports, bs)[bs[i].alias] == bs[i].target
    decreases |bs|
  {
    var next := imports[bs[0].alias := bs[0].target];
    if i == 0 {
      BindAllUntouched(next, bs[1..], bs[0].alias);
    } else {
      BindAllLastWins(next, bs[1..], i - 1);
    }
  }

  /** A name no binding mentions keeps its entry. */
  lemma {:induction false} BindAllUntouched(imports: map<string, string>, bs: seq<Binding>, key: string)
    requires key in imports && forall j :: 0 <= j < |bs| ==> bs[j].alias != key
    ensures key in BindAll(imports, bs) && BindAll(imports, bs)[key] == imports[key]
    decreases |bs|
  {
    if |bs| > 0 {
      BindAllUntouched(imports[bs[0].alias := bs[0].target], bs[1..], key);
    }
  }

  /** The keys of a list of relations. */
  function KeysOf(rels: seq<Relation>): set<string> {
    set i | 0 <= i < |rels| :: RelationKey(rels[i])
  }

  ghost predicate KeysDistinct(rels: seq<Relation>) {
    forall i, j :: 0 <= i < j < |rels| ==> RelationKey(rels[i]) != RelationKey(rels[j])
  }

  /** The state a parser reaches when every relation went through `_add_relation`. */
  ghost predicate Deduplicated(st: State) {
    KeysDistinct(st.relations) && st.established == KeysOf(st.relations)
  }

  /** A fresh adapter is trivially deduplicated. */
  lemma FreshIsDeduplicated()
    ensures Deduplicated(Fresh()) && |Fresh().relations| == 0 && Fresh().nodes.byId == map[]
    ensures Fresh().moduleDefs == map[] && Fresh().pending == [] && Fresh().established == {}
  {
  }

  /** `_add_relation` keeps a deduplicated state deduplicated, and grows the list by at
      most one. */
  lemma AddRelationKeepsDeduplicated(st: State, r: Relation)
    requires Deduplicated(st)
    ensures Deduplicated(AddRelation(st, r))
    ensures |st.relations| <= |AddRelation(st, r).relations| <= |st.relations| + 1
  {
    var st' := AddRelation(st, r);
    if RelationKey(r) !in st.established {
      var rels := st'.relations;
      forall i, j | 0 <= i < j < |rels|
        ensures RelationKey(rels[i]) != RelationKey(rels[j])
      {
        if j == |rels| - 1 {
          assert RelationKey(rels[i]) in KeysOf(st.relations) by {
            assert rels[i] == st.relations[i];
          }
        } else {
          assert rels[i] == st.relations[i] && rels[j] == st.relations[j];
        }
      }
      KeysOfSnoc(st.relations, r);
    }
  }

  /** Adding the same relation a second time changes nothing. */
  lemma AddRelationIdempotent(st: State, r: Relation)
    ensures AddRelation(AddRelation(st, r), r) == AddRelation(st, r)
  {
  }

  /** Two `IMPORTS_DEFINITION` relations between the same nodes that name different
      symbols are both kept. */
  lemma DistinctSymbolsBothKept(st: State, src: string, tgt: string, s1: string, s2: string)
    requires s1 != s2
    requires RelationKey(Relation(src, tgt, ImportsDefinition, map["symbol" := VStr(s1)])) !in st.established
    requires RelationKey(Relation(src, tgt, ImportsDefinition, map["symbol" := VStr(s2)])) !in st.established
    ensures var r1 := Relation(src, tgt, ImportsDefinition, map["symbol" := VStr(s1)]);
            var r2 := Relation(src, tgt, ImportsDefinition, map["symbol" := VStr(s2)]);
            AddRelation(AddRelation(st, r1), r2).relations == st.relations + [r1, r2]
  {
    var base := src + "|" + RelKindName(ImportsDefinition) + "|" + tgt + "|";
    SymbolKey(src, tgt, s1);
    SymbolKey(src, tgt, s2);
    assert (base + s1)[|base|..] == s1 && (base + s2)[|base|..] == s2;
  }

  /** The dedup key of an `IMPORTS_DEFINITION` relation ends with its symbol. */
  lemma SymbolKey(src: string, tgt: string, s: string)
    ensures RelationKey(Relation(src, tgt, ImportsDefinition, map["symbol" := VStr(s)]))
      == src + "|" + RelKindName(ImportsDefinition) + "|" + tgt + "|" + s
  {
    assert SymbolText(map["symbol" := VStr(s)]) == s;
  }

  /** Without the symbol in its key, any other relation type keeps only the first of
      two relations between the same nodes. */
  lemma OtherKindsIgnoreProperties(st: State, r1: Relation, r2: Relation)
    requires r1.kind != ImportsDefinition && r1.source == r2.source && r1.target == r2.target && r1.kind == r2.kind
    ensures AddRelation(AddRelation(st, r1), r2) == AddRelation(st, r1)
  {
  }

  /** `_add_relation` applied to each relation of `rs` in turn. */
  function AddAll(st: State, rs: seq<Relation>): State
    decreases |rs|
  {
    if |rs| == 0 then st else AddAll(AddRelation(st, rs[0]), rs[1..])
  }

  /** Relations that only ever went through `_add_relation` have pairwise distinct keys,
      and there are exactly as many of them as keys in the dedup set. */
  lemma {:induction false} AddAllFromFresh(rs: seq<Relation>)
    ensures Deduplicated(AddAll(Fresh(), rs))
    ensures |AddAll(Fresh(), rs).relations| == |AddAll(Fresh(), rs).established|
  {
    FreshIsDeduplicated();
    AddAllKeepsDeduplicated(Fresh(), rs);
    DedupCount(AddAll(Fresh(), rs).relations);
  }

  lemma {:induction false} AddAllKeepsDeduplicated(st: State, rs: seq<Relation>)
    requires Deduplicated(st)
    ensures Deduplicated(AddAll(st, rs))
    decreases |rs|
  {
    if |rs| > 0 {
      AddRelationKeepsDeduplicated(st, rs[0]);
      AddAllKeepsDeduplicated(AddRelation(st, rs[0]), rs[1..]);
    }
  }

  /** The keys of a list extended by one relation. */
  lemma KeysOfSnoc(init: seq<Relation>, r: Relation)
    ensures KeysOf(init + [r]) == KeysOf(init) + {RelationKey(r)}
  {
    var rels := init + [r];
    forall k | k in KeysOf(rels)
      ensures k in KeysOf(init) + {RelationKey(r)}
    {
      var i :| 0 <= i < |rels| && RelationKey(rels[i]) == k;
      if i < |init| {
        assert rels[i] == init[i];
      }
    }
    forall k | k in KeysOf(init)
      ensures k in KeysOf(rels)
    {
      var i :| 0 <= i < |init| && RelationKey(init[i]) == k;
      assert rels[i] == init[i];
    }
    assert RelationKey(rels[|rels| - 1]) == RelationKey(r);
  }

  /** Distinct keys means one key per relation. */
  lemma {:induction false} DedupCount(rels: seq<Relation>)
    requires KeysDistinct(rels)
    ensures |KeysOf(rels)| == |rels|
    decreases |rels|
  {
    if |rels| > 0 {
      var init := rels[..|rels| - 1];
      var last := rels[|rels| - 1];
      assert KeysDistinct(init) by {
        forall i, j | 0 <= i < j < |init|
          ensures RelationKey(init[i]) != RelationKey(init[j])
        {
          assert init[i] == rels[i] && init[j] == rels[j];
        }
      }
      DedupCount(init);
      assert rels == init + [last];
      KeysOfSnoc(init, last);
      assert RelationKey(last) !in KeysOf(init) by {
        forall i | 0 <= i < |init|
          ensures RelationKey(init[i]) != RelationKey(last)
        {
          assert init[i] == rels[i];
        }
      }
    }
  }

  // ---------------------------------------------------------------------------------
  // Adapters without an alias table

  /** The state of the Java, C++, Rust and Go adapters: the accumulator, the file being
      read, and the class or struct being walked, if any. */
  datatype Walk = Walk(st: State, file: string, current: Option<string>)

  /** A node, then a deduped relation of the given type from `owner` to it. */
  function AddEntity(st: State, owner: string, n: Node, kind: RelKind): (r: State)
    ensures r.nodes.byId.Keys == st.nodes.byId.Keys + {n.id} && r.nodes.byId[n.id] == n
    ensures forall k :: k in st.nodes.byId && k != n.id ==> r.nodes.byId[k] == st.nodes.byId[k]
    ensures r.pending == st.pending && r.moduleDefs == st.moduleDefs && r.moduleToFile == st.moduleToFile
    ensures st.relations <= r.relations && |r.relations| <= |st.relations| + 1
    ensures RelationKey(Relation(owner, n.id, kind, map[])) in r.established
    ensures |r.relations| > |st.relations| ==> r.relations[|st.relations|] == Relation(owner, n.id, kind, map[])
    ensures Deduplicated(st) ==> Deduplicated(r)
  {
    var st1 := AddNode(st, n);
    var rel := Relation(owner, n.id, kind, map[]);
    assert Deduplicated(st) ==> Deduplicated(AddRelation(st1, rel)) by {
      if Deduplicated(st) {
        AddRelationKeepsDeduplicated(st1, rel);
      }
    }
    AddRelation(st1, rel)
  }

  /** The class step shared by the Java, C++, Rust and Go adapters: a class node for
      the spot, `CONTAINS` from the file, and with `build_index` an entry in the
      file's module index. */
  function AddClass(st: State, fileId: string, file: string, s: Spot, buildIndex: bool, modName: string): (r: State)
    ensures var id := NodeId(Class, file, s.name, s.line);
      && id in r.nodes.byId && r.nodes.byId[id] == EntityNode(Class, Class, file, s)
      && r.nodes.byId.Keys == st.nodes.byId.Keys + {id}
      && RelationKey(Relation(fileId, id, Contains, map[])) in r.established
      && (buildIndex ==> modName in r.moduleDefs && s.name in r.moduleDefs[modName] && r.moduleDefs[modName][s.name] == id)
    ensures !buildIndex ==> r.moduleDefs == st.moduleDefs
    ensures r.pending == st.pending && r.moduleToFile == st.moduleToFile
    ensures st.relations <= r.relations && |r.relations| <= |st.relations| + 1 && st.established <= r.established
    ensures Deduplicated(st) ==> Deduplicated(r)
  {
    var n := EntityNode(Class, Class, file, s);
    var st1 := AddEntity(st, fileId, n, Contains);
    if buildIndex then IndexSymbol(st1, modName, s.name, n.id) else st1
  }

  /** `AddClass` for each spot in turn: the struct and type loops of the Rust and Go
      adapters. */
  function AddClasses(st: State, fileId: string, file: string, spots: seq<Spot>, buildIndex: bool, modName: string): (r: State)
    ensures !buildIndex ==> r.moduleDefs == st.moduleDefs
    ensures r.pending == st.pending && r.moduleToFile == st.moduleToFile
    ensures st.relations <= r.relations && |r.relations| <= |st.relations| + |spots|
    ensures st.nodes.byId.Keys <= r.nodes.byId.Keys && st.established <= r.established
    ensures Deduplicated(st) ==> Deduplicated(r)
    decreases |spots|
  {
    if |spots| == 0 then st
    else AddClasses(AddClass(st, fileId, file, spots[0], buildIndex, modName), fileId, file, spots[1..], buildIndex, modName)
  }

  /** Every spot keeps its class node and `CONTAINS` edge; with `build_index`, the
      module index maps each name to the last spot of that name. */
  lemma AddClassesRecordsEach(st: State, fileId: string, file: string, spots: seq<Spot>, buildIndex: bool, modName: string, j: nat)
    requires j < |spots|
    ensures var r := AddClasses(st, fileId, file, spots, buildIndex, modName);
      var id := NodeId(Class, file, spots[j].name, spots[j].line);
      && id in r.nodes.byId && RelationKey(Relation(fileId, id, Contains, map[])) in r.established
      && (buildIndex && (forall k :: j < k < |spots| ==> spots[k].name != spots[j].name) ==>
            modName in r.moduleDefs && spots[j].name in r.moduleDefs[modName] && r.moduleDefs[modName][spots[j].name] == id)
  {
    AddClassesRecordsNode(st, fileId, file, spots, buildIndex, modName, j);
    if buildIndex && (forall k :: j < k < |spots| ==> spots[k].name != spots[j].name) {
      AddClassesIndexesLast(st, fileId, file, spots, modName, j);
    }
  }

  /** The node half of `AddClassesRecordsEach`. */
  lemma {:induction false} AddClassesRecordsNode(st: State, fileId: string, file: string, spots: seq<Spot>, buildIndex: bool, modName: string, j: nat)
    requires j < |spots|
    ensures var r := AddClasses(st, fileId, file, spots, buildIndex, modName);
      var id := NodeId(Class, file, spots[j].name, spots[j].line);
      id in r.nodes.byId && RelationKey(Relation(fileId, id, Contains, map[])) in r.established
    decreases |spots|
  {
    var st1 := AddClass(st, fileId, file, spots[0], buildIndex, modName);
    if j > 0 {
      AddClassesRecordsNode(st1, fileId, file, spots[1..], buildIndex, modName, j - 1);
      assert spots[1..][j - 1] == spots[j];
    }
  }

  /** The index half of `AddClassesRecordsEach`: the last spot of a name is the one
      indexed under it. */
  lemma {:induction false} AddClassesIndexesLast(st: State, fileId: string, file: string, spots: seq<Spot>, modName: string, j: nat)
    requires j < |spots| && forall k :: j < k < |spots| ==> spots[k].name != spots[j].name
    ensures var r := AddClasses(st, fileId, file, spots, true, modName);
      modName in r.moduleDefs && spots[j].name in r.moduleDefs[modName]
      && r.moduleDefs[modName][spots[j].name] == NodeId(Class, file, spots[j].name, spots[j].line)
    decreases |spots|
  {
    var st1 := AddClass(st, fileId, file, spots[0], true, modName);
    if j > 0 {
      assert spots[1..][j - 1] == spots[j];
      assert forall k :: j - 1 < k < |spots[1..]| ==> spots[1..][k] == spots[k + 1];
      AddClassesIndexesLast(st1, fileId, file, spots[1..], modName, j - 1);
    } else {
      AddClassesKeepsIndex(st1, fileId, file, spots[1..], modName, spots[0].name);
    }
  }

  /** The last position in `spots` with the name of position `i`. */
  lemma LastNamed(spots: seq<Spot>, i: nat) returns (k: nat)
    requires i < |spots|
    ensures i <= k < |spots| && spots[k].name == spots[i].name
    ensures forall m :: k < m < |spots| ==> spots[m].name != spots[i].name
  {
    k := i;
    var m := i + 1;
    while m < |spots|
      invariant i <= k < m <= |spots| && spots[k].name == spots[i].name
      invariant forall m' :: k < m' < m ==> spots[m'].name != spots[i].name
    {
      if spots[m].name == spots[i].name {
        k := m;
      }
      m := m + 1;
    }
  }

  /** With `build_index`, every spot's name is indexed, and it maps to the class node
      of a spot with that name (the last one). */
  lemma AddClassesIndexesName(st: State, fileId: string, file: string, spots: seq<Spot>, modName: string, j: nat) returns (k: nat)
    requires j < |spots|
    ensures var r := AddClasses(st, fileId, file, spots, true, modName);
      && modName in r.moduleDefs && spots[j].name in r.moduleDefs[modName]
      && k < |spots| && spots[k].name == spots[j].name
      && r.moduleDefs[modName][spots[j].name] == NodeId(Class, file, spots[k].name, spots[k].line)
  {
    k := LastNamed(spots, j);
    AddClassesRecordsEach(st, fileId, file, spots, true, modName, k);
  }

  /** Spots with other names leave a module index entry alone. */
  lemma {:induction false} AddClassesKeepsIndex(st: State, fileId: string, file: string, spots: seq<Spot>, modName: string, name: string)
    requires modName in st.moduleDefs && name in st.moduleDefs[modName]
    requires forall k :: 0 <= k < |spots| ==> spots[k].name != name
    ensures var r := AddClasses(st, fileId, file, spots, true, modName);
      modName in r.moduleDefs && name in r.moduleDefs[modName] && r.moduleDefs[modName][name] == st.moduleDefs[modName][name]
    decreases |spots|
  {
    if |spots| > 0 {
      var st1 := AddClass(st, fileId, file, spots[0], true, modName);
      assert forall k :: 0 <= k < |spots[1..]| ==> spots[1..][k] == spots[k + 1];
      AddClassesKeepsIndex(st1, fileId, file, spots[1..], modName, name);
    }
  }

  /** The start of every adapter's `parse_file`: the file node, then, with
      `build_index`, the registration of the file's module name. */
  function OpenFile(st: State, path: string, buildIndex: bool): (r: State)
    ensures FileId(path) in r.nodes.byId && r.nodes.byId[FileId(path)] == FileNode(path)
    ensures r.nodes.byId.Keys == st.nodes.byId.Keys + {FileId(path)}
    ensures r.relations == st.relations && r.established == st.established && r.pending == st.pending
    ensures buildIndex ==> ModuleName(path) in r.moduleDefs && r.moduleToFile == st.moduleToFile[ModuleName(path) := FileId(path)]
    ensures !buildIndex ==> r.moduleDefs == st.moduleDefs && r.moduleToFile == st.moduleToFile
  {
    var (st1, fid) := CreateFileNode(st, path);
    RegisterModule(st1, ModuleName(path), fid, buildIndex)
  }

  /** The node an extractor records for a named entity of `file`: no end line, no
      properties, and an id built with `idKind`, which for fields differs from `kind`. */
  function EntityNode(kind: Kind, idKind: Kind, file: string, s: Spot): (n: Node)
    ensures n.id == NodeId(idKind, file, s.name, s.line) && n.kind == kind && n.name == s.name
    ensures n.filePath == file && n.line == s.line && n.endLine.None? && n.props == map[]
  {
    MakeNode(NodeId(idKind, file, s.name, s.line), kind, s.name, file, s.line, None, map[])
  }

  /** A node recorded for an entity of `file`: its id is made from its own name and line. */
  predicate IsEntityOf(n: Node, id: string, kind: Kind, idKind: Kind, file: string) {
    n.kind == kind && n.filePath == file && id == NodeId(idKind, file, n.name, n.line)
  }

  /** The extractors' per-entity loop: for each spot, a node and a deduped relation
      of type `rel` from `owner` to it. */
  function AddEntities(st: State, owner: string, kind: Kind, idKind: Kind, rel: RelKind, file: string, spots: seq<Spot>): (r: State)
    ensures r == st.(nodes := r.nodes, relations := r.relations, established := r.established)
    ensures st.relations <= r.relations && |r.relations| <= |st.relations| + |spots|
    ensures st.established <= r.established && st.nodes.byId.Keys <= r.nodes.byId.Keys
    ensures forall k :: k in r.nodes.byId ==>
      (k in st.nodes.byId && r.nodes.byId[k] == st.nodes.byId[k]) || IsEntityOf(r.nodes.byId[k], k, kind, idKind, file)
    ensures forall i :: |st.relations| <= i < |r.relations| ==>
      r.relations[i].source == owner && r.relations[i].kind == rel && r.relations[i].props == map[] && r.relations[i].target in r.nodes.byId
    decreases |spots|
  {
    if |spots| == 0 then st
    else
      var n := EntityNode(kind, idKind, file, spots[0]);
      var st1 := AddEntity(st, owner, n, rel);
      AddEntities(st1, owner, kind, idKind, rel, file, spots[1..])
  }

  /** Adding entities goes through `_add_relation` only, so the relation keys stay
      distinct and in step with the dedup set. */
  lemma {:induction false} AddEntitiesKeepsDeduplicated(st: State, owner: string, kind: Kind, idKind: Kind, rel: RelKind, file: string, spots: seq<Spot>)
    requires Deduplicated(st)
    ensures Deduplicated(AddEntities(st, owner, kind, idKind, rel, file, spots))
    decreases |spots|
  {
    if |spots| > 0 {
      var st1 := AddEntity(st, owner, EntityNode(kind, idKind, file, spots[0]), rel);
      AddEntitiesKeepsDeduplicated(st1, owner, kind, idKind, rel, file, spots[1..]);
    }
  }

  /** Every spot ends up recorded: its node id is in the map and its relation key in
      the dedup set. */
  lemma {:induction false} AddEntitiesRecordsEach(st: State, owner: string, kind: Kind, idKind: Kind, rel: RelKind, file: string, spots: seq<Spot>, i: nat)
    requires i < |spots|
    ensures var r := AddEntities(st, owner, kind, idKind, rel, file, spots);
      var id := NodeId(idKind, file, spots[i].name, spots[i].line);
      && id in r.nodes.byId && IsEntityOf(r.nodes.byId[id], id, kind, idKind, file)
      && RelationKey(Relation(owner, id, rel, map[])) in r.established
    decreases |spots|
  {
    var st1 := AddEntity(st, owner, EntityNode(kind, idKind, file, spots[0]), rel);
    if i > 0 {
      AddEntitiesRecordsEach(st1, owner, kind, idKind, rel, file, spots[1..], i - 1);
      assert spots[1..][i - 1] == spots[i];
    }
  }

  /** A node that adding entities changed belongs to one of the spots. */
  lemma {:induction false} AddEntitiesNewFromSpots(st: State, owner: string, kind: Kind, idKind: Kind, rel: RelKind, file: string, spots: seq<Spot>, k: string)
    requires var r := AddEntities(st, owner, kind, idKind, rel, file, spots);
      k in r.nodes.byId && !(k in st.nodes.byId && r.nodes.byId[k] == st.nodes.byId[k])
    ensures var n := AddEntities(st, owner, kind, idKind, rel, file, spots).nodes.byId[k];
      Spot(n.name, n.line) in spots && n == EntityNode(kind, idKind, file, Spot(n.name, n.line))
    decreases |spots|
  {
    var n0 := EntityNode(kind, idKind, file, spots[0]);
    var st1 := AddEntity(st, owner, n0, rel);
    var r := AddEntities(st1, owner, kind, idKind, rel, file, spots[1..]);
    if k in st1.nodes.byId && r.nodes.byId[k] == st1.nodes.byId[k] {
      assert k == n0.id;
    } else {
      AddEntitiesNewFromSpots(st1, owner, kind, idKind, rel, file, spots[1..], k);
    }
  }
}
