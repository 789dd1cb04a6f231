/** The graph vocabulary every parser produces: nodes with their id scheme,
    relations, property values, and the insertion-ordered node dictionary the
    parsers fill. */
module Schema {

  import opened Wrappers
  import opened Text

  /** A property value as Python stores it in a node's `properties` dict. */
  datatype Value =
    | VStr(str: string)
    | VInt(num: int)
    | VReal(re: real)
    | VBool(flag: bool)
    | VNone
    | VList(items: seq<Value>)
    | VDict(entries: seq<Entry>)

  /** One key/value pair of a dictionary value, in insertion order. */
  datatype Entry = Entry(key: string, val: Value)

  /** The node types the parsers emit. Variables are recorded under a kind that says
      where they live, while their ids use the `Variable` or `ClassVariable` prefix. */
  datatype Kind =
    | File | Class | Function | Method
    | Variable | ClassVariable | LocalVariable | GlobalVariable

  /** The tag a kind carries in ids and in the database. */
  function KindName(k: Kind): (s: string)
    ensures |s| >= 4 && ':' !in s && s[0] != 'f'
  {
    match k
    case File => "File"
    case Class => "Class"
    case Function => "Function"
    case Method => "Method"
    case Variable => "Variable"
    case ClassVariable => "ClassVariable"
    case LocalVariable => "LocalVariable"
    case GlobalVariable => "GlobalVariable"
  }

  /** Different kinds have different labels. */
  lemma KindNameInjective(a: Kind, b: Kind)
    requires KindName(a) == KindName(b)
    ensures a == b
  {
  }

  /** The relation types: those the parsers emit directly, and those a pending
      reference can carry into the second pass. */
  datatype RelKind =
    | Contains | Defines | Extends | Calls | Imports | ImportsFrom | ImportsDefinition
    | ImportsModule | ImportsSymbol | CallsMethod

  function RelKindName(k: RelKind): string {
    match k
    case Contains => "CONTAINS"
    case Defines => "DEFINES"
    case Extends => "EXTENDS"
    case Calls => "CALLS"
    case Imports => "IMPORTS"
    case ImportsFrom => "IMPORTS_FROM"
    case ImportsDefinition => "IMPORTS_DEFINITION"
    case ImportsModule => "IMPORTS_MODULE"
    case ImportsSymbol => "IMPORTS_SYMBOL"
    case CallsMethod => "CALLS_METHOD"
  }

  /** A code entity: file, class, function, method or variable. */
  datatype Node = Node(
    id: string,
    kind: Kind,
    name: string,
    filePath: string,
    line: nat,
    endLine: Option<nat>,
    snippet: string,
    props: map<string, Value>)

  /** A directed, typed edge between two node ids. */
  datatype Relation = Relation(source: string, target: string, kind: RelKind, props: map<string, Value>)

  /** A node as the constructor builds it: empty snippet. */
  function MakeNode(id: string, kind: Kind, name: string, filePath: string, line: nat,
                    endLine: Option<nat>, props: map<string, Value>): Node
  {
    Node(id, kind, name, filePath, line, endLine, "", props)
  }

  /** The id of an entity node: kind, path, name and line joined by ':'. */
  function NodeId(kind: Kind, path: string, name: string, line: nat): string {
    KindName(kind) + ":" + path + ":" + name + ":" + NatToString(line)
  }

  /** The id of a file node. */
  function FileId(path: string): string {
    "file:" + path
  }

  /** The node recorded for a source file: named after the path's basename, at line 0. */
  function FileNode(path: string): (n: Node)
    ensures n.id == FileId(path) && n.kind == File && n.line == 0
    ensures n.name == Basename(path)
  {
    MakeNode(FileId(path), File, Basename(path), path, 0, None, map[])
  }

  /** Text before and after the first ':'. */
  function SplitFirstColon(s: string): Option<(string, string)> {
    if ':' in s then
      var i := IndexOf(s, ':');
      Some((s[..i], s[i + 1..]))
    else None
  }

  /** Text before and after the last ':'. */
  function SplitLastColon(s: string): Option<(string, string)> {
    if ':' in s then
      var i := LastIndexOf(s, ':');
      Some((s[..i], s[i + 1..]))
    else None
  }

  /** Reads an entity id back into `(kind, path, name, line)`. The kind is taken up to
      the first ':', the line after the last ':', the name after the ':' before it; the
      path is what remains. `None` when the text does not have that shape. */
  function ParseNodeId(id: string): Option<(string, string, string, nat)> {
    match SplitFirstColon(id)
    case None => None
    case Some((kind, rest)) =>
      match SplitLastColon(rest)
      case None => None
      case Some((mid, lineText)) =>
        if |lineText| == 0 || !AllDigits(lineText) then None
        else
          match SplitLastColon(mid)
          case None => None
          case Some((path, name)) => Some((kind, path, name, ParseDigits(lineText)))
  }

  /** Splitting `a:b` at its first ':' gives back `a` and `b` when `a` has none. */
  lemma SplitFirstColonOf(a: string, b: string)
    requires ':' !in a
    ensures SplitFirstColon(a + ":" + b) == Some((a, b))
  {
    var s := a + ":" + b;
    forall k | 0 <= k < |a|
      ensures s[k] != ':'
    {
      assert s[k] == a[k];
    }
    IndexOfUnique(s, ':', |a|);
    assert s[..|a|] == a;
    assert s[|a| + 1..] == b;
  }

  /** Splitting `a:b` at its last ':' gives back `a` and `b` when `b` has none. */
  lemma SplitLastColonOf(a: string, b: string)
    requires ':' !in b
    ensures SplitLastColon(a + ":" + b) == Some((a, b))
  {
    var s := a + ":" + b;
    assert s[|a| + 1..] == b;
    LastIndexOfUnique(s, ':', |a|);
    assert s[..|a|] == a;
  }

  /** Concatenation is associative. */
  lemma AppendAssoc<T>(a: seq<T>, b: seq<T>, c: seq<T>)
    ensures a + b + c == a + (b + c)
  {
  }

  /** The digits of a line number contain no ':'. */
  lemma DigitsHaveNoColon(line: nat)
    ensures ':' !in NatToString(line)
  {
    var digits := NatToString(line);
    forall k | 0 <= k < |digits|
      ensures digits[k] != ':'
    {
      assert IsDigit(digits[k]);
    }
  }

  /** Entity ids round-trip when the name carries no ':' (paths may). */
  lemma {:induction false} ParseNodeIdRoundTrip(kind: Kind, path: string, name: string, line: nat)
    requires ':' !in name
    ensures ParseNodeId(NodeId(kind, path, name, line)) == Some((KindName(kind), path, name, line))
  {
    var tag := KindName(kind);
    var digits := NatToString(line);
    var mid := path + ":" + name;
    var rest := mid + ":" + digits;
    assert NodeId(kind, path, name, line) == tag + ":" + rest by {
      AppendAssoc(tag + ":", path, ":" + name);
      AppendAssoc(tag + ":", path + ":" + name, ":" + digits);
      AppendAssoc(tag + ":", mid, ":");
      AppendAssoc(tag + ":" + mid, ":", digits);
      AppendAssoc(tag, ":", rest);
      AppendAssoc(tag + ":" + path, ":", name);
      AppendAssoc(mid, ":", digits);
      AppendAssoc(path, ":", name);
    }
    SplitFirstColonOf(tag, rest);
    DigitsHaveNoColon(line);
    SplitLastColonOf(mid, digits);
    SplitLastColonOf(path, name);
    ParseNatToString(line);
  }

  /** Distinct entities get distinct ids (for colon-free names). */
  lemma NodeIdInjective(k1: Kind, p1: string, n1: string, l1: nat,
                        k2: Kind, p2: string, n2: string, l2: nat)
    requires ':' !in n1 && ':' !in n2
    requires NodeId(k1, p1, n1, l1) == NodeId(k2, p2, n2, l2)
    ensures k1 == k2 && p1 == p2 && n1 == n2 && l1 == l2
  {
    ParseNodeIdRoundTrip(k1, p1, n1, l1);
    ParseNodeIdRoundTrip(k2, p2, n2, l2);
    KindNameInjective(k1, k2);
  }

  /** A file id never equals an entity id. */
  lemma FileIdDiffersFromEntityId(path: string, kind: Kind, p: string, name: string, line: nat)
    ensures FileId(path) != NodeId(kind, p, name, line)
  {
    assert NodeId(kind, p, name, line)[0] == KindName(kind)[0];
  }

  /** The guessed ids of call and base-class targets always end in ":0". */
  lemma GuessedIdEndsInZero(kind: Kind, path: string, name: string)
    ensures var id := NodeId(kind, path, name, 0); |id| >= 2 && id[|id| - 2..] == ":0"
  {
  }

  /** Python's `Dict[str, CodeNode]`: values by id plus the order in which ids were
      first inserted, which iteration follows. */
  datatype NodeMap = NodeMap(keys: seq<string>, byId: map<string, Node>)

  /** Insertion order lists every id exactly once. */
  ghost predicate ValidNodes(m: NodeMap) {
    (forall i, j :: 0 <= i < j < |m.keys| ==> m.keys[i] != m.keys[j])
    && (forall k :: k in m.byId <==> k in m.keys)
  }

  function NoNodes(): (m: NodeMap)
    ensures ValidNodes(m) && m.byId == map[]
  {
    NodeMap([], map[])
  }

  /** `d[id] = n`: a new id goes to the end of the order; an existing id keeps its
      place and gets the new value. */
  function Put(m: NodeMap, id: string, n: Node): (r: NodeMap)
    ensures ValidNodes(m) ==> ValidNodes(r)
    ensures r.byId.Keys == m.byId.Keys + {id} && r.byId[id] == n
    ensures forall k :: k in m.byId && k != id ==> r.byId[k] == m.byId[k]
    ensures id in m.byId ==> r.keys == m.keys
  {
    NodeMap(if id in m.byId then m.keys else m.keys + [id], m.byId[id := n])
  }

  /** `d.update(other)`: every entry of `other`, in `other`'s order, overwrites. */
  function PutAll(m: NodeMap, other: NodeMap): (r: NodeMap)
    ensures ValidNodes(m) ==> ValidNodes(r)
    decreases |other.keys|
  {
    if |other.keys| == 0 then m
    else
      var k := other.keys[0];
      var m' := if k in other.byId then Put(m, k, other.byId[k]) else m;
      PutAll(m', NodeMap(other.keys[1..], other.byId))
  }

  /** Merging two well-formed dictionaries gives the right-biased union of their
      entries: `other` wins where both have an id. */
  lemma {:induction false} PutAllIsUnion(m: NodeMap, other: NodeMap)
    requires ValidNodes(other)
    ensures PutAll(m, other).byId == m.byId + other.byId
    decreases |other.keys|
  {
    if |other.keys| > 0 {
      var k := other.keys[0];
      var tail := other.keys[1..];
      var rest := NodeMap(tail, other.byId - {k});
      var m' := Put(m, k, other.byId[k]);
      DropFirstEntry(other);
      PutAllIsUnion(m', rest);
      PutAllIgnoresUnlisted(m', tail, other.byId, other.byId - {k});
      UpdateThenUnion(m.byId, other.byId, k);
    }
  }

  /** The rest of a well-formed dictionary after its first entry is well formed. */
  lemma DropFirstEntry(other: NodeMap)
    requires ValidNodes(other) && |other.keys| > 0
    ensures var k := other.keys[0];
      && k in other.byId
      && ValidNodes(NodeMap(other.keys[1..], other.byId - {k}))
      && forall x :: x in other.keys[1..] ==> x != k
  {
    var k := other.keys[0];
    var tail := other.keys[1..];
    forall x | x in tail
      ensures x != k && x in other.byId
    {
      var t :| 0 <= t < |tail| && tail[t] == x;
      assert other.keys[t + 1] == x;
    }
    forall x | x in other.byId && x != k
      ensures x in tail
    {
      var t :| 0 <= t < |other.keys| && other.keys[t] == x;
      assert tail[t - 1] == x;
    }
    forall i, j | 0 <= i < j < |tail|
      ensures tail[i] != tail[j]
    {
      assert tail[i] == other.keys[i + 1] && tail[j] == other.keys[j + 1];
    }
  }

  /** Writing one entry of `b` first and the rest of `b` afterwards is merging `b`. */
  lemma UpdateThenUnion(a: map<string, Node>, b: map<string, Node>, k: string)
    requires k in b
    ensures a[k := b[k]] + (b - {k}) == a + b
  {
    var lhs := a[k := b[k]] + (b - {k});
    var rhs := a + b;
    assert lhs.Keys == rhs.Keys;
    forall x | x in lhs
      ensures lhs[x] == rhs[x]
    {
    }
  }

  /** `PutAll` reads only the listed ids of `other`, so values outside its order
      do not matter. */
  lemma {:induction false} PutAllIgnoresUnlisted(m: NodeMap, keys: seq<string>,
                                                  a: map<string, Node>, b: map<string, Node>)
    requires forall x :: x in keys ==> (x in a <==> x in b) && (x in a ==> a[x] == b[x])
    ensures PutAll(m, NodeMap(keys, a)) == PutAll(m, NodeMap(keys, b))
    decreases |keys|
  {
    if |keys| > 0 {
      var k := keys[0];
      var m' := if k in a then Put(m, k, a[k]) else m;
      PutAllIgnoresUnlisted(m', keys[1..], a, b);
      assert NodeMap(keys, a).keys[1..] == keys[1..];
    }
  }

  /** The `DEFINES` edges from `owner` to the variables named. */
  function DefineEdges(owner: string, idKind: Kind, file: string, names: seq<string>, line: nat): (r: seq<Relation>)
    ensures |r| == |names|
    ensures forall i :: 0 <= i < |names| ==> r[i] == Relation(owner, NodeId(idKind, file, names[i], line), Defines, map[])
  {
    if |names| == 0 then []
    else [Relation(owner, NodeId(idKind, file, names[0], line), Defines, map[])]
         + DefineEdges(owner, idKind, file, names[1..], line)
  }

  /** The dictionary has a node of the given kind under `id`. */
  predicate HasKind(m: NodeMap, id: string, kind: Kind) {
    id in m.byId && m.byId[id].kind == kind
  }

  /** Whether the id names a class node with the given name. */
  predicate ClassNamed(m: NodeMap, id: string, name: string) {
    HasKind(m, id, Class) && m.byId[id].name == name
  }

  /** The first id, in insertion order, of a class node with the given name: the
      dictionary scan the Rust and Go adapters use to find the struct a method
      belongs to. */
  function FirstClassNamed(m: NodeMap, name: string): (r: Option<string>)
    ensures r.Some? ==> (ClassNamed(m, r.value, name)
      && exists i :: 0 <= i < |m.keys| && m.keys[i] == r.value && forall j :: 0 <= j < i ==> !ClassNamed(m, m.keys[j], name))
    ensures r.None? ==> forall i :: 0 <= i < |m.keys| ==> !ClassNamed(m, m.keys[i], name)
  {
    ClassNamedFrom(m, m.keys, name)
  }

  function ClassNamedFrom(m: NodeMap, ks: seq<string>, name: string): (r: Option<string>)
    ensures r.Some? ==> (ClassNamed(m, r.value, name)
      && exists i :: 0 <= i < |ks| && ks[i] == r.value && forall j :: 0 <= j < i ==> !ClassNamed(m, ks[j], name))
    ensures r.None? ==> forall i :: 0 <= i < |ks| ==> !ClassNamed(m, ks[i], name)
    decreases |ks|
  {
    if |ks| == 0 then None
    else if ClassNamed(m, ks[0], name) then Some(ks[0])
    else
      var r := ClassNamedFrom(m, ks[1..], name);
      assert r.Some? ==> exists i :: 0 <= i < |ks| && ks[i] == r.value && forall j :: 0 <= j < i ==> !ClassNamed(m, ks[j], name) by {
        if r.Some? {
          var i :| 0 <= i < |ks[1..]| && ks[1..][i] == r.value && forall j :: 0 <= j < i ==> !ClassNamed(m, ks[1..][j], name);
          assert ks[i + 1] == r.value;
          forall j | 0 <= j < i + 1
            ensures !ClassNamed(m, ks[j], name)
          {
            if j > 0 { assert ks[j] == ks[1..][j - 1]; }
          }
        }
      }
      r
  }
}
