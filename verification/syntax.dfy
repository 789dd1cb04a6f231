/** The syntax trees the extractors walk, as an input value: tree-sitter and ast-grep
    nodes reduced to what the extractors read. */
module Syntax {

  import opened Wrappers

  /** A node of a concrete syntax tree: its grammar kind, its source text, its named
      fields (each an index into `children`), its children in source order, and its
      first and last line, both 1-based. */
  datatype Tree = Tree(
    kind: string,
    text: string,
    fields: map<string, nat>,
    children: seq<Tree>,
    line: nat,
    endLine: nat)

  /** ast-grep's `node.field(name)` / tree-sitter's `child_by_field_name`. */
  function Field(t: Tree, name: string): (r: Option<Tree>)
    ensures r.Some? ==> r.value in t.children
  {
    if name in t.fields && t.fields[name] < |t.children| then Some(t.children[t.fields[name]])
    else None
  }

  /** The trees of `ts` whose kind is `kind`, in order. */
  function OfKind(ts: seq<Tree>, kind: string): (r: seq<Tree>)
    ensures forall i :: 0 <= i < |r| ==> r[i].kind == kind && r[i] in ts
  {
    if |ts| == 0 then []
    else (if ts[0].kind == kind then [ts[0]] else []) + OfKind(ts[1..], kind)
  }

  /** `OfKind` drops nothing of the requested kind. */
  lemma {:induction false} OfKindComplete(ts: seq<Tree>, kind: string, c: Tree)
    requires c in ts && c.kind == kind
    ensures c in OfKind(ts, kind)
  {
    if ts[0] != c {
      OfKindComplete(ts[1..], kind, c);
    }
  }

  /** The trees of `ts` whose kind is in `kinds`, in order. */
  function OfKinds(ts: seq<Tree>, kinds: set<string>): (r: seq<Tree>)
    ensures forall i :: 0 <= i < |r| ==> r[i].kind in kinds && r[i] in ts
  {
    if |ts| == 0 then []
    else (if ts[0].kind in kinds then [ts[0]] else []) + OfKinds(ts[1..], kinds)
  }

  /** The texts of the trees of `ts` whose kind is `kind`, in order. */
  function TextsOfKind(ts: seq<Tree>, kind: string): (r: seq<string>)
    ensures |r| <= |ts|
  {
    if |ts| == 0 then []
    else (if ts[0].kind == kind then [ts[0].text] else []) + TextsOfKind(ts[1..], kind)
  }

  /** The first hit of a search, if any: `find_all(...)[0]` guarded by emptiness. */
  function FirstHit(hits: seq<Hit>): Option<Tree> {
    if |hits| == 0 then None else Some(hits[0].node)
  }

  /** The first child of the given kind. */
  function FirstOfKind(ts: seq<Tree>, kind: string): (r: Option<Tree>)
    ensures r.Some? ==> r.value.kind == kind && r.value in ts
    ensures r.None? ==> forall i :: 0 <= i < |ts| ==> ts[i].kind != kind
  {
    if |ts| == 0 then None
    else if ts[0].kind == kind then Some(ts[0])
    else FirstOfKind(ts[1..], kind)
  }

  /** The first child whose kind is one of `kinds`. */
  function FirstOfKinds(ts: seq<Tree>, kinds: set<string>): (r: Option<Tree>)
    ensures r.Some? ==> r.value.kind in kinds && r.value in ts
    ensures r.None? ==> forall i :: 0 <= i < |ts| ==> ts[i].kind !in kinds
    ensures r.Some? ==> exists i :: 0 <= i < |ts| && ts[i] == r.value && forall j :: 0 <= j < i ==> ts[j].kind !in kinds
  {
    if |ts| == 0 then None
    else if ts[0].kind in kinds then Some(ts[0])
    else
      var r := FirstOfKinds(ts[1..], kinds);
      if r.Some? then
        var i :| 0 <= i < |ts| - 1 && ts[1..][i] == r.value && forall j :: 0 <= j < i ==> ts[1..][j].kind !in kinds;
        assert ts[i + 1] == r.value && forall j :: 0 <= j < i + 1 ==> ts[j].kind !in kinds;
        r
      else r
  }

  /** An entity an extractor found: the text of its name and its first line. */
  datatype Spot = Spot(name: string, line: nat)

  /** The trees of `ts` that have a `name` field, as spots at their own line: the
      `name_field = node.field("name"); if not name_field: continue` idiom. */
  function Named(ts: seq<Tree>): (r: seq<Spot>)
    ensures |r| <= |ts|
    ensures forall j :: 0 <= j < |ts| && Field(ts[j], "name").Some? ==> Spot(Field(ts[j], "name").value.text, ts[j].line) in r
    ensures forall s :: s in r ==> exists t :: t in ts && Field(t, "name").Some? && s == Spot(Field(t, "name").value.text, t.line)
  {
    if |ts| == 0 then []
    else
      var rest := Named(ts[1..]);
      assert forall j :: 1 <= j < |ts| ==> ts[j] == ts[1..][j - 1];
      match Field(ts[0], "name")
      case None => rest
      case Some(n) => [Spot(n.text, ts[0].line)] + rest
  }

  /** The item a named spot came from. */
  lemma NamedIndex(ts: seq<Tree>, m: nat) returns (i: nat)
    requires m < |Named(ts)|
    ensures i < |ts| && Field(ts[i], "name").Some?
    ensures Named(ts)[m] == Spot(Field(ts[i], "name").value.text, ts[i].line)
  {
    var s := Named(ts)[m];
    assert s in Named(ts);
    var t :| t in ts && Field(t, "name").Some? && s == Spot(Field(t, "name").value.text, t.line);
    i :| 0 <= i < |ts| && ts[i] == t;
  }

  /** The source texts of a list of trees. */
  function TextsOf(ts: seq<Tree>): (r: seq<string>)
    ensures |r| == |ts| && forall i :: 0 <= i < |ts| ==> r[i] == ts[i].text
  {
    seq(|ts|, i requires 0 <= i < |ts| => ts[i].text)
  }

  /** The nodes of a list of search hits. */
  function NodesOf(hits: seq<Hit>): (r: seq<Tree>)
    ensures |r| == |hits| && forall i :: 0 <= i < |hits| ==> r[i] == hits[i].node
  {
    seq(|hits|, i requires 0 <= i < |hits| => hits[i].node)
  }

  /** A node found by a search, with the kinds of its proper ancestors, nearest first. */
  datatype Hit = Hit(node: Tree, ancestors: seq<string>)

  /** The kind of the parent, as ast-grep's `node.parent().kind()` ("" at the root). */
  function ParentKind(h: Hit): string {
    if |h.ancestors| == 0 then "" else h.ancestors[0]
  }

  /** ast-grep's `find_all(kind=...)`: every node of the subtree rooted at `t`
      (`t` included) whose kind is in `kinds`, in pre-order; `ancestors` are the
      kinds above `t`. */
  function FindAll(t: Tree, kinds: set<string>, ancestors: seq<string>): (hits: seq<Hit>)
    ensures forall i :: 0 <= i < |hits| ==> hits[i].node.kind in kinds
    decreases t, 1
  {
    (if t.kind in kinds then [Hit(t, ancestors)] else [])
    + FindAllIn(t.children, kinds, [t.kind] + ancestors)
  }

  /** `FindAll` over a list of siblings sharing the same ancestors. */
  function FindAllIn(ts: seq<Tree>, kinds: set<string>, ancestors: seq<string>): (hits: seq<Hit>)
    ensures forall i :: 0 <= i < |hits| ==> hits[i].node.kind in kinds
    decreases ts, 0
  {
    if |ts| == 0 then []
    else FindAll(ts[0], kinds, ancestors) + FindAllIn(ts[1..], kinds, ancestors)
  }

  /** Search from the root of a file. */
  function Find(root: Tree, kind: string): seq<Hit> {
    FindAll(root, {kind}, [])
  }

  /** A search from a matching node reports that node first, with the given ancestors. */
  lemma FindAllStartsAtMatch(t: Tree, kinds: set<string>, ancestors: seq<string>)
    requires t.kind in kinds
    ensures |FindAll(t, kinds, ancestors)| > 0 && FindAll(t, kinds, ancestors)[0] == Hit(t, ancestors)
  {
  }

  /** Every direct child of the searched node that matches is reported, with the
      searched node as its parent. */
  lemma {:induction false} FindAllReportsMatchingChildren(t: Tree, kinds: set<string>, ancestors: seq<string>, i: nat)
    requires i < |t.children| && t.children[i].kind in kinds
    ensures Hit(t.children[i], [t.kind] + ancestors) in FindAll(t, kinds, ancestors)
  {
    FindAllInReportsMember(t.children, kinds, [t.kind] + ancestors, i);
  }

  lemma {:induction false} FindAllInReportsMember(ts: seq<Tree>, kinds: set<string>, ancestors: seq<string>, i: nat)
    requires i < |ts| && ts[i].kind in kinds
    ensures Hit(ts[i], ancestors) in FindAllIn(ts, kinds, ancestors)
    decreases i
  {
    if i == 0 {
      FindAllStartsAtMatch(ts[0], kinds, ancestors);
    } else {
      FindAllInReportsMember(ts[1..], kinds, ancestors, i - 1);
      assert ts[1..][i - 1] == ts[i];
    }
  }
}
