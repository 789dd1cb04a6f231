/** What the indexer does with a parsed graph before it reaches the database:
    embedding vectors for the code-bearing nodes, generated in fixed-size batches
    and padded with zero vectors, and the conversion of nodes and relations into
    rows whose property values the database accepts. */
module Storage {

  import opened Wrappers
  import opened Schema
  import Json
  import OpenAiCompatible

  // ----- Database rows -----

  /** A node as it is handed to the bulk import: labels and a property map. */
  datatype NodeRow = NodeRow(labels: seq<string>, props: map<string, Value>)

  /** A relation as it is handed to the bulk import. */
  datatype RelationRow = RelationRow(start: string, end: string, relType: string, props: map<string, Value>)

  /** A number in Python's sense: `bool` is a subclass of `int`, so booleans count. */
  predicate IsNumber(v: Value) {
    v.VInt? || v.VReal? || v.VBool?
  }

  /** A value the database stores as it is: a scalar, or a list of numbers only
      (the empty list included). */
  predicate IsStorable(v: Value) {
    match v
    case VStr(_) => true
    case VInt(_) => true
    case VReal(_) => true
    case VBool(_) => true
    case VNone => false
    case VList(items) => forall i :: 0 <= i < |items| ==> IsNumber(items[i])
    case VDict(_) => false
  }

  /** A property value made acceptable to the database: kept when it already is,
      otherwise replaced by its JSON text. Every value of the model is
      JSON-serialisable, so the skip-on-error path never applies. */
  function Storable(v: Value, showReal: real -> string): (r: Value)
    ensures IsStorable(r)
    ensures IsStorable(v) ==> r == v
    ensures !IsStorable(v) ==> r == VStr(Json.Encode(v, showReal))
  {
    if IsStorable(v) then v else VStr(Json.Encode(v, showReal))
  }

  /** Converting twice changes nothing: a converted value is already storable. */
  lemma StorableIdempotent(v: Value, showReal: real -> string)
    ensures Storable(Storable(v, showReal), showReal) == Storable(v, showReal)
  {
  }

  /** A JSON-encoded string property keeps its text: the stored literal reads back
      as the original string. */
  lemma StoredStringReadsBack(s: string, showReal: real -> string)
    ensures var q := Json.Encode(VStr(s), showReal);
            |q| >= 2 && Json.Unescape(q[1..|q| - 1]) == Some(s)
  {
    Json.EncodeStringRoundTrip(s, showReal);
  }

  /** Every property converted under the same rule. */
  function StoreProps(props: map<string, Value>, showReal: real -> string): (r: map<string, Value>)
    ensures r.Keys == props.Keys
    ensures forall k :: k in r ==> IsStorable(r[k]) && r[k] == Storable(props[k], showReal)
  {
    map k | k in props :: Storable(props[k], showReal)
  }

  /** The node's own properties but the embedding, converted. */
  function OtherProps(n: Node, showReal: real -> string): (c: map<string, Value>)
    ensures forall k :: k in c <==> k in n.props && k != "embedding"
    ensures forall k :: k in c ==> c[k] == Storable(n.props[k], showReal)
  {
    StoreProps(n.props - {"embedding"}, showReal)
  }

  /** The columns a node row can have besides the node's own properties. */
  const ColumnNames: set<string> := {"id", "name", "file_path", "line_no", "end_line_no", "code_snippet"}

  /** The columns every node row has, before the node's own properties. */
  function FixedColumns(id: string, n: Node): (c: map<string, Value>)
    ensures c.Keys == {"id", "name", "file_path", "line_no"}
    ensures c["id"] == VStr(id) && c["name"] == VStr(n.name)
    ensures c["file_path"] == VStr(n.filePath) && c["line_no"] == VInt(n.line)
    ensures forall k :: k in c ==> k in ColumnNames && IsStorable(c[k])
  {
    map["id" := VStr(id), "name" := VStr(n.name), "file_path" := VStr(n.filePath), "line_no" := VInt(n.line)]
  }

  /** An end line is written only when it is truthy: present and not zero. */
  predicate HasEndLine(n: Node) {
    n.endLine.Some? && n.endLine.value != 0
  }

  /** The columns written only when the node has them: end line, snippet and
      embedding, the last copied without conversion. */
  function OptionalColumns(n: Node): (c: map<string, Value>)
    ensures "end_line_no" in c <==> HasEndLine(n)
    ensures HasEndLine(n) ==> c["end_line_no"] == VInt(n.endLine.value)
    ensures "code_snippet" in c <==> n.snippet != ""
    ensures n.snippet != "" ==> c["code_snippet"] == VStr(n.snippet)
    ensures "embedding" in c <==> "embedding" in n.props
    ensures "embedding" in n.props ==> c["embedding"] == n.props["embedding"]
    ensures "id" !in c && "name" !in c && "file_path" !in c && "line_no" !in c
    ensures forall k :: k in c && k != "embedding" ==> k in ColumnNames && IsStorable(c[k])
  {
    var e := if HasEndLine(n) then map["end_line_no" := VInt(n.endLine.value)] else map[];
    var s := if n.snippet != "" then map["code_snippet" := VStr(n.snippet)] else map[];
    var b := if "embedding" in n.props then map["embedding" := n.props["embedding"]] else map[];
    e + s + b
  }

  /** The database row for the node stored under `id`: the fixed columns, the end
      line and snippet when present, the embedding copied as it is, and every other
      property converted. A property of the same name as a fixed column wins. */
  function NodeRowOf(id: string, n: Node, showReal: real -> string): (r: NodeRow)
    ensures r.labels == ["Base", KindName(n.kind)]
    ensures "id" in r.props && "name" in r.props && "file_path" in r.props && "line_no" in r.props
    ensures forall k :: k in n.props ==> k in r.props
    ensures forall k :: k in r.props ==> k in n.props || k in ColumnNames
    ensures "embedding" in n.props ==> r.props["embedding"] == n.props["embedding"]
    ensures forall k :: k in n.props && k != "embedding" ==> r.props[k] == Storable(n.props[k], showReal)
  {
    var fixed := FixedColumns(id, n);
    var optional := OptionalColumns(n);
    var rest := OtherProps(n, showReal);
    NodeRow(["Base", KindName(n.kind)], fixed + optional + rest)
  }

  /** The fixed columns of a row hold the id and the node's name, path and line,
      unless a property of the same name replaces them. */
  lemma NodeRowFixedColumns(id: string, n: Node, showReal: real -> string)
    ensures var r := NodeRowOf(id, n, showReal);
      && ("id" !in n.props ==> r.props["id"] == VStr(id))
      && ("name" !in n.props ==> r.props["name"] == VStr(n.name))
      && ("file_path" !in n.props ==> r.props["file_path"] == VStr(n.filePath))
      && ("line_no" !in n.props ==> r.props["line_no"] == VInt(n.line))
  {
    var fixed := FixedColumns(id, n);
    var optional := OptionalColumns(n);
    var rest := OtherProps(n, showReal);
    var props := fixed + optional + rest;
    assert NodeRowOf(id, n, showReal).props == props;
    forall k | k in fixed && k !in n.props && k !in optional
      ensures props[k] == fixed[k]
    {
      assert k !in rest;
    }
  }

  /** A row has an end line exactly when the node's end line is truthy, unless a
      property of that name supplies one. */
  lemma NodeRowEndLine(id: string, n: Node, showReal: real -> string)
    ensures var r := NodeRowOf(id, n, showReal);
      "end_line_no" !in n.props ==>
        ("end_line_no" in r.props <==> HasEndLine(n))
        && (HasEndLine(n) ==> r.props["end_line_no"] == VInt(n.endLine.value))
  {
    var fixed := FixedColumns(id, n);
    var optional := OptionalColumns(n);
    var rest := OtherProps(n, showReal);
    assert NodeRowOf(id, n, showReal).props == fixed + optional + rest;
    assert "end_line_no" !in fixed;
  }

  /** A row has a snippet exactly when the node's snippet is non-empty, unless a
      property of that name supplies one. */
  lemma NodeRowSnippet(id: string, n: Node, showReal: real -> string)
    ensures var r := NodeRowOf(id, n, showReal);
      "code_snippet" !in n.props ==>
        ("code_snippet" in r.props <==> n.snippet != "")
        && (n.snippet != "" ==> r.props["code_snippet"] == VStr(n.snippet))
  {
    var fixed := FixedColumns(id, n);
    var optional := OptionalColumns(n);
    var rest := OtherProps(n, showReal);
    assert NodeRowOf(id, n, showReal).props == fixed + optional + rest;
    assert "code_snippet" !in fixed;
  }

  /** A node's embedding, if it has one, is a value the database accepts. */
  predicate EmbeddingStorable(n: Node) {
    "embedding" in n.props ==> IsStorable(n.props["embedding"])
  }

  /** A row holds only storable values, provided the node's embedding is storable;
      the embedding is the one property copied without conversion. */
  lemma NodeRowStorable(id: string, n: Node, showReal: real -> string)
    requires EmbeddingStorable(n)
    ensures forall k :: k in NodeRowOf(id, n, showReal).props ==> IsStorable(NodeRowOf(id, n, showReal).props[k])
  {
    var fixed := FixedColumns(id, n);
    var optional := OptionalColumns(n);
    var rest := OtherProps(n, showReal);
    var props := fixed + optional + rest;
    assert NodeRowOf(id, n, showReal).props == props;
    forall k | k in props
      ensures IsStorable(props[k])
    {
      if k in rest {
        assert props[k] == rest[k];
      } else if k in optional {
        assert props[k] == optional[k];
      } else {
        assert props[k] == fixed[k];
      }
    }
  }

  /** One row per node, in the dictionary's insertion order. */
  function NodeRows(m: NodeMap, showReal: real -> string): (r: seq<NodeRow>)
    requires ValidNodes(m)
    ensures |r| == |m.keys|
    ensures forall i :: 0 <= i < |r| ==> r[i].labels == ["Base", KindName(m.byId[m.keys[i]].kind)]
    ensures forall i :: 0 <= i < |r| ==> "id" in r[i].props
    ensures forall i :: 0 <= i < |r| && "id" !in m.byId[m.keys[i]].props ==> r[i].props["id"] == VStr(m.keys[i])
  {
    var r := seq(|m.keys|, i requires 0 <= i < |m.keys| => NodeRowOf(m.keys[i], m.byId[m.keys[i]], showReal));
    assert forall i :: 0 <= i < |r| && "id" !in m.byId[m.keys[i]].props ==> r[i].props["id"] == VStr(m.keys[i]) by {
      forall i | 0 <= i < |r| && "id" !in m.byId[m.keys[i]].props
        ensures r[i].props["id"] == VStr(m.keys[i])
      {
        NodeRowFixedColumns(m.keys[i], m.byId[m.keys[i]], showReal);
      }
    }
    r
  }

  /** A relation row: endpoints and type copied, properties converted. */
  function RelationRowOf(rel: Relation, showReal: real -> string): (r: RelationRow)
    ensures r.start == rel.source && r.end == rel.target && r.relType == RelKindName(rel.kind)
    ensures r.props.Keys == rel.props.Keys
    ensures forall k :: k in r.props ==> IsStorable(r.props[k])
    ensures forall k :: k in r.props && IsStorable(rel.props[k]) ==> r.props[k] == rel.props[k]
  {
    RelationRow(rel.source, rel.target, RelKindName(rel.kind), StoreProps(rel.props, showReal))
  }

  /** One row per relation, in order. */
  function RelationRows(rels: seq<Relation>, showReal: real -> string): (r: seq<RelationRow>)
    ensures |r| == |rels|
    ensures forall i :: 0 <= i < |r| ==> r[i] == RelationRowOf(rels[i], showReal)
  {
    seq(|rels|, i requires 0 <= i < |rels| => RelationRowOf(rels[i], showReal))
  }

  // ----- Embeddings -----

  /** Nodes are sent to the embedder this many at a time. */
  const BatchSize: nat := 20

  /** The zero-vector length used when the provider does not declare one. */
  const DefaultDimension: nat := 1536

  /** Only these node types get an embedding. */
  predicate IsTarget(k: Kind) {
    k == Function || k == Method || k == Class || k == File
  }

  /** The text embedded for a node: files by name, others by their snippet, or by
      type and name when the snippet is empty. */
  function EmbedText(n: Node): (t: string)
    ensures t != ""
    ensures n.kind == File ==> t == "File: " + n.name
    ensures n.kind != File && n.snippet != "" ==> t == n.snippet
    ensures n.kind != File && n.snippet == "" ==> t == KindName(n.kind) + ": " + n.name
  {
    if n.kind == File then "File: " + n.name
    else if n.snippet != "" then n.snippet
    else KindName(n.kind) + ": " + n.name
  }

  /** No id occurs twice. */
  predicate Distinct(ids: seq<string>)
    decreases |ids|
  {
    |ids| == 0 || (ids[0] !in ids[1..] && Distinct(ids[1..]))
  }

  /** The recursive definition agrees with the pairwise one a dictionary's keys
      satisfy. */
  lemma {:induction false} DistinctPairwise(ids: seq<string>)
    requires forall i, j :: 0 <= i < j < |ids| ==> ids[i] != ids[j]
    ensures Distinct(ids)
    decreases |ids|
  {
    if |ids| > 0 {
      assert forall i :: 0 <= i < |ids| - 1 ==> ids[1..][i] == ids[i + 1];
      DistinctPairwise(ids[1..]);
    }
  }

  /** The ids of a list of (id, node) pairs. */
  function Ids(xs: seq<(string, Node)>): (r: seq<string>)
    ensures |r| == |xs| && forall i :: 0 <= i < |xs| ==> r[i] == xs[i].0
  {
    seq(|xs|, i requires 0 <= i < |xs| => xs[i].0)
  }

  lemma IdsAppend(a: seq<(string, Node)>, b: seq<(string, Node)>)
    ensures Ids(a + b) == Ids(a) + Ids(b)
  {
  }

  /** The (id, node) pairs to embed: the File, Function, Method and Class nodes,
      in insertion order, each once. */
  function Targets(m: NodeMap): (r: seq<(string, Node)>)
    ensures forall i :: 0 <= i < |r| ==>
              r[i].0 in m.keys && r[i].0 in m.byId && r[i].1 == m.byId[r[i].0] && IsTarget(r[i].1.kind)
    ensures forall k :: k in m.keys && k in m.byId && IsTarget(m.byId[k].kind) ==> k in Ids(r)
    ensures forall k :: k in Ids(r) ==> k in m.keys
    decreases |m.keys|
  {
    if |m.keys| == 0 then []
    else
      var k := m.keys[0];
      var rest := Targets(NodeMap(m.keys[1..], m.byId));
      assert m.keys == [k] + m.keys[1..];
      if k in m.byId && IsTarget(m.byId[k].kind) then
        var r := [(k, m.byId[k])] + rest;
        assert Ids(r) == [k] + Ids(rest);
        r
      else rest
  }

  /** Each node is embedded at most once: the targets of a dictionary list every id
      once. */
  lemma {:induction false} TargetsDistinct(m: NodeMap)
    requires Distinct(m.keys)
    ensures Distinct(Ids(Targets(m)))
    decreases |m.keys|
  {
    if |m.keys| > 0 {
      var k := m.keys[0];
      var tail := NodeMap(m.keys[1..], m.byId);
      TargetsDistinct(tail);
      var rest := Targets(tail);
      if k in m.byId && IsTarget(m.byId[k].kind) {
        var head := [(k, m.byId[k])];
        assert Targets(m) == head + rest;
        IdsAppend(head, rest);
        assert Ids(head) == [k];
        assert k !in Ids(rest);
        assert ([k] + Ids(rest))[1..] == Ids(rest);
      } else {
        assert Targets(m) == rest;
      }
    }
  }

  function Flatten<T>(xss: seq<seq<T>>): seq<T> {
    if |xss| == 0 then [] else xss[0] + Flatten(xss[1..])
  }

  /** The slices `xs[i:i+20]` for i = 0, 20, 40, ...: every slice non-empty and at
      most a batch long, all but the last exactly a batch long, together giving
      back `xs` in order. */
  function Chunks<T>(xs: seq<T>): (r: seq<seq<T>>)
    ensures forall i :: 0 <= i < |r| ==> 0 < |r[i]| <= BatchSize
    ensures forall i :: 0 <= i < |r| - 1 ==> |r[i]| == BatchSize
    ensures Flatten(r) == xs
    decreases |xs|
  {
    if |xs| == 0 then []
    else if |xs| <= BatchSize then [xs]
    else
      var rest := Chunks(xs[BatchSize..]);
      assert xs[..BatchSize] + xs[BatchSize..] == xs;
      [xs[..BatchSize]] + rest
  }

  /** The i-th element of batch b is element `20 * b + i` of the whole. */
  lemma {:induction false} ChunkAt<T>(xs: seq<T>, b: nat, i: nat)
    requires i < BatchSize && BatchSize * b + i < |xs|
    ensures b < |Chunks(xs)| && i < |Chunks(xs)[b]| && Chunks(xs)[b][i] == xs[BatchSize * b + i]
    decreases |xs|
  {
    if b > 0 {
      ChunkAt(xs[BatchSize..], b - 1, i);
    }
  }

  /** `getattr(embedder, 'dimension', 1536)`. */
  function PadDimension(declared: Option<nat>): (d: nat)
    ensures declared.Some? ==> d == declared.value
    ensures declared.None? ==> d == DefaultDimension
  {
    if declared.Some? then declared.value else DefaultDimension
  }

  /** The vector the j-th node of a batch of `count` receives, as the two branches
      of the source write it: when enough vectors came back, the j-th; otherwise
      the j-th while there is one and a zero vector after. Both branches amount to
      the same rule. */
  function Pick(vs: seq<seq<real>>, count: nat, j: nat, dim: nat): (v: seq<real>)
    requires j < count
    ensures j < |vs| ==> v == vs[j]
    ensures |vs| <= j ==> v == OpenAiCompatible.Zeros(dim)
  {
    if |vs| >= count then vs[j]
    else if j < |vs| then vs[j]
    else OpenAiCompatible.Zeros(dim)
  }

  /** A vector as a property value: a list of floats. */
  function VectorValue(v: seq<real>): (r: Value)
    ensures IsStorable(r) && r.VList? && |r.items| == |v|
    ensures forall i :: 0 <= i < |v| ==> r.items[i] == VReal(v[i])
  {
    VList(seq(|v|, i requires 0 <= i < |v| => VReal(v[i])))
  }

  /** The node has an embedding the database accepts. */
  predicate Embedded(n: Node) {
    "embedding" in n.props && IsStorable(n.props["embedding"])
  }

  /** The vectors written so far, by node id. The source writes them into each
      node's property dictionary as it goes; the model collects them and attaches
      them at the end, which is the same since nothing reads them in between. */
  type Vectors = map<string, seq<real>>

  /** The vectors for a batch of `count` nodes, one per node: those that came
      back, then zero vectors for the rest. */
  function Padded(vs: seq<seq<real>>, count: nat, dim: nat): (r: seq<seq<real>>)
    ensures |r| == count
    ensures forall j :: 0 <= j < count && j < |vs| ==> r[j] == vs[j]
    ensures forall j :: |vs| <= j < count ==> r[j] == OpenAiCompatible.Zeros(dim)
  {
    seq(count, j requires 0 <= j < count => Pick(vs, count, j, dim))
  }

  /** Writes `vectors[i]` under `ids[i]`, in order. */
  function AssignAll(acc: Vectors, ids: seq<string>, vectors: seq<seq<real>>): (r: Vectors)
    requires |ids| == |vectors|
    ensures forall k :: k in r <==> k in acc || k in ids
    ensures forall k :: k in acc && k !in ids ==> r[k] == acc[k]
    ensures Distinct(ids) ==> forall i :: 0 <= i < |ids| ==> r[ids[i]] == vectors[i]
    decreases |ids|
  {
    if |ids| == 0 then acc
    else
      var r := AssignAll(acc[ids[0] := vectors[0]], ids[1..], vectors[1..]);
      assert forall i :: 1 <= i < |ids| ==> ids[i] == ids[1..][i - 1] && vectors[i] == vectors[1..][i - 1];
      assert ids == [ids[0]] + ids[1..];
      r
  }

  /** The three parallel lists sent to the embedder for a batch. */
  function BatchTexts(batch: seq<(string, Node)>): (r: seq<string>)
    ensures |r| == |batch| && forall i :: 0 <= i < |batch| ==> r[i] == EmbedText(batch[i].1)
  {
    seq(|batch|, i requires 0 <= i < |batch| => EmbedText(batch[i].1))
  }

  function BatchTypes(batch: seq<(string, Node)>): (r: seq<string>)
    ensures |r| == |batch| && forall i :: 0 <= i < |batch| ==> r[i] == KindName(batch[i].1.kind)
  {
    seq(|batch|, i requires 0 <= i < |batch| => KindName(batch[i].1.kind))
  }

  function BatchNames(batch: seq<(string, Node)>): (r: seq<string>)
    ensures |r| == |batch| && forall i :: 0 <= i < |batch| ==> r[i] == batch[i].1.name
  {
    seq(|batch|, i requires 0 <= i < |batch| => batch[i].1.name)
  }

  /** The embedder, which the model does not look into: texts, types and names in,
      some vectors out, perhaps fewer than asked for. */
  type Embedder = (seq<string>, seq<string>, seq<string>) -> seq<seq<real>>

  /** The vectors the embedder returns for a batch. */
  function BatchVectors(batch: seq<(string, Node)>, embed: Embedder): seq<seq<real>> {
    embed(BatchTexts(batch), BatchTypes(batch), BatchNames(batch))
  }

  /** One batch: the embedder is asked once, and the vectors, padded to one per
      node, assigned in order. With distinct ids the i-th node gets the i-th
      vector that came back, or a zero vector when the embedder came back short. */
  function EmbedBatch(acc: Vectors, batch: seq<(string, Node)>, embed: Embedder, dim: nat): (r: Vectors)
    ensures forall k :: k in r <==> k in acc || k in Ids(batch)
    ensures forall k :: k in acc && k !in Ids(batch) ==> r[k] == acc[k]
    ensures Distinct(Ids(batch)) ==>
              forall i :: 0 <= i < |batch| ==> r[batch[i].0] == Padded(BatchVectors(batch, embed), |batch|, dim)[i]
  {
    if |batch| == 0 then acc
    else
      var r := AssignAll(acc, Ids(batch), Padded(BatchVectors(batch, embed), |batch|, dim));
      assert forall i :: 0 <= i < |batch| ==> Ids(batch)[i] == batch[i].0;
      r
  }

  /** Each node of a batch with distinct ids receives the vector at its position,
      or a zero vector of the padding length when the embedder came back short. */
  lemma EmbedBatchPicks(acc: Vectors, batch: seq<(string, Node)>, embed: Embedder, dim: nat, i: nat)
    requires Distinct(Ids(batch)) && i < |batch|
    ensures var vs := BatchVectors(batch, embed);
            var v := EmbedBatch(acc, batch, embed, dim)[batch[i].0];
            && (i < |vs| ==> v == vs[i])
            && (|vs| <= i ==> v == OpenAiCompatible.Zeros(dim))
  {
    assert batch[i].0 in Ids(batch);
  }

  /** The batches in order. */
  function EmbedBatches(acc: Vectors, batches: seq<seq<(string, Node)>>, embed: Embedder, dim: nat): (r: Vectors)
    ensures forall k :: k in r <==> k in acc || k in Ids(Flatten(batches))
    decreases |batches|
  {
    if |batches| == 0 then acc
    else
      IdsAppend(batches[0], Flatten(batches[1..]));
      EmbedBatches(EmbedBatch(acc, batches[0], embed, dim), batches[1..], embed, dim)
  }

  /** The vectors of all target nodes: exactly the File, Function, Method and
      Class nodes get one. */
  function ComputeVectors(m: NodeMap, embed: Embedder, dim: nat): (r: Vectors)
    ensures forall k :: k in r ==> k in m.byId && IsTarget(m.byId[k].kind)
    ensures forall k :: k in m.keys && k in m.byId && IsTarget(m.byId[k].kind) ==> k in r
  {
    var targets := Targets(m);
    var r := EmbedBatches(map[], Chunks(targets), embed, dim);
    assert forall k :: k in Ids(targets) ==> k in m.byId && IsTarget(m.byId[k].kind) by {
      forall k | k in Ids(targets)
        ensures k in m.byId && IsTarget(m.byId[k].kind)
      {
        var l :| 0 <= l < |targets| && Ids(targets)[l] == k;
      }
    }
    r
  }

  /** Writes each vector into its node's `embedding` property. */
  function Attach(m: NodeMap, vectors: Vectors): (r: NodeMap)
    ensures r.keys == m.keys && r.byId.Keys == m.byId.Keys
    ensures forall k :: k in m.byId && k !in vectors ==> r.byId[k] == m.byId[k]
    ensures forall k :: k in m.byId && k in vectors ==>
              r.byId[k] == m.byId[k].(props := m.byId[k].props["embedding" := VectorValue(vectors[k])])
  {
    NodeMap(m.keys, map k | k in m.byId :: if k in vectors then
              m.byId[k].(props := m.byId[k].props["embedding" := VectorValue(vectors[k])])
            else m.byId[k])
  }

  /** `_generate_embeddings`: every File, Function, Method and Class node ends up
      with an embedding the database accepts and nothing else about it changes;
      every other node is unchanged. */
  function GenerateEmbeddings(m: NodeMap, embed: Embedder, declared: Option<nat>): (r: NodeMap)
    ensures r.keys == m.keys && r.byId.Keys == m.byId.Keys
    ensures forall k :: k in m.byId && !IsTarget(m.byId[k].kind) ==> r.byId[k] == m.byId[k]
    ensures forall k :: k in m.keys && k in m.byId && IsTarget(m.byId[k].kind) ==>
              && Embedded(r.byId[k])
              && r.byId[k] == m.byId[k].(props := m.byId[k].props["embedding" := r.byId[k].props["embedding"]])
  {
    Attach(m, ComputeVectors(m, embed, PadDimension(declared)))
  }

  /** Embedding then converting: when no node carried an unstorable embedding
      before, every value of every node row is one the database accepts. */
  lemma EmbeddedRowsStorable(m: NodeMap, embed: Embedder, declared: Option<nat>, showReal: real -> string)
    requires ValidNodes(m)
    requires forall k :: k in m.byId ==> EmbeddingStorable(m.byId[k])
    ensures var g := GenerateEmbeddings(m, embed, declared);
            ValidNodes(g)
            && forall i, k :: 0 <= i < |g.keys| && k in NodeRows(g, showReal)[i].props ==>
                 IsStorable(NodeRows(g, showReal)[i].props[k])
  {
    var g := GenerateEmbeddings(m, embed, declared);
    assert ValidNodes(g);
    var rows := NodeRows(g, showReal);
    forall i, k | 0 <= i < |g.keys| && k in rows[i].props
      ensures IsStorable(rows[i].props[k])
    {
      var id := g.keys[i];
      assert EmbeddingStorable(g.byId[id]);
      NodeRowStorable(id, g.byId[id], showReal);
    }
  }
}
