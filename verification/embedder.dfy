/** The embedding front ends: `OpenAIEmbeddings`, which builds an OpenAI
    provider from arguments and the environment, and `CodeEmbedder`, which puts a
    node's kind and name in front of its code before asking the provider. */
module Embedder {

  import opened Wrappers
  import opened Text
  import OpenAiCompatible
  import Schema
  import Storage
  import opened Factory

  /** Python's `x or fallback` on an optional string: `None` and `""` are falsy. */
  function Or(x: Option<string>, fallback: string): (r: string)
    ensures x.Some? && x.value != "" ==> r == x.value
    ensures x.None? || x.value == "" ==> r == fallback
  {
    if x.Some? && x.value != "" then x.value else fallback
  }

  const OpenAiBaseUrl := "https://api.openai.com/v1"

  /** The provider behind `OpenAIEmbeddings`; its dimension, single-text and
      batch embedding are the provider's. */
  datatype OpenAIEmbeddings = OpenAIEmbeddings(provider: OpenAiCompatible.Provider)

  /** `OpenAIEmbeddings.__init__`: a missing or empty key is refused; the base
      URL is the argument, else `EMBEDDING_API_BASE_URL`, else `OPENAI_API_BASE`,
      else the OpenAI endpoint; the model is the argument, else `EMBEDDING_MODEL`,
      else `text-embedding-3-small`, each skipping empty values. */
  function NewOpenAIEmbeddings(apiKey: Option<string>, baseUrl: Option<string>, model: Option<string>, env: Env)
    : (r: Result<OpenAIEmbeddings, string>)
    ensures r.Err? <==> apiKey.None? || apiKey.value == ""
    ensures r.Ok? ==>
              var p := r.value.provider;
              && p.apiKey == apiKey.value && p.apiKeyName == "OPENAI_API_KEY"
              && p.baseUrl != "" && p.model != ""
              && p.baseUrl == Or(baseUrl, Or(Get(env, "EMBEDDING_API_BASE_URL"), Or(Get(env, "OPENAI_API_BASE"), OpenAiBaseUrl)))
              && p.model == Or(model, Or(Get(env, "EMBEDDING_MODEL"), DefaultModel))
              && p.dimension == OpenAiCompatible.InferDimension(p.model)
  {
    if apiKey.None? || apiKey.value == "" then Err("API key is required to initialize OpenAIEmbeddings")
    else
      var url := Or(baseUrl, Or(Get(env, "EMBEDDING_API_BASE_URL"), Or(Get(env, "OPENAI_API_BASE"), OpenAiBaseUrl)));
      var m := Or(model, Or(Get(env, "EMBEDDING_MODEL"), DefaultModel));
      Ok(OpenAIEmbeddings(OpenAiCompatible.NewProvider(apiKey.value, url, m, "OPENAI_API_KEY")))
  }

  /** Arguments given explicitly win over anything in the environment. */
  lemma ExplicitArgumentsWin(key: string, url: string, model: string, env1: Env, env2: Env)
    requires key != "" && url != "" && model != ""
    ensures NewOpenAIEmbeddings(Some(key), Some(url), Some(model), env1)
            == NewOpenAIEmbeddings(Some(key), Some(url), Some(model), env2)
    ensures NewOpenAIEmbeddings(Some(key), Some(url), Some(model), env1).value.provider.baseUrl == url
  {
  }

  /** With nothing configured but the key, the wrapper talks to OpenAI's
      endpoint with `text-embedding-3-small`. */
  lemma DefaultsWithEmptyEnvironment(key: string, env: Env)
    requires key != ""
    requires "EMBEDDING_API_BASE_URL" !in env && "OPENAI_API_BASE" !in env && "EMBEDDING_MODEL" !in env
    ensures var r := NewOpenAIEmbeddings(Some(key), None, None, env);
            && r.Ok? && r.value.provider.baseUrl == OpenAiBaseUrl && r.value.provider.model == DefaultModel
  {
  }

  // ----- CodeEmbedder -----

  /** `prepare_code_text`: `"<type> <name>:\n<code>"`. */
  function PrepareCodeText(code: string, kind: string, name: string): (t: string)
    ensures StartsWith(t, kind + " " + name + ":\n") && EndsWith(t, code)
    ensures |t| == |kind| + |name| + |code| + 3
  {
    kind + " " + name + ":\n" + code
  }

  /** Splits at the first `c`, when there is one. */
  function SplitFirst(s: string, c: char): (r: Option<(string, string)>)
    ensures r.Some? ==> c !in r.value.0 && s == r.value.0 + [c] + r.value.1
    ensures r.None? <==> c !in s
  {
    if c in s then
      var i := IndexOf(s, c);
      assert s == s[..i] + [c] + s[i + 1..];
      Some((s[..i], s[i + 1..]))
    else None
  }

  /** Splitting `a + [c] + b` where `a` has no `c` gives back `a` and `b`. */
  lemma SplitFirstJoin(a: string, c: char, b: string)
    requires c !in a
    ensures SplitFirst(a + [c] + b, c) == Some((a, b))
  {
    var s := a + [c] + b;
    assert s[|a|] == c;
    IndexOfUnique(s, c, |a|);
    assert s[..|a|] == a && s[|a| + 1..] == b;
  }

  /** Reads a prepared text back into (code, type, name): the header is the
      text up to the first newline, it ends with `:`, and the type is its part
      before the first space. */
  function ReadPrepared(t: string): (r: Option<(string, string, string)>)
    ensures r.Some? ==> PrepareCodeText(r.value.0, r.value.1, r.value.2) == t
  {
    match SplitFirst(t, '\n')
    case None => None
    case Some((header, code)) =>
      if |header| == 0 || header[|header| - 1] != ':' then None
      else
        match SplitFirst(header[..|header| - 1], ' ')
        case None => None
        case Some((kind, name)) =>
          assert header == kind + " " + name + ":";
          Some((code, kind, name))
  }

  /** The prepared text keeps all three parts: reading it back gives them,
      provided the type has no space or newline and the name no newline (node
      kinds and identifiers never do). */
  lemma PrepareRoundTrip(code: string, kind: string, name: string)
    requires ' ' !in kind && '\n' !in kind && '\n' !in name
    ensures ReadPrepared(PrepareCodeText(code, kind, name)) == Some((code, kind, name))
  {
    var header := kind + " " + name + ":";
    assert '\n' !in header;
    assert PrepareCodeText(code, kind, name) == header + ['\n'] + code;
    SplitFirstJoin(header, '\n', code);
    assert header[..|header| - 1] == kind + [' '] + name;
    SplitFirstJoin(kind, ' ', name);
  }

  /** The prepared texts of a batch, position by position. */
  function PrepareAll(codes: seq<string>, kinds: seq<string>, names: seq<string>): (r: seq<string>)
    requires |codes| == |kinds| == |names|
    ensures |r| == |codes|
    ensures forall i :: 0 <= i < |codes| ==> r[i] == PrepareCodeText(codes[i], kinds[i], names[i])
  {
    seq(|codes|, i requires 0 <= i < |codes| => PrepareCodeText(codes[i], kinds[i], names[i]))
  }

  /** A prepared text is never blank: its header's `:` is visible. */
  lemma PreparedNotBlank(code: string, kind: string, name: string)
    ensures !OpenAiCompatible.Blank(PrepareCodeText(code, kind, name))
  {
    var t := PrepareCodeText(code, kind, name);
    assert t[|kind| + 1 + |name|] == ':';
    OpenAiCompatible.VisibleNotBlank(t, |kind| + 1 + |name|);
  }

  /** `embed_code_node`: the provider's single-text embedding of the prepared
      text. The header's `:` makes a prepared text never blank, so unless
      truncation empties it the service is asked, and only its failure gives
      zeros. */
  function EmbedCodeNode(p: OpenAiCompatible.Provider, code: string, kind: string, name: string,
                         truncate: string -> string, call: string -> Option<seq<real>>): (v: seq<real>)
    ensures var t := PrepareCodeText(code, kind, name);
            truncate(t) == t ==> v == call(Strip(t)).GetOr(OpenAiCompatible.Zeros(p.dimension))
  {
    PreparedNotBlank(code, kind, name);
    OpenAiCompatible.EmbedText(p, PrepareCodeText(code, kind, name), truncate, call)
  }

  /** `embed_code_nodes_batch`: lists of different lengths are refused;
      otherwise one vector per node from the provider's `embed_batch` as written.
      Prepared texts are never blank, so as long as truncation leaves each of them
      non-blank the as-written realignment gives every node the vector of its own
      prepared text, the aligned batch. */
  function EmbedCodeNodesBatch(p: OpenAiCompatible.Provider, codes: seq<string>, kinds: seq<string>, names: seq<string>,
                               truncate: string -> string, call: seq<string> -> OpenAiCompatible.Response)
    : (r: Result<seq<seq<real>>, string>)
    ensures r.Err? <==> !(|codes| == |kinds| == |names|)
    ensures r.Ok? ==> |r.value| == |codes|
    ensures r.Ok? && (forall i :: 0 <= i < |codes| ==>
                        !OpenAiCompatible.Blank(truncate(PrepareCodeText(codes[i], kinds[i], names[i]))))
            ==> r.value == OpenAiCompatible.EmbedBatch(p, PrepareAll(codes, kinds, names), truncate, call)
  {
    if !(|codes| == |kinds| == |names|) then Err("code_texts, node_types, and names must have the same length")
    else
      var prepared := PrepareAll(codes, kinds, names);
      var v := OpenAiCompatible.EmbedBatchAsWritten(p, prepared, truncate, call);
      assert (forall i :: 0 <= i < |codes| ==>
                !OpenAiCompatible.Blank(truncate(PrepareCodeText(codes[i], kinds[i], names[i]))))
             ==> v == OpenAiCompatible.EmbedBatch(p, prepared, truncate, call) by {
        if forall i :: 0 <= i < |codes| ==>
             !OpenAiCompatible.Blank(truncate(PrepareCodeText(codes[i], kinds[i], names[i]))) {
          forall i | 0 <= i < |prepared|
            ensures OpenAiCompatible.Blank(truncate(prepared[i])) <==> OpenAiCompatible.Blank(prepared[i])
          {
            PreparedNotBlank(codes[i], kinds[i], names[i]);
          }
          OpenAiCompatible.AsWrittenAgreesWhenTruncationKeepsBlankness(p, prepared, truncate, call);
        }
      }
      Ok(v)
  }

  /** The code embedder as the graph store's embedding pass sees it. */
  function AsStoreEmbedder(p: OpenAiCompatible.Provider, truncate: string -> string,
                           call: seq<string> -> OpenAiCompatible.Response): Storage.Embedder
  {
    (codes: seq<string>, kinds: seq<string>, names: seq<string>) =>
      match EmbedCodeNodesBatch(p, codes, kinds, names, truncate, call)
      case Ok(v) => v
      case Err(_) => []
  }

  /** The store always hands the embedder lists of one length, so the batch
      call never raises, and the provider returns one vector per node: the
      store's padding for short answers never applies. */
  lemma StoreBatchesNeverRaise(p: OpenAiCompatible.Provider, batch: seq<(string, Schema.Node)>,
                               truncate: string -> string, call: seq<string> -> OpenAiCompatible.Response)
    ensures EmbedCodeNodesBatch(p, Storage.BatchTexts(batch), Storage.BatchTypes(batch), Storage.BatchNames(batch), truncate, call).Ok?
    ensures |Storage.BatchVectors(batch, AsStoreEmbedder(p, truncate, call))| == |batch|
  {
  }
}
