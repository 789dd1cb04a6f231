/** The provider that speaks the OpenAI embeddings protocol: the vector length it
    infers from the model name, and how it turns a list of texts into exactly one
    vector per text around a service call that skips blank texts. The service
    call and the tokenizer's truncation are parameters. */
module OpenAiCompatible {

  import opened Wrappers
  import opened Text

  /** The vector length assumed when the model name says nothing usable. */
  const DefaultDimension: nat := 1536

  /** A configured provider. */
  datatype Provider = Provider(apiKey: string, baseUrl: string, model: string, apiKeyName: string, dimension: nat)

  /** Building a provider fixes its dimension from the model name. */
  function NewProvider(apiKey: string, baseUrl: string, model: string, apiKeyName: string): (p: Provider)
    ensures p.apiKey == apiKey && p.baseUrl == baseUrl && p.model == model && p.apiKeyName == apiKeyName
    ensures p.dimension == InferDimension(model)
    ensures 8 <= p.dimension <= 16384
  {
    Provider(apiKey, baseUrl, model, apiKeyName, InferDimension(model))
  }

  // ----- Dimension from the model name -----

  /** Python's `$` without MULTILINE: the end, or just before a final newline. */
  predicate AtEnd(s: string, e: nat) {
    e == |s| || (e + 1 == |s| && s[e] == '\n')
  }

  /** `n` ASCII digits start at `p`. */
  predicate DigitsAt(s: string, p: nat, n: nat) {
    p + n <= |s| && AllDigits(s[p..p + n])
  }

  /** The first alternative `(\d{3,4})d` at `p`: greedy, so four digits when four
      follow, and the group is what precedes the `d`. */
  function DimDigitsAt(s: string, p: nat): (r: Option<string>)
    ensures r.Some? ==> 3 <= |r.value| <= 4 && AllDigits(r.value) && OccursAt(s, r.value + "d", p)
  {
    if DigitsAt(s, p, 4) && p + 4 < |s| && s[p + 4] == 'd' then
      assert s[p..p + 5] == s[p..p + 4] + "d";
      Some(s[p..p + 4])
    else if DigitsAt(s, p, 3) && p + 3 < |s| && s[p + 3] == 'd' then
      assert s[p..p + 4] == s[p..p + 3] + "d";
      Some(s[p..p + 3])
    else None
  }

  /** What `b?d?$` accepts from `q`. */
  predicate TailOk(s: string, q: nat) {
    || AtEnd(s, q)
    || (q < |s| && s[q] == 'b' && (AtEnd(s, q + 1) || (q + 1 < |s| && s[q + 1] == 'd' && AtEnd(s, q + 2))))
    || (q < |s| && s[q] == 'd' && AtEnd(s, q + 1))
  }

  /** The second alternative `-(\d{2,4})b?d?$` at `p`; greedy on the digits. */
  function SuffixDigitsAt(s: string, p: nat): (r: Option<string>)
    ensures r.Some? ==> 2 <= |r.value| <= 4 && AllDigits(r.value) && OccursAt(s, "-" + r.value, p)
                        && TailOk(s, p + 1 + |r.value|)
  {
    if p < |s| && s[p] == '-' then
      if DigitsAt(s, p + 1, 4) && TailOk(s, p + 5) then
        assert s[p..p + 5] == "-" + s[p + 1..p + 5];
        Some(s[p + 1..p + 5])
      else if DigitsAt(s, p + 1, 3) && TailOk(s, p + 4) then
        assert s[p..p + 4] == "-" + s[p + 1..p + 4];
        Some(s[p + 1..p + 4])
      else if DigitsAt(s, p + 1, 2) && TailOk(s, p + 3) then
        assert s[p..p + 3] == "-" + s[p + 1..p + 3];
        Some(s[p + 1..p + 3])
      else None
    else None
  }

  /** `re.search(r"(\d{3,4})d|-(\d{2,4})b?d?$", s)` from position `p`: the
      captured group of the leftmost match, the first alternative tried before the
      second at each position. */
  function SearchFrom(s: string, p: nat): (r: Option<string>)
    requires p <= |s|
    ensures r.Some? ==> 2 <= |r.value| <= 4 && AllDigits(r.value)
    decreases |s| - p
  {
    if p == |s| then None
    else if DimDigitsAt(s, p).Some? then DimDigitsAt(s, p)
    else if SuffixDigitsAt(s, p).Some? then SuffixDigitsAt(s, p)
    else SearchFrom(s, p + 1)
  }

  /** The dimension a name's numeric suffix gives, when it is within 8..16384. */
  function SuffixDimension(name: string): (r: Option<nat>)
    ensures r.Some? ==> 8 <= r.value <= 16384
  {
    match SearchFrom(name, 0)
    case None => None
    case Some(g) =>
      var v := ParseDigits(g);
      if 8 <= v <= 16384 then Some(v) else None
  }

  /** The table of known model families, checked in order on the lower-cased
      name; the first family whose name occurs decides the dimension. */
  function FamilyDimension(name: string): (d: Option<nat>)
    ensures d.Some? ==> d.value in {768, 1024, 1536, 2560, 3072, 4096}
  {
    if Contains(name, "text-embedding-3-small") then Some(1536)
    else if Contains(name, "text-embedding-3-large") || Contains(name, "text-embedding-3") then Some(3072)
    else if Contains(name, "text-embedding-004") then Some(768)
    else if Contains(name, "gemini-embedding") || Contains(name, "gemini") then Some(3072)
    else if Contains(name, "embeddinggemma") || Contains(name, "gemma") then Some(768)
    else if Contains(name, "qwen3-embedding-0.6b") || Contains(name, "qwen/qwen3-embedding-0.6b") then Some(1024)
    else if Contains(name, "qwen3-embedding-4b") || Contains(name, "qwen/qwen3-embedding-4b") then Some(2560)
    else if Contains(name, "qwen3-embedding-8b") || Contains(name, "qwen/qwen3-embedding-8b") then Some(4096)
    else None
  }

  /** `_infer_dimension_from_model`: 1536 for an empty name; otherwise the
      family table on the lower-cased name, then its numeric suffix, then 1536. */
  function InferDimension(model: string): (d: nat)
    ensures 8 <= d <= 16384
    ensures model == "" ==> d == DefaultDimension
    ensures FamilyDimension(Lower(model)).Some? ==> d == FamilyDimension(Lower(model)).value
    ensures model != "" && FamilyDimension(Lower(model)).None? ==> d == SuffixDimension(Lower(model)).GetOr(DefaultDimension)
  {
    if model == "" then DefaultDimension
    else
      var name := Lower(model);
      match FamilyDimension(name)
      case Some(d) => d
      case None => SuffixDimension(name).GetOr(DefaultDimension)
  }

  /** None of the named families occurs in the lowered name. */
  predicate NoKnownFamily(name: string) {
    && !Contains(name, "text-embedding-3")
    && !Contains(name, "text-embedding-004")
    && !Contains(name, "gemini")
    && !Contains(name, "gemma")
    && !Contains(name, "qwen3-embedding-0.6b")
    && !Contains(name, "qwen3-embedding-4b")
    && !Contains(name, "qwen3-embedding-8b")
  }

  /** A name from no known family falls through the whole table. */
  lemma {:induction false} NoFamilyFallsThrough(name: string)
    requires NoKnownFamily(name)
    ensures FamilyDimension(name).None?
  {
    LongerOpenAiGoogleNamesAbsent(name);
    LongerQwenNamesAbsent(name);
  }

  lemma LongerOpenAiGoogleNamesAbsent(name: string)
    requires !Contains(name, "text-embedding-3") && !Contains(name, "gemini") && !Contains(name, "gemma")
    ensures !Contains(name, "text-embedding-3-small") && !Contains(name, "text-embedding-3-large")
    ensures !Contains(name, "gemini-embedding") && !Contains(name, "embeddinggemma")
  {
    ExtensionAbsent(name, "text-embedding-3", "-small", "text-embedding-3-small");
    ExtensionAbsent(name, "text-embedding-3", "-large", "text-embedding-3-large");
    ExtensionAbsent(name, "gemini", "-embedding", "gemini-embedding");
    ExtensionAbsent(name, "embedding", "gemma", "embeddinggemma");
  }

  lemma LongerQwenNamesAbsent(name: string)
    requires !Contains(name, "qwen3-embedding-0.6b") && !Contains(name, "qwen3-embedding-4b") && !Contains(name, "qwen3-embedding-8b")
    ensures !Contains(name, "qwen/qwen3-embedding-0.6b") && !Contains(name, "qwen/qwen3-embedding-4b")
    ensures !Contains(name, "qwen/qwen3-embedding-8b")
  {
    LongerQwenSmallAbsent(name);
    ExtensionAbsent(name, "qwen/", "qwen3-embedding-4b", "qwen/qwen3-embedding-4b");
    ExtensionAbsent(name, "qwen/", "qwen3-embedding-8b", "qwen/qwen3-embedding-8b");
  }

  lemma LongerQwenSmallAbsent(name: string)
    requires !Contains(name, "qwen3-embedding-0.6b")
    ensures !Contains(name, "qwen/qwen3-embedding-0.6b")
  {
    ExtensionAbsent(name, "qwen/", "qwen3-embedding-0.6b", "qwen/qwen3-embedding-0.6b");
  }

  /** A text that holds neither `a` nor `b` does not hold `a + b`. */
  lemma ExtensionAbsent(s: string, a: string, b: string, ab: string)
    requires ab == a + b
    ensures Contains(s, ab) ==> Contains(s, a) && Contains(s, b)
  {
    ContainsLonger(s, a, b);
    ContainsLonger2(s, a, b);
  }

  /** A text holding `a + b` holds `a`. */
  lemma ContainsLonger(s: string, a: string, b: string)
    ensures Contains(s, a + b) ==> Contains(s, a)
  {
    ContainsIffOccurs(s, a);
    ContainsIffOccurs(s, a + b);
    if Contains(s, a + b) {
      var i :| OccursAt(s, a + b, i);
      assert s[i..i + |a|] == (a + b)[..|a|];
      assert OccursAt(s, a, i);
    }
  }

  /** A text holding `a + b` holds `b`. */
  lemma ContainsLonger2(s: string, a: string, b: string)
    ensures Contains(s, a + b) ==> Contains(s, b)
  {
    ContainsIffOccurs(s, b);
    ContainsIffOccurs(s, a + b);
    if Contains(s, a + b) {
      var i :| OccursAt(s, a + b, i);
      assert s[i + |a|..i + |a| + |b|] == (a + b)[|a|..];
      assert OccursAt(s, b, i + |a|);
    }
  }

  /** Case does not matter: a model name and its lower-case form get the same
      dimension. */
  lemma InferIgnoresCase(model: string)
    ensures InferDimension(Lower(model)) == InferDimension(model)
  {
    LowerIdempotent(model);
  }

  /** No digit in the text. */
  predicate NoDigits(s: string) {
    forall i :: 0 <= i < |s| ==> !IsDigit(s[i])
  }

  /** Neither alternative can start where the first character is not a digit
      and the one after it (if any) is not a digit either. */
  lemma NoMatchAt(s: string, p: nat)
    requires p < |s| && !IsDigit(s[p]) && (p + 1 < |s| ==> !IsDigit(s[p + 1]))
    ensures DimDigitsAt(s, p).None? && SuffixDigitsAt(s, p).None?
  {
    if p + 4 <= |s| { assert s[p..p + 4][0] == s[p]; }
    if p + 3 <= |s| { assert s[p..p + 3][0] == s[p]; }
    if p + 5 <= |s| { assert s[p + 1..p + 5][0] == s[p + 1]; }
    if p + 4 <= |s| { assert s[p + 1..p + 4][0] == s[p + 1]; }
    if p + 3 <= |s| { assert s[p + 1..p + 3][0] == s[p + 1]; }
  }

  /** At the dash before two to four final digits the search stops with those
      digits. */
  lemma MatchAtDash(pre: string, ds: string)
    requires 2 <= |ds| <= 4 && AllDigits(ds)
    ensures SearchFrom(pre + "-" + ds, |pre|) == Some(ds)
  {
    var a := pre + "-";
    var s := a + ds;
    var p := |pre|;
    var n := |ds|;
    assert s[p] == '-';
    assert DimDigitsAt(s, p).None? by {
      if p + 4 <= |s| { assert s[p..p + 4][0] == s[p]; }
      if p + 3 <= |s| { assert s[p..p + 3][0] == s[p]; }
    }
    assert s[p + 1..] == ds;
    DashDigitsMatch(s, p, n);
  }

  /** A dash followed by exactly `n` final digits, two to four of them. */
  lemma DashDigitsMatch(s: string, p: nat, n: nat)
    requires 2 <= n <= 4 && |s| == p + 1 + n && s[p] == '-' && AllDigits(s[p + 1..])
    ensures SuffixDigitsAt(s, p) == Some(s[p + 1..])
  {
    assert s[p + 1..p + 1 + n] == s[p + 1..];
    assert DigitsAt(s, p + 1, n);
    assert AtEnd(s, p + 1 + n);
  }

  /** A digit-free name followed by `-` and two to four digits: the search finds
      exactly those digits (the usual `…-768` naming). */
  lemma {:induction false} SearchFindsDashSuffix(pre: string, ds: string, p: nat)
    requires NoDigits(pre) && 2 <= |ds| <= 4 && AllDigits(ds) && p <= |pre|
    ensures SearchFrom(pre + "-" + ds, p) == Some(ds)
    decreases |pre| - p
  {
    var s := pre + "-" + ds;
    if p < |pre| {
      assert s[p] == pre[p];
      assert p + 1 < |pre| ==> s[p + 1] == pre[p + 1];
      NoMatchAt(s, p);
      SearchFindsDashSuffix(pre, ds, p + 1);
    } else {
      MatchAtDash(pre, ds);
    }
  }

  /** A model from no known family named `…-<digits>` gets the number as its
      dimension when it is within 8..16384. */
  lemma DashSuffixDimension(pre: string, ds: string)
    requires NoDigits(pre) && 2 <= |ds| <= 4 && AllDigits(ds)
    requires pre + "-" + ds == Lower(pre + "-" + ds) && NoKnownFamily(pre + "-" + ds)
    requires 8 <= ParseDigits(ds) <= 16384
    ensures InferDimension(pre + "-" + ds) == ParseDigits(ds)
  {
    var name := pre + "-" + ds;
    SearchFindsDashSuffix(pre, ds, 0);
    NoFamilyFallsThrough(name);
  }

  // ----- Embedding calls -----

  /** The outcome of one call to the embeddings service: the returned items as
      (index, vector) pairs, or any failure other than a rate limit. A rate limit
      is retried after a pause until one of these comes back. */
  datatype Response = Items(data: seq<(int, seq<real>)>) | Failure

  /** A vector of zeros. */
  function Zeros(dim: nat): (z: seq<real>)
    ensures |z| == dim && forall i :: 0 <= i < dim ==> z[i] == 0.0
  {
    seq(dim, _ => 0.0)
  }

  /** Every character of `t` is whitespace: `not t or not t.strip()`, as
      `BlankIffStripsEmpty` shows. */
  predicate Blank(t: string) {
    |t| == 0 || (t[0] in Whitespace && Blank(t[1..]))
  }

  /** A text is blank exactly when stripping it leaves nothing. */
  lemma {:induction false} BlankIffStripsEmpty(t: string)
    ensures Blank(t) <==> Strip(t) == ""
  {
    var l := TrimLeft(t, Whitespace);
    if Blank(t) {
      AllSpaceTrimsEmpty(t);
    } else if l == "" {
      AllSpaceIsBlank(t);
    }
  }

  /** A text with a character outside whitespace is not blank. */
  lemma {:induction false} VisibleNotBlank(t: string, i: nat)
    requires i < |t| && t[i] !in Whitespace
    ensures !Blank(t)
  {
    if i > 0 {
      VisibleNotBlank(t[1..], i - 1);
    }
  }

  lemma {:induction false} AllSpaceTrimsEmpty(t: string)
    requires Blank(t)
    ensures TrimLeft(t, Whitespace) == ""
  {
    if |t| > 0 {
      AllSpaceTrimsEmpty(t[1..]);
    }
  }

  lemma {:induction false} AllSpaceIsBlank(t: string)
    requires TrimLeft(t, Whitespace) == ""
    ensures Blank(t)
  {
    if |t| > 0 {
      assert t[0] in Whitespace;
      AllSpaceIsBlank(t[1..]);
    }
  }

  /** `embed_text`: a blank text, after truncation, gets a zero vector without a
      call; otherwise the stripped text is sent and a failure also gives zeros. */
  function EmbedText(p: Provider, text: string, truncate: string -> string, call: string -> Option<seq<real>>): (v: seq<real>)
    ensures Blank(truncate(text)) ==> v == Zeros(p.dimension)
    ensures !Blank(truncate(text)) ==> v == call(Strip(truncate(text))).GetOr(Zeros(p.dimension))
  {
    var t := truncate(text);
    BlankIffStripsEmpty(t);
    if t == "" || Strip(t) == "" then Zeros(p.dimension)
    else match call(Strip(t))
      case Some(v) => v
      case None => Zeros(p.dimension)
  }

  /** The number of non-blank texts. */
  function NonBlankCount(texts: seq<string>): (n: nat)
    ensures n <= |texts|
  {
    if |texts| == 0 then 0
    else (if Blank(texts[0]) then 0 else 1) + NonBlankCount(texts[1..])
  }

  /** Counting over a prefix, one text at a time from the front. */
  lemma PrefixCountStep(texts: seq<string>, i: nat)
    requires 0 < i <= |texts|
    ensures NonBlankCount(texts[..i]) == (if Blank(texts[0]) then 0 else 1) + NonBlankCount(texts[1..][..i - 1])
  {
    assert texts[..i][1..] == texts[1..][..i - 1];
  }

  /** The non-blank texts, in order. */
  function NonBlank(texts: seq<string>): (r: seq<string>)
    ensures |r| == NonBlankCount(texts)
    ensures forall j :: 0 <= j < |r| ==> !Blank(r[j])
  {
    if |texts| == 0 then []
    else if Blank(texts[0]) then NonBlank(texts[1..])
    else [texts[0]] + NonBlank(texts[1..])
  }

  /** Each non-blank text sits at the position that counts the non-blank texts
      before it. */
  lemma {:induction false} NonBlankAt(texts: seq<string>, i: nat)
    requires i < |texts| && !Blank(texts[i])
    ensures NonBlankCount(texts[..i]) < |NonBlank(texts)|
    ensures NonBlank(texts)[NonBlankCount(texts[..i])] == texts[i]
  {
    if i == 0 {
      assert texts[..0] == [];
    } else {
      NonBlankAt(texts[1..], i - 1);
      PrefixCountStep(texts, i);
    }
  }

  /** `[t.strip() for t in texts if t and t.strip()]`: the texts sent to the
      service. */
  function Filtered(texts: seq<string>): (r: seq<string>)
    ensures |r| == NonBlankCount(texts)
  {
    var kept := NonBlank(texts);
    seq(|kept|, j requires 0 <= j < |kept| => Strip(kept[j]))
  }

  /** Each non-blank text, stripped, is sent at the position that counts the
      non-blank texts before it, and nothing blank is sent. */
  lemma FilteredAt(texts: seq<string>, i: nat)
    requires i < |texts| && !Blank(texts[i])
    ensures NonBlankCount(texts[..i]) < |Filtered(texts)|
    ensures Filtered(texts)[NonBlankCount(texts[..i])] == Strip(texts[i])
    ensures !Blank(Strip(texts[i]))
  {
    NonBlankAt(texts, i);
    BlankIffStripsEmpty(texts[i]);
    BlankIffStripsEmpty(Strip(texts[i]));
    StripCharsIdempotent(texts[i], Whitespace);
  }

  /** `{d.index: d.embedding for d in response.data}`: a later item with the same
      index wins. */
  function IndexMap(data: seq<(int, seq<real>)>): (m: map<int, seq<real>>)
    ensures forall i :: 0 <= i < |data| ==> data[i].0 in m
    ensures forall k :: k in m ==> exists i :: 0 <= i < |data| && data[i] == (k, m[k])
  {
    if |data| == 0 then map[]
    else
      var m := IndexMap(data[..|data| - 1]);
      var last := data[|data| - 1];
      assert forall i :: 0 <= i < |data| - 1 ==> data[..|data| - 1][i] == data[i];
      m[last.0 := last.1]
  }

  /** `dict.get(k, zeros)`. */
  function Lookup(m: map<int, seq<real>>, k: int, dim: nat): (v: seq<real>)
    ensures k in m ==> v == m[k]
    ensures k !in m ==> v == Zeros(dim)
  {
    if k in m then m[k] else Zeros(dim)
  }

  /** The re-alignment loop: blank texts get zeros, the others take response
      indices `k`, `k + 1`, … in order. */
  function Realign(texts: seq<string>, m: map<int, seq<real>>, dim: nat, k: nat): (r: seq<seq<real>>)
    ensures |r| == |texts|
  {
    if |texts| == 0 then []
    else
      var head := if Blank(texts[0]) then Zeros(dim) else Lookup(m, k, dim);
      [head] + Realign(texts[1..], m, dim, if Blank(texts[0]) then k else k + 1)
  }

  /** Blank texts get zeros; the others take the response index `k` plus the
      number of non-blank texts before them. */
  lemma {:induction false} RealignAt(texts: seq<string>, m: map<int, seq<real>>, dim: nat, k: nat, i: nat)
    requires i < |texts|
    ensures Blank(texts[i]) ==> Realign(texts, m, dim, k)[i] == Zeros(dim)
    ensures !Blank(texts[i]) ==> Realign(texts, m, dim, k)[i] == Lookup(m, k + NonBlankCount(texts[..i]), dim)
  {
    if i == 0 {
      assert texts[..0] == [];
    } else {
      RealignAt(texts[1..], m, dim, if Blank(texts[0]) then k else k + 1, i - 1);
      PrefixCountStep(texts, i);
    }
  }

  /** One zero vector per text. */
  function AllZeros(count: nat, dim: nat): (r: seq<seq<real>>)
    ensures |r| == count && forall i :: 0 <= i < count ==> r[i] == Zeros(dim)
  {
    seq(count, _ => Zeros(dim))
  }

  /** The texts after truncation. */
  function Truncated(texts: seq<string>, truncate: string -> string): (r: seq<string>)
    ensures |r| == |texts| && forall i :: 0 <= i < |texts| ==> r[i] == truncate(texts[i])
  {
    seq(|texts|, i requires 0 <= i < |texts| => truncate(texts[i]))
  }

  /** `embed_batch` as written. The texts sent are the truncated ones, but the
      loop that hands out response indices tests the original texts: a text that
      is not blank but truncates to blank takes the index of the next text sent. */
  function EmbedBatchAsWritten(p: Provider, texts: seq<string>, truncate: string -> string,
                               call: seq<string> -> Response): (r: seq<seq<real>>)
    ensures |r| == |texts|
  {
    var filtered := Filtered(Truncated(texts, truncate));
    if |filtered| == 0 then AllZeros(|texts|, p.dimension)
    else match call(filtered)
      case Failure => AllZeros(|texts|, p.dimension)
      case Items(data) => Realign(texts, IndexMap(data), p.dimension, 0)
  }

  /** The vector a response gives for the text sent at position `k`: zeros when
      the call failed or the response has no item with that index. */
  function ResponseVector(resp: Response, k: nat, dim: nat): seq<real> {
    match resp
    case Failure => Zeros(dim)
    case Items(data) => Lookup(IndexMap(data), k, dim)
  }

  /** The batch round trip on texts already truncated: the non-blank ones are
      stripped and sent in one call, and the answers are handed back in order. */
  function Respond(texts: seq<string>, call: seq<string> -> Response, dim: nat): (r: seq<seq<real>>)
    ensures |r| == |texts|
    ensures Filtered(texts) == [] ==> r == AllZeros(|texts|, dim)
    ensures call(Filtered(texts)).Failure? ==> r == AllZeros(|texts|, dim)
  {
    var filtered := Filtered(texts);
    if |filtered| == 0 then AllZeros(|texts|, dim)
    else match call(filtered)
      case Failure => AllZeros(|texts|, dim)
      case Items(data) => Realign(texts, IndexMap(data), dim, 0)
  }

  /** Each text gets the vector returned under the position at which it was
      sent, and a blank text gets zeros. */
  lemma RespondAt(texts: seq<string>, call: seq<string> -> Response, dim: nat, i: nat)
    requires i < |texts|
    ensures Blank(texts[i]) ==> Respond(texts, call, dim)[i] == Zeros(dim)
    ensures !Blank(texts[i]) ==>
              Respond(texts, call, dim)[i] == ResponseVector(call(Filtered(texts)), NonBlankCount(texts[..i]), dim)
  {
    var filtered := Filtered(texts);
    if !Blank(texts[i]) {
      NonBlankAt(texts, i);
    }
    if |filtered| > 0 && call(filtered).Items? {
      RealignAt(texts, IndexMap(call(filtered).data), dim, 0, i);
    }
  }

  /** `embed_batch` with the re-alignment over the texts that were actually
      sent: the truncated texts go through `Respond`. */
  function EmbedBatch(p: Provider, texts: seq<string>, truncate: string -> string,
                      call: seq<string> -> Response): (r: seq<seq<real>>)
    ensures |r| == |texts|
    ensures Filtered(Truncated(texts, truncate)) == [] ==> r == AllZeros(|texts|, p.dimension)
    ensures call(Filtered(Truncated(texts, truncate))).Failure? ==> r == AllZeros(|texts|, p.dimension)
  {
    Respond(Truncated(texts, truncate), call, p.dimension)
  }

  /** Each text's vector is the one the service returned under the position at
      which that very text was sent (`FilteredAt` says which text that is); a text
      blank after truncation gets zeros, and so does one the service left out or
      a failed call. */
  lemma EmbedBatchAligned(p: Provider, texts: seq<string>, truncate: string -> string,
                          call: seq<string> -> Response, i: nat)
    requires i < |texts|
    ensures var t := Truncated(texts, truncate);
            var r := EmbedBatch(p, texts, truncate, call);
            && (Blank(t[i]) ==> r[i] == Zeros(p.dimension))
            && (!Blank(t[i]) ==> r[i] == ResponseVector(call(Filtered(t)), NonBlankCount(t[..i]), p.dimension))
  {
    RespondAt(Truncated(texts, truncate), call, p.dimension, i);
  }

  /** With every text blank the service is not called: the result is the same
      whatever the call would answer. */
  lemma AllBlankNeedsNoCall(p: Provider, texts: seq<string>, truncate: string -> string,
                            call1: seq<string> -> Response, call2: seq<string> -> Response)
    requires forall i :: 0 <= i < |texts| ==> Blank(truncate(texts[i]))
    ensures EmbedBatch(p, texts, truncate, call1) == EmbedBatch(p, texts, truncate, call2)
    ensures EmbedBatch(p, texts, truncate, call1) == AllZeros(|texts|, p.dimension)
  {
    var truncated := Truncated(texts, truncate);
    AllBlankFilteredEmpty(truncated);
  }

  lemma {:induction false} AllBlankFilteredEmpty(texts: seq<string>)
    requires forall i :: 0 <= i < |texts| ==> Blank(texts[i])
    ensures Filtered(texts) == []
  {
    if |texts| > 0 {
      AllBlankFilteredEmpty(texts[1..]);
    }
  }

  /** Where truncation changes no text's blankness, the source's re-alignment
      and the corrected one agree. */
  lemma AsWrittenAgreesWhenTruncationKeepsBlankness(p: Provider, texts: seq<string>,
                                                    truncate: string -> string, call: seq<string> -> Response)
    requires forall i :: 0 <= i < |texts| ==> (Blank(truncate(texts[i])) <==> Blank(texts[i]))
    ensures EmbedBatchAsWritten(p, texts, truncate, call) == EmbedBatch(p, texts, truncate, call)
  {
    var truncated := Truncated(texts, truncate);
    var filtered := Filtered(truncated);
    if |filtered| > 0 && call(filtered).Items? {
      var m := IndexMap(call(filtered).data);
      var a := EmbedBatchAsWritten(p, texts, truncate, call);
      var b := Respond(truncated, call, p.dimension);
      assert a == Realign(texts, m, p.dimension, 0);
      forall i | 0 <= i < |texts|
        ensures a[i] == b[i]
      {
        SameBlanknessSameCount(texts, truncated, i);
        RealignAt(texts, m, p.dimension, 0, i);
        RespondAt(truncated, call, p.dimension, i);
      }
    }
  }

  lemma {:induction false} SameBlanknessSameCount(a: seq<string>, b: seq<string>, i: nat)
    requires |a| == |b| && i <= |a|
    requires forall j :: 0 <= j < |a| ==> (Blank(a[j]) <==> Blank(b[j]))
    ensures NonBlankCount(a[..i]) == NonBlankCount(b[..i])
  {
    if i > 0 {
      SameBlanknessSameCount(a[1..], b[1..], i - 1);
      PrefixCountStep(a, i);
      PrefixCountStep(b, i);
    }
  }

  /** A truncation that leaves only whitespace of a text that was not blank, as
      cutting a long run of leading whitespace to the token limit does. */
  function WhitespaceHead(t: string): string {
    if t == " x" then " " else t
  }

  /** Two texts, the first of which truncates to blank: as written, the first is
      given the vector the service returned for the second, and the second gets
      zeros; the corrected version gives the first zeros and the second its own
      vector. */
  lemma AsWrittenMisaligns(p: Provider, v: seq<real>)
    ensures var call := (sent: seq<string>) => Items([(0, v)]);
            var r := EmbedBatchAsWritten(p, [" x", "y"], WhitespaceHead, call);
            && r[0] == v && r[1] == Zeros(p.dimension)
            && EmbedBatch(p, [" x", "y"], WhitespaceHead, call) == [Zeros(p.dimension), v]
  {
    var texts := [" x", "y"];
    var call := (sent: seq<string>) => Items([(0, v)]);
    assert !Blank("x") && !Blank("y");
    var truncated := Truncated(texts, WhitespaceHead);
    assert truncated == [" ", "y"];
    assert Filtered(truncated[1..]) == Filtered(["y"]);
    var m := IndexMap([(0, v)]);
    assert m == map[0 := v];
    assert texts[..1] == [" x"] && [" x"][1..] == [];
    assert truncated[..1] == [" "] && [" "][1..] == [];
    RealignAt(texts, m, p.dimension, 0, 0);
    RealignAt(texts, m, p.dimension, 0, 1);
    RealignAt(truncated, m, p.dimension, 0, 0);
    RealignAt(truncated, m, p.dimension, 0, 1);
    assert |Filtered(truncated)| == 1;
  }
}
