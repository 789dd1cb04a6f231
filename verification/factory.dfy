/** `get_embedding_provider`: picks the embedding service named by
    `EMBEDDING_PROVIDER`, reads its key (and, for a generic service, its base
    URL) from the environment, and builds the OpenAI-compatible provider. */
module Factory {

  import opened Wrappers
  import opened Text
  import OpenAiCompatible

  /** The process environment. */
  type Env = map<string, string>

  /** `os.environ.get(k, default)`: a variable that is set, even to `""`, wins. */
  function GetOr(env: Env, k: string, default: string): string {
    if k in env then env[k] else default
  }

  /** `os.environ.get(k)`. */
  function Get(env: Env, k: string): Option<string> {
    if k in env then Some(env[k]) else None
  }

  const DefaultModel := "text-embedding-3-small"

  /** The lower-cased provider name, `openai` when the variable is not set. */
  function ProviderName(env: Env): string {
    Lower(GetOr(env, "EMBEDDING_PROVIDER", "openai"))
  }

  /** The services with a built-in endpoint. */
  predicate Known(name: string) {
    name == "openai" || name == "google" || name == "deepinfra"
  }

  /** The variable that holds the key for a provider name. */
  function KeyVariable(name: string): (v: string)
    ensures v != ""
  {
    if name == "openai" then "OPENAI_API_KEY"
    else if name == "google" then "GEMINI_API_KEY"
    else if name == "deepinfra" then "DEEPINFRA_API_KEY"
    else "EMBEDDING_API_KEY"
  }

  /** The endpoint of a provider name: fixed for the known services, taken from
      `EMBEDDING_API_BASE_URL` for any other. */
  function BaseUrl(name: string, env: Env): (u: Option<string>)
    ensures Known(name) ==> u.Some? && u.value != ""
    ensures !Known(name) ==> u == Get(env, "EMBEDDING_API_BASE_URL")
  {
    if name == "openai" then Some("https://api.openai.com/v1")
    else if name == "google" then Some("https://generativelanguage.googleapis.com/v1beta/openai/")
    else if name == "deepinfra" then Some("https://api.deepinfra.com/v1/openai")
    else Get(env, "EMBEDDING_API_BASE_URL")
  }

  /** A variable is set to something non-empty. */
  predicate Present(x: Option<string>) {
    x.Some? && x.value != ""
  }

  function MissingKeyMessage(keyVar: string): string {
    "Required environment variable " + keyVar + " is not set."
  }

  const MissingUrlMessage := "EMBEDDING_API_BASE_URL must be set for generic providers."

  /** `get_embedding_provider`: the key is checked before the endpoint, and the
      model is `EMBEDDING_MODEL` as set (even if empty), else the small OpenAI
      model. */
  function GetEmbeddingProvider(env: Env): (r: Result<OpenAiCompatible.Provider, string>)
    ensures var name := ProviderName(env);
            var keyVar := KeyVariable(name);
            && (r.Ok? <==> Present(Get(env, keyVar)) && Present(BaseUrl(name, env)))
            && (!Present(Get(env, keyVar)) ==> r == Err(MissingKeyMessage(keyVar)))
            && (Present(Get(env, keyVar)) && !Present(BaseUrl(name, env)) ==> r == Err(MissingUrlMessage))
            && (r.Ok? ==>
                  && r.value.apiKey == env[keyVar] && r.value.apiKeyName == keyVar
                  && r.value.baseUrl == BaseUrl(name, env).value
                  && r.value.model == GetOr(env, "EMBEDDING_MODEL", DefaultModel)
                  && r.value.dimension == OpenAiCompatible.InferDimension(r.value.model))
  {
    var name := ProviderName(env);
    var model := GetOr(env, "EMBEDDING_MODEL", DefaultModel);
    var keyVar := KeyVariable(name);
    var apiKey := Get(env, keyVar);
    var baseUrl := BaseUrl(name, env);
    if !Present(apiKey) then Err(MissingKeyMessage(keyVar))
    else if !Present(baseUrl) then Err(MissingUrlMessage)
    else Ok(OpenAiCompatible.NewProvider(apiKey.value, baseUrl.value, model, keyVar))
  }

  /** A known service fails only for want of its key. */
  lemma KnownNeedsOnlyKey(env: Env)
    requires Known(ProviderName(env))
    ensures GetEmbeddingProvider(env).Ok? <==> Present(Get(env, KeyVariable(ProviderName(env))))
  {
  }

  /** The provider name is read case-insensitively: setting it in any case
      selects the same service with the same settings. */
  lemma ProviderNameIgnoresCase(env: Env, v: string)
    ensures GetEmbeddingProvider(env["EMBEDDING_PROVIDER" := v])
            == GetEmbeddingProvider(env["EMBEDDING_PROVIDER" := Lower(v)])
  {
    var e1 := env["EMBEDDING_PROVIDER" := v];
    var e2 := env["EMBEDDING_PROVIDER" := Lower(v)];
    var name := Lower(v);
    assert ProviderName(e1) == name && ProviderName(e2) == name by {
      LowerIdempotent(v);
    }
    var keyVar := KeyVariable(name);
    assert |keyVar| != |"EMBEDDING_PROVIDER"|;
    assert Get(e1, keyVar) == Get(e2, keyVar);
    assert Get(e1, "EMBEDDING_API_BASE_URL") == Get(e2, "EMBEDDING_API_BASE_URL");
    assert GetOr(e1, "EMBEDDING_MODEL", DefaultModel) == GetOr(e2, "EMBEDDING_MODEL", DefaultModel);
  }

  /** Any name outside the three known services selects the generic one, which
      also needs `EMBEDDING_API_BASE_URL`: with the key but without a non-empty
      endpoint it fails naming that variable. */
  lemma GenericNeedsBaseUrl(env: Env)
    requires !Known(ProviderName(env))
    requires Present(Get(env, "EMBEDDING_API_KEY")) && !Present(Get(env, "EMBEDDING_API_BASE_URL"))
    ensures GetEmbeddingProvider(env) == Err(MissingUrlMessage)
  {
  }

  /** With `EMBEDDING_PROVIDER` unset, OpenAI is used. */
  lemma OpenAiByDefault(env: Env)
    requires "EMBEDDING_PROVIDER" !in env
    ensures ProviderName(env) == "openai"
  {
    LowerOfLower("openai");
  }
}
