/** The domain records of `domain::models`, their validation constraints, and
    the JSON shape in which an `AIConfig` crosses the HTTP boundary (serde:
    the API key is never written out and defaults to "" when absent). */
module Models {
  import opened Wrappers

  /** Rust `usize` on a 64-bit target. */
  type usize = x: int | 0 <= x < 0x1_0000_0000_0000_0000

  datatype AIProvider = OpenAI | Ollama | Groq

  datatype AIConfig = AIConfig(
    provider: AIProvider,
    modelName: string,
    embeddingModel: string,
    apiKey: string,
    embeddingDim: usize,
    baseUrl: Option<string>)

  /** An embedding vector; the provider's `f64` to `f32` narrowing is not
      modelled. */
  type Embedding = seq<real>

  datatype GraphEntity = GraphEntity(name: string, category: string)
  datatype GraphRelation = GraphRelation(source: string, target: string, relationType: string)
  datatype KnowledgeExtraction = KnowledgeExtraction(entities: seq<GraphEntity>, relations: seq<GraphRelation>)

  /** A JSON value, as far as these records need one. */
  datatype Json = JNull | JBool(b: bool) | JNum(n: int) | JStr(s: string) | JArr(items: seq<Json>) | JObj(fields: seq<(string, Json)>)

  datatype IngestionRequest = IngestionRequest(content: string, metadata: Json)

  datatype HybridContext = HybridContext(chunkId: string, content: string, connectedEntities: seq<string>)

  /** A citation shown to the user. `rank` is the 0-based position the
      placeholder relevance `1.0 - rank * 0.1` is computed from; the
      floating-point value itself is not modelled. */
  datatype SourceReference = SourceReference(
    index: nat, chunkId: string, shortContent: string, rank: nat, concepts: seq<string>)

  datatype ChatResponse = ChatResponse(response: string, sources: seq<SourceReference>)

  /** `default_api_key()`. */
  const DefaultApiKey: string := ""

  /** `#[validate]` on `AIConfig`: both model names non-empty (the validator
      counts characters) and a present base URL accepted by the URL
      validator, which is given as `isUrl`. */
  predicate ValidAIConfig(c: AIConfig, isUrl: string -> bool)
  {
    |c.modelName| >= 1 && |c.embeddingModel| >= 1 && (c.baseUrl.Some? ==> isUrl(c.baseUrl.value))
  }

  /** `#[validate(length(min = 10))]` on `IngestionRequest::content`. */
  predicate ValidIngestionRequest(r: IngestionRequest)
  {
    |r.content| >= 10
  }

  // ---------------------------------------------------------------------
  // serde for AIConfig

  function ProviderName(p: AIProvider): string
  {
    match p
    case OpenAI => "OpenAI"
    case Ollama => "Ollama"
    case Groq => "Groq"
  }

  /** Unit variants deserialise from their names only: the provider set is
      closed. */
  function ProviderFromName(s: string): (r: Option<AIProvider>)
    ensures r.Some? <==> s in {"OpenAI", "Ollama", "Groq"}
    ensures r.Some? ==> ProviderName(r.value) == s
  {
    if s == "OpenAI" then Some(OpenAI)
    else if s == "Ollama" then Some(Ollama)
    else if s == "Groq" then Some(Groq)
    else None
  }

  /** `#[derive(Serialize)]` with `#[serde(skip_serializing)]` on the key. */
  function SerializeConfig(c: AIConfig): (j: Json)
    ensures j.JObj? && forall i :: 0 <= i < |j.fields| ==> j.fields[i].0 != "api_key"
  {
    JObj([
      ("provider", JStr(ProviderName(c.provider))),
      ("model_name", JStr(c.modelName)),
      ("embedding_model", JStr(c.embeddingModel)),
      ("embedding_dim", JNum(c.embeddingDim)),
      ("base_url", if c.baseUrl.Some? then JStr(c.baseUrl.value) else JNull)])
  }

  datatype Lookup = Missing | Found(v: Json) | Duplicate

  /** Looking a key up in an object, as serde's derived visitor does: a key
      given twice is an error. */
  function Find(fields: seq<(string, Json)>, key: string): Lookup
  {
    if fields == [] then Missing
    else
      var rest := Find(fields[1..], key);
      if fields[0].0 != key then rest
      else if rest.Missing? then Found(fields[0].1)
      else Duplicate
  }

  /** `#[derive(Deserialize)]`: unknown keys are ignored, `api_key` defaults
      to `DefaultApiKey`, `base_url` absent or `null` is `None`. */
  function DeserializeConfig(j: Json): Option<AIConfig>
  {
    if !j.JObj? then None
    else
      var f := j.fields;
      match (Find(f, "provider"), Find(f, "model_name"), Find(f, "embedding_model"),
             Find(f, "api_key"), Find(f, "embedding_dim"), Find(f, "base_url"))
      case (Found(JStr(p)), Found(JStr(m)), Found(JStr(e)), key, Found(JNum(d)), url) =>
        var provider := ProviderFromName(p);
        var apiKey :=
          match key
          case Missing => Some(DefaultApiKey)
          case Found(JStr(k)) => Some(k)
          case _ => None;
        var baseUrl :=
          match url
          case Missing => Some(None)
          case Found(JNull) => Some(None)
          case Found(JStr(u)) => Some(Some(u))
          case _ => None;
        if provider.None? || apiKey.None? || baseUrl.None? || !(0 <= d < 0x1_0000_0000_0000_0000) then None
        else Some(AIConfig(provider.value, m, e, apiKey.value, d, baseUrl.value))
      case _ => None
  }

  /** Reading back what was written gives the same configuration with the
      secret replaced by the default key: the key never leaves the process. */
  lemma ConfigRoundTrip(c: AIConfig)
    ensures DeserializeConfig(SerializeConfig(c)) == Some(c.(apiKey := DefaultApiKey))
  {
    var f := SerializeConfig(c).fields;
    assert Find(f, "api_key") == Missing by { FindAbsent(f, "api_key"); }
    assert Find(f, "provider") == Found(f[0].1) by { FindUnique(f, "provider", 0); }
    assert Find(f, "model_name") == Found(f[1].1) by { FindUnique(f, "model_name", 1); }
    assert Find(f, "embedding_model") == Found(f[2].1) by { FindUnique(f, "embedding_model", 2); }
    assert Find(f, "embedding_dim") == Found(f[3].1) by { FindUnique(f, "embedding_dim", 3); }
    assert Find(f, "base_url") == Found(f[4].1) by { FindUnique(f, "base_url", 4); }
  }

  lemma {:induction false} FindAbsent(fields: seq<(string, Json)>, key: string)
    requires forall j :: 0 <= j < |fields| ==> fields[j].0 != key
    ensures Find(fields, key) == Missing
  {
    if fields != [] {
      FindAbsent(fields[1..], key);
    }
  }

  /** A key given once is found with its value. */
  lemma {:induction false} FindUnique(fields: seq<(string, Json)>, key: string, i: nat)
    requires i < |fields| && fields[i].0 == key
    requires forall j :: 0 <= j < |fields| && j != i ==> fields[j].0 != key
    ensures Find(fields, key) == Found(fields[i].1)
  {
    if i == 0 {
      FindAbsent(fields[1..], key);
    } else {
      FindUnique(fields[1..], key, i - 1);
    }
  }

  /** Validity does not depend on the secret, so it survives the trip. */
  lemma ValidAfterRoundTrip(c: AIConfig, isUrl: string -> bool)
    requires ValidAIConfig(c, isUrl)
    ensures var d := DeserializeConfig(SerializeConfig(c));
            d.Some? && ValidAIConfig(d.value, isUrl)
  {
    ConfigRoundTrip(c);
  }
}
