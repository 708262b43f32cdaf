/** `RigAIService`, the provider adapter: the live configuration, the
    clean-up of the model's JSON answer, and how provider outcomes become
    `AppError`s. The provider itself (network calls through `rig`) is
    represented by the raw outcomes its calls return. */
module RigClient {
  import opened Wrappers
  import opened Errors
  import opened Models
  import opened Text

  const DefaultBaseUrl: string := "https://api.openai.com/v1"

  /** `config.base_url.as_deref().unwrap_or(DEFAULT)`. */
  function BaseUrl(c: AIConfig): (url: string)
    ensures c.baseUrl.None? ==> url == DefaultBaseUrl
    ensures c.baseUrl.Some? ==> url == c.baseUrl.value
  {
    if c.baseUrl.Some? then c.baseUrl.value else DefaultBaseUrl
  }

  predicate StartsWith(s: string, p: string)
  {
    |p| <= |s| && s[..|p|] == p
  }

  predicate EndsWith(s: string, p: string)
  {
    |p| <= |s| && s[|s| - |p|..] == p
  }

  /** `t` sits in `s` from position `lo` on. */
  predicate At(t: string, s: string, lo: int)
  {
    0 <= lo <= |s| - |t| && s[lo..lo + |t|] == t
  }

  /** `t` occurs in `s` as one contiguous piece. */
  ghost predicate Infix(t: string, s: string)
  {
    exists lo :: At(t, s, lo)
  }

  /** How many characters `str::trim_start_matches(p)` removes: whole
      copies of `p`, as many as there are at the front. */
  function LeadingMatches(s: string, p: string): (k: nat)
    requires |p| > 0
    ensures k <= |s|
    decreases |s|
  {
    if StartsWith(s, p) then |p| + LeadingMatches(s[|p|..], p) else 0
  }

  /** How many characters `str::trim_end_matches(p)` removes. */
  function TrailingMatches(s: string, p: string): (k: nat)
    requires |p| > 0
    ensures k <= |s|
    decreases |s|
  {
    if EndsWith(s, p) then |p| + TrailingMatches(s[..|s| - |p|], p) else 0
  }

  /** `str::trim_start_matches(p)`. */
  function TrimStartMatches(s: string, p: string): string
    requires |p| > 0
  {
    s[LeadingMatches(s, p)..]
  }

  /** `str::trim_end_matches(p)`. */
  function TrimEndMatches(s: string, p: string): string
    requires |p| > 0
  {
    s[..|s| - TrailingMatches(s, p)]
  }

  /** No copy of `p` is left at the front. */
  lemma {:induction false} TrimStartMatchesStops(s: string, p: string)
    requires |p| > 0
    ensures !StartsWith(TrimStartMatches(s, p), p)
    decreases |s|
  {
    if StartsWith(s, p) {
      TrimStartMatchesStops(s[|p|..], p);
      assert s[|p|..][LeadingMatches(s[|p|..], p)..] == s[LeadingMatches(s, p)..];
    }
  }

  /** No copy of `p` is left at the end. */
  lemma {:induction false} TrimEndMatchesStops(s: string, p: string)
    requires |p| > 0
    ensures !EndsWith(TrimEndMatches(s, p), p)
    decreases |s|
  {
    if EndsWith(s, p) {
      var s' := s[..|s| - |p|];
      TrimEndMatchesStops(s', p);
      assert s'[..|s'| - TrailingMatches(s', p)] == s[..|s| - TrailingMatches(s, p)];
    }
  }

  const Fence: string := "```"
  const JsonFence: string := "```json"

  /** `clean_json_response`: trim, strip leading "```json" fences, then
      leading "```" fences, then trailing "```" fences. */
  function CleanJsonResponse(raw: string): string
  {
    TrimEndMatches(TrimStartMatches(TrimStartMatches(Trim(raw), JsonFence), Fence), Fence)
  }

  /** Stripping a trailing pattern keeps a front that was free of it. */
  lemma TrimEndKeepsFront(b: string, p: string)
    requires |p| > 0 && !StartsWith(b, p)
    ensures !StartsWith(TrimEndMatches(b, p), p)
  {
    var c := TrimEndMatches(b, p);
    if |p| <= |c| {
      assert c[..|p|] == b[..|p|];
    }
  }

  /** A leading copy of `p` is stripped. */
  lemma TrimStartOfPrefixed(p: string, s: string)
    requires |p| > 0
    ensures TrimStartMatches(p + s, p) == TrimStartMatches(s, p)
  {
    assert (p + s)[..|p|] == p;
    assert (p + s)[|p|..] == s;
  }

  /** A trailing copy of `p` is stripped. */
  lemma TrimEndOfSuffixed(s: string, p: string)
    requires |p| > 0
    ensures TrimEndMatches(s + p, p) == TrimEndMatches(s, p)
  {
    assert (s + p)[|s + p| - |p|..] == p;
    assert (s + p)[..|s + p| - |p|] == s;
  }

  /** Nothing is stripped from a text whose first character differs from
      the pattern's. */
  lemma TrimStartMismatch(s: string, p: string)
    requires |p| > 0 && |s| > 0 && s[0] != p[0]
    ensures TrimStartMatches(s, p) == s
  {
  }

  /** Nothing is stripped from a text whose last character differs from
      the pattern's. */
  lemma TrimEndMismatch(s: string, p: string)
    requires |p| > 0 && |s| > 0 && s[|s| - 1] != p[|p| - 1]
    ensures TrimEndMatches(s, p) == s
  {
  }

  /** A text that does not start with `p` does not start with any
      extension `q` of it either. */
  lemma NotStartsWithLonger(s: string, p: string, q: string)
    requires StartsWith(q, p) && !StartsWith(s, p)
    ensures !StartsWith(s, q)
  {
  }

  /** The cleaned answer neither starts nor ends with a fence. */
  lemma CleanJsonNoFences(raw: string)
    ensures var r := CleanJsonResponse(raw);
            !StartsWith(r, Fence) && !EndsWith(r, Fence)
  {
    var a := TrimStartMatches(Trim(raw), JsonFence);
    var b := TrimStartMatches(a, Fence);
    TrimStartMatchesStops(a, Fence);
    TrimEndKeepsFront(b, Fence);
    TrimEndMatchesStops(b, Fence);
  }

  /** The three strips together cut a prefix and a suffix of `t`. */
  lemma StripsAreInfix(t: string, p: string, q: string)
    requires |p| > 0 && |q| > 0
    ensures var b := TrimStartMatches(TrimStartMatches(t, p), q);
            At(TrimEndMatches(b, q), t, |t| - |b|)
  {
    var a := TrimStartMatches(t, p);
    var b := TrimStartMatches(a, q);
    var c := TrimEndMatches(b, q);
    var lo := LeadingMatches(t, p) + LeadingMatches(a, q);
    assert b == t[lo..];
    assert c == t[lo..lo + |c|];
  }

  /** The cleaned answer is one contiguous piece of the trimmed answer:
      nothing but the fences around it is removed. */
  lemma CleanJsonIsInfix(raw: string)
    ensures Infix(CleanJsonResponse(raw), Trim(raw))
  {
    var t := Trim(raw);
    StripsAreInfix(t, JsonFence, Fence);
    var b := TrimStartMatches(TrimStartMatches(t, JsonFence), Fence);
    var c := TrimEndMatches(b, Fence);
    assert c == CleanJsonResponse(raw);
    assert At(c, t, |t| - |b|);
  }

  /** An answer already free of surrounding whitespace and fences is kept
      exactly. */
  lemma CleanJsonUnchanged(raw: string)
    requires raw == Trim(raw) && !StartsWith(raw, Fence) && !EndsWith(raw, Fence)
    ensures CleanJsonResponse(raw) == raw
  {
    assert JsonFence[..|Fence|] == Fence;
    NotStartsWithLonger(raw, Fence, JsonFence);
  }

  /** A fenced JSON answer loses exactly its fences: whitespace just inside
      them is kept. */
  lemma CleanJsonFenced(body: string)
    requires |body| > 0 && body[0] != '`' && body[|body| - 1] != '`'
    ensures CleanJsonResponse(JsonFence + body + Fence) == body
  {
    var inner := body + Fence;
    var raw := JsonFence + inner;
    assert JsonFence + body + Fence == raw;
    assert raw[0] == '`' && raw[|raw| - 1] == '`';
    TrimOfTrimmed(raw);
    assert Trim(raw) == raw;
    TrimStartOfPrefixed(JsonFence, inner);
    assert inner[0] == body[0];
    TrimStartMismatch(inner, JsonFence);
    assert TrimStartMatches(raw, JsonFence) == inner;
    TrimStartMismatch(inner, Fence);
    TrimEndOfSuffixed(body, Fence);
    TrimEndMismatch(body, Fence);
    assert TrimEndMatches(inner, Fence) == body;
  }

  /** `s` is zero or more whole copies of `p`, back to back. */
  predicate Reps(s: string, p: string)
    requires |p| > 0
    decreases |s|
  {
    s == [] || (StartsWith(s, p) && Reps(s[|p|..], p))
  }

  /** What `trim_start_matches(p)` removes is whole copies of `p`. */
  lemma {:induction false} LeadingIsReps(s: string, p: string)
    requires |p| > 0
    ensures Reps(s[..LeadingMatches(s, p)], p)
    decreases |s|
  {
    if StartsWith(s, p) {
      var rest := s[|p|..];
      LeadingIsReps(rest, p);
      var cut := s[..LeadingMatches(s, p)];
      assert cut[..|p|] == p;
      assert cut[|p|..] == rest[..LeadingMatches(rest, p)];
    } else {
      assert s[..LeadingMatches(s, p)] == [];
    }
  }

  /** Appending one more copy of `p` keeps a run of copies. */
  lemma {:induction false} RepsAppend(a: string, p: string)
    requires |p| > 0 && Reps(a, p)
    ensures Reps(a + p, p)
    decreases |a|
  {
    if a == [] {
      assert a + p == p;
      assert p[..|p|] == p && p[|p|..] == [];
    } else {
      RepsAppend(a[|p|..], p);
      assert (a + p)[..|p|] == a[..|p|];
      assert (a + p)[|p|..] == a[|p|..] + p;
    }
  }

  /** What `trim_end_matches(p)` removes is whole copies of `p`. */
  lemma {:induction false} TrailingIsReps(s: string, p: string)
    requires |p| > 0
    ensures Reps(s[|s| - TrailingMatches(s, p)..], p)
    decreases |s|
  {
    if EndsWith(s, p) {
      var front := s[..|s| - |p|];
      TrailingIsReps(front, p);
      var tail := front[|front| - TrailingMatches(front, p)..];
      RepsAppend(tail, p);
      assert s[|s| - TrailingMatches(s, p)..] == tail + p;
    } else {
      assert s[|s| - TrailingMatches(s, p)..] == [];
    }
  }

  /** `trim_start_matches(p)` splits `s` into whole copies of `p` and the rest. */
  lemma StripFront(s: string, p: string) returns (cut: string, rest: string)
    requires |p| > 0
    ensures Reps(cut, p) && rest == TrimStartMatches(s, p) && s == cut + rest
  {
    var i := LeadingMatches(s, p);
    cut, rest := s[..i], s[i..];
    LeadingIsReps(s, p);
    SplitAt(s, i);
  }

  /** `trim_end_matches(p)` splits `s` into the rest and whole copies of `p`. */
  lemma StripBack(s: string, p: string) returns (rest: string, cut: string)
    requires |p| > 0
    ensures Reps(cut, p) && rest == TrimEndMatches(s, p) && s == rest + cut
  {
    var i := |s| - TrailingMatches(s, p);
    rest, cut := s[..i], s[i..];
    TrailingIsReps(s, p);
    SplitAt(s, i);
  }

  lemma SplitAt(s: string, i: nat)
    requires i <= |s|
    ensures s == s[..i] + s[i..]
  {
  }

  /** The pieces `clean_json_response` cuts from the trimmed answer `t`,
      with the patterns as parameters `p` (first strip) and `q` (second
      strip, then the trailing one): the leading `p` copies, then the
      leading `q` copies, around the kept text, and the trailing `q` copies. */
  lemma StripPieces(t: string, p: string, q: string) returns (a: string, b: string, c: string)
    requires |p| > 0 && |q| > 0
    ensures Reps(a, p) && Reps(b, q) && Reps(c, q)
    ensures t == a + b + TrimEndMatches(TrimStartMatches(TrimStartMatches(t, p), q), q) + c
  {
    var t1, t2, kept;
    a, t1 := StripFront(t, p);
    b, t2 := StripFront(t1, q);
    kept, c := StripBack(t2, q);
    calc {
      t;
      a + (b + (kept + c));
      { AppendAssoc(a, b, kept + c); }
      (a + b) + (kept + c);
      { AppendAssoc(a + b, kept, c); }
      a + b + kept + c;
    }
  }

  /** Around the cleaned answer, the trimmed answer holds only fence
      markers: whole "```json" copies and whole "```" copies in front,
      whole "```" copies behind. */
  lemma CleanJsonCutsFences(raw: string)
    ensures exists a, b, c :: Reps(a, JsonFence) && Reps(b, Fence) && Reps(c, Fence)
                              && Trim(raw) == a + b + CleanJsonResponse(raw) + c
  {
    var t := Trim(raw);
    var a, b, c := StripPieces(t, JsonFence, Fence);
    var kept := CleanJsonResponse(raw);
    assert kept == TrimEndMatches(TrimStartMatches(TrimStartMatches(t, JsonFence), Fence), Fence);
    assert Reps(a, JsonFence) && Reps(b, Fence) && Reps(c, Fence) && t == a + b + kept + c;
  }

  /** One embedded document: the vectors the provider returned for it. */
  datatype EmbeddedDocument = EmbeddedDocument(embeddings: seq<Embedding>)

  /** The error mapping of `generate_embedding` over the provider's raw
      outcome: a failed build is an AIError, as is an empty answer or a
      document with no vectors; otherwise the first vector of the first
      document is the embedding. */
  function GenerateEmbedding(built: Result<seq<EmbeddedDocument>, string>): (r: Result<Embedding, AppError>)
    ensures r.Ok? <==> built.Ok? && |built.value| > 0 && |built.value[0].embeddings| > 0
    ensures r.Ok? ==> r.value == built.value[0].embeddings[0]
    ensures r.Err? ==> r.error.AIError?
    ensures built.Ok? && |built.value| == 0 ==> r == Err(AIError("No embedding returned from provider"))
    ensures built.Ok? && |built.value| > 0 && |built.value[0].embeddings| == 0
            ==> r == Err(AIError("Document generated no embeddings"))
  {
    match built
    case Err(e) => Err(AIError("Embedding failed: " + e))
    case Ok(docs) =>
      if |docs| == 0 then Err(AIError("No embedding returned from provider"))
      else if |docs[0].embeddings| == 0 then Err(AIError("Document generated no embeddings"))
      else Ok(docs[0].embeddings[0])
  }

  /** The error mapping of `extract_knowledge`: the model's answer is cleaned
      and handed to the JSON parser `parse`; a failed prompt is an AIError, a
      failed parse a ParseError. */
  function ExtractKnowledge(answer: Result<string, string>, parse: string -> Result<KnowledgeExtraction, string>)
    : (r: Result<KnowledgeExtraction, AppError>)
    ensures answer.Err? ==> r == Err(AIError("Extraction failed: " + answer.error))
    ensures answer.Ok? ==> var cleaned := CleanJsonResponse(answer.value);
            match parse(cleaned)
            case Ok(x) => r == Ok(x)
            case Err(e) => r.Err? && r.error.ParseError?
    ensures r.Err? ==> r.error.AIError? || r.error.ParseError?
  {
    match answer
    case Err(e) => Err(AIError("Extraction failed: " + e))
    case Ok(response) =>
      var cleaned := CleanJsonResponse(response);
      match parse(cleaned)
      case Ok(x) => Ok(x)
      case Err(e) => Err(ParseError("Failed to parse JSON from LLM: " + e + " - Raw: " + cleaned))
  }

  /** The provider adapter and its live configuration. */
  class RigAIService {
    var config: AIConfig

    constructor (c: AIConfig)
      ensures config == c
    {
      config := c;
    }

    function GetConfig(): AIConfig
      reads this
    {
      config
    }

    /** `update_config`: replaces the configuration; never fails. */
    method UpdateConfig(c: AIConfig) returns (r: Result<(), AppError>)
      modifies this
      ensures config == c && r == Ok(())
    {
      config := c;
      r := Ok(());
    }
  }
}
