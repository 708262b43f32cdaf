/** `chat_handler`: the question is embedded, the five most relevant
    contexts are retrieved, each becomes a numbered `FUENTE [i]` block of the
    prompt and a `SourceReference` of the answer, and the model's answer is
    returned verbatim together with those sources.

    The embedding call, the hybrid retrieval and the completion call are
    represented by a `ChatEnv` of raw outcomes. The instruction text of the
    system prompt is not modelled: a request carries the context block it
    embeds. */
module Chat {
  import opened Wrappers
  import opened Text
  import opened Utf8
  import opened Errors
  import opened Models
  import opened RigClient

  /** Number of contexts asked of the hybrid retrieval. */
  const TopK: nat := 5

  /** Bytes of cleaned content kept in a source preview. */
  const SnippetBytes: nat := 150

  // ---------------------------------------------------------------------
  // Cleaning and previews

  /** `content.replace("\n", " ").trim()`. */
  function CleanContent(content: string): string
  {
    Trim(ReplaceChar(content, '\n', ' '))
  }

  /** The cleaned content is a one-line piece of the content with every
      newline turned into a space: it holds no newline and neither starts
      nor ends with whitespace. */
  lemma CleanContentShape(content: string)
    ensures var clean := CleanContent(content);
            && NoNewline(clean)
            && (clean == [] || (!IsWhitespace(clean[0]) && !IsWhitespace(clean[|clean| - 1])))
            && At(clean, ReplaceChar(content, '\n', ' '), LeadingWhitespace(ReplaceChar(content, '\n', ' ')))
  {
    var s := ReplaceChar(content, '\n', ' ');
    TrimIsPiece(s);
    ReplacedHasNoNewline(content);
    PieceHasNoNewline(Trim(s), s, LeadingWhitespace(s));
  }

  /** What `trim` keeps, without what it cuts. */
  lemma TrimIsPiece(s: string)
    ensures At(Trim(s), s, LeadingWhitespace(s))
    ensures Trim(s) == [] || (!IsWhitespace(Trim(s)[0]) && !IsWhitespace(Trim(s)[|Trim(s)| - 1]))
  {
    TrimCutsWhitespace(s);
  }

  lemma ReplacedHasNoNewline(content: string)
    ensures NoNewline(ReplaceChar(content, '\n', ' '))
  {
  }

  /** A piece of a text without newlines has none either. */
  lemma PieceHasNoNewline(t: string, s: string, lo: int)
    requires At(t, s, lo) && NoNewline(s)
    ensures NoNewline(t)
  {
    forall i | 0 <= i < |t|
      ensures t[i] != '\n'
    {
      assert t[i] == s[lo + i];
    }
  }

  /** The number of characters of `s` whose bytes are exactly the first `b`
      bytes of `s`; `None` when byte `b` falls inside a character (or past
      the end), where `&s[..b]` panics. */
  function CharBoundary(s: string, b: nat): (k: Option<nat>)
    ensures k.Some? ==> k.value <= |s| && ByteLen(s[..k.value]) == b
  {
    if b == 0 then Some(0)
    else if s == [] || Width(s[0]) > b then None
    else
      match CharBoundary(s[1..], b - Width(s[0]))
      case None => None
      case Some(k) =>
        assert s[..k + 1] == [s[0]] + s[1..][..k];
        Some(k + 1)
  }

  /** `CharBoundary` finds a cut whenever there is one. */
  lemma {:induction false} CharBoundaryComplete(s: string, b: nat, k: nat)
    requires k <= |s| && ByteLen(s[..k]) == b
    ensures CharBoundary(s, b) == Some(k)
  {
    if k > 0 {
      assert s[..k] == [s[0]] + s[1..][..k - 1];
      assert ByteLen(s[..k]) == Width(s[0]) + ByteLen(s[1..][..k - 1]);
      CharBoundaryComplete(s[1..], b - Width(s[0]), k - 1);
    }
  }

  /** The characters `CharBoundary` keeps encode to exactly the first `b`
      bytes: they are the string `&s[..b]`. */
  lemma CharBoundaryBytes(s: string, b: nat)
    requires CharBoundary(s, b).Some?
    ensures b <= |Encode(s)| && Encode(s[..CharBoundary(s, b).value]) == Encode(s)[..b]
  {
    var k := CharBoundary(s, b).value;
    assert s == s[..k] + s[k..];
    EncodeAppend(s[..k], s[k..]);
  }

  /** The preview of a cleaned content: the whole text when it has at most
      150 bytes, else its first 150 bytes followed by "..."; `None` stands for
      the panic when byte 150 is not on a character boundary. */
  function ShortContent(clean: string): Option<string>
  {
    if ByteLen(clean) > SnippetBytes then
      match CharBoundary(clean, SnippetBytes)
      case None => None
      case Some(k) => Some(clean[..k] + "...")
    else Some(clean)
  }

  /** The preview rule stated on bytes: short texts are kept, long ones are
      cut to the text whose encoding is their first 150 bytes, and the cut
      fails exactly when no prefix of the text has 150 bytes. */
  lemma ShortContentSpec(clean: string)
    ensures ByteLen(clean) <= SnippetBytes ==> ShortContent(clean) == Some(clean)
    ensures ByteLen(clean) > SnippetBytes && ShortContent(clean).Some? ==>
              exists k :: 0 <= k <= |clean| && Encode(clean[..k]) == Encode(clean)[..SnippetBytes]
                          && ShortContent(clean) == Some(clean[..k] + "...")
    ensures ByteLen(clean) > SnippetBytes ==>
              (ShortContent(clean).None? <==> forall k :: 0 <= k <= |clean| ==> ByteLen(clean[..k]) != SnippetBytes)
  {
    if ByteLen(clean) > SnippetBytes {
      match CharBoundary(clean, SnippetBytes)
      case Some(k) =>
        CharBoundaryBytes(clean, SnippetBytes);
      case None =>
        forall k | 0 <= k <= |clean|
          ensures ByteLen(clean[..k]) != SnippetBytes
        {
          if ByteLen(clean[..k]) == SnippetBytes {
            CharBoundaryComplete(clean, SnippetBytes, k);
          }
        }
    }
  }

  predicate IsAscii(s: string)
  {
    forall i :: 0 <= i < |s| ==> s[i] as int < 0x80
  }

  /** For ASCII text bytes are characters: the preview never panics and keeps
      150 characters. */
  lemma ShortContentAscii(clean: string)
    requires IsAscii(clean)
    ensures |clean| <= SnippetBytes ==> ShortContent(clean) == Some(clean)
    ensures |clean| > SnippetBytes ==> ShortContent(clean) == Some(clean[..SnippetBytes] + "...")
  {
    AsciiByteLen(clean);
    if |clean| > SnippetBytes {
      AsciiByteLen(clean[..SnippetBytes]);
      CharBoundaryComplete(clean, SnippetBytes, SnippetBytes);
    }
  }

  lemma {:induction false} AsciiByteLen(s: string)
    requires IsAscii(s)
    ensures ByteLen(s) == |s|
  {
    if s != [] {
      AsciiByteLen(s[1..]);
    }
  }

  // ---------------------------------------------------------------------
  // The prompt blocks and the sources

  /** The prompt block of the context at 1-based index `idx`. */
  function FuenteBlock(idx: nat, ctx: HybridContext): string
  {
    "FUENTE [" + NatToString(idx) + "]:\n- Contenido: " + CleanContent(ctx.content)
      + "\n- Conceptos Relacionados: [" + Join(ctx.connectedEntities, ", ") + "]\n\n"
  }

  /** The citation of the context at 0-based position `i`; `None` when its
      preview panics. */
  function SourceFor(i: nat, ctx: HybridContext): Option<SourceReference>
  {
    match ShortContent(CleanContent(ctx.content))
    case None => None
    case Some(short) => Some(SourceReference(i + 1, ctx.chunkId, short, i, ctx.connectedEntities))
  }

  /** The context text after the first `|ctxs|` contexts (a left fold, as
      the loop appends). */
  function ContextText(ctxs: seq<HybridContext>): string
  {
    if ctxs == [] then ""
    else ContextText(ctxs[..|ctxs| - 1]) + FuenteBlock(|ctxs|, ctxs[|ctxs| - 1])
  }

  /** The blocks of `ctxs[j..]`, numbered from `j + 1` (a right fold). */
  function BlocksFrom(ctxs: seq<HybridContext>, j: nat): string
    requires j <= |ctxs|
    decreases |ctxs| - j
  {
    if j == |ctxs| then "" else FuenteBlock(j + 1, ctxs[j]) + BlocksFrom(ctxs, j + 1)
  }

  /** The results of `f` on the first `|xs|` items with their positions,
      in order; `None` as soon as one of them is `None`. */
  function Collect<T>(xs: seq<HybridContext>, f: (nat, HybridContext) -> Option<T>): Option<seq<T>>
  {
    if xs == [] then Some([])
    else
      match Collect(xs[..|xs| - 1], f)
      case None => None
      case Some(ys) =>
        match f(|xs| - 1, xs[|xs| - 1])
        case None => None
        case Some(y) => Some(ys + [y])
  }

  /** The sources after the first `|ctxs|` contexts; `None` once a preview
      panicked. */
  function Sources(ctxs: seq<HybridContext>): Option<seq<SourceReference>>
  {
    Collect(ctxs, SourceFor)
  }

  /** The context text is the blocks of all contexts, in order, numbered
      from 1. */
  lemma ContextTextIsBlocks(ctxs: seq<HybridContext>)
    ensures ContextText(ctxs) == BlocksFrom(ctxs, 0)
  {
    ContextTextSplit(ctxs, |ctxs|);
    assert ctxs[..|ctxs|] == ctxs;
    assert BlocksFrom(ctxs, |ctxs|) == "";
  }

  lemma {:induction false} ContextTextSplit(ctxs: seq<HybridContext>, i: nat)
    requires i <= |ctxs|
    ensures ContextText(ctxs[..i]) + BlocksFrom(ctxs, i) == BlocksFrom(ctxs, 0)
    decreases i
  {
    if i > 0 {
      var pre := ctxs[..i];
      assert pre[..i - 1] == ctxs[..i - 1];
      calc {
        ContextText(ctxs[..i]) + BlocksFrom(ctxs, i);
        (ContextText(ctxs[..i - 1]) + FuenteBlock(i, ctxs[i - 1])) + BlocksFrom(ctxs, i);
        { AppendAssoc(ContextText(ctxs[..i - 1]), FuenteBlock(i, ctxs[i - 1]), BlocksFrom(ctxs, i)); }
        ContextText(ctxs[..i - 1]) + (FuenteBlock(i, ctxs[i - 1]) + BlocksFrom(ctxs, i));
        ContextText(ctxs[..i - 1]) + BlocksFrom(ctxs, i - 1);
        { ContextTextSplit(ctxs, i - 1); }
        BlocksFrom(ctxs, 0);
      }
    } else {
      assert ContextText(ctxs[..0]) == "";
    }
  }

  /** The citation of the context at position `i`: numbered `i + 1`, with
      the chunk id and the concepts copied and the preview of the cleaned
      content. */
  lemma SourceForFields(i: nat, ctx: HybridContext)
    ensures SourceFor(i, ctx).Some? <==> ShortContent(CleanContent(ctx.content)).Some?
    ensures SourceFor(i, ctx).Some? ==>
              var s := SourceFor(i, ctx).value;
              && s.index == i + 1 && s.rank == i
              && s.chunkId == ctx.chunkId && s.concepts == ctx.connectedEntities
              && ShortContent(CleanContent(ctx.content)) == Some(s.shortContent)
  {
  }

  /** `Collect` keeps one result per item, in order, and succeeds exactly
      when `f` does on every item. */
  lemma {:induction false} CollectParallel<T>(xs: seq<HybridContext>, f: (nat, HybridContext) -> Option<T>)
    ensures Collect(xs, f).Some? <==> forall i :: 0 <= i < |xs| ==> f(i, xs[i]).Some?
    ensures Collect(xs, f).Some? ==>
              && |Collect(xs, f).value| == |xs|
              && forall i :: 0 <= i < |xs| ==> Some(Collect(xs, f).value[i]) == f(i, xs[i])
  {
    if xs != [] {
      var n := |xs| - 1;
      var pre := xs[..n];
      CollectParallel(pre, f);
      assert forall i :: 0 <= i < n ==> pre[i] == xs[i];
      if Collect(pre, f).Some? && f(n, xs[n]).Some? {
        var ys := Collect(pre, f).value;
        var all := ys + [f(n, xs[n]).value];
        assert Collect(xs, f) == Some(all);
        forall i | 0 <= i < |xs|
          ensures Some(all[i]) == f(i, xs[i])
        {
          if i < n {
            assert all[i] == ys[i];
          }
        }
      }
    }
  }

  /** The sources run parallel to the contexts: one per context, in the same
      order, each the citation of its context; they exist exactly when no
      preview panics. */
  lemma SourcesParallel(ctxs: seq<HybridContext>)
    ensures Sources(ctxs).Some? <==> forall i :: 0 <= i < |ctxs| ==> SourceFor(i, ctxs[i]).Some?
    ensures Sources(ctxs).Some? ==>
              && |Sources(ctxs).value| == |ctxs|
              && forall i :: 0 <= i < |ctxs| ==> Some(Sources(ctxs).value[i]) == SourceFor(i, ctxs[i])
  {
    CollectParallel(ctxs, SourceFor);
  }

  // ---------------------------------------------------------------------
  // The loop of the handler

  /** The loop over the retrieved contexts: appends each block to the
      context text and each citation to the sources; `None` when a preview
      panics. */
  method BuildContext(ctxs: seq<HybridContext>) returns (r: Option<(string, seq<SourceReference>)>)
    ensures r.Some? <==> Sources(ctxs).Some?
    ensures r.Some? ==> r.value.0 == ContextText(ctxs) && r.value.1 == Sources(ctxs).value
  {
    var contextText := "";
    var sourcesOutput := [];
    var i := 0;
    while i < |ctxs|
      invariant i <= |ctxs|
      invariant contextText == ContextText(ctxs[..i])
      invariant Sources(ctxs[..i]) == Some(sourcesOutput)
    {
      var block, source := Cite(i, ctxs[i]);
      PrefixStep(ctxs, i);
      contextText := contextText + block;
      if source.None? {
        PanicIsFinal(ctxs, i + 1);
        return None;
      }
      sourcesOutput := sourcesOutput + [source.value];
      i := i + 1;
    }
    assert ctxs[..i] == ctxs;
    r := Some((contextText, sourcesOutput));
  }

  /** The body of the loop for the context at position `i`: its prompt
      block and its citation, `None` when the preview panics. */
  method Cite(i: nat, ctx: HybridContext) returns (block: string, source: Option<SourceReference>)
    ensures block == FuenteBlock(i + 1, ctx) && source == SourceFor(i, ctx)
  {
    var idx := i + 1;
    var cleanContent := CleanContent(ctx.content);
    var entityList := Join(ctx.connectedEntities, ", ");
    block := "FUENTE [" + NatToString(idx) + "]:\n- Contenido: " + cleanContent
             + "\n- Conceptos Relacionados: [" + entityList + "]\n\n";
    var shortContent;
    if ByteLen(cleanContent) > SnippetBytes {
      var cut := CharBoundary(cleanContent, SnippetBytes);
      if cut.None? {
        return block, None;
      }
      shortContent := cleanContent[..cut.value] + "...";
    } else {
      shortContent := cleanContent;
    }
    source := Some(SourceReference(idx, ctx.chunkId, shortContent, i, ctx.connectedEntities));
  }

  /** Adding the context at position `i` to the first `i` extends the text
      by its block and the sources by its citation. */
  lemma PrefixStep(ctxs: seq<HybridContext>, i: nat)
    requires i < |ctxs|
    ensures ContextText(ctxs[..i + 1]) == ContextText(ctxs[..i]) + FuenteBlock(i + 1, ctxs[i])
    ensures SourceFor(i, ctxs[i]).None? ==> Sources(ctxs[..i + 1]).None?
    ensures Sources(ctxs[..i]).Some? && SourceFor(i, ctxs[i]).Some? ==>
              Sources(ctxs[..i + 1]) == Some(Sources(ctxs[..i]).value + [SourceFor(i, ctxs[i]).value])
  {
    assert ctxs[..i + 1][..i] == ctxs[..i];
  }

  /** Once a preview has panicked there are no sources. */
  lemma {:induction false} PanicIsFinal(ctxs: seq<HybridContext>, i: nat)
    requires i <= |ctxs| && Sources(ctxs[..i]).None?
    ensures Sources(ctxs).None?
    decreases |ctxs| - i
  {
    if i < |ctxs| {
      assert ctxs[..i + 1][..i] == ctxs[..i];
      PanicIsFinal(ctxs, i + 1);
    } else {
      assert ctxs[..i] == ctxs;
    }
  }

  // ---------------------------------------------------------------------
  // The completion request

  /** `HeaderValue::from_str`: every byte visible ASCII, obs-text or a tab;
      on characters, no control character but the tab and no DEL. */
  predicate ValidHeaderValue(v: string)
  {
    forall i :: 0 <= i < |v| ==> (v[i] >= ' ' && v[i] != '\U{7F}') || v[i] == '\t'
  }

  /** The headers of the completion client: the JSON content type, and the
      bearer token when there is a key that makes a valid header value. */
  function Headers(apiKey: string): (hs: seq<(string, string)>)
  {
    [("content-type", "application/json")]
      + (if |apiKey| > 0 && ValidHeaderValue("Bearer " + apiKey)
         then [("authorization", "Bearer " + apiKey)] else [])
  }

  /** The authorization header is sent exactly when the key is non-empty and
      free of control characters, and then carries "Bearer " and the key. */
  lemma HeadersAuth(apiKey: string)
    ensures Headers(apiKey)[0] == ("content-type", "application/json")
    ensures |Headers(apiKey)| == 2 <==> |apiKey| > 0 && ValidHeaderValue(apiKey)
    ensures |Headers(apiKey)| == 2 ==> Headers(apiKey)[1] == ("authorization", "Bearer " + apiKey)
    ensures |Headers(apiKey)| in {1, 2}
  {
    var v := "Bearer " + apiKey;
    if ValidHeaderValue(apiKey) {
      forall i | 0 <= i < |v|
        ensures (v[i] >= ' ' && v[i] != '\U{7F}') || v[i] == '\t'
      {
        if i >= 7 {
          assert v[i] == apiKey[i - 7];
        }
      }
    } else {
      var j :| 0 <= j < |apiKey| && !((apiKey[j] >= ' ' && apiKey[j] != '\U{7F}') || apiKey[j] == '\t');
      assert v[j + 7] == apiKey[j];
    }
  }

  /** What the completion call is given. `context` is the retrieved-context
      block embedded in the system prompt. */
  datatype LlmRequest = LlmRequest(
    baseUrl: string, headers: seq<(string, string)>, model: string, context: string, prompt: string)

  /** The outside world of the handler: the raw embedding outcome for the
      question, the hybrid retrieval and the completion call. */
  datatype ChatEnv = ChatEnv(
    embed: Result<seq<EmbeddedDocument>, string>,
    retrieve: (Embedding, nat) -> Result<seq<HybridContext>, AppError>,
    generate: LlmRequest -> Result<string, string>)

  /** How the handler ends: with an answer, with an error, or in a panic of
      the preview slicing. */
  datatype ChatOutcome = Answered(response: ChatResponse) | Failed(error: AppError) | Panicked

  /** `chat_handler(message)` with the service's live configuration. */
  method ChatHandler(message: string, ai: RigAIService, env: ChatEnv) returns (out: ChatOutcome)
    ensures GenerateEmbedding(env.embed).Err? ==> out == Failed(GenerateEmbedding(env.embed).error)
    ensures GenerateEmbedding(env.embed).Ok? ==>
              var hits := env.retrieve(GenerateEmbedding(env.embed).value, TopK);
              && (hits.Err? ==> out == Failed(hits.error))
              && (hits.Ok? && Sources(hits.value).None? ==> out == Panicked)
              && (hits.Ok? && Sources(hits.value).Some? ==>
                    var req := LlmRequest(BaseUrl(ai.config), Headers(ai.config.apiKey), ai.config.modelName,
                                          ContextText(hits.value), message);
                    match env.generate(req)
                    case Ok(answer) => out == Answered(ChatResponse(answer, Sources(hits.value).value))
                    case Err(e) => out == Failed(AIError("Error generando respuesta LLM: " + e)))
  {
    var embedding := GenerateEmbedding(env.embed);
    if embedding.Err? {
      return Failed(embedding.error);
    }
    var hybridContexts := env.retrieve(embedding.value, TopK);
    if hybridContexts.Err? {
      return Failed(hybridContexts.error);
    }
    var built := BuildContext(hybridContexts.value);
    if built.None? {
      return Panicked;
    }
    var (contextText, sourcesOutput) := built.value;
    var config := ai.GetConfig();
    var baseUrl := BaseUrl(config);
    var apiKey := config.apiKey;
    var headers := [("content-type", "application/json")];
    if |apiKey| > 0 {
      if ValidHeaderValue("Bearer " + apiKey) {
        headers := headers + [("authorization", "Bearer " + apiKey)];
      }
    }
    assert headers == Headers(apiKey);
    var answer := env.generate(LlmRequest(baseUrl, headers, config.modelName, contextText, message));
    if answer.Err? {
      return Failed(AIError("Error generando respuesta LLM: " + answer.error));
    }
    out := Answered(ChatResponse(answer.value, sourcesOutput));
  }
}
