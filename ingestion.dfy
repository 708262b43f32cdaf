/** `IngestionService::ingest_with_progress`: the document is cut into
    chunks, and each chunk is embedded, saved, run through knowledge
    extraction and, when that succeeds, saved as a graph fragment. Provider
    failures are reported on the progress stream and skipped; store
    failures end the run with an error.

    The provider and the store are represented by an `Oracle`: what the
    embedding call, the extraction prompt and each store write return for
    the chunk at a given position. The progress channel is the returned
    list of messages, in the order they are sent. */
module Ingestion {
  import opened Wrappers
  import opened Text
  import opened Errors
  import opened Models
  import opened Chunker
  import opened Ports
  import opened RigClient

  /** What the outside world answers for the chunk at position `i`. */
  datatype Oracle = Oracle(
    embed: nat -> Result<seq<EmbeddedDocument>, string>,
    answer: nat -> Result<string, string>,
    parse: string -> Result<KnowledgeExtraction, string>,
    chunkFault: nat -> Option<string>,
    graphFault: nat -> Option<string>)

  /** `generate_embedding` for chunk `i`. */
  function Embedded(o: Oracle, i: nat): Result<Embedding, AppError>
  {
    GenerateEmbedding(o.embed(i))
  }

  /** `extract_knowledge` for chunk `i`. */
  function Extracted(o: Oracle, i: nat): Result<KnowledgeExtraction, AppError>
  {
    ExtractKnowledge(o.answer(i), o.parse)
  }

  // ---------------------------------------------------------------------
  // Progress messages

  /** The messages sent on the progress channel; `Message` gives each one's
      exact text. `step` is the 1-based position of the chunk and `n` the
      number of chunks. */
  datatype Progress =
    | SplitInto(n: nat)
    | Embedding(step: nat, n: nat)
    | EmbedFailed(step: nat, e: AppError)
    | Extracting(step: nat, n: nat)
    | Connecting(step: nat, n: nat, count: nat)
    | ExtractFailed(step: nat, e: AppError)
    | Finished

  const Done: string := "✅ ¡Todo el documento ha sido procesado!"

  function Message(p: Progress): string
  {
    match p
    case SplitInto(n) =>
      "🔪 Documento largo detectado. Dividido en " + NatToString(n) + " fragmentos."
    case Embedding(step, n) =>
      "🧠 [" + NatToString(step) + "/" + NatToString(n) + "] Generando Embeddings..."
    case EmbedFailed(step, e) =>
      "⚠️ Error embedding chunk " + NatToString(step) + ": " + Display(e) + ". Saltando..."
    case Extracting(step, n) =>
      "🕵️ [" + NatToString(step) + "/" + NatToString(n) + "] Extrayendo conocimiento..."
    case Connecting(step, n, count) =>
      "🕸️ [" + NatToString(step) + "/" + NatToString(n) + "] Conectando "
        + NatToString(count) + " entidades al grafo..."
    case ExtractFailed(step, e) =>
      "⚠️ Error extrayendo entidades en parte " + NatToString(step) + ": " + Display(e)
    case Finished => Done
  }

  /** Only the final message reads "✅ ...": every other one starts with a
      different emoji. */
  lemma OnlyFinishedIsDone(p: Progress)
    ensures Message(p) == Done <==> p == Finished
  {
    if p != Finished {
      assert Message(p)[0] != Done[0];
    }
  }

  // ---------------------------------------------------------------------
  // The run as a left fold over the chunks

  /** What the run has done so far: the messages sent, the store's contents
      and call log, how many chunk ids were drawn, and the store error that
      ended the run, if any. */
  datatype State = State(
    log: seq<Progress>,
    chunks: seq<ChunkRecord>,
    graphs: seq<GraphRecord>,
    ops: seq<StoreOp>,
    drawn: nat,
    fatal: Option<AppError>)

  /** Chunk `i` gets the `i + 1`-th id drawn after the document id `base`. */
  function ChunkId(base: Uuid, i: nat): Uuid
  {
    base + 1 + i
  }

  /** One turn of the loop, for chunk `i` of `texts`; a run that has already
      failed does nothing more. */
  function Step(texts: seq<string>, base: Uuid, o: Oracle, st: State, i: nat): State
    requires i < |texts|
  {
    if st.fatal.Some? then st
    else
      var step, n, id := i + 1, |texts|, ChunkId(base, i);
      var st1 := st.(log := st.log + [Embedding(step, n)], drawn := st.drawn + 1);
      match Embedded(o, i)
      case Err(e) => st1.(log := st1.log + [EmbedFailed(step, e)])
      case Ok(emb) =>
        var st2 := st1.(ops := st1.ops + [SaveChunkOp(id)]);
        if o.chunkFault(i).Some? then st2.(fatal := Some(DatabaseError(o.chunkFault(i).value)))
        else
          var st3 := st2.(chunks := st2.chunks + [ChunkRecord(id, texts[i], emb)],
                          log := st2.log + [Extracting(step, n)]);
          match Extracted(o, i)
          case Err(e) => st3.(log := st3.log + [ExtractFailed(step, e)])
          case Ok(x) =>
            var st4 := st3.(log := st3.log + [Connecting(step, n, |x.entities|)],
                            ops := st3.ops + [SaveGraphOp(id)]);
            if o.graphFault(i).Some? then st4.(fatal := Some(DatabaseError(o.graphFault(i).value)))
            else st4.(graphs := st4.graphs + [GraphRecord(id, x)])
  }

  /** The state after the first `i` chunks. */
  function Run(texts: seq<string>, base: Uuid, o: Oracle, init: State, i: nat): State
    requires i <= |texts|
  {
    if i == 0 then init else Step(texts, base, o, Run(texts, base, o, init, i - 1), i - 1)
  }

  /** The state before the first chunk: the header has been sent. */
  function Initial(n: nat, chunks: seq<ChunkRecord>, graphs: seq<GraphRecord>, ops: seq<StoreOp>): State
  {
    State([SplitInto(n)], chunks, graphs, ops, 0, None)
  }

  // ---------------------------------------------------------------------
  // The method

  /** `ingest_with_progress(content)`: returns the document id drawn before
      any chunk id, or the first store error. The store ends in the state
      the fold describes, and the final "✅" message is sent only when the
      run did not fail. */
  method IngestWithProgress(content: string, store: KnowledgeStore, ids: UuidSource, o: Oracle)
    returns (r: Result<Uuid, AppError>, progress: seq<Progress>)
    modifies store, ids
    ensures var texts := Split(content);
            var fin := Run(texts, old(ids.next), o,
                           Initial(|texts|, old(store.chunks), old(store.graphs), old(store.ops)), |texts|);
            && (fin.fatal.None? ==> r == Ok(old(ids.next)) && progress == fin.log + [Finished])
            && (fin.fatal.Some? ==> r == Err(fin.fatal.value) && progress == fin.log)
            && store.chunks == fin.chunks && store.graphs == fin.graphs && store.ops == fin.ops
            && ids.next == old(ids.next) + 1 + fin.drawn
    ensures store.indexDim == old(store.indexDim)
  {
    ghost var init0 := (store.chunks, store.graphs, store.ops);
    var texts := SplitTextIntoChunks(content);
    var n := |texts|;
    var doc := ids.NewV4();
    progress := [SplitInto(n)];
    ghost var init := Initial(n, init0.0, init0.1, init0.2);
    var i := 0;
    var fatal: Option<AppError> := None;
    while i < n && fatal.None?
      invariant i <= n
      invariant ids.next == doc + 1 + i
      invariant store.indexDim == old(store.indexDim)
      invariant Run(texts, doc, o, init, i) == State(progress, store.chunks, store.graphs, store.ops, i, fatal)
    {
      progress, fatal := ProcessChunk(texts, i, doc, store, ids, o, progress);
      i := i + 1;
    }
    if fatal.Some? {
      FatalIsFinal(texts, doc, o, init, i, n);
      r := Err(fatal.value);
    } else {
      progress := progress + [Finished];
      r := Ok(doc);
    }
  }

  /** One turn of the loop of `ingest_with_progress`, for chunk `i`: draws
      the chunk id, embeds, saves, extracts and saves the graph, sending the
      progress messages on the way. `fatal` is the store error that ends the
      run, if one occurs. */
  method ProcessChunk(texts: seq<string>, i: nat, doc: Uuid, store: KnowledgeStore, ids: UuidSource,
                      o: Oracle, progress: seq<Progress>)
    returns (progress': seq<Progress>, fatal: Option<AppError>)
    requires i < |texts| && ids.next == doc + 1 + i
    modifies store, ids
    ensures Step(texts, doc, o, State(progress, old(store.chunks), old(store.graphs), old(store.ops), i, None), i)
            == State(progress', store.chunks, store.graphs, store.ops, i + 1, fatal)
    ensures ids.next == old(ids.next) + 1 && store.indexDim == old(store.indexDim)
  {
    var step, n := i + 1, |texts|;
    fatal := None;
    var chunkId := ids.NewV4();
    progress' := progress + [Embedding(step, n)];
    var embedding := GenerateEmbedding(o.embed(i));
    if embedding.Err? {
      progress' := progress' + [EmbedFailed(step, embedding.error)];
      return progress', None;
    }
    var saved := store.SaveChunk(chunkId, texts[i], embedding.value, o.chunkFault(i));
    if saved.Err? {
      return progress', Some(saved.error);
    }
    progress' := progress' + [Extracting(step, n)];
    var extraction := ExtractKnowledge(o.answer(i), o.parse);
    match extraction
    case Ok(x) =>
      var count := |x.entities|;
      progress' := progress' + [Connecting(step, n, count)];
      var savedGraph := store.SaveGraph(chunkId, x, o.graphFault(i));
      if savedGraph.Err? {
        return progress', Some(savedGraph.error);
      }
    case Err(e) =>
      progress' := progress' + [ExtractFailed(step, e)];
  }

  // ---------------------------------------------------------------------
  // Properties of the run

  /** A store error ends the run: nothing changes after it. */
  lemma {:induction false} FatalIsFinal(texts: seq<string>, base: Uuid, o: Oracle, init: State, j: nat, k: nat)
    requires j <= k <= |texts|
    requires Run(texts, base, o, init, j).fatal.Some?
    ensures Run(texts, base, o, init, k) == Run(texts, base, o, init, j)
    decreases k
  {
    if k > j {
      FatalIsFinal(texts, base, o, init, j, k - 1);
    }
  }

  /** A chunk whose embedding fails is reported with its step number and
      skipped: no store call is made for it and the run goes on. */
  lemma StepEmbedFails(texts: seq<string>, base: Uuid, o: Oracle, st: State, i: nat)
    requires i < |texts| && st.fatal.None? && Embedded(o, i).Err?
    ensures var next := Step(texts, base, o, st, i);
            && next.log == st.log + [Embedding(i + 1, |texts|), EmbedFailed(i + 1, Embedded(o, i).error)]
            && next.ops == st.ops && next.chunks == st.chunks && next.graphs == st.graphs
            && next.fatal.None?
  {
  }

  /** A chunk whose extraction fails stays saved; no graph is saved for it
      and the run goes on. */
  lemma StepExtractFails(texts: seq<string>, base: Uuid, o: Oracle, st: State, i: nat)
    requires i < |texts| && st.fatal.None? && Embedded(o, i).Ok? && o.chunkFault(i).None?
    requires Extracted(o, i).Err?
    ensures var next := Step(texts, base, o, st, i);
            && next.ops == st.ops + [SaveChunkOp(ChunkId(base, i))]
            && next.chunks == st.chunks + [ChunkRecord(ChunkId(base, i), texts[i], Embedded(o, i).value)]
            && next.graphs == st.graphs
            && next.log[|next.log| - 1] == ExtractFailed(i + 1, Extracted(o, i).error)
            && next.fatal.None?
  {
  }

  /** When extraction succeeds the graph is saved under the same id as the
      chunk, right after it. */
  lemma StepSavesGraph(texts: seq<string>, base: Uuid, o: Oracle, st: State, i: nat)
    requires i < |texts| && st.fatal.None? && Embedded(o, i).Ok? && o.chunkFault(i).None?
    requires Extracted(o, i).Ok?
    ensures var next := Step(texts, base, o, st, i);
            var id := ChunkId(base, i);
            && next.ops == st.ops + [SaveChunkOp(id), SaveGraphOp(id)]
            && (o.graphFault(i).None? ==> next.graphs == st.graphs + [GraphRecord(id, Extracted(o, i).value)])
            && (o.graphFault(i).Some? ==> next.fatal == Some(DatabaseError(o.graphFault(i).value)))
  {
  }

  /** The chunks a run saves, given no store error: one record per chunk
      whose embedding succeeded, in order, under that chunk's id. */
  function SavedChunks(texts: seq<string>, base: Uuid, o: Oracle, i: nat): seq<ChunkRecord>
    requires i <= |texts|
  {
    if i == 0 then []
    else
      SavedChunks(texts, base, o, i - 1)
      + (if Embedded(o, i - 1).Ok?
         then [ChunkRecord(ChunkId(base, i - 1), texts[i - 1], Embedded(o, i - 1).value)]
         else [])
  }

  /** The graph fragments a run saves, given no store error: one per chunk
      whose embedding and extraction both succeeded. */
  function SavedGraphs(texts: seq<string>, base: Uuid, o: Oracle, i: nat): seq<GraphRecord>
    requires i <= |texts|
  {
    if i == 0 then []
    else
      SavedGraphs(texts, base, o, i - 1)
      + (if Embedded(o, i - 1).Ok? && Extracted(o, i - 1).Ok?
         then [GraphRecord(ChunkId(base, i - 1), Extracted(o, i - 1).value)]
         else [])
  }

  /** As long as no store write has failed, every chunk has been processed,
      exactly the chunks with an embedding are saved, and exactly those that
      also have an extraction get a graph. */
  lemma {:induction false} RunSaves(texts: seq<string>, base: Uuid, o: Oracle, init: State, i: nat)
    requires i <= |texts| && init.fatal.None?
    requires Run(texts, base, o, init, i).fatal.None?
    ensures var st := Run(texts, base, o, init, i);
            && st.chunks == init.chunks + SavedChunks(texts, base, o, i)
            && st.graphs == init.graphs + SavedGraphs(texts, base, o, i)
            && st.drawn == init.drawn + i
  {
    if i > 0 {
      if Run(texts, base, o, init, i - 1).fatal.None? {
        RunSaves(texts, base, o, init, i - 1);
      }
    }
  }

  /** With no store error the run never fails, whatever the provider does. */
  lemma {:induction false} NoStoreFaultNoFailure(texts: seq<string>, base: Uuid, o: Oracle, init: State, i: nat)
    requires i <= |texts| && init.fatal.None?
    requires forall j :: 0 <= j < i ==> o.chunkFault(j).None? && o.graphFault(j).None?
    ensures Run(texts, base, o, init, i).fatal.None?
  {
    if i > 0 {
      NoStoreFaultNoFailure(texts, base, o, init, i - 1);
    }
  }

  /** `e` is the error the store reported for a write of chunk `j`. */
  predicate StoreFaultAt(o: Oracle, j: nat, e: AppError)
  {
    || (o.chunkFault(j).Some? && e == DatabaseError(o.chunkFault(j).value))
    || (o.graphFault(j).Some? && e == DatabaseError(o.graphFault(j).value))
  }

  /** The run fails only on a store error, and then with that error. */
  lemma {:induction false} FailureIsStoreFault(texts: seq<string>, base: Uuid, o: Oracle, init: State, i: nat)
    requires i <= |texts| && init.fatal.None?
    requires Run(texts, base, o, init, i).fatal.Some?
    ensures exists j :: 0 <= j < i && StoreFaultAt(o, j, Run(texts, base, o, init, i).fatal.value)
  {
    var prev := Run(texts, base, o, init, i - 1);
    if prev.fatal.Some? {
      FailureIsStoreFault(texts, base, o, init, i - 1);
    } else {
      assert StoreFaultAt(o, i - 1, Run(texts, base, o, init, i).fatal.value);
    }
  }

  /** The final message is never among the messages of the fold: it is
      sent after it, and only when the run did not fail. */
  lemma {:induction false} RunNeverFinished(texts: seq<string>, base: Uuid, o: Oracle, init: State, i: nat)
    requires i <= |texts| && Finished !in init.log
    ensures Finished !in Run(texts, base, o, init, i).log
  {
    if i > 0 {
      RunNeverFinished(texts, base, o, init, i - 1);
    }
  }
}
