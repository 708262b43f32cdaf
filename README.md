# LaMuralla-AI core, modelled in Dafny

LaMuralla-AI is a knowledge-graph retrieval-augmented assistant. It ingests documents and answers questions with cited sources. This project models the core of that service, as in the Rust sources, and proves properties of the model. The modelled parts are:

- **Chunker.** `split_text_into_chunks` is a sliding window of 1500 characters with an overlap of 200. At a cut it walks back to whitespace, and it advances by `max(1, len - 200)`. It is modelled as an imperative method. The method is proved equal to a recursive span function, and lemmas give coverage, order, size and termination.
- **Streaming ingestion.** `ingest_with_progress` is a method over a `KnowledgeStore` class and a `UuidSource` class. The provider's answers are an oracle indexed by chunk position. The progress channel is an append-only sequence of `Progress` events. The method is proved equal to a left fold `Run` of a per-chunk `Step`. Lemmas about the fold state the failure isolation:
  - a failed embedding or extraction is not fatal;
  - a store error is fatal and is the only cause of failure;
  - the "done" event is never emitted by the loop.
- **Chat handler.** The context and citation loop of `chat_handler` keeps the prompt text and the `SourceReference` list parallel. The 150-byte preview is taken over an explicit UTF-8 encoding. A cut inside a character is the panic outcome. The handler also covers the default base URL, the authorization-header decision and the error flow.
- **Admin reset guard.** `update_config` runs reset → create indexes → swap config, with early exits. The service's lock is the plain field `RigAIService.config`.
- **Upload task of `ingest_document`.**
  - A fold over the multipart fields, where the last supplied content wins and a failing file ends the task.
  - The trimmed-length gate (5 bytes).
  - The terminal line.
  - The one-line-per-message body.
- **Transmutation.**
  - `SupportedFormat::from_filename`, with Unix `Path::file_name`/`extension` semantics and lowercasing.
  - The `transmute` dispatch.
  - The UTF-8 branch, proved to accept exactly the valid encodings.
  - The CSV row assembly over abstract reader results.
- **Rig client.**
  - `clean_json_response` (trim, then strip fences).
  - `update_config`.
  - The error mapping of `generate_embedding` and `extract_knowledge`.
- **Errors.** The `AppError` Display strings and the status/body mapping of `into_response`.
- **Models.** The domain records, their validation constraints and the serde round trip of `AIConfig` (the API key is skipped and defaults to "").

Modules:
- `Wrappers`: Option and Result.
- `Text`: Unicode White_Space, trims, join, decimal digits, line framing.
- `Utf8`: encoding, decoding and byte length.
- `Errors`, `Models`, `Ports` (the store and the id source), `RigClient`, `Chunker`, `Ingestion`, `Chat`, `Admin`, `IngestHandler` and `Transmutation`.

Behaviour of the code worth knowing, as the model states it:

- **Short inputs.** A non-empty input of at most 201 characters gives one chunk per character, and 202..1500 characters give 201 chunks: once the window reaches the end of the text, the cursor creeps forward one character at a time. See `Chunker.ShortTextChunks` and `Chunker.TailSpans`.
- **Configuration errors.** `into_response` answers a `ConfigError` with status 500 and its own Display text, detail included, without the "Internal Error: " prefix. See `Errors.IntoResponse`.
- **Preview length.** The citation preview slices the cleaned content at byte 150, not at character 150, and panics when byte 150 is not a character boundary. See `Chat.ShortContentSpec`.
- **Ingestion path.** `ingest_with_progress` is the only ingestion operation; embedding and extraction failures are skipped per chunk, never retried.

## Model

| member | source | states |
|---|---|---|
| Chunker.SplitTextIntoChunks | src/application/ingestion.rs:28-52 | the loop returns exactly `Split(text)`, the slices of the spans the window produces |
| Chunker.FindCut | src/application/ingestion.rs:37-43 | the inner walk-back loop ends at `CutEnd`, the cut of the window starting at `start` |
| Chunker.CutEnd | src/application/ingestion.rs:34-43 | the cut lies strictly after `start`, within the clamped window, and at most 1500 characters on |
| Chunker.WalkBack | src/application/ingestion.rs:39-41 | the backward walk stays between `start` and the window end |
| Chunker.WalkBackStops | src/application/ingestion.rs:39-41 | the walk stops on whitespace unless it reached `start`, and no whitespace lies between the stop and the window end |
| Chunker.CutAtWhitespace | src/application/ingestion.rs:38-43 | when the window ends mid-text and a break exists, the chunk ends just before whitespace, with no whitespace after it up to the window end; otherwise it is cut at `min(start+1500, len)` |
| Chunker.Advance | src/application/ingestion.rs:49 | the step is at least 1 and at most the chunk length; it is `len - 200` for chunks longer than 201, else 1 |
| Chunker.Spans | src/application/ingestion.rs:33-49 | every span is non-empty and lies inside the text |
| Chunker.Slices | src/application/ingestion.rs:45 | chunk i is the characters `[lo, hi)` of span i |
| Chunker.ChunksAreSlices | src/application/ingestion.rs:45-46 | the pushed strings are exactly the slices of the spans, in order |
| Chunker.NextChunk | src/application/ingestion.rs:45-49 | one loop turn (push the chunk, advance) keeps "pushed + still to come = all chunks" |
| Chunker.ChunkLengths | src/application/ingestion.rs:34-45 | there are at most as many chunks as characters, and each chunk has 1..1500 characters |
| Chunker.SpansOrdered | src/application/ingestion.rs:31-49 | no chunks exactly for empty input; the first starts at 0; starts strictly increase; each start is at most the previous end (no gaps) |
| Chunker.SpansCover | src/application/ingestion.rs:31-49 | every character index lies in some chunk |
| Chunker.LastSpan | src/application/ingestion.rs:49 | for non-empty input the final chunk is exactly the last character |
| Chunker.TailSpans | src/application/ingestion.rs:49 | with at most 201 characters left, there is one chunk per remaining position, each running to the end |
| Chunker.ShortTextChunks | src/application/ingestion.rs:28-52 | a non-empty text of at most 1500 characters: the first chunk is the whole text, and there are n chunks if n ≤ 201, else 201 |
| Ingestion.IngestWithProgress | src/application/ingestion.rs:54-111 | the store, the order of store calls, the progress log and the result equal the fold `Run` over the chunks. Ok(document id) with the final done event when no store call failed, else the store error without it. The index is untouched. One id is drawn for the document and one per chunk |
| Ingestion.ProcessChunk | src/application/ingestion.rs:68-104 | one loop turn changes the store, log and failure exactly as `Step` says |
| Ingestion.OnlyFinishedIsDone | src/application/ingestion.rs:107 | only the `Finished` event renders as the "✅" message |
| Ingestion.FatalIsFinal | src/application/ingestion.rs:89-98 | after a store error no later chunk changes anything (the `?` return) |
| Ingestion.StepEmbedFails | src/application/ingestion.rs:79-85 | a failed embedding logs a warning naming step i+1 and the error, makes no store call, and is not fatal |
| Ingestion.StepExtractFails | src/application/ingestion.rs:94-104 | a failed extraction leaves the chunk saved, calls no `save_graph`, ends with the warning for step i+1, and is not fatal |
| Ingestion.StepSavesGraph | src/application/ingestion.rs:89-98 | a successful extraction calls `save_graph` after `save_chunk` with the same chunk id; the graph is stored, or the store error is fatal |
| Ingestion.RunSaves | src/application/ingestion.rs:68-105 | without a store error, the saved chunks and graphs are exactly those of the chunks whose embedding (and extraction) succeeded, in order, and one id is drawn per chunk |
| Ingestion.NoStoreFaultNoFailure | src/application/ingestion.rs:89-98 | with no store fault, ingestion never fails, whatever the provider answers |
| Ingestion.FailureIsStoreFault | src/application/ingestion.rs:89-98 | every failure is the error of a store call on some earlier chunk |
| Ingestion.RunNeverFinished | src/application/ingestion.rs:107-110 | the per-chunk loop never emits the done event, so it can only come last |
| Ports.KnowledgeStore.SaveChunk | src/application/ingestion.rs:89 | the call is recorded; the chunk is appended on success, and a fault gives DatabaseError and stores nothing |
| Ports.KnowledgeStore.SaveGraph | src/application/ingestion.rs:98 | the call is recorded; the graph is appended on success, and a fault gives DatabaseError and stores nothing |
| Ports.KnowledgeStore.ResetDatabase | src/interface/handlers/admin.rs:32 | the call is recorded; success empties chunks and graphs, and a fault gives DatabaseError and keeps them |
| Ports.KnowledgeStore.CreateIndexes | src/interface/handlers/admin.rs:35 | the call is recorded with the dimension; success sets the index dimension, and a fault keeps the old one |
| Ports.UuidSource.NewV4 | src/application/ingestion.rs:70 | each id is fresh: it is the counter, which then moves on |
| Chat.CleanContentShape | src/interface/handlers/chat.rs:51 | the cleaned content has no newline and no outer whitespace, and is the piece of the newline-replaced content that starts after its leading whitespace |
| Chat.CharBoundary | src/interface/handlers/chat.rs:66 | a cut found is a character index whose prefix encodes to exactly b bytes |
| Chat.CharBoundaryComplete | src/interface/handlers/chat.rs:66 | whenever some prefix has exactly b bytes, the cut is found, at that index |
| Chat.CharBoundaryBytes | src/interface/handlers/chat.rs:66 | the prefix at the cut encodes to the first b bytes of the text's encoding |
| Chat.ShortContentSpec | src/interface/handlers/chat.rs:65-69 | text of at most 150 bytes is kept. Longer text becomes the characters of its first 150 bytes plus "...". The slice panics exactly when no prefix has 150 bytes |
| Chat.ShortContentAscii | src/interface/handlers/chat.rs:65-69 | for ASCII text: the first 150 characters plus "..." when longer than 150, else unchanged |
| Chat.ContextTextIsBlocks | src/interface/handlers/chat.rs:55-58 | the context text is the in-order concatenation of the `FUENTE [i]` blocks |
| Chat.ContextTextSplit | src/interface/handlers/chat.rs:55-58 | the text after the first i contexts, followed by the blocks of the rest, is the whole text |
| Chat.SourceForFields | src/interface/handlers/chat.rs:61-73 | a source has index i+1 and rank i, copies chunk id and concepts, and its preview is the short content of the cleaned text |
| Chat.SourcesParallel | src/interface/handlers/chat.rs:47-73 | sources exist iff no preview panics, and then there is one per context, in order, the i-th built from context i |
| Chat.PanicIsFinal | src/interface/handlers/chat.rs:65-66 | once a preview panics, the handler yields no sources whatever follows |
| Chat.BuildContext | src/interface/handlers/chat.rs:44-74 | the loop's buffers are exactly the context text and the parallel sources, and it fails exactly when a preview panics |
| Chat.Cite | src/interface/handlers/chat.rs:48-73 | one loop turn yields the `FUENTE` block with index i+1 and the citation of context i |
| Chat.HeadersAuth | src/interface/handlers/chat.rs:102-110 | the content type is always JSON; the "Bearer" authorization header is added iff the key is non-empty and a valid header value |
| Chat.ChatHandler | src/interface/handlers/chat.rs:28-131 | embedding and retrieval errors are returned. Retrieval uses k = 5. A panicking preview panics. Otherwise the request carries the configured base URL, headers, model, context text and question. The answer is returned verbatim with the sources, and a generation error becomes AIError |
| RigClient.BaseUrl | src/interface/handlers/chat.rs:98 | the configured base URL, or "https://api.openai.com/v1" when unset |
| RigClient.TrimStartMatchesStops | src/infrastructure/ai/rig_client.rs:22-23 | after `trim_start_matches(p)` the text no longer starts with p |
| RigClient.TrimEndMatchesStops | src/infrastructure/ai/rig_client.rs:24 | after `trim_end_matches(p)` the text no longer ends with p |
| RigClient.CleanJsonNoFences | src/infrastructure/ai/rig_client.rs:20-26 | the cleaned text never starts or ends with "```" |
| RigClient.CleanJsonIsInfix | src/infrastructure/ai/rig_client.rs:21-24 | the cleaned text is a contiguous piece of the trimmed input |
| RigClient.LeadingIsReps | src/infrastructure/ai/rig_client.rs:22-23 | what `trim_start_matches(p)` removes is zero or more whole copies of p, back to back |
| RigClient.TrailingIsReps | src/infrastructure/ai/rig_client.rs:24 | what `trim_end_matches(p)` removes is zero or more whole copies of p, back to back |
| RigClient.StripFront | src/infrastructure/ai/rig_client.rs:22-23 | the text is the removed copies of p followed by what `trim_start_matches(p)` keeps |
| RigClient.StripBack | src/infrastructure/ai/rig_client.rs:24 | the text is what `trim_end_matches(p)` keeps followed by the removed copies of p |
| RigClient.CleanJsonCutsFences | src/infrastructure/ai/rig_client.rs:21-24 | the trimmed answer is whole "```json" copies, then whole "```" copies, then the cleaned text, then whole "```" copies: only fence markers are cut away |
| RigClient.CleanJsonUnchanged | src/infrastructure/ai/rig_client.rs:21-25 | trimmed input without fences at either end is returned unchanged |
| RigClient.CleanJsonFenced | src/infrastructure/ai/rig_client.rs:21-24 | a body wrapped in "```json" … "```" comes back verbatim, including whitespace inside the fences |
| RigClient.GenerateEmbedding | src/infrastructure/ai/rig_client.rs:44-54 | Ok iff the provider returned a document with an embedding, and then it is the first vector of the first document; the two empty cases give their AIError messages, and a build failure gives AIError |
| RigClient.ExtractKnowledge | src/infrastructure/ai/rig_client.rs:74-82 | a prompt failure is AIError "Extraction failed: …"; otherwise the fence-stripped answer is parsed, and a parse failure is ParseError |
| RigClient.RigAIService.UpdateConfig | src/infrastructure/ai/rig_client.rs:31-34 | the stored config becomes the argument, and the result is always Ok |
| Admin.UpdateConfig | src/interface/handlers/admin.rs:25-47 | without the force flag: SafetyGuardError and nothing changes. Otherwise reset, then create indexes at `embedding_dim`, then swap the config. A reset failure skips the rest. An index failure keeps the old config but not the wiped store. Success gives 200 with the message and the new config |
| Admin.RefusalResponse | src/domain/errors.rs:25 | a refused change answers 403 with "Admin operation requires force flag" |
| IngestHandler.ReadFields | src/interface/handlers/ingest.rs:34-70 | the field loop, with its early returns, ends in the state of the fold `ReadUpTo` over all fields |
| IngestHandler.IngestTask | src/interface/handlers/ingest.rs:29-91 | aborted or trimmed content under 5 bytes: no ingestion, the intake lines (plus the "too short" line), store and id counter untouched. Otherwise the ingestion's lines, then "DONE" on success or the critical-error line, with the store as the ingestion leaves it and one id drawn for the document and one per chunk processed. The index dimension never changes |
| IngestHandler.Ingested | src/interface/handlers/ingest.rs:83 | every progress event becomes one line, in order |
| IngestHandler.AbortIsFinal | src/interface/handlers/ingest.rs:47-59 | after a failing file field, later fields change nothing (the task returned) |
| IngestHandler.ReadUpToSpec | src/interface/handlers/ingest.rs:34-70 | the task ends early iff some file field fails; until then the content is that of the last field that supplied one (empty text fields ignored) |
| IngestHandler.FailingFieldLastLine | src/interface/handlers/ingest.rs:36-59 | a failing file field sends its reading line, then exactly one error line ("Error subida" or "Error parseando"), and ends the task |
| IngestHandler.BodyLines | src/interface/handlers/ingest.rs:94-96 | the streamed body split at newlines gives back exactly the messages, one each |
| Errors.IntoResponse | src/domain/errors.rs:21-36 | 400 iff ValidationError, 403 iff SafetyGuardError, otherwise 500. The body has the single key "error". Its message is the Display text for the first three kinds (ConfigError included) and "Internal Error: " + Display for the rest |
| Errors.DisplayInjective | src/domain/errors.rs:5-19 | different errors never display the same text |
| Errors.Prefix | src/domain/errors.rs:7-16 | every error with a detail displays as its fixed prefix followed by the detail |
| Models.ProviderFromName | src/domain/models.rs:9-14 | the provider names are exactly OpenAI, Ollama and Groq, and each parses back to its provider |
| Models.SerializeConfig | src/domain/models.rs:28-30 | the serialized config is an object with no "api_key" field |
| Models.ConfigRoundTrip | src/domain/models.rs:16-35 | deserializing a serialized config gives it back with the API key reset to the default "" |
| Models.ValidAfterRoundTrip | src/domain/models.rs:20-35 | a valid config (non-empty model names, URL-valid base URL) stays valid through the round trip |
| Text.TrimCutsWhitespace | src/interface/handlers/chat.rs:51 | `trim` keeps a contiguous piece with no whitespace at either end and removes only whitespace |
| Text.ReplaceChar | src/interface/handlers/chat.rs:51 | same length, each `from` replaced by `to`, every other character kept |
| Text.NatToString | src/interface/handlers/chat.rs:56 | decimal digits, at least one, with no leading zero (their value is stated by `NatToStringValue`) |
| Text.NatToStringValue | src/interface/handlers/chat.rs:56 | the digits written for n spell n: read back most significant first, they denote exactly n |
| Utf8.DecodeEncode | src/infrastructure/transmutation.rs:54 | decoding the UTF-8 encoding of a text gives the text back |
| Utf8.EncodeDecode | src/infrastructure/transmutation.rs:54 | bytes that decode are the encoding of what they decode to |
| Transmutation.FileName | src/infrastructure/transmutation.rs:21-22 | the file name, when there is one, is a normal path component (non-empty, no '/', neither "." nor "..") |
| Transmutation.Lower | src/infrastructure/transmutation.rs:24 | lowercasing keeps the length and maps each character on its own |
| Transmutation.LookupExtensions | src/infrastructure/transmutation.rs:26-33 | an extension maps to a format iff it is one of that format's listed extensions |
| Transmutation.FromFilename | src/infrastructure/transmutation.rs:20-35 | a format is found only when the name has an extension |
| Transmutation.FromFilenameSpec | src/infrastructure/transmutation.rs:20-35 | the format is f iff the name has an extension whose lowercase form is one of f's extensions |
| Transmutation.CaseInsensitive | src/infrastructure/transmutation.rs:21-24 | names equal up to case select the same format |
| Transmutation.LowerPicksSame | src/infrastructure/transmutation.rs:21-24 | lowercasing a name does not change the format it selects |
| Transmutation.FileNameOfComponent | src/infrastructure/transmutation.rs:21-22 | the file name of a normal component, alone or after a directory, is that component |
| Transmutation.ExtensionAfterLastDot | src/infrastructure/transmutation.rs:21-23 | the extension is the text after the last '.' of the file name |
| Transmutation.DotFileHasNoExtension | src/infrastructure/transmutation.rs:21-23 | a dot-file such as ".pdf" has no extension and no format |
| Transmutation.ExtensionShape | src/infrastructure/transmutation.rs:21-23 | an extension is a dot-free tail of the file name, preceded by '.' and by a non-empty stem |
| Transmutation.UnsupportedSpec | src/infrastructure/transmutation.rs:44-45 | `transmute` fails with "Formato no soportado: <name>" iff no format is found |
| Transmutation.PlainTextSpec | src/infrastructure/transmutation.rs:53-55 | a plain-text file gives t iff the bytes are t's UTF-8 encoding, and the UTF-8 error iff they encode no text |
| Transmutation.CsvDispatch | src/infrastructure/transmutation.rs:51 | a CSV file always succeeds, with the text the row assembly builds |
| Transmutation.ParseCsv | src/infrastructure/transmutation.rs:123-142 | the loop builds exactly `CsvText` of what the reader yields, and always returns Ok |
| Transmutation.PushLine | src/infrastructure/transmutation.rs:136-138 | appending a record adds its fields joined by " \| " and one newline |
| Transmutation.CsvFramed | src/infrastructure/transmutation.rs:128-141 | the text is the header part followed by one framed line per record that was read successfully; failed records are skipped |
| Transmutation.CsvLines | src/infrastructure/transmutation.rs:128-141 | for newline-free fields the output's lines are the joined header, "---", then the joined good records |

## Left out

- Floating point: `relevance` (`1.0 - i*0.1`) is replaced by the integer rank i. The f64→f32 conversion of embeddings is not modelled; an embedding is the provider's vector as given.
- Network and foreign calls: the rig/OpenAI clients, `EmbeddingsBuilder`, `agent.prompt`, the reqwest client and Neo4j's hybrid search. They are parameters: the `Oracle` of ingestion, the `ChatEnv` of the chat handler, and fault arguments of the store methods.
- `domain::ports` (the `KGRepository` and `AIService` traits) is not part of this model. The store is a class recording its calls, and its faults are arguments.
- Concurrency: `tokio::spawn`, the bounded `mpsc` channel (a send waits while the 10-line buffer is full; a send after the client disconnected fails and is ignored, so the task runs on and the model's line log is what was sent, not what was received), the `RwLock` guards and `ReceiverStream`. The lock is a plain field, and the channel is an append-only sequence of lines.
- UUID generation: `UuidSource` is a counter, so ids are fresh and distinct; their textual form is not modelled.
- The PDF, DOCX, XLSX and HTML parsers and the `csv` reader are oracles. `infrastructure::parsing` (`parse_text_from_bytes`) is not part of this model and is a parameter.
- Transmutation.Describe: the UTF-8 error message drops the detail `String::from_utf8` appends after "Error UTF-8: ", because that detail is library text.
- Transmutation.Lower: `to_lowercase` is modelled on ASCII letters only. The single non-ASCII character whose lowercase is ASCII is the Kelvin sign, which maps to 'k', and no listed extension contains a 'k', so the formats selected are unaffected.
- Transmutation.FileName: only Unix path semantics ('/' separators); Windows prefixes and '\\' separators are not modelled.
- IngestHandler.ReadFields: a `next_field` error ends the field loop like the end of the stream; the multipart wire format is not modelled.
- Chat.ChatHandler: the system prompt is modelled as the context text passed to generation; the fixed wording of its instructions is not. The store is trusted to return at most k = 5 contexts, and this is not checked.
- Models: `IngestionRequest` and its length constraint (`content` of at least 10 characters) are modelled by `Models.ValidIngestionRequest` only; no modelled operation uses that record. The URL validator is an abstract predicate.
- `main.rs`, the UI and graph handlers, and `IngestionResponse` from `dtos.rs` are outside the modelled core.
- `ingest_with_progress`'s `continue` and early `?` return are written as a loop that stops at the first store failure; the observable order of store calls and events is the same.
