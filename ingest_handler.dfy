/** The upload endpoint `ingest_document`: the background task reads the
    multipart fields, keeps the text of the last field that supplied one,
    refuses content that is (nearly) empty, runs the ingestion and closes
    the stream with "DONE" or a critical-error line. Every message becomes
    one line of the streamed body.

    The multipart stream is the list of fields it yields; a stream error
    ends it like the end of the stream. `parse_text_from_bytes` lives in a
    module that is not part of this model and is given as `parse`. */
module IngestHandler {
  import opened Wrappers
  import opened Text
  import opened Utf8
  import opened Errors
  import opened Ports
  import opened Chunker
  import opened Ingestion

  /** One multipart field: its name, its file name, and what reading it as
      bytes or as text yields. */
  datatype Field = Field(
    name: Option<string>,
    fileName: Option<string>,
    bytes: Result<seq<byte>, string>,
    text: Result<string, string>)

  /** `parse_text_from_bytes(label, bytes)`. */
  type Parser = (string, seq<byte>) -> Result<string, string>

  /** The lines the task sends; `Render` gives each one's text. */
  datatype Line =
    | Reading(fileLabel: string)
    | Parsing
    | ParseFailed(detail: string)
    | UploadFailed(detail: string)
    | DirectText
    | TooShort
    | Ingest(p: Progress)
    | DoneLine
    | Critical(e: AppError)

  function Render(l: Line): string
  {
    match l
    case Reading(fileLabel) => "📂 Leyendo archivo: " + fileLabel + "..."
    case Parsing => "📄 Parseando contenido..."
    case ParseFailed(d) => "❌ Error parseando: " + d
    case UploadFailed(d) => "❌ Error subida: Error parsing `multipart/form-data` request: " + d
    case DirectText => "📝 Recibido texto directo..."
    case TooShort => "❌ Error: Contenido vacío o muy corto."
    case Ingest(p) => Message(p)
    case DoneLine => "DONE"
    case Critical(e) => "❌ Error Crítico: " + Display(e)
  }

  /** The streamed body: each line's text followed by one newline. */
  function Body(lines: seq<Line>): string
  {
    Framed(seq(|lines|, i requires 0 <= i < |lines| => Render(lines[i])))
  }

  /** Minimum byte length of the trimmed content. */
  const MinContentBytes: nat := 5

  const DefaultLabel: string := "Text Input"

  // ---------------------------------------------------------------------
  // The field loop as a left fold

  /** What the field loop holds: the content so far, the label of the last
      file field, the lines sent, and whether the task has ended. */
  datatype Intake = Intake(content: string, fileLabel: string, lines: seq<Line>, aborted: bool)

  /** One turn of the field loop. */
  function ReadField(st: Intake, f: Field, parse: Parser): Intake
  {
    if st.aborted || f.name.None? then st
    else if f.name.value == "file" then
      var fileLabel := if f.fileName.Some? then f.fileName.value else "file";
      var st1 := st.(fileLabel := fileLabel, lines := st.lines + [Reading(fileLabel)]);
      match f.bytes
      case Err(e) => st1.(lines := st1.lines + [UploadFailed(e)], aborted := true)
      case Ok(b) =>
        var st2 := st1.(lines := st1.lines + [Parsing]);
        match parse(fileLabel, b)
        case Ok(t) => st2.(content := t)
        case Err(e) => st2.(lines := st2.lines + [ParseFailed(e)], aborted := true)
    else if f.name.value == "content" && f.text.Ok? && f.text.value != "" then
      st.(content := f.text.value, lines := st.lines + [DirectText])
    else st
  }

  /** The state after the first `i` fields. */
  function ReadUpTo(fields: seq<Field>, parse: Parser, i: nat): Intake
    requires i <= |fields|
  {
    if i == 0 then Intake("", DefaultLabel, [], false)
    else ReadField(ReadUpTo(fields, parse, i - 1), fields[i - 1], parse)
  }

  /** The loop over the fields, returning early when a file cannot be read
      or parsed. */
  method ReadFields(fields: seq<Field>, parse: Parser) returns (st: Intake)
    ensures st == ReadUpTo(fields, parse, |fields|)
  {
    var content, fileLabel, lines := "", DefaultLabel, [];
    var i := 0;
    while i < |fields|
      invariant i <= |fields|
      invariant ReadUpTo(fields, parse, i) == Intake(content, fileLabel, lines, false)
    {
      var field := fields[i];
      if field.name.Some? {
        var name := field.name.value;
        if name == "file" {
          fileLabel := if field.fileName.Some? then field.fileName.value else "file";
          lines := lines + [Reading(fileLabel)];
          match field.bytes
          case Ok(bytes) =>
            lines := lines + [Parsing];
            match parse(fileLabel, bytes) {
              case Ok(text) =>
                content := text;
              case Err(e) =>
                lines := lines + [ParseFailed(e)];
                AbortIsFinal(fields, parse, i + 1, |fields|);
                return Intake(content, fileLabel, lines, true);
            }
          case Err(e) =>
            lines := lines + [UploadFailed(e)];
            AbortIsFinal(fields, parse, i + 1, |fields|);
            return Intake(content, fileLabel, lines, true);
        } else if name == "content" {
          if field.text.Ok? {
            var text := field.text.value;
            if text != "" {
              content := text;
              lines := lines + [DirectText];
            }
          }
        }
      }
      i := i + 1;
    }
    st := Intake(content, fileLabel, lines, false);
  }

  // ---------------------------------------------------------------------
  // The task

  /** The spawned task of `ingest_document`, given the fields, the parser,
      and the store, id source and provider outcomes of the ingestion. It
      returns the lines sent on the stream. */
  method IngestTask(fields: seq<Field>, parse: Parser, store: KnowledgeStore, ids: UuidSource, o: Oracle)
    returns (lines: seq<Line>)
    modifies store, ids
    ensures var rd := ReadUpTo(fields, parse, |fields|);
            rd.aborted || ByteLen(Trim(rd.content)) < MinContentBytes ==>
              && lines == rd.lines + (if rd.aborted then [] else [TooShort])
              && store.ops == old(store.ops) && store.chunks == old(store.chunks)
              && store.graphs == old(store.graphs) && ids.next == old(ids.next)
    ensures var rd := ReadUpTo(fields, parse, |fields|);
            !rd.aborted && ByteLen(Trim(rd.content)) >= MinContentBytes ==>
              var texts := Split(rd.content);
              var fin := Run(texts, old(ids.next), o,
                             Initial(|texts|, old(store.chunks), old(store.graphs), old(store.ops)), |texts|);
              && lines == rd.lines + Ingested(fin.log)
                          + (if fin.fatal.None? then [Ingest(Finished), DoneLine] else [Critical(fin.fatal.value)])
              && store.ops == fin.ops && store.chunks == fin.chunks && store.graphs == fin.graphs
              && ids.next == old(ids.next) + 1 + fin.drawn
    ensures store.indexDim == old(store.indexDim)
  {
    var rd := ReadFields(fields, parse);
    lines := rd.lines;
    if rd.aborted {
      return;
    }
    if ByteLen(Trim(rd.content)) < MinContentBytes {
      lines := lines + [TooShort];
      return;
    }
    var r, progress := IngestWithProgress(rd.content, store, ids, o);
    lines := lines + Ingested(progress);
    match r
    case Ok(_) =>
      lines := lines + [DoneLine];
    case Err(e) =>
      lines := lines + [Critical(e)];
  }

  /** The ingestion's progress messages as lines of the stream. */
  function Ingested(ps: seq<Progress>): (ls: seq<Line>)
    ensures |ls| == |ps| && forall i :: 0 <= i < |ps| ==> ls[i] == Ingest(ps[i])
  {
    if ps == [] then [] else [Ingest(ps[0])] + Ingested(ps[1..])
  }

  // ---------------------------------------------------------------------
  // Properties of the field loop

  /** Once the task has ended, later fields change nothing. */
  lemma {:induction false} AbortIsFinal(fields: seq<Field>, parse: Parser, j: nat, k: nat)
    requires j <= k <= |fields| && ReadUpTo(fields, parse, j).aborted
    ensures ReadUpTo(fields, parse, k) == ReadUpTo(fields, parse, j)
    decreases k
  {
    if k > j {
      AbortIsFinal(fields, parse, j, k - 1);
    }
  }

  /** The text a field would make the content: a readable and parsable
      file, or a non-empty text field. */
  function Supplied(f: Field, parse: Parser): Option<string>
  {
    if f.name == Some("file") && f.bytes.Ok? then
      var fileLabel := if f.fileName.Some? then f.fileName.value else "file";
      match parse(fileLabel, f.bytes.value)
      case Ok(t) => Some(t)
      case Err(_) => None
    else if f.name == Some("content") && f.text.Ok? && f.text.value != "" then Some(f.text.value)
    else None
  }

  /** A file field the task stops at: its bytes cannot be read or its text
      cannot be parsed. */
  predicate Fails(f: Field, parse: Parser)
  {
    f.name == Some("file")
    && (f.bytes.Err? || parse(if f.fileName.Some? then f.fileName.value else "file", f.bytes.value).Err?)
  }

  /** The content of the last of the first `i` fields that supplied one, or
      the empty text when none did. */
  function LastSupplied(fields: seq<Field>, parse: Parser, i: nat): string
    requires i <= |fields|
  {
    if i == 0 then ""
    else if Supplied(fields[i - 1], parse).Some? then Supplied(fields[i - 1], parse).value
    else LastSupplied(fields, parse, i - 1)
  }

  /** The task ends early exactly when some file field fails; until then the
      content is the text of the last field that supplied one (last wins,
      and an empty text field is ignored). */
  lemma {:induction false} ReadUpToSpec(fields: seq<Field>, parse: Parser, i: nat)
    requires i <= |fields|
    ensures ReadUpTo(fields, parse, i).aborted <==> exists j :: 0 <= j < i && Fails(fields[j], parse)
    ensures !ReadUpTo(fields, parse, i).aborted ==> ReadUpTo(fields, parse, i).content == LastSupplied(fields, parse, i)
  {
    if i > 0 {
      ReadUpToSpec(fields, parse, i - 1);
      if !ReadUpTo(fields, parse, i - 1).aborted {
        var f := fields[i - 1];
        assert ReadUpTo(fields, parse, i).aborted <==> Fails(f, parse);
      }
    }
  }

  /** A failing file field sends exactly one error line, as the last line. */
  lemma FailingFieldLastLine(fields: seq<Field>, parse: Parser, i: nat)
    requires i < |fields| && !ReadUpTo(fields, parse, i).aborted && Fails(fields[i], parse)
    ensures var st := ReadUpTo(fields, parse, i + 1);
            var f := fields[i];
            var fileLabel := if f.fileName.Some? then f.fileName.value else "file";
            && st.aborted
            && (f.bytes.Err? ==> st.lines == ReadUpTo(fields, parse, i).lines + [Reading(fileLabel), UploadFailed(f.bytes.error)])
            && (f.bytes.Ok? ==> st.lines == ReadUpTo(fields, parse, i).lines
                                            + [Reading(fileLabel), Parsing, ParseFailed(parse(fileLabel, f.bytes.value).error)])
  {
  }

  /** The body is one line per message: splitting it at its newlines gives
      back the texts of the lines, as long as no text holds a newline. */
  lemma BodyLines(lines: seq<Line>)
    requires forall i :: 0 <= i < |lines| ==> NoNewline(Render(lines[i]))
    ensures SplitLines(Body(lines)) == seq(|lines|, i requires 0 <= i < |lines| => Render(lines[i]))
  {
    SplitFramed(seq(|lines|, i requires 0 <= i < |lines| => Render(lines[i])));
  }
}
