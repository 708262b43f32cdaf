/** Document transmutation: choosing a parser from the file name's
    extension, turning plain-text bytes into a string, and laying out the
    rows of a CSV file as text. The PDF, DOCX, XLSX and HTML parsers and the
    CSV reader are libraries that are not part of this model; they are
    given as functions of the bytes. */
module Transmutation {
  import opened Wrappers
  import opened Text
  import opened Utf8

  /** `SupportedFormat`. */
  datatype SupportedFormat = PDF | DOCX | XLSX | CSV | HTML | PlainText

  // ---------------------------------------------------------------------
  // `Path::file_name` and `Path::extension` on Unix paths

  /** Index just past the last `'/'` of `s`, or 0 when there is none: where
      the last component starts. */
  function ComponentStart(s: string): (k: nat)
    ensures k <= |s|
    ensures forall i :: k <= i < |s| ==> s[i] != '/'
    ensures k > 0 ==> s[k - 1] == '/'
  {
    if s == [] then 0
    else if s[|s| - 1] == '/' then |s|
    else ComponentStart(s[..|s| - 1])
  }

  /** A component that `file_name` can return: not empty, without a
      separator, and neither `.` nor `..`. */
  predicate NormalComponent(c: string)
  {
    c != "" && c != "." && c != ".." && '/' !in c
  }

  /** `Path::file_name`: the last component, skipping empty components and
      `.`; `None` when the path ends in `..` or has no normal component. */
  function FileName(path: string): (r: Option<string>)
    ensures r.Some? ==> NormalComponent(r.value)
    decreases |path|
  {
    var k := ComponentStart(path);
    var last := path[k..];
    if last == "" || last == "." then
      if k == 0 then None else FileName(path[..k - 1])
    else if last == ".." then None
    else Some(last)
  }

  /** Index of the last `'.'` of `s`. */
  function LastDot(s: string): (r: Option<nat>)
    ensures r.None? ==> forall i :: 0 <= i < |s| ==> s[i] != '.'
    ensures r.Some? ==> r.value < |s| && s[r.value] == '.'
    ensures r.Some? ==> forall i :: r.value < i < |s| ==> s[i] != '.'
  {
    if s == [] then None
    else if s[|s| - 1] == '.' then Some(|s| - 1)
    else LastDot(s[..|s| - 1])
  }

  /** `Path::extension`: the text after the last `'.'` of the file name,
      unless that dot is the name's first character. */
  function Extension(path: string): Option<string>
  {
    match FileName(path)
    case None => None
    case Some(name) => NameExtension(name)
  }

  /** The extension of a file name. */
  function NameExtension(name: string): Option<string>
  {
    match LastDot(name)
    case None => None
    case Some(d) => if d == 0 then None else Some(name[d + 1..])
  }

  // ---------------------------------------------------------------------
  // `from_filename`

  function AsciiLower(c: char): char
  {
    if 'A' <= c <= 'Z' then (c as int + 32) as char else c
  }

  /** `str::to_lowercase`, on ASCII letters. */
  function Lower(s: string): (r: string)
    ensures |r| == |s|
    ensures forall i :: 0 <= i < |s| ==> r[i] == AsciiLower(s[i])
  {
    seq(|s|, i requires 0 <= i < |s| => AsciiLower(s[i]))
  }

  /** The match on the lowercased extension. */
  function Lookup(ext: string): Option<SupportedFormat>
  {
    if ext == "pdf" then Some(PDF)
    else if ext == "docx" then Some(DOCX)
    else if ext == "xlsx" || ext == "xls" then Some(XLSX)
    else if ext == "csv" then Some(CSV)
    else if ext == "html" || ext == "htm" then Some(HTML)
    else if ext == "txt" || ext == "md" || ext == "json" || ext == "xml" then Some(PlainText)
    else None
  }

  /** The extensions each format is recognised by. */
  function Extensions(f: SupportedFormat): set<string>
  {
    match f
    case PDF => {"pdf"}
    case DOCX => {"docx"}
    case XLSX => {"xlsx", "xls"}
    case CSV => {"csv"}
    case HTML => {"html", "htm"}
    case PlainText => {"txt", "md", "json", "xml"}
  }

  /** `SupportedFormat::from_filename`. */
  function FromFilename(filename: string): (r: Option<SupportedFormat>)
    ensures r.Some? ==> Extension(filename).Some?
  {
    match Extension(filename)
    case None => None
    case Some(ext) => Lookup(Lower(ext))
  }

  // ---------------------------------------------------------------------
  // `transmute`

  /** Why a transmutation fails. */
  datatype TransmuteError =
    | Unsupported(filename: string)
    | InvalidUtf8
    | ParserFailed(message: string)

  /** The message the error carries; the decoder's detail after the UTF-8
      prefix is not modelled. */
  function Describe(e: TransmuteError): string
  {
    match e
    case Unsupported(f) => "Formato no soportado: " + f
    case InvalidUtf8 => "Error UTF-8"
    case ParserFailed(m) => m
  }

  /** What `csv::Reader` yields for some bytes: the header record and each
      following record, either of which may fail to read. */
  datatype CsvRead = CsvRead(headers: Result<seq<string>, string>, records: seq<Result<seq<string>, string>>)

  /** The format libraries, as functions of the bytes. */
  datatype Parsers = Parsers(
    pdf: seq<byte> -> Result<string, string>,
    docx: seq<byte> -> Result<string, string>,
    xlsx: seq<byte> -> Result<string, string>,
    html: seq<byte> -> Result<string, string>,
    csv: seq<byte> -> CsvRead)

  function Lift(r: Result<string, string>): Result<string, TransmuteError>
  {
    match r
    case Ok(t) => Ok(t)
    case Err(m) => Err(ParserFailed(m))
  }

  /** `DocumentTransmuter::transmute`. */
  function Transmute(filename: string, data: seq<byte>, ps: Parsers): Result<string, TransmuteError>
  {
    match FromFilename(filename)
    case None => Err(Unsupported(filename))
    case Some(PDF) => Lift(ps.pdf(data))
    case Some(DOCX) => Lift(ps.docx(data))
    case Some(XLSX) => Lift(ps.xlsx(data))
    case Some(CSV) => Ok(CsvText(ps.csv(data)))
    case Some(HTML) => Lift(ps.html(data))
    case Some(PlainText) =>
      match Decode(data)
      case None => Err(InvalidUtf8)
      case Some(t) => Ok(t)
  }

  // ---------------------------------------------------------------------
  // `parse_csv`

  const Separator: string := " | "
  const HeaderBreak: string := "\n---\n"
  const HeaderRule: string := "---"

  /** The header fields joined, then the break under them, when the header
      could be read. */
  function HeaderPart(h: Result<seq<string>, string>): string
  {
    if h.Ok? then Join(h.value, Separator) + HeaderBreak else ""
  }

  /** One record's fields joined, then a newline. */
  function Line(fields: seq<string>): string
  {
    Join(fields, Separator) + "\n"
  }

  /** The text after the header part and the first `i` records; a record
      that failed to read adds nothing. */
  function CsvUpTo(rd: CsvRead, i: nat): string
    requires i <= |rd.records|
  {
    if i == 0 then HeaderPart(rd.headers)
    else
      var prev := CsvUpTo(rd, i - 1);
      if rd.records[i - 1].Ok? then prev + Line(rd.records[i - 1].value) else prev
  }

  /** The text `parse_csv` builds from what the reader yields. */
  function CsvText(rd: CsvRead): string
  {
    CsvUpTo(rd, |rd.records|)
  }

  /** `parse_csv`: the header line, then one line per record that was read. */
  method ParseCsv(data: seq<byte>, read: seq<byte> -> CsvRead) returns (r: Result<string, TransmuteError>)
    ensures r == Ok(CsvText(read(data)))
  {
    var rd := read(data);
    var text := "";
    if rd.headers.Ok? {
      var joined := Join(rd.headers.value, Separator);
      text := text + joined;
      assert text == joined;
      text := text + HeaderBreak;
    }
    var i := 0;
    while i < |rd.records|
      invariant i <= |rd.records|
      invariant text == CsvUpTo(rd, i)
    {
      var rec := rd.records[i];
      if rec.Ok? {
        text := PushLine(text, rec.value);
      }
      i := i + 1;
    }
    return Ok(text);
  }

  /** Appends the fields joined by the separator, then a newline. */
  method PushLine(text: string, fields: seq<string>) returns (text': string)
    ensures text' == text + Line(fields)
  {
    var row := Join(fields, Separator);
    text' := text + row;
    text' := text' + "\n";
  }

  /** The joined fields of those of the first `i` records that were read,
      in order: failed records leave no line. */
  function ReadRows(records: seq<Result<seq<string>, string>>, i: nat): seq<string>
    requires i <= |records|
  {
    if i == 0 then []
    else ReadRows(records, i - 1) + (if records[i - 1].Ok? then [Join(records[i - 1].value, Separator)] else [])
  }

  /** A field without a newline. */
  predicate Clean(fields: seq<string>)
  {
    forall j :: 0 <= j < |fields| ==> NoNewline(fields[j])
  }

  // ---------------------------------------------------------------------
  // Properties

  /** The lookup and the reverse table agree: an extension picks a format
      exactly when it is one of that format's extensions. */
  lemma LookupExtensions(ext: string, f: SupportedFormat)
    ensures Lookup(ext) == Some(f) <==> ext in Extensions(f)
  {
  }

  /** A file name picks a format exactly when it has an extension whose
      lowercase form is one of that format's; otherwise `transmute` refuses
      it as unsupported. */
  lemma FromFilenameSpec(filename: string, f: SupportedFormat)
    ensures FromFilename(filename) == Some(f)
            <==> Extension(filename).Some? && Lower(Extension(filename).value) in Extensions(f)
  {
    if Extension(filename).Some? {
      LookupExtensions(Lower(Extension(filename).value), f);
    }
  }

  /** `transmute` fails as unsupported exactly when the name picks no
      format, and then names the file. */
  lemma UnsupportedSpec(filename: string, data: seq<byte>, ps: Parsers)
    ensures Transmute(filename, data, ps) == Err(Unsupported(filename)) <==> FromFilename(filename).None?
    ensures Describe(Unsupported(filename)) == "Formato no soportado: " + filename
  {
  }
  /** Lowercasing twice is lowercasing once. */
  lemma LowerIdempotent(s: string)
    ensures Lower(Lower(s)) == Lower(s)
  {
    assert forall i :: 0 <= i < |s| ==> Lower(Lower(s))[i] == Lower(s)[i];
  }

  /** Lowercasing keeps separators and dots where they are, so it commutes
      with slicing. */
  lemma LowerSlice(s: string, i: nat, j: nat)
    requires i <= j <= |s|
    ensures Lower(s)[i..j] == Lower(s[i..j])
  {
    var a, b := Lower(s)[i..j], Lower(s[i..j]);
    forall k | 0 <= k < |b|
      ensures a[k] == b[k]
    {
      assert a[k] == AsciiLower(s[i + k]);
    }
  }

  /** The last component starts at the same place in the lowercased path. */
  lemma ComponentStartLower(s: string)
    ensures ComponentStart(Lower(s)) == ComponentStart(s)
  {
    var k, m := ComponentStart(s), ComponentStart(Lower(s));
    assert m > 0 ==> s[m - 1] == '/';
    assert k > 0 ==> Lower(s)[k - 1] == '/';
  }

  function LowerOpt(o: Option<string>): Option<string>
  {
    if o.Some? then Some(Lower(o.value)) else None
  }

  /** The file name of the lowercased path is the lowercased file name. */
  lemma {:induction false} FileNameLower(path: string)
    ensures FileName(Lower(path)) == LowerOpt(FileName(path))
    decreases |path|
  {
    var lp := Lower(path);
    var k := ComponentStart(path);
    ComponentStartLower(path);
    LowerSlice(path, k, |path|);
    var last := path[k..];
    assert lp[k..] == Lower(last);
    SpecialLower(last);
    if (last == "" || last == ".") && k > 0 {
      LowerSlice(path, 0, k - 1);
      FileNameLower(path[..k - 1]);
      assert FileName(lp) == FileName(lp[..k - 1]);
    } else if last != "" && last != "." && last != ".." {
      assert FileName(lp) == Some(lp[k..]);
    }
  }

  /** Lowercasing neither makes nor unmakes the empty, `.` and `..`
      components. */
  lemma SpecialLower(c: string)
    ensures Lower(c) == "" <==> c == ""
    ensures Lower(c) == "." <==> c == "."
    ensures Lower(c) == ".." <==> c == ".."
  {
    if |c| == 1 {
      assert Lower(c)[0] == AsciiLower(c[0]);
    } else if |c| == 2 {
      assert Lower(c)[0] == AsciiLower(c[0]) && Lower(c)[1] == AsciiLower(c[1]);
    }
  }

  /** The last dot sits at the same place in the lowercased name. */
  lemma LastDotLower(s: string)
    ensures LastDot(Lower(s)) == LastDot(s)
  {
    var a, b := LastDot(s), LastDot(Lower(s));
    assert a.Some? ==> Lower(s)[a.value] == '.';
    assert b.Some? ==> s[b.value] == '.';
  }

  /** The extension of the lowercased name is the lowercased extension. */
  lemma NameExtensionLower(name: string)
    ensures NameExtension(Lower(name)) == LowerOpt(NameExtension(name))
  {
    LastDotLower(name);
    if LastDot(name).Some? {
      var d := LastDot(name).value;
      if d > 0 {
        LowerSuffix(name, d + 1);
      }
    }
  }

  lemma LowerSuffix(s: string, i: nat)
    requires i <= |s|
    ensures Lower(s)[i..] == Lower(s[i..])
  {
    var a, b := Lower(s)[i..], Lower(s[i..]);
    forall k | 0 <= k < |b|
      ensures a[k] == b[k]
    {
      assert a[k] == AsciiLower(s[i + k]);
    }
  }

  /** The extension of the lowercased path is the lowercased extension. */
  lemma ExtensionLower(path: string)
    ensures Extension(Lower(path)) == LowerOpt(Extension(path))
  {
    FileNameLower(path);
    if FileName(path).Some? {
      NameExtensionLower(FileName(path).value);
    }
  }

  /** Extension matching ignores case: two names that differ only in the
      case of ASCII letters pick the same format. */
  lemma CaseInsensitive(p: string, q: string)
    requires Lower(p) == Lower(q)
    ensures FromFilename(p) == FromFilename(q)
  {
    LowerPicksSame(p);
    LowerPicksSame(q);
  }

  lemma LowerPicksSame(p: string)
    ensures FromFilename(Lower(p)) == FromFilename(p)
  {
    ExtensionLower(p);
    if Extension(p).Some? {
      LowerIdempotent(Extension(p).value);
    }
  }

  /** A normal component is its own file name, also after any directory. */
  lemma FileNameOfComponent(dir: string, name: string)
    requires NormalComponent(name)
    ensures FileName(name) == Some(name)
    ensures FileName(dir + "/" + name) == Some(name)
  {
    var path := dir + "/" + name;
    var k := ComponentStart(path);
    assert path[|dir|] == '/';
    assert forall i :: |dir| + 1 <= i < |path| ==> path[i] == name[i - |dir| - 1];
    assert k == |dir| + 1;
    assert path[k..] == name;
  }

  /** Only the text after the last dot counts, as long as something comes
      before that dot. */
  lemma ExtensionAfterLastDot(path: string, base: string, ext: string)
    requires FileName(path) == Some(base + "." + ext)
    requires base != "" && '.' !in ext
    ensures Extension(path) == Some(ext)
  {
    var name := base + "." + ext;
    assert name[|base|] == '.';
    var d := LastDot(name).value;
    assert forall i :: |base| < i < |name| ==> name[i] == ext[i - |base| - 1];
    assert d == |base|;
    assert name[d + 1..] == ext;
  }

  /** A dot-file such as `.pdf` has no extension, so no format. */
  lemma DotFileHasNoExtension(path: string, rest: string)
    requires FileName(path) == Some("." + rest)
    requires '.' !in rest
    ensures Extension(path) == None
    ensures FromFilename(path) == None
  {
    var name := "." + rest;
    assert name[0] == '.';
    var d := LastDot(name).value;
    assert forall i :: 0 < i < |name| ==> name[i] == rest[i - 1];
    assert d == 0;
  }

  /** Whatever the extension is, the name ends with a dot and then the
      extension, after at least one other character. */
  lemma ExtensionShape(path: string, ext: string)
    requires Extension(path) == Some(ext)
    ensures FileName(path).Some?
    ensures var name := FileName(path).value;
            && |ext| + 2 <= |name|
            && name == name[..|name| - |ext| - 1] + "." + ext
            && '.' !in ext
  {
    var name := FileName(path).value;
    var d := LastDot(name).value;
    assert name == name[..d] + "." + name[d + 1..];
  }

  /** Plain text is exactly the text whose UTF-8 encoding is the data; the
      data are refused exactly when no text encodes to them. */
  lemma PlainTextSpec(filename: string, data: seq<byte>, ps: Parsers, t: string)
    requires FromFilename(filename) == Some(PlainText)
    ensures Transmute(filename, data, ps) == Ok(t) <==> Encode(t) == data
    ensures Transmute(filename, data, ps) == Err(InvalidUtf8) <==> forall s :: Encode(s) != data
  {
    if Decode(data).Some? {
      EncodeDecode(data);
    }
    if Encode(t) == data {
      DecodeEncode(t);
    }
    if Decode(data).None? {
      forall s
        ensures Encode(s) != data
      {
        DecodeEncode(s);
      }
    }
  }

  /** CSV never fails: it yields the reader's text, whatever the bytes. */
  lemma CsvDispatch(filename: string, data: seq<byte>, ps: Parsers)
    requires FromFilename(filename) == Some(CSV)
    ensures Transmute(filename, data, ps) == Ok(CsvText(ps.csv(data)))
  {
  }

  /** The CSV text is the header part followed by one framed line per record
      that was read; failed records are skipped. */
  lemma {:induction false} CsvFramed(rd: CsvRead, i: nat)
    requires i <= |rd.records|
    ensures CsvUpTo(rd, i) == HeaderPart(rd.headers) + Framed(ReadRows(rd.records, i))
  {
    var head := HeaderPart(rd.headers);
    if i == 0 {
      assert head + Framed([]) == head;
    } else {
      CsvFramed(rd, i - 1);
      var before := ReadRows(rd.records, i - 1);
      var rec := rd.records[i - 1];
      var extra := if rec.Ok? then [Join(rec.value, Separator)] else [];
      FramedAppend(before, extra);
      assert ReadRows(rd.records, i) == before + extra;
      if rec.Ok? {
        assert Framed(extra) == Line(rec.value);
        calc {
          CsvUpTo(rd, i);
          (head + Framed(before)) + Line(rec.value);
          { AppendAssoc(head, Framed(before), Line(rec.value)); }
          head + (Framed(before) + Framed(extra));
        }
      } else {
        assert Framed(before) + Framed(extra) == Framed(before);
      }
    }
  }

  /** A client splitting the CSV text at newlines gets the header line, the
      rule, and one line per record that was read, provided no field holds a
      newline. */
  lemma CsvLines(rd: CsvRead)
    requires rd.headers.Ok? ==> Clean(rd.headers.value)
    requires forall j :: 0 <= j < |rd.records| && rd.records[j].Ok? ==> Clean(rd.records[j].value)
    ensures SplitLines(CsvText(rd))
            == (if rd.headers.Ok? then [Join(rd.headers.value, Separator), HeaderRule] else []) + ReadRows(rd.records, |rd.records|)
  {
    SeparatorsClean();
    var rows := ReadRows(rd.records, |rd.records|);
    CsvFramed(rd, |rd.records|);
    ReadRowsClean(rd.records, |rd.records|);
    var head := if rd.headers.Ok? then [Join(rd.headers.value, Separator), HeaderRule] else [];
    if rd.headers.Ok? {
      JoinClean(rd.headers.value, Separator);
      assert head[1..] == [HeaderRule];
      assert Framed([HeaderRule]) == HeaderRule + "\n";
      assert Framed(head) == head[0] + "\n" + (HeaderRule + "\n");
      assert "\n" + (HeaderRule + "\n") == HeaderBreak;
    }
    assert Framed(head) == HeaderPart(rd.headers);
    var all := head + rows;
    forall j | 0 <= j < |all|
      ensures NoNewline(all[j])
    {
      if j >= |head| {
        assert all[j] == rows[j - |head|];
      }
    }
    FramedAppend(head, rows);
    SplitFramed(all);
  }

  /** The separator and the rule hold no newline. */
  lemma SeparatorsClean()
    ensures NoNewline(Separator) && NoNewline(HeaderRule)
  {
    assert Separator == [' ', '|', ' '];
    assert HeaderRule == ['-', '-', '-'];
  }

  lemma {:induction false} ReadRowsClean(records: seq<Result<seq<string>, string>>, i: nat)
    requires i <= |records|
    requires forall j :: 0 <= j < |records| && records[j].Ok? ==> Clean(records[j].value)
    ensures forall j :: 0 <= j < |ReadRows(records, i)| ==> NoNewline(ReadRows(records, i)[j])
  {
    if i > 0 {
      SeparatorsClean();
      ReadRowsClean(records, i - 1);
      if records[i - 1].Ok? {
        JoinClean(records[i - 1].value, Separator);
      }
    }
  }

  /** Joining newline-free fields with the separator gives a newline-free
      line. */
  lemma {:induction false} JoinClean(fields: seq<string>, sep: string)
    requires Clean(fields) && NoNewline(sep)
    ensures NoNewline(Join(fields, sep))
  {
    if |fields| > 1 {
      JoinClean(fields[1..], sep);
      var r := fields[0] + sep + Join(fields[1..], sep);
      forall i | 0 <= i < |r|
        ensures r[i] != '\n'
      {
        if i < |fields[0]| {
          assert r[i] == fields[0][i];
        } else if i < |fields[0]| + |sep| {
          assert r[i] == sep[i - |fields[0]|];
        } else {
          assert r[i] == Join(fields[1..], sep)[i - |fields[0]| - |sep|];
        }
      }
    } else if |fields| == 1 {
      assert NoNewline(fields[0]);
    }
  }
}
