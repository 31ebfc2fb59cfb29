/**
 * The hand-written `multipart/form-data` parser of the photo upload (RFC 7578).
 * The body is read as Latin-1 text, split on the delimiter `--<boundary>`
 * (section 5.1.1 of RFC 2046), and each part contributes one text field or one
 * file, looked up by the `name` of its `Content-Disposition` header.
 */
module Multipart {
  import opened Wrappers
  import opened Text
  import Seqs

  newtype byte = b: int | 0 <= b < 256

  const CRLF := "\r\n"
  /** The blank line that ends a part's headers. */
  const BlankLine := "\r\n\r\n"
  const DispositionPrefix := "Content-Disposition: form-data; name=\""
  const FilenamePrefix := "; filename=\""
  const NoBoundary := "No boundary found in Content-Type"

  predicate NotSemicolon(c: char) { c != ';' }

  predicate NotQuote(c: char) { c != '"' }

  /**
   * The capture of `/boundary=([^;]+)/` at the leftmost place it matches: the run
   * of characters up to the next `;`, which must not be empty.
   */
  function Boundary(ct: string): (r: Option<string>)
    ensures r.Some? ==> r.value != "" && ';' !in r.value
    decreases |ct|
  {
    if StartsWith(ct, "boundary=") && |ct| > 9 && ct[9] != ';' then Some(TakeWhile(NotSemicolon, ct[9..]))
    else if ct == [] then None
    else Boundary(ct[1..])
  }

  /** `"([^"]+)"` at the front of `s` (after the opening quote): the non-empty run closed by a quote. */
  function Quoted(s: string): (r: Option<string>)
    ensures r.Some? ==> r.value != "" && '"' !in r.value && |r.value| < |s| && s[|r.value|] == '"'
  {
    var run := TakeWhile(NotQuote, s);
    if run != [] && |run| < |s| then Some(run) else None
  }

  datatype Disposition = Disposition(name: string, filename: Option<string>)

  /**
   * The disposition pattern tried at the front of `h`: the name, then an optional
   * `; filename="…"` that is captured only when it matches in full.
   */
  function MatchAt(h: string): Option<Disposition>
  {
    if !StartsWith(h, DispositionPrefix) then None
    else
      match Quoted(h[|DispositionPrefix|..])
      case None => None
      case Some(name) =>
        var tail := h[|DispositionPrefix| + |name| + 1..];
        Some(Disposition(name, if StartsWith(tail, FilenamePrefix) then Quoted(tail[|FilenamePrefix|..]) else None))
  }

  /** `headerSection.match(…)`: the leftmost position where the disposition pattern matches. */
  function FindDisposition(h: string): Option<Disposition>
    decreases |h|
  {
    match MatchAt(h)
    case Some(d) => Some(d)
    case None => if h == [] then None else FindDisposition(h[1..])
  }

  datatype Entry = FieldEntry(name: string, value: string) | FileEntry(name: string, content: string)

  /** What one piece between delimiters contributes, if anything. */
  function ReadPart(part: string): Option<Entry>
  {
    if Trim(part) == "" || Trim(part) == "--" then None
    else
      var pieces := SplitOn(part, BlankLine);
      var header := pieces[0];
      if header == "" then None
      else
        var content := RemoveSuffix(Trim(Join(pieces[1..], BlankLine)), "\r\n--");
        match FindDisposition(header)
        case None => None
        case Some(d) => Some(if d.filename.Some? then FileEntry(d.name, content) else FieldEntry(d.name, content))
  }

  /** `Buffer.from(content, 'binary')`: each character's low byte. */
  function Bytes(s: string): (r: seq<byte>)
    ensures |r| == |s|
    ensures forall i :: 0 <= i < |s| ==> r[i] as int == (s[i] as int) % 256
  {
    if s == [] then [] else [((s[0] as int) % 256) as byte] + Bytes(s[1..])
  }

  /** `body.toString('binary')`: each byte becomes the character with that code. */
  function Latin1(bs: seq<byte>): (s: string)
    ensures |s| == |bs|
    ensures forall i :: 0 <= i < |bs| ==> s[i] as int == bs[i] as int
  {
    if bs == [] then [] else [(bs[0] as int) as char] + Latin1(bs[1..])
  }

  /** Reading a body as text and turning a piece of it back into bytes loses nothing. */
  lemma BytesLatin1(bs: seq<byte>)
    ensures Bytes(Latin1(bs)) == bs
  {
  }

  datatype Form = Form(fields: map<string, string>, files: map<string, seq<byte>>)

  /** `fields.set` or `files.set`: a later entry with the same name replaces an earlier one. */
  function Add(f: Form, e: Option<Entry>): Form
  {
    match e
    case None => f
    case Some(FieldEntry(n, v)) => f.(fields := f.fields[n := v])
    case Some(FileEntry(n, c)) => f.(files := f.files[n := Bytes(c)])
  }

  /** The maps after reading the pieces in order. */
  function FormOf(parts: seq<string>): Form
  {
    if parts == [] then Form(map[], map[])
    else Add(FormOf(parts[..|parts| - 1]), ReadPart(parts[|parts| - 1]))
  }

  /** `parseMultipartFormData(body, contentType)`, with the thrown error as a failure. */
  function Parse(body: string, ct: string): Result<Form, string>
  {
    match Boundary(ct)
    case None => Failure(NoBoundary)
    case Some(b) => Success(FormOf(SplitOn(body, "--" + b)))
  }

  method ParseMultipartFormData(body: string, contentType: string) returns (r: Result<Form, string>)
    ensures r == Parse(body, contentType)
  {
    var boundary := Boundary(contentType);
    if boundary.None? {
      return Failure(NoBoundary);
    }
    var fields, files := ReadParts(SplitOn(body, "--" + boundary.value));
    r := Success(Form(fields, files));
  }

  /** The loop over the pieces between delimiters, filling the two maps. */
  method ReadParts(parts: seq<string>) returns (fields: map<string, string>, files: map<string, seq<byte>>)
    ensures Form(fields, files) == FormOf(parts)
  {
    fields, files := map[], map[];
    var i := 0;
    while i < |parts|
      invariant i <= |parts|
      invariant Form(fields, files) == FormOf(parts[..i])
    {
      FormOfStep(parts, i);
      fields, files := AddEntry(fields, files, ReadPart(parts[i]));
      i := i + 1;
    }
    assert parts[..i] == parts;
  }

  /** The loop body: `fields.set` for a field, `files.set` for a file, nothing for a piece without a name. */
  method AddEntry(fields: map<string, string>, files: map<string, seq<byte>>, entry: Option<Entry>)
    returns (fields': map<string, string>, files': map<string, seq<byte>>)
    ensures Form(fields', files') == Add(Form(fields, files), entry)
  {
    fields', files' := fields, files;
    match entry {
      case None =>
      case Some(FieldEntry(n, v)) => fields' := fields[n := v];
      case Some(FileEntry(n, c)) => files' := files[n := Bytes(c)];
    }
  }

  lemma FormOfStep(parts: seq<string>, i: nat)
    requires i < |parts|
    ensures FormOf(parts[..i + 1]) == Add(FormOf(parts[..i]), ReadPart(parts[i]))
  {
    assert parts[..i + 1][..i] == parts[..i];
  }

  // ---------------------------------------------------------------- boundary parameter

  /** Text before the parameter that holds no `b` cannot start a match, so the search moves past it. */
  lemma {:induction false} BoundarySkip(pre: string, s: string)
    requires 'b' !in pre
    ensures Boundary(pre + s) == Boundary(s)
    decreases |pre|
  {
    if pre != [] {
      assert (pre + s)[0] == pre[0];
      assert !StartsWith(pre + s, "boundary=");
      assert (pre + s)[1..] == pre[1..] + s;
      BoundarySkip(pre[1..], s);
    } else {
      assert pre + s == s;
    }
  }

  /** A content type without `boundary=` has no boundary, and the parse fails. */
  lemma {:induction false} NoBoundaryParameter(ct: string)
    requires !Includes(ct, "boundary=")
    ensures Boundary(ct) == None && Parse("", ct) == Failure(NoBoundary)
    decreases |ct|
  {
    if ct != [] {
      NoBoundaryParameter(ct[1..]);
    }
  }

  /** At a `boundary=` that precedes the value, the capture is the value up to the next `;`. */
  lemma BoundaryAt(b: string, rest: string)
    requires b != "" && ';' !in b
    requires rest == [] || rest[0] == ';'
    ensures Boundary("boundary=" + b + rest) == Some(b)
  {
    var s := "boundary=" + b + rest;
    assert s[..9] == "boundary=";
    assert s[9..] == b + rest;
    assert s[9] == b[0];
    TakeWhileAll(NotSemicolon, b, rest);
  }

  /** The boundary of a `multipart/form-data; boundary=<b>` header, possibly followed by more `;` parameters, is `b`. */
  lemma BoundaryOfContentType(b: string, rest: string)
    requires b != "" && ';' !in b
    requires rest == [] || rest[0] == ';'
    ensures Boundary("multipart/form-data; boundary=" + b + rest) == Some(b)
  {
    var pre := "multipart/form-data; ";
    var s := "boundary=" + b + rest;
    assert "multipart/form-data; boundary=" + b + rest == pre + s;
    assert 'b' !in pre;
    BoundarySkip(pre, s);
    BoundaryAt(b, rest);
  }

  // ---------------------------------------------------------------- encoding a form

  /** A form part as a client writes it: a text field, or a file with its name and media type. */
  datatype FormPart =
    | TextPart(name: string, value: string)
    | FilePart(name: string, filename: string, mime: string, content: string)

  predicate NoLineBreak(s: string)
  {
    '\r' !in s && '\n' !in s
  }

  /** Header values without line breaks, so that the part's header lines stay as written. */
  predicate Printable(p: FormPart)
  {
    NoLineBreak(p.name) && (p.FilePart? ==> NoLineBreak(p.filename) && NoLineBreak(p.mime))
  }

  /** Names the disposition pattern can capture: non-empty and without quotes. */
  predicate WellFormed(p: FormPart)
  {
    && Printable(p) && p.name != "" && '"' !in p.name
    && (p.FilePart? ==> p.filename != "" && '"' !in p.filename)
  }

  function DispositionLine(p: FormPart): string
  {
    DispositionPrefix + p.name + "\"" + (if p.FilePart? then FilenamePrefix + p.filename + "\"" else "")
  }

  /** The part's header lines, each introduced by the line break that follows the delimiter. */
  function HeaderOf(p: FormPart): string
  {
    CRLF + DispositionLine(p) + (if p.FilePart? then CRLF + "Content-Type: " + p.mime else "")
  }

  function ContentOf(p: FormPart): string
  {
    if p.TextPart? then p.value else p.content
  }

  /** The text between two delimiters for one part. */
  function PartText(p: FormPart): string
  {
    HeaderOf(p) + BlankLine + ContentOf(p) + CRLF
  }

  /** A body with the given parts: a delimiter before each part and the close delimiter `--<b>--` at the end. */
  function Encode(b: string, parts: seq<FormPart>): string
  {
    Join([""] + Seqs.Map(PartText, parts) + ["--" + CRLF], "--" + b)
  }

  /** What the parser keeps of a part's content: trimmed, and without a trailing `\r\n--`. */
  function Stripped(content: string): string
  {
    RemoveSuffix(Trim(content), "\r\n--")
  }

  function EntryOf(p: FormPart): Entry
  {
    if p.TextPart? then FieldEntry(p.name, Stripped(p.value)) else FileEntry(p.name, Stripped(p.content))
  }

  /** The maps a list of parts should give: later parts with the same name win. */
  function Collect(parts: seq<FormPart>): Form
  {
    if parts == [] then Form(map[], map[])
    else Add(Collect(parts[..|parts| - 1]), Some(EntryOf(parts[|parts| - 1])))
  }

  // ---------------------------------------------------------------- round trip

  /**
   * Parsing an encoded form gives back its parts, provided the boundary does not occur
   * inside any part (section 5.1.1 of RFC 2046 demands this of the sender).
   */
  lemma ParseEncoded(b: string, ct: string, parts: seq<FormPart>)
    requires Boundary(ct) == Some(b) && NoLineBreak(b)
    requires forall k :: 0 <= k < |parts| ==> WellFormed(parts[k]) && OnlyAtEnd(PartText(parts[k]), "--" + b)
    ensures Parse(Encode(b, parts), ct) == Success(Collect(parts))
  {
    var d := "--" + b;
    var texts := Seqs.Map(PartText, parts);
    var pieces := [""] + texts + ["--" + CRLF];
    forall k | 0 <= k < |pieces| - 1
      ensures OnlyAtEnd(pieces[k], d)
    {
      if k > 0 {
        assert pieces[k] == PartText(parts[k - 1]);
      }
    }
    CloseNotDelimiter(b);
    SplitJoin(pieces, d);
    assert pieces[..|pieces| - 1] == [""] + texts;
    CloseIgnored();
    FormOfTexts(parts);
  }

  /** A form with one text field followed by one file reads back as that field and that file. */
  lemma ParseFieldAndFile(b: string, ct: string, field: FormPart, file: FormPart)
    requires Boundary(ct) == Some(b) && NoLineBreak(b)
    requires field.TextPart? && file.FilePart? && WellFormed(field) && WellFormed(file)
    requires OnlyAtEnd(PartText(field), "--" + b) && OnlyAtEnd(PartText(file), "--" + b)
    ensures Parse(Encode(b, [field, file]), ct)
         == Success(Form(map[field.name := Stripped(field.value)], map[file.name := Bytes(Stripped(file.content))]))
  {
    PairWellFormed(b, field, file);
    ParseEncoded(b, ct, [field, file]);
    CollectPair(field, file);
  }

  lemma PairWellFormed(b: string, field: FormPart, file: FormPart)
    requires WellFormed(field) && WellFormed(file)
    requires OnlyAtEnd(PartText(field), "--" + b) && OnlyAtEnd(PartText(file), "--" + b)
    ensures forall k :: 0 <= k < |[field, file]| ==> WellFormed([field, file][k]) && OnlyAtEnd(PartText([field, file][k]), "--" + b)
  {
  }

  lemma CollectPair(field: FormPart, file: FormPart)
    requires field.TextPart? && file.FilePart?
    ensures Collect([field, file]) == Form(map[field.name := Stripped(field.value)], map[file.name := Bytes(Stripped(file.content))])
  {
    CollectOne(field);
    CollectStep([field], file);
    assert [field] + [file] == [field, file];
  }

  lemma CollectOne(field: FormPart)
    requires field.TextPart?
    ensures Collect([field]) == Form(map[field.name := Stripped(field.value)], map[])
  {
    CollectStep([], field);
    assert [] + [field] == [field];
  }

  lemma CollectStep(parts: seq<FormPart>, p: FormPart)
    ensures Collect(parts + [p]) == Add(Collect(parts), Some(EntryOf(p)))
  {
    assert (parts + [p])[..|parts|] == parts;
  }

  lemma CloseNotDelimiter(b: string)
    requires b != "" && NoLineBreak(b)
    ensures !Includes("--" + CRLF, "--" + b)
  {
    var s := "--" + CRLF;
    var d := "--" + b;
    assert b[0] in b;
    assert s[2] == '\r' && d[2] == b[0];
    DiffersAt(s, d, 2);
    assert s[1..][1] == '\r' && d[1] == '-';
    DiffersAt(s[1..], d, 1);
    assert s[1..][1..] == s[2..];
    ShortExcludes(s[2..], d);
  }

  /** A piece that trims to `--` (what follows the close delimiter) contributes nothing. */
  lemma TrimmedDashesIgnored(part: string)
    requires Trim(part) == "--"
    ensures ReadPart(part) == None
  {
  }

  lemma CloseIgnored()
    ensures ReadPart("--" + CRLF) == None
  {
    CloseTrims();
    TrimmedDashesIgnored("--" + CRLF);
  }

  lemma CloseTrims()
    ensures Trim("--" + CRLF) == "--"
  {
    CrlfIsSpace();
    TrimAppendSpace("--", CRLF);
    DashesTrimmed();
  }

  lemma CrlfIsSpace()
    ensures AllJsSpace(CRLF)
  {
    assert |CRLF| == 2 && IsJsSpace(CRLF[0]) && IsJsSpace(CRLF[1]);
  }

  lemma DashesTrimmed()
    ensures Trim("--") == "--"
  {
    assert !IsJsSpace('-');
    TrimUnchanged("--");
  }

  lemma {:induction false} FormOfTexts(parts: seq<FormPart>)
    requires forall k :: 0 <= k < |parts| ==> WellFormed(parts[k])
    ensures FormOf([""] + Seqs.Map(PartText, parts)) == Collect(parts)
  {
    if parts == [] {
      assert [""] + Seqs.Map(PartText, parts) == [""];
      assert Trim("") == "";
    } else {
      var init := parts[..|parts| - 1];
      FormOfTexts(init);
      var pieces := [""] + Seqs.Map(PartText, parts);
      assert pieces[..|pieces| - 1] == [""] + Seqs.Map(PartText, init);
      ReadPartText(parts[|parts| - 1]);
    }
  }

  /** One encoded part reads back as its entry. */
  lemma ReadPartText(p: FormPart)
    requires WellFormed(p)
    ensures ReadPart(PartText(p)) == Some(EntryOf(p))
  {
    ReadPartShape(p);
    HeaderDisposition(p);
  }

  /** The headers of an encoded part reach the disposition search whole, and its content is what is kept. */
  lemma ReadPartShape(p: FormPart)
    requires Printable(p)
    ensures ReadPart(PartText(p)) ==
      match FindDisposition(HeaderOf(p))
      case None => None
      case Some(d) => Some(if d.filename.Some? then FileEntry(d.name, Stripped(ContentOf(p))) else FieldEntry(d.name, Stripped(ContentOf(p))))
  {
    PartNotBlank(p);
    PartContent(p);
  }

  /** The header piece is the part's header, and what follows it reads back as its stripped content. */
  lemma PartContent(p: FormPart)
    requires Printable(p)
    ensures var pieces := SplitOn(PartText(p), BlankLine);
      && pieces[0] == HeaderOf(p) && pieces[0] != ""
      && RemoveSuffix(Trim(Join(pieces[1..], BlankLine)), "\r\n--") == Stripped(ContentOf(p))
  {
    PartPieces(p);
    HeaderStart(p);
    TrimAppendSpace(ContentOf(p), CRLF);
  }

  /** A part's text starts, after its line break, with the `C` of its disposition line. */
  lemma PartNotBlank(p: FormPart)
    requires Printable(p)
    ensures Trim(PartText(p)) != "" && Trim(PartText(p)) != "--"
  {
    PartTextStart(p);
    TrimFirstChar(CRLF, 'C', PartText(p)[3..]);
  }

  lemma PartTextStart(p: FormPart)
    requires Printable(p)
    ensures |PartText(p)| >= 3 && PartText(p) == CRLF + ['C'] + PartText(p)[3..]
  {
    HeaderStart(p);
    KeepsStart(HeaderOf(p), BlankLine, ContentOf(p), CRLF);
  }

  lemma KeepsStart(h: string, a: string, b: string, c: string)
    requires |h| >= 3 && h[..3] == CRLF + ['C']
    ensures var t := h + a + b + c; |t| >= 3 && t == CRLF + ['C'] + t[3..]
  {
    var t := h + a + b + c;
    assert t[..3] == h[..3];
    assert t == t[..3] + t[3..];
  }

  /** The blank line splits a part's text into its header and its content line. */
  lemma PartPieces(p: FormPart)
    requires Printable(p)
    ensures var pieces := SplitOn(PartText(p), BlankLine);
      pieces[0] == HeaderOf(p) && Join(pieces[1..], BlankLine) == ContentOf(p) + CRLF
  {
    var h := HeaderOf(p);
    var body := ContentOf(p) + CRLF;
    assert PartText(p) == h + BlankLine + body;
    HeaderOnlyAtEnd(p);
    SplitAfter(h, BlankLine, body);
    JoinSplit(body, BlankLine);
  }

  lemma LineFacts(p: FormPart)
    requires Printable(p)
    ensures |DispositionLine(p)| > 0 && DispositionLine(p)[0] == 'C'
    ensures '\r' !in DispositionLine(p)
  {
    var dp := DispositionPrefix;
    var opt := if p.FilePart? then FilenamePrefix + p.filename + "\"" else "";
    assert DispositionLine(p) == dp + (p.name + ("\"" + opt));
    assert dp[0] == 'C';
    assert '\r' !in dp;
    assert '\r' !in opt by {
      if p.FilePart? {
        assert '\r' !in FilenamePrefix;
      }
    }
  }

  /** The lines after the disposition line: a `Content-Type` line for a file, nothing for a field. */
  function Extra(p: FormPart): string
  {
    if p.FilePart? then CRLF + "Content-Type: " + p.mime else ""
  }

  lemma HeaderStart(p: FormPart)
    requires Printable(p)
    ensures HeaderOf(p) == CRLF + DispositionLine(p) + Extra(p)
    ensures |HeaderOf(p)| >= 3 && HeaderOf(p)[..3] == CRLF + ['C']
  {
    LineFacts(p);
    var line := DispositionLine(p);
    assert HeaderOf(p) == CRLF + line + Extra(p);
    assert HeaderOf(p)[2] == line[0];
  }

  /** Every carriage return in `h` starts a line break followed by a `C`. */
  predicate ReturnsBeforeC(h: string)
  {
    forall i :: 0 <= i < |h| && h[i] == '\r' ==> i + 2 < |h| && h[i + 2] == 'C'
  }

  /** A header line: a line break, then a line that starts with `C` and has no carriage return. */
  lemma HeaderLine(line: string)
    requires line != [] && line[0] == 'C' && '\r' !in line
    ensures ReturnsBeforeC(CRLF + line)
  {
    var h := CRLF + line;
    forall i | 0 <= i < |h|
      ensures h[i] == '\r' ==> i + 2 < |h| && h[i + 2] == 'C'
    {
      if i >= 2 {
        assert h[i] == line[i - 2] && line[i - 2] in line;
      }
    }
  }

  lemma ReturnsAppend(a: string, b: string)
    requires ReturnsBeforeC(a) && ReturnsBeforeC(b)
    ensures ReturnsBeforeC(a + b)
  {
    var h := a + b;
    forall i | 0 <= i < |h| && h[i] == '\r'
      ensures i + 2 < |h| && h[i + 2] == 'C'
    {
      if i < |a| {
        assert h[i] == a[i] && h[i + 2] == a[i + 2];
      } else {
        assert h[i] == b[i - |a|] && h[i + 2] == b[i + 2 - |a|];
      }
    }
  }

  lemma HeaderReturns(p: FormPart)
    requires Printable(p)
    ensures ReturnsBeforeC(HeaderOf(p))
  {
    HeaderStart(p);
    LineFacts(p);
    HeaderLine(DispositionLine(p));
    if p.FilePart? {
      FileHeaderReturns(p);
    } else {
      assert HeaderOf(p) == CRLF + DispositionLine(p);
    }
  }

  lemma FileHeaderReturns(p: FormPart)
    requires Printable(p) && p.FilePart?
    requires ReturnsBeforeC(CRLF + DispositionLine(p))
    ensures ReturnsBeforeC(HeaderOf(p))
  {
    HeaderStart(p);
    var t := "Content-Type: " + p.mime;
    assert '\r' !in "Content-Type: ";
    assert t[0] == 'C';
    HeaderLine(t);
    assert Extra(p) == CRLF + t;
    ReturnsAppend(CRLF + DispositionLine(p), CRLF + t);
  }

  /** The header holds no blank line, so the first blank line of a part ends its headers. */
  lemma HeaderOnlyAtEnd(p: FormPart)
    requires Printable(p)
    ensures OnlyAtEnd(HeaderOf(p), BlankLine)
  {
    var h := HeaderOf(p);
    var x := h + BlankLine;
    HeaderReturns(p);
    forall i | 0 <= i < |h|
      ensures !StartsWith(x[i..], BlankLine)
    {
      assert x[i] == h[i];
      if h[i] == '\r' {
        assert x[i + 2] == h[i + 2];
        DiffersAt(x[i..], BlankLine, 2);
      } else {
        DiffersAt(x[i..], BlankLine, 0);
      }
    }
  }

  /** A text that does not start with `C` cannot match the disposition pattern there. */
  lemma NoMatchAt(h: string)
    requires h != [] && h[0] != 'C'
    ensures MatchAt(h) == None
  {
    var dp := DispositionPrefix;
    assert dp[0] == 'C';
    DiffersAt(h, dp, 0);
  }

  /** The disposition search skips the leading line break of the header. */
  lemma SkipLineBreak(p: FormPart)
    requires Printable(p)
    ensures FindDisposition(HeaderOf(p)) == FindDisposition(DispositionLine(p) + Extra(p))
  {
    HeaderStart(p);
    LineBreakStart(HeaderOf(p));
    SkipTwo(HeaderOf(p));
    DropLineBreak(DispositionLine(p), Extra(p));
  }

  lemma LineBreakStart(h: string)
    requires |h| >= 3 && h[..3] == CRLF + ['C']
    ensures h[0] == '\r' && h[1] == '\n'
  {
    assert h[0] == h[..3][0] && h[1] == h[..3][1];
  }

  /** The disposition pattern cannot match at either character of a line break. */
  lemma SkipTwo(h: string)
    requires |h| >= 2 && h[0] == '\r' && h[1] == '\n'
    ensures FindDisposition(h) == FindDisposition(h[2..])
  {
    SkipOne(h);
    SkipOne(h[1..]);
    assert h[1..][1..] == h[2..];
  }

  lemma SkipOne(h: string)
    requires h != [] && h[0] != 'C'
    ensures FindDisposition(h) == FindDisposition(h[1..])
  {
    NoMatchAt(h);
  }

  lemma DropLineBreak(b: string, c: string)
    ensures (CRLF + b + c)[2..] == b + c
  {
  }

  /** The disposition pattern finds the part's own name and, for a file, its file name. */
  lemma HeaderDisposition(p: FormPart)
    requires WellFormed(p)
    ensures FindDisposition(HeaderOf(p)) == Some(Disposition(p.name, if p.FilePart? then Some(p.filename) else None))
  {
    SkipLineBreak(p);
    var tail := NameMatch(p);
    if p.FilePart? {
      FilenameMatch(p.filename, Extra(p));
    } else {
      assert tail == "";
    }
  }

  /** The name pattern captures the part's name; what follows its closing quote is returned. */
  lemma NameMatch(p: FormPart) returns (tail: string)
    requires Printable(p) && p.name != "" && '"' !in p.name
    ensures tail == (if p.FilePart? then FilenamePrefix + p.filename + "\"" else "") + Extra(p)
    ensures MatchAt(DispositionLine(p) + Extra(p)) ==
      Some(Disposition(p.name, if StartsWith(tail, FilenamePrefix) then Quoted(tail[|FilenamePrefix|..]) else None))
  {
    var opt := if p.FilePart? then FilenamePrefix + p.filename + "\"" else "";
    tail := opt + Extra(p);
    assert DispositionLine(p) + Extra(p) == DispositionPrefix + (p.name + ("\"" + tail));
    MatchAfterPrefix(p.name, tail);
  }

  lemma MatchAfterPrefix(name: string, tail: string)
    requires name != "" && '"' !in name
    ensures MatchAt(DispositionPrefix + (name + ("\"" + tail))) ==
      Some(Disposition(name, if StartsWith(tail, FilenamePrefix) then Quoted(tail[|FilenamePrefix|..]) else None))
  {
    var dp := DispositionPrefix;
    var s := dp + (name + ("\"" + tail));
    assert s[..|dp|] == dp;
    assert s[|dp|..] == name + ("\"" + tail);
    QuotedRun(name, tail);
    assert s[|dp| + |name| + 1..] == tail;
  }

  /** A quoted run is captured up to its closing quote. */
  lemma QuotedRun(run: string, rest: string)
    requires run != "" && '"' !in run
    ensures Quoted(run + ("\"" + rest)) == Some(run)
  {
    TakeWhileAll(NotQuote, run, "\"" + rest);
  }

  /** The file-name pattern captures a non-empty file name without quotes. */
  lemma FilenameMatch(filename: string, extra: string)
    requires filename != "" && '"' !in filename
    ensures var tail := FilenamePrefix + filename + "\"" + extra;
      StartsWith(tail, FilenamePrefix) && Quoted(tail[|FilenamePrefix|..]) == Some(filename)
  {
    var fp := FilenamePrefix;
    var tail := fp + filename + "\"" + extra;
    assert tail == fp + (filename + ("\"" + extra));
    assert tail[..|fp|] == fp;
    assert tail[|fp|..] == filename + ("\"" + extra);
    QuotedRun(filename, extra);
  }

  /** A file whose content differs only by white space at its edges is stored the same: such bytes are lost. */
  lemma EdgeWhitespaceLost(name: string, filename: string, mime: string, content: string, ws: string)
    requires AllJsSpace(ws)
    ensures EntryOf(FilePart(name, filename, mime, content + ws)) == EntryOf(FilePart(name, filename, mime, content))
  {
    TrimAppendSpace(content, ws);
  }

  /** A file part whose file name is empty is read as a text field, since the file-name pattern needs a character. */
  lemma EmptyFilenameIsField(name: string, mime: string, content: string)
    requires name != "" && '"' !in name && NoLineBreak(name) && NoLineBreak(mime)
    ensures ReadPart(PartText(FilePart(name, "", mime, content))) == Some(FieldEntry(name, Stripped(content)))
  {
    var p := FilePart(name, "", mime, content);
    ReadPartShape(p);
    SkipLineBreak(p);
    var tail := NameMatch(p);
    EmptyFilename(Extra(p));
  }

  lemma EmptyFilename(extra: string)
    ensures var tail := FilenamePrefix + "" + "\"" + extra;
      StartsWith(tail, FilenamePrefix) && Quoted(tail[|FilenamePrefix|..]) == None
  {
    var fp := FilenamePrefix;
    var tail := fp + "" + "\"" + extra;
    assert tail[..|fp|] == fp;
    assert tail[|fp|..] == "\"" + extra;
  }
}
