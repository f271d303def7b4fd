// Multipart bodies (mastomini_rs/src/http.rs, `Params::add_multipart`). A body is a string whose characters stand
// for its bytes; `utf8` is the decoding of text in it.
module Multipart {
  import opened Options
  import opened Text

  const CRLF: string := "\r\n"

  datatype Upload = Upload(name: string, filename: string, contentType: string, data: string)

  datatype Field = Field(name: string, value: string)

  datatype Error = InvalidBoundary | MalformedBody | MalformedPart | MalformedHeaders | UnterminatedPart

  // ---------------------------------------------------------------------------
  // The parser
  // ---------------------------------------------------------------------------

  predicate BoundaryChar(c: char) {
    ('a' <= c <= 'z') || ('A' <= c <= 'Z') || ('0' <= c <= '9')
    || c in {'\'', '(', ')', '+', '_', ',', '-', '.', '/', ':', '=', '?', ' '}
  }

  predicate ValidBoundary(boundary: string) {
    boundary != "" && |boundary| <= 70 && boundary[|boundary| - 1] != ' ' && forall c :: c in boundary ==> BoundaryChar(c)
  }

  predicate Stands(s: string, needle: string, at: nat) {
    at + |needle| <= |s| && s[at..at + |needle|] == needle
  }

  predicate EndsWith(s: string, end: string) {
    |end| <= |s| && s[|s| - |end|..] == end
  }

  /** What may follow a delimiter: the end of its line, or two dashes and the end of the line or the body. */
  predicate Delimits(suffix: string) {
    CRLF <= suffix || ("--" <= suffix && (suffix[2..] == "" || CRLF <= suffix[2..]))
  }

  /** A delimiter stands at the start or after a line end, and is a whole line, closing dashes aside. */
  predicate IsDelimiter(s: string, delimiter: string, at: nat) {
    && Stands(s, delimiter, at) && (at == 0 || EndsWith(s[..at], CRLF)) && Delimits(s[at + |delimiter|..])
  }

  function FindDelimiter(s: string, delimiter: string, from: nat): (at: Option<nat>)
    ensures at.Some? ==> from <= at.value && at.value + |delimiter| <= |s|
    decreases |s| + 1 - from
  {
    if from + |delimiter| > |s| then None
    else if IsDelimiter(s, delimiter, from) then Some(from)
    else FindDelimiter(s, delimiter, from + 1)
  }

  function Find(s: string, needle: string, from: nat): (at: Option<nat>)
    ensures at.Some? ==> from <= at.value && at.value + |needle| <= |s|
    decreases |s| + 1 - from
  {
    if from + |needle| > |s| then None
    else if Stands(s, needle, from) then Some(from)
    else Find(s, needle, from + 1)
  }

  function StripQuotes(s: string): string {
    if s != "" && s[0] == '"' then StripQuotes(s[1..])
    else if s != "" && s[|s| - 1] == '"' then StripQuotes(s[..|s| - 1])
    else s
  }

  /** The value of the first of some parts that has a key. */
  function ValueIn(parts: seq<string>, key: string): Option<string> {
    if parts == [] then None
    else
      var part := Trim(parts[0]);
      var at := IndexOf(part, {'='});
      if at < |part| && Lowercase(part[..at]) == key then Some(StripQuotes(Trim(part[at + 1..])))
      else ValueIn(parts[1..], key)
  }

  function DispositionValue(line: string, key: string): Option<string> {
    ValueIn(Split(line, ';'), key)
  }

  datatype Headers = Headers(name: Option<string>, filename: Option<string>, contentType: string)

  const DISPOSITION: string := "content-disposition:"
  const TYPE: string := "content-type:"

  function HeaderLine(h: Headers, line: string): Headers {
    var lower := Lowercase(line);
    if DISPOSITION <= lower then h.(name := DispositionValue(line, "name"), filename := DispositionValue(line, "filename"))
    else if TYPE <= lower then h.(contentType := Trim(lower[|TYPE|..]))
    else h
  }

  function HeaderLines(h: Headers, lines: seq<string>): Headers
    decreases |lines|
  {
    if lines == [] then h else HeaderLines(HeaderLine(h, lines[0]), lines[1..])
  }

  const NO_HEADERS := Headers(None, None, "application/octet-stream")

  /** What parsing has pushed, and how it ended. */
  datatype Parsed = Parsed(fields: seq<Field>, files: seq<Upload>, error: Option<Error>)

  /** The next part after a delimiter: what it adds, and what follows its own delimiter. */
  datatype Next = Closed | Failed(error: Error) | Part(headers: string, data: string, rest: string)

  function NextPart(rest: string, delimiter: string): (next: Next)
    ensures next.Part? ==> |next.rest| < |rest|
  {
    if "--" <= rest then Closed
    else if !(CRLF <= rest) then Failed(MalformedPart)
    else
      var body := rest[2..];
      var headerEnd := Find(body, CRLF + CRLF, 0);
      if headerEnd.None? then Failed(MalformedHeaders)
      else
        var content := body[headerEnd.value + 4..];
        var end := FindDelimiter(content, delimiter, 0);
        if end.None? then Failed(UnterminatedPart)
        else
          var data := content[..end.value];
          Part(body[..headerEnd.value], if EndsWith(data, CRLF) then data[..|data| - 2] else data,
               content[end.value + |delimiter|..])
  }

  /** What one part adds: a file if it has a file name, else a field; nothing without a name. */
  function Added(utf8: string -> string, headers: string, data: string): Parsed {
    var h := HeaderLines(NO_HEADERS, Lines(utf8(headers)));
    if h.name.None? then Parsed([], [], None)
    else if h.filename.Some? then Parsed([], [Upload(h.name.value, h.filename.value, h.contentType, data)], None)
    else Parsed([Field(h.name.value, utf8(data))], [], None)
  }

  function ParseParts(utf8: string -> string, rest: string, delimiter: string): Parsed
    decreases |rest|
  {
    match NextPart(rest, delimiter)
    case Closed => Parsed([], [], None)
    case Failed(error) => Parsed([], [], Some(error))
    case Part(headers, data, next) =>
      var added, later := Added(utf8, headers, data), ParseParts(utf8, next, delimiter);
      Parsed(added.fields + later.fields, added.files + later.files, later.error)
  }

  function ParseMultipart(utf8: string -> string, body: string, boundary: string): Parsed {
    var delimiter := "--" + boundary;
    if !ValidBoundary(boundary) then Parsed([], [], Some(InvalidBoundary))
    else
      var start := FindDelimiter(body, delimiter, 0);
      if start.None? then Parsed([], [], Some(MalformedBody))
      else ParseParts(utf8, body[start.value + |delimiter|..], delimiter)
  }

  class Params {
    var fields: seq<Field>
    var files: seq<Upload>

    /** Adds the body's fields and files to those there already; what came before an error stays. */
    method AddMultipart(utf8: string -> string, body: string, boundary: string) returns (error: Option<Error>)
      modifies this
      ensures var parsed := ParseMultipart(utf8, body, boundary);
              error == parsed.error && fields == old(fields) + parsed.fields && files == old(files) + parsed.files
    {
      if !ValidBoundary(boundary) { return Some(InvalidBoundary); }
      var delimiter := "--" + boundary;
      var start := FindDelimiter(body, delimiter, 0);
      if start.None? { return Some(MalformedBody); }
      error := AddParts(utf8, body[start.value + |delimiter|..], delimiter);
    }

    method AddParts(utf8: string -> string, body: string, delimiter: string) returns (error: Option<Error>)
      modifies this
      ensures var parsed := ParseParts(utf8, body, delimiter);
              error == parsed.error && fields == old(fields) + parsed.fields && files == old(files) + parsed.files
    {
      var rest := body;
      ghost var all := ParseParts(utf8, rest, delimiter);
      while true
        invariant fields + ParseParts(utf8, rest, delimiter).fields == old(fields) + all.fields
        invariant files + ParseParts(utf8, rest, delimiter).files == old(files) + all.files
        invariant ParseParts(utf8, rest, delimiter).error == all.error
        decreases |rest|
      {
        var next := NextPart(rest, delimiter);
        match next {
          case Closed => return None;
          case Failed(e) => return Some(e);
          case Part(headers, data, after) =>
            ghost var later := ParseParts(utf8, after, delimiter);
            JoinFields(fields, Added(utf8, headers, data).fields, later.fields);
            JoinFiles(files, Added(utf8, headers, data).files, later.files);
            AddPart(utf8, headers, data);
            rest := after;
        }
      }
    }

    method AddPart(utf8: string -> string, headers: string, data: string)
      modifies this
      ensures fields == old(fields) + Added(utf8, headers, data).fields
      ensures files == old(files) + Added(utf8, headers, data).files
    {
      var h := CollectHeaders(Lines(utf8(headers)));
      if h.name.None? { return; }
      if h.filename.Some? {
        files := files + [Upload(h.name.value, h.filename.value, h.contentType, data)];
      } else {
        fields := fields + [Field(h.name.value, utf8(data))];
      }
    }
  }

  lemma JoinFields(a: seq<Field>, b: seq<Field>, c: seq<Field>)
    ensures a + (b + c) == (a + b) + c
  {
  }

  lemma JoinFiles(a: seq<Upload>, b: seq<Upload>, c: seq<Upload>)
    ensures a + (b + c) == (a + b) + c
  {
  }

  method CollectHeaders(lines: seq<string>) returns (h: Headers)
    ensures h == HeaderLines(NO_HEADERS, lines)
  {
    h := NO_HEADERS;
    for i := 0 to |lines|
      invariant HeaderLines(h, lines[i..]) == HeaderLines(NO_HEADERS, lines)
    {
      assert lines[i..][1..] == lines[i + 1..];
      h := HeaderLine(h, lines[i]);
    }
  }
}
