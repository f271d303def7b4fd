// Parsing undoes the encoding of multipart bodies (RFC 2046 section 5.1.1).
module MultipartRoundTrip {
  import opened Options
  import opened Text
  import opened Multipart

  // ---------------------------------------------------------------------------
  // The encoding
  // ---------------------------------------------------------------------------

  datatype Item = TextItem(name: string, data: string)
                | FileItem(name: string, filename: string, contentType: string, data: string)

  const NAME: string := "Content-Disposition: form-data; name=\""
  const FILENAME: string := "; filename=\""
  const CONTENT_TYPE: string := "Content-Type: "

  function Disposition(item: Item): string {
    NAME + (item.name + ("\"" + if item.TextItem? then "" else FILENAME + (item.filename + "\"")))
  }

  function HeaderText(item: Item): string {
    match item
    case TextItem(_, _) => Disposition(item)
    case FileItem(_, _, contentType, _) => Disposition(item) + (CRLF + (CONTENT_TYPE + contentType))
  }

  /** What follows a delimiter. */
  function Tail(items: seq<Item>, delimiter: string, epilogue: string): string {
    if items == [] then "--" + epilogue
    else
      CRLF + (HeaderText(items[0]) + ((CRLF + CRLF)
      + (items[0].data + (CRLF + (delimiter + Tail(items[1..], delimiter, epilogue))))))
  }

  function Encoded(items: seq<Item>, boundary: string, preamble: Option<string>, epilogue: string): string {
    var delimiter := "--" + boundary;
    var body := delimiter + Tail(items, delimiter, epilogue);
    if preamble.Some? then preamble.value + (CRLF + body) else body
  }

  /** A line of a text, between line ends, that is the delimiter or the closing delimiter. */
  predicate DelimiterLine(s: string, delimiter: string, at: nat) {
    && at + |delimiter| <= |s| && s[at..at + |delimiter|] == delimiter && (at == 0 || EndsWith(s[..at], CRLF))
    && var rest := s[at + |delimiter|..]; rest == "" || rest == "--" || CRLF <= rest || "--" + CRLF <= rest
  }

  ghost predicate NoDelimiterLine(s: string, delimiter: string) {
    forall at: nat :: at <= |s| ==> !DelimiterLine(s, delimiter, at)
  }

  predicate OneLine(s: string) {
    '\r' !in s && '\n' !in s
  }

  predicate CleanName(s: string) {
    OneLine(s) && '"' !in s && ';' !in s
  }

  ghost predicate Encodable(item: Item, delimiter: string) {
    && CleanName(item.name) && NoDelimiterLine(item.data, delimiter)
    && (item.FileItem? ==> CleanName(item.filename) && OneLine(item.contentType))
  }

  // ---------------------------------------------------------------------------
  // Decoding text
  // ---------------------------------------------------------------------------

  predicate Ascii(c: char) {
    c < '\U{80}'
  }

  /** UTF-8 with replacement characters: a one-byte character stands for itself whatever is around it, and nothing
      else is read as one. */
  ghost predicate DecodesText(utf8: string -> string) {
    && utf8("") == ""
    && (forall a, c, b :: Ascii(c) ==> utf8(a + ([c] + b)) == utf8(a) + ([c] + utf8(b)))
    && (forall s, c :: Ascii(c) && c in utf8(s) ==> c in s)
  }

  lemma DecodeAround(utf8: string -> string, a: string, c: char, b: string)
    requires DecodesText(utf8) && Ascii(c)
    ensures utf8(a + ([c] + b)) == utf8(a) + ([c] + utf8(b))
  {
  }

  lemma {:induction false} DecodeAfter(utf8: string -> string, literal: string, rest: string)
    requires DecodesText(utf8) && forall c :: c in literal ==> Ascii(c)
    ensures utf8(literal + rest) == literal + utf8(rest)
  {
    if literal == "" {
      assert literal + rest == rest;
    } else {
      var c, more := literal[0], literal[1..];
      assert literal + rest == "" + ([c] + (more + rest));
      DecodeAround(utf8, "", c, more + rest);
      DecodeAfter(utf8, more, rest);
    }
  }

  function DecodedItem(utf8: string -> string, item: Item): Item {
    match item
    case TextItem(name, data) => TextItem(utf8(name), utf8(data))
    case FileItem(name, filename, contentType, data) => FileItem(utf8(name), utf8(filename), utf8(contentType), data)
  }

  lemma LiteralsAreAscii()
    ensures forall c :: c in NAME ==> Ascii(c)
    ensures forall c :: c in FILENAME ==> Ascii(c)
    ensures forall c :: c in CRLF + CONTENT_TYPE ==> Ascii(c)
  {
  }

  lemma HeaderDecodes(utf8: string -> string, item: Item)
    requires DecodesText(utf8)
    ensures utf8(HeaderText(item)) == HeaderText(DecodedItem(utf8, item))
  {
    LiteralsAreAscii();
    match item
    case TextItem(name, _) =>
      DecodeAfter(utf8, NAME, name + ("\"" + ""));
      DecodeAround(utf8, name, '"', "");
    case FileItem(name, filename, contentType, _) =>
      var typed := (CRLF + CONTENT_TYPE) + contentType;
      var file := FILENAME + (filename + ("\"" + typed));
      FileHeader(item);
      FileHeader(DecodedItem(utf8, item));
      DecodeAfter(utf8, NAME, name + ("\"" + file));
      DecodeAround(utf8, name, '"', file);
      DecodeAfter(utf8, FILENAME, filename + ("\"" + typed));
      DecodeAround(utf8, filename, '"', typed);
      DecodeAfter(utf8, CRLF + CONTENT_TYPE, contentType);
  }

  lemma FileHeader(item: Item)
    requires item.FileItem?
    ensures HeaderText(item)
         == NAME + (item.name + ("\"" + (FILENAME + (item.filename + ("\"" + ((CRLF + CONTENT_TYPE) + item.contentType))))))
  {
    Regroup(NAME, item.name, FILENAME, item.filename, CRLF, CONTENT_TYPE, item.contentType);
  }

  lemma Regroup(a: string, b: string, c: string, d: string, e: string, f: string, g: string)
    ensures (a + (b + ("\"" + (c + (d + "\""))))) + (e + (f + g)) == a + (b + ("\"" + (c + (d + ("\"" + ((e + f) + g))))))
  {
    Shift(a, b + ("\"" + (c + (d + "\""))), e + (f + g));
    Shift(b, "\"" + (c + (d + "\"")), e + (f + g));
    Shift("\"", c + (d + "\""), e + (f + g));
    Shift(c, d + "\"", e + (f + g));
    Shift(d, "\"", e + (f + g));
    Shift(e, f, g);
  }

  lemma Shift(a: string, b: string, c: string)
    ensures (a + b) + c == a + (b + c)
  {
  }

  // ---------------------------------------------------------------------------
  // Reading a header
  // ---------------------------------------------------------------------------

  lemma LowercaseJoins(a: string, b: string)
    ensures Lowercase(a + b) == Lowercase(a) + Lowercase(b)
  {
  }

  lemma {:induction false} Unquoted(s: string)
    requires '"' !in s
    ensures StripQuotes("\"" + (s + "\"")) == s
  {
    var t := "\"" + (s + "\"");
    assert t[1..] == s + "\"";
    assert (s + "\"")[..|s|] == s;
    assert s != "" ==> s[0] in s && s[|s| - 1] in s;
    assert StripQuotes(s) == s;
    if s == "" {
      assert s + "\"" == "\"" && StripQuotes("\"") == StripQuotes("");
    }
  }

  /** A parameter of a header line, with the space before it. */
  function Parameter(key: string, value: string): string {
    " " + (key + ("=" + ("\"" + (value + "\""))))
  }

  lemma ParameterReads(key: string, value: string, more: seq<string>, wanted: string)
    requires key != "" && !IsSpace(key[0]) && '=' !in key && Lowercase(key) == key && '"' !in value
    ensures ValueIn([Parameter(key, value)] + more, wanted) == if wanted == key then Some(value) else ValueIn(more, wanted)
  {
    var quoted := "\"" + (value + "\"");
    var trimmed := key + ("=" + quoted);
    var part := " " + trimmed;
    assert part[1..] == trimmed && TrimStart(part) == TrimStart(trimmed);
    assert trimmed[0] == key[0] && trimmed[|trimmed| - 1] == '"';
    TrimKeeps(trimmed);
    forall i | 0 <= i < |key| ensures trimmed[i] != '=' { assert trimmed[i] == key[i] && key[i] in key; }
    assert trimmed[|key|] == '=';
    IndexOfIs(trimmed, {'='}, |key|);
    assert trimmed[..|key|] == key && trimmed[|key| + 1..] == quoted;
    assert quoted[|quoted| - 1] == '"';
    TrimKeeps(quoted);
    Unquoted(value);
    assert ([part] + more)[1..] == more;
  }

  const FORM_DATA: string := "Content-Disposition: form-data"

  lemma NoEqualsNoValue(part: string, more: seq<string>, key: string)
    requires part != "" && !IsSpace(part[0]) && !IsSpace(part[|part| - 1]) && '=' !in part
    ensures ValueIn([part] + more, key) == ValueIn(more, key)
  {
    TrimKeeps(part);
    assert forall i :: 0 <= i < |part| ==> part[i] in part;
    IndexOfIs(part, {'='}, |part|);
    assert ([part] + more)[1..] == more;
  }

  lemma FormDataHasNoValue(more: seq<string>, key: string)
    ensures ValueIn([FORM_DATA] + more, key) == ValueIn(more, key)
  {
    FormDataIsPlain();
    NoEqualsNoValue(FORM_DATA, more, key);
  }

  lemma FormDataIsPlain()
    ensures FORM_DATA != "" && !IsSpace(FORM_DATA[0]) && !IsSpace(FORM_DATA[|FORM_DATA| - 1])
    ensures '=' !in FORM_DATA && ';' !in FORM_DATA
  {
  }

  lemma ParameterHasNoSemicolon(key: string, value: string)
    requires ';' !in key && ';' !in value
    ensures ';' !in Parameter(key, value)
  {
  }

  lemma NameParts(name: string, rest: string)
    ensures NAME + (name + ("\"" + rest)) == (FORM_DATA + [';']) + (Parameter("name", name) + rest)
  {
    assert NAME == (FORM_DATA + [';']) + " name=\"";
    Shift(FORM_DATA + [';'], " name=\"", name + ("\"" + rest));
    assert Parameter("name", name) == " name=\"" + (name + "\"");
    Shift(" name=\"", name + "\"", rest);
    Shift(name, "\"", rest);
  }

  lemma FilenameParts(filename: string)
    ensures FILENAME + (filename + "\"") == [';'] + Parameter("filename", filename)
  {
    assert FILENAME == [';'] + " filename=\"";
    assert Parameter("filename", filename) == " filename=\"" + (filename + "\"");
    Shift([';'], " filename=\"", filename + "\"");
  }

  lemma SplitTwo(a: string, b: string, separator: char)
    requires separator !in a && separator !in b
    ensures Split((a + [separator]) + b, separator) == [a] + ([b] + [])
  {
    SplitFirst(a, separator, b);
    SplitFirst(b, separator, "");
  }

  lemma SplitThree(a: string, b: string, c: string, separator: char)
    requires separator !in a && separator !in b && separator !in c
    ensures Split((a + [separator]) + (b + ([separator] + c)), separator) == [a] + ([b] + [c])
  {
    SplitFirst(a, separator, b + ([separator] + c));
    Shift(b, [separator], c);
    SplitFirst(b, separator, c);
    SplitFirst(c, separator, "");
  }

  lemma DispositionParts(item: Item)
    requires CleanName(item.name) && (item.FileItem? ==> CleanName(item.filename))
    ensures Split(Disposition(item), ';')
         == [FORM_DATA] + ([Parameter("name", item.name)]
            + if item.FileItem? then [Parameter("filename", item.filename)] else [])
  {
    ParameterHasNoSemicolon("name", item.name);
    FormDataIsPlain();
    if item.TextItem? {
      NameParts(item.name, "");
      assert Parameter("name", item.name) + "" == Parameter("name", item.name);
      SplitTwo(FORM_DATA, Parameter("name", item.name), ';');
    } else {
      ParameterHasNoSemicolon("filename", item.filename);
      FilenameParts(item.filename);
      NameParts(item.name, [';'] + Parameter("filename", item.filename));
      SplitThree(FORM_DATA, Parameter("name", item.name), Parameter("filename", item.filename), ';');
    }
  }

  lemma KeysAreLowercase()
    ensures Lowercase("name") == "name" && Lowercase("filename") == "filename" && "name" != "filename"
  {
  }

  lemma ParametersRead(name: string, filename: Option<string>, wanted: string)
    requires '"' !in name && (filename.Some? ==> '"' !in filename.value) && (wanted == "name" || wanted == "filename")
    ensures var last := if filename.Some? then [Parameter("filename", filename.value)] else [];
            ValueIn([FORM_DATA] + ([Parameter("name", name)] + last), wanted) == if wanted == "name" then Some(name) else filename
  {
    KeysAreLowercase();
    var last := if filename.Some? then [Parameter("filename", filename.value)] else [];
    FormDataHasNoValue([Parameter("name", name)] + last, wanted);
    ParameterReads("name", name, last, wanted);
    if filename.Some? {
      assert last == [Parameter("filename", filename.value)] + [];
      ParameterReads("filename", filename.value, [], wanted);
    }
  }

  lemma ValueFrom(line: string, parts: seq<string>, key: string)
    requires Split(line, ';') == parts
    ensures DispositionValue(line, key) == ValueIn(parts, key)
  {
  }

  lemma DispositionReads(item: Item, wanted: string)
    requires CleanName(item.name) && (item.FileItem? ==> CleanName(item.filename)) && (wanted == "name" || wanted == "filename")
    ensures DispositionValue(Disposition(item), wanted)
         == if wanted == "name" then Some(item.name) else if item.FileItem? then Some(item.filename) else None
  {
    var filename := if item.FileItem? then Some(item.filename) else None;
    var last := if filename.Some? then [Parameter("filename", filename.value)] else [];
    DispositionParts(item);
    ParametersRead(item.name, filename, wanted);
    ValueFrom(Disposition(item), [FORM_DATA] + ([Parameter("name", item.name)] + last), wanted);
  }

  lemma DispositionStarts(rest: string)
    ensures DISPOSITION <= Lowercase(NAME + rest)
  {
    var head, more := "Content-Disposition:", " form-data; name=\"" + rest;
    assert NAME == head + " form-data; name=\"";
    Shift(head, " form-data; name=\"", rest);
    LowercaseJoins(head, more);
    assert Lowercase(head) == DISPOSITION;
  }

  lemma DispositionLine(h: Headers, item: Item)
    requires CleanName(item.name) && (item.FileItem? ==> CleanName(item.filename))
    ensures HeaderLine(h, Disposition(item))
         == h.(name := Some(item.name), filename := if item.FileItem? then Some(item.filename) else None)
  {
    DispositionReads(item, "name");
    DispositionReads(item, "filename");
    DispositionStarts(item.name + ("\"" + if item.TextItem? then "" else FILENAME + (item.filename + "\"")));
  }

  lemma TypeLine(h: Headers, contentType: string)
    ensures HeaderLine(h, CONTENT_TYPE + contentType) == h.(contentType := Trim(Lowercase(contentType)))
  {
    var line := CONTENT_TYPE + contentType;
    LowercaseJoins(CONTENT_TYPE, contentType);
    var lower := Lowercase(line);
    assert Lowercase(CONTENT_TYPE) == TYPE + " ";
    assert lower == (TYPE + " ") + Lowercase(contentType);
    assert lower[8] == 't';
    assert DISPOSITION[8] == 'd';
    assert lower[|TYPE|..] == " " + Lowercase(contentType);
    assert (" " + Lowercase(contentType))[1..] == Lowercase(contentType);
  }

  lemma OneLineIsLines(line: string)
    requires OneLine(line) && line != ""
    ensures Lines(line) == [line]
  {
    assert forall i :: 0 <= i < |line| ==> line[i] in line;
    IndexOfIs(line, {'\n'}, |line|);
  }

  lemma TwoLinesAreLines(first: string, second: string)
    requires OneLine(first) && OneLine(second) && second != ""
    ensures Lines(first + (CRLF + second)) == [first, second]
  {
    var s := first + (CRLF + second);
    var at := |first| + 1;
    forall i | 0 <= i < at ensures s[i] != '\n' {
      if i < |first| { assert s[i] == first[i] && first[i] in first; }
    }
    assert s[at] == '\n';
    IndexOfIs(s, {'\n'}, at);
    assert s[..at] == first + "\r" && s[at + 1..] == second;
    assert (first + "\r")[..|first|] == first;
    OneLineIsLines(second);
  }

  lemma DispositionIsOneLine(item: Item)
    requires CleanName(item.name) && (item.FileItem? ==> CleanName(item.filename))
    ensures OneLine(Disposition(item)) && Disposition(item) != ""
  {
    LiteralsAreOneLine();
  }

  lemma LiteralsAreOneLine()
    ensures OneLine(NAME) && OneLine(FILENAME) && OneLine(CONTENT_TYPE)
  {
  }

  function Expected(item: Item): Headers {
    match item
    case TextItem(name, _) => Headers(Some(name), None, NO_HEADERS.contentType)
    case FileItem(name, filename, contentType, _) => Headers(Some(name), Some(filename), Trim(Lowercase(contentType)))
  }

  lemma OneHeader(h: Headers, line: string)
    ensures HeaderLines(h, [line]) == HeaderLine(h, line)
  {
    assert [line][1..] == [];
  }

  lemma TwoHeaders(h: Headers, first: string, second: string)
    ensures HeaderLines(h, [first, second]) == HeaderLine(HeaderLine(h, first), second)
  {
    assert [first, second][1..] == [second];
    OneHeader(HeaderLine(h, first), second);
  }

  lemma HeaderReads(item: Item)
    requires CleanName(item.name) && (item.FileItem? ==> CleanName(item.filename) && OneLine(item.contentType))
    ensures HeaderLines(NO_HEADERS, Lines(HeaderText(item))) == Expected(item)
  {
    var first := Disposition(item);
    DispositionLine(NO_HEADERS, item);
    DispositionIsOneLine(item);
    if item.TextItem? {
      OneLineIsLines(first);
      OneHeader(NO_HEADERS, first);
    } else {
      var second := CONTENT_TYPE + item.contentType;
      LiteralsAreOneLine();
      TwoLinesAreLines(first, second);
      TwoHeaders(NO_HEADERS, first, second);
      TypeLine(HeaderLine(NO_HEADERS, first), item.contentType);
    }
  }

  /** A file without a type of its own is of any type. */
  lemma UntypedFileReads(item: Item)
    requires item.FileItem? && CleanName(item.name) && CleanName(item.filename)
    ensures HeaderLines(NO_HEADERS, Lines(Disposition(item)))
         == Headers(Some(item.name), Some(item.filename), "application/octet-stream")
  {
    DispositionLine(NO_HEADERS, item);
    DispositionIsOneLine(item);
    OneLineIsLines(Disposition(item));
    OneHeader(NO_HEADERS, Disposition(item));
  }

  lemma {:induction false} NoDispositionNoName(h: Headers, lines: seq<string>)
    requires forall i :: 0 <= i < |lines| ==> !("content-disposition:" <= Lowercase(lines[i]))
    ensures HeaderLines(h, lines).name == h.name
    decreases |lines|
  {
    if lines != [] { NoDispositionNoName(HeaderLine(h, lines[0]), lines[1..]); }
  }

  /** A part whose header says nothing of its disposition adds nothing. */
  lemma NamelessPartAddsNothing(utf8: string -> string, headers: string, data: string)
    requires forall i :: 0 <= i < |Lines(utf8(headers))| ==> !("content-disposition:" <= Lowercase(Lines(utf8(headers))[i]))
    ensures Added(utf8, headers, data) == Parsed([], [], None)
  {
    NoDispositionNoName(NO_HEADERS, Lines(utf8(headers)));
  }

  // ---------------------------------------------------------------------------
  // Finding the ends
  // ---------------------------------------------------------------------------

  lemma {:induction false} FindIs(s: string, needle: string, from: nat, at: nat)
    requires from <= at && Stands(s, needle, at)
    requires forall i :: from <= i < at ==> !Stands(s, needle, i)
    ensures Find(s, needle, from) == Some(at)
    decreases at - from
  {
    if from < at { FindIs(s, needle, from + 1, at); }
  }

  lemma {:induction false} FindDelimiterIs(s: string, delimiter: string, from: nat, at: nat)
    requires from <= at && IsDelimiter(s, delimiter, at)
    requires forall i :: from <= i < at ==> !IsDelimiter(s, delimiter, i)
    ensures FindDelimiter(s, delimiter, from) == Some(at)
    decreases at - from
  {
    if from < at { FindDelimiterIs(s, delimiter, from + 1, at); }
  }

  /** After a carriage return comes another line. */
  ghost predicate NoBlankLine(header: string) {
    forall i :: 0 <= i < |header| && header[i] == '\r' ==> i + 2 < |header| && header[i + 2] != '\r'
  }

  lemma HeaderHasNoBlankLine(item: Item)
    requires CleanName(item.name) && (item.FileItem? ==> CleanName(item.filename) && OneLine(item.contentType))
    ensures NoBlankLine(HeaderText(item))
  {
    DispositionIsOneLine(item);
    var first := Disposition(item);
    assert forall i :: 0 <= i < |first| ==> first[i] in first;
    if item.FileItem? { TwoLinesNotBlank(first, CONTENT_TYPE + item.contentType); }
  }

  lemma TwoLinesNotBlank(first: string, second: string)
    requires OneLine(first) && second != "" && (forall c :: c in second ==> c != '\r')
    ensures NoBlankLine(first + (CRLF + second))
  {
    var s := first + (CRLF + second);
    assert forall i :: 0 <= i < |first| ==> s[i] == first[i] && first[i] in first;
    assert forall i :: |first| + 2 <= i < |s| ==> s[i] == second[i - |first| - 2] && s[i] in second;
  }

  lemma StandsHas(s: string, needle: string, at: nat, k: nat)
    requires k < |needle|
    ensures Stands(s, needle, at) ==> s[at + k] == needle[k]
  {
    if Stands(s, needle, at) { assert s[at..at + |needle|][k] == needle[k]; }
  }

  lemma HeaderEnds(header: string, content: string)
    requires NoBlankLine(header)
    ensures var s := header + ((CRLF + CRLF) + content);
            Find(s, CRLF + CRLF, 0) == Some(|header|) && s[..|header|] == header && s[|header| + 4..] == content
  {
    var blank := CRLF + CRLF;
    var s := header + (blank + content);
    assert s[|header|..|header| + 4] == blank;
    forall i | 0 <= i < |header| ensures !Stands(s, blank, i) {
      StandsHas(s, blank, i, 0);
      StandsHas(s, blank, i, 2);
    }
    FindIs(s, blank, 0, |header|);
  }

  lemma CutBack(data: string, follow: string, at: nat)
    requires at <= |data|
    ensures (data + follow)[..at] == data[..at] && (data + follow)[at..] == data[at..] + follow
  {
  }

  /** What may follow a delimiter inside some data may also follow it when a line end comes after the data. */
  lemma DelimitsInData(rest: string, follow: string)
    requires Delimits(rest + (CRLF + follow))
    ensures rest == "" || rest == "--" || CRLF <= rest || "--" + CRLF <= rest
  {
    var s := rest + (CRLF + follow);
    assert forall i :: 0 <= i < |rest| ==> s[i] == rest[i];
    assert s[|rest|] == '\r' && s[|rest| + 1] == '\n';
    if CRLF <= s {
      assert s[0] == '\r' && s[1] == '\n';
    } else {
      var after := s[2..];
      assert s[0] == '-' && s[1] == '-';
      assert CRLF <= after && after[0] == '\r' && after[1] == '\n';
      assert s[2] == '\r' && s[3] == '\n';
    }
  }

  lemma NoDelimiterInData(data: string, delimiter: string, follow: string, at: nat)
    requires NoDelimiterLine(data, delimiter) && at + |delimiter| <= |data|
    ensures !IsDelimiter(data + (CRLF + follow), delimiter, at)
  {
    var s := data + (CRLF + follow);
    CutBack(data, CRLF + follow, at);
    CutBack(data, CRLF + follow, at + |delimiter|);
    assert s[at..at + |delimiter|] == data[at..at + |delimiter|];
    if IsDelimiter(s, delimiter, at) {
      DelimitsInData(data[at + |delimiter|..], follow);
      assert DelimiterLine(data, delimiter, at);
    }
  }

  /** No delimiter reaches over a line end. */
  lemma NoDelimiterAcross(data: string, delimiter: string, follow: string, at: nat)
    requires OneLine(delimiter) && at < |data| + 2 && at + |delimiter| > |data| && delimiter != ""
    ensures !IsDelimiter(data + (CRLF + follow), delimiter, at)
  {
    var s := data + (CRLF + follow);
    var end := if at <= |data| then |data| else |data| + 1;
    assert s[end] == '\r' || s[end] == '\n';
    assert delimiter[end - at] in delimiter;
    StandsHas(s, delimiter, at, end - at);
  }

  lemma DelimiterAfter(data: string, delimiter: string, follow: string)
    requires Delimits(follow)
    ensures IsDelimiter(data + (CRLF + (delimiter + follow)), delimiter, |data| + 2)
  {
    var s := data + (CRLF + (delimiter + follow));
    assert s[|data| + 2..|data| + 2 + |delimiter|] == delimiter && s[|data| + 2 + |delimiter|..] == follow;
    assert s[..|data| + 2] == data + CRLF;
    assert (data + CRLF)[|data|..] == CRLF;
  }

  lemma NoEarlierDelimiter(data: string, delimiter: string, follow: string, at: nat)
    requires NoDelimiterLine(data, delimiter) && OneLine(delimiter) && delimiter != "" && at < |data| + 2
    ensures !IsDelimiter(data + (CRLF + follow), delimiter, at)
  {
    if at + |delimiter| <= |data| {
      NoDelimiterInData(data, delimiter, follow, at);
    } else {
      NoDelimiterAcross(data, delimiter, follow, at);
    }
  }

  lemma AfterData(data: string, delimiter: string, follow: string)
    ensures var s := data + (CRLF + (delimiter + follow));
            s[..|data| + 2] == data + CRLF && s[|data| + 2 + |delimiter|..] == follow
  {
  }

  /** The delimiter found is the one after the data. */
  lemma DataEnds(data: string, delimiter: string, follow: string)
    requires NoDelimiterLine(data, delimiter) && OneLine(delimiter) && delimiter != "" && Delimits(follow)
    ensures FindDelimiter(data + (CRLF + (delimiter + follow)), delimiter, 0) == Some(|data| + 2)
  {
    var s := data + (CRLF + (delimiter + follow));
    forall at | 0 <= at < |data| + 2 ensures !IsDelimiter(s, delimiter, at) {
      NoEarlierDelimiter(data, delimiter, delimiter + follow, at);
    }
    DelimiterAfter(data, delimiter, follow);
    FindDelimiterIs(s, delimiter, 0, |data| + 2);
  }

  // ---------------------------------------------------------------------------
  // The round trip
  // ---------------------------------------------------------------------------

  /** After the closing delimiter: nothing, or a line end and anything. */
  predicate Epilogue(s: string) {
    s == "" || CRLF <= s
  }

  lemma TailDelimits(items: seq<Item>, delimiter: string, epilogue: string)
    requires Epilogue(epilogue)
    ensures Delimits(Tail(items, delimiter, epilogue))
  {
    if items == [] { assert ("--" + epilogue)[2..] == epilogue; }
  }

  lemma NextPartIs(body: string, header: string, content: string, data: string, follow: string, delimiter: string)
    requires Find(body, CRLF + CRLF, 0) == Some(|header|) && body[..|header|] == header && body[|header| + 4..] == content
    requires FindDelimiter(content, delimiter, 0) == Some(|data| + 2) && content[..|data| + 2] == data + CRLF
    requires content[|data| + 2 + |delimiter|..] == follow
    ensures NextPart(CRLF + body, delimiter) == Part(header, data, follow)
  {
    var rest := CRLF + body;
    assert rest[0] == '\r' && rest[2..] == body;
    assert (data + CRLF)[|data|..] == CRLF && (data + CRLF)[..|data|] == data;
  }

  lemma PartReads(header: string, data: string, delimiter: string, follow: string)
    requires NoBlankLine(header)
    requires NoDelimiterLine(data, delimiter) && OneLine(delimiter) && delimiter != "" && Delimits(follow)
    ensures NextPart(CRLF + (header + ((CRLF + CRLF) + (data + (CRLF + (delimiter + follow))))), delimiter)
         == Part(header, data, follow)
  {
    var content := data + (CRLF + (delimiter + follow));
    HeaderEnds(header, content);
    DataEnds(data, delimiter, follow);
    AfterData(data, delimiter, follow);
    NextPartIs(header + ((CRLF + CRLF) + content), header, content, data, follow, delimiter);
  }

  function FieldOf(utf8: string -> string, item: Item): seq<Field> {
    match item
    case TextItem(name, data) => [Field(utf8(name), utf8(data))]
    case FileItem(_, _, _, _) => []
  }

  function FileOf(utf8: string -> string, item: Item): seq<Upload> {
    match item
    case TextItem(_, _) => []
    case FileItem(name, filename, contentType, data) =>
      [Upload(utf8(name), utf8(filename), Trim(Lowercase(utf8(contentType))), data)]
  }

  function FieldsOf(utf8: string -> string, items: seq<Item>): seq<Field> {
    if items == [] then [] else FieldOf(utf8, items[0]) + FieldsOf(utf8, items[1..])
  }

  function FilesOf(utf8: string -> string, items: seq<Item>): seq<Upload> {
    if items == [] then [] else FileOf(utf8, items[0]) + FilesOf(utf8, items[1..])
  }

  lemma NotDecoded(utf8: string -> string, s: string, c: char)
    requires DecodesText(utf8) && Ascii(c) && c !in s
    ensures c !in utf8(s)
  {
    assert c in utf8(s) ==> c in s;
  }

  lemma DecodedIsClean(utf8: string -> string, s: string)
    requires DecodesText(utf8) && OneLine(s)
    ensures OneLine(utf8(s)) && (CleanName(s) ==> CleanName(utf8(s)))
  {
    NotDecoded(utf8, s, '\r');
    NotDecoded(utf8, s, '\n');
    if CleanName(s) {
      NotDecoded(utf8, s, '"');
      NotDecoded(utf8, s, ';');
    }
  }

  lemma AddedItem(utf8: string -> string, item: Item, delimiter: string)
    requires DecodesText(utf8) && Encodable(item, delimiter)
    ensures Added(utf8, HeaderText(item), item.data) == Parsed(FieldOf(utf8, item), FileOf(utf8, item), None)
  {
    var decoded := DecodedItem(utf8, item);
    HeaderDecodes(utf8, item);
    DecodedIsClean(utf8, item.name);
    if item.FileItem? {
      DecodedIsClean(utf8, item.filename);
      DecodedIsClean(utf8, item.contentType);
    }
    HeaderReads(decoded);
  }

  lemma ParseOne(utf8: string -> string, rest: string, delimiter: string, headers: string, data: string, follow: string)
    requires NextPart(rest, delimiter) == Part(headers, data, follow)
    ensures var added, later := Added(utf8, headers, data), ParseParts(utf8, follow, delimiter);
            ParseParts(utf8, rest, delimiter) == Parsed(added.fields + later.fields, added.files + later.files, later.error)
  {
  }

  lemma TailPart(item: Item, delimiter: string, follow: string)
    requires Encodable(item, delimiter) && OneLine(delimiter) && delimiter != "" && Delimits(follow)
    ensures NextPart(CRLF + (HeaderText(item) + ((CRLF + CRLF) + (item.data + (CRLF + (delimiter + follow))))), delimiter)
         == Part(HeaderText(item), item.data, follow)
  {
    HeaderHasNoBlankLine(item);
    PartReads(HeaderText(item), item.data, delimiter, follow);
  }

  lemma {:induction false} TailReads(utf8: string -> string, items: seq<Item>, delimiter: string, epilogue: string)
    requires DecodesText(utf8) && Epilogue(epilogue) && OneLine(delimiter) && delimiter != ""
    requires forall item :: item in items ==> Encodable(item, delimiter)
    ensures ParseParts(utf8, Tail(items, delimiter, epilogue), delimiter)
         == Parsed(FieldsOf(utf8, items), FilesOf(utf8, items), None)
  {
    if items != [] {
      var item, more := items[0], items[1..];
      assert item in items;
      var follow := Tail(more, delimiter, epilogue);
      TailDelimits(more, delimiter, epilogue);
      TailPart(item, delimiter, follow);
      ParseOne(utf8, Tail(items, delimiter, epilogue), delimiter, HeaderText(item), item.data, follow);
      AddedItem(utf8, item, delimiter);
      TailReads(utf8, more, delimiter, epilogue);
    }
  }

  // ---------------------------------------------------------------------------
  // Which boundaries are accepted
  // ---------------------------------------------------------------------------

  const SIGNS: string := "'()+_,-./:=?"

  predicate LetterOrDigit(c: char) {
    ('A' <= c <= 'Z') || ('a' <= c <= 'z') || ('0' <= c <= '9')
  }

  /** A boundary by RFC 2046 section 5.1.1: one to seventy letters, digits, signs and spaces, the last no space. */
  predicate Boundary(s: string) {
    && 1 <= |s| <= 70 && s[|s| - 1] != ' '
    && forall i :: 0 <= i < |s| ==> LetterOrDigit(s[i]) || s[i] in SIGNS || s[i] == ' '
  }

  lemma BoundaryChars(c: char)
    ensures BoundaryChar(c) <==> LetterOrDigit(c) || c in SIGNS || c == ' '
  {
    assert SIGNS == ['\'', '(', ')', '+', '_', ',', '-', '.', '/', ':', '=', '?'];
  }

  lemma BoundaryExactly(boundary: string)
    ensures ValidBoundary(boundary) <==> Boundary(boundary)
  {
    forall c ensures BoundaryChar(c) <==> LetterOrDigit(c) || c in SIGNS || c == ' ' { BoundaryChars(c); }
    assert forall c :: c in boundary <==> exists i :: 0 <= i < |boundary| && boundary[i] == c;
  }

  lemma {:induction false} PartsHaveTheirBoundary(utf8: string -> string, rest: string, delimiter: string)
    ensures ParseParts(utf8, rest, delimiter).error != Some(InvalidBoundary)
    decreases |rest|
  {
    var next := NextPart(rest, delimiter);
    if next.Part? { PartsHaveTheirBoundary(utf8, next.rest, delimiter); }
  }

  /** A body is refused for its boundary exactly when that is not one of RFC 2046, and then nothing is added. */
  lemma BoundaryRefusedExactly(utf8: string -> string, body: string, boundary: string)
    ensures var parsed := ParseMultipart(utf8, body, boundary);
            && (parsed.error == Some(InvalidBoundary) <==> !Boundary(boundary))
            && (!Boundary(boundary) ==> parsed.fields == [] && parsed.files == [])
  {
    BoundaryExactly(boundary);
    var delimiter := "--" + boundary;
    var start := FindDelimiter(body, delimiter, 0);
    if start.Some? { PartsHaveTheirBoundary(utf8, body[start.value + |delimiter|..], delimiter); }
  }

  lemma {:induction false} NoneFound(s: string, delimiter: string, from: nat)
    requires forall at: nat :: from <= at <= |s| ==> !DelimiterLine(s, delimiter, at)
    ensures FindDelimiter(s, delimiter, from).None?
    decreases |s| + 1 - from
  {
    if from + |delimiter| <= |s| {
      if IsDelimiter(s, delimiter, from) { DelimitersAreLines(s, delimiter, from); }
      NoneFound(s, delimiter, from + 1);
    }
  }

  lemma DelimitersAreLines(s: string, delimiter: string, at: nat)
    requires IsDelimiter(s, delimiter, at)
    ensures DelimiterLine(s, delimiter, at)
  {
    var rest := s[at + |delimiter|..];
    if !(CRLF <= rest) {
      assert rest == "--" + rest[2..];
      assert rest[2..] == "" ==> rest == "--";
      assert CRLF <= rest[2..] ==> "--" + CRLF <= rest;
    }
  }

  /** A body without a line that is its delimiter is malformed, and adds nothing. */
  lemma NoDelimiterIsMalformed(utf8: string -> string, body: string, boundary: string)
    requires Boundary(boundary) && NoDelimiterLine(body, "--" + boundary)
    ensures ParseMultipart(utf8, body, boundary) == Parsed([], [], Some(MalformedBody))
  {
    BoundaryExactly(boundary);
    NoneFound(body, "--" + boundary, 0);
  }

  // ---------------------------------------------------------------------------
  // The whole body
  // ---------------------------------------------------------------------------

  lemma BoundaryIsOneLine(boundary: string)
    requires Boundary(boundary)
    ensures OneLine("--" + boundary)
  {
  }

  lemma DelimiterAtStart(delimiter: string, follow: string)
    requires Delimits(follow)
    ensures FindDelimiter(delimiter + follow, delimiter, 0) == Some(0) && (delimiter + follow)[|delimiter|..] == follow
  {
    var s := delimiter + follow;
    assert s[0..|delimiter|] == delimiter && s[|delimiter|..] == follow;
    assert IsDelimiter(s, delimiter, 0);
  }

  /** The first delimiter, after the preamble if there is one. */
  lemma FirstDelimiter(s: string, delimiter: string, preamble: Option<string>, follow: string)
    requires s == if preamble.Some? then preamble.value + (CRLF + (delimiter + follow)) else delimiter + follow
    requires OneLine(delimiter) && delimiter != "" && Delimits(follow)
    requires preamble.Some? ==> NoDelimiterLine(preamble.value, delimiter)
    ensures var at := FindDelimiter(s, delimiter, 0); at.Some? && s[at.value + |delimiter|..] == follow
  {
    if preamble.Some? {
      DataEnds(preamble.value, delimiter, follow);
      AfterData(preamble.value, delimiter, follow);
    } else {
      DelimiterAtStart(delimiter, follow);
    }
  }

  /** Parsing gives back exactly the encoded fields and files, in order, whatever the preamble and the epilogue. */
  lemma ParsingUndoesEncoding(utf8: string -> string, items: seq<Item>, boundary: string,
                              preamble: Option<string>, epilogue: string)
    requires DecodesText(utf8) && Boundary(boundary) && Epilogue(epilogue)
    requires forall item :: item in items ==> Encodable(item, "--" + boundary)
    requires preamble.Some? ==> NoDelimiterLine(preamble.value, "--" + boundary)
    ensures ParseMultipart(utf8, Encoded(items, boundary, preamble, epilogue), boundary)
         == Parsed(FieldsOf(utf8, items), FilesOf(utf8, items), None)
  {
    var delimiter := "--" + boundary;
    BoundaryExactly(boundary);
    BoundaryIsOneLine(boundary);
    StartOfEncoded(items, boundary, preamble, epilogue);
    ParseFrom(utf8, Encoded(items, boundary, preamble, epilogue), boundary, Tail(items, delimiter, epilogue));
    TailReads(utf8, items, delimiter, epilogue);
  }

  lemma StartOfEncoded(items: seq<Item>, boundary: string, preamble: Option<string>, epilogue: string)
    requires OneLine("--" + boundary) && Epilogue(epilogue)
    requires preamble.Some? ==> NoDelimiterLine(preamble.value, "--" + boundary)
    ensures var s, delimiter := Encoded(items, boundary, preamble, epilogue), "--" + boundary;
            var at := FindDelimiter(s, delimiter, 0);
            at.Some? && s[at.value + |delimiter|..] == Tail(items, delimiter, epilogue)
  {
    var delimiter := "--" + boundary;
    var follow := Tail(items, delimiter, epilogue);
    TailDelimits(items, delimiter, epilogue);
    FirstDelimiter(Encoded(items, boundary, preamble, epilogue), delimiter, preamble, follow);
  }

  lemma ParseFrom(utf8: string -> string, body: string, boundary: string, follow: string)
    requires ValidBoundary(boundary)
    requires var at := FindDelimiter(body, "--" + boundary, 0);
             at.Some? && body[at.value + |"--" + boundary|..] == follow
    ensures ParseMultipart(utf8, body, boundary) == ParseParts(utf8, follow, "--" + boundary)
  {
  }
}
