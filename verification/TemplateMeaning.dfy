// What a template means (mastomini_bots/src/template.rs): its words stand as they are, each `{{name}}` is the value of its own
// variable, and a line made only of variables without text goes.
module TemplateMeaning {
  import opened Options
  import opened Text
  import opened Templates

  /** A piece of a template as its author writes it; a name may have spaces around it. */
  datatype Segment = Words(text: string) | Variable(before: string, name: string, after: string)

  function WrittenSegment(segment: Segment): string {
    match segment
    case Words(text) => text
    case Variable(before, name, after) => "{{" + ((before + (name + after)) + "}}")
  }

  function Written(segments: seq<Segment>): string {
    if segments == [] then "" else WrittenSegment(segments[0]) + Written(segments[1..])
  }

  predicate AllSpaces(s: string) {
    forall i :: 0 <= i < |s| ==> IsSpace(s[i])
  }

  /** Words without an opening brace; a name without a closing one or spaces at its ends. */
  predicate Clean(segment: Segment) {
    match segment
    case Words(text) => '{' !in text
    case Variable(before, name, after) =>
      && AllSpaces(before) && AllSpaces(after) && '}' !in name
      && (name != "" ==> !IsSpace(name[0]) && !IsSpace(name[|name| - 1]))
  }

  predicate AllClean(segments: seq<Segment>) {
    forall i :: 0 <= i < |segments| ==> Clean(segments[i])
  }

  // ---------------------------------------------------------------------------
  // What it means
  // ---------------------------------------------------------------------------

  /** The value of the first variable of a name; nothing, if none has it. */
  ghost predicate Stands(name: string, vars: seq<Var>, value: string) {
    if exists i :: 0 <= i < |vars| && vars[i].name == name then
      exists i :: 0 <= i < |vars| && vars[i] == Var(name, value) && forall j :: 0 <= j < i ==> vars[j].name != name
    else value == ""
  }

  lemma {:induction false} ValueStands(name: string, vars: seq<Var>)
    ensures Stands(name, vars, ValueOf(name, vars))
  {
    if vars != [] {
      if vars[0].name == name { assert vars[0] == Var(name, ValueOf(name, vars)); } else {
        ValueStands(name, vars[1..]);
        if i :| 0 <= i < |vars| && vars[i].name == name {
          assert vars[1..][i - 1].name == name;
          var k :| 0 <= k < |vars[1..]| && vars[1..][k] == Var(name, ValueOf(name, vars))
                   && forall j :: 0 <= j < k ==> vars[1..][j].name != name;
          assert vars[k + 1] == Var(name, ValueOf(name, vars));
          assert forall j :: 0 < j < k + 1 ==> vars[j] == vars[1..][j - 1];
        } else {
          assert forall i :: 0 <= i < |vars[1..]| ==> vars[1..][i] == vars[i + 1];
        }
      }
    }
  }

  /** The text is the words in order, with a value standing for each name. */
  ghost predicate Means(segments: seq<Segment>, vars: seq<Var>, text: string)
    decreases |segments|
  {
    if segments == [] then text == ""
    else exists first: string, rest: string :: text == first + rest && MeansOne(segments[0], vars, first)
                                               && Means(segments[1..], vars, rest)
  }

  ghost predicate MeansOne(segment: Segment, vars: seq<Var>, text: string) {
    match segment
    case Words(words) => text == words
    case Variable(_, name, _) => Stands(name, vars, text)
  }

  function NamesOf(segments: seq<Segment>): seq<string> {
    if segments == [] then []
    else (if segments[0].Variable? then [segments[0].name] else []) + NamesOf(segments[1..])
  }

  // ---------------------------------------------------------------------------
  // Trimming
  // ---------------------------------------------------------------------------

  lemma {:induction false} TrimStartSkips(spaces: string, rest: string)
    requires AllSpaces(spaces) && (rest != "" ==> !IsSpace(rest[0]))
    ensures TrimStart(spaces + rest) == rest
  {
    if spaces == "" { assert spaces + rest == rest; } else {
      assert (spaces + rest)[1..] == spaces[1..] + rest;
      TrimStartSkips(spaces[1..], rest);
    }
  }

  lemma {:induction false} TrimEndSkips(rest: string, spaces: string)
    requires AllSpaces(spaces) && (rest != "" ==> !IsSpace(rest[|rest| - 1]))
    ensures TrimEnd(rest + spaces) == rest
  {
    if spaces == "" { assert rest + spaces == rest; } else {
      assert (rest + spaces)[..|rest + spaces| - 1] == rest + spaces[..|spaces| - 1];
      TrimEndSkips(rest, spaces[..|spaces| - 1]);
    }
  }

  lemma NameIsTrimmed(before: string, name: string, after: string)
    requires Clean(Variable(before, name, after))
    ensures Trim(before + (name + after)) == name
  {
    if name == "" {
      assert before + (name + after) == (before + after) + "";
      TrimStartSkips(before + after, "");
    } else {
      TrimStartSkips(before, name + after);
      TrimEndSkips(name, after);
    }
  }

  lemma TrimsToNothing(s: string)
    ensures Trim(s) == "" <==> AllSpaces(s)
  {
    if AllSpaces(s) {
      TrimStartSkips(s, "");
      assert s + "" == s;
    } else {
      var i :| 0 <= i < |s| && !IsSpace(s[i]);
      TrimStartKeeps(s, s[i]);
      TrimEndKeeps(TrimStart(s), s[i]);
    }
  }

  // ---------------------------------------------------------------------------
  // Reading what was written
  // ---------------------------------------------------------------------------

  function After(words: string, scan: Scan): Scan {
    match scan
    case Plain => Plain
    case Unclosed(before, tail) => Unclosed(words + before, tail)
    case Found(before, name, rest) => Found(words + before, name, rest)
  }

  lemma FirstNameAfterWords(words: string, rest: string)
    requires '{' !in words
    ensures FirstName(words + rest) == After(words, FirstName(rest))
  {
    var s := words + rest;
    assert forall i :: 0 <= i < |words| ==> s[i] in words;
    FindTwiceAfter(words, rest, '{');
    var found := FindTwice(rest, '{');
    if found.Some? {
      SliceAfter(words, rest, found.value);
      SliceAfter(words, rest, found.value + 2);
      assert s[..|words| + found.value] == words + rest[..found.value];
    }
  }

  lemma WordsFirst(words: string, rest: string, vars: seq<Var>)
    requires '{' !in words
    ensures Filled(Pieces(words + rest), vars) == words + Filled(Pieces(rest), vars)
    ensures Lookups(words + rest) == Lookups(rest)
  {
    FilledAfterWords(words, rest, vars, FirstName(rest));
    LookupsAfterWords(words, rest);
  }

  lemma FilledAfterWords(words: string, rest: string, vars: seq<Var>, scan: Scan)
    requires '{' !in words && scan == FirstName(rest)
    ensures Filled(Pieces(words + rest), vars) == words + Filled(Pieces(rest), vars)
  {
    FirstNameAfterWords(words, rest);
    FilledNext(words + rest, vars);
    FilledNext(rest, vars);
    if scan.Unclosed? { JoinThree(words, scan.before, scan.tail); }
    if scan.Found? { JoinThree(words, scan.before, ValueOf(scan.name, vars) + Filled(Pieces(scan.rest), vars)); }
  }

  lemma JoinThree(a: string, b: string, c: string)
    ensures (a + b) + c == a + (b + c)
  {
  }

  lemma LookupsAfterWords(words: string, rest: string)
    requires '{' !in words
    ensures Lookups(words + rest) == Lookups(rest)
  {
    FirstNameAfterWords(words, rest);
  }

  lemma InnerEnds(inner: string, rest: string)
    requires '}' !in inner
    ensures FindTwice(inner + ("}}" + rest), '}') == Some(|inner|)
  {
    var s := inner + ("}}" + rest);
    assert forall i :: 0 <= i < |inner| ==> s[i] in inner;
    assert FindTwice("}}" + rest, '}') == Some(0);
    FindTwiceAfter(inner, "}}" + rest, '}');
  }

  lemma VariableFirst(inner: string, rest: string, vars: seq<Var>)
    requires '}' !in inner
    ensures var s := "{{" + (inner + "}}") + rest;
            && Filled(Pieces(s), vars) == ValueOf(Trim(inner), vars) + Filled(Pieces(rest), vars)
            && Lookups(s) == [Trim(inner)] + Lookups(rest)
  {
    var s := "{{" + (inner + "}}") + rest;
    var after := s[2..];
    assert after == inner + ("}}" + rest);
    InnerEnds(inner, rest);
    assert after[..|inner|] == inner && after[|inner| + 2..] == rest;
    assert FirstName(s) == Found("", Trim(inner), rest) by { assert FindTwice(s, '{') == Some(0) && s[..0] == ""; }
    FilledNext(s, vars);
  }

  /** What is written for a name has no closing brace before its end. */
  lemma InnerHasNoBrace(segment: Segment)
    requires segment.Variable? && Clean(segment)
    ensures '}' !in segment.before + (segment.name + segment.after)
  {
  }

  /** For every template so written and any variables: the text is what it means, whatever the values contain, and the names looked
      up are its names. */
  lemma {:induction false} FillingMeans(segments: seq<Segment>, vars: seq<Var>)
    requires AllClean(segments)
    ensures Means(segments, vars, Filled(Pieces(Written(segments)), vars))
    ensures Lookups(Written(segments)) == NamesOf(segments)
    decreases |segments|
  {
    if segments != [] {
      var first, rest := segments[0], segments[1..];
      var tail := Filled(Pieces(Written(rest)), vars);
      FillingMeans(rest, vars);
      match first
      case Words(text) =>
        WordsFirst(text, Written(rest), vars);
        MeansNext(segments, vars, text, tail);
      case Variable(before, name, after) =>
        InnerHasNoBrace(first);
        NameIsTrimmed(before, name, after);
        VariableFirst(before + (name + after), Written(rest), vars);
        ValueStands(name, vars);
        MeansNext(segments, vars, ValueOf(name, vars), tail);
    }
  }

  lemma MeansNext(segments: seq<Segment>, vars: seq<Var>, first: string, rest: string)
    requires segments != [] && MeansOne(segments[0], vars, first) && Means(segments[1..], vars, rest)
    ensures Means(segments, vars, first + rest)
  {
  }

  // ---------------------------------------------------------------------------
  // Which lines stay
  // ---------------------------------------------------------------------------

  /** A line goes exactly if it has a name in it and its text is all spaces; a line of words stays, blank or not. */
  lemma LineStays(segments: seq<Segment>, vars: seq<Var>)
    requires AllClean(segments)
    ensures var kept := RenderedLine(Written(segments), vars);
            && |kept| <= 1 && (|kept| == 1 ==> Means(segments, vars, kept[0]))
            && (kept == [] <==> NamesOf(segments) != [] && exists text :: Means(segments, vars, text) && AllSpaces(text))
  {
    var text := Filled(Pieces(Written(segments)), vars);
    FillingMeans(segments, vars);
    TrimsToNothing(text);
    forall other | Means(segments, vars, other) ensures other == text { MeansOneText(segments, vars, other, text); }
  }

  lemma StandsAlone(name: string, vars: seq<Var>, a: string, b: string)
    requires Stands(name, vars, a) && Stands(name, vars, b)
    ensures a == b
  {
    if exists i :: 0 <= i < |vars| && vars[i].name == name {
      var i :| 0 <= i < |vars| && vars[i] == Var(name, a) && forall j :: 0 <= j < i ==> vars[j].name != name;
      var k :| 0 <= k < |vars| && vars[k] == Var(name, b) && forall j :: 0 <= j < k ==> vars[j].name != name;
      assert i == k by { assert vars[i].name == name && vars[k].name == name; }
    }
  }

  /** A template means one text. */
  lemma {:induction false} MeansOneText(segments: seq<Segment>, vars: seq<Var>, a: string, b: string)
    requires Means(segments, vars, a) && Means(segments, vars, b)
    ensures a == b
    decreases |segments|
  {
    if segments != [] {
      var a1, a2 :| a == a1 + a2 && MeansOne(segments[0], vars, a1) && Means(segments[1..], vars, a2);
      var b1, b2 :| b == b1 + b2 && MeansOne(segments[0], vars, b1) && Means(segments[1..], vars, b2);
      if segments[0].Variable? { StandsAlone(segments[0].name, vars, a1, b1); }
      MeansOneText(segments[1..], vars, a2, b2);
    }
  }

  // ---------------------------------------------------------------------------
  // Lines
  // ---------------------------------------------------------------------------

  predicate IsLine(s: string) {
    '\n' !in s && (s != "" ==> s[|s| - 1] != '\r')
  }

  lemma LineThenMore(line: string, more: string)
    requires IsLine(line)
    ensures Lines(line + "\n" + more) == [line] + Lines(more)
  {
    var s := line + "\n" + more;
    assert forall i :: 0 <= i < |line| ==> s[i] in line;
    IndexOfIs(s, {'\n'}, |line|);
    assert s[..|line|] == line && s[|line| + 1..] == more;
  }

  /** Lines put together come apart again, unless the last one is empty. */
  lemma {:induction false} LinesComeApart(lines: seq<string>)
    requires lines != [] && lines[|lines| - 1] != "" && forall i :: 0 <= i < |lines| ==> IsLine(lines[i])
    ensures Lines(Joined(lines)) == lines
  {
    var line, rest := lines[0], lines[1..];
    if rest == [] {
      IndexOfIs(line, {'\n'}, |line|);
      assert lines == [line];
    } else {
      LinesComeApart(rest);
      LineThenMore(line, Joined(rest));
      assert lines == [line] + rest;
    }
  }

  function WrittenLines(doc: seq<seq<Segment>>): (lines: seq<string>)
    ensures |lines| == |doc|
  {
    if doc == [] then [] else [Written(doc[0])] + WrittenLines(doc[1..])
  }

  /** The lines shown: what each line means, in order, but for those that have a name and are all spaces. */
  ghost predicate Shown(doc: seq<seq<Segment>>, vars: seq<Var>, kept: seq<string>)
    decreases |doc|
  {
    if doc == [] then kept == []
    else
      exists text :: Means(doc[0], vars, text)
        && if NamesOf(doc[0]) != [] && AllSpaces(text) then Shown(doc[1..], vars, kept)
           else kept != [] && kept[0] == text && Shown(doc[1..], vars, kept[1..])
  }

  lemma ShownNext(doc: seq<seq<Segment>>, vars: seq<Var>, rest: seq<string>)
    requires doc != [] && AllClean(doc[0]) && Shown(doc[1..], vars, rest)
    ensures Shown(doc, vars, RenderedLine(Written(doc[0]), vars) + rest)
  {
    var text, kept := Filled(Pieces(Written(doc[0])), vars), RenderedLine(Written(doc[0]), vars);
    FillingMeans(doc[0], vars);
    TrimsToNothing(text);
    if kept == [] { assert kept + rest == rest; } else { assert (kept + rest)[1..] == rest && (kept + rest)[0] == text; }
  }

  lemma {:induction false} RenderedIsShown(doc: seq<seq<Segment>>, vars: seq<Var>)
    requires forall i :: 0 <= i < |doc| ==> AllClean(doc[i])
    ensures Shown(doc, vars, Rendered(WrittenLines(doc), vars))
    decreases |doc|
  {
    if doc != [] {
      RenderedIsShown(doc[1..], vars);
      ShownNext(doc, vars, Rendered(WrittenLines(doc[1..]), vars));
      assert WrittenLines(doc)[1..] == WrittenLines(doc[1..]);
    }
  }

  /** For every template written line by line, the last not empty: what `render` answers are the lines shown, put together again. */
  lemma RenderingShows(doc: seq<seq<Segment>>, vars: seq<Var>) returns (kept: seq<string>)
    requires doc != [] && Written(doc[|doc| - 1]) != ""
    requires forall i :: 0 <= i < |doc| ==> AllClean(doc[i]) && IsLine(Written(doc[i]))
    ensures Shown(doc, vars, kept)
    ensures Trim(Joined(Rendered(Lines(Joined(WrittenLines(doc))), vars))) == Trim(Joined(kept))
  {
    kept := Rendered(WrittenLines(doc), vars);
    RenderedIsShown(doc, vars);
    forall i | 0 <= i < |doc| ensures WrittenLines(doc)[i] == Written(doc[i]) { LineIsWritten(doc, i); }
    LinesComeApart(WrittenLines(doc));
  }

  lemma {:induction false} LineIsWritten(doc: seq<seq<Segment>>, i: nat)
    requires i < |doc|
    ensures WrittenLines(doc)[i] == Written(doc[i])
  {
    if i > 0 { LineIsWritten(doc[1..], i - 1); }
  }
}
