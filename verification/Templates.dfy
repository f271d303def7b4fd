// `{{name}}` templates (mastomini_bots/src/template.rs) and the check they pass before they are stored
// (mastomini_bots/src/settings.rs). The check scans the whole text; rendering scans line by line.
module Templates {
  import opened Options
  import opened Text

  datatype Var = Var(name: string, value: string)

  /** The first place where a character stands twice. */
  function FindTwice(s: string, c: char): (at: Option<nat>)
    ensures at.Some? ==> at.value + 1 < |s|
  {
    if |s| < 2 then None
    else if s[0] == c && s[1] == c then Some(0)
    else
      var at := FindTwice(s[1..], c);
      if at.Some? then Some(at.value + 1) else None
  }

  /** The first `{{` of a text: none, one that no `}}` closes, or one with the name it holds and what follows. */
  datatype Scan = Plain | Unclosed(before: string, tail: string) | Found(before: string, name: string, rest: string)

  function FirstName(s: string): (scan: Scan)
    ensures scan.Found? ==> |scan.rest| < |s|
  {
    match FindTwice(s, '{')
    case None => Plain
    case Some(start) =>
      var after := s[start + 2..];
      match FindTwice(after, '}')
      case None => Unclosed(s[..start], s[start..])
      case Some(end) => Found(s[..start], Trim(after[..end]), after[end + 2..])
  }

  /** A text in pieces; nothing in it depends on the variables. */
  datatype Piece = Literal(text: string) | Lookup(name: string)

  function Pieces(s: string): seq<Piece>
    decreases |s|
  {
    match FirstName(s)
    case Plain => [Literal(s)]
    case Unclosed(before, tail) => [Literal(before), Literal(tail)]
    case Found(before, name, rest) => [Literal(before)] + ([Lookup(name)] + Pieces(rest))
  }

  /** The names looked up in a text, in order. */
  function Lookups(s: string): seq<string>
    decreases |s|
  {
    var scan := FirstName(s);
    if scan.Found? then [scan.name] + Lookups(scan.rest) else []
  }

  function WithoutRepeats(names: seq<string>): seq<string> {
    if names == [] then []
    else
      var front, last := WithoutRepeats(names[..|names| - 1]), names[|names| - 1];
      if last == "" || last in front then front else front + [last]
  }

  lemma NextName(done: seq<string>, name: string, rest: seq<string>)
    ensures done + ([name] + rest) == (done + [name]) + rest
    ensures var front := WithoutRepeats(done);
            WithoutRepeats(done + [name]) == if name == "" || name in front then front else front + [name]
  {
    assert (done + [name])[..|done|] == done;
  }

  /** The names a template uses, in order, without repeats. */
  method Names(template: string) returns (out: seq<string>)
    ensures out == WithoutRepeats(Lookups(template))
  {
    out := [];
    var rest := template;
    ghost var done: seq<string> := [];
    while true
      invariant done + Lookups(rest) == Lookups(template) && out == WithoutRepeats(done)
      decreases |rest|
    {
      var scan := FirstName(rest);
      if !scan.Found? {
        assert done + Lookups(rest) == done;
        break;
      }
      NextName(done, scan.name, Lookups(scan.rest));
      if scan.name != "" && scan.name !in out { out := out + [scan.name]; }
      rest := scan.rest;
      done := done + [scan.name];
    }
  }

  /** The first variable of a name; an unknown name is nothing. */
  function ValueOf(name: string, vars: seq<Var>): string {
    if vars == [] then "" else if vars[0].name == name then vars[0].value else ValueOf(name, vars[1..])
  }

  function PieceText(piece: Piece, vars: seq<Var>): string {
    match piece
    case Literal(text) => text
    case Lookup(name) => ValueOf(name, vars)
  }

  function Filled(pieces: seq<Piece>, vars: seq<Var>): string {
    if pieces == [] then "" else PieceText(pieces[0], vars) + Filled(pieces[1..], vars)
  }

  lemma FilledFirst(piece: Piece, pieces: seq<Piece>, vars: seq<Var>)
    ensures Filled([piece] + pieces, vars) == PieceText(piece, vars) + Filled(pieces, vars)
  {
    assert ([piece] + pieces)[1..] == pieces;
  }

  /** What is filled in for the first name, if there is one, and the rest. */
  lemma FilledNext(s: string, vars: seq<Var>)
    ensures var scan := FirstName(s);
            Filled(Pieces(s), vars)
            == if scan.Plain? then s
               else if scan.Unclosed? then scan.before + scan.tail
               else scan.before + (ValueOf(scan.name, vars) + Filled(Pieces(scan.rest), vars))
  {
    match FirstName(s)
    case Plain => FilledFirst(Literal(s), [], vars);
    case Unclosed(before, tail) =>
      FilledFirst(Literal(before), [Literal(tail)], vars);
      FilledFirst(Literal(tail), [], vars);
      assert [Literal(before), Literal(tail)] == [Literal(before)] + [Literal(tail)];
    case Found(before, name, rest) =>
      FilledFirst(Literal(before), [Lookup(name)] + Pieces(rest), vars);
      FilledFirst(Lookup(name), Pieces(rest), vars);
  }

  /** What is written so far, with the first name of the rest filled in. */
  lemma FilledFrom(out: string, s: string, vars: seq<Var>)
    ensures var scan := FirstName(s);
            out + Filled(Pieces(s), vars)
            == if scan.Plain? then out + s
               else if scan.Unclosed? then out + scan.before + scan.tail
               else out + scan.before + ValueOf(scan.name, vars) + Filled(Pieces(scan.rest), vars)
  {
    FilledNext(s, vars);
    var scan := FirstName(s);
    match scan
    case Plain =>
    case Unclosed(before, tail) => JoinFour(out, before, tail, "");
    case Found(before, name, rest) => JoinFour(out, before, ValueOf(name, vars), Filled(Pieces(rest), vars));
  }

  lemma JoinFour(a: string, b: string, c: string, d: string)
    ensures a + (b + (c + d)) == a + b + c + d && a + (b + c) == a + b + c
  {
  }

  /** A line's text, and whether it used a variable: values go in as they are, and are not read again. */
  method RenderLine(line: string, vars: seq<Var>) returns (out: string, used: bool)
    ensures out == Filled(Pieces(line), vars) && used == (Lookups(line) != [])
  {
    out, used := "", false;
    var rest := line;
    while true
      invariant out + Filled(Pieces(rest), vars) == Filled(Pieces(line), vars)
      invariant (used || Lookups(rest) != []) == (Lookups(line) != [])
      decreases |rest|
    {
      FilledFrom(out, rest, vars);
      var scan := FirstName(rest);
      match scan {
        case Plain => break;
        case Unclosed(before, tail) =>
          out := out + before;
          out := out + tail;
          return;
        case Found(before, name, after) =>
          out := out + before;
          used := true;
          out := out + ValueOf(name, vars);
          rest := after;
      }
    }
    out := out + rest;
  }

  function Joined(lines: seq<string>): string {
    if lines == [] then "" else if |lines| == 1 then lines[0] else lines[0] + "\n" + Joined(lines[1..])
  }

  /** A line made only of variables without text goes. */
  function RenderedLine(line: string, vars: seq<Var>): seq<string> {
    var text := Filled(Pieces(line), vars);
    if Lookups(line) != [] && Trim(text) == "" then [] else [text]
  }

  function Rendered(lines: seq<string>, vars: seq<Var>): seq<string> {
    if lines == [] then [] else RenderedLine(lines[0], vars) + Rendered(lines[1..], vars)
  }

  lemma RenderedNext(kept: seq<string>, lines: seq<string>, i: nat, vars: seq<Var>)
    requires i < |lines|
    ensures kept + Rendered(lines[i..], vars)
         == (kept + RenderedLine(lines[i], vars)) + Rendered(lines[i + 1..], vars)
  {
    assert lines[i..][1..] == lines[i + 1..];
    JoinLines(kept, RenderedLine(lines[i], vars), Rendered(lines[i + 1..], vars));
  }

  lemma JoinLines(a: seq<string>, b: seq<string>, c: seq<string>)
    ensures a + (b + c) == (a + b) + c
  {
  }

  method RenderLines(lines: seq<string>, vars: seq<Var>) returns (kept: seq<string>)
    ensures kept == Rendered(lines, vars)
  {
    kept := [];
    for i := 0 to |lines|
      invariant kept + Rendered(lines[i..], vars) == Rendered(lines, vars)
    {
      RenderedNext(kept, lines, i, vars);
      var line, used := RenderLine(lines[i], vars);
      kept := kept + if used && Trim(line) == "" then [] else [line];
    }
    assert kept + [] == kept;
  }

  method Render(template: string, vars: seq<Var>) returns (text: string)
    ensures text == Trim(Joined(Rendered(Lines(template), vars)))
  {
    var kept := RenderLines(Lines(template), vars);
    return Trim(Joined(kept));
  }

  // ---------------------------------------------------------------------------
  // The check of a stored text
  // ---------------------------------------------------------------------------

  const MAX_LONG_TEXT: nat := 4000

  datatype Checked = Accepted(value: string) | Empty | TooLong | Unknown(names: seq<string>)

  /** Each carriage return with a line feed after it becomes the line feed alone. */
  function LineFeeds(s: string): string {
    if s == "" then ""
    else if |s| > 1 && s[0] == '\r' && s[1] == '\n' then "\n" + LineFeeds(s[2..])
    else [s[0]] + LineFeeds(s[1..])
  }

  function NotIn(names: seq<string>, allowed: seq<string>): seq<string> {
    if names == [] then [] else (if names[0] in allowed then [] else [names[0]]) + NotIn(names[1..], allowed)
  }

  function CheckLongText(text: string, optional: bool, placeholders: seq<string>): Checked {
    var value := Trim(LineFeeds(text));
    if value == "" then (if optional then Accepted(value) else Empty)
    else if |value| > MAX_LONG_TEXT then TooLong
    else
      var unknown := NotIn(WithoutRepeats(Lookups(value)), placeholders);
      if unknown == [] then Accepted(value) else Unknown(unknown)
  }

  // ---------------------------------------------------------------------------
  // Every lookup of a line is a lookup of the text
  // ---------------------------------------------------------------------------

  predicate Braceless(s: string) {
    '{' !in s && '}' !in s
  }

  ghost predicate BracelessNames(names: seq<string>) {
    forall name :: name in names ==> Braceless(name)
  }

  ghost predicate Within(names: seq<string>, others: seq<string>) {
    forall name :: name in names ==> name in others
  }

  predicate Twice(s: string, c: char, i: nat) {
    i + 1 < |s| && s[i] == c && s[i + 1] == c
  }

  /** Text in which no double character starts moves the first one. */
  lemma {:induction false} FindTwiceAfter(plain: string, rest: string, c: char)
    requires forall i :: 0 <= i < |plain| ==> !Twice(plain + rest, c, i)
    ensures FindTwice(plain + rest, c)
         == if FindTwice(rest, c).Some? then Some(|plain| + FindTwice(rest, c).value) else None
  {
    var s := plain + rest;
    if plain == "" {
      assert s == rest;
    } else {
      assert s[1..] == plain[1..] + rest;
      assert !Twice(s, c, 0);
      assert forall i :: 0 <= i < |plain[1..]| ==> (Twice(s[1..], c, i) <==> Twice(s, c, i + 1));
      FindTwiceAfter(plain[1..], rest, c);
    }
  }

  lemma SliceAfter(plain: string, rest: string, i: nat)
    requires i <= |rest|
    ensures (plain + rest)[|plain| + i..] == rest[i..]
  {
  }

  /** Text in which no `{{` starts adds no names. */
  lemma SkipPlain(plain: string, rest: string)
    requires forall i :: 0 <= i < |plain| ==> !Twice(plain + rest, '{', i)
    ensures Lookups(plain + rest) == Lookups(rest)
  {
    FindTwiceAfter(plain, rest, '{');
    var found := FindTwice(rest, '{');
    if found.Some? { SliceAfter(plain, rest, found.value + 2); }
    var long, short := FirstName(plain + rest), FirstName(rest);
    assert long.Found? <==> short.Found?;
    assert short.Found? ==> long.name == short.name && long.rest == short.rest;
  }

  /** The first double character of a text is also the first of a longer one. */
  lemma {:induction false} FindTwiceInLonger(s: string, tail: string, c: char)
    requires FindTwice(s, c).Some?
    ensures FindTwice(s + tail, c) == FindTwice(s, c)
  {
    if !(s[0] == c && s[1] == c) {
      assert (s + tail)[1..] == s[1..] + tail;
      FindTwiceInLonger(s[1..], tail, c);
    }
  }

  lemma Slices(s: string, tail: string, i: nat)
    requires i <= |s|
    ensures (s + tail)[..i] == s[..i] && (s + tail)[i..] == s[i..] + tail
  {
  }

  lemma FirstNameInLonger(s: string, tail: string)
    requires FirstName(s).Found?
    ensures FirstName(s + tail) == FirstName(s).(rest := FirstName(s).rest + tail)
  {
    var start := FindTwice(s, '{').value;
    var after := s[start + 2..];
    var end := FindTwice(after, '}').value;
    FindTwiceInLonger(s, tail, '{');
    Slices(s, tail, start);
    Slices(s, tail, start + 2);
    FindTwiceInLonger(after, tail, '}');
    Slices(after, tail, end);
    Slices(after, tail, end + 2);
  }

  /** A text looks up nothing that a longer one does not. */
  lemma {:induction false} PrefixLookups(s: string, tail: string)
    ensures Within(Lookups(s), Lookups(s + tail))
    decreases |s|
  {
    var scan := FirstName(s);
    if scan.Found? {
      FirstNameInLonger(s, tail);
      PrefixLookups(scan.rest, tail);
    }
  }

  lemma {:induction false} NotFoundIsNowhere(s: string, c: char)
    requires FindTwice(s, c).None?
    ensures forall i :: 0 <= i < |s| ==> !Twice(s, c, i)
  {
    if |s| >= 2 {
      NotFoundIsNowhere(s[1..], c);
      forall i | 0 <= i < |s| ensures !Twice(s, c, i) {
        if i > 0 { assert !Twice(s[1..], c, i - 1); }
      }
    }
  }

  lemma {:induction false} NotFoundInSuffix(s: string, c: char, k: nat)
    requires FindTwice(s, c).None? && k <= |s|
    ensures FindTwice(s[k..], c).None?
  {
    if k > 0 {
      if |s| >= 2 {
        NotFoundInSuffix(s[1..], c, k - 1);
        assert s[1..][k - 1..] == s[k..];
      }
    } else {
      assert s[0..] == s;
    }
  }

  lemma NoClosingNoNames(s: string)
    requires FindTwice(s, '}').None?
    ensures Lookups(s) == []
  {
    var start := FindTwice(s, '{');
    if start.Some? { NotFoundInSuffix(s, '}', start.value + 2); }
  }

  /** A line end stands between what is on its sides. */
  lemma LineEndSeparates(line: string, rest: string, c: char)
    requires FindTwice(line, c).None? && c != '\n'
    ensures forall i :: 0 <= i < |line + "\n"| ==> !Twice(line + "\n" + rest, c, i)
  {
    NotFoundIsNowhere(line, c);
    forall i | 0 <= i < |line + "\n"| ensures !Twice(line + "\n" + rest, c, i) {
      if i + 1 < |line| { assert !Twice(line, c, i); }
    }
  }

  lemma {:induction false} TrimStartKeeps(s: string, c: char)
    requires !IsSpace(c)
    ensures c in TrimStart(s) <==> c in s
  {
    if s != "" && IsSpace(s[0]) {
      assert s == [s[0]] + s[1..];
      TrimStartKeeps(s[1..], c);
    }
  }

  lemma {:induction false} TrimEndKeeps(s: string, c: char)
    requires !IsSpace(c)
    ensures c in TrimEnd(s) <==> c in s
  {
    if s != "" && IsSpace(s[|s| - 1]) {
      assert s == s[..|s| - 1] + [s[|s| - 1]];
      TrimEndKeeps(s[..|s| - 1], c);
    }
  }

  lemma TrimKeepsBraces(s: string)
    ensures Braceless(Trim(s)) <==> Braceless(s)
  {
    TrimStartKeeps(s, '{');
    TrimStartKeeps(s, '}');
    TrimEndKeeps(TrimStart(s), '{');
    TrimEndKeeps(TrimStart(s), '}');
  }

  /** A line that closes an earlier line's name, and holds no brace up to there. */
  lemma BracelessUpTo(rest: string, e: nat)
    requires FindTwice(rest, '}') == Some(e) && Braceless(rest[..e])
    ensures Lookups(rest) == Lookups(rest[e + 2..])
  {
    FoundStands(rest, '}');
    var closed, more := rest[..e + 2], rest[e + 2..];
    assert closed + more == rest;
    forall i | 0 <= i < |closed| ensures !Twice(closed + more, '{', i) {
      if i < e { assert rest[i] == rest[..e][i] && rest[i] in rest[..e]; }
    }
    SkipPlain(closed, more);
  }

  lemma FirstNameIs(text: string, start: nat, after: string, end: nat)
    requires FindTwice(text, '{') == Some(start) && text[start + 2..] == after && FindTwice(after, '}') == Some(end)
    ensures FirstName(text) == Found(text[..start], Trim(after[..end]), after[end + 2..])
  {
  }

  lemma {:induction false} FoundStands(s: string, c: char)
    requires FindTwice(s, c).Some?
    ensures Twice(s, c, FindTwice(s, c).value)
  {
    if !(s[0] == c && s[1] == c) { FoundStands(s[1..], c); }
  }

  /** What the following lines look up, the text looks up. */
  lemma {:induction false} RestLookups(line: string, rest: string)
    requires '\n' !in line && BracelessNames(Lookups(line + "\n" + rest))
    ensures Within(Lookups(rest), Lookups(line + "\n" + rest))
    decreases |line|
  {
    var text := line + "\n" + rest;
    match FirstName(line)
    case Plain =>
      LineEndSeparates(line, rest, '{');
      SkipPlain(line + "\n", rest);
    case Unclosed(_, _) =>
      UnclosedParts(line);
      var start := FindTwice(line, '{').value;
      UnclosedLookups(line, start, line[start + 2..], rest);
    case Found(before, name, more) =>
      assert text == line + ("\n" + rest) && more + ("\n" + rest) == more + "\n" + rest;
      FirstNameInLonger(line, "\n" + rest);
      assert Lookups(text) == [name] + Lookups(more + "\n" + rest);
      assert forall c :: c in more ==> c in line;
      assert forall n :: n in Lookups(more + "\n" + rest) ==> n in Lookups(text);
      RestLookups(more, rest);
  }

  lemma SliceBefore(before: string, rest: string, e: nat)
    requires e <= |rest|
    ensures (before + rest)[..|before| + e] == before + rest[..e]
  {
  }

  lemma NamesFrom(text: string, name: string, more: string)
    requires FirstName(text).Found? && FirstName(text).name == name && FirstName(text).rest == more
    ensures Lookups(text) == [name] + Lookups(more)
  {
  }

  lemma LaterName(text: string, start: nat, before: string, rest: string, e: nat)
    requires FindTwice(text, '{') == Some(start) && text[start + 2..] == before + rest
    requires FindTwice(before + rest, '}') == Some(|before| + e) && e + 2 <= |rest|
    ensures Lookups(text) == [Trim(before + rest[..e])] + Lookups(rest[e + 2..])
  {
    FirstNameIs(text, start, before + rest, |before| + e);
    SliceBefore(before, rest, e);
    SliceAfter(before, rest, e + 2);
    NamesFrom(text, Trim(before + rest[..e]), rest[e + 2..]);
  }

  lemma ClosedLater(text: string, start: nat, before: string, rest: string)
    requires FindTwice(text, '{') == Some(start) && text[start + 2..] == before + rest
    requires forall i :: 0 <= i < |before| ==> !Twice(before + rest, '}', i)
    requires BracelessNames(Lookups(text))
    ensures Within(Lookups(rest), Lookups(text))
  {
    FindTwiceAfter(before, rest, '}');
    if FindTwice(rest, '}').None? {
      NoClosingNoNames(rest);
    } else {
      var e := FindTwice(rest, '}').value;
      LaterName(text, start, before, rest, e);
      BracelessPart(Lookups(text), before, rest[..e]);
      BracelessUpTo(rest, e);
    }
  }

  lemma BracelessPart(names: seq<string>, a: string, b: string)
    requires BracelessNames(names) && names != [] && names[0] == Trim(a + b)
    ensures Braceless(b)
  {
    assert names[0] in names;
    TrimKeepsBraces(a + b);
    assert forall c :: c in b ==> c in a + b;
  }

  lemma Rejoin(a: string, b: string, c: string)
    ensures a + (b + c) == a + b + c
  {
  }

  lemma UnclosedParts(line: string)
    requires FirstName(line).Unclosed?
    ensures FindTwice(line, '{').Some? && FindTwice(line[FindTwice(line, '{').value + 2..], '}').None?
  {
  }

  lemma UnclosedLookups(line: string, start: nat, after: string, rest: string)
    requires FindTwice(line, '{') == Some(start) && after == line[start + 2..] && FindTwice(after, '}').None?
    requires BracelessNames(Lookups(line + "\n" + rest))
    ensures Within(Lookups(rest), Lookups(line + "\n" + rest))
  {
    var tail := "\n" + rest;
    Rejoin(line, "\n", rest);
    FindTwiceInLonger(line, tail, '{');
    Slices(line, tail, start + 2);
    Rejoin(after, "\n", rest);
    LineEndSeparates(after, rest, '}');
    ClosedLater(line + tail, start, after + "\n", rest);
  }

  /** Every name a line looks up, the text looks up, if no name of the text has a brace in it. */
  lemma {:induction false} LineLookups(text: string)
    requires BracelessNames(Lookups(text))
    ensures forall line :: line in Lines(text) ==> Within(Lookups(line), Lookups(text))
    decreases |text|
  {
    var at := IndexOf(text, {'\n'});
    if at == |text| {
    } else {
      var line, rest := text[..at], text[at + 1..];
      assert text == line + "\n" + rest;
      PrefixLookups(line, "\n" + rest);
      assert line + ("\n" + rest) == text;
      var kept := WithoutReturn(line);
      PrefixLookups(kept, line[|kept|..]);
      assert kept + line[|kept|..] == line;
      RestLookups(line, rest);
      LineLookups(rest);
    }
  }

  lemma {:induction false} NoneNotIn(names: seq<string>, allowed: seq<string>)
    ensures NotIn(names, allowed) == [] <==> Within(names, allowed)
  {
    if names != [] {
      assert names == [names[0]] + names[1..];
      NoneNotIn(names[1..], allowed);
    }
  }

  lemma {:induction false} WithoutRepeatsHasAll(names: seq<string>)
    ensures forall name :: name in WithoutRepeats(names) <==> name in names && name != ""
    ensures forall i, j :: 0 <= i < j < |WithoutRepeats(names)| ==> WithoutRepeats(names)[i] != WithoutRepeats(names)[j]
  {
    if names != [] {
      assert names == names[..|names| - 1] + [names[|names| - 1]];
      WithoutRepeatsHasAll(names[..|names| - 1]);
    }
  }

  /** A text is accepted only with known names, and then rendering it looks up only those - or the empty name, which
      the check lets through. */
  lemma AcceptedLooksUpPlaceholders(text: string, optional: bool, placeholders: seq<string>)
    requires BracelessNames(placeholders) && CheckLongText(text, optional, placeholders).Accepted?
    ensures var value := CheckLongText(text, optional, placeholders).value;
            forall line, name :: line in Lines(value) && name in Lookups(line) ==> name in placeholders || name == ""
  {
    var value := CheckLongText(text, optional, placeholders).value;
    WithoutRepeatsHasAll(Lookups(value));
    NoneNotIn(WithoutRepeats(Lookups(value)), placeholders);
    forall name | name in Lookups(value) ensures name in placeholders || name == "" {
      if name != "" && value != "" { assert name in WithoutRepeats(Lookups(value)); }
    }
    LineLookups(value);
  }

  /** A long text is accepted, trimmed and with plain line feeds, if and only if it has text or need not, at most four thousand
      characters, and no names but placeholders and the empty one. */
  lemma AcceptedExactly(text: string, optional: bool, placeholders: seq<string>)
    ensures var value, checked := Trim(LineFeeds(text)), CheckLongText(text, optional, placeholders);
            && (checked.Accepted? <==>
                  if value == "" then optional
                  else |value| <= 4000 && forall name :: name in Lookups(value) ==> name == "" || name in placeholders)
            && (checked.Accepted? ==> checked.value == value)
  {
    var value := Trim(LineFeeds(text));
    WithoutRepeatsHasAll(Lookups(value));
    NoneNotIn(WithoutRepeats(Lookups(value)), placeholders);
  }

  lemma {:induction false} NotInIs(names: seq<string>, allowed: seq<string>)
    requires forall i, j :: 0 <= i < j < |names| ==> names[i] != names[j]
    ensures forall name :: name in NotIn(names, allowed) <==> name in names && name !in allowed
    ensures forall i, j :: 0 <= i < j < |NotIn(names, allowed)| ==> NotIn(names, allowed)[i] != NotIn(names, allowed)[j]
  {
    if names != [] {
      assert names == [names[0]] + names[1..];
      NotInIs(names[1..], allowed);
    }
  }

  /** The names complained of are those that are no placeholders, each once. */
  lemma UnknownExactly(text: string, optional: bool, placeholders: seq<string>)
    requires CheckLongText(text, optional, placeholders).Unknown?
    ensures var value, names := Trim(LineFeeds(text)), CheckLongText(text, optional, placeholders).names;
            && (forall name :: name in names <==> name in Lookups(value) && name != "" && name !in placeholders)
            && (forall i, j :: 0 <= i < j < |names| ==> names[i] != names[j])
  {
    var value := Trim(LineFeeds(text));
    WithoutRepeatsHasAll(Lookups(value));
    NotInIs(WithoutRepeats(Lookups(value)), placeholders);
  }

  ghost predicate SameValues(names: seq<string>, a: seq<Var>, b: seq<Var>) {
    forall name :: name in names ==> ValueOf(name, a) == ValueOf(name, b)
  }

  lemma {:induction false} FilledAlike(s: string, a: seq<Var>, b: seq<Var>)
    requires SameValues(Lookups(s), a, b)
    ensures Filled(Pieces(s), a) == Filled(Pieces(s), b)
    decreases |s|
  {
    FilledNext(s, a);
    FilledNext(s, b);
    var scan := FirstName(s);
    if scan.Found? {
      assert scan.name in Lookups(s);
      assert forall name :: name in Lookups(scan.rest) ==> name in Lookups(s);
      FilledAlike(scan.rest, a, b);
    }
  }

  lemma {:induction false} RenderedAlike(lines: seq<string>, a: seq<Var>, b: seq<Var>)
    requires forall line :: line in lines ==> SameValues(Lookups(line), a, b)
    ensures Rendered(lines, a) == Rendered(lines, b)
  {
    if lines != [] {
      FilledAlike(lines[0], a, b);
      RenderedAlike(lines[1..], a, b);
    }
  }

  /** What an accepted text renders to depends on the placeholders' values only, whatever they contain. */
  lemma OnlyPlaceholdersMatter(text: string, optional: bool, placeholders: seq<string>, a: seq<Var>, b: seq<Var>)
    requires BracelessNames(placeholders) && CheckLongText(text, optional, placeholders).Accepted?
    requires SameValues(placeholders + [""], a, b)
    ensures var lines := Lines(CheckLongText(text, optional, placeholders).value); Rendered(lines, a) == Rendered(lines, b)
  {
    AcceptedLooksUpPlaceholders(text, optional, placeholders);
    var lines := Lines(CheckLongText(text, optional, placeholders).value);
    forall line, name | line in lines && name in Lookups(line) ensures ValueOf(name, a) == ValueOf(name, b) {
      assert name in placeholders + [""];
    }
    RenderedAlike(lines, a, b);
  }
}
