// Reading one cycle of the Morse light gives back the phrase, up to case and repeated spaces.
module MorseReading {
  import opened Options
  import opened Text
  import opened Morse

  // ---------------------------------------------------------------------------
  // The reader
  // ---------------------------------------------------------------------------

  /** What is seen in one cycle, unit by unit. */
  function Cycle(p: Pattern): seq<Color>
    requires p.cycle > 0
  {
    seq(p.cycle, t requires 0 <= t < p.cycle => ColorAt(p, t * UNIT_MS))
  }

  function RunEnd(colors: seq<Color>, t: nat): (end: nat)
    requires t <= |colors|
    ensures t <= end <= |colors| && (t < |colors| && colors[t] == Cyan ==> t < end)
    decreases |colors| - t
  {
    if t < |colors| && colors[t] == Cyan then RunEnd(colors, t + 1) else t
  }

  /** The longest cyan runs from a unit on. */
  function Runs(colors: seq<Color>, t: nat): seq<Mark>
    requires t <= |colors|
    decreases |colors| - t
  {
    if t == |colors| then []
    else if colors[t] != Cyan then Runs(colors, t + 1)
    else [Mark(t, RunEnd(colors, t))] + Runs(colors, RunEnd(colors, t))
  }

  /** Dots and dashes by their length, letters and words by the gap before them; `t` is one unit after the last mark. */
  function ReadMarks(marks: seq<Mark>, t: int): string {
    if marks == [] then ""
    else
      var gap, length := marks[0].start - t, marks[0].end - marks[0].start;
      (if gap >= 6 then "/" else if gap >= 2 then " " else "") + [if length == 1 then '.' else '-']
      + ReadMarks(marks[1..], marks[0].end + 1)
  }

  function ReadLetter(code: string): char {
    match FromCode(code)
    case Some(c) => c
    case None => '#'
  }

  function ReadWord(codes: seq<string>): string {
    seq(|codes|, i requires 0 <= i < |codes| => ReadLetter(codes[i]))
  }

  function ReadSpelled(s: string): seq<string> {
    var words := Split(s, '/');
    seq(|words|, i requires 0 <= i < |words| => ReadWord(Split(words[i], ' ')))
  }

  function ReadLight(colors: seq<Color>): seq<string> {
    ReadSpelled(ReadMarks(Runs(colors, 0), 0))
  }

  // ---------------------------------------------------------------------------
  // Spelled Morse is well formed
  // ---------------------------------------------------------------------------

  predicate Symbol(c: char) {
    c == '.' || c == '-'
  }

  /** Starts with a symbol, and so does what follows each separator. */
  predicate WellSpelled(s: string) {
    && s != "" && Symbol(s[0])
    && forall i :: 0 <= i < |s| && !Symbol(s[i]) ==> (s[i] == ' ' || s[i] == '/') && Followed(s, i)
  }

  predicate Followed(s: string, i: nat) {
    i + 1 < |s| && Symbol(s[i + 1])
  }

  lemma WellSpelledJoin(a: string, separator: char, b: string)
    requires WellSpelled(a) && WellSpelled(b) && (separator == ' ' || separator == '/')
    ensures WellSpelled(a + [separator] + b)
  {
    var s := a + [separator] + b;
    forall i | 0 <= i < |s| && !Symbol(s[i]) ensures (s[i] == ' ' || s[i] == '/') && Followed(s, i) {
      if i < |a| {
        assert Followed(a, i);
      } else if i > |a| {
        assert s[i] == b[i - |a| - 1] && Followed(b, i - |a| - 1);
      }
    }
  }

  lemma {:induction false} JoinIsWellSpelled(parts: seq<string>, separator: char)
    requires parts != [] && (forall part :: part in parts ==> WellSpelled(part)) && (separator == ' ' || separator == '/')
    ensures WellSpelled(Join(parts, separator))
  {
    assert parts[0] in parts;
    if |parts| > 1 {
      JoinIsWellSpelled(parts[1..], separator);
      WellSpelledJoin(parts[0], separator, Join(parts[1..], separator));
    }
  }

  lemma {:induction false} JoinOnlyAdds(parts: seq<string>, separator: char, c: char)
    requires c in Join(parts, separator)
    ensures c == separator || exists part :: part in parts && c in part
  {
    if |parts| == 1 {
      assert parts[0] in parts;
    } else if |parts| > 1 {
      if c in parts[0] {
        assert parts[0] in parts;
      } else if c != separator {
        JoinOnlyAdds(parts[1..], separator, c);
      }
    }
  }

  lemma CodeIsWellSpelled(c: char)
    requires Code(c).Some?
    ensures var code := Code(c).value;
            WellSpelled(code) && ' ' !in code && '/' !in code && ReadLetter(code) == Upper(c)
  {
    CodesRead(Upper(c));
    var code := Code(c).value;
    assert forall i :: 0 <= i < |code| ==> code[i] in code;
  }

  lemma WordIsWellSpelled(word: string)
    requires Letters(word) && word != ""
    ensures var s := Join(Codes(word), ' ');
            WellSpelled(s) && '/' !in s && ReadWord(Split(s, ' ')) == Uppercase(word)
  {
    var codes := Codes(word);
    forall i | 0 <= i < |word|
      ensures WellSpelled(codes[i]) && ' ' !in codes[i] && '/' !in codes[i] && ReadLetter(codes[i]) == Upper(word[i])
    {
      assert word[i] in word;
      CodesAt(word, i);
      CodeIsWellSpelled(word[i]);
    }
    JoinIsWellSpelled(codes, ' ');
    if '/' in Join(codes, ' ') {
      JoinOnlyAdds(codes, ' ', '/');
      assert false;
    }
    SplitJoin(codes, ' ');
  }

  lemma {:induction false} SplitJoin(parts: seq<string>, separator: char)
    requires parts != [] && forall part :: part in parts ==> separator !in part
    ensures Split(Join(parts, separator), separator) == parts
  {
    assert parts[0] in parts;
    if |parts| == 1 {
      SplitFirst(parts[0], separator, "");
    } else {
      SplitFirst(parts[0], separator, Join(parts[1..], separator));
      SplitJoin(parts[1..], separator);
    }
  }

  function Capitals(words: seq<string>): seq<string> {
    seq(|words|, i requires 0 <= i < |words| => Uppercase(words[i]))
  }

  predicate Spellable(words: seq<string>) {
    words != [] && forall word :: word in words ==> word != "" && Letters(word)
  }

  lemma SpelledReads(words: seq<string>)
    requires Spellable(words)
    ensures WellSpelled(Spelled(words)) && ReadSpelled(Spelled(words)) == Capitals(words)
  {
    var parts := SpelledWords(words);
    forall i | 0 <= i < |words|
      ensures WellSpelled(parts[i]) && '/' !in parts[i] && ReadWord(Split(parts[i], ' ')) == Uppercase(words[i])
    {
      SpelledWordsAt(words, i);
      WordIsWellSpelled(words[i]);
    }
    JoinIsWellSpelled(parts, '/');
    SplitJoin(parts, '/');
  }

  // ---------------------------------------------------------------------------
  // Marks are read back
  // ---------------------------------------------------------------------------

  lemma ReadFirst(symbol: char, rest: seq<Mark>, t: nat)
    requires Symbol(symbol)
    ensures ReadMarks([Mark(t, t + Units(symbol))] + rest, t) == [symbol] + ReadMarks(rest, t + Units(symbol) + 1)
  {
    assert ([Mark(t, t + Units(symbol))] + rest)[1..] == rest;
  }

  /** A longer gap before the same marks reads as a separator. */
  lemma ReadGap(separator: char, marks: seq<Mark>, t: nat)
    requires separator == ' ' || separator == '/'
    requires marks != [] && marks[0].start == After(separator, t)
    ensures ReadMarks(marks, t) == [separator] + ReadMarks(marks, After(separator, t))
  {
  }

  /** Nothing, or well spelled, after a separator or not. */
  predicate Readable(s: string) {
    s == "" || WellSpelled(s) || ((s[0] == ' ' || s[0] == '/') && WellSpelled(s[1..]))
  }

  lemma RestIsReadable(s: string)
    requires WellSpelled(s)
    ensures Readable(s[1..])
  {
    if |s| > 1 {
      RestIsWellSpelled(s);
      if !Symbol(s[1]) { assert s[1..][1..] == s[2..]; }
    }
  }

  lemma FirstMark(s: string, t: nat)
    requires WellSpelled(s)
    ensures Marks(s, t) == [Mark(t, t + Units(s[0]))] + Marks(s[1..], t + Units(s[0]) + 1)
  {
  }

  lemma {:induction false} MarksRead(s: string, t: nat)
    requires Readable(s)
    ensures ReadMarks(Marks(s, t), t) == s
  {
    if s == "" {
    } else if Symbol(s[0]) {
      FirstMark(s, t);
      RestIsReadable(s);
      MarksRead(s[1..], t + Units(s[0]) + 1);
      ReadFirst(s[0], Marks(s[1..], t + Units(s[0]) + 1), t);
      assert s == [s[0]] + s[1..];
    } else {
      var later := After(s[0], t);
      FirstMark(s[1..], later);
      assert Marks(s, t) == Marks(s[1..], later);
      ReadGap(s[0], Marks(s[1..], later), t);
      MarksRead(s[1..], later);
      assert s == [s[0]] + s[1..];
    }
  }

  lemma RestIsWellSpelled(s: string)
    requires WellSpelled(s)
    ensures |s| == 1 || (Symbol(s[1]) && WellSpelled(s[1..])) || (|s| > 2 && !Symbol(s[1]) && WellSpelled(s[2..]))
  {
    if |s| > 1 {
      var rest := if Symbol(s[1]) then s[1..] else s[2..];
      if !Symbol(s[1]) { assert Followed(s, 1); }
      forall i | 0 <= i < |rest| && !Symbol(rest[i]) ensures (rest[i] == ' ' || rest[i] == '/') && Followed(rest, i) {
        assert Followed(s, i + |s| - |rest|);
      }
    }
  }

  // ---------------------------------------------------------------------------
  // The cyan runs of a cycle are the marks
  // ---------------------------------------------------------------------------

  predicate Lit(marks: seq<Mark>, t: nat) {
    exists mark :: mark in marks && mark.start <= t < mark.end
  }

  /** Marks from `t` on and ended by `end`, with at least a unit between them. */
  predicate Apart(marks: seq<Mark>, t: nat, end: nat) {
    marks == [] || (t <= marks[0].start < marks[0].end <= end && Apart(marks[1..], marks[0].end + 1, end))
  }

  lemma {:induction false} ApartFrom(marks: seq<Mark>, t: nat, end: nat)
    requires Apart(marks, t, end)
    ensures forall mark :: mark in marks ==> t <= mark.start < mark.end <= end
  {
    if marks != [] {
      assert marks == [marks[0]] + marks[1..];
      ApartFrom(marks[1..], marks[0].end + 1, end);
    }
  }

  lemma {:induction false} RunEndIs(colors: seq<Color>, t: nat, end: nat)
    requires t <= end < |colors| && colors[end] != Cyan && forall u :: t <= u < end ==> colors[u] == Cyan
    ensures RunEnd(colors, t) == end
    decreases end - t
  {
    if t < end { RunEndIs(colors, t + 1, end); }
  }

  lemma {:induction false} SkipDark(colors: seq<Color>, t: nat, u: nat)
    requires t <= u <= |colors| && forall v :: t <= v < u ==> colors[v] != Cyan
    ensures Runs(colors, t) == Runs(colors, u)
    decreases u - t
  {
    if t < u { SkipDark(colors, t + 1, u); }
  }

  lemma {:induction false} RunsAreMarks(colors: seq<Color>, marks: seq<Mark>, t: nat, end: nat)
    requires Apart(marks, t, end) && t <= |colors| && end < |colors|
    requires forall u :: t <= u < |colors| ==> (colors[u] == Cyan <==> Lit(marks, u))
    ensures Runs(colors, t) == marks
    decreases |marks|
  {
    if marks == [] {
      SkipDark(colors, t, |colors|);
    } else {
      var first, rest := marks[0], marks[1..];
      assert marks == [first] + rest;
      ApartFrom(rest, first.end + 1, end);
      assert forall u :: first.start <= u < first.end ==> first in marks && Lit(marks, u);
      assert forall u :: t <= u < |colors| ==> (Lit(marks, u) <==> first.start <= u < first.end || Lit(rest, u));
      SkipDark(colors, t, first.start);
      RunEndIs(colors, first.start, first.end);
      SkipDark(colors, first.end, first.end + 1);
      RunsAreMarks(colors, rest, first.end + 1, end);
    }
  }

  /** All marks end before the gap of the last one does. */
  lemma {:induction false} MarksAreApart(s: string, t: nat)
    requires s != ""
    ensures Apart(Marks(s, t), t, End(s, t) - 1)
  {
    var rest := s[1..];
    var next := After(s[0], t);
    if rest != "" {
      MarksAreApart(rest, next);
      ApartEarlier(Marks(rest, next), next, t, End(s, t) - 1);
    }
    assert |MarkOf(s[0], t)| == 1 ==> Marks(s, t)[1..] == Marks(rest, next);
    assert MarkOf(s[0], t) == [] ==> Marks(s, t) == Marks(rest, next);
  }

  lemma ApartEarlier(marks: seq<Mark>, t: nat, before: nat, end: nat)
    requires Apart(marks, t, end) && before <= t
    ensures Apart(marks, before, end)
  {
  }

  lemma CycleIsCyan(p: Pattern, t: nat)
    requires t < p.cycle
    ensures Cycle(p)[t] == Cyan <==> t < p.messageEnd && Lit(p.marks, t)
  {
    assert t * UNIT_MS / UNIT_MS % p.cycle == t;
  }

  // ---------------------------------------------------------------------------
  // Which phrases are taken
  // ---------------------------------------------------------------------------

  const SIGNS: string := ".,?!-/'\"():;=+@_"

  predicate HasCode(c: char) {
    ('A' <= c <= 'Z') || ('a' <= c <= 'z') || ('0' <= c <= '9') || c in SIGNS
  }

  lemma CodedExactly(c: char)
    ensures Code(c).Some? <==> HasCode(c)
  {
    assert SIGNS == ['.', ',', '?', '!', '-', '/', '\'', '"', '(', ')', ':', ';', '=', '+', '@', '_'];
  }

  /** A phrase that can be sent: at most eighty characters, letters, digits, signs and spaces, and not only spaces. */
  predicate Sendable(phrase: string) {
    && |phrase| <= 80 && (exists i :: 0 <= i < |phrase| && phrase[i] != ' ')
    && forall i :: 0 <= i < |phrase| ==> HasCode(phrase[i]) || phrase[i] == ' '
  }

  lemma ValidExactly(phrase: string)
    ensures ValidPhrase(phrase) <==> Sendable(phrase)
  {
    forall c ensures Code(c).Some? <==> HasCode(c) { CodedExactly(c); }
    assert forall c :: c in phrase <==> exists i :: 0 <= i < |phrase| && phrase[i] == c;
    if forall i :: 0 <= i < |phrase| ==> HasCode(phrase[i]) || phrase[i] == ' ' { NotOnlySpaces(phrase); }
  }

  lemma {:induction false} SpacesTrim(s: string)
    requires forall i :: 0 <= i < |s| ==> s[i] == ' '
    ensures TrimStart(s) == ""
  {
    if s != "" { SpacesTrim(s[1..]); }
  }

  lemma {:induction false} TrimStartHas(s: string, i: nat)
    requires i < |s| && !IsSpace(s[i])
    ensures TrimStart(s) != "" && !IsSpace(TrimStart(s)[0])
  {
    if IsSpace(s[0]) {
      assert s[1..][i - 1] == s[i];
      TrimStartHas(s[1..], i - 1);
    }
  }

  lemma {:induction false} TrimEndStarts(s: string)
    requires s != "" && !IsSpace(s[0])
    ensures TrimEnd(s) != ""
    decreases |s|
  {
    if IsSpace(s[|s| - 1]) { TrimEndStarts(s[..|s| - 1]); }
  }

  lemma NotOnlySpaces(phrase: string)
    requires forall i :: 0 <= i < |phrase| ==> HasCode(phrase[i]) || phrase[i] == ' '
    ensures Trim(phrase) != "" <==> exists i :: 0 <= i < |phrase| && phrase[i] != ' '
  {
    if i :| 0 <= i < |phrase| && phrase[i] != ' ' {
      CodedIsNoSpace(phrase[i]);
      TrimStartHas(phrase, i);
      TrimEndStarts(TrimStart(phrase));
    } else {
      SpacesTrim(phrase);
    }
  }

  lemma CodedIsNoSpace(c: char)
    requires HasCode(c)
    ensures !IsSpace(c)
  {
  }

  /** The phrase that is sent: one that can be, else the default one. */
  function Sent(phrase: string): string {
    if Sendable(phrase) then phrase else "Robots have feelings too!"
  }

  /** For every phrase: reading one cycle of its light gives the words of the phrase sent, in capitals. */
  lemma LightReadsBack(phrase: string, p: Pattern)
    requires if ValidPhrase(phrase) then p == PatternOf(phrase) else ValidPhrase(DEFAULT_PHRASE) && p == PatternOf(DEFAULT_PHRASE)
    ensures ReadLight(Cycle(p)) == Capitals(Words(Sent(phrase)))
  {
    ValidExactly(phrase);
    ValidLightReads(Sent(phrase));
  }

  lemma ValidLightReads(phrase: string)
    requires ValidPhrase(phrase)
    ensures ReadLight(Cycle(PatternOf(phrase))) == Capitals(Words(phrase))
  {
    PhraseLetters(phrase);
    SpelledReads(Words(phrase));
    CycleReads(PatternOf(phrase), Spelled(Words(phrase)));
  }

  /** The light over time: steps of a fifth of a second, the same in every cycle. After the message, seven dark units, three green
      flashes of three units with three dark ones after each, and seven more dark ones. */
  lemma LightOverTime(phrase: string, ms: nat)
    requires ValidPhrase(phrase)
    ensures var p := PatternOf(phrase); var u := ms / 200 % p.cycle;
            && p.cycle == p.messageEnd + 32 && ColorAt(p, ms) == Cycle(p)[u]
            && (ColorAt(p, ms) == Green <==>
                  u - p.messageEnd in {7, 8, 9} || u - p.messageEnd in {13, 14, 15} || u - p.messageEnd in {19, 20, 21})
            && (u >= p.messageEnd ==> ColorAt(p, ms) != Cyan)
  {
    var p := PatternOf(phrase);
    CycleTime(ms / 200 % p.cycle, p.cycle);
  }

  lemma CycleTime(u: nat, cycle: nat)
    requires u < cycle
    ensures u * 200 / 200 % cycle == u
  {
  }

  lemma CycleReads(p: Pattern, spelled: string)
    requires WellSpelled(spelled) && p.marks == Marks(spelled, 0)
    requires p.messageEnd == End(spelled, 0) - 1 && p.messageEnd < p.cycle
    ensures ReadLight(Cycle(p)) == ReadSpelled(spelled)
  {
    MarksAreApart(spelled, 0);
    ApartFrom(p.marks, 0, p.messageEnd);
    forall t | 0 <= t < p.cycle ensures Cycle(p)[t] == Cyan <==> Lit(p.marks, t) {
      CycleIsCyan(p, t);
    }
    RunsAreMarks(Cycle(p), p.marks, 0, p.messageEnd);
    MarksRead(spelled, 0);
  }

  /** Phrases with the same light have the same words, up to case. */
  lemma SameLightSameWords(a: string, b: string)
    requires ValidPhrase(a) && ValidPhrase(b) && Cycle(PatternOf(a)) == Cycle(PatternOf(b))
    ensures Capitals(Words(a)) == Capitals(Words(b))
  {
    ValidLightReads(a);
    ValidLightReads(b);
  }

  /** Marks of one or three units, each after a gap of one, three or seven; `t` is one unit after the mark before. */
  predicate Rhythm(marks: seq<Mark>, t: nat) {
    marks == [] || (t <= marks[0].start && marks[0].start - t in {0, 2, 6} && marks[0].end >= marks[0].start
                    && marks[0].end - marks[0].start in {1, 3} && Rhythm(marks[1..], marks[0].end + 1))
  }

  lemma {:induction false} MarksHaveRhythm(s: string, t: nat)
    requires s == "" || WellSpelled(s)
    ensures Rhythm(Marks(s, t), t)
  {
    if s != "" {
      var next := After(s[0], t);
      RestIsWellSpelled(s);
      assert Marks(s, t)[1..] == Marks(s[1..], next);
      if |s| > 1 && !Symbol(s[1]) {
        var later := After(s[1], next);
        assert Followed(s, 1) && s[1..][1..] == s[2..];
        MarksHaveRhythm(s[2..], later);
        assert Marks(s[1..], next) == Marks(s[2..], later);
      } else {
        MarksHaveRhythm(s[1..], next);
      }
    }
  }

  lemma {:induction false} RhythmGaps(marks: seq<Mark>, t: nat, i: nat)
    requires Rhythm(marks, t) && i + 1 < |marks|
    ensures marks[i + 1].start - marks[i].end in {1, 3, 7} && marks[i].end - marks[i].start in {1, 3}
    decreases i
  {
    if i > 0 { RhythmGaps(marks[1..], marks[0].end + 1, i - 1); }
  }

  /** Consecutive marks are one unit apart in a letter, three between letters and seven between words
      (ITU-R M.1677-1, Part I section 2). */
  lemma GapsAreStandard(phrase: string, i: nat)
    requires ValidPhrase(phrase) && i + 1 < |PatternOf(phrase).marks|
    ensures var marks := PatternOf(phrase).marks;
            marks[i + 1].start - marks[i].end in {1, 3, 7} && marks[i].end - marks[i].start in {1, 3}
  {
    PhraseLetters(phrase);
    SpelledReads(Words(phrase));
    MarksHaveRhythm(Spelled(Words(phrase)), 0);
    RhythmGaps(PatternOf(phrase).marks, 0, i);
  }
}
