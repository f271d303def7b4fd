// The Morse light (mastomini_bots/src/board_status.rs): a phrase as cyan marks on a grid of units, and the
// reading of one cycle of the light.
module Morse {
  import opened Options
  import opened Text

  const DEFAULT_PHRASE: string := "Robots have feelings too!"
  const MAX_PHRASE: nat := 80
  const UNIT_MS: nat := 200

  function CodeToM(c: char): Option<string> {
    match c
    case 'A' => Some(".-")
    case 'B' => Some("-...")
    case 'C' => Some("-.-.")
    case 'D' => Some("-..")
    case 'E' => Some(".")
    case 'F' => Some("..-.")
    case 'G' => Some("--.")
    case 'H' => Some("....")
    case 'I' => Some("..")
    case 'J' => Some(".---")
    case 'K' => Some("-.-")
    case 'L' => Some(".-..")
    case 'M' => Some("--")
    case _ => None
  }

  function CodeFromN(c: char): Option<string> {
    match c
    case 'N' => Some("-.")
    case 'O' => Some("---")
    case 'P' => Some(".--.")
    case 'Q' => Some("--.-")
    case 'R' => Some(".-.")
    case 'S' => Some("...")
    case 'T' => Some("-")
    case 'U' => Some("..-")
    case 'V' => Some("...-")
    case 'W' => Some(".--")
    case 'X' => Some("-..-")
    case 'Y' => Some("-.--")
    case 'Z' => Some("--..")
    case _ => None
  }

  function CodeOfDigit(c: char): Option<string> {
    match c
    case '0' => Some("-----")
    case '1' => Some(".----")
    case '2' => Some("..---")
    case '3' => Some("...--")
    case '4' => Some("....-")
    case '5' => Some(".....")
    case '6' => Some("-....")
    case '7' => Some("--...")
    case '8' => Some("---..")
    case '9' => Some("----.")
    case _ => None
  }

  function CodeOfLowSign(c: char): Option<string> {
    match c
    case '!' => Some("-.-.--")
    case '\'' => Some(".----.")
    case '"' => Some(".-..-.")
    case '(' => Some("-.--.")
    case ')' => Some("-.--.-")
    case _ => None
  }

  function CodeOfHighSign(c: char): Option<string> {
    match c
    case '?' => Some("..--..")
    case ':' => Some("---...")
    case ';' => Some("-.-.-.")
    case '=' => Some("-...-")
    case '@' => Some(".--.-.")
    case '_' => Some("..--.-")
    case _ => None
  }

  function CodeOfMiddleSign(c: char): Option<string> {
    match c
    case '.' => Some(".-.-.-")
    case ',' => Some("--..--")
    case '-' => Some("-....-")
    case '/' => Some("-..-.")
    case '+' => Some(".-.-.")
    case _ => None
  }

  function CodeOfUpper(c: char): Option<string> {
    if 'A' <= c <= 'M' then CodeToM(c)
    else if 'N' <= c <= 'Z' then CodeFromN(c)
    else if '0' <= c <= '9' then CodeOfDigit(c)
    else if c < '+' then CodeOfLowSign(c)
    else if c < '0' then CodeOfMiddleSign(c)
    else CodeOfHighSign(c)
  }

  function Code(c: char): Option<string> {
    CodeOfUpper(Upper(c))
  }

  predicate ValidPhrase(phrase: string) {
    Trim(phrase) != "" && |phrase| <= MAX_PHRASE && forall c :: c in phrase ==> c == ' ' || Code(c).Some?
  }

  // ---------------------------------------------------------------------------
  // The pattern
  // ---------------------------------------------------------------------------

  /** Units from `start` up to `end`, which is not in it. */
  datatype Mark = Mark(start: nat, end: nat)

  datatype Pattern = Pattern(marks: seq<Mark>, messageEnd: nat, cycle: nat)

  datatype Color = Dark | Cyan | Green

  function ColorAt(p: Pattern, elapsedMs: nat): Color
    requires p.cycle > 0
  {
    var t := elapsedMs / UNIT_MS % p.cycle;
    if t < p.messageEnd then
      (if exists mark :: mark in p.marks && mark.start <= t < mark.end then Cyan else Dark)
    else if p.messageEnd + 7 <= t < p.messageEnd + 7 + 18 && (t - p.messageEnd - 7) % 6 < 3 then Green
    else Dark
  }

  function Units(symbol: char): nat {
    if symbol == '.' then 1 else 3
  }

  // Spelled Morse: the codes, with a space between letters and a slash between words. A symbol takes its units and
  // one of gap; a space adds two units of gap, and a slash six.

  function Join(parts: seq<string>, separator: char): string {
    if parts == [] then "" else if |parts| == 1 then parts[0] else parts[0] + [separator] + Join(parts[1..], separator)
  }

  predicate Letters(word: string) {
    forall c :: c in word ==> Code(c).Some?
  }

  function Codes(word: string): (codes: seq<string>)
    requires Letters(word)
    ensures |codes| == |word|
  {
    if word == "" then []
    else
      assert word[0] in word;
      [Code(word[0]).value] + Codes(word[1..])
  }

  function SpelledWords(words: seq<string>): (parts: seq<string>)
    requires forall word :: word in words ==> Letters(word)
    ensures |parts| == |words|
  {
    if words == [] then [] else [Join(Codes(words[0]), ' ')] + SpelledWords(words[1..])
  }

  function Spelled(words: seq<string>): string
    requires forall word :: word in words ==> Letters(word)
  {
    Join(SpelledWords(words), '/')
  }

  /** The unit after a symbol and its gap, or after the gap a separator adds. */
  function After(c: char, t: nat): nat {
    t + if c == ' ' then 2 else if c == '/' then 6 else Units(c) + 1
  }

  function MarkOf(c: char, t: nat): seq<Mark> {
    if c == ' ' || c == '/' then [] else [Mark(t, t + Units(c))]
  }

  function Marks(s: string, t: nat): seq<Mark> {
    if s == "" then [] else MarkOf(s[0], t) + Marks(s[1..], After(s[0], t))
  }

  /** The unit after the last symbol's gap. */
  function End(s: string, t: nat): (end: nat)
    ensures end >= t && (s != "" ==> end > t)
  {
    if s == "" then t else End(s[1..], After(s[0], t))
  }

  function PatternOf(phrase: string): Pattern
    requires ValidPhrase(phrase)
  {
    PhraseLetters(phrase);
    var spelled := Spelled(Words(phrase));
    var end := if spelled == "" then 0 else End(spelled, 0) - 1;
    Pattern(Marks(spelled, 0), end, end + 7 + 3 * 6 + 7)
  }

  lemma {:induction false} WordsLetters(s: string)
    requires forall c :: c in s ==> IsSpace(c) || Code(c).Some?
    ensures forall word :: word in Words(s) ==> word != "" && Letters(word)
    decreases |s|
  {
    if s != "" && IsSpace(s[0]) {
      WordsLetters(s[1..]);
    } else if s != "" {
      WordsLetters(s[WordEnd(s)..]);
    }
  }

  lemma {:induction false} TrimmedToNothing(s: string)
    requires Words(s) == []
    ensures Trim(s) == "" && forall c :: c in s ==> IsSpace(c)
  {
    if s != "" {
      assert IsSpace(s[0]);
      TrimmedToNothing(s[1..]);
      assert s == [s[0]] + s[1..];
    }
  }

  lemma PhraseLetters(phrase: string)
    requires ValidPhrase(phrase)
    ensures Words(phrase) != [] && forall word :: word in Words(phrase) ==> word != "" && Letters(word)
  {
    WordsLetters(phrase);
    if Words(phrase) == [] { TrimmedToNothing(phrase); }
  }

  // ---------------------------------------------------------------------------
  // Building the pattern
  // ---------------------------------------------------------------------------

  lemma {:induction false} MarksJoin(a: string, b: string, t: nat)
    ensures Marks(a + b, t) == Marks(a, t) + Marks(b, End(a, t)) && End(a + b, t) == End(b, End(a, t))
  {
    if a == "" {
      assert a + b == b;
    } else {
      assert (a + b)[1..] == a[1..] + b;
      MarksJoin(a[1..], b, After(a[0], t));
    }
  }

  /** A mark as two 16-bit numbers. */
  function Mark16(start: nat, end: nat): Mark {
    Mark(start % 0x10000, end % 0x10000)
  }

  method AddSymbol(marks: seq<Mark>, t: nat, symbol: char) returns (marks': seq<Mark>, t': nat)
    requires (symbol == '.' || symbol == '-') && t + 3 < 0x10000
    ensures marks' == marks + MarkOf(symbol, t) && t' + 1 == After(symbol, t)
  {
    t' := t + if symbol == '.' then 1 else 3;
    marks' := marks + [Mark16(t, t')];
  }

  lemma MarksGrow(s: string, c: char, t: nat)
    ensures Marks(s + [c], t) == Marks(s, t) + MarkOf(c, End(s, t)) && End(s + [c], t) == After(c, End(s, t))
  {
    MarksJoin(s, [c], t);
  }

  method AddCode(marks: seq<Mark>, t: nat, code: string) returns (marks': seq<Mark>, t': nat)
    requires 1 <= |code| <= 6 && (forall symbol :: symbol in code ==> symbol == '.' || symbol == '-') && t + 24 < 0x10000
    ensures marks' == marks + Marks(code, t) && t' + 1 == End(code, t) && t' < t + 24
  {
    marks', t' := marks, t;
    for j := 0 to |code|
      invariant marks' == marks + Marks(code[..j], t)
      invariant t' + (if j == 0 then 0 else 1) == End(code[..j], t) <= t + 4 * j
    {
      assert code[..j + 1] == code[..j] + [code[j]];
      MarksGrow(code[..j], code[j], t);
      assert code[j] in code;
      if j > 0 { t' := t' + 1; }
      marks', t' := AddSymbol(marks', t', code[j]);
    }
    assert code[..|code|] == code;
  }

  lemma {:induction false} JoinGrows(parts: seq<string>, separator: char, part: string)
    ensures Join(parts + [part], separator)
         == if parts == [] then part else Join(parts, separator) + [separator] + part
  {
    if |parts| == 0 {
      assert parts + [part] == [part];
    } else {
      assert (parts + [part])[1..] == parts[1..] + [part];
      JoinGrows(parts[1..], separator, part);
    }
  }

  /** The marks of joined parts, part by part. */
  lemma JoinMarks(parts: seq<string>, separator: char, part: string, t: nat)
    requires separator == ' ' || separator == '/'
    ensures var next := if parts == [] then t else After(separator, End(Join(parts, separator), t));
            && Marks(Join(parts + [part], separator), t) == Marks(Join(parts, separator), t) + Marks(part, next)
            && End(Join(parts + [part], separator), t) == End(part, next)
  {
    JoinGrows(parts, separator, part);
    if parts != [] {
      var joined := Join(parts, separator);
      MarksGrow(joined, separator, t);
      MarksJoin(joined + [separator], part, t);
    }
  }

  lemma {:induction false} CodesAt(word: string, i: nat)
    requires Letters(word) && i < |word|
    ensures Code(word[i]) == Some(Codes(word)[i])
  {
    assert word[0] in word;
    if i > 0 { CodesAt(word[1..], i - 1); }
  }

  lemma {:induction false} SpelledWordsAt(words: seq<string>, i: nat)
    requires (forall word :: word in words ==> Letters(word)) && i < |words|
    ensures words[i] in words && SpelledWords(words)[i] == Join(Codes(words[i]), ' ')
  {
    if i > 0 { SpelledWordsAt(words[1..], i - 1); }
  }

  method AddLetter(marks: seq<Mark>, t: nat, word: string, i: nat) returns (marks': seq<Mark>, t': nat)
    requires Letters(word) && i < |word| && t + 24 < 0x10000
    ensures marks' == marks + Marks(Codes(word)[i], t) && t' + 1 == End(Codes(word)[i], t) && t' < t + 24
  {
    CodesAt(word, i);
    CodesRead(Upper(word[i]));
    marks', t' := marks, t;
    var code := Code(word[i]);
    if code.Some? { marks', t' := AddCode(marks, t, code.value); }
  }

  lemma JoinThree(a: seq<Mark>, b: seq<Mark>, c: seq<Mark>)
    ensures (a + b) + c == a + (b + c)
  {
  }

  lemma LetterFits(start: nat, t: nat, i: nat, letters: nat)
    requires t <= start + 27 * i && i < letters && start + 27 * letters < 0x10000
    ensures t + 3 + 24 <= start + 27 * (i + 1) < 0x10000
  {
  }

  method AddWord(marks: seq<Mark>, t: nat, word: string) returns (marks': seq<Mark>, t': nat)
    requires word != "" && Letters(word) && t + 27 * |word| < 0x10000
    ensures var spelled := Join(Codes(word), ' ');
            marks' == marks + Marks(spelled, t) && t' + 1 == End(spelled, t) && t' < t + 27 * |word|
  {
    marks', t' := marks, t;
    ghost var codes := Codes(word);
    assert codes[..0] == [];
    for i := 0 to |word|
      invariant marks' == marks + Marks(Join(codes[..i], ' '), t)
      invariant t' + (if i == 0 then 0 else 1) == End(Join(codes[..i], ' '), t)
      invariant t' <= t + 27 * i && (i == 0 || t' < t + 27 * i)
    {
      assert codes[..i + 1] == codes[..i] + [codes[i]];
      JoinMarks(codes[..i], ' ', codes[i], t);
      LetterFits(t, t', i, |word|);
      if i > 0 { t' := t' + 3; }
      JoinThree(marks, Marks(Join(codes[..i], ' '), t), Marks(codes[i], t'));
      marks', t' := AddLetter(marks', t', word, i);
    }
    assert codes[..|word|] == codes;
  }

  function TotalLength(words: seq<string>): nat {
    if words == [] then 0 else TotalLength(words[..|words| - 1]) + |words[|words| - 1]|
  }

  lemma {:induction false} TotalLengthFrom(word: string, words: seq<string>)
    ensures TotalLength([word] + words) == |word| + TotalLength(words)
  {
    if words == [] {
      assert ([word] + words)[..0] == [];
    } else {
      assert ([word] + words)[..|words|] == [word] + words[..|words| - 1];
      TotalLengthFrom(word, words[..|words| - 1]);
    }
  }

  lemma {:induction false} WordsAreShort(s: string)
    ensures TotalLength(Words(s)) <= |s|
    decreases |s|
  {
    if s != "" && IsSpace(s[0]) {
      WordsAreShort(s[1..]);
    } else if s != "" {
      WordsAreShort(s[WordEnd(s)..]);
      TotalLengthFrom(s[..WordEnd(s)], Words(s[WordEnd(s)..]));
    }
  }

  lemma {:induction false} TotalLengthGrows(words: seq<string>, k: nat)
    requires k <= |words|
    ensures TotalLength(words[..k]) <= TotalLength(words)
    decreases |words| - k
  {
    if k == |words| {
      assert words[..k] == words;
    } else {
      assert words[..k + 1][..k] == words[..k];
      TotalLengthGrows(words, k + 1);
    }
  }

  lemma LetterHasCode(c: char)
    requires ('A' <= c <= 'Z') || ('a' <= c <= 'z') || c == '!'
    ensures Code(c).Some?
  {
  }

  lemma DefaultIsValid()
    ensures ValidPhrase(DEFAULT_PHRASE)
  {
    var s := DEFAULT_PHRASE;
    assert |s| == 25 && s[0] == 'R' && s[24] == '!';
    TrimKeeps(s);
    forall c | c in s ensures c == ' ' || Code(c).Some? {
      assert c == ' ' || ('A' <= c <= 'Z') || ('a' <= c <= 'z') || c == '!';
      if c != ' ' { LetterHasCode(c); }
    }
  }

  lemma SliceGrows(parts: seq<string>, i: nat)
    requires i < |parts|
    ensures parts[..i + 1] == parts[..i] + [parts[i]]
  {
  }

  lemma NextLength(words: seq<string>, i: nat)
    requires i < |words|
    ensures TotalLength(words[..i]) + |words[i]| == TotalLength(words[..i + 1]) <= TotalLength(words)
  {
    assert words[..i + 1][..i] == words[..i];
    TotalLengthGrows(words, i + 1);
  }

  /** A word and the gap before it stay within 34 units a letter. */
  lemma WordFits(t: nat, length: nat, word: nat, total: nat)
    requires t <= 34 * length && word > 0 && length + word <= total && 34 * total < 0xffff
    ensures t + 7 + 27 * word <= 34 * (length + word) < 0xffff
  {
  }

  method AddWords(words: seq<string>) returns (marks: seq<Mark>, t: nat)
    requires (forall word :: word in words ==> word != "" && Letters(word)) && 34 * TotalLength(words) < 0xffff && words != []
    ensures marks == Marks(Spelled(words), 0) && t + 1 == End(Spelled(words), 0)
  {
    marks, t := [], 0;
    var firstWord := true;
    ghost var parts, length := SpelledWords(words), 0;
    assert parts[..0] == [];
    for i := 0 to |words|
      invariant firstWord == (i == 0)
      invariant marks == Marks(Join(parts[..i], '/'), 0)
      invariant length == TotalLength(words[..i])
      invariant if i == 0 then t == 0 else t + 1 == End(Join(parts[..i], '/'), 0)
      invariant t <= 34 * length
    {
      SpelledWordsAt(words, i);
      SliceGrows(parts, i);
      NextLength(words, i);
      WordFits(t, length, |words[i]|, TotalLength(words));
      JoinMarks(parts[..i], '/', parts[i], 0);
      if !firstWord { t := t + 7; }
      assert t == if i == 0 then 0 else After('/', End(Join(parts[..i], '/'), 0));
      firstWord := false;
      marks, t := AddWord(marks, t, words[i]);
      length := length + |words[i]|;
    }
    assert parts[..|words|] == parts;
  }

  method PhrasePattern(phrase: string) returns (p: Pattern)
    requires ValidPhrase(phrase)
    ensures p == PatternOf(phrase)
  {
    PhraseLetters(phrase);
    WordsAreShort(phrase);
    var marks, t := AddWords(Words(phrase));
    return Pattern(marks, t, t + 7 + 3 * 6 + 7);
  }

  /** The pattern of a phrase, or of the default phrase if it is not valid. */
  method NewPattern(phrase: string) returns (p: Pattern)
    ensures ValidPhrase(phrase) ==> p == PatternOf(phrase)
    ensures !ValidPhrase(phrase) ==> ValidPhrase(DEFAULT_PHRASE) && p == PatternOf(DEFAULT_PHRASE)
  {
    var valid := ValidPhrase(phrase);
    if !valid { DefaultIsValid(); }
    p := PhrasePattern(if valid then phrase else DEFAULT_PHRASE);
  }

  // ---------------------------------------------------------------------------
  // Reading a code
  // ---------------------------------------------------------------------------

  function Bit(symbol: char): nat {
    if symbol == '-' then 1 else 0
  }

  function FromThree(bits: nat): Option<char> {
    match bits
    case 2 => Some('E')
    case 3 => Some('T')
    case 4 => Some('I')
    case 5 => Some('A')
    case 6 => Some('N')
    case 7 => Some('M')
    case 8 => Some('S')
    case 9 => Some('U')
    case 10 => Some('R')
    case 11 => Some('W')
    case 12 => Some('D')
    case 13 => Some('K')
    case 14 => Some('G')
    case 15 => Some('O')
    case _ => None
  }

  function FromFour(bits: nat): Option<char> {
    match bits
    case 16 => Some('H')
    case 17 => Some('V')
    case 18 => Some('F')
    case 20 => Some('L')
    case 22 => Some('P')
    case 23 => Some('J')
    case 24 => Some('B')
    case 25 => Some('X')
    case 26 => Some('C')
    case 27 => Some('Y')
    case 28 => Some('Z')
    case 29 => Some('Q')
    case _ => None
  }

  function FromFive(bits: nat): Option<char> {
    match bits
    case 32 => Some('5')
    case 33 => Some('4')
    case 35 => Some('3')
    case 39 => Some('2')
    case 42 => Some('+')
    case 47 => Some('1')
    case 48 => Some('6')
    case 49 => Some('=')
    case 50 => Some('/')
    case 54 => Some('(')
    case 56 => Some('7')
    case 60 => Some('8')
    case 62 => Some('9')
    case 63 => Some('0')
    case _ => None
  }

  function FromSix(bits: nat): Option<char> {
    match bits
    case 76 => Some('?')
    case 77 => Some('_')
    case 82 => Some('"')
    case 85 => Some('.')
    case 90 => Some('@')
    case 94 => Some('\'')
    case 97 => Some('-')
    case 106 => Some(';')
    case 107 => Some('!')
    case 109 => Some(')')
    case 115 => Some(',')
    case 120 => Some(':')
    case _ => None
  }

  /** The character of a code; its bits follow a leading one. */
  function FromCode(code: string): Option<char> {
    match |code|
    case 1 => FromThree(2 + Bit(code[0]))
    case 2 => FromThree(4 + 2 * Bit(code[0]) + Bit(code[1]))
    case 3 => FromThree(8 + 4 * Bit(code[0]) + 2 * Bit(code[1]) + Bit(code[2]))
    case 4 => FromFour(16 + 8 * Bit(code[0]) + 4 * Bit(code[1]) + 2 * Bit(code[2]) + Bit(code[3]))
    case 5 => FromFive(32 + 16 * Bit(code[0]) + 8 * Bit(code[1]) + 4 * Bit(code[2]) + 2 * Bit(code[3]) + Bit(code[4]))
    case 6 => FromSix(64 + 32 * Bit(code[0]) + 16 * Bit(code[1]) + 8 * Bit(code[2]) + 4 * Bit(code[3]) + 2 * Bit(code[4])
                      + Bit(code[5]))
    case _ => None
  }

  ghost predicate CodeReads(code: Option<string>, c: char) {
    code.Some? ==>
      && FromCode(code.value) == Some(c)
      && 1 <= |code.value| <= 6
      && forall symbol :: symbol in code.value ==> symbol == '.' || symbol == '-'
  }

  lemma CodeToMReads(c: char)
    ensures CodeReads(CodeToM(c), c)
  {
  }

  lemma CodeFromNReads(c: char)
    ensures CodeReads(CodeFromN(c), c)
  {
  }

  lemma CodeOfDigitReads(c: char)
    ensures CodeReads(CodeOfDigit(c), c)
  {
  }

  lemma CodeOfLowSignReads(c: char)
    ensures CodeReads(CodeOfLowSign(c), c)
  {
  }

  lemma CodeOfHighSignReads(c: char)
    ensures CodeReads(CodeOfHighSign(c), c)
  {
  }

  lemma CodeOfMiddleSignReads(c: char)
    ensures CodeReads(CodeOfMiddleSign(c), c)
  {
  }

  lemma CodesRead(c: char)
    ensures CodeReads(CodeOfUpper(c), c)
  {
    CodeToMReads(c);
    CodeFromNReads(c);
    CodeOfDigitReads(c);
    CodeOfLowSignReads(c);
    CodeOfHighSignReads(c);
    CodeOfMiddleSignReads(c);
  }
}
