// Text as the code reads it: spaces, splitting, and decimal numbers.
module Text {
  import opened Options

  /** Characters of the White_Space property, which Rust's `trim` and `split_whitespace` use. */
  predicate IsSpace(c: char) {
    ('\t' <= c <= '\r') || c == ' ' || c == '\U{85}' || c == '\U{A0}' || c == '\U{1680}' || ('\U{2000}' <= c <= '\U{200A}')
    || c == '\U{2028}' || c == '\U{2029}' || c == '\U{202F}' || c == '\U{205F}' || c == '\U{3000}'
  }

  function TrimStart(s: string): string {
    if s != "" && IsSpace(s[0]) then TrimStart(s[1..]) else s
  }

  function TrimEnd(s: string): string {
    if s != "" && IsSpace(s[|s| - 1]) then TrimEnd(s[..|s| - 1]) else s
  }

  function Trim(s: string): string {
    TrimEnd(TrimStart(s))
  }

  function Upper(c: char): char {
    if 'a' <= c <= 'z' then c - 'a' + 'A' else c
  }

  function Lower(c: char): char {
    if 'A' <= c <= 'Z' then c - 'A' + 'a' else c
  }

  function Uppercase(s: string): string {
    seq(|s|, i requires 0 <= i < |s| => Upper(s[i]))
  }

  function Lowercase(s: string): string {
    seq(|s|, i requires 0 <= i < |s| => Lower(s[i]))
  }

  /** The first place of one of some characters, or the length. */
  function IndexOf(s: string, stops: set<char>): (at: nat)
    ensures at <= |s| && (at < |s| ==> s[at] in stops) && forall i :: 0 <= i < at ==> s[i] !in stops
  {
    if s == "" || s[0] in stops then 0 else 1 + IndexOf(s[1..], stops)
  }

  /** The parts between separators: one more than there are separators. */
  function Split(s: string, separator: char): (parts: seq<string>)
    ensures |parts| >= 1
    decreases |s|
  {
    var at := IndexOf(s, {separator});
    if at == |s| then [s] else [s[..at]] + Split(s[at + 1..], separator)
  }

  function Words(s: string): seq<string>
    decreases |s|
  {
    if s == "" then []
    else if IsSpace(s[0]) then Words(s[1..])
    else
      var end := WordEnd(s);
      [s[..end]] + Words(s[end..])
  }

  function WordEnd(s: string): (at: nat)
    ensures at <= |s| && (s != "" && !IsSpace(s[0]) ==> at > 0)
    ensures forall i :: 0 <= i < at ==> !IsSpace(s[i])
    ensures at < |s| ==> IsSpace(s[at])
  {
    if s == "" || IsSpace(s[0]) then 0 else 1 + WordEnd(s[1..])
  }

  /** Lines end at line feeds, with a carriage return before one dropped; nothing follows the last one. */
  function Lines(s: string): seq<string>
    decreases |s|
  {
    if s == "" then []
    else
      var at := IndexOf(s, {'\n'});
      if at == |s| then [s] else [WithoutReturn(s[..at])] + Lines(s[at + 1..])
  }

  function WithoutReturn(line: string): string {
    if line != "" && line[|line| - 1] == '\r' then line[..|line| - 1] else line
  }

  // ---------------------------------------------------------------------------
  // Decimal numbers
  // ---------------------------------------------------------------------------

  predicate IsDigit(c: char) {
    '0' <= c <= '9'
  }

  predicate AllDigits(s: string) {
    forall c :: c in s ==> IsDigit(c)
  }

  function Digits(n: nat): (text: string)
    ensures text != "" && AllDigits(text)
  {
    (if n < 10 then "" else Digits(n / 10)) + [('0' as int + n % 10) as char]
  }

  /** The number with zeros before it up to a width. */
  function Padded(n: nat, width: nat): (text: string)
    ensures text != "" && AllDigits(text)
  {
    seq(if |Digits(n)| < width then width - |Digits(n)| else 0, i => '0') + Digits(n)
  }

  function DigitsValue(s: string): nat
    requires AllDigits(s)
  {
    if s == "" then 0
    else
      assert s[|s| - 1] in s;
      DigitsValue(s[..|s| - 1]) * 10 + (s[|s| - 1] as int - '0' as int)
  }

  const I64: nat := 0x8000_0000_0000_0000
  const U32: nat := 0x1_0000_0000

  /** A decimal number as Rust's `i64` parser takes it. */
  function ParseSigned(s: string): Option<int> {
    if s != "" && s[0] == '-' then
      var digits := s[1..];
      if digits != "" && AllDigits(digits) && DigitsValue(digits) <= I64 then Some(0 - DigitsValue(digits) as int) else None
    else
      var digits := if s != "" && s[0] == '+' then s[1..] else s;
      if digits != "" && AllDigits(digits) && DigitsValue(digits) < I64 then Some(DigitsValue(digits)) else None
  }

  /** The same for `u32`. */
  function ParseUnsigned(s: string): Option<int> {
    var digits := if s != "" && s[0] == '+' then s[1..] else s;
    if digits != "" && AllDigits(digits) && DigitsValue(digits) < U32 then Some(DigitsValue(digits)) else None
  }

  // ---------------------------------------------------------------------------
  // Facts
  // ---------------------------------------------------------------------------

  lemma IndexOfIs(s: string, stops: set<char>, at: nat)
    requires at <= |s| && (at < |s| ==> s[at] in stops) && forall i :: 0 <= i < at ==> s[i] !in stops
    ensures IndexOf(s, stops) == at
  {
  }

  lemma SplitFirst(part: string, separator: char, rest: string)
    requires separator !in part
    ensures Split(part + [separator] + rest, separator) == [part] + Split(rest, separator)
    ensures Split(part, separator) == [part]
  {
    var s := part + [separator] + rest;
    IndexOfIs(s, {separator}, |part|);
    assert s[..|part|] == part && s[|part| + 1..] == rest;
    IndexOfIs(part, {separator}, |part|);
  }

  lemma TrimKeeps(s: string)
    requires s != "" && !IsSpace(s[0]) && !IsSpace(s[|s| - 1])
    ensures Trim(s) == s
  {
  }

  lemma {:induction false} DigitsRead(n: nat)
    ensures DigitsValue(Digits(n)) == n
  {
    var s := Digits(n);
    assert s[..|s| - 1] == if n < 10 then "" else Digits(n / 10);
    if n >= 10 { DigitsRead(n / 10); }
  }

  lemma {:induction false} ZerosRead(zeros: nat, s: string)
    requires AllDigits(s)
    ensures AllDigits(seq(zeros, i => '0') + s) && DigitsValue(seq(zeros, i => '0') + s) == DigitsValue(s)
    decreases zeros + |s|
  {
    var t := seq(zeros, i => '0') + s;
    if s != "" {
      assert t[..|t| - 1] == seq(zeros, i => '0') + s[..|s| - 1];
      ZerosRead(zeros, s[..|s| - 1]);
    } else if zeros > 0 {
      assert t[..|t| - 1] == seq(zeros - 1, i => '0') + "";
      ZerosRead(zeros - 1, "");
    }
  }

  lemma {:induction false} DigitsLength(n: nat)
    ensures n < 10 <==> |Digits(n)| == 1
    ensures n < 100 <==> |Digits(n)| <= 2
    ensures n < 10000 <==> |Digits(n)| <= 4
  {
    if n >= 10 { DigitsLength(n / 10); }
    if n >= 100 { DigitsLength(n / 100); }
  }

  /** A padded number parses as itself. */
  lemma PaddedReads(n: nat, width: nat)
    ensures DigitsValue(Padded(n, width)) == n
    ensures n < I64 ==> ParseSigned(Padded(n, width)) == Some(n)
    ensures n < U32 ==> ParseUnsigned(Padded(n, width)) == Some(n)
    ensures |Padded(n, width)| >= width && (|Digits(n)| <= width ==> |Padded(n, width)| == width)
  {
    DigitsRead(n);
    ZerosRead(if |Digits(n)| < width then width - |Digits(n)| else 0, Digits(n));
    assert IsDigit(Padded(n, width)[0]);
  }
}
