// Reading dates as RFC 822 writes them (mastomini_bots/src/rss.rs, `parse_date`).
module MailDates {
  import opened Options
  import opened Text
  import opened Calendar
  import opened IsoDates

  /** `21 Oct 2026 10:00:00 +0000`. */
  function Words5(day: string, month: string, year: string, time: string, zone: string): string {
    day + (" " + (month + (" " + (year + (" " + (time + (" " + zone)))))))
  }

  /** The same after a weekday and a comma. */
  function MailText(weekday: string, rest: string): string {
    weekday + ("," + (" " + rest))
  }

  predicate OneWordText(s: string) {
    s != "" && forall c :: c in s ==> !IsSpace(c)
  }

  lemma WordsNext(word: string, rest: string)
    requires OneWordText(word)
    ensures Words(word + (" " + rest)) == [word] + Words(rest)
  {
    var s := word + (" " + rest);
    assert forall i :: 0 <= i < |word| ==> s[i] == word[i] && word[i] in word;
    assert s[|word|] == ' ' && IsSpace(' ');
    WordEndIs(s, |word|);
    assert s[..|word|] == word && s[|word|..] == " " + rest;
    assert (" " + rest)[1..] == rest;
  }

  lemma WordEndIs(s: string, at: nat)
    requires at < |s| && IsSpace(s[at]) && forall i :: 0 <= i < at ==> !IsSpace(s[i])
    ensures WordEnd(s) == at
  {
  }

  lemma FiveWords(day: string, month: string, year: string, time: string, zone: string)
    requires OneWordText(day) && OneWordText(month) && OneWordText(year) && OneWordText(time) && OneWordText(zone)
    ensures Words(Words5(day, month, year, time, zone)) == [day, month, year, time, zone]
  {
    WordsNext(day, month + (" " + (year + (" " + (time + (" " + zone))))));
    WordsNext(month, year + (" " + (time + (" " + zone))));
    WordsNext(year, time + (" " + zone));
    WordsNext(time, zone);
    OneWord(zone);
  }

  // ---------------------------------------------------------------------------
  // Months
  // ---------------------------------------------------------------------------

  lemma MonthsDiffer(i: nat, j: nat)
    requires i < j < 12
    ensures |MONTHS[i]| == 3 && |MONTHS[j]| == 3 && MONTHS[i] != MONTHS[j]
  {
  }

  lemma SamePrefix(a: string, b: string, name: string)
    requires |a| == |b|
    ensures a <= name && b <= name ==> a == b
  {
    if a <= name && b <= name { assert a == name[..|a|] && b == name[..|b|]; }
  }

  lemma {:induction false} MonthFromIs(name: string, months: seq<string>, number: int, at: nat)
    requires at < |months| && months[at] <= name
    requires forall i :: 0 <= i < at ==> |months[i]| == |months[at]| && months[i] != months[at]
    ensures MonthFrom(name, months, number) == Some(number + at)
  {
    if at > 0 {
      SamePrefix(months[0], months[at], name);
      MonthFromIs(name, months[1..], number + 1, at - 1);
    }
  }

  /** A month is found by the first three letters of its name, in any case. */
  lemma MonthReads(name: string, month: nat)
    requires 1 <= month <= 12 && MONTHS[month - 1] <= Lowercase(name)
    ensures MonthFrom(Lowercase(name), MONTHS, 1) == Some(month)
  {
    forall i | 0 <= i < month - 1 ensures |MONTHS[i]| == |MONTHS[month - 1]| && MONTHS[i] != MONTHS[month - 1] {
      MonthsDiffer(i, month - 1);
    }
    MonthFromIs(Lowercase(name), MONTHS, 1, month - 1);
  }

  // ---------------------------------------------------------------------------
  // Reading the whole
  // ---------------------------------------------------------------------------

  /** Two digits of a year are of this century. */
  function MeantYear(written: nat): nat {
    if written < 100 then written + 2000 else written
  }

  /** `10:00`, or `10:00:00`. */
  function MailTime(hour: nat, minute: nat, second: Option<nat>): string {
    if second.Some? then Three(Padded(hour, 2), Padded(minute, 2), Padded(second.value, 2), ':')
    else Padded(hour, 2) + (":" + Padded(minute, 2))
  }

  function TimeParts(hour: nat, minute: nat, second: Option<nat>): seq<string> {
    [Padded(hour, 2), Padded(minute, 2)] + if second.Some? then [Padded(second.value, 2)] else []
  }

  function Seconds(second: Option<nat>): nat {
    if second.Some? then second.value else 0
  }

  lemma FiveRead(written: nat, yearWidth: nat, month: nat, day: nat, dayWidth: nat, hour: nat, minute: nat, second: Option<nat>,
                 name: string, zone: string, offset: int)
    requires written < 10000 && day < 100 && hour < 100 && minute < 100 && Seconds(second) < 100
    requires MonthFrom(Lowercase(name), MONTHS, 1) == Some(month) && ZoneOffset(zone) == Some(offset)
    ensures ReadFive(Padded(day, dayWidth), name, Padded(written, yearWidth), TimeParts(hour, minute, second), zone)
         == Some(Fields(MeantYear(written), month, day, hour, minute, Seconds(second), offset))
  {
    PaddedReads(day, dayWidth);
    PaddedReads(written, yearWidth);
    TwoDigits(hour);
    TwoDigits(minute);
    TwoDigits(Seconds(second));
    ZeroReads();
  }

  lemma ZeroReads()
    ensures ParseSigned("0") == Some(0)
  {
    PaddedReads(0, 1);
    assert Padded(0, 1) == "0";
  }

  lemma TimeSplits(hour: nat, minute: nat, second: Option<nat>)
    ensures Split(MailTime(hour, minute, second), ':') == TimeParts(hour, minute, second)
  {
    var h, m := Padded(hour, 2), Padded(minute, 2);
    if second.Some? { SplitThree(h, m, Padded(second.value, 2), ':'); } else {
      SplitNext(h, ':', m);
      SplitFirst(m, ':', "");
    }
  }

  lemma MailFields(text: string, day: string, month: string, year: string, time: string, zone: string, parts: seq<string>)
    requires IndexOf(text, {','}) == 3 < |text| && Split(time, ':') == parts
    requires Words(Trim(text[4..])) == [day, month, year, time, zone]
    ensures ReadMail(text) == ReadFive(day, month, year, parts, zone)
  {
  }

  lemma DigitsAreOneWord(n: nat, width: nat)
    ensures OneWordText(Padded(n, width))
  {
  }

  lemma TimeIsOneWord(hour: nat, minute: nat, second: Option<nat>)
    ensures OneWordText(MailTime(hour, minute, second))
  {
    var h, m := Padded(hour, 2), Padded(minute, 2);
    forall c | c in MailTime(hour, minute, second) ensures !IsSpace(c) {
      if second.Some? { ThreeChars(h, m, Padded(second.value, 2), ':', c); }
    }
  }

  /** A weekday of three letters, and what follows the comma after it. */
  lemma AfterWeekday(weekday: string, rest: string)
    requires |weekday| == 3 && ',' !in weekday && !IsSpace(weekday[0])
    requires rest != "" && !IsSpace(rest[0]) && !IsSpace(rest[|rest| - 1])
    ensures var text := MailText(weekday, rest);
            && |text| > 4 && text[4] != '-' && Trim(text) == text
            && IndexOf(text, {','}) == 3 && Trim(text[4..]) == rest
  {
    var text := MailText(weekday, rest);
    assert forall i :: 0 <= i < 3 ==> text[i] == weekday[i] && weekday[i] in weekday;
    assert text[3] == ',' && text[4] == ' ' && text[|text| - 1] == rest[|rest| - 1];
    TrimKeeps(text);
    IndexOfIs(text, {','}, 3);
    assert text[4..] == " " + rest && (" " + rest)[1..] == rest;
    TrimKeeps(rest);
  }

  lemma WordsEnds(day: string, month: string, year: string, time: string, zone: string)
    requires OneWordText(day) && OneWordText(zone)
    ensures var rest := Words5(day, month, year, time, zone);
            rest != "" && !IsSpace(rest[0]) && !IsSpace(rest[|rest| - 1])
  {
    var rest := Words5(day, month, year, time, zone);
    assert rest[0] == day[0] && day[0] in day;
    assert rest[|rest| - 1] == zone[|zone| - 1] && zone[|zone| - 1] in zone;
  }

  lemma ParseMail(text: string, f: Fields)
    requires |text| > 4 && text[4] != '-' && Trim(text) == text && ReadMail(text) == Some(f)
    ensures ParseDate(text) == Instant(f)
  {
  }

  /** A date as RFC 822 writes it after a weekday, the day and the year in any number of digits, with or without seconds. */
  function MailDate(weekday: string, day: nat, dayWidth: nat, month: string, written: nat, yearWidth: nat,
                    hour: nat, minute: nat, second: Option<nat>, zone: string): string {
    MailText(weekday, Words5(Padded(day, dayWidth), month, Padded(written, yearWidth), MailTime(hour, minute, second), zone))
  }

  /** It reads as the instant it names, when that is not before 1970, in any zone the reader knows. A year below 100 is one of
      this century. Months are known by their first three letters, in any case. */
  lemma MailReadsWhatItNames(weekday: string, monthName: string, written: nat, yearWidth: nat, year: nat, month: nat,
                             day: nat, dayWidth: nat, hour: nat, minute: nat, second: Option<nat>, zone: string, offset: int)
    requires |weekday| == 3 && ',' !in weekday && !IsSpace(weekday[0])
    requires written < 10000 && year == MeantYear(written) && Valid(Date(year, month, day))
    requires hour < 24 && minute < 60 && Seconds(second) <= 60
    requires OneWordText(monthName) && MONTHS[month - 1] <= Lowercase(monthName)
    requires OneWordText(zone) && ZoneOffset(zone) == Some(offset)
    ensures ParseDate(MailDate(weekday, day, dayWidth, monthName, written, yearWidth, hour, minute, second, zone))
         == AtOrAfter1970(CountDays(Date(year, month, day)) * 86400 + hour * 3600 + minute * 60 + Seconds(second) - offset)
  {
    MailInstant(year, month, day, hour, minute, Seconds(second), offset);
    MailReads(weekday, monthName, written, yearWidth, month, day, dayWidth, hour, minute, second, zone, offset);
  }

  lemma MailInstant(year: nat, month: nat, day: nat, hour: nat, minute: nat, second: nat, offset: int)
    requires Valid(Date(year, month, day)) && hour < 24 && minute < 60 && second <= 60
    ensures 1 <= month <= 12 && day < 100
    ensures Instant(Fields(year, month, day, hour, minute, second, offset))
         == AtOrAfter1970(CountDays(Date(year, month, day)) * 86400 + hour * 3600 + minute * 60 + second - offset)
  {
    MonthIsShort(year, month);
    InstantCounts(Fields(year, month, day, hour, minute, second, offset));
  }

  lemma MailReads(weekday: string, monthName: string, written: nat, yearWidth: nat, month: nat, day: nat, dayWidth: nat,
                  hour: nat, minute: nat, second: Option<nat>, zone: string, offset: int)
    requires |weekday| == 3 && ',' !in weekday && !IsSpace(weekday[0])
    requires written < 10000 && 1 <= month <= 12 && day < 100 && hour < 24 && minute < 60 && Seconds(second) <= 60
    requires OneWordText(monthName) && MONTHS[month - 1] <= Lowercase(monthName)
    requires OneWordText(zone) && ZoneOffset(zone) == Some(offset)
    ensures ParseDate(MailDate(weekday, day, dayWidth, monthName, written, yearWidth, hour, minute, second, zone))
         == Instant(Fields(MeantYear(written), month, day, hour, minute, Seconds(second), offset))
  {
    DigitsAreOneWord(day, dayWidth);
    DigitsAreOneWord(written, yearWidth);
    TimeIsOneWord(hour, minute, second);
    TimeSplits(hour, minute, second);
    MonthReads(monthName, month);
    FiveRead(written, yearWidth, month, day, dayWidth, hour, minute, second, monthName, zone, offset);
    MailParses(weekday, Padded(day, dayWidth), monthName, Padded(written, yearWidth), MailTime(hour, minute, second), zone,
               TimeParts(hour, minute, second), Fields(MeantYear(written), month, day, hour, minute, Seconds(second), offset));
  }

  lemma MailParses(weekday: string, day: string, month: string, year: string, time: string, zone: string,
                   parts: seq<string>, f: Fields)
    requires |weekday| == 3 && ',' !in weekday && !IsSpace(weekday[0])
    requires OneWordText(day) && OneWordText(month) && OneWordText(year) && OneWordText(time) && OneWordText(zone)
    requires Split(time, ':') == parts && ReadFive(day, month, year, parts, zone) == Some(f)
    ensures ParseDate(MailText(weekday, Words5(day, month, year, time, zone))) == Instant(f)
  {
    var rest := Words5(day, month, year, time, zone);
    FiveWords(day, month, year, time, zone);
    WordsEnds(day, month, year, time, zone);
    AfterWeekday(weekday, rest);
    MailFields(MailText(weekday, rest), day, month, year, time, zone, parts);
    ParseMail(MailText(weekday, rest), f);
  }

  lemma PlainSignedReads(sign: char, hours: string, minutes: string, h: nat, m: nat)
    requires sign == '+' || sign == '-'
    requires AllDigits(hours) && AllDigits(minutes) && |hours| == 2 && |minutes| == 2
    requires ParseSigned(hours) == Some(h) && ParseSigned(minutes) == Some(m)
    ensures SignedOffset([sign] + (hours + minutes)) == Some((if sign == '+' then 1 else -1) * (h * 3600 + m * 60))
  {
    var zone := [sign] + (hours + minutes);
    assert zone[1..] == hours + minutes;
    ColonlessDigits(hours + minutes);
    assert (hours + minutes)[..2] == hours && (hours + minutes)[2..] == minutes;
  }

  /** A sign and four digits are a zone the reader knows. */
  lemma PlainZoneReads(sign: char, hours: nat, minutes: nat)
    requires (sign == '+' || sign == '-') && hours < 100 && minutes < 100
    ensures var zone := [sign] + (Padded(hours, 2) + Padded(minutes, 2));
            OneWordText(zone) && ZoneOffset(zone) == Some((if sign == '+' then 1 else -1) * (hours * 3600 + minutes * 60))
  {
    TwoDigits(hours);
    TwoDigits(minutes);
    var zone := [sign] + (Padded(hours, 2) + Padded(minutes, 2));
    assert zone[|zone| - 1] in Padded(minutes, 2);
    TrimKeeps(zone);
    SignIsNoName(Uppercase(zone));
    PlainSignedReads(sign, Padded(hours, 2), Padded(minutes, 2), hours, minutes);
  }

  /** The zones RFC 822 section 5.1 names, and their hours from UTC. */
  const ZONE_NAMES: seq<string> := ["UT", "GMT", "EST", "EDT", "CST", "CDT", "MST", "MDT", "PST", "PDT"]
  const ZONE_HOURS: seq<int> := [0, 0, -5, -4, -6, -5, -7, -6, -8, -7]

  lemma LetterIsNoSpace(c: char)
    requires 'A' <= Upper(c) <= 'Z'
    ensures !IsSpace(c)
  {
  }

  lemma ZoneNameIsLetters(i: nat)
    requires i < |ZONE_NAMES|
    ensures ZONE_NAMES[i] != "" && forall k :: 0 <= k < |ZONE_NAMES[i]| ==> 'A' <= ZONE_NAMES[i][k] <= 'Z'
  {
  }

  lemma UpperLetters(zone: string)
    requires zone != "" && forall k :: 0 <= k < |zone| ==> 'A' <= Uppercase(zone)[k] <= 'Z'
    ensures OneWordText(zone) && Trim(zone) == zone
  {
    forall c | c in zone ensures !IsSpace(c) {
      var k :| 0 <= k < |zone| && zone[k] == c;
      assert Uppercase(zone)[k] == Upper(c);
      LetterIsNoSpace(c);
    }
    TrimKeeps(zone);
  }

  /** Each of them is a zone the reader knows, in any case. */
  lemma NamedZonesRead(zone: string, i: nat)
    requires i < |ZONE_NAMES| && Uppercase(zone) == ZONE_NAMES[i]
    ensures OneWordText(zone) && ZoneOffset(zone) == Some(ZONE_HOURS[i] * 3600)
  {
    ZoneNameIsLetters(i);
    assert |zone| == |Uppercase(zone)|;
    UpperLetters(zone);
    NamedZoneIs(i);
  }

  lemma NamedZoneIs(i: nat)
    requires i < |ZONE_NAMES|
    ensures NamedZone(ZONE_NAMES[i]) == Some(ZONE_HOURS[i] * 3600)
  {
    assert ZONE_NAMES[i] == "UT" || ZONE_NAMES[i] == "GMT" || |ZONE_NAMES[i]| == 3;
  }
}
