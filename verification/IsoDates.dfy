// Writing an instant (mastomini_bots/src/tz.rs, `iso`) and reading dates of feeds
// (mastomini_bots/src/rss.rs, `parse_date`), which meet in the civil calendar.
module IsoDates {
  import opened Options
  import opened Text
  import opened Calendar

  // ---------------------------------------------------------------------------
  // The code
  // ---------------------------------------------------------------------------

  /** Three texts with a separator between them. */
  function Three(a: string, b: string, c: string, separator: char): string {
    a + ([separator] + (b + ([separator] + c)))
  }

  function Stamp(date: string, time: string, zone: string): string {
    date + ("T" + (time + zone))
  }

  function DateText(year: nat, month: nat, day: nat): string {
    Three(Padded(year, 4), Padded(month, 2), Padded(day, 2), '-')
  }

  function TimeText(hour: nat, minute: nat, second: nat, fraction: string): string {
    Three(Padded(hour, 2), Padded(minute, 2), Padded(second, 2) + fraction, ':')
  }

  /** `2026-09-26T11:30:00.000Z`. */
  function Iso(ms: nat): string {
    IsoSeconds(ms / 1000, ms % 1000)
  }

  function IsoSeconds(secs: nat, millis: nat): string {
    CivilDate(secs / 86400);
    IsoOf(CivilFromDays(secs / 86400), secs % 86400, millis)
  }

  function IsoOf(date: Date, rem: nat, millis: nat): string
    requires 0 <= date.year && 0 <= date.month && 0 <= date.day
  {
    Stamp(DateText(date.year, date.month, date.day),
          TimeText(rem / 3600, rem % 3600 / 60, rem % 60, "." + Padded(millis, 3)), "Z")
  }

  datatype Fields = Fields(year: int, month: int, day: int, hour: int, minute: int, second: int, offset: int)

  const MONTHS: seq<string> := ["jan", "feb", "mar", "apr", "may", "jun", "jul", "aug", "sep", "oct", "nov", "dec"]

  function MonthFrom(name: string, months: seq<string>, number: int): Option<int> {
    if months == [] then None
    else if months[0] <= name then Some(number)
    else MonthFrom(name, months[1..], number + 1)
  }

  function WithoutColons(s: string): string {
    if s == "" then "" else (if s[0] == ':' then "" else [s[0]]) + WithoutColons(s[1..])
  }

  /** Seconds east of UTC. */
  function ZoneOffset(text: string): Option<int> {
    var zone := Trim(text);
    var named := NamedZone(Uppercase(zone));
    if named.Some? then named else SignedOffset(zone)
  }

  function NamedZone(name: string): Option<int> {
    if name in {"", "Z", "GMT", "UT", "UTC"} then Some(0)
    else if name == "EST" || name == "CDT" then Some(-5 * 3600)
    else if name == "EDT" then Some(-4 * 3600)
    else if name == "CST" || name == "MDT" then Some(-6 * 3600)
    else if name == "MST" || name == "PDT" then Some(-7 * 3600)
    else if name == "PST" then Some(-8 * 3600)
    else None
  }

  function SignedOffset(zone: string): Option<int> {
    if zone == "" || (zone[0] != '+' && zone[0] != '-') then None
    else
      var digits := WithoutColons(zone[1..]);
      if |digits| != 4 then None
      else
        var h, m := ParseSigned(digits[..2]), ParseSigned(digits[2..]);
        if h.None? || m.None? then None
        else Some((if zone[0] == '+' then 1 else -1) * (h.value * 3600 + m.value * 60))
  }

  function GatherFields(y: Option<int>, mo: Option<int>, d: Option<int>, h: Option<int>, mi: Option<int>,
                        s: Option<int>, offset: Option<int>): Option<Fields> {
    if y.None? || mo.None? || d.None? || h.None? || mi.None? || s.None? || offset.None? then None
    else Some(Fields(y.value, mo.value, d.value, h.value, mi.value, s.value, offset.value))
  }

  function ReadTime(date: seq<string>, time: seq<string>, zone: string): Option<Fields> {
    if |date| < 3 || |time| < 2 then None
    else
      var seconds := if |time| > 2 then time[2] else "0";
      GatherFields(ParseSigned(date[0]), ParseUnsigned(date[1]), ParseUnsigned(date[2]),
                   ParseSigned(time[0]), ParseSigned(time[1]), ParseSigned(Split(seconds, '.')[0]), ZoneOffset(zone))
  }

  /** RFC 3339. */
  function ReadIso(text: string): Option<Fields> {
    var t := IndexOf(text, {'T', 't', ' '});
    if t == |text| then None
    else
      var rest := text[t + 1..];
      var zone := IndexOf(rest, {'Z', 'z', '+', '-'});
      ReadTime(Split(text[..t], '-'), Split(rest[..zone], ':'), rest[zone..])
  }

  /** RFC 822. */
  function ReadMail(text: string): Option<Fields> {
    var comma := IndexOf(text, {','});
    ReadWords(Words(Trim(if comma == |text| then text else text[comma + 1..])))
  }

  function ReadWords(words: seq<string>): Option<Fields> {
    if |words| < 4 then None
    else ReadFive(words[0], words[1], words[2], Split(words[3], ':'), if |words| > 4 then words[4] else "Z")
  }

  function ReadFive(day: string, month: string, year: string, time: seq<string>, zone: string): Option<Fields> {
    if |time| < 2 then None
    else
      var y := ParseSigned(year);
      GatherFields(if y.Some? && y.value < 100 then Some(y.value + 2000) else y,
                   MonthFrom(Lowercase(month), MONTHS, 1), ParseUnsigned(day),
                   ParseSigned(time[0]), ParseSigned(time[1]), ParseSigned(if |time| > 2 then time[2] else "0"),
                   ZoneOffset(zone))
  }

  /** Milliseconds since 1970. */
  function ParseDate(text: string): Option<nat> {
    var trimmed := Trim(text);
    var f := if |trimmed| > 4 && trimmed[4] == '-' then ReadIso(trimmed) else ReadMail(trimmed);
    if f.None? then None else Instant(f.value)
  }

  function Instant(f: Fields): Option<nat> {
    if !(1 <= f.month <= 12) || !(1 <= f.day <= 31) || f.hour > 23 || f.minute > 59 || f.second > 60 then None
    else
      var secs := DaysFromCivil(f.year, f.month, f.day) * 86400 + f.hour * 3600 + f.minute * 60 + f.second - f.offset;
      if secs < 0 then None else Some(secs * 1000)
  }

  // ---------------------------------------------------------------------------
  // Reading what RFC 3339 prescribes
  // ---------------------------------------------------------------------------

  lemma CivilDate(days: nat)
    ensures var date := CivilFromDays(days); Valid(date) && date.year >= 1970 && CountDays(date) == days
  {
    var date := CivilFromDays(days);
    CivilRoundTrip(days);
    DaysFromCivilCounts(date);
    YearOfDay(days, date.year);
    if date.year < 1970 { YearsAreMonotone(date.year + 1, 1970); }
  }

  /** A fraction of a second: nothing, or a point and digits. */
  predicate Fraction(s: string) {
    s == "" || (|s| > 1 && s[0] == '.' && AllDigits(s[1..]))
  }

  /** `Z`, or a sign, two digits of hours, a colon and two digits of minutes. */
  function NumericZone(east: bool, hours: nat, minutes: nat): string {
    (if east then "+" else "-") + Padded(hours, 2) + ":" + Padded(minutes, 2)
  }

  lemma {:induction false} ColonlessDigits(s: string)
    requires ':' !in s
    ensures WithoutColons(s) == s
  {
    if s != "" {
      assert s == [s[0]] + s[1..];
      ColonlessDigits(s[1..]);
    }
  }

  lemma {:induction false} WithoutColonsJoins(a: string, b: string)
    ensures WithoutColons(a + b) == WithoutColons(a) + WithoutColons(b)
  {
    if a == "" {
      assert a + b == b;
    } else {
      assert (a + b)[1..] == a[1..] + b;
      WithoutColonsJoins(a[1..], b);
    }
  }

  lemma TwoDigits(n: nat)
    requires n < 100
    ensures |Padded(n, 2)| == 2 && ParseSigned(Padded(n, 2)) == Some(n) && ParseUnsigned(Padded(n, 2)) == Some(n)
  {
    DigitsLength(n);
    PaddedReads(n, 2);
  }

  lemma ColonGoes(hours: string, minutes: string)
    requires AllDigits(hours) && AllDigits(minutes)
    ensures WithoutColons(hours + ":" + minutes) == hours + minutes
  {
    WithoutColonsJoins(hours + ":", minutes);
    WithoutColonsJoins(hours, ":");
    assert WithoutColons(":") == WithoutColons("");
    assert WithoutColons(hours) + "" == WithoutColons(hours);
    ColonlessDigits(hours);
    ColonlessDigits(minutes);
  }

  lemma SignedReads(sign: char, hours: string, minutes: string, h: nat, m: nat)
    requires sign == '+' || sign == '-'
    requires AllDigits(hours) && AllDigits(minutes) && |hours| == 2 && |minutes| == 2
    requires ParseSigned(hours) == Some(h) && ParseSigned(minutes) == Some(m)
    ensures SignedOffset([sign] + (hours + ":" + minutes)) == Some((if sign == '+' then 1 else -1) * (h * 3600 + m * 60))
  {
    var zone := [sign] + (hours + ":" + minutes);
    assert zone[1..] == hours + ":" + minutes;
    ColonGoes(hours, minutes);
    assert (hours + minutes)[..2] == hours && (hours + minutes)[2..] == minutes;
  }

  lemma SignIsNoName(name: string)
    requires name != "" && (name[0] == '+' || name[0] == '-')
    ensures NamedZone(name).None?
  {
  }

  lemma SignedZone(sign: char, hours: nat, minutes: nat)
    requires sign == '+' || sign == '-'
    requires hours < 100 && minutes < 100
    ensures ZoneOffset([sign] + (Padded(hours, 2) + ":" + Padded(minutes, 2)))
         == Some((if sign == '+' then 1 else -1) * (hours * 3600 + minutes * 60))
  {
    TwoDigits(hours);
    TwoDigits(minutes);
    var zone := [sign] + (Padded(hours, 2) + ":" + Padded(minutes, 2));
    assert zone[|zone| - 1] in Padded(minutes, 2);
    TrimKeeps(zone);
    SignIsNoName(Uppercase(zone));
    SignedReads(sign, Padded(hours, 2), Padded(minutes, 2), hours, minutes);
  }

  lemma SplitThree(a: string, b: string, c: string, separator: char)
    requires separator !in a && separator !in b && separator !in c
    ensures Split(Three(a, b, c, separator), separator) == [a, b, c]
  {
    var second := b + ([separator] + c);
    SplitNext(a, separator, second);
    SplitNext(b, separator, c);
    SplitFirst(c, separator, "");
  }

  lemma SplitNext(part: string, separator: char, rest: string)
    requires separator !in part
    ensures Split(part + ([separator] + rest), separator) == [part] + Split(rest, separator)
  {
    assert part + ([separator] + rest) == part + [separator] + rest;
    SplitFirst(part, separator, rest);
  }

  lemma SecondsSplit(digits: string, fraction: string)
    requires AllDigits(digits) && Fraction(fraction)
    ensures Split(digits + fraction, '.')[0] == digits
  {
    if fraction == "" {
      assert digits + fraction == digits;
      SplitFirst(digits, '.', "");
    } else {
      assert digits + fraction == digits + ['.'] + fraction[1..];
      SplitFirst(digits, '.', fraction[1..]);
    }
  }

  lemma TimeFields(year: nat, month: nat, day: nat, hour: nat, minute: nat, second: nat, fraction: string, zone: string)
    requires year < 10000 && month < 100 && day < 100 && hour < 100 && minute < 100 && second < 100 && Fraction(fraction)
    ensures ReadTime([Padded(year, 4), Padded(month, 2), Padded(day, 2)],
                     [Padded(hour, 2), Padded(minute, 2), Padded(second, 2) + fraction], zone)
         == if ZoneOffset(zone).None? then None
            else Some(Fields(year, month, day, hour, minute, second, ZoneOffset(zone).value))
  {
    PaddedReads(year, 4);
    TwoDigits(month);
    TwoDigits(day);
    TwoDigits(hour);
    TwoDigits(minute);
    TwoDigits(second);
    SecondsSplit(Padded(second, 2), fraction);
  }

  lemma IndexAfter(part: string, rest: string, stops: set<char>)
    requires rest != "" && rest[0] in stops && forall c :: c in part ==> c !in stops
    ensures IndexOf(part + rest, stops) == |part|
    ensures (part + rest)[..|part|] == part && (part + rest)[|part|..] == rest
  {
    var text := part + rest;
    assert text[|part|] == rest[0];
    assert forall i :: 0 <= i < |part| ==> text[i] == part[i] && text[i] in part;
    IndexOfIs(text, stops, |part|);
  }

  /** The parts of a date and time with its zone. */
  lemma IsoParts(date: string, time: string, zone: string)
    requires forall c :: c in date ==> IsDigit(c) || c == '-'
    requires forall c :: c in time ==> IsDigit(c) || c == ':' || c == '.'
    requires zone != "" && zone[0] in {'Z', '+', '-'}
    ensures ReadIso(Stamp(date, time, zone)) == ReadTime(Split(date, '-'), Split(time, ':'), zone)
  {
    var rest := time + zone;
    var text := date + ("T" + rest);
    IndexAfter(date, "T" + rest, {'T', 't', ' '});
    IndexAfter(time, zone, {'Z', 'z', '+', '-'});
    assert text[|date| + 1..] == rest;
  }

  lemma ThreeChars(a: string, b: string, c: string, separator: char, x: char)
    requires x in Three(a, b, c, separator)
    ensures x in a || x in b || x in c || x == separator
  {
  }

  lemma FractionChars(digits: string, fraction: string)
    requires AllDigits(digits) && Fraction(fraction)
    ensures forall c :: c in digits + fraction ==> IsDigit(c) || c == '.'
  {
    if fraction != "" { assert fraction == ['.'] + fraction[1..]; }
  }

  /** `zone` is how RFC 3339 writes an offset in seconds. */
  ghost predicate WritesOffset(zone: string, offset: int) {
    (zone == "Z" && offset == 0)
    || exists east, h: nat, m: nat :: h < 24 && m < 60 && zone == NumericZone(east, h, m)
                                      && offset == (if east then 1 else -1) * (h * 3600 + m * 60)
  }

  lemma NumericZoneReads(east: bool, h: nat, m: nat)
    requires h < 24 && m < 60
    ensures var zone := NumericZone(east, h, m);
            && ZoneOffset(zone) == Some((if east then 1 else -1) * (h * 3600 + m * 60))
            && zone != "" && zone[0] in {'+', '-'} && !IsSpace(zone[|zone| - 1])
  {
    var sign := if east then '+' else '-';
    var zone := NumericZone(east, h, m);
    assert zone == [sign] + (Padded(h, 2) + ":" + Padded(m, 2));
    SignedZone(sign, h, m);
    assert zone[|zone| - 1] in Padded(m, 2);
  }

  lemma ZoneReads(zone: string, offset: int)
    requires WritesOffset(zone, offset)
    ensures ZoneOffset(zone) == Some(offset)
    ensures zone != "" && zone[0] in {'Z', '+', '-'} && !IsSpace(zone[|zone| - 1])
  {
    if zone == "Z" {
      TrimKeeps(zone);
      assert Uppercase(zone) == "Z";
    } else {
      var east, h: nat, m: nat :| h < 24 && m < 60 && zone == NumericZone(east, h, m)
                                  && offset == (if east then 1 else -1) * (h * 3600 + m * 60);
      NumericZoneReads(east, h, m);
    }
  }

  lemma IsoFields(year: nat, month: nat, day: nat, hour: nat, minute: nat, second: nat, fraction: string,
                  zone: string, offset: int)
    requires year < 10000 && month < 100 && day < 100 && hour < 100 && minute < 100 && second < 100
    requires Fraction(fraction) && WritesOffset(zone, offset)
    ensures ReadIso(Stamp(DateText(year, month, day), TimeText(hour, minute, second, fraction), zone))
         == Some(Fields(year, month, day, hour, minute, second, offset))
  {
    var y, mo, d := Padded(year, 4), Padded(month, 2), Padded(day, 2);
    var h, mi, s := Padded(hour, 2), Padded(minute, 2), Padded(second, 2) + fraction;
    ZoneReads(zone, offset);
    FractionChars(Padded(second, 2), fraction);
    forall c | c in Three(y, mo, d, '-') ensures IsDigit(c) || c == '-' { ThreeChars(y, mo, d, '-', c); }
    forall c | c in Three(h, mi, s, ':') ensures IsDigit(c) || c == ':' || c == '.' { ThreeChars(h, mi, s, ':', c); }
    IsoParts(Three(y, mo, d, '-'), Three(h, mi, s, ':'), zone);
    SplitThree(y, mo, d, '-');
    SplitThree(h, mi, s, ':');
    TimeFields(year, month, day, hour, minute, second, fraction, zone);
  }

  lemma StampEnds(year: string, date: string, time: string, zone: string)
    requires |year| == 4 && AllDigits(year) && zone != "" && !IsSpace(zone[|zone| - 1])
    requires |date| > 4 && date[..4] == year && date[4] == '-'
    ensures var text := Stamp(date, time, zone); |text| > 4 && text[4] == '-' && Trim(text) == text
  {
    var text := Stamp(date, time, zone);
    assert text[0] == year[0] && year[0] in year;
    assert text[|text| - 1] == zone[|zone| - 1];
    TrimKeeps(text);
  }

  lemma ThreeStarts(a: string, b: string, c: string, separator: char)
    ensures var text := Three(a, b, c, separator); |text| > |a| && text[..|a|] == a && text[|a|] == separator
  {
  }

  function AtOrAfter1970(secs: int): Option<nat> {
    if secs < 0 then None else Some(secs * 1000)
  }

  lemma InstantCounts(f: Fields)
    requires Valid(Date(f.year, f.month, f.day)) && f.hour < 24 && f.minute < 60 && f.second <= 60
    ensures Instant(f)
         == AtOrAfter1970(CountDays(Date(f.year, f.month, f.day)) * 86400 + f.hour * 3600 + f.minute * 60 + f.second - f.offset)
  {
    DaysFromCivilCounts(Date(f.year, f.month, f.day));
    MonthIsShort(f.year, f.month);
  }

  lemma MonthIsShort(year: int, month: int)
    requires 1 <= month <= 12
    ensures MonthLength(year, month) <= 31
  {
  }

  lemma ParseIso(text: string, f: Fields)
    requires |text| > 4 && text[4] == '-' && Trim(text) == text && ReadIso(text) == Some(f)
    ensures ParseDate(text) == Instant(f)
  {
  }

  /** A date and time of RFC 3339 section 5.6 reads as the instant it names, counted by the calendar's rules, when
      that is not before 1970. */
  lemma ReadsWhatItNames(year: nat, month: nat, day: nat, hour: nat, minute: nat, second: nat, fraction: string,
                         zone: string, offset: int)
    requires year < 10000 && Valid(Date(year, month, day)) && hour < 24 && minute < 60 && second <= 60
    requires Fraction(fraction) && WritesOffset(zone, offset)
    ensures ParseDate(Stamp(DateText(year, month, day), TimeText(hour, minute, second, fraction), zone))
         == AtOrAfter1970(CountDays(Date(year, month, day)) * 86400 + hour * 3600 + minute * 60 + second - offset)
  {
    MonthIsShort(year, month);
    StampReads(year, month, day, hour, minute, second, fraction, zone, offset);
    InstantCounts(Fields(year, month, day, hour, minute, second, offset));
  }

  /** Every text of that form: it is refused if and only if a field is out of its range or the instant is before 1970. A day that
      its month does not have is taken for one of the next month. */
  lemma ReadsOrRefuses(year: nat, month: nat, day: nat, hour: nat, minute: nat, second: nat, fraction: string,
                       zone: string, offset: int)
    requires year < 10000 && month < 100 && day < 100 && hour < 100 && minute < 100 && second < 100
    requires Fraction(fraction) && WritesOffset(zone, offset)
    ensures ParseDate(Stamp(DateText(year, month, day), TimeText(hour, minute, second, fraction), zone))
         == if 1 <= month <= 12 && 1 <= day <= 31 && hour <= 23 && minute <= 59 && second <= 60
            then AtOrAfter1970((CountDays(Date(year, month, 1)) + day - 1) * 86400 + hour * 3600 + minute * 60 + second - offset)
            else None
  {
    StampReads(year, month, day, hour, minute, second, fraction, zone, offset);
    if 1 <= month <= 12 { DaysOfMonth(year, month, day); }
  }

  lemma DaysOfMonth(year: int, month: int, day: int)
    requires 1 <= month <= 12
    ensures DaysFromCivil(year, month, day) == CountDays(Date(year, month, 1)) + day - 1
  {
    DaysFromCivilCounts(Date(year, month, 1));
  }

  lemma StampReads(year: nat, month: nat, day: nat, hour: nat, minute: nat, second: nat, fraction: string,
                   zone: string, offset: int)
    requires year < 10000 && month < 100 && day < 100 && hour < 100 && minute < 100 && second < 100
    requires Fraction(fraction) && WritesOffset(zone, offset)
    ensures ParseDate(Stamp(DateText(year, month, day), TimeText(hour, minute, second, fraction), zone))
         == Instant(Fields(year, month, day, hour, minute, second, offset))
  {
    ZoneReads(zone, offset);
    DigitsLength(year);
    PaddedReads(year, 4);
    ThreeStarts(Padded(year, 4), Padded(month, 2), Padded(day, 2), '-');
    var date, time := DateText(year, month, day), TimeText(hour, minute, second, fraction);
    StampEnds(Padded(year, 4), date, time, zone);
    IsoFields(year, month, day, hour, minute, second, fraction, zone, offset);
    ParseIso(Stamp(date, time, zone), Fields(year, month, day, hour, minute, second, offset));
  }

  lemma TimeOfDaySplits(days: nat, rem: nat)
    requires rem < 86400
    ensures rem / 3600 < 24 && rem % 3600 / 60 < 60 && rem % 60 < 60
    ensures days * 86400 + rem / 3600 * 3600 + rem % 3600 / 60 * 60 + rem % 60 - 0 == days * 86400 + rem
  {
  }

  lemma IsoOfReads(date: Date, days: nat, rem: nat, millis: nat, secs: nat)
    requires Valid(date) && 0 <= date.year < 10000 && CountDays(date) == days && rem < 86400
    requires secs == days * 86400 + rem
    ensures ParseDate(IsoOf(date, rem, millis)) == Some(secs * 1000)
  {
    TimeOfDaySplits(days, rem);
    var fraction := "." + Padded(millis, 3);
    assert fraction[1..] == Padded(millis, 3);
    ReadsWhatItNames(date.year, date.month, date.day, rem / 3600, rem % 3600 / 60, rem % 60, fraction, "Z", 0);
  }

  /** The days before the year 10000. */
  const YEAR_10000: nat := 2932897

  lemma Year10000Starts()
    ensures YearStart(10000) == YEAR_10000
  {
    DaysFromCivilCounts(Date(10000, 1, 1));
  }

  lemma YearFrom10000(days: nat)
    ensures CivilFromDays(days).year < 10000 <==> days < YEAR_10000
  {
    var year := CivilFromDays(days).year;
    YearOfDay(days, year);
    Year10000Starts();
    if year < 10000 { YearsAreMonotone(year + 1, 10000); } else { YearsAreMonotone(10000, year); }
  }

  lemma IsoSecondsReads(secs: nat, millis: nat)
    requires secs / 86400 < YEAR_10000
    ensures ParseDate(IsoSeconds(secs, millis)) == Some(secs * 1000)
  {
    YearFrom10000(secs / 86400);
    CivilDate(secs / 86400);
    IsoOfReads(CivilFromDays(secs / 86400), secs / 86400, secs % 86400, millis, secs);
  }

  lemma {:induction false} OneWord(s: string)
    requires s != "" && forall c :: c in s ==> !IsSpace(c)
    ensures Words(s) == [s]
  {
    assert forall i :: 0 <= i < |s| ==> s[i] in s;
    assert s[..|s|] == s && s[|s|..] == "";
  }

  lemma StampChars(date: Date, rem: nat, millis: nat)
    requires 0 <= date.year && 0 <= date.month && 0 <= date.day
    ensures forall c :: c in IsoOf(date, rem, millis) ==> !IsSpace(c) && c != ','
  {
    var s := Padded(rem % 60, 2) + ("." + Padded(millis, 3));
    var d, t := DateText(date.year, date.month, date.day), TimeText(rem / 3600, rem % 3600 / 60, rem % 60, "." + Padded(millis, 3));
    forall c | c in d ensures IsDigit(c) || c == '-' {
      ThreeChars(Padded(date.year, 4), Padded(date.month, 2), Padded(date.day, 2), '-', c);
    }
    forall c | c in t ensures IsDigit(c) || c == ':' || c == '.' {
      ThreeChars(Padded(rem / 3600, 2), Padded(rem % 3600 / 60, 2), s, ':', c);
    }
  }

  lemma LongYearIsUnread(text: string)
    requires |text| > 4 && text[4] != '-' && forall c :: c in text ==> !IsSpace(c) && c != ','
    ensures ParseDate(text).None?
  {
    assert text[0] in text && text[|text| - 1] in text;
    TrimKeeps(text);
    forall i | 0 <= i < |text| ensures text[i] !in {','} {
      var c := text[i];
      assert c in text;
      assert !IsSpace(c) && c != ',';
    }
    IndexOfIs(text, {','}, |text|);
    OneWord(text);
  }

  lemma IsoOfLongYear(date: Date, rem: nat, millis: nat)
    requires date.year >= 10000 && 0 <= date.month && 0 <= date.day
    ensures ParseDate(IsoOf(date, rem, millis)).None?
  {
    var year := Padded(date.year, 4);
    var text := IsoOf(date, rem, millis);
    DigitsLength(date.year);
    ThreeStarts(year, Padded(date.month, 2), Padded(date.day, 2), '-');
    assert year == DateText(date.year, date.month, date.day)[..|year|];
    assert text[4] == year[4] && year[4] in year;
    StampChars(date, rem, millis);
    LongYearIsUnread(text);
  }

  lemma IsoSecondsUnread(secs: nat, millis: nat)
    requires secs / 86400 >= YEAR_10000
    ensures ParseDate(IsoSeconds(secs, millis)).None?
  {
    YearFrom10000(secs / 86400);
    CivilDate(secs / 86400);
    IsoOfLongYear(CivilFromDays(secs / 86400), secs % 86400, millis);
  }

  /** What `Iso` writes is read back, to the second, if and only if it is before the year 10000. */
  lemma IsoReadsBack(ms: nat)
    ensures ParseDate(Iso(ms)) == if ms / 1000 / 86400 < YEAR_10000 then Some(ms / 1000 * 1000) else None
  {
    if ms / 1000 / 86400 < YEAR_10000 {
      IsoSecondsReads(ms / 1000, ms % 1000);
    } else {
      IsoSecondsUnread(ms / 1000, ms % 1000);
    }
  }

  /** The milliseconds are written too: three digits after a point, before the Z. */
  lemma IsoHasMillis(ms: nat) returns (start: string, digits: string)
    ensures Iso(ms) == start + ("." + (digits + "Z"))
    ensures |digits| == 3 && AllDigits(digits) && DigitsValue(digits) == ms % 1000
  {
    var secs, millis := ms / 1000, ms % 1000;
    start, digits := SecondsAndMillis(secs, millis);
  }

  lemma SecondsAndMillis(secs: nat, millis: nat) returns (start: string, digits: string)
    requires millis < 1000
    ensures IsoSeconds(secs, millis) == start + ("." + (digits + "Z"))
    ensures |digits| == 3 && AllDigits(digits) && DigitsValue(digits) == millis
  {
    CivilDate(secs / 86400);
    start, digits := DateAndMillis(CivilFromDays(secs / 86400), secs % 86400, millis);
  }

  lemma DateAndMillis(date: Date, rem: nat, millis: nat) returns (start: string, digits: string)
    requires 0 <= date.year && 0 <= date.month && 0 <= date.day && rem < 86400 && millis < 1000
    ensures IsoOf(date, rem, millis) == start + ("." + (digits + "Z"))
    ensures |digits| == 3 && AllDigits(digits) && DigitsValue(digits) == millis
  {
    digits := Padded(millis, 3);
    PaddedReads(millis, 3);
    DigitsLength(millis / 10);
    start := IsoStart(date, rem, digits);
  }

  lemma IsoStart(date: Date, rem: nat, digits: string) returns (start: string)
    requires 0 <= date.year && 0 <= date.month && 0 <= date.day && rem < 86400
    ensures Stamp(DateText(date.year, date.month, date.day),
                  TimeText(rem / 3600, rem % 3600 / 60, rem % 60, "." + digits), "Z")
         == start + ("." + (digits + "Z"))
  {
    var d, h, m, s := DateText(date.year, date.month, date.day), Padded(rem / 3600, 2), Padded(rem % 3600 / 60, 2), Padded(rem % 60, 2);
    start := d + ("T" + (h + (":" + (m + (":" + s)))));
    var fraction := "." + digits;
    assert (h + (":" + (m + (":" + (s + fraction))))) + "Z" == (h + (":" + (m + (":" + s)))) + ("." + (digits + "Z"));
  }
}
