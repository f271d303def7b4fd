// Local time from POSIX `Mm.w.d` rules (mastomini_bots/src/tz.rs). Instants are seconds
// since 1970 unless a name says milliseconds; offsets are seconds east of UTC.
module LocalTime {
  import opened Calendar
  import opened Options

  const DAY: int := 86400

  /** `Mm.w.d/time`: day `day` (0 = Sunday) of week `week` (5 = last) of `month`. */
  datatype Rule = Rule(month: int, week: int, day: int, time: int)

  datatype Dst = Dst(offset: int, start: Rule, end: Rule)

  datatype Tz = Tz(std: int, dst: Option<Dst>)

  datatype Local = Local(year: int, month: int, day: int, hour: int, minute: int, second: int,
                         weekday: int, offset: int, dst: bool)

  /** What the rule parser accepts. */
  predicate ValidRule(r: Rule) {
    1 <= r.month <= 12 && 1 <= r.week <= 5 && 0 <= r.day <= 6
  }

  predicate ValidTz(tz: Tz) {
    tz.dst.Some? ==> ValidRule(tz.dst.value.start) && ValidRule(tz.dst.value.end)
  }

  // ---------------------------------------------------------------------------
  // The date of a rule
  // ---------------------------------------------------------------------------

  /** Whole weeks back from `day` until it falls inside a month of `length` days. */
  function WeeksBack(day: int, length: int): int
    decreases day - length
  {
    if day > length then WeeksBack(day - 7, length) else day
  }

  function FirstGuess(r: Rule, year: int): int {
    1 + (r.day + 7 - Weekday(DaysFromCivil(year, r.month, 1))) % 7 + (r.week - 1) * 7
  }

  function RuleDate(r: Rule, year: int): int {
    DaysFromCivil(year, r.month, 1) + WeeksBack(FirstGuess(r, year), DaysInMonth(year, r.month)) - 1
  }

  method ComputeRuleDate(r: Rule, year: int) returns (date: int)
    requires ValidRule(r)
    ensures date == RuleDate(r, year)
  {
    var first := DaysFromCivil(year, r.month, 1);
    var day := 1 + (r.day + 7 - Weekday(first)) % 7 + (r.week - 1) * 7;
    while day > DaysInMonth(year, r.month)
      invariant WeeksBack(day, DaysInMonth(year, r.month)) == WeeksBack(FirstGuess(r, year), DaysInMonth(year, r.month))
      decreases day
    {
      DaysInMonthIsMonthLength(year, r.month);
      day := day - 7;
    }
    date := first + day - 1;
  }

  /** Day `d` of the rule's month is the rule's date: its weekday, and its week or the last one. */
  predicate RuleNames(r: Rule, year: int, d: int)
    requires ValidRule(r)
  {
    && 1 <= d <= MonthLength(year, r.month)
    && Weekday(CountDays(Date(year, r.month, d))) == r.day
    && (if r.week < 5 then 7 * (r.week - 1) < d <= 7 * r.week else d + 7 > MonthLength(year, r.month))
  }

  lemma GuessWeekday(first: int, weekday: int, week: int)
    requires 0 <= weekday <= 6
    ensures var guess := 1 + (weekday + 7 - Weekday(first)) % 7 + (week - 1) * 7;
            Weekday(first + guess - 1) == weekday && 7 * (week - 1) < guess <= 7 * week
  {
    var ahead := (weekday + 7 - Weekday(first)) % 7;
    assert (first + 4 + ahead) % 7 == weekday;
    var n := first + 4 + ahead;
    assert (n + (week - 1) * 7) % 7 == n % 7;
  }

  lemma SameWeekday(a: int, b: int)
    ensures Weekday(a) == Weekday(b) <==> (a - b) % 7 == 0
  {
  }

  /** Two days of a month with the same weekday in the same week, or both last, are the same day. */
  lemma OneNamedDay(first: int, week: int, length: int, a: int, b: int)
    requires Weekday(first + a - 1) == Weekday(first + b - 1)
    requires 1 <= a <= length && 1 <= b <= length
    requires if week < 5 then 7 * (week - 1) < a <= 7 * week && 7 * (week - 1) < b <= 7 * week
             else a + 7 > length && b + 7 > length
    ensures a == b
  {
    SameWeekday(first + a - 1, first + b - 1);
  }

  /** A rule names exactly one day of its month, and `RuleDate` is that day. */
  lemma RuleDateIsTheNamedDay(r: Rule, year: int, d: int)
    requires ValidRule(r)
    ensures RuleNames(r, year, d) <==> RuleDate(r, year) == CountDays(Date(year, r.month, d))
  {
    var first := DaysFromCivil(year, r.month, 1);
    DaysFromCivilCounts(Date(year, r.month, 1));
    DaysInMonthIsMonthLength(year, r.month);
    var day := RuleDay(r, year);
    if RuleNames(r, year, d) {
      OneNamedDay(first, r.week, MonthLength(year, r.month), day, d);
    }
  }

  lemma RuleDay(r: Rule, year: int) returns (day: int)
    requires ValidRule(r)
    ensures RuleNames(r, year, day)
    ensures RuleDate(r, year) == CountDays(Date(year, r.month, day))
  {
    var first := DaysFromCivil(year, r.month, 1);
    var length := DaysInMonth(year, r.month);
    DaysFromCivilCounts(Date(year, r.month, 1));
    DaysInMonthIsMonthLength(year, r.month);
    day := NamedDay(first, r.day, r.week, length);
    assert CountDays(Date(year, r.month, day)) == first + day - 1;
  }

  lemma NamedDay(first: int, weekday: int, week: int, length: int) returns (day: int)
    requires 0 <= weekday <= 6 && 1 <= week <= 5 && 28 <= length <= 31
    ensures day == WeeksBack(1 + (weekday + 7 - Weekday(first)) % 7 + (week - 1) * 7, length)
    ensures 1 <= day <= length && Weekday(first + day - 1) == weekday
    ensures if week < 5 then 7 * (week - 1) < day <= 7 * week else day + 7 > length
  {
    var guess := 1 + (weekday + 7 - Weekday(first)) % 7 + (week - 1) * 7;
    GuessWeekday(first, weekday, week);
    day := if guess > length then guess - 7 else guess;
    assert day == WeeksBack(guess, length);
    if guess > length { SameWeekday(first + guess - 1, first + day - 1); }
  }

  // ---------------------------------------------------------------------------
  // Offsets and local readings
  // ---------------------------------------------------------------------------

  function StartAt(tz: Tz, year: int): int
    requires tz.dst.Some?
  {
    RuleDate(tz.dst.value.start, year) * DAY + tz.dst.value.start.time - tz.std
  }

  function EndAt(tz: Tz, year: int): int
    requires tz.dst.Some?
  {
    RuleDate(tz.dst.value.end, year) * DAY + tz.dst.value.end.time - tz.dst.value.offset
  }

  /** The offset in force at `utc`, and whether it is daylight saving time. */
  function OffsetAt(tz: Tz, utc: int): (int, bool) {
    if tz.dst.None? then (tz.std, false)
    else
      var year := CivilFromDays((utc + tz.std) / DAY).year;
      var start := StartAt(tz, year);
      var end := EndAt(tz, year);
      var on := if start < end then start <= utc < end else utc >= start || utc < end;
      if on then (tz.dst.value.offset, true) else (tz.std, false)
  }

  function Offset(tz: Tz, utc: int): int {
    OffsetAt(tz, utc).0
  }

  /** What a wall clock shows at `utc`, as seconds since midnight of 1 January 1970 on that clock. */
  function Wall(tz: Tz, utc: int): int {
    utc + Offset(tz, utc)
  }

  function LocalAt(tz: Tz, utcMs: nat): Local {
    var utc := utcMs / 1000;
    var (offset, dst) := OffsetAt(tz, utc);
    var t := utc + offset;
    var days := t / DAY;
    var secs := t % DAY;
    var date := CivilFromDays(days);
    Local(date.year, date.month, date.day, secs / 3600, secs % 3600 / 60, secs % 60, Weekday(days), offset, dst)
  }

  function WallOf(year: int, month: int, day: int, hour: int, minute: int): int {
    DaysFromCivil(year, month, day) * DAY + hour * 3600 + minute * 60
  }

  function OffsetsOf(tz: Tz): seq<int> {
    [tz.std] + (if tz.dst.Some? then [tz.dst.value.offset] else [])
  }

  function OffsetClock(tz: Tz): int -> int {
    utc => Offset(tz, utc)
  }

  /** The instants at which one of `offsets`, if then in force, shows wall time `wall`. */
  function KeepReadings(offsetAt: int -> int, wall: int, offsets: seq<int>): seq<int> {
    if offsets == [] then []
    else (if offsetAt(wall - offsets[0]) == offsets[0] then [wall - offsets[0]] else [])
         + KeepReadings(offsetAt, wall, offsets[1..])
  }

  function Min(s: seq<int>): int
    requires s != []
  {
    if |s| == 1 then s[0] else if s[0] <= Min(s[1..]) then s[0] else Min(s[1..])
  }

  /** The instant of a wall time: its first reading, or inside a gap the reading by the first offset. */
  function ResolveBy(offsetAt: int -> int, offsets: seq<int>, wall: int): int
    requires offsets != []
  {
    var valid := KeepReadings(offsetAt, wall, offsets);
    if valid != [] then Min(valid) else wall - offsets[0]
  }

  function Resolve(tz: Tz, wall: int): int {
    ResolveBy(OffsetClock(tz), OffsetsOf(tz), wall)
  }

  function UtcMs(tz: Tz, year: int, month: int, day: int, hour: int, minute: int): nat {
    var utc := Resolve(tz, WallOf(year, month, day, hour, minute));
    (if utc < 0 then 0 else utc) * 1000
  }

  // ---------------------------------------------------------------------------
  // A wall time resolves to its first reading
  // ---------------------------------------------------------------------------

  ghost predicate Reads(tz: Tz, wall: int) {
    exists utc :: Wall(tz, utc) == wall
  }

  lemma {:induction false} KeptReadings(offsetAt: int -> int, wall: int, offsets: seq<int>, utc: int)
    ensures utc in KeepReadings(offsetAt, wall, offsets) <==> wall - utc in offsets && offsetAt(utc) == wall - utc
  {
    if offsets != [] {
      KeptReadings(offsetAt, wall, offsets[1..], utc);
      assert offsets == [offsets[0]] + offsets[1..];
    }
  }

  lemma OffsetIsStandardOrDaylight(tz: Tz, utc: int)
    ensures Offset(tz, utc) == tz.std || (tz.dst.Some? && Offset(tz, utc) == tz.dst.value.offset)
  {
  }

  lemma {:induction false} MinIsLeast(s: seq<int>)
    requires s != []
    ensures Min(s) in s && forall x :: x in s ==> Min(s) <= x
  {
    if |s| > 1 {
      MinIsLeast(s[1..]);
      assert s == [s[0]] + s[1..];
    }
  }

  /** With the offset always one of those tried, the earliest instant that reads as `wall`, if any does. */
  lemma ResolveByIsFirst(offsetAt: int -> int, offsets: seq<int>, wall: int)
    requires offsets != [] && forall utc :: offsetAt(utc) in offsets
    ensures var first := ResolveBy(offsetAt, offsets, wall);
            && (forall utc :: utc + offsetAt(utc) == wall ==> first <= utc)
            && (first + offsetAt(first) == wall
                || (first == wall - offsets[0] && forall utc :: utc + offsetAt(utc) != wall))
  {
    var valid := KeepReadings(offsetAt, wall, offsets);
    forall utc ensures utc in valid <==> utc + offsetAt(utc) == wall {
      KeptReadings(offsetAt, wall, offsets, utc);
    }
    if valid != [] { MinIsLeast(valid); } else {
      forall utc ensures utc + offsetAt(utc) != wall { assert utc !in valid; }
    }
  }

  lemma OffsetIsTried(tz: Tz)
    ensures forall utc :: OffsetClock(tz)(utc) in OffsetsOf(tz)
  {
    forall utc ensures OffsetClock(tz)(utc) in OffsetsOf(tz) {
      OffsetIsStandardOrDaylight(tz, utc);
    }
  }

  /** `Resolve` for every zone and wall time: the earliest instant that reads as it, or in a gap
      an instant that reads exactly the difference of the two offsets later. */
  lemma ResolveIsFirstReading(tz: Tz, wall: int)
    ensures Reads(tz, wall) ==>
              Wall(tz, Resolve(tz, wall)) == wall
              && forall utc :: Wall(tz, utc) == wall ==> Resolve(tz, wall) <= utc
    ensures !Reads(tz, wall) ==>
              tz.dst.Some? && Wall(tz, Resolve(tz, wall)) == wall + tz.dst.value.offset - tz.std
  {
    var offsetAt := OffsetClock(tz);
    assert forall utc :: offsetAt(utc) == Offset(tz, utc);
    OffsetIsTried(tz);
    ResolveByIsFirst(offsetAt, OffsetsOf(tz), wall);
    OffsetIsStandardOrDaylight(tz, Resolve(tz, wall));
    assert Wall(tz, wall - tz.std) == wall ==> Reads(tz, wall);
  }

  /** For every zone and millisecond: the fields are a real date and time of day, those of the instant moved by the offset given;
      the weekday is the date's, counted from a Thursday on 1 January 1970; and the offset and whether it is daylight saving
      time are those in force. */
  lemma LocalAtReads(tz: Tz, ms: nat)
    ensures var l := LocalAt(tz, ms); var date := Date(l.year, l.month, l.day);
            && Valid(date) && 0 <= l.hour <= 23 && 0 <= l.minute <= 59 && 0 <= l.second <= 59
            && CountDays(date) * 86400 + l.hour * 3600 + l.minute * 60 + l.second == ms / 1000 + l.offset
            && l.weekday == (CountDays(date) + 4) % 7
            && (l.offset, l.dst) == OffsetAt(tz, ms / 1000)
            && (if l.dst then tz.dst.Some? && l.offset == tz.dst.value.offset else l.offset == tz.std)
  {
    ClockReads(Wall(tz, ms / 1000));
  }

  lemma ClockReads(t: int)
    ensures var date, secs := CivilFromDays(t / DAY), t % DAY;
            && Valid(date) && CountDays(date) == t / DAY
            && 0 <= secs / 3600 <= 23 && 0 <= secs % 3600 / 60 <= 59 && 0 <= secs % 60 <= 59
            && CountDays(date) * 86400 + secs / 3600 * 3600 + secs % 3600 / 60 * 60 + secs % 60 == t
  {
    CivilRoundTrip(t / DAY);
    DaysFromCivilCounts(CivilFromDays(t / DAY));
    SecondsSplit(t % DAY);
    assert t == t / DAY * DAY + t % DAY;
  }

  lemma SecondsSplit(secs: int)
    requires 0 <= secs < DAY
    ensures 0 <= secs / 3600 <= 23 && 0 <= secs % 3600 / 60 <= 59 && 0 <= secs % 60 <= 59
    ensures secs / 3600 * 3600 + secs % 3600 / 60 * 60 + secs % 60 == secs
  {
    assert secs % 3600 % 60 == secs % 60;
  }

  /** Wall clock fields of an instant, without the offset. */
  predicate Shows(l: Local, year: int, month: int, day: int, hour: int, minute: int) {
    l.year == year && l.month == month && l.day == day && l.hour == hour && l.minute == minute && l.second == 0
  }

  predicate ValidTime(hour: int, minute: int) {
    0 <= hour <= 23 && 0 <= minute <= 59
  }

  /** For every zone, real date and time of day with a non-negative result: `LocalAt` of `UtcMs` gives the
      fields back if any instant shows them, and then it is the earliest such instant; in a gap it shows the
      time the clock would have moved on to, later by the difference of the offsets. */
  lemma UtcMsInvertsLocal(tz: Tz, year: int, month: int, day: int, hour: int, minute: int)
    requires Valid(Date(year, month, day)) && ValidTime(hour, minute)
    requires 0 <= Resolve(tz, WallOf(year, month, day, hour, minute))
    ensures var ms := UtcMs(tz, year, month, day, hour, minute);
            if Reads(tz, WallOf(year, month, day, hour, minute)) then
              && Shows(LocalAt(tz, ms), year, month, day, hour, minute)
              && forall earlier: nat :: Shows(LocalAt(tz, earlier), year, month, day, hour, minute) ==> ms <= earlier
            else
              tz.dst.Some? && Wall(tz, ms / 1000) == WallOf(year, month, day, hour, minute) + tz.dst.value.offset - tz.std
  {
    var wall := WallOf(year, month, day, hour, minute);
    var ms := UtcMs(tz, year, month, day, hour, minute);
    ResolveIsFirstReading(tz, wall);
    assert ms / 1000 == Resolve(tz, wall);
    forall at: nat ensures Shows(LocalAt(tz, at), year, month, day, hour, minute) <==> Wall(tz, at / 1000) == wall {
      ShowsItsWall(tz, at, year, month, day, hour, minute);
    }
    if Reads(tz, wall) {
      forall earlier: nat | Shows(LocalAt(tz, earlier), year, month, day, hour, minute)
        ensures ms <= earlier
      {
        assert Resolve(tz, wall) <= earlier / 1000;
      }
    }
  }

  /** Local fields determine the wall time and the other way round. */
  lemma ShowsItsWall(tz: Tz, ms: nat, year: int, month: int, day: int, hour: int, minute: int)
    requires Valid(Date(year, month, day)) && ValidTime(hour, minute)
    ensures Shows(LocalAt(tz, ms), year, month, day, hour, minute)
       <==> Wall(tz, ms / 1000) == WallOf(year, month, day, hour, minute)
  {
    var t := Wall(tz, ms / 1000);
    CivilRoundTrip(t / DAY);
    DateRoundTrip(Date(year, month, day));
    TimeOfDay(t % DAY, hour, minute);
    DayAndTime(t, DaysFromCivil(year, month, day), hour * 3600 + minute * 60);
  }

  lemma DayAndTime(t: int, day: int, second: int)
    requires 0 <= second < DAY
    ensures t == day * DAY + second <==> t / DAY == day && t % DAY == second
  {
  }

  lemma TimeOfDay(secs: int, hour: int, minute: int)
    requires 0 <= secs < DAY && ValidTime(hour, minute)
    ensures secs == hour * 3600 + minute * 60
       <==> secs / 3600 == hour && secs % 3600 / 60 == minute && secs % 60 == 0
  {
    assert secs == 3600 * (secs / 3600) + secs % 3600;
    assert secs % 3600 == 60 * (secs % 3600 / 60) + secs % 3600 % 60;
    assert secs % 3600 % 60 == secs % 60;
  }
}
