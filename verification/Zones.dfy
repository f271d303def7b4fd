// When daylight saving is in force (mastomini_bots/src/tz.rs): the year-by-year test of
// `OffsetAt` describes whole periods of daylight saving, and what schedules need of them.
module Zones {
  import Arith
  import opened Calendar
  import opened LocalTime
  import opened Options

  /** How far daylight saving moves the clock. */
  function Shift(tz: Tz): int {
    if tz.dst.Some? then tz.dst.value.offset - tz.std else 0
  }

  // ---------------------------------------------------------------------------
  // Years with two changes, whatever computes them
  // ---------------------------------------------------------------------------

  /** The year of each instant, when years open and close, and when daylight saving starts and ends in them. */
  datatype Changes = Changes(year: int -> int, opens: int -> int, closes: int -> int, starts: int -> int, ends: int -> int)

  ghost predicate InYear(c: Changes, y: int, utc: int) {
    c.opens(y) <= utc < c.closes(y)
  }

  /** The code's test inside one year. */
  ghost predicate OnInYear(c: Changes, y: int, utc: int) {
    if c.starts(y) < c.ends(y) then c.starts(y) <= utc < c.ends(y)
    else utc >= c.starts(y) || utc < c.ends(y)
  }

  /** Where the daylight period that starts in year `y` ends: that year, or the next in the south. */
  ghost function EndOfPeriod(c: Changes, y: int): int {
    if c.starts(y) < c.ends(y) then c.ends(y) else c.ends(y + 1)
  }

  ghost predicate YearsInOrder(c: Changes) {
    forall y, z :: y < z ==> c.closes(y) <= c.opens(z) && c.opens(y) + 365 * DAY <= c.opens(z)
  }

  /** Both changes of every year lie in that year, away from its ends by a margin, and come in the same order every
      year, more than the margin apart. */
  ghost predicate Apart(c: Changes, margin: int) {
    && 0 <= margin <= 2 * DAY && YearsInOrder(c)
    && (forall y :: c.opens(y) + margin <= c.starts(y) <= c.closes(y) - margin)
    && (forall y :: c.opens(y) + margin <= c.ends(y) <= c.closes(y) - margin)
    && ((forall y :: c.starts(y) + margin < c.ends(y)) || (forall y :: c.ends(y) + margin < c.starts(y)))
  }

  lemma NextYearAtMost(c: Changes, y: int, a: int, z: int, b: int)
    requires YearsInOrder(c) && InYear(c, y, a) && InYear(c, z, b) && a <= b < a + 365 * DAY
    ensures y <= z <= y + 1
  {
    assert y + 1 < z ==> c.closes(y) <= c.opens(y + 1);
  }

  lemma PeriodIsOn(c: Changes, margin: int, y: int, utc: int, z: int)
    requires Apart(c, margin) && InYear(c, y, utc) && c.starts(z) <= utc < EndOfPeriod(c, z)
    ensures OnInYear(c, y, utc)
  {
    assert z + 1 < y ==> c.closes(z) <= c.opens(z + 1) && c.closes(z + 1) <= c.opens(y);
  }

  /** Testing one year at a time finds whole daylight periods, in either hemisphere. */
  lemma YearTestFindsPeriods(c: Changes, margin: int, y: int, utc: int)
    requires Apart(c, margin) && InYear(c, y, utc)
    ensures OnInYear(c, y, utc) <==> exists z :: c.starts(z) <= utc < EndOfPeriod(c, z)
  {
    if OnInYear(c, y, utc) {
      if c.starts(y) <= utc {
        assert c.starts(y) <= utc < EndOfPeriod(c, y);
      } else {
        assert c.starts(y - 1) <= utc < EndOfPeriod(c, y - 1);
      }
    }
    if z :| c.starts(z) <= utc < EndOfPeriod(c, z) {
      PeriodIsOn(c, margin, y, utc, z);
    }
  }

  /** No period, of daylight saving or of standard time, is as short as the margin. */
  lemma PeriodsOutlastMargin(ch: Changes, margin: int, ya: int, a: int, yb: int, b: int, yc: int, c: int)
    requires Apart(ch, margin) && InYear(ch, ya, a) && InYear(ch, yb, b) && InYear(ch, yc, c)
    requires a < b < c <= a + margin && OnInYear(ch, ya, a) == OnInYear(ch, yc, c)
    ensures OnInYear(ch, yb, b) == OnInYear(ch, ya, a)
  {
    NextYearAtMost(ch, ya, a, yb, b);
    NextYearAtMost(ch, yb, b, yc, c);
  }

  /** If daylight saving comes into force within the margin after `a`, that year's start lies between. */
  lemma StartBetween(ch: Changes, margin: int, ya: int, a: int, yb: int, b: int)
    requires Apart(ch, margin) && InYear(ch, ya, a) && InYear(ch, yb, b)
    requires a < b <= a + margin && !OnInYear(ch, ya, a) && OnInYear(ch, yb, b)
    ensures a < ch.starts(yb) <= b
  {
    NextYearAtMost(ch, ya, a, yb, b);
  }

  /** The same for its end. */
  lemma EndBetween(ch: Changes, margin: int, ya: int, a: int, yb: int, b: int)
    requires Apart(ch, margin) && InYear(ch, ya, a) && InYear(ch, yb, b)
    requires a < b <= a + margin && OnInYear(ch, ya, a) && !OnInYear(ch, yb, b)
    ensures a < ch.ends(yb) <= b
  {
    NextYearAtMost(ch, ya, a, yb, b);
  }

  // ---------------------------------------------------------------------------
  // A zone's changes
  // ---------------------------------------------------------------------------

  /** The instant at which year `y` begins in standard time. */
  function YearBegins(tz: Tz, y: int): int {
    YearStart(y) * DAY - tz.std
  }

  function StandardYear(tz: Tz, utc: int): int {
    CivilFromDays((utc + tz.std) / DAY).year
  }

  ghost function ChangesOf(tz: Tz): Changes
    requires tz.dst.Some?
  {
    Changes(utc => StandardYear(tz, utc), y => YearBegins(tz, y), y => YearBegins(tz, y + 1), y => StartAt(tz, y), y => EndAt(tz, y))
  }

  /** The changes of a zone are apart by twice the shift, which is less than a day either way. */
  ghost predicate WellApart(tz: Tz) {
    tz.dst.Some? ==> -DAY < Shift(tz) < DAY && Apart(ChangesOf(tz), 2 * Size(Shift(tz)))
  }

  function Size(shift: int): nat {
    if shift < 0 then -shift else shift
  }

  /** `OffsetAt` is the year test, in the year of standard time the instant is in. */
  lemma OffsetInYear(tz: Tz, utc: int)
    requires tz.dst.Some?
    ensures OffsetAt(tz, utc) ==
            if OnInYear(ChangesOf(tz), StandardYear(tz, utc), utc) then (tz.dst.value.offset, true) else (tz.std, false)
  {
    var y := StandardYear(tz, utc);
    assert ChangesOf(tz).starts(y) == StartAt(tz, y) && ChangesOf(tz).ends(y) == EndAt(tz, y);
  }

  lemma InStandardYear(tz: Tz, utc: int)
    requires tz.dst.Some?
    ensures InYear(ChangesOf(tz), StandardYear(tz, utc), utc)
  {
    var day, y := (utc + tz.std) / DAY, StandardYear(tz, utc);
    YearOfDay(day, y);
    assert DAY * day <= utc + tz.std < DAY * (day + 1);
    DayToInstant(YearStart(y), day, YearStart(y + 1), utc + tz.std);
  }

  lemma DayToInstant(from: int, day: int, to: int, t: int)
    requires from <= day < to && DAY * day <= t < DAY * (day + 1)
    ensures from * DAY <= t < to * DAY
  {
  }

  lemma ZoneYearsInOrder(tz: Tz)
    requires tz.dst.Some?
    ensures YearsInOrder(ChangesOf(tz))
  {
    var c := ChangesOf(tz);
    forall y, z | y < z ensures c.closes(y) <= c.opens(z) && c.opens(y) + 365 * DAY <= c.opens(z) {
      YearsAreMonotone(y + 1, z);
      YearStartStep(y);
    }
  }

  /** Daylight saving is in force exactly from each start to the following end, in either hemisphere. */
  lemma DaylightPeriods(tz: Tz, utc: int)
    requires tz.dst.Some? && WellApart(tz)
    ensures OffsetAt(tz, utc).1
       <==> exists y :: ChangesOf(tz).starts(y) <= utc < EndOfPeriod(ChangesOf(tz), y)
  {
    var ch, year := ChangesOf(tz), StandardYear(tz, utc);
    InStandardYear(tz, utc);
    YearTestFindsPeriods(ch, 2 * Size(Shift(tz)), year, utc);
    OffsetInYear(tz, utc);
  }

  /** So the reading of an instant is that of daylight saving time exactly then. */
  lemma LocalInDaylight(tz: Tz, ms: nat)
    requires tz.dst.Some? && WellApart(tz)
    ensures LocalAt(tz, ms).dst
       <==> exists y :: ChangesOf(tz).starts(y) <= ms / 1000 < EndOfPeriod(ChangesOf(tz), y)
  {
    DaylightPeriods(tz, ms / 1000);
  }

  // ---------------------------------------------------------------------------
  // What a daily schedule needs of a zone
  // ---------------------------------------------------------------------------

  /** A zone seen only through the offset in force: `std`, or `std + shift` in daylight saving. */
  datatype Clock = Clock(std: int, shift: int, offset: int -> int)

  ghost function ClockOf(tz: Tz): Clock {
    Clock(tz.std, Shift(tz), OffsetClock(tz))
  }

  function Low(c: Clock): int {
    if c.shift < 0 then c.std + c.shift else c.std
  }

  function High(c: Clock): int {
    Low(c) + Size(c.shift)
  }

  /** The smaller offset on both sides, no further apart than the shift, means the smaller offset between. */
  ghost predicate LongPeriods(c: Clock) {
    forall a, b, d :: Enclosed(c, a, b, d) ==> c.offset(b) == Low(c)
  }

  ghost predicate Enclosed(c: Clock, a: int, b: int, d: int) {
    a < b < d <= a + Size(c.shift) && c.offset(a) == Low(c) && c.offset(d) == Low(c)
  }

  predicate WholeMinute(wall: int) {
    wall % 60 == 0
  }

  /** The wall time `utc + c.std` is skipped: neither offset reads it. The code takes `utc` for it. */
  ghost predicate Gap(c: Clock, utc: int) {
    c.shift != 0 && c.offset(utc) == c.std + c.shift && c.offset(utc - c.shift) == c.std
  }

  predicate Between(a: int, t: int, b: int) {
    a < t < b || b < t < a
  }

  /** `t`, in daylight saving, is less than the shift away from an instant taken for a skipped minute, on the side that
      daylight saving is on. When the clock goes back at the start, `t` is the first reading of a whole minute. */
  ghost predicate BesideGap(c: Clock, utc: int, t: int) {
    && Gap(c, utc) && WholeMinute(utc + c.std)
    && Between(utc - c.shift, t, utc) && c.offset(t) == c.std + c.shift
    && (c.shift > 0 || (WholeMinute(t + c.std + c.shift) && c.offset(t + c.shift) == c.std + c.shift))
  }

  /** What the clock reads beside a gap is of the day of the skipped time. */
  ghost predicate GapsInOrder(c: Clock) {
    forall utc, t :: BesideGap(c, utc, t) ==> (t + c.std + c.shift) / DAY == (utc + c.std) / DAY
  }

  ghost predicate Tame(c: Clock) {
    && -DAY <= c.shift <= DAY
    && TwoOffsets(c) && LongPeriods(c) && GapsInOrder(c)
  }

  ghost predicate TwoOffsets(c: Clock) {
    forall utc :: c.offset(utc) == c.std || c.offset(utc) == c.std + c.shift
  }

  ghost predicate Follows(c: Clock, ch: Changes) {
    forall utc ::
      && InYear(ch, ch.year(utc), utc)
      && c.offset(utc) == if OnInYear(ch, ch.year(utc), utc) then c.std + c.shift else c.std
  }

  // ---------------------------------------------------------------------------
  // Changes apart give long periods, and gaps next to one change
  // ---------------------------------------------------------------------------

  lemma ApartHasLongPeriods(c: Clock, ch: Changes)
    requires Apart(ch, 2 * Size(c.shift)) && Follows(c, ch)
    ensures LongPeriods(c)
  {
    forall a, b, d | Enclosed(c, a, b, d) ensures c.offset(b) == Low(c) {
      PeriodsOutlastMargin(ch, 2 * Size(c.shift), ch.year(a), a, ch.year(b), b, ch.year(d), d);
    }
  }

  /** A gap where the clock goes forward at the start lies after exactly that start. */
  lemma StartOfGap(c: Clock, ch: Changes, utc: int, t: int) returns (y: int)
    requires Apart(ch, 2 * Size(c.shift)) && Follows(c, ch) && c.shift > 0 && BesideGap(c, utc, t)
    ensures utc - c.shift < ch.starts(y) <= t
  {
    y := ch.year(utc);
    var margin := 2 * Size(c.shift);
    StartBetween(ch, margin, ch.year(utc - c.shift), utc - c.shift, y, utc);
    StartBetween(ch, margin, ch.year(utc - c.shift), utc - c.shift, ch.year(t), t);
    NextYearAtMost(ch, ch.year(t), t, y, utc);
  }

  /** A gap where the clock goes forward at the end lies before exactly that end. */
  lemma EndOfGap(c: Clock, ch: Changes, utc: int, t: int) returns (y: int)
    requires Apart(ch, 2 * Size(c.shift)) && Follows(c, ch) && c.shift < 0 && BesideGap(c, utc, t)
    ensures t < ch.ends(y) <= utc - c.shift
  {
    y := ch.year(utc - c.shift);
    EndBetween(ch, 2 * Size(c.shift), ch.year(t), t, y, utc - c.shift);
  }

  // ---------------------------------------------------------------------------
  // The condition on the rules
  // ---------------------------------------------------------------------------

  predicate WholeMinutes(tz: Tz) {
    tz.dst.Some? ==>
      WholeMinute(Shift(tz)) && WholeMinute(tz.dst.value.start.time) && WholeMinute(tz.dst.value.end.time)
  }

  /** Going forward by `s` at time of day `g`: a minute of the gap after its first one, moved by `s`, stays on its day. */
  predicate StartInOrder(g: int, s: int) {
    g + 2 * s <= DAY + 60 || (g == DAY - 60 && 2 * s <= DAY + 120)
  }

  /** Going forward by `n` at time of day `h`, with the gap read before the change: a minute before the change, less than `n`
      before one of the gap, is of its day. */
  predicate EndInOrder(h: int, n: int) {
    n <= h + 60 && h + n <= DAY + 60
  }

  predicate ChangesInOrder(tz: Tz) {
    tz.dst.Some? ==>
      && (Shift(tz) > 0 ==> StartInOrder(tz.dst.value.start.time % DAY, Shift(tz)))
      && (Shift(tz) < 0 ==> EndInOrder(tz.dst.value.end.time % DAY, -Shift(tz)))
  }

  /** A minute of the gap after its first. */
  lemma MinuteAfterStart(start: int, wall: int, s: int)
    requires WholeMinute(start) && WholeMinute(wall) && WholeMinute(s) && 0 < s < DAY
    requires start < wall < start + s && StartInOrder(start % DAY, s)
    ensures wall % DAY + s <= DAY
  {
    DaySplits(start);
    MinutesAdd(start, s);
    MinutesApart(start, wall);
    MinutesApart(wall, start + s);
    LaterOnDay(start / DAY, start % DAY, wall - start, s, wall);
  }

  lemma DaySplits(x: int)
    ensures x == x / DAY * DAY + x % DAY && 0 <= x % DAY < DAY
  {
  }

  lemma MinutesAdd(a: int, b: int)
    requires WholeMinute(a) && WholeMinute(b)
    ensures WholeMinute(a + b)
  {
  }

  lemma LaterOnDay(day: int, g: int, later: int, s: int, wall: int)
    requires wall == day * DAY + g + later && 0 <= g < DAY && 60 <= later <= s - 60 && s < DAY && StartInOrder(g, s)
    ensures wall % DAY + s <= DAY
  {
    if g == DAY - 60 {
      Arith.DivUnique(wall, day + 1, DAY, later - 60);
    } else {
      Arith.DivUnique(wall, day, DAY, g + later);
    }
  }

  lemma MinutesApart(a: int, b: int)
    requires WholeMinute(a) && WholeMinute(b) && a < b
    ensures a + 60 <= b
  {
  }

  /** The same condition on when the clock is changed. */
  ghost predicate KeepsOrder(c: Clock, ch: Changes) {
    && -DAY < c.shift < DAY && WholeMinute(c.shift)
    && (c.shift > 0 ==> forall y :: StartKept(ch.starts(y) + c.std, c.shift))
    && (c.shift < 0 ==> forall y :: EndKept(ch.ends(y) + c.std + c.shift, -c.shift))
  }

  predicate StartKept(reading: int, s: int) {
    WholeMinute(reading) && StartInOrder(reading % DAY, s)
  }

  predicate EndKept(reading: int, n: int) {
    WholeMinute(reading) && EndInOrder(reading % DAY, n)
  }

  lemma StartKeepsDay(start: int, wall: int, s: int, reading: int)
    requires StartKept(start, s) && WholeMinute(wall) && WholeMinute(s) && 0 < s < DAY && start < wall < start + s
    requires wall < reading < wall + s
    ensures reading / DAY == wall / DAY
  {
    MinuteAfterStart(start, wall, s);
    assert wall == DAY * (wall / DAY) + wall % DAY;
  }

  lemma EndKeepsDay(end: int, wall: int, n: int, reading: int)
    requires EndKept(end, n) && WholeMinute(wall) && WholeMinute(n) && WholeMinute(reading) && 0 < n < DAY
    requires end <= wall < end + n
    requires wall - n < reading < end
    ensures reading / DAY == wall / DAY
  {
    var h := end % DAY;
    assert reading >= wall - n + 60 && end == DAY * (end / DAY) + h;
    assert wall == DAY * (wall / DAY) + wall % DAY;
  }

  lemma BesideStart(c: Clock, ch: Changes, utc: int, t: int)
    requires Apart(ch, 2 * Size(c.shift)) && Follows(c, ch) && KeepsOrder(c, ch) && c.shift > 0 && BesideGap(c, utc, t)
    ensures (t + c.std + c.shift) / DAY == (utc + c.std) / DAY
  {
    var y := StartOfGap(c, ch, utc, t);
    var start := ch.starts(y) + c.std;
    StartKeepsDay(start, utc + c.std, c.shift, t + c.std + c.shift);
  }

  lemma BesideEnd(c: Clock, ch: Changes, utc: int, t: int)
    requires Apart(ch, 2 * Size(c.shift)) && Follows(c, ch) && KeepsOrder(c, ch) && c.shift < 0 && BesideGap(c, utc, t)
    ensures (t + c.std + c.shift) / DAY == (utc + c.std) / DAY
  {
    var y := EndOfGap(c, ch, utc, t);
    BeforeKeptEnd(c, utc, t, ch.ends(y));
  }

  lemma BeforeKeptEnd(c: Clock, utc: int, t: int, end: int)
    requires -DAY < c.shift < 0 && WholeMinute(c.shift) && BesideGap(c, utc, t)
    requires EndKept(end + c.std + c.shift, -c.shift) && t < end <= utc - c.shift
    ensures (t + c.std + c.shift) / DAY == (utc + c.std) / DAY
  {
    EndKeepsDay(end + c.std + c.shift, utc + c.std, -c.shift, t + c.std + c.shift);
  }

  lemma ApartHasGapsInOrder(c: Clock, ch: Changes)
    requires Apart(ch, 2 * Size(c.shift)) && Follows(c, ch) && KeepsOrder(c, ch)
    ensures GapsInOrder(c)
  {
    forall utc, t | BesideGap(c, utc, t) ensures (t + c.std + c.shift) / DAY == (utc + c.std) / DAY {
      if c.shift > 0 { BesideStart(c, ch, utc, t); } else { BesideEnd(c, ch, utc, t); }
    }
  }

  // ---------------------------------------------------------------------------
  // Zones with well-separated changes
  // ---------------------------------------------------------------------------

  lemma ZoneFollows(tz: Tz)
    requires tz.dst.Some?
    ensures Follows(ClockOf(tz), ChangesOf(tz))
  {
    var c, ch := ClockOf(tz), ChangesOf(tz);
    forall utc
      ensures InYear(ch, ch.year(utc), utc)
      ensures c.offset(utc) == if OnInYear(ch, ch.year(utc), utc) then c.std + c.shift else c.std
    {
      OffsetInYear(tz, utc);
      InStandardYear(tz, utc);
    }
  }

  lemma ZoneHasTwoOffsets(tz: Tz)
    ensures TwoOffsets(ClockOf(tz))
  {
    var c := ClockOf(tz);
    forall utc ensures c.offset(utc) == c.std || c.offset(utc) == c.std + c.shift {
      OffsetIsStandardOrDaylight(tz, utc);
    }
  }

  lemma TimeOnDate(date: int, time: int)
    ensures (date * DAY + time) % DAY == time % DAY && (WholeMinute(time) ==> WholeMinute(date * DAY + time))
  {
    assert time == time / DAY * DAY + time % DAY;
    Arith.DivUnique(date * DAY + time, date + time / DAY, DAY, time % DAY);
    if WholeMinute(time) {
      assert time == time / 60 * 60;
      Arith.DivUnique(date * DAY + time, 1440 * date + time / 60, 60, 0);
    }
  }

  /** Changes at one time of day of their dates, as the clock they end reads it. */
  lemma StartsKept(starts: int -> int, std: int, date: int -> int, time: int, s: int)
    requires WholeMinute(time) && StartInOrder(time % DAY, s) && forall y :: starts(y) + std == date(y) * DAY + time
    ensures forall y :: StartKept(starts(y) + std, s)
  {
    forall y ensures StartKept(starts(y) + std, s) { TimeOnDate(date(y), time); }
  }

  lemma EndsKept(ends: int -> int, std: int, shift: int, date: int -> int, time: int, n: int)
    requires WholeMinute(time) && EndInOrder(time % DAY, n) && forall y :: ends(y) + std + shift == date(y) * DAY + time
    ensures forall y :: EndKept(ends(y) + std + shift, n)
  {
    forall y ensures EndKept(ends(y) + std + shift, n) { TimeOnDate(date(y), time); }
  }

  lemma StartOnDate(tz: Tz, y: int)
    requires tz.dst.Some?
    ensures ChangesOf(tz).starts(y) + tz.std == RuleDate(tz.dst.value.start, y) * DAY + tz.dst.value.start.time
  {
  }

  lemma EndOnDate(tz: Tz, y: int)
    requires tz.dst.Some?
    ensures ChangesOf(tz).ends(y) + tz.std + Shift(tz) == RuleDate(tz.dst.value.end, y) * DAY + tz.dst.value.end.time
  {
  }

  lemma ZoneStartsKept(tz: Tz)
    requires tz.dst.Some? && Shift(tz) > 0 && WholeMinutes(tz) && ChangesInOrder(tz)
    ensures var ch := ChangesOf(tz); forall y :: StartKept(ch.starts(y) + tz.std, Shift(tz))
  {
    var start := tz.dst.value.start;
    forall y { StartOnDate(tz, y); }
    StartsKept(ChangesOf(tz).starts, tz.std, y => RuleDate(start, y), start.time, Shift(tz));
  }

  lemma ZoneEndsKept(tz: Tz)
    requires tz.dst.Some? && Shift(tz) < 0 && WholeMinutes(tz) && ChangesInOrder(tz)
    ensures var ch := ChangesOf(tz); forall y :: EndKept(ch.ends(y) + tz.std + Shift(tz), -Shift(tz))
  {
    var end := tz.dst.value.end;
    forall y { EndOnDate(tz, y); }
    EndsKept(ChangesOf(tz).ends, tz.std, Shift(tz), y => RuleDate(end, y), end.time, -Shift(tz));
  }

  lemma ZoneKeepsOrder(tz: Tz)
    requires tz.dst.Some? && -DAY < Shift(tz) < DAY && WholeMinutes(tz) && ChangesInOrder(tz)
    ensures KeepsOrder(ClockOf(tz), ChangesOf(tz))
  {
    if Shift(tz) > 0 { ZoneStartsKept(tz); }
    if Shift(tz) < 0 { ZoneEndsKept(tz); }
  }

  /** What daily schedules need of a zone whose changes are apart. */
  lemma WellApartIsTame(tz: Tz)
    requires WellApart(tz) && WholeMinutes(tz) && ChangesInOrder(tz)
    ensures Tame(ClockOf(tz))
  {
    var c := ClockOf(tz);
    ZoneHasTwoOffsets(tz);
    if tz.dst.Some? {
      ZoneFollows(tz);
      ZoneKeepsOrder(tz);
      ApartHasLongPeriods(c, ChangesOf(tz));
      ApartHasGapsInOrder(c, ChangesOf(tz));
    }
  }

  // ---------------------------------------------------------------------------
  // Zones with changes in separate months, and the zones the admin can pick
  // ---------------------------------------------------------------------------

  const WEEK: int := 7 * DAY

  predicate WithinDays(time: int) {
    -WEEK <= time <= WEEK
  }

  /** The changes are in months 2 to 11, two or more months apart, at times within a week of their dates, and move the clock
      by less than a day. */
  predicate Suitable(tz: Tz) {
    tz.dst.Some? ==>
      && ValidTz(tz) && -DAY < Shift(tz) < DAY
      && WithinDays(tz.dst.value.start.time) && WithinDays(tz.dst.value.end.time)
      && 2 <= tz.dst.value.start.month <= 11 && 2 <= tz.dst.value.end.month <= 11
      && (tz.dst.value.start.month + 2 <= tz.dst.value.end.month
          || tz.dst.value.end.month + 2 <= tz.dst.value.start.month)
  }

  lemma RuleDateInMonth(r: Rule, y: int)
    requires ValidRule(r)
    ensures YearStart(y) + MonthStart(y, r.month) <= RuleDate(r, y)
            < YearStart(y) + MonthStart(y, r.month) + MonthLength(y, r.month)
  {
    var day := RuleDay(r, y);
  }

  lemma SuitableChange(r: Rule, y: int)
    requires ValidRule(r) && 2 <= r.month <= 11
    ensures YearStart(y) + 31 <= RuleDate(r, y) < YearStart(y + 1) - 31
  {
    RuleDateInMonth(r, y);
    MonthsAreOrdered(y, 1, r.month);
    MonthsAreOrdered(y, r.month, 12);
    MonthsAreOrdered(y, 12, 13);
    YearStartStep(y);
  }

  lemma MonthsApart(a: Rule, b: Rule, y: int)
    requires ValidRule(a) && ValidRule(b) && a.month + 2 <= b.month
    ensures RuleDate(a, y) + 28 < RuleDate(b, y)
  {
    RuleDateInMonth(a, y);
    RuleDateInMonth(b, y);
    MonthsAreOrdered(y, a.month, a.month + 1);
    MonthsAreOrdered(y, a.month + 1, b.month);
    assert MonthLength(y, a.month + 1) >= 28;
  }

  lemma SuitableYear(tz: Tz, y: int, margin: int)
    requires Suitable(tz) && tz.dst.Some? && 0 <= margin <= 2 * DAY
    ensures YearBegins(tz, y) + margin <= StartAt(tz, y) <= YearBegins(tz, y + 1) - margin
    ensures YearBegins(tz, y) + margin <= EndAt(tz, y) <= YearBegins(tz, y + 1) - margin
    ensures if tz.dst.value.start.month < tz.dst.value.end.month
            then StartAt(tz, y) + margin < EndAt(tz, y) else EndAt(tz, y) + margin < StartAt(tz, y)
  {
    var start, end := tz.dst.value.start, tz.dst.value.end;
    SuitableChange(start, y);
    SuitableChange(end, y);
    if start.month < end.month { MonthsApart(start, end, y); } else { MonthsApart(end, start, y); }
  }

  lemma SuitableIsWellApart(tz: Tz)
    requires Suitable(tz)
    ensures WellApart(tz)
  {
    if tz.dst.Some? {
      var margin := 2 * Size(Shift(tz));
      ZoneYearsInOrder(tz);
      forall y
        ensures YearBegins(tz, y) + margin <= StartAt(tz, y) <= YearBegins(tz, y + 1) - margin
        ensures YearBegins(tz, y) + margin <= EndAt(tz, y) <= YearBegins(tz, y + 1) - margin
        ensures if tz.dst.value.start.month < tz.dst.value.end.month
                then StartAt(tz, y) + margin < EndAt(tz, y) else EndAt(tz, y) + margin < StartAt(tz, y)
      {
        SuitableYear(tz, y, margin);
      }
    }
  }

  lemma SuitableIsTame(tz: Tz)
    requires Suitable(tz) && WholeMinutes(tz) && ChangesInOrder(tz)
    ensures Tame(ClockOf(tz))
  {
    SuitableIsWellApart(tz);
    WellApartIsTame(tz);
  }

  function AmericanZone(hours: int): Tz {
    Tz(-hours * 3600, Some(Dst(-hours * 3600 + 3600, Rule(3, 2, 0, 7200), Rule(11, 1, 0, 7200))))
  }

  /** The zones bot settings offer, in the order of the source's table. */
  const ZONES: seq<Tz> := [
    AmericanZone(5), AmericanZone(6), AmericanZone(7), Tz(-7 * 3600, None), AmericanZone(8), AmericanZone(9),
    Tz(-10 * 3600, None), Tz(0, None),
    Tz(0, Some(Dst(3600, Rule(3, 5, 0, 3600), Rule(10, 5, 0, 7200)))),
    Tz(3600, Some(Dst(7200, Rule(3, 5, 0, 7200), Rule(10, 5, 0, 3 * 3600)))),
    Tz(7200, Some(Dst(10800, Rule(3, 5, 0, 3 * 3600), Rule(10, 5, 0, 4 * 3600)))),
    Tz(19800, None), Tz(9 * 3600, None),
    Tz(36000, Some(Dst(39600, Rule(10, 1, 0, 7200), Rule(4, 1, 0, 3 * 3600))))
  ]

  lemma ZonesAreTame(i: nat)
    requires i < |ZONES|
    ensures Tame(ClockOf(ZONES[i]))
  {
    SuitableIsTame(ZONES[i]);
  }
}
