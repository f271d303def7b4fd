// Exactly which zones let a daily schedule find its next slot (mastomini_bots/src/schedule.rs, mastomini_bots/src/tz.rs):
// a clock change that moves a skipped minute past midnight makes `NextAfter` jump over a slot.
module SlotOrder {
  import opened Arith
  import opened Calendar
  import opened LocalTime
  import opened Options
  import opened Zones
  import opened Schedules

  /** Beside a skipped minute the clock reads another day than that minute's. */
  ghost predicate Misplaced(c: Clock, utc: int, t: int) {
    BesideGap(c, utc, t) && 0 < utc && 0 <= t && (t + c.std + c.shift) / DAY != (utc + c.std) / DAY
  }

  function TimeOf(wall: int): Time {
    Time(wall % DAY / 3600, wall % 3600 / 60)
  }

  lemma TimeOfWall(wall: int)
    requires WholeMinute(wall)
    ensures RealTime(TimeOf(wall)) && DAY * (wall / DAY) + SecondOfDay(TimeOf(wall)) == wall
  {
    var secs := wall % DAY;
    assert wall == DAY * (wall / DAY) + secs;
    assert secs == 3600 * (secs / 3600) + secs % 3600 && wall % 3600 == secs % 3600;
    assert secs % 3600 == 60 * (secs % 3600 / 60) + secs % 3600 % 60 && secs % 3600 % 60 == secs % 60;
  }

  // ---------------------------------------------------------------------------
  // What the two minutes resolve to
  // ---------------------------------------------------------------------------

  lemma SkippedResolves(c: Clock, utc: int, got: int)
    requires TwoOffsets(c) && Gap(c, utc) && Resolves(c, utc + c.std, got)
    ensures got == utc
  {
    assert c.offset(got) == c.std || c.offset(got) == c.std + c.shift;
  }

  /** The first reading of a time that daylight saving shows later than standard time would. */
  lemma LowReadingResolves(c: Clock, t: int, wall: int, got: int)
    requires TwoOffsets(c) && Resolves(c, wall, got) && wall == t + c.std + c.shift
    requires c.shift < 0 && c.offset(t) == c.std + c.shift && c.offset(t + c.shift) == c.std + c.shift
    ensures got == t
  {
    assert c.offset(got) == c.std || c.offset(got) == c.std + c.shift;
  }

  lemma SlotOfWall(tz: Tz, wall: int) returns (got: int)
    requires WholeMinute(wall)
    ensures Resolves(ClockOf(tz), wall, got) && DaySlot(tz, wall / DAY, TimeOf(wall)) == Millis(got)
  {
    TimeOfWall(wall);
    got := DaySlotResolves(tz, wall / DAY, TimeOf(wall));
  }

  lemma SlotOfSkipped(tz: Tz, utc: int, wall: int)
    requires wall == utc + tz.std && WholeMinute(wall) && Gap(ClockOf(tz), utc) && 0 <= utc
    ensures DaySlot(tz, wall / DAY, TimeOf(wall)) == utc * 1000
  {
    ZoneHasTwoOffsets(tz);
    var got := SlotOfWall(tz, wall);
    SkippedResolves(ClockOf(tz), utc, got);
  }

  lemma SlotOfLowReading(tz: Tz, c: Clock, t: int, wall: int)
    requires c == ClockOf(tz) && wall == t + c.std + c.shift && WholeMinute(wall) && 0 <= t
    requires c.shift < 0 && c.offset(t) == c.std + c.shift && c.offset(t + c.shift) == c.std + c.shift
    ensures DaySlot(tz, wall / DAY, TimeOf(wall)) == t * 1000
  {
    ZoneHasTwoOffsets(tz);
    var got := SlotOfWall(tz, wall);
    LowReadingResolves(c, t, wall, got);
  }

  /** A time of day on other days stays between the offsets of that day's. */
  lemma SlotElsewhere(tz: Tz, day: int, wall: int)
    requires WholeMinute(wall)
    ensures var at := DAY * day + wall % DAY;
            Millis(at - High(ClockOf(tz))) <= DaySlot(tz, day, TimeOf(wall)) <= Millis(at - Low(ClockOf(tz)))
  {
    TimeOfWall(wall);
    ZoneHasTwoOffsets(tz);
    var got := DaySlotResolves(tz, day, TimeOf(wall));
  }

  // ---------------------------------------------------------------------------
  // A minute out of order makes the search skip a slot
  // ---------------------------------------------------------------------------

  /** Searching from a day all of whose later slots come after `slot` never finds `slot`. */
  lemma FoundAfter(slotsOn: int -> seq<nat>, today: int, after: nat, slot: nat)
    requires forall d, other :: today <= d && other in slotsOn(d) ==> other > slot
    ensures var found := FindDay(slotsOn, today, 0, after); found.Some? ==> found.value > slot
  {
    FoundOnFirstDay(slotsOn, today, 0, after);
    var found := FindDay(slotsOn, today, 0, after);
    if found.Some? {
      var day :| today <= day < today + 3 && found == EarliestAfter(slotsOn(day), after);
      EarliestIsLeast(slotsOn(day), after);
    }
  }

  lemma NotLeast(s: Schedule, after: nat, slot: nat)
    requires IsSlot(s, slot) && slot > after && (NextAfter(s, after).Some? ==> NextAfter(s, after).value > slot)
    ensures !FindsLeast(s, after)
  {
  }

  lemma OnlySlot(tz: Tz, time: Time, day: int)
    ensures DaySlots(tz, [time])(day) == [DaySlot(tz, day, time)]
  {
  }

  lemma BothSlots(tz: Tz, a: Time, b: Time, day: int)
    ensures DaySlots(tz, [a, b])(day) == [DaySlot(tz, day, a), DaySlot(tz, day, b)]
  {
  }

  lemma LaterDaysAfter(tz: Tz, utc: int, wall: int, today: int)
    requires wall == utc + tz.std && WholeMinute(wall) && 0 < Shift(tz) < DAY && 0 < utc && wall / DAY < today
    ensures forall d, other :: today <= d && other in DaySlots(tz, [TimeOf(wall)])(d) ==> other > utc * 1000
  {
    forall d, other | today <= d && other in DaySlots(tz, [TimeOf(wall)])(d) ensures other > utc * 1000 {
      OnlySlot(tz, TimeOf(wall), d);
      SlotElsewhere(tz, d, wall);
      DayLater(wall, d);
    }
  }

  lemma DayLater(wall: int, d: int)
    requires wall / DAY < d
    ensures DAY * d + wall % DAY >= wall + DAY
  {
  }

  lemma DayBefore(wall: int, d: int)
    requires d < wall / DAY
    ensures DAY * d + wall % DAY <= wall - DAY
  {
  }

  lemma TodayAt(tz: Tz, t: nat)
    ensures Today(tz, t * 1000) == (t + ClockOf(tz).offset(t)) / DAY
  {
    assert t * 1000 / 1000 == t;
  }

  lemma MisplacedStart(c: Clock, utc: int, t: int, wall: int)
    requires 0 < c.shift < DAY && Misplaced(c, utc, t) && wall == utc + c.std
    ensures WholeMinute(wall) && Gap(c, utc) && 0 <= t < utc && wall / DAY < (t + c.offset(t)) / DAY
  {
    var reading := t + c.std + c.shift;
    assert wall == DAY * (wall / DAY) + wall % DAY && reading == DAY * (reading / DAY) + reading % DAY;
  }

  /** The clock goes forward at the start: at `t`, already on the next day, the skipped minute's slot is to come, and the
      search begins after its day. */
  lemma StartSkipsSlot(tz: Tz, utc: int, t: int, wall: int)
    requires 0 < Shift(tz) < DAY && Misplaced(ClockOf(tz), utc, t) && wall == utc + tz.std
    ensures !FindsLeast(Daily([TimeOf(wall)], tz), t * 1000)
  {
    MisplacedStart(ClockOf(tz), utc, t, wall);
    TodayAt(tz, t);
    SlotOfSkipped(tz, utc, wall);
    StartJumps(tz, [TimeOf(wall)], utc, t * 1000, wall, Today(tz, t * 1000));
  }

  lemma StartJumps(tz: Tz, times: seq<Time>, utc: int, after: nat, wall: int, today: int)
    requires wall == utc + tz.std && WholeMinute(wall) && 0 < Shift(tz) < DAY && 0 < utc && after < utc * 1000
    requires times == [TimeOf(wall)] && wall / DAY < today == Today(tz, after)
    requires DaySlot(tz, wall / DAY, TimeOf(wall)) == utc * 1000
    ensures !FindsLeast(Daily(times, tz), after)
  {
    OnlySlot(tz, TimeOf(wall), wall / DAY);
    assert utc * 1000 in DaySlots(tz, times)(wall / DAY);
    LaterDaysAfter(tz, utc, wall, today);
    FoundAfter(DaySlots(tz, times), today, after, utc * 1000);
    SearchStartsToday(tz, times, after);
    NotLeast(Daily(times, tz), after, utc * 1000);
  }

  lemma MisplacedEnd(c: Clock, utc: int, t: int, wall: int, reading: int)
    requires -DAY < c.shift < 0 && Misplaced(c, utc, t) && wall == utc + c.std && reading == t + c.std + c.shift
    ensures WholeMinute(wall) && WholeMinute(reading) && Gap(c, utc) && 0 < utc < t
    ensures c.offset(t) == c.std + c.shift && c.offset(t + c.shift) == c.std + c.shift
    ensures wall + c.shift < reading && reading / DAY == wall / DAY - 1 == (wall + c.shift - 1) / DAY
  {
    assert wall == DAY * (wall / DAY) + wall % DAY && reading == DAY * (reading / DAY) + reading % DAY;
    DivUnique(wall + c.shift - 1, wall / DAY - 1, DAY, wall + c.shift - 1 - DAY * (wall / DAY - 1));
  }

  lemma OffsetBeforeGap(c: Clock, utc: int, t: int)
    requires LongPeriods(c) && -DAY < c.shift < 0 && BesideGap(c, utc, t)
    ensures c.offset(utc - 1) == c.std + c.shift
  {
    assert utc - 1 == t + c.shift || Enclosed(c, t + c.shift, utc - 1, utc);
  }

  lemma FoundFirst(slotsOn: int -> seq<nat>, today: int, after: nat, passed: nat, found: nat)
    requires slotsOn(today) == [passed, found] && passed <= after < found
    ensures FindDay(slotsOn, today, 0, after) == Some(found)
  {
    EarliestIsLeast(slotsOn(today), after);
    assert slotsOn(today + 0) == slotsOn(today) && found in slotsOn(today);
  }

  lemma DayBeforeGap(c: Clock, utc: int, t: int, wall: int, before: int)
    requires -DAY < c.shift < 0 && LongPeriods(c) && Misplaced(c, utc, t)
    requires wall == utc + c.std && before == utc - 1
    ensures (before + c.offset(before)) / DAY == wall / DAY - 1
  {
    MisplacedEnd(c, utc, t, wall, t + c.std + c.shift);
    OffsetBeforeGap(c, utc, t);
  }

  /** Just before the skipped minute's slot it is still the day before, whose second time comes after that slot. */
  ghost predicate Jumps(tz: Tz, utc: int, t: int, wall: int, reading: int, before: nat, today: int) {
    && before < utc < t && today == Today(tz, before * 1000)
    && DaySlot(tz, wall / DAY, TimeOf(wall)) == utc * 1000 && DaySlot(tz, today, TimeOf(reading)) == t * 1000
    && DaySlot(tz, today, TimeOf(wall)) <= before * 1000
  }

  lemma SlotDayBefore(tz: Tz, utc: int, wall: int, before: nat, today: int)
    requires -DAY < Shift(tz) < 0 && wall == utc + tz.std && WholeMinute(wall)
    requires before == utc - 1 && today == wall / DAY - 1
    ensures DaySlot(tz, today, TimeOf(wall)) <= before * 1000
  {
    SlotElsewhere(tz, today, wall);
    DayBefore(wall, today);
  }

  lemma EndToday(tz: Tz, utc: int, t: int, wall: int, before: nat, today: int)
    requires -DAY < Shift(tz) < 0 && LongPeriods(ClockOf(tz)) && Misplaced(ClockOf(tz), utc, t)
    requires wall == utc + tz.std && before == utc - 1 && today == wall / DAY - 1
    ensures Today(tz, before * 1000) == today
  {
    DayBeforeGap(ClockOf(tz), utc, t, wall, before);
    TodayAt(tz, before);
  }

  lemma EndSlots(tz: Tz, utc: int, t: int, wall: int, reading: int)
    requires -DAY < Shift(tz) < 0 && Misplaced(ClockOf(tz), utc, t)
    requires wall == utc + tz.std && reading == t + tz.std + Shift(tz)
    ensures WholeMinute(wall) && reading / DAY == wall / DAY - 1 && 0 < utc < t
    ensures DaySlot(tz, wall / DAY, TimeOf(wall)) == utc * 1000 && DaySlot(tz, reading / DAY, TimeOf(reading)) == t * 1000
  {
    var c := ClockOf(tz);
    MisplacedEnd(c, utc, t, wall, reading);
    SlotOfSkipped(tz, utc, wall);
    SlotOfLowReading(tz, c, t, reading);
  }

  lemma EndMeets(tz: Tz, utc: int, t: int, wall: int, reading: int, before: nat, today: int)
    requires -DAY < Shift(tz) < 0 && LongPeriods(ClockOf(tz)) && Misplaced(ClockOf(tz), utc, t)
    requires wall == utc + tz.std && reading == t + tz.std + Shift(tz) && before == utc - 1 && today == wall / DAY - 1
    ensures Jumps(tz, utc, t, wall, reading, before, today)
  {
    EndSlots(tz, utc, t, wall, reading);
    EndToday(tz, utc, t, wall, before, today);
    SlotDayBefore(tz, utc, wall, before, today);
  }

  /** The clock goes forward at the end: just before the skipped minute's slot, the search still finds a slot of the day
      before, although it comes after. */
  lemma EndSkipsSlot(tz: Tz, utc: int, t: int, wall: int, reading: int, before: nat, today: int)
    requires -DAY < Shift(tz) < 0 && LongPeriods(ClockOf(tz)) && Misplaced(ClockOf(tz), utc, t)
    requires wall == utc + tz.std && reading == t + tz.std + Shift(tz) && before == utc - 1 && today == wall / DAY - 1
    ensures !FindsLeast(Daily([TimeOf(wall), TimeOf(reading)], tz), before * 1000)
  {
    EndMeets(tz, utc, t, wall, reading, before, today);
    EndJumps(tz, utc, t, wall, reading, before, today);
  }

  lemma EndJumps(tz: Tz, utc: int, t: int, wall: int, reading: int, before: nat, today: int)
    requires Jumps(tz, utc, t, wall, reading, before, today)
    ensures !FindsLeast(Daily([TimeOf(wall), TimeOf(reading)], tz), before * 1000)
  {
    var times, after := [TimeOf(wall), TimeOf(reading)], before * 1000;
    BothSlots(tz, TimeOf(wall), TimeOf(reading), today);
    BothSlots(tz, TimeOf(wall), TimeOf(reading), wall / DAY);
    assert utc * 1000 in DaySlots(tz, times)(wall / DAY);
    FoundFirst(DaySlots(tz, times), today, after, DaySlot(tz, today, TimeOf(wall)), t * 1000);
    SearchStartsToday(tz, times, after);
    NotLeast(Daily(times, tz), after, utc * 1000);
  }

  // ---------------------------------------------------------------------------
  // Which changes misplace a minute
  // ---------------------------------------------------------------------------

  /** Up to the margin before a year's start standard time is in force, and up to the margin after it daylight saving. */
  lemma AroundStart(c: Clock, ch: Changes, y: int, t: int)
    requires Apart(ch, 2 * Size(c.shift)) && Follows(c, ch)
    requires ch.starts(y) - 2 * Size(c.shift) <= t < ch.starts(y) + 2 * Size(c.shift)
    ensures c.offset(t) == if t < ch.starts(y) then c.std else c.std + c.shift
  {
    SameYear(ch, y, ch.year(t), t);
  }

  lemma AroundEnd(c: Clock, ch: Changes, y: int, t: int)
    requires Apart(ch, 2 * Size(c.shift)) && Follows(c, ch)
    requires ch.ends(y) - 2 * Size(c.shift) <= t < ch.ends(y) + 2 * Size(c.shift)
    ensures c.offset(t) == if t < ch.ends(y) then c.std + c.shift else c.std
  {
    SameYear(ch, y, ch.year(t), t);
  }

  lemma SameYear(ch: Changes, y: int, z: int, t: int)
    requires YearsInOrder(ch) && InYear(ch, y, t) && InYear(ch, z, t)
    ensures y == z
  {
    assert y < z ==> ch.closes(y) <= ch.opens(z);
    assert z < y ==> ch.closes(z) <= ch.opens(y);
  }

  /** How long after the start the misplaced minute is. */
  function AfterStart(g: int, s: int): int {
    if g + s > DAY && g != DAY - 60 then DAY - 60 - g else s - 60
  }

  lemma StartMisplaces(start: int, s: int) returns (wall: int)
    requires WholeMinute(start) && WholeMinute(s) && 0 < s < DAY && !StartInOrder(start % DAY, s)
    ensures wall == start + AfterStart(start % DAY, s) && WholeMinute(wall) && start < wall < start + s
    ensures (wall - 1 + s) / DAY != wall / DAY
  {
    var g := start % DAY;
    var later := AfterStart(g, s);
    DaySplits(start);
    wall := start + later;
    MinutesIn(start, s);
    LateOnDay(start / DAY, g, later, s, wall);
  }

  lemma MinutesIn(start: int, s: int)
    requires WholeMinute(start) && WholeMinute(s)
    ensures WholeMinute(start % DAY) && WholeMinute(start + s - 60) && WholeMinute(start + (DAY - 60 - start % DAY))
  {
    assert start == 60 * (start / 60) && s == 60 * (s / 60);
    assert start % DAY == 60 * (start / 60 - 1440 * (start / DAY));
  }

  lemma LateOnDay(day: int, g: int, later: int, s: int, wall: int)
    requires WholeMinute(g) && WholeMinute(s) && 0 <= g < DAY && 0 < s < DAY && !StartInOrder(g, s)
    requires later == AfterStart(g, s) && wall == day * DAY + g + later
    ensures 0 < later < s && (wall - 1 + s) / DAY != wall / DAY
  {
    if g == DAY - 60 {
      DivUnique(wall, day + 1, DAY, s - 120);
    } else {
      DivUnique(wall, day, DAY, g + later);
    }
  }

  lemma LateStart(c: Clock, ch: Changes, y: int) returns (utc: int, t: int)
    requires Apart(ch, 2 * Size(c.shift)) && Follows(c, ch) && 0 < c.shift < DAY && WholeMinute(c.shift)
    requires WholeMinute(ch.starts(y) + c.std) && !StartInOrder((ch.starts(y) + c.std) % DAY, c.shift) && 0 <= ch.starts(y)
    ensures Misplaced(c, utc, t)
  {
    var wall := StartMisplaces(ch.starts(y) + c.std, c.shift);
    utc := wall - c.std;
    t := utc - 1;
    AroundStart(c, ch, y, utc);
    AroundStart(c, ch, y, t);
    AroundStart(c, ch, y, utc - c.shift);
  }

  /** The skipped minute: at the change, or the next midnight. */
  function SkippedMinute(end: int, n: int): int {
    if end % DAY + 60 < n then end else end - end % DAY + DAY
  }

  /** The minute before the change, on the day before: the last one of that day, or the last one before the change. */
  function MinuteBefore(end: int, n: int): int {
    if end % DAY + 60 < n then end - end % DAY - 60 else end - 60
  }

  lemma EndMisplaces(end: int, n: int) returns (wall: int, reading: int)
    requires WholeMinute(end) && WholeMinute(n) && 0 < n < DAY && !EndInOrder(end % DAY, n)
    ensures WholeMinute(wall) && WholeMinute(reading) && end <= wall < end + n && wall - n < reading < end
    ensures reading / DAY != wall / DAY
  {
    wall, reading := SkippedMinute(end, n), MinuteBefore(end, n);
    MinutesIn(end, n);
    EarlyOnDay(end, end % DAY, n, wall, reading);
    DaySplits(end);
    var midnight := if end % DAY + 60 < n then end / DAY else end / DAY + 1;
    AtMidnight(midnight, midnight * DAY, wall, reading);
  }

  lemma EarlyOnDay(end: int, h: int, n: int, wall: int, reading: int)
    requires WholeMinute(h) && WholeMinute(n) && WholeMinute(end) && 0 <= h < DAY && 0 < n < DAY && !EndInOrder(h, n)
    requires wall == if h + 60 < n then end else end - h + DAY
    requires reading == if h + 60 < n then end - h - 60 else end - 60
    ensures WholeMinute(wall) && WholeMinute(reading) && end <= wall < end + n && wall - n < reading < end
    ensures if h + 60 < n then reading < end - h <= wall else reading < end - h + DAY <= wall
  {
  }

  lemma AtMidnight(day: int, midnight: int, wall: int, reading: int)
    requires midnight == day * DAY && reading < midnight <= wall
    ensures reading / DAY < day <= wall / DAY
  {
  }

  lemma OffsetsAtEnd(c: Clock, ch: Changes, y: int, utc: int, t: int)
    requires Apart(ch, 2 * Size(c.shift)) && Follows(c, ch) && c.shift < 0
    requires ch.ends(y) + c.shift <= utc < t < ch.ends(y) && t < utc - c.shift
    ensures c.offset(utc) == c.std + c.shift && c.offset(utc - c.shift) == c.std
    ensures c.offset(t) == c.std + c.shift && c.offset(t + c.shift) == c.std + c.shift
  {
    AroundEnd(c, ch, y, utc);
    AroundEnd(c, ch, y, utc - c.shift);
    AroundEnd(c, ch, y, t);
    AroundEnd(c, ch, y, t + c.shift);
  }

  lemma EarlyEnd(c: Clock, ch: Changes, y: int) returns (utc: int, t: int)
    requires Apart(ch, 2 * Size(c.shift)) && Follows(c, ch) && -DAY < c.shift < 0 && WholeMinute(c.shift)
    requires !EndKept(ch.ends(y) + c.std + c.shift, -c.shift) && WholeMinute(ch.ends(y) + c.std + c.shift)
    requires 2 * DAY <= ch.ends(y)
    ensures Misplaced(c, utc, t)
  {
    var end := ch.ends(y) + c.std + c.shift;
    var wall, reading := EndMisplaces(end, -c.shift);
    utc, t := wall - c.std, reading - c.std - c.shift;
    OffsetsAtEnd(c, ch, y, utc, t);
    EndIsMisplaced(c, utc, t, wall, reading);
  }

  lemma EndIsMisplaced(c: Clock, utc: int, t: int, wall: int, reading: int)
    requires wall == utc + c.std && reading == t + c.std + c.shift && c.shift < 0
    requires 0 < utc < t < utc - c.shift && WholeMinute(wall) && WholeMinute(reading) && reading / DAY != wall / DAY
    requires c.offset(utc) == c.std + c.shift && c.offset(utc - c.shift) == c.std
    requires c.offset(t) == c.std + c.shift && c.offset(t + c.shift) == c.std + c.shift
    ensures Misplaced(c, utc, t)
  {
  }

  // ---------------------------------------------------------------------------
  // The exact condition
  // ---------------------------------------------------------------------------

  lemma {:induction false} YearsAddUp(y: int)
    requires 1970 <= y
    ensures YearStart(y) >= 365 * (y - 1970)
  {
    if y > 1970 {
      YearsAddUp(y - 1);
      YearStartStep(y - 1);
    }
  }

  function LateYear(tz: Tz): int {
    1980 + Size(tz.std)
  }

  lemma LateYearIsLate(tz: Tz)
    requires tz.dst.Some? && WellApart(tz)
    ensures 2 * DAY <= StartAt(tz, LateYear(tz)) && 2 * DAY <= EndAt(tz, LateYear(tz))
  {
    var y := LateYear(tz);
    YearsAddUp(y);
    LateInstant(YearStart(y), Size(tz.std), tz.std);
    assert ChangesOf(tz).opens(y) <= ChangesOf(tz).starts(y) && ChangesOf(tz).opens(y) <= ChangesOf(tz).ends(y);
  }

  lemma LateInstant(first: int, size: nat, std: int)
    requires first >= 365 * (10 + size) && std <= size
    ensures first * DAY - std >= 2 * DAY
  {
  }

  lemma MinutesOf(c: Clock, utc: int, t: int)
    requires c.shift != 0 && Misplaced(c, utc, t)
    ensures 0 < utc && 0 <= t && WholeMinute(utc + c.std) && (c.shift < 0 ==> WholeMinute(t + c.std + c.shift))
  {
  }

  lemma StartDisorder(tz: Tz, y: int)
    requires tz.dst.Some? && WholeMinutes(tz) && !ChangesInOrder(tz) && Shift(tz) > 0
    ensures var start := ChangesOf(tz).starts(y) + tz.std; WholeMinute(start) && !StartInOrder(start % DAY, Shift(tz))
  {
    StartOnDate(tz, y);
    TimeOnDate(RuleDate(tz.dst.value.start, y), tz.dst.value.start.time);
  }

  lemma EndDisorder(tz: Tz, y: int)
    requires tz.dst.Some? && WholeMinutes(tz) && !ChangesInOrder(tz) && Shift(tz) < 0
    ensures var end := ChangesOf(tz).ends(y) + tz.std + Shift(tz); WholeMinute(end) && !EndKept(end, -Shift(tz))
  {
    EndOnDate(tz, y);
    TimeOnDate(RuleDate(tz.dst.value.end, y), tz.dst.value.end.time);
  }

  lemma StartMisplacedIn(tz: Tz) returns (utc: int, t: int)
    requires tz.dst.Some? && WellApart(tz) && WholeMinutes(tz) && !ChangesInOrder(tz) && Shift(tz) > 0
    ensures Misplaced(ClockOf(tz), utc, t)
  {
    ZoneFollows(tz);
    LateYearIsLate(tz);
    StartDisorder(tz, LateYear(tz));
    utc, t := LateStart(ClockOf(tz), ChangesOf(tz), LateYear(tz));
  }

  lemma EndMisplacedIn(tz: Tz) returns (utc: int, t: int)
    requires tz.dst.Some? && WellApart(tz) && WholeMinutes(tz) && !ChangesInOrder(tz) && Shift(tz) < 0
    ensures Misplaced(ClockOf(tz), utc, t)
  {
    ZoneFollows(tz);
    LateYearIsLate(tz);
    EndDisorder(tz, LateYear(tz));
    utc, t := EarlyEnd(ClockOf(tz), ChangesOf(tz), LateYear(tz));
  }

  ghost predicate AlwaysFindsLeast(tz: Tz) {
    forall times, after: nat :: Checked(Daily(times, tz)) ==> FindsLeast(Daily(times, tz), after)
  }

  lemma TimesAreChecked(tz: Tz, wall: int, reading: int)
    requires ValidTz(tz) && WholeMinute(wall) && WholeMinute(reading)
    ensures Checked(Daily([TimeOf(wall)], tz)) && Checked(Daily([TimeOf(wall), TimeOf(reading)], tz))
  {
    TimeOfWall(wall);
    TimeOfWall(reading);
  }

  lemma WellApartHasLongPeriods(tz: Tz)
    requires tz.dst.Some? && WellApart(tz)
    ensures LongPeriods(ClockOf(tz))
  {
    ZoneFollows(tz);
    ApartHasLongPeriods(ClockOf(tz), ChangesOf(tz));
  }

  lemma StartDisorderSkips(tz: Tz, utc: int, t: int, wall: int) returns (times: seq<Time>, after: nat)
    requires ValidTz(tz) && 0 < Shift(tz) < DAY && Misplaced(ClockOf(tz), utc, t)
    requires 0 <= t && wall == utc + tz.std && WholeMinute(wall)
    ensures Checked(Daily(times, tz)) && !FindsLeast(Daily(times, tz), after)
  {
    TimesAreChecked(tz, wall, wall);
    StartSkipsSlot(tz, utc, t, wall);
    times, after := [TimeOf(wall)], t * 1000;
  }

  lemma EndMinutes(c: Clock, utc: int, t: int, wall: int, reading: int)
    requires c.shift < 0 && Misplaced(c, utc, t) && wall == utc + c.std && reading == t + c.std + c.shift
    ensures 0 < utc && WholeMinute(wall) && WholeMinute(reading)
  {
  }

  lemma EndTimesSkip(tz: Tz, utc: int, t: int, wall: int, reading: int, before: nat, today: int)
      returns (times: seq<Time>, after: nat)
    requires ValidTz(tz) && WholeMinute(wall) && WholeMinute(reading)
    requires -DAY < Shift(tz) < 0 && LongPeriods(ClockOf(tz)) && Misplaced(ClockOf(tz), utc, t)
    requires wall == utc + tz.std && reading == t + tz.std + Shift(tz) && before == utc - 1 && today == wall / DAY - 1
    ensures Checked(Daily(times, tz)) && !FindsLeast(Daily(times, tz), after)
  {
    TimesAreChecked(tz, wall, reading);
    EndSkipsSlot(tz, utc, t, wall, reading, before, today);
    times, after := [TimeOf(wall), TimeOf(reading)], before * 1000;
  }

  lemma EndMinutesSkip(tz: Tz, utc: int, t: int, wall: int, reading: int) returns (times: seq<Time>, after: nat)
    requires ValidTz(tz) && -DAY < Shift(tz) < 0 && LongPeriods(ClockOf(tz)) && Misplaced(ClockOf(tz), utc, t)
    requires wall == utc + tz.std && reading == t + tz.std + Shift(tz)
    ensures Checked(Daily(times, tz)) && !FindsLeast(Daily(times, tz), after)
  {
    EndMinutes(ClockOf(tz), utc, t, wall, reading);
    times, after := EndTimesSkip(tz, utc, t, wall, reading, utc - 1, wall / DAY - 1);
  }

  lemma StartMinutesSkip(tz: Tz, utc: int, t: int) returns (times: seq<Time>, after: nat)
    requires ValidTz(tz) && 0 < Shift(tz) < DAY && Misplaced(ClockOf(tz), utc, t)
    ensures Checked(Daily(times, tz)) && !FindsLeast(Daily(times, tz), after)
  {
    MinutesOf(ClockOf(tz), utc, t);
    times, after := StartDisorderSkips(tz, utc, t, utc + tz.std);
  }

  lemma DisorderSkips(tz: Tz) returns (times: seq<Time>, after: nat)
    requires ValidTz(tz) && WellApart(tz) && WholeMinutes(tz) && !ChangesInOrder(tz)
    ensures Checked(Daily(times, tz)) && !FindsLeast(Daily(times, tz), after)
  {
    if Shift(tz) > 0 {
      var utc, t := StartMisplacedIn(tz);
      times, after := StartMinutesSkip(tz, utc, t);
    } else {
      var utc, t := EndMisplacedIn(tz);
      WellApartHasLongPeriods(tz);
      times, after := EndMinutesSkip(tz, utc, t, utc + tz.std, t + tz.std + Shift(tz));
    }
  }

  /** For every zone whose changes are apart and on whole minutes, whichever way they move the clock: every daily schedule finds
      its least slot after every instant if and only if the changes keep the skipped minutes on their days. */
  lemma NextAfterExactly(tz: Tz)
    requires ValidTz(tz) && WellApart(tz) && WholeMinutes(tz)
    ensures AlwaysFindsLeast(tz) <==> ChangesInOrder(tz)
  {
    if ChangesInOrder(tz) {
      WellApartIsTame(tz);
      forall times, after: nat | Checked(Daily(times, tz)) ensures FindsLeast(Daily(times, tz), after) {
        NextAfterIsLeast(Daily(times, tz), after);
      }
    } else {
      var times, after := DisorderSkips(tz);
      assert Checked(Daily(times, tz)) && !FindsLeast(Daily(times, tz), after);
    }
  }
}
