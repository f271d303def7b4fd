// One zone that `SlotOrder.NextAfterExactly` excludes, worked out: the clock goes forward from 23:30 to 00:30 of the next
// day, and a daily schedule with a skipped time gets its slots out of order.
module LateChange {
  import opened Calendar
  import opened LocalTime
  import opened Options
  import opened Zones
  import opened Schedules

  const ZONE: Tz := Tz(0, Some(Dst(3600, Rule(3, 2, 0, 84600), Rule(11, 1, 0, 7200))))
  const TIMES: seq<Time> := [Time(23, 45), Time(0, 30)]
  /** Sunday 8 March 2026, the day of the change. */
  const SUNDAY: int := 20520
  const MIDNIGHT: int := SUNDAY * DAY

  lemma YearOfDays()
    ensures CivilFromDays(SUNDAY).year == 2026 && CivilFromDays(SUNDAY + 1).year == 2026
  {
    assert DaysFromCivil(2026, 3, 8) == SUNDAY && DaysFromCivil(2026, 3, 9) == SUNDAY + 1;
    DateRoundTrip(Date(2026, 3, 8));
    DateRoundTrip(Date(2026, 3, 9));
  }

  lemma StartOfChange()
    ensures RuleDate(Rule(3, 2, 0, 84600), 2026) == SUNDAY
  {
    assert DaysFromCivil(2026, 3, 8) == SUNDAY;
    DaysFromCivilCounts(Date(2026, 3, 8));
    RuleDateIsTheNamedDay(Rule(3, 2, 0, 84600), 2026, 8);
  }

  lemma EndOfChange()
    ensures RuleDate(Rule(11, 1, 0, 7200), 2026) == 20758
  {
    assert DaysFromCivil(2026, 11, 1) == 20758;
    DaysFromCivilCounts(Date(2026, 11, 1));
    RuleDateIsTheNamedDay(Rule(11, 1, 0, 7200), 2026, 1);
  }

  lemma YearThatDay(utc: int)
    requires MIDNIGHT <= utc < MIDNIGHT + 2 * DAY
    ensures StandardYear(ZONE, utc) == 2026
  {
    YearOfDays();
    assert (utc + ZONE.std) / DAY == if utc < MIDNIGHT + DAY then SUNDAY else SUNDAY + 1;
  }

  lemma ChangesThatYear()
    ensures StartAt(ZONE, 2026) == MIDNIGHT + 84600 && EndAt(ZONE, 2026) == 20758 * DAY + 3600
  {
    StartOfChange();
    EndOfChange();
  }

  lemma OffsetThatDay(utc: int)
    requires MIDNIGHT <= utc < MIDNIGHT + 2 * DAY
    ensures Offset(ZONE, utc) == if utc < MIDNIGHT + 84600 then 0 else 3600
  {
    YearThatDay(utc);
    ChangesThatYear();
    OffsetInYear(ZONE, utc);
  }

  lemma ResolveThatDay(wall: int)
    requires MIDNIGHT + 3600 <= wall < MIDNIGHT + 2 * DAY
    ensures Resolve(ZONE, wall) == if wall < MIDNIGHT + 88200 then wall else wall - 3600
  {
    OffsetThatDay(wall - 3600);
    ResolveWithShift(OffsetClock(ZONE), 0, 3600, wall);
    assert OffsetsOf(ZONE) == [0, 3600];
  }

  /** With a forward shift: the daylight reading if it is one, else the standard one, right or not. */
  lemma ResolveWithShift(offsetAt: int -> int, std: int, dst: int, wall: int)
    requires std < dst
    ensures ResolveBy(offsetAt, [std, dst], wall) == if offsetAt(wall - dst) == dst then wall - dst else wall - std
  {
    var valid := KeepReadings(offsetAt, wall, [std, dst]);
    KeptReadings(offsetAt, wall, [std, dst], wall - dst);
    if valid != [] {
      MinIsLeast(valid);
      KeptReadings(offsetAt, wall, [std, dst], Min(valid));
    }
  }

  lemma SlotThatDay(day: int, time: Time, wall: int)
    requires wall == DAY * day + SecondOfDay(time) && MIDNIGHT + 3600 <= wall < MIDNIGHT + 2 * DAY
    ensures DaySlot(ZONE, day, time) == (if wall < MIDNIGHT + 88200 then wall else wall - 3600) * 1000
  {
    ResolveThatDay(wall);
    CivilRoundTrip(day);
    var d := CivilFromDays(day);
    assert WallOf(d.year, d.month, d.day, time.hour, time.minute) == wall;
  }

  lemma FirstSlotThatDay(slotsOn: int -> seq<nat>, after: nat, skipped: nat)
    requires |slotsOn(SUNDAY)| == 2 && slotsOn(SUNDAY)[0] == skipped > after && slotsOn(SUNDAY)[1] <= after
    ensures FindDay(slotsOn, SUNDAY, 0, after) == Some(skipped)
  {
    EarliestIsLeast(slotsOn(SUNDAY), after);
    assert slotsOn(SUNDAY + 0) == slotsOn(SUNDAY);
  }

  const AFTER: nat := (MIDNIGHT + 84000) * 1000

  lemma TodayThatDay()
    ensures Today(ZONE, AFTER) == SUNDAY
  {
    OffsetThatDay(MIDNIGHT + 84000);
    assert AFTER / 1000 == MIDNIGHT + 84000;
  }

  lemma SkippedSlot() returns (skipped: nat)
    ensures skipped == (MIDNIGHT + 85500) * 1000
    ensures FindDay(DaySlots(ZONE, TIMES), SUNDAY, 0, AFTER) == Some(skipped)
  {
    var slotsOn := DaySlots(ZONE, TIMES);
    SlotThatDay(SUNDAY, Time(23, 45), MIDNIGHT + 85500);
    skipped := (MIDNIGHT + 85500) * 1000;
    CivilRoundTrip(SUNDAY);
    ResolveWithShift(OffsetClock(ZONE), 0, 3600, MIDNIGHT + 1800);
    assert OffsetsOf(ZONE) == [0, 3600];
    FirstSlotThatDay(slotsOn, AFTER, skipped);
  }

  lemma EarlySlot() returns (early: nat)
    ensures early == (MIDNIGHT + 84600) * 1000 && IsSlot(Daily(TIMES, ZONE), early)
  {
    SlotThatDay(SUNDAY + 1, Time(0, 30), MIDNIGHT + 88200);
    early := (MIDNIGHT + 84600) * 1000;
    assert DaySlots(ZONE, TIMES)(SUNDAY + 1)[1] == early;
  }

  /** At 23:20 the search answers 00:45 of the new day, although the slot of 00:30 comes before it. */
  lemma NextAfterIsNotLeast() returns (slot: nat)
    ensures IsSlot(Daily(TIMES, ZONE), slot) && AFTER < slot
    ensures NextAfter(Daily(TIMES, ZONE), AFTER) == Some(slot + 900 * 1000)
  {
    slot := EarlySlot();
    var skipped := SkippedSlot();
    TodayThatDay();
    NextIs(ZONE, TIMES, AFTER, SUNDAY, skipped);
  }

  lemma NextIs(tz: Tz, times: seq<Time>, after: nat, today: int, next: nat)
    requires Today(tz, after) == today && FindDay(DaySlots(tz, times), today, 0, after) == Some(next)
    ensures NextAfter(Daily(times, tz), after) == Some(next)
  {
    SearchStartsToday(tz, times, after);
  }
}
