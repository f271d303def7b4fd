// When a bot runs (mastomini_bots/src/schedule.rs). A schedule produces slots, in milliseconds;
// `NextAfter` is the first slot strictly after an instant and `LatestAt` the last one at or before it.
module Schedules {
  import opened Arith
  import opened Calendar
  import opened LocalTime
  import opened Options
  import opened Zones

  const MINUTE_MS: nat := 60000
  const DAY_MS: nat := 24 * 60 * MINUTE_MS
  const MAX_TIMES: nat := 4

  datatype Time = Time(hour: int, minute: int)

  datatype Schedule =
    | Daily(times: seq<Time>, tz: Tz)
    | Every(minutes: nat)
    | Manual

  predicate RealTime(time: Time) {
    0 <= time.hour <= 23 && 0 <= time.minute <= 59
  }

  /** What `check` accepts, on a zone rule already parsed. */
  predicate Checked(s: Schedule) {
    match s
    case Daily(times, tz) =>
      && ValidTz(tz)
      && 1 <= |times| <= MAX_TIMES
      && forall time :: time in times ==> RealTime(time)
    case Every(minutes) => minutes != 0
    case Manual => true
  }

  // ---------------------------------------------------------------------------
  // The code
  // ---------------------------------------------------------------------------

  function DaySlot(tz: Tz, days: int, time: Time): nat {
    var d := CivilFromDays(days);
    UtcMs(tz, d.year, d.month, d.day, time.hour, time.minute)
  }

  /** The slots of each local day, in the order of the times. */
  function DaySlots(tz: Tz, times: seq<Time>): int -> seq<nat> {
    days => seq(|times|, i requires 0 <= i < |times| => DaySlot(tz, days, times[i]))
  }

  /** The smallest of `slots` that is after `after`. */
  function EarliestAfter(slots: seq<nat>, after: nat): Option<nat> {
    if slots == [] then None
    else
      var rest := EarliestAfter(slots[1..], after);
      if slots[0] > after && (rest.None? || slots[0] <= rest.value) then Some(slots[0]) else rest
  }

  /** The first hit on the given day or one of those after it, of three in all. */
  function FindDay(slotsOn: int -> seq<nat>, today: int, ahead: nat, after: nat): Option<nat>
    decreases 3 - ahead
  {
    if ahead >= 3 then None
    else
      var found := EarliestAfter(slotsOn(today + ahead), after);
      if found.Some? then found else FindDay(slotsOn, today, ahead + 1, after)
  }

  function Period(minutes: nat): nat {
    (if minutes < 1 then 1 else minutes) * MINUTE_MS
  }

  function NextAfter(s: Schedule, after: nat): Option<nat> {
    match s
    case Daily(times, tz) =>
      var today := LocalAt(tz, after);
      FindDay(DaySlots(tz, times), DaysFromCivil(today.year, today.month, today.day), 0, after)
    case Every(minutes) => Some((after / Period(minutes) + 1) * Period(minutes))
    case Manual => None
  }

  function SearchFrom(now: nat): nat {
    if now < 2 * DAY_MS then 0 else now - 2 * DAY_MS
  }

  function LastUpTo(s: Schedule, slot: nat, now: nat): nat
    requires slot <= now
    decreases now - slot
  {
    NextIsAfter(s, slot);
    var next := NextAfter(s, slot);
    if next.Some? && next.value <= now then LastUpTo(s, next.value, now) else slot
  }

  function LatestAt(s: Schedule, now: nat): Option<nat> {
    var first := NextAfter(s, SearchFrom(now));
    if first.None? || first.value > now then None else Some(LastUpTo(s, first.value, now))
  }

  method ComputeLatestAt(s: Schedule, now: nat) returns (latest: Option<nat>)
    ensures latest == LatestAt(s, now)
  {
    var first := NextAfter(s, SearchFrom(now));
    if first.None? || first.value > now { return None; }
    var slot := first.value;
    var next := NextAfter(s, slot);
    while next.Some? && next.value <= now
      invariant slot <= now && next == NextAfter(s, slot)
      invariant LastUpTo(s, slot, now) == LastUpTo(s, first.value, now)
      decreases now - slot
    {
      NextIsAfter(s, slot);
      slot := next.value;
      next := NextAfter(s, slot);
    }
    return Some(slot);
  }

  // ---------------------------------------------------------------------------
  // One day's search
  // ---------------------------------------------------------------------------

  lemma {:induction false} EarliestIsLeast(slots: seq<nat>, after: nat)
    ensures var found := EarliestAfter(slots, after);
            && (found.Some? ==> found.value > after && found.value in slots)
            && (forall slot :: slot in slots && slot > after ==> found.Some? && found.value <= slot)
  {
    if slots != [] {
      EarliestIsLeast(slots[1..], after);
      assert slots == [slots[0]] + slots[1..];
    }
  }

  /** The search finds the first day with a hit, and its earliest hit. */
  lemma {:induction false} FoundOnFirstDay(slotsOn: int -> seq<nat>, today: int, ahead: nat, after: nat)
    ensures var found := FindDay(slotsOn, today, ahead, after);
            if found.Some? then
              exists day :: today + ahead <= day < today + 3 && found == EarliestAfter(slotsOn(day), after)
                            && forall d :: today + ahead <= d < day ==> EarliestAfter(slotsOn(d), after).None?
            else forall d :: today + ahead <= d < today + 3 ==> EarliestAfter(slotsOn(d), after).None?
    decreases 3 - ahead
  {
    if ahead < 3 {
      FoundOnFirstDay(slotsOn, today, ahead + 1, after);
      assert EarliestAfter(slotsOn(today + ahead), after).Some? ==> FindDay(slotsOn, today, ahead, after).Some?;
    }
  }

  lemma SearchIsAfter(slotsOn: int -> seq<nat>, today: int, after: nat)
    ensures var found := FindDay(slotsOn, today, 0, after); found.Some? ==> found.value > after
  {
    FoundOnFirstDay(slotsOn, today, 0, after);
    var found := FindDay(slotsOn, today, 0, after);
    if found.Some? {
      var day :| today <= day < today + 3 && found == EarliestAfter(slotsOn(day), after);
      EarliestIsLeast(slotsOn(day), after);
    }
  }

  lemma NextIsAfter(s: Schedule, after: nat)
    ensures NextAfter(s, after).Some? ==> NextAfter(s, after).value > after
  {
    match s
    case Daily(times, tz) =>
      var today := LocalAt(tz, after);
      var day := DaysFromCivil(today.year, today.month, today.day);
      SearchIsAfter(DaySlots(tz, times), day, after);
    case Every(minutes) =>
      MultipleAfter(after, Period(minutes));
    case Manual =>
  }

  // ---------------------------------------------------------------------------
  // Wall times of different days resolve in order
  // ---------------------------------------------------------------------------

  /** `utc` is what a clock resolves `wall` to: its first reading or, in a gap, the standard-time reading. */
  ghost predicate Resolves(c: Clock, wall: int, utc: int) {
    && (forall t :: t + c.offset(t) == wall ==> utc <= t)
    && (utc + c.offset(utc) == wall || (utc == wall - c.std && Gap(c, utc)))
  }

  lemma ResolveResolves(tz: Tz, wall: int)
    ensures Resolves(ClockOf(tz), wall, Resolve(tz, wall))
  {
    var c := ClockOf(tz);
    ZoneHasTwoOffsets(tz);
    OffsetIsTried(tz);
    ResolveByIsFirst(c.offset, OffsetsOf(tz), wall);
    ResolvesBy(c, OffsetsOf(tz), wall, Resolve(tz, wall));
  }

  lemma ResolvesBy(c: Clock, offsets: seq<int>, wall: int, utc: int)
    requires TwoOffsets(c) && offsets != [] && offsets[0] == c.std
    requires forall t :: t + c.offset(t) == wall ==> utc <= t
    requires utc + c.offset(utc) == wall || (utc == wall - c.std && forall t :: t + c.offset(t) != wall)
    ensures Resolves(c, wall, utc)
  {
    var s, d := wall - c.std, wall - c.std - c.shift;
    assert c.offset(s) == c.std || c.offset(s) == c.std + c.shift;
    assert c.offset(d) == c.std || c.offset(d) == c.std + c.shift;
  }

  /** A first reading of an earlier day has passed: had the clock gone back in between, it would have shown
      `wall` a shift earlier. */
  lemma EarlierReadingPassed(c: Clock, wall: int, utc: int, now: int)
    requires Tame(c) && Resolves(c, wall, utc) && utc + c.offset(utc) == wall
    requires wall < now + c.offset(now)
    ensures utc <= now
  {
    var before := utc - Size(c.shift);
    assert c.offset(before) == Low(c) || c.offset(before) == High(c);
    assert utc > now ==> c.offset(now) == High(c) && Enclosed(c, before, now, utc);
  }

  /** Every slot of a local day before the current one has passed. */
  lemma EarlierDayPassed(c: Clock, wall: int, utc: int, now: int, day: int)
    requires Tame(c) && Resolves(c, wall, utc) && WholeMinute(wall)
    requires wall < DAY * day <= now + c.offset(now)
    ensures utc <= now
  {
    if utc + c.offset(utc) == wall { EarlierReadingPassed(c, wall, utc, now); } else {
      assert utc > now ==> BesideGap(c, utc, now);
      LaterDay(wall, DAY * day, now + c.std + c.shift, day);
    }
  }

  lemma LaterDay(wall: int, midnight: int, later: int, day: int)
    requires midnight == DAY * day && wall < midnight
    ensures midnight <= later ==> wall / DAY < later / DAY
  {
  }

  /** Slots of different local days come in the order of the days. */
  lemma DaysInOrder(c: Clock, wall: int, utc: int, later: int, utcLater: int, day: int)
    requires Tame(c) && Resolves(c, wall, utc) && Resolves(c, later, utcLater)
    requires WholeMinute(wall) && WholeMinute(later) && wall < DAY * day <= later
    ensures utc <= utcLater
  {
    assert c.offset(utc) == c.std || c.offset(utc) == c.std + c.shift;
    if utcLater + c.offset(utcLater) == later { EarlierDayPassed(c, wall, utc, utcLater, day); } else {
      assert utc > utcLater ==> BesideGap(c, utcLater, utc);
      LaterDay(wall, DAY * day, later, day);
    }
  }

  /** From the day after tomorrow on, every slot is still to come. */
  lemma DayAfterNext(c: Clock, wall: int, utc: int, now: int, day: int)
    requires Tame(c) && Resolves(c, wall, utc)
    requires now + c.offset(now) < DAY * day && DAY * (day + 1) <= wall
    ensures now < utc
  {
  }

  // ---------------------------------------------------------------------------
  // The first slot strictly after an instant
  // ---------------------------------------------------------------------------

  /** The slots of a schedule: of any local day whatever, or every multiple of the period. */
  ghost predicate IsSlot(s: Schedule, slot: nat) {
    match s
    case Daily(times, tz) => exists day :: slot in DaySlots(tz, times)(day)
    case Every(minutes) => slot % Period(minutes) == 0
    case Manual => false
  }

  lemma NextIsSlot(s: Schedule, after: nat)
    ensures NextAfter(s, after).Some? ==> IsSlot(s, NextAfter(s, after).value)
  {
    match s
    case Daily(times, tz) =>
      var slotsOn, today := DaySlots(tz, times), LocalAt(tz, after);
      var first := DaysFromCivil(today.year, today.month, today.day);
      FoundOnFirstDay(slotsOn, first, 0, after);
      var found := FindDay(slotsOn, first, 0, after);
      if found.Some? {
        var day :| first <= day < first + 3 && found == EarliestAfter(slotsOn(day), after);
        EarliestIsLeast(slotsOn(day), after);
      }
    case Every(minutes) => MultipleAfter(after, Period(minutes));
    case Manual =>
  }

  /** In every zone the latest slot is a slot at or before now. */
  lemma LatestIsSlot(s: Schedule, now: nat)
    ensures LatestAt(s, now).Some? ==> IsSlot(s, LatestAt(s, now).value) && LatestAt(s, now).value <= now
  {
    var first := NextAfter(s, SearchFrom(now));
    NextIsSlot(s, SearchFrom(now));
    if first.Some? && first.value <= now { LastUpToIsSlot(s, first.value, now); }
  }

  lemma LatestAtOrBefore(s: Schedule, now: nat)
    ensures LatestAt(s, now).Some? ==> LatestAt(s, now).value <= now
  {
    LatestIsSlot(s, now);
  }

  lemma {:induction false} LastUpToIsSlot(s: Schedule, slot: nat, now: nat)
    requires slot <= now && IsSlot(s, slot)
    ensures IsSlot(s, LastUpTo(s, slot, now)) && LastUpTo(s, slot, now) <= now
    decreases now - slot
  {
    NextIsAfter(s, slot);
    NextIsSlot(s, slot);
    var next := NextAfter(s, slot);
    if next.Some? && next.value <= now { LastUpToIsSlot(s, next.value, now); }
  }

  /** `NextAfter` is the least slot of any day strictly after the instant. */
  ghost predicate FindsLeast(s: Schedule, after: nat) {
    var next := NextAfter(s, after);
    && next.Some? && IsSlot(s, next.value) && next.value > after
    && forall slot: nat :: IsSlot(s, slot) && slot > after ==> next.value <= slot
  }

  ghost predicate Lawful(s: Schedule) {
    Checked(s) && (s.Daily? ==> Tame(ClockOf(s.tz)))
  }

  function Millis(utc: int): nat {
    (if utc < 0 then 0 else utc) * 1000
  }

  lemma TimeOfSlot(tz: Tz, times: seq<Time>, day: int, slot: nat) returns (time: Time)
    requires slot in DaySlots(tz, times)(day)
    ensures time in times && DaySlot(tz, day, time) == slot
  {
    var slots := DaySlots(tz, times)(day);
    var i :| 0 <= i < |slots| && slots[i] == slot;
    time := times[i];
  }

  lemma SlotOfDay(tz: Tz, times: seq<Time>, day: int, slot: nat) returns (wall: int, utc: int)
    requires Lawful(Daily(times, tz)) && slot in DaySlots(tz, times)(day)
    ensures DAY * day <= wall < DAY * (day + 1)
    ensures WholeMinute(wall) && Resolves(ClockOf(tz), wall, utc) && slot == Millis(utc)
  {
    var time := TimeOfSlot(tz, times, day, slot);
    wall := MinuteOfDay(day, time);
    utc := DaySlotResolves(tz, day, time);
  }

  lemma MinuteOfDay(day: int, time: Time) returns (wall: int)
    ensures wall == DAY * day + SecondOfDay(time) && WholeMinute(wall)
    ensures RealTime(time) ==> DAY * day <= wall < DAY * (day + 1)
  {
    wall := DAY * day + SecondOfDay(time);
    DivUnique(wall, 1440 * day + 60 * time.hour + time.minute, 60, 0);
  }

  function SecondOfDay(time: Time): int {
    time.hour * 3600 + time.minute * 60
  }

  lemma DaySlotResolves(tz: Tz, day: int, time: Time) returns (utc: int)
    ensures Resolves(ClockOf(tz), DAY * day + SecondOfDay(time), utc) && DaySlot(tz, day, time) == Millis(utc)
  {
    var d := CivilFromDays(day);
    CivilRoundTrip(day);
    utc := WallResolves(tz, DAY * day + SecondOfDay(time), d.year, d.month, d.day, time.hour, time.minute);
  }

  lemma WallResolves(tz: Tz, wall: int, year: int, month: int, day: int, hour: int, minute: int) returns (utc: int)
    requires WallOf(year, month, day, hour, minute) == wall
    ensures Resolves(ClockOf(tz), wall, utc) && UtcMs(tz, year, month, day, hour, minute) == Millis(utc)
  {
    utc := Resolve(tz, wall);
    ResolveResolves(tz, wall);
  }

  function Today(tz: Tz, now: nat): int {
    Wall(tz, now / 1000) / DAY
  }

  lemma TodayBounds(tz: Tz, now: nat)
    ensures var t := now / 1000;
            DAY * Today(tz, now) <= t + ClockOf(tz).offset(t) < DAY * (Today(tz, now) + 1)
  {
  }

  lemma TodayIsLocalDate(tz: Tz, now: nat)
    ensures var l := LocalAt(tz, now); DaysFromCivil(l.year, l.month, l.day) == Today(tz, now)
  {
    CivilRoundTrip(Today(tz, now));
  }

  /** A daily search starts on the local date of the instant. */
  lemma SearchStartsToday(tz: Tz, times: seq<Time>, after: nat)
    ensures NextAfter(Daily(times, tz), after) == FindDay(DaySlots(tz, times), Today(tz, after), 0, after)
  {
    TodayIsLocalDate(tz, after);
  }

  lemma PassedDay(tz: Tz, times: seq<Time>, now: nat, day: int, slot: nat)
    requires Lawful(Daily(times, tz)) && slot in DaySlots(tz, times)(day) && day < Today(tz, now)
    ensures slot <= now
  {
    var wall, utc := SlotOfDay(tz, times, day, slot);
    TodayBounds(tz, now);
    EarlierDayPassed(ClockOf(tz), wall, utc, now / 1000, Today(tz, now));
  }

  lemma SlotsInOrder(tz: Tz, times: seq<Time>, day: int, slot: nat, later: int, slotLater: nat)
    requires Lawful(Daily(times, tz)) && day < later
    requires slot in DaySlots(tz, times)(day) && slotLater in DaySlots(tz, times)(later)
    ensures slot <= slotLater
  {
    var wall, utc := SlotOfDay(tz, times, day, slot);
    var wall', utc' := SlotOfDay(tz, times, later, slotLater);
    DaysInOrder(ClockOf(tz), wall, utc, wall', utc', later);
  }

  lemma ComingDay(tz: Tz, times: seq<Time>, now: nat, day: int, slot: nat)
    requires Lawful(Daily(times, tz)) && slot in DaySlots(tz, times)(day) && Today(tz, now) + 2 <= day
    ensures now < slot
  {
    var wall, utc := SlotOfDay(tz, times, day, slot);
    TodayBounds(tz, now);
    DayAfterNext(ClockOf(tz), wall, utc, now / 1000, Today(tz, now) + 1);
  }

  /** Days before `today` have passed, later days come in order, and from the last day searched on all are to come. */
  ghost predicate DaysAdvance(slotsOn: int -> seq<nat>, today: int, after: nat) {
    && (forall d, slot :: d < today && slot in slotsOn(d) ==> slot <= after)
    && (forall d, e, slot, slot' :: d < e && slot in slotsOn(d) && slot' in slotsOn(e) ==> slot <= slot')
    && (forall d, slot :: today + 2 <= d && slot in slotsOn(d) ==> slot > after)
    && (forall d :: slotsOn(d) != [])
  }

  lemma FoundIsLeast(slotsOn: int -> seq<nat>, today: int, after: nat)
    requires DaysAdvance(slotsOn, today, after)
    ensures var found := FindDay(slotsOn, today, 0, after);
            && found.Some? && found.value > after && (exists d :: found.value in slotsOn(d))
            && forall d, slot :: slot in slotsOn(d) && slot > after ==> found.value <= slot
  {
    FoundOnFirstDay(slotsOn, today, 0, after);
    var found := FindDay(slotsOn, today, 0, after);
    EarliestIsLeast(slotsOn(today + 2), after);
    assert slotsOn(today + 2)[0] in slotsOn(today + 2);
    var day :| today <= day < today + 3 && found == EarliestAfter(slotsOn(day), after)
               && forall d :: today <= d < day ==> EarliestAfter(slotsOn(d), after).None?;
    EarliestIsLeast(slotsOn(day), after);
    forall d, slot | slot in slotsOn(d) && slot > after ensures found.value <= slot {
      EarliestIsLeast(slotsOn(d), after);
    }
  }

  lemma DailyDaysAdvance(tz: Tz, times: seq<Time>, after: nat)
    requires Lawful(Daily(times, tz))
    ensures DaysAdvance(DaySlots(tz, times), Today(tz, after), after)
  {
    DailyDaysInOrder(tz, times);
    DailyPassedAndComing(tz, times, after);
  }

  lemma DailyDaysInOrder(tz: Tz, times: seq<Time>)
    requires Lawful(Daily(times, tz))
    ensures var slotsOn := DaySlots(tz, times);
            forall d, e, slot, slot' :: d < e && slot in slotsOn(d) && slot' in slotsOn(e) ==> slot <= slot'
  {
    var slotsOn := DaySlots(tz, times);
    forall d, e, slot, slot' | d < e && slot in slotsOn(d) && slot' in slotsOn(e) ensures slot <= slot' {
      SlotsInOrder(tz, times, d, slot, e, slot');
    }
  }

  lemma DailyPassedAndComing(tz: Tz, times: seq<Time>, after: nat)
    requires Lawful(Daily(times, tz))
    ensures var slotsOn, today := DaySlots(tz, times), Today(tz, after);
            && (forall d, slot :: d < today && slot in slotsOn(d) ==> slot <= after)
            && (forall d, slot :: today + 2 <= d && slot in slotsOn(d) ==> slot > after)
            && (forall d :: slotsOn(d) != [])
  {
    var slotsOn, today := DaySlots(tz, times), Today(tz, after);
    forall d, slot | d < today && slot in slotsOn(d) ensures slot <= after {
      PassedDay(tz, times, after, d, slot);
    }
    forall d, slot | today + 2 <= d && slot in slotsOn(d) ensures slot > after {
      ComingDay(tz, times, after, d, slot);
    }
    forall d ensures slotsOn(d) != [] {
      assert |slotsOn(d)| == |times|;
    }
  }

  lemma NextDailyIsLeast(tz: Tz, times: seq<Time>, after: nat)
    requires Lawful(Daily(times, tz))
    ensures FindsLeast(Daily(times, tz), after)
  {
    SearchStartsToday(tz, times, after);
    DailyDaysAdvance(tz, times, after);
    FoundIsLeast(DaySlots(tz, times), Today(tz, after), after);
  }

  /** Every schedule but a manual one finds its least slot after the instant. */
  lemma NextAfterIsLeast(s: Schedule, after: nat)
    requires Lawful(s)
    ensures if s.Manual? then NextAfter(s, after) == None else FindsLeast(s, after)
  {
    match s
    case Daily(times, tz) => NextDailyIsLeast(tz, times, after);
    case Every(minutes) => MultipleAfter(after, Period(minutes));
    case Manual =>
  }

  // ---------------------------------------------------------------------------
  // The latest slot at or before an instant
  // ---------------------------------------------------------------------------

  lemma {:induction false} LastUpToIsLast(s: Schedule, slot: nat, now: nat)
    requires slot <= now && Lawful(s) && IsSlot(s, slot)
    ensures var last := LastUpTo(s, slot, now);
            slot <= last <= now && IsSlot(s, last) && forall m: nat :: IsSlot(s, m) && m <= now ==> m <= last
    decreases now - slot
  {
    NextAfterIsLeast(s, slot);
    var next := NextAfter(s, slot);
    if next.Some? && next.value <= now { LastUpToIsLast(s, next.value, now); }
  }

  /** `LatestAt` is the greatest slot at or before now among those of the last two days, and `None`
      exactly when those two days hold no slot. */
  lemma LatestAtIsGreatest(s: Schedule, now: nat)
    requires Lawful(s)
    ensures var latest := LatestAt(s, now);
            if latest.Some? then
              && IsSlot(s, latest.value) && SearchFrom(now) < latest.value <= now
              && forall slot: nat :: IsSlot(s, slot) && slot <= now ==> slot <= latest.value
            else forall slot: nat :: IsSlot(s, slot) && slot <= now ==> slot <= SearchFrom(now)
  {
    NextAfterIsLeast(s, SearchFrom(now));
    var first := NextAfter(s, SearchFrom(now));
    if first.Some? && first.value <= now { LastUpToIsLast(s, first.value, now); }
  }

  /** As the clock advances, the latest slot never goes back. */
  lemma LatestIsMonotone(s: Schedule, now: nat, later: nat)
    requires Lawful(s) && now <= later && LatestAt(s, now).Some? && LatestAt(s, later).Some?
    ensures LatestAt(s, now).value <= LatestAt(s, later).value
  {
    LatestAtIsGreatest(s, now);
    LatestAtIsGreatest(s, later);
  }

  function HeadSlot(tz: Tz, times: seq<Time>, day: int): nat
    requires times != []
  {
    DaySlot(tz, day, times[0])
  }

  lemma HeadIsSlot(tz: Tz, times: seq<Time>, day: int)
    requires times != []
    ensures HeadSlot(tz, times, day) in DaySlots(tz, times)(day)
  {
    assert DaySlots(tz, times)(day)[0] == HeadSlot(tz, times, day);
  }

  function Heads(tz: Tz, times: seq<Time>): int -> nat
    requires times != []
  {
    day => HeadSlot(tz, times, day)
  }

  /** The same time of day on consecutive days is at most two days apart. */
  ghost predicate CloselySpaced(head: int -> nat) {
    forall day :: head(day + 1) > 0 ==> head(day + 1) <= head(day) + 2 * DAY_MS
  }

  lemma HeadsAreClose(tz: Tz, times: seq<Time>)
    requires Lawful(Daily(times, tz))
    ensures times != [] && CloselySpaced(Heads(tz, times))
  {
    forall day ensures HeadSlot(tz, times, day + 1) > 0
        ==> HeadSlot(tz, times, day + 1) <= HeadSlot(tz, times, day) + 2 * DAY_MS
    {
      var a := DaySlotResolves(tz, day, times[0]);
      var b := DaySlotResolves(tz, day + 1, times[0]);
    }
  }

  lemma RecentDay(head: int -> nat, today: int, now: nat) returns (day: int)
    requires CloselySpaced(head) && head(today - 1) <= now < head(today + 2)
    ensures head(day) <= now < head(day) + 2 * DAY_MS
  {
    day := if now < head(today) then today - 1 else if now < head(today + 1) then today else today + 1;
    assert now < head(day + 1);
  }

  lemma HeadsOf(tz: Tz, times: seq<Time>) returns (heads: int -> nat)
    requires Lawful(Daily(times, tz))
    ensures CloselySpaced(heads) && forall day :: heads(day) in DaySlots(tz, times)(day)
  {
    HeadsAreClose(tz, times);
    heads := Heads(tz, times);
    forall day ensures heads(day) in DaySlots(tz, times)(day) { HeadIsSlot(tz, times, day); }
  }

  lemma RecentSlot(tz: Tz, times: seq<Time>, now: nat) returns (slot: nat)
    requires Lawful(Daily(times, tz))
    ensures IsSlot(Daily(times, tz), slot) && slot <= now < slot + 2 * DAY_MS
  {
    var heads := HeadsOf(tz, times);
    var today := Today(tz, now);
    PassedDay(tz, times, now, today - 1, heads(today - 1));
    ComingDay(tz, times, now, today + 2, heads(today + 2));
    var day := RecentDay(heads, today, now);
    slot := heads(day);
    assert slot in DaySlots(tz, times)(day);
  }

  /** From two days past 1970 on, a daily schedule always has a latest slot. */
  lemma DailyAlwaysHasLatest(tz: Tz, times: seq<Time>, now: nat)
    requires Lawful(Daily(times, tz)) && 2 * DAY_MS <= now
    ensures LatestAt(Daily(times, tz), now).Some?
  {
    var slot := RecentSlot(tz, times, now);
    LatestAtIsGreatest(Daily(times, tz), now);
  }

  /** A period has a latest slot at every instant exactly when it is at most two days, although
      every instant is preceded by a multiple of any period. */
  lemma EveryAlwaysHasLatest(minutes: nat)
    requires minutes != 0
    ensures (forall now: nat :: 2 * DAY_MS <= now ==> LatestAt(Every(minutes), now).Some?) <==> minutes <= 2 * 24 * 60
  {
    var s, period := Every(minutes), Period(minutes);
    if minutes <= 2 * 24 * 60 {
      forall now: nat | 2 * DAY_MS <= now ensures LatestAt(s, now).Some? {
        LatestAtIsGreatest(s, now);
        var slot := (now / period) * period;
        assert now == slot + now % period;
        MultipleOf(now / period, period);
        MulMonotone(0, now / period, period);
        assert SearchFrom(now) < slot ==> LatestAt(s, now).Some?;
        MultipleAfter(SearchFrom(now), period);
      }
    } else {
      EveryMissesAtTwoDays(minutes);
    }
  }

  /** With a longer period, two days after a multiple `LatestAt` has already lost it. */
  lemma EveryMissesAtTwoDays(minutes: nat)
    requires minutes > 2 * 24 * 60
    ensures IsSlot(Every(minutes), Period(minutes)) && LatestAt(Every(minutes), Period(minutes) + 2 * DAY_MS) == None
  {
    var period := Period(minutes);
    MultipleOf(1, period);
    MultipleOf(2, period);
    MultipleAfter(period, period);
    DivUnique(period, 1, period, 0);
  }

  lemma MultipleAfter(t: nat, period: nat)
    requires period > 0
    ensures var next := (t / period + 1) * period;
            next > t && next - period <= t && next % period == 0
            && forall m: nat :: m % period == 0 && m > t ==> next <= m
  {
    var q := t / period;
    assert t == q * period + t % period;
    assert (q + 1) * period == q * period + period;
    MultipleOf(q + 1, period);
    forall m: nat | m % period == 0 && m > t ensures (q + 1) * period <= m {
      DivMonotone(t, m, period);
      var k := m / period;
      assert m == k * period;
      if k == q { assert false; }
      MulMonotone(q + 1, k, period);
    }
  }

  // ---------------------------------------------------------------------------
  // What a schedule's values mean
  // ---------------------------------------------------------------------------

  /** A schedule is accepted if and only if it is manual, or a period of at least a minute, or has one to four times of day of a
      zone with real rules. */
  lemma CheckedExactly(s: Schedule)
    ensures Checked(s) <==>
              || s.Manual? || (s.Every? && 1 <= s.minutes)
              || (s.Daily? && ValidTz(s.tz) && 1 <= |s.times| <= 4
                  && forall i :: 0 <= i < |s.times| ==> 0 <= s.times[i].hour < 24 && 0 <= s.times[i].minute < 60)
  {
    if s.Daily? { assert forall i :: 0 <= i < |s.times| ==> s.times[i] in s.times; }
    if s.Daily? && forall i :: 0 <= i < |s.times| ==> 0 <= s.times[i].hour < 24 && 0 <= s.times[i].minute < 60 {
      forall time | time in s.times ensures RealTime(time) {
        var i :| 0 <= i < |s.times| && s.times[i] == time;
      }
    }
  }

  /** In every zone: a day's slot for a time is when its clock first shows that time of that day; if it never does, when it shows
      the time later by what it is moved. */
  lemma SlotShowsItsTime(tz: Tz, date: Date, time: Time)
    requires Valid(date) && RealTime(time) && 0 <= Resolve(tz, WallOf(date.year, date.month, date.day, time.hour, time.minute))
    ensures var slot := DaySlot(tz, DaysFromCivil(date.year, date.month, date.day), time);
            if Reads(tz, WallOf(date.year, date.month, date.day, time.hour, time.minute)) then
              && Shows(LocalAt(tz, slot), date.year, date.month, date.day, time.hour, time.minute)
              && forall earlier: nat :: Shows(LocalAt(tz, earlier), date.year, date.month, date.day, time.hour, time.minute) ==>
                   slot <= earlier
            else tz.dst.Some? && Wall(tz, slot / 1000)
                                 == WallOf(date.year, date.month, date.day, time.hour, time.minute) + tz.dst.value.offset - tz.std
  {
    DateRoundTrip(date);
    UtcMsInvertsLocal(tz, date.year, date.month, date.day, time.hour, time.minute);
  }
}
