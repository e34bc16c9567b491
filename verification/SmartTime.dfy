/** Sending at a recipient's local morning: from a wall clock to an instant through a time
    zone whose offset changes, and from an instant to the next 8:00 to 11:00 slot. */
module SmartTime {
  import opened Clock
  import opened Rounding

  // A zone's offset from UTC at each instant, in minutes.
  type Zone = int -> int

  // What a local clock shows, counted as if it were UTC.
  function Local(zone: Zone, t: int): int { t + Mins(zone(t)) }

  function LocalDay(zone: Zone, t: int): int { Local(zone, t) / Days(1) }

  function TimeOfDay(zone: Zone, t: int): int { Local(zone, t) % Days(1) }

  function LocalWallClockToUtc(zone: Zone, wall: int): int {
    var offset := zone(wall);
    var utc := wall - Mins(offset);
    var verify := zone(utc);
    if verify != offset then wall - Mins(verify) else utc
  }

  function MinutesPastEight(fraction: real): int {
    var clamped := if fraction < 0.0 then 0.0 else if fraction > 1.0 then 1.0 else fraction;
    RoundHalfUp(clamped * 180.0)
  }

  // The morning slot of a local day, on the wall clock.
  function Slot(day: int, past: int): int { Days(day) + Hours(8) + Mins(past) }

  function ShiftToLocalMorning(zone: Zone, base: int, fraction: real): int {
    var past := MinutesPastEight(fraction);
    var target := LocalWallClockToUtc(zone, Slot(LocalDay(zone, base), past));
    if target > base then target
    else LocalWallClockToUtc(zone, Slot(LocalDay(zone, base + Days(1)), past))
  }

  lemma PastEightIsWithinThreeHours(fraction: real)
    ensures 0 <= MinutesPastEight(fraction) <= 180
    ensures fraction <= 0.0 ==> MinutesPastEight(fraction) == 0
    ensures fraction >= 1.0 ==> MinutesPastEight(fraction) == 180
    ensures 0.0 <= fraction <= 1.0 ==> -0.5 < MinutesPastEight(fraction) as real - 180.0 * fraction <= 0.5
  {
  }

  // A later fraction never sends earlier.
  lemma LaterFractionLaterMinute(f: real, g: real)
    requires f <= g
    ensures MinutesPastEight(f) <= MinutesPastEight(g)
  {
    var cf := if f < 0.0 then 0.0 else if f > 1.0 then 1.0 else f;
    var cg := if g < 0.0 then 0.0 else if g > 1.0 then 1.0 else g;
    RoundingKeepsOrder(cf * 180.0, cg * 180.0);
  }

  // ----- Wall clock to instant -----

  ghost predicate Exists(zone: Zone, wall: int) {
    exists t :: Local(zone, t) == wall
  }

  // With no change of offset within an hour of the instant meant, and none larger than an hour, the
  // conversion finds precisely that instant.
  lemma FindsTheInstant(zone: Zone, wall: int, target: int)
    requires Local(zone, target) == wall
    requires forall t :: target - Hours(1) <= t <= target + Hours(1) ==> zone(t) == zone(target)
    requires -60 <= zone(wall) - zone(target) <= 60
    ensures LocalWallClockToUtc(zone, wall) == target
  {
    assert zone(wall - Mins(zone(wall))) == zone(target);
  }

  // Between these instants the zone has at most two offsets, as it has around one change of summer time.
  ghost predicate TwoOffsets(zone: Zone, a: int, b: int, from: int, to: int) {
    forall t :: from <= t <= to ==> zone(t) == a || zone(t) == b
  }

  // No local clock is ever a whole day off.
  ghost predicate UnderADay(zone: Zone) {
    forall t :: -1440 < zone(t) < 1440
  }

  // However often and whenever two offsets alternate within a day of it, the conversion gives an instant with
  // the wanted wall clock if and only if there is one. For a wall clock that is skipped it misses by the jump.
  lemma RightExactlyWhenItExists(zone: Zone, a: int, b: int, wall: int)
    requires UnderADay(zone) && TwoOffsets(zone, a, b, wall - Days(1), wall + Days(1))
    ensures var shown := Local(zone, LocalWallClockToUtc(zone, wall));
            && (shown == wall <==> Exists(zone, wall))
            && (!Exists(zone, wall) ==> shown - wall == Mins(a - b) || shown - wall == Mins(b - a))
  {
    var r := LocalWallClockToUtc(zone, wall);
    assert zone(wall) == a || zone(wall) == b;
    var first := wall - Mins(zone(wall));
    assert zone(first) == a || zone(first) == b;
    assert zone(r) == a || zone(r) == b;
    forall t | Local(zone, t) == wall
      ensures Local(zone, r) == wall
    {
      assert zone(t) == a || zone(t) == b;
    }
  }

  // ----- The next morning -----

  // Around the base two offsets at most an hour apart, and on its local day and the two that follow every
  // clock time from 8:00 to 11:00 exists.
  ghost predicate QuietMornings(zone: Zone, a: int, b: int, base: int) {
    && UnderADay(zone) && TwoOffsets(zone, a, b, base - Days(4), base + Days(5)) && -60 <= a - b <= 60
    && forall day, past :: LocalDay(zone, base) <= day <= LocalDay(zone, base) + 2 && 0 <= past <= 180 ==>
                             Exists(zone, Slot(day, past))
  }

  lemma ClocksDifferLittle(zone: Zone, a: int, b: int, base: int, s: int, t: int)
    requires QuietMornings(zone, a, b, base)
    requires base - Days(4) <= s <= base + Days(5) && base - Days(4) <= t <= base + Days(5)
    ensures -Hours(1) <= (Local(zone, s) - s) - (Local(zone, t) - t) <= Hours(1)
  {
    assert zone(s) == a || zone(s) == b;
    assert zone(t) == a || zone(t) == b;
  }

  lemma SlotOnClock(day: int, past: int)
    requires 0 <= past <= 180
    ensures Slot(day, past) / Days(1) == day && Slot(day, past) % Days(1) == Hours(8) + Mins(past)
  {
  }

  lemma SlotIsNear(zone: Zone, base: int, day: int, past: int)
    requires UnderADay(zone) && 0 <= past <= 180
    requires LocalDay(zone, base) <= day <= LocalDay(zone, base) + 2
    ensures base - Days(3) <= Slot(day, past) <= base + Days(4)
  {
    DayAndTime(zone, base);
    assert -1440 < zone(base) < 1440;
  }

  // A wall clock of these mornings is found, not far from the base.
  lemma SlotIsHit(zone: Zone, a: int, b: int, base: int, day: int, past: int)
    requires QuietMornings(zone, a, b, base) && 0 <= past <= 180
    requires LocalDay(zone, base) <= day <= LocalDay(zone, base) + 2
    ensures var target := LocalWallClockToUtc(zone, Slot(day, past));
            && Local(zone, target) == Slot(day, past)
            && LocalDay(zone, target) == day && TimeOfDay(zone, target) == Hours(8) + Mins(past)
            && base - Days(4) <= target <= base + Days(5)
  {
    SlotIsNear(zone, base, day, past);
    SlotOnClock(day, past);
    RightExactlyWhenItExists(zone, a, b, Slot(day, past));
    assert Exists(zone, Slot(day, past));
    var target := LocalWallClockToUtc(zone, Slot(day, past));
    assert -1440 < zone(target) < 1440;
  }

  // A day after the base, the local day is its own or one of the two that follow.
  lemma DayAfterBase(zone: Zone, a: int, b: int, base: int)
    requires QuietMornings(zone, a, b, base)
    ensures LocalDay(zone, base) <= LocalDay(zone, base + Days(1)) <= LocalDay(zone, base) + 2
    ensures -Hours(1) <= Local(zone, base + Days(1)) - Local(zone, base) - Days(1) <= Hours(1)
  {
    ClocksDifferLittle(zone, a, b, base, base, base + Days(1));
    DayAndTime(zone, base);
    DayAndTime(zone, base + Days(1));
  }

  lemma DayAndTime(zone: Zone, t: int)
    ensures Local(zone, t) == Days(LocalDay(zone, t)) + TimeOfDay(zone, t) && 0 <= TimeOfDay(zone, t) < Days(1)
  {
  }

  // Once today's slot has passed, that of a day later is on a later day and still to come.
  lemma NextSlotIsAhead(zone: Zone, a: int, b: int, base: int, past: int)
    requires QuietMornings(zone, a, b, base) && 0 <= past <= 180
    requires LocalWallClockToUtc(zone, Slot(LocalDay(zone, base), past)) <= base
    ensures var day, next := LocalDay(zone, base), LocalDay(zone, base + Days(1));
            var r := LocalWallClockToUtc(zone, Slot(next, past));
            && next > day && r > base && (next == day + 1 ==> r <= base + Days(1) + Hours(1))
  {
    var day, next := LocalDay(zone, base), LocalDay(zone, base + Days(1));
    var target, r := LocalWallClockToUtc(zone, Slot(day, past)), LocalWallClockToUtc(zone, Slot(next, past));
    DayAfterBase(zone, a, b, base);
    SlotIsHit(zone, a, b, base, day, past);
    SlotIsHit(zone, a, b, base, next, past);
    DayAndTime(zone, base);
    DayAndTime(zone, base + Days(1));
    ClocksDifferLittle(zone, a, b, base, base, target);
    ClocksDifferLittle(zone, a, b, base, base, r);
    ClocksDifferLittle(zone, a, b, base, target, r);
  }

  // Through summer time and back, the slot is in the local morning at the minute asked for, after the base
  // instant, and at most a day and an hour away unless a local day is passed over.
  lemma LandsInTheLocalMorning(zone: Zone, a: int, b: int, base: int, fraction: real)
    requires QuietMornings(zone, a, b, base)
    ensures var r, day := ShiftToLocalMorning(zone, base, fraction), LocalDay(zone, base);
            && r > base
            && Hours(8) <= TimeOfDay(zone, r) == Hours(8) + Mins(MinutesPastEight(fraction)) <= Hours(11)
            && (LocalDay(zone, r) == day || LocalDay(zone, r) == LocalDay(zone, base + Days(1)))
            && (LocalDay(zone, r) == day + 1 ==> r <= base + Days(1) + Hours(1))
  {
    var day, past := LocalDay(zone, base), MinutesPastEight(fraction);
    PastEightIsWithinThreeHours(fraction);
    DayAfterBase(zone, a, b, base);
    SlotIsHit(zone, a, b, base, day, past);
    SlotIsHit(zone, a, b, base, LocalDay(zone, base + Days(1)), past);
    if LocalWallClockToUtc(zone, Slot(day, past)) <= base {
      NextSlotIsAhead(zone, a, b, base, past);
    }
  }

  // The clock of the base, moved on by the change of offset in the next 24 hours, stays on its day.
  predicate StaysOnItsDay(zone: Zone, base: int) {
    TimeOfDay(zone, base) + Mins(zone(base + Days(1)) - zone(base)) < Days(1)
  }

  // Once today's slot has passed the next local day's is used, if and only if adding 24 hours does not
  // carry the local clock past a second midnight.
  lemma NextDayExactly(zone: Zone, a: int, b: int, base: int, fraction: real)
    requires QuietMornings(zone, a, b, base)
    requires LocalWallClockToUtc(zone, Slot(LocalDay(zone, base), MinutesPastEight(fraction))) <= base
    ensures var r := ShiftToLocalMorning(zone, base, fraction);
            && (LocalDay(zone, r) == LocalDay(zone, base) + 1 <==> StaysOnItsDay(zone, base))
            && (LocalDay(zone, r) == LocalDay(zone, base) + 2 <==> !StaysOnItsDay(zone, base))
  {
    var day, past := LocalDay(zone, base), MinutesPastEight(fraction);
    var target := LocalWallClockToUtc(zone, Slot(day, past));
    PastEightIsWithinThreeHours(fraction);
    DayAfterBase(zone, a, b, base);
    SlotIsHit(zone, a, b, base, day, past);
    SlotIsHit(zone, a, b, base, LocalDay(zone, base + Days(1)), past);
    DayAndTime(zone, base);
    DayAndTime(zone, base + Days(1));
    ClocksDifferLittle(zone, a, b, base, base, target);
  }

  lemma FixedMorningsAreQuiet(zone: Zone, offset: int, base: int)
    requires UnderADay(zone) && TwoOffsets(zone, offset, offset, base - Days(4), base + Days(5))
    ensures QuietMornings(zone, offset, offset, base)
  {
    assert zone(base) == offset;
    forall day, past | LocalDay(zone, base) <= day <= LocalDay(zone, base) + 2 && 0 <= past <= 180
      ensures Exists(zone, Slot(day, past))
    {
      assert Local(zone, Slot(day, past) - Mins(offset)) == Slot(day, past);
    }
  }

  // While the offset stays the same the slot is always within 24 hours.
  lemma WithinADayWithoutSummerTime(zone: Zone, offset: int, base: int, fraction: real)
    requires UnderADay(zone) && TwoOffsets(zone, offset, offset, base - Days(4), base + Days(5))
    ensures var r := ShiftToLocalMorning(zone, base, fraction);
            && base < r <= base + Days(1)
            && TimeOfDay(zone, r) == Hours(8) + Mins(MinutesPastEight(fraction)) <= Hours(11)
  {
    FixedMorningsAreQuiet(zone, offset, base);
    LandsInTheLocalMorning(zone, offset, offset, base, fraction);
    var day, past := LocalDay(zone, base), MinutesPastEight(fraction);
    PastEightIsWithinThreeHours(fraction);
    DayAfterBase(zone, offset, offset, base);
    SlotIsHit(zone, offset, offset, base, day, past);
    SlotIsHit(zone, offset, offset, base, LocalDay(zone, base + Days(1)), past);
    if LocalWallClockToUtc(zone, Slot(day, past)) <= base {
      NextDayExactly(zone, offset, offset, base, fraction);
    }
    DayAndTime(zone, base);
  }

  // US Central time around one change to summer time, at 8:00 UTC of day 0.
  function SpringForward(t: int): int { if t < Hours(8) then -360 else -300 }

  // At half past eleven on the evening before, with that day's slot long gone, the slot found is
  // not the next day's but the one after.
  lemma EveningBeforeSummerTimeSkipsADay(fraction: real)
    ensures var base := Hours(5) + Mins(30);
            && QuietMornings(SpringForward, -360, -300, base)
            && TimeOfDay(SpringForward, base) == Hours(23) + Mins(30)
            && LocalDay(SpringForward, ShiftToLocalMorning(SpringForward, base, fraction))
               == LocalDay(SpringForward, base) + 2
  {
    var base := Hours(5) + Mins(30);
    assert LocalDay(SpringForward, base) == -1;
    forall day, past | -1 <= day <= 1 && 0 <= past <= 180
      ensures Exists(SpringForward, Slot(day, past))
    {
      var wall := Slot(day, past);
      var t := if day >= 0 then wall + Mins(300) else wall + Mins(360);
      assert Local(SpringForward, t) == wall;
    }
    PastEightIsWithinThreeHours(fraction);
    NextDayExactly(SpringForward, -360, -300, base, fraction);
  }
}
