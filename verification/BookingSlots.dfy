/** The times a booking page offers for a day, and how they relate to what a request is granted. */
module BookingSlots {
  import opened Clock
  import opened Wrappers
  import opened BookingRules
  import opened BookingCalendar

  const SLOT_STEP := 30
  const HORIZON_DAYS := 14
  const MAX_SUGGESTIONS := 5

  // Day 0 of the epoch was a Thursday; the hours of a week start on Sunday.
  function HoursOn(cfg: Settings, dayNumber: nat): Option<OpenHours> {
    var weekday := (dayNumber + 4) % 7;
    if weekday < |cfg.activeHours| then cfg.activeHours[weekday] else None
  }

  // The weekday of a day by walking the calendar: day 0 is a Thursday, and Sunday follows Saturday.
  function Weekday(dayNumber: nat): nat {
    if dayNumber == 0 then 4
    else if Weekday(dayNumber - 1) == 6 then 0
    else Weekday(dayNumber - 1) + 1
  }

  // Sunday, 4 January 1970, is weekday 0, the days take turns, and a week later it is the same one's turn.
  lemma {:induction false} DaysTakeTurns(dayNumber: nat)
    ensures Weekday(3) == 0 && Weekday(dayNumber) < 7
    ensures Weekday(dayNumber + 1) == (if Weekday(dayNumber) == 6 then 0 else Weekday(dayNumber) + 1)
    ensures Weekday(dayNumber + 7) == Weekday(dayNumber)
  {
    assert Weekday(1) == 5 && Weekday(2) == 6 && Weekday(3) == 0;
    if dayNumber > 0 {
      DaysTakeTurns(dayNumber - 1);
      assert Weekday(dayNumber + 7) == if Weekday(dayNumber + 6) == 6 then 0 else Weekday(dayNumber + 6) + 1;
    } else {
      assert Weekday(4) == 1 && Weekday(5) == 2 && Weekday(6) == 3 && Weekday(7) == 4;
    }
  }

  // Every day has the hours of its own weekday.
  lemma {:induction false} HoursAreTheWeekdays(cfg: Settings, dayNumber: nat)
    requires |cfg.activeHours| == 7
    ensures Weekday(dayNumber) < 7 && HoursOn(cfg, dayNumber) == cfg.activeHours[Weekday(dayNumber)]
  {
    WeekdayCounts(dayNumber);
  }

  lemma {:induction false} WeekdayCounts(dayNumber: nat)
    ensures Weekday(dayNumber) == (dayNumber + 4) % 7
  {
    if dayNumber > 0 {
      WeekdayCounts(dayNumber - 1);
    }
  }

  // The slot engine reads one day's rows: those starting from six hours before it until its end.
  ghost predicate DayTaken(cfg: Settings, cal: Calendar, day: int, candidate: Block) {
    TakenWithin(cfg, cal, candidate, day - Hours(6), day + Days(1))
  }

  predicate InDates(cfg: Settings, now: int, t: int) {
    !(t < now + Hours(cfg.minNoticeHours))
    && !(Days(cfg.advanceLimitDays) > 0 && t > now + Days(cfg.advanceLimitDays))
  }

  ghost predicate Offered(cfg: Settings, cal: Calendar, now: int, day: int, ty: SigningType, t: int) {
    InDates(cfg, now, t) && !DayTaken(cfg, cal, day, BlockAt(cfg, ty, t))
  }

  // The offered times among t, t + 30 min, ... whose block ends by closing time.
  ghost function SlotsFrom(cfg: Settings, cal: Calendar, now: int, day: int, ty: SigningType, t: int,
                           close: int): seq<int>
    decreases close - Mins(BlockMins(cfg, ty)) - t
  {
    if t + Mins(BlockMins(cfg, ty)) > close then []
    else (if Offered(cfg, cal, now, day, ty, t) then [t] else [])
         + SlotsFrom(cfg, cal, now, day, ty, t + Mins(SLOT_STEP), close)
  }

  ghost function Slots(cfg: Settings, cal: Calendar, now: int, dayNumber: nat, ty: SigningType): seq<int> {
    var h := HoursOn(cfg, dayNumber);
    var day := Days(dayNumber);
    if h.None? then []
    else SlotsFrom(cfg, cal, now, day, ty, day + Mins(h.value.open), day + Mins(h.value.close))
  }

  lemma SlotsNext(found: seq<int>, cfg: Settings, cal: Calendar, now: int, day: int, ty: SigningType, t: int,
                  close: int)
    requires t + Mins(BlockMins(cfg, ty)) <= close
    ensures found + SlotsFrom(cfg, cal, now, day, ty, t, close) ==
            (if Offered(cfg, cal, now, day, ty, t) then found + [t] else found)
            + SlotsFrom(cfg, cal, now, day, ty, t + Mins(SLOT_STEP), close)
  {
    var here := if Offered(cfg, cal, now, day, ty, t) then [t] else [];
    assert found + here == if Offered(cfg, cal, now, day, ty, t) then found + [t] else found;
  }

  // The half-hour times from opening on at which a service still ends by closing.
  predicate OnGrid(cfg: Settings, dayNumber: nat, ty: SigningType, t: int) {
    var h := HoursOn(cfg, dayNumber);
    && h.Some?
    && var first := Days(dayNumber) + Mins(h.value.open);
    first <= t && (t - first) % Mins(30) == 0
    && t + Mins(BlockMins(cfg, ty)) <= Days(dayNumber) + Mins(h.value.close)
  }

  predicate Increasing(s: seq<int>) {
    forall i, j :: 0 <= i < j < |s| ==> s[i] < s[j]
  }

  lemma {:induction false} SlotsFromExactly(cfg: Settings, cal: Calendar, now: int, day: int, ty: SigningType,
                                            t: int, close: int, x: int)
    ensures x in SlotsFrom(cfg, cal, now, day, ty, t, close) <==>
            t <= x && (x - t) % Mins(SLOT_STEP) == 0 && x + Mins(BlockMins(cfg, ty)) <= close
            && Offered(cfg, cal, now, day, ty, x)
    decreases close - Mins(BlockMins(cfg, ty)) - t
  {
    if t + Mins(BlockMins(cfg, ty)) <= close {
      SlotsFromExactly(cfg, cal, now, day, ty, t + Mins(SLOT_STEP), close, x);
    }
  }

  lemma {:induction false} SlotsFromIncrease(cfg: Settings, cal: Calendar, now: int, day: int, ty: SigningType,
                                             t: int, close: int)
    ensures Increasing(SlotsFrom(cfg, cal, now, day, ty, t, close))
    decreases close - Mins(BlockMins(cfg, ty)) - t
  {
    if t + Mins(BlockMins(cfg, ty)) <= close {
      var rest := SlotsFrom(cfg, cal, now, day, ty, t + Mins(SLOT_STEP), close);
      SlotsFromIncrease(cfg, cal, now, day, ty, t + Mins(SLOT_STEP), close);
      forall i | 0 <= i < |rest|
        ensures t < rest[i]
      {
        SlotsFromExactly(cfg, cal, now, day, ty, t + Mins(SLOT_STEP), close, rest[i]);
      }
    }
  }

  // A page's slots are its grid times that the day's rows leave free, in increasing order.
  lemma SlotsAreTheFreeGrid(cfg: Settings, cal: Calendar, now: int, dayNumber: nat, ty: SigningType)
    ensures Increasing(Slots(cfg, cal, now, dayNumber, ty))
    ensures forall x :: x in Slots(cfg, cal, now, dayNumber, ty) <==>
                        OnGrid(cfg, dayNumber, ty, x) && Offered(cfg, cal, now, Days(dayNumber), ty, x)
  {
    var h, day := HoursOn(cfg, dayNumber), Days(dayNumber);
    if h.Some? {
      var first, close := day + Mins(h.value.open), day + Mins(h.value.close);
      SlotsFromIncrease(cfg, cal, now, day, ty, first, close);
      forall x
        ensures x in Slots(cfg, cal, now, dayNumber, ty) <==>
                OnGrid(cfg, dayNumber, ty, x) && Offered(cfg, cal, now, day, ty, x)
      {
        SlotsFromExactly(cfg, cal, now, day, ty, first, close, x);
      }
    }
  }

  // Every time shown is a half hour of its own weekday's hours, and its service ends within them.
  lemma ShownWithinTheWeekdaysHours(cfg: Settings, cal: Calendar, now: int, dayNumber: nat, ty: SigningType, x: int,
                                    mins: int)
    requires |cfg.activeHours| == 7 && Takes(cfg.services, ty, mins) && x in Slots(cfg, cal, now, dayNumber, ty)
    ensures Weekday(dayNumber) < 7 && cfg.activeHours[Weekday(dayNumber)].Some?
    ensures var h := cfg.activeHours[Weekday(dayNumber)].value;
            && Days(dayNumber) + Mins(h.open) <= x && x + Mins(mins) <= Days(dayNumber) + Mins(h.close)
            && (x - Days(dayNumber) - Mins(h.open)) % Mins(30) == 0
  {
    SlotsAreTheFreeGrid(cfg, cal, now, dayNumber, ty);
    HoursAreTheWeekdays(cfg, dayNumber);
    LengthsAreTheServices(cfg, ty);
  }

  // A request for this time, made now, would be granted.
  ghost predicate Granted(cfg: Settings, cal: Calendar, now: int, ty: SigningType, t: int) {
    CreateStep(cfg, cal, now, ty, t).Ok?
  }

  // ----- Which rows the two checks see -----

  // The longest a booking of this type can occupy the notary, pending or approved: a negative scanback
  // shortens the pending block only.
  function LongestMins(cfg: Settings, ty: SigningType): int {
    if ScanbackMins(cfg, ty) < 0 then DurationMins(cfg, ty) else BlockMins(cfg, ty)
  }

  // A live block of a reachable calendar starts where a booking of the table was requested, and is no
  // longer than its type can be.
  lemma ReachableBlock(cfg: Settings, ops: seq<Op>, e: Entry) returns (b: Booking)
    requires Sane(cfg) && Live(Run(cfg, ops), e)
    ensures b in Run(cfg, ops).bookings
    ensures var block := BlockOf(cfg, Run(cfg, ops), e);
            block.start == b.requestedTime && block.end <= block.start + Mins(LongestMins(cfg, b.serviceType))
  {
    var cal := Run(cfg, ops);
    EveryRunLinksJobs(cfg, ops);
    match e
    case BookingRow(i) => b := cal.bookings[i];
    case JobRow(i) =>
      b := cal.bookings[cal.jobs[i].bookingId];
      assert cal.jobs[i] == ApprovedJob(cfg, cal.jobs[i].bookingId, b);
      assert BlockMins(cfg, b.serviceType) >= 0;
  }

  // Nothing that starts before the day's six-hour look-back can reach a candidate at t.
  ghost predicate LookBackSees(cfg: Settings, day: int, t: int) {
    forall ty :: day - Hours(6) + Mins(LongestMins(cfg, ty) + cfg.bufferMins) <= t
  }

  // Nothing that starts on the next day can reach the candidate.
  predicate EndSees(cfg: Settings, day: int, candidate: Block) {
    candidate.end + Mins(cfg.bufferMins) <= day + Days(1)
  }

  ghost predicate NoLongService(cfg: Settings) {
    forall ty :: LongestMins(cfg, ty) <= 240
  }

  // What the day sees before the candidate, the check at storing sees as well: it looks back as far, or
  // nothing is long enough to matter.
  ghost predicate CheckSeesTheDay(cfg: Settings, day: int, t: int) {
    NoLongService(cfg) || t - Reach(cfg) <= day - Hours(6)
  }

  // And the other way round.
  ghost predicate DaySeesTheCheck(cfg: Settings, day: int, t: int) {
    LookBackSees(cfg, day, t) || day - Hours(6) <= t - Reach(cfg)
  }

  // A live block that collides and that the day reads is read by the check as well.
  lemma CheckReads(cfg: Settings, ops: seq<Op>, day: int, ty: SigningType, t: int, e: Entry)
    requires Sane(cfg) && CheckSeesTheDay(cfg, day, t) && Live(Run(cfg, ops), e)
    requires var block := BlockOf(cfg, Run(cfg, ops), e);
             day - Hours(6) <= block.start && Overlaps(BlockAt(cfg, ty, t), Mins(cfg.bufferMins), block)
    ensures InReach(cfg, BlockAt(cfg, ty, t), BlockOf(cfg, Run(cfg, ops), e).start)
  {
    var b := ReachableBlock(cfg, ops, e);
    assert NoLongService(cfg) ==> LongestMins(cfg, b.serviceType) <= 240;
  }

  // One that the check reads, and that does not start on the next day, is read by the day as well.
  lemma DayReads(cfg: Settings, ops: seq<Op>, day: int, ty: SigningType, t: int, e: Entry)
    requires Sane(cfg) && DaySeesTheCheck(cfg, day, t) && Live(Run(cfg, ops), e)
    requires var block := BlockOf(cfg, Run(cfg, ops), e);
             && InReach(cfg, BlockAt(cfg, ty, t), block.start)
             && Overlaps(BlockAt(cfg, ty, t), Mins(cfg.bufferMins), block)
    ensures day - Hours(6) <= BlockOf(cfg, Run(cfg, ops), e).start
  {
    var b := ReachableBlock(cfg, ops, e);
    if LookBackSees(cfg, day, t) {
      assert day - Hours(6) + Mins(LongestMins(cfg, b.serviceType) + cfg.bufferMins) <= t;
    }
  }

  // Where both see what matters to the other, the slot engine and the check at storing agree.
  lemma BothChecksAgree(cfg: Settings, ops: seq<Op>, day: int, ty: SigningType, t: int)
    requires Sane(cfg) && CheckSeesTheDay(cfg, day, t) && DaySeesTheCheck(cfg, day, t)
    requires EndSees(cfg, day, BlockAt(cfg, ty, t))
    ensures DayTaken(cfg, Run(cfg, ops), day, BlockAt(cfg, ty, t)) <==>
            SlotTaken(cfg, Run(cfg, ops), BlockAt(cfg, ty, t))
  {
    var cal, candidate := Run(cfg, ops), BlockAt(cfg, ty, t);
    forall e | Live(cal, e) && Overlaps(candidate, Mins(cfg.bufferMins), BlockOf(cfg, cal, e))
      ensures InReach(cfg, candidate, BlockOf(cfg, cal, e).start) <==>
              day - Hours(6) <= BlockOf(cfg, cal, e).start < day + Days(1)
    {
      if InReach(cfg, candidate, BlockOf(cfg, cal, e).start) {
        DayReads(cfg, ops, day, ty, t, e);
      }
      if day - Hours(6) <= BlockOf(cfg, cal, e).start {
        CheckReads(cfg, ops, day, ty, t, e);
      }
    }
  }

  // ----- Calendars with a single block -----

  // A request, and its approval if that makes its block longer.
  function LoneOps(cfg: Settings, at: nat, ty: SigningType, start: int): seq<Op> {
    if ScanbackMins(cfg, ty) < 0 then [Create(at, ty, start), Approve(0)] else [Create(at, ty, start)]
  }

  function LongestBlock(cfg: Settings, ty: SigningType, start: int): Block {
    Block(start, start + Mins(LongestMins(cfg, ty)))
  }

  lemma LoneBlock(cfg: Settings, at: nat, ty: SigningType, start: int) returns (e: Entry)
    requires Sane(cfg) && DateError(cfg, at, start).None?
    ensures InClockOrder(LoneOps(cfg, at, ty, start)) && ServedBy(LoneOps(cfg, at, ty, start), at)
    ensures var cal := Run(cfg, LoneOps(cfg, at, ty, start));
            && Live(cal, e) && BlockOf(cfg, cal, e) == LongestBlock(cfg, ty, start)
            && forall f :: Live(cal, f) ==> f == e
  {
    var request := Create(at, ty, start);
    LoneRequestIsAccepted(cfg, at, ty, start);
    RunOfOne(cfg, request);
    if ScanbackMins(cfg, ty) < 0 {
      RunOfTwo(cfg, request, Approve(0));
      e := JobRow(0);
      var cal := Run(cfg, [request, Approve(0)]);
      assert cal.jobs == [ApprovedJob(cfg, 0, Booking(ty, start, PendingReview))];
      assert cal.bookings == [Booking(ty, start, BookingConfirmed)];
      assert BlockMins(cfg, ty) >= 0;
    } else {
      e := BookingRow(0);
    }
  }

  // What the two checks find in such a calendar.
  lemma LoneBlockChecked(cfg: Settings, at: nat, ty: SigningType, start: int, day: int, candidate: Block)
    requires Sane(cfg) && DateError(cfg, at, start).None?
    requires Overlaps(candidate, Mins(cfg.bufferMins), LongestBlock(cfg, ty, start))
    ensures InClockOrder(LoneOps(cfg, at, ty, start)) && ServedBy(LoneOps(cfg, at, ty, start), at)
    ensures var cal := Run(cfg, LoneOps(cfg, at, ty, start));
            && (SlotTaken(cfg, cal, candidate) <==> InReach(cfg, candidate, start))
            && (DayTaken(cfg, cal, day, candidate) <==> day - Hours(6) <= start < day + Days(1))
  {
    var e := LoneBlock(cfg, at, ty, start);
  }

  // ----- What the page shows against what a request is granted -----

  // When the candidate is offered for the last time, the next day cannot be requested yet.
  predicate NextDayStillClosed(cfg: Settings, day: int, t: int) {
    cfg.advanceLimitDays > 0 && day + Days(1) - Days(cfg.advanceLimitDays) > t - Hours(cfg.minNoticeHours)
  }

  // Settings under which the page never hides a time that would be granted.
  ghost predicate PageHidesNothing(cfg: Settings, day: int, t: int) {
    !Bookable(cfg) || CheckSeesTheDay(cfg, day, t)
  }

  // Settings under which the page never shows a time that would be refused.
  ghost predicate PageShowsTruly(cfg: Settings, day: int, ty: SigningType, t: int) {
    !Bookable(cfg)
    || (DaySeesTheCheck(cfg, day, t) && (EndSees(cfg, day, BlockAt(cfg, ty, t)) || NextDayStillClosed(cfg, day, t)))
  }

  ghost predicate Shown(cfg: Settings, ops: seq<Op>, now: int, dayNumber: nat, ty: SigningType, t: int) {
    t in Slots(cfg, Run(cfg, ops), now, dayNumber, ty)
  }

  lemma ShownExactly(cfg: Settings, ops: seq<Op>, now: int, dayNumber: nat, ty: SigningType, t: int)
    requires OnGrid(cfg, dayNumber, ty, t)
    ensures Shown(cfg, ops, now, dayNumber, ty, t) <==>
            InDates(cfg, now, t) && !DayTaken(cfg, Run(cfg, ops), Days(dayNumber), BlockAt(cfg, ty, t))
  {
    SlotsAreTheFreeGrid(cfg, Run(cfg, ops), now, dayNumber, ty);
  }

  lemma NoGrantedSlotIsHidden(cfg: Settings, ops: seq<Op>, now: nat, dayNumber: nat, ty: SigningType, t: int)
    requires Sane(cfg) && OnGrid(cfg, dayNumber, ty, t) && PageHidesNothing(cfg, Days(dayNumber), t)
    ensures Granted(cfg, Run(cfg, ops), now, ty, t) ==> Shown(cfg, ops, now, dayNumber, ty, t)
  {
    var cal, candidate, day := Run(cfg, ops), BlockAt(cfg, ty, t), Days(dayNumber);
    SlotsAreTheFreeGrid(cfg, cal, now, dayNumber, ty);
    if Granted(cfg, cal, now, ty, t) && DayTaken(cfg, cal, day, candidate) {
      var e :| Live(cal, e) && day - Hours(6) <= BlockOf(cfg, cal, e).start < day + Days(1)
               && Overlaps(candidate, Mins(cfg.bufferMins), BlockOf(cfg, cal, e));
      CheckReads(cfg, ops, day, ty, t, e);
    }
  }

  // While a candidate can be requested, the day reads every live block that the check finds colliding.
  lemma DayReadsWhatCollides(cfg: Settings, ops: seq<Op>, now: nat, day: int, ty: SigningType, t: int, e: Entry)
    requires Sane(cfg) && ServedBy(ops, now) && InDates(cfg, now, t) && PageShowsTruly(cfg, day, ty, t)
    requires Live(Run(cfg, ops), e)
    requires var block := BlockOf(cfg, Run(cfg, ops), e);
             && InReach(cfg, BlockAt(cfg, ty, t), block.start)
             && Overlaps(BlockAt(cfg, ty, t), Mins(cfg.bufferMins), block)
    ensures day - Hours(6) <= BlockOf(cfg, Run(cfg, ops), e).start < day + Days(1)
  {
    DayReads(cfg, ops, day, ty, t, e);
    var b := ReachableBlock(cfg, ops, e);
    if cfg.advanceLimitDays > 0 {
      BookedWithinAdvance(cfg, ops, now, b);
    }
  }

  lemma NoShownSlotIsRefused(cfg: Settings, ops: seq<Op>, now: nat, dayNumber: nat, ty: SigningType, t: int)
    requires Sane(cfg) && ServedBy(ops, now) && PageShowsTruly(cfg, Days(dayNumber), ty, t)
    ensures Shown(cfg, ops, now, dayNumber, ty, t) ==> Granted(cfg, Run(cfg, ops), now, ty, t)
  {
    var cal, candidate, day := Run(cfg, ops), BlockAt(cfg, ty, t), Days(dayNumber);
    SlotsAreTheFreeGrid(cfg, cal, now, dayNumber, ty);
    if Shown(cfg, ops, now, dayNumber, ty, t) && SlotTaken(cfg, cal, candidate) {
      var e :| Live(cal, e) && InReach(cfg, candidate, BlockOf(cfg, cal, e).start)
               && Overlaps(candidate, Mins(cfg.bufferMins), BlockOf(cfg, cal, e));
      DayReadsWhatCollides(cfg, ops, now, day, ty, t, e);
    }
  }

  // In whole minutes, some service reaches over the six-hour look-back.
  lemma ReachesOverTheStart(cfg: Settings, dayNumber: nat, m: int) returns (other: SigningType)
    requires !LookBackSees(cfg, Days(dayNumber), Mins(m))
    ensures 1440 * dayNumber - 360 + LongestMins(cfg, other) + cfg.bufferMins >= m + 1
  {
    other :| Days(dayNumber) - Hours(6) + Mins(LongestMins(cfg, other) + cfg.bufferMins) > Mins(m);
  }

  // Where the day begins after the check's look-back: a block that starts in between and reaches the candidate.
  lemma BlockBeforeTheDay(cfg: Settings, dayNumber: nat, ty: SigningType, m: int) returns (other: SigningType)
    requires Sane(cfg) && Days(dayNumber) <= Mins(m) && !DaySeesTheCheck(cfg, Days(dayNumber), Mins(m))
    ensures var start := Days(dayNumber) - Hours(6) - 1;
            && InReach(cfg, BlockAt(cfg, ty, Mins(m)), start)
            && Overlaps(BlockAt(cfg, ty, Mins(m)), Mins(cfg.bufferMins), LongestBlock(cfg, other, start))
  {
    assert BlockMins(cfg, ty) >= 0;
    other := ReachesOverTheStart(cfg, dayNumber, m);
  }

  // Where the check's look-back begins after the day's: a long block that starts in between does.
  lemma BlockBeforeTheCheck(cfg: Settings, day: int, ty: SigningType, t: int) returns (other: SigningType)
    requires Sane(cfg) && day <= t < day + Days(1) && !CheckSeesTheDay(cfg, day, t)
    ensures var start := t - Reach(cfg) - 1;
            && day - Hours(6) <= start < day + Days(1) && !InReach(cfg, BlockAt(cfg, ty, t), start)
            && Overlaps(BlockAt(cfg, ty, t), Mins(cfg.bufferMins), LongestBlock(cfg, other, start))
  {
    assert BlockMins(cfg, ty) >= 0;
    other :| LongestMins(cfg, other) > 240;
  }

  // The next midnight's block reaches a candidate whose buffer passes it.
  lemma BlockAfterTheDay(cfg: Settings, dayNumber: nat, ty: SigningType, t: int)
    requires Sane(cfg) && t < Days(dayNumber + 1) && !EndSees(cfg, Days(dayNumber), BlockAt(cfg, ty, t))
    ensures var start := Days(dayNumber + 1);
            && InReach(cfg, BlockAt(cfg, ty, t), start)
            && Overlaps(BlockAt(cfg, ty, t), Mins(cfg.bufferMins), LongestBlock(cfg, ty, start))
  {
    assert BlockMins(cfg, ty) >= 0;
  }

  lemma GridTimesAreWholeMinutes(cfg: Settings, dayNumber: nat, ty: SigningType, t: int) returns (m: int)
    requires OnGrid(cfg, dayNumber, ty, t)
    ensures t == Mins(m)
  {
    var h := HoursOn(cfg, dayNumber).value;
    var first := Days(dayNumber) + Mins(h.open);
    m := 1440 * dayNumber + h.open + SLOT_STEP * ((t - first) / Mins(SLOT_STEP));
  }

  // A grid time of a day far enough from the epoch for requests the evening before.
  predicate OnDay(cfg: Settings, dayNumber: nat, ty: SigningType, t: int) {
    OnGrid(cfg, dayNumber, ty, t) && t < Days(dayNumber + 1) && Days(dayNumber) - Hours(6) > Hours(cfg.minNoticeHours)
  }

  // A neighbour only the check sees, and a moment it can be requested while the candidate is still offered.
  lemma NeighbourTheDayMisses(cfg: Settings, dayNumber: nat, ty: SigningType, t: int)
    returns (other: SigningType, start: int, at: nat)
    requires Sane(cfg) && OnDay(cfg, dayNumber, ty, t) && !PageShowsTruly(cfg, Days(dayNumber), ty, t)
    ensures DateError(cfg, at, start).None? && at <= t - Hours(cfg.minNoticeHours)
    ensures InReach(cfg, BlockAt(cfg, ty, t), start)
    ensures !(Days(dayNumber) - Hours(6) <= start < Days(dayNumber) + Days(1))
    ensures Overlaps(BlockAt(cfg, ty, t), Mins(cfg.bufferMins), LongestBlock(cfg, other, start))
  {
    var day := Days(dayNumber);
    if DaySeesTheCheck(cfg, day, t) {
      BlockAfterTheDay(cfg, dayNumber, ty, t);
      other, start := ty, day + Days(1);
      at := if cfg.advanceLimitDays > 0 then Max(0, start - Days(cfg.advanceLimitDays)) else 0;
    } else {
      var m := GridTimesAreWholeMinutes(cfg, dayNumber, ty, t);
      other := BlockBeforeTheDay(cfg, dayNumber, ty, m);
      start := day - Hours(6) - 1;
      at := start - Hours(cfg.minNoticeHours);
    }
  }

  // A neighbour only the day reads, requested before the candidate.
  lemma NeighbourTheCheckMisses(cfg: Settings, dayNumber: nat, ty: SigningType, t: int)
    returns (other: SigningType, start: int, at: nat)
    requires Sane(cfg) && OnDay(cfg, dayNumber, ty, t) && !PageHidesNothing(cfg, Days(dayNumber), t)
    ensures DateError(cfg, at, start).None? && at <= t - Hours(cfg.minNoticeHours)
    ensures !InReach(cfg, BlockAt(cfg, ty, t), start) && Days(dayNumber) - Hours(6) <= start < Days(dayNumber) + Days(1)
    ensures Overlaps(BlockAt(cfg, ty, t), Mins(cfg.bufferMins), LongestBlock(cfg, other, start))
  {
    start := t - Reach(cfg) - 1;
    other := BlockBeforeTheCheck(cfg, Days(dayNumber), ty, t);
    at := start - Hours(cfg.minNoticeHours);
  }

  // One earlier request makes the page show, at a moment not before it, a time that is then refused.
  lemma BlindSpot(cfg: Settings, dayNumber: nat, ty: SigningType, t: int) returns (ops: seq<Op>, now: nat)
    requires Sane(cfg) && OnDay(cfg, dayNumber, ty, t) && !PageShowsTruly(cfg, Days(dayNumber), ty, t)
    ensures InClockOrder(ops) && ServedBy(ops, now)
    ensures Shown(cfg, ops, now, dayNumber, ty, t) && !Granted(cfg, Run(cfg, ops), now, ty, t)
  {
    var other, start, at := NeighbourTheDayMisses(cfg, dayNumber, ty, t);
    LoneBlockChecked(cfg, at, other, start, Days(dayNumber), BlockAt(cfg, ty, t));
    ops, now := LoneOps(cfg, at, other, start), t - Hours(cfg.minNoticeHours);
    ShownExactly(cfg, ops, now, dayNumber, ty, t);
  }

  // One earlier request for a service over 240 minutes makes it hide a time that would be granted.
  lemma HiddenTime(cfg: Settings, dayNumber: nat, ty: SigningType, t: int) returns (ops: seq<Op>, now: nat)
    requires Sane(cfg) && OnDay(cfg, dayNumber, ty, t) && !PageHidesNothing(cfg, Days(dayNumber), t)
    ensures InClockOrder(ops) && ServedBy(ops, now)
    ensures Granted(cfg, Run(cfg, ops), now, ty, t) && !Shown(cfg, ops, now, dayNumber, ty, t)
  {
    var other, start, at := NeighbourTheCheckMisses(cfg, dayNumber, ty, t);
    LoneBlockChecked(cfg, at, other, start, Days(dayNumber), BlockAt(cfg, ty, t));
    ops, now := LoneOps(cfg, at, other, start), t - Hours(cfg.minNoticeHours);
    ShownExactly(cfg, ops, now, dayNumber, ty, t);
  }

  // After every run and at every moment not before its last request, the page shows no grid time that a
  // request would be refused, if and only if no block that starts between the check's look-back and the day's
  // can reach it and the buffer ends with the day - or the next day cannot be requested while it is offered.
  lemma PageShowsTrulyExactly(cfg: Settings, dayNumber: nat, ty: SigningType, t: int)
    requires Sane(cfg) && OnDay(cfg, dayNumber, ty, t)
    ensures (forall ops, now: nat :: InClockOrder(ops) && ServedBy(ops, now) ==>
              (Shown(cfg, ops, now, dayNumber, ty, t) ==> Granted(cfg, Run(cfg, ops), now, ty, t)))
            <==> PageShowsTruly(cfg, Days(dayNumber), ty, t)
  {
    if PageShowsTruly(cfg, Days(dayNumber), ty, t) {
      forall ops, now: nat | InClockOrder(ops) && ServedBy(ops, now)
        ensures Shown(cfg, ops, now, dayNumber, ty, t) ==> Granted(cfg, Run(cfg, ops), now, ty, t)
      {
        NoShownSlotIsRefused(cfg, ops, now, dayNumber, ty, t);
      }
    } else {
      var ops, now := BlindSpot(cfg, dayNumber, ty, t);
    }
  }

  // And it hides none that would be granted, if and only if no service is over 240 minutes or the check
  // looks back as far as the day.
  lemma PageHidesNothingExactly(cfg: Settings, dayNumber: nat, ty: SigningType, t: int)
    requires Sane(cfg) && OnDay(cfg, dayNumber, ty, t)
    ensures (forall ops, now: nat :: InClockOrder(ops) && ServedBy(ops, now) ==>
              (Granted(cfg, Run(cfg, ops), now, ty, t) ==> Shown(cfg, ops, now, dayNumber, ty, t)))
            <==> PageHidesNothing(cfg, Days(dayNumber), t)
  {
    if PageHidesNothing(cfg, Days(dayNumber), t) {
      forall ops, now: nat | InClockOrder(ops) && ServedBy(ops, now)
        ensures Granted(cfg, Run(cfg, ops), now, ty, t) ==> Shown(cfg, ops, now, dayNumber, ty, t)
      {
        NoGrantedSlotIsHidden(cfg, ops, now, dayNumber, ty, t);
      }
    } else {
      var ops, now := HiddenTime(cfg, dayNumber, ty, t);
    }
  }

  // So the page is right about a grid time exactly under both conditions.
  lemma PageIsRightExactly(cfg: Settings, dayNumber: nat, ty: SigningType, t: int)
    requires Sane(cfg) && OnDay(cfg, dayNumber, ty, t)
    ensures (forall ops, now: nat :: InClockOrder(ops) && ServedBy(ops, now) ==>
              (Shown(cfg, ops, now, dayNumber, ty, t) <==> Granted(cfg, Run(cfg, ops), now, ty, t)))
            <==> PageShowsTruly(cfg, Days(dayNumber), ty, t) && PageHidesNothing(cfg, Days(dayNumber), t)
  {
    PageShowsTrulyExactly(cfg, dayNumber, ty, t);
    PageHidesNothingExactly(cfg, dayNumber, ty, t);
  }

  // A neighbour only one of the two checks reads.
  lemma NeighbourOneCheckMisses(cfg: Settings, dayNumber: nat, ty: SigningType, t: int)
    returns (other: SigningType, start: int)
    requires Sane(cfg) && OnDay(cfg, dayNumber, ty, t)
    requires !(CheckSeesTheDay(cfg, Days(dayNumber), t) && DaySeesTheCheck(cfg, Days(dayNumber), t)
               && EndSees(cfg, Days(dayNumber), BlockAt(cfg, ty, t)))
    ensures start >= Hours(cfg.minNoticeHours)
    ensures InReach(cfg, BlockAt(cfg, ty, t), start) !=
            (Days(dayNumber) - Hours(6) <= start < Days(dayNumber) + Days(1))
    ensures Overlaps(BlockAt(cfg, ty, t), Mins(cfg.bufferMins), LongestBlock(cfg, other, start))
  {
    var day := Days(dayNumber);
    if !CheckSeesTheDay(cfg, day, t) {
      other := BlockBeforeTheCheck(cfg, day, ty, t);
      start := t - Reach(cfg) - 1;
    } else if !DaySeesTheCheck(cfg, day, t) {
      var m := GridTimesAreWholeMinutes(cfg, dayNumber, ty, t);
      other := BlockBeforeTheDay(cfg, dayNumber, ty, m);
      start := day - Hours(6) - 1;
    } else {
      BlockAfterTheDay(cfg, dayNumber, ty, t);
      other, start := ty, day + Days(1);
    }
  }

  // The two checks themselves differ, whatever the dates allow by then, outside these conditions.
  lemma ChecksDiffer(cfg: Settings, dayNumber: nat, ty: SigningType, t: int) returns (ops: seq<Op>)
    requires Sane(cfg) && Bookable(cfg) && OnDay(cfg, dayNumber, ty, t)
    requires !(CheckSeesTheDay(cfg, Days(dayNumber), t) && DaySeesTheCheck(cfg, Days(dayNumber), t)
               && EndSees(cfg, Days(dayNumber), BlockAt(cfg, ty, t)))
    ensures InClockOrder(ops)
    ensures !(DayTaken(cfg, Run(cfg, ops), Days(dayNumber), BlockAt(cfg, ty, t)) <==>
              SlotTaken(cfg, Run(cfg, ops), BlockAt(cfg, ty, t)))
  {
    var other, start := NeighbourOneCheckMisses(cfg, dayNumber, ty, t);
    var at := start - Hours(cfg.minNoticeHours);
    LoneBlockChecked(cfg, at, other, start, Days(dayNumber), BlockAt(cfg, ty, t));
    ops := LoneOps(cfg, at, other, start);
  }

  // The two checks agree on a grid time, whatever has been booked, exactly when each sees what matters to the
  // other and the buffer ends with the day.
  lemma ChecksAgreeExactly(cfg: Settings, dayNumber: nat, ty: SigningType, t: int)
    requires Sane(cfg) && Bookable(cfg) && OnDay(cfg, dayNumber, ty, t)
    ensures (forall ops :: InClockOrder(ops) ==>
              (DayTaken(cfg, Run(cfg, ops), Days(dayNumber), BlockAt(cfg, ty, t)) <==>
               SlotTaken(cfg, Run(cfg, ops), BlockAt(cfg, ty, t))))
            <==> (CheckSeesTheDay(cfg, Days(dayNumber), t) && DaySeesTheCheck(cfg, Days(dayNumber), t)
                  && EndSees(cfg, Days(dayNumber), BlockAt(cfg, ty, t)))
  {
    var day, candidate := Days(dayNumber), BlockAt(cfg, ty, t);
    if CheckSeesTheDay(cfg, day, t) && DaySeesTheCheck(cfg, day, t) && EndSees(cfg, day, candidate) {
      forall ops | InClockOrder(ops)
        ensures DayTaken(cfg, Run(cfg, ops), day, candidate) <==> SlotTaken(cfg, Run(cfg, ops), candidate)
      {
        BothChecksAgree(cfg, ops, day, ty, t);
      }
    } else {
      var ops := ChecksDiffer(cfg, dayNumber, ty, t);
    }
  }

  // Opening hours under which the page is right about every grid time: no service over 240 minutes, none
  // that reaches over the look-back, and the last buffer ends with the day.
  ghost predicate HoursAreCovered(cfg: Settings, h: OpenHours) {
    && (forall ty :: LongestMins(cfg, ty) <= 240 && LongestMins(cfg, ty) + cfg.bufferMins <= 360 + h.open)
    && h.close + cfg.bufferMins <= 1440
  }

  // Under such hours the slots offered are exactly the grid times a request would be granted.
  lemma OfferedExactlyWhenGranted(cfg: Settings, ops: seq<Op>, now: nat, dayNumber: nat, ty: SigningType, t: int)
    requires Sane(cfg)
    requires HoursOn(cfg, dayNumber).Some? ==> HoursAreCovered(cfg, HoursOn(cfg, dayNumber).value)
    ensures t in Slots(cfg, Run(cfg, ops), now, dayNumber, ty) <==>
            OnGrid(cfg, dayNumber, ty, t) && Granted(cfg, Run(cfg, ops), now, ty, t)
  {
    SlotsAreTheFreeGrid(cfg, Run(cfg, ops), now, dayNumber, ty);
    if OnGrid(cfg, dayNumber, ty, t) {
      assert NoLongService(cfg) && LookBackSees(cfg, Days(dayNumber), t);
      BothChecksAgree(cfg, ops, Days(dayNumber), ty, t);
    }
  }

  // ----- Alternatives after a lost race -----

  function Without(s: seq<int>, x: int): seq<int> {
    if s == [] then []
    else if s[0] == x then Without(s[1..], x)
    else [s[0]] + Without(s[1..], x)
  }

  lemma {:induction false} WithoutLeavesTheRest(s: seq<int>, x: int)
    ensures forall y :: y in Without(s, x) <==> y in s && y != x
    ensures Increasing(s) ==> Increasing(Without(s, x))
  {
    if s != [] {
      WithoutLeavesTheRest(s[1..], x);
      var rest := Without(s[1..], x);
      if Increasing(s) {
        forall i | 0 <= i < |rest|
          ensures s[0] < rest[i]
        {
          assert rest[i] in rest;
          var k :| 0 <= k < |s[1..]| && s[1..][k] == rest[i];
          assert s[0] < s[k + 1];
        }
      }
    }
  }

  // The free times of the i-th day after the requested one, the requested time itself left out.
  ghost function FreeOn(cfg: Settings, cal: Calendar, now: int, dayNumber: nat, ty: SigningType, requested: int,
                        i: nat): seq<int> {
    var slots := Slots(cfg, cal, now, dayNumber + i, ty);
    if i == 0 then Without(slots, Days(dayNumber) + Mins(requested)) else slots
  }

  ghost function FreeDays(cfg: Settings, cal: Calendar, now: int, dayNumber: nat, ty: SigningType, requested: int,
                          horizon: nat): seq<seq<int>> {
    seq(horizon, i requires i >= 0 => FreeOn(cfg, cal, now, dayNumber, ty, requested, i))
  }

  function Flat(days: seq<seq<int>>): seq<int> {
    if days == [] then [] else days[0] + Flat(days[1..])
  }

  function FirstFew(s: seq<int>): seq<int> {
    if |s| <= MAX_SUGGESTIONS then s else s[..MAX_SUGGESTIONS]
  }

  ghost function Alternatives(cfg: Settings, cal: Calendar, now: int, dayNumber: nat, ty: SigningType,
                              requested: int): seq<int> {
    FirstFew(Flat(FreeDays(cfg, cal, now, dayNumber, ty, requested, HORIZON_DAYS)))
  }

  ghost predicate AllGranted(cfg: Settings, cal: Calendar, now: int, ty: SigningType, s: seq<int>) {
    forall t :: t in s ==> Granted(cfg, cal, now, ty, t)
  }

  // The page of the day shows no grid time that would be refused.
  ghost predicate DayShowsTruly(cfg: Settings, dayNumber: nat, ty: SigningType) {
    forall t :: OnGrid(cfg, dayNumber, ty, t) ==> PageShowsTruly(cfg, Days(dayNumber), ty, t)
  }

  lemma CoveredHoursShowTruly(cfg: Settings, dayNumber: nat, ty: SigningType)
    requires Sane(cfg)
    requires HoursOn(cfg, dayNumber).Some? ==> HoursAreCovered(cfg, HoursOn(cfg, dayNumber).value)
    ensures DayShowsTruly(cfg, dayNumber, ty)
  {
    forall t | OnGrid(cfg, dayNumber, ty, t)
      ensures PageShowsTruly(cfg, Days(dayNumber), ty, t)
    {
      assert LookBackSees(cfg, Days(dayNumber), t);
    }
  }

  // Services take time and every day closes by midnight, so that no grid time is on a later day.
  predicate ClosesByMidnight(cfg: Settings, ty: SigningType) {
    BlockMins(cfg, ty) > 0
    && forall k :: 0 <= k < |cfg.activeHours| && cfg.activeHours[k].Some? ==> cfg.activeHours[k].value.close <= 1440
  }

  // The times of a page that are all granted, in increasing order, and not before the day.
  ghost predicate GoodTimes(cfg: Settings, cal: Calendar, now: int, dayNumber: int, ty: SigningType, s: seq<int>) {
    && Increasing(s) && AllGranted(cfg, cal, now, ty, s)
    && (forall t :: t in s ==> Days(dayNumber) <= t)
    && (ClosesByMidnight(cfg, ty) ==> forall t :: t in s ==> t < Days(dayNumber + 1))
  }

  lemma GridTimeIsOnItsDay(cfg: Settings, dayNumber: nat, ty: SigningType, t: int)
    requires OnGrid(cfg, dayNumber, ty, t)
    ensures Days(dayNumber) <= t
    ensures ClosesByMidnight(cfg, ty) ==> t < Days(dayNumber + 1)
  {
  }

  lemma SlotsAreGood(cfg: Settings, ops: seq<Op>, now: nat, dayNumber: nat, ty: SigningType)
    requires Sane(cfg) && ServedBy(ops, now) && DayShowsTruly(cfg, dayNumber, ty)
    ensures GoodTimes(cfg, Run(cfg, ops), now, dayNumber, ty, Slots(cfg, Run(cfg, ops), now, dayNumber, ty))
  {
    SlotsAreTheFreeGrid(cfg, Run(cfg, ops), now, dayNumber, ty);
    forall t | t in Slots(cfg, Run(cfg, ops), now, dayNumber, ty)
      ensures Granted(cfg, Run(cfg, ops), now, ty, t) && Days(dayNumber) <= t
      ensures ClosesByMidnight(cfg, ty) ==> t < Days(dayNumber + 1)
    {
      GridTimeIsOnItsDay(cfg, dayNumber, ty, t);
      NoShownSlotIsRefused(cfg, ops, now, dayNumber, ty, t);
    }
  }

  lemma RestIsGood(cfg: Settings, cal: Calendar, now: int, dayNumber: int, ty: SigningType, s: seq<int>, skip: int)
    requires GoodTimes(cfg, cal, now, dayNumber, ty, s)
    ensures GoodTimes(cfg, cal, now, dayNumber, ty, Without(s, skip)) && skip !in Without(s, skip)
  {
    WithoutLeavesTheRest(s, skip);
  }

  lemma FreeOnDay(cfg: Settings, ops: seq<Op>, now: nat, dayNumber: nat, ty: SigningType, requested: int, i: nat)
    requires Sane(cfg) && ServedBy(ops, now) && DayShowsTruly(cfg, dayNumber + i, ty)
    ensures var free := FreeOn(cfg, Run(cfg, ops), now, dayNumber, ty, requested, i);
            && GoodTimes(cfg, Run(cfg, ops), now, dayNumber + i, ty, free)
            && (i == 0 ==> Days(dayNumber) + Mins(requested) !in free)
  {
    SlotsAreGood(cfg, ops, now, dayNumber + i, ty);
    if i == 0 {
      RestIsGood(cfg, Run(cfg, ops), now, dayNumber, ty, Slots(cfg, Run(cfg, ops), now, dayNumber, ty),
                 Days(dayNumber) + Mins(requested));
    }
  }

  lemma JoinInOrder(a: seq<int>, b: seq<int>, mid: int)
    requires Increasing(a) && Increasing(b)
    requires forall t :: t in a ==> t < mid
    requires forall t :: t in b ==> mid <= t
    ensures Increasing(a + b)
  {
    var s := a + b;
    forall i, j | 0 <= i < j < |s|
      ensures s[i] < s[j]
    {
      if i < |a| <= j {
        assert a[i] in a && b[j - |a|] in b;
      }
    }
  }

  lemma {:induction false} FlatInOrder(days: seq<seq<int>>, first: int)
    requires forall i :: 0 <= i < |days| ==> Increasing(days[i])
    requires forall i, t :: 0 <= i < |days| && t in days[i] ==> Days(first + i) <= t < Days(first + i + 1)
    ensures Increasing(Flat(days))
    ensures forall t :: t in Flat(days) ==> Days(first) <= t
  {
    if days != [] {
      forall i, t | 0 <= i < |days[1..]| && t in days[1..][i]
        ensures Days(first + 1 + i) <= t < Days(first + 1 + i + 1)
      {
        assert t in days[i + 1];
      }
      FlatInOrder(days[1..], first + 1);
      JoinInOrder(days[0], Flat(days[1..]), Days(first + 1));
    }
  }

  lemma {:induction false} FlatMembers(days: seq<seq<int>>)
    ensures forall t :: t in Flat(days) ==> exists i :: 0 <= i < |days| && t in days[i]
  {
    if days != [] {
      FlatMembers(days[1..]);
      forall t | t in Flat(days)
        ensures exists i :: 0 <= i < |days| && t in days[i]
      {
        if t in days[0] {
          assert 0 < |days|;
        } else {
          assert t in Flat(days[1..]);
          var i :| 0 <= i < |days[1..]| && t in days[1..][i];
          assert t in days[i + 1];
        }
      }
    }
  }

  // On days whose pages show truly, every alternative offered after a lost race would be granted, none is the
  // lost time itself, and there are at most five, earliest first where no day runs past midnight.
  lemma AlternativesAreGranted(cfg: Settings, ops: seq<Op>, now: nat, dayNumber: nat, ty: SigningType, requested: nat)
    requires Sane(cfg) && ServedBy(ops, now) && requested < 1440
    requires forall d: nat :: dayNumber <= d < dayNumber + 14 ==> DayShowsTruly(cfg, d, ty)
    ensures var out := Alternatives(cfg, Run(cfg, ops), now, dayNumber, ty, requested);
            && |out| <= 5 && AllGranted(cfg, Run(cfg, ops), now, ty, out)
            && Days(dayNumber) + Mins(requested) !in out
            && (ClosesByMidnight(cfg, ty) ==> Increasing(out))
  {
    var cal, lost := Run(cfg, ops), Days(dayNumber) + Mins(requested);
    var days := FreeDays(cfg, cal, now, dayNumber, ty, requested, HORIZON_DAYS);
    forall i | 0 <= i < |days|
      ensures GoodTimes(cfg, cal, now, dayNumber + i, ty, days[i]) && lost !in days[i]
    {
      FreeOnDay(cfg, ops, now, dayNumber, ty, requested, i);
    }
    FlatMembers(days);
    forall t | t in Flat(days)
      ensures Granted(cfg, cal, now, ty, t) && t != lost
    {
      var i :| 0 <= i < |days| && t in days[i];
    }
    if ClosesByMidnight(cfg, ty) {
      FlatInOrder(days, dayNumber);
    }
  }

  lemma {:induction false} FlatHasAll(days: seq<seq<int>>, i: nat, t: int)
    requires i < |days| && t in days[i]
    ensures t in Flat(days)
  {
    if i > 0 {
      FlatHasAll(days[1..], i - 1, t);
    }
  }

  lemma FirstFewExactly(s: seq<int>, x: int)
    requires x in s
    ensures x in FirstFew(s) || (|FirstFew(s)| == 5 && (Increasing(s) ==> forall y :: y in FirstFew(s) ==> y < x))
  {
    var k :| 0 <= k < |s| && s[k] == x;
    if x !in FirstFew(s) {
      assert k >= 5 && forall j :: 0 <= j < 5 ==> FirstFew(s)[j] == s[j];
    }
  }

  lemma FreeTimeIsListed(cfg: Settings, cal: Calendar, now: int, dayNumber: nat, ty: SigningType, requested: nat,
                         i: nat, x: int)
    requires i < 14 && x in Slots(cfg, cal, now, dayNumber + i, ty) && x != Days(dayNumber) + Mins(requested)
    ensures x in Flat(FreeDays(cfg, cal, now, dayNumber, ty, requested, HORIZON_DAYS))
  {
    WithoutLeavesTheRest(Slots(cfg, cal, now, dayNumber + i, ty), Days(dayNumber) + Mins(requested));
    FlatHasAll(FreeDays(cfg, cal, now, dayNumber, ty, requested, HORIZON_DAYS), i, x);
  }

  // No free time of the fourteen days is passed over for a later one: what is not among the alternatives
  // comes after five that are.
  lemma AlternativesAreTheFirst(cfg: Settings, cal: Calendar, now: int, dayNumber: nat, ty: SigningType, requested: nat,
                                i: nat, x: int)
    requires i < 14 && x in Slots(cfg, cal, now, dayNumber + i, ty) && x != Days(dayNumber) + Mins(requested)
    ensures var out := Alternatives(cfg, cal, now, dayNumber, ty, requested);
            x in out || (|out| == 5 && (ClosesByMidnight(cfg, ty) ==> forall y :: y in out ==> y < x))
  {
    FreeTimeIsListed(cfg, cal, now, dayNumber, ty, requested, i, x);
    FirstFewExactly(Flat(FreeDays(cfg, cal, now, dayNumber, ty, requested, HORIZON_DAYS)), x);
    if ClosesByMidnight(cfg, ty) {
      FreeDaysInOrder(cfg, cal, now, dayNumber, ty, requested);
    }
  }

  lemma FreeDaysInOrder(cfg: Settings, cal: Calendar, now: int, dayNumber: nat, ty: SigningType, requested: nat)
    requires ClosesByMidnight(cfg, ty)
    ensures Increasing(Flat(FreeDays(cfg, cal, now, dayNumber, ty, requested, HORIZON_DAYS)))
  {
    var days := FreeDays(cfg, cal, now, dayNumber, ty, requested, HORIZON_DAYS);
    forall i | 0 <= i < |days|
      ensures Increasing(days[i]) && forall t :: t in days[i] ==> Days(dayNumber + i) <= t < Days(dayNumber + i + 1)
    {
      FreeInOrder(cfg, cal, now, dayNumber, ty, requested, i);
    }
    FlatInOrder(days, dayNumber);
  }

  lemma FreeInOrder(cfg: Settings, cal: Calendar, now: int, dayNumber: nat, ty: SigningType, requested: nat, i: nat)
    requires ClosesByMidnight(cfg, ty)
    ensures var free := FreeOn(cfg, cal, now, dayNumber, ty, requested, i);
            Increasing(free) && forall t :: t in free ==> Days(dayNumber + i) <= t < Days(dayNumber + i + 1)
  {
    var slots := Slots(cfg, cal, now, dayNumber + i, ty);
    SlotsAreTheFreeGrid(cfg, cal, now, dayNumber + i, ty);
    forall t | t in slots
      ensures Days(dayNumber + i) <= t < Days(dayNumber + i + 1)
    {
      GridTimeIsOnItsDay(cfg, dayNumber + i, ty, t);
    }
    WithoutLeavesTheRest(slots, Days(dayNumber) + Mins(requested));
  }
}
