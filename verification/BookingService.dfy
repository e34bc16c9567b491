/** The booking service itself: loops over the tables and row updates, each method proved
    to do what the state machine of BookingCalendar and the slots of BookingSlots say. */
module BookingService {
  import opened Clock
  import opened Wrappers
  import opened BookingRules
  import opened BookingCalendar
  import opened BookingSlots

  class BookingDesk {
    const cfg: Settings
    var bookings: seq<Booking>
    var jobs: seq<Job>

    constructor (cfg: Settings)
      ensures this.cfg == cfg && Tables() == EMPTY_CALENDAR
    {
      this.cfg := cfg;
      bookings, jobs := [], [];
    }

    function Tables(): Calendar
      reads this
    {
      Calendar(bookings, jobs)
    }

    // A pending booking's block.
    function Pending(i: nat): Block
      requires i < |bookings|
      reads this
    {
      BlockAt(cfg, bookings[i].serviceType, bookings[i].requestedTime)
    }

    ghost predicate TakenBefore(candidate: Block, lo: int, hi: int, jobsSeen: nat, bookingsSeen: nat)
      reads this
    {
      exists e :: Live(Tables(), e) && (match e case JobRow(i) => i < jobsSeen case BookingRow(i) => i < bookingsSeen)
                  && lo <= BlockOf(cfg, Tables(), e).start < hi
                  && Overlaps(candidate, Mins(cfg.bufferMins), BlockOf(cfg, Tables(), e))
    }

    method IsSlotBlockTaken(start: int, totalMins: int) returns (taken: bool)
      ensures taken <==> SlotTaken(cfg, Tables(), Block(start, start + Mins(totalMins)))
    {
      var candidate := Block(start, start + Mins(totalMins));
      var buffer := Mins(cfg.bufferMins);
      var lo, hi := start - Reach(cfg), candidate.end + Reach(cfg);
      for i := 0 to |jobs|
        invariant !TakenBefore(candidate, lo, hi, i, 0)
      {
        var j := jobs[i];
        if JobIsLive(j) && lo <= j.appointmentTime < hi
           && Overlaps(candidate, buffer, Block(j.appointmentTime, JobBlockEnd(j))) {
          assert Live(Tables(), JobRow(i));
          return true;
        }
      }
      for i := 0 to |bookings|
        invariant !TakenBefore(candidate, lo, hi, |jobs|, i)
      {
        var b := bookings[i];
        if b.status == PendingReview && lo <= b.requestedTime < hi && Overlaps(candidate, buffer, Pending(i)) {
          assert Live(Tables(), BookingRow(i));
          return true;
        }
      }
      return false;
    }

    // Adds a request to the table, or refuses it.
    method Request(now: nat, ty: SigningType, t: int) returns (r: Result<nat, BookingError>)
      modifies this
      ensures Tables() == After(cfg, old(Tables()), Create(now, ty, t))
      ensures match CreateStep(cfg, old(Tables()), now, ty, t)
              case Ok(_) => r == Ok(|old(bookings)|)
              case Err(e) => r == Err(e)
    {
      if t < now {
        return Err(InThePast);
      }
      var minNotice, advanceLimit := Hours(cfg.minNoticeHours), Days(cfg.advanceLimitDays);
      if t < now + minNotice {
        return Err(TooLittleNotice);
      }
      if advanceLimit > 0 && t > now + advanceLimit {
        return Err(TooFarAhead);
      }
      var taken := IsSlotBlockTaken(t, BlockMins(cfg, ty));
      if taken {
        return Err(SlotConflict);
      }
      bookings := bookings + [Booking(ty, t, PendingReview)];
      return Ok(|bookings| - 1);
    }

    method Confirm(id: nat) returns (r: Result<nat, BookingError>)
      modifies this
      ensures Tables() == After(cfg, old(Tables()), Approve(id))
      ensures match ApproveStep(cfg, old(Tables()), id)
              case Ok(_) => r == Ok(|old(jobs)|)
              case Err(e) => r == Err(e)
    {
      if id >= |bookings| {
        return Err(NotFound);
      }
      var b := bookings[id];
      if b.status != PendingReview {
        return Err(NotPendingReview);
      }
      var signing, scanback := DurationMins(cfg, b.serviceType), ScanbackMins(cfg, b.serviceType);
      var signingEndsAt := b.requestedTime + Mins(signing);
      var scanbackEndsAt: Option<int> := None;
      if scanback > 0 {
        scanbackEndsAt := Some(signingEndsAt + Mins(scanback));
      }
      jobs := jobs + [Job(id, b.requestedTime, signing, scanback, Some(signingEndsAt), scanbackEndsAt,
                          CONFIRMED, false)];
      bookings := bookings[id := b.(status := BookingConfirmed)];
      return Ok(|jobs| - 1);
    }

    method Refuse(id: nat) returns (r: Result<nat, BookingError>)
      modifies this
      ensures Tables() == After(cfg, old(Tables()), Decline(id))
      ensures match DeclineStep(old(Tables()), id)
              case Ok(_) => r == Ok(id)
              case Err(e) => r == Err(e)
    {
      if id >= |bookings| {
        return Err(NotFound);
      }
      if bookings[id].status != PendingReview {
        return Err(NotPendingReview);
      }
      bookings := bookings[id := bookings[id].(status := BookingDeclined)];
      return Ok(id);
    }

    method Release(id: nat) returns (r: Result<nat, BookingError>)
      modifies this
      ensures Tables() == After(cfg, old(Tables()), Cancel(id))
      ensures match CancelStep(old(Tables()), id)
              case Ok(_) => r == Ok(id)
              case Err(e) => r == Err(e)
    {
      if id >= |bookings| {
        return Err(NotFound);
      }
      if bookings[id].status != BookingConfirmed {
        return Err(NotConfirmed);
      }
      var i := 0;
      while i < |jobs| && !(jobs[i].bookingId == id && !jobs[i].deleted)
        invariant i <= |jobs| && FirstJobOf(jobs, id, 0) == FirstJobOf(jobs, id, i)
      {
        i := i + 1;
      }
      if i < |jobs| {
        jobs := jobs[i := jobs[i].(deleted := true)];
      }
      bookings := bookings[id := bookings[id].(status := CancelledByClient)];
      return Ok(id);
    }

    // The blocks the slot engine reads for a day.
    method Occupied(day: int) returns (blocks: seq<Block>)
      ensures Stands(blocks, day)
    {
      var lo, hi := day - Hours(6), day + Days(1);
      blocks := [];
      for i := 0 to |jobs|
        invariant forall k :: 0 <= k < |blocks| ==> Seen(blocks[k], lo, hi, i, 0)
        invariant forall e ::
                    Live(Tables(), e) && e.JobRow? && e.i < i && lo <= BlockOf(cfg, Tables(), e).start < hi ==>
                      BlockOf(cfg, Tables(), e) in blocks
      {
        var j := jobs[i];
        if JobIsLive(j) && lo <= j.appointmentTime < hi {
          assert BlockOf(cfg, Tables(), JobRow(i)) == Block(j.appointmentTime, JobBlockEnd(j));
          blocks := blocks + [Block(j.appointmentTime, JobBlockEnd(j))];
        }
      }
      for i := 0 to |bookings|
        invariant forall k :: 0 <= k < |blocks| ==> Seen(blocks[k], lo, hi, |jobs|, i)
        invariant forall e ::
                    Live(Tables(), e) && (e.JobRow? || e.i < i) && lo <= BlockOf(cfg, Tables(), e).start < hi ==>
                      BlockOf(cfg, Tables(), e) in blocks
      {
        var b := bookings[i];
        if b.status == PendingReview && lo <= b.requestedTime < hi {
          assert BlockOf(cfg, Tables(), BookingRow(i)) == Pending(i);
          blocks := blocks + [Pending(i)];
        }
      }
    }

    // b is the block of a live row among those already read.
    ghost predicate Seen(b: Block, lo: int, hi: int, jobsSeen: nat, bookingsSeen: nat)
      reads this
    {
      exists e :: Live(Tables(), e) && (match e case JobRow(i) => i < jobsSeen case BookingRow(i) => i < bookingsSeen)
                  && BlockOf(cfg, Tables(), e) == b && lo <= b.start < hi
    }

    // The blocks collide with a candidate exactly when the day's rows do.
    ghost predicate Stands(blocks: seq<Block>, day: int)
      reads this
    {
      forall candidate ::
        (exists i :: 0 <= i < |blocks| && Overlaps(candidate, Mins(cfg.bufferMins), blocks[i]))
        <==> DayTaken(cfg, Tables(), day, candidate)
    }

    method KeepsSlot(occupied: seq<Block>, now: int, day: int, ty: SigningType, t: int) returns (keep: bool)
      requires Stands(occupied, day)
      ensures keep <==> Offered(cfg, Tables(), now, day, ty, t)
    {
      var minNotice, advanceLimit := Hours(cfg.minNoticeHours), Days(cfg.advanceLimitDays);
      if t < now + minNotice {
        return false;
      }
      if advanceLimit > 0 && t > now + advanceLimit {
        return false;
      }
      var candidate := BlockAt(cfg, ty, t);
      for i := 0 to |occupied|
        invariant forall k :: 0 <= k < i ==> !Overlaps(candidate, Mins(cfg.bufferMins), occupied[k])
      {
        if Overlaps(candidate, Mins(cfg.bufferMins), occupied[i]) {
          return false;
        }
      }
      return true;
    }

    method ComputeSlots(ghost cal: Calendar, now: int, dayNumber: nat, ty: SigningType) returns (slots: seq<int>)
      requires cal == Tables()
      ensures slots == Slots(cfg, cal, now, dayNumber, ty)
    {
      var h := HoursOn(cfg, dayNumber);
      if h.None? {
        return [];
      }
      var day := Days(dayNumber);
      var occupied := Occupied(day);
      var t, close := day + Mins(h.value.open), day + Mins(h.value.close);
      ghost var all := SlotsFrom(cfg, cal, now, day, ty, t, close);
      slots := [];
      assert slots + all == all;
      while t + Mins(BlockMins(cfg, ty)) <= close
        invariant slots + SlotsFrom(cfg, cal, now, day, ty, t, close) == all
        decreases close - Mins(BlockMins(cfg, ty)) - t
      {
        SlotsNext(slots, cfg, cal, now, day, ty, t, close);
        var keep := KeepsSlot(occupied, now, day, ty, t);
        if keep {
          slots := slots + [t];
        }
        t := t + Mins(SLOT_STEP);
      }
    }

    lemma KeptIsFree(cal: Calendar, now: int, dayNumber: nat, ty: SigningType, requested: int, i: nat, slots: seq<int>,
                     leaveOut: bool)
      requires slots == Slots(cfg, cal, now, dayNumber + i, ty) && (leaveOut <==> i == 0)
      ensures FreeOn(cfg, cal, now, dayNumber, ty, requested, i)
              == Kept(slots, leaveOut, Days(dayNumber) + Mins(requested))
    {
    }

    // One day's free times behind those found so far; cal is the calendar throughout.
    method AddDay(before: seq<int>, ghost cal: Calendar, now: int, dayNumber: nat, ty: SigningType, requested: int,
                  i: nat)
      returns (out: seq<int>)
      requires |before| < MAX_SUGGESTIONS && cal == Tables()
      ensures out == FirstFew(before + FreeOn(cfg, cal, now, dayNumber, ty, requested, i))
    {
      var slots := ComputeSlots(cal, now, dayNumber + i, ty);
      KeptIsFree(cal, now, dayNumber, ty, requested, i, slots, i == 0);
      out := AddFree(before, slots, i == 0, Days(dayNumber) + Mins(requested));
    }

    method SuggestAlternatives(now: int, dayNumber: nat, ty: SigningType, requested: int) returns (out: seq<int>)
      ensures out == Alternatives(cfg, Tables(), now, dayNumber, ty, requested)
    {
      ghost var cal := Tables();
      ghost var days := FreeDays(cfg, cal, now, dayNumber, ty, requested, HORIZON_DAYS);
      out := [];
      var i := 0;
      assert days[0..] == days && [] + Flat(days) == Flat(days);
      while i < HORIZON_DAYS && |out| < MAX_SUGGESTIONS
        invariant i <= |days| && |out| <= MAX_SUGGESTIONS && cal == Tables()
        invariant FirstFew(out + Flat(days[i..])) == FirstFew(Flat(days))
      {
        FirstFewInStages(out, days, i);
        out := AddDay(out, cal, now, dayNumber, ty, requested, i);
        i := i + 1;
      }
      FirstFewDone(out, Flat(days[i..]));
    }

    lemma FirstFewDone(out: seq<int>, rest: seq<int>)
      requires |out| <= MAX_SUGGESTIONS
      ensures |out| == MAX_SUGGESTIONS || rest == [] ==> FirstFew(out + rest) == out
    {
    }

    lemma FirstFewInStages(out: seq<int>, days: seq<seq<int>>, i: nat)
      requires i < |days|
      ensures FirstFew(FirstFew(out + days[i]) + Flat(days[i + 1..])) == FirstFew(out + Flat(days[i..]))
    {
      assert days[i..][1..] == days[i + 1..];
      assert out + Flat(days[i..]) == (out + days[i]) + Flat(days[i + 1..]);
    }

    // The slots, the one to skip left out if it is to be.
    function Kept(slots: seq<int>, leaveOut: bool, skip: int): seq<int> {
      if leaveOut then Without(slots, skip) else slots
    }

    lemma KeptNext(out: seq<int>, slots: seq<int>, k: nat, leaveOut: bool, skip: int)
      requires k < |slots|
      ensures var kept := if leaveOut && slots[k] == skip then out else out + [slots[k]];
              out + Kept(slots[k..], leaveOut, skip) == kept + Kept(slots[k + 1..], leaveOut, skip)
    {
      assert slots[k..][1..] == slots[k + 1..];
    }

    method AddFree(before: seq<int>, slots: seq<int>, leaveOut: bool, skip: int) returns (out: seq<int>)
      requires |before| < MAX_SUGGESTIONS
      ensures out == FirstFew(before + Kept(slots, leaveOut, skip))
    {
      ghost var all := before + Kept(slots, leaveOut, skip);
      out := before;
      var k := 0;
      assert slots[0..] == slots;
      while k < |slots| && |out| < MAX_SUGGESTIONS
        invariant k <= |slots| && |out| <= MAX_SUGGESTIONS
        invariant out + Kept(slots[k..], leaveOut, skip) == all
      {
        KeptNext(out, slots, k, leaveOut, skip);
        if !(leaveOut && slots[k] == skip) {
          out := out + [slots[k]];
        }
        k := k + 1;
      }
      ghost var rest := Kept(slots[k..], leaveOut, skip);
      assert k == |slots| ==> slots[k..] == [];
      FirstFewDone(out, rest);
    }
  }
}
