/** The life of a public booking as a state machine over the calendar tables, and the
    promise the page makes: nobody can be booked closer than the buffer to anybody else. */
module BookingCalendar {
  import opened Clock
  import opened Wrappers
  import opened BookingRules

  datatype BookingError =
    | InThePast | TooLittleNotice | TooFarAhead | SlotConflict
    | NotFound | NotPendingReview | NotConfirmed

  // now is the server clock when the request is served.
  datatype Op =
    | Create(now: nat, serviceType: SigningType, requestedTime: int)
    | Approve(id: nat)
    | Decline(id: nat)
    | Cancel(id: nat)

  // The date limits, in the order the source tests them.
  function DateError(cfg: Settings, now: int, t: int): Option<BookingError> {
    if t < now then Some(InThePast)
    else if t < now + Hours(cfg.minNoticeHours) then Some(TooLittleNotice)
    else if Days(cfg.advanceLimitDays) > 0 && t > now + Days(cfg.advanceLimitDays) then Some(TooFarAhead)
    else None
  }

  ghost function CreateStep(cfg: Settings, cal: Calendar, now: int, ty: SigningType,
                            t: int): Result<Calendar, BookingError>
  {
    var dated := DateError(cfg, now, t);
    if dated.Some? then Err(dated.value)
    else if SlotTaken(cfg, cal, BlockAt(cfg, ty, t)) then Err(SlotConflict)
    else Ok(cal.(bookings := cal.bookings + [Booking(ty, t, PendingReview)]))
  }

  function WithStatus(cal: Calendar, id: nat, status: BookingStatus): Calendar
    requires id < |cal.bookings|
  {
    cal.(bookings := cal.bookings[id := cal.bookings[id].(status := status)])
  }

  function ApproveStep(cfg: Settings, cal: Calendar, id: nat): Result<Calendar, BookingError> {
    if id >= |cal.bookings| then Err(NotFound)
    else if cal.bookings[id].status != PendingReview then Err(NotPendingReview)
    else Ok(WithStatus(cal, id, BookingConfirmed).(jobs := cal.jobs + [ApprovedJob(cfg, id, cal.bookings[id])]))
  }

  function DeclineStep(cal: Calendar, id: nat): Result<Calendar, BookingError> {
    if id >= |cal.bookings| then Err(NotFound)
    else if cal.bookings[id].status != PendingReview then Err(NotPendingReview)
    else Ok(WithStatus(cal, id, BookingDeclined))
  }

  // The first job row of a booking that is not deleted, from position from on; the table's length if none.
  function FirstJobOf(jobs: seq<Job>, id: nat, from: nat): (i: nat)
    requires from <= |jobs|
    ensures from <= i <= |jobs|
    ensures i < |jobs| ==> jobs[i].bookingId == id && !jobs[i].deleted
    ensures forall k :: from <= k < i ==> !(jobs[k].bookingId == id && !jobs[k].deleted)
    decreases |jobs| - from
  {
    if from == |jobs| || (jobs[from].bookingId == id && !jobs[from].deleted) then from
    else FirstJobOf(jobs, id, from + 1)
  }

  function CancelStep(cal: Calendar, id: nat): Result<Calendar, BookingError> {
    if id >= |cal.bookings| then Err(NotFound)
    else if cal.bookings[id].status != BookingConfirmed then Err(NotConfirmed)
    else
      var j := FirstJobOf(cal.jobs, id, 0);
      var jobs := if j < |cal.jobs| then cal.jobs[j := cal.jobs[j].(deleted := true)] else cal.jobs;
      Ok(WithStatus(cal, id, CancelledByClient).(jobs := jobs))
  }

  ghost function Step(cfg: Settings, cal: Calendar, op: Op): Result<Calendar, BookingError> {
    match op
    case Create(now, ty, t) => CreateStep(cfg, cal, now, ty, t)
    case Approve(id) => ApproveStep(cfg, cal, id)
    case Decline(id) => DeclineStep(cal, id)
    case Cancel(id) => CancelStep(cal, id)
  }

  // A refused request leaves the tables as they were.
  ghost function After(cfg: Settings, cal: Calendar, op: Op): Calendar {
    var r := Step(cfg, cal, op);
    if r.Ok? then r.value else cal
  }

  ghost function Run(cfg: Settings, ops: seq<Op>): Calendar {
    if ops == [] then EMPTY_CALENDAR
    else After(cfg, Run(cfg, ops[..|ops| - 1]), ops[|ops| - 1])
  }

  ghost predicate AllApart(cfg: Settings, cal: Calendar) {
    forall e, f :: Live(cal, e) && Live(cal, f) && e != f ==>
                     Apart(BlockOf(cfg, cal, e), BlockOf(cfg, cal, f), Mins(cfg.bufferMins))
  }

  ghost predicate JobsFollowBookings(cfg: Settings, cal: Calendar) {
    && (forall b :: b in cal.bookings ==> b.requestedTime >= 0)
    && (forall i :: 0 <= i < |cal.jobs| ==> cal.jobs[i].bookingId < |cal.bookings|)
    && (forall i :: 0 <= i < |cal.jobs| && !cal.jobs[i].deleted ==>
                      var b := cal.bookings[cal.jobs[i].bookingId];
                      b.status == BookingConfirmed && cal.jobs[i] == ApprovedJob(cfg, cal.jobs[i].bookingId, b))
  }

  predicate HoldsJob(cal: Calendar, id: nat, i: nat) {
    i < |cal.jobs| && !cal.jobs[i].deleted && cal.jobs[i].bookingId == id
  }

  // A booking is confirmed exactly when it has a job, and it never has two.
  ghost predicate OneJobPerConfirmation(cal: Calendar) {
    && (forall id, i, j :: HoldsJob(cal, id, i) && HoldsJob(cal, id, j) ==> i == j)
    && (forall id: nat :: id < |cal.bookings| ==>
                            (cal.bookings[id].status == BookingConfirmed <==> exists i :: HoldsJob(cal, id, i)))
  }

  // How the holder of a booking's job moves in each step.
  lemma HoldersAfter(cfg: Settings, cal: Calendar, op: Op, id: nat, i: nat)
    requires JobsFollowBookings(cfg, cal) && OneJobPerConfirmation(cal)
    requires Step(cfg, cal, op).Ok?
    ensures HoldsJob(After(cfg, cal, op), id, i) <==>
            match op
            case Approve(k) => HoldsJob(cal, id, i) || (id == k && i == |cal.jobs|)
            case Cancel(k) => HoldsJob(cal, id, i) && id != k
            case _ => HoldsJob(cal, id, i)
  {
    match op
    case Create(_, _, _) => assert After(cfg, cal, op).jobs == cal.jobs;
    case Approve(k) => assert After(cfg, cal, op).jobs == cal.jobs + [ApprovedJob(cfg, k, cal.bookings[k])];
    case Decline(_) => assert After(cfg, cal, op).jobs == cal.jobs;
    case Cancel(k) =>
      var j := FirstJobOf(cal.jobs, k, 0);
      assert cal.bookings[k].status == BookingConfirmed;
      var h :| HoldsJob(cal, k, h);
      assert HoldsJob(cal, k, j);
  }

  lemma JobLinksKept(cfg: Settings, cal: Calendar, op: Op)
    requires JobsFollowBookings(cfg, cal) && OneJobPerConfirmation(cal)
    ensures JobsFollowBookings(cfg, After(cfg, cal, op))
  {
    var next := After(cfg, cal, op);
    if op.Cancel? && Step(cfg, cal, op).Ok? {
      forall i: nat | i < |next.jobs| && !next.jobs[i].deleted
        ensures next.jobs[i] == cal.jobs[i] && next.jobs[i].bookingId != op.id
      {
        HoldersAfter(cfg, cal, op, op.id, i);
      }
    }
  }

  lemma OneJobKept(cfg: Settings, cal: Calendar, op: Op)
    requires JobsFollowBookings(cfg, cal) && OneJobPerConfirmation(cal)
    ensures OneJobPerConfirmation(After(cfg, cal, op))
  {
    var next := After(cfg, cal, op);
    if Step(cfg, cal, op).Ok? {
      forall id, i
        ensures HoldsJob(next, id, i) <==>
                match op
                case Approve(k) => HoldsJob(cal, id, i) || (id == k && i == |cal.jobs|)
                case Cancel(k) => HoldsJob(cal, id, i) && id != k
                case _ => HoldsJob(cal, id, i)
      {
        HoldersAfter(cfg, cal, op, id, i);
      }
      if op.Approve? {
        assert forall i :: !HoldsJob(cal, op.id, i);
        assert HoldsJob(next, op.id, |cal.jobs|);
      }
      if op.Create? {
        assert forall i :: !HoldsJob(cal, |cal.bookings|, i);
      }
    }
  }

  // A calendar all of whose blocks come, one for one, from blocks of a well-spaced calendar is well-spaced.
  lemma ApartThroughOrigins(cfg: Settings, cal: Calendar, next: Calendar, origin: Entry -> Entry)
    requires AllApart(cfg, cal)
    requires forall e :: Live(next, e) ==> Live(cal, origin(e)) && BlockOf(cfg, cal, origin(e)) == BlockOf(cfg, next, e)
    requires forall e, f :: Live(next, e) && Live(next, f) && e != f ==> origin(e) != origin(f)
    ensures AllApart(cfg, next)
  {
    forall e, f | Live(next, e) && Live(next, f) && e != f
      ensures Apart(BlockOf(cfg, next, e), BlockOf(cfg, next, f), Mins(cfg.bufferMins))
    {
      assert Live(cal, origin(e)) && Live(cal, origin(f)) && origin(e) != origin(f);
    }
  }

  lemma LiveBlocksFit(cfg: Settings, cal: Calendar)
    requires Sane(cfg) && Fits(cfg) && JobsFollowBookings(cfg, cal)
    ensures BlocksWithin(cfg, cal, Mins(240))
  {
    forall e | Live(cal, e)
      ensures BlockOf(cfg, cal, e).end - BlockOf(cfg, cal, e).start <= Mins(240)
    {
      match e
      case BookingRow(i) => assert BlockMins(cfg, cal.bookings[i].serviceType) <= 240;
      case JobRow(i) =>
        var b := cal.bookings[cal.jobs[i].bookingId];
        ApprovalKeepsTheBlock(cfg, cal.jobs[i].bookingId, b);
        assert BlockMins(cfg, b.serviceType) <= 240;
    }
  }

  lemma CreateKeepsApart(cfg: Settings, cal: Calendar, op: Op)
    requires Sane(cfg) && Fits(cfg) && JobsFollowBookings(cfg, cal) && AllApart(cfg, cal) && op.Create?
    ensures AllApart(cfg, After(cfg, cal, op))
  {
    var next := After(cfg, cal, op);
    if Step(cfg, cal, op).Ok? {
      var added := BookingRow(|cal.bookings|);
      LiveBlocksFit(cfg, cal);
      WindowDecidesLikeFullScan(cfg, cal, BlockAt(cfg, op.serviceType, op.requestedTime));
      forall e | Live(next, e) && e != added
        ensures Live(cal, e) && BlockOf(cfg, cal, e) == BlockOf(cfg, next, e)
      {
      }
    }
  }

  lemma ApproveKeepsApart(cfg: Settings, cal: Calendar, op: Op)
    requires Sane(cfg) && Fits(cfg) && JobsFollowBookings(cfg, cal) && AllApart(cfg, cal) && op.Approve?
    ensures AllApart(cfg, After(cfg, cal, op))
  {
    if Step(cfg, cal, op).Ok? {
      assert cal.bookings[op.id] in cal.bookings;
      ApprovalKeepsTheBlock(cfg, op.id, cal.bookings[op.id]);
      var origin := (e: Entry) => if e == JobRow(|cal.jobs|) then BookingRow(op.id) else e;
      ApartThroughOrigins(cfg, cal, After(cfg, cal, op), origin);
    }
  }

  lemma ReleaseKeepsApart(cfg: Settings, cal: Calendar, op: Op)
    requires AllApart(cfg, cal) && (op.Decline? || op.Cancel?)
    ensures AllApart(cfg, After(cfg, cal, op))
  {
    ApartThroughOrigins(cfg, cal, After(cfg, cal, op), (e: Entry) => e);
  }

  // Over every run, whatever the settings, jobs and confirmed bookings correspond one to one.
  lemma {:induction false} EveryRunLinksJobs(cfg: Settings, ops: seq<Op>)
    ensures JobsFollowBookings(cfg, Run(cfg, ops)) && OneJobPerConfirmation(Run(cfg, ops))
  {
    if ops != [] {
      EveryRunLinksJobs(cfg, ops[..|ops| - 1]);
      JobLinksKept(cfg, Run(cfg, ops[..|ops| - 1]), ops[|ops| - 1]);
      OneJobKept(cfg, Run(cfg, ops[..|ops| - 1]), ops[|ops| - 1]);
    }
  }

  // Over every run from an empty calendar: live blocks stay a buffer apart, and jobs and
  // confirmed bookings correspond one to one.
  lemma {:induction false} EveryRunKeepsTheCalendarApart(cfg: Settings, ops: seq<Op>)
    requires Sane(cfg) && Fits(cfg)
    ensures AllApart(cfg, Run(cfg, ops))
    ensures JobsFollowBookings(cfg, Run(cfg, ops)) && OneJobPerConfirmation(Run(cfg, ops))
  {
    EveryRunLinksJobs(cfg, ops);
    if ops != [] {
      var before, op := Run(cfg, ops[..|ops| - 1]), ops[|ops| - 1];
      EveryRunKeepsTheCalendarApart(cfg, ops[..|ops| - 1]);
      match op
      case Create(_, _, _) => CreateKeepsApart(cfg, before, op);
      case Approve(_) => ApproveKeepsApart(cfg, before, op);
      case Decline(_) => ReleaseKeepsApart(cfg, before, op);
      case Cancel(_) => ReleaseKeepsApart(cfg, before, op);
    }
  }

  // ----- The promise in the page's own terms -----

  // Asked for or agreed, and neither declined nor cancelled.
  predicate Stands(b: Booking) {
    b.status == PendingReview || b.status == BookingConfirmed
  }

  // A booking that stands occupies the notary for as long as the list of services says.
  lemma StandingBlock(cfg: Settings, ops: seq<Op>, id: nat) returns (e: Entry)
    requires Sane(cfg) && Fits(cfg) && id < |Run(cfg, ops).bookings| && Stands(Run(cfg, ops).bookings[id])
    ensures var cal := Run(cfg, ops);
            && Live(cal, e)
            && BlockOf(cfg, cal, e) == BlockAt(cfg, cal.bookings[id].serviceType, cal.bookings[id].requestedTime)
            && (if e.JobRow? then HoldsJob(cal, id, e.i) else e.i == id)
  {
    var cal := Run(cfg, ops);
    EveryRunLinksJobs(cfg, ops);
    if cal.bookings[id].status == PendingReview {
      e := BookingRow(id);
    } else {
      var i :| HoldsJob(cal, id, i);
      e := JobRow(i);
      assert cal.bookings[id] in cal.bookings;
      ApprovalKeepsTheBlock(cfg, id, cal.bookings[id]);
    }
  }

  // And every live block is that of a booking that stands.
  lemma LiveBlockIsABooking(cfg: Settings, ops: seq<Op>, e: Entry) returns (id: nat)
    requires Sane(cfg) && Fits(cfg) && Live(Run(cfg, ops), e)
    ensures var cal := Run(cfg, ops);
            && id < |cal.bookings| && Stands(cal.bookings[id])
            && BlockOf(cfg, cal, e) == BlockAt(cfg, cal.bookings[id].serviceType, cal.bookings[id].requestedTime)
  {
    var cal := Run(cfg, ops);
    EveryRunLinksJobs(cfg, ops);
    match e
    case BookingRow(i) => id := i;
    case JobRow(i) =>
      id := cal.jobs[i].bookingId;
      assert cal.bookings[id] in cal.bookings;
      ApprovalKeepsTheBlock(cfg, id, cal.bookings[id]);
  }

  // The request, of so many minutes, ends a full buffer before the booking starts, or the other way round.
  predicate KeepsClear(cfg: Settings, t: int, mins: int, b: Booking, minsOfB: int) {
    || t + Mins(mins) + Mins(cfg.bufferMins) <= b.requestedTime
    || b.requestedTime + Mins(minsOfB) + Mins(cfg.bufferMins) <= t
  }

  ghost predicate ClearOfAll(cfg: Settings, cal: Calendar, ty: SigningType, t: int) {
    forall b, mins, minsOfB ::
      b in cal.bookings && Stands(b) && Takes(cfg.services, ty, mins) && Takes(cfg.services, b.serviceType, minsOfB) ==>
        KeepsClear(cfg, t, mins, b, minsOfB)
  }

  lemma ClearExactlyWithoutCollision(cfg: Settings, ops: seq<Op>, ty: SigningType, t: int)
    requires Sane(cfg) && Fits(cfg)
    ensures ClearOfAll(cfg, Run(cfg, ops), ty, t) <==> !Collides(cfg, Run(cfg, ops), BlockAt(cfg, ty, t))
  {
    var cal, candidate := Run(cfg, ops), BlockAt(cfg, ty, t);
    LengthsAreTheServices(cfg, ty);
    if ClearOfAll(cfg, cal, ty, t) {
      forall e | Live(cal, e)
        ensures Apart(candidate, BlockOf(cfg, cal, e), Mins(cfg.bufferMins))
      {
        var id := LiveBlockIsABooking(cfg, ops, e);
        var b := cal.bookings[id];
        LengthsAreTheServices(cfg, b.serviceType);
        assert b in cal.bookings && Takes(cfg.services, b.serviceType, BlockMins(cfg, b.serviceType));
        assert KeepsClear(cfg, t, BlockMins(cfg, ty), b, BlockMins(cfg, b.serviceType));
      }
    }
    if !Collides(cfg, cal, candidate) {
      forall b, mins, minsOfB | b in cal.bookings && Stands(b) && Takes(cfg.services, ty, mins)
                                && Takes(cfg.services, b.serviceType, minsOfB)
        ensures KeepsClear(cfg, t, mins, b, minsOfB)
      {
        var id: nat :| id < |cal.bookings| && cal.bookings[id] == b;
        var e := StandingBlock(cfg, ops, id);
        LengthsAreTheServices(cfg, b.serviceType);
      }
    }
  }

  // Within the notice and the advance limit, both counted from the moment of the request.
  predicate InTime(cfg: Settings, now: int, t: int) {
    now + Hours(cfg.minNoticeHours) <= t && (cfg.advanceLimitDays > 0 ==> t <= now + Days(cfg.advanceLimitDays))
  }

  // After every run a request is granted if and only if it is in time and keeps clear of every booking that
  // stands, by the lengths in the list of services.
  lemma GrantedExactly(cfg: Settings, ops: seq<Op>, now: nat, ty: SigningType, t: int)
    requires Sane(cfg) && Fits(cfg)
    ensures CreateStep(cfg, Run(cfg, ops), now, ty, t).Ok? <==>
            InTime(cfg, now, t) && ClearOfAll(cfg, Run(cfg, ops), ty, t)
  {
    EveryRunLinksJobs(cfg, ops);
    LiveBlocksFit(cfg, Run(cfg, ops));
    WindowDecidesLikeFullScan(cfg, Run(cfg, ops), BlockAt(cfg, ty, t));
    ClearExactlyWithoutCollision(cfg, ops, ty, t);
  }

  // What a refused request is told: the first of these that applies.
  lemma RefusalNamesTheReason(cfg: Settings, cal: Calendar, now: nat, ty: SigningType, t: int)
    requires Sane(cfg)
    ensures var r := CreateStep(cfg, cal, now, ty, t);
            && (r == Err(InThePast) <==> t < now)
            && (r == Err(TooLittleNotice) <==> now <= t < now + Hours(cfg.minNoticeHours))
            && (r == Err(TooFarAhead) <==> now + Hours(cfg.minNoticeHours) <= t && !InTime(cfg, now, t))
            && (r == Err(SlotConflict) <==> InTime(cfg, now, t) && SlotTaken(cfg, cal, BlockAt(cfg, ty, t)))
            && (r.Ok? ==> r.value == Calendar(cal.bookings + [Booking(ty, t, PendingReview)], cal.jobs))
  {
  }

  // Whatever was requested in whichever order: of two bookings that stand, the later starts no sooner than the
  // earlier one's own minutes and the buffer have passed, by the list of services.
  lemma StandingBookingsKeepClear(cfg: Settings, ops: seq<Op>, i: nat, j: nat, mins: int)
    requires Sane(cfg) && Fits(cfg)
    requires i < |Run(cfg, ops).bookings| && j < |Run(cfg, ops).bookings|
    requires var a, b := Run(cfg, ops).bookings[i], Run(cfg, ops).bookings[j];
             Stands(a) && Stands(b) && a.requestedTime < b.requestedTime && Takes(cfg.services, a.serviceType, mins)
    ensures Run(cfg, ops).bookings[i].requestedTime + Mins(mins) + Mins(cfg.bufferMins)
            <= Run(cfg, ops).bookings[j].requestedTime
  {
    var cal := Run(cfg, ops);
    var e := StandingBlock(cfg, ops, i);
    var f := StandingBlock(cfg, ops, j);
    EveryRunKeepsTheCalendarApart(cfg, ops);
    LengthsAreTheServices(cfg, cal.bookings[i].serviceType);
    assert BlockMins(cfg, cal.bookings[j].serviceType) >= 0;
  }

  // A confirmed booking has an undeleted job with its time and the lengths of its service, as the list has them.
  lemma ConfirmedHasItsJob(cfg: Settings, ops: seq<Op>, id: nat, s: Service) returns (i: nat)
    requires id < |Run(cfg, ops).bookings| && Run(cfg, ops).bookings[id].status == BookingConfirmed
    requires IsServiceOf(cfg.services, Run(cfg, ops).bookings[id].serviceType, s)
    ensures var cal := Run(cfg, ops);
            && i < |cal.jobs| && cal.jobs[i].bookingId == id && !cal.jobs[i].deleted && cal.jobs[i].status == CONFIRMED
            && cal.jobs[i].appointmentTime == cal.bookings[id].requestedTime
            && cal.jobs[i].signingMins == s.durationMins && cal.jobs[i].scanbackMins == s.scanbackMins
            && cal.jobs[i].signingEndsAt == Some(cal.bookings[id].requestedTime + 60_000 * s.durationMins)
            && (if s.scanbackMins > 0 then
                  cal.jobs[i].scanbackEndsAt
                  == Some(cal.bookings[id].requestedTime + 60_000 * (s.durationMins + s.scanbackMins))
                else cal.jobs[i].scanbackEndsAt == None)
  {
    EveryRunLinksJobs(cfg, ops);
    LengthsAreTheServices(cfg, Run(cfg, ops).bookings[id].serviceType);
    i :| HoldsJob(Run(cfg, ops), id, i);
  }

  // Only a request under review can be approved or declined, and only a confirmed booking cancelled; who asks
  // for another is told whether there is such a booking at all.
  lemma OwnerAnswers(cfg: Settings, cal: Calendar, id: nat)
    ensures ApproveStep(cfg, cal, id).Ok? <==> id < |cal.bookings| && cal.bookings[id].status == PendingReview
    ensures DeclineStep(cal, id).Ok? <==> id < |cal.bookings| && cal.bookings[id].status == PendingReview
    ensures CancelStep(cal, id).Ok? <==> id < |cal.bookings| && cal.bookings[id].status == BookingConfirmed
    ensures forall op :: op in {Approve(id), Decline(id), Cancel(id)} ==>
                           (Step(cfg, cal, op) == Err(NotFound) <==> id >= |cal.bookings|)
                           && (id < |cal.bookings| && Step(cfg, cal, op).Err? ==>
                                 Step(cfg, cal, op) == Err(if op.Cancel? then NotConfirmed else NotPendingReview))
  {
  }

  // Somewhere in the run this operation was carried out.
  ghost predicate CarriedOut(cfg: Settings, ops: seq<Op>, op: Op) {
    && ops != []
    && var shorter := ops[..|ops| - 1];
    CarriedOut(cfg, shorter, op) || (ops[|ops| - 1] == op && Step(cfg, Run(cfg, shorter), op).Ok?)
  }

  // A booking's status tells what was done with it.
  lemma {:induction false} StatusTellsTheHistory(cfg: Settings, ops: seq<Op>, id: nat)
    ensures var cal := Run(cfg, ops);
            var approved, declined, cancelled :=
              CarriedOut(cfg, ops, Approve(id)), CarriedOut(cfg, ops, Decline(id)), CarriedOut(cfg, ops, Cancel(id));
            if id >= |cal.bookings| then !approved && !declined && !cancelled
            else match cal.bookings[id].status
                 case PendingReview => !approved && !declined && !cancelled
                 case BookingConfirmed => approved && !declined && !cancelled
                 case BookingDeclined => declined && !approved && !cancelled
                 case CancelledByClient => approved && cancelled && !declined
  {
    if ops != [] {
      StatusTellsTheHistory(cfg, ops[..|ops| - 1], id);
    }
  }

  // ----- What a request takes and gives back -----

  // A granted request moves exactly one block; a refused one moves none.
  lemma EachStepMovesOneBlock(cfg: Settings, cal: Calendar, op: Op, e: Entry)
    requires JobsFollowBookings(cfg, cal) && OneJobPerConfirmation(cal)
    ensures Live(After(cfg, cal, op), e) <==>
            if Step(cfg, cal, op).Err? then Live(cal, e)
            else match op
                 case Create(_, _, _) => Live(cal, e) || e == BookingRow(|cal.bookings|)
                 case Approve(id) => (Live(cal, e) && e != BookingRow(id)) || e == JobRow(|cal.jobs|)
                 case Decline(id) => Live(cal, e) && e != BookingRow(id)
                 case Cancel(id) => Live(cal, e) && !(e.JobRow? && HoldsJob(cal, id, e.i))
    ensures Live(After(cfg, cal, op), e) && Live(cal, e) ==>
              BlockOf(cfg, After(cfg, cal, op), e) == BlockOf(cfg, cal, e)
  {
    if op.Cancel? && Step(cfg, cal, op).Ok? && e.JobRow? {
      HoldersAfter(cfg, cal, op, op.id, e.i);
    }
  }

  // Declining a request, or approving it and then cancelling, frees precisely what it took: whatever part of
  // the calendar is read for a candidate, and in the calendar as a whole.
  lemma WithdrawalRestoresAvailability(cfg: Settings, cal: Calendar, now: nat, ty: SigningType, t: int,
                                       candidate: Block, lo: int, hi: int)
    requires JobsFollowBookings(cfg, cal) && OneJobPerConfirmation(cal)
    requires CreateStep(cfg, cal, now, ty, t).Ok?
    ensures var id := |cal.bookings|;
            var asked := After(cfg, cal, Create(now, ty, t));
            var declined := After(cfg, asked, Decline(id));
            var cancelled := After(cfg, After(cfg, asked, Approve(id)), Cancel(id));
            && (TakenWithin(cfg, declined, candidate, lo, hi) <==> TakenWithin(cfg, cal, candidate, lo, hi))
            && (TakenWithin(cfg, cancelled, candidate, lo, hi) <==> TakenWithin(cfg, cal, candidate, lo, hi))
            && (Collides(cfg, declined, candidate) <==> Collides(cfg, cal, candidate))
            && (Collides(cfg, cancelled, candidate) <==> Collides(cfg, cal, candidate))
  {
    var id := |cal.bookings|;
    var asked := After(cfg, cal, Create(now, ty, t));
    var booked := After(cfg, asked, Approve(id));
    SameLiveBlocksTakeAlike(cfg, cal, After(cfg, asked, Decline(id)), candidate, lo, hi);
    assert HoldsJob(booked, id, |cal.jobs|);
    assert FirstJobOf(booked.jobs, id, 0) == |cal.jobs|;
    SameLiveBlocksTakeAlike(cfg, cal, After(cfg, booked, Cancel(id)), candidate, lo, hi);
  }

  lemma SameLiveBlocksTakeAlike(cfg: Settings, cal: Calendar, next: Calendar, candidate: Block, lo: int, hi: int)
    requires forall e :: Live(cal, e) <==> Live(next, e)
    requires forall e :: Live(cal, e) ==> BlockOf(cfg, cal, e) == BlockOf(cfg, next, e)
    ensures TakenWithin(cfg, next, candidate, lo, hi) <==> TakenWithin(cfg, cal, candidate, lo, hi)
    ensures Collides(cfg, next, candidate) <==> Collides(cfg, cal, candidate)
  {
    if Collides(cfg, cal, candidate) {
      var e :| Live(cal, e) && !Apart(candidate, BlockOf(cfg, cal, e), Mins(cfg.bufferMins));
      assert Live(next, e);
    }
    if Collides(cfg, next, candidate) {
      var e :| Live(next, e) && !Apart(candidate, BlockOf(cfg, next, e), Mins(cfg.bufferMins));
      assert Live(cal, e);
    }
  }

  // ----- The condition is exact: any other settings can be driven into a collision -----

  // Requests reach the server in the order of its clock.
  ghost predicate InClockOrder(ops: seq<Op>) {
    forall i, j :: 0 <= i < j < |ops| && ops[i].Create? && ops[j].Create? ==> ops[i].now <= ops[j].now
  }

  // No request of the run was served later than now.
  ghost predicate ServedBy(ops: seq<Op>, now: int) {
    forall i :: 0 <= i < |ops| && ops[i].Create? ==> ops[i].now <= now
  }

  // What has been booked by now lies within the advance limit from now.
  lemma {:induction false} BookedWithinAdvance(cfg: Settings, ops: seq<Op>, now: int, b: Booking)
    requires ServedBy(ops, now) && cfg.advanceLimitDays > 0 && b in Run(cfg, ops).bookings
    ensures b.requestedTime <= now + Days(cfg.advanceLimitDays)
  {
    var shorter, last := ops[..|ops| - 1], ops[|ops| - 1];
    var before := Run(cfg, shorter);
    if exists c :: c in before.bookings && c.requestedTime == b.requestedTime {
      var c :| c in before.bookings && c.requestedTime == b.requestedTime;
      BookedWithinAdvance(cfg, shorter, now, c);
    } else {
      assert last.Create? && b.requestedTime == last.requestedTime;
    }
  }

  // The date limits admit some request at all.
  predicate Bookable(cfg: Settings) {
    cfg.advanceLimitDays <= 0 || Hours(cfg.minNoticeHours) <= Days(cfg.advanceLimitDays)
  }

  // A request made exactly at the notice limit.
  function AtNotice(cfg: Settings, ty: SigningType, t: int): Op
    requires t >= Hours(cfg.minNoticeHours)
  {
    Create(t - Hours(cfg.minNoticeHours), ty, t)
  }

  lemma RunOfOne(cfg: Settings, op: Op)
    ensures Run(cfg, [op]) == After(cfg, EMPTY_CALENDAR, op)
  {
    assert [op][..0] == [];
  }

  lemma RunOfTwo(cfg: Settings, a: Op, b: Op)
    ensures Run(cfg, [a, b]) == After(cfg, After(cfg, EMPTY_CALENDAR, a), b)
  {
    RunOfOne(cfg, a);
    assert [a, b][..1] == [a];
  }

  lemma RunOfThree(cfg: Settings, a: Op, b: Op, c: Op)
    ensures Run(cfg, [a, b, c]) == After(cfg, After(cfg, After(cfg, EMPTY_CALENDAR, a), b), c)
  {
    RunOfTwo(cfg, a, b);
    assert [a, b, c][..2] == [a, b];
  }

  // Into an empty calendar every request within the date limits is accepted.
  lemma LoneRequestIsAccepted(cfg: Settings, now: nat, ty: SigningType, t: int)
    requires Sane(cfg) && DateError(cfg, now, t).None?
    ensures Run(cfg, [Create(now, ty, t)]) == Calendar([Booking(ty, t, PendingReview)], [])
  {
    RunOfOne(cfg, Create(now, ty, t));
    assert forall e :: !Live(EMPTY_CALENDAR, e);
  }

  lemma FirstRequestIsAccepted(cfg: Settings, ty: SigningType, t: int)
    requires Sane(cfg) && Bookable(cfg) && t >= Hours(cfg.minNoticeHours)
    ensures Run(cfg, [AtNotice(cfg, ty, t)]) == Calendar([Booking(ty, t, PendingReview)], [])
  {
    LoneRequestIsAccepted(cfg, t - Hours(cfg.minNoticeHours), ty, t);
  }

  lemma SecondRequest(cfg: Settings, ty: SigningType, t: int, ty': SigningType, t': int)
    requires Sane(cfg) && Bookable(cfg) && t' >= t >= Hours(cfg.minNoticeHours)
    ensures var ops := [AtNotice(cfg, ty, t), AtNotice(cfg, ty', t')];
            var both := Calendar([Booking(ty, t, PendingReview), Booking(ty', t', PendingReview)], []);
            !SlotTaken(cfg, Run(cfg, ops[..1]), BlockAt(cfg, ty', t')) ==> Run(cfg, ops) == both
  {
    var a, b := AtNotice(cfg, ty, t), AtNotice(cfg, ty', t');
    FirstRequestIsAccepted(cfg, ty, t);
    RunOfOne(cfg, a);
    RunOfTwo(cfg, a, b);
    assert [a, b][..1] == [a];
  }

  // A service longer than the look-back hides from a request just beyond it.
  lemma LongServiceCollides(cfg: Settings, ty: SigningType) returns (ops: seq<Op>)
    requires Sane(cfg) && Bookable(cfg) && BlockMins(cfg, ty) > 240
    ensures InClockOrder(ops) && !AllApart(cfg, Run(cfg, ops))
  {
    var t := Hours(cfg.minNoticeHours);
    var t' := t + Reach(cfg) + 1;
    ops := [AtNotice(cfg, ty, t), AtNotice(cfg, ty, t')];
    FirstRequestIsAccepted(cfg, ty, t);
    assert ops[..1] == [AtNotice(cfg, ty, t)];
    assert !SlotTaken(cfg, Run(cfg, ops[..1]), BlockAt(cfg, ty, t'));
    SecondRequest(cfg, ty, t, ty, t');
    var cal := Run(cfg, ops);
    assert Live(cal, BookingRow(0)) && Live(cal, BookingRow(1));
    assert !Apart(BlockOf(cfg, cal, BookingRow(0)), BlockOf(cfg, cal, BookingRow(1)), Mins(cfg.bufferMins));
  }

  // A negative scanback makes a booking grow when it is approved, into a neighbour accepted meanwhile.
  lemma NegativeScanbackCollides(cfg: Settings, ty: SigningType) returns (ops: seq<Op>)
    requires Sane(cfg) && Bookable(cfg) && ScanbackMins(cfg, ty) < 0
    ensures InClockOrder(ops) && !AllApart(cfg, Run(cfg, ops))
  {
    var t := Hours(cfg.minNoticeHours);
    var t' := t + Mins(BlockMins(cfg, ty)) + Mins(cfg.bufferMins) + 1;
    var a, b := AtNotice(cfg, ty, t), AtNotice(cfg, ty, t');
    ops := [a, b, Approve(0)];
    FirstRequestIsAccepted(cfg, ty, t);
    assert [a, b][..1] == [a];
    assert !SlotTaken(cfg, Run(cfg, [a]), BlockAt(cfg, ty, t'));
    SecondRequest(cfg, ty, t, ty, t');
    RunOfTwo(cfg, a, b);
    RunOfThree(cfg, a, b, Approve(0));
    var cal := Run(cfg, ops);
    assert Live(cal, JobRow(0)) && Live(cal, BookingRow(1));
    assert !Apart(BlockOf(cfg, cal, JobRow(0)), BlockOf(cfg, cal, BookingRow(1)), Mins(cfg.bufferMins));
  }

  // No run can bring two live blocks closer than the buffer, if and only if every service
  // has a scanback of at least zero and lasts at most 240 minutes.
  lemma NoDoubleBookingExactlyWhenServicesFit(cfg: Settings)
    requires Sane(cfg) && Bookable(cfg)
    ensures (forall ops :: InClockOrder(ops) ==> AllApart(cfg, Run(cfg, ops))) <==> Fits(cfg)
  {
    if Fits(cfg) {
      forall ops | InClockOrder(ops)
        ensures AllApart(cfg, Run(cfg, ops))
      {
        EveryRunKeepsTheCalendarApart(cfg, ops);
      }
    } else {
      var ty :| !(ScanbackMins(cfg, ty) >= 0 && BlockMins(cfg, ty) <= 240);
      if ScanbackMins(cfg, ty) < 0 {
        var ops := NegativeScanbackCollides(cfg, ty);
      } else {
        var ops := LongServiceCollides(cfg, ty);
      }
    }
  }
}
