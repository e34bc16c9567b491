/** The vocabulary of the public booking page: services, blocks of time, the
    rule by which two blocks collide, and the tables a notary's calendar is made of. */
module BookingRules {
  import opened Clock
  import opened Wrappers

  datatype SigningType = GENERAL | LOAN_REFI | HYBRID | PURCHASE_CLOSING | FIELD_INSPECTION | APOSTILLE

  datatype Service = Service(signingType: SigningType, durationMins: int, scanbackMins: int)

  // Opening and closing time of one weekday, in minutes after midnight.
  datatype OpenHours = OpenHours(open: nat, close: nat)

  // activeHours lists the weekdays from Sunday on.
  datatype Settings = Settings(
    services: seq<Service>,
    activeHours: seq<Option<OpenHours>>,
    bufferMins: int,
    minNoticeHours: int,
    advanceLimitDays: int)

  // The services a notary gets when the page names a service without giving its length.
  const DEFAULT_SERVICES: seq<Service> := [
    Service(GENERAL, 30, 0),
    Service(LOAN_REFI, 60, 20),
    Service(HYBRID, 75, 18),
    Service(PURCHASE_CLOSING, 90, 28),
    Service(FIELD_INSPECTION, 45, 0),
    Service(APOSTILLE, 20, 0)]

  function FindService(services: seq<Service>, ty: SigningType): Option<Service> {
    if services == [] then None
    else if services[0].signingType == ty then Some(services[0])
    else FindService(services[1..], ty)
  }

  // A page's services name the type, and s is the first of them that does.
  ghost predicate IsServiceOf(services: seq<Service>, ty: SigningType, s: Service) {
    exists i :: 0 <= i < |services| && services[i] == s && s.signingType == ty
                && forall k :: 0 <= k < i ==> services[k].signingType != ty
  }

  predicate Names(services: seq<Service>, ty: SigningType) {
    exists i :: 0 <= i < |services| && services[i].signingType == ty
  }

  // What is found for a type is the first service of that type, and nothing is found only if there is none.
  lemma {:induction false} FoundIsTheFirstOfItsType(services: seq<Service>, ty: SigningType)
    ensures FindService(services, ty).Some? <==> Names(services, ty)
    ensures forall s :: FindService(services, ty) == Some(s) <==> IsServiceOf(services, ty, s)
  {
    if services != [] {
      var rest := services[1..];
      FoundIsTheFirstOfItsType(rest, ty);
      if services[0].signingType == ty {
        assert IsServiceOf(services, ty, services[0]);
      } else {
        assert forall i :: 0 <= i < |rest| ==> rest[i] == services[i + 1];
        assert forall i :: 1 <= i < |services| ==> services[i] == rest[i - 1];
        forall s
          ensures IsServiceOf(services, ty, s) <==> IsServiceOf(rest, ty, s)
        {
          SameServiceInTheRest(services, ty, s);
        }
      }
    }
  }

  lemma SameServiceInTheRest(services: seq<Service>, ty: SigningType, s: Service)
    requires services != [] && services[0].signingType != ty
    ensures IsServiceOf(services, ty, s) <==> IsServiceOf(services[1..], ty, s)
  {
    var rest := services[1..];
    assert forall k :: 0 <= k < |rest| ==> rest[k] == services[k + 1];
    if i :| 0 <= i < |services| && services[i] == s && s.signingType == ty
            && forall k :: 0 <= k < i ==> services[k].signingType != ty {
      assert rest[i - 1] == s;
    }
    if i :| 0 <= i < |rest| && rest[i] == s && s.signingType == ty
            && forall k :: 0 <= k < i ==> rest[k].signingType != ty {
      assert services[i + 1] == s && forall k :: 1 <= k < i + 1 ==> services[k] == rest[k - 1];
    }
  }

  // How long a booking of a type takes by the list of services: the first of that type, with its scanback,
  // or an hour if the list does not name the type.
  ghost predicate Takes(services: seq<Service>, ty: SigningType, mins: int) {
    || (exists s :: IsServiceOf(services, ty, s) && mins == s.durationMins + s.scanbackMins)
    || (!Names(services, ty) && mins == 60)
  }

  function DurationMins(cfg: Settings, ty: SigningType): int {
    var s := FindService(cfg.services, ty);
    if s.Some? then s.value.durationMins else 60
  }

  function ScanbackMins(cfg: Settings, ty: SigningType): int {
    var s := FindService(cfg.services, ty);
    if s.Some? then s.value.scanbackMins else 0
  }

  function BlockMins(cfg: Settings, ty: SigningType): int {
    DurationMins(cfg, ty) + ScanbackMins(cfg, ty)
  }

  // The lengths used are those of the list.
  lemma LengthsAreTheServices(cfg: Settings, ty: SigningType)
    ensures forall mins :: Takes(cfg.services, ty, mins) <==> mins == BlockMins(cfg, ty)
    ensures forall s :: IsServiceOf(cfg.services, ty, s) ==>
                          DurationMins(cfg, ty) == s.durationMins && ScanbackMins(cfg, ty) == s.scanbackMins
    ensures !Names(cfg.services, ty) ==> DurationMins(cfg, ty) == 60 && ScanbackMins(cfg, ty) == 0
  {
    FoundIsTheFirstOfItsType(cfg.services, ty);
  }

  datatype Block = Block(start: int, end: int)

  function BlockAt(cfg: Settings, ty: SigningType, t: int): Block {
    Block(t, t + Mins(BlockMins(cfg, ty)))
  }

  predicate Overlaps(candidate: Block, bufferMs: int, occupied: Block) {
    !(candidate.end + bufferMs <= occupied.start || candidate.start >= occupied.end + bufferMs)
  }

  // What a reader of the calendar wants of two blocks: one ends a full buffer before the other starts.
  predicate Apart(a: Block, b: Block, bufferMs: int) {
    a.end + bufferMs <= b.start || b.end + bufferMs <= a.start
  }

  datatype BookingStatus = PendingReview | BookingConfirmed | BookingDeclined | CancelledByClient

  datatype Booking = Booking(serviceType: SigningType, requestedTime: int, status: BookingStatus)

  datatype JobStatus = PENDING | PENDING_REVIEW | CONFIRMED | IN_PROGRESS | SCANNING | COMPLETE | CANCELLED | DECLINED

  datatype Job = Job(
    bookingId: nat,
    appointmentTime: int,
    signingMins: int,
    scanbackMins: int,
    signingEndsAt: Option<int>,
    scanbackEndsAt: Option<int>,
    status: JobStatus,
    deleted: bool)

  // A row's id is its position in its table; rows are never removed, only marked.
  datatype Calendar = Calendar(bookings: seq<Booking>, jobs: seq<Job>)

  const EMPTY_CALENDAR := Calendar([], [])

  // The end a job occupies the notary to. An absent end time counts as the epoch.
  function JobBlockEnd(j: Job): int {
    var derived := j.appointmentTime + Mins(j.signingMins + j.scanbackMins);
    Max(derived, Max(j.signingEndsAt.GetOr(0), j.scanbackEndsAt.GetOr(0)))
  }

  // A line of the calendar that can occupy the notary: a booking row or a job row.
  datatype Entry = BookingRow(i: nat) | JobRow(i: nat)

  predicate JobIsLive(j: Job) {
    !j.deleted && j.status in {CONFIRMED, IN_PROGRESS, SCANNING}
  }

  predicate Live(cal: Calendar, e: Entry) {
    match e
    case BookingRow(i) => i < |cal.bookings| && cal.bookings[i].status == PendingReview
    case JobRow(i) => i < |cal.jobs| && JobIsLive(cal.jobs[i])
  }

  function BlockOf(cfg: Settings, cal: Calendar, e: Entry): Block
    requires Live(cal, e)
  {
    match e
    case BookingRow(i) => BlockAt(cfg, cal.bookings[i].serviceType, cal.bookings[i].requestedTime)
    case JobRow(i) => Block(cal.jobs[i].appointmentTime, JobBlockEnd(cal.jobs[i]))
  }

  // Some live block that starts in [lo, hi) collides with the candidate.
  ghost predicate TakenWithin(cfg: Settings, cal: Calendar, candidate: Block, lo: int, hi: int) {
    exists e :: Live(cal, e) && lo <= BlockOf(cfg, cal, e).start < hi
                && Overlaps(candidate, Mins(cfg.bufferMins), BlockOf(cfg, cal, e))
  }

  // The check made inside the create transaction: only rows starting within 240 minutes
  // plus the buffer of the candidate are read.
  function Reach(cfg: Settings): int { Mins(cfg.bufferMins + 240) }

  predicate InReach(cfg: Settings, candidate: Block, start: int) {
    candidate.start - Reach(cfg) <= start < candidate.end + Reach(cfg)
  }

  ghost predicate SlotTaken(cfg: Settings, cal: Calendar, candidate: Block) {
    TakenWithin(cfg, cal, candidate, candidate.start - Reach(cfg), candidate.end + Reach(cfg))
  }

  // The candidate starts a full buffer after every end the row knows: the one its lengths give and those recorded.
  predicate ClearOfEnds(j: Job, bufferMs: int, t: int) {
    && j.appointmentTime + Mins(j.signingMins + j.scanbackMins) + bufferMs <= t
    && j.signingEndsAt.GetOr(0) + bufferMs <= t
    && j.scanbackEndsAt.GetOr(0) + bufferMs <= t
  }

  // An undeleted job, confirmed or at work, starts in [lo, hi), and the candidate neither ends a buffer before
  // it nor starts a buffer after all its ends.
  predicate JobStands(j: Job, bufferMs: int, c: Block, lo: int, hi: int) {
    && !j.deleted && (j.status == CONFIRMED || j.status == IN_PROGRESS || j.status == SCANNING)
    && lo <= j.appointmentTime < hi && c.end + bufferMs > j.appointmentTime && !ClearOfEnds(j, bufferMs, c.start)
  }

  // A pending request of so many minutes starts in [lo, hi) and stands in the candidate's way likewise.
  predicate RequestStands(b: Booking, mins: int, bufferMs: int, c: Block, lo: int, hi: int) {
    && b.status == PendingReview && lo <= b.requestedTime < hi
    && c.end + bufferMs > b.requestedTime && b.requestedTime + Mins(mins) + bufferMs > c.start
  }

  // What is found to be in the way, from the rows of the two tables and the list of services.
  lemma TakenByTheRowsExactly(cfg: Settings, cal: Calendar, c: Block, lo: int, hi: int)
    ensures TakenWithin(cfg, cal, c, lo, hi) <==>
            || (exists j :: j in cal.jobs && JobStands(j, 60_000 * cfg.bufferMins, c, lo, hi))
            || (exists b, mins :: b in cal.bookings && Takes(cfg.services, b.serviceType, mins)
                                  && RequestStands(b, mins, 60_000 * cfg.bufferMins, c, lo, hi))
  {
    forall ty
      ensures forall mins :: Takes(cfg.services, ty, mins) <==> mins == BlockMins(cfg, ty)
    {
      LengthsAreTheServices(cfg, ty);
    }
    if j :| j in cal.jobs && JobStands(j, 60_000 * cfg.bufferMins, c, lo, hi) {
      var i :| 0 <= i < |cal.jobs| && cal.jobs[i] == j;
      assert Live(cal, JobRow(i));
    }
    if b, mins :| b in cal.bookings && Takes(cfg.services, b.serviceType, mins)
                  && RequestStands(b, mins, 60_000 * cfg.bufferMins, c, lo, hi) {
      var i :| 0 <= i < |cal.bookings| && cal.bookings[i] == b;
      assert Live(cal, BookingRow(i));
    }
    if TakenWithin(cfg, cal, c, lo, hi) {
      var e :| Live(cal, e) && lo <= BlockOf(cfg, cal, e).start < hi
               && Overlaps(c, Mins(cfg.bufferMins), BlockOf(cfg, cal, e));
      match e
      case JobRow(i) => assert cal.jobs[i] in cal.jobs;
      case BookingRow(i) =>
        assert cal.bookings[i] in cal.bookings;
        assert Takes(cfg.services, cal.bookings[i].serviceType, BlockMins(cfg, cal.bookings[i].serviceType));
    }
  }

  // The reference definition: some live block, wherever it starts, collides.
  ghost predicate Collides(cfg: Settings, cal: Calendar, candidate: Block) {
    exists e :: Live(cal, e) && !Apart(candidate, BlockOf(cfg, cal, e), Mins(cfg.bufferMins))
  }

  // Settings under which every service has a real length and the limits are not negative.
  ghost predicate Sane(cfg: Settings) {
    cfg.bufferMins >= 0 && cfg.minNoticeHours >= 0 && forall ty :: BlockMins(cfg, ty) >= 0
  }

  // Every service fits the 240 minutes the transaction looks back, and no scanback is negative.
  ghost predicate Fits(cfg: Settings) {
    forall ty :: ScanbackMins(cfg, ty) >= 0 && BlockMins(cfg, ty) <= 240
  }

  ghost predicate BlocksWithin(cfg: Settings, cal: Calendar, maxMs: int) {
    forall e :: Live(cal, e) ==> BlockOf(cfg, cal, e).end - BlockOf(cfg, cal, e).start <= maxMs
  }

  // The windowed check and the scan of the whole calendar decide alike as long as no live
  // block is longer than 240 minutes.
  lemma WindowDecidesLikeFullScan(cfg: Settings, cal: Calendar, candidate: Block)
    requires BlocksWithin(cfg, cal, Mins(240))
    ensures SlotTaken(cfg, cal, candidate) <==> Collides(cfg, cal, candidate)
  {
    if Collides(cfg, cal, candidate) {
      var e :| Live(cal, e) && !Apart(candidate, BlockOf(cfg, cal, e), Mins(cfg.bufferMins));
      var b := BlockOf(cfg, cal, e);
      assert candidate.start - Reach(cfg) <= b.start < candidate.end + Reach(cfg);
      assert SlotTaken(cfg, cal, candidate);
    }
  }

  // 240 is exactly the length the window can carry: at 241 minutes a block is missed.
  lemma WindowIsExactUpTo240(cfg: Settings, lengthMins: nat, totalMins: nat)
    requires cfg.bufferMins >= 0
    ensures (forall c: Block, o: Block ::
              Overlaps(c, Mins(cfg.bufferMins), o) ==>
                c.end - c.start == Mins(totalMins) && o.end - o.start == Mins(lengthMins) ==>
                InReach(cfg, c, o.start))
            <==> lengthMins <= 240
  {
    if lengthMins > 240 {
      var s := -Reach(cfg) - 1;
      var c, o := Block(0, Mins(totalMins)), Block(s, s + Mins(lengthMins));
      assert Overlaps(c, Mins(cfg.bufferMins), o) && !InReach(cfg, c, o.start);
    }
  }

  // When a stretch of work of so many minutes ends; none if it takes no time.
  function PlannedEnd(from: int, mins: int): Option<int> {
    if mins > 0 then Some(from + Mins(mins)) else None
  }

  // The job row an approval writes.
  function ApprovedJob(cfg: Settings, id: nat, b: Booking): Job {
    var d, s := DurationMins(cfg, b.serviceType), ScanbackMins(cfg, b.serviceType);
    var signingEnd := b.requestedTime + Mins(d);
    Job(id, b.requestedTime, d, s, Some(signingEnd),
        PlannedEnd(signingEnd, s), CONFIRMED, false)
  }

  // Approving a booking turns its block into a job's block of the same extent exactly
  // when its scanback is not negative.
  lemma ApprovalKeepsTheBlock(cfg: Settings, id: nat, b: Booking)
    requires b.requestedTime >= 0 && BlockMins(cfg, b.serviceType) >= 0
    ensures var j := ApprovedJob(cfg, id, b);
            Block(j.appointmentTime, JobBlockEnd(j)) == BlockAt(cfg, b.serviceType, b.requestedTime)
            <==> ScanbackMins(cfg, b.serviceType) >= 0
  {
  }

  lemma {:induction false} DefaultsAreFound(services: seq<Service>, ty: SigningType)
    requires forall i :: 0 <= i < |services| ==> services[i] in DEFAULT_SERVICES
    ensures var s := FindService(services, ty); s.Some? ==> s.value in DEFAULT_SERVICES
  {
    if services != [] && services[0].signingType != ty {
      DefaultsAreFound(services[1..], ty);
    }
  }

  // The minutes of signing and scanback by type on a page that keeps the stock lengths.
  lemma StockLengths(cfg: Settings, ty: SigningType)
    requires cfg.services == DEFAULT_SERVICES
    ensures (DurationMins(cfg, ty), ScanbackMins(cfg, ty)) ==
            match ty
            case GENERAL => (30, 0)
            case LOAN_REFI => (60, 20)
            case HYBRID => (75, 18)
            case PURCHASE_CLOSING => (90, 28)
            case FIELD_INSPECTION => (45, 0)
            case APOSTILLE => (20, 0)
  {
    var i := match ty
      case GENERAL => 0
      case LOAN_REFI => 1
      case HYBRID => 2
      case PURCHASE_CLOSING => 3
      case FIELD_INSPECTION => 4
      case APOSTILLE => 5;
    assert IsServiceOf(cfg.services, ty, cfg.services[i]);
    LengthsAreTheServices(cfg, ty);
  }

  // A page that keeps the stock lengths always meets the conditions the booking theorems ask for.
  lemma StockServicesFit(cfg: Settings)
    requires forall i :: 0 <= i < |cfg.services| ==> cfg.services[i] in DEFAULT_SERVICES
    requires cfg.bufferMins >= 0 && cfg.minNoticeHours >= 0
    ensures Sane(cfg) && Fits(cfg)
  {
    forall ty
      ensures 0 <= ScanbackMins(cfg, ty) && 0 <= BlockMins(cfg, ty) <= 240
    {
      DefaultsAreFound(cfg.services, ty);
    }
  }
}
