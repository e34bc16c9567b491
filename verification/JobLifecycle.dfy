/** The life of one job: the status machine with its timestamps, and edits of the job's window. A status
    move and an edit each read the job first and write it later; others may write in between. */
module JobLifecycle {
  import opened Clock
  import opened Wrappers
  import opened BookingRules

  // Signing types that must be scanned back before they are complete.
  const SCANBACK_TYPES := {LOAN_REFI, HYBRID, PURCHASE_CLOSING}

  // The table of allowed moves.
  function Transitions(from: JobStatus): set<JobStatus> {
    match from
    case PENDING => {CONFIRMED, CANCELLED}
    case PENDING_REVIEW => {CONFIRMED, DECLINED}
    case CONFIRMED => {IN_PROGRESS, CANCELLED}
    case IN_PROGRESS => {SCANNING, COMPLETE, CANCELLED}
    case SCANNING => {COMPLETE, IN_PROGRESS}
    case _ => {}
  }

  datatype JobRecord = JobRecord(
    status: JobStatus,
    signingType: SigningType,
    appointment: int,
    signingMins: int,
    scanbackMins: int,
    signingEndsAt: Option<int>,
    scanbackEndsAt: Option<int>,
    confirmedAt: Option<int>,
    startedAt: Option<int>,
    scanningStartedAt: Option<int>,
    completedAt: Option<int>,
    cancelledAt: Option<int>)

  datatype MoveError = NotAllowed | ScanRequired

  // The fields of an edit request; an absent field is left alone.
  datatype Patch = Patch(
    status: Option<JobStatus>,
    signingType: Option<SigningType>,
    appointment: Option<int>,
    signingMins: Option<int>,
    scanbackMins: Option<int>)

  // ----- The two writers -----

  // What a status update that read the job as seen writes over row.
  function Stamped(row: JobRecord, seen: JobRecord, now: int, to: JobStatus): JobRecord {
    match to
    case CONFIRMED => row.(status := to, confirmedAt := Some(now))
    case IN_PROGRESS =>
      if seen.status == SCANNING
      then row.(status := to, startedAt := Some(now), scanningStartedAt := None, scanbackEndsAt := None)
      else row.(status := to, startedAt := Some(now))
    case SCANNING =>
      row.(status := to, scanningStartedAt := Some(now), scanbackEndsAt := PlannedEnd(now, seen.scanbackMins))
    case COMPLETE => row.(status := to, completedAt := Some(now))
    case CANCELLED => row.(status := to, cancelledAt := Some(now))
    case _ => row.(status := to)
  }

  // Why a move is refused; it is judged on the job as read.
  function Refusal(seen: JobRecord, to: JobStatus): Option<MoveError> {
    if to !in Transitions(seen.status) then Some(NotAllowed)
    else if to == COMPLETE && seen.status == IN_PROGRESS && seen.signingType in SCANBACK_TYPES then Some(ScanRequired)
    else None
  }

  // The user's default lengths per type, with the fallbacks for a type that has none.
  function DefaultSigning(defaults: seq<Service>, ty: SigningType): int {
    var s := FindService(defaults, ty);
    if s.Some? then s.value.durationMins else 60
  }

  function DefaultScanback(defaults: seq<Service>, ty: SigningType): int {
    var s := FindService(defaults, ty);
    if ty !in SCANBACK_TYPES then 0 else if s.Some? then s.value.scanbackMins else 20
  }

  // The types that must be scanned back, and their lengths where the user's list does not name them: an hour of
  // signing for any type, twenty minutes of scanning for these three and none for the others.
  lemma DefaultsAreTheServices(defaults: seq<Service>, ty: SigningType)
    ensures ty in SCANBACK_TYPES <==> ty == LOAN_REFI || ty == HYBRID || ty == PURCHASE_CLOSING
    ensures forall s :: IsServiceOf(defaults, ty, s) ==> DefaultSigning(defaults, ty) == s.durationMins
    ensures forall s :: IsServiceOf(defaults, ty, s) && (ty == LOAN_REFI || ty == HYBRID || ty == PURCHASE_CLOSING) ==>
                          DefaultScanback(defaults, ty) == s.scanbackMins
    ensures !Names(defaults, ty) ==> DefaultSigning(defaults, ty) == 60
    ensures !Names(defaults, ty) && (ty == LOAN_REFI || ty == HYBRID || ty == PURCHASE_CLOSING) ==>
              DefaultScanback(defaults, ty) == 20
    ensures ty == GENERAL || ty == FIELD_INSPECTION || ty == APOSTILLE ==> DefaultScanback(defaults, ty) == 0
  {
    FoundIsTheFirstOfItsType(defaults, ty);
  }

  predicate ChangesType(seen: JobRecord, p: Patch) {
    p.signingType.Some? && p.signingType.value != seen.signingType
  }

  function NewSigningMins(defaults: seq<Service>, seen: JobRecord, p: Patch): int {
    p.signingMins.GetOr(
      if ChangesType(seen, p) then DefaultSigning(defaults, p.signingType.value) else seen.signingMins)
  }

  function NewScanbackMins(defaults: seq<Service>, seen: JobRecord, p: Patch): int {
    p.scanbackMins.GetOr(
      if ChangesType(seen, p) then DefaultScanback(defaults, p.signingType.value) else seen.scanbackMins)
  }

  predicate ChangesWindow(seen: JobRecord, p: Patch) {
    || (p.appointment.Some? && p.appointment.value != seen.appointment)
    || (p.signingMins.Some? && p.signingMins.value != seen.signingMins)
    || ChangesType(seen, p)
    || (p.scanbackMins.Some? && p.scanbackMins.value != seen.scanbackMins)
  }

  /** What an edit that read the job as seen writes over row. The two differ when the status
      moved, or another edit was written, in between. */
  function Edited(defaults: seq<Service>, seen: JobRecord, p: Patch, row: JobRecord): JobRecord {
    var ends := p.appointment.GetOr(seen.appointment) + Mins(NewSigningMins(defaults, seen, p));
    var scanback := NewScanbackMins(defaults, seen, p);
    row.(appointment := p.appointment.GetOr(row.appointment),
         signingType := p.signingType.GetOr(row.signingType),
         signingMins := p.signingMins.GetOr(row.signingMins),
         signingEndsAt := Some(ends),
         scanbackEndsAt := if ChangesWindow(seen, p) && seen.status != SCANNING
                           then PlannedEnd(ends, scanback) else row.scanbackEndsAt,
         scanbackMins := if scanback != seen.scanbackMins then scanback else row.scanbackMins)
  }

  // at is the time stamp a move writes.
  datatype Event =
    | Moved(at: int, seen: JobRecord, to: JobStatus)
    | EditWritten(at: int, seen: JobRecord, patch: Patch)

  predicate WritesMove(e: Event) {
    e.Moved? && Refusal(e.seen, e.to).None?
  }

  function After(defaults: seq<Service>, r: JobRecord, e: Event): JobRecord {
    match e
    case Moved(at, seen, to) => if WritesMove(e) then Stamped(r, seen, at, to) else r
    case EditWritten(_, seen, p) => Edited(defaults, seen, p, r)
  }

  function Run(defaults: seq<Service>, r: JobRecord, es: seq<Event>): JobRecord {
    if es == [] then r else After(defaults, Run(defaults, r, es[..|es| - 1]), es[|es| - 1])
  }

  // A job as it is created.
  function Created(defaults: seq<Service>, now: int, ty: SigningType, appointment: int, signing: Option<int>,
                   scanback: Option<int>, status: Option<JobStatus>, manual: bool): JobRecord {
    var signingMins := signing.GetOr(DefaultSigning(defaults, ty));
    var scanbackMins := scanback.GetOr(if ty in SCANBACK_TYPES then DefaultScanback(defaults, ty) else 0);
    var ends := appointment + Mins(signingMins);
    var st := status.GetOr(if manual then CONFIRMED else PENDING);
    JobRecord(st, ty, appointment, signingMins, scanbackMins, Some(ends), PlannedEnd(ends, scanbackMins),
              if st == CONFIRMED then Some(now) else None, None, None, None, None)
  }

  class JobDesk {
    const defaults: seq<Service>
    var job: JobRecord

    constructor (defaults: seq<Service>, job: JobRecord)
      ensures this.defaults == defaults && this.job == job
    {
      this.defaults, this.job := defaults, job;
    }

    // The second half of a status update: seen is the job as the first half read it.
    method UpdateStatus(now: int, seen: JobRecord, newStatus: JobStatus) returns (r: Result<JobRecord, MoveError>)
      modifies this
      ensures job == After(defaults, old(job), Moved(now, seen, newStatus))
      ensures r == if Refusal(seen, newStatus).Some? then Err(Refusal(seen, newStatus).value) else Ok(job)
    {
      if newStatus !in Transitions(seen.status) {
        return Err(NotAllowed);
      }
      if newStatus == COMPLETE && seen.status == IN_PROGRESS && seen.signingType in SCANBACK_TYPES {
        return Err(ScanRequired);
      }
      var next := job.(status := newStatus);
      if newStatus == CONFIRMED {
        next := next.(confirmedAt := Some(now));
      }
      if newStatus == IN_PROGRESS {
        next := next.(startedAt := Some(now));
        if seen.status == SCANNING {
          next := next.(scanningStartedAt := None, scanbackEndsAt := None);
        }
      }
      if newStatus == SCANNING {
        var endsAt: Option<int> := None;
        if seen.scanbackMins > 0 {
          endsAt := Some(now + Mins(seen.scanbackMins));
        }
        next := next.(scanningStartedAt := Some(now), scanbackEndsAt := endsAt);
      }
      if newStatus == COMPLETE {
        next := next.(completedAt := Some(now));
      }
      if newStatus == CANCELLED {
        next := next.(cancelledAt := Some(now));
      }
      job := next;
      return Ok(job);
    }

    // The second half of an edit. A status asked for with it is a status update of its own, made if the
    // row written does not have that status already; if that update is refused, the edit stays written.
    method WriteEdit(now: int, seen: JobRecord, p: Patch) returns (move: Option<JobStatus>)
      modifies this
      ensures job == After(defaults, old(job), EditWritten(now, seen, p))
      ensures move == if p.status == Some(job.status) then None else p.status
    {
      var signingMins, scanbackMins := seen.signingMins, seen.scanbackMins;
      if ChangesType(seen, p) {
        signingMins := DefaultSigning(defaults, p.signingType.value);
        scanbackMins := DefaultScanback(defaults, p.signingType.value);
      }
      signingMins, scanbackMins := p.signingMins.GetOr(signingMins), p.scanbackMins.GetOr(scanbackMins);
      var signingEndsAt := p.appointment.GetOr(seen.appointment) + Mins(signingMins);
      var next := job.(signingEndsAt := Some(signingEndsAt));
      if p.appointment.Some? {
        next := next.(appointment := p.appointment.value);
      }
      if p.signingType.Some? {
        next := next.(signingType := p.signingType.value);
      }
      if p.signingMins.Some? {
        next := next.(signingMins := signingMins);
      }
      if ChangesWindow(seen, p) && seen.status != SCANNING {
        next := next.(scanbackEndsAt := PlannedEnd(signingEndsAt, scanbackMins));
      }
      if scanbackMins != seen.scanbackMins {
        next := next.(scanbackMins := scanbackMins);
      }
      job := next;
      if p.status.Some? && p.status.value != job.status {
        return p.status;
      }
      return None;
    }
  }

  // ----- Timestamps tell the story -----

  ghost predicate InOrder(from: int, es: seq<Event>) {
    && (forall i :: 0 <= i < |es| ==> from <= es[i].at)
    && (forall i, j :: 0 <= i < j < |es| ==> es[i].at <= es[j].at)
  }

  function LastAt(from: int, es: seq<Event>): int {
    if es == [] then from else es[|es| - 1].at
  }

  predicate NotAfter(a: Option<int>, b: Option<int>) {
    a.Some? && b.Some? ==> a.value <= b.value
  }

  predicate By(a: Option<int>, now: int) {
    a.Some? ==> a.value <= now
  }

  // The timestamps agree with the status, are in order, and lie in the past.
  predicate Coherent(r: JobRecord, now: int) {
    && (r.confirmedAt.Some? <== r.status in {CONFIRMED, IN_PROGRESS, SCANNING, COMPLETE})
    && (r.confirmedAt.None? <== r.status in {PENDING, PENDING_REVIEW, DECLINED})
    && (r.startedAt.Some? <== r.status in {IN_PROGRESS, SCANNING, COMPLETE})
    && (r.startedAt.None? <== r.status in {PENDING, PENDING_REVIEW, CONFIRMED, DECLINED})
    && (r.status == SCANNING ==> r.scanningStartedAt.Some?)
    && (r.scanningStartedAt.Some? ==> r.status in {SCANNING, COMPLETE})
    && (r.completedAt.Some? <==> r.status == COMPLETE)
    && (r.cancelledAt.Some? <==> r.status == CANCELLED)
    && NotAfter(r.confirmedAt, r.startedAt) && NotAfter(r.startedAt, r.scanningStartedAt)
    && NotAfter(r.confirmedAt, r.completedAt) && NotAfter(r.startedAt, r.completedAt)
    && NotAfter(r.scanningStartedAt, r.completedAt) && NotAfter(r.confirmedAt, r.cancelledAt)
    && NotAfter(r.startedAt, r.cancelledAt)
    && By(r.confirmedAt, now) && By(r.startedAt, now) && By(r.scanningStartedAt, now)
    && By(r.completedAt, now) && By(r.cancelledAt, now)
  }

  // A new job has what it was asked for; what was left open comes from the user's defaults, and a job entered by
  // hand is confirmed at once.
  lemma CreatedAsAsked(defaults: seq<Service>, now: int, ty: SigningType, appointment: int, signing: Option<int>,
                       scanback: Option<int>, status: Option<JobStatus>, manual: bool)
    ensures var r := Created(defaults, now, ty, appointment, signing, scanback, status, manual);
            && r.signingType == ty && r.appointment == appointment
            && (signing.Some? ==> r.signingMins == signing.value)
            && (scanback.Some? ==> r.scanbackMins == scanback.value)
            && (status.Some? ==> r.status == status.value)
            && (status.None? ==> (r.status == CONFIRMED <==> manual) && (r.status == PENDING <==> !manual))
            && (r.confirmedAt == if r.status == CONFIRMED then Some(now) else None)
            && forall s :: IsServiceOf(defaults, ty, s) ==>
                 && (signing.None? ==> r.signingMins == s.durationMins)
                 && (scanback.None? && ty in SCANBACK_TYPES ==> r.scanbackMins == s.scanbackMins)
    ensures scanback.None? && ty !in SCANBACK_TYPES ==>
              Created(defaults, now, ty, appointment, signing, scanback, status, manual).scanbackMins == 0
  {
    DefaultsAreTheServices(defaults, ty);
  }

  // A new job's timestamps agree with its status exactly for these; any other status asked for at
  // creation is taken without the timestamps that belong to it.
  lemma CreatedCoherentExactly(defaults: seq<Service>, now: int, ty: SigningType, appointment: int,
                               signing: Option<int>, scanback: Option<int>, status: Option<JobStatus>, manual: bool)
    ensures Coherent(Created(defaults, now, ty, appointment, signing, scanback, status, manual), now) <==>
            (status.Some? ==> status.value in {PENDING, PENDING_REVIEW, CONFIRMED, DECLINED})
  {
  }

  // ----- Which moves are granted, and where they lead -----

  // A job found as read is moved exactly as follows. Nothing leads to the two statuses a job starts in.
  lemma GrantedMovesExactly(r: JobRecord)
    ensures Refusal(r, CONFIRMED).None? <==> r.status == PENDING || r.status == PENDING_REVIEW
    ensures Refusal(r, DECLINED).None? <==> r.status == PENDING_REVIEW
    ensures Refusal(r, IN_PROGRESS).None? <==> r.status == CONFIRMED || r.status == SCANNING
    ensures Refusal(r, SCANNING).None? <==> r.status == IN_PROGRESS
    ensures Refusal(r, COMPLETE).None? <==>
            || r.status == SCANNING
            || (r.status == IN_PROGRESS && r.signingType != LOAN_REFI && r.signingType != HYBRID
                && r.signingType != PURCHASE_CLOSING)
    ensures Refusal(r, COMPLETE) == Some(ScanRequired) <==>
            r.status == IN_PROGRESS && (r.signingType == LOAN_REFI || r.signingType == HYBRID
                                        || r.signingType == PURCHASE_CLOSING)
    ensures Refusal(r, CANCELLED).None? <==> r.status == PENDING || r.status == CONFIRMED || r.status == IN_PROGRESS
    ensures Refusal(r, PENDING) == Refusal(r, PENDING_REVIEW) == Some(NotAllowed)
  {
  }

  // Moves made one at a time, each finding the job as it read it, at one moment.
  ghost predicate MovesAlone(defaults: seq<Service>, r: JobRecord, at: int, es: seq<Event>) {
    es != [] ==>
      var shorter, last := es[..|es| - 1], es[|es| - 1];
      && MovesAlone(defaults, r, at, shorter)
      && last.Moved? && last.at == at && last.seen == Run(defaults, r, shorter) && WritesMove(last)
  }

  lemma OneMoreMove(defaults: seq<Service>, r: JobRecord, at: int, es: seq<Event>, to: JobStatus)
    returns (more: seq<Event>)
    requires MovesAlone(defaults, r, at, es) && Refusal(Run(defaults, r, es), to).None?
    ensures MovesAlone(defaults, r, at, more)
    ensures Run(defaults, r, more) == Stamped(Run(defaults, r, es), Run(defaults, r, es), at, to)
  {
    var e := Moved(at, Run(defaults, r, es), to);
    more := es + [e];
    assert more[..|more| - 1] == es;
  }

  // From every status that is not final the work can be started.
  lemma CanStart(defaults: seq<Service>, r: JobRecord, at: int) returns (es: seq<Event>)
    requires r.status !in {COMPLETE, CANCELLED, DECLINED}
    ensures MovesAlone(defaults, r, at, es)
    ensures Run(defaults, r, es).status == IN_PROGRESS && Run(defaults, r, es).signingType == r.signingType
  {
    es := [];
    if r.status == PENDING || r.status == PENDING_REVIEW {
      GrantedMovesExactly(r);
      es := OneMoreMove(defaults, r, at, es, CONFIRMED);
    }
    GrantedMovesExactly(Run(defaults, r, es));
    if r.status != IN_PROGRESS {
      es := OneMoreMove(defaults, r, at, es, IN_PROGRESS);
    }
  }

  // Every job that is not final can be completed, and scanned before if its type demands it.
  lemma CanBeCompleted(defaults: seq<Service>, r: JobRecord, at: int) returns (es: seq<Event>)
    requires r.status !in {COMPLETE, CANCELLED, DECLINED}
    ensures MovesAlone(defaults, r, at, es)
    ensures var q := Run(defaults, r, es);
            && q.status == COMPLETE && q.completedAt == Some(at) && q.signingType == r.signingType
            && (q.signingType in SCANBACK_TYPES ==> q.scanningStartedAt == Some(at))
  {
    es := CanStart(defaults, r, at);
    GrantedMovesExactly(Run(defaults, r, es));
    if r.signingType in SCANBACK_TYPES {
      es := OneMoreMove(defaults, r, at, es, SCANNING);
      GrantedMovesExactly(Run(defaults, r, es));
    }
    es := OneMoreMove(defaults, r, at, es, COMPLETE);
  }

  // And every such job can be given up, at the latest after its work was started.
  lemma CanBeCancelled(defaults: seq<Service>, r: JobRecord, at: int) returns (es: seq<Event>)
    requires r.status !in {COMPLETE, CANCELLED, DECLINED}
    ensures MovesAlone(defaults, r, at, es)
    ensures Run(defaults, r, es).status == CANCELLED && Run(defaults, r, es).cancelledAt == Some(at)
  {
    es := CanStart(defaults, r, at);
    GrantedMovesExactly(Run(defaults, r, es));
    es := OneMoreMove(defaults, r, at, es, CANCELLED);
  }

  lemma CanBeDeclined(defaults: seq<Service>, r: JobRecord, at: int) returns (es: seq<Event>)
    requires r.status == PENDING_REVIEW
    ensures MovesAlone(defaults, r, at, es) && Run(defaults, r, es).status == DECLINED
  {
    GrantedMovesExactly(r);
    es := [];
    es := OneMoreMove(defaults, r, at, es, DECLINED);
  }

  // Where moves that find the job as read can take it, from every status: the two ends of the work for all that
  // are not final, declining only under review, and nowhere else from a final one.
  lemma EndsReachedExactly(defaults: seq<Service>, r: JobRecord, at: int, end: JobStatus)
    requires end in {COMPLETE, CANCELLED, DECLINED}
    ensures CanEndAs(defaults, r, at, end) <==>
            || r.status == end
            || (end != DECLINED && r.status !in {COMPLETE, CANCELLED, DECLINED})
            || (end == DECLINED && r.status == PENDING_REVIEW)
  {
    if CanEndAs(defaults, r, at, end) && r.status != end {
      var es :| MovesAlone(defaults, r, at, es) && Run(defaults, r, es).status == end;
      OnlyThoseEnd(defaults, r, at, end, es);
    }
    var none: seq<Event> := [];
    assert r.status == end ==> MovesAlone(defaults, r, at, none) && Run(defaults, r, none).status == end;
    if r.status !in {COMPLETE, CANCELLED, DECLINED} && end != DECLINED {
      var done := CanBeCompleted(defaults, r, at);
      var dropped := CanBeCancelled(defaults, r, at);
      var es := if end == COMPLETE then done else dropped;
      assert MovesAlone(defaults, r, at, es) && Run(defaults, r, es).status == end;
    }
    if r.status == PENDING_REVIEW && end == DECLINED {
      var es := CanBeDeclined(defaults, r, at);
    }
  }

  // Moves made one at a time can take the job to this end.
  ghost predicate CanEndAs(defaults: seq<Service>, r: JobRecord, at: int, end: JobStatus) {
    exists es :: MovesAlone(defaults, r, at, es) && Run(defaults, r, es).status == end
  }

  lemma OnlyThoseEnd(defaults: seq<Service>, r: JobRecord, at: int, end: JobStatus, es: seq<Event>)
    requires end in {COMPLETE, CANCELLED, DECLINED} && r.status != end
    requires MovesAlone(defaults, r, at, es) && Run(defaults, r, es).status == end
    ensures r.status !in {COMPLETE, CANCELLED, DECLINED} && (end == DECLINED ==> r.status == PENDING_REVIEW)
  {
    if r.status in {COMPLETE, CANCELLED, DECLINED} || (end == DECLINED && r.status != PENDING_REVIEW) {
      EndStaysOut(defaults, r, at, end, es);
    }
  }

  lemma {:induction false} EndStaysOut(defaults: seq<Service>, r: JobRecord, at: int, end: JobStatus, es: seq<Event>)
    requires MovesAlone(defaults, r, at, es)
    requires r.status != end
    requires r.status in {COMPLETE, CANCELLED, DECLINED} || (end == DECLINED && r.status != PENDING_REVIEW)
    ensures var q := Run(defaults, r, es);
            && (r.status in {COMPLETE, CANCELLED, DECLINED} ==> q.status == r.status)
            && (end == DECLINED ==> q.status != DECLINED && q.status != PENDING_REVIEW)
  {
    if es != [] {
      EndStaysOut(defaults, r, at, end, es[..|es| - 1]);
      GrantedMovesExactly(Run(defaults, r, es[..|es| - 1]));
    }
  }

  // A move touches the status, its stamp and the end of the scanback alone: that is set when scanning starts, by
  // the length read, and cleared with the scan's stamp when a job read as scanning goes back to work.
  lemma MovesTouchNothingElse(row: JobRecord, seen: JobRecord, at: int, to: JobStatus)
    ensures var q := Stamped(row, seen, at, to);
            && q.signingType == row.signingType && q.appointment == row.appointment
            && q.signingMins == row.signingMins && q.scanbackMins == row.scanbackMins
            && q.signingEndsAt == row.signingEndsAt
            && q.scanbackEndsAt == (if to == SCANNING then
                                      if seen.scanbackMins > 0 then Some(at + 60_000 * seen.scanbackMins) else None
                                    else if to == IN_PROGRESS && seen.status == SCANNING then None
                                    else row.scanbackEndsAt)
  {
    match to
    case _ =>
  }

  // The stamp a status has, if it has one.
  function StampOf(r: JobRecord, status: JobStatus): Option<int> {
    match status
    case CONFIRMED => r.confirmedAt
    case IN_PROGRESS => r.startedAt
    case SCANNING => r.scanningStartedAt
    case COMPLETE => r.completedAt
    case CANCELLED => r.cancelledAt
    case _ => None
  }

  // When a run last moved the job to a status; a scan that was broken off, as the mover read it, does not count.
  function LastMovedTo(es: seq<Event>, status: JobStatus, before: Option<int>): Option<int> {
    if es == [] then before
    else
      var last, shorter := es[|es| - 1], es[..|es| - 1];
      if WritesMove(last) && last.to == status then Some(last.at)
      else if WritesMove(last) && status == SCANNING && last.to == IN_PROGRESS && last.seen.status == SCANNING then None
      else LastMovedTo(shorter, status, before)
  }

  // The stamps tell when, over every run of edits and moves however they overlap, and the status is the one the
  // last written move went to.
  lemma {:induction false} StampsTellTheTimes(defaults: seq<Service>, r: JobRecord, es: seq<Event>, status: JobStatus)
    requires status in {CONFIRMED, IN_PROGRESS, SCANNING, COMPLETE, CANCELLED}
    ensures StampOf(Run(defaults, r, es), status) == LastMovedTo(es, status, StampOf(r, status))
    ensures Run(defaults, r, es).status == LastStatus(es, r.status)
  {
    if es != [] {
      StampsTellTheTimes(defaults, r, es[..|es| - 1], status);
      match es[|es| - 1]
      case Moved(_, _, to) =>
        match to {
          case _ =>
        }
      case _ =>
    }
  }

  function LastStatus(es: seq<Event>, before: JobStatus): JobStatus {
    if es == [] then before
    else if WritesMove(es[|es| - 1]) then es[|es| - 1].to
    else LastStatus(es[..|es| - 1], before)
  }

  // ----- Moves that overlap -----

  // A move that read one status and finds another when it writes does no harm under this guard: the
  // status found allows the move as well, and one that leaves scanning has read scanning.
  predicate Harmless(read: JobStatus, found: JobStatus, to: JobStatus) {
    to in Transitions(found) && (to == IN_PROGRESS && found == SCANNING ==> read == SCANNING)
  }

  // Written over a coherent job, a move is a permitted one and leaves the job coherent exactly then.
  lemma HarmlessExactly(row: JobRecord, now: int, at: int, seen: JobRecord, to: JobStatus)
    requires Coherent(row, now) && now <= at && Refusal(seen, to).None?
    ensures Harmless(seen.status, row.status, to) <==>
            to in Transitions(row.status) && Coherent(Stamped(row, seen, at, to), at)
  {
    match to
    case CONFIRMED =>
    case IN_PROGRESS =>
    case SCANNING =>
    case COMPLETE =>
    case CANCELLED =>
    case DECLINED =>
  }

  // Every move of the run that is written is harmless where it is written.
  ghost predicate AllHarmless(defaults: seq<Service>, r: JobRecord, es: seq<Event>) {
    forall n :: 0 <= n < |es| && WritesMove(es[n]) ==>
                  Harmless(es[n].seen.status, Run(defaults, r, es[..n]).status, es[n].to)
  }

  lemma HarmlessPrefix(defaults: seq<Service>, r: JobRecord, es: seq<Event>)
    requires AllHarmless(defaults, r, es) && es != []
    ensures var shorter, last := es[..|es| - 1], es[|es| - 1];
            && AllHarmless(defaults, r, shorter)
            && (WritesMove(last) ==> Harmless(last.seen.status, Run(defaults, r, shorter).status, last.to))
  {
    var shorter := es[..|es| - 1];
    forall n | 0 <= n < |shorter| && WritesMove(shorter[n])
      ensures Harmless(shorter[n].seen.status, Run(defaults, r, shorter[..n]).status, shorter[n].to)
    {
      assert shorter[..n] == es[..n] && shorter[n] == es[n];
    }
  }

  lemma CoherentKept(defaults: seq<Service>, r: JobRecord, now: int, e: Event)
    requires Coherent(r, now) && now <= e.at
    requires WritesMove(e) ==> Harmless(e.seen.status, r.status, e.to)
    ensures Coherent(After(defaults, r, e), e.at)
  {
    if WritesMove(e) {
      HarmlessExactly(r, now, e.at, e.seen, e.to);
    }
  }

  // Over every run of edits and moves, each reading and later writing: if the moves are harmless where
  // they are written then confirmed, started, scanned and completed follow each other, and each status
  // has just the timestamps that belong to it.
  lemma {:induction false} EveryRunStaysCoherent(defaults: seq<Service>, r: JobRecord, from: int, es: seq<Event>)
    requires Coherent(r, from) && InOrder(from, es) && AllHarmless(defaults, r, es)
    ensures Coherent(Run(defaults, r, es), LastAt(from, es))
  {
    if es != [] {
      var shorter := es[..|es| - 1];
      HarmlessPrefix(defaults, r, es);
      EveryRunStaysCoherent(defaults, r, from, shorter);
      CoherentKept(defaults, Run(defaults, r, shorter), LastAt(from, shorter), es[|es| - 1]);
    }
  }

  // Every state of the run is coherent, and every move written is one its job's status allows.
  ghost predicate Lawful(defaults: seq<Service>, r: JobRecord, from: int, es: seq<Event>) {
    && (forall n :: 0 <= n <= |es| ==> Coherent(Run(defaults, r, es[..n]), LastAt(from, es[..n])))
    && (forall n :: 0 <= n < |es| && WritesMove(es[n]) ==> es[n].to in Transitions(Run(defaults, r, es[..n]).status))
  }

  // A run is lawful if and only if each move is harmless where it is written.
  lemma RunsAreLawfulExactly(defaults: seq<Service>, r: JobRecord, from: int, es: seq<Event>)
    requires Coherent(r, from) && InOrder(from, es)
    ensures Lawful(defaults, r, from, es) <==> AllHarmless(defaults, r, es)
  {
    if AllHarmless(defaults, r, es) {
      forall n | 0 <= n <= |es|
        ensures Coherent(Run(defaults, r, es[..n]), LastAt(from, es[..n]))
      {
        PrefixHarmless(defaults, r, es, n);
        EveryRunStaysCoherent(defaults, r, from, es[..n]);
      }
    }
    if Lawful(defaults, r, from, es) {
      forall n | 0 <= n < |es| && WritesMove(es[n])
        ensures Harmless(es[n].seen.status, Run(defaults, r, es[..n]).status, es[n].to)
      {
        var row := Run(defaults, r, es[..n]);
        assert es[..n + 1][..n] == es[..n];
        assert Coherent(Run(defaults, r, es[..n + 1]), LastAt(from, es[..n + 1]));
        HarmlessExactly(row, LastAt(from, es[..n]), es[n].at, es[n].seen, es[n].to);
      }
    }
  }

  lemma PrefixHarmless(defaults: seq<Service>, r: JobRecord, es: seq<Event>, n: nat)
    requires AllHarmless(defaults, r, es) && n <= |es|
    ensures AllHarmless(defaults, r, es[..n])
  {
    var part := es[..n];
    forall k | 0 <= k < n && WritesMove(part[k])
      ensures Harmless(part[k].seen.status, Run(defaults, r, part[..k]).status, part[k].to)
    {
      assert part[..k] == es[..k] && part[k] == es[k];
    }
  }

  // A move finds the job as it read it: in the same status, and on the same side of the scanback line.
  predicate FoundAsRead(seen: JobRecord, row: JobRecord) {
    seen.status == row.status && (seen.signingType in SCANBACK_TYPES <==> row.signingType in SCANBACK_TYPES)
  }

  // No move of the run is overtaken by another write that matters to it.
  ghost predicate Undisturbed(defaults: seq<Service>, r: JobRecord, es: seq<Event>) {
    forall n :: 0 <= n < |es| && WritesMove(es[n]) ==> FoundAsRead(es[n].seen, Run(defaults, r, es[..n]))
  }

  lemma UndisturbedIsHarmless(defaults: seq<Service>, r: JobRecord, es: seq<Event>)
    requires Undisturbed(defaults, r, es)
    ensures AllHarmless(defaults, r, es)
  {
  }

  // Two moves that both read the job in progress: the second takes it out of complete, with both stamps.
  lemma OverlappingMovesLeaveComplete(defaults: seq<Service>, r: JobRecord, from: int) returns (es: seq<Event>)
    requires Coherent(r, from) && r.status == IN_PROGRESS && r.signingType !in SCANBACK_TYPES
    ensures InOrder(from, es) && forall i :: 0 <= i < |es| ==> es[i].Moved? && es[i].seen == r
    ensures |es| == 2 && Run(defaults, r, es[..1]).status == COMPLETE
    ensures var q := Run(defaults, r, es);
            q.status == CANCELLED && q.completedAt.Some? && q.cancelledAt.Some? && forall now :: !Coherent(q, now)
  {
    var a, b := Moved(from, r, COMPLETE), Moved(from, r, CANCELLED);
    es := [a, b];
    RunSteps(defaults, r, [], a);
    RunSteps(defaults, r, [a], b);
    assert [] + [a] == [a] == es[..1] && [a] + [b] == es;
  }

  // ----- The direction of travel -----

  function Rank(s: JobStatus): nat {
    match s
    case PENDING => 0
    case PENDING_REVIEW => 0
    case CONFIRMED => 1
    case IN_PROGRESS => 2
    case SCANNING => 2
    case COMPLETE => 3
    case CANCELLED => 3
    case DECLINED => 3
  }

  // With harmless moves the only way back is from scanning to in progress, and the three final statuses
  // are final.
  lemma {:induction false} NoWayBack(defaults: seq<Service>, r: JobRecord, es: seq<Event>)
    requires AllHarmless(defaults, r, es)
    ensures var q := Run(defaults, r, es);
            && Rank(r.status) <= Rank(q.status)
            && (Rank(q.status) == Rank(r.status) ==>
                  q.status == r.status || {q.status, r.status} == {IN_PROGRESS, SCANNING})
            && (Rank(r.status) == 3 ==> q.confirmedAt == r.confirmedAt && q.startedAt == r.startedAt
                                        && q.scanningStartedAt == r.scanningStartedAt && q.completedAt == r.completedAt
                                        && q.cancelledAt == r.cancelledAt)
  {
    if es != [] {
      HarmlessPrefix(defaults, r, es);
      NoWayBack(defaults, r, es[..|es| - 1]);
    }
  }

  // ----- The scan before completion -----

  // Complete, of a type that must be scanned, and never scanned.
  predicate ScanSkipped(r: JobRecord) {
    r.status == COMPLETE && r.signingType in SCANBACK_TYPES && r.scanningStartedAt.None?
  }

  // The types the edits of a run may name.
  ghost predicate NamesOnly(es: seq<Event>, types: set<SigningType>) {
    forall i :: 0 <= i < |es| && es[i].EditWritten? && es[i].patch.signingType.Some? ==>
                  es[i].patch.signingType.value in types
  }

  predicate BoundaryKept(ty: SigningType, types: set<SigningType>) {
    types !! SCANBACK_TYPES || {ty} + types <= SCANBACK_TYPES
  }

  // What a run inside the boundary keeps about the type and the scan.
  predicate WithinBoundary(ty: SigningType, types: set<SigningType>, q: JobRecord) {
    && !ScanSkipped(q)
    && (q.signingType == ty || q.signingType in types)
    && (q.status == COMPLETE && q.scanningStartedAt.None? ==> !({ty} + types <= SCANBACK_TYPES))
  }

  lemma BoundaryStep(defaults: seq<Service>, ty: SigningType, types: set<SigningType>, q: JobRecord, now: int, e: Event)
    requires Coherent(q, now) && WithinBoundary(ty, types, q) && BoundaryKept(ty, types)
    requires e.EditWritten? && e.patch.signingType.Some? ==> e.patch.signingType.value in types
    requires WritesMove(e) ==> FoundAsRead(e.seen, q)
    ensures WithinBoundary(ty, types, After(defaults, q, e))
  {
    assert q.signingType in {ty} + types;
    if WritesMove(e) {
      match e.to
      case COMPLETE =>
      case _ =>
    }
  }

  lemma {:induction false} ScanNotSkipped(defaults: seq<Service>, r: JobRecord, types: set<SigningType>, from: int,
                                          es: seq<Event>)
    requires Coherent(r, from) && InOrder(from, es) && r.status != COMPLETE && NamesOnly(es, types)
    requires Undisturbed(defaults, r, es) && BoundaryKept(r.signingType, types)
    ensures WithinBoundary(r.signingType, types, Run(defaults, r, es))
  {
    if es != [] {
      var shorter := es[..|es| - 1];
      UndisturbedPrefix(defaults, r, es);
      UndisturbedIsHarmless(defaults, r, shorter);
      ScanNotSkipped(defaults, r, types, from, shorter);
      EveryRunStaysCoherent(defaults, r, from, shorter);
      BoundaryStep(defaults, r.signingType, types, Run(defaults, r, shorter), LastAt(from, shorter), es[|es| - 1]);
    }
  }

  lemma UndisturbedPrefix(defaults: seq<Service>, r: JobRecord, es: seq<Event>)
    requires Undisturbed(defaults, r, es) && es != []
    ensures Undisturbed(defaults, r, es[..|es| - 1])
  {
    var shorter := es[..|es| - 1];
    forall n | 0 <= n < |shorter| && WritesMove(shorter[n])
      ensures FoundAsRead(shorter[n].seen, Run(defaults, r, shorter[..n]))
    {
      assert shorter[..n] == es[..n] && shorter[n] == es[n];
    }
  }

  // A harmless completion skips the scan exactly when it finds a job of a scanback type in progress.
  lemma CompletionSkipsScanExactly(row: JobRecord, now: int, seen: JobRecord, at: int)
    requires Coherent(row, now) && Refusal(seen, COMPLETE).None? && Harmless(seen.status, row.status, COMPLETE)
    ensures ScanSkipped(Stamped(row, seen, at, COMPLETE)) <==>
            row.status == IN_PROGRESS && row.signingType in SCANBACK_TYPES
  {
  }

  // Such a completion: it read the job scanning, while another move was taking it back to in progress.
  lemma OverlapSkipsTheScan(defaults: seq<Service>, r: JobRecord, from: int) returns (es: seq<Event>)
    requires Coherent(r, from) && r.status == SCANNING && r.signingType in SCANBACK_TYPES
    ensures InOrder(from, es) && AllHarmless(defaults, r, es) && ScanSkipped(Run(defaults, r, es))
    ensures forall i :: 0 <= i < |es| ==> es[i].Moved? && es[i].seen == r
  {
    var a, b := Moved(from, r, IN_PROGRESS), Moved(from, r, COMPLETE);
    es := [a, b];
    RunSteps(defaults, r, [], a);
    RunSteps(defaults, r, [a], b);
    assert [] + [a] == [a] == es[..1] && [a] + [b] == es && es[..0] == [];
  }

  const NO_CHANGE := Patch(None, None, None, None, None)

  function Retyped(at: int, seen: JobRecord, ty: SigningType): Event {
    EditWritten(at, seen, NO_CHANGE.(signingType := Some(ty)))
  }

  lemma RunSteps(defaults: seq<Service>, r: JobRecord, es: seq<Event>, e: Event)
    ensures Run(defaults, r, es + [e]) == After(defaults, Run(defaults, r, es), e)
  {
    assert (es + [e])[..|es|] == es;
  }

  lemma UndisturbedMore(defaults: seq<Service>, r: JobRecord, es: seq<Event>, e: Event)
    requires Undisturbed(defaults, r, es) && (WritesMove(e) ==> FoundAsRead(e.seen, Run(defaults, r, es)))
    ensures Undisturbed(defaults, r, es + [e]) && Run(defaults, r, es + [e]) == After(defaults, Run(defaults, r, es), e)
  {
    var more := es + [e];
    RunSteps(defaults, r, es, e);
    forall n | 0 <= n < |more| && WritesMove(more[n])
      ensures FoundAsRead(more[n].seen, Run(defaults, r, more[..n]))
    {
      if n < |es| {
        assert more[..n] == es[..n] && more[n] == es[n];
      } else {
        assert more[..n] == es;
      }
    }
  }

  // What each step of the run below keeps.
  ghost predicate OneAtATime(defaults: seq<Service>, r: JobRecord, at: int, types: set<SigningType>, es: seq<Event>) {
    (forall i :: 0 <= i < |es| ==> es[i].at == at) && Undisturbed(defaults, r, es) && NamesOnly(es, types)
  }

  lemma OneMore(defaults: seq<Service>, r: JobRecord, at: int, types: set<SigningType>, es: seq<Event>, e: Event)
    requires OneAtATime(defaults, r, at, types, es) && e.at == at && e.seen == Run(defaults, r, es)
    requires e.EditWritten? && e.patch.signingType.Some? ==> e.patch.signingType.value in types
    ensures OneAtATime(defaults, r, at, types, es + [e])
    ensures Run(defaults, r, es + [e]) == After(defaults, Run(defaults, r, es), e)
  {
    UndisturbedMore(defaults, r, es, e);
  }

  // The timestamp of the scan after a move that is not to scanning.
  function ScanStampAfter(q: JobRecord): Option<int> {
    if q.status == SCANNING then None else q.scanningStartedAt
  }

  lemma OwnMove(defaults: seq<Service>, q: JobRecord, at: int, to: JobStatus)
    requires Refusal(q, to).None? && to in {CONFIRMED, IN_PROGRESS, COMPLETE}
    requires q.status == SCANNING ==> to == IN_PROGRESS
    ensures var next := After(defaults, q, Moved(at, q, to));
            next.status == to && next.signingType == q.signingType && next.scanningStartedAt == ScanStampAfter(q)
  {
  }

  lemma MoveOn(defaults: seq<Service>, r: JobRecord, at: int, types: set<SigningType>, es: seq<Event>, to: JobStatus)
    returns (more: seq<Event>)
    requires OneAtATime(defaults, r, at, types, es) && Refusal(Run(defaults, r, es), to).None?
    requires to in {CONFIRMED, IN_PROGRESS, COMPLETE}
    requires Run(defaults, r, es).status == SCANNING ==> to == IN_PROGRESS
    ensures OneAtATime(defaults, r, at, types, more)
    ensures var q, next := Run(defaults, r, es), Run(defaults, r, more);
            next.status == to && next.signingType == q.signingType && next.scanningStartedAt == ScanStampAfter(q)
  {
    var e := Moved(at, Run(defaults, r, es), to);
    OneMore(defaults, r, at, types, es, e);
    OwnMove(defaults, Run(defaults, r, es), at, to);
    more := es + [e];
  }

  // From any status that is not final to in progress, without a scan on record.
  lemma MoveToProgress(defaults: seq<Service>, r: JobRecord, at: int, types: set<SigningType>, es: seq<Event>)
    returns (more: seq<Event>)
    requires OneAtATime(defaults, r, at, types, es)
    requires var q := Run(defaults, r, es); Rank(q.status) <= 2 && ScanStampAfter(q).None?
    ensures OneAtATime(defaults, r, at, types, more)
    ensures var next := Run(defaults, r, more);
            && next.status == IN_PROGRESS && next.signingType == Run(defaults, r, es).signingType
            && next.scanningStartedAt.None?
  {
    more := es;
    if Rank(Run(defaults, r, es).status) == 0 {
      more := MoveOn(defaults, r, at, types, more, CONFIRMED);
    }
    if Run(defaults, r, more).status != IN_PROGRESS {
      more := MoveOn(defaults, r, at, types, more, IN_PROGRESS);
    }
  }

  lemma Retype(defaults: seq<Service>, r: JobRecord, at: int, types: set<SigningType>, es: seq<Event>, ty: SigningType)
    returns (more: seq<Event>)
    requires OneAtATime(defaults, r, at, types, es) && ty in types
    ensures OneAtATime(defaults, r, at, types, more)
    ensures var q, next := Run(defaults, r, es), Run(defaults, r, more);
            next.signingType == ty && next.status == q.status && next.scanningStartedAt == q.scanningStartedAt
  {
    var e := Retyped(at, Run(defaults, r, es), ty);
    OneMore(defaults, r, at, types, es, e);
    more := es + [e];
  }

  // Renaming the type before completing, and back afterwards, gets round the scan, one request at a time.
  lemma RenamingSkipsTheScan(defaults: seq<Service>, r: JobRecord, at: int, exempt: SigningType, bound: SigningType)
    returns (es: seq<Event>)
    requires Rank(r.status) <= 2 && ScanStampAfter(r).None?
    requires exempt !in SCANBACK_TYPES && bound in SCANBACK_TYPES
    ensures InOrder(at, es) && Undisturbed(defaults, r, es) && ScanSkipped(Run(defaults, r, es))
    ensures NamesOnly(es, {exempt, bound}) && (r.signingType == exempt ==> NamesOnly(es, {bound}))
  {
    var types := if r.signingType == exempt then {bound} else {exempt, bound};
    es := [];
    if r.signingType != exempt {
      es := Retype(defaults, r, at, types, es, exempt);
    }
    es := MoveToProgress(defaults, r, at, types, es);
    es := MoveOn(defaults, r, at, types, es, COMPLETE);
    es := Retype(defaults, r, at, types, es, bound);
  }

  // From any status that is not final, no run of moves that find the job as read ends with a completed but
  // unscanned job of a scanback type, if and only if the edits allowed never take the type across the line:
  // they name no scanback type, or nothing else.
  lemma ScanEnforcedExactly(defaults: seq<Service>, r: JobRecord, types: set<SigningType>, from: int)
    requires Coherent(r, from) && Rank(r.status) <= 2
    ensures (forall es :: InOrder(from, es) && NamesOnly(es, types) && Undisturbed(defaults, r, es) ==>
              !ScanSkipped(Run(defaults, r, es)))
            <==> BoundaryKept(r.signingType, types)
  {
    if BoundaryKept(r.signingType, types) {
      forall es | InOrder(from, es) && NamesOnly(es, types) && Undisturbed(defaults, r, es)
        ensures !ScanSkipped(Run(defaults, r, es))
      {
        ScanNotSkipped(defaults, r, types, from, es);
      }
    } else {
      var bound :| bound in types && bound in SCANBACK_TYPES;
      var exempt :| exempt in {r.signingType} + types && exempt !in SCANBACK_TYPES;
      var own := if r.signingType !in SCANBACK_TYPES then r.signingType else exempt;
      var es := RenamingSkipsTheScan(defaults, r, from, own, bound);
      assert NamesOnly(es, types);
    }
  }

  // ----- The countdown while scanning -----

  // An edit that read the job while scanning, or leaves the window alone.
  predicate LeavesCountdown(seen: JobRecord, p: Patch) {
    seen.status == SCANNING || !ChangesWindow(seen, p)
  }

  // An edit spares a running countdown, whatever the job has become meanwhile, exactly under this guard.
  lemma CountdownKeptExactly(defaults: seq<Service>, seen: JobRecord, p: Patch)
    ensures (forall row: JobRecord :: row.status == SCANNING ==>
              Edited(defaults, seen, p, row).scanbackEndsAt == row.scanbackEndsAt)
            <==> LeavesCountdown(seen, p)
  {
    if !LeavesCountdown(seen, p) {
      var ends := p.appointment.GetOr(seen.appointment) + Mins(NewSigningMins(defaults, seen, p));
      var planned := PlannedEnd(ends, NewScanbackMins(defaults, seen, p));
      var row := seen.(status := SCANNING, scanbackEndsAt := if planned == None then Some(0) else None);
      assert Edited(defaults, seen, p, row).scanbackEndsAt == planned != row.scanbackEndsAt;
    }
  }

  // The status is scanning from the first state of the run to the last.
  ghost predicate KeepsScanning(defaults: seq<Service>, r: JobRecord, es: seq<Event>) {
    forall n :: 0 <= n <= |es| ==> Run(defaults, r, es[..n]).status == SCANNING
  }

  // From the start of scanning until it is left, the end of the scanback stands at start plus the
  // length the job had when the move read it, whatever is edited.
  lemma {:induction false} CountdownStands(defaults: seq<Service>, r: JobRecord, seen: JobRecord, now: int,
                                           es: seq<Event>)
    requires KeepsScanning(defaults, Stamped(r, seen, now, SCANNING), es)
    requires AllHarmless(defaults, Stamped(r, seen, now, SCANNING), es)
    requires forall i :: 0 <= i < |es| && es[i].EditWritten? ==> LeavesCountdown(es[i].seen, es[i].patch)
    ensures var q := Run(defaults, Stamped(r, seen, now, SCANNING), es);
            q.scanbackEndsAt == PlannedEnd(now, seen.scanbackMins) && q.scanningStartedAt == Some(now)
  {
    if es != [] {
      var start, shorter := Stamped(r, seen, now, SCANNING), es[..|es| - 1];
      forall n | 0 <= n <= |shorter|
        ensures Run(defaults, start, shorter[..n]).status == SCANNING
      {
        assert shorter[..n] == es[..n];
      }
      HarmlessPrefix(defaults, start, es);
      CountdownStands(defaults, r, seen, now, shorter);
      assert es[..|es|] == es && Run(defaults, start, es).status == SCANNING;
      assert shorter == es[..|shorter|] && Run(defaults, start, shorter).status == SCANNING;
    }
  }

  // ----- The planned window -----

  predicate SigningPlanned(r: JobRecord) {
    r.signingEndsAt == Some(r.appointment + Mins(r.signingMins))
  }

  predicate ScanbackPlanned(r: JobRecord) {
    r.signingEndsAt.Some? && r.scanbackEndsAt == PlannedEnd(r.signingEndsAt.value, r.scanbackMins)
  }

  lemma CreatedIsPlanned(defaults: seq<Service>, now: int, ty: SigningType, appointment: int, signing: Option<int>,
                         scanback: Option<int>, status: Option<JobStatus>, manual: bool)
    ensures var r := Created(defaults, now, ty, appointment, signing, scanback, status, manual);
            SigningPlanned(r) && ScanbackPlanned(r)
  {
  }

  // How far the appointment an edit reckons with lies from the one on the row after it, and likewise the length.
  function AppointmentDrift(seen: JobRecord, p: Patch, row: JobRecord): int {
    if p.appointment.Some? then 0 else seen.appointment - row.appointment
  }

  function LengthDrift(defaults: seq<Service>, seen: JobRecord, p: Patch, row: JobRecord): int {
    if p.signingMins.Some? then 0 else NewSigningMins(defaults, seen, p) - row.signingMins
  }

  predicate InStep(defaults: seq<Service>, seen: JobRecord, p: Patch, row: JobRecord) {
    AppointmentDrift(seen, p, row) + Mins(LengthDrift(defaults, seen, p, row)) == 0
  }

  // The length an edit reckons with: the one given, for a new type that of its service in the user's list, or
  // else the one read. The row then has the appointment, type and lengths given, and nothing but its window and
  // its type is touched.
  lemma EditReckonsWithTheServices(defaults: seq<Service>, seen: JobRecord, p: Patch, row: JobRecord, mins: int)
    requires || p.signingMins == Some(mins)
             || (p.signingMins.None? && (p.signingType.None? || p.signingType == Some(seen.signingType))
                 && mins == seen.signingMins)
             || (p.signingMins.None? && p.signingType.Some? && p.signingType != Some(seen.signingType)
                 && exists s :: IsServiceOf(defaults, p.signingType.value, s) && mins == s.durationMins)
    ensures var q := Edited(defaults, seen, p, row);
            && q.signingEndsAt
               == Some((if p.appointment.Some? then p.appointment.value else seen.appointment) + 60_000 * mins)
            && q.appointment == (if p.appointment.Some? then p.appointment.value else row.appointment)
            && q.signingType == (if p.signingType.Some? then p.signingType.value else row.signingType)
            && q.signingMins == (if p.signingMins.Some? then p.signingMins.value else row.signingMins)
            && q == row.(appointment := q.appointment, signingType := q.signingType, signingMins := q.signingMins,
                         scanbackMins := q.scanbackMins, signingEndsAt := q.signingEndsAt,
                         scanbackEndsAt := q.scanbackEndsAt)
  {
    if p.signingType.Some? {
      DefaultsAreTheServices(defaults, p.signingType.value);
    }
  }

  // Likewise the scanback, which is written if it is another one than was read; its end follows the new end of
  // the signing, unless the job was read while scanning.
  lemma EditReckonsTheScanback(defaults: seq<Service>, seen: JobRecord, p: Patch, row: JobRecord, mins: int, end: int)
    requires || p.scanbackMins == Some(mins)
             || (p.scanbackMins.None? && (p.signingType.None? || p.signingType == Some(seen.signingType))
                 && mins == seen.scanbackMins)
             || (p.scanbackMins.None? && p.signingType.Some? && p.signingType != Some(seen.signingType)
                 && if p.signingType.value in SCANBACK_TYPES
                    then exists s :: IsServiceOf(defaults, p.signingType.value, s) && mins == s.scanbackMins
                    else mins == 0)
    requires Edited(defaults, seen, p, row).signingEndsAt == Some(end)
    ensures var q := Edited(defaults, seen, p, row);
            && q.scanbackMins == (if mins == seen.scanbackMins then row.scanbackMins else mins)
            && (seen.status == SCANNING ==> q.scanbackEndsAt == row.scanbackEndsAt)
            && (seen.status != SCANNING && mins != seen.scanbackMins ==>
                  q.scanbackEndsAt == if mins > 0 then Some(end + 60_000 * mins) else None)
            && (p == NO_CHANGE.(status := p.status) ==> q.scanbackEndsAt == row.scanbackEndsAt)
  {
    if p.signingType.Some? {
      DefaultsAreTheServices(defaults, p.signingType.value);
    }
  }

  // An edit always writes the end of the signing from what it read: over whatever row it is written, the
  // signing is planned afterwards exactly when the two drifts cancel out.
  lemma EditPlansExactly(defaults: seq<Service>, seen: JobRecord, p: Patch, row: JobRecord)
    ensures SigningPlanned(Edited(defaults, seen, p, row)) <==> InStep(defaults, seen, p, row)
  {
  }

  lemma MoveKeepsSigning(defaults: seq<Service>, r: JobRecord, e: Event)
    requires e.Moved?
    ensures SigningPlanned(After(defaults, r, e)) <==> SigningPlanned(r)
  {
    match e.to
    case _ =>
  }

  ghost predicate PlannedThroughout(defaults: seq<Service>, r: JobRecord, es: seq<Event>) {
    SigningPlanned(Run(defaults, r, es)) && (es != [] ==> PlannedThroughout(defaults, r, es[..|es| - 1]))
  }

  // Every edit of the run is in step with the row it is written over.
  ghost predicate AllInStep(defaults: seq<Service>, r: JobRecord, es: seq<Event>) {
    es != [] ==>
      var shorter, last := es[..|es| - 1], es[|es| - 1];
      && AllInStep(defaults, r, shorter)
      && (last.EditWritten? ==> InStep(defaults, last.seen, last.patch, Run(defaults, r, shorter)))
  }

  // Over every run of overlapping edits and moves the signing is planned in every state, if and only if each
  // edit is in step where it is written.
  lemma {:induction false} RunsArePlannedExactly(defaults: seq<Service>, r: JobRecord, es: seq<Event>)
    requires SigningPlanned(r)
    ensures PlannedThroughout(defaults, r, es) <==> AllInStep(defaults, r, es)
  {
    if es != [] {
      var shorter, last := es[..|es| - 1], es[|es| - 1];
      RunsArePlannedExactly(defaults, r, shorter);
      if last.EditWritten? {
        EditPlansExactly(defaults, last.seen, last.patch, Run(defaults, r, shorter));
      } else {
        MoveKeepsSigning(defaults, Run(defaults, r, shorter), last);
      }
    }
  }

  // An edit that changes nothing, read before another edit moved the appointment and written after it, leaves
  // the end of the signing at the old time.
  lemma OverlappingEditTakesTheEndBack(defaults: seq<Service>, r: JobRecord, at: int, appointment: int)
    returns (es: seq<Event>)
    requires SigningPlanned(r) && appointment != r.appointment
    ensures |es| == 2 && forall i :: 0 <= i < |es| ==> es[i].EditWritten? && es[i].seen == r
    ensures es[1].patch == NO_CHANGE
    ensures var q := Run(defaults, r, es);
            q.appointment == appointment && q.signingEndsAt == r.signingEndsAt && !SigningPlanned(q)
  {
    var move, none := EditWritten(at, r, NO_CHANGE.(appointment := Some(appointment))), EditWritten(at, r, NO_CHANGE);
    es := [move, none];
    RunSteps(defaults, r, [], move);
    RunSteps(defaults, r, [move], none);
    assert [] + [move] == [move] && [move] + [none] == es;
  }

  // A change of type that takes its length from the defaults recomputes the end of the signing but
  // does not record the length.
  predicate LosesLength(defaults: seq<Service>, r: JobRecord, p: Patch) {
    ChangesType(r, p) && p.signingMins.None? && DefaultSigning(defaults, p.signingType.value) != r.signingMins
  }

  // After an edit that finds a planned job as it read it, its recorded length and end agree, except in
  // exactly that case.
  // Before scanning, the scanback end follows the signing end in either case.
  lemma EditKeepsPlanExactly(defaults: seq<Service>, r: JobRecord, p: Patch)
    requires SigningPlanned(r)
    ensures SigningPlanned(Edited(defaults, r, p, r)) <==> !LosesLength(defaults, r, p)
    ensures r.status != SCANNING && ScanbackPlanned(r) ==> ScanbackPlanned(Edited(defaults, r, p, r))
  {
  }

  // The next edit then takes the end of the signing back to the old type's length, even one that
  // changes nothing, and the scanback end stays where the new type had put it.
  lemma LostLengthComesBack(defaults: seq<Service>, r: JobRecord, p: Patch)
    requires SigningPlanned(r) && ScanbackPlanned(r) && r.status != SCANNING
    requires LosesLength(defaults, r, p) && p.appointment.None?
    ensures var once := Edited(defaults, r, p, r);
            var twice := Edited(defaults, once, NO_CHANGE, once);
            && once.signingEndsAt != r.signingEndsAt && twice.signingEndsAt == r.signingEndsAt
            && twice.scanbackEndsAt == once.scanbackEndsAt
            && (ScanbackPlanned(twice) <==> once.scanbackMins <= 0)
  {
  }

  ghost predicate FreshEdits(defaults: seq<Service>, r: JobRecord, es: seq<Event>) {
    forall i :: 0 <= i < |es| && es[i].EditWritten? ==>
                  es[i].seen == Run(defaults, r, es[..i]) && !LosesLength(defaults, es[i].seen, es[i].patch)
  }

  predicate Planned(r: JobRecord) {
    SigningPlanned(r) && (Rank(r.status) <= 1 ==> ScanbackPlanned(r))
  }

  lemma StepKeepsPlan(defaults: seq<Service>, r: JobRecord, e: Event)
    requires Planned(r)
    requires WritesMove(e) ==> Harmless(e.seen.status, r.status, e.to)
    requires e.EditWritten? ==> e.seen == r && !LosesLength(defaults, r, e.patch)
    ensures Planned(After(defaults, r, e))
  {
    if e.EditWritten? {
      EditKeepsPlanExactly(defaults, r, e.patch);
    } else if WritesMove(e) {
      match e.to
      case _ =>
    }
  }

  // Edits one at a time that never lose a length, between harmless moves, keep the signing window planned
  // over every run, and the scanback window too until work starts.
  lemma {:induction false} EveryRunStaysPlanned(defaults: seq<Service>, r: JobRecord, es: seq<Event>)
    requires Planned(r) && FreshEdits(defaults, r, es) && AllHarmless(defaults, r, es)
    ensures Planned(Run(defaults, r, es))
  {
    if es != [] {
      var shorter := es[..|es| - 1];
      forall i | 0 <= i < |shorter| && shorter[i].EditWritten?
        ensures shorter[i].seen == Run(defaults, r, shorter[..i])
        ensures !LosesLength(defaults, shorter[i].seen, shorter[i].patch)
      {
        assert shorter[..i] == es[..i] && shorter[i] == es[i];
      }
      HarmlessPrefix(defaults, r, es);
      EveryRunStaysPlanned(defaults, r, shorter);
      StepKeepsPlan(defaults, Run(defaults, r, shorter), es[|es| - 1]);
    }
  }
}
