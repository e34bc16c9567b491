/** The day view: conflict warnings and free gaps between consecutive jobs. */
module PlannerDay {
  import opened Clock
  import opened Wrappers
  import opened PlannerRules
  import BookingRules
  import JobLifecycle

  // A job of the day with its end times as creation leaves them.
  function Created(j: DayJob): DayJob {
    var signingEnds := j.appointment + Mins(j.signingMins);
    j.(signingEndsAt := Some(signingEnds), scanbackEndsAt := BookingRules.PlannedEnd(signingEnds, j.scanbackMins))
  }

  // The end the day view reads: after scanback if one is recorded.
  function EndOf(j: DayJob): Option<int> {
    if j.scanbackEndsAt.Some? then j.scanbackEndsAt else j.signingEndsAt
  }

  predicate EndsAsPlanned(j: DayJob) {
    EndOf(j) == Some(j.appointment + Mins(j.ServiceMins()))
  }

  // A job's row as the day reads it.
  function OnTheDay(id: int, place: Place, r: JobLifecycle.JobRecord): DayJob {
    DayJob(id, place, r.appointment, r.signingMins, r.scanbackMins, r.signingEndsAt, r.scanbackEndsAt, None, None)
  }

  lemma PlannedShowsAsCreated(id: int, place: Place, q: JobLifecycle.JobRecord)
    requires JobLifecycle.SigningPlanned(q) && JobLifecycle.ScanbackPlanned(q)
    ensures OnTheDay(id, place, q) == Created(OnTheDay(id, place, q))
    ensures EndsAsPlanned(OnTheDay(id, place, q)) <==> q.scanbackMins >= 0
  {
  }

  // What the planner takes for granted about the end of a job with a planned window holds over every run of
  // edits that keep the window planned, until work starts, if and only if its scanback is not negative.
  lemma DayEndsAsPlannedUntilWorkStarts(id: int, place: Place, defaults: seq<BookingRules.Service>,
                                        r: JobLifecycle.JobRecord, es: seq<JobLifecycle.Event>)
    requires JobLifecycle.SigningPlanned(r) && JobLifecycle.ScanbackPlanned(r)
    requires JobLifecycle.FreshEdits(defaults, r, es) && JobLifecycle.AllHarmless(defaults, r, es)
    requires JobLifecycle.Rank(JobLifecycle.Run(defaults, r, es).status) <= 1
    ensures var q := JobLifecycle.Run(defaults, r, es);
            && OnTheDay(id, place, q) == Created(OnTheDay(id, place, q))
            && (EndsAsPlanned(OnTheDay(id, place, q)) <==> q.scanbackMins >= 0)
  {
    JobLifecycle.EveryRunStaysPlanned(defaults, r, es);
    PlannedShowsAsCreated(id, place, JobLifecycle.Run(defaults, r, es));
  }

  // So it does for every job from its creation on.
  lemma CreatedJobEndsAsPlanned(id: int, place: Place, defaults: seq<BookingRules.Service>, now: int,
                                ty: BookingRules.SigningType, appointment: int, signing: Option<int>,
                                scanback: Option<int>, status: Option<BookingRules.JobStatus>, manual: bool,
                                es: seq<JobLifecycle.Event>)
    requires var r := JobLifecycle.Created(defaults, now, ty, appointment, signing, scanback, status, manual);
             && JobLifecycle.FreshEdits(defaults, r, es) && JobLifecycle.AllHarmless(defaults, r, es)
             && JobLifecycle.Rank(JobLifecycle.Run(defaults, r, es).status) <= 1
    ensures var r := JobLifecycle.Created(defaults, now, ty, appointment, signing, scanback, status, manual);
            var q := JobLifecycle.Run(defaults, r, es);
            EndsAsPlanned(OnTheDay(id, place, q)) <==> q.scanbackMins >= 0
  {
    JobLifecycle.CreatedIsPlanned(defaults, now, ty, appointment, signing, scanback, status, manual);
    var r := JobLifecycle.Created(defaults, now, ty, appointment, signing, scanback, status, manual);
    DayEndsAsPlannedUntilWorkStarts(id, place, defaults, r, es);
  }

  // ----- Conflicts -----

  datatype Conflict = Conflict(fromJob: int, toJob: int, shortfallMins: int)

  // Whole minutes, rounded up.
  function CeilMins(ms: int): int { -((-ms) / 60_000) }

  function ConflictBetween(curr: DayJob, next: DayJob): Option<Conflict> {
    if EndOf(curr).None? then None
    else
      var missing := Mins(next.DriveMins()) - (next.appointment - EndOf(curr).value);
      if missing > 0 then Some(Conflict(curr.id, next.id, CeilMins(missing))) else None
  }

  // c is the conflict between the i-th job and the one before.
  predicate ConflictAt(jobs: seq<DayJob>, i: nat, c: Conflict) {
    1 <= i < |jobs| && ConflictBetween(jobs[i - 1], jobs[i]) == Some(c)
  }

  function Conflicts(jobs: seq<DayJob>): (r: seq<Conflict>)
    ensures forall c :: c in r <==> exists i :: ConflictAt(jobs, i, c)
  {
    if |jobs| < 2 then []
    else
      var last := ConflictBetween(jobs[|jobs| - 2], jobs[|jobs| - 1]);
      var before := jobs[..|jobs| - 1];
      assert forall i, c :: ConflictAt(jobs, i, c) <==>
                            ConflictAt(before, i, c) || (i == |before| && last == Some(c));
      assert last.Some? ==> ConflictAt(jobs, |before|, last.value);
      Conflicts(before) + if last.Some? then [last.value] else []
  }

  lemma EveryConflictIsShown(jobs: seq<DayJob>, i: nat)
    requires 1 <= i < |jobs|
    ensures var c := ConflictBetween(jobs[i - 1], jobs[i]); c.Some? ==> c.value in Conflicts(jobs)
  {
    var c := ConflictBetween(jobs[i - 1], jobs[i]);
    assert c.Some? ==> ConflictAt(jobs, i, c.value);
  }

  // The day warns of two neighbours exactly if the drive recorded for the later one does not fit between the
  // earlier one's recorded end - its scanback's, or else its signing's - and the later one's appointment; the
  // warning names them in this order and the missing minutes, rounded up.
  lemma WarningsTellWhatIsMissing(jobs: seq<DayJob>, i: nat, end: int, drive: nat)
    requires 1 <= i < |jobs|
    requires if jobs[i - 1].scanbackEndsAt.Some? then jobs[i - 1].scanbackEndsAt == Some(end)
             else jobs[i - 1].signingEndsAt == Some(end)
    requires if jobs[i].drive.Some? then jobs[i].drive.value.mins == drive else drive == 0
    ensures (exists c :: ConflictAt(jobs, i, c)) <==> end + 60_000 * drive > jobs[i].appointment
    ensures forall c :: ConflictAt(jobs, i, c) ==>
                          && c in Conflicts(jobs) && c.fromJob == jobs[i - 1].id && c.toJob == jobs[i].id
                          && end + 60_000 * (drive - c.shortfallMins) <= jobs[i].appointment
                          && jobs[i].appointment < end + 60_000 * (drive - c.shortfallMins + 1)
  {
    var c := ConflictBetween(jobs[i - 1], jobs[i]);
    if c.Some? {
      EveryConflictIsShown(jobs, i);
      assert ConflictAt(jobs, i, c.value);
    }
  }

  lemma NoEndNoWarning(jobs: seq<DayJob>, i: nat, c: Conflict)
    requires ConflictAt(jobs, i, c)
    ensures jobs[i - 1].scanbackEndsAt.Some? || jobs[i - 1].signingEndsAt.Some?
  {
  }

  lemma OneMorePair(jobs: seq<DayJob>, i: nat)
    requires i + 1 < |jobs|
    ensures var c := ConflictBetween(jobs[i], jobs[i + 1]);
            Conflicts(jobs[..i + 2]) == Conflicts(jobs[..i + 1]) + if c.Some? then [c.value] else []
  {
    assert jobs[..i + 2][..i + 1] == jobs[..i + 1];
  }

  method DetectConflicts(jobs: seq<DayJob>) returns (conflicts: seq<Conflict>)
    ensures conflicts == Conflicts(jobs)
  {
    conflicts := [];
    var i := 0;
    while i < |jobs| - 1
      invariant 0 <= i && (|jobs| > 0 ==> i <= |jobs| - 1)
      invariant conflicts == if |jobs| > 0 then Conflicts(jobs[..i + 1]) else []
    {
      OneMorePair(jobs, i);
      var curr, nextJob := jobs[i], jobs[i + 1];
      i := i + 1;
      var currEnds := if curr.scanbackEndsAt.Some? then curr.scanbackEndsAt else curr.signingEndsAt;
      if currEnds.None? {
        continue;
      }
      var driveToNext := if nextJob.drive.Some? then nextJob.drive.value.mins else 0;
      var gapMs := nextJob.appointment - currEnds.value;
      if gapMs < Mins(driveToNext) {
        conflicts := conflicts + [Conflict(curr.id, nextJob.id, CeilMins(Mins(driveToNext) - gapMs))];
      }
    }
    assert |jobs| > 0 ==> jobs[..i + 1] == jobs;
  }

  ghost predicate SameDrives(legs: seq<Leg>, stops: seq<DayJob>) {
    |stops| == |legs| && forall i :: 1 <= i < |legs| ==> legs[i].driveMins == stops[i].DriveMins()
  }

  lemma PairAndConflictAgree(prev: DayJob, next: DayJob)
    requires EndsAsPlanned(prev)
    ensures var c := ConflictBetween(prev, next);
            && (Reaches(prev, next.DriveMins(), next) <==> (c.Some? ==> c.value.shortfallMins <= TOLERANCE_MINS))
            && (c.Some? ==> c.value.shortfallMins >= 1)
  {
  }

  // The planner accepts an order exactly when the day view, shown the jobs in that order, warns of
  // no shortfall above ten minutes.
  lemma {:induction false} FeasibleExactlyWhenConflictsAreSmall(jobs: map<int, DayJob>, legs: seq<Leg>,
                                                                stops: seq<DayJob>)
    requires Visits(jobs, legs, stops) && SameDrives(legs, stops)
    requires forall i :: 0 <= i < |stops| ==> EndsAsPlanned(stops[i])
    ensures Feasible(jobs, legs) <==> forall c :: c in Conflicts(stops) ==> c.shortfallMins <= TOLERANCE_MINS
  {
    forall i | 1 <= i < |legs|
      ensures PairFits(jobs, legs, i) <==>
              (ConflictBetween(stops[i - 1], stops[i]).Some? ==>
                ConflictBetween(stops[i - 1], stops[i]).value.shortfallMins <= TOLERANCE_MINS)
    {
      PairAndConflictAgree(stops[i - 1], stops[i]);
    }
    if forall c :: c in Conflicts(stops) ==> c.shortfallMins <= TOLERANCE_MINS {
      forall i | 1 <= i < |legs|
        ensures PairFits(jobs, legs, i)
      {
        EveryConflictIsShown(stops, i);
      }
    }
  }

  // And it warns of nothing exactly when the notary is on time everywhere.
  lemma {:induction false} NoConflictExactlyWhenOnTime(stops: seq<DayJob>, legs: seq<Leg>)
    requires SameDrives(legs, stops)
    requires forall i :: 0 <= i < |stops| ==> EndsAsPlanned(stops[i])
    ensures Conflicts(stops) == [] <==>
            forall k :: 0 <= k < |stops| ==> StartOf(stops, legs, k) == stops[k].appointment
  {
    OnTimeExactlyWithoutTolerance(stops, legs);
    if Conflicts(stops) == [] {
      forall k | 1 <= k < |stops|
        ensures stops[k - 1].appointment + Mins(stops[k - 1].ServiceMins()) + Mins(legs[k].driveMins)
                <= stops[k].appointment
      {
        EveryConflictIsShown(stops, k);
      }
    } else {
      var c := Conflicts(stops)[0];
      assert c in Conflicts(stops);
      var i: nat :| ConflictAt(stops, i, c);
    }
  }
}
