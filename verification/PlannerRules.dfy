/** A notary's day: jobs with fixed appointment times, routes between them, and the legs of
    an order in which to visit them. */
module PlannerRules {
  import opened Clock
  import opened Wrappers
  import opened Sorting

  // Coordinates in ten-millionths of a degree, as stored.
  datatype Place = Place(lat: int, lng: int) {
    // The planner turns coordinates into numbers and reads a zero one as missing.
    predicate Known() { lat != 0 && lng != 0 }
  }

  datatype Route = Route(mins: nat, miles: real)

  // The routing service at one moment; it may have no answer.
  type Router = (Place, Place) -> Option<Route>

  datatype DayJob = DayJob(
    id: int,
    place: Place,
    appointment: int,
    signingMins: int,
    scanbackMins: int,
    signingEndsAt: Option<int>,
    scanbackEndsAt: Option<int>,
    routeSequence: Option<int>,
    drive: Option<Route>)
  {
    function ServiceMins(): int { signingMins + scanbackMins }

    function DriveMins(): int { if drive.Some? then drive.value.mins else 0 }
  }

  datatype Leg = Leg(jobId: int, sequence: int, driveMins: nat, driveMiles: real)

  const TOLERANCE_MINS := 10

  function AppointmentOf(j: DayJob): int { j.appointment }

  function TimeOrder(jobs: seq<DayJob>): seq<DayJob> {
    Sort(jobs, AppointmentOf)
  }

  function Ids(jobs: seq<DayJob>): (r: seq<int>)
    ensures |r| == |jobs| && forall i :: 0 <= i < |r| ==> r[i] == jobs[i].id
  {
    if jobs == [] then [] else [jobs[0].id] + Ids(jobs[1..])
  }

  function LegIds(legs: seq<Leg>): (r: seq<int>)
    ensures |r| == |legs| && forall i :: 0 <= i < |r| ==> r[i] == legs[i].jobId
  {
    if legs == [] then [] else [legs[0].jobId] + LegIds(legs[1..])
  }

  // The jobs of a day by id.
  function ById(jobs: seq<DayJob>): map<int, DayJob> {
    if jobs == [] then map[]
    else ById(jobs[..|jobs| - 1])[jobs[|jobs| - 1].id := jobs[|jobs| - 1]]
  }

  ghost predicate UniqueIds(jobs: seq<DayJob>) {
    forall i, j :: 0 <= i < j < |jobs| ==> jobs[i].id != jobs[j].id
  }

  lemma {:induction false} IdsFindTheirJobs(jobs: seq<DayJob>)
    requires UniqueIds(jobs)
    ensures forall i :: 0 <= i < |jobs| ==> jobs[i].id in ById(jobs) && ById(jobs)[jobs[i].id] == jobs[i]
  {
    if jobs != [] {
      var rest := jobs[..|jobs| - 1];
      IdsFindTheirJobs(rest);
      forall i | 0 <= i < |rest|
        ensures jobs[i].id in ById(jobs) && ById(jobs)[jobs[i].id] == jobs[i]
      {
        assert rest[i] == jobs[i];
      }
    }
  }

  // ----- Is an order reachable? -----

  // Leaving the previous job when it should end, the next is reached at most ten minutes late.
  predicate Reaches(prev: DayJob, driveMins: int, job: DayJob) {
    prev.appointment + Mins(prev.ServiceMins()) + Mins(driveMins) <= job.appointment + Mins(TOLERANCE_MINS)
  }

  // Pairs naming an unknown job are passed over.
  predicate PairFits(jobs: map<int, DayJob>, legs: seq<Leg>, i: nat)
    requires 1 <= i < |legs|
  {
    legs[i - 1].jobId in jobs && legs[i].jobId in jobs ==>
      Reaches(jobs[legs[i - 1].jobId], legs[i].driveMins, jobs[legs[i].jobId])
  }

  ghost predicate Feasible(jobs: map<int, DayJob>, legs: seq<Leg>) {
    forall i :: 1 <= i < |legs| ==> PairFits(jobs, legs, i)
  }

  method IsFeasibleOrder(jobs: seq<DayJob>, legs: seq<Leg>) returns (ok: bool)
    ensures ok <==> Feasible(ById(jobs), legs)
  {
    if |legs| < 2 {
      return true;
    }
    var byId: map<int, DayJob> := map[];
    for k := 0 to |jobs|
      invariant byId == ById(jobs[..k])
    {
      assert jobs[..k + 1][..k] == jobs[..k];
      byId := byId[jobs[k].id := jobs[k]];
    }
    assert jobs[..|jobs|] == jobs;
    var i := 1;
    while i < |legs|
      invariant 1 <= i <= |legs|
      invariant forall k :: 1 <= k < i ==> PairFits(byId, legs, k)
    {
      if legs[i - 1].jobId in byId && legs[i].jobId in byId {
        var prevJob, job := byId[legs[i - 1].jobId], byId[legs[i].jobId];
        var prevEnds := prevJob.appointment + Mins(prevJob.signingMins + prevJob.scanbackMins);
        var arrival := prevEnds + Mins(legs[i].driveMins);
        if arrival > job.appointment + Mins(10) {
          assert !PairFits(byId, legs, i);
          return false;
        }
      }
      i := i + 1;
    }
    return true;
  }

  // From the rows: an order is accepted if and only if for every two legs in a row that name a job each, the
  // earlier job's appointment with its signing, its scanback and the drive to the later one is at most ten
  // minutes past that one's appointment. Legs that name no job are passed over.
  lemma AcceptedByTheRowsExactly(jobs: seq<DayJob>, legs: seq<Leg>)
    requires UniqueIds(jobs)
    ensures Feasible(ById(jobs), legs) <==>
            forall i, a, b ::
              1 <= i < |legs| && a in jobs && b in jobs && legs[i - 1].jobId == a.id && legs[i].jobId == b.id ==>
                a.appointment + Mins(a.signingMins) + Mins(a.scanbackMins) + Mins(legs[i].driveMins)
                <= b.appointment + Mins(10)
  {
    IdsFindTheirJobs(jobs);
    OnlyJobsAreFound(jobs);
    if Feasible(ById(jobs), legs) {
      forall i, a, b |
          1 <= i < |legs| && a in jobs && b in jobs && legs[i - 1].jobId == a.id && legs[i].jobId == b.id
        ensures a.appointment + Mins(a.signingMins) + Mins(a.scanbackMins) + Mins(legs[i].driveMins)
                <= b.appointment + Mins(10)
      {
        assert PairFits(ById(jobs), legs, i);
      }
    }
  }

  lemma {:induction false} OnlyJobsAreFound(jobs: seq<DayJob>)
    ensures forall id :: id in ById(jobs) ==> ById(jobs)[id] in jobs && ById(jobs)[id].id == id
  {
    if jobs != [] {
      OnlyJobsAreFound(jobs[..|jobs| - 1]);
    }
  }

  // ----- What the check means for the day as lived -----

  // legs visit exactly the stops, in this order.
  ghost predicate Visits(jobs: map<int, DayJob>, legs: seq<Leg>, stops: seq<DayJob>) {
    |stops| == |legs| && forall i :: 0 <= i < |legs| ==> legs[i].jobId in jobs && jobs[legs[i].jobId] == stops[i]
  }

  // When the k-th stop really starts: on time, or as soon as the notary gets there.
  function StartOf(stops: seq<DayJob>, legs: seq<Leg>, k: nat): int
    requires k < |stops| == |legs|
  {
    if k == 0 then stops[0].appointment
    else Max(stops[k].appointment,
             StartOf(stops, legs, k - 1) + Mins(stops[k - 1].ServiceMins()) + Mins(legs[k].driveMins))
  }

  // The check looks at neighbours only, so lateness adds up: ten minutes for every stop before.
  lemma {:induction false} LatenessAddsUp(jobs: map<int, DayJob>, legs: seq<Leg>, stops: seq<DayJob>, k: nat)
    requires Visits(jobs, legs, stops) && Feasible(jobs, legs) && k < |stops|
    ensures stops[k].appointment <= StartOf(stops, legs, k) <= stops[k].appointment + Mins(TOLERANCE_MINS * k)
  {
    if k > 0 {
      LatenessAddsUp(jobs, legs, stops, k - 1);
      assert PairFits(jobs, legs, k);
    }
  }

  // A day of half-hour signings booked every twenty minutes next door to each other.
  function PackedDay(n: nat): (stops: seq<DayJob>)
    ensures |stops| == n
    ensures forall i :: 0 <= i < n ==> stops[i] == PackedStop(i)
  {
    if n == 0 then [] else PackedDay(n - 1) + [PackedStop(n - 1)]
  }

  function PackedStop(i: int): DayJob {
    DayJob(i, Place(1, 1), Mins(20 * i), 30, 0, None, None, None, None)
  }

  function PackedLegs(n: nat): (legs: seq<Leg>)
    ensures |legs| == n
    ensures forall i :: 0 <= i < n ==> legs[i] == Leg(i, i + 1, 0, 0.0)
  {
    if n == 0 then [] else PackedLegs(n - 1) + [Leg(n - 1, n, 0, 0.0)]
  }

  lemma {:induction false} PackedStart(n: nat, k: nat)
    requires k < n
    ensures StartOf(PackedDay(n), PackedLegs(n), k) == Mins(30 * k)
  {
    if k > 0 {
      PackedStart(n, k - 1);
    }
  }

  lemma PackedIsAccepted(n: nat)
    ensures Visits(ById(PackedDay(n)), PackedLegs(n), PackedDay(n)) && Feasible(ById(PackedDay(n)), PackedLegs(n))
  {
    var jobs, stops, legs := ById(PackedDay(n)), PackedDay(n), PackedLegs(n);
    IdsFindTheirJobs(stops);
    forall i | 0 <= i < n
      ensures legs[i].jobId in jobs && jobs[legs[i].jobId] == stops[i] == PackedStop(i)
    {
      assert stops[i].id == i == legs[i].jobId;
    }
    forall i | 1 <= i < n
      ensures PairFits(jobs, legs, i)
    {
      assert jobs[legs[i - 1].jobId] == PackedStop(i - 1) && jobs[legs[i].jobId] == PackedStop(i);
    }
  }

  // The bound is reached: for every k some accepted day has its k-th stop exactly 10 k minutes late.
  lemma LatenessBoundIsTight(k: nat)
    ensures var n := k + 1;
            && Visits(ById(PackedDay(n)), PackedLegs(n), PackedDay(n)) && Feasible(ById(PackedDay(n)), PackedLegs(n))
            && StartOf(PackedDay(n), PackedLegs(n), k) == PackedDay(n)[k].appointment + Mins(TOLERANCE_MINS * k)
  {
    var n := k + 1;
    PackedIsAccepted(n);
    PackedStart(n, k);
    assert PackedDay(n)[k] == PackedStop(k);
  }

  // Service and driving from the i-th stop to the k-th, in minutes.
  function Path(stops: seq<DayJob>, legs: seq<Leg>, i: nat, k: nat): int
    requires i <= k < |stops| == |legs|
  {
    if i == k then 0 else Path(stops, legs, i, k - 1) + stops[k - 1].ServiceMins() + legs[k].driveMins
  }

  // Straight from the i-th stop, the k-th is reached within the tolerance.
  predicate PathFits(stops: seq<DayJob>, legs: seq<Leg>, i: nat, k: nat)
    requires i <= k < |stops| == |legs|
  {
    stops[i].appointment + Mins(Path(stops, legs, i, k)) <= stops[k].appointment + Mins(TOLERANCE_MINS)
  }

  ghost predicate AllWithinTolerance(stops: seq<DayJob>, legs: seq<Leg>)
    requires |stops| == |legs|
  {
    forall k :: 0 <= k < |stops| ==> StartOf(stops, legs, k) <= stops[k].appointment + Mins(TOLERANCE_MINS)
  }

  // No stop starts earlier than any path to it allows.
  lemma {:induction false} StartsAfterEveryPath(stops: seq<DayJob>, legs: seq<Leg>, i: nat, k: nat)
    requires i <= k < |stops| == |legs|
    ensures stops[i].appointment + Mins(Path(stops, legs, i, k)) <= StartOf(stops, legs, k)
  {
    if i < k {
      StartsAfterEveryPath(stops, legs, i, k - 1);
    }
  }

  // And each start is the end of one of them, from the last stop served on time.
  lemma {:induction false} StartsAtSomePath(stops: seq<DayJob>, legs: seq<Leg>, k: nat) returns (i: nat)
    requires k < |stops| == |legs|
    ensures i <= k && StartOf(stops, legs, k) == stops[i].appointment + Mins(Path(stops, legs, i, k))
  {
    i := k;
    if StartOf(stops, legs, k) != stops[k].appointment {
      i := StartsAtSomePath(stops, legs, k - 1);
    }
  }

  // Every stop is reached within ten minutes if and only if every two stops, not only neighbours, fit.
  lemma WithinToleranceExactly(stops: seq<DayJob>, legs: seq<Leg>)
    requires |stops| == |legs|
    ensures AllWithinTolerance(stops, legs) <==> forall i, k :: 0 <= i < k < |stops| ==> PathFits(stops, legs, i, k)
  {
    if forall i, k :: 0 <= i < k < |stops| ==> PathFits(stops, legs, i, k) {
      forall k | 0 <= k < |stops|
        ensures StartOf(stops, legs, k) <= stops[k].appointment + Mins(TOLERANCE_MINS)
      {
        var i := StartsAtSomePath(stops, legs, k);
        assert i < k ==> PathFits(stops, legs, i, k);
      }
    }
    if AllWithinTolerance(stops, legs) {
      forall i, k | 0 <= i < k < |stops|
        ensures PathFits(stops, legs, i, k)
      {
        StartsAfterEveryPath(stops, legs, i, k);
      }
    }
  }

  // An order of n stops the planner accepts.
  ghost predicate Accepted(jobs: map<int, DayJob>, legs: seq<Leg>, stops: seq<DayJob>, n: nat) {
    |stops| == n && Visits(jobs, legs, stops) && Feasible(jobs, legs)
  }

  // Accepting an order keeps all its stops within ten minutes, whatever the order, exactly up to two stops.
  lemma ToleranceHoldsExactlyForTwoStops(n: nat)
    ensures (forall jobs: map<int, DayJob>, legs: seq<Leg>, stops: seq<DayJob> ::
              Accepted(jobs, legs, stops, n) ==> AllWithinTolerance(stops, legs))
            <==> n <= 2
  {
    if n <= 2 {
      forall jobs: map<int, DayJob>, legs: seq<Leg>, stops: seq<DayJob> | Accepted(jobs, legs, stops, n)
        ensures AllWithinTolerance(stops, legs)
      {
        forall k | 0 <= k < n
          ensures StartOf(stops, legs, k) <= stops[k].appointment + Mins(TOLERANCE_MINS)
        {
          LatenessAddsUp(jobs, legs, stops, k);
        }
      }
    } else {
      var stops, legs := PackedDay(n), PackedLegs(n);
      PackedIsAccepted(n);
      PackedStart(n, n - 1);
      assert stops[n - 1] == PackedStop(n - 1);
      assert Accepted(ById(stops), legs, stops, n) && !AllWithinTolerance(stops, legs);
    }
  }

  // Everybody is served on time exactly when every pair fits without the tolerance.
  lemma OnTimeExactlyWithoutTolerance(stops: seq<DayJob>, legs: seq<Leg>)
    requires |stops| == |legs|
    ensures (forall k :: 0 <= k < |stops| ==> StartOf(stops, legs, k) == stops[k].appointment)
            <==> (forall k :: 1 <= k < |stops| ==>
                    stops[k - 1].appointment + Mins(stops[k - 1].ServiceMins()) + Mins(legs[k].driveMins)
                    <= stops[k].appointment)
  {
    if forall k :: 1 <= k < |stops| ==>
        stops[k - 1].appointment + Mins(stops[k - 1].ServiceMins()) + Mins(legs[k].driveMins) <= stops[k].appointment {
      var k := 0;
      while k < |stops|
        invariant 0 <= k <= |stops|
        invariant forall i :: 0 <= i < k ==> StartOf(stops, legs, i) == stops[i].appointment
      {
        k := k + 1;
      }
    }
    if forall k :: 0 <= k < |stops| ==> StartOf(stops, legs, k) == stops[k].appointment {
      forall k | 1 <= k < |stops|
        ensures stops[k - 1].appointment + Mins(stops[k - 1].ServiceMins()) + Mins(legs[k].driveMins)
                <= stops[k].appointment
      {
        assert StartOf(stops, legs, k) == stops[k].appointment;
        assert StartOf(stops, legs, k - 1) == stops[k - 1].appointment;
      }
    }
  }

  // An accepted order of all the day's jobs whose legs each take more than ten minutes is the
  // day's time order, and no two of its appointments coincide.
  lemma AcceptedOrderIsTimeOrder(jobs: seq<DayJob>, legs: seq<Leg>, stops: seq<DayJob>)
    requires Visits(ById(jobs), legs, stops) && Feasible(ById(jobs), legs)
    requires multiset(stops) == multiset(jobs)
    requires forall i :: 1 <= i < |stops| ==> stops[i - 1].ServiceMins() + legs[i].driveMins > TOLERANCE_MINS
    ensures StrictlyOrdered(stops, AppointmentOf) && TimeOrder(jobs) == stops
    ensures LegIds(legs) == Ids(TimeOrder(jobs))
  {
    forall i | 1 <= i < |stops|
      ensures stops[i - 1].appointment < stops[i].appointment
    {
      assert PairFits(ById(jobs), legs, i);
    }
    StepsToOrder(stops);
    SortOfStrictlyOrdered(stops, jobs, AppointmentOf);
    VisitedIds(jobs, legs, stops);
  }

  lemma {:induction false} StepsToOrder(stops: seq<DayJob>)
    requires forall i :: 1 <= i < |stops| ==> stops[i - 1].appointment < stops[i].appointment
    ensures StrictlyOrdered(stops, AppointmentOf)
  {
    if |stops| > 1 {
      StepsToOrder(stops[1..]);
      forall j | 1 <= j < |stops|
        ensures AppointmentOf(stops[0]) < AppointmentOf(stops[j])
      {
        assert stops[1..][0] == stops[1] && stops[1..][j - 1] == stops[j];
      }
    }
  }

  lemma {:induction false} KeysAreIds(jobs: seq<DayJob>)
    ensures forall id :: id in ById(jobs) ==> ById(jobs)[id].id == id
  {
    if jobs != [] {
      KeysAreIds(jobs[..|jobs| - 1]);
    }
  }

  lemma VisitedIds(jobs: seq<DayJob>, legs: seq<Leg>, stops: seq<DayJob>)
    requires Visits(ById(jobs), legs, stops)
    ensures LegIds(legs) == Ids(stops)
  {
    KeysAreIds(jobs);
  }
}
