/** Legs between stops: the time-ordered fallback, the legs of a solver's order, writing a
    route to the day's jobs, and filling in legs that are missing. */
module PlannerRoutes {
  import opened Clock
  import opened Wrappers
  import opened Sorting
  import opened PlannerRules
  import opened PlannerDay

  // A leg as recorded: an unavailable route counts as nothing.
  function LegTo(router: Router, from: Place, j: DayJob, sequence: int): Leg {
    var r := router(from, j.place);
    if r.Some? then Leg(j.id, sequence, r.value.mins, r.value.miles) else Leg(j.id, sequence, 0, 0.0)
  }

  // The leg is to the job, with the minutes and miles of the way there if the router knows one.
  predicate LeadsTo(leg: Leg, router: Router, from: Place, j: DayJob, sequence: int) {
    && leg.jobId == j.id && leg.sequence == sequence
    && match router(from, j.place)
       case Some(way) => leg.driveMins == way.mins && leg.driveMiles == way.miles
       case None => leg.driveMins == 0 && leg.driveMiles == 0.0
  }

  // ----- Time order -----

  function StopLeg(router: Router, home: Place, stops: seq<DayJob>, i: nat): Leg
    requires i < |stops|
  {
    LegTo(router, if i == 0 then home else stops[i - 1].place, stops[i], i + 1)
  }

  function Fallback(router: Router, home: Place, stops: seq<DayJob>): seq<Leg> {
    seq(|stops|, i requires 0 <= i < |stops| => StopLeg(router, home, stops, i))
  }

  method FallbackTimeOrder(router: Router, home: Place, jobs: seq<DayJob>) returns (legs: seq<Leg>)
    ensures legs == Fallback(router, home, TimeOrder(jobs))
  {
    var sorted := Sort(jobs, AppointmentOf);
    legs := [];
    for i := 0 to |sorted|
      invariant |legs| == i && forall k :: 0 <= k < i ==> legs[k] == StopLeg(router, home, sorted, k)
    {
      var job := sorted[i];
      var prev := if i == 0 then home else sorted[i - 1].place;
      var route := router(prev, job.place);
      legs := legs + [Leg(job.id, i + 1,
                          if route.Some? then route.value.mins else 0,
                          if route.Some? then route.value.miles else 0.0)];
    }
  }

  // The fallback visits every job once, earliest first, numbered from one.
  lemma FallbackIsTheDayInTimeOrder(router: Router, home: Place, jobs: seq<DayJob>)
    requires UniqueIds(jobs)
    ensures var legs, stops := Fallback(router, home, TimeOrder(jobs)), TimeOrder(jobs);
            && Visits(ById(jobs), legs, stops) && multiset(stops) == multiset(jobs)
            && Ordered(stops, AppointmentOf)
            && forall i :: 0 <= i < |legs| ==> legs[i].sequence == i + 1
  {
    SortIsOrderedPermutation(jobs, AppointmentOf);
    IdsFindTheirJobs(jobs);
    var legs, stops := Fallback(router, home, TimeOrder(jobs)), TimeOrder(jobs);
    forall i | 0 <= i < |legs|
      ensures legs[i].jobId in ById(jobs) && ById(jobs)[legs[i].jobId] == stops[i]
    {
      assert stops[i] in multiset(stops);
      var k := Position(jobs, stops[i]);
      assert jobs[k].id in ById(jobs) && legs[i] == StopLeg(router, home, stops, i);
    }
  }

  // Its first leg starts at home and every other at the stop before.
  lemma FallbackDrivesFromStopToStop(router: Router, home: Place, stops: seq<DayJob>, i: nat)
    requires i < |stops|
    ensures |Fallback(router, home, stops)| == |stops|
    ensures LeadsTo(Fallback(router, home, stops)[i], router, if i == 0 then home else stops[i - 1].place, stops[i],
                    i + 1)
  {
  }

  // ----- A solver's order -----

  // The leg for the i-th step; steps name jobs by position from one, unknown ones are dropped.
  function StepLeg(router: Router, home: Place, jobs: seq<DayJob>, steps: seq<int>, i: nat): Option<Leg>
    requires i < |steps|
  {
    if !(1 <= steps[i] <= |jobs|) then None
    else
      var j := jobs[steps[i] - 1];
      if i == 0 then Some(LegTo(router, home, j, 1))
      else if 1 <= steps[i - 1] <= |jobs| then Some(LegTo(router, jobs[steps[i - 1] - 1].place, j, i + 1))
      else Some(Leg(j.id, i + 1, 0, 0.0))
  }

  function SolverLegs(router: Router, home: Place, jobs: seq<DayJob>, steps: seq<int>, n: nat): seq<Leg>
    requires n <= |steps|
  {
    if n == 0 then []
    else
      var leg := StepLeg(router, home, jobs, steps, n - 1);
      SolverLegs(router, home, jobs, steps, n - 1) + if leg.Some? then [leg.value] else []
  }

  method LegsOfSteps(router: Router, home: Place, jobs: seq<DayJob>, steps: seq<int>) returns (legs: seq<Leg>)
    ensures legs == SolverLegs(router, home, jobs, steps, |steps|)
  {
    legs := [];
    for i := 0 to |steps|
      invariant legs == SolverLegs(router, home, jobs, steps, i)
    {
      var at := steps[i] - 1;
      if !(0 <= at < |jobs|) {
        continue;
      }
      var job := jobs[at];
      var drive: nat, miles := 0, 0.0;
      if i == 0 {
        var route := router(home, job.place);
        if route.Some? {
          drive, miles := route.value.mins, route.value.miles;
        }
      } else {
        var before := steps[i - 1] - 1;
        if 0 <= before < |jobs| {
          var route := router(jobs[before].place, job.place);
          if route.Some? {
            drive, miles := route.value.mins, route.value.miles;
          }
        }
      }
      legs := legs + [Leg(job.id, i + 1, drive, miles)];
    }
  }

  // How many of the first n steps name a job.
  function KnownSteps(jobs: seq<DayJob>, steps: seq<int>, n: nat): nat
    requires n <= |steps|
  {
    if n == 0 then 0 else KnownSteps(jobs, steps, n - 1) + if 1 <= steps[n - 1] <= |jobs| then 1 else 0
  }

  // Each step that names a job has its leg, in the order of the steps and numbered by its place among all of
  // them: from home if it is the first, from the job of the step before if that names one, else of no length.
  lemma {:induction false} EveryKnownStepHasItsLeg(router: Router, home: Place, jobs: seq<DayJob>, steps: seq<int>,
                                                   n: nat, i: nat)
    requires i < n <= |steps| && 1 <= steps[i] <= |jobs|
    ensures |SolverLegs(router, home, jobs, steps, n)| == KnownSteps(jobs, steps, n)
    ensures KnownSteps(jobs, steps, i) < |SolverLegs(router, home, jobs, steps, n)|
    ensures var leg, j := SolverLegs(router, home, jobs, steps, n)[KnownSteps(jobs, steps, i)], jobs[steps[i] - 1];
            if i == 0 then LeadsTo(leg, router, home, j, 1)
            else if 1 <= steps[i - 1] <= |jobs| then LeadsTo(leg, router, jobs[steps[i - 1] - 1].place, j, i + 1)
            else leg == Leg(j.id, i + 1, 0, 0.0)
  {
    LegsCountKnownSteps(router, home, jobs, steps, n);
    LegsCountKnownSteps(router, home, jobs, steps, n - 1);
    if i < n - 1 {
      EveryKnownStepHasItsLeg(router, home, jobs, steps, n - 1, i);
    }
  }

  lemma {:induction false} LegsCountKnownSteps(router: Router, home: Place, jobs: seq<DayJob>, steps: seq<int>, n: nat)
    requires n <= |steps|
    ensures |SolverLegs(router, home, jobs, steps, n)| == KnownSteps(jobs, steps, n)
  {
    if n > 0 {
      LegsCountKnownSteps(router, home, jobs, steps, n - 1);
    }
  }

  // A solver that answers with the time order gets exactly the fallback's legs.
  lemma {:induction false} SolverAgreesWithFallback(router: Router, home: Place, jobs: seq<DayJob>, steps: seq<int>,
                                                    n: nat)
    requires n <= |steps| == |jobs| == |TimeOrder(jobs)|
    requires forall i :: 0 <= i < |steps| ==> 1 <= steps[i] <= |jobs| && jobs[steps[i] - 1] == TimeOrder(jobs)[i]
    ensures SolverLegs(router, home, jobs, steps, n) == Fallback(router, home, TimeOrder(jobs))[..n]
  {
    if n > 0 {
      SolverAgreesWithFallback(router, home, jobs, steps, n - 1);
      assert StepLeg(router, home, jobs, steps, n - 1) == Some(StopLeg(router, home, TimeOrder(jobs), n - 1));
    }
  }

  // ----- Writing a route -----

  function TotalDrive(legs: seq<Leg>): nat {
    if legs == [] then 0 else TotalDrive(legs[..|legs| - 1]) + legs[|legs| - 1].driveMins
  }

  // The total is additive, nothing for no leg and a leg's minutes for one.
  lemma {:induction false} TotalDriveIsTheSum(a: seq<Leg>, b: seq<Leg>, leg: Leg)
    ensures TotalDrive([]) == 0 && TotalDrive([leg]) == leg.driveMins
    ensures TotalDrive(a + b) == TotalDrive(a) + TotalDrive(b)
  {
    assert [leg][..0] == [];
    if b == [] {
      assert a + b == a;
    } else {
      TotalDriveIsTheSum(a, b[..|b| - 1], leg);
      assert (a + b)[..|a + b| - 1] == a + b[..|b| - 1];
    }
  }

  // A job row after its leg was written. The planned end is recorded even for a zero scanback.
  function Routed(j: DayJob, leg: Leg): DayJob {
    j.(routeSequence := Some(leg.sequence), drive := Some(Route(leg.driveMins, leg.driveMiles)),
       scanbackEndsAt := if j.signingEndsAt.Some? then Some(j.signingEndsAt.value + Mins(j.scanbackMins)) else None)
  }

  // Writing a route does not move a job's planned end.
  lemma RoutingKeepsPlannedEnds(j: DayJob, leg: Leg)
    requires j.signingEndsAt == Some(j.appointment + Mins(j.signingMins))
    ensures EndsAsPlanned(Routed(j, leg))
  {
  }

  datatype DayPlan = DayPlan(totalDrive: int, naiveDrive: int)

  function LastLegOf(legs: seq<Leg>, id: int): Option<Leg> {
    if legs == [] then None
    else if legs[|legs| - 1].jobId == id then Some(legs[|legs| - 1])
    else LastLegOf(legs[..|legs| - 1], id)
  }

  function RowAfter(j: DayJob, legs: seq<Leg>): DayJob {
    var leg := LastLegOf(legs, j.id);
    if leg.Some? then Routed(j, leg.value) else j
  }

  // The stops of a route as the day shows them once it is written.
  function Shown(stops: seq<DayJob>, legs: seq<Leg>): seq<DayJob> {
    seq(|stops|, i requires 0 <= i < |stops| => RowAfter(stops[i], legs))
  }

  lemma {:induction false} OnlyLegIsLast(legs: seq<Leg>, i: nat)
    requires i < |legs| && forall k, l :: 0 <= k < l < |legs| ==> legs[k].jobId != legs[l].jobId
    ensures LastLegOf(legs, legs[i].jobId) == Some(legs[i])
  {
    var n := |legs| - 1;
    if i < n {
      OnlyLegIsLast(legs[..n], i);
    }
  }

  // Every stop of a written route carries its own leg and its planned end, and nothing else changed.
  lemma WrittenRouteIsShown(jobs: map<int, DayJob>, legs: seq<Leg>, stops: seq<DayJob>, i: nat)
    requires Visits(jobs, legs, stops) && i < |stops| && legs[i].jobId == stops[i].id
    requires forall k, l :: 0 <= k < l < |legs| ==> legs[k].jobId != legs[l].jobId
    requires stops[i].signingEndsAt == Some(stops[i].appointment + Mins(stops[i].signingMins))
    ensures var shown := Shown(stops, legs)[i];
            && shown.routeSequence == Some(legs[i].sequence)
            && shown.drive == Some(Route(legs[i].driveMins, legs[i].driveMiles))
            && EndsAsPlanned(shown) && shown.id == stops[i].id && shown.appointment == stops[i].appointment
            && shown.ServiceMins() == stops[i].ServiceMins()
  {
    OnlyLegIsLast(legs, i);
    RoutingKeepsPlannedEnds(stops[i], legs[i]);
  }

  // Once a route is written, the day view in that order warns of a shortfall above ten minutes exactly
  // when the planner would not have accepted the route.
  lemma {:induction false} WrittenRouteWarnsExactly(jobs: seq<DayJob>, legs: seq<Leg>, stops: seq<DayJob>)
    requires UniqueIds(jobs) && UniqueIds(stops) && Visits(ById(jobs), legs, stops)
    requires forall i :: 0 <= i < |stops| ==>
                           stops[i].signingEndsAt == Some(stops[i].appointment + Mins(stops[i].signingMins))
    ensures Feasible(ById(jobs), legs) <==>
            forall c :: c in Conflicts(Shown(stops, legs)) ==> c.shortfallMins <= TOLERANCE_MINS
  {
    var shown := Shown(stops, legs);
    KeysAreIds(jobs);
    forall i | 0 <= i < |stops|
      ensures shown[i].DriveMins() == legs[i].driveMins && EndsAsPlanned(shown[i]) && shown[i].id == stops[i].id
      ensures shown[i].appointment == stops[i].appointment && shown[i].ServiceMins() == stops[i].ServiceMins()
    {
      WrittenRouteIsShown(ById(jobs), legs, stops, i);
    }
    ShownIsFeasibleAlike(jobs, legs, stops, shown);
    FeasibleExactlyWhenConflictsAreSmall(ById(shown), legs, shown);
  }

  // Feasibility looks at ids, appointments and service times only.
  lemma ShownIsFeasibleAlike(jobs: seq<DayJob>, legs: seq<Leg>, stops: seq<DayJob>, shown: seq<DayJob>)
    requires Visits(ById(jobs), legs, stops) && UniqueIds(stops) && |shown| == |stops|
    requires forall i :: 0 <= i < |stops| ==> legs[i].jobId == stops[i].id
    requires forall i :: 0 <= i < |stops| ==> shown[i].id == stops[i].id && shown[i].appointment == stops[i].appointment
                                              && shown[i].ServiceMins() == stops[i].ServiceMins()
    ensures Visits(ById(shown), legs, shown) && (Feasible(ById(shown), legs) <==> Feasible(ById(jobs), legs))
  {
    IdsFindTheirJobs(shown);
    forall i | 1 <= i < |legs|
      ensures PairFits(ById(shown), legs, i) <==> PairFits(ById(jobs), legs, i)
    {
      assert ById(shown)[legs[i - 1].jobId] == shown[i - 1] && ById(shown)[legs[i].jobId] == shown[i];
    }
  }

  method SumDrives(legs: seq<Leg>) returns (total: nat)
    ensures total == TotalDrive(legs)
  {
    total := 0;
    for i := 0 to |legs|
      invariant total == TotalDrive(legs[..i])
    {
      assert legs[..i + 1][..i] == legs[..i];
      total := total + legs[i].driveMins;
    }
    assert legs[..|legs|] == legs;
  }

  class DayRows {
    var rows: seq<DayJob>

    constructor (rows: seq<DayJob>)
      ensures this.rows == rows
    {
      this.rows := rows;
    }

    method WriteLegs(legs: seq<Leg>)
      modifies this
      requires UniqueIds(rows)
      ensures |rows| == |old(rows)| && forall k :: 0 <= k < |rows| ==> rows[k] == RowAfter(old(rows)[k], legs)
    {
      var jobs := rows;
      for i := 0 to |legs|
        invariant |rows| == |jobs|
        invariant forall k :: 0 <= k < |rows| ==> rows[k] == RowAfter(jobs[k], legs[..i])
      {
        assert legs[..i + 1][..i] == legs[..i];
        var leg := legs[i];
        var at := 0;
        while at < |jobs| && jobs[at].id != leg.jobId
          invariant at <= |jobs| && forall k :: 0 <= k < at ==> jobs[k].id != leg.jobId
        {
          at := at + 1;
        }
        if at < |jobs| {
          rows := rows[at := Routed(jobs[at], leg)];
        }
      }
      assert legs[..|legs|] == legs;
    }

    // Write each leg to its job's row, and total the drive against the day's time order.
    method ApplyRoute(router: Router, home: Place, legs: seq<Leg>) returns (plan: DayPlan)
      modifies this
      requires UniqueIds(rows)
      ensures |rows| == |old(rows)| && forall k :: 0 <= k < |rows| ==> rows[k] == RowAfter(old(rows)[k], legs)
      ensures plan.totalDrive == TotalDrive(legs)
      ensures plan.naiveDrive == if LegIds(legs) == Ids(TimeOrder(old(rows))) then TotalDrive(legs)
                                 else TotalDrive(Fallback(router, home, TimeOrder(old(rows))))
    {
      var jobs := rows;
      WriteLegs(legs);
      var total := SumDrives(legs);
      var naive := total;
      if LegIds(legs) != Ids(Sort(jobs, AppointmentOf)) {
        var naiveLegs := FallbackTimeOrder(router, home, jobs);
        naive := SumDrives(naiveLegs);
      }
      plan := DayPlan(total, naive);
    }

    // The solver's order is used if the planner accepts it, the time order otherwise; the time order
    // never claims to save anything.
    method Optimise(router: Router, home: Place, solved: seq<Leg>) returns (plan: DayPlan)
      modifies this
      requires UniqueIds(rows)
      ensures var used := if Feasible(ById(old(rows)), solved) then solved
                          else Fallback(router, home, TimeOrder(old(rows)));
              && |rows| == |old(rows)| && (forall k :: 0 <= k < |rows| ==> rows[k] == RowAfter(old(rows)[k], used))
              && plan.totalDrive == TotalDrive(used)
      ensures !Feasible(ById(old(rows)), solved) ==> plan.naiveDrive == plan.totalDrive
    {
      var ok := IsFeasibleOrder(rows, solved);
      if ok {
        plan := ApplyRoute(router, home, solved);
      } else {
        FallbackIds(router, home, TimeOrder(rows));
        var fallback := FallbackTimeOrder(router, home, rows);
        plan := ApplyRoute(router, home, fallback);
      }
    }

    // An accepted order of the whole day whose legs each take more than ten minutes is recorded
    // as saving nothing: it is the time order.
    method ApplyAcceptedRoute(router: Router, home: Place, legs: seq<Leg>, ghost stops: seq<DayJob>)
      returns (plan: DayPlan)
      modifies this
      requires UniqueIds(rows)
      requires Visits(ById(rows), legs, stops) && Feasible(ById(rows), legs) && multiset(stops) == multiset(rows)
      requires forall i :: 1 <= i < |stops| ==> stops[i - 1].ServiceMins() + legs[i].driveMins > TOLERANCE_MINS
      ensures plan.naiveDrive == plan.totalDrive == TotalDrive(legs)
    {
      AcceptedOrderIsTimeOrder(rows, legs, stops);
      plan := ApplyRoute(router, home, legs);
    }
  }

  // The time order's own legs name the jobs in time order.
  lemma FallbackIds(router: Router, home: Place, stops: seq<DayJob>)
    ensures LegIds(Fallback(router, home, stops)) == Ids(stops)
  {
    assert forall i :: 0 <= i < |stops| ==> Fallback(router, home, stops)[i] == StopLeg(router, home, stops, i);
  }

  // The planner would accept the time order if and only if each stop, left when its service ends on time,
  // lets the next one be reached at most ten minutes late.
  lemma FallbackAcceptedExactly(router: Router, home: Place, jobs: seq<DayJob>)
    requires UniqueIds(jobs)
    ensures var stops := TimeOrder(jobs);
            Feasible(ById(jobs), Fallback(router, home, stops)) <==>
            forall i :: 1 <= i < |stops| ==>
                          Reaches(stops[i - 1], LegTo(router, stops[i - 1].place, stops[i], i + 1).driveMins, stops[i])
  {
    var stops := TimeOrder(jobs);
    var legs := Fallback(router, home, stops);
    FallbackIsTheDayInTimeOrder(router, home, jobs);
    forall i | 1 <= i < |stops|
      ensures PairFits(ById(jobs), legs, i) <==>
              Reaches(stops[i - 1], LegTo(router, stops[i - 1].place, stops[i], i + 1).driveMins, stops[i])
    {
      assert legs[i] == StopLeg(router, home, stops, i);
      assert legs[i - 1].jobId in ById(jobs) && legs[i].jobId in ById(jobs);
    }
  }

  // If an order of the day is accepted with its measured legs, each hop taking over ten minutes, then it is
  // the time order, so that is accepted too.
  lemma FallbackAcceptedIfAnyOrderIs(router: Router, home: Place, jobs: seq<DayJob>, stops: seq<DayJob>)
    requires UniqueIds(jobs) && multiset(stops) == multiset(jobs)
    requires var legs := Fallback(router, home, stops);
             && Visits(ById(jobs), legs, stops) && Feasible(ById(jobs), legs)
             && forall i :: 1 <= i < |stops| ==> stops[i - 1].ServiceMins() + legs[i].driveMins > TOLERANCE_MINS
    ensures TimeOrder(jobs) == stops && Feasible(ById(jobs), Fallback(router, home, TimeOrder(jobs)))
  {
    AcceptedOrderIsTimeOrder(jobs, Fallback(router, home, stops), stops);
  }

  // Some order of all the day's jobs would be accepted.
  ghost predicate SomeOrderIsAccepted(router: Router, home: Place, jobs: seq<DayJob>) {
    exists stops: seq<DayJob> ::
      && multiset(stops) == multiset(jobs)
      && Visits(ById(jobs), Fallback(router, home, stops), stops)
      && Feasible(ById(jobs), Fallback(router, home, stops))
  }

  ghost predicate ServicesOver(jobs: seq<DayJob>, mins: int) {
    forall i :: 0 <= i < |jobs| ==> jobs[i].ServiceMins() > mins
  }

  lemma RearrangedServices(jobs: seq<DayJob>, stops: seq<DayJob>, mins: int)
    requires multiset(stops) == multiset(jobs) && ServicesOver(jobs, mins)
    ensures ServicesOver(stops, mins)
  {
    forall i | 0 <= i < |stops|
      ensures stops[i].ServiceMins() > mins
    {
      assert stops[i] in multiset(stops);
      var k := Position(jobs, stops[i]);
    }
  }

  // Falling back keeps the day feasible if and only if any order of it is: with services over ten minutes.
  lemma FallbackFeasibleExactlyWhenTheDayIs(router: Router, home: Place, jobs: seq<DayJob>)
    requires UniqueIds(jobs) && ServicesOver(jobs, TOLERANCE_MINS)
    ensures Feasible(ById(jobs), Fallback(router, home, TimeOrder(jobs))) <==> SomeOrderIsAccepted(router, home, jobs)
  {
    FallbackIsTheDayInTimeOrder(router, home, jobs);
    if SomeOrderIsAccepted(router, home, jobs) {
      var stops: seq<DayJob> :| && multiset(stops) == multiset(jobs)
                                && Visits(ById(jobs), Fallback(router, home, stops), stops)
                                && Feasible(ById(jobs), Fallback(router, home, stops));
      RearrangedServices(jobs, stops, TOLERANCE_MINS);
      FallbackAcceptedIfAnyOrderIs(router, home, jobs, stops);
    }
  }

  lemma ByIdOfTwo(a: DayJob, b: DayJob)
    requires a.id != b.id
    ensures ById([a, b]) == map[a.id := a][b.id := b]
  {
    var one, two := [a], [a, b];
    assert one[..|one| - 1] == [] && two[..|two| - 1] == one;
    assert ById(one) == map[a.id := a];
  }

  // A day of two in its time order, earlier or first listed.
  lemma FallbackOfTwo(router: Router, home: Place, a: DayJob, b: DayJob)
    requires a.id != b.id && a.appointment <= b.appointment
    ensures TimeOrder([a, b]) == [a, b]
    ensures Feasible(ById([a, b]), Fallback(router, home, TimeOrder([a, b]))) <==>
            Reaches(a, LegTo(router, a.place, b, 2).driveMins, b)
  {
    assert [a, b][1..] == [b] && Sort([b], AppointmentOf) == [b];
    FallbackAcceptedExactly(router, home, [a, b]);
  }

  // Two signings booked for the same time cannot both be reached: the time order is applied all the same.
  lemma FallbackMayBeLate(router: Router, home: Place, a: DayJob, b: DayJob)
    requires a.id != b.id && a.appointment == b.appointment
    requires a.ServiceMins() > TOLERANCE_MINS && b.ServiceMins() > TOLERANCE_MINS
    ensures !Feasible(ById([a, b]), Fallback(router, home, TimeOrder([a, b])))
  {
    FallbackOfTwo(router, home, a, b);
  }

  // A rearrangement of the day that is in time order and accepted.
  lemma AcceptedAsListed(router: Router, home: Place, jobs: seq<DayJob>, stops: seq<DayJob>)
    requires multiset(stops) == multiset(jobs) && ById(stops) == ById(jobs)
    requires UniqueIds(stops) && TimeOrder(stops) == stops && Feasible(ById(stops), Fallback(router, home, stops))
    ensures SomeOrderIsAccepted(router, home, jobs)
  {
    FallbackIsTheDayInTimeOrder(router, home, stops);
  }

  // A ten-minute errand and a half-hour signing at one time: signing first, as listed, is too late for the
  // errand, errand first would have been accepted.
  lemma ShortServiceLosesTheDay(router: Router, home: Place, long: DayJob, short: DayJob)
    requires long.id != short.id && long.appointment == short.appointment
    requires short.ServiceMins() == TOLERANCE_MINS < long.ServiceMins()
    requires LegTo(router, short.place, long, 2).driveMins == 0
    ensures !Feasible(ById([long, short]), Fallback(router, home, TimeOrder([long, short])))
    ensures SomeOrderIsAccepted(router, home, [long, short])
  {
    var stops := [short, long];
    FallbackOfTwo(router, home, long, short);
    FallbackOfTwo(router, home, short, long);
    ByIdOfTwo(long, short);
    ByIdOfTwo(short, long);
    AcceptedAsListed(router, home, [long, short], stops);
  }

  // Whatever the day, falling back to the time order loses no feasible day of services over so many minutes,
  // if and only if that is at least the tolerance.
  lemma FallbackLosesNothingExactlyOverTheTolerance(mins: int)
    ensures (forall router: Router, home: Place, jobs: seq<DayJob> :: UniqueIds(jobs) && ServicesOver(jobs, mins) ==>
              (Feasible(ById(jobs), Fallback(router, home, TimeOrder(jobs))) <==>
               SomeOrderIsAccepted(router, home, jobs)))
            <==> mins >= TOLERANCE_MINS
  {
    if mins >= TOLERANCE_MINS {
      forall router: Router, home: Place, jobs: seq<DayJob> | UniqueIds(jobs) && ServicesOver(jobs, mins)
        ensures Feasible(ById(jobs), Fallback(router, home, TimeOrder(jobs))) <==>
                SomeOrderIsAccepted(router, home, jobs)
      {
        FallbackFeasibleExactlyWhenTheDayIs(router, home, jobs);
      }
    } else {
      var router: Router, home := (from, to) => Some(Route(0, 0.0)), Place(1, 1);
      var long := DayJob(0, home, 0, 30, 0, None, None, None, None);
      var short := DayJob(1, home, 0, 10, 0, None, None, None, None);
      ShortServiceLosesTheDay(router, home, long, short);
      assert UniqueIds([long, short]) && ServicesOver([long, short], mins);
    }
  }

  // ----- Filling in missing legs -----

  // A stop on the day's tour and the leg into it, if known.
  datatype Visit = Visit(place: Place, drive: Option<Route>)

  // A visit with its leg looked up, if it was missing and the origin is known.
  function Resolve(router: Router, origin: Place, v: Visit): Visit {
    if v.drive.Some? || !origin.Known() then v else v.(drive := router(origin, v.place))
  }

  // The missing legs computed in order, each from the last place whose leg is known.
  function Fill(router: Router, origin: Place, visits: seq<Visit>): (r: seq<Visit>)
    ensures |r| == |visits|
    decreases visits
  {
    if visits == [] then []
    else
      var v := Resolve(router, origin, visits[0]);
      [v] + Fill(router, if v.drive.Some? then v.place else origin, visits[1..])
  }

  // Filling in never touches a leg that is set, and moves no stop.
  lemma {:induction false} FillKeepsKnownLegs(router: Router, origin: Place, visits: seq<Visit>, i: nat)
    requires i < |visits|
    ensures var v := Fill(router, origin, visits)[i];
            v.place == visits[i].place && (visits[i].drive.Some? ==> v == visits[i])
    decreases visits
  {
    if i > 0 {
      var v := Resolve(router, origin, visits[0]);
      FillKeepsKnownLegs(router, if v.drive.Some? then v.place else origin, visits[1..], i - 1);
    }
  }

  // Where the notary last is known to be before the i-th stop: the last stop before it with a leg, or the origin.
  function LastKnownPlace(origin: Place, visits: seq<Visit>, i: nat): Place
    requires i <= |visits|
  {
    if i == 0 then origin
    else if visits[i - 1].drive.Some? then visits[i - 1].place
    else LastKnownPlace(origin, visits, i - 1)
  }

  // An open leg gets the router's way from the last place the notary is known to be, if neither of its coordinates
  // is zero; where the router knows none the leg stays open, and the walk goes on from that same place.
  lemma {:induction false} LegsStartAtTheLastKnownPlace(router: Router, origin: Place, visits: seq<Visit>, i: nat)
    requires i < |visits|
    ensures var filled := Fill(router, origin, visits);
            var from := LastKnownPlace(origin, filled, i);
            filled[i].drive == if visits[i].drive.Some? then visits[i].drive
                               else if from.lat != 0 && from.lng != 0 then router(from, visits[i].place)
                               else None
    decreases visits
  {
    if i > 0 {
      var v, filled := Resolve(router, origin, visits[0]), Fill(router, origin, visits);
      var next := if v.drive.Some? then v.place else origin;
      LegsStartAtTheLastKnownPlace(router, next, visits[1..], i - 1);
      assert filled[1..] == Fill(router, next, visits[1..]);
      LastKnownAfterFirst(origin, filled, i - 1);
    }
  }

  lemma {:induction false} LastKnownAfterFirst(origin: Place, visits: seq<Visit>, i: nat)
    requires i < |visits|
    ensures LastKnownPlace(origin, visits, i + 1) ==
            LastKnownPlace(if visits[0].drive.Some? then visits[0].place else origin, visits[1..], i)
  {
    if i > 0 {
      LastKnownAfterFirst(origin, visits, i - 1);
    }
  }

  // A second pass finds nothing more to do, even when the router left legs open.
  lemma {:induction false} FillIsIdempotent(router: Router, origin: Place, visits: seq<Visit>)
    ensures Fill(router, origin, Fill(router, origin, visits)) == Fill(router, origin, visits)
    decreases visits
  {
    if visits != [] {
      var v := Resolve(router, origin, visits[0]);
      var next := if v.drive.Some? then v.place else origin;
      var once := Fill(router, origin, visits);
      FillIsIdempotent(router, next, visits[1..]);
      assert once[1..] == Fill(router, next, visits[1..]);
    }
  }

  ghost predicate AlwaysRoutes(router: Router) {
    forall a, b :: router(a, b).Some?
  }

  predicate AllKnown(visits: seq<Visit>) {
    forall i :: 0 <= i < |visits| ==> visits[i].drive.Some?
  }

  // Each leg still open starts from a place whose coordinates are not zero.
  predicate OriginsKnown(origin: Place, visits: seq<Visit>)
    decreases visits
  {
    visits == [] || ((visits[0].drive.None? ==> origin.Known()) && OriginsKnown(visits[0].place, visits[1..]))
  }

  // With every route available no leg stays open, if and only if each open leg starts from a
  // place with non-zero coordinates.
  lemma {:induction false} NoLegStaysOpenExactly(router: Router, origin: Place, visits: seq<Visit>)
    requires AlwaysRoutes(router)
    ensures AllKnown(Fill(router, origin, visits)) <==> OriginsKnown(origin, visits)
    decreases visits
  {
    if visits != [] {
      var v, filled := visits[0], Fill(router, origin, visits);
      assert router(origin, v.place).Some?;
      if v.drive.None? && !origin.Known() {
        assert filled[0].drive.None?;
      } else {
        NoLegStaysOpenExactly(router, v.place, visits[1..]);
        var rest := Fill(router, v.place, visits[1..]);
        assert filled[0] == Resolve(router, origin, v) && filled[0].drive.Some?;
        assert filled[1..] == rest;
        if AllKnown(rest) {
          assert forall i :: 1 <= i < |filled| ==> filled[i] == rest[i - 1];
        }
        if AllKnown(filled) {
          assert forall i :: 0 <= i < |rest| ==> rest[i] == filled[i + 1];
        }
      }
    }
  }

  function VisitsOf(jobs: seq<DayJob>): seq<Visit> {
    seq(|jobs|, i requires 0 <= i < |jobs| => Visit(jobs[i].place, jobs[i].drive))
  }

  lemma {:induction false} OpenDayFill(router: Router, origin: Place, visits: seq<Visit>, i: nat)
    requires AlwaysRoutes(router) && origin.Known() && i < |visits|
    requires forall k :: 0 <= k < |visits| ==> visits[k].drive.None? && visits[k].place.Known()
    ensures Fill(router, origin, visits)[i].drive ==
            router(if i == 0 then origin else visits[i - 1].place, visits[i].place)
    decreases visits
  {
    assert router(origin, visits[0].place).Some?;
    if i > 0 {
      OpenDayFill(router, visits[0].place, visits[1..], i - 1);
    }
  }

  // On a day with no leg known yet, filling in gives the legs of the fallback.
  lemma FreshDayFillsLikeFallback(router: Router, home: Place, jobs: seq<DayJob>, i: nat)
    requires AlwaysRoutes(router) && home.Known() && i < |jobs|
    requires forall k :: 0 <= k < |jobs| ==> jobs[k].drive.None? && jobs[k].place.Known()
    ensures |TimeOrder(jobs)| == |jobs|
    ensures var leg := Fallback(router, home, TimeOrder(jobs))[i];
            Fill(router, home, VisitsOf(TimeOrder(jobs)))[i].drive == Some(Route(leg.driveMins, leg.driveMiles))
  {
    var stops := TimeOrder(jobs);
    SortIsOrderedPermutation(jobs, AppointmentOf);
    forall k | 0 <= k < |stops|
      ensures stops[k].drive.None? && stops[k].place.Known()
    {
      assert stops[k] in multiset(stops);
      var at := Position(jobs, stops[k]);
    }
    OpenDayFill(router, home, VisitsOf(stops), i);
    assert Fallback(router, home, stops)[i] == StopLeg(router, home, stops, i);
  }

  // A job of the day view, updated in place.
  class PlannerJob {
    const id: int
    const place: Place
    const appointment: int
    var drive: Option<Route>

    constructor (id: int, place: Place, appointment: int, drive: Option<Route>)
      ensures this.id == id && this.place == place && this.appointment == appointment && this.drive == drive
    {
      this.id, this.place, this.appointment, this.drive := id, place, appointment, drive;
    }
  }

  function JobTime(j: PlannerJob): int { j.appointment }

  function Tour(jobs: seq<PlannerJob>): (r: seq<Visit>)
    reads set j | j in jobs
    ensures |r| == |jobs| && forall i :: 0 <= i < |jobs| ==> r[i] == Visit(jobs[i].place, jobs[i].drive)
  {
    if jobs == [] then [] else [Visit(jobs[0].place, jobs[0].drive)] + Tour(jobs[1..])
  }

  ghost predicate Distinct(jobs: seq<PlannerJob>) {
    forall i, j :: 0 <= i < j < |jobs| ==> jobs[i] != jobs[j]
  }

  lemma SortedStaysDistinct(jobs: seq<PlannerJob>)
    requires Distinct(jobs)
    ensures Distinct(Sort(jobs, JobTime)) && |Sort(jobs, JobTime)| == |jobs|
    ensures forall i :: 0 <= i < |jobs| ==> Sort(jobs, JobTime)[i] in jobs
  {
    var s := Sort(jobs, JobTime);
    SortIsOrderedPermutation(jobs, JobTime);
    forall i | 0 <= i < |s|
      ensures s[i] in jobs
    {
      assert s[i] in multiset(s);
      var k := Position(jobs, s[i]);
    }
    forall i, j | 0 <= i < j < |s|
      ensures s[i] != s[j]
    {
      if s[i] == s[j] {
        assert s == s[..i] + [s[i]] + s[i + 1..j] + [s[j]] + s[j + 1..];
        assert multiset(jobs)[s[i]] >= 2;
        DistinctCountsOnce(jobs, s[i]);
      }
    }
  }

  lemma {:induction false} DistinctCountsOnce(jobs: seq<PlannerJob>, j: PlannerJob)
    requires Distinct(jobs)
    ensures multiset(jobs)[j] <= 1
  {
    if jobs != [] {
      DistinctCountsOnce(jobs[1..], j);
      assert jobs == [jobs[0]] + jobs[1..];
      assert jobs[0] == j ==> j !in jobs[1..];
    }
  }

  // One job of the walk: its leg, and where the walk goes on from.
  method FillLeg(router: Router, origin: Place, job: PlannerJob) returns (next: Place)
    modifies job
    ensures Visit(job.place, job.drive) == Resolve(router, origin, Visit(job.place, old(job.drive)))
    ensures next == if job.drive.Some? then job.place else origin
  {
    if job.drive.Some? {
      return job.place;
    }
    var route: Option<Route> := None;
    if origin.Known() {
      route := router(origin, job.place);
    }
    if route.None? {
      return origin;
    }
    job.drive := route;
    return job.place;
  }

  // The same job as a position of the tour: no other position changes.
  method FillLegAt(router: Router, origin: Place, sorted: seq<PlannerJob>, i: nat) returns (next: Place)
    requires Distinct(sorted) && i < |sorted|
    modifies sorted[i]
    ensures var v := Resolve(router, origin, old(Tour(sorted))[i]);
            Tour(sorted) == old(Tour(sorted))[i := v] && next == if v.drive.Some? then v.place else origin
  {
    next := FillLeg(router, origin, sorted[i]);
  }

  method PopulateDriveTimes(router: Router, home: Place, jobs: seq<PlannerJob>)
    requires Distinct(jobs)
    modifies set j | j in jobs
    ensures Tour(Sort(jobs, JobTime)) == Fill(router, home, old(Tour(Sort(jobs, JobTime))))
  {
    SortedStaysDistinct(jobs);
    Walk(router, home, Sort(jobs, JobTime));
  }

  method Walk(router: Router, home: Place, sorted: seq<PlannerJob>)
    requires Distinct(sorted)
    modifies set j | j in sorted
    ensures Tour(sorted) == Fill(router, home, old(Tour(sorted)))
  {
    ghost var before := Tour(sorted);
    var origin := home;
    var i := 0;
    while i < |sorted|
      invariant i <= |sorted| && FilledUpTo(router, home, before, Tour(sorted), origin, i)
    {
      FillAdvances(router, home, before, Tour(sorted), origin, i);
      origin := FillLegAt(router, origin, sorted, i);
      i := i + 1;
    }
  }

  // The first i legs are final, the others as before, and the walk goes on from origin.
  ghost predicate FilledUpTo(router: Router, home: Place, before: seq<Visit>, tour: seq<Visit>, origin: Place, i: nat) {
    && i <= |before| == |tour| && tour[i..] == before[i..]
    && tour[..i] + Fill(router, origin, tour[i..]) == Fill(router, home, before)
  }

  lemma FillSplits(router: Router, origin: Place, rest: seq<Visit>)
    requires rest != []
    ensures var v := Resolve(router, origin, rest[0]);
            Fill(router, origin, rest) == [v] + Fill(router, if v.drive.Some? then v.place else origin, rest[1..])
  {
  }

  lemma FillAdvances(router: Router, home: Place, before: seq<Visit>, tour: seq<Visit>, origin: Place, i: nat)
    requires FilledUpTo(router, home, before, tour, origin, i) && i < |tour|
    ensures var v := Resolve(router, origin, tour[i]);
            FilledUpTo(router, home, before, tour[i := v], if v.drive.Some? then v.place else origin, i + 1)
  {
    var rest, next := tour[i..], tour[i := Resolve(router, origin, tour[i])];
    FillSplits(router, origin, rest);
    assert next[i + 1..] == rest[1..] == before[i + 1..];
    assert next[..i + 1] == tour[..i] + [next[i]];
  }
}
