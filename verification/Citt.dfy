/** "Can I take this?": the verdict on an offered job from its neighbours in the day, the
    drive to it and what it earns. */
module Citt {
  import opened Clock
  import opened Wrappers
  import opened Rounding
  import opened Sorting
  import opened PlannerRules
  import opened PlannerDay

  const MIN_GAP_MINS := 10
  const TAKE_IT_NET := 20.0
  const RISKY_NET := 10.0

  datatype Verdict = DECLINE | RISKY | TAKE_IT

  function Rank(v: Verdict): nat {
    match v
    case DECLINE => 0
    case RISKY => 1
    case TAKE_IT => 2
  }

  // place is absent when the address could not be found.
  datatype Offer = Offer(place: Option<Place>, appointment: int, signingMins: int, scanbackMins: int, fee: real,
                         platformFee: real)

  datatype Terms = Terms(irsRate: real, minNet: real, home: Option<Place>)

  // A minimum of zero counts as not set.
  function MinAcceptable(terms: Terms): real {
    if terms.minNet == 0.0 then RISKY_NET else terms.minNet
  }

  // ----- Money -----

  function MileageCost(miles: real, irsRate: real): real { miles * 2.0 * irsRate }

  datatype Profit = Profit(mileageCents: int, netCents: int, hourlyCents: int)

  function Profitability(fee: real, platformFee: real, miles: real, irsRate: real, totalMins: int): Profit {
    var mileage := MileageCost(miles, irsRate);
    var net := fee - mileage - platformFee;
    Profit(Cents(mileage), Cents(net), if totalMins > 0 then Cents(net / (totalMins as real / 60.0)) else 0)
  }

  // The mileage is charged there and back, and each figure is its amount to the nearest cent; the hourly one
  // spreads the net over the whole time, and is nothing for no time.
  lemma ProfitToTheCent(fee: real, platformFee: real, miles: real, irsRate: real, totalMins: int)
    ensures var p := Profitability(fee, platformFee, miles, irsRate, totalMins);
            var net := fee - 2.0 * miles * irsRate - platformFee;
            && -0.5 < p.mileageCents as real - 2.0 * miles * irsRate * 100.0 <= 0.5
            && -0.5 < p.netCents as real - net * 100.0 <= 0.5
            && (totalMins > 0 ==> -0.5 < p.hourlyCents as real - net / (totalMins as real / 60.0) * 100.0 <= 0.5)
            && (totalMins <= 0 ==> p.hourlyCents == 0)
  {
    var net := fee - 2.0 * miles * irsRate - platformFee;
    assert MileageCost(miles, irsRate) == 2.0 * miles * irsRate;
    assert fee - MileageCost(miles, irsRate) - platformFee == net;
    RoundingError(2.0 * miles * irsRate * 100.0);
    RoundingError(net * 100.0);
    if totalMins > 0 {
      RoundingError(net / (totalMins as real / 60.0) * 100.0);
    }
  }

  // The rounded parts add up to the fee within one cent.
  lemma PartsAddUpWithinACent(fee: real, platformFee: real, miles: real, irsRate: real, totalMins: int)
    ensures var p := Profitability(fee, platformFee, miles, irsRate, totalMins);
            -1.0 < (p.netCents + p.mileageCents) as real + platformFee * 100.0 - fee * 100.0 <= 1.0
  {
    var mileage := MileageCost(miles, irsRate);
    RoundingError(mileage * 100.0);
    RoundingError((fee - mileage - platformFee) * 100.0);
    assert (fee - mileage - platformFee) * 100.0 == fee * 100.0 - mileage * 100.0 - platformFee * 100.0;
  }

  lemma RoundedPairExactly(n: int, x: real)
    ensures RoundHalfUp(n as real - x) + RoundHalfUp(x) == n <==> x + 0.5 != (x + 0.5).Floor as real
    ensures RoundHalfUp(n as real - x) + RoundHalfUp(x) in {n, n + 1}
  {
    var k, f := (x + 0.5).Floor, x + 0.5 - (x + 0.5).Floor as real;
    assert 0.0 <= f < 1.0;
    assert n as real - x + 0.5 == (n - k) as real + 1.0 - f;
  }

  // For amounts in whole cents they add up exactly, if and only if the mileage cost does not fall on
  // half a cent; there both parts are rounded up and a cent appears.
  lemma PartsAddUpExactly(feeCents: int, platformCents: int, miles: real, irsRate: real, totalMins: int)
    ensures var p := Profitability(feeCents as real / 100.0, platformCents as real / 100.0, miles, irsRate, totalMins);
            var inCents := MileageCost(miles, irsRate) * 100.0;
            && (p.netCents + p.mileageCents + platformCents == feeCents <==>
                inCents + 0.5 != (inCents + 0.5).Floor as real)
            && p.netCents + p.mileageCents + platformCents in {feeCents, feeCents + 1}
  {
    var mileage := MileageCost(miles, irsRate);
    var fee, platformFee := feeCents as real / 100.0, platformCents as real / 100.0;
    assert (fee - mileage - platformFee) * 100.0 == (feeCents - platformCents) as real - mileage * 100.0;
    RoundedPairExactly(feeCents - platformCents, mileage * 100.0);
  }

  // ----- Neighbours -----

  function Upto(jobs: seq<DayJob>, t: int): (r: seq<DayJob>)
    ensures forall j :: j in r <==> j in jobs && j.appointment <= t
  {
    if jobs == [] then []
    else (if jobs[0].appointment <= t then [jobs[0]] else []) + Upto(jobs[1..], t)
  }

  function Later(jobs: seq<DayJob>, t: int): (r: seq<DayJob>)
    ensures forall j :: j in r <==> j in jobs && j.appointment > t
  {
    if jobs == [] then []
    else (if jobs[0].appointment > t then [jobs[0]] else []) + Later(jobs[1..], t)
  }

  function LatestFirst(j: DayJob): int { -j.appointment }

  function First(jobs: seq<DayJob>): Option<DayJob> {
    if jobs == [] then None else Some(jobs[0])
  }

  function PrevJob(jobs: seq<DayJob>, t: int): Option<DayJob> { First(Sort(Upto(jobs, t), LatestFirst)) }

  function NextJob(jobs: seq<DayJob>, t: int): Option<DayJob> { First(Sort(Later(jobs, t), AppointmentOf)) }

  lemma FirstOfSorted(jobs: seq<DayJob>, key: DayJob -> int)
    ensures var f := First(Sort(jobs, key));
            && (f.None? <==> jobs == [])
            && (f.Some? ==> f.value in jobs && forall j :: j in jobs ==> key(f.value) <= key(j))
  {
    var s := Sort(jobs, key);
    SortIsOrderedPermutation(jobs, key);
    if s != [] {
      assert s[0] in multiset(s);
      var at := Position(jobs, s[0]);
      forall j | j in jobs
        ensures key(s[0]) <= key(j)
      {
        assert j in multiset(jobs);
        var i := Position(s, j);
      }
    }
  }

  // The two neighbours enclose the offered time and no job of the day lies between them.
  lemma NeighboursAreNearest(jobs: seq<DayJob>, t: int)
    ensures var p, n := PrevJob(jobs, t), NextJob(jobs, t);
            && (p.Some? ==> p.value in jobs && p.value.appointment <= t)
            && (n.Some? ==> n.value in jobs && t < n.value.appointment)
            && forall j :: j in jobs ==>
                 || (p.Some? && j.appointment <= p.value.appointment)
                 || (n.Some? && n.value.appointment <= j.appointment)
  {
    FirstOfSorted(Upto(jobs, t), LatestFirst);
    FirstOfSorted(Later(jobs, t), AppointmentOf);
    var p, n := PrevJob(jobs, t), NextJob(jobs, t);
    forall j | j in jobs
      ensures (p.Some? && j.appointment <= p.value.appointment) || (n.Some? && n.value.appointment <= j.appointment)
    {
      if j.appointment <= t {
        assert j in Upto(jobs, t);
        assert LatestFirst(p.value) <= LatestFirst(j);
      } else {
        assert j in Later(jobs, t);
        assert AppointmentOf(n.value) <= AppointmentOf(j);
      }
    }
  }

  // ----- Gaps and verdict -----

  // The previous job's scanback is not part of its end here.
  function PrevEnds(p: DayJob): int { p.signingEndsAt.GetOr(p.appointment + Mins(p.signingMins)) }

  function OfferEnds(o: Offer): int { o.appointment + Mins(o.signingMins + o.scanbackMins) }

  function GapBefore(o: Offer, p: DayJob, driveMins: int): int {
    (o.appointment - PrevEnds(p)) / 60_000 - driveMins
  }

  // The drive on to the next job is not part of this gap.
  function GapAfter(o: Offer, n: DayJob): int { (n.appointment - OfferEnds(o)) / 60_000 }

  predicate Below(gap: Option<int>, mins: int) { gap.Some? && gap.value < mins }

  function Judge(before: Option<int>, after: Option<int>, netCents: int, minNet: real): Verdict {
    if Below(before, 0) || Below(after, 0) then DECLINE
    else if netCents as real < minNet * 100.0 then DECLINE
    else if netCents as real < TAKE_IT_NET * 100.0 || Below(before, MIN_GAP_MINS) || Below(after, MIN_GAP_MINS)
    then RISKY
    else TAKE_IT
  }

  datatype Check = Check(verdict: Verdict, canMakeIt: bool, gapBefore: Option<int>, gapAfter: Option<int>,
                         profit: Option<Profit>)

  const UNANSWERED := Check(DECLINE, true, None, None, None)

  // Where the drive starts: the previous job if its coordinates are stored, else home if set. Stored
  // coordinates count even when they are zero, unlike in the planner.
  function Origin(terms: Terms, located: set<int>, prev: Option<DayJob>): Option<Place> {
    if prev.Some? && prev.value.id in located then Some(prev.value.place) else terms.home
  }

  function RouteTo(router: Router, terms: Terms, jobs: seq<DayJob>, located: set<int>, o: Offer): Option<Route> {
    var from := Origin(terms, located, PrevJob(jobs, o.appointment));
    if from.None? || o.place.None? then None else router(from.value, o.place.value)
  }

  function Answer(terms: Terms, prev: Option<DayJob>, next: Option<DayJob>, o: Offer, route: Route): Check {
    var before := if prev.Some? then Some(GapBefore(o, prev.value, route.mins)) else None;
    var after := if next.Some? then Some(GapAfter(o, next.value)) else None;
    var totalMins := route.mins + o.signingMins + o.scanbackMins;
    var profit := Profitability(o.fee, o.platformFee, route.miles, terms.irsRate, totalMins);
    if Below(before, 0) || Below(after, 0) then Check(DECLINE, false, before, after, None)
    else Check(Judge(before, after, profit.netCents, MinAcceptable(terms)), true, before, after, Some(profit))
  }

  // The offer's drive starts at the job before it, whose coordinates are stored, or else at home.
  ghost predicate StartsFrom(terms: Terms, jobs: seq<DayJob>, located: set<int>, o: Offer, from: Place) {
    match PrevJob(jobs, o.appointment)
    case None => terms.home == Some(from)
    case Some(p) => if p.id in located then p.place == from else terms.home == Some(from)
  }

  // An offer is measured exactly if it is located, there is a place to start from, and the router knows the way;
  // else it is declined, with nothing else said.
  lemma MeasuredExactly(router: Router, terms: Terms, jobs: seq<DayJob>, located: set<int>, o: Offer, route: Route)
    ensures RouteTo(router, terms, jobs, located, o) == Some(route) <==>
            o.place.Some? && exists from :: StartsFrom(terms, jobs, located, o, from)
                                            && router(from, o.place.value) == Some(route)
    ensures UNANSWERED.verdict == DECLINE && UNANSWERED.canMakeIt && UNANSWERED.gapBefore.None?
            && UNANSWERED.gapAfter.None? && UNANSWERED.profit.None?
  {
    var from := Origin(terms, located, PrevJob(jobs, o.appointment));
    if from.Some? {
      assert StartsFrom(terms, jobs, located, o, from.value);
    }
  }

  // A measured offer's answer: whether it can be made, and if so what it earns; and the gaps, which hold just the
  // whole minutes that are left.
  lemma AnswersTellTheRoom(terms: Terms, prev: Option<DayJob>, next: Option<DayJob>, o: Offer, route: Route, mins: int)
    ensures var c := Answer(terms, prev, next, o, route);
            && (c.canMakeIt <==> Leaves(prev, next, o, route, 0))
            && (c.gapBefore.Some? <==> prev.Some?) && (c.gapAfter.Some? <==> next.Some?)
            && (prev.Some? ==> (mins <= c.gapBefore.value <==> Leaves(prev, None, o, route, mins)))
            && (next.Some? ==> (mins <= c.gapAfter.value <==> Leaves(None, next, o, route, mins)))
            && c.profit == if c.canMakeIt
                           then Some(Profitability(o.fee, o.platformFee, route.miles, terms.irsRate,
                                                   route.mins + o.signingMins + o.scanbackMins))
                           else None
  {
  }

  // located holds the ids of the jobs with stored coordinates.
  method RunCheck(router: Router, terms: Terms, jobs: seq<DayJob>, located: set<int>, o: Offer) returns (c: Check)
    ensures var route := RouteTo(router, terms, jobs, located, o);
            c == if route.None? then UNANSWERED
                 else Answer(terms, PrevJob(jobs, o.appointment), NextJob(jobs, o.appointment), o, route.value)
  {
    if o.place.None? {
      return UNANSWERED;
    }
    var prev, nextJob := PrevJob(jobs, o.appointment), NextJob(jobs, o.appointment);
    var origin: Place;
    if prev.Some? && prev.value.id in located {
      origin := prev.value.place;
    } else if terms.home.Some? {
      origin := terms.home.value;
    } else {
      return UNANSWERED;
    }
    var route := router(origin, o.place.value);
    if route.None? {
      return UNANSWERED;
    }
    c := Decide(terms, prev, nextJob, o, route.value);
  }

  // The gaps and the verdict, once the route is known.
  method Decide(terms: Terms, prev: Option<DayJob>, next: Option<DayJob>, o: Offer, route: Route) returns (c: Check)
    ensures c == Answer(terms, prev, next, o, route)
  {
    var gapBefore: Option<int>, gapAfter: Option<int> := None, None;
    if prev.Some? {
      gapBefore := Some((o.appointment - PrevEnds(prev.value)) / 60_000 - route.mins);
    }
    if next.Some? {
      gapAfter := Some((next.value.appointment - OfferEnds(o)) / 60_000);
    }
    if gapBefore.Some? && gapBefore.value < 0 {
      return Check(DECLINE, false, gapBefore, gapAfter, None);
    }
    if gapAfter.Some? && gapAfter.value < 0 {
      return Check(DECLINE, false, gapBefore, gapAfter, None);
    }
    var totalMins := route.mins + o.signingMins + o.scanbackMins;
    var prof := Profitability(o.fee, o.platformFee, route.miles, terms.irsRate, totalMins);
    var isRiskyGap := Below(gapBefore, MIN_GAP_MINS) || Below(gapAfter, MIN_GAP_MINS);
    var verdict := TAKE_IT;
    if prof.netCents as real < MinAcceptable(terms) * 100.0 {
      verdict := DECLINE;
    } else if prof.netCents as real < TAKE_IT_NET * 100.0 || isRiskyGap {
      verdict := RISKY;
    }
    return Check(verdict, true, gapBefore, gapAfter, Some(prof));
  }

  // What each verdict means on the clock, to the millisecond, and in cents: "take it" is given exactly when
  // ten minutes remain on both sides and the net is at least twenty and the user's minimum; anything
  // better than "decline" exactly when nothing overlaps and the minimum is met.
  lemma VerdictsMean(terms: Terms, prev: Option<DayJob>, next: Option<DayJob>, o: Offer, route: Route)
    ensures var v := Answer(terms, prev, next, o, route).verdict;
            var net := Cents(o.fee - route.miles * 2.0 * terms.irsRate - o.platformFee) as real / 100.0;
            var least := if terms.minNet == 0.0 then 10.0 else terms.minNet;
            && (v == TAKE_IT <==> Leaves(prev, next, o, route, 10) && net >= least && net >= 20.0)
            && (v != DECLINE <==> Leaves(prev, next, o, route, 0) && net >= least)
  {
    AnswersTellTheRoom(terms, prev, next, o, route, 0);
    AnswersTellTheRoom(terms, prev, next, o, route, MIN_GAP_MINS);
    assert MileageCost(route.miles, terms.irsRate) == route.miles * 2.0 * terms.irsRate;
    RoomOnBothSides(prev, next, o, route);
  }

  // Enough room before and after is enough room.
  lemma RoomOnBothSides(prev: Option<DayJob>, next: Option<DayJob>, o: Offer, route: Route)
    ensures Leaves(prev, next, o, route, 10) <==> Leaves(prev, None, o, route, 10) && Leaves(None, next, o, route, 10)
    ensures Leaves(prev, next, o, route, 0) <==> Leaves(prev, None, o, route, 0) && Leaves(None, next, o, route, 0)
  {
  }

  // At least so many minutes are left before and after: from the recorded end of the previous signing, or its
  // appointment and length if none is, over the drive; and from the end of the offer's scanback.
  predicate Leaves(prev: Option<DayJob>, next: Option<DayJob>, o: Offer, route: Route, mins: int) {
    && (prev.Some? ==>
          var p := prev.value;
          (if p.signingEndsAt.Some? then p.signingEndsAt.value else p.appointment + Mins(p.signingMins))
          + Mins(route.mins) + Mins(mins) <= o.appointment)
    && (next.Some? ==>
          o.appointment + Mins(o.signingMins) + Mins(o.scanbackMins) + Mins(mins) <= next.value.appointment)
  }

  lemma MileageGrows(miles: real, more: real, irsRate: real)
    requires miles <= more && irsRate >= 0.0
    ensures MileageCost(miles, irsRate) <= MileageCost(more, irsRate)
  {
    assert (more - miles) * irsRate >= 0.0;
    assert MileageCost(more, irsRate) - MileageCost(miles, irsRate) == 2.0 * ((more - miles) * irsRate);
  }

  // With the neighbours fixed, more fee never worsens the verdict, and more platform fee, distance,
  // driving, signing or scanback never improves it.
  lemma VerdictIsMonotone(terms: Terms, prev: Option<DayJob>, next: Option<DayJob>, o: Offer, better: Offer,
                          route: Route, shorter: Route)
    requires terms.irsRate >= 0.0 && better.appointment == o.appointment
    requires better.fee >= o.fee && better.platformFee <= o.platformFee
    requires shorter.miles <= route.miles && shorter.mins <= route.mins
    requires better.signingMins <= o.signingMins && better.scanbackMins <= o.scanbackMins
    ensures Rank(Answer(terms, prev, next, o, route).verdict) <=
            Rank(Answer(terms, prev, next, better, shorter).verdict)
  {
    MileageGrows(shorter.miles, route.miles, terms.irsRate);
    RoundingKeepsOrder((o.fee - MileageCost(route.miles, terms.irsRate) - o.platformFee) * 100.0,
                       (better.fee - MileageCost(shorter.miles, terms.irsRate) - better.platformFee) * 100.0);
    VerdictsMean(terms, prev, next, o, route);
    VerdictsMean(terms, prev, next, better, shorter);
  }

  // ----- Against the planner's warnings -----

  // An offer the check measures: it is located, lasts some time, and its scanback is not negative.
  predicate Measured(o: Offer) {
    o.place.Some? && o.signingMins >= 1 && o.scanbackMins >= 0
  }

  // The offer as the job it would become.
  function AsJob(o: Offer, route: Route): DayJob
    requires o.place.Some?
  {
    Created(DayJob(0, o.place.value, o.appointment, o.signingMins, o.scanbackMins, None, None, None, Some(route)))
  }

  // The answer to an offer on a day with one job.
  function AnswerBeside(terms: Terms, j: DayJob, o: Offer, route: Route): Check {
    Answer(terms, PrevJob([j], o.appointment), NextJob([j], o.appointment), o, route)
  }

  lemma NeighboursInADayOfOne(j: DayJob, t: int)
    ensures PrevJob([j], t) == if j.appointment <= t then Some(j) else None
    ensures NextJob([j], t) == if j.appointment <= t then None else Some(j)
  {
    NeighboursAreNearest([j], t);
    assert j in [j];
  }

  // After a job the check turns down just the offers the planner would warn of, whatever the drive, if and
  // only if that job has no scanback.
  lemma AgreesBeforeExactlyWithoutScanback(terms: Terms, p: DayJob)
    requires p.signingMins >= 0 && p.scanbackMins >= 0
    ensures (forall o: Offer, route: Route :: Measured(o) && p.appointment <= o.appointment ==>
              (AnswerBeside(terms, Created(p), o, route).canMakeIt <==>
               ConflictBetween(Created(p), AsJob(o, route)).None?))
            <==> p.scanbackMins == 0
  {
    forall t
      ensures p.appointment <= t ==> PrevJob([Created(p)], t) == Some(Created(p)) && NextJob([Created(p)], t) == None
    {
      NeighboursInADayOfOne(Created(p), t);
    }
    if p.scanbackMins > 0 {
      var o := Offer(Some(p.place), p.appointment + Mins(p.signingMins), 30, 0, 0.0, 0.0);
      var route := Route(0, 0.0);
      assert GapBefore(o, Created(p), route.mins) == 0;
      assert Measured(o) && AnswerBeside(terms, Created(p), o, route).canMakeIt;
      assert ConflictBetween(Created(p), AsJob(o, route)).Some?;
    }
  }

  // And before a job, if and only if there is no drive to it.
  lemma AgreesAfterExactlyWithoutDrive(terms: Terms, n: DayJob)
    ensures (forall o: Offer, route: Route :: Measured(o) && o.appointment < n.appointment ==>
              (AnswerBeside(terms, n, o, route).canMakeIt <==> ConflictBetween(AsJob(o, route), n).None?))
            <==> n.DriveMins() == 0
  {
    forall t
      ensures t < n.appointment ==> PrevJob([n], t) == None && NextJob([n], t) == Some(n)
    {
      NeighboursInADayOfOne(n, t);
    }
    if n.DriveMins() > 0 {
      var o := Offer(Some(n.place), n.appointment - Mins(30), 30, 0, 0.0, 0.0);
      var route := Route(0, 0.0);
      assert GapAfter(o, n) == 0;
      assert Measured(o) && AnswerBeside(terms, n, o, route).canMakeIt;
      assert ConflictBetween(AsJob(o, route), n).Some?;
    }
  }
}
