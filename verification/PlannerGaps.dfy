/** The gap finder: pending jobs that could be done between two fixed ones. */
module PlannerGaps {
  import opened Clock
  import opened Wrappers
  import opened Sorting
  import opened Rounding
  import opened PlannerRules
  import opened PlannerDay

  datatype PendingJob = PendingJob(
    id: int, lat: Option<int>, lng: Option<int>,
    signingMins: int, scanbackMins: int, fee: real, platformFee: real)

  datatype Candidate = Candidate(jobId: int, netCents: int)

  datatype Gap = Gap(start: int, end: int, mins: int, prevJob: int, nextJob: int, candidates: seq<Candidate>)

  const GAP_BUFFER_MINS := 10
  const MIN_GAP_MINS := 30
  const MAX_CANDIDATES := 3

  // Where the notary is free from: the job's end, or its start if no end is recorded.
  function FreeFrom(j: DayJob): int { EndOf(j).GetOr(j.appointment) }

  function GapStart(curr: DayJob): int { FreeFrom(curr) + Mins(GAP_BUFFER_MINS) }

  function GapEnd(next: DayJob): int { next.appointment - Mins(GAP_BUFFER_MINS) }

  // The routes into and out of a pending job, when both are known.
  function RoutesVia(router: Router, curr: DayJob, next: DayJob, p: PendingJob): Option<(Route, Route)> {
    if !curr.place.Known() || !next.place.Known() || p.lat.None? || p.lng.None? then None
    else
      var here := Place(p.lat.value, p.lng.value);
      var into, onward := router(curr.place, here), router(here, next.place);
      if into.None? || onward.None? then None else Some((into.value, onward.value))
  }

  function MinsNeeded(p: PendingJob, into: Route, onward: Route): int {
    into.mins + p.signingMins + p.scanbackMins + onward.mins
  }

  function NetCents(p: PendingJob, irsRate: real, into: Route, onward: Route): int {
    Cents(p.fee - (into.miles + onward.miles) * 2.0 * irsRate - p.platformFee)
  }

  // The pending job as a candidate for the gap, if it fits.
  function CandidateFor(router: Router, irsRate: real, curr: DayJob, next: DayJob, p: PendingJob): Option<Candidate> {
    var via := RoutesVia(router, curr, next, p);
    if via.None? then None
    else
      var (into, onward) := via.value;
      if Mins(MinsNeeded(p, into, onward)) > GapEnd(next) - GapStart(curr) then None
      else Some(Candidate(p.id, NetCents(p, irsRate, into, onward)))
  }

  function Fitting(router: Router, irsRate: real, curr: DayJob, next: DayJob,
                   pending: seq<PendingJob>): seq<Candidate>
  {
    if pending == [] then []
    else
      var last := pending[|pending| - 1];
      var c := CandidateFor(router, irsRate, curr, next, last);
      Fitting(router, irsRate, curr, next, pending[..|pending| - 1]) + if c.Some? then [c.value] else []
  }

  // The pending job that is a candidate.
  lemma {:induction false} FittingComesFrom(router: Router, irsRate: real, curr: DayJob, next: DayJob,
                                            pending: seq<PendingJob>, c: Candidate)
    returns (p: PendingJob)
    requires c in Fitting(router, irsRate, curr, next, pending)
    ensures p in pending && CandidateFor(router, irsRate, curr, next, p) == Some(c)
  {
    p := pending[|pending| - 1];
    if CandidateFor(router, irsRate, curr, next, p) != Some(c) {
      p := FittingComesFrom(router, irsRate, curr, next, pending[..|pending| - 1], c);
    }
  }

  lemma {:induction false} FittingHas(router: Router, irsRate: real, curr: DayJob, next: DayJob,
                                      pending: seq<PendingJob>, p: PendingJob, c: Candidate)
    requires p in pending && CandidateFor(router, irsRate, curr, next, p) == Some(c)
    ensures c in Fitting(router, irsRate, curr, next, pending)
  {
    if p != pending[|pending| - 1] {
      assert pending == pending[..|pending| - 1] + [pending[|pending| - 1]];
      FittingHas(router, irsRate, curr, next, pending[..|pending| - 1], p, c);
    }
  }

  function ByNet(c: Candidate): int { -c.netCents }

  function Best(fitting: seq<Candidate>): seq<Candidate> {
    var sorted := Sort(fitting, ByNet);
    if |sorted| <= MAX_CANDIDATES then sorted else sorted[..MAX_CANDIDATES]
  }

  function GapBetween(router: Router, irsRate: real, curr: DayJob, next: DayJob,
                      pending: seq<PendingJob>): Option<Gap>
  {
    var ms := GapEnd(next) - GapStart(curr);
    var fitting := Fitting(router, irsRate, curr, next, pending);
    if ms < Mins(MIN_GAP_MINS) || fitting == [] then None
    else Some(Gap(GapStart(curr), GapEnd(next), ms / 60_000, curr.id, next.id, Best(fitting)))
  }

  function Present(gaps: seq<Option<Gap>>): seq<Gap> {
    if gaps == [] then []
    else
      var last := gaps[|gaps| - 1];
      Present(gaps[..|gaps| - 1]) + if last.Some? then [last.value] else []
  }

  // What lies between the first n jobs, pair by pair.
  function Between(router: Router, irsRate: real, jobs: seq<DayJob>, pending: seq<PendingJob>, n: nat): seq<Option<Gap>>
    requires n <= |jobs|
  {
    seq(if n < 2 then 0 else n - 1,
        i requires 0 <= i < n - 1 => GapBetween(router, irsRate, jobs[i], jobs[i + 1], pending))
  }

  // The gaps between the first n jobs.
  function Gaps(router: Router, irsRate: real, jobs: seq<DayJob>, pending: seq<PendingJob>, n: nat): seq<Gap>
    requires n <= |jobs|
  {
    Present(Between(router, irsRate, jobs, pending, n))
  }

  lemma {:induction false} PresentHas(gaps: seq<Option<Gap>>, i: nat)
    requires i < |gaps| && gaps[i].Some?
    ensures gaps[i].value in Present(gaps)
  {
    if i < |gaps| - 1 {
      PresentHas(gaps[..|gaps| - 1], i);
    }
  }

  lemma {:induction false} PresentComesFrom(gaps: seq<Option<Gap>>, g: Gap) returns (i: nat)
    requires g in Present(gaps)
    ensures i < |gaps| && gaps[i] == Some(g)
  {
    i := |gaps| - 1;
    if gaps[i] != Some(g) {
      i := PresentComesFrom(gaps[..|gaps| - 1], g);
    }
  }

  lemma OneMorePresent(gaps: seq<Option<Gap>>, gap: Option<Gap>)
    ensures Present(gaps + [gap]) == Present(gaps) + if gap.Some? then [gap.value] else []
  {
    assert (gaps + [gap])[..|gaps|] == gaps;
  }

  // One more job brings the gap before it, if there is one.
  lemma OneMoreJob(router: Router, irsRate: real, jobs: seq<DayJob>, pending: seq<PendingJob>, n: nat)
    requires 2 <= n <= |jobs|
    ensures var g := GapBetween(router, irsRate, jobs[n - 2], jobs[n - 1], pending);
            Gaps(router, irsRate, jobs, pending, n) ==
            Gaps(router, irsRate, jobs, pending, n - 1) + if g.Some? then [g.value] else []
  {
    var before, g := Between(router, irsRate, jobs, pending, n - 1),
                     GapBetween(router, irsRate, jobs[n - 2], jobs[n - 1], pending);
    OneMorePresent(before, g);
    assert Between(router, irsRate, jobs, pending, n) == before + [g];
  }

  method FindGaps(router: Router, irsRate: real, jobs: seq<DayJob>, pending: seq<PendingJob>) returns (gaps: seq<Gap>)
    ensures gaps == if pending == [] then [] else Gaps(router, irsRate, jobs, pending, |jobs|)
  {
    gaps := [];
    if |jobs| < 2 || pending == [] {
      return;
    }
    for i := 0 to |jobs| - 1
      invariant gaps == Gaps(router, irsRate, jobs, pending, i + 1)
    {
      OneMoreJob(router, irsRate, jobs, pending, i + 2);
      var curr, nextJob := jobs[i], jobs[i + 1];
      var start, end := GapStart(curr), GapEnd(nextJob);
      if end - start >= Mins(MIN_GAP_MINS) {
        var matched: seq<Candidate> := [];
        for k := 0 to |pending|
          invariant matched == Fitting(router, irsRate, curr, nextJob, pending[..k])
        {
          var p := pending[k];
          assert pending[..k + 1][..k] == pending[..k];
          var via := RoutesVia(router, curr, nextJob, p);
          if via.Some? {
            var (into, onward) := via.value;
            if Mins(MinsNeeded(p, into, onward)) <= end - start {
              matched := matched + [Candidate(p.id, NetCents(p, irsRate, into, onward))];
            }
          }
        }
        assert pending[..|pending|] == pending;
        if matched != [] {
          gaps := gaps + [Gap(start, end, (end - start) / 60_000, curr.id, nextJob.id, Best(matched))];
        }
      }
    }
  }

  // ----- What a reported gap promises -----

  lemma PrefixBeatsRest(sorted: seq<Candidate>, n: nat, c: Candidate, b: Candidate)
    requires Ordered(sorted, ByNet) && n <= |sorted|
    requires c in multiset(sorted[n..]) && b in multiset(sorted[..n])
    ensures c.netCents <= b.netCents
  {
    var i := Position(sorted[n..], c);
    var j := Position(sorted[..n], b);
    assert ByNet(sorted[j]) <= ByNet(sorted[n + i]);
  }

  lemma BestIsPrefix(fitting: seq<Candidate>)
    ensures var sorted, best := Sort(fitting, ByNet), Best(fitting);
            && |best| == (if |fitting| < MAX_CANDIDATES then |fitting| else MAX_CANDIDATES) <= |sorted|
            && best == sorted[..|best|] && Ordered(sorted, ByNet)
            && multiset(fitting) == multiset(best) + multiset(sorted[|best|..])
  {
    var sorted, best := Sort(fitting, ByNet), Best(fitting);
    SortIsOrderedPermutation(fitting, ByNet);
    assert sorted == best + sorted[|best|..];
  }

  lemma NothingBetterIsLeftOut(fitting: seq<Candidate>, c: Candidate, b: Candidate)
    requires c in multiset(fitting) - multiset(Best(fitting)) && b in multiset(Best(fitting))
    ensures c.netCents <= b.netCents
  {
    BestIsPrefix(fitting);
    PrefixBeatsRest(Sort(fitting, ByNet), |Best(fitting)|, c, b);
  }

  // The list shows the best-paid fitting jobs: in descending order, at most three, nothing that fits
  // pays more than what is shown, and fewer than three means all are shown.
  lemma BestAreTheBest(fitting: seq<Candidate>)
    ensures var best := Best(fitting);
            && |best| == (if |fitting| < 3 then |fitting| else 3)
            && multiset(best) <= multiset(fitting)
            && Ordered(best, ByNet)
            && forall c: Candidate, b: Candidate ::
                 c in multiset(fitting) - multiset(best) && b in multiset(best) ==> c.netCents <= b.netCents
  {
    BestIsPrefix(fitting);
    forall c: Candidate, b: Candidate | c in multiset(fitting) - multiset(Best(fitting)) && b in multiset(Best(fitting))
      ensures c.netCents <= b.netCents
    {
      NothingBetterIsLeftOut(fitting, c, b);
    }
  }

  lemma GapsComeFromPairs(router: Router, irsRate: real, jobs: seq<DayJob>, pending: seq<PendingJob>, n: nat, g: Gap)
    returns (i: nat)
    requires n <= |jobs| && g in Gaps(router, irsRate, jobs, pending, n)
    ensures 1 <= i < n && GapBetween(router, irsRate, jobs[i - 1], jobs[i], pending) == Some(g)
  {
    var k := PresentComesFrom(Between(router, irsRate, jobs, pending, n), g);
    i := k + 1;
  }

  lemma CandidateComesFromPending(router: Router, irsRate: real, curr: DayJob, next: DayJob,
                                  pending: seq<PendingJob>, c: Candidate)
    returns (p: PendingJob)
    requires c in Best(Fitting(router, irsRate, curr, next, pending))
    ensures p in pending && CandidateFor(router, irsRate, curr, next, p) == Some(c)
  {
    var fitting := Fitting(router, irsRate, curr, next, pending);
    SortIsOrderedPermutation(fitting, ByNet);
    assert c in Sort(fitting, ByNet);
    assert c in multiset(Sort(fitting, ByNet));
    var k := Position(fitting, c);
    assert c in fitting;
    p := FittingComesFrom(router, irsRate, curr, next, pending, c);
  }

  // From when the notary is free after a job: the end of its scanback, of its signing, or its start, whichever
  // is recorded first in this order.
  predicate IsFreeFrom(j: DayJob, t: int) {
    if j.scanbackEndsAt.Some? then t == j.scanbackEndsAt.value
    else if j.signingEndsAt.Some? then t == j.signingEndsAt.value
    else t == j.appointment
  }

  // The pending job is located, both jobs around the gap are, and the router knows both drives: so many minutes
  // and miles each.
  predicate Reachable(router: Router, curr: DayJob, next: DayJob, p: PendingJob, into: Route, onward: Route) {
    && curr.place.lat != 0 && curr.place.lng != 0 && next.place.lat != 0 && next.place.lng != 0
    && p.lat.Some? && p.lng.Some?
    && router(curr.place, Place(p.lat.value, p.lng.value)) == Some(into)
    && router(Place(p.lat.value, p.lng.value), next.place) == Some(onward)
  }

  // Leaving when free, driving there, signing, scanning back and driving on, the notary has twenty minutes left
  // before the next appointment.
  predicate FitsBetween(free: int, p: PendingJob, into: Route, onward: Route, appointment: int) {
    free + Mins(into.mins) + Mins(p.signingMins) + Mins(p.scanbackMins) + Mins(onward.mins) + Mins(20) <= appointment
  }

  // A pending job is among those that fit exactly if it can be reached and fits, and then it is valued at its
  // fee less the platform's and less double the miles at the rate, to the nearest cent.
  lemma FitsExactly(router: Router, irsRate: real, curr: DayJob, next: DayJob, p: PendingJob, free: int)
    requires IsFreeFrom(curr, free)
    ensures CandidateFor(router, irsRate, curr, next, p).Some? <==>
            exists into, onward :: Reachable(router, curr, next, p, into, onward)
                                   && FitsBetween(free, p, into, onward, next.appointment)
    ensures forall into, onward, c ::
              Reachable(router, curr, next, p, into, onward)
              && CandidateFor(router, irsRate, curr, next, p) == Some(c) ==>
                var net := p.fee - p.platformFee - 2.0 * (into.miles + onward.miles) * irsRate;
                c.jobId == p.id && -0.5 < c.netCents as real - net * 100.0 <= 0.5
  {
    var via := RoutesVia(router, curr, next, p);
    if via.Some? {
      var (into, onward) := via.value;
      assert Reachable(router, curr, next, p, into, onward);
      NetIsTheFeeLessItsCosts(p, irsRate, into, onward);
    }
  }

  lemma NetIsTheFeeLessItsCosts(p: PendingJob, irsRate: real, into: Route, onward: Route)
    ensures var net := p.fee - p.platformFee - 2.0 * (into.miles + onward.miles) * irsRate;
            -0.5 < NetCents(p, irsRate, into, onward) as real - net * 100.0 <= 0.5
  {
    var net := p.fee - p.platformFee - 2.0 * (into.miles + onward.miles) * irsRate;
    assert p.fee - (into.miles + onward.miles) * 2.0 * irsRate - p.platformFee == net;
    RoundingError(net * 100.0);
  }

  lemma FittingExactly(router: Router, irsRate: real, curr: DayJob, next: DayJob, pending: seq<PendingJob>,
                       p: PendingJob, free: int, into: Route, onward: Route)
    requires p in pending && IsFreeFrom(curr, free)
    requires Reachable(router, curr, next, p, into, onward) && FitsBetween(free, p, into, onward, next.appointment)
    ensures exists c :: c in Fitting(router, irsRate, curr, next, pending) && c.jobId == p.id
  {
    FitsExactly(router, irsRate, curr, next, p, free);
    var c := CandidateFor(router, irsRate, curr, next, p);
    FittingHas(router, irsRate, curr, next, pending, p, c.value);
    assert c.value.jobId == p.id;
  }

  // A candidate can really be done in its gap: leaving the earlier job when it ends, driving there,
  // signing, scanning back and driving on, the notary still has twenty minutes before the later one.
  lemma CandidatesFitWithSlack(router: Router, irsRate: real, jobs: seq<DayJob>, pending: seq<PendingJob>, g: Gap,
                               c: Candidate)
    returns (i: nat, p: PendingJob, into: Route, onward: Route, free: int)
    requires g in Gaps(router, irsRate, jobs, pending, |jobs|) && c in g.candidates
    ensures 1 <= i < |jobs| && g.prevJob == jobs[i - 1].id && g.nextJob == jobs[i].id
    ensures p in pending && p.id == c.jobId
    ensures IsFreeFrom(jobs[i - 1], free) && Reachable(router, jobs[i - 1], jobs[i], p, into, onward)
    ensures FitsBetween(free, p, into, onward, jobs[i].appointment)
    ensures g.start == free + Mins(10) && g.end == jobs[i].appointment - Mins(10)
  {
    i := GapsComeFromPairs(router, irsRate, jobs, pending, |jobs|, g);
    p := CandidateComesFromPending(router, irsRate, jobs[i - 1], jobs[i], pending, c);
    free := FreeFrom(jobs[i - 1]);
    FitsExactly(router, irsRate, jobs[i - 1], jobs[i], p, free);
    into, onward :| Reachable(router, jobs[i - 1], jobs[i], p, into, onward)
                    && FitsBetween(free, p, into, onward, jobs[i].appointment);
  }

  // From ten minutes after the notary is free to ten minutes before the next appointment, in whole minutes.
  predicate IsGapOf(g: Gap, free: int, curr: DayJob, next: DayJob) {
    && g.start == free + Mins(10) && g.end == next.appointment - Mins(10)
    && Mins(g.mins) <= g.end - g.start < Mins(g.mins + 1)
    && g.prevJob == curr.id && g.nextJob == next.id
  }

  lemma GapBetweenExactly(router: Router, irsRate: real, curr: DayJob, next: DayJob, pending: seq<PendingJob>,
                          free: int)
    requires IsFreeFrom(curr, free)
    ensures var g := GapBetween(router, irsRate, curr, next, pending);
            && (g.Some? <==> free + Mins(50) <= next.appointment && Fitting(router, irsRate, curr, next, pending) != [])
            && (g.Some? ==> IsGapOf(g.value, free, curr, next)
                            && g.value.candidates == Best(Fitting(router, irsRate, curr, next, pending)))
  {
  }

  // Two neighbours between whom fifty minutes and some job that fits remain have their gap in the list.
  lemma GapIsFound(router: Router, irsRate: real, jobs: seq<DayJob>, pending: seq<PendingJob>, i: nat, free: int)
    returns (g: Gap)
    requires 1 <= i < |jobs| && IsFreeFrom(jobs[i - 1], free) && free + Mins(50) <= jobs[i].appointment
    requires Fitting(router, irsRate, jobs[i - 1], jobs[i], pending) != []
    ensures g in Gaps(router, irsRate, jobs, pending, |jobs|) && IsGapOf(g, free, jobs[i - 1], jobs[i])
    ensures g.candidates == Best(Fitting(router, irsRate, jobs[i - 1], jobs[i], pending))
  {
    GapBetweenExactly(router, irsRate, jobs[i - 1], jobs[i], pending, free);
    g := GapBetween(router, irsRate, jobs[i - 1], jobs[i], pending).value;
    PresentHas(Between(router, irsRate, jobs, pending, |jobs|), i - 1);
  }

  // A day in time order whose jobs do not end before they start.
  ghost predicate Timed(jobs: seq<DayJob>) {
    && (forall i, j :: 0 <= i < j < |jobs| ==> jobs[i].appointment <= jobs[j].appointment)
    && (forall i :: 0 <= i < |jobs| ==> jobs[i].appointment <= FreeFrom(jobs[i]))
  }

  ghost predicate GapsApart(gs: seq<Gap>) {
    forall k, l :: 0 <= k < l < |gs| ==> gs[k].end + Mins(20) <= gs[l].start
  }

  ghost predicate LongGapsBefore(gs: seq<Gap>, t: int) {
    forall k :: 0 <= k < |gs| ==> gs[k].start + Mins(30) <= gs[k].end <= t
  }

  lemma {:induction false} GapsEndBy(router: Router, irsRate: real, jobs: seq<DayJob>, pending: seq<PendingJob>, n: nat)
    requires Timed(jobs) && 1 <= n <= |jobs|
    ensures LongGapsBefore(Gaps(router, irsRate, jobs, pending, n), jobs[n - 1].appointment - Mins(10))
    ensures GapsApart(Gaps(router, irsRate, jobs, pending, n))
  {
    if n >= 2 {
      GapsEndBy(router, irsRate, jobs, pending, n - 1);
      OneMoreJob(router, irsRate, jobs, pending, n);
      var before, gs := Gaps(router, irsRate, jobs, pending, n - 1), Gaps(router, irsRate, jobs, pending, n);
      var g := GapBetween(router, irsRate, jobs[n - 2], jobs[n - 1], pending);
      assert jobs[n - 2].appointment <= FreeFrom(jobs[n - 2]) && jobs[n - 2].appointment <= jobs[n - 1].appointment;
      if g.Some? {
        assert gs == before + [g.value];
        assert g.value.start >= jobs[n - 2].appointment + Mins(10);
        assert g.value.start + Mins(30) <= g.value.end == jobs[n - 1].appointment - Mins(10);
      } else {
        assert gs == before;
      }
    }
  }

  // On a timed day the reported gaps are at least half an hour long, in order, and twenty minutes apart.
  lemma GapsAreDisjointAndOrdered(router: Router, irsRate: real, jobs: seq<DayJob>, pending: seq<PendingJob>)
    requires Timed(jobs)
    ensures var gs := Gaps(router, irsRate, jobs, pending, |jobs|);
            && GapsApart(gs)
            && forall k :: 0 <= k < |gs| ==> gs[k].start + Mins(30) <= gs[k].end
  {
    if jobs != [] {
      GapsEndBy(router, irsRate, jobs, pending, |jobs|);
    }
  }
}
