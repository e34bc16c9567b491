/** Delivery of one invoice e-mail: a row guarded by a compare-and-set on its attempt
    counter, with workers, queue, retry cron and the user acting on it in any order. */
module InvoiceDelivery {
  import opened Clock
  import opened Wrappers

  const MAX_ATTEMPTS := 3

  datatype InvoiceRow = InvoiceRow(
    pending: bool,
    attempts: int,
    lastAttemptAt: Option<int>,
    lastError: Option<string>,
    failedAt: Option<int>,
    sentAt: Option<int>)

  // How a claimed attempt comes out.
  datatype Outcome = Sent | ClientMailOff | Failed(message: string)

  // ----- What each writer does to the row -----

  // The conditional update that hands an attempt to one worker.
  predicate Claimable(row: InvoiceRow, attempt: int) {
    1 <= attempt <= MAX_ATTEMPTS && row.pending && row.attempts == attempt - 1
  }

  function ClaimRow(row: InvoiceRow, attempt: int, now: int): InvoiceRow {
    row.(attempts := attempt, lastAttemptAt := Some(now))
  }

  function SettleRow(row: InvoiceRow, attempt: int, outcome: Outcome, now: int): InvoiceRow {
    match outcome
    case Sent => row.(pending := false, sentAt := Some(now), lastError := None, failedAt := None)
    case ClientMailOff => row.(pending := false, lastError := None, failedAt := None)
    case Failed(message) =>
      row.(pending := attempt < MAX_ATTEMPTS, lastError := Some(message),
           failedAt := if attempt == MAX_ATTEMPTS then Some(now) else None)
  }

  function ResetRow(row: InvoiceRow): InvoiceRow {
    row.(pending := true, attempts := 0, lastAttemptAt := None, lastError := None, failedAt := None)
  }

  // The rows the retry cron picks up.
  predicate CronPicks(row: InvoiceRow, now: int) {
    row.pending && 1 <= row.attempts < MAX_ATTEMPTS && row.lastError.Some?
    && row.lastAttemptAt.Some? && row.lastAttemptAt.value <= now - Mins(15)
  }

  // ----- The system: row, queue, cron and workers -----

  datatype Flight = Flight(attempt: int, claimedAt: int)

  /** queue holds the attempt numbers waiting for a worker; cronBatch those the cron has read
      but not yet enqueued. Each claim gets a fresh ticket; flights are the claims still being
      worked on and called the claims that reached the mail provider. claimLog lists the
      attempts claimed since the last send. */
  datatype Delivery = Delivery(
    row: InvoiceRow,
    now: int,
    queue: multiset<int>,
    cronBatch: multiset<int>,
    flights: map<nat, Flight>,
    called: set<nat>,
    claims: nat,
    sends: nat,
    claimLog: seq<int>)

  datatype Step =
    | Send(stale: multiset<int>, enqueued: bool)  // stale: queued jobs that could not be removed
    | Tick(ms: nat)
    | CronRead
    | CronAdd(attempt: int)
    | Deliver(attempt: int)                       // a worker takes a queued job
    | Redeliver(attempt: int)                     // a stalled job comes back although it was claimed
    | Lose(attempt: int)
    | CallProvider(ticket: nat)
    | Finish(ticket: nat, outcome: Outcome)
    | Crash(ticket: nat, requeued: bool)          // the worker dies without writing

  // An attempt ends as sent only once the provider was called for it, and as switched off only before.
  predicate CanEnd(s: Delivery, t: nat, outcome: Outcome) {
    t in s.flights && (outcome.Sent? ==> t in s.called) && (outcome.ClientMailOff? ==> t !in s.called)
  }

  predicate Enabled(s: Delivery, step: Step) {
    match step
    case Send(stale, _) => stale <= s.queue
    case Tick(_) => true
    case CronRead => CronPicks(s.row, s.now)
    case CronAdd(a) => a in s.cronBatch
    case Deliver(a) => a in s.queue
    case Redeliver(a) => a in s.claimLog || exists t :: t in s.flights && s.flights[t].attempt == a
    case Lose(a) => a in s.queue
    case CallProvider(t) => t in s.flights && t !in s.called
    case Finish(t, outcome) => CanEnd(s, t, outcome)
    case Crash(t, _) => t in s.flights
  }

  function Apply(s: Delivery, step: Step): Delivery {
    if !Enabled(s, step) then s
    else match step
      case Send(stale, enqueued) =>
        s.(row := ResetRow(s.row), queue := stale + (if enqueued then multiset{1} else multiset{}),
           sends := s.sends + 1, claimLog := [])
      case Tick(ms) => s.(now := s.now + ms)
      case CronRead => s.(cronBatch := s.cronBatch + multiset{s.row.attempts + 1})
      case CronAdd(a) => s.(cronBatch := s.cronBatch - multiset{a}, queue := s.queue + multiset{a})
      case Deliver(a) =>
        var taken := s.(queue := s.queue - multiset{a});
        if Claimable(s.row, a) then
          taken.(row := ClaimRow(s.row, a, s.now), flights := s.flights[s.claims := Flight(a, s.now)],
                 claims := s.claims + 1, claimLog := s.claimLog + [a])
        else taken
      case Redeliver(a) => s.(queue := s.queue + multiset{a})
      case Lose(a) => s.(queue := s.queue - multiset{a})
      case CallProvider(t) => s.(called := s.called + {t})
      case Finish(t, outcome) =>
        s.(row := SettleRow(s.row, s.flights[t].attempt, outcome, s.now), flights := s.flights - {t})
      case Crash(t, requeued) =>
        s.(flights := s.flights - {t},
           queue := s.queue + (if requeued then multiset{s.flights[t].attempt} else multiset{}))
  }

  function Play(s: Delivery, steps: seq<Step>): Delivery {
    if steps == [] then s else Apply(Play(s, steps[..|steps| - 1]), steps[|steps| - 1])
  }

  // ----- Any run whatever -----

  // A delivery nothing has happened to yet; the row may already hold an old history.
  predicate Untouched(s: Delivery) {
    !s.row.pending && s.flights == map[] && s.called == {} && s.claims == 0 && s.sends == 0 && s.claimLog == []
  }

  ghost predicate Counted(s: Delivery) {
    && s.claims <= MAX_ATTEMPTS * s.sends
    && (s.sends == 0 ==> !s.row.pending && s.claimLog == [])
    && (s.sends > 0 ==> s.row.attempts == |s.claimLog| <= MAX_ATTEMPTS
                        && s.claims <= MAX_ATTEMPTS * (s.sends - 1) + |s.claimLog|)
    && (forall i :: 0 <= i < |s.claimLog| ==> s.claimLog[i] == i + 1)
    && (forall t :: t in s.flights || t in s.called ==> t < s.claims)
  }

  lemma CountedKept(s: Delivery, step: Step)
    requires Counted(s)
    ensures Counted(Apply(s, step))
  {
  }

  function UpTo(n: nat): (r: set<nat>)
    ensures |r| == n
    ensures forall t: nat :: t in r <==> t < n
  {
    if n == 0 then {} else UpTo(n - 1) + {n - 1}
  }

  lemma {:induction false} SubsetSize(a: set<nat>, b: set<nat>)
    requires a <= b
    ensures |a| <= |b|
  {
    if a != {} {
      var x :| x in a;
      SubsetSize(a - {x}, b - {x});
    }
  }

  lemma {:induction false} CountedAlways(s: Delivery, steps: seq<Step>)
    requires Untouched(s)
    ensures Counted(Play(s, steps))
  {
    if steps != [] {
      CountedAlways(s, steps[..|steps| - 1]);
      CountedKept(Play(s, steps[..|steps| - 1]), steps[|steps| - 1]);
    }
  }

  // Under any interleaving of sends, duplicated or lost queue jobs, cron and crashes: since the
  // last send each attempt was claimed once, in order, and the mail provider is never called
  // more than three times per send.
  lemma AtMostThreeCallsPerSend(s: Delivery, steps: seq<Step>)
    requires Untouched(s)
    ensures var r := Play(s, steps);
            && |r.called| <= r.claims <= 3 * r.sends
            && (r.sends > 0 ==> r.row.attempts == |r.claimLog| <= 3)
            && (forall i :: 0 <= i < |r.claimLog| ==> r.claimLog[i] == i + 1)
  {
    var r := Play(s, steps);
    CountedAlways(s, steps);
    SubsetSize(r.called, UpTo(r.claims));
  }

  // ----- What the row tells -----

  // The stamp of delivery moves only when an attempt ends as sent, and then to that moment.
  lemma OnlySentStamps(s: Delivery, step: Step)
    ensures var sent := step.Finish? && step.outcome == Sent && CanEnd(s, step.ticket, Sent);
            && Apply(s, step).row.sentAt == (if sent then Some(s.now) else s.row.sentAt)
            && (sent ==> s.called != {})
    ensures s.called <= Apply(s, step).called
  {
  }

  // When an attempt of the run last ended as sent.
  function LastSent(s: Delivery, steps: seq<Step>): Option<int> {
    if steps == [] then None
    else
      var shorter, last := steps[..|steps| - 1], steps[|steps| - 1];
      if last.Finish? && last.outcome == Sent && CanEnd(Play(s, shorter), last.ticket, Sent)
      then Some(Play(s, shorter).now) else LastSent(s, shorter)
  }

  // Over every run, sends and crashes included: the row bears the time of the last attempt that ended as sent,
  // its old stamp if none did; and a new stamp means that the provider was called.
  lemma {:induction false} StampTellsTheLastDelivery(s: Delivery, steps: seq<Step>)
    ensures var r, sent := Play(s, steps), LastSent(s, steps);
            && r.row.sentAt == (if sent.Some? then sent else s.row.sentAt)
            && (sent.Some? ==> r.called != {}) && s.called <= r.called
  {
    if steps != [] {
      var shorter := steps[..|steps| - 1];
      StampTellsTheLastDelivery(s, shorter);
      OnlySentStamps(Play(s, shorter), steps[|steps| - 1]);
    }
  }

  // What was last recorded about the outcome: nothing in the run, a fresh send, or the end of an attempt.
  datatype Told = AsBefore | Fresh | Ended(attempt: int, outcome: Outcome, at: int)

  function LastTold(s: Delivery, steps: seq<Step>): Told {
    if steps == [] then AsBefore
    else
      var shorter, last := steps[..|steps| - 1], steps[|steps| - 1];
      var before := Play(s, shorter);
      if !Enabled(before, last) then LastTold(s, shorter)
      else match last
        case Send(_, _) => Fresh
        case Finish(t, outcome) => Ended(before.flights[t].attempt, outcome, before.now)
        case _ => LastTold(s, shorter)
  }

  // The row is to be sent again after a fresh send and after a failure with attempts left; an error stands on
  // it exactly after a failure, and the time of failing exactly after the third attempt's.
  predicate RowTells(before: InvoiceRow, told: Told, row: InvoiceRow) {
    match told
    case AsBefore =>
      row.pending == before.pending && row.lastError == before.lastError && row.failedAt == before.failedAt
    case Fresh => row.pending && row.lastError == None && row.failedAt == None
    case Ended(_, Sent, _) => !row.pending && row.lastError == None && row.failedAt == None
    case Ended(_, ClientMailOff, _) => !row.pending && row.lastError == None && row.failedAt == None
    case Ended(attempt, Failed(message), at) =>
      && (row.pending <==> attempt < 3) && row.lastError == Some(message)
      && row.failedAt == if attempt == 3 then Some(at) else None
  }

  lemma {:induction false} RowTellsTheLastOutcome(s: Delivery, steps: seq<Step>)
    ensures RowTells(s.row, LastTold(s, steps), Play(s, steps).row)
  {
    if steps != [] {
      RowTellsTheLastOutcome(s, steps[..|steps| - 1]);
    }
  }

  // ----- One delivery cycle: a send from an idle system, and everything until the next send -----

  predicate Idle(s: Delivery) {
    s.queue == multiset{} && s.cronBatch == multiset{} && s.flights == map[] && s.called == {} && s.claims == 0
  }

  predicate NoSend(steps: seq<Step>) {
    forall i :: 0 <= i < |steps| ==> !steps[i].Send?
  }

  // A send whose first job reaches the queue, or whose failure to queue it goes unnoticed.
  function Sending(s: Delivery, enqueued: bool): Delivery {
    Apply(s, Send(multiset{}, enqueued))
  }

  ghost function Cycle(s: Delivery, steps: seq<Step>): Delivery {
    Play(Sending(s, true), steps)
  }

  // Every attempt in flight was claimed less than limit milliseconds ago.
  ghost predicate YoungerThan(s: Delivery, limit: int) {
    forall t :: t in s.flights ==> s.now - s.flights[t].claimedAt < limit
  }

  // No attempt ever stays in flight as long as limit: not now, and not in any state before.
  ghost predicate Prompt(s: Delivery, steps: seq<Step>, limit: int) {
    YoungerThan(Cycle(s, steps), limit) && (steps != [] ==> Prompt(s, steps[..|steps| - 1], limit))
  }

  ghost predicate OneInFlight(s: Delivery) {
    forall t, u :: t in s.flights && u in s.flights ==> t == u
  }

  // The highest attempt a queued job may carry: the next one only while nobody is at work.
  function Reachable(s: Delivery): int {
    s.row.attempts + if s.flights == map[] then 1 else 0
  }

  // What holds between any two steps of a cycle, however long its attempts take.
  ghost predicate Regular(s: Delivery) {
    && 0 <= s.row.attempts == |s.claimLog| <= MAX_ATTEMPTS
    && (forall i :: 0 <= i < |s.claimLog| ==> s.claimLog[i] == i + 1)
    && (forall t :: t in s.flights ==> t < s.claims && 1 <= s.flights[t].attempt <= s.row.attempts)
    && (forall a :: a in s.queue || a in s.cronBatch ==> a <= MAX_ATTEMPTS && a <= s.row.attempts + 1)
    && (s.row.attempts >= 1 ==> s.row.lastAttemptAt.Some? && s.row.lastAttemptAt.value <= s.now)
    && (s.row.lastError.Some? ==> s.row.attempts >= 1)
  }

  // What holds besides in a prompt cycle.
  ghost predicate Orderly(s: Delivery) {
    && Regular(s) && OneInFlight(s)
    && (forall t :: t in s.flights ==> s.row.pending && s.flights[t].attempt == s.row.attempts
                                       && s.row.lastAttemptAt == Some(s.flights[t].claimedAt))
    && (forall a :: a in s.queue || a in s.cronBatch ==> a <= Reachable(s))
    && (s.row.failedAt.Some? ==> s.row.attempts == MAX_ATTEMPTS && !s.row.pending && s.row.lastError.Some?)
  }

  lemma DeliverStaysRegular(s: Delivery, a: int)
    requires Regular(s)
    ensures Regular(Apply(s, Deliver(a)))
  {
  }

  lemma QueueingStaysRegular(s: Delivery, step: Step)
    requires Regular(s) && (step.CronAdd? || step.Redeliver? || step.Lose?)
    ensures Regular(Apply(s, step))
  {
    if step.Redeliver? && Enabled(s, step) {
      assert step.attempt <= s.row.attempts;
    }
  }

  lemma LandingStaysRegular(s: Delivery, step: Step)
    requires Regular(s) && (step.Finish? || step.Crash?)
    ensures Regular(Apply(s, step))
  {
  }

  lemma RegularKept(s: Delivery, step: Step)
    requires Regular(s) && !step.Send?
    ensures Regular(Apply(s, step))
  {
    match step
    case Deliver(a) => DeliverStaysRegular(s, a);
    case CronAdd(_) => QueueingStaysRegular(s, step);
    case Redeliver(_) => QueueingStaysRegular(s, step);
    case Lose(_) => QueueingStaysRegular(s, step);
    case Finish(_, _) => LandingStaysRegular(s, step);
    case Crash(_, _) => LandingStaysRegular(s, step);
    case _ =>
  }

  lemma {:induction false} CycleIsRegular(s: Delivery, steps: seq<Step>)
    requires Idle(s) && NoSend(steps)
    ensures Regular(Cycle(s, steps))
  {
    if steps != [] {
      CycleIsRegular(s, steps[..|steps| - 1]);
      RegularKept(Cycle(s, steps[..|steps| - 1]), steps[|steps| - 1]);
    }
  }

  lemma NoFlightAfterRemoval(s: Delivery, t: nat)
    requires OneInFlight(s) && t in s.flights
    ensures s.flights - {t} == map[]
  {
    assert forall u :: u in s.flights - {t} ==> u in s.flights && u != t;
  }

  lemma DeliverKeepsOrder(s: Delivery, a: int)
    requires Orderly(s) && a in s.queue
    ensures Orderly(Apply(s, Deliver(a)))
  {
    DeliverStaysRegular(s, a);
    if Claimable(s.row, a) {
      assert a <= Reachable(s);
      assert s.flights == map[];
    }
  }

  lemma CronReadKeepsOrder(s: Delivery)
    requires Orderly(s) && YoungerThan(s, Mins(15)) && CronPicks(s.row, s.now)
    ensures Orderly(Apply(s, CronRead))
  {
    assert forall t :: t in s.flights ==> s.now - s.flights[t].claimedAt >= Mins(15);
    assert s.flights == map[];
    RegularKept(s, CronRead);
  }

  // Only the queues moved, and no job beyond the next attempt came in.
  lemma JobsMoveInOrder(s: Delivery, r: Delivery)
    requires Orderly(s) && Regular(r) && r.row == s.row && r.flights == s.flights
    requires forall a :: a in r.queue || a in r.cronBatch ==> a in s.queue || a in s.cronBatch || a <= s.row.attempts
    ensures Orderly(r)
  {
  }

  lemma QueueingKeepsOrder(s: Delivery, step: Step)
    requires Orderly(s) && (step.CronAdd? || step.Redeliver? || step.Lose?)
    ensures Orderly(Apply(s, step))
  {
    QueueingStaysRegular(s, step);
    if step.Redeliver? && Enabled(s, step) {
      assert step.attempt <= s.row.attempts;
    }
    JobsMoveInOrder(s, Apply(s, step));
  }

  lemma LandingKeepsOrder(s: Delivery, step: Step)
    requires Orderly(s) && (step.Finish? || step.Crash?) && Enabled(s, step)
    ensures Orderly(Apply(s, step))
  {
    LandingStaysRegular(s, step);
    NoFlightAfterRemoval(s, step.ticket);
  }

  lemma OrderlyKept(s: Delivery, step: Step)
    requires Orderly(s) && YoungerThan(s, Mins(15)) && !step.Send?
    ensures Orderly(Apply(s, step))
  {
    if Enabled(s, step) {
      match step
      case Deliver(a) => DeliverKeepsOrder(s, a);
      case CronRead => CronReadKeepsOrder(s);
      case CronAdd(_) => QueueingKeepsOrder(s, step);
      case Redeliver(_) => QueueingKeepsOrder(s, step);
      case Lose(_) => QueueingKeepsOrder(s, step);
      case Finish(_, _) => LandingKeepsOrder(s, step);
      case Crash(_, _) => LandingKeepsOrder(s, step);
      case _ => RegularKept(s, step);
    }
  }

  lemma {:induction false} CycleIsOrderly(s: Delivery, steps: seq<Step>)
    requires Idle(s) && NoSend(steps) && Prompt(s, steps, Mins(15))
    ensures Orderly(Cycle(s, steps))
  {
    if steps != [] {
      CycleIsOrderly(s, steps[..|steps| - 1]);
      OrderlyKept(Cycle(s, steps[..|steps| - 1]), steps[|steps| - 1]);
    }
  }

  // In a cycle whose attempts each finish within 15 minutes: one attempt at a time, claimed in
  // order and at most three, and failure is recorded only after the third with its error.
  lemma PromptCyclesAreOrderly(s: Delivery, steps: seq<Step>)
    requires Idle(s) && NoSend(steps) && Prompt(s, steps, Mins(15))
    ensures var r := Cycle(s, steps);
            && OneInFlight(r)
            && r.row.attempts == |r.claimLog| <= MAX_ATTEMPTS
            && (forall i :: 0 <= i < |r.claimLog| ==> r.claimLog[i] == i + 1)
            && (r.row.failedAt.Some? ==> r.row.attempts == MAX_ATTEMPTS && !r.row.pending && r.row.lastError.Some?)
  {
    CycleIsOrderly(s, steps);
  }

  // A settled row with nobody at work stays as it is until the next send, whatever is queued.
  lemma {:induction false} SettledForGood(s: Delivery, steps: seq<Step>)
    requires !s.row.pending && s.flights == map[] && NoSend(steps)
    ensures var r := Play(s, steps);
            r.row == s.row && r.claims == s.claims && r.called == s.called && r.flights == map[]
  {
    if steps != [] {
      SettledForGood(s, steps[..|steps| - 1]);
    }
  }

  // After a success nothing is claimed, nothing is mailed and the row does not change any more.
  lemma NothingAfterSuccess(s: Delivery, steps: seq<Step>, ticket: nat, later: seq<Step>)
    requires Idle(s) && NoSend(steps) && Prompt(s, steps, Mins(15)) && NoSend(later)
    requires ticket in Cycle(s, steps).flights && ticket in Cycle(s, steps).called
    ensures var done := Apply(Cycle(s, steps), Finish(ticket, Sent));
            var r := Play(done, later);
            && r.row == done.row && !r.row.pending && r.row.sentAt.Some?
            && r.claims == done.claims && r.called == done.called
  {
    var before := Cycle(s, steps);
    CycleIsOrderly(s, steps);
    NoFlightAfterRemoval(before, ticket);
    SettledForGood(Apply(before, Finish(ticket, Sent)), later);
  }

  // ----- Fifteen minutes is exactly the limit -----

  // Nothing goes wrong between queue and worker, and nobody sends again.
  predicate Smooth(steps: seq<Step>) {
    forall i :: 0 <= i < |steps| ==> !(steps[i].Send? || steps[i].Crash? || steps[i].Lose? || steps[i].Redeliver?)
  }

  lemma PromptGrows(s: Delivery, steps: seq<Step>, step: Step, limit: int)
    requires Prompt(s, steps, limit) && Smooth(steps) && Smooth([step])
    requires YoungerThan(Apply(Cycle(s, steps), step), limit)
    ensures Cycle(s, steps + [step]) == Apply(Cycle(s, steps), step)
    ensures Prompt(s, steps + [step], limit) && Smooth(steps + [step])
  {
    var longer := steps + [step];
    assert longer[..|longer| - 1] == steps;
  }

  lemma {:induction false} PromptWithin(s: Delivery, steps: seq<Step>, limit: int, longer: int)
    requires Prompt(s, steps, limit) && limit <= longer
    ensures Prompt(s, steps, longer)
  {
    assert YoungerThan(Cycle(s, steps), longer);
    if steps != [] {
      PromptWithin(s, steps[..|steps| - 1], limit, longer);
    }
  }

  // The four states of a cron round over a row it will take up.
  lemma CronRoundEffect(r: Delivery) returns (waited: Delivery, read: Delivery, added: Delivery, q: Delivery)
    requires CronPicks(r.row, r.now + Mins(15))
    ensures waited == Apply(r, Tick(Mins(15))) && read == Apply(waited, CronRead)
    ensures added == Apply(read, CronAdd(r.row.attempts + 1)) && q == Apply(added, Deliver(r.row.attempts + 1))
    ensures read.flights == added.flights == waited.flights == r.flights
    ensures read.now == added.now == waited.now == q.now == r.now + Mins(15)
    ensures q.called == r.called && q.claims == r.claims + 1
    ensures q.row == ClaimRow(r.row, r.row.attempts + 1, q.now)
    ensures q.flights == r.flights[r.claims := Flight(r.row.attempts + 1, q.now)]
  {
    var next := r.row.attempts + 1;
    waited := r.(now := r.now + Mins(15));
    read := waited.(cronBatch := waited.cronBatch + multiset{next});
    assert next in read.cronBatch;
    added := read.(cronBatch := read.cronBatch - multiset{next}, queue := read.queue + multiset{next});
    assert next in added.queue && Claimable(added.row, next);
    q := Apply(added, Deliver(next));
  }

  lemma CronRoundIsYoung(r: Delivery, waited: Delivery, read: Delivery, added: Delivery, q: Delivery, limit: int)
    requires limit > 0
    requires forall t :: t in r.flights ==> r.flights[t].claimedAt == r.now && limit > Mins(15)
    requires read.flights == added.flights == waited.flights == r.flights
    requires read.now == added.now == waited.now == q.now == r.now + Mins(15)
    requires q.flights == r.flights[r.claims := Flight(r.row.attempts + 1, q.now)]
    ensures YoungerThan(waited, limit) && YoungerThan(read, limit) && YoungerThan(added, limit) && YoungerThan(q, limit)
  {
  }

  // From a row the cron will take up, 15 minutes later the next attempt is in flight - beside
  // any that was claimed just before and has not ended.
  lemma CronRound(s: Delivery, steps: seq<Step>, limit: int) returns (longer: seq<Step>)
    requires Prompt(s, steps, limit) && Smooth(steps) && limit > 0
    requires var r := Cycle(s, steps);
             && CronPicks(r.row, r.now + Mins(15))
             && (forall t :: t in r.flights ==> r.flights[t].claimedAt == r.now && limit > Mins(15))
    ensures Prompt(s, longer, limit) && Smooth(longer)
    ensures var r, q := Cycle(s, steps), Cycle(s, longer);
            && q.now == r.now + Mins(15) && q.called == r.called && q.claims == r.claims + 1
            && q.row == ClaimRow(r.row, r.row.attempts + 1, q.now)
            && q.flights == r.flights[r.claims := Flight(q.row.attempts, q.now)]
  {
    var next := Cycle(s, steps).row.attempts + 1;
    var waited, read, added, q := CronRoundEffect(Cycle(s, steps));
    CronRoundIsYoung(Cycle(s, steps), waited, read, added, q, limit);
    longer := ExtendTwice(s, steps, Tick(Mins(15)), waited, CronRead, read, limit);
    longer := ExtendTwice(s, longer, CronAdd(next), added, Deliver(next), q, limit);
  }

  lemma ExtendTwice(s: Delivery, steps: seq<Step>, a: Step, mid: Delivery, b: Step, next: Delivery, limit: int)
    returns (longer: seq<Step>)
    requires Prompt(s, steps, limit) && Smooth(steps) && Smooth([a]) && Smooth([b])
    requires mid == Apply(Cycle(s, steps), a) && YoungerThan(mid, limit)
    requires next == Apply(mid, b) && YoungerThan(next, limit)
    ensures Cycle(s, longer) == next && Prompt(s, longer, limit) && Smooth(longer)
  {
    longer := Extend(s, steps, a, mid, limit);
    longer := Extend(s, longer, b, next, limit);
  }

  lemma Extend(s: Delivery, steps: seq<Step>, step: Step, next: Delivery, limit: int) returns (longer: seq<Step>)
    requires Prompt(s, steps, limit) && Smooth(steps) && Smooth([step])
    requires next == Apply(Cycle(s, steps), step) && YoungerThan(next, limit)
    ensures Cycle(s, longer) == next && Prompt(s, longer, limit) && Smooth(longer)
  {
    PromptGrows(s, steps, step, limit);
    longer := steps + [step];
  }

  // The first attempt reaches the provider and fails.
  lemma FirstAttemptFails(s: Delivery, limit: int) returns (steps: seq<Step>)
    requires Idle(s) && limit > 0
    ensures Smooth(steps) && Prompt(s, steps, limit)
    ensures var r := Cycle(s, steps);
            && r.flights == map[] && r.claims == 1 && r.called == {0}
            && r.row.attempts == 1 && CronPicks(r.row, r.now + Mins(15))
  {
    steps := [];
    assert Prompt(s, steps, limit);
    PromptGrows(s, steps, Deliver(1), limit);
    steps := steps + [Deliver(1)];
    PromptGrows(s, steps, CallProvider(0), limit);
    steps := steps + [CallProvider(0)];
    assert Cycle(s, steps).flights == map[0 := Flight(1, s.now)];
    assert Cycle(s, steps).flights - {0} == map[];
    PromptGrows(s, steps, Finish(0, Failed("")), limit);
    steps := steps + [Finish(0, Failed(""))];
  }

  // An attempt that may take 15 minutes lets the cron start the next one beside it.
  lemma SlowAttemptsOverlap(s: Delivery, limit: int) returns (steps: seq<Step>)
    requires Idle(s) && limit > Mins(15)
    ensures Smooth(steps) && Prompt(s, steps, limit) && !OneInFlight(Cycle(s, steps))
    ensures var r := Cycle(s, steps);
            && r.flights.Keys == {1, 2} && r.flights[1].attempt == 2 && r.flights[2].attempt == 3 && r.called == {0}
            && r.row.attempts == MAX_ATTEMPTS
  {
    var first := FirstAttemptFails(s, limit);
    var second := CronRound(s, first, limit);
    steps := CronRound(s, second, limit);
    assert 1 in Cycle(s, steps).flights && 2 in Cycle(s, steps).flights;
  }

  lemma PlayStep(s: Delivery, steps: seq<Step>, step: Step)
    ensures Play(s, steps + [step]) == Apply(Play(s, steps), step)
  {
    assert (steps + [step])[..|steps|] == steps;
  }

  // The run, and where it stands, one step on.
  lemma PlayTo(s: Delivery, steps: seq<Step>, step: Step, next: Delivery) returns (longer: seq<Step>)
    requires NoSend(steps) && !step.Send? && next == Apply(Play(s, steps), step)
    ensures longer == steps + [step] && NoSend(longer) && Play(s, longer) == next
  {
    PlayStep(s, steps, step);
    longer := steps + [step];
  }

  // Two overlapping attempts mail the client twice, and a delivered invoice can end up marked as failed.
  lemma OverlapMarksADeliveredInvoiceFailed(s: Delivery)
    requires s.flights.Keys == {1, 2} && s.flights[1].attempt == 2 && s.flights[2].attempt == 3 && s.called == {0}
    ensures var r := Play(s, [CallProvider(1), CallProvider(2), Finish(1, Sent), Finish(2, Failed(""))]);
            r.row.sentAt.Some? && r.row.failedAt.Some? && r.called == {0, 1, 2}
  {
    var mailed, twice := Apply(s, CallProvider(1)), Apply(Apply(s, CallProvider(1)), CallProvider(2));
    var sent := Apply(twice, Finish(1, Sent));
    var steps := PlayTo(s, [], CallProvider(1), mailed);
    steps := PlayTo(s, steps, CallProvider(2), twice);
    steps := PlayTo(s, steps, Finish(1, Sent), sent);
    steps := PlayTo(s, steps, Finish(2, Failed("")), Apply(sent, Finish(2, Failed(""))));
    assert steps == [CallProvider(1), CallProvider(2), Finish(1, Sent), Finish(2, Failed(""))];
  }

  // Attempts never overlap in a cycle, if and only if every attempt ends within 15 minutes.
  lemma OneAtATimeExactlyWithinFifteenMinutes(s: Delivery, limit: int)
    requires Idle(s)
    ensures (forall steps :: NoSend(steps) && Prompt(s, steps, limit) ==> OneInFlight(Cycle(s, steps)))
            <==> limit <= Mins(15)
  {
    if limit <= Mins(15) {
      forall steps | NoSend(steps) && Prompt(s, steps, limit)
        ensures OneInFlight(Cycle(s, steps))
      {
        PromptWithin(s, steps, limit, Mins(15));
        CycleIsOrderly(s, steps);
      }
    } else {
      var steps := SlowAttemptsOverlap(s, limit);
    }
  }

  // ----- A cycle ends -----

  function Work(s: Delivery): int {
    2 * (MAX_ATTEMPTS - s.row.attempts) + |s.flights.Keys|
  }

  // A claim that succeeds, or a claim that ends.
  predicate Progress(s: Delivery, step: Step) {
    Enabled(s, step) && match step
      case Deliver(a) => Claimable(s.row, a)
      case Finish(_, _) => true
      case Crash(_, _) => true
      case _ => false
  }

  function ProgressIn(s: Delivery, steps: seq<Step>): nat {
    if steps == [] then 0
    else
      var shorter := steps[..|steps| - 1];
      ProgressIn(s, shorter) + if Progress(Play(s, shorter), steps[|steps| - 1]) then 1 else 0
  }

  lemma FlightsMove(flights: map<nat, Flight>, t: nat, f: Flight)
    ensures t in flights ==> |(flights - {t}).Keys| == |flights.Keys| - 1
    ensures t !in flights ==> |flights[t := f].Keys| == |flights.Keys| + 1
  {
    assert (flights - {t}).Keys == flights.Keys - {t};
    assert flights[t := f].Keys == flights.Keys + {t};
  }

  lemma WorkShrinks(s: Delivery, step: Step)
    requires Counted(s) && !step.Send?
    ensures Work(Apply(s, step)) + (if Progress(s, step) then 1 else 0) <= Work(s)
  {
    match step
    case Deliver(a) => FlightsMove(s.flights, s.claims, Flight(a, s.now));
    case Finish(t, _) => FlightsMove(s.flights, t, Flight(0, 0));
    case Crash(t, _) => FlightsMove(s.flights, t, Flight(0, 0));
    case _ =>
  }

  lemma {:induction false} WorkBoundsProgress(s: Delivery, steps: seq<Step>)
    requires Counted(s) && NoSend(steps)
    ensures Counted(Play(s, steps)) && Play(s, steps).sends == s.sends
    ensures Work(Play(s, steps)) + ProgressIn(s, steps) <= Work(s)
  {
    if steps != [] {
      var shorter := steps[..|steps| - 1];
      WorkBoundsProgress(s, shorter);
      CountedKept(Play(s, shorter), steps[|steps| - 1]);
      WorkShrinks(Play(s, shorter), steps[|steps| - 1]);
    }
  }

  // However long the system runs after a send, at most six of its steps claim or end an attempt.
  lemma CyclesEnd(s: Delivery, steps: seq<Step>)
    requires Untouched(s) && Idle(s) && NoSend(steps)
    ensures ProgressIn(Apply(s, Send(multiset{}, true)), steps) <= 6
  {
    CountedKept(s, Send(multiset{}, true));
    var start := Apply(s, Send(multiset{}, true));
    WorkBoundsProgress(start, steps);
    CountedKept(Play(start, steps), Tick(0));
  }

  // ----- Which invoices are stranded -----

  // Pending, nobody at work, and nothing short of a send ever claims an attempt again.
  ghost predicate Stranded(s: Delivery) {
    s.row.pending && s.flights == map[] && forall steps :: NoSend(steps) ==> Play(s, steps).claims == s.claims
  }

  // Nobody is at work, no job for the next attempt is around, and the row still says pending.
  ghost predicate Waiting(s: Delivery) {
    Regular(s) && s.flights == map[] && s.row.pending
    && forall a :: a in s.queue || a in s.cronBatch ==> a <= s.row.attempts
  }

  // The row is as in s, nobody works on it, and no job carries a later attempt.
  ghost predicate StandsAs(s: Delivery, r: Delivery) {
    r.row == s.row && r.claims == s.claims && r.flights == map[] && r.claimLog == s.claimLog
    && forall a :: a in r.queue || a in r.cronBatch ==> a <= s.row.attempts
  }

  lemma StandsOn(s: Delivery, r: Delivery, step: Step)
    requires Waiting(s) && !step.Send? && (s.row.lastError.None? || s.row.attempts == MAX_ATTEMPTS)
    requires StandsAs(s, r)
    ensures StandsAs(s, Apply(r, step))
  {
    if Enabled(r, step) {
      match step
      case Redeliver(a) => assert a in s.claimLog;
      case Deliver(a) => assert a <= s.row.attempts;
      case _ =>
    }
  }

  lemma {:induction false} StrandedStays(s: Delivery, steps: seq<Step>)
    requires Waiting(s) && NoSend(steps) && (s.row.lastError.None? || s.row.attempts == MAX_ATTEMPTS)
    ensures StandsAs(s, Play(s, steps))
  {
    if steps != [] {
      StrandedStays(s, steps[..|steps| - 1]);
      StandsOn(s, Play(s, steps[..|steps| - 1]), steps[|steps| - 1]);
    }
  }

  lemma CronRevives(s: Delivery) returns (steps: seq<Step>)
    requires CronPicks(s.row, s.now + Mins(15))
    ensures NoSend(steps) && Play(s, steps).claims > s.claims
  {
    var next := s.row.attempts + 1;
    var waited, read, added, q := CronRoundEffect(s);
    steps := PlayTo(s, [], Tick(Mins(15)), waited);
    steps := PlayTo(s, steps, CronRead, read);
    steps := PlayTo(s, steps, CronAdd(next), added);
    steps := PlayTo(s, steps, Deliver(next), q);
  }

  // A waiting invoice gets another attempt, if and only if an error is on record and fewer than three
  // attempts were made. A first job that never reached the queue, and a worker that dies in its first
  // or third attempt, leave it pending forever.
  lemma StrandedExactlyWithoutRecordedError(s: Delivery)
    requires Waiting(s)
    ensures (exists steps :: NoSend(steps) && Play(s, steps).claims > s.claims)
            <==> s.row.lastError.Some? && s.row.attempts < MAX_ATTEMPTS
  {
    if s.row.lastError.Some? && s.row.attempts < MAX_ATTEMPTS {
      var steps := CronRevives(s);
    } else {
      forall steps | NoSend(steps)
        ensures Play(s, steps).claims == s.claims
      {
        StrandedStays(s, steps);
      }
    }
  }

  // What could still make the next attempt: a job for it, or a row the cron takes up.
  predicate NextIsPossible(s: Delivery) {
    s.row.attempts < MAX_ATTEMPTS
    && (s.row.lastError.Some? || s.row.attempts + 1 in s.queue || s.row.attempts + 1 in s.cronBatch)
  }

  lemma QueuedIsClaimed(s: Delivery)
    requires s.row.pending && 0 <= s.row.attempts < MAX_ATTEMPTS && s.row.attempts + 1 in s.queue
    ensures Apply(s, Deliver(s.row.attempts + 1)).claims == s.claims + 1
  {
  }

  lemma CronJobIsClaimed(s: Delivery) returns (steps: seq<Step>)
    requires s.row.pending && 0 <= s.row.attempts < MAX_ATTEMPTS && s.row.attempts + 1 in s.cronBatch
    ensures NoSend(steps) && Play(s, steps).claims == s.claims + 1
  {
    var next := s.row.attempts + 1;
    var added := s.(cronBatch := s.cronBatch - multiset{next}, queue := s.queue + multiset{next});
    QueuedIsClaimed(added);
    steps := PlayTo(s, [], CronAdd(next), added);
    steps := PlayTo(s, steps, Deliver(next), Apply(added, Deliver(next)));
  }

  lemma PossibleNextIsClaimed(s: Delivery) returns (steps: seq<Step>)
    requires Regular(s) && s.row.pending && NextIsPossible(s)
    ensures NoSend(steps) && Play(s, steps).claims > s.claims
  {
    var next := s.row.attempts + 1;
    if s.row.lastError.Some? {
      steps := CronRevives(s);
    } else if next in s.queue {
      QueuedIsClaimed(s);
      steps := PlayTo(s, [], Deliver(next), Apply(s, Deliver(next)));
    } else {
      steps := CronJobIsClaimed(s);
    }
  }

  // In every state of every cycle, crashes or not: a pending invoice nobody works on is stranded if and only
  // if there is neither a job for its next attempt nor a recorded error, or no attempt is left.
  lemma StrandedExactly(s: Delivery)
    requires Regular(s)
    ensures Stranded(s) <==> s.row.pending && s.flights == map[] && !NextIsPossible(s)
  {
    if s.row.pending && s.flights == map[] {
      if NextIsPossible(s) {
        var steps := PossibleNextIsClaimed(s);
      } else {
        forall steps | NoSend(steps)
          ensures Play(s, steps).claims == s.claims
        {
          StrandedStays(s, steps);
        }
      }
    }
  }

  predicate NoCrash(steps: seq<Step>) {
    forall i :: 0 <= i < |steps| ==> !steps[i].Crash?
  }

  // Before the first claim there is one job, the first, and it is queued at most once.
  predicate FirstJobOnly(s: Delivery) {
    s.row.attempts == 0 ==> s.row.pending && s.flights == map[] && s.cronBatch == multiset{} && s.claimLog == []
                            && (s.queue == multiset{} || s.queue == multiset{1})
  }

  // An attempt behind a pending row has left its error, or is still at work.
  predicate ErrorOrFlight(s: Delivery) {
    s.row.pending && s.row.attempts >= 1 && s.row.lastError.None? ==> s.flights != map[]
  }

  // No attempt was made and no job is left to make one.
  predicate Gone(s: Delivery) {
    s.row.attempts == 0 && s.queue == multiset{}
  }

  // All attempts were made, none is at work, and the row says pending again.
  predicate Stuck(s: Delivery) {
    s.row.pending && s.flights == map[] && s.row.attempts == MAX_ATTEMPTS
  }

  // The step takes the first job out of the queue before anybody claimed it.
  predicate LosesFirstJob(s: Delivery, step: Step) {
    s.row.attempts == 0 && step == Lose(1)
  }

  // The step ends an earlier attempt in failure, as the last one at work, when the third was claimed already.
  predicate LandsLate(s: Delivery, step: Step) {
    step.Finish? && step.outcome.Failed? && s.flights.Keys == {step.ticket}
    && s.flights[step.ticket].attempt < MAX_ATTEMPTS == s.row.attempts
  }

  // Somewhere in the run the first job was lost before its claim.
  predicate FirstJobLost(s: Delivery, steps: seq<Step>) {
    && steps != []
    && var shorter := steps[..|steps| - 1];
    FirstJobLost(s, shorter) || LosesFirstJob(Play(s, shorter), steps[|steps| - 1])
  }

  // Somewhere in the run an earlier attempt failed after all others, the third among them, had ended.
  predicate FailsLate(s: Delivery, steps: seq<Step>) {
    && steps != []
    && var shorter := steps[..|steps| - 1];
    FailsLate(s, shorter) || LandsLate(Play(s, shorter), steps[|steps| - 1])
  }

  lemma FirstJobOnlyKept(s: Delivery, step: Step)
    requires Regular(s) && FirstJobOnly(s) && !step.Send?
    ensures FirstJobOnly(Apply(s, step))
    ensures Gone(Apply(s, step)) <==> Gone(s) || LosesFirstJob(s, step)
  {
    if s.row.attempts == 0 && Enabled(s, step) {
      match step
      case Deliver(a) => assert a == 1 && Claimable(s.row, a);
      case Lose(a) => assert a == 1 && s.queue - multiset{1} == multiset{};
      case _ =>
    }
  }

  lemma ErrorOrFlightKept(s: Delivery, step: Step)
    requires ErrorOrFlight(s) && !step.Send? && !step.Crash?
    ensures ErrorOrFlight(Apply(s, step))
  {
    if step.Deliver? && Enabled(s, step) && Claimable(s.row, step.attempt) {
      assert s.claims in Apply(s, step).flights;
    }
  }

  lemma LastLanding(flights: map<nat, Flight>, t: nat)
    requires t in flights
    ensures flights - {t} == map[] <==> flights.Keys == {t}
  {
    if flights.Keys != {t} {
      var u :| u in flights && u != t;
      assert u in flights - {t};
    }
  }

  lemma StuckExactly(s: Delivery, step: Step)
    requires Regular(s) && !step.Send? && !step.Crash?
    ensures Stuck(Apply(s, step)) <==> Stuck(s) || LandsLate(s, step)
  {
    if Enabled(s, step) {
      match step
      case Finish(t, _) => LastLanding(s.flights, t);
      case Deliver(a) =>
        if Claimable(s.row, a) {
          assert s.claims in Apply(s, step).flights;
        }
      case _ =>
    }
  }

  // Without crashes the lost first job and the late failure are all that leads to the two states nothing
  // takes up, and they last.
  lemma {:induction false} WithoutCrashes(s: Delivery, steps: seq<Step>)
    requires Idle(s) && NoSend(steps) && NoCrash(steps)
    ensures var r := Cycle(s, steps);
            && Regular(r) && FirstJobOnly(r) && ErrorOrFlight(r)
            && (Gone(r) <==> FirstJobLost(Sending(s, true), steps))
            && (Stuck(r) <==> FailsLate(Sending(s, true), steps))
  {
    CycleIsRegular(s, steps);
    if steps == [] {
      assert 1 in multiset{1};
    } else {
      var shorter, last := steps[..|steps| - 1], steps[|steps| - 1];
      assert last in steps;
      WithoutCrashes(s, shorter);
      FirstJobOnlyKept(Cycle(s, shorter), last);
      ErrorOrFlightKept(Cycle(s, shorter), last);
      StuckExactly(Cycle(s, shorter), last);
    }
  }

  // Without crashes an invoice is stranded if and only if its first job was lost from the queue before
  // anybody claimed it, or an earlier attempt failed after the third had ended.
  lemma StrandedWithoutCrashExactly(s: Delivery, steps: seq<Step>)
    requires Idle(s) && NoSend(steps) && NoCrash(steps)
    ensures Stranded(Cycle(s, steps)) <==>
            FirstJobLost(Sending(s, true), steps) || FailsLate(Sending(s, true), steps)
  {
    WithoutCrashes(s, steps);
    StrandedExactly(Cycle(s, steps));
  }

  // In every other run the cron takes up an unsettled invoice with an attempt behind it 15 minutes later.
  lemma NoCrashNoStranding(s: Delivery, steps: seq<Step>)
    requires Idle(s) && NoSend(steps) && NoCrash(steps)
    requires !FirstJobLost(Sending(s, true), steps) && !FailsLate(Sending(s, true), steps)
    ensures var r := Cycle(s, steps);
            r.flights == map[] && r.row.pending ==>
              if r.row.attempts == 0 then 1 in r.queue
              else forall later :: later >= r.now + Mins(15) ==> CronPicks(r.row, later)
  {
    WithoutCrashes(s, steps);
  }

  // ----- What slow attempts lead to -----

  // The third attempt ends first, then the second fails.
  lemma SecondFailsLast(s: Delivery, outcome: Outcome) returns (third: Delivery, last: Delivery)
    requires s.flights.Keys == {1, 2} && s.flights[1].attempt == 2 && s.flights[2].attempt == 3
    requires s.row.attempts == MAX_ATTEMPTS && CanEnd(s, 2, outcome)
    ensures third == Apply(s, Finish(2, outcome)) && last == Apply(third, Finish(1, Failed("")))
    ensures third.flights.Keys == {1} && third.flights[1] == s.flights[1] && third.now == s.now
    ensures LandsLate(third, Finish(1, Failed("")))
    ensures Stuck(last) && last.row.failedAt.None? && last.row.sentAt == third.row.sentAt
    ensures outcome.Sent? ==> third.row.sentAt.Some? && !third.row.pending
  {
    third := Apply(s, Finish(2, outcome));
    last := Apply(third, Finish(1, Failed("")));
    LastLanding(third.flights, 1);
  }

  // The second and the third attempt at work together, and the third can end in the way wanted.
  lemma ThirdCanEnd(s: Delivery, limit: int, outcome: Outcome) returns (steps: seq<Step>)
    requires Idle(s) && limit > Mins(15)
    ensures Smooth(steps) && Prompt(s, steps, limit)
    ensures var r := Cycle(s, steps);
            && r.flights.Keys == {1, 2} && r.flights[1].attempt == 2 && r.flights[2].attempt == 3
            && r.row.attempts == MAX_ATTEMPTS && CanEnd(r, 2, outcome)
  {
    steps := SlowAttemptsOverlap(s, limit);
    if outcome.Sent? {
      PromptGrows(s, steps, CallProvider(2), limit);
      steps := steps + [CallProvider(2)];
    }
  }

  // If attempts may take 15 minutes, one that fails after the third has ended strands its invoice without any
  // crash, loss or redelivery, and without marking it as failed; a delivered invoice is pending again.
  lemma SlowFailureStrands(s: Delivery, limit: int, outcome: Outcome) returns (before: seq<Step>, steps: seq<Step>)
    requires Idle(s) && limit > Mins(15)
    ensures steps == before + [Finish(2, outcome), Finish(1, Failed(""))] && CanEnd(Cycle(s, before), 2, outcome)
    ensures Smooth(steps) && Prompt(s, steps, limit) && FailsLate(Sending(s, true), steps)
    ensures var r := Cycle(s, steps);
            && Stranded(r) && r.row.pending && r.row.failedAt.None?
            && (outcome.Sent? ==> r.row.sentAt.Some? && !Apply(Cycle(s, before), Finish(2, outcome)).row.pending)
  {
    before := ThirdCanEnd(s, limit, outcome);
    var third, last := SecondFailsLast(Cycle(s, before), outcome);
    PromptGrows(s, before, Finish(2, outcome), limit);
    PromptGrows(s, before + [Finish(2, outcome)], Finish(1, Failed("")), limit);
    steps := before + [Finish(2, outcome)] + [Finish(1, Failed(""))];
    assert steps[..|steps| - 1] == before + [Finish(2, outcome)];
    StrandedWithoutCrashExactly(s, steps);
  }

  lemma {:induction false} PromptNeverFailsLate(s: Delivery, steps: seq<Step>)
    requires Idle(s) && NoSend(steps) && Prompt(s, steps, Mins(15))
    ensures !FailsLate(Sending(s, true), steps)
  {
    if steps != [] {
      PromptNeverFailsLate(s, steps[..|steps| - 1]);
      CycleIsOrderly(s, steps[..|steps| - 1]);
    }
  }

  // Only a lost first job strands an invoice without crashes, whatever the run, if and only if every attempt
  // ends within 15 minutes.
  lemma OnlyLossStrandsExactlyWithinFifteenMinutes(s: Delivery, limit: int)
    requires Idle(s)
    ensures (forall steps :: NoSend(steps) && NoCrash(steps) && Prompt(s, steps, limit) ==>
              (Stranded(Cycle(s, steps)) <==> FirstJobLost(Sending(s, true), steps)))
            <==> limit <= Mins(15)
  {
    if limit <= Mins(15) {
      forall steps | NoSend(steps) && NoCrash(steps) && Prompt(s, steps, limit)
        ensures Stranded(Cycle(s, steps)) <==> FirstJobLost(Sending(s, true), steps)
      {
        PromptWithin(s, steps, limit, Mins(15));
        PromptNeverFailsLate(s, steps);
        StrandedWithoutCrashExactly(s, steps);
      }
    } else {
      var before, steps := SlowFailureStrands(s, limit, Failed(""));
      SmoothLosesNothing(Sending(s, true), steps);
    }
  }

  lemma {:induction false} SmoothLosesNothing(s: Delivery, steps: seq<Step>)
    requires Smooth(steps)
    ensures !FirstJobLost(s, steps)
  {
    if steps != [] {
      SmoothLosesNothing(s, steps[..|steps| - 1]);
    }
  }

  // An attempt at work after before succeeds, and no attempt of the whole run stays at work as long as limit.
  ghost predicate SucceedsPromptly(s: Delivery, before: seq<Step>, ticket: nat, later: seq<Step>, limit: int) {
    CanEnd(Cycle(s, before), ticket, Sent) && Prompt(s, before + [Finish(ticket, Sent)] + later, limit)
  }

  // The row a success leaves behind is the row at the end of the run.
  ghost predicate FinalAfterSuccess(s: Delivery, before: seq<Step>, ticket: nat, later: seq<Step>) {
    Cycle(s, before + [Finish(ticket, Sent)] + later).row == Apply(Cycle(s, before), Finish(ticket, Sent)).row
  }

  lemma {:induction false} PromptBefore(s: Delivery, before: seq<Step>, later: seq<Step>, limit: int)
    requires Prompt(s, before + later, limit)
    ensures Prompt(s, before, limit)
  {
    if later == [] {
      assert before + later == before;
    } else {
      assert (before + later)[..|before + later| - 1] == before + later[..|later| - 1];
      PromptBefore(s, before, later[..|later| - 1], limit);
    }
  }

  lemma {:induction false} PlayOn(s: Delivery, before: seq<Step>, later: seq<Step>)
    ensures Play(s, before + later) == Play(Play(s, before), later)
  {
    if later == [] {
      assert before + later == before;
    } else {
      assert (before + later)[..|before + later| - 1] == before + later[..|later| - 1];
      PlayOn(s, before, later[..|later| - 1]);
    }
  }

  // A success is final in every cycle, if and only if every attempt ends within 15 minutes.
  lemma SuccessIsFinalExactlyWithinFifteenMinutes(s: Delivery, limit: int)
    requires Idle(s)
    ensures (forall before, ticket, later ::
              NoSend(before) && NoSend(later) && SucceedsPromptly(s, before, ticket, later, limit) ==>
                FinalAfterSuccess(s, before, ticket, later))
            <==> limit <= Mins(15)
  {
    if limit <= Mins(15) {
      forall before, ticket, later |
          NoSend(before) && NoSend(later) && SucceedsPromptly(s, before, ticket, later, limit)
        ensures FinalAfterSuccess(s, before, ticket, later)
      {
        PromptBefore(s, before + [Finish(ticket, Sent)], later, limit);
        PromptBefore(s, before, [Finish(ticket, Sent)], limit);
        PromptWithin(s, before, limit, Mins(15));
        NothingAfterSuccess(s, before, ticket, later);
        PlayStep(Sending(s, true), before, Finish(ticket, Sent));
        PlayOn(Sending(s, true), before + [Finish(ticket, Sent)], later);
      }
    } else {
      var before, steps := SlowFailureStrands(s, limit, Sent);
      var later := [Finish(1, Failed(""))];
      assert before + [Finish(2, Sent)] + later == steps;
      assert !FinalAfterSuccess(s, before, 2, later);
    }
  }

  // A send whose first job never reaches the queue strands its invoice at once, although the caller is
  // told it was queued, and whatever happens next short of another send.
  lemma UnqueuedSendStrands(s: Delivery, steps: seq<Step>)
    requires Idle(s) && NoSend(steps)
    ensures Stranded(Sending(s, false))
    ensures var r := Play(Sending(s, false), steps);
            r.row.pending && r.row.attempts == 0 && r.claims == 0 && forall later :: !CronPicks(r.row, later)
  {
    var start := Sending(s, false);
    assert Regular(start) && FirstJobOnly(start);
    StrandedExactly(start);
    StrandedStays(start, steps);
  }

  // A crash in the very first attempt strands the invoice, whether or not its job comes back.
  lemma FirstCrashStrands(s: Delivery, requeued: bool)
    requires Idle(s)
    ensures var r := Cycle(s, [Deliver(1), Crash(0, requeued)]); Waiting(r) && r.row.lastError.None?
  {
    var start := Apply(s, Send(multiset{}, true));
    PlayStep(start, [], Deliver(1));
    PlayStep(start, [Deliver(1)], Crash(0, requeued));
    assert [] + [Deliver(1)] == [Deliver(1)];
    assert [Deliver(1)] + [Crash(0, requeued)] == [Deliver(1), Crash(0, requeued)];
    var flying := Apply(start, Deliver(1));
    assert flying.flights == map[0 := Flight(1, s.now)];
    assert flying.flights - {0} == map[];
  }
}
