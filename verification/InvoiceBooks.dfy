/** Everything that writes an amount, one write at a time: each write is made by a request that read its rows
    earlier. Then whole requests, payment, the totals, and the code that does it. */
module InvoiceBooks {
  import opened Clock
  import opened Wrappers
  import opened InvoiceNumbers
  import opened InvoiceLedger

  // ----- Single writes -----

  /** seen, and seenJob, are the rows as the request read them before it wrote. forced says that a sync has
      a recipient to change as well, so that it writes even when the amounts agree. */
  datatype Write =
    | Billed(bill: Bill, year: nat, rivals: seq<seq<Bill>>)
    | JobWritten(jobId: nat, newFee: Option<int>, mileage: int)
    | SyncWritten(id: nat, seen: Invoice, fee: int, mileage: int, forced: bool)
    | FeeMirrored(jobId: nat, seenJob: BilledJob, fee: int)
    | FinalFeeWritten(id: nat, seen: Invoice, fee: int)
    | PaidWritten(id: nat, seen: Invoice)
    | JobCompleted(jobId: nat)
    | JobDeleted(jobId: nat)
    | JobAdded(fee: int, mileage: int)

  function WithAmounts(l: Ledger, i: nat, subtotal: int, travel: int): Ledger
    requires i < |l.invoices|
  {
    l.(invoices := l.invoices[i := l.invoices[i].(subtotal := subtotal, travel := travel, total := subtotal + travel)])
  }

  function WithFee(l: Ledger, jobId: nat, fee: int): Ledger
    requires jobId < |l.jobs|
  {
    l.(jobs := l.jobs[jobId := l.jobs[jobId].(fee := fee)])
  }

  predicate SyncWrites(seen: Invoice, fee: int, mileage: int, forced: bool) {
    !seen.paid && (forced || !(seen.subtotal == fee && seen.travel == mileage && seen.total == fee + mileage))
  }

  // The write to an invoice's amounts, if it is one that goes through: which invoice, subtotal and travel.
  function AmountWrite(l: Ledger, w: Write): Option<(nat, int, int)> {
    match w
    case SyncWritten(id, seen, fee, mileage, forced) =>
      if id < |l.invoices| && SyncWrites(seen, fee, mileage, forced) then Some((id, fee, mileage)) else None
    case FinalFeeWritten(id, seen, fee) =>
      if id < |l.invoices| && !seen.paid then Some((id, fee, 0)) else None
    case _ => None
  }

  // The write to a job's fee, likewise.
  function FeeWrite(l: Ledger, w: Write): Option<(nat, int)> {
    match w
    case JobWritten(jobId, newFee, _) =>
      if jobId < |l.jobs| then Some((jobId, newFee.GetOr(l.jobs[jobId].fee))) else None
    case FeeMirrored(jobId, seenJob, fee) =>
      if jobId < |l.jobs| && !seenJob.deleted && seenJob.fee != fee then Some((jobId, fee)) else None
    case _ => None
  }

  function Put(l: Ledger, w: Write): Ledger {
    match w
    case Billed(bill, year, rivals) =>
      if |rivals| == 5 && Year(year) then Generate(l, year, bill, rivals).ledger else l
    case JobWritten(jobId, _, mileage) =>
      if jobId >= |l.jobs| then l
      else WithFee(l.(jobs := l.jobs[jobId := l.jobs[jobId].(mileage := mileage)]), jobId, FeeWrite(l, w).value.1)
    case FeeMirrored(jobId, _, fee) => if FeeWrite(l, w).Some? then WithFee(l, jobId, fee) else l
    case SyncWritten(id, _, fee, mileage, _) => if AmountWrite(l, w).Some? then WithAmounts(l, id, fee, mileage) else l
    case FinalFeeWritten(id, _, fee) => if AmountWrite(l, w).Some? then WithAmounts(l, id, fee, 0) else l
    case PaidWritten(id, seen) =>
      if id >= |l.invoices| || seen.paid then l else l.(invoices := l.invoices[id := l.invoices[id].(paid := true)])
    case JobCompleted(jobId) =>
      if jobId >= |l.jobs| then l else l.(jobs := l.jobs[jobId := l.jobs[jobId].(complete := true)])
    case JobDeleted(jobId) =>
      if jobId >= |l.jobs| then l else l.(jobs := l.jobs[jobId := l.jobs[jobId].(deleted := true)])
    case JobAdded(fee, mileage) => l.(jobs := l.jobs + [BilledJob(fee, mileage, false, false)])
  }

  function Run(l: Ledger, ws: seq<Write>): Ledger {
    if ws == [] then l else Put(Run(l, ws[..|ws| - 1]), ws[|ws| - 1])
  }

  lemma RunMore(l: Ledger, ws: seq<Write>, n: nat)
    requires n < |ws|
    ensures Run(l, ws[..n + 1]) == Put(Run(l, ws[..n]), ws[n])
  {
    assert ws[..n + 1][..n] == ws[..n];
  }

  // ----- What every interleaving keeps -----

  ghost predicate AmountsAddUp(l: Ledger) {
    forall i :: 0 <= i < |l.invoices| ==> l.invoices[i].total == l.invoices[i].subtotal + l.invoices[i].travel
  }

  predicate JobsExist(l: Ledger) {
    forall i :: 0 <= i < |l.invoices| ==> l.invoices[i].jobId < |l.jobs|
  }

  ghost predicate OneInvoicePerJob(l: Ledger) {
    forall i, k :: 0 <= i < k < |l.invoices| ==> l.invoices[i].jobId != l.invoices[k].jobId
  }

  ghost predicate Shaped(l: Ledger) {
    JobsExist(l) && AmountsAddUp(l) && OneInvoicePerJob(l)
  }

  lemma DraftKeepsShape(l: Ledger, b: Bill, number: string)
    requires Shaped(l) && b.jobId < |l.jobs| && !HasInvoice(l.invoices, b.jobId)
    ensures Shaped(l.(invoices := l.invoices + [Draft(b, number)]))
  {
  }

  lemma {:induction false} RivalsKeepShape(l: Ledger, year: nat, rivals: seq<Bill>)
    requires Shaped(l)
    ensures Shaped(RivalCommits(l, year, rivals))
  {
    if rivals != [] {
      var before, b := RivalCommits(l, year, rivals[..|rivals| - 1]), rivals[|rivals| - 1];
      RivalsKeepShape(l, year, rivals[..|rivals| - 1]);
      if CanBill(before, b) && !HasInvoice(before.invoices, b.jobId) {
        DraftKeepsShape(before, b, Next(NumbersOf(before.invoices), year));
      }
    }
  }

  lemma {:induction false} CreateKeepsShape(l: Ledger, year: nat, b: Bill, rivals: seq<seq<Bill>>)
    requires Shaped(l) && b.jobId < |l.jobs|
    ensures Shaped(CreateLoop(l, year, b, rivals).ledger)
    decreases |rivals|
  {
    if rivals != [] {
      var met, t := RivalCommits(l, year, rivals[0]), Attempt(l, year, b, rivals[0]);
      RivalsKeepJobs(l, year, rivals[0]);
      RivalsKeepShape(l, year, rivals[0]);
      if !HasInvoice(met.invoices, b.jobId) {
        DraftKeepsShape(met, b, Next(NumbersOf(l.invoices), year));
      }
      if t.invoice.None? {
        CreateKeepsShape(t.ledger, year, b, rivals[1..]);
      }
    }
  }

  lemma ShapeKept(l: Ledger, w: Write)
    requires Shaped(l)
    ensures Shaped(Put(l, w))
  {
    match w
    case Billed(bill, year, rivals) =>
      if bill.jobId < |l.jobs| {
        CreateKeepsShape(l, year, bill, rivals);
      }
    case _ =>
  }

  // Over every interleaving of writes, whatever their requests had read: each total is subtotal plus
  // travel, and no job is billed twice.
  lemma {:induction false} EveryRunKeepsItsShape(ws: seq<Write>)
    ensures Shaped(Run(Ledger([], []), ws))
  {
    if ws != [] {
      EveryRunKeepsItsShape(ws[..|ws| - 1]);
      ShapeKept(Run(Ledger([], []), ws[..|ws| - 1]), ws[|ws| - 1]);
    }
  }

  lemma NumbersUnchanged(l: Ledger, w: Write)
    requires !w.Billed?
    ensures NumbersOf(Put(l, w).invoices) == NumbersOf(l.invoices)
  {
    assert |NumbersOf(Put(l, w).invoices)| == |NumbersOf(l.invoices)|;
  }

  // And each year's invoices are numbered from 1 without a gap.
  lemma {:induction false} EveryRunIsGapless(ws: seq<Write>, year: nat) returns (count: nat)
    requires Year(year)
    ensures Gapless(Run(Ledger([], []), ws), year, count)
  {
    count := 0;
    if ws != [] {
      var before, w := Run(Ledger([], []), ws[..|ws| - 1]), ws[|ws| - 1];
      count := EveryRunIsGapless(ws[..|ws| - 1], year);
      if !w.Billed? {
        NumbersUnchanged(before, w);
      } else if |w.rivals| == 5 && Year(w.year) {
        var own := EveryRunIsGapless(ws[..|ws| - 1], w.year);
        var more := GenerateKeepsGapless(before, w.year, w.bill, w.rivals, own, year, count);
        count := count + more;
      }
    }
  }

  // ----- Paid invoices -----

  // A write to the amounts of an invoice already paid, other than those on its row.
  predicate ChangesPaid(l: Ledger, w: Write) {
    match AmountWrite(l, w)
    case None => false
    case Some((i, subtotal, travel)) =>
      var row := l.invoices[i];
      row.paid && !(row.subtotal == subtotal && row.travel == travel && row.total == subtotal + travel)
  }

  // The paid invoices of l are all still there and as they were.
  predicate PaidKept(l: Ledger, next: Ledger) {
    forall i :: 0 <= i < |l.invoices| && l.invoices[i].paid ==> i < |next.invoices| && next.invoices[i] == l.invoices[i]
  }

  lemma PaidKeptExactly(l: Ledger, w: Write)
    ensures PaidKept(l, Put(l, w)) <==> !ChangesPaid(l, w)
  {
    if w.Billed? {
      CreateOnlyAppends(l, w.year, w.bill, w.rivals);
    } else if AmountWrite(l, w).Some? {
      var i := AmountWrite(l, w).value.0;
      assert Put(l, w).invoices[i].paid == l.invoices[i].paid;
    }
  }

  // Every state of the run keeps the invoices paid in any state before it.
  ghost predicate PaidIsFrozen(l: Ledger, ws: seq<Write>) {
    forall n, m :: 0 <= n <= m <= |ws| ==> PaidKept(Run(l, ws[..n]), Run(l, ws[..m]))
  }

  ghost predicate NoPaidChange(l: Ledger, ws: seq<Write>) {
    forall n :: 0 <= n < |ws| ==> !ChangesPaid(Run(l, ws[..n]), ws[n])
  }

  lemma PaidKeptTwice(a: Ledger, b: Ledger, c: Ledger)
    requires PaidKept(a, b) && PaidKept(b, c)
    ensures PaidKept(a, c)
  {
  }

  lemma PaidKeptOnce(l: Ledger, ws: seq<Write>, n: nat)
    requires NoPaidChange(l, ws) && n < |ws|
    ensures PaidKept(Run(l, ws[..n]), Run(l, ws[..n + 1]))
  {
    RunMore(l, ws, n);
    PaidKeptExactly(Run(l, ws[..n]), ws[n]);
  }

  function States(l: Ledger, ws: seq<Write>): seq<Ledger> {
    seq(|ws| + 1, n requires 0 <= n <= |ws| => Run(l, ws[..n]))
  }

  predicate NextKeepsPaid(states: seq<Ledger>, k: nat) {
    k + 1 < |states| ==> PaidKept(states[k], states[k + 1])
  }

  lemma {:induction false} PaidKeptAlong(states: seq<Ledger>, n: nat, m: nat)
    requires n <= m < |states| && forall k :: 0 <= k < |states| ==> NextKeepsPaid(states, k)
    ensures PaidKept(states[n], states[m])
    decreases m
  {
    if n < m {
      PaidKeptAlong(states, n, m - 1);
      assert NextKeepsPaid(states, m - 1);
      PaidKeptTwice(states[n], states[m - 1], states[m]);
    }
  }

  lemma PaidKeptOverRun(l: Ledger, ws: seq<Write>, n: nat, m: nat)
    requires NoPaidChange(l, ws) && n <= m <= |ws|
    ensures PaidKept(Run(l, ws[..n]), Run(l, ws[..m]))
  {
    var states := States(l, ws);
    forall k | 0 <= k < |states|
      ensures NextKeepsPaid(states, k)
    {
      if k < |ws| {
        PaidKeptOnce(l, ws, k);
      }
    }
    PaidKeptAlong(states, n, m);
  }

  // Over a run of writes paid invoices are frozen if and only if no write to an invoice's amounts finds it
  // paid, unless it writes the amounts that are there.
  lemma PaidIsFrozenExactly(l: Ledger, ws: seq<Write>)
    ensures PaidIsFrozen(l, ws) <==> NoPaidChange(l, ws)
  {
    if NoPaidChange(l, ws) {
      forall n, m | 0 <= n <= m <= |ws|
        ensures PaidKept(Run(l, ws[..n]), Run(l, ws[..m]))
      {
        PaidKeptOverRun(l, ws, n, m);
      }
    }
    if PaidIsFrozen(l, ws) {
      forall n | 0 <= n < |ws|
        ensures !ChangesPaid(Run(l, ws[..n]), ws[n])
      {
        assert PaidKept(Run(l, ws[..n]), Run(l, ws[..n + 1]));
        RunMore(l, ws, n);
        PaidKeptExactly(Run(l, ws[..n]), ws[n]);
      }
    }
  }

  // Nobody pays an invoice between another request's reading it and writing its amounts.
  ghost predicate NoPaymentBetween(l: Ledger, ws: seq<Write>) {
    forall n :: 0 <= n < |ws| && AmountWrite(Run(l, ws[..n]), ws[n]).Some? ==>
                  ws[n].seen.paid == Run(l, ws[..n]).invoices[ws[n].id].paid
  }

  // What changes a paid invoice is an edit or a sync that had read it unpaid.
  lemma PaidChangeReadUnpaid(l: Ledger, w: Write)
    requires ChangesPaid(l, w)
    ensures (w.SyncWritten? || w.FinalFeeWritten?) && w.id < |l.invoices|
    ensures w.seen.paid != l.invoices[w.id].paid
  {
  }

  // So paid invoices are frozen as long as no payment falls between a read and its write.
  lemma PaidIsForever(l: Ledger, ws: seq<Write>)
    requires NoPaymentBetween(l, ws)
    ensures PaidIsFrozen(l, ws)
  {
    if n: nat :| n < |ws| && ChangesPaid(Run(l, ws[..n]), ws[n]) {
      PaidChangeReadUnpaid(Run(l, ws[..n]), ws[n]);
      assert false;
    }
    PaidIsFrozenExactly(l, ws);
  }

  // An edit that read an invoice unpaid and writes after its payment changes what was paid.
  lemma LateEditChangesPaid(l: Ledger, id: nat, fee: int) returns (ws: seq<Write>)
    requires id < |l.invoices| && !l.invoices[id].paid && l.invoices[id].subtotal != fee
    ensures |ws| == 2 && ws[0].PaidWritten? && ws[0].seen == l.invoices[id]
    ensures ws[1].FinalFeeWritten? && ws[1].seen == l.invoices[id]
    ensures id < |Run(l, ws[..1]).invoices| && id < |Run(l, ws).invoices|
    ensures var paid, q := Run(l, ws[..1]).invoices[id], Run(l, ws).invoices[id];
            paid.paid && q.paid && paid.subtotal == l.invoices[id].subtotal && q.subtotal == fee
    ensures !PaidIsFrozen(l, ws)
  {
    ws := [PaidWritten(id, l.invoices[id]), FinalFeeWritten(id, l.invoices[id], fee)];
    assert ws[..0] == [] && ws[..2] == ws;
    RunMore(l, ws, 0);
    RunMore(l, ws, 1);
    assert !PaidKept(Run(l, ws[..1]), Run(l, ws[..2]));
  }

  // ----- Invoices follow their job's fee -----

  // An unpaid invoice of a job that still exists bills the fee the job has.
  ghost predicate OpenFollowsFee(l: Ledger)
    requires JobsExist(l)
  {
    forall i :: 0 <= i < |l.invoices| && !l.invoices[i].paid && !l.jobs[l.invoices[i].jobId].deleted ==>
                  l.invoices[i].subtotal == l.jobs[l.invoices[i].jobId].fee
  }

  ghost predicate Sound(l: Ledger) {
    Shaped(l) && OpenFollowsFee(l)
  }

  predicate HasOpenInvoice(l: Ledger, jobId: nat) {
    var i := InvoiceOf(l.invoices, jobId);
    jobId < |l.jobs| && !l.jobs[jobId].deleted && i < |l.invoices| && !l.invoices[i].paid
  }

  // No open invoice bills another fee than the one written to its job.
  predicate FeeAgrees(l: Ledger, jobId: nat, fee: int)
    requires jobId < |l.jobs|
  {
    HasOpenInvoice(l, jobId) ==> fee == l.jobs[jobId].fee
  }

  // A fee may be written to a job only if no open invoice bills another, and a subtotal to an open invoice
  // only if it is its job's fee.
  predicate FollowsFee(l: Ledger, w: Write)
    requires JobsExist(l)
  {
    var (f, a) := (FeeWrite(l, w), AmountWrite(l, w));
    && (f.Some? ==> FeeAgrees(l, f.value.0, f.value.1))
    && (a.Some? ==> FeeAgrees(l, l.invoices[a.value.0].jobId, a.value.1))
  }

  lemma OwnInvoice(l: Ledger, i: nat)
    requires OneInvoicePerJob(l) && i < |l.invoices|
    ensures InvoiceOf(l.invoices, l.invoices[i].jobId) == i
  {
  }

  lemma FeeWriteKeepsExactly(l: Ledger, jobId: nat, fee: int)
    requires Sound(l) && jobId < |l.jobs|
    ensures OpenFollowsFee(WithFee(l, jobId, fee)) <==> FeeAgrees(l, jobId, fee)
  {
    var i := InvoiceOf(l.invoices, jobId);
    if HasOpenInvoice(l, jobId) && fee != l.jobs[jobId].fee {
      assert !l.invoices[i].paid && l.invoices[i].subtotal == l.jobs[jobId].fee;
    }
  }

  lemma AmountWriteKeepsExactly(l: Ledger, i: nat, subtotal: int, travel: int)
    requires Sound(l) && i < |l.invoices|
    ensures OpenFollowsFee(WithAmounts(l, i, subtotal, travel)) <==> FeeAgrees(l, l.invoices[i].jobId, subtotal)
  {
    OwnInvoice(l, i);
    var next := WithAmounts(l, i, subtotal, travel);
    assert next.invoices[i].jobId == l.invoices[i].jobId && next.invoices[i].paid == l.invoices[i].paid;
  }

  lemma JobWriteKeepsExactly(l: Ledger, w: Write)
    requires Sound(l) && w.JobWritten? && w.jobId < |l.jobs|
    ensures JobsExist(Put(l, w))
    ensures OpenFollowsFee(Put(l, w)) <==> FeeAgrees(l, w.jobId, w.newFee.GetOr(l.jobs[w.jobId].fee))
  {
    var moved := l.(jobs := l.jobs[w.jobId := l.jobs[w.jobId].(mileage := w.mileage)]);
    assert Sound(moved) && (HasOpenInvoice(moved, w.jobId) <==> HasOpenInvoice(l, w.jobId));
    FeeWriteKeepsExactly(moved, w.jobId, w.newFee.GetOr(l.jobs[w.jobId].fee));
  }

  // A single write leaves open invoices at their job's fee exactly under this guard. An edit of a job with
  // an open invoice breaks it until its sync follows.
  lemma WriteKeepsFeeExactly(l: Ledger, w: Write)
    requires Sound(l) && !w.Billed?
    ensures JobsExist(Put(l, w)) && (OpenFollowsFee(Put(l, w)) <==> FollowsFee(l, w))
  {
    ShapeKept(l, w);
    match w
    case JobWritten(jobId, _, mileage) =>
      if jobId < |l.jobs| {
        JobWriteKeepsExactly(l, w);
      }
    case FeeMirrored(jobId, _, fee) =>
      if FeeWrite(l, w).Some? {
        FeeWriteKeepsExactly(l, jobId, fee);
      }
    case SyncWritten(id, _, fee, mileage, _) =>
      if AmountWrite(l, w).Some? {
        AmountWriteKeepsExactly(l, id, fee, mileage);
      }
    case FinalFeeWritten(id, _, fee) =>
      if AmountWrite(l, w).Some? {
        AmountWriteKeepsExactly(l, id, fee, 0);
      }
    case _ =>
  }

  // An insert does if and only if the job still has the fee that was read, or is deleted.
  lemma InsertKeepsFeeExactly(l: Ledger, b: Bill, number: string)
    requires Sound(l) && b.jobId < |l.jobs| && !HasInvoice(l.invoices, b.jobId)
    ensures Sound(l.(invoices := l.invoices + [Draft(b, number)])) <==>
            l.jobs[b.jobId].deleted || b.seen.fee == l.jobs[b.jobId].fee
  {
    var next := l.(invoices := l.invoices + [Draft(b, number)]);
    DraftKeepsShape(l, b, number);
    assert next.invoices[|l.invoices|] == Draft(b, number);
    assert forall i :: 0 <= i < |l.invoices| ==> next.invoices[i] == l.invoices[i];
  }

  // A job edited between a generate's reading it and its insert is billed at its old fee: the edit finds no
  // invoice to bring up to date.
  lemma StaleBillMissesTheEdit(l: Ledger, jobId: nat, fee: int, year: nat, count: nat) returns (ws: seq<Write>)
    requires Sound(l) && jobId < |l.jobs| && Billable(l.jobs[jobId]) && !HasInvoice(l.invoices, jobId)
    requires Gapless(l, year, count) && count < 10000 && fee != l.jobs[jobId].fee
    ensures |ws| == 2 && ws[0] == JobWritten(jobId, Some(fee), l.jobs[jobId].mileage)
    ensures ws[1].Billed? && ws[1].bill == Bill(jobId, l.jobs[jobId])
    ensures JobsExist(Run(l, ws)) && !OpenFollowsFee(Run(l, ws))
  {
    var quiet: seq<seq<Bill>> := seq(5, _ => []);
    var b := Bill(jobId, l.jobs[jobId]);
    ws := [JobWritten(jobId, Some(fee), l.jobs[jobId].mileage), Billed(b, year, quiet)];
    assert ws[..0] == [] && ws[..2] == ws;
    RunMore(l, ws, 0);
    RunMore(l, ws, 1);
    var edited := Run(l, ws[..1]);
    NextIsFreshExactly(NumbersOf(edited.invoices), year, count);
    assert quiet[0] == [] && RivalCommits(edited, year, quiet[0]) == edited;
    var q := Attempt(edited, year, b, quiet[0]).ledger;
    assert q.invoices[|l.invoices|] == Draft(b, Next(NumbersOf(edited.invoices), year));
    assert Run(l, ws) == q;
    ShapeKept(l, ws[0]);
    ShapeKept(edited, ws[1]);
  }

  // ----- Whole requests, one at a time -----

  datatype Request =
    | GenerateFor(jobId: nat, year: nat, rivals: seq<seq<nat>>)
    | EditJob(jobId: nat, newFee: Option<int>, mileage: int)   // a job edit that recomputes its money
    | EditInvoice(id: nat, finalFee: Option<int>)
    | Pay(id: nat)
    | CompleteJob(jobId: nat)
    | DeleteJob(jobId: nat)
    | AddJob(fee: int, mileage: int)

  // A bill for a job as it is now.
  function BillNow(l: Ledger, jobId: nat): Bill {
    Bill(jobId, if jobId < |l.jobs| then l.jobs[jobId] else BilledJob(0, 0, false, true))
  }

  function BillsNow(l: Ledger, jobIds: seq<nat>): seq<Bill> {
    seq(|jobIds|, i requires 0 <= i < |jobIds| => BillNow(l, jobIds[i]))
  }

  function RivalsNow(l: Ledger, rivals: seq<seq<nat>>): seq<seq<Bill>> {
    seq(|rivals|, i requires 0 <= i < |rivals| => BillsNow(l, rivals[i]))
  }

  // The writes of one request, each finding what it read; concurrent generates stay concurrent.
  function Serve(l: Ledger, q: Request): Ledger {
    match q
    case GenerateFor(jobId, year, rivals) => Put(l, Billed(BillNow(l, jobId), year, RivalsNow(l, rivals)))
    case EditJob(jobId, newFee, mileage) =>
      if jobId >= |l.jobs| || l.jobs[jobId].deleted then l
      else
        var edited := Put(l, JobWritten(jobId, newFee, mileage));
        var i := InvoiceOf(edited.invoices, jobId);
        if i == |edited.invoices| then edited
        else Put(edited, SyncWritten(i, edited.invoices[i], newFee.GetOr(l.jobs[jobId].fee), mileage, false))
    case EditInvoice(id, finalFee) =>
      if id >= |l.invoices| || finalFee.None? || l.invoices[id].paid then l
      else
        var row := l.invoices[id];
        var mirrored := if row.jobId >= |l.jobs| then l
                        else Put(l, FeeMirrored(row.jobId, l.jobs[row.jobId], finalFee.value));
        Put(mirrored, FinalFeeWritten(id, row, finalFee.value))
    case Pay(id) => if id >= |l.invoices| then l else Put(l, PaidWritten(id, l.invoices[id]))
    case CompleteJob(jobId) => Put(l, JobCompleted(jobId))
    case DeleteJob(jobId) => Put(l, JobDeleted(jobId))
    case AddJob(fee, mileage) => Put(l, JobAdded(fee, mileage))
  }

  // What an edit of a job leaves: the job with its fee, the new one or the old, and its mileage; its open invoice
  // with that fee, that mileage as travel, and both together; every other row as it was.
  lemma EditJobWrites(l: Ledger, jobId: nat, newFee: Option<int>, mileage: int, fee: int)
    requires Shaped(l) && jobId < |l.jobs| && !l.jobs[jobId].deleted
    requires if newFee.Some? then fee == newFee.value else fee == l.jobs[jobId].fee
    ensures var next := Serve(l, EditJob(jobId, newFee, mileage));
            && |next.jobs| == |l.jobs| && |next.invoices| == |l.invoices|
            && next.jobs[jobId] == l.jobs[jobId].(fee := fee, mileage := mileage)
            && (forall k :: 0 <= k < |l.jobs| && k != jobId ==> next.jobs[k] == l.jobs[k])
            && (forall i :: 0 <= i < |l.invoices| ==>
                  var row := l.invoices[i];
                  next.invoices[i] == if row.jobId == jobId && !row.paid
                                      then row.(subtotal := fee, travel := mileage, total := fee + mileage) else row)
  {
    forall i | 0 <= i < |l.invoices| && l.invoices[i].jobId == jobId
      ensures InvoiceOf(l.invoices, jobId) == i
    {
      OwnInvoice(l, i);
    }
    var edited := Put(l, JobWritten(jobId, newFee, mileage));
    var i := InvoiceOf(l.invoices, jobId);
    assert edited.invoices == l.invoices;
    if i < |l.invoices| && !l.invoices[i].paid {
      SyncEffect(edited, i, fee, mileage);
    }
  }

  // What a final fee leaves: an open invoice of that fee alone, without travel, and its job with that fee unless it
  // was deleted; every other row as it was. A paid invoice and its job stay as they are.
  lemma EditInvoiceWrites(l: Ledger, id: nat, fee: int)
    requires Shaped(l) && id < |l.invoices|
    ensures var next, jobId := Serve(l, EditInvoice(id, Some(fee))), l.invoices[id].jobId;
            if l.invoices[id].paid then next == l
            else && next.invoices == l.invoices[id := l.invoices[id].(subtotal := fee, travel := 0, total := fee)]
                 && next.jobs == (if l.jobs[jobId].deleted then l.jobs else l.jobs[jobId := l.jobs[jobId].(fee := fee)])
    ensures Serve(l, EditInvoice(id, None)) == l
  {
    var jobId := l.invoices[id].jobId;
    if l.jobs[jobId].fee == fee {
      assert l.jobs[jobId := l.jobs[jobId].(fee := fee)] == l.jobs;
    }
  }

  // And what the others leave.
  lemma PlainRequestsWrite(l: Ledger, i: nat, fee: int, mileage: int)
    ensures i < |l.invoices| ==> Serve(l, Pay(i)) == Ledger(l.jobs, l.invoices[i := l.invoices[i].(paid := true)])
    ensures i < |l.jobs| ==> Serve(l, CompleteJob(i)) == Ledger(l.jobs[i := l.jobs[i].(complete := true)], l.invoices)
    ensures i < |l.jobs| ==> Serve(l, DeleteJob(i)) == Ledger(l.jobs[i := l.jobs[i].(deleted := true)], l.invoices)
    ensures Serve(l, AddJob(fee, mileage)) == Ledger(l.jobs + [BilledJob(fee, mileage, false, false)], l.invoices)
  {
    if i < |l.invoices| && l.invoices[i].paid {
      assert l.invoices[i := l.invoices[i].(paid := true)] == l.invoices;
    }
  }

  function Served(l: Ledger, qs: seq<Request>): Ledger {
    if qs == [] then l else Serve(Served(l, qs[..|qs| - 1]), qs[|qs| - 1])
  }

  ghost predicate AllNow(l: Ledger, bills: seq<Bill>) {
    forall i :: 0 <= i < |bills| && bills[i].jobId < |l.jobs| ==> bills[i].seen == l.jobs[bills[i].jobId]
  }

  lemma {:induction false} RivalsKeepSound(l: Ledger, year: nat, rivals: seq<Bill>)
    requires Sound(l) && AllNow(l, rivals)
    ensures Sound(RivalCommits(l, year, rivals))
  {
    if rivals != [] {
      var shorter, b := rivals[..|rivals| - 1], rivals[|rivals| - 1];
      var before := RivalCommits(l, year, shorter);
      assert forall i :: 0 <= i < |shorter| ==> shorter[i] == rivals[i];
      RivalsKeepSound(l, year, shorter);
      RivalsKeepJobs(l, year, shorter);
      if CanBill(before, b) && !HasInvoice(before.invoices, b.jobId) {
        InsertKeepsFeeExactly(before, b, Next(NumbersOf(before.invoices), year));
      }
    }
  }

  lemma AttemptKeepsSound(l: Ledger, year: nat, b: Bill, rivals: seq<Bill>)
    requires Sound(l) && AllNow(l, rivals) && b.jobId < |l.jobs| && b.seen == l.jobs[b.jobId]
    ensures Sound(Attempt(l, year, b, rivals).ledger)
  {
    var met := RivalCommits(l, year, rivals);
    RivalsKeepJobs(l, year, rivals);
    RivalsKeepSound(l, year, rivals);
    if !HasInvoice(met.invoices, b.jobId) {
      InsertKeepsFeeExactly(met, b, Next(NumbersOf(l.invoices), year));
    }
  }

  lemma {:induction false} CreateKeepsSound(l: Ledger, year: nat, b: Bill, rivals: seq<seq<Bill>>)
    requires Sound(l) && b.jobId < |l.jobs| && b.seen == l.jobs[b.jobId]
    requires forall i :: 0 <= i < |rivals| ==> AllNow(l, rivals[i])
    ensures Sound(CreateLoop(l, year, b, rivals).ledger)
    decreases |rivals|
  {
    if rivals != [] {
      AttemptKeepsSound(l, year, b, rivals[0]);
      var t := Attempt(l, year, b, rivals[0]);
      if t.invoice.None? {
        var later := rivals[1..];
        forall i | 0 <= i < |later|
          ensures AllNow(t.ledger, later[i])
        {
          assert AllNow(l, rivals[i + 1]);
        }
        CreateKeepsSound(t.ledger, year, b, rivals[1..]);
      }
    }
  }

  lemma AmountsKeepSound(l: Ledger, i: nat, subtotal: int, travel: int)
    requires Shaped(l) && i < |l.invoices|
    requires forall k :: 0 <= k < |l.invoices| && k != i && !l.invoices[k].paid
                         && !l.jobs[l.invoices[k].jobId].deleted ==>
               l.invoices[k].subtotal == l.jobs[l.invoices[k].jobId].fee
    requires l.invoices[i].paid || l.jobs[l.invoices[i].jobId].deleted || l.jobs[l.invoices[i].jobId].fee == subtotal
    ensures Sound(WithAmounts(l, i, subtotal, travel))
  {
  }

  lemma EditJobKeepsSound(l: Ledger, jobId: nat, newFee: Option<int>, mileage: int)
    requires Sound(l)
    ensures Sound(Serve(l, EditJob(jobId, newFee, mileage)))
  {
    if jobId < |l.jobs| && !l.jobs[jobId].deleted {
      var edit, fee := JobWritten(jobId, newFee, mileage), newFee.GetOr(l.jobs[jobId].fee);
      var edited, i := Put(l, edit), InvoiceOf(l.invoices, jobId);
      ShapeKept(l, edit);
      assert edited.invoices == l.invoices;
      forall k | 0 <= k < |l.invoices| && k != i
        ensures edited.jobs[l.invoices[k].jobId] == l.jobs[l.invoices[k].jobId]
      {
        OwnInvoice(l, k);
      }
      if i < |l.invoices| && !l.invoices[i].paid {
        AmountsKeepSound(edited, i, fee, mileage);
        SyncEffect(edited, i, fee, mileage);
      }
    }
  }

  // A sync that reads the row it writes leaves it with the amounts it was given.
  lemma SyncEffect(l: Ledger, i: nat, fee: int, mileage: int)
    requires i < |l.invoices| && !l.invoices[i].paid
    ensures Put(l, SyncWritten(i, l.invoices[i], fee, mileage, false)) == WithAmounts(l, i, fee, mileage)
  {
    var row := l.invoices[i];
    if !SyncWrites(row, fee, mileage, false) {
      assert l.invoices[i := row] == l.invoices;
    }
  }

  lemma EditInvoiceKeepsSound(l: Ledger, id: nat, finalFee: Option<int>)
    requires Sound(l)
    ensures Sound(Serve(l, EditInvoice(id, finalFee)))
  {
    if id < |l.invoices| && finalFee.Some? && !l.invoices[id].paid {
      var row := l.invoices[id];
      var mirror := FeeMirrored(row.jobId, l.jobs[row.jobId], finalFee.value);
      ShapeKept(l, mirror);
      forall k | 0 <= k < |l.invoices| && k != id
        ensures l.invoices[k].jobId != row.jobId
      {
        OwnInvoice(l, k);
        OwnInvoice(l, id);
      }
      AmountsKeepSound(Put(l, mirror), id, finalFee.value, 0);
    }
  }

  lemma PlainWriteKeepsSound(l: Ledger, w: Write)
    requires Sound(l) && (w.PaidWritten? || w.JobCompleted? || w.JobDeleted? || w.JobAdded?)
    ensures Sound(Put(l, w))
  {
    WriteKeepsFeeExactly(l, w);
    ShapeKept(l, w);
  }

  lemma SoundKept(l: Ledger, q: Request)
    requires Sound(l)
    ensures Sound(Serve(l, q))
  {
    match q
    case GenerateFor(jobId, year, rivals) =>
      if jobId < |l.jobs| {
        forall i | 0 <= i < |rivals|
          ensures AllNow(l, RivalsNow(l, rivals)[i])
        {
          assert RivalsNow(l, rivals)[i] == BillsNow(l, rivals[i]);
        }
        CreateKeepsSound(l, year, BillNow(l, jobId), RivalsNow(l, rivals));
      }
    case EditJob(jobId, newFee, mileage) => EditJobKeepsSound(l, jobId, newFee, mileage);
    case EditInvoice(id, finalFee) => EditInvoiceKeepsSound(l, id, finalFee);
    case Pay(id) =>
      if id < |l.invoices| {
        PlainWriteKeepsSound(l, PaidWritten(id, l.invoices[id]));
      }
    case CompleteJob(jobId) => PlainWriteKeepsSound(l, JobCompleted(jobId));
    case DeleteJob(jobId) => PlainWriteKeepsSound(l, JobDeleted(jobId));
    case AddJob(fee, mileage) => PlainWriteKeepsSound(l, JobAdded(fee, mileage));
  }

  // With requests served one at a time - generates may still race each other - an unpaid invoice of an
  // existing job bills that job's present fee, besides what every interleaving keeps.
  lemma {:induction false} EveryRunKeepsTheBooks(qs: seq<Request>)
    ensures Sound(Served(Ledger([], []), qs))
  {
    if qs != [] {
      EveryRunKeepsTheBooks(qs[..|qs| - 1]);
      SoundKept(Served(Ledger([], []), qs[..|qs| - 1]), qs[|qs| - 1]);
    }
  }

  // ----- Totals -----

  datatype Stats = Stats(billed: int, paid: int, outstanding: int, overdue: int, earned: int, travelFees: int)

  function StatsOf(jobs: seq<BilledJob>, invoices: seq<Invoice>, now: int): Stats
    requires forall i :: 0 <= i < |invoices| ==> invoices[i].jobId < |jobs|
  {
    if invoices == [] then Stats(0, 0, 0, 0, 0, 0)
    else
      var row := invoices[|invoices| - 1];
      var s := StatsOf(jobs, invoices[..|invoices| - 1], now);
      var late := !row.paid && row.sentAt.Some? && now - row.sentAt.value > Days(30);
      Stats(s.billed + row.total,
            s.paid + (if row.paid then row.total else 0),
            s.outstanding + (if row.paid then 0 else row.total),
            s.overdue + (if late then row.total else 0),
            s.earned + jobs[row.jobId].fee,
            s.travelFees + row.travel)
  }

  function SumOf(invoices: seq<Invoice>, amount: Invoice -> int): int {
    if invoices == [] then 0 else amount(invoices[0]) + SumOf(invoices[1..], amount)
  }

  lemma {:induction false} SumOfMore(invoices: seq<Invoice>, row: Invoice, amount: Invoice -> int)
    ensures SumOf(invoices + [row], amount) == SumOf(invoices, amount) + amount(row)
  {
    if invoices == [] {
      assert [] + [row] == [row];
    } else {
      SumOfMore(invoices[1..], row, amount);
      assert (invoices + [row])[1..] == invoices[1..] + [row];
    }
  }

  // What a row counts for: its total if it is paid, open, or open and sent more than thirty days before now.
  function PaidTotal(): Invoice -> int {
    (row: Invoice) => if row.paid then row.total else 0
  }

  function OpenTotal(): Invoice -> int {
    (row: Invoice) => if row.paid then 0 else row.total
  }

  function OverdueTotal(now: int): Invoice -> int {
    (row: Invoice) => match row.sentAt
                      case None => 0
                      case Some(at) => if !row.paid && at + 30 * 24 * 60 * 60_000 < now then row.total else 0
  }

  function FeeOf(jobs: seq<BilledJob>): Invoice -> int {
    (row: Invoice) => if row.jobId < |jobs| then jobs[row.jobId].fee else 0
  }

  // Each figure is the sum over all invoices of what it says.
  lemma {:induction false} StatsAreSums(jobs: seq<BilledJob>, invoices: seq<Invoice>, now: int)
    requires forall i :: 0 <= i < |invoices| ==> invoices[i].jobId < |jobs|
    ensures var s := StatsOf(jobs, invoices, now);
            && s.billed == SumOf(invoices, (row: Invoice) => row.total)
            && s.travelFees == SumOf(invoices, (row: Invoice) => row.travel)
            && s.paid == SumOf(invoices, PaidTotal()) && s.outstanding == SumOf(invoices, OpenTotal())
            && s.overdue == SumOf(invoices, OverdueTotal(now)) && s.earned == SumOf(invoices, FeeOf(jobs))
  {
    if invoices != [] {
      var shorter, row := invoices[..|invoices| - 1], invoices[|invoices| - 1];
      StatsAreSums(jobs, shorter, now);
      assert shorter + [row] == invoices;
      SumOfMore(shorter, row, (row: Invoice) => row.total);
      SumOfMore(shorter, row, (row: Invoice) => row.travel);
      SumOfMore(shorter, row, PaidTotal());
      SumOfMore(shorter, row, OpenTotal());
      SumOfMore(shorter, row, OverdueTotal(now));
      SumOfMore(shorter, row, FeeOf(jobs));
    }
  }

  // How far an invoice's job has moved away from what was billed.
  function Drift(jobs: seq<BilledJob>, invoices: seq<Invoice>): int
    requires forall i :: 0 <= i < |invoices| ==> invoices[i].jobId < |jobs|
  {
    if invoices == [] then 0
    else
      var row := invoices[|invoices| - 1];
      Drift(jobs, invoices[..|invoices| - 1])
      + if row.paid || jobs[row.jobId].deleted then jobs[row.jobId].fee - row.subtotal else 0
  }

  lemma {:induction false} StatsBalance(jobs: seq<BilledJob>, invoices: seq<Invoice>, now: int)
    requires Sound(Ledger(jobs, invoices))
    ensures var s := StatsOf(jobs, invoices, now);
            && s.billed == s.paid + s.outstanding
            && s.earned == s.billed - s.travelFees + Drift(jobs, invoices)
            && ((forall i :: 0 <= i < |invoices| ==> invoices[i].total >= 0) ==> 0 <= s.overdue <= s.outstanding)
  {
    if invoices != [] {
      var n := |invoices| - 1;
      assert Sound(Ledger(jobs, invoices[..n]));
      StatsBalance(jobs, invoices[..n], now);
      assert invoices[n].total == invoices[n].subtotal + invoices[n].travel;
      assert !invoices[n].paid && !jobs[invoices[n].jobId].deleted ==>
          invoices[n].subtotal == jobs[invoices[n].jobId].fee;
    }
  }

  // With requests served one at a time the totals balance in every reachable state: what was billed is
  // paid or outstanding, and what the jobs earn differs from the fees billed only through paid invoices
  // and deleted jobs.
  lemma ReachableStatsBalance(qs: seq<Request>, now: int)
    ensures var l := Served(Ledger([], []), qs);
            Sound(l) && var s := StatsOf(l.jobs, l.invoices, now);
            && s.billed == s.paid + s.outstanding
            && s.earned == s.billed - s.travelFees + Drift(l.jobs, l.invoices)
            && ((forall i :: 0 <= i < |l.invoices| ==> !l.invoices[i].paid && !l.jobs[l.invoices[i].jobId].deleted) ==>
                s.earned == s.billed - s.travelFees)
  {
    var l := Served(Ledger([], []), qs);
    EveryRunKeepsTheBooks(qs);
    StatsBalance(l.jobs, l.invoices, now);
    if forall i :: 0 <= i < |l.invoices| ==> !l.invoices[i].paid && !l.jobs[l.invoices[i].jobId].deleted {
      NoDrift(l.jobs, l.invoices);
    }
  }

  lemma {:induction false} NoDrift(jobs: seq<BilledJob>, invoices: seq<Invoice>)
    requires forall i :: 0 <= i < |invoices| ==> invoices[i].jobId < |jobs|
    requires forall i :: 0 <= i < |invoices| ==> !invoices[i].paid && !jobs[invoices[i].jobId].deleted
    ensures Drift(jobs, invoices) == 0
  {
    if invoices != [] {
      var shorter := invoices[..|invoices| - 1];
      assert forall i :: 0 <= i < |shorter| ==> shorter[i] == invoices[i];
      NoDrift(jobs, shorter);
    }
  }

  // ----- The code -----

  class InvoiceDesk {
    var jobs: seq<BilledJob>
    var invoices: seq<Invoice>

    constructor ()
      ensures Tables() == Ledger([], [])
    {
      jobs, invoices := [], [];
    }

    function Tables(): Ledger
      reads this
    {
      Ledger(jobs, invoices)
    }

    // Others' commits during one attempt.
    method MeetRivals(year: nat, rivals: seq<Bill>)
      modifies this`invoices
      ensures Tables() == RivalCommits(old(Tables()), year, rivals)
    {
      for i := 0 to |rivals|
        invariant Tables() == RivalCommits(old(Tables()), year, rivals[..i])
      {
        assert rivals[..i + 1][..i] == rivals[..i];
        var b := rivals[i];
        var number := Next(NumbersOf(invoices), year);
        if CanBill(Tables(), b) && !HasInvoice(invoices, b.jobId) && number !in NumbersOf(invoices) {
          invoices := invoices + [Draft(b, number)];
        }
      }
      assert rivals[..|rivals|] == rivals;
    }

    method TryCreate(year: nat, b: Bill, rivals: seq<Bill>) returns (invoice: Option<nat>)
      modifies this`invoices
      ensures Tried(Tables(), invoice) == Attempt(old(Tables()), year, b, rivals)
    {
      var number := Next(NumbersOf(invoices), year);
      MeetRivals(year, rivals);
      if HasInvoice(invoices, b.jobId) {
        return Some(InvoiceOf(invoices, b.jobId));
      }
      if number in NumbersOf(invoices) {
        return None;
      }
      var subtotal, travelFee := b.seen.fee, b.seen.mileage;
      invoices := invoices + [Invoice(b.jobId, number, subtotal, travelFee, subtotal + travelFee, false, None)];
      return Some(|invoices| - 1);
    }

    method GenerateInvoice(year: nat, b: Bill, rivals: seq<seq<Bill>>) returns (r: Result<nat, LedgerError>)
      requires |rivals| == 5
      modifies this`invoices
      ensures Generated(Tables(), r) == Generate(old(Tables()), year, b, rivals)
    {
      if b.jobId >= |jobs| || b.seen.deleted {
        return Err(JobNotFound);
      }
      if !b.seen.complete {
        return Err(JobNotComplete);
      }
      if HasInvoice(invoices, b.jobId) {
        return Ok(InvoiceOf(invoices, b.jobId));
      }
      var invoice: Option<nat> := None;
      var attempt := 0;
      assert rivals[0..] == rivals;
      while attempt < ATTEMPTS && invoice.None?
        invariant attempt <= ATTEMPTS
        invariant CreateLoop(old(Tables()), year, b, rivals) ==
                  if invoice.Some? then Generated(Tables(), Ok(invoice.value))
                  else CreateLoop(Tables(), year, b, rivals[attempt..])
      {
        assert rivals[attempt..][1..] == rivals[attempt + 1..];
        invoice := TryCreate(year, b, rivals[attempt]);
        attempt := attempt + 1;
      }
      if invoice.None? {
        assert rivals[ATTEMPTS..] == [];
        return Err(NoNumberFree);
      }
      return Ok(invoice.value);
    }

    // The later half of a sync: seen is the invoice as read, and id its row.
    method SyncDraftFromJob(id: nat, seen: Invoice, fee: int, mileage: int, forced: bool)
      modifies this`invoices
      ensures Tables() == Put(old(Tables()), SyncWritten(id, seen, fee, mileage, forced))
    {
      if seen.paid {
        return;
      }
      var total := fee + mileage;
      if seen.subtotal == fee && seen.travel == mileage && seen.total == total && !forced {
        return;
      }
      if id < |invoices| {
        invoices := invoices[id := invoices[id].(subtotal := fee, travel := mileage, total := total)];
      }
    }

    method SyncJobFee(jobId: nat, seenJob: BilledJob, fee: int)
      modifies this`jobs
      ensures Tables() == Put(old(Tables()), FeeMirrored(jobId, seenJob, fee))
    {
      if seenJob.deleted || seenJob.fee == fee || jobId >= |jobs| {
        return;
      }
      jobs := jobs[jobId := jobs[jobId].(fee := fee)];
    }

    // The later half of an invoice edit, with the two writes it makes.
    method UpdateInvoice(id: nat, seen: Invoice, seenJob: BilledJob, finalFee: Option<int>)
      returns (r: Result<(), LedgerError>)
      requires id < |invoices|
      modifies this
      ensures r == if seen.paid && finalFee.Some? then Err(PaidIsLocked) else Ok(())
      ensures Tables() == if r.Err? || finalFee.None? then old(Tables())
                          else Put(Put(old(Tables()), FeeMirrored(seen.jobId, seenJob, finalFee.value)),
                                   FinalFeeWritten(id, seen, finalFee.value))
    {
      if seen.paid && finalFee.Some? {
        return Err(PaidIsLocked);
      }
      if finalFee.Some? {
        var fee := finalFee.value;
        SyncJobFee(seen.jobId, seenJob, fee);
        invoices := invoices[id := invoices[id].(subtotal := fee, travel := 0, total := fee)];
      }
      return Ok(());
    }

    method MarkPaid(id: nat, seen: Invoice) returns (r: Result<(), LedgerError>)
      requires id < |invoices|
      modifies this`invoices
      ensures Tables() == Put(old(Tables()), PaidWritten(id, seen))
      ensures r == if seen.paid then Err(AlreadyPaid) else Ok(())
    {
      if seen.paid {
        return Err(AlreadyPaid);
      }
      invoices := invoices[id := invoices[id].(paid := true)];
      return Ok(());
    }

    method FindStats(now: int) returns (stats: Stats)
      requires JobsExist(Tables())
      ensures stats == StatsOf(jobs, invoices, now)
    {
      stats := Stats(0, 0, 0, 0, 0, 0);
      for i := 0 to |invoices|
        invariant stats == StatsOf(jobs, invoices[..i], now)
      {
        assert invoices[..i + 1][..i] == invoices[..i];
        var row := invoices[i];
        stats := stats.(billed := stats.billed + row.total, earned := stats.earned + jobs[row.jobId].fee,
                        travelFees := stats.travelFees + row.travel);
        if row.paid {
          stats := stats.(paid := stats.paid + row.total);
        } else {
          stats := stats.(outstanding := stats.outstanding + row.total);
          if row.sentAt.Some? && now - row.sentAt.value > Days(30) {
            stats := stats.(overdue := stats.overdue + row.total);
          }
        }
      }
      assert invoices[..|invoices|] == invoices;
    }
  }
}
