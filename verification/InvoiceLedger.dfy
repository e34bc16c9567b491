/** The tables of jobs and invoices, and how an invoice is generated: a number read, an insert that the table
    may refuse, and a retry, while other requests commit in between. Amounts are whole cents. */
module InvoiceLedger {
  import opened Wrappers
  import opened InvoiceNumbers

  datatype BilledJob = BilledJob(fee: int, mileage: int, complete: bool, deleted: bool)

  datatype Invoice = Invoice(jobId: nat, number: string, subtotal: int, travel: int, total: int, paid: bool,
                             sentAt: Option<int>)

  datatype Ledger = Ledger(jobs: seq<BilledJob>, invoices: seq<Invoice>)

  // A request to bill a job, with the job as the request read it.
  datatype Bill = Bill(jobId: nat, seen: BilledJob)

  datatype LedgerError = JobNotFound | JobNotComplete | NoNumberFree | InvoiceNotFound | AlreadyPaid | PaidIsLocked

  const ATTEMPTS := 5

  function NumbersOf(invoices: seq<Invoice>): seq<string> {
    seq(|invoices|, i requires 0 <= i < |invoices| => invoices[i].number)
  }

  // The position of a job's invoice; the length of the table if it has none.
  function InvoiceOf(invoices: seq<Invoice>, jobId: nat): (i: nat)
    ensures i <= |invoices| && (i < |invoices| ==> invoices[i].jobId == jobId)
    ensures forall k :: 0 <= k < i ==> invoices[k].jobId != jobId
  {
    if invoices == [] || invoices[0].jobId == jobId then 0 else 1 + InvoiceOf(invoices[1..], jobId)
  }

  predicate HasInvoice(invoices: seq<Invoice>, jobId: nat) {
    InvoiceOf(invoices, jobId) < |invoices|
  }

  // The invoice a bill inserts: its amounts are those of the job as read.
  function Draft(b: Bill, number: string): Invoice {
    Invoice(b.jobId, number, b.seen.fee, b.seen.mileage, b.seen.fee + b.seen.mileage, false, None)
  }

  predicate Billable(seen: BilledJob) {
    !seen.deleted && seen.complete
  }

  predicate CanBill(l: Ledger, b: Bill) {
    b.jobId < |l.jobs| && Billable(b.seen)
  }

  // Another generate that commits in between.
  function RivalCommit(l: Ledger, year: nat, b: Bill): Ledger {
    var number := Next(NumbersOf(l.invoices), year);
    if !CanBill(l, b) || HasInvoice(l.invoices, b.jobId) || number in NumbersOf(l.invoices) then l
    else l.(invoices := l.invoices + [Draft(b, number)])
  }

  function RivalCommits(l: Ledger, year: nat, rivals: seq<Bill>): Ledger {
    if rivals == [] then l
    else RivalCommit(RivalCommits(l, year, rivals[..|rivals| - 1]), year, rivals[|rivals| - 1])
  }

  datatype Generated = Generated(ledger: Ledger, result: Result<nat, LedgerError>)

  datatype Tried = Tried(ledger: Ledger, invoice: Option<nat>)

  /** One attempt to create: rivals are the bills others commit between its reading the last number and its
      insert, which the table refuses when it repeats a job or a number. */
  function Attempt(l: Ledger, year: nat, b: Bill, rivals: seq<Bill>): (t: Tried)
    ensures t.ledger.jobs == l.jobs
  {
    var number := Next(NumbersOf(l.invoices), year);
    var met := RivalCommits(l, year, rivals);
    RivalsKeepJobs(l, year, rivals);
    if HasInvoice(met.invoices, b.jobId) then Tried(met, Some(InvoiceOf(met.invoices, b.jobId)))
    else if number in NumbersOf(met.invoices) then Tried(met, None)
    else Tried(met.(invoices := met.invoices + [Draft(b, number)]), Some(|met.invoices|))
  }

  // One attempt after the other, as many as there are lists of rivals.
  function CreateLoop(l: Ledger, year: nat, b: Bill, rivals: seq<seq<Bill>>): Generated
    decreases |rivals|
  {
    if rivals == [] then Generated(l, Err(NoNumberFree))
    else
      var t := Attempt(l, year, b, rivals[0]);
      if t.invoice.Some? then Generated(t.ledger, Ok(t.invoice.value))
      else CreateLoop(t.ledger, year, b, rivals[1..])
  }

  function Generate(l: Ledger, year: nat, b: Bill, rivals: seq<seq<Bill>>): Generated {
    if b.jobId >= |l.jobs| || b.seen.deleted then Generated(l, Err(JobNotFound))
    else if !b.seen.complete then Generated(l, Err(JobNotComplete))
    else if HasInvoice(l.invoices, b.jobId) then Generated(l, Ok(InvoiceOf(l.invoices, b.jobId)))
    else CreateLoop(l, year, b, rivals)
  }

  lemma {:induction false} RivalsKeepJobs(l: Ledger, year: nat, rivals: seq<Bill>)
    ensures RivalCommits(l, year, rivals).jobs == l.jobs
  {
    if rivals != [] {
      RivalsKeepJobs(l, year, rivals[..|rivals| - 1]);
    }
  }

  // ----- What generation leaves alone -----

  lemma {:induction false} RivalsOnlyAppend(l: Ledger, year: nat, rivals: seq<Bill>)
    ensures l.invoices <= RivalCommits(l, year, rivals).invoices
  {
    if rivals != [] {
      RivalsOnlyAppend(l, year, rivals[..|rivals| - 1]);
    }
  }

  lemma {:induction false} CreateOnlyAppends(l: Ledger, year: nat, b: Bill, rivals: seq<seq<Bill>>)
    ensures l.invoices <= CreateLoop(l, year, b, rivals).ledger.invoices
    ensures CreateLoop(l, year, b, rivals).ledger.jobs == l.jobs
    decreases |rivals|
  {
    if rivals != [] {
      RivalsOnlyAppend(l, year, rivals[0]);
      var t := Attempt(l, year, b, rivals[0]);
      if t.invoice.None? {
        CreateOnlyAppends(t.ledger, year, b, rivals[1..]);
      }
    }
  }

  // ----- What an invoice bills -----

  // The row bills the job as this request had read it: its fee, its mileage as travel, both together, and it is
  // neither paid nor sent.
  predicate Bills(row: Invoice, b: Bill) {
    && row.jobId == b.jobId && row.subtotal == b.seen.fee && row.travel == b.seen.mileage
    && row.total == b.seen.fee + b.seen.mileage && !row.paid && row.sentAt == None
    && !b.seen.deleted && b.seen.complete
  }

  ghost predicate BilledBy(row: Invoice, bills: set<Bill>) {
    exists b :: b in bills && Bills(row, b)
  }

  // Every invoice that is in the table after and was not before bills a complete job as one of these had read it.
  ghost predicate AddedBill(before: seq<Invoice>, after: seq<Invoice>, bills: set<Bill>) {
    before <= after && forall k :: |before| <= k < |after| ==> BilledBy(after[k], bills)
  }

  lemma MoreAreAdded(a: seq<Invoice>, b: seq<Invoice>, c: seq<Invoice>, some: set<Bill>, all: set<Bill>)
    requires AddedBill(a, b, some) && AddedBill(b, c, all) && some <= all
    ensures AddedBill(a, c, all)
  {
    forall k | |a| <= k < |c|
      ensures BilledBy(c[k], all)
    {
      if k < |b| {
        assert c[k] == b[k] && BilledBy(b[k], some);
        var x :| x in some && Bills(b[k], x);
      }
    }
  }

  function BillsIn(rivals: seq<Bill>): set<Bill> {
    set b | b in rivals
  }

  lemma {:induction false} RivalsBillWhatTheyRead(l: Ledger, year: nat, rivals: seq<Bill>)
    ensures AddedBill(l.invoices, RivalCommits(l, year, rivals).invoices, BillsIn(rivals))
  {
    if rivals != [] {
      var shorter, b := rivals[..|rivals| - 1], rivals[|rivals| - 1];
      var before, after := RivalCommits(l, year, shorter).invoices, RivalCommits(l, year, rivals).invoices;
      RivalsBillWhatTheyRead(l, year, shorter);
      assert b in BillsIn(rivals) && forall c :: c in BillsIn(shorter) ==> c in rivals;
      forall k | |before| <= k < |after|
        ensures BilledBy(after[k], BillsIn(rivals))
      {
        assert Bills(after[k], b);
      }
      MoreAreAdded(l.invoices, before, after, BillsIn(shorter), BillsIn(rivals));
    }
  }

  function AllBills(b: Bill, rivals: seq<seq<Bill>>): set<Bill> {
    {b} + set i, k | 0 <= i < |rivals| && 0 <= k < |rivals[i]| :: rivals[i][k]
  }

  lemma AttemptBillsWhatWasRead(l: Ledger, year: nat, b: Bill, rivals: seq<Bill>, all: set<Bill>)
    requires b in all && BillsIn(rivals) <= all && Billable(b.seen)
    ensures AddedBill(l.invoices, Attempt(l, year, b, rivals).ledger.invoices, all)
  {
    RivalsBillWhatTheyRead(l, year, rivals);
    var met, after := RivalCommits(l, year, rivals).invoices, Attempt(l, year, b, rivals).ledger.invoices;
    forall k | |met| <= k < |after|
      ensures BilledBy(after[k], all)
    {
      assert Bills(after[k], b);
    }
    MoreAreAdded(l.invoices, met, after, BillsIn(rivals), all);
  }

  lemma {:induction false} CreateBillsWhatWasRead(l: Ledger, year: nat, b: Bill, rivals: seq<seq<Bill>>, all: set<Bill>)
    requires b in all && Billable(b.seen) && AllBills(b, rivals) <= all
    ensures AddedBill(l.invoices, CreateLoop(l, year, b, rivals).ledger.invoices, all)
    decreases |rivals|
  {
    if rivals != [] {
      var t, rest := Attempt(l, year, b, rivals[0]), rivals[1..];
      forall r | r in rivals[0]
        ensures r in all
      {
        var k :| 0 <= k < |rivals[0]| && rivals[0][k] == r;
        assert rivals[0][k] in AllBills(b, rivals);
      }
      AttemptBillsWhatWasRead(l, year, b, rivals[0], all);
      if t.invoice.None? {
        forall r | r in AllBills(b, rest)
          ensures r in all
        {
          if r != b {
            var i, k :| 0 <= i < |rest| && 0 <= k < |rest[i]| && rest[i][k] == r;
            assert rivals[i + 1][k] in AllBills(b, rivals);
          }
        }
        CreateBillsWhatWasRead(t.ledger, year, b, rest, all);
        MoreAreAdded(l.invoices, t.ledger.invoices, CreateLoop(l, year, b, rivals).ledger.invoices, all, all);
      }
    }
  }

  // Whoever commits in between: generation only adds invoices, each billing a complete job as its request had
  // read it, and it leaves the jobs alone.
  lemma GenerateBillsWhatWasRead(l: Ledger, year: nat, b: Bill, rivals: seq<seq<Bill>>)
    ensures var after := Generate(l, year, b, rivals).ledger;
            after.jobs == l.jobs && AddedBill(l.invoices, after.invoices, AllBills(b, rivals))
  {
    if b.jobId < |l.jobs| && Billable(b.seen) && !HasInvoice(l.invoices, b.jobId) {
      CreateOnlyAppends(l, year, b, rivals);
      CreateBillsWhatWasRead(l, year, b, rivals, AllBills(b, rivals));
    }
  }

  // What a request is told: no such job, not complete yet, or else the invoice the job has already - unless a
  // number has to be taken.
  lemma GenerateAnswers(l: Ledger, year: nat, b: Bill, rivals: seq<seq<Bill>>)
    ensures var r := Generate(l, year, b, rivals).result;
            && (r == Err(JobNotFound) <==> b.jobId >= |l.jobs| || b.seen.deleted)
            && (r == Err(JobNotComplete) <==> b.jobId < |l.jobs| && !b.seen.deleted && !b.seen.complete)
            && (forall i :: 0 <= i < |l.invoices| && l.invoices[i].jobId == b.jobId && b.jobId < |l.jobs|
                            && Billable(b.seen) ==>
                  Generate(l, year, b, rivals).ledger == l && r.Ok? && r.value <= i
                  && l.invoices[r.value].jobId == b.jobId)
  {
    CreateErrs(l, year, b, rivals);
  }

  lemma {:induction false} CreateErrs(l: Ledger, year: nat, b: Bill, rivals: seq<seq<Bill>>)
    ensures var r := CreateLoop(l, year, b, rivals).result; r.Err? ==> r == Err(NoNumberFree)
    decreases |rivals|
  {
    if rivals != [] {
      CreateErrs(Attempt(l, year, b, rivals[0]).ledger, year, b, rivals[1..]);
    }
  }

  // ----- Numbers, with other requests committing in between -----

  ghost predicate Gapless(l: Ledger, year: nat, count: nat) {
    Year(year) && count <= 10000 && IssuedUpTo(NumbersOf(l.invoices), year, count)
  }

  lemma NumbersOfMore(invoices: seq<Invoice>, i: Invoice)
    ensures NumbersOf(invoices + [i]) == NumbersOf(invoices) + [i.number]
  {
  }

  // A commit takes the next number of its year, and only then one that is free.
  lemma RivalTakesNext(l: Ledger, year: nat, b: Bill, count: nat)
    requires Gapless(l, year, count)
    ensures var taken := CanBill(l, b) && !HasInvoice(l.invoices, b.jobId) && count < 10000;
            Gapless(RivalCommit(l, year, b), year, if taken then count + 1 else count)
  {
    NextIsFreshExactly(NumbersOf(l.invoices), year, count);
    if CanBill(l, b) && !HasInvoice(l.invoices, b.jobId) && count < 10000 {
      NumbersOfMore(l.invoices, Draft(b, Number(year, count + 1)));
      IssuingExtends(NumbersOf(l.invoices), year, count + 1, year, count);
    }
  }

  lemma {:induction false} RivalsTakeNext(l: Ledger, year: nat, rivals: seq<Bill>, count: nat) returns (more: nat)
    requires Gapless(l, year, count)
    ensures Gapless(RivalCommits(l, year, rivals), year, count + more)
    ensures |RivalCommits(l, year, rivals).invoices| == |l.invoices| + more <= |l.invoices| + |rivals|
  {
    more := 0;
    if rivals != [] {
      more := RivalsTakeNext(l, year, rivals[..|rivals| - 1], count);
      var before, b := RivalCommits(l, year, rivals[..|rivals| - 1]), rivals[|rivals| - 1];
      RivalTakesNext(before, year, b, count + more);
      NextIsFreshExactly(NumbersOf(before.invoices), year, count + more);
      if CanBill(before, b) && !HasInvoice(before.invoices, b.jobId) && count + more < 10000 {
        more := more + 1;
      }
    }
  }

  // One attempt fails exactly when nobody invoiced the job meanwhile, and somebody else's commit took the
  // number or the year is full. Otherwise the job has its invoice. The sequence stays without a gap.
  lemma AttemptFailsExactly(l: Ledger, year: nat, b: Bill, rivals: seq<Bill>, count: nat) returns (more: nat)
    requires Gapless(l, year, count)
    ensures var t, met := Attempt(l, year, b, rivals), RivalCommits(l, year, rivals);
            && (t.invoice.None? <==>
                !HasInvoice(met.invoices, b.jobId) && (|met.invoices| > |l.invoices| || count == 10000))
            && (t.invoice.Some? ==> HasInvoice(t.ledger.invoices, b.jobId)
                                    && t.invoice.value == InvoiceOf(t.ledger.invoices, b.jobId))
            && (t.invoice.None? ==> t.ledger == met)
            && Gapless(t.ledger, year, count + more)
    ensures Attempt(l, year, b, rivals).invoice.None? ==> more <= |rivals|
  {
    more := RivalsTakeNext(l, year, rivals, count);
    NextIsFreshExactly(NumbersOf(l.invoices), year, count);
    var met := RivalCommits(l, year, rivals);
    RivalsKeepJobs(l, year, rivals);
    if !HasInvoice(met.invoices, b.jobId) && more == 0 && count < 10000 {
      InsertTakesNext(l, met, year, b, count);
      more := 1;
    }
  }

  // An insert that succeeds found the sequence where it had been read.
  lemma InsertTakesNext(l: Ledger, met: Ledger, year: nat, b: Bill, count: nat)
    requires Gapless(l, year, count) && Gapless(met, year, count) && count < 10000
    requires !HasInvoice(met.invoices, b.jobId)
    ensures var invoices := met.invoices + [Draft(b, Next(NumbersOf(l.invoices), year))];
            && Gapless(met.(invoices := invoices), year, count + 1)
            && InvoiceOf(invoices, b.jobId) == |met.invoices|
  {
    var number := Next(NumbersOf(l.invoices), year);
    NextIsFreshExactly(NumbersOf(l.invoices), year, count);
    NumbersOfMore(met.invoices, Draft(b, number));
    IssuingExtends(NumbersOf(met.invoices), year, count + 1, year, count);
    FoundAtEnd(met.invoices, Draft(b, number));
  }

  // In each attempt another request's commit reached the table first, or there was no number left.
  ghost predicate EveryAttemptMet(l: Ledger, year: nat, b: Bill, rivals: seq<seq<Bill>>)
    decreases |rivals|
  {
    rivals == [] ||
    var met := RivalCommits(l, year, rivals[0]);
    && !HasInvoice(met.invoices, b.jobId)
    && (|met.invoices| > |l.invoices| || Number(year, 10000) in NumbersOf(l.invoices))
    && EveryAttemptMet(met, year, b, rivals[1..])
  }

  lemma MetExactlyWhenAttemptFails(l: Ledger, year: nat, b: Bill, rivals: seq<seq<Bill>>, count: nat)
    requires Gapless(l, year, count) && rivals != []
    ensures var t := Attempt(l, year, b, rivals[0]);
            EveryAttemptMet(l, year, b, rivals) <==>
            t.invoice.None? && EveryAttemptMet(t.ledger, year, b, rivals[1..])
  {
    var more := AttemptFailsExactly(l, year, b, rivals[0], count);
    assert Number(year, 10000) in NumbersOf(l.invoices) <==> count == 10000;
  }

  // Generation leaves the sequence without a gap, and answers with the job's invoice if with any.
  lemma {:induction false} CreateStaysGapless(l: Ledger, year: nat, b: Bill, rivals: seq<seq<Bill>>,
                                              count: nat) returns (more: nat)
    requires Gapless(l, year, count)
    ensures var g := CreateLoop(l, year, b, rivals);
            && Gapless(g.ledger, year, count + more)
            && (g.result.Ok? ==> HasInvoice(g.ledger.invoices, b.jobId)
                                 && g.result.value == InvoiceOf(g.ledger.invoices, b.jobId))
    decreases |rivals|
  {
    if rivals == [] {
      return 0;
    }
    more := AttemptFailsExactly(l, year, b, rivals[0], count);
    var t := Attempt(l, year, b, rivals[0]);
    if t.invoice.None? {
      var rest := CreateStaysGapless(t.ledger, year, b, rivals[1..], count + more);
      more := more + rest;
    }
  }

  // It gives up exactly when each of its attempts met another request's commit, or the year's ten
  // thousand numbers are used up.
  lemma {:induction false} GivesUpExactly(l: Ledger, year: nat, b: Bill, rivals: seq<seq<Bill>>, count: nat)
    requires Gapless(l, year, count)
    ensures CreateLoop(l, year, b, rivals).result == Err(NoNumberFree) <==> EveryAttemptMet(l, year, b, rivals)
    decreases |rivals|
  {
    if rivals != [] {
      MetExactlyWhenAttemptFails(l, year, b, rivals, count);
      var more := AttemptFailsExactly(l, year, b, rivals[0], count);
      var t := Attempt(l, year, b, rivals[0]);
      if t.invoice.None? {
        GivesUpExactly(t.ledger, year, b, rivals[1..], count + more);
      }
    }
  }

  lemma {:induction false} FoundAtEnd(invoices: seq<Invoice>, i: Invoice)
    requires !HasInvoice(invoices, i.jobId)
    ensures InvoiceOf(invoices + [i], i.jobId) == |invoices|
  {
    if invoices != [] {
      assert (invoices + [i])[1..] == invoices[1..] + [i];
      FoundAtEnd(invoices[1..], i);
    }
  }

  function Requests(rivals: seq<seq<Bill>>): nat {
    if rivals == [] then 0 else |rivals[0]| + Requests(rivals[1..])
  }

  // With one attempt undisturbed, and numbers left for everybody, generation succeeds.
  lemma {:induction false} OneQuietAttemptIsEnough(l: Ledger, year: nat, b: Bill, rivals: seq<seq<Bill>>,
                                                   quiet: nat, count: nat)
    requires Gapless(l, year, count)
    requires quiet < |rivals| && rivals[quiet] == []
    requires count + Requests(rivals) < 10000
    ensures CreateLoop(l, year, b, rivals).result.Ok?
    decreases |rivals|
  {
    var more := AttemptFailsExactly(l, year, b, rivals[0], count);
    var t := Attempt(l, year, b, rivals[0]);
    if quiet > 0 && t.invoice.None? {
      OneQuietAttemptIsEnough(t.ledger, year, b, rivals[1..], quiet - 1, count + more);
    }
  }

  lemma IssueKeepsOther(l: Ledger, year: nat, b: Bill, count: nat, other: nat, otherCount: nat)
    requires Gapless(l, year, count) && Gapless(l, other, otherCount) && year != other
    ensures var number := Next(NumbersOf(l.invoices), year);
            Gapless(l.(invoices := l.invoices + [Draft(b, number)]), other, otherCount)
  {
    NextIsFreshExactly(NumbersOf(l.invoices), year, count);
    var k := if count < 10000 then count + 1 else 10000;
    NumbersOfMore(l.invoices, Draft(b, Number(year, k)));
    IssuingExtends(NumbersOf(l.invoices), year, k, other, otherCount);
  }

  lemma {:induction false} RivalsKeepOther(l: Ledger, year: nat, rivals: seq<Bill>, count: nat, other: nat,
                                           otherCount: nat)
    requires Gapless(l, year, count) && Gapless(l, other, otherCount) && year != other
    ensures Gapless(RivalCommits(l, year, rivals), other, otherCount)
  {
    if rivals != [] {
      var shorter, b := rivals[..|rivals| - 1], rivals[|rivals| - 1];
      var before := RivalCommits(l, year, shorter);
      RivalsKeepOther(l, year, shorter, count, other, otherCount);
      var more := RivalsTakeNext(l, year, shorter, count);
      if CanBill(before, b) {
        IssueKeepsOther(before, year, b, count + more, other, otherCount);
      }
    }
  }

  lemma AttemptKeepsOther(l: Ledger, year: nat, b: Bill, rivals: seq<Bill>, count: nat, other: nat, otherCount: nat)
    requires Gapless(l, year, count) && Gapless(l, other, otherCount) && year != other
    ensures Gapless(Attempt(l, year, b, rivals).ledger, other, otherCount)
  {
    var met := RivalCommits(l, year, rivals);
    RivalsKeepJobs(l, year, rivals);
    RivalsKeepOther(l, year, rivals, count, other, otherCount);
    var more := RivalsTakeNext(l, year, rivals, count);
    NextIsFreshExactly(NumbersOf(l.invoices), year, count);
    if more == 0 && count < 10000 && !HasInvoice(met.invoices, b.jobId) {
      NextTheSame(l, met, year, count);
      IssueKeepsOther(met, year, b, count, other, otherCount);
    }
  }

  lemma {:induction false} CreateKeepsOther(l: Ledger, year: nat, b: Bill, rivals: seq<seq<Bill>>,
                                            count: nat, other: nat, otherCount: nat)
    requires Gapless(l, year, count) && Gapless(l, other, otherCount) && year != other
    ensures Gapless(CreateLoop(l, year, b, rivals).ledger, other, otherCount)
    decreases |rivals|
  {
    if rivals != [] {
      AttemptKeepsOther(l, year, b, rivals[0], count, other, otherCount);
      var more := AttemptFailsExactly(l, year, b, rivals[0], count);
      var t := Attempt(l, year, b, rivals[0]);
      if t.invoice.None? {
        CreateKeepsOther(t.ledger, year, b, rivals[1..], count + more, other, otherCount);
      }
    }
  }

  lemma NextTheSame(l: Ledger, met: Ledger, year: nat, count: nat)
    requires Gapless(l, year, count) && Gapless(met, year, count)
    ensures Next(NumbersOf(l.invoices), year) == Next(NumbersOf(met.invoices), year)
  {
    NextIsFreshExactly(NumbersOf(l.invoices), year, count);
    NextIsFreshExactly(NumbersOf(met.invoices), year, count);
  }

  // Generation for one year keeps every year's sequence without a gap.
  lemma GenerateKeepsGapless(l: Ledger, year: nat, b: Bill, rivals: seq<seq<Bill>>, own: nat, other: nat,
                             otherCount: nat)
    returns (more: nat)
    requires Gapless(l, year, own) && Gapless(l, other, otherCount)
    ensures Gapless(Generate(l, year, b, rivals).ledger, other, otherCount + more)
  {
    more := 0;
    if CanBill(l, b) && !HasInvoice(l.invoices, b.jobId) {
      if year == other {
        SameCount(l, year, own, otherCount);
        more := CreateStaysGapless(l, year, b, rivals, own);
      } else {
        CreateKeepsOther(l, year, b, rivals, own, other, otherCount);
      }
    }
  }

  lemma SameCount(l: Ledger, year: nat, a: nat, b: nat)
    requires Gapless(l, year, a) && Gapless(l, year, b)
    ensures a == b
  {
    assert Number(year, a) in NumbersOf(l.invoices) <==> a >= 1;
    assert Number(year, b) in NumbersOf(l.invoices) <==> b >= 1;
  }
}
