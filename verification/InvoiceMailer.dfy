/** The code around the delivery protocol: the worker's handler, the retry cron and the
    Send button, over a table of invoices and one queue of mail jobs. */
module InvoiceMailer {
  import opened Wrappers
  import opened InvoiceDelivery

  datatype MailJob = MailJob(invoice: nat, attempt: int)

  datatype SendError = InvoiceNotFound | NoValidRecipient

  function Without(queue: seq<MailJob>, job: MailJob): (r: seq<MailJob>)
    ensures forall j :: j in r <==> j in queue && j != job
  {
    if queue == [] then []
    else if queue[0] == job then Without(queue[1..], job)
    else [queue[0]] + Without(queue[1..], job)
  }

  // The jobs a cron pass adds for the rows from position from on.
  function CronJobs(rows: seq<InvoiceRow>, now: int, from: nat): (r: seq<MailJob>)
    requires from <= |rows|
    ensures forall j :: j in r <==> from <= j.invoice < |rows| && CronPicks(rows[j.invoice], now)
                                    && j.attempt == rows[j.invoice].attempts + 1
    decreases |rows| - from
  {
    if from == |rows| then []
    else (if CronPicks(rows[from], now) then [MailJob(from, rows[from].attempts + 1)] else [])
         + CronJobs(rows, now, from + 1)
  }

  class Mailer {
    var rows: seq<InvoiceRow>
    var recipients: seq<string>
    var queue: seq<MailJob>

    predicate Valid()
      reads this
    {
      |recipients| == |rows|
    }

    constructor (rows: seq<InvoiceRow>, recipients: seq<string>)
      requires |rows| == |recipients|
      ensures Valid() && this.rows == rows && this.recipients == recipients && queue == []
    {
      this.rows, this.recipients, queue := rows, recipients, [];
    }

    // The handler's first half: take the attempt, or learn that somebody else has it.
    method Claim(id: nat, attempt: int, now: int) returns (claimed: bool)
      requires Valid()
      modifies this`rows
      ensures Valid()
      ensures claimed <==> id < |old(rows)| && Claimable(old(rows)[id], attempt)
      ensures rows == if claimed then old(rows)[id := ClaimRow(old(rows)[id], attempt, now)] else old(rows)
    {
      if attempt < 1 || attempt > 3 {
        return false;
      }
      if id >= |rows| || !rows[id].pending || rows[id].attempts != attempt - 1 {
        return false;
      }
      rows := rows[id := rows[id].(attempts := attempt, lastAttemptAt := Some(now))];
      return true;
    }

    // Its second half: record how the attempt came out.
    method Settle(id: nat, attempt: int, outcome: Outcome, now: int)
      requires Valid() && id < |rows|
      modifies this`rows
      ensures Valid() && rows == old(rows)[id := SettleRow(old(rows)[id], attempt, outcome, now)]
    {
      var row := rows[id];
      match outcome {
        case Sent =>
          row := row.(pending := false, sentAt := Some(now), lastError := None, failedAt := None);
        case ClientMailOff =>
          row := row.(pending := false, lastError := None, failedAt := None);
        case Failed(message) =>
          row := row.(pending := attempt < 3, lastError := Some(message));
          if attempt == 3 {
            row := row.(failedAt := Some(now));
          } else {
            row := row.(failedAt := None);
          }
      }
      rows := rows[id := row];
    }

    // One undisturbed run of the handler: at most one provider call, and the attempt is used up.
    method HandleSendEmail(job: MailJob, mailOn: bool, providerError: Option<string>, now: int, done: int)
      returns (called: bool)
      requires Valid()
      modifies this`rows
      ensures Valid()
      ensures var id, a := job.invoice, job.attempt;
              var live := id < |old(rows)| && Claimable(old(rows)[id], a);
              if !live then rows == old(rows) && !called
              else
                var addressed := recipients[id] != "";
                var outcome := if !addressed then Failed("Invoice or recipient email not found")
                               else if !mailOn then ClientMailOff
                               else if providerError.Some? then Failed(providerError.value)
                               else Sent;
                && rows == old(rows)[id := SettleRow(ClaimRow(old(rows)[id], a, now), a, outcome, done)]
                && (called <==> addressed && mailOn)
    {
      called := false;
      var claimed := Claim(job.invoice, job.attempt, now);
      if !claimed {
        return;
      }
      if recipients[job.invoice] == "" {
        Settle(job.invoice, job.attempt, Failed("Invoice or recipient email not found"), done);
        return;
      }
      if !mailOn {
        Settle(job.invoice, job.attempt, ClientMailOff, done);
        return;
      }
      called := true;
      var outcome := if providerError.Some? then Failed(providerError.value) else Sent;
      Settle(job.invoice, job.attempt, outcome, done);
    }

    method RetryPendingEmails(now: int)
      requires Valid()
      modifies this`queue
      ensures Valid() && queue == old(queue) + CronJobs(rows, now, 0)
    {
      var i := 0;
      while i < |rows|
        invariant i <= |rows| && Valid()
        invariant queue + CronJobs(rows, now, i) == old(queue) + CronJobs(rows, now, 0)
      {
        ghost var rest := CronJobs(rows, now, i + 1);
        if CronPicks(rows[i], now) {
          assert queue + ([MailJob(i, rows[i].attempts + 1)] + rest) ==
                 queue + [MailJob(i, rows[i].attempts + 1)] + rest;
          queue := queue + [MailJob(i, rows[i].attempts + 1)];
        } else {
          assert [] + rest == rest;
        }
        i := i + 1;
      }
    }

    // Manual send or resend: a fresh cycle of three attempts, with the invoice's old jobs out of the way.
    // queued tells whether the queue took the new job; a failure to add it is swallowed, and the caller is
    // answered the same.
    method SendInvoice(id: nat, override: string, queued: bool) returns (r: Result<(), SendError>)
      requires Valid()
      modifies this
      ensures Valid()
      ensures r.Ok? <==> id < |old(rows)| && '@' in (if override != "" then override else old(recipients)[id])
      ensures r == Err(InvoiceNotFound) <==> id >= |old(rows)|
      ensures r.Err? ==> rows == old(rows) && recipients == old(recipients) && queue == old(queue)
      ensures r.Ok? ==>
                && rows == old(rows)[id := ResetRow(old(rows)[id])]
                && recipients == old(recipients)[id := if override != "" then override else old(recipients)[id]]
                && (forall j :: j in queue <==>
                      (queued && j == MailJob(id, 1)) || (j in old(queue) && !(j.invoice == id && 1 <= j.attempt <= 3)))
    {
      if id >= |rows| {
        return Err(InvoiceNotFound);
      }
      var email := if override != "" then override else recipients[id];
      if '@' !in email {
        return Err(NoValidRecipient);
      }
      var attempt := 1;
      while attempt <= 3
        invariant 1 <= attempt <= 4 && Valid() && rows == old(rows) && recipients == old(recipients)
        invariant forall j :: j in queue <==> j in old(queue) && !(j.invoice == id && 1 <= j.attempt < attempt)
      {
        queue := Without(queue, MailJob(id, attempt));
        attempt := attempt + 1;
      }
      recipients := recipients[id := email];
      rows := rows[id := rows[id].(pending := true, attempts := 0, lastAttemptAt := None,
                                   lastError := None, failedAt := None)];
      if queued {
        queue := queue + [MailJob(id, 1)];
      }
      return Ok(());
    }
  }
}
