# Notary Day: verified scheduling and billing core

Notary Day is the backend of a planner for mobile notaries. This project models the parts of it whose
guarantees depend on several functions agreeing with each other, and proves those guarantees:

- **Public booking** (`BookingRules`, `BookingCalendar`, `BookingSlots`, `BookingService`). Requests, approvals,
  refusals and cancellations over the booking and job tables, the windowed conflict check made when a request is
  stored, and the slot engine that decides which half-hour times a page offers. Main results: no run brings two live
  blocks closer than the buffer, exactly when every service fits the 240-minute look-back, and then a request is granted
  exactly when it is in time and clear of every booking by the list of services; and, for any service lengths, the
  exact settings under which a page shows no time that would be refused and hides none that would be granted.
- **Invoice delivery** (`InvoiceDelivery`, `InvoiceMailer`). One invoice row guarded by a compare-and-set on its
  attempt counter, with queue, workers, retry cron, user and crashes acting in any order. Main results: at most three
  provider calls per send under any interleaving; one attempt at a time, and a success that stays, exactly when attempts
  end within 15 minutes; and, however long they take, exactly which lost jobs, late failures and crashes leave an
  invoice pending for good; and the row tells how the last attempt ended and when the last mail was sent.
- **Day planner** (`PlannerRules`, `PlannerDay`, `PlannerRoutes`, `PlannerGaps`). Feasibility of an order, conflict
  warnings, the time-ordered fallback, lazily filled drive legs and the gap finder. Main results: lateness adds up to
  ten minutes per stop and no more; feasibility and warnings agree up to the tolerance; the applied fallback is feasible
  exactly when any order of the day is, for services over ten minutes; filling in finds the fallback's legs; candidates
  fit their gap with twenty minutes to spare.
- **Job life** (`JobLifecycle`). The transition table, the timestamps and the edits of a job's window, where moves and
  edits are each read first and written later, with others in between. Main results: a run is coherent exactly when
  each move is harmless where it is written; exactly which edits and overlaps get round the scan, stop a running
  countdown, or lose a signing length; and every job that is not final can be completed, scanned if it must be.
- **Invoices** (`InvoiceNumbers`, `InvoiceLedger`, `InvoiceBooks`). Number strings and their text order, generation with
  retries against concurrent requests, amounts, payment, totals, with every request's reads and writes apart. Main
  results: numbers are consecutive per year up to 10000 and generation is stuck after that; paid invoices are frozen
  exactly when no late write finds them paid; the totals balance.
- **Smaller cores**: local morning through changes of offset (`SmartTime`), CSV printing read back by RFC 4180 section
  2 (`Csv`), the CITT verdict (`Citt`), a campaign's audience (`Audience`).

`Clock`, `Wrappers`, `Sorting` and `Rounding` hold what the others share. Instants are whole milliseconds, money is whole
cents, and a row's id is its position in its table. Code that changes rows or objects step by step is a class whose
methods are proved equal to a step function; the theorems about whole runs are about those functions. Where the source
reads a row, waits, and writes it later, the method is the later half and takes the row as read.
`dafny verify dfyconfig.toml` checks everything.

## Where code and documentation differ

The model follows the code. These are the places where the proofs show it doing something else than it says:

- The README of the repository says the booking page shows only times that can be accepted. A page whose longest
  service and buffer outreach the day's six-hour look-back, or whose last buffer passes midnight while the next day can
  already be requested, can show a time that is then refused (`BookingSlots.PageShowsTrulyExactly`). And with a service
  over 240 minutes, which the check made at storing no longer finds, it can hide a time that would be granted
  (`BookingSlots.PageHidesNothingExactly`).
- `isFeasibleOrder` is described as "reachable before its appointment" within ten minutes. It compares neighbours
  with scheduled, not actual, times, so the k-th stop can be 10 k minutes late (`PlannerRules.LatenessBoundIsTight`);
  the promise holds for every accepted order of up to two stops, and beyond that exactly when every two stops fit
  (`PlannerRules.WithinToleranceExactly`, `PlannerRules.ToleranceHoldsExactlyForTwoStops`).
- The time-order fallback is said to keep the day feasible. It is applied unchecked, and is feasible exactly when each
  of its stops can be reached from the one before (`PlannerRoutes.FallbackAcceptedExactly`), which two signings at one
  time cannot (`PlannerRoutes.FallbackMayBeLate`). With services over ten minutes that is exactly when any order of the
  day is feasible (`PlannerRoutes.FallbackFeasibleExactlyWhenTheDayIs`); with shorter ones the fallback can lose a
  feasible day (`PlannerRoutes.FallbackLosesNothingExactlyOverTheTolerance`).
- `shiftToLocalMorning` promises the next day when today's slot has passed. Adding 24 hours on the evening before
  summer time begins passes over a local day (`SmartTime.EveningBeforeSummerTimeSkipsADay`).
- CITT is said to check the schedule including scanback. It leaves out the previous job's scanback and the drive to
  the next job (`Citt.AgreesBeforeExactlyWithoutScanback`, `Citt.AgreesAfterExactlyWithoutDrive`).
- The scan before completion is described as enforced for scanback types. An edit of the type before and after
  completing gets round it (`JobLifecycle.RenamingSkipsTheScan`), and so does a completion that overlaps a return to
  in progress (`JobLifecycle.OverlapSkipsTheScan`).
- Complete, cancelled and declined have no way out in the transition table. Status updates are checked on the job as
  read and written unconditionally, so an overlapping one can leave them (`JobLifecycle.OverlappingMovesLeaveComplete`).
- Paid invoices are described as locked. An edit or a sync that read the invoice before its payment still writes
  (`InvoiceBooks.LateEditChangesPaid`).
- A change of signing type recomputes the end of the signing but records no new length, and the next edit brings the
  old end back (`JobLifecycle.LostLengthComesBack`). An edit that changes nothing takes back the end, too, that another
  edit has just moved with the appointment (`JobLifecycle.OverlappingEditTakesTheEndBack`).
- A send answers that the e-mail is queued even when its job never reached the queue. That invoice, one whose first job
  is lost, and one whose worker dies in its first or third attempt stay pending, and neither cron nor queue takes them
  up again (`InvoiceDelivery.UnqueuedSendStrands`, `InvoiceDelivery.StrandedWithoutCrashExactly`,
  `InvoiceDelivery.StrandedExactly`).
- Sending retries up to three times and then records a failure. An attempt of 15 minutes gets the next one beside it,
  and if the earlier one fails after the third has ended, the invoice is pending again with no attempt left and no
  failure recorded, even if the third delivered it (`InvoiceDelivery.SlowFailureStrands`,
  `InvoiceDelivery.SuccessIsFinalExactlyWithinFifteenMinutes`).
- The per-user invoice sequence stops after number 10000 of a year (`InvoiceNumbers.NextIsFreshExactly`).

## Model

| member | source | states |
|---|---|---|
| BookingRules.WindowDecidesLikeFullScan | src/modules/booking/booking.service.ts:1056-1132 | with no live block longer than 240 minutes, the windowed check answers as a scan of every live block would |
| BookingRules.WindowIsExactUpTo240 | src/modules/booking/booking.service.ts:1069-1072 | every colliding block of a given length starts inside the window if and only if the length is at most 240 minutes |
| BookingRules.ApprovalKeepsTheBlock | src/modules/booking/booking.service.ts:349-364 | the approved job occupies exactly the block of the pending booking if and only if its scanback is not negative |
| BookingRules.StockLengths | src/modules/booking/booking.service.ts:50-93 | the stock minutes of signing and scanback by type |
| BookingRules.StockServicesFit | src/modules/booking/booking.service.ts:50-93 | the stock service lengths meet the conditions of the booking theorems |
| BookingRules.FoundIsTheFirstOfItsType | src/modules/booking/booking.service.ts:146-147 | the service found for a type is the first in the list of that type, and none is found if and only if the list does not name the type |
| BookingRules.LengthsAreTheServices | src/modules/booking/booking.service.ts:349-353 | a booking takes the minutes of that service, signing and scanback, or an hour without scanback if there is none |
| BookingRules.TakenByTheRowsExactly | src/modules/booking/booking.service.ts:1056-1132 | a time is found taken if and only if, by the rows of the tables and the list of services alone, an undeleted job confirmed or at work, or a request under review, starts in the window read and is not a buffer away |
| BookingCalendar.EveryRunKeepsTheCalendarApart | src/modules/booking/booking.service.ts:183-219 | after every run from an empty calendar live blocks are a buffer apart and confirmed bookings and live jobs correspond one to one |
| BookingCalendar.NoDoubleBookingExactlyWhenServicesFit | src/modules/booking/booking.service.ts:1056-1132 | all runs stay free of collisions if and only if every service lasts at most 240 minutes with a non-negative scanback |
| BookingCalendar.GrantedExactly | src/modules/booking/booking.service.ts:124-219 | after every run a request is granted if and only if it is within notice and advance limit and, by the lengths in the list of services, a buffer away from every booking that was neither declined nor cancelled |
| BookingCalendar.StandingBookingsKeepClear | src/modules/booking/booking.service.ts:183-219 | after every run, of two bookings that stand the later starts no sooner than the earlier one's own service minutes and the buffer have passed |
| BookingCalendar.RefusalNamesTheReason | src/modules/booking/booking.service.ts:124-219 | a refused request is told past, too little notice, too far ahead or taken, the first that applies; a granted one adds its row under review |
| BookingCalendar.ConfirmedHasItsJob | src/modules/booking/booking.service.ts:349-404 | after every run a confirmed booking has an undeleted confirmed job at its time, with the signing and scanback minutes and ends of its service in the list |
| BookingCalendar.OwnerAnswers | src/modules/booking/booking.service.ts:342-347 | only a request under review is approved or declined and only a confirmed booking cancelled, and the refusal names the reason |
| BookingCalendar.StatusTellsTheHistory | src/modules/booking/booking.service.ts:406-413 | after every run a booking's status tells which of approval, decline and cancellation were carried out on it |
| BookingCalendar.CreateKeepsApart | src/modules/booking/booking.service.ts:183-219 | storing a request keeps all live blocks a buffer apart |
| BookingCalendar.ApproveKeepsApart | src/modules/booking/booking.service.ts:370-415 | turning a booking into a job keeps all live blocks a buffer apart |
| BookingCalendar.ReleaseKeepsApart | src/modules/booking/booking.service.ts:800-826 | declining or cancelling keeps all live blocks a buffer apart |
| BookingCalendar.JobLinksKept | src/modules/booking/booking.service.ts:370-415 | every operation keeps each undeleted job the exact copy its confirmed booking was approved into |
| BookingCalendar.BookedWithinAdvance | src/modules/booking/booking.service.ts:124-141 | nothing booked by a moment lies further ahead than the advance limit from it |
| BookingCalendar.OneJobKept | src/modules/booking/booking.service.ts:370-415 | a booking is confirmed exactly when it has a job, and never has two |
| BookingCalendar.EachStepMovesOneBlock | src/modules/booking/booking.service.ts:342-415 | a granted operation adds, moves or removes exactly one live block and leaves the others' extent alone; a refused one changes none |
| BookingCalendar.WithdrawalRestoresAvailability | src/modules/booking/booking.service.ts:800-826 | request then decline, and request, approve, cancel, leave every candidate as free as before, in every window of the calendar that is read for it and in the calendar as a whole |
| BookingCalendar.LongServiceCollides | src/modules/booking/booking.service.ts:1069-1072 | a service over 240 minutes lets two requests in clock order collide |
| BookingCalendar.NegativeScanbackCollides | src/modules/booking/booking.service.ts:356-364 | a negative scanback makes an approved booking grow into an accepted neighbour |
| BookingSlots.SlotsAreTheFreeGrid | src/modules/booking/booking.service.ts:972-1020 | the slots are exactly the half-hour times in active hours and date limits that no row of the day blocks, in increasing order |
| BookingSlots.HoursAreTheWeekdays | src/modules/booking/booking.service.ts:894-905 | every day has the hours of its own weekday |
| BookingSlots.DaysTakeTurns | src/modules/booking/booking.service.ts:894-896 | 4 January 1970 is the first entry, a Sunday; each day has the entry after the day before's, and a week later the same one |
| BookingSlots.ShownWithinTheWeekdaysHours | src/modules/booking/booking.service.ts:972-985 | every time shown is a half hour from its weekday's opening on, and its service, as the list has it, ends by closing |
| BookingSlots.BothChecksAgree | src/modules/booking/booking.service.ts:925-970 | where the day's look-back and the check's each see what matters to the other and the buffer ends with the day, the slot engine and the check at storing agree in every reachable calendar, for any service lengths |
| BookingSlots.ChecksAgreeExactly | src/modules/booking/booking.service.ts:1056-1132 | they agree on a grid time after every run if and only if that holds: no service is over 240 minutes or the check looks back as far as the day; none outreaches the day's six hours or the day looks back as far as the check; the buffer ends with the day |
| BookingSlots.ChecksDiffer | src/modules/booking/booking.service.ts:1056-1132 | otherwise one earlier booking makes them differ |
| BookingSlots.PageShowsTrulyExactly | src/modules/booking/booking.service.ts:887-1021 | after every run and at every later moment the page shows no grid time that would be refused, if and only if no block between the check's look-back and the day's can reach it and either the buffer ends with the day or the next day cannot be requested while the time is still offered |
| BookingSlots.PageHidesNothingExactly | src/modules/booking/booking.service.ts:887-1021 | after every run and at every later moment the page hides no grid time that would be granted, if and only if no service is over 240 minutes or the check looks back as far as the day, given that anything can be requested at all |
| BookingSlots.PageIsRightExactly | src/modules/booking/booking.service.ts:887-1021 | so the page shows a grid time exactly when a request for it would be granted if and only if both conditions hold, for all settings with non-negative lengths, buffer and notice |
| BookingSlots.NoShownSlotIsRefused | src/modules/booking/booking.service.ts:887-1021 | under the first condition every shown time would be granted |
| BookingSlots.NoGrantedSlotIsHidden | src/modules/booking/booking.service.ts:887-1021 | under the second condition every grid time that would be granted is shown |
| BookingSlots.BlindSpot | src/modules/booking/booking.service.ts:929-953 | without the first, one earlier booking makes the page show, at a moment not before it, a time that is refused |
| BookingSlots.HiddenTime | src/modules/booking/booking.service.ts:1069-1072 | without the second, one earlier booking of a service over 240 minutes makes the page hide a time that is granted |
| BookingSlots.OfferedExactlyWhenGranted | src/modules/booking/booking.service.ts:887-1021 | where no service is over 240 minutes or outreaches the six hours before opening, and the last buffer ends with the day, a time is offered if and only if it is on the grid and a request for it would be granted |
| BookingSlots.CoveredHoursShowTruly | src/modules/booking/booking.service.ts:887-1021 | on such opening hours no grid time of the day is shown that would be refused |
| BookingSlots.AlternativesAreGranted | src/modules/booking/booking.service.ts:265-316 | on days whose pages show no time that would be refused, every suggested alternative would be granted, none is the lost time, at most five, earliest first where every day closes by midnight |
| BookingSlots.AlternativesAreTheFirst | src/modules/booking/booking.service.ts:292-316 | a free time of the fourteen days that is not among the alternatives comes after five that are |
| BookingService.BookingDesk.IsSlotBlockTaken | src/modules/booking/booking.service.ts:1056-1132 | the loops over the read rows find a collision exactly when some live block starting in the window overlaps with buffer |
| BookingService.BookingDesk.Request | src/modules/booking/booking.service.ts:109-219 | past, notice, advance limit and conflict are refused in that order; otherwise one pending row is added |
| BookingService.BookingDesk.Confirm | src/modules/booking/booking.service.ts:342-415 | only a pending booking becomes confirmed, together with its one job row |
| BookingService.BookingDesk.Refuse | src/modules/booking/booking.service.ts:461-475 | only a pending booking becomes declined, nothing else changes |
| BookingService.BookingDesk.Release | src/modules/booking/booking.service.ts:800-826 | only a confirmed booking is cancelled and its first undeleted job marked deleted |
| BookingService.BookingDesk.Occupied | src/modules/booking/booking.service.ts:929-970 | the collected blocks collide with any candidate exactly when the day's live rows do |
| BookingService.BookingDesk.KeepsSlot | src/modules/booking/booking.service.ts:984-1011 | a grid time is kept exactly when it is within notice and advance limit and no row of the day blocks it |
| BookingService.BookingDesk.ComputeSlots | src/modules/booking/booking.service.ts:887-1021 | the loop yields the slots of the specification in order |
| BookingService.BookingDesk.SuggestAlternatives | src/modules/booking/booking.service.ts:265-316 | the early-stopping double loop yields the first five free times of fourteen days |
| BookingService.BookingDesk.AddFree | src/modules/booking/booking.service.ts:306-313 | the inner loop with its early stop appends the free times up to five, the lost time left out |
| InvoiceDelivery.AtMostThreeCallsPerSend | src/workers/invoice.processor.ts:538-553 | under any interleaving provider calls are at most claims, claims at most three per send, and since the last send attempts were claimed 1, 2, 3 in order and counted by the row |
| InvoiceDelivery.CountedKept | src/workers/invoice.processor.ts:541-553 | every single step of worker, cron, queue and user keeps that count |
| InvoiceDelivery.PromptCyclesAreOrderly | src/workers/invoice-retry-cron.service.ts:18-43 | when attempts end within 15 minutes, at most one is in flight and a failure is recorded only after three attempts, settled and with its error |
| InvoiceDelivery.OrderlyKept | src/workers/invoice.processor.ts:538-663 | every step of a prompt cycle keeps one attempt in flight, none queued beyond the next, and failure only after the third |
| InvoiceDelivery.OneAtATimeExactlyWithinFifteenMinutes | src/workers/invoice-retry-cron.service.ts:20-27 | attempts never overlap in any cycle if and only if each ends within 15 minutes |
| InvoiceDelivery.SlowAttemptsOverlap | src/workers/invoice-retry-cron.service.ts:20-27 | an attempt allowed to take 15 minutes lets the cron start the next one beside it |
| InvoiceDelivery.OverlapMarksADeliveredInvoiceFailed | src/workers/invoice.processor.ts:640-661 | two overlapping attempts mail the client twice and can mark a delivered invoice as failed |
| InvoiceDelivery.SettledForGood | src/workers/invoice.processor.ts:541-553 | a settled row with nobody at work stays as it is until the next send, whatever is queued |
| InvoiceDelivery.NothingAfterSuccess | src/workers/invoice.processor.ts:640-648 | while attempts end within 15 minutes, after a success nothing is claimed or mailed and the row is final |
| InvoiceDelivery.SuccessIsFinalExactlyWithinFifteenMinutes | src/workers/invoice.processor.ts:640-661 | in every cycle the row a success leaves is the row for good, if and only if each attempt ends within 15 minutes |
| InvoiceDelivery.CyclesEnd | src/workers/invoice.processor.ts:535-663 | however long the system runs after a send, at most six of its steps claim or end an attempt |
| InvoiceDelivery.WorkShrinks | src/workers/invoice.processor.ts:535-663 | each claim or end of an attempt strictly lowers a measure and no other step raises it |
| InvoiceDelivery.CycleIsRegular | src/workers/invoice.processor.ts:538-663 | in every state of every cycle, with slow attempts and crashes, the attempts claimed are 1 to the row's counter and no job is beyond the next |
| InvoiceDelivery.OnlySentStamps | src/workers/invoice.processor.ts:566-657 | the time of delivery changes only when an attempt ends as sent, and then to that moment |
| InvoiceDelivery.StampTellsTheLastDelivery | src/workers/invoice.processor.ts:640-648 | over every run, sends and crashes included, the row bears the time of the last attempt that ended as sent, its old one if none did, and a new one means that the provider was called |
| InvoiceDelivery.RowTellsTheLastOutcome | src/workers/invoice.processor.ts:566-657 | over every run whether the row is to be sent, its error and its time of failing are what a fresh send or the last attempt that ended left: an error exactly after a failure, with its message, and a time of failing exactly after the third attempt's |
| InvoiceDelivery.StrandedExactly | src/workers/invoice-retry-cron.service.ts:21-29 | in each such state an invoice is stranded if and only if it is pending with nobody at work, and no attempt is left or there is neither a job for the next one nor a recorded error |
| InvoiceDelivery.StrandedExactlyWithoutRecordedError | src/workers/invoice-retry-cron.service.ts:21-29 | a waiting invoice, with or without attempts behind it, can get another attempt if and only if an error is recorded and fewer than three attempts were made |
| InvoiceDelivery.StrandedWithoutCrashExactly | src/workers/invoice-retry-cron.service.ts:21-29 | without crashes, however long attempts take, an invoice is stranded if and only if its first job was lost from the queue before anybody claimed it, or an earlier attempt failed, as the last at work, after the third had been claimed |
| InvoiceDelivery.NoCrashNoStranding | src/workers/invoice-retry-cron.service.ts:21-29 | in every other run without crashes an unsettled invoice at rest has its first job queued or is picked by the cron from 15 minutes later on |
| InvoiceDelivery.OnlyLossStrandsExactlyWithinFifteenMinutes | src/workers/invoice-retry-cron.service.ts:20-27 | in all runs without crashes the lost first job alone strands, if and only if each attempt ends within 15 minutes |
| InvoiceDelivery.SlowFailureStrands | src/workers/invoice.processor.ts:650-657 | if attempts may take 15 minutes, a run without crash, loss or redelivery strands the invoice with no failure recorded, and a delivered one is pending again |
| InvoiceDelivery.StuckExactly | src/workers/invoice.processor.ts:650-657 | a step without a crash leads to a pending row without attempts left and nobody at work if and only if it is such a late failure |
| InvoiceDelivery.UnqueuedSendStrands | src/modules/invoices/invoices.service.ts:185-194 | a send whose first job never reaches the queue leaves its invoice pending without an attempt for good, until another send |
| InvoiceDelivery.StrandedStays | src/workers/invoice-retry-cron.service.ts:21-29 | an invoice waiting without a recorded error or after three attempts is never touched again until a send |
| InvoiceDelivery.FirstCrashStrands | src/workers/invoice.processor.ts:541-553 | a crash in the first attempt leaves the invoice waiting without a recorded error, whether or not the job comes back |
| InvoiceMailer.Mailer.Claim | src/workers/invoice.processor.ts:538-553 | the conditional update succeeds exactly for the next attempt of a pending row and changes only counter and time |
| InvoiceMailer.Mailer.Settle | src/workers/invoice.processor.ts:566-663 | the row written for each outcome: sent, mail switched off, failed |
| InvoiceMailer.Mailer.HandleSendEmail | src/workers/invoice.processor.ts:535-663 | one undisturbed run makes at most one provider call and uses up its attempt, or changes nothing |
| InvoiceMailer.Mailer.RetryPendingEmails | src/workers/invoice-retry-cron.service.ts:18-50 | a cron pass adds exactly the next attempts of the due rows |
| InvoiceMailer.CronJobs | src/workers/invoice-retry-cron.service.ts:21-43 | the jobs of a cron pass are those of rows pending 15 minutes after a recorded failure, with the next attempt's number |
| InvoiceMailer.Mailer.SendInvoice | src/modules/invoices/invoices.service.ts:316-355 | a send needs an address with an at sign, resets the row, removes the invoice's queued attempts and queues the first, and answers the same when queueing fails |
| PlannerRules.IsFeasibleOrder | src/modules/planner/planner.service.ts:377-407 | the loop accepts exactly the orders all of whose known neighbouring pairs fit within ten minutes |
| PlannerRules.AcceptedByTheRowsExactly | src/modules/planner/planner.service.ts:377-407 | from the rows: for every two legs in a row that name a job each, appointment, signing, scanback and drive are at most ten minutes past the later appointment, and legs that name none are passed over |
| PlannerRules.LatenessAddsUp | src/modules/planner/planner.service.ts:390-404 | in an accepted order the k-th stop starts at most 10 k minutes late when the day is really driven |
| PlannerRules.LatenessBoundIsTight | src/modules/planner/planner.service.ts:390-404 | for every k an accepted day reaches that bound exactly |
| PlannerRules.WithinToleranceExactly | src/modules/planner/planner.service.ts:390-404 | every stop is reached within ten minutes if and only if every two stops fit, not only neighbours |
| PlannerRules.ToleranceHoldsExactlyForTwoStops | src/modules/planner/planner.service.ts:377-407 | every accepted order of n stops is within ten minutes throughout if and only if n is at most two |
| PlannerRules.OnTimeExactlyWithoutTolerance | src/modules/planner/planner.service.ts:390-404 | every stop starts on time if and only if every pair fits without the tolerance |
| PlannerRules.AcceptedOrderIsTimeOrder | src/modules/planner/planner.service.ts:447-454 | an accepted order of all jobs whose legs each take over ten minutes is the strictly time-sorted day, so the recorded ids coincide |
| PlannerDay.DetectConflicts | src/modules/planner/planner.service.ts:168-187 | the warning loop yields exactly the conflicts between neighbours, in order |
| PlannerDay.WarningsTellWhatIsMissing | src/modules/planner/planner.service.ts:168-187 | two neighbours are warned of if and only if the recorded drive does not fit between the recorded end and the next appointment; the warning names both in order and the missing minutes rounded up |
| PlannerDay.NoEndNoWarning | src/modules/planner/planner.service.ts:172-174 | without a recorded end there is no warning |
| PlannerDay.DayEndsAsPlannedUntilWorkStarts | src/modules/jobs/jobs.service.ts:114-131 | for jobs whose window is planned: over every run of harmless moves and of window-keeping edits that each find the job as they read it, before work starts, the end the planner reads is appointment plus signing plus scanback if and only if the scanback is not negative |
| PlannerDay.CreatedJobEndsAsPlanned | src/modules/jobs/jobs.service.ts:114-131 | over the same runs it is so for every job from its creation on, whatever lengths, status and type it was created with |
| PlannerDay.FeasibleExactlyWhenConflictsAreSmall | src/modules/planner/planner.service.ts:168-187 | an order whose stops' recorded ends are as planned is accepted if and only if the day view of it warns of no shortfall above ten minutes |
| PlannerDay.NoConflictExactlyWhenOnTime | src/modules/planner/planner.service.ts:168-187 | with recorded ends as planned no warning is shown if and only if the notary is on time everywhere |
| PlannerRoutes.FallbackTimeOrder | src/common/services/ors.service.ts:285-312 | the loop yields one leg per job in time order, each from the job before |
| PlannerRoutes.FallbackIsTheDayInTimeOrder | src/common/services/ors.service.ts:285-312 | the fallback visits every job once, earliest first, numbered from one |
| PlannerRoutes.FallbackDrivesFromStopToStop | src/common/services/ors.service.ts:285-312 | its first leg starts at home, every other at the stop before, with the router's minutes and miles or none |
| PlannerRoutes.LegsOfSteps | src/common/services/ors.service.ts:231-270 | the legs of a solver's steps, unknown steps dropped |
| PlannerRoutes.EveryKnownStepHasItsLeg | src/common/services/ors.service.ts:231-270 | each step that names a job has its leg in order, from home, from the job of the step before, or of no length if that names none; there are no others |
| PlannerRoutes.SolverAgreesWithFallback | src/common/services/ors.service.ts:231-270 | a solver that answers in time order gets exactly the fallback's legs |
| PlannerRoutes.DayRows.WriteLegs | src/modules/planner/planner.service.ts:420-438 | each job row ends with its last leg and its scanback end rewritten; rows without a leg stay |
| PlannerRoutes.DayRows.ApplyRoute | src/modules/planner/planner.service.ts:410-468 | the totals recorded: the route's drive, and the time order's drive unless the orders coincide |
| PlannerRoutes.DayRows.ApplyAcceptedRoute | src/modules/planner/planner.service.ts:441-468 | an accepted order of legs over ten minutes is recorded as saving nothing |
| PlannerRoutes.RoutingKeepsPlannedEnds | src/modules/planner/planner.service.ts:424-437 | writing a route does not move a planned job's end |
| PlannerRoutes.WrittenRouteIsShown | src/modules/planner/planner.service.ts:420-438 | every stop of a written route carries its own leg, number and planned end, and its appointment and lengths are untouched |
| PlannerRoutes.WrittenRouteWarnsExactly | src/modules/planner/planner.service.ts:168-187 | after a route over jobs with planned signing ends is written the day view in its order warns of more than ten minutes if and only if the feasibility check would have refused the route |
| PlannerRoutes.DayRows.Optimise | src/modules/planner/planner.service.ts:343-370 | the solver's order is applied if accepted, the time order otherwise, and the latter never claims a saving |
| PlannerRoutes.PopulateDriveTimes | src/modules/planner/planner.service.ts:240-303 | the in-place walk with its moving origin computes exactly the specified fill of the missing legs |
| PlannerRoutes.FallbackAcceptedExactly | src/modules/planner/planner.service.ts:345-358 | the applied time order is feasible if and only if each of its stops, left on time, lets the next be reached at most ten minutes late |
| PlannerRoutes.FallbackFeasibleExactlyWhenTheDayIs | src/modules/planner/planner.service.ts:345-358 | with services over ten minutes it is feasible if and only if any order of the day's jobs is |
| PlannerRoutes.FallbackAcceptedIfAnyOrderIs | src/modules/planner/planner.service.ts:345-358 | an order accepted with hops over ten minutes is the time order |
| PlannerRoutes.FallbackMayBeLate | src/modules/planner/planner.service.ts:345-358 | two jobs at one time make the applied time order infeasible |
| PlannerRoutes.ShortServiceLosesTheDay | src/modules/planner/planner.service.ts:345-358 | a ten-minute job listed after a longer one of the same time makes the fallback infeasible where the other order is accepted |
| PlannerRoutes.FallbackLosesNothingExactlyOverTheTolerance | src/modules/planner/planner.service.ts:345-358 | over all days of services longer than a given length the fallback is feasible exactly when any order is, if and only if that length is at least the ten minutes of tolerance |
| PlannerRoutes.FillLegAt | src/modules/planner/planner.service.ts:258-302 | one step fills one leg, moves the origin only past known legs, and touches no other job |
| PlannerRoutes.SumDrives | src/modules/planner/planner.service.ts:441-441 | the reduction sums the legs' drive minutes |
| PlannerRoutes.TotalDriveIsTheSum | src/modules/planner/planner.service.ts:441-441 | the total is additive over lists of legs, and for one leg its minutes |
| PlannerRoutes.FillKeepsKnownLegs | src/modules/planner/planner.service.ts:258-263 | a leg that is set is never changed |
| PlannerRoutes.LegsStartAtTheLastKnownPlace | src/modules/planner/planner.service.ts:258-302 | an open leg gets the router's way from the last place the notary is known to be, if its coordinates are not zero; without a way it stays open and the walk goes on from that same place |
| PlannerRoutes.FillIsIdempotent | src/modules/planner/planner.service.ts:240-303 | a second pass changes nothing, even when routes were unavailable |
| PlannerRoutes.NoLegStaysOpenExactly | src/modules/planner/planner.service.ts:265-283 | with every route available no leg stays open if and only if each open leg starts where neither coordinate is zero |
| PlannerRoutes.FreshDayFillsLikeFallback | src/modules/planner/planner.service.ts:240-303 | on a day without legs filling in gives the legs of the time-ordered fallback |
| PlannerGaps.FindGaps | src/modules/planner/planner.service.ts:493-617 | the double loop yields the gaps of the specification |
| PlannerGaps.CandidatesFitWithSlack | src/modules/planner/planner.service.ts:521-575 | from the router and the rows: free time, drive, signing, scanback, drive on and twenty minutes are at most the next appointment |
| PlannerGaps.FitsExactly | src/modules/planner/planner.service.ts:534-584 | a pending job is a candidate if and only if all places are located, the router knows both drives, and drive, signing, scanback, drive and twenty minutes fit; its net is fee less platform fee less double miles at the rate, to the nearest cent |
| PlannerGaps.FittingExactly | src/modules/planner/planner.service.ts:553-597 | every pending job that can be reached and fits is among the fitting ones |
| PlannerGaps.GapIsFound | src/modules/planner/planner.service.ts:521-613 | two neighbours with fifty minutes and a fitting job between them have their gap in the list, ten minutes in from either side, with the best of the fitting jobs |
| PlannerGaps.GapsAreDisjointAndOrdered | src/modules/planner/planner.service.ts:521-532 | on a timed day gaps are at least half an hour, in order and twenty minutes apart |
| PlannerGaps.BestAreTheBest | src/modules/planner/planner.service.ts:599-613 | at most three fitting jobs in descending net order, and nothing left out pays more |
| Sorting.SortIsOrderedPermutation | src/modules/planner/planner.service.ts:254-256 | the stable sort rearranges and orders |
| Sorting.SortIsStable | src/modules/planner/planner.service.ts:254-256 | elements of the same key stay in their order |
| Sorting.SortOfStrictlyOrdered | src/modules/planner/planner.service.ts:447-451 | a strictly ordered rearrangement is what sorting gives |
| JobLifecycle.JobDesk.UpdateStatus | src/modules/jobs/jobs.service.ts:474-533 | a status update judged on the job as read and written over the job as it is, with its timestamps, or one of its two refusals with nothing changed |
| JobLifecycle.JobDesk.WriteEdit | src/modules/jobs/jobs.service.ts:303-467 | an edit computed from the job as read, written over the job as it is, and the status update it asks for |
| JobLifecycle.CreatedCoherentExactly | src/modules/jobs/jobs.service.ts:143-183 | a new job's timestamps fit its status if and only if it starts pending, in review, confirmed or declined |
| JobLifecycle.CreatedAsAsked | src/modules/jobs/jobs.service.ts:114-183 | a new job has what was asked for and the user's default lengths for the rest, and is confirmed at once if entered by hand and pending otherwise |
| JobLifecycle.DefaultsAreTheServices | src/modules/jobs/jobs.service.ts:741-759 | the default lengths are those of the first entry for the type, else an hour of signing, and twenty minutes of scanning for just the three types that need it |
| JobLifecycle.GrantedMovesExactly | src/modules/jobs/jobs.service.ts:42-55 | which moves a job found as read is granted, status by status wanted, and when the scan is asked for first |
| JobLifecycle.CanBeCompleted | src/modules/jobs/jobs.service.ts:474-533 | every job that is not final has moves, one at a time, that complete it, and scan it before if its type must be scanned |
| JobLifecycle.CanBeCancelled | src/modules/jobs/jobs.service.ts:474-533 | and moves that cancel it |
| JobLifecycle.EndsReachedExactly | src/modules/jobs/jobs.service.ts:42-55 | moves made one at a time lead to complete and cancelled from exactly the statuses that are not final, and to declined only from review |
| JobLifecycle.StampsTellTheTimes | src/modules/jobs/jobs.service.ts:498-533 | over every run, however edits and moves overlap, each stamp is the time of the last move written to its status, a broken-off scan excepted, and the status the last one's |
| JobLifecycle.MovesTouchNothingElse | src/modules/jobs/jobs.service.ts:498-533 | a move touches the status, its stamp and the scanback's end alone, which is set when scanning starts and cleared when it is broken off |
| JobLifecycle.RunsAreLawfulExactly | src/modules/jobs/jobs.service.ts:474-533 | every state of a run has ordered timestamps that fit its status, and every move written is one that status allows, if and only if each move is harmless where it is written |
| JobLifecycle.HarmlessExactly | src/modules/jobs/jobs.service.ts:498-533 | a move written over a status other than the one read is permitted and coherent if and only if that status allows it too and leaving scanning was read as such |
| JobLifecycle.EveryRunStaysCoherent | src/modules/jobs/jobs.service.ts:474-533 | over every run of overlapping edits and harmless moves: confirmed, started, scanning and completed times are ordered and each status has just the timestamps that belong to it |
| JobLifecycle.OverlappingMovesLeaveComplete | src/modules/jobs/jobs.service.ts:475-533 | two moves that both read the job in progress take it from complete to cancelled with both stamps |
| JobLifecycle.CoherentKept | src/modules/jobs/jobs.service.ts:474-533 | a single status move or edit keeps timestamps and status coherent |
| JobLifecycle.NoWayBack | src/modules/jobs/jobs.service.ts:41-55 | with harmless moves a job never returns to an earlier stage except from scanning to in progress, and final statuses keep status and timestamps |
| JobLifecycle.ScanEnforcedExactly | src/modules/jobs/jobs.service.ts:486-495 | from any status that is not final, no run of moves that find the job as read completes a scanback-type job unscanned if and only if edits never take its type across the scanback line |
| JobLifecycle.ScanNotSkipped | src/modules/jobs/jobs.service.ts:486-495 | runs whose edits stay on one side of the scanback line never complete such a job unscanned |
| JobLifecycle.RenamingSkipsTheScan | src/modules/jobs/jobs.service.ts:357-359 | a run that renames the type, completes and renames back ends complete, of scanback type, unscanned |
| JobLifecycle.CompletionSkipsScanExactly | src/modules/jobs/jobs.service.ts:486-495 | a harmless completion skips the scan if and only if it finds a scanback-type job in progress |
| JobLifecycle.OverlapSkipsTheScan | src/modules/jobs/jobs.service.ts:475-533 | a completion that read scanning and finds the job taken back to in progress completes it unscanned |
| JobLifecycle.CountdownKeptExactly | src/modules/jobs/jobs.service.ts:364-370 | an edit spares every running countdown if and only if it read the job while scanning or leaves the window alone |
| JobLifecycle.CountdownStands | src/modules/jobs/jobs.service.ts:517-526 | with harmless moves the end fixed when scanning starts stands until scanning is left, through all such edits |
| JobLifecycle.EditKeepsPlanExactly | src/modules/jobs/jobs.service.ts:306-317 | an edit that finds the job as it read it keeps recorded length and signing end in step if and only if it does not take a differing default length with a new type |
| JobLifecycle.LostLengthComesBack | src/modules/jobs/jobs.service.ts:360-363 | after such an edit the next one, even an empty one, restores the old signing end and leaves the scanback end behind |
| JobLifecycle.EveryRunStaysPlanned | src/modules/jobs/jobs.service.ts:289-390 | runs of harmless moves and of other edits that each find the job as they read it keep the signing window planned, and the scanback window until work starts |
| JobLifecycle.EditPlansExactly | src/modules/jobs/jobs.service.ts:360-363 | whatever the job has become since it was read, after an edit the signing is planned if and only if the appointment and length it reckoned with, where it does not write them, lie as far off the row's in opposite directions |
| JobLifecycle.EditReckonsWithTheServices | src/modules/jobs/jobs.service.ts:306-363 | an edit writes the end of the signing by the length given, that of the new type's entry, or the one read, and beside it only what it names |
| JobLifecycle.EditReckonsTheScanback | src/modules/jobs/jobs.service.ts:319-370 | likewise the scanback's length and end, unless the job was read while scanning |
| JobLifecycle.RunsArePlannedExactly | src/modules/jobs/jobs.service.ts:303-390 | over every run of overlapping edits and moves the signing is planned in every state if and only if each edit is so where it is written |
| JobLifecycle.OverlappingEditTakesTheEndBack | src/modules/jobs/jobs.service.ts:303-363 | an edit that changes nothing, written after another has moved the appointment, leaves the end at the old time |
| InvoiceNumbers.NumberReadsBack | src/modules/invoices/invoices.service.ts:138-141 | splitting and parsing a number gives back its sequence number, however large |
| InvoiceNumbers.NumbersLookLikeThis | src/modules/invoices/invoices.service.ts:142-142 | a number is INV, the year and four digits, with dashes between |
| InvoiceNumbers.UnreadableLastIsFollowedByNaN | src/modules/invoices/invoices.service.ts:138-142 | after a last number without a readable third part the next has the text of no number |
| InvoiceNumbers.LatestIsLast | src/modules/invoices/invoices.service.ts:134-137 | the row found is the last in text order among the year's numbers |
| InvoiceNumbers.TextOrderIsNumberOrder | src/modules/invoices/invoices.service.ts:134-141 | up to 9999 text order is number order |
| InvoiceNumbers.TenThousandComesEarlier | src/modules/invoices/invoices.service.ts:134-141 | number 10000 comes before 9999 |
| InvoiceNumbers.NextIsFreshExactly | src/modules/invoices/invoices.service.ts:132-142 | the next number is unused if and only if fewer than ten thousand were issued in the year; after that 10000 is offered again |
| InvoiceNumbers.AllocationsAreConsecutive | src/modules/invoices/invoices.service.ts:132-142 | over any run each year's numbers are 1 to the number of allocations, at most 10000, without gap or repetition |
| InvoiceNumbers.ReadNumberIsNextOrTaken | src/modules/invoices/invoices.service.ts:57-88 | a number read before others issued is still the next one or is taken |
| InvoiceNumbers.PurgedNumberReturnsExactly | src/workers/soft-delete-purge.service.ts:16-30 | a number whose invoice is purged is issued again if and only if it was the year's last |
| InvoiceBooks.InvoiceDesk.GenerateInvoice | src/modules/invoices/invoices.service.ts:29-102 | generation with its five attempts, refusals and concurrent commits does what the specification says |
| InvoiceBooks.InvoiceDesk.TryCreate | src/modules/invoices/invoices.service.ts:61-87 | one attempt: read the number, insert, or learn that the job or the number was taken |
| InvoiceBooks.InvoiceDesk.SyncDraftFromJob | src/modules/invoices/invoices.service.ts:361-418 | an invoice read unpaid and differing takes the job's fee and mileage, one read paid is left alone |
| InvoiceBooks.InvoiceDesk.UpdateInvoice | src/modules/invoices/invoices.service.ts:427-487 | a final fee replaces the job's fee and then the amounts, unless the invoice was read paid |
| InvoiceBooks.InvoiceDesk.MarkPaid | src/modules/invoices/invoices.service.ts:278-289 | an invoice read unpaid becomes paid, one read paid is refused |
| InvoiceBooks.InvoiceDesk.FindStats | src/modules/invoices/invoices.service.ts:224-267 | the accumulating loop computes the totals of the specification |
| InvoiceBooks.StatsAreSums | src/modules/invoices/invoices.service.ts:237-265 | each figure is the sum over all invoices of what it says, overdue those open and sent more than thirty days ago |
| InvoiceBooks.EditJobWrites | src/modules/invoices/invoices.service.ts:361-418 | an edit of a job, with no other request between, leaves its fee, its mileage and its open invoice with both, and nothing else changed |
| InvoiceBooks.EditInvoiceWrites | src/modules/invoices/invoices.service.ts:427-467 | a final fee leaves an open invoice of that fee without travel and its job with that fee, a paid one as it was |
| InvoiceBooks.PlainRequestsWrite | src/modules/invoices/invoices.service.ts:278-289 | paying, completing, deleting and adding change just that |
| InvoiceBooks.EveryRunKeepsItsShape | src/modules/invoices/invoices.service.ts:29-457 | over every interleaving of reads and writes totals are subtotal plus travel and no job has two invoices |
| InvoiceBooks.EveryRunKeepsTheBooks | src/modules/invoices/invoices.service.ts:361-467 | with requests served one at a time, generates racing, an unpaid invoice of an existing job bills the job's present fee |
| InvoiceBooks.WriteKeepsFeeExactly | src/modules/invoices/invoices.service.ts:361-505 | a single write leaves unpaid invoices at their job's fee if and only if it brings no open invoice and its job apart |
| InvoiceBooks.InsertKeepsFeeExactly | src/modules/invoices/invoices.service.ts:51-75 | an insert does if and only if the job still has the fee that was read, or is deleted |
| InvoiceBooks.StaleBillMissesTheEdit | src/modules/invoices/invoices.service.ts:29-75 | a job edited between a generate's read and its insert is billed at the old fee |
| InvoiceBooks.SoundKept | src/modules/invoices/invoices.service.ts:361-467 | every request on its own keeps all of that |
| InvoiceLedger.RivalTakesNext | src/modules/invoices/invoices.service.ts:61-75 | a concurrent commit takes the next number of its year or none |
| InvoiceLedger.CreateStaysGapless | src/modules/invoices/invoices.service.ts:57-93 | generation leaves the sequence without a gap and answers with the job's one invoice |
| InvoiceLedger.GenerateBillsWhatWasRead | src/modules/invoices/invoices.service.ts:51-75 | whoever commits in between, every invoice added bills a complete job's fee and mileage as its request had read them, unpaid and unsent |
| InvoiceLedger.GenerateAnswers | src/modules/invoices/invoices.service.ts:29-50 | no such job, not complete, or the invoice the job has already, with nothing changed |
| InvoiceBooks.PaidIsFrozenExactly | src/modules/invoices/invoices.service.ts:361-457 | over every interleaving paid invoices never change if and only if no write to an invoice's amounts finds it paid with other amounts |
| InvoiceBooks.PaidIsForever | src/modules/invoices/invoices.service.ts:361-457 | every state of a run keeps the invoices paid before it, amounts, number and flag, as long as no payment falls between a request's read and its write |
| InvoiceBooks.LateEditChangesPaid | src/modules/invoices/invoices.service.ts:427-457 | an edit that read the invoice unpaid and writes after its payment changes what was paid |
| InvoiceBooks.EveryRunIsGapless | src/modules/invoices/invoices.service.ts:132-142 | over every interleaving of writes, without a purge, each year's invoices are numbered from one without a gap |
| InvoiceLedger.AttemptFailsExactly | src/modules/invoices/invoices.service.ts:61-87 | an attempt fails if and only if nobody invoiced the job meanwhile and another commit took the number or the year is full |
| InvoiceLedger.GivesUpExactly | src/modules/invoices/invoices.service.ts:57-93 | generation ends in a conflict if and only if each attempt met another commit or found the year full |
| InvoiceLedger.OneQuietAttemptIsEnough | src/modules/invoices/invoices.service.ts:57-93 | with one undisturbed attempt and numbers left generation succeeds |
| InvoiceBooks.ReachableStatsBalance | src/modules/invoices/invoices.service.ts:237-265 | with requests served one at a time billed is paid plus outstanding, and earned differs from the billed fees only through paid invoices and deleted jobs |
| SmartTime.FindsTheInstant | src/modules/marketing/campaigns/smart-time.util.ts:89-107 | with a constant offset around the target and jumps of at most an hour the conversion finds precisely the target |
| SmartTime.RightExactlyWhenItExists | src/modules/marketing/campaigns/smart-time.util.ts:89-107 | with two offsets alternating at will within a day of the wall clock, the result shows it if and only if some instant does, and otherwise misses by the jump |
| SmartTime.LandsInTheLocalMorning | src/modules/marketing/campaigns/smart-time.util.ts:114-143 | with two offsets around the base and the mornings of its day and the next two unskipped, the slot is at the asked minute between 8:00 and 11:00 local, after the base, within 25 hours when the next day is used |
| SmartTime.NextDayExactly | src/modules/marketing/campaigns/smart-time.util.ts:133-142 | under the same conditions the next local day is used if and only if adding 24 hours does not carry the clock past a second midnight |
| SmartTime.WithinADayWithoutSummerTime | src/modules/marketing/campaigns/smart-time.util.ts:114-143 | while the offset stays the same around the base the slot is after it and within 24 hours |
| SmartTime.EveningBeforeSummerTimeSkipsADay | src/modules/marketing/campaigns/smart-time.util.ts:133-142 | at 23:30 before the change the slot is two days on |
| SmartTime.LaterFractionLaterMinute | src/modules/marketing/campaigns/smart-time.util.ts:119-120 | a later fraction never gives an earlier minute |
| SmartTime.PastEightIsWithinThreeHours | src/modules/marketing/campaigns/smart-time.util.ts:119-120 | the minute past eight is 180 times the fraction to the nearest minute, the fraction cut off at 0 and 1 |
| Csv.FieldReadsBack | src/modules/marketing/csv.util.ts:15-20 | a printed field before a break is read back unchanged and reading stops at the break |
| Csv.RoundTripExactly | src/modules/marketing/csv.util.ts:22-24 | reading the printed table by RFC 4180 section 2 returns it if and only if the table and all rows are non-empty |
| Csv.PrintedAsIsExactly | src/modules/marketing/csv.util.ts:5-20 | a cell is printed as it is if and only if it holds no quote, comma or line break |
| Csv.PrintingIsInjective | src/modules/marketing/csv.util.ts:5-24 | two such tables print alike if and only if they agree cell by cell, a missing value counting as empty text |
| Csv.TrailingBreakExactly | src/modules/marketing/csv.util.ts:22-24 | a reader that allows a break after the last record returns the table unless it ends, after other rows, in one blank cell |
| Citt.RunCheck | src/modules/citt/citt.service.ts:90-189 | unanswerable offers are declined; otherwise the route from the previous job or home and the two neighbours decide |
| Citt.Decide | src/modules/citt/citt.service.ts:191-277 | the branches compute the specified gaps, verdict and profit |
| Citt.MeasuredExactly | src/modules/citt/citt.service.ts:143-189 | an offer is measured if and only if it is located, the job before has stored coordinates or home is set, and the router knows the way from there |
| Citt.AnswersTellTheRoom | src/modules/citt/citt.service.ts:191-241 | the gaps are the whole minutes left on either side, it can be made exactly if none is overrun, and then its profit is given |
| Citt.NeighboursAreNearest | src/modules/citt/citt.service.ts:143-153 | the two neighbours enclose the offered time with no job of the day between |
| Citt.VerdictsMean | src/modules/citt/citt.service.ts:191-277 | what each verdict means on the clock to the millisecond and in cents, in both directions |
| Citt.VerdictIsMonotone | src/modules/citt/citt.service.ts:243-277 | a higher fee, lower platform fee, shorter drive, signing or scanback never worsens the verdict, through all rounding |
| Citt.PartsAddUpWithinACent | src/common/utils/profitability.util.ts:27-42 | rounded net, mileage and platform fee add up to the fee within one cent |
| Citt.ProfitToTheCent | src/common/utils/profitability.util.ts:27-42 | mileage there and back, net and hourly figure are their amounts to the nearest cent |
| Citt.PartsAddUpExactly | src/common/utils/profitability.util.ts:27-42 | for whole-cent amounts they add up exactly if and only if the mileage cost is not on half a cent |
| Citt.AgreesBeforeExactlyWithoutScanback | src/modules/citt/citt.service.ts:195-205 | for located offers of some length not before a job, the check's answer and the planner's warning agree for all of them and all drives if and only if that job has no scanback |
| Citt.AgreesAfterExactlyWithoutDrive | src/modules/citt/citt.service.ts:207-211 | for such offers before a job they agree if and only if no drive to it is recorded |
| Audience.PreviewAudience | src/modules/marketing/campaigns/audience-resolver.service.ts:94-196 | the preview's counts add up to the audience and its sendable count is the number of recipients |
| Audience.ResolveSendable | src/modules/marketing/campaigns/audience-resolver.service.ts:203-250 | the resolver returns exactly the sendable leads in order |
| Audience.ListedAudienceExactly | src/modules/marketing/campaigns/audience-resolver.service.ts:62-86 | a listed audience reaches exactly its sendable listed leads, and excluded leads are never reached |
| Audience.FilteredAudienceExactly | src/modules/marketing/campaigns/audience-resolver.service.ts:62-86 | a filtered audience is exactly the leads not struck out that have every value given and one of the tags given |
| Audience.RecipientsInOrder | src/modules/marketing/campaigns/audience-resolver.service.ts:203-250 | the recipients are in the order of the leads |
| Audience.SendableIds | src/modules/marketing/campaigns/audience-resolver.service.ts:147-157 | the preview's sendable ids are the resolver's |
| Audience.SortOut | src/modules/marketing/campaigns/audience-resolver.service.ts:119-134 | the first loop counts excluded and address-less leads and keeps the rest in order |
| Audience.CountUndrafted | src/modules/marketing/campaigns/audience-resolver.service.ts:159-174 | the leads without a draft for the steps are counted among the sendable ones |
| Audience.LookupSuppressed | src/modules/marketing/campaigns/audience-resolver.service.ts:136-145 | looking up a thousand addresses at a time finds what one lookup would |
| Audience.FatesAddUp | src/modules/marketing/campaigns/audience-resolver.service.ts:119-157 | excluded, without e-mail, suppressed and sent partition the audience |
| Audience.CountsExactly | src/modules/marketing/campaigns/audience-resolver.service.ts:119-157 | what each count counts: marked leads, others without an address, of the rest the suppressed and the others |
| Audience.MailableFirst | src/modules/marketing/campaigns/audience-resolver.service.ts:203-225 | filtering in the query or in the loop gives the same recipients |
| Audience.UndraftedBounds | src/modules/marketing/campaigns/audience-resolver.service.ts:159-174 | the missing-draft count is at most the sendable ones and zero exactly when all have drafts |
| Audience.UndraftedExactly | src/modules/marketing/campaigns/audience-resolver.service.ts:159-174 | a lead is counted if and only if no message with a text is to it for one of the steps, and the counts add up |

## Left out

- Concurrency inside a database transaction: each is one atomic step. Only the one that stores a request asks for serializable isolation, and a race lost there ends like a refused request. Approving and cancelling run at the default level, where the unique `booking_id` of a job (prisma/schema.prisma:302) is what stops a double approval; an approval overlapping another change of the same booking is not modelled.
- Plan and page-enabled gates, fees, notes, references, notifications and e-mail texts of bookings.
- Service configuration parsing (`normalizeServices`): the model starts from the normalised list.
- Changing services or buffer while bookings are pending, and jobs that `JobsService` creates or moves, in the booking runs: the source checks neither.
- Days are 24 hours in the slot engine; changes of offset are treated in `SmartTime` only.
- BookingService.BookingDesk.Refuse: one atomic step, where the source reads the status and writes the row separately.
- BookingService.BookingDesk.Release: one atomic step, where the source reads the status before its transaction and not again inside.
- BookingSlots.PageIsRightExactly: like `PageShowsTrulyExactly` and `PageHidesNothingExactly` for a grid time on its own day (`OnDay`), and not for days so close to the epoch that a request for the evening before could not have been made since.
- BookingSlots.AlternativesAreGranted: the lost time is compared as an instant, where the source compares date and clock text.
- InvoiceDelivery.AtMostThreeCallsPerSend: one invoice at a time; the queue's refusal of a job id it already holds is one of the modelled outcomes, not enforced.
- InvoiceDelivery.PromptCyclesAreOrderly: speaks of cycles that start idle; a manual send beside an attempt still in flight is covered by the claim count only. So do the other results about cycles.
- PDF generation, its pending flag and queue, recipients' names and notes on invoices.
- Coordinates are opaque pairs and the routing service a function of two places; the solver's choice of order is arbitrary.
- Route identity in `applyRoute` compares lists of ids, where the source compares them joined by a bar.
- Day summaries, scanback blocks, caching and the `saved` figure of the day view.
- Text order is by character code; a database collation that orders digits or hyphens otherwise is not modelled. `parseInt` is modelled for the texts the sequence produces.
- Amounts are whole cents throughout the ledger; the source adds floating-point numbers and stores two decimals.
- InvoiceBooks.EveryRunIsGapless: four-digit years of the clock only, and no purge of soft-deleted jobs, whose invoices go with them; what a purge does to the numbers is `InvoiceNumbers.PurgedNumberReturnsExactly`.
- InvoiceBooks.EveryRunKeepsTheBooks: requests are served one at a time, as in `SoundKept`. For interleaved requests the fee clause is exact for each write (`InvoiceBooks.WriteKeepsFeeExactly`), not for a whole run.
- InvoiceBooks.ReachableStatsBalance: requests are served one at a time; between the writes of a request the totals of fees can be apart.
- PlannerDay.DayEndsAsPlannedUntilWorkStarts: `updateJobMileage` of the reports module moves an appointment without its end times (src/modules/reports/reports.service.ts:367-413) and is not among the edits; neither here nor in `CreatedJobEndsAsPlanned` and `JobLifecycle.EveryRunStaysPlanned`.
- JobLifecycle.EveryRunStaysCoherent: the time stamps of status updates are taken to be in the order of their writes.
- Profitability fields that edits recompute on jobs, and the effective hourly rate beyond its computation.
- Local dates are day numbers; the calendar arithmetic and the offset lookup of the Intl library are not part of this model.
- CSV cells are text or missing; numbers, dates and booleans enter as their printed text. Sending the file is left out.
- Texts, caching, tracking and the geocoding failures' figures in the CITT answer.
- Object-id validation and upper-casing of the state filter in the audience; fields a lead lacks are empty text.
- Regex-driven parsers, document extraction, reports, calendar, subscription and authentication modules.
