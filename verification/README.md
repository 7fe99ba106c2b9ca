# A verified model of the school-management API

The API keeps many schools in one database. Each service method reads a few tables, checks, and
writes a few rows back. This project models the services whose rules are hardest to get right and
proves what they promise over every input and every run. Tables are sequences or maps, an operation
is a function from tables to tables and an error, and a class whose methods change those tables row by
row is proved to do exactly what the function says. Theorems about runs are then proved about the
functions. Instants are milliseconds since 1970-01-01T00:00Z, money is exact reals with
`Math.round(x * 100) / 100` written out.

- `Calendar`, `PktTime`: the civil calendar of section 21.4.1 of ECMA-262 (months on one line, day-0
  and month-13 carrying, the two-digit-year rule of `Date.UTC`) and the month arithmetic of billing.
- `Subscriptions`, `BillingRuns`, `BillingEffects`, `SubscriptionsService`: creating, onboarding,
  re-pricing, cancelling and renewing subscriptions, their billing records, the daily sweep, and manual
  school status edits.
- `Reports`: the month buckets of the financial report and the money that falls into them.
- `TenantScoping`: the query rewrite that keeps schools apart, against a model of fifteen table
  operations with arbitrary `where` trees.
- `Csv`, `SheetNames`: the CSV printers with a reader that undoes them, and workbook sheet names.
- `Grading`, `ReportCards`: grade bands, competition ranking, and the report card's two percentages.
- `Timetable`: the round-robin generator.
- `FeeCalc`, `Outstanding`: discounts, line items, and balances grouped by student and by class.
- `Admissions`, `AdmissionsEffects`, `AdmissionsService`: the nine-stage pipeline with invoices, payments
  and refunds.
- `Library`, `LibraryEffects`, `ReservationQueue`, `LibraryService`: catalogue, members, loans, fines,
  reservations.
- `Hostel`, `HostelEffects`: rooms, beds and allocations.
- `Money`, `Decimals`, `FiniteSets`, `Selections`, `Tables`, `Wrappers`: rounding, numerals, counting,
  what it is to select rows and to change one, and the shared option, result and error types.

The theorems of `BillingEffects`, `LibraryEffects`, `HostelEffects` and `AdmissionsEffects` say of each
operation exactly when it succeeds, which rows it writes and with what, and that nothing else changes.
Theorems on selections say that a list is exactly the rows meant, once each and in order, a description
that fits one list only (`SelectionIsUnique`).

## Where the code falls short of its promise

Each of these is kept as the code has it, with the exact condition under which the promise holds and a
concrete case in which it does not.

- `Date.UTC` reads the years 0 to 99 as 1900 to 1999. A month step is 28 to 31 days long exactly when
  it does not start in those years (`StepLength`; `EarlyStepExample` jumps from January of year 50 to
  February 1950), and "start of today" is the day's midnight under the same condition
  (`StartOfTodayIsMidnight`).
- The report stops at 36 buckets, so later months of a longer range are in the totals but in no bucket.
  `EveryInstantHeldOnce` gives the exact ranges that are bucketed fully, early years included;
  `LongRangeMissesItsEnd` is January 1970 to January 1973.
- Tenant scoping does not hide another tenant's unique keys: a write that takes one fails where it would
  have succeeded alone. That happens exactly when the tenant's own table would take the write and a row
  written has a unique key of another tenant's row (`ScopingIsolates`; `ForeignKeyExample` is a certificate
  whose verification code another school's certificate has). It never happens, over whole runs, when every
  key includes the tenant (`TenantKeysNoninterference`), or does so or is a column such as the identifier
  for which calls bring only fresh values (`FreshValuesNoninterference`). The data of `updateMany` is not
  stamped, so data that names another tenant hands over every row it matches (`UnstampedUpdateMany`,
  `HandOverExample`).
- A manual status edit can open a school whose subscription stays suspended: exactly the edits that
  `LeavesLocked` rules out (`ManualEditLocks`, over runs `RunLocks`; `ManualEditUnlocks` is such a run).
- `src/platform/billing.service.ts:84` says confirming throws unless there is exactly one pending
  record; the code takes the latest. In every run there is exactly one, so the two agree
  (`ConfirmNeverFails`). Confirming sets `paidAt` but never `confirmedAt`, a column the schema also has.
- An invoice that totals zero is never `paid`, so a free admission can not be enrolled
  (`EnrollsExactlyWhenPaid`), then or ever after (`FreeAdmissionNeverEnrolls`; in `FreeAdmissionExample`
  a fee of 100 is waived in full and the application goes through all nine stages).
- Discounts beyond the fee stop the charge at zero while the printed items go on below it: in whole cents
  items and charge agree exactly when the discounts do not exceed the fee (`ItemsAddUp`,
  `OverDiscountExample`).
- Lowering a room's capacity below an occupied bed can withhold a room that has a free bed; which rooms,
  exactly, is `WronglyWithheld`, with a run in `WithheldExample`.
- Queue positions are 1 to n, each held once, exactly when no two pending reservations of the book were
  made at the same instant (`PositionsAreABijection`; `TiedReservations` is a run with two firsts).
- A record with no fields prints like a record with one empty field, so a printed table reads back as
  itself exactly when it and all its records are non-empty (`AnyFileRoundTrip`). `EmptyRecordExample` is
  within the printer's parameter types only: the reports built today all have columns.
- A sheet name fits Excel's 31 characters exactly when its base name is free or some candidate of at most
  31 characters is (`FirstFreeFits`). With `Summary` in use that is so for the first 98 sheets of any
  workbook (`NameSheets`), and not for the 99th of `NinetyNineSheetsOverflow`, again within the parameter
  types only: the reports built today have at most five tables with fixed titles.

## Model

| member | source | states |
|---|---|---|
| Calendar.MonthOfInstant | src/common/dates/pkt-time.ts:34-36 | year, month and day accessors place every instant inside the month they name |
| Calendar.MonthIsUnique | src/common/dates/pkt-time.ts:34-36 | conversely a day inside a month is reported as that month and day |
| Calendar.MakeDayOnLine | src/common/dates/pkt-time.ts:38-50 | `Date.UTC` with any month and day, day 0 and month 13 included, is addition on one line of months |
| Calendar.DateRoundTrip | src/common/dates/pkt-time.ts:42-50 | taking an instant apart and rebuilding it gives it back exactly outside the years 0 to 99 |
| PktTime.StartOfTodayIsMidnight | src/common/dates/pkt-time.ts:17-25 | it is a Pakistan midnight, and the one of the day holding `now` exactly when the year is not 0 to 99 |
| PktTime.StartOfTodayInUtc | src/common/dates/pkt-time.ts:17-25 | in UTC: today starts at 19:00:00.000, on the day the clock five hours ahead shows, exactly when the year is not 0 to 99 |
| PktTime.StartOfTodayExample | src/common/dates/pkt-time.ts:17-25 | 01:30 in Pakistan on 2 January 1970 has its day start at 19:00 UTC on the first |
| PktTime.StepOnLine | src/common/dates/pkt-time.ts:32-52 | one step lands in the next month, same time of day, day clamped to that month's length |
| PktTime.StepInUtc | src/common/dates/pkt-time.ts:32-52 | the same read at `t + 18_000_000`: month by month on the +05:00 clock |
| PktTime.MonthEndExample | src/common/dates/pkt-time.ts:32-52 | 31 January 2026 renews on 28 February, Pakistan midnight to midnight |
| PktTime.AddDaysMovesDays | src/common/dates/pkt-time.ts:54-56 | n days later is n Pakistan days later at the same time of day, n times 86 400 000 ms |
| PktTime.StepLength | src/common/dates/pkt-time.ts:32-52 | a step always moves forward, by 28 to 31 days exactly outside the misread years |
| PktTime.EarlyStepExample | src/common/dates/pkt-time.ts:42-50 | a step from January of year 50 that lands in February 1950 |
| PktTime.ChainOfMonths | src/common/dates/pkt-time.ts:32-52 | n steps advance the month index by n, keep the time of day, and leave the start day clamped by the months passed, never below 28 or the start day |
| PktTime.ChainStep | src/common/dates/pkt-time.ts:32-52 | along a chain the day of the month never rises and each correctly read step is 28 to 31 days |
| PktTime.PeriodsTile | src/platform/subscriptions.service.ts:194-195 | successive periods tile time: every instant from the start to the n-th end is in exactly one of them |
| Subscriptions.ConfirmNeverFails | src/platform/billing.service.ts:84-102 | in every reachable state a subscription has one pending record, for its current period, so confirming finds it |
| Subscriptions.StepKeeps | src/platform/subscriptions.service.ts:68-229 | every operation keeps: one open charge per subscription issued at its period start, periods one month long, charges chained month by month, grace end set exactly in grace or suspension |
| Subscriptions.RunKeeps | src/platform/subscriptions.service.ts:68-229 | the same after every run of create, onboard, update, confirm, sweep and status edits |
| Subscriptions.SweepKeeps | src/platform/subscription-sweep.service.ts:39-115 | the sweep keeps the billing invariant and sets the grace end exactly in grace or suspension |
| Subscriptions.ChainGrows | src/platform/subscriptions.service.ts:207-212 | a new charge one month after the subscription's last extends the chain of all its charges |
| BillingRuns.NthChargeDate | src/platform/subscriptions.service.ts:163-168 | the n-th charge is issued exactly n calendar months after the first, whatever the payment dates |
| BillingRuns.ChargedExactlyOnce | src/platform/subscriptions.service.ts:194-212 | from the first charge to the current period's end, every instant is covered by exactly one record |
| BillingRuns.FirstCharge | src/platform/subscriptions.service.ts:77-94 | a subscription has a first and an open charge, and its period ends as many months after the first as it has charges |
| BillingRuns.StepRecords | src/platform/billing.service.ts:66-113 | no operation alters a charge's amount or date, and one it adds is for the current period at the current price |
| BillingRuns.ChargesAtPriceInForce | src/platform/subscriptions.service.ts:128-143 | each record of a run was issued by one step, at the price in force after that step |
| BillingRuns.PaymentDatesDoNotShift | src/platform/subscriptions.service.ts:163-168 | changing when payments were received changes nothing but the recorded payment dates, over any run |
| BillingRuns.ManualEditLocks | src/platform/schools.service.ts:218-236 | a manual edit keeps suspended subscriptions locked if and only if it does not open a school whose subscription is suspended |
| BillingRuns.RunLocks | src/platform/subscription-sweep.service.ts:77-95 | in every run without such an edit, a suspended subscription's school is suspended |
| BillingRuns.UneditedRunLocks | src/platform/subscription-sweep.service.ts:77-95 | so in every run without manual edits |
| BillingRuns.ManualEditUnlocks | src/platform/schools.service.ts:218-236 | for any price, day and grace days: onboarded, unpaid, swept when the grace days are over, then opened by hand while still suspended |
| BillingRuns.SweepCatchesUp | src/platform/subscription-sweep.service.ts:18-21 | sweeping now and again later equals sweeping once later, but for reminder times; repeating a sweep changes nothing |
| BillingRuns.SweepLeavesNothingDue | src/platform/subscription-sweep.service.ts:39-95 | after a sweep nothing is left to expire or suspend by the clocks it read |
| BillingRuns.SweepTimeline | src/platform/subscription-sweep.service.ts:39-95 | an unpaid subscription is active before its period end, in grace for the grace days of 86 400 000 ms each, then suspended, and its school is newly locked only then |
| BillingRuns.ConfirmRestoresAccess | src/platform/subscriptions.service.ts:194-220 | confirming opens the school from any status, no sweep before the new period's end touches it again, and nobody else changes |
| BillingEffects.CreateEffect | src/platform/subscriptions.service.ts:68-113 | refused exactly for a missing school or a second subscription; else price and first charge are the amount given, from the start of today for a month, and nothing else changes |
| BillingEffects.OnboardEffect | src/platform/schools.service.ts:118-180 | adds an active school with its subscription and first charge, and touches no other |
| BillingEffects.RepriceEffect | src/platform/subscriptions.service.ts:128-143 | that subscription costs exactly the new amount; its other columns, every other row, tenants and records are as before |
| BillingEffects.RepricedIsCharged | src/platform/subscriptions.service.ts:163-212 | the next confirmed payment issues a charge of exactly the new amount, for the next period |
| BillingEffects.CancelEffect | src/platform/subscriptions.service.ts:145-161 | that subscription is canceled without a grace end, and nothing else changes |
| BillingEffects.UpdateRefuses | src/platform/subscriptions.service.ts:115-127 | refused exactly for a price with a cancellation, else for an unknown subscription; an empty update changes nothing |
| BillingEffects.ConfirmEffect | src/platform/subscriptions.service.ts:170-229 | the open charge is paid and dated, the row renewed from its period end, one charge at its price added, and a suspended school made active |
| BillingEffects.ConfirmRefuses | src/platform/subscriptions.service.ts:170-186 | refused as not found exactly for an unknown subscription; a refusal changes nothing |
| BillingEffects.SweepEffect | src/platform/subscription-sweep.service.ts:39-95 | each row after a sweep, with the grace days counted in milliseconds |
| BillingEffects.SweepTenantEffect | src/platform/subscription-sweep.service.ts:77-95 | the sweep suspends exactly the schools whose grace window is over and edits no other |
| BillingEffects.SetStatusEffect | src/platform/schools.service.ts:218-236 | sets the status asked for on that school alone, or refuses a missing one |
| SubscriptionsService.PlatformDatabase.CreateSubscription | src/platform/subscriptions.service.ts:68-113 | creates the subscription and its first charge at the amount given, or fails on a missing school or an existing subscription |
| SubscriptionsService.PlatformDatabase.UpdateSubscription | src/platform/subscriptions.service.ts:115-161 | sets exactly the new price or cancels, not both, changing no other column or row, and keeps the database constraints |
| SubscriptionsService.PlatformDatabase.ConfirmPayment | src/platform/subscriptions.service.ts:170-229 | the sequence of writes is one renewal; in a billed state it fails only for an unknown subscription and leaves a billed state |
| SubscriptionsService.PlatformDatabase.CreatePendingRecord | src/platform/billing.service.ts:66-82 | the new charge is the one the next payment confirms when it is issued after the pending ones, and other subscriptions' next charge is unchanged |
| SubscriptionsService.PlatformDatabase.FindLatestPending | src/platform/billing.service.ts:94-97 | the scan finds the pending record issued last |
| SubscriptionsService.PlatformDatabase.ConfirmPendingRecord | src/platform/billing.service.ts:85-113 | marks that record paid and no other, or fails and changes nothing |
| SubscriptionsService.PlatformDatabase.ExpireLapsedPeriods | src/platform/subscription-sweep.service.ts:39-75 | the loop moves exactly the lapsed active rows to grace, until exactly the grace days after their period end, in whatever order they come |
| SubscriptionsService.PlatformDatabase.SuspendLapsedGraceWindows | src/platform/subscription-sweep.service.ts:77-115 | the loop suspends exactly the overdue rows and their schools, in whatever order they come |
| SubscriptionsService.PlatformDatabase.RunSweep | src/platform/subscription-sweep.service.ts:34-37 | both passes, each with its own clock reading |
| Reports.EnumerateMonths | src/reports/reports.service.ts:557-579 | the cursor loop builds the specified buckets and stops |
| Reports.MonthsShape | src/reports/reports.service.ts:557-579 | the buckets are the calendar months from start to end as `Date.UTC` reads them, at most 36, and one long bucket where a range crosses year 0 |
| Reports.BucketsTile | src/reports/reports.service.ts:567-577 | buckets never overlap and leave no gap: they hold each instant between the first and last cursor once, and no other |
| Reports.EveryInstantHeldOnce | src/reports/reports.service.ts:557-579 | every millisecond of the range is in exactly one bucket if and only if the range is one the loop buckets fully |
| Reports.LongRangeMissesItsEnd | src/reports/reports.service.ts:564-567 | the last of 37 months is in no bucket |
| Reports.EndOfDayIsLast | src/reports/reports.service.ts:591-595 | it is the last millisecond of the UTC day |
| Reports.OverlapIsASharedInstant | src/reports/reports.service.ts:464-483 | a month takes in an amount exactly when the month and the span of the amount share an instant |
| Reports.PaymentsSelected | src/reports/reports.service.ts:205-208 | revenue counts exactly the payments not refunded from the start to the end of the last day, once each, in order |
| Reports.PayslipsSelected | src/reports/reports.service.ts:216-229 | expenses count exactly the payslips of approved periods that touch the range, once each, in order |
| Reports.InvoicesSelected | src/reports/reports.service.ts:209-215 | billing counts exactly the invoices due in the range and not cancelled, once each, in order |
| Reports.TrendCountsHits | src/reports/reports.service.ts:464-484 | the months add up to each amount times the number of months it falls in |
| Reports.RevenueAddsUp | src/reports/reports.service.ts:464-472 | monthly revenue sums to the total: exactly in whole cents, else within half a cent per month and one |
| Reports.ExpensesCoverTotal | src/reports/reports.service.ts:473-483 | monthly expenses sum to at least the total, within rounding for any pay and fully in whole cents, each payslip counted once per month its period touches |
| Reports.BuildMonthlyTrend | src/reports/reports.service.ts:458-485 | the columns are the rounded month totals of payments and payslips |
| Reports.RateIsAShare | src/reports/reports.service.ts:231-243 | when nothing is overpaid, what is billed is collected or outstanding, and the rate is between 0 and 100, and 100 when nothing is owed |
| Reports.RateIsCollectedOverBilled | src/reports/reports.service.ts:235-236 | the rate times what is billed is 100 times what is collected, to half a hundredth of a percent, and 0 when nothing is billed |
| Reports.GetFinancialReport | src/reports/reports.service.ts:198-246 | totals over exactly the selected rows; the columns are their month totals and agree with them, and the collection rate with the outstanding amount |
| TenantScoping.ApplyTenantScoping | src/common/prisma/tenant-scoping.ts:61-122 | passes unscoped models through, refuses without a tenant, else sends each payload in its own place with only the tenant set, and a filter that selects the own rows the given one selects |
| TenantScoping.PayloadsAreTheCallers | src/common/prisma/tenant-scoping.ts:87-105 | per operation: which payloads are stamped, row by row the columns given and the tenant; all else as the caller gave it |
| TenantScoping.ScopedSelectsOwn | src/common/prisma/tenant-scoping.ts:80-85 | the rewritten filter selects the own rows that the given one does, and a unique one keeps its selectors at the top level |
| TenantScoping.ScopedButForWhere | src/common/prisma/tenant-scoping.ts:80-105 | but for the filter the rewritten call is the one meant, which is defined from the arguments alone |
| TenantScoping.ScopedIsMeant | src/common/prisma/tenant-scoping.ts:80-105 | on the tenant's own rows the rewritten call is the call it meant: the caller's payloads in the tenant's own name |
| TenantScoping.AttemptCommutes | src/common/prisma/tenant-scoping.ts:80-105 | before uniqueness, the scoped call on the whole table does to the tenant's rows what the call does alone, and nothing to the rest |
| TenantScoping.RowsAfter | src/common/prisma/tenant-scoping.ts:87-105 | a call leaves rows that were there and rows it wrote, and writes exactly the rows named for its operation |
| TenantScoping.MatchingSelects | src/common/prisma/tenant-scoping.ts:80-85 | a read finds exactly the matching rows, in order |
| TenantScoping.DropAllSelects | src/common/prisma/tenant-scoping.ts:80-85 | `deleteMany` leaves exactly the other rows, in order |
| TenantScoping.PatchAllAt | src/common/prisma/tenant-scoping.ts:95-98 | `updateMany` patches exactly the matching rows, in place |
| TenantScoping.FirstAt | src/common/prisma/tenant-scoping.ts:88-91 | `update` and `delete` change the first matching row alone |
| TenantScoping.PartsSelect | src/common/prisma/tenant-scoping.ts:68-77 | a tenant's rows are exactly those that name it, in order, and the others the rest |
| TenantScoping.ScopingIsolates | src/common/prisma/tenant-scoping.ts:61-122 | same rows, same answer, others untouched, unless and only unless the tenant's own table would take the write and a row written has another tenant's unique key |
| TenantScoping.ReadsAndDeletesTakeNothing | src/common/prisma/tenant-scoping.ts:80-85 | reads and deletes never take another tenant's key |
| TenantScoping.TenantKeysIsolate | src/common/prisma/tenant-scoping.ts:61-122 | with keys that include the tenant, always |
| TenantScoping.UnstampedUpdateMany | src/common/prisma/tenant-scoping.ts:95-98 | `updateMany` data naming another tenant leaves the other tenants' rows alone if and only if it matches nothing or the write is refused |
| TenantScoping.HandOverExample | src/common/prisma/tenant-scoping.ts:95-98 | an `updateMany` that gives the caller's row to another school |
| TenantScoping.ForeignKeyExample | src/certificates/certificates.service.ts:119-127 | a certificate that is refused only because another school's has its verification code |
| TenantScoping.Noninterference | src/common/prisma/tenant-scoping.ts:49-60 | over any run of harmless calls by many tenants, one tenant's rows and answers are what its calls alone give on its rows |
| TenantScoping.TenantKeysHarmless | src/common/prisma/tenant-scoping.ts:49-60 | when all keys include the tenant, every run is harmless unless `updateMany` data names another tenant |
| TenantScoping.TenantKeysNoninterference | src/common/prisma/tenant-scoping.ts:49-60 | so such runs are always free of interference |
| TenantScoping.FreshCallIsHarmless | src/common/prisma/tenant-scoping.ts:87-105 | a call that brings only fresh values of the columns unique across schools takes no other tenant's key |
| TenantScoping.ValuesAfter | src/common/prisma/tenant-scoping.ts:87-105 | a call leaves only values that were there or that it brought |
| TenantScoping.FreshValuesHarmless | src/common/prisma/tenant-scoping.ts:49-60 | every run of such calls is harmless, with any number of keys that include the tenant or are such a column |
| TenantScoping.FreshValuesNoninterference | src/common/prisma/tenant-scoping.ts:49-60 | so a model with a generated identifier and tenant-bearing keys is free of interference |
| Csv.FieldRoundTrip | src/students/students.service.ts:416-418 | any field, with commas, quotes and newlines, is read back whole by the reader of section 2 of RFC 4180 |
| Csv.AnyFileRoundTrip | src/students/students.service.ts:211-224 | any table reads back as what its printing shows, and as itself exactly when nothing in it is empty |
| Csv.EmptyRecordExample | src/students/students.service.ts:211-224 | a record without fields comes back with one |
| Csv.PrintIsInjective | src/students/students.service.ts:211-224 | different tables without empty records never print alike |
| Csv.ExportRoundTrip | src/students/students.service.ts:199-225 | an export reads back as the header and exactly the exported rows |
| Csv.ExportColumns | src/students/students.service.ts:202-225 | the seven columns of the header and of each student, unknown classes and sections named so |
| Csv.AppendTable | src/reports/export/report-csv.ts:26-37 | the inner loop prints title, columns, sanitised rows and a blank line |
| Csv.RenderReportCsv | src/reports/export/report-csv.ts:13-40 | the printed report reads back as its title, summary and tables with sanitised cells |
| Csv.HeadShows | src/reports/export/report-csv.ts:14-24 | title and subtitle, a blank, and the summary if there is one |
| Csv.TableShows | src/reports/export/report-csv.ts:26-37 | each table starts where the ones before end: title, columns, sanitised rows, a blank |
| Csv.SanitizedIsInert | src/reports/export/report-export-model.ts:39-41 | no sanitised cell starts a formula; exactly the harmless cells are unchanged, and the others get an apostrophe |
| SheetNames.TakenAtMostUsed | src/reports/excel/report-excel.ts:60-63 | tried candidates differ, so at most as many are taken as names are in use, and the loop ends |
| SheetNames.BaseIs | src/reports/excel/report-excel.ts:53-57 | the base name is the title with forbidden characters blanked, trimmed and cut to 31, or `Sheet` |
| SheetNames.FirstFreeIsUnique | src/reports/excel/report-excel.ts:52-66 | the description of the chosen name fits one name only |
| SheetNames.FirstFreeFits | src/reports/excel/report-excel.ts:52-66 | the name is new and clean; it is at most 31 long if and only if the base or some short candidate is free, as with up to 98 names in use, `Summary` among them |
| SheetNames.NinetyNineSheetsOverflow | src/reports/excel/report-excel.ts:31-33 | 99 equal titles of 30 characters give the last sheet a name of 32 |
| SheetNames.Workbook.SheetName | src/reports/excel/report-excel.ts:52-66 | returns the base name or the least free suffix, and records it |
| SheetNames.NameSheets | src/reports/excel/report-excel.ts:31-33 | each title gets the first free name after the ones before it; all are distinct and clean, and the first 98 fit |
| Grading.GradesAreMonotone | src/examinations/grading-scale.ts:38-46 | a higher percentage never gets a lower grade point, and exactly those below 33 fail |
| Grading.GradeScale | src/examinations/grading-scale.ts:27-46 | the letter and points of every percentage |
| Grading.ComputeRanks | src/examinations/grading-scale.ts:54-76 | the loop gives every id one plus the number of values strictly above its own, the lowest if it has several, and nothing to an id without a value |
| Grading.BetterCounts | src/examinations/grading-scale.ts:54-72 | the count behind a rank is the number of entries with a strictly greater value |
| Grading.RanksIgnoreOrder | src/examinations/grading-scale.ts:54-76 | the same entries in any order get the same ranks |
| Grading.SortIsSorted | src/examinations/grading-scale.ts:57-59 | the ranked list is a descending permutation of the present values |
| ReportCards.CardAgreesWithRanking | src/examinations/examinations.service.ts:498-517 | the card's percentage is the ranked one, which is missing exactly when no subject has a grade |
| ReportCards.RowShowsLastMark | src/examinations/examinations.service.ts:292-314 | a subject row shows the student's last mark and absence, graded on its percentage of the maximum unless absent or unmarked |
| ReportCards.CardPercentageIsOfMaximum | src/examinations/examinations.service.ts:315-321 | the percentage times the maximum is 100 times the marks of the exams sat |
| ReportCards.RankFollowsCard | src/examinations/examinations.service.ts:288-341 | exactly those without a graded subject are unranked, and rank is strictly better exactly when the card percentage is higher |
| ReportCards.GroupMarks | src/examinations/examinations.service.ts:272-287 | the loop gives each student its own marks in order |
| ReportCards.MarksSelected | src/examinations/examinations.service.ts:274-279 | a student's marks are exactly those that name it, in order |
| ReportCards.GetReportCard | src/examinations/examinations.service.ts:234-343 | refused unless to staff or, once published, to family; else subjects, totals, rounded percentage, grade, points, and the rank among classmates |
| Timetable.GenerateKeepsNoClash | src/timetable/timetable.service.ts:121-218 | generating keeps the school free of double-booked teachers |
| Timetable.GenerateLeavesOthers | src/timetable/timetable.service.ts:204-210 | and other sections' entries as they were |
| Timetable.RunsKeepNoClash | src/timetable/timetable.service.ts:121-218 | so does any sequence of generations, with sections, subjects and assignments changing between them |
| Timetable.RunsLeaveOthers | src/timetable/timetable.service.ts:204-210 | a section nobody generated for has the timetable it had |
| Timetable.OneEntryPerFreeSlot | src/timetable/timetable.service.ts:173-200 | every slot whose teacher is free has its entry, and entries and busy slots add up to the slots |
| Timetable.TriesAreEven | src/timetable/timetable.service.ts:173-200 | a plan tries each of its subjects the floor of slots over subjects times, the first few once more |
| Timetable.GeneratedTriesAreEven | src/timetable/timetable.service.ts:173-200 | so in every generated timetable, each schedulable subject over the 48 slots |
| Timetable.FillSlots | src/timetable/timetable.service.ts:173-200 | the nested loops with their running cursor fill slot 8 * day + period from the subject at that index |
| Timetable.TimetableService.Generate | src/timetable/timetable.service.ts:121-218 | replaces one section's entries by the new ones, or fails and changes nothing |
| Timetable.GenerateFailsExactly | src/timetable/timetable.service.ts:124-156 | fails, changing nothing, exactly for a section not of the class or without an assigned subject |
| Timetable.GeneratedIsThePlan | src/timetable/timetable.service.ts:173-210 | afterwards the section's timetable is the plan for its 48 slots and nothing else |
| Timetable.EntryIsAsAssigned | src/timetable/timetable.service.ts:183-197 | a slot holds a subject of the class, in the section's room, at the period's times, taught by whom the section's last assignment of it names |
| Timetable.TeacherIsLastAssigned | src/timetable/timetable.service.ts:136-148 | a subject's teacher is the one of the section's last assignment of it, and there is none without one |
| Timetable.SchedulableSelected | src/timetable/timetable.service.ts:149-152 | the subjects tried are exactly the class's subjects with a teacher, in order |
| Timetable.BusyMeansBookedElsewhere | src/timetable/timetable.service.ts:158-181 | a slot is skipped exactly when another section has its teacher then |
| Timetable.PeriodTimes | src/timetable/timetable.service.ts:183-197 | period p runs from 08:00 plus 40 p minutes for 40 minutes |
| Timetable.FormatRoundTrip | src/timetable/timetable.service.ts:335-341 | a formatted time is five characters that read back as the same minutes |
| FeeCalc.DiscountedWithinFee | src/fees/fee-calc.ts:22-32 | the charge is between zero and the rounded fee |
| FeeCalc.DiscountMeaning | src/fees/fee-calc.ts:26-30 | a flat rule takes off its value, a percentage rule that many hundredths of the fee |
| FeeCalc.ChargeNearExact | src/fees/fee-calc.ts:22-32 | the charge is the fee less all discounts to the nearest cent, and nothing below that |
| FeeCalc.StatusMeaning | src/fees/fee-calc.ts:60-69 | exactly when an invoice is paid, partial, overdue or pending |
| FeeCalc.ItemsListed | src/fees/invoices.service.ts:710-727 | the fee first, then one negative item per positive discount, named after its rule, in order |
| FeeCalc.ItemsNearExact | src/fees/invoices.service.ts:710-727 | the items follow the exact amounts to half a cent each |
| FeeCalc.ItemsAddUp | src/fees/invoices.service.ts:710-727 | items sum to the charge within half a cent per rule and one cent; in whole cents exactly if and only if discounts do not exceed the fee |
| FeeCalc.OverDiscountExample | src/fees/invoices.service.ts:710-727 | a waiver of 150 on 100 charges nothing and itemises -50 |
| FeeCalc.BuildLineItems | src/fees/invoices.service.ts:710-727 | the loop builds the fee item and one item per positive discount |
| Outstanding.GroupSums | src/fees/invoices.service.ts:588-707 | grouping by any key conserves what was invoiced, paid and, over any selection of keys, owed |
| Outstanding.RowsSumUp | src/fees/invoices.service.ts:588-641 | each key has one row, with the sums of exactly its invoices and what they leave owing, and each invoice has a row |
| Outstanding.OfKeySelected | src/fees/invoices.service.ts:624-640 | the invoices of a key are exactly those with it, once each |
| Outstanding.LiveSelected | src/fees/invoices.service.ts:262-267 | every invoice but the cancelled ones counts, once |
| Outstanding.StudentKeyMeaning | src/fees/invoices.service.ts:624-626 | a student's key is its id, an application's its number |
| Outstanding.ClassKeyMeaning | src/fees/invoices.service.ts:672-695 | the class of the student, else the class applied for, else `unassigned` |
| Outstanding.CoarserOwesLess | src/fees/invoices.service.ts:588-707 | coarser groups owe no more than finer ones, nor these than the invoices, with equality when none is overpaid |
| Outstanding.ClassesAreCoarser | src/fees/invoices.service.ts:643-707 | invoices of one student or application fall in one class |
| Outstanding.ClassViewBelowStudentView | src/fees/invoices.service.ts:736-751 | class rows owe at most what student rows owe, and these at most the total |
| Outstanding.GroupBy | src/fees/invoices.service.ts:588-641 | the loop over a mutable map of buckets computes the grouping, in order of first appearance |
| Outstanding.GetOutstanding | src/fees/invoices.service.ts:262-286 | in whole cents the rows add up to what was invoiced and collected and owe no more than the total |
| Admissions.StepKeeps | src/admissions/admissions.service.ts:110-324 | every operation keeps: no admission invoice before fee payment and exactly one after, totals in whole cents, paid amounts equal to standing payments, paid-up exactly when they cover a positive total, enrolled applicants own their invoice's student |
| Admissions.RunKeeps | src/admissions/admissions.service.ts:110-324 | the same after every run of inquire, update, decide, bill, pay, refund and enroll |
| Admissions.RecomputedSettles | src/fees/invoices.service.ts:413-433 | recomputing one invoice settles it and leaves the others settled |
| Admissions.StepAllowed | src/admissions/admissions.service.ts:348-378 | a step moves an application at most one stage on, into fee payment only from acceptance and accepted, and enrolls it only with the fee covered |
| Admissions.FeePaymentOnceAccepted | src/admissions/admissions.service.ts:348-378 | an application past acceptance entered fee payment in a state where it was accepted |
| Admissions.EnrolledOncePaid | src/admissions/admissions.service.ts:231-324 | an enrolled application was enrolled by one step of the run, its fee then covered, and keeps that student |
| Admissions.EnrollsExactlyWhenPaid | src/admissions/admissions.service.ts:231-282 | enrolling succeeds exactly at the last stage, not yet enrolled, with standing payments covering a positive fee and a section and year to go to |
| Admissions.FreeAdmissionNeverEnrolls | src/fees/fee-calc.ts:60-69 | an application whose invoice totals nothing is not enrolled by any continuation of its run |
| Admissions.FreeAdmissionExample | src/fees/fee-calc.ts:60-69 | a run that takes an application with a fully waived fee to the last stage, where every enrollment is refused |
| Admissions.RefundUndoesPayment | src/fees/invoices.service.ts:179-231 | paying and refunding leaves every invoice's paid amount and paid-up state as they were |
| Admissions.RunsAreInCents | src/fees/invoices.service.ts:387-433 | every run's invoices have totals and paid amounts in whole cents |
| Admissions.RunsOweConsistently | src/fees/invoices.service.ts:262-286 | after every run, class rows owe at most what student rows owe, and these at most the invoices |
| AdmissionsEffects.TransitionRule | src/admissions/admissions.service.ts:348-378 | a stage is entered from the one before it; the entrance test and fee payment each with its permission, and the latter once accepted; else which error |
| AdmissionsEffects.InquireWrites | src/admissions/admissions.service.ts:95-108 | adds one undecided inquiry for a known class, and nothing else |
| AdmissionsEffects.UpdateWrites | src/admissions/admissions.service.ts:110-158 | exactly when it succeeds; the stage and class written, and on fee payment one invoice from the first structure for the class before the update |
| AdmissionsEffects.DecideWrites | src/admissions/admissions.service.ts:187-213 | writes the decision given on that application alone, exactly with the permission it needs |
| AdmissionsEffects.BillWrites | src/fees/invoices.service.ts:104-120 | adds one invoice for a known student whose class the fee structure applies to, and nothing else |
| AdmissionsEffects.NewInvoiceIs | src/fees/invoices.service.ts:387-411 | for the discounted amount, unpaid, overdue only if due before now |
| AdmissionsEffects.FirstStructureIsFirst | src/fees/invoices.service.ts:309-314 | the first admission structure for the class is used |
| AdmissionsEffects.NoStructure | src/fees/invoices.service.ts:315-328 | there is none exactly when none applies |
| AdmissionsEffects.PaidIsTheSum | src/fees/invoices.service.ts:413-424 | what is paid is the sum of exactly the payments of the invoice that were not refunded |
| AdmissionsEffects.PayWrites | src/fees/invoices.service.ts:179-205 | adds one standing payment, and its invoice alone shows what was paid plus it |
| AdmissionsEffects.RefundWrites | src/fees/invoices.service.ts:208-231 | marks the payment refunded, and its invoice alone shows what was paid less it |
| AdmissionsEffects.EnrollWrites | src/admissions/admissions.service.ts:231-324 | adds the student, names it on the application and on that application's invoices, and changes nothing else |
| AdmissionsService.AdmissionsDatabase.CreateInquiry | src/admissions/admissions.service.ts:95-108 | keeps the invariant; succeeds exactly for a known class; the new application owes no invoice and can only move to the application stage |
| AdmissionsService.AdmissionsDatabase.Update | src/admissions/admissions.service.ts:110-158 | checks, invoice and row write make one step, which keeps the invariant |
| AdmissionsService.AdmissionsDatabase.GenerateAdmissionInvoice | src/fees/invoices.service.ts:299-336 | reuses the application's invoice or creates one from the first applicable structure |
| AdmissionsService.AdmissionsDatabase.Decide | src/admissions/admissions.service.ts:187-213 | keeps the invariant and every other application; fee payment opens, to approvers, exactly for an acceptance at the acceptance stage |
| AdmissionsService.AdmissionsDatabase.RecomputeInvoiceTotals | src/fees/invoices.service.ts:413-433 | the sum over the payment rows gives the invoice's new paid amount and status |
| AdmissionsService.AdmissionsDatabase.RecordPayment | src/fees/invoices.service.ts:179-205 | adds a payment and recomputes its invoice |
| AdmissionsService.AdmissionsDatabase.RefundPayment | src/fees/invoices.service.ts:208-231 | refunds a payment once and recomputes its invoice |
| AdmissionsService.AdmissionsDatabase.ReconcileAdmissionInvoices | src/fees/invoices.service.ts:351-360 | exactly the application's invoices get the student |
| AdmissionsService.AdmissionsDatabase.Enroll | src/admissions/admissions.service.ts:231-324 | creates the student, links it and reconciles the invoices, or fails and changes nothing |
| Library.StepKeeps | src/library/library-circulation.service.ts:96-261 | every operation keeps open loans and issued copies matched one to one, members within their limits, references valid, barcodes and memberships unique |
| Library.RunKeeps | src/library/library-circulation.service.ts:96-261 | the same after every run |
| Library.IssuedHasOneOpenLoan | src/library/library-circulation.service.ts:52-94 | a copy is issued exactly when it has one open loan, and otherwise has none |
| Library.AvailableCopiesCount | src/library/library-catalog.service.ts:253-267 | available copies are the copies less open loans, lost and damaged ones |
| Library.StepKeepsFines | src/library/library-circulation.service.ts:242-261 | no operation rewrites a loan whose fine is settled, and open loans have no fine |
| Library.SettledFinesStay | src/library/library-circulation.service.ts:242-261 | over any run a settled fine stays settled while the loan is kept |
| Library.FineIsForLateness | src/library/lib/loan-calc.ts:24-37 | a fine is due exactly for a late return at a positive rate, and within a positive cap |
| LibraryEffects.FineAmount | src/library/lib/loan-calc.ts:24-37 | days late times the rate, or the cap if that is less; a cap of zero is none |
| LibraryEffects.FineExample | src/library/lib/loan-calc.ts:24-37 | three days at 2.50 are 7.50, and 5 under a cap of 5 |
| Library.ReturnUndoesIssue | src/library/library-circulation.service.ts:96-182 | a good return restores copies and open loans, with a fine exactly after the loan period |
| LibraryEffects.IssueWrites | src/library/library-circulation.service.ts:96-140 | exactly when a copy is lent and with which error not; the loan runs for the loan period from today, the copy is issued, nothing else changes |
| LibraryEffects.ReturnWrites | src/library/library-circulation.service.ts:142-182 | exactly when; the loan is closed today with its fine, the copy available, lost or damaged as returned, nothing else changes |
| LibraryEffects.SettleWrites | src/library/library-circulation.service.ts:242-261 | exactly when; the fine is paid or waived as asked, nothing else changes |
| LibraryEffects.RemoveBookWrites | src/library/library-catalog.service.ts:141-158 | exactly when; the book goes with its past reservations, nothing else changes |
| LibraryEffects.CreateCopyWrites | src/library/library-catalog.service.ts:176-190 | exactly when; one available copy is added |
| LibraryEffects.RemoveCopyWrites | src/library/library-catalog.service.ts:192-207 | exactly when; the copy goes with its past loans, nothing else changes |
| LibraryEffects.CreateMemberWrites | src/library/library-members.service.ts:55-73 | exactly when; one active member is added on the terms given |
| LibraryEffects.SetMemberWrites | src/library/library-members.service.ts:75-85 | sets that member's status alone, or refuses an unknown one |
| LibraryEffects.RemoveMemberWrites | src/library/library-members.service.ts:87-98 | exactly when; the member goes with its past loans and reservations, nothing else changes |
| LibraryEffects.ReserveWrites | src/library/library-reservations.service.ts:112-141 | exactly when; one pending reservation made now is added |
| LibraryEffects.CancelWrites | src/library/library-reservations.service.ts:143-157 | exactly when; that reservation is cancelled, nothing else changes |
| LibraryEffects.FulfillWrites | src/library/library-reservations.service.ts:167-186 | the issue to the reserver, and that reservation fulfilled; it fails for either reason |
| LibraryService.LibraryDatabase.RemoveBook | src/library/library-catalog.service.ts:141-158 | keeps the invariant; nothing refers to a removed book and other books' reservations stay |
| LibraryService.LibraryDatabase.CreateCopy | src/library/library-catalog.service.ts:176-190 | keeps the invariant; the copy is the only one with its barcode, on no loan, and one more available copy of its book |
| LibraryService.LibraryDatabase.RemoveCopy | src/library/library-catalog.service.ts:192-207 | keeps the invariant, the other copies and every open loan |
| LibraryService.LibraryDatabase.CreateMember | src/library/library-members.service.ts:55-73 | keeps the invariant; the membership is the person's only one, active and without loans |
| LibraryService.LibraryDatabase.UpdateStatus | src/library/library-members.service.ts:75-85 | keeps the invariant and the other members; a deactivated member can be issued nothing |
| LibraryService.LibraryDatabase.RemoveMember | src/library/library-members.service.ts:87-98 | keeps the invariant and every open loan; nothing refers to the removed member |
| LibraryService.LibraryDatabase.FindOrCreateForStudent | src/library/library-members.service.ts:125-146 | finds the student's membership, or creates it with the default limits, or fails for no student |
| LibraryService.LibraryDatabase.IssueBook | src/library/library-circulation.service.ts:96-140 | keeps the invariant; the copy is on this loan alone, the member has one loan more and stays within its limit, other copies are as before |
| LibraryService.LibraryDatabase.ReturnBook | src/library/library-circulation.service.ts:142-182 | keeps the invariant; the copy is on no loan, available exactly if fine, the member has one loan less, and a fine is pending exactly for lateness |
| LibraryService.LibraryDatabase.SettleFine | src/library/library-circulation.service.ts:242-261 | keeps the invariant; succeeds exactly for a pending fine, at its amount, once |
| LibraryService.LibraryDatabase.LookupByBarcode | src/library/library-circulation.service.ts:52-94 | the copy is the only one with the barcode, its one open loan is found, and an available copy's next reservation is first in line |
| LibraryService.LibraryDatabase.Reserve | src/library/library-reservations.service.ts:112-141 | keeps the invariant and other books' queues; a latest reservation stands at n + 1 |
| LibraryService.LibraryDatabase.CancelReservation | src/library/library-reservations.service.ts:143-157 | keeps the invariant; exactly the later reservations of the book move up by one |
| LibraryService.LibraryDatabase.FulfillReservation | src/library/library-reservations.service.ts:167-186 | keeps the invariant; the reserver has the copy within its limit and the queue moves up, or nothing changes |
| ReservationQueue.FindNextReservation | src/library/library-reservations.shared.ts:22-32 | finds a pending reservation exactly when there is one, and it has position 1 |
| ReservationQueue.PositionsFollowTime | src/library/library-reservations.shared.ts:34-47 | positions are in creation order |
| ReservationQueue.PositionsAreABijection | src/library/library-reservations.shared.ts:34-47 | positions 1 to n are each held once if and only if creation times differ |
| ReservationQueue.TiedReservations | src/library/library-reservations.shared.ts:34-47 | a run in which two reservations are both first and none is second |
| ReservationQueue.LeavingMovesLaterUp | src/library/library-reservations.service.ts:143-186 | when one leaves, exactly the reservations of that book with a later position move up by one, ties included |
| ReservationQueue.CancelAndFulfillLeave | src/library/library-reservations.service.ts:143-186 | cancelling and fulfilling take one reservation out and leave the others as they were |
| ReservationQueue.NewcomerIsLast | src/library/library-reservations.service.ts:112-141 | a later reservation joins at n + 1 and moves nobody |
| Hostel.StepKeeps | src/hostel/hostel-allocations.service.ts:64-146 | every operation keeps active allocations in different beds and of different students, in existing rooms, and room numbers unique in a hostel |
| Hostel.RunKeeps | src/hostel/hostel-allocations.service.ts:64-146 | in every run nobody shares a bed and no student has two |
| Hostel.FreeBedCount | src/hostel/hostel-structure.service.ts:271-281 | free beds are the capacity less the residents who sleep within it |
| Hostel.OfferedRoomAccepts | src/hostel/hostel-structure.service.ts:200-210 | every offered room has a bed that allocation accepts for any non-resident student |
| Hostel.WronglyWithheld | src/hostel/hostel-structure.service.ts:170-184 | a room with a free bed is not offered exactly when it is at capacity with someone beyond it |
| Hostel.WithheldExample | src/hostel/hostel-structure.service.ts:170-184 | a three-step run that withholds a free bed |
| Hostel.OffersExactlyFreeRooms | src/hostel/hostel-structure.service.ts:200-210 | in runs that never lower a capacity below an occupied bed, a room is offered exactly when a bed is free |
| Hostel.VacateUndoesAllocate | src/hostel/hostel-allocations.service.ts:95-105 | vacating a new allocation restores who is active where and which rooms are offered |
| HostelEffects.AllocateWrites | src/hostel/hostel-allocations.service.ts:64-80 | exactly when a bed is given and with which error not; one active allocation is added |
| HostelEffects.ReassignWrites | src/hostel/hostel-allocations.service.ts:82-93 | exactly when; that allocation moves to the room and bed, nothing else changes |
| HostelEffects.VacateWrites | src/hostel/hostel-allocations.service.ts:95-105 | exactly when; that allocation is no longer active, nothing else changes |
| HostelEffects.RoomWrites | src/hostel/hostel-structure.service.ts:156-184 | exactly when a room is added or edited; that room is as given, nothing else changes |
| HostelEffects.RemoveRoomWrites | src/hostel/hostel-structure.service.ts:186-197 | exactly when; the room goes with its past allocations, nothing else changes |
| HostelEffects.OfferedWhenNotFull | src/hostel/hostel-structure.service.ts:200-210 | a room is offered exactly when its hostel is asked for and it has fewer active allocations than beds |
| Hostel.HostelDatabase.AllocateBed | src/hostel/hostel-allocations.service.ts:64-80 | keeps the invariant; the bed is held by this allocation alone, the student has no other, every other allocation is as before |
| Hostel.HostelDatabase.ReassignBed | src/hostel/hostel-allocations.service.ts:82-93 | keeps the invariant; the new bed is held by this allocation alone and the one left by nobody |
| Hostel.HostelDatabase.VacateBed | src/hostel/hostel-allocations.service.ts:95-105 | keeps the invariant; the bed is nobody's, the student has none, the row stays |
| Hostel.HostelDatabase.AddRoom | src/hostel/hostel-structure.service.ts:156-168 | keeps the invariant; all beds of the new room are free and it is offered if it has any, other offers stay |
| Hostel.HostelDatabase.EditRoom | src/hostel/hostel-structure.service.ts:170-184 | keeps the invariant and the residents; the room is offered exactly if its new capacity exceeds them, other offers stay |
| Hostel.HostelDatabase.DeleteRoom | src/hostel/hostel-structure.service.ts:186-197 | keeps the invariant; only an empty room goes, and nobody loses a bed |

## Left out

- IEEE-754 arithmetic: amounts and percentages are exact reals, and `Math.round` is the floor of x + 1/2.
- The range of JavaScript dates (8.64e15 ms either side of 1970) and invalid dates: instants are unbounded.
- Concurrency inside a method: each call is one atomic step, although most checks run outside a transaction.
- The clock, generated identifiers and the current user's permissions: they are parameters. Rows of some tables are named by row number, and a generated identifier that is already taken is refused.
- Names, addresses, notes, receipt numbers, period labels, sort orders and paging: nothing proved depends on them.
- Mail, notifications, audit log, storage, PDF and spreadsheet cells: I/O.
- Tenant scoping of nested writes, relation filters, raw queries and unlisted operations: the code does not rewrite them.
- TenantScoping.FreshValuesHarmless: compound keys over other rows' identifiers (attendance by student and date, marks by exam and student) are neither tenant-bearing nor columns of their own; for them there is only the condition of `ScopingIsolates`, since references to another tenant's rows are not modelled.
- A failed unique check in the middle of `createMany` and the choice among several rows of a unique lookup: the model takes the first match.
- Prisma's own validation of arguments beyond missing data.
- Manual timetable edits, which by design do not check for conflicts, and the string key of the busy set, which is a triple here.
- The academic report: easy sums.
- Exam result sheets, mark entry and publishing: they reuse the ranking proved here.
- Monthly recurring revenue and the conversion of rows to responses.
- Who may act for a student in portal reservations, and that the fulfilled copy is of the reserved book or first in the queue, which the code does not require.
- Deleting schools, students and hostels, with what the database deletes or unlinks after them.
- Student invoices made for a whole class at once: `Admissions` bills one student at a time.
- SheetNames.FirstFreeFits: counts characters, not UTF-16 units, and compares names case-sensitively as the code does, though Excel does not.
- ReservationQueue.NewcomerIsLast: assumes that the newcomer is the latest, as the clock would have it.
- ReportCards.GetReportCard: names and labels are left out; the exams of the series, the classmates and the marks are inputs, as the queries select them, and whether the viewer is related to the student is one too. The form's rule that maximum marks are positive is a precondition.
- Outstanding.ClassesAreCoarser: assumes that invoices refer to existing rows and that no student id starts with `admission:`, as generated ids cannot. An application is named by its row number, in decimal inside a key.
