# Worker attendance, wages and leave — a Dafny model

This project models the arithmetic core of a small worker-attendance
application.

- **Store.** An in-memory store holds workers, daily attendance records
  (status plus an optional cash amount taken that day) and anomaly reports.
  Screens add, update and delete through it.
- **Calendar utilities.** They list a month's days, count and list its
  weekdays, compare days, and write and read `yyyy-MM-dd` strings (the
  full-date of section 5.6 of RFC 3339; month lengths and leap years follow
  section 5.7 and Appendix C of RFC 3339).
- **Three reports** that deliberately use different formulas:
  - the monthly expenditure report: a calendar-day rate, credit only for
    logged present and half days on the worker's employment days, and net =
    gross − cash taken, which may be negative;
  - the wage report: a weekday rate with deductions for absent, half and
    per-day-wage-taken days;
  - the leave summary: half days weighted ½, and no employment-day filter.
- **The attendance screen:**
  - the purge of future-dated records;
  - the initial money map;
  - the status and money handlers;
  - the "so far" earnable and remaining figures;
  - the disabled-row rule.
- **Small rules:**
  - the dashboard's counts for today;
  - the worker form's validation and edit merge;
  - the case-insensitive worker search with its confirmation-gated delete;
  - the choice of the active report tab from the path.

Dates are `(year, month, day)` triples. The weekday comes from a day count
since 0000-01-01 in the proleptic Gregorian calendar. Stored dates stay the
`yyyy-MM-dd` strings the application keeps. Money is `real`. "Today" and the
selected month are parameters.

Modules, one per source file:

| module | source file |
|---|---|
| `DateUtils` | `src/lib/date-utils.ts` |
| `AppContext` (class `AppStore`) | `src/contexts/AppContext.tsx` |
| `ExpenditureReport` | `src/components/reports/ExpenditureReport.tsx` |
| `WageReport` | `src/components/reports/WageReport.tsx` |
| `LeaveReport` | `src/components/reports/LeaveReport.tsx` |
| `AttendanceManager` (class `AttendanceScreen`) | `src/components/attendance/AttendanceManager.tsx` |
| `Dashboard` | `src/app/page.tsx` |
| `WorkerDialog` | `src/components/workers/WorkerDialog.tsx` |
| `WorkersPage` | `src/app/workers/page.tsx` |
| `ReportsLayout` | `src/app/reports/layout.tsx` |

Support modules:
- `Types` holds the records of `src/types/index.ts`.
- `Records` holds the status counts and money sums that several screens share.
- `Seqs` holds filters, subsequences and the id lists `Ids`.
- `Options` holds `Option`.

Three behaviours of the code are kept as written:
- An upsert on an existing (worker, day) record overwrites only its `status`
  and keeps the stored `moneyTakenAmount` (`src/contexts/AppContext.tsx:90-92`),
  so a money edit on a day that already has a record leaves the stored amount
  unchanged (`AttendanceManager.MoneyEditOnExistingRecord`).
- The status type keeps four values, `per-day-wage-taken` included
  (`src/types/index.ts:9`), and the wage report deducts it.
- The leave summary and the wage report count a worker's records of the
  month whether or not the worker was employed that day
  (`src/components/reports/LeaveReport.tsx` and
  `src/components/reports/WageReport.tsx` filter by worker and month only).

## Model

| member | source | states |
|---|---|---|
| `DateUtils.DaysInMonth` | src/lib/date-utils.ts:34 | every month has 28 to 31 days |
| `DateUtils.DatesForMonth` | src/lib/date-utils.ts:46-51 | the month's day list is as long as the Gregorian month (0-based month index, as in the source) |
| `DateUtils.DatesForMonthSpec` | src/lib/date-utils.ts:46-51 | entry i is day i+1 of the month; a date is listed iff it is a valid day of that year and month; the list is strictly ascending |
| `DateUtils.Weekday` | src/lib/date-utils.ts:38 | `getDay` yields 0..6 |
| `DateUtils.WeekdayAnchor` | src/lib/date-utils.ts:38 | 0001-01-01 is a Monday (weekday 1), fixing the count to the Gregorian calendar |
| `DateUtils.WeekdayOfDayNumberMod` | src/lib/date-utils.ts:38 | the weekday advances by one per day, cycling every 7 days |
| `DateUtils.DaysBeforeYearClosedForm` | src/lib/date-utils.ts:34 | the day count before a year has the closed form with leap days every 4, none every 100, one every 400 years |
| `DateUtils.DaysBeforeYearPeriod` | src/lib/date-utils.ts:34 | 400 Gregorian years have 146097 days |
| `DateUtils.WeekdayPeriod` | src/lib/date-utils.ts:38 | weekdays repeat every 400 years |
| `DateUtils.NonWeekend` | src/lib/date-utils.ts:65 | `filter(day => !isWeekend(day))` keeps exactly the non-Saturday/Sunday days, in order, and keeps ascending lists ascending |
| `DateUtils.WeekdaysInMonth` | src/lib/date-utils.ts:61-66 | the weekday list is no longer than the month |
| `DateUtils.WeekdaysInMonthSpec` | src/lib/date-utils.ts:61-66 | a date is listed iff it is a valid non-weekend day of the month; the list is an ascending subsequence of the month's days |
| `DateUtils.WeekdaysInMonthAsFilter` | src/lib/date-utils.ts:61-66 | the list is the month's day list filtered by "not a weekend" |
| `DateUtils.CountDaysIsFilterLength` | src/lib/date-utils.ts:36-42 | counting the days 1..k that satisfy a test equals the length of those days filtered by it |
| `DateUtils.WeekdaysInMonthCount` | src/lib/date-utils.ts:61-66 | `getWeekdaysInMonth(d).length` equals the count `calculateWorkingDays` makes for the same month |
| `DateUtils.CalculateWorkingDays` | src/lib/date-utils.ts:31-44 | the loop counts exactly the days whose weekday is neither 0 nor 6, and the count is between 20 and 23 |
| `DateUtils.WeekdaysCountWeek` | src/lib/date-utils.ts:36-42 | any 7 consecutive days contain exactly 5 weekdays |
| `DateUtils.WeekdaysCountFourWeeks` | src/lib/date-utils.ts:36-42 | 28 to 31 consecutive days contain 20 to 23 weekdays, whatever day they start on |
| `DateUtils.WeekdaysInMonthBounds` | src/lib/date-utils.ts:61-66 | every month has 20 to 23 weekdays, so the wage report's zero-weekday guard is never taken |
| `DateUtils.MonthWeekdaysBounds` | src/lib/date-utils.ts:31-44 | `calculateWorkingDays` is between 20 and 23 for every month |
| `DateUtils.IsSameDay` | src/lib/date-utils.ts:53-59 | two days are the same iff year, month and day agree, hence reflexive, symmetric and transitive |
| `DateUtils.FormatIsoDate` | src/lib/date-utils.ts:13-15 | the `yyyy-MM-dd` string has at least 10 characters |
| `DateUtils.IsoMonthYearString` | src/lib/date-utils.ts:26-28 | the `yyyy-MM` string followed by `-dd` is the `yyyy-MM-dd` string |
| `DateUtils.FormatIsoDateShape` | src/lib/date-utils.ts:13-28 | for years 1..9999 the string is exactly 10 zero-padded digits with dashes, and `yyyy-MM` is its first 7 characters |
| `DateUtils.DigitsValueOfDigits` | src/lib/date-utils.ts:14 | reading back a zero-padded field gives the number written |
| `DateUtils.DigitsOfDigitsValue` | src/lib/date-utils.ts:14 | writing back a read digit field gives the same text |
| `DateUtils.ParseIsoDate` | src/components/attendance/AttendanceManager.tsx:52 | `parseISO` of a stored date: only a 10-character `yyyy-MM-dd` string of a valid day is a date |
| `DateUtils.ParseFormatIsoDate` | src/lib/date-utils.ts:13-15 | parsing the formatted day gives the day back |
| `DateUtils.FormatParseIsoDate` | src/lib/date-utils.ts:13-15 | formatting a parsed string gives the string back |
| `DateUtils.FormatIsoDateInjective` | src/lib/date-utils.ts:13-15 | two days have the same ISO string iff they are the same day |
| `DateUtils.FormatIsoDateDistinctInMonth` | src/lib/date-utils.ts:13-15 | different days of one month have different ISO strings, so the set of a month's ISO strings has one entry per day |
| `DateUtils.IsoStrings` | src/components/reports/ExpenditureReport.tsx:60 | `days.map(formatIsoDate)`: one string per day, in order |
| `DateUtils.IsoStringsMembers` | src/components/reports/ExpenditureReport.tsx:60 | a string is in the set iff it is the ISO string of one of the days |
| `DateUtils.EmployedDays` | src/components/reports/ExpenditureReport.tsx:59 | the employment days are no more than the days given |
| `DateUtils.EmployedDaysSpec` | src/components/reports/ExpenditureReport.tsx:59 | keeps exactly the days within [join date, leave date], in order; an unreadable join date keeps none and an unreadable leave date is ignored |
| `DateUtils.EffectiveDaysForWorkerInMonth` | src/components/attendance/AttendanceManager.tsx:153-157 | the worker's effective days never outnumber the month's days |
| `DateUtils.EffectiveDaysSpec` | src/components/reports/ExpenditureReport.tsx:59-60 | an ascending subsequence of the month's days holding exactly the days of that month within the employment window |
| `Types.MoneyTaken` | src/components/reports/ExpenditureReport.tsx:76 | the amount taken is the stored amount, or 0 when it is missing |
| `Records.CountStatus` | src/components/reports/LeaveReport.tsx:48-49 | a status count never exceeds the number of records |
| `Records.StatusCountsPartition` | src/types/index.ts:9 | the four status counts add up to the number of records |
| `Records.MoneyTakenSum` | src/components/reports/ExpenditureReport.tsx:76 | the `reduce` sum of non-negative amounts is non-negative |
| `Records.MoneyTakenSumAppend` | src/components/reports/ExpenditureReport.tsx:76 | the sum over two record lists joined is the sum of their sums |
| `Records.WorkerAttendanceForMonth` | src/components/reports/WageReport.tsx:48-53 | keeps exactly the worker's records dated in the month, in store order |
| `Records.FindWorker` | src/components/reports/WageReport.tsx:38-40 | finds a worker with that id, and finds none iff no worker has it |
| `AppContext.FreshId` | src/contexts/AppContext.tsx:68 | the new id is not among the ids in use |
| `AppContext.NormalizeLeftDate` | src/contexts/AppContext.tsx:70 | `leftDate` is kept iff it is a non-empty string, otherwise null |
| `AppContext.AppendWorkerSpec` | src/contexts/AppContext.tsx:65-73 | adding appends exactly one worker with a fresh id and the given fields, normalised `leftDate` included; earlier workers are unchanged |
| `AppContext.ReplaceWorker` | src/contexts/AppContext.tsx:75-81 | only the worker with the matching id is replaced (with `leftDate` normalised); length and other entries are unchanged |
| `AppContext.ReplaceWorkerIds` | src/contexts/AppContext.tsx:75-81 | the ids stay in place, and an unknown id changes nothing |
| `AppContext.DeleteWorkerSpec` | src/contexts/AppContext.tsx:83-86 | the worker and all its records go; the rest stay, in order |
| `AppContext.FindRecord` | src/contexts/AppContext.tsx:107-109 | returns the first record with that worker and date, and nothing iff there is none |
| `AppContext.FindRecordUnique` | src/contexts/AppContext.tsx:107-109 | with one record per (worker, date), the lookup returns that record |
| `AppContext.ReplaceRecord` | src/contexts/AppContext.tsx:99-101 | replaces exactly the records with the updated record's id |
| `AppContext.UpsertNewRecord` | src/contexts/AppContext.tsx:93-96 | a new (worker, date) appends one record with a fresh id and the given status and amount |
| `AppContext.UpsertExistingRecord` | src/contexts/AppContext.tsx:90-92 | an existing (worker, date) changes only that record's status, keeping id and amount; nothing else changes |
| `AppContext.UpsertKeepsUnique` | src/contexts/AppContext.tsx:88-97 | the upsert keeps ids unique and at most one record per (worker, date) |
| `AppContext.ReplaceRecordKeepsIds` | src/contexts/AppContext.tsx:99-101 | an update keeps record ids unique |
| `AppContext.InsertReport` | src/contexts/AppContext.tsx:111-113 | the new report comes first and the list has at most 20 entries |
| `AppContext.InsertReportTail` | src/contexts/AppContext.tsx:112 | after it come the kept reports, cut to fit the cap of 20: the length is one more than the kept reports below the cap and exactly 20 otherwise |
| `AppContext.InsertReportSpec` | src/contexts/AppContext.tsx:111-113 | the other entries are earlier reports of other (worker, month) keys, in order; under the cap none of those is lost |
| `AppContext.InsertReportKeepsUnique` | src/contexts/AppContext.tsx:111-113 | at most one report per (worker, month) is kept |
| `AppContext.AppStore.constructor` | src/contexts/AppContext.tsx:61-63 | the three collections start empty |
| `AppContext.AppStore.AddWorker` | src/contexts/AppContext.tsx:65-73 | workers become the appended list; the store invariant (unique ids, report cap) holds |
| `AppContext.AppStore.UpdateWorker` | src/contexts/AppContext.tsx:75-81 | workers become the replaced list; the invariant holds |
| `AppContext.AppStore.DeleteWorker` | src/contexts/AppContext.tsx:83-86 | removes the worker and the worker's records; reports untouched |
| `AppContext.AppStore.AddAttendanceRecord` | src/contexts/AppContext.tsx:88-97 | applies the upsert and preserves "one record per (worker, date)" |
| `AppContext.AppStore.UpdateAttendanceRecord` | src/contexts/AppContext.tsx:99-101 | replaces the record with that id; ids stay unique |
| `AppContext.AppStore.DeleteAttendanceRecord` | src/contexts/AppContext.tsx:103-105 | removes the records with that id, keeping the order of the rest |
| `AppContext.AppStore.GetAttendanceForWorker` | src/contexts/AppContext.tsx:107-109 | a stored record of that worker and date, or nothing iff none exists |
| `AppContext.AppStore.AddAnomalyReport` | src/contexts/AppContext.tsx:111-113 | applies the report insertion; the cap and the per-key uniqueness hold |
| `ExpenditureReport.TotalPresents` | src/components/reports/ExpenditureReport.tsx:67-74 | the present credit lies between 0 and the number of records |
| `ExpenditureReport.TotalPresentsCounts` | src/components/reports/ExpenditureReport.tsx:67-74 | the credit is #present + 0.5·#half-day; absent and per-day-wage-taken add nothing |
| `ExpenditureReport.CountPresents` | src/components/reports/ExpenditureReport.tsx:67-74 | the `forEach` loop computes that credit |
| `ExpenditureReport.ComputeFigures` | src/components/reports/ExpenditureReport.tsx:76-96 | the worker entry built from the considered records and the day counts |
| `ExpenditureReport.ComputeWageData` | src/components/reports/ExpenditureReport.tsx:59-96 | the per-worker entry equals the specification `WageData` |
| `ExpenditureReport.AccumulateWorkers` | src/components/reports/ExpenditureReport.tsx:53-97 | the running totals are the sums over the entries, and entry i is worker i's figures |
| `ExpenditureReport.MonthlyExpenditure` | src/components/reports/ExpenditureReport.tsx:39-106 | the computation equals the specification `Expenditure`, zero-day branch included |
| `ExpenditureReport.WorkerDetails` | src/components/reports/ExpenditureReport.tsx:58-97 | one entry per worker, in worker order, with the worker's id, name and salary, and net = gross − money taken |
| `ExpenditureReport.WorkerDetailsSnoc` | src/components/reports/ExpenditureReport.tsx:58 | one more worker adds exactly that worker's entry at the end |
| `ExpenditureReport.WorkerDetailsEntries` | src/components/reports/ExpenditureReport.tsx:58-97 | entry i is computed from worker i alone |
| `ExpenditureReport.TotalsSnoc` | src/components/reports/ExpenditureReport.tsx:82-85 | each worker adds its salary, gross, money taken and net to the four totals |
| `ExpenditureReport.CalendarDaysBranch` | src/components/reports/ExpenditureReport.tsx:40-51 | a month has 28 to 31 calendar days; with zero days all totals are 0 and there are no entries |
| `ExpenditureReport.ConsideredRecords` | src/components/reports/ExpenditureReport.tsx:59-65 | a record is considered iff it is the worker's and its date is the ISO string of one of the worker's effective days |
| `ExpenditureReport.ConsideredIgnoresOther` | src/components/reports/ExpenditureReport.tsx:63-65 | records of other workers or of other dates leave the considered list unchanged, appended on either side |
| `ExpenditureReport.OtherRecordsIgnored` | src/components/reports/ExpenditureReport.tsx:59-80 | such records change none of the worker's figures |
| `ExpenditureReport.NetNegativeWhenNothingEarned` | src/components/reports/ExpenditureReport.tsx:67-80 | with no present or half-day record and a positive amount taken, the worker's net is negative |
| `ExpenditureReport.NetTotalIsGrossLessTaken` | src/components/reports/ExpenditureReport.tsx:80-85 | the net total is the gross total minus the money-taken total |
| `ExpenditureReport.ExpenditureTotals` | src/components/reports/ExpenditureReport.tsx:82-104 | total assigned is the salary sum regardless of attendance; total net = total gross − total taken; one entry per worker in order |
| `ExpenditureReport.ConsideredDaysDistinct` | src/components/reports/ExpenditureReport.tsx:63-65 | with one record per (worker, date), the considered records have distinct dates, all effective days |
| `ExpenditureReport.FiguresBounded` | src/components/reports/ExpenditureReport.tsx:67-79 | distinct dates drawn from the effective days bound the credit by the effective-day count and the gross by the salary |
| `ExpenditureReport.GrossAtMostSalary` | src/components/reports/ExpenditureReport.tsx:67-79 | with unique (worker, date) records, credit ≤ effective days and gross ≤ assigned salary |
| `WageReport.SalaryCalculationOf` | src/components/reports/WageReport.tsx:42-43 | there is no calculation iff no worker is selected or the id matches no worker |
| `WageReport.CountedRecords` | src/components/reports/WageReport.tsx:48-67 | the three day counts are status counts over the worker's records of the month |
| `WageReport.WeekendRecordCounted` | src/components/reports/WageReport.tsx:48-53 | every record of the worker dated in the month is counted, weekend days included |
| `WageReport.WeekdayRate` | src/components/reports/WageReport.tsx:55 | the rate divides by the month's weekday count, which is 20 to 23 |
| `WageReport.RateTimesDays` | src/components/reports/WageReport.tsx:63 | rate × weekdays = assigned salary |
| `WageReport.ZeroWeekdayBranch` | src/components/reports/WageReport.tsx:56-61 | with zero weekdays nothing is deducted and net = salary |
| `WageReport.NetSalaryFormula` | src/components/reports/WageReport.tsx:63-73 | net = salary − rate·(#absent + #half-day/2 + #per-day-wage-taken) |
| `WageReport.PresentRecordIgnored` | src/components/reports/WageReport.tsx:65-73 | a present record changes nothing in the calculation |
| `WageReport.AllPresentFullSalary` | src/components/reports/WageReport.tsx:65-73 | with only present records, net = salary |
| `WageReport.NetAtMostSalary` | src/components/reports/WageReport.tsx:63-73 | net never exceeds the salary |
| `WageReport.NetNegative` | src/components/reports/WageReport.tsx:63-73 | more absences than weekdays (weekend absences count) make net negative |
| `LeaveReport.ConsideredRecords` | src/components/reports/LeaveReport.tsx:30-40 | nothing without a selected worker; otherwise exactly that worker's records of the month, employed or not |
| `LeaveReport.TotalLeavesCounts` | src/components/reports/LeaveReport.tsx:43-47 | the `reduce` gives #absent + 0.5·#half-day |
| `LeaveReport.LeavesPlusPresent` | src/components/reports/LeaveReport.tsx:43-53 | total leaves = full-day absences + ½ half days; leaves + present days = #absent + #present + #half-day = records − #per-day-wage-taken |
| `LeaveReport.CalendarDaysOfMonth` | src/components/reports/LeaveReport.tsx:51 | the calendar-day figure is the month length (28..31), whatever the records |
| `LeaveReport.RecordDates` | src/components/reports/LeaveReport.tsx:68-69 | one parsed date per record, in order |
| `LeaveReport.ModifierLengths` | src/components/reports/LeaveReport.tsx:67-70 | the absent and half-day lists have the lengths of the two counts |
| `AttendanceManager.AmountToSave` | src/components/attendance/AttendanceManager.tsx:98-100 | a typed amount is saved as is; missing or non-numeric input is saved as 0 |
| `AttendanceManager.PurgedSpec` | src/components/attendance/AttendanceManager.tsx:47-58 | after the purge the worker has no record after today; all other records stay, in order |
| `AttendanceManager.PurgeIdempotent` | src/components/attendance/AttendanceManager.tsx:47-58 | purging twice is purging once |
| `AttendanceManager.DeleteStep` | src/components/attendance/AttendanceManager.tsx:56-58 | deleting one more id removes the records with any id so far |
| `AttendanceManager.PurgeByIds` | src/components/attendance/AttendanceManager.tsx:49-58 | with unique ids, deleting the future records' ids leaves exactly the purged list |
| `AttendanceManager.DeleteRecords` | src/components/attendance/AttendanceManager.tsx:56-58 | the `forEach` of deletions removes exactly the records with the listed ids |
| `AttendanceManager.InitialAmountOfDay` | src/components/attendance/AttendanceManager.tsx:76-84 | a day after today or without a record starts blank; otherwise it shows the record's amount |
| `AttendanceManager.InitialAmounts` | src/components/attendance/AttendanceManager.tsx:74-86 | the map has exactly the month's ISO dates as keys, each holding its initial amount |
| `AttendanceManager.StatusToSet` | src/components/attendance/AttendanceManager.tsx:121-122 | a day without a record gets status `present` |
| `AttendanceManager.MoneyEditOnExistingRecord` | src/components/attendance/AttendanceManager.tsx:121-129 | on a day with a record, the money edit leaves the stored records unchanged (the store keeps the old amount) |
| `AttendanceManager.MoneyEditOnNewDay` | src/components/attendance/AttendanceManager.tsx:121-129 | on a day without a record, one `present` record with the amount is appended |
| `AttendanceManager.StatsFromCountsBounds` | src/components/attendance/AttendanceManager.tsx:159-165 | remaining = earnable − taken; 0 ≤ earnable ≤ salary; a full month of days earns the whole salary |
| `AttendanceManager.EarnableAtMostSalary` | src/components/attendance/AttendanceManager.tsx:153-165 | the earnable amount so far lies between 0 and the salary |
| `AttendanceManager.FullMonthEarnable` | src/components/attendance/AttendanceManager.tsx:153-165 | when every day of the month is past and employed, the whole salary is earnable |
| `AttendanceManager.TakenIgnoresStatus` | src/components/attendance/AttendanceManager.tsx:148-150 | changing record statuses does not change the money-taken sum |
| `AttendanceManager.StatsIgnoreStatus` | src/components/attendance/AttendanceManager.tsx:142-175 | statuses play no part in the stats |
| `AttendanceManager.TakenIgnoresOther` | src/components/attendance/AttendanceManager.tsx:148-150 | records of other workers, other months or after today add nothing to the amount taken |
| `AttendanceManager.RowStateSpec` | src/components/attendance/AttendanceManager.tsx:270-279 | a row is disabled iff its day is after today or before the join date; "(Future Date)" takes precedence; a reason is shown iff disabled |
| `AttendanceManager.EmployedDayEnabled` | src/components/attendance/AttendanceManager.tsx:270-279 | a day up to today within the employment window is never disabled |
| `AttendanceManager.EnabledRowNotFuture` | src/components/attendance/AttendanceManager.tsx:116 | an enabled row of a readable day in years 1..9999 is never a future day for the money handler's own check |
| `AttendanceManager.AttendanceScreen.constructor` | src/components/attendance/AttendanceManager.tsx:29-34 | no worker selected, an empty money map, the month of today |
| `AttendanceManager.AttendanceScreen.SelectedWorker` | src/components/attendance/AttendanceManager.tsx:42-44 | the selected worker is a stored worker with the selected id |
| `AttendanceManager.AttendanceScreen.PurgeFutureRecords` | src/components/attendance/AttendanceManager.tsx:47-66 | with a worker selected, the records become the purged list; without, nothing changes |
| `AttendanceManager.AttendanceScreen.InitializeMoneyAmounts` | src/components/attendance/AttendanceManager.tsx:73-90 | with a worker selected the map holds every day of the month with its initial amount; otherwise it is empty |
| `AttendanceManager.AttendanceScreen.HandleStatusUpdate` | src/components/attendance/AttendanceManager.tsx:93-107 | no-op without a selected worker or for a future day; otherwise upserts the status with the typed amount (0 when missing) |
| `AttendanceManager.AttendanceScreen.HandleMoneyUpdateOnBlur` | src/components/attendance/AttendanceManager.tsx:115-134 | no-op for a future day; otherwise upserts with the existing status or `present` and the amount (blank → 0), and records it in the local map |
| `AttendanceManager.AttendanceScreen.MoneyTakenStats` | src/components/attendance/AttendanceManager.tsx:142-175 | no stats iff no worker is selected |
| `AttendanceManager.AttendanceScreen.RowStatusChange` | src/components/attendance/AttendanceManager.tsx:296-302 | a disabled row ignores the change; an enabled one passes it to the status handler |
| `AttendanceManager.AttendanceScreen.RowMoneyBlur` | src/components/attendance/AttendanceManager.tsx:334-338 | a blur on a disabled row changes neither the store nor the money map; on an enabled row it saves the amount under the existing status or `present` and records it in the map |
| `Dashboard.PresentTodayCount` | src/app/page.tsx:23-29 | 0 before the client has mounted |
| `Dashboard.AbsentOrHalfDayTodayCount` | src/app/page.tsx:31-37 | 0 before the client has mounted |
| `Dashboard.TodayCounts` | src/app/page.tsx:23-37 | once mounted, the counts are #present, and #absent + #half-day, among today's records |
| `Dashboard.TodayCountsBound` | src/app/page.tsx:23-37 | the two counts sum to at most today's records, short of it by exactly the per-day-wage-taken ones |
| `Dashboard.OtherDaysIgnored` | src/app/page.tsx:25-36 | records dated on other days change neither count |
| `WorkerDialog.SchemaErrors` | src/components/workers/WorkerDialog.tsx:29-32 | no error iff the name has at least 2 characters and the salary is positive; each message appears iff its check fails |
| `WorkerDialog.ResetValues` | src/components/workers/WorkerDialog.tsx:54-66 | the edited worker's name and salary, or `''` and 0 when adding |
| `WorkerDialog.BlankFormRejected` | src/components/workers/WorkerDialog.tsx:60-64 | the blank add form fails both checks |
| `WorkerDialog.MergeEdit` | src/components/workers/WorkerDialog.tsx:70 | `{...worker, ...data}` keeps id, join and leave date and takes the form's name and salary |
| `WorkerDialog.MergeResetValues` | src/components/workers/WorkerDialog.tsx:55-70 | submitting the edit form as reset gives back the worker |
| `WorkerDialog.AddData` | src/components/workers/WorkerDialog.tsx:73 | an add passes only name and salary: no join date, no leave date |
| `WorkerDialog.SubmitForm` | src/components/workers/WorkerDialog.tsx:68-77 | a rejected form changes nothing; an accepted one updates the merged worker or adds a new one |
| `WorkerDialog.EditKeepsIdentity` | src/components/workers/WorkerDialog.tsx:70 | after the edit the stored worker keeps its id and join date, has its leave date normalised, and takes the new name and salary |
| `WorkerDialog.AddedWorkerHasNoDates` | src/components/workers/WorkerDialog.tsx:73 | a worker added from the dialog is stored with a fresh id and no join or leave date |
| `WorkersPage.LowerChar` | src/app/workers/page.tsx:51 | upper-case ASCII letters map to lower case; nothing else changes; no upper-case letter remains |
| `WorkersPage.LowerCase` | src/app/workers/page.tsx:51 | lower-cases every character, keeping the length |
| `WorkersPage.LowerCaseIdempotent` | src/app/workers/page.tsx:51 | lower-casing twice is lower-casing once |
| `WorkersPage.Includes` | src/app/workers/page.tsx:51 | `includes` holds iff the term occurs at some index of the name |
| `WorkersPage.FilteredWorkersSpec` | src/app/workers/page.tsx:50-52 | keeps exactly the workers whose lower-cased name contains the lower-cased term, in order |
| `WorkersPage.EmptySearchKeepsAll` | src/app/workers/page.tsx:50-52 | an empty term keeps every worker |
| `WorkersPage.SearchIgnoresCase` | src/app/workers/page.tsx:50-52 | terms that differ only in letter case give the same list |
| `WorkersPage.SearchLowerCasedTerm` | src/app/workers/page.tsx:50-52 | searching for the lower-cased term gives the same list |
| `WorkersPage.HandleDeleteWorker` | src/app/workers/page.tsx:43-48 | the worker and its records are deleted only when confirmed; otherwise nothing changes |
| `ReportsLayout.FindTab` | src/app/reports/layout.tsx:25 | `find` returns the first tab whose `href` prefixes the path, and nothing iff none does |
| `ReportsLayout.ActiveTab` | src/app/reports/layout.tsx:25 | the active tab is always `leaves`, `wages` or `anomalies` |
| `ReportsLayout.HrefsDisjoint` | src/app/reports/layout.tsx:17-21 | no path lies under two tabs' `href`s |
| `ReportsLayout.ActiveTabSpec` | src/app/reports/layout.tsx:17-25 | `wages` iff the path starts with `/reports/wages`, `anomalies` iff with `/reports/anomalies`, and `leaves` otherwise |
| `ReportsLayout.NoTabGivesLeaves` | src/app/reports/layout.tsx:17-25 | a path under no tab of its own gives `leaves` |
| `ReportsLayout.UncoveredPathsGiveLeaves` | src/app/reports/layout.tsx:17-25 | `/reports` and `/reports/expenditure` both give `leaves` |

## Left out

- `getEffectiveDaysForWorkerInMonth` (imported from `src/lib/date-utils.ts`) is called but its body is not part of this model's source. `DateUtils.EffectiveDaysForWorkerInMonth` is an assumption built from its call sites: the month's days within [join date, leave date]; an unreadable join date gives none and an unreadable leave date is ignored.
- Time zones: `new Date('yyyy-MM-dd')` is read in UTC and then asked for a local month. Month membership is read from the ISO string's own year and month instead.
- JavaScript `Date` arithmetic: the month navigation (`changeMonth`, `setMonth` rollover) is not modelled. Months are numbered 1..12, and the source's 0-based index is kept where it takes one (`DatesForMonth`, `CalculateWorkingDays`).
- `parseISO` also accepts other ISO 8601 forms. `ParseIsoDate` reads only the `yyyy-MM-dd` form the application stores; any other string is an invalid date, which is after and before nothing.
- `DateUtils.DatesForMonth`: years 0 to 99 are taken as written, while `new Date(year, month, day)` reads them as 1900 to 1999 (February of year 0 has 29 days here and 28 in the source, and the ISO strings of year 50 are `0050-…` here and `1950-…` there), because the application only shows current years.
- `DateUtils.CalculateWorkingDays`: the same years 0 to 99 are counted in the proleptic calendar rather than as 1900 to 1999, for the same reason.
- `WorkerDialog.SchemaErrors`: the name's length is counted in characters (Unicode scalar values), while zod's `min(2)` counts UTF-16 code units, so a name of one character outside the Basic Multilingual Plane (an emoji) passes the source's check and fails the model's. UTF-16 encoding is not modelled.
- Years: `DateUtils.FormatIsoDate` uses date-fns' era year for year 0. The round trips are stated for years 1 to 9999.
- Floating point: money is `real`. IEEE-754 rounding, `NaN`, `toFixed` and currency formatting are left out. `AttendanceManager.MoneyTakenStats` returns the numbers before `toFixed(2)`.
- Text parsing: `parseFloat`, `Number` and `z.coerce.number()` are modelled by their outcome. `MoneyInput` is blank, not a number, or an amount, and the form's salary is already a number.
- `WorkersPage.LowerCase`: only the ASCII letters A–Z are lowered, because the full Unicode case mapping of `toLowerCase` is not modelled.
- Id generation: `crypto.randomUUID` is `AppContext.FreshId`, a deterministic id longer than every id in use.
- Persistence: localStorage reads and writes, including the load-time `joinDate` backfill, are not modelled. Theme and notification settings are I/O.
- The anomaly-detection call (an LLM flow) is a foreign asynchronous call. Only its stored result, through `addAnomalyReport`, is modelled.
- React scheduling: the operations run one after another. Stale closures, batching and effects re-running are not modelled.
- Toasts, rendering and layout components are presentation only.
- The auto-selection of the first worker (`AttendanceManager.tsx:36-40`) is not modelled; the selected worker is a field set from outside.
- The money input's `onChange` (`AttendanceManager.tsx:325-331`) is not modelled. It only writes the typed value into the local map, which `HandleStatusUpdate` reads through `Lookup`.
- `window.confirm` is the `confirmed` parameter of `WorkersPage.HandleDeleteWorker`.
