# Finora core, modelled in Dafny

Finora is a personal-finance application: a TypeScript backend that stores
income and expense transactions, materialises recurring transactions from a
cron job and mails monthly reports; and a React client whose CSV importer
validates rows before sending them in bulk. This project models the core
logic of both sides and proves what each part promises:

- the recurring-transaction schedule: the date helpers, the service rule
  that stores the next date, and the cron job that clones due transactions
  and advances them;
- the monthly report: the aggregation, the top categories, the savings rate,
  the retry loop around the AI call with its deterministic fallback, the
  report-setting update and the report cron job;
- the transaction service: create, update, list with filters and paging,
  duplicate, bulk insert, bulk delete, and the model failover of receipt
  scanning;
- the request schemas, the rupee/paise conversion, the duplicate clean-up
  script, and the import dialog's confirmation step.

Modules, one per source file (plus shared ones):

| module | models |
|---|---|
| `Wrappers`, `Text`, `CivilTime`, `Sorting` | Option/Result, JavaScript string operations, calendar dates (date-fns and native `Date` arithmetic), a stable descending sort |
| `TransactionModel` | the transaction document and its enumerations |
| `ReportModel` | report records, report settings and their store |
| `Helper` | backend/src/utils/helper.ts |
| `FormatCurrency` | backend/src/utils/format-currency.ts |
| `TransactionJobs` | backend/src/crons/jobs/transaction.jobs.ts |
| `ReportJobs` | backend/src/crons/jobs/report.jobs.ts |
| `ReportService` | backend/src/services/report.service.ts |
| `TransactionValidator` | backend/src/validators/transaction.validator.ts |
| `TransactionService` | backend/src/services/transaction.service.ts |
| `ConfirmationStep` | client/src/components/transaction/import-transaction-modal/confirmation-step.tsx |
| `RemoveDuplicates` | backend/src/utils/remove-duplicates.ts |

Modelling choices:

- **Time.** An instant is a calendar date plus milliseconds of the day, in
  one timezone. "Now" is always a parameter.
- **Amounts.** Rupee amounts are exact reals. Stored amounts are integer
  paise.
- **The database.** A collection is a sequence of records held by a store
  class (`TransactionJobs.TransactionStore`, `ReportModel.ReportStore`).
  Each database transaction is one atomic update of that store.
- **Outside effects are parameters.** Date parsing, JSON parsing, number
  rendering and `Number(text)` are parameters. So are the AI model's
  answers, the e-mail outcome, the commit outcome of each database
  transaction and cursor failures, each indexed by attempt or cursor
  position.

## Model

| member | source | states |
|---|---|---|
| Helper.ReportReference | backend/src/utils/helper.ts:13-15 | the reference is `lastSentDate ?? now`, clamped so it is never after now |
| Helper.CalculateNextReportDate | backend/src/utils/helper.ts:12-29 | the result is midnight on day 1 of the month right after the reference month, hence strictly after the reference |
| Helper.NextReportDateRollover | backend/src/utils/helper.ts:17-19 | December rolls over to January of the next year; other months advance by one within the year |
| Helper.NextReportDateClampsFuture | backend/src/utils/helper.ts:14-15 | a future `lastSentDate` gives the same date as no `lastSentDate`, and that date is after now |
| Helper.NormalizeRecurringInterval | backend/src/utils/helper.ts:41-52 | null gives undefined; otherwise an interval is found exactly when some enum value equals the input up to case, and the one found is such a value |
| Helper.NormalizeExactValue | backend/src/utils/helper.ts:45 | every stored enum value normalises to itself |
| Helper.NormalizeIsSearch | backend/src/utils/helper.ts:44-51 | the exact-value shortcut agrees with the case-insensitive search |
| Helper.NormalizeIgnoresCase | backend/src/utils/helper.ts:47-50 | upper-casing or lower-casing the input does not change the normalised interval |
| Helper.CalculateNextOccurrence | backend/src/utils/helper.ts:58-80 | the result is a valid date at midnight (no time of day) |
| Helper.NextOccurrenceSteps | backend/src/utils/helper.ts:62-79 | daily, weekly, monthly and yearly add 1 day, 7 days, one clamped month and one clamped year to the truncated base, strictly forward; null, missing, `none` or unknown give the truncated base |
| Helper.MonthlyClampExample | backend/src/utils/helper.ts:72-73 | a monthly schedule from 31 January lands on 28 February (date-fns clamps the day) |
| Helper.CapitalizeFirstLetter | backend/src/utils/helper.ts:82-84 | same length, the first character upper-cased, every other character lower-cased (ASCII case mapping) |
| Helper.PresetText | backend/src/utils/helper.ts:93-101 | null, undefined and objects give no text; a string is taken as it is; an integer gives its decimal text and a boolean "true" or "false"; an array gives the text of its first element |
| Helper.NormalizeDateRangePreset | backend/src/utils/helper.ts:90-110 | a result is a preset whose lower-cased form equals the trimmed, lower-cased text; no result means no preset matches (or there was no text) |
| Helper.PresetArrayUsesFirst | backend/src/utils/helper.ts:95 | for an array only the first element counts |
| Helper.PresetIgnoresCase | backend/src/utils/helper.ts:105-108 | upper-casing the query text does not change the preset found |
| FormatCurrency.MathRound | backend/src/utils/format-currency.ts:3 | `Math.round`: the integer within half of x, halves rounded up |
| FormatCurrency.ConvertToPaise | backend/src/utils/format-currency.ts:2-4 | the result is within half a paisa of `amount * 100` |
| FormatCurrency.ConvertToRupees | backend/src/utils/format-currency.ts:7-9 | the result times 100 is the paise amount |
| FormatCurrency.PaiseRoundTrip | backend/src/models/transaction.model.ts:72-73 | a stored paise amount read through the getter and written back through the setter is unchanged |
| FormatCurrency.RupeeRoundTrip | backend/src/utils/format-currency.ts:2-9 | a rupee amount in whole paise survives the setter and the getter |
| FormatCurrency.FormattableAmount | backend/src/utils/format-currency.ts:17 | a finite amount is kept and a non-finite one becomes 0 |
| TransactionJobs.LocalNextOccurrence | backend/src/crons/jobs/transaction.jobs.ts:5-30 | the result is a valid date that keeps the time of day |
| TransactionJobs.LocalIgnoresCase | backend/src/crons/jobs/transaction.jobs.ts:14 | only the lower-cased spelling of a string interval matters |
| TransactionJobs.LocalNextIsLater | backend/src/crons/jobs/transaction.jobs.ts:8-27 | every string or non-string interval and every positive day count moves strictly forward; a non-string, non-number adds exactly one day |
| TransactionJobs.LocalDailyWeekly | backend/src/crons/jobs/transaction.jobs.ts:16-19 | daily adds 1 day and weekly adds 7 days |
| TransactionJobs.LocalAgreesWithHelper | backend/src/crons/jobs/transaction.jobs.ts:4-19 | at midnight the job's local function agrees with the helper on daily and weekly schedules |
| TransactionJobs.LocalDiffersFromHelper | backend/src/crons/jobs/transaction.jobs.ts:20-21 | monthly from 31 January: the job overflows to 3 March, while the helper clamps to 28 February |
| TransactionJobs.CloneFields | backend/src/crons/jobs/transaction.jobs.ts:56-72 | the clone equals the original with exactly these fields replaced: the fresh id, the "Recurring - " title, the old next date as its date, not recurring, no interval, no next date, no `lastProcessed`; the paise amount survives the getter and setter, and everything else is copied |
| TransactionJobs.CloneNeverDue | backend/src/crons/jobs/transaction.jobs.ts:62-65 | a clone is never due, so no later run materialises it again |
| TransactionJobs.AdvanceProgress | backend/src/crons/jobs/transaction.jobs.ts:46-49 | the new next date is strictly after the old one (computed from it, not from now), and `lastProcessed` is now |
| TransactionJobs.CountsPartitionDue | backend/src/crons/jobs/transaction.jobs.ts:90-96 | processed plus failed equals the number of due records visited |
| TransactionJobs.UpdatedExactlyCommitted | backend/src/crons/jobs/transaction.jobs.ts:53-88 | an original changes exactly when its transaction committed, with one clone per committed record |
| TransactionJobs.CommitKeepsStoreValid | backend/src/crons/jobs/transaction.jobs.ts:56-83 | advancing the original and appending its clone keeps ids fresh and dates valid |
| TransactionJobs.TransactionStore.ProcessRecurringTransactions | backend/src/crons/jobs/transaction.jobs.ts:32-115 | the new store holds the originals updated for every committed due record and then the clones in cursor order; the counts are committed and failed due records; a cursor failure stops the run with an error |
| ReportJobs.ReportFrom | backend/src/crons/jobs/report.jobs.ts:19 | the start of the previous month is a valid date |
| ReportJobs.LastMonthRange | backend/src/crons/jobs/report.jobs.ts:19-20 | an instant is in [from, to] exactly when it falls in the month before now's, and the range ends before now |
| ReportJobs.RecordFor | backend/src/crons/jobs/report.jobs.ts:112-154 | the record is SENT exactly when a report was e-mailed, FAILED exactly when a report was not mailed, NO_ACTIVITY exactly when there was none; the period is the report's, or the default label |
| ReportJobs.SettingAfter | backend/src/crons/jobs/report.jobs.ts:126-167 | `lastSentDate` is now exactly when the report was sent, otherwise cleared; in both branches the next date is `calculateNextReportDate(now)`, which is after now, so the setting is no longer due |
| ReportJobs.ServiceReportNeverNoActivity | backend/src/crons/jobs/report.jobs.ts:138-167 | with the real report service the record is never NO_ACTIVITY and carries the service's period label |
| ReportJobs.CountsPartitionDue | backend/src/crons/jobs/report.jobs.ts:35-185 | every due setting visited is exactly one of processed, failed or skipped |
| ReportJobs.StillDueExactlyUncommitted | backend/src/crons/jobs/report.jobs.ts:107-179 | after the run a setting is due exactly when it was due and its transaction did not commit |
| ReportJobs.ProcessReportJob | backend/src/crons/jobs/report.jobs.ts:11-205 | the new settings and new report records are those of the committed visits, in cursor order; the counters are processed and failed; a skipped setting writes nothing; a cursor failure stops the run |
| ReportService.Matching | backend/src/services/report.service.ts:167-183 | exactly the transactions dated within [from, to], and of the user when a user filter applies |
| ReportService.Categories | backend/src/services/report.service.ts:204-206 | each expense category exactly once |
| ReportService.CategoryTotalsSumToExpenses | backend/src/services/report.service.ts:193-206 | the category totals add up to the expense total |
| ReportService.CategoryTotalBounded | backend/src/services/report.service.ts:196-206 | no category total exceeds the expense total |
| ReportService.Groups | backend/src/services/report.service.ts:206 | one group per expense category, carrying that category's total |
| ReportService.TopGroups | backend/src/services/report.service.ts:207-208 | at most five groups, sorted by total descending |
| ReportService.TopGroupsKeepLargest | backend/src/services/report.service.ts:207-208 | no category left out of the top five has a larger total than one kept |
| ReportService.TopGroupsComplete | backend/src/services/report.service.ts:208 | when fewer than five groups are listed, every expense category is among them |
| ReportService.PercentageBounds | backend/src/services/report.service.ts:236 | a category's percentage is between 0 and 100, and all of the expenses are exactly 100 |
| ReportService.TopSharesFacts | backend/src/services/report.service.ts:204-262 | at most five top categories, all expense categories with their own totals in rupees and percentages in 0..100, and every expense category among them when fewer than five are listed |
| ReportService.TopSharesOrder | backend/src/services/report.service.ts:233-262 | the listing order of `Object.entries`: category names that are array indices come first in ascending numeric order, then the other names by amount descending |
| ReportService.ShareList | backend/src/services/report.service.ts:233-239 | one share per top group, in aggregation order, each the group's rupee amount and percentage |
| ReportService.ShareListFacts | backend/src/services/report.service.ts:204-239 | in aggregation order the shares are descending by amount, expense categories with their own totals, and complete below five |
| ReportService.EntriesOrderPermutes | backend/src/services/report.service.ts:262 | `Object.entries` lists every property exactly once |
| ReportService.EntriesIndexNamesFirst | backend/src/services/report.service.ts:262 | array-index names come before every other name, in ascending numeric order |
| ReportService.EntriesOtherNamesDescending | backend/src/services/report.service.ts:233-262 | the other names keep their creation order, so they are descending by amount |
| ReportService.EntriesPutIndexNamesFirst | backend/src/services/report.service.ts:262 | "Food" at 500 rupees and "2024" at 100 rupees are listed as "2024", then "Food" |
| ReportService.RoundTo | backend/src/services/report.service.ts:262 | `toFixed` rounding: the result is on the decimal grid, within half a unit |
| ReportService.RoundToGrid | backend/src/services/report.service.ts:496 | a value already on the grid is unchanged |
| ReportService.CalculateSavingRate | backend/src/services/report.service.ts:493-497 | no positive income gives 0; otherwise the rate is `(income - expenses) / income * 100` to within the half hundredth that two-decimal rounding allows |
| ReportService.SavingRateFacts | backend/src/services/report.service.ts:493-497 | with positive income the rate is at most 100 (up to rounding), exactly 100 without expenses, and negative once expenses are at least twice the income |
| ReportService.SavingRateExample | backend/src/services/report.service.ts:495 | 1000 rupees of income and 500 of expenses give 50 |
| ReportService.PeriodLabel | backend/src/services/report.service.ts:244 | the period label is never empty |
| ReportService.RetrySpec | backend/src/services/report.service.ts:279-346 | the retry loop ends without an answer or an error only when `maxRetries` is negative |
| ReportService.RetryFromFacts | backend/src/services/report.service.ts:290-317 | between 1 and `maxRetries + 1` calls; every call before the last threw a transient status; the last answered, threw a non-transient status, or was the final attempt |
| ReportService.RetryReachesAnswer | backend/src/services/report.service.ts:290-292 | if the first j calls threw transient statuses and call j answers within the bound, that answer is returned |
| ReportService.InsightsFromReply | backend/src/services/report.service.ts:378-432 | when some call within the six attempts answered non-blank text after only transient failures, the insights are made from that reply: parsed JSON when it parses, otherwise one line |
| ReportService.CallWithRetries | backend/src/services/report.service.ts:279-346 | the loop's result equals the retry specification |
| ReportService.TopThree | backend/src/services/report.service.ts:476-478 | at most three categories, at least one when there are any, drawn from the input, sorted by amount descending, and no category left out has a larger amount than one kept |
| ReportService.FallbackLines | backend/src/services/report.service.ts:456-489 | five lines as written: the period, the totals, the balance and rate, the categories (or "No expense categories to show." exactly when there are none), the savings band; the category amounts go through `convertToRupees` a second time |
| ReportService.SavingsBandFacts | backend/src/services/report.service.ts:484-486 | low exactly below 10, decent exactly in [10, 25), healthy exactly from 25 |
| ReportService.FallbackInsights | backend/src/services/report.service.ts:456-489 | the pushed lines are the fallback lines as written |
| ReportService.CategoryTextAsWrittenDividesTwice | backend/src/services/report.service.ts:476-479 | the category line as written shows the group total divided by 10000, a hundredth of the rupee amount the share holds |
| ReportService.FallbackDoubleConversion | backend/src/services/report.service.ts:476-479 | a category of 500 rupees is shown as 5 by the line as written, and as 500 by the corrected line |
| ReportService.CategoryTextShowsRupees | backend/src/services/report.service.ts:476-479 | the corrected line shows the category total in rupees |
| ReportService.StripFences | backend/src/services/report.service.ts:416 | removing fences never lengthens the reply |
| ReportService.StripFencesNoBackticks | backend/src/services/report.service.ts:416 | a reply without backticks is unchanged |
| ReportService.EmptyFencedReply | backend/src/services/report.service.ts:416-429 | an empty fenced JSON block cleans to nothing |
| ReportService.InsightsFallBackExactly | backend/src/services/report.service.ts:378-451 | when no call within the six attempts answered non-blank text after only transient failures, the insights are the five fallback lines |
| ReportService.SummaryOf | backend/src/services/report.service.ts:182-268 | income and expenses are the absolute-value totals per type in rupees, the balance is their difference, both are non-negative |
| ReportService.GenerateReport | backend/src/services/report.service.ts:157-271 | the period is the range label and the summary is that of the matched transactions |
| ReportService.EmptyPeriodReport | backend/src/services/report.service.ts:222-230 | no matching transactions give all zeros and no categories |
| ReportService.NextReportDateOnUpdate | backend/src/services/report.service.ts:129-140 | a date exactly when the update enables reports, and then a valid one |
| ReportService.NextReportDateOnUpdateFacts | backend/src/services/report.service.ts:130-139 | a future date is kept; otherwise the first of the month after `lastSentDate ?? now`, later than now when no report was sent |
| ReportService.FindSetting | backend/src/services/report.service.ts:101 | the first setting of the user, or none when the user has none |
| ReportService.DefaultSetting | backend/src/services/report.service.ts:117-125 | a created setting is valid and has no `lastSentDate` |
| ReportService.UpdateReportSetting | backend/src/services/report.service.ts:90-153 | the user's setting (or a newly created default one) gets the given flag and the new date; nothing else in the store changes |
| ReportService.UpdateWithoutFlagClearsDate | backend/src/services/report.service.ts:130-147 | an update without `isEnabled` keeps the flag but clears `nextReportDate` |
| Sorting.SortDesc | backend/src/services/report.service.ts:476-477 | the result is sorted descending and a permutation of the input |
| Sorting.TakeKeepsLargest | backend/src/services/report.service.ts:476-478 | a prefix of a descending sequence holds its largest keys |
| Sorting.TakeLeavesSmaller | backend/src/services/report.service.ts:476-478 | whatever a prefix of a descending sequence leaves out is no larger than anything it keeps |
| TransactionValidator.ValidateId | backend/src/validators/transaction.validator.ts:9 | accepted exactly when the trimmed id is non-empty, and the value is the trimmed id |
| TransactionValidator.ValidateIdIdempotent | backend/src/validators/transaction.validator.ts:9 | a validated id validates to itself |
| TransactionValidator.ValidateNonEmpty | backend/src/validators/transaction.validator.ts:13-43 | accepted exactly when non-empty, with the field's own message otherwise |
| TransactionValidator.TypeAcceptsExactly | backend/src/validators/transaction.validator.ts:22-32 | accepted exactly when the trimmed, lower-cased text is "income" or "expense", mapping to Income and Expense respectively |
| TransactionValidator.TypeRoundTrip | backend/src/validators/transaction.validator.ts:22-32 | the stored spelling of a type validates back to it |
| TransactionValidator.ValidateAmount | backend/src/validators/transaction.validator.ts:38-41 | accepted exactly when finite, positive and at most one billion |
| TransactionValidator.AcceptedAmountInPaise | backend/src/validators/transaction.validator.ts:38-41 | an accepted amount is stored as at most 100 000 000 000 paise, and as 0 exactly below half a paisa |
| TransactionValidator.ValidateDate | backend/src/validators/transaction.validator.ts:48-56 | accepted exactly when the text parses (or the Date object is valid), with that instant |
| TransactionValidator.ValidateInterval | backend/src/validators/transaction.validator.ts:64-78 | absent or empty gives null; otherwise accepted exactly when the trimmed, lower-cased text names daily, weekly, monthly or yearly |
| TransactionValidator.IntervalRoundTrip | backend/src/validators/transaction.validator.ts:64-78 | every stored interval except `none` validates back to itself |
| TransactionValidator.IntervalRejectsNoneAndBlank | backend/src/validators/transaction.validator.ts:69-72 | `none` and blank text are rejected |
| TransactionValidator.ValidatePaymentMethod | backend/src/validators/transaction.validator.ts:87-112 | accepted exactly when the lower-cased text is in the list; Card exactly for "card" or "credit/debit card" |
| TransactionValidator.PaymentRoundTrip | backend/src/validators/transaction.validator.ts:87-112 | the stored spelling validates back to the method; a leading blank is rejected |
| TransactionValidator.Required | backend/src/validators/transaction.validator.ts:12-113 | a required field passes exactly when present and valid |
| TransactionValidator.Optional | backend/src/validators/transaction.validator.ts:119 | a field that may be missing passes when it is missing or when it is valid |
| TransactionValidator.ValidateCreate | backend/src/validators/transaction.validator.ts:116 | accepted exactly when every required field is present and valid; title and category are non-empty |
| TransactionValidator.ValidateCreateAsWritten | backend/src/validators/transaction.validator.ts:12-116 | accepts the same bodies, but the `isRecurring` key is dropped |
| TransactionValidator.EveryOkMeaning | backend/src/validators/transaction.validator.ts:129 | an array passes exactly when every element passes, and its value is every element's value, in order |
| TransactionValidator.ValidateCreateAllMeaning | backend/src/validators/transaction.validator.ts:129 | accepted exactly when every element is, keeping the length and order |
| TransactionValidator.ValidateUpdate | backend/src/validators/transaction.validator.ts:119 | the corrected update schema, which declares `isRecurring`: accepted exactly when every field given is valid; a field is present exactly when given; a positive amount within the limit; the flag as given |
| TransactionValidator.ValidateUpdateAsWritten | backend/src/validators/transaction.validator.ts:119 | the update schema as declared: accepts the same bodies as `ValidateUpdate`, with the `isRecurring` key dropped |
| TransactionValidator.PartialAgreesWithCreate | backend/src/validators/transaction.validator.ts:116-119 | on a body with every required field, create and update accept the same bodies and give the same values |
| TransactionValidator.ValidateBulkDelete | backend/src/validators/transaction.validator.ts:122-126 | accepted exactly when there is at least one id and each is non-empty once trimmed; the ids are trimmed, in order |
| TransactionService.NextRecurringDate | backend/src/services/transaction.service.ts:39-49 | a date exactly when recurring with an interval, and then at midnight |
| TransactionService.NextRecurringDateNotPast | backend/src/services/transaction.service.ts:45-48 | the stored date is the next occurrence after the date when that is not past, and otherwise one after now, later than now |
| TransactionService.ScheduleAsWrittenInvisibleToJob | backend/src/services/transaction.service.ts:58 | a schedule written to `nextRecurringDate` never makes the record due for the cron job |
| TransactionService.ScheduleReachesJob | backend/src/crons/jobs/transaction.jobs.ts:38-41 | a schedule in `nextRecurrenceDate` makes a recurring record due from that date on |
| TransactionService.Create | backend/src/services/transaction.service.ts:31-63 | as written: the body with the user, the amount in paise, `isRecurring` true exactly when the body says true, the computed schedule stored in `nextRecurringDate`, `nextRecurrenceDate` unset, no `lastProcessed`, status completed |
| TransactionService.CreateCorrected | backend/src/services/transaction.service.ts:31-63 | the same record with the computed schedule in `nextRecurrenceDate`, where the job reads it |
| TransactionService.CreatedNeverDue | backend/src/services/transaction.service.ts:37-60 | as written, nothing created is ever due for the job, even when a schedule was computed |
| TransactionService.CreateThroughSchemaNeverRecurring | backend/src/services/transaction.service.ts:37 | through the schema as declared, nothing created is recurring or scheduled |
| TransactionService.CreatedRecurringReachesJob | backend/src/services/transaction.service.ts:37-60 | with both corrections, a recurring body with an interval yields a record the job picks up once its date has come, and that date is not in the past |
| TransactionService.FindOwned | backend/src/services/transaction.service.ts:169-173 | the user's record with that id, or none when the user has none |
| TransactionService.MergeUpdate | backend/src/services/transaction.service.ts:176-206 | as written: id, owner, receipt, status and processing fields kept; `isRecurring`, date and interval fall back to the stored ones; the recomputed schedule goes into `nextRecurringDate` and `nextRecurrenceDate` is unchanged; dates stay valid |
| TransactionService.MergeUpdateCorrected | backend/src/services/transaction.service.ts:176-206 | the same update with the recomputed schedule in `nextRecurrenceDate` |
| TransactionService.UpdateScheduleReachesJob | backend/src/services/transaction.service.ts:176-206 | as written, whether the record is due depends only on the old `nextRecurrenceDate` and the new flag (which only a direct call can change, since the update schema strips it); corrected, a recurring record with an interval is due from its recomputed date, which is not past |
| TransactionService.EmptyUpdateOnlyReschedules | backend/src/services/transaction.service.ts:176-206 | as written, an empty body changes only `nextRecurringDate`, recomputed from the stored values |
| TransactionService.UpdateIdempotent | backend/src/services/transaction.service.ts:164-210 | the same update applied twice at the same instant equals applying it once |
| TransactionService.StopRecurringClearsSchedule | backend/src/services/transaction.service.ts:184-193 | corrected, a record that stops recurring loses its schedule and is never due |
| TransactionService.StopRecurringKeepsStaleDate | backend/src/services/transaction.service.ts:184-205 | as written, a record that stops recurring keeps its stale `nextRecurrenceDate`, has no `nextRecurringDate`, and is never due; a body with `isRecurring: false` reaches the service only by a direct call, since the update schema strips the flag |
| TransactionService.UpdateThroughSchemaKeepsRecurring | backend/src/validators/transaction.validator.ts:119 | as written, an update through the schema keeps the stored flag and `nextRecurrenceDate`, so whether the job picks the record up never changes |
| TransactionService.UpdateThroughCorrectedSchemaSetsRecurring | backend/src/services/transaction.service.ts:176-206 | with both corrections, the body's flag reaches the record: off, the record is never due; on with an interval, it is due from its recomputed date, which is not past |
| TransactionService.UpdateTransaction | backend/src/services/transaction.service.ts:164-210 | the owned record is replaced by the update as written, with "Transaction not found" when the user has none |
| TransactionService.BuildFilter | backend/src/services/transaction.service.ts:82-101 | the user is always filtered on; keyword, type and recurring status are filtered on exactly when non-empty |
| TransactionService.TypeFilterIsExact | backend/src/services/transaction.service.ts:92-95 | only "INCOME" selects income; "income" selects expenses |
| TransactionService.Listed | backend/src/services/transaction.service.ts:107 | exactly the records matching the filter |
| TransactionService.ListedOnlyOwn | backend/src/services/transaction.service.ts:82 | no other user's record is ever listed |
| TransactionService.Paginate | backend/src/services/transaction.service.ts:103-114 | `skip = (pageNumber - 1) * pageSize`; `totalPages` is the least page count covering every record, and 0 exactly when there are none |
| TransactionService.Page | backend/src/services/transaction.service.ts:107-109 | the slice after `skip`, of at most `pageSize` records |
| TransactionService.GetAll | backend/src/services/transaction.service.ts:68-126 | the requested page of the user's matching records, with the pagination block |
| TransactionService.EveryRecordOnOnePage | backend/src/services/transaction.service.ts:104-114 | the record at position i is on page `i / pageSize + 1`, one of the `totalPages` pages |
| TransactionService.Duplicate | backend/src/services/transaction.service.ts:147-159 | the original with exactly these fields replaced: a fresh id, the "Duplicate - " title, the description suffixed or defaulted, not recurring, no interval, no `nextRecurringDate`; the amount survives the round trip and everything else, `nextRecurrenceDate` included, is copied |
| TransactionService.DuplicateNeverDue | backend/src/services/transaction.service.ts:154-156 | a duplicate is never due |
| TransactionService.DuplicateTransaction | backend/src/services/transaction.service.ts:140-162 | appends the duplicate of the owned record, or "Transaction not found" with the store unchanged |
| TransactionService.BulkDocument | backend/src/services/transaction.service.ts:243-256 | the body with the user, the amount in paise and every schedule field off |
| TransactionService.BulkDocuments | backend/src/services/transaction.service.ts:243-256 | one document per input, in order, with consecutive fresh ids |
| TransactionService.BulkNeverDue | backend/src/services/transaction.service.ts:248-250 | nothing bulk-inserted is ever due |
| TransactionService.BulkInsert | backend/src/services/transaction.service.ts:238-267 | the documents are appended in order, and the count is the number of inputs |
| TransactionService.Remaining | backend/src/services/transaction.service.ts:225-228 | exactly the records that are not the user's with one of the ids |
| TransactionService.DeletedCount | backend/src/services/transaction.service.ts:225-234 | deleted plus remaining is the original count |
| TransactionService.NothingDeletedKeepsAll | backend/src/services/transaction.service.ts:225-230 | when nothing matches, nothing is removed |
| TransactionService.BulkDelete | backend/src/services/transaction.service.ts:221-236 | removes the user's records among the ids; "No transactions found" exactly when none matched |
| TransactionService.AnsweringModel | backend/src/services/transaction.service.ts:308-344 | a model found answered and every model before it failed retriably; none found means every answering model comes after a non-retriable failure |
| TransactionService.TryModels | backend/src/services/transaction.service.ts:304-344 | the loop finds a result exactly when some model answers before a non-retriable failure, and names that model |
| TransactionService.ReceiptFromReply | backend/src/services/transaction.service.ts:360-398 | scanned exactly when the cleaned reply is non-empty, parses to a non-null value, and its `amount` and `date` are truthy, carrying those values, the path and the model; a `null` reply is "service unavailable"; every other failure is one of the three reply errors |
| TransactionService.TruthinessDecidesAmount | backend/src/services/transaction.service.ts:376-378 | only truthiness is checked: an amount of the text "0" is accepted, the number 0 is "missing required information" |
| TransactionService.ScanReceipt | backend/src/services/transaction.service.ts:275-398 | the method's result equals the scan specification |
| TransactionService.FirstModelWins | backend/src/services/transaction.service.ts:308-325 | when the first model answers, its reply is checked and it is named |
| TransactionService.ClientErrorStopsFailover | backend/src/services/transaction.service.ts:335-357 | a client error other than 429 from the first model ends the scan as unavailable |
| TransactionService.RateLimitTriesNextModel | backend/src/services/transaction.service.ts:335-344 | a rate-limited first model hands over to the second |
| TransactionService.ScannedTitle | backend/src/services/transaction.service.ts:363-381 | a scanned receipt came from text that parsed to a non-null value; its title is the reply's title unless undefined or null, then "Receipt" |
| TransactionService.ScanRejectsMissingInput | backend/src/services/transaction.service.ts:278-299 | no file is a request error; an unreadable or empty file makes the service unavailable |
| ConfirmationStep.NormalizeType | client/src/components/transaction/import-transaction-modal/confirmation-step.tsx:334-341 | Income exactly for "income" and Expense exactly for "expense" after trimming and lower-casing; anything else is the type error |
| ConfirmationStep.TypeLabelRoundTrip | client/src/components/transaction/import-transaction-modal/confirmation-step.tsx:337-339 | each type is read back from its label, in any case |
| ConfirmationStep.NormalizePaymentMethod | client/src/components/transaction/import-transaction-modal/confirmation-step.tsx:343-354 | the first of "upi", "bank", "card", "cash" that the trimmed, lower-cased text contains decides; none is the payment error |
| ConfirmationStep.UpiBeatsBank | client/src/components/transaction/import-transaction-modal/confirmation-step.tsx:347-348 | text naming both UPI and a bank is UPI |
| ConfirmationStep.IsoDatePart | client/src/components/transaction/import-transaction-modal/confirmation-step.tsx:377 | a date with a four-digit year renders as ten characters, digits with dashes at 4 and 7, whose three parts read back as its year, month and day |
| ConfirmationStep.NormalizeDate | client/src/components/transaction/import-transaction-modal/confirmation-step.tsx:356-378 | empty text is "Date is required"; three dash parts are reordered to year-month-day if that parses; other text must parse and gives its calendar date |
| ConfirmationStep.DayFirstReordered | client/src/components/transaction/import-transaction-modal/confirmation-step.tsx:359-369 | `dd-mm-yyyy` becomes `yyyy-mm-dd` when that parses, and is rejected otherwise |
| ConfirmationStep.CheckSchema | client/src/components/transaction/import-transaction-modal/confirmation-step.tsx:382-393 | a row passes exactly when every field the schema demands is present and valid, the amount being positive |
| ConfirmationStep.RowNeedsRequiredColumns | client/src/components/transaction/import-transaction-modal/confirmation-step.tsx:382-393 | a row with no column mapped to one of the schema's required fields (title, amount, date, type, category, payment method) never passes |
| ConfirmationStep.DraftKeepsUnmapped | client/src/components/transaction/import-transaction-modal/confirmation-step.tsx:425-450 | any field that no present column maps to keeps its value in the draft |
| ConfirmationStep.Results | client/src/components/transaction/import-transaction-modal/confirmation-step.tsx:423-461 | one outcome per row, in order |
| ConfirmationStep.ValidRowsMeaning | client/src/components/transaction/import-transaction-modal/confirmation-step.tsx:453 | exactly the rows that passed, in input order; all of them when none failed, fewer when some failed |
| ConfirmationStep.ValidRowsInOrder | client/src/components/transaction/import-transaction-modal/confirmation-step.tsx:453 | one valid row per passed row, and the row that passed at index i sits at the position counting the rows that passed before it |
| ConfirmationStep.PassCountGrows | client/src/components/transaction/import-transaction-modal/confirmation-step.tsx:453 | a passed row has fewer passed rows before it than any later row, so the positions follow input order |
| ConfirmationStep.RowErrorsAt | client/src/components/transaction/import-transaction-modal/confirmation-step.tsx:454-459 | an error under row number n exactly when row n failed, and it is that row's error |
| ConfirmationStep.ErrorsMarkFailures | client/src/components/transaction/import-transaction-modal/confirmation-step.tsx:455-459 | some error is recorded exactly when some row failed |
| ConfirmationStep.BuildTransactions | client/src/components/transaction/import-transaction-modal/confirmation-step.tsx:417-464 | the built rows are the valid rows, the errors are the row errors, and the flag is set exactly when some row failed |
| ConfirmationStep.BuildRow | client/src/components/transaction/import-transaction-modal/confirmation-step.tsx:425-453 | the row built is the row specification's outcome |
| ConfirmationStep.DecideImport | client/src/components/transaction/import-transaction-modal/confirmation-step.tsx:468-476 | sent exactly when no row failed and the rows are within the limit; too many exactly when above it |
| ConfirmationStep.SentImportHasEveryRow | client/src/components/transaction/import-transaction-modal/confirmation-step.tsx:469-488 | what is sent is every CSV row, validated, in order |
| ConfirmationStep.Tick | client/src/components/transaction/import-transaction-modal/confirmation-step.tsx:483 | one tick adds at most ten and never passes 90 |
| ConfirmationStep.ProgressClosedForm | client/src/components/transaction/import-transaction-modal/confirmation-step.tsx:481-485 | after n ticks the progress is `min(10 + 10n, 90)`, and it never falls |
| RemoveDuplicates.Members | backend/src/utils/remove-duplicates.ts:12-14 | a group's members are exactly the records with its user, title and date |
| RemoveDuplicates.FirstSmallest | backend/src/utils/remove-duplicates.ts:25-26 | the kept position has the smallest amount, and every earlier position has a larger one |
| RemoveDuplicates.KeptIndex | backend/src/utils/remove-duplicates.ts:25-26 | the scan finds the first smallest position |
| RemoveDuplicates.FirstSmallestUnique | backend/src/utils/remove-duplicates.ts:25-26 | that position is the only one with both properties |
| RemoveDuplicates.DuplicateGroups | backend/src/utils/remove-duplicates.ts:15-18 | exactly the groups with more than one member |
| RemoveDuplicates.DeleteIds | backend/src/utils/remove-duplicates.ts:29 | exactly the records whose id is not among the ids |
| RemoveDuplicates.DeleteTwice | backend/src/utils/remove-duplicates.ts:23-31 | deleting two id sets in turn is deleting their union |
| RemoveDuplicates.RemovedInIsDoomed | backend/src/utils/remove-duplicates.ts:27 | a group's removed ids are the ids of its members other than the kept one |
| RemoveDuplicates.RemoveDuplicateTransactions | backend/src/utils/remove-duplicates.ts:10-32 | the new collection is the survivors of the old one, and the store stays valid |
| RemoveDuplicates.CleanGroups | backend/src/utils/remove-duplicates.ts:23-32 | after the loop every group of the aggregation is cleaned, in whatever order the groups come |
| RemoveDuplicates.CleanGroup | backend/src/utils/remove-duplicates.ts:24-31 | one more group cleaned: its members other than the kept one are deleted, and nothing is deleted when there are none |
| RemoveDuplicates.KeeperIsSmallest | backend/src/utils/remove-duplicates.ts:25-26 | the kept member has the smallest amount in its group |
| RemoveDuplicates.SurvivorsOfGroup | backend/src/utils/remove-duplicates.ts:23-31 | a record survives exactly when it is its group's kept member, so every group keeps exactly one |
| RemoveDuplicates.DeleteKeepsUniqueIds | backend/src/utils/remove-duplicates.ts:29 | deleting keeps ids unique |
| RemoveDuplicates.CleanupIdempotent | backend/src/utils/remove-duplicates.ts:10-32 | running the clean-up twice is the same as running it once |

## Left out

- Database machinery is not modelled: Mongoose sessions, cursors, `populate`, the aggregation engine and `bulkWrite`. Each database transaction is one atomic update of the store. Zod's stripping of the undeclared `isRecurring` key is modelled. The transaction record keeps the undeclared `nextRecurringDate` and `lastProcessed` as fields, to show where create, update and the job write; Mongoose strict mode discards both on save, and no member reads them back.
- The AI provider is an oracle indexed by attempt: the SDK, the dispatch over model methods, the extraction of the response shape and `JSON.parse`. `listRemoteModelsForDebug` and the `details` field of scan errors are not modelled.
- Downloading and reading files (axios, Cloudinary, `fs`) and base64 encoding are abstracted. An uploaded file carries its bytes or none.
- E-mail is an oracle. So are JWT handling, passport, hashing, controllers, routes and the error middleware, all outside this model.
- Timing is left out: the backoff delays, jitter, `Retry-After` waits and the progress timer's period. The retry model keeps only the retry-or-stop decision and the attempt count.
- Floating-point formatting is left out: `Intl.NumberFormat`, `formatCurrencyPostfix`, `normalizeCurrencyPostfix` and `escapeForRegex`. Rendering a number as text is a parameter `show`; `toFixed` is modelled as exact decimal rounding.
- Timezones are left out: one timezone is assumed. The server runs in UTC; the client's `toISOString` (client/src/components/transaction/import-transaction-modal/confirmation-step.tsx:377) runs in the browser and converts local time to UTC, so a date parsed as local midnight east of UTC (India, say) renders one day earlier, and that shift is not modelled. JavaScript date parsing is a parameter. The `RangeError` that `toISOString` throws for years beyond ±275760 is not modelled.
- The order of `$group` output and of `$push` is taken to be collection order.
- The `$sort: { createdAt: -1 }` of the transaction list is taken to be the order the store keeps.
- TransactionService.ContainsIgnoreCase: treats the keyword as a literal substring. The source uses it as a regular expression, so a keyword with metacharacters is not modelled.
- TransactionService.Paginate: requires `pageSize >= 1` and `pageNumber >= 1`. The controller (backend/src/controllers/transaction.controller.ts:119-120) maps 0 and unparsable text to 20 and 1, but passes negative numbers through; negative values, and what MongoDB's `skip` and `limit` do with them, are not modelled.
- TransactionService.GetAll: requires `pageSize >= 1` and `pageNumber >= 1`, for the reason given for `Paginate`.
- RemoveDuplicates.RemoveDuplicateTransactions: requires unique ids, the collection's `_id` index invariant. The stable `Array.prototype.sort` is modelled as a scan for the first smallest amount, which is the element it puts first.
- ConfirmationStep.NormalizePaymentMethod: the error message that lists the enum values is one error value, because the client's enum strings are not part of this model.
- ConfirmationStep.CheckSchema: Zod's error text is one error value. An infinite amount is rejected; the Zod version, which decides whether `number()` accepts infinity, is not part of this model.
- ConfirmationStep.BuildRow: takes `mappings` as a sequence already in `Object.entries` order (client/src/components/transaction/import-transaction-modal/confirmation-step.tsx:430). JavaScript lists integer-like CSV headers first, in ascending order; that reordering, which decides whose normaliser error is shown and which of two columns mapped to one field wins, is not modelled.
- ConfirmationStep.DecideImport: takes the import limit as a parameter, because the client constant file is not part of this model.
- `getTransactionByIdService` and `deleteTransactionService` are not modelled. They are single-document reads and deletes outside this model's scope. The second one passes a filter object where Mongoose expects an id, and how that object is cast is not part of this model.
- `getAllReportsService` is not modelled. Its paging arithmetic is the one `TransactionService.Paginate` states.
- Overlapping cron runs are not modelled (a concurrency concern).
- The commented-out first half of confirmation-step.tsx is not modelled.
- Helper.PresetText: `QueryValue.Num` holds integers only, so `String` of a fractional number ("1.5") is not modelled.
- Helper.CapitalizeFirstLetter: upper- and lower-casing follow ASCII only (as do `Text.ToLower` and `Text.ToUpper`); JavaScript's full Unicode case mapping, such as "ß" upper-casing to "SS", is not modelled.
- TransactionService.BulkInsert: models `bulkTransactionService`, which no active route reaches. The `/bulk` route calls `createTransactionService` once per record (the behaviour of `TransactionService.Create`), and the route to `bulkTransactionController` is commented out. The concurrent `Promise.all` of those creates is not modelled.
- RemoveDuplicates.RemoveDuplicateTransactions: models a run that completes. An error after some groups were deleted ends the script with `process.exit(1)` and leaves those deletions in place; that partial run is not modelled.
- ReportService.TopShares: a category named `__proto__` is not modelled. The reduction's `acc[_id] = …` would set the object's prototype rather than add an entry, so `Object.entries` would not list it.

## Findings

| source | as written | input that shows it | evidently intended | confidence | as-written member | corrected member |
|---|---|---|---|---|---|---|
| backend/src/validators/transaction.validator.ts:12-116 with backend/src/services/transaction.service.ts:37 | the create schema declares no `isRecurring` key, so Zod strips it and the service always stores `isRecurring: false` | a create body with `isRecurring: true`, `recurringInterval: "monthly"` | the flag reaches the service, and the record is recurring with a schedule | not executed | TransactionService.CreateThroughSchemaNeverRecurring | TransactionService.CreatedRecurringReachesJob |
| backend/src/validators/transaction.validator.ts:119 with backend/src/services/transaction.service.ts:184-193 | the update schema is the create schema made partial, so it strips `isRecurring` too; an update can neither start nor stop recurrence | an update body with `isRecurring: false` for a recurring record | the flag reaches the service, and a record that stops recurring is no longer due | not executed | TransactionService.UpdateThroughSchemaKeepsRecurring | TransactionService.UpdateThroughCorrectedSchemaSetsRecurring |
| backend/src/services/transaction.service.ts:58,205 with backend/src/crons/jobs/transaction.jobs.ts:38-41 | create and update write the schedule to `nextRecurringDate`; the cron job queries `nextRecurrenceDate`, the field the schema declares | any recurring transaction created or updated through the service, with the job run after its date | the schedule is stored where the job looks, so the record becomes due | not executed | TransactionService.ScheduleAsWrittenInvisibleToJob | TransactionService.ScheduleReachesJob |
| backend/src/services/report.service.ts:235,479 | the fallback insights apply `convertToRupees` to category amounts that are already in rupees | one expense category of 50000 paise (500 rupees) when the AI call fails: the line shows 5 | the line shows 500 | not executed | ReportService.FallbackDoubleConversion | ReportService.CategoryTextShowsRupees |
