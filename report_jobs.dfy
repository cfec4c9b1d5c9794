/**
 * The monthly report job of backend/src/crons/jobs/report.jobs.ts: for every
 * enabled setting whose `nextReportDate` has come, generate last month's
 * report, try to e-mail it, and in one transaction record the outcome and
 * move the schedule to the first of next month.
 *
 * The environment is a parameter: `env(j)` says, for the setting at index
 * `j`, whether its user could be loaded, what report generation gave, whether
 * the e-mail went out and whether the transaction committed; `cursorFails(j)`
 * says whether the cursor (or opening a session) fails when it reaches the
 * due setting at index `j`.
 */
module ReportJobs {
  import opened Wrappers
  import opened Text
  import opened CivilTime
  import opened ReportModel
  import ReportService
  import Helper
  import TransactionJobs
  import TransactionModel

  /** What `generateReportService` gave: it threw, returned nothing, or returned a report with this period label. */
  datatype Generation = GenThrows | GenNothing | Generated(period: string)

  /** What happened while visiting one setting. */
  datatype Visit = Visit(userResolved: bool, generation: Generation, emailOk: bool, committed: bool)

  /** The cursor's query: enabled, with a `nextReportDate` at or before now. */
  predicate Due(s: ReportSetting, now: DateTime) {
    s.isEnabled && s.nextReportDate.Some? && AtOrBefore(s.nextReportDate.value, now)
  }

  // ---------------------------------------------------------------- the reporting period

  /** `startOfMonth(subMonths(now, 1))` */
  function ReportFrom(now: DateTime): (r: DateTime)
    requires Valid(now)
    ensures Valid(r)
  {
    StartOfMonth(AddMonthsClamp(now, -1))
  }

  /** `endOfMonth(subMonths(now, 1))` */
  function ReportTo(now: DateTime): (r: DateTime)
    requires Valid(now)
    ensures Valid(r)
  {
    EndOfMonth(AddMonthsClamp(now, -1))
  }

  /**
   * The range is exactly the previous calendar month: an instant lies in it
   * if and only if it falls in the month before now's; and it ends before now.
   */
  lemma LastMonthRange(now: DateTime, d: DateTime)
    requires Valid(now) && Valid(d)
    ensures AtOrBefore(ReportFrom(now), d) && AtOrBefore(d, ReportTo(now))
            <==> d.year * 12 + d.month == now.year * 12 + now.month - 1
    ensures Before(ReportTo(now), now)
  {
    var m := AddMonthsClamp(now, -1);
    assert m.year * 12 + m.month == now.year * 12 + now.month - 1;
    var from := ReportFrom(now);
    var to := ReportTo(now);
    if d.year * 12 + d.month == now.year * 12 + now.month - 1 {
      assert d.year == m.year && d.month == m.month;
    }
    if d.year * 12 + d.month < m.year * 12 + m.month {
      assert d.year < m.year || (d.year == m.year && d.month < m.month);
      assert Before(d, from);
      OrderTotal(d, from);
    }
    if d.year * 12 + d.month > m.year * 12 + m.month {
      assert d.year > m.year || (d.year == m.year && d.month > m.month);
      assert Before(to, d);
      OrderTotal(d, to);
    }
    assert m.year < now.year || (m.year == now.year && m.month < now.month);
  }

  /** The label used when no report period is available: `MMMM d–d, yyyy`, with an en dash. */
  function DefaultPeriod(from: DateTime, to: DateTime): (r: string)
    requires Valid(from) && Valid(to)
  {
    ReportService.MonthName(from.month) + " " + NatToString(from.day) + "\U{2013}"
      + NatToString(to.day) + ", " + ReportService.YearText(to.year)
  }

  // ---------------------------------------------------------------- one setting

  /** A report was generated and its e-mail went out. */
  predicate Sent(v: Visit) {
    v.generation.Generated? && v.emailOk
  }

  /**
   * The report document written for a setting whose report generation did
   * not throw: SENT with the report's period when the e-mail went out;
   * otherwise the report's period or, when it is empty or there is no
   * report, the default label, with status FAILED if there was a report and
   * NO_ACTIVITY if there was none.
   */
  function RecordFor(s: ReportSetting, v: Visit, now: DateTime): (r: ReportRecord)
    requires Valid(now) && !v.generation.GenThrows?
    ensures r.userId == s.userId && r.sentDate == now
    ensures r.status == SENT <==> Sent(v)
    ensures r.status == FAILED <==> v.generation.Generated? && !v.emailOk
    ensures r.status == NO_ACTIVITY <==> v.generation.GenNothing?
    ensures !Sent(v) ==> r.period != ""
    ensures v.generation.Generated? && v.generation.period != "" ==> r.period == v.generation.period
  {
    var fallback := DefaultPeriod(ReportFrom(now), ReportTo(now));
    match v.generation
    case Generated(p) =>
      if v.emailOk then ReportRecord(s.userId, p, now, SENT)
      else ReportRecord(s.userId, if p != "" then p else fallback, now, FAILED)
    case GenNothing => ReportRecord(s.userId, fallback, now, NO_ACTIVITY)
  }

  /**
   * The setting after its transaction: `lastSentDate` is now when the report
   * was sent and cleared otherwise; the next report is due on the first of
   * next month, so the setting is no longer due.
   */
  function SettingAfter(s: ReportSetting, v: Visit, now: DateTime): (r: ReportSetting)
    requires SettingValid(s) && Valid(now)
    ensures SettingValid(r) && !Due(r, now)
    ensures r.id == s.id && r.userId == s.userId && r.frequency == s.frequency && r.isEnabled == s.isEnabled
    ensures r.lastSentDate.Some? <==> Sent(v)
    ensures r.lastSentDate.Some? ==> r.lastSentDate.value == now
    ensures r.nextReportDate == Some(Helper.CalculateNextReportDate(Some(now), now))
    ensures r.nextReportDate.Some? && Before(now, r.nextReportDate.value)
  {
    var next := Helper.CalculateNextReportDate(Some(now), now);
    OrderTotal(now, next);
    s.(lastSentDate := if Sent(v) then Some(now) else Option.None, nextReportDate := Some(next))
  }

  /**
   * With the report service itself as the generator, the report always has
   * the service's period label, so the record never says NO_ACTIVITY and
   * carries that label whether or not the e-mail went out.
   */
  lemma ServiceReportNeverNoActivity(s: ReportSetting, now: DateTime, txs: seq<TransactionModel.Transaction>,
                                     fn: nat -> ReportService.CallOutcome<string>, isJson: string -> bool,
                                     show: real -> string, emailOk: bool)
    requires Valid(now)
    ensures var from := ReportFrom(now);
            var to := ReportTo(now);
            var report := ReportService.GenerateReport(txs, Some(s.userId), from, to, fn, isJson, show);
            var r := RecordFor(s, Visit(true, Generated(report.period), emailOk, true), now);
            r.status != NO_ACTIVITY && r.period == ReportService.PeriodLabel(from, to)
  {
  }

  // ---------------------------------------------------------------- the batch, as specification

  /** A due setting whose user was found: it is counted as processed or failed. */
  predicate Handled(s: seq<ReportSetting>, now: DateTime, env: nat -> Visit, j: nat)
    requires j < |s|
  {
    Due(s[j], now) && env(j).userResolved
  }

  /** A handled setting whose report generation did not throw and whose transaction committed. */
  predicate Committed(s: seq<ReportSetting>, now: DateTime, env: nat -> Visit, j: nat)
    requires j < |s|
  {
    Handled(s, now, env, j) && !env(j).generation.GenThrows? && env(j).committed
  }

  /** The first index at or after `j` where the cursor fails on a due setting, or `|s|` if none. */
  function FirstCursorFailure(s: seq<ReportSetting>, now: DateTime, cursorFails: nat -> bool, j: nat): (k: nat)
    requires j <= |s|
    ensures j <= k <= |s|
    ensures k < |s| ==> Due(s[k], now) && cursorFails(k)
    ensures forall i :: j <= i < k ==> !(Due(s[i], now) && cursorFails(i))
    decreases |s| - j
  {
    if j == |s| then |s|
    else if Due(s[j], now) && cursorFails(j) then j
    else FirstCursorFailure(s, now, cursorFails, j + 1)
  }

  function DueCount(s: seq<ReportSetting>, now: DateTime, k: nat): nat
    requires k <= |s|
  {
    if k == 0 then 0 else DueCount(s, now, k - 1) + (if Due(s[k - 1], now) then 1 else 0)
  }

  function ProcessedCount(s: seq<ReportSetting>, now: DateTime, env: nat -> Visit, k: nat): nat
    requires k <= |s|
  {
    if k == 0 then 0
    else ProcessedCount(s, now, env, k - 1) + (if Committed(s, now, env, k - 1) then 1 else 0)
  }

  function FailedCount(s: seq<ReportSetting>, now: DateTime, env: nat -> Visit, k: nat): nat
    requires k <= |s|
  {
    if k == 0 then 0
    else FailedCount(s, now, env, k - 1)
         + (if Handled(s, now, env, k - 1) && !Committed(s, now, env, k - 1) then 1 else 0)
  }

  /** Due settings whose user could not be loaded: skipped without being counted. */
  function SkippedCount(s: seq<ReportSetting>, now: DateTime, env: nat -> Visit, k: nat): nat
    requires k <= |s|
  {
    if k == 0 then 0
    else SkippedCount(s, now, env, k - 1) + (if Due(s[k - 1], now) && !env(k - 1).userResolved then 1 else 0)
  }

  /** Every due setting visited is processed, failed or skipped, and exactly one of them. */
  lemma {:induction false} CountsPartitionDue(s: seq<ReportSetting>, now: DateTime, env: nat -> Visit, k: nat)
    requires k <= |s|
    ensures ProcessedCount(s, now, env, k) + FailedCount(s, now, env, k) + SkippedCount(s, now, env, k)
            == DueCount(s, now, k)
  {
    if k > 0 {
      CountsPartitionDue(s, now, env, k - 1);
    }
  }

  /** The settings after the first `k` were visited: each committed one updated in place. */
  function Updated(s: seq<ReportSetting>, now: DateTime, env: nat -> Visit, k: nat): (r: seq<ReportSetting>)
    requires k <= |s| && Valid(now)
    requires forall j :: 0 <= j < |s| ==> SettingValid(s[j])
    ensures |r| == |s|
  {
    if k == 0 then s
    else
      var before := Updated(s, now, env, k - 1);
      if Committed(s, now, env, k - 1) then before[k - 1 := SettingAfter(s[k - 1], env(k - 1), now)] else before
  }

  /** Setting `j` after `k` visits: updated if it was visited and committed, as it was otherwise. */
  lemma {:induction false} UpdatedAt(s: seq<ReportSetting>, now: DateTime, env: nat -> Visit, k: nat, j: nat)
    requires k <= |s| && j < |s| && Valid(now)
    requires forall i :: 0 <= i < |s| ==> SettingValid(s[i])
    ensures Updated(s, now, env, k)[j]
            == if j < k && Committed(s, now, env, j) then SettingAfter(s[j], env(j), now) else s[j]
  {
    if k > 0 {
      UpdatedAt(s, now, env, k - 1, j);
    }
  }

  /** The report documents written while visiting the first `k` settings, in cursor order. */
  function NewReports(s: seq<ReportSetting>, now: DateTime, env: nat -> Visit, k: nat): (r: seq<ReportRecord>)
    requires k <= |s| && Valid(now)
    ensures |r| == ProcessedCount(s, now, env, k)
    ensures forall j :: 0 <= j < |r| ==> r[j].sentDate == now
  {
    if k == 0 then []
    else
      var before := NewReports(s, now, env, k - 1);
      if Committed(s, now, env, k - 1) then before + [RecordFor(s[k - 1], env(k - 1), now)] else before
  }

  /** A committed visit of setting `i` updates it in place. */
  lemma UpdatedAdvance(s: seq<ReportSetting>, now: DateTime, env: nat -> Visit, i: nat)
    requires i < |s| && Valid(now) && Committed(s, now, env, i)
    requires forall j :: 0 <= j < |s| ==> SettingValid(s[j])
    ensures Updated(s, now, env, i + 1) == Updated(s, now, env, i)[i := SettingAfter(s[i], env(i), now)]
  {
  }

  /** A committed visit of setting `i` appends its report document. */
  lemma NewReportsAppend(s: seq<ReportSetting>, now: DateTime, env: nat -> Visit, i: nat)
    requires i < |s| && Valid(now) && Committed(s, now, env, i)
    ensures NewReports(s, now, env, i + 1) == NewReports(s, now, env, i) + [RecordFor(s[i], env(i), now)]
  {
  }

  /** A visit of setting `i` that does not commit changes no setting and writes no document. */
  lemma UncommittedStep(s: seq<ReportSetting>, now: DateTime, env: nat -> Visit, i: nat)
    requires i < |s| && Valid(now) && !Committed(s, now, env, i)
    requires forall j :: 0 <= j < |s| ==> SettingValid(s[j])
    ensures Updated(s, now, env, i + 1) == Updated(s, now, env, i)
    ensures NewReports(s, now, env, i + 1) == NewReports(s, now, env, i)
  {
  }

  /** Visiting setting `i` without a cursor failure moves each counter by at most one. */
  lemma CountsStep(s: seq<ReportSetting>, now: DateTime, env: nat -> Visit, cursorFails: nat -> bool, i: nat)
    requires i < |s| && !(Due(s[i], now) && cursorFails(i))
    ensures FirstCursorFailure(s, now, cursorFails, i + 1) == FirstCursorFailure(s, now, cursorFails, i)
    ensures ProcessedCount(s, now, env, i + 1)
            == ProcessedCount(s, now, env, i) + (if Committed(s, now, env, i) then 1 else 0)
    ensures FailedCount(s, now, env, i + 1)
            == FailedCount(s, now, env, i) + (if Handled(s, now, env, i) && !Committed(s, now, env, i) then 1 else 0)
  {
  }

  /** Every setting's dates are calendar dates and every id is taken. */
  predicate SettingsValid(settings: seq<ReportSetting>, nextId: nat) {
    forall j :: 0 <= j < |settings| ==> SettingValid(settings[j]) && settings[j].id < nextId
  }

  /** Replacing a setting by its updated form keeps every date a calendar date and every id taken. */
  lemma SettingAfterKeepsValid(settings: seq<ReportSetting>, nextId: nat, i: nat, v: Visit, now: DateTime)
    requires i < |settings| && Valid(now) && SettingsValid(settings, nextId)
    ensures SettingsValid(settings[i := SettingAfter(settings[i], v, now)], nextId)
  {
  }

  /**
   * After the first `k` settings were visited, a setting is still due exactly
   * when it was due and its transaction did not commit (or it was not visited).
   */
  lemma StillDueExactlyUncommitted(s: seq<ReportSetting>, now: DateTime, env: nat -> Visit, k: nat, j: nat)
    requires k <= |s| && j < |s| && Valid(now)
    requires forall i :: 0 <= i < |s| ==> SettingValid(s[i])
    ensures Due(Updated(s, now, env, k)[j], now) <==> Due(s[j], now) && !(j < k && Committed(s, now, env, j))
  {
    UpdatedAt(s, now, env, k, j);
  }

  // ---------------------------------------------------------------- the batch, as a method

  /**
   * The job's state after visiting the first `i` settings of `s` without a
   * cursor failure: the collections as the specification says, both
   * counters, and the settings still valid.
   */
  predicate JobAt(s: seq<ReportSetting>, now: DateTime, env: nat -> Visit, cursorFails: nat -> bool,
                  reports0: seq<ReportRecord>, nextId: nat, i: nat,
                  settings: seq<ReportSetting>, reports: seq<ReportRecord>, processed: nat, failed: nat)
  {
    i <= |s| && Valid(now)
    && SettingsValid(s, nextId)
    && FirstCursorFailure(s, now, cursorFails, 0) == FirstCursorFailure(s, now, cursorFails, i)
    && settings == Updated(s, now, env, i)
    && reports == reports0 + NewReports(s, now, env, i)
    && processed == ProcessedCount(s, now, env, i)
    && failed == FailedCount(s, now, env, i)
    && SettingsValid(settings, nextId)
  }

  /** A committed visit writes the report document and the setting update together, and counts as processed. */
  lemma CommitStep(s: seq<ReportSetting>, now: DateTime, env: nat -> Visit, cursorFails: nat -> bool,
                   reports0: seq<ReportRecord>, nextId: nat, i: nat,
                   settings: seq<ReportSetting>, reports: seq<ReportRecord>, processed: nat, failed: nat)
    requires JobAt(s, now, env, cursorFails, reports0, nextId, i, settings, reports, processed, failed)
    requires i < |s| && !cursorFails(i) && Committed(s, now, env, i)
    ensures i < |settings| && settings[i] == s[i]
    ensures JobAt(s, now, env, cursorFails, reports0, nextId, i + 1,
                  settings[i := SettingAfter(s[i], env(i), now)], reports + [RecordFor(s[i], env(i), now)],
                  processed + 1, failed)
  {
    var record := RecordFor(s[i], env(i), now);
    UpdatedAt(s, now, env, i, i);
    UpdatedAdvance(s, now, env, i);
    NewReportsAppend(s, now, env, i);
    CountsStep(s, now, env, cursorFails, i);
    assert reports + [record] == reports0 + (NewReports(s, now, env, i) + [record]);
    SettingAfterKeepsValid(settings, nextId, i, env(i), now);
  }

  /** A visit that does not commit changes nothing; a handled setting counts as failed. */
  lemma SkipStep(s: seq<ReportSetting>, now: DateTime, env: nat -> Visit, cursorFails: nat -> bool,
                 reports0: seq<ReportRecord>, nextId: nat, i: nat,
                 settings: seq<ReportSetting>, reports: seq<ReportRecord>, processed: nat, failed: nat)
    requires JobAt(s, now, env, cursorFails, reports0, nextId, i, settings, reports, processed, failed)
    requires i < |s| && !(Due(s[i], now) && cursorFails(i)) && !Committed(s, now, env, i)
    ensures i < |settings| && settings[i] == s[i]
    ensures JobAt(s, now, env, cursorFails, reports0, nextId, i + 1, settings, reports,
                  processed, if Handled(s, now, env, i) then failed + 1 else failed)
  {
    UpdatedAt(s, now, env, i, i);
    UncommittedStep(s, now, env, i);
    CountsStep(s, now, env, cursorFails, i);
  }

  /** Where the cursor fails, the job stops with the collections as visited so far. */
  lemma StopStep(s: seq<ReportSetting>, now: DateTime, env: nat -> Visit, cursorFails: nat -> bool,
                 reports0: seq<ReportRecord>, nextId: nat, i: nat,
                 settings: seq<ReportSetting>, reports: seq<ReportRecord>, processed: nat, failed: nat)
    requires JobAt(s, now, env, cursorFails, reports0, nextId, i, settings, reports, processed, failed)
    requires i < |s|
    ensures i < |settings| && settings[i] == s[i]
    ensures Due(s[i], now) && cursorFails(i) ==> FirstCursorFailure(s, now, cursorFails, 0) == i
  {
    UpdatedAt(s, now, env, i, i);
  }

  /**
   * `processReportJob`: visits the settings in cursor order. A due setting
   * whose user cannot be loaded is skipped. For any other, a report that
   * throws counts as failed; otherwise the report document and the setting
   * update are written in one transaction, counted as processed when it
   * commits and as failed when it does not. A cursor failure stops the job
   * with an error, keeping what was committed before.
   */
  method ProcessReportJob(store: ReportStore, now: DateTime, env: nat -> Visit, cursorFails: nat -> bool)
    returns (result: TransactionJobs.JobResult)
    requires store.Valid() && Valid(now)
    modifies store
    ensures store.Valid()
    ensures var s := old(store.settings);
            var k := FirstCursorFailure(s, now, cursorFails, 0);
            store.settings == Updated(s, now, env, k)
            && store.reports == old(store.reports) + NewReports(s, now, env, k)
            && store.nextSettingId == old(store.nextSettingId)
            && result == (if k < |s| then TransactionJobs.JobError
                          else TransactionJobs.JobSuccess(ProcessedCount(s, now, env, k), FailedCount(s, now, env, k)))
  {
    ghost var s := store.settings;
    ghost var reports0 := store.reports;
    var nextId := store.nextSettingId;
    // The collections as the loop leaves them; written back when the cursor is done or fails.
    var settings, reports := store.settings, store.reports;
    var n := |settings|;
    var processedCount := 0;
    var failedCount := 0;
    var i := 0;
    while i < n
      invariant i <= n == |s|
      invariant store.nextSettingId == nextId
      invariant JobAt(s, now, env, cursorFails, reports0, nextId, i, settings, reports, processedCount, failedCount)
    {
      StopStep(s, now, env, cursorFails, reports0, nextId, i, settings, reports, processedCount, failedCount);
      var setting := settings[i];
      if Due(setting, now) && cursorFails(i) {
        store.settings, store.reports := settings, reports;
        return TransactionJobs.JobError;
      }
      var visit := env(i);
      if Due(setting, now) && visit.userResolved && !visit.generation.GenThrows? && visit.committed {
        CommitStep(s, now, env, cursorFails, reports0, nextId, i, settings, reports, processedCount, failedCount);
        reports := reports + [RecordFor(setting, visit, now)];
        settings := settings[i := SettingAfter(setting, visit, now)];
        processedCount := processedCount + 1;
      } else {
        SkipStep(s, now, env, cursorFails, reports0, nextId, i, settings, reports, processedCount, failedCount);
        if Due(setting, now) && visit.userResolved {
          failedCount := failedCount + 1;
        }
      }
      i := i + 1;
    }
    store.settings, store.reports := settings, reports;
    return TransactionJobs.JobSuccess(processedCount, failedCount);
  }
}
