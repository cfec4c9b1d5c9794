/**
 * The recurring-transaction cron job of backend/src/crons/jobs/transaction.jobs.ts:
 * its own `calculateNextOccurrence` (which differs from the helper's) and the
 * batch that materialises every due recurring transaction.
 */
module TransactionJobs {
  import opened Wrappers
  import opened Text
  import opened CivilTime
  import opened TransactionModel
  import FormatCurrency
  import Helper

  // ---------------------------------------------------------------- next occurrence

  /** The untyped `interval` argument: a number, a string, or any other value (null included). */
  datatype IntervalArg = NumberArg(days: int) | StringArg(text: string) | OtherArg

  /**
   * The job's local `calculateNextOccurrence`: a number adds that many days;
   * a string is lower-cased and selects +1 day, +7 days, +1 month or +1 year
   * (`yearly` or `annually`) through the native setters, which roll an
   * overshooting day into the following month; anything else adds one day.
   * The time of day is kept.
   */
  function LocalNextOccurrence(from: DateTime, interval: IntervalArg): (r: DateTime)
    requires Valid(from)
    ensures Valid(r) && r.ms == from.ms
  {
    match interval
    case NumberArg(n) => AddDays(from, n)
    case StringArg(s) =>
      var norm := ToLower(s);
      if norm == "daily" then AddDays(from, 1)
      else if norm == "weekly" then AddDays(from, 7)
      else if norm == "monthly" then AddMonthsOverflow(from, 1)
      else if norm == "yearly" || norm == "annually" then AddYearsOverflow(from, 1)
      else AddDays(from, 1)
    case OtherArg => AddDays(from, 1)
  }

  /** Only the lower-cased spelling of a string interval matters. */
  lemma LocalIgnoresCase(from: DateTime, s: string)
    requires Valid(from)
    ensures LocalNextOccurrence(from, StringArg(ToUpper(s))) == LocalNextOccurrence(from, StringArg(s))
    ensures LocalNextOccurrence(from, StringArg(ToLower(s))) == LocalNextOccurrence(from, StringArg(s))
  {
    CaseComposition(s);
    ToLowerIdempotent(s);
  }

  /** One native year later is strictly later, even when 29 February rolls over to 1 March. */
  lemma AddYearOverflowForward(d: DateTime)
    requires Valid(d)
    ensures Before(d, AddYearsOverflow(d, 1))
  {
    var nm := ShiftMonth(d.year + 1, d.month, 1);
    assert nm.0 >= d.year + 1;
  }

  /**
   * Every non-numeric interval, and every positive number of days, moves the
   * schedule strictly forward; an unknown string or a non-string adds exactly
   * one day.
   */
  lemma LocalNextIsLater(from: DateTime, interval: IntervalArg)
    requires Valid(from)
    requires interval.NumberArg? ==> interval.days > 0
    ensures Before(from, LocalNextOccurrence(from, interval))
    ensures interval.OtherArg? ==> LocalNextOccurrence(from, interval) == AddDays(from, 1)
  {
    match interval
    case NumberArg(n) => AddDaysForward(from, n);
    case StringArg(s) =>
      var norm := ToLower(s);
      if norm == "daily" {
        AddDaysForward(from, 1);
      } else if norm == "weekly" {
        AddDaysForward(from, 7);
      } else if norm == "monthly" {
        AddMonthOverflowForward(from);
      } else if norm == "yearly" || norm == "annually" {
        AddYearOverflowForward(from);
      } else {
        AddDaysForward(from, 1);
      }
    case OtherArg => AddDaysForward(from, 1);
  }

  lemma LocalDailyWeekly(from: DateTime)
    requires Valid(from)
    ensures LocalNextOccurrence(from, StringArg("daily")) == AddDays(from, 1)
    ensures LocalNextOccurrence(from, StringArg("weekly")) == AddDays(from, 7)
  {
    ToLowerNoop("daily");
    ToLowerNoop("weekly");
  }

  lemma HelperDailyWeekly(from: DateTime)
    requires Valid(from) && from.ms == 0
    ensures Helper.CalculateNextOccurrence(from, Some("daily")) == AddDays(from, 1)
    ensures Helper.CalculateNextOccurrence(from, Some("weekly")) == AddDays(from, 7)
  {
    assert StartOfDay(from) == from;
    Helper.NormalizeExactValue(DAILY);
    Helper.NormalizeExactValue(WEEKLY);
  }

  /** At midnight the two implementations agree on daily and weekly schedules. */
  lemma LocalAgreesWithHelper(from: DateTime)
    requires Valid(from) && from.ms == 0
    ensures LocalNextOccurrence(from, StringArg("daily")) == Helper.CalculateNextOccurrence(from, Some("daily"))
    ensures LocalNextOccurrence(from, StringArg("weekly")) == Helper.CalculateNextOccurrence(from, Some("weekly"))
  {
    LocalDailyWeekly(from);
    HelperDailyWeekly(from);
  }

  /**
   * They disagree on monthly schedules: from 31 January the helper clamps to
   * 28 February while the job overflows to 3 March.
   */
  lemma LocalDiffersFromHelper()
    ensures LocalNextOccurrence(DateTime(2025, 1, 31, 0), StringArg("monthly")) == DateTime(2025, 3, 3, 0)
    ensures Helper.CalculateNextOccurrence(DateTime(2025, 1, 31, 0), Some("monthly")) == DateTime(2025, 2, 28, 0)
  {
    LocalMonthlyOverflows();
    Helper.MonthlyClampExample();
  }

  /** The job's monthly step from 31 January: 31 February overflows to 3 March. */
  lemma LocalMonthlyOverflows()
    ensures LocalNextOccurrence(DateTime(2025, 1, 31, 0), StringArg("monthly")) == DateTime(2025, 3, 3, 0)
  {
    ToLowerNoop("monthly");
    assert ShiftMonth(2025, 1, 1) == (2025, 2);
    assert DaysInMonth(2025, 2) == 28;
    assert ShiftMonth(2025, 2, 1) == (2025, 3);
    assert AddMonthsOverflow(DateTime(2025, 1, 31, 0), 1) == DateTime(2025, 3, 3, 0);
  }

  // ---------------------------------------------------------------- the batch, specified

  /** The cursor's query: recurring, and `nextRecurrenceDate <= now`. */
  predicate Due(t: Transaction, now: DateTime) {
    t.isRecurring && t.nextRecurrenceDate.Some? && AtOrBefore(t.nextRecurrenceDate.value, now)
  }

  /** The dates the job computes with are calendar dates. */
  predicate DatesValid(t: Transaction) {
    Valid(t.date) && (t.nextRecurrenceDate.Some? ==> Valid(t.nextRecurrenceDate.value))
  }

  /** The stored interval as the job sees it: the enum's string, or null (a non-string). */
  function StoredInterval(t: Transaction): (r: IntervalArg)
    ensures t.recurringInterval.None? <==> r.OtherArg?
  {
    match t.recurringInterval
    case Some(v) => StringArg(v.Value())
    case None => OtherArg
  }

  /**
   * The materialised copy of a due transaction: a fresh id, a "Recurring - "
   * title, dated at the occurrence it stands for, not recurring itself and
   * with its schedule cleared. The amount passes through the rupee getter of
   * `toObject()` and back through the paise setter of `create`.
   */
  function Clone(t: Transaction, id: nat): (c: Transaction)
    requires t.nextRecurrenceDate.Some?
  {
    t.(id := id,
       title := "Recurring - " + t.title,
       amount := FormatCurrency.ConvertToPaise(FormatCurrency.ConvertToRupees(t.amount)),
       date := t.nextRecurrenceDate.value,
       isRecurring := false,
       nextRecurrenceDate := Option.None,
       recurringInterval := Option.None,
       lastProcessed := Option.None)
  }

  /** The original after its occurrence is materialised: the schedule advances from its old date, not from now. */
  function Advance(t: Transaction, now: DateTime): (a: Transaction)
    requires t.nextRecurrenceDate.Some? && Valid(t.nextRecurrenceDate.value)
  {
    t.(nextRecurrenceDate := Some(LocalNextOccurrence(t.nextRecurrenceDate.value, StoredInterval(t))),
       lastProcessed := Some(now))
  }

  /**
   * The clone is the original with only the fields the job overrides
   * changed; everything else is copied, the description, receipt, status
   * and `lastProcessedDate` included, and the amount in paise survives the
   * trip through the rupee getter and the paise setter unchanged.
   */
  lemma CloneFields(t: Transaction, id: nat)
    requires t.nextRecurrenceDate.Some?
    ensures Clone(t, id) == t.(id := id,
                               title := "Recurring - " + t.title,
                               date := t.nextRecurrenceDate.value,
                               isRecurring := false,
                               nextRecurrenceDate := Option.None,
                               recurringInterval := Option.None,
                               lastProcessed := Option.None)
  {
    FormatCurrency.PaiseRoundTrip(t.amount);
  }

  /** A clone is never itself due, so a later run cannot materialise it again. */
  lemma CloneNeverDue(t: Transaction, id: nat, now: DateTime)
    requires t.nextRecurrenceDate.Some?
    ensures !Due(Clone(t, id), now)
  {
  }

  /**
   * Advancing moves the schedule strictly past the occurrence just
   * materialised, and stamps the run time; a record more than one step
   * overdue stays due and advances one step per run.
   */
  lemma AdvanceProgress(t: Transaction, now: DateTime)
    requires Due(t, now) && DatesValid(t)
    ensures Before(t.nextRecurrenceDate.value, Advance(t, now).nextRecurrenceDate.value)
    ensures Advance(t, now).lastProcessed == Some(now)
    ensures DatesValid(Advance(t, now))
  {
    LocalNextIsLater(t.nextRecurrenceDate.value, StoredInterval(t));
  }

  /** The first index at or after `j` where the cursor fails on a due record, or `|s|` if none. */
  function FirstCursorFailure(s: seq<Transaction>, now: DateTime, cursorFails: nat -> bool, j: nat): (k: nat)
    requires j <= |s|
    ensures j <= k <= |s|
    ensures k < |s| ==> Due(s[k], now) && cursorFails(k)
    decreases |s| - j
  {
    if j == |s| then |s|
    else if Due(s[j], now) && cursorFails(j) then j
    else FirstCursorFailure(s, now, cursorFails, j + 1)
  }

  /** A due record among the first `k` whose transaction committed. */
  predicate Committed(s: seq<Transaction>, now: DateTime, commitOk: nat -> bool, j: nat)
    requires j < |s|
  {
    Due(s[j], now) && commitOk(j)
  }

  function DueCount(s: seq<Transaction>, now: DateTime, k: nat): nat
    requires k <= |s|
  {
    if k == 0 then 0 else DueCount(s, now, k - 1) + (if Due(s[k - 1], now) then 1 else 0)
  }

  function CommittedCount(s: seq<Transaction>, now: DateTime, commitOk: nat -> bool, k: nat): nat
    requires k <= |s|
  {
    if k == 0 then 0
    else CommittedCount(s, now, commitOk, k - 1) + (if Committed(s, now, commitOk, k - 1) then 1 else 0)
  }

  function FailedCount(s: seq<Transaction>, now: DateTime, commitOk: nat -> bool, k: nat): nat
    requires k <= |s|
  {
    if k == 0 then 0
    else FailedCount(s, now, commitOk, k - 1) + (if Due(s[k - 1], now) && !commitOk(k - 1) then 1 else 0)
  }

  /** Every due record visited is counted exactly once, as processed or as failed. */
  lemma {:induction false} CountsPartitionDue(s: seq<Transaction>, now: DateTime, commitOk: nat -> bool, k: nat)
    requires k <= |s|
    ensures CommittedCount(s, now, commitOk, k) + FailedCount(s, now, commitOk, k) == DueCount(s, now, k)
  {
    if k > 0 {
      CountsPartitionDue(s, now, commitOk, k - 1);
    }
  }

  /** The originals after the first `k` records were visited: each committed one advanced in place. */
  function Updated(s: seq<Transaction>, now: DateTime, commitOk: nat -> bool, k: nat): (r: seq<Transaction>)
    requires k <= |s|
    requires forall j :: 0 <= j < |s| ==> DatesValid(s[j])
    ensures |r| == |s|
  {
    if k == 0 then s
    else
      var before := Updated(s, now, commitOk, k - 1);
      if Committed(s, now, commitOk, k - 1) then before[k - 1 := Advance(s[k - 1], now)] else before
  }

  /** Record `j` after `k` visits: advanced if it was visited and committed, as it was otherwise. */
  lemma {:induction false} UpdatedAt(s: seq<Transaction>, now: DateTime, commitOk: nat -> bool, k: nat, j: nat)
    requires k <= |s| && j < |s|
    requires forall i :: 0 <= i < |s| ==> DatesValid(s[i])
    ensures Updated(s, now, commitOk, k)[j]
            == if j < k && Committed(s, now, commitOk, j) then Advance(s[j], now) else s[j]
  {
    if k > 0 {
      UpdatedAt(s, now, commitOk, k - 1, j);
    }
  }

  /** Visiting record `i` changes at most that record of the originals. */
  lemma UpdatedStep(s: seq<Transaction>, now: DateTime, commitOk: nat -> bool, i: nat)
    requires i < |s|
    requires forall j :: 0 <= j < |s| ==> DatesValid(s[j])
    ensures Updated(s, now, commitOk, i)[i] == s[i]
    ensures Updated(s, now, commitOk, i + 1)
            == if Committed(s, now, commitOk, i) then Updated(s, now, commitOk, i)[i := Advance(s[i], now)]
               else Updated(s, now, commitOk, i)
  {
    UpdatedAt(s, now, commitOk, i, i);
  }

  /** Replacing an element of the first part of a concatenation and appending keeps the parts apart. */
  lemma ReplaceThenAppend<T>(u: seq<T>, c: seq<T>, i: nat, a: T, x: T)
    requires i < |u|
    ensures (u + c)[i] == u[i]
    ensures (u + c)[i := a] + [x] == u[i := a] + (c + [x])
  {
    assert (u + c)[i := a] == u[i := a] + c;
  }

  /** A committed visit of record `i` appends its clone, with the next free id. */
  lemma ClonesAppend(s: seq<Transaction>, now: DateTime, commitOk: nat -> bool, i: nat, firstId: nat, id: nat)
    requires i < |s| && Committed(s, now, commitOk, i) && id == firstId + CommittedCount(s, now, commitOk, i)
    ensures Clones(s, now, commitOk, i + 1, firstId) == Clones(s, now, commitOk, i, firstId) + [Clone(s[i], id)]
  {
  }

  /** A committed visit of record `i` advances it in place. */
  lemma UpdatedAdvance(s: seq<Transaction>, now: DateTime, commitOk: nat -> bool, i: nat)
    requires i < |s| && Committed(s, now, commitOk, i)
    requires forall j :: 0 <= j < |s| ==> DatesValid(s[j])
    ensures Updated(s, now, commitOk, i + 1) == Updated(s, now, commitOk, i)[i := Advance(s[i], now)]
  {
  }

  /** Visiting record `i` reads it unchanged, and leaves the store alone unless it commits. */
  lemma VisitStep(s: seq<Transaction>, now: DateTime, commitOk: nat -> bool, i: nat, firstId: nat)
    requires i < |s|
    requires forall j :: 0 <= j < |s| ==> DatesValid(s[j])
    ensures (Updated(s, now, commitOk, i) + Clones(s, now, commitOk, i, firstId))[i] == s[i]
    ensures !Committed(s, now, commitOk, i) ==>
              Updated(s, now, commitOk, i + 1) + Clones(s, now, commitOk, i + 1, firstId)
              == Updated(s, now, commitOk, i) + Clones(s, now, commitOk, i, firstId)
  {
    var u := Updated(s, now, commitOk, i);
    UpdatedAt(s, now, commitOk, i, i);
    assert (u + Clones(s, now, commitOk, i, firstId))[i] == u[i];
    if !Committed(s, now, commitOk, i) {
      assert Updated(s, now, commitOk, i + 1) == u;
      assert Clones(s, now, commitOk, i + 1, firstId) == Clones(s, now, commitOk, i, firstId);
    }
  }

  /** The clones inserted while visiting the first `k` records, in cursor order, with ids from `firstId` on. */
  function Clones(s: seq<Transaction>, now: DateTime, commitOk: nat -> bool, k: nat, firstId: nat): (r: seq<Transaction>)
    requires k <= |s|
    ensures |r| == CommittedCount(s, now, commitOk, k)
  {
    if k == 0 then []
    else
      var before := Clones(s, now, commitOk, k - 1, firstId);
      if Committed(s, now, commitOk, k - 1) then before + [Clone(s[k - 1], firstId + |before|)] else before
  }

  /** The clones take consecutive ids from `firstId` on, and none of them is recurring. */
  lemma {:induction false} ClonesFresh(s: seq<Transaction>, now: DateTime, commitOk: nat -> bool, k: nat, firstId: nat)
    requires k <= |s|
    ensures forall j :: 0 <= j < |Clones(s, now, commitOk, k, firstId)| ==>
              Clones(s, now, commitOk, k, firstId)[j].id == firstId + j
              && !Clones(s, now, commitOk, k, firstId)[j].isRecurring
  {
    if k > 0 {
      ClonesFresh(s, now, commitOk, k - 1, firstId);
      var before := Clones(s, now, commitOk, k - 1, firstId);
      var r := Clones(s, now, commitOk, k, firstId);
      if Committed(s, now, commitOk, k - 1) {
        var c := Clone(s[k - 1], firstId + |before|);
        assert r == before + [c];
        forall j | 0 <= j < |r|
          ensures r[j].id == firstId + j && !r[j].isRecurring
        {
          if j < |before| {
            assert r[j] == before[j];
          } else {
            assert r[j] == c;
          }
        }
      }
    }
  }

  /**
   * Atomicity: an original is changed exactly when its transaction committed,
   * and there is one clone per committed record.
   */
  lemma UpdatedExactlyCommitted(s: seq<Transaction>, now: DateTime, commitOk: nat -> bool, k: nat, firstId: nat, j: nat)
    requires k <= |s| && j < |s|
    requires forall i :: 0 <= i < |s| ==> DatesValid(s[i])
    ensures Updated(s, now, commitOk, k)[j] != s[j] <==> j < k && Committed(s, now, commitOk, j)
    ensures |Clones(s, now, commitOk, k, firstId)| == CommittedCount(s, now, commitOk, k)
  {
    UpdatedAt(s, now, commitOk, k, j);
    if j < k && Committed(s, now, commitOk, j) {
      AdvanceProgress(s[j], now);
    }
  }

  // ---------------------------------------------------------------- the batch, as a class

  /** Every id is below the next fresh one, and every date is a calendar date. */
  predicate StoreValid(records: seq<Transaction>, nextId: nat) {
    (forall j :: 0 <= j < |records| ==> records[j].id < nextId)
    && (forall j :: 0 <= j < |records| ==> DatesValid(records[j]))
  }

  /** Committing one occurrence keeps the store valid. */
  lemma CommitKeepsStoreValid(records: seq<Transaction>, nextId: nat, i: nat, now: DateTime)
    requires StoreValid(records, nextId) && i < |records| && Due(records[i], now)
    ensures StoreValid(records[i := Advance(records[i], now)] + [Clone(records[i], nextId)], nextId + 1)
  {
    AdvanceProgress(records[i], now);
  }

  /** The store after visiting the first `i` records: originals updated, clones appended. */
  predicate VisitedUpTo(s: seq<Transaction>, now: DateTime, commitOk: nat -> bool, id0: nat, i: nat,
                        records: seq<Transaction>, nextId: nat)
    requires i <= |s|
    requires forall j :: 0 <= j < |s| ==> DatesValid(s[j])
  {
    records == Updated(s, now, commitOk, i) + Clones(s, now, commitOk, i, id0)
    && nextId == id0 + CommittedCount(s, now, commitOk, i)
  }

  /**
   * The loop's state after visiting the first `i` records of `s` without a
   * cursor failure: the store as the specification says, both counters, and
   * the store still valid.
   */
  predicate JobAt(s: seq<Transaction>, now: DateTime, commitOk: nat -> bool, cursorFails: nat -> bool, id0: nat,
                  i: nat, records: seq<Transaction>, nextId: nat, processed: nat, failed: nat)
  {
    i <= |s|
    && (forall j :: 0 <= j < |s| ==> DatesValid(s[j]))
    && FirstCursorFailure(s, now, cursorFails, 0) == FirstCursorFailure(s, now, cursorFails, i)
    && VisitedUpTo(s, now, commitOk, id0, i, records, nextId)
    && processed == CommittedCount(s, now, commitOk, i)
    && failed == FailedCount(s, now, commitOk, i)
    && StoreValid(records, nextId)
  }

  /** A committed visit writes the clone and the advanced original together, and counts as processed. */
  lemma CommitStep(s: seq<Transaction>, now: DateTime, commitOk: nat -> bool, cursorFails: nat -> bool, id0: nat,
                   i: nat, records: seq<Transaction>, nextId: nat, processed: nat, failed: nat)
    requires JobAt(s, now, commitOk, cursorFails, id0, i, records, nextId, processed, failed)
    requires i < |s| && Due(s[i], now) && !cursorFails(i) && commitOk(i)
    ensures i < |records| && records[i] == s[i]
    ensures JobAt(s, now, commitOk, cursorFails, id0, i + 1,
                  records[i := Advance(s[i], now)] + [Clone(s[i], nextId)], nextId + 1, processed + 1, failed)
  {
    var u := Updated(s, now, commitOk, i);
    var c := Clones(s, now, commitOk, i, id0);
    var a, x := Advance(s[i], now), Clone(s[i], nextId);
    UpdatedStep(s, now, commitOk, i);
    UpdatedAdvance(s, now, commitOk, i);
    ClonesAppend(s, now, commitOk, i, id0, nextId);
    CountsStep(s, now, commitOk, cursorFails, i);
    ReplaceThenAppend(u, c, i, a, x);
    calc {
      records[i := a] + [x];
      (u + c)[i := a] + [x];
      u[i := a] + (c + [x]);
      Updated(s, now, commitOk, i + 1) + Clones(s, now, commitOk, i + 1, id0);
    }
    CommitKeepsStoreValid(records, nextId, i, now);
  }

  /** A visit that does not commit leaves the store as it was; a due record counts as failed. */
  lemma SkipStep(s: seq<Transaction>, now: DateTime, commitOk: nat -> bool, cursorFails: nat -> bool, id0: nat,
                 i: nat, records: seq<Transaction>, nextId: nat, processed: nat, failed: nat)
    requires JobAt(s, now, commitOk, cursorFails, id0, i, records, nextId, processed, failed)
    requires i < |s| && !(Due(s[i], now) && (cursorFails(i) || commitOk(i)))
    ensures i < |records| && records[i] == s[i]
    ensures JobAt(s, now, commitOk, cursorFails, id0, i + 1,
                  records, nextId, processed, if Due(s[i], now) then failed + 1 else failed)
  {
    VisitStep(s, now, commitOk, i, id0);
    CountsStep(s, now, commitOk, cursorFails, i);
  }

  /** Visiting record `i` without a cursor failure moves each counter by at most one. */
  lemma CountsStep(s: seq<Transaction>, now: DateTime, commitOk: nat -> bool, cursorFails: nat -> bool, i: nat)
    requires i < |s| && !(Due(s[i], now) && cursorFails(i))
    ensures FirstCursorFailure(s, now, cursorFails, i + 1) == FirstCursorFailure(s, now, cursorFails, i)
    ensures CommittedCount(s, now, commitOk, i + 1)
            == CommittedCount(s, now, commitOk, i) + (if Due(s[i], now) && commitOk(i) then 1 else 0)
    ensures FailedCount(s, now, commitOk, i + 1)
            == FailedCount(s, now, commitOk, i) + (if Due(s[i], now) && !commitOk(i) then 1 else 0)
  {
  }

  /** Where the cursor fails, the job stops with the store as visited so far. */
  lemma StopStep(s: seq<Transaction>, now: DateTime, commitOk: nat -> bool, cursorFails: nat -> bool, id0: nat,
                 i: nat, records: seq<Transaction>, nextId: nat, processed: nat, failed: nat)
    requires JobAt(s, now, commitOk, cursorFails, id0, i, records, nextId, processed, failed)
    requires i < |s|
    ensures i < |records| && records[i] == s[i]
    ensures Due(s[i], now) && cursorFails(i) ==> FirstCursorFailure(s, now, cursorFails, 0) == i
  {
    VisitStep(s, now, commitOk, i, id0);
  }

  /** The outcome the job returns; the error message of an outer failure is not modelled. */
  datatype JobResult = JobSuccess(processedCount: nat, failedCount: nat) | JobError

  /** The transaction collection the job reads and writes. */
  class TransactionStore {
    var records: seq<Transaction>
    /** Ids below this one are taken; `new ObjectId()` is the next one. */
    var nextId: nat

    predicate Valid()
      reads this
    {
      StoreValid(records, nextId)
    }

    constructor (initial: seq<Transaction>, firstFreeId: nat)
      requires forall j :: 0 <= j < |initial| ==> initial[j].id < firstFreeId && DatesValid(initial[j])
      ensures Valid() && records == initial && nextId == firstFreeId
    {
      records := initial;
      nextId := firstFreeId;
    }

    /**
     * `processRecurringTransactions`: visits the records matching the query in
     * cursor order; for each one, inserts its clone and advances the original
     * in one transaction whose commit outcome is `commitOk(index)`, counting it
     * as processed or failed. If the cursor itself fails on a due record, the
     * job stops there and reports an error, keeping what was committed before.
     */
    method ProcessRecurringTransactions(now: DateTime, commitOk: nat -> bool, cursorFails: nat -> bool)
      returns (result: JobResult)
      requires Valid()
      modifies this
      ensures Valid()
      ensures var s := old(records);
              var k := FirstCursorFailure(s, now, cursorFails, 0);
              records == Updated(s, now, commitOk, k) + Clones(s, now, commitOk, k, old(nextId))
              && nextId == old(nextId) + CommittedCount(s, now, commitOk, k)
              && result == (if k < |s| then JobError
                            else JobSuccess(CommittedCount(s, now, commitOk, k), FailedCount(s, now, commitOk, k)))
    {
      ghost var s := records;
      ghost var id0 := nextId;
      // The collection as the loop leaves it; written back when the cursor is done or fails.
      var current, freeId := records, nextId;
      var n := |records|;
      var processedCount := 0;
      var failedCount := 0;
      var i := 0;
      while i < n
        invariant i <= n == |s|
        invariant JobAt(s, now, commitOk, cursorFails, id0, i, current, freeId, processedCount, failedCount)
      {
        StopStep(s, now, commitOk, cursorFails, id0, i, current, freeId, processedCount, failedCount);
        var tx := current[i];
        if Due(tx, now) && cursorFails(i) {
          records, nextId := current, freeId;
          return JobError;
        }
        if Due(tx, now) && commitOk(i) {
          CommitStep(s, now, commitOk, cursorFails, id0, i, current, freeId, processedCount, failedCount);
          current := current[i := Advance(tx, now)] + [Clone(tx, freeId)];
          freeId := freeId + 1;
          processedCount := processedCount + 1;
        } else {
          SkipStep(s, now, commitOk, cursorFails, id0, i, current, freeId, processedCount, failedCount);
          if Due(tx, now) {
            failedCount := failedCount + 1;
          }
        }
        i := i + 1;
      }
      records, nextId := current, freeId;
      return JobSuccess(processedCount, failedCount);
    }
  }
}
