/**
 * The transaction service of backend/src/services/transaction.service.ts:
 * the next-recurring-date rule of create and update, the partial-update
 * merge, the list filter and its pagination, duplication, bulk insert and
 * bulk delete over the transaction collection, and the model failover and
 * result checks of receipt scanning.
 *
 * Create and update, as written, store the computed schedule in
 * `nextRecurringDate`, a field the schema does not declare, while the
 * recurring job reads `nextRecurrenceDate`; `CreateCorrected` and
 * `MergeUpdateCorrected` store it where the job reads it.
 */
module TransactionService {
  import opened Wrappers
  import opened Text
  import opened CivilTime
  import opened TransactionModel
  import opened TransactionValidator
  import FormatCurrency
  import Helper
  import ReportService
  import opened TransactionJobs

  // ---------------------------------------------------------------- next recurring date

  /**
   * The date create and update store for a recurring transaction with an
   * interval: the next occurrence after `date`, or, when that is already
   * past, the next occurrence after now. Otherwise there is none.
   */
  function NextRecurringDate(isRecurring: bool, date: DateTime, interval: Option<RecurringInterval>, now: DateTime)
    : (r: Option<DateTime>)
    requires Valid(date) && Valid(now)
    ensures r.Some? <==> isRecurring && interval.Some?
    ensures r.Some? ==> Valid(r.value) && r.value.ms == 0
  {
    if isRecurring && interval.Some? then
      var step := Some(interval.value.Value());
      var calculated := Helper.CalculateNextOccurrence(date, step);
      if Before(calculated, now) then Some(Helper.CalculateNextOccurrence(now, step)) else Some(calculated)
    else Option.None
  }

  /**
   * The stored date is never in the past for a real interval: it is the
   * next occurrence after `date` when that is not past, and otherwise the
   * next occurrence after now, which is later than now.
   */
  lemma NextRecurringDateNotPast(date: DateTime, interval: RecurringInterval, now: DateTime)
    requires Valid(date) && Valid(now) && interval != NONE
    ensures var r := NextRecurringDate(true, date, Some(interval), now).value;
            var calculated := Helper.CalculateNextOccurrence(date, Some(interval.Value()));
            AtOrBefore(now, r)
            && (!Before(calculated, now) ==> r == calculated)
            && (Before(calculated, now) ==> Before(now, r))
  {
    var step := Some(interval.Value());
    var calculated := Helper.CalculateNextOccurrence(date, step);
    OrderTotal(calculated, now);
    Helper.NormalizeExactValue(interval);
    Helper.NextOccurrenceSteps(now, step);
    var fromNow := Helper.CalculateNextOccurrence(now, step);
    assert Before(StartOfDay(now), fromNow);
    assert fromNow.ms == 0;
    assert Before(now, fromNow);
  }

  // ---------------------------------------------------------------- where the schedule is stored

  /** The service as written: the schedule goes into `nextRecurringDate`, a field the schema does not declare. */
  function WithScheduleAsWritten(t: Transaction, next: Option<DateTime>): Transaction {
    t.(nextRecurringDate := next)
  }

  /** The schedule in the schema's field, the one the recurring job queries. */
  function WithSchedule(t: Transaction, next: Option<DateTime>): Transaction {
    t.(nextRecurrenceDate := next)
  }

  /** As written, a schedule set by the service is never seen by the job: the record is never due. */
  lemma ScheduleAsWrittenInvisibleToJob(t: Transaction, next: Option<DateTime>, now: DateTime)
    requires t.nextRecurrenceDate.None?
    ensures !Due(WithScheduleAsWritten(t, next), now)
  {
  }

  /** Stored in the schema's field, a recurring record's schedule makes it due from that date on. */
  lemma ScheduleReachesJob(t: Transaction, next: DateTime, now: DateTime)
    requires t.isRecurring && AtOrBefore(next, now)
    ensures Due(WithSchedule(t, Some(next)), now)
    ensures Due(WithSchedule(t, Some(next)), next)
  {
  }

  // ---------------------------------------------------------------- create

  /**
   * `createTransactionService` as written: the validated body with the
   * user's id, the amount stored in paise, `isRecurring` false unless the
   * body says true, and `lastProcessed` null. The schedule of
   * `NextRecurringDate` goes into `nextRecurringDate`; the schema's
   * `nextRecurrenceDate`, which the recurring job reads, is left unset.
   */
  function Create(input: TransactionInput, id: nat, userId: nat, now: DateTime): (t: Transaction)
    requires Valid(input.date) && Valid(now)
    ensures t.id == id && t.userId == userId && t.title == input.title && t.category == input.category
    ensures t.amount == FormatCurrency.ConvertToPaise(input.amount) && t.date == input.date
    ensures t.txType == input.txType && t.description == input.description && t.receiptUrl == input.receiptUrl
    ensures t.paymentMethod == input.paymentMethod
    ensures t.isRecurring <==> input.isRecurring == Some(true)
    ensures t.recurringInterval == input.recurringInterval
    ensures t.nextRecurringDate == NextRecurringDate(t.isRecurring, input.date, input.recurringInterval, now)
    ensures t.nextRecurrenceDate.None?
    ensures t.lastProcessed.None? && t.lastProcessedDate.None? && t.status == COMPLETED
    ensures DatesValid(t)
  {
    var isRecurring := input.isRecurring == Some(true);
    var record := Transaction(id, userId, input.txType, input.title, FormatCurrency.ConvertToPaise(input.amount),
                              input.category, input.description, input.receiptUrl, input.date, isRecurring,
                              input.recurringInterval, Option.None, Option.None, Option.None, Option.None,
                              COMPLETED, input.paymentMethod);
    WithScheduleAsWritten(record, NextRecurringDate(isRecurring, input.date, input.recurringInterval, now))
  }

  /**
   * Create with the schedule stored where the recurring job reads it: the
   * date `Create` computes moves from `nextRecurringDate` to
   * `nextRecurrenceDate`; every other field is as `Create` sets it.
   */
  function CreateCorrected(input: TransactionInput, id: nat, userId: nat, now: DateTime): (t: Transaction)
    requires Valid(input.date) && Valid(now)
    ensures t.id == id && t.userId == userId && t.title == input.title && t.category == input.category
    ensures t.amount == FormatCurrency.ConvertToPaise(input.amount) && t.date == input.date
    ensures t.isRecurring <==> input.isRecurring == Some(true)
    ensures t.recurringInterval == input.recurringInterval
    ensures t.nextRecurrenceDate == NextRecurringDate(t.isRecurring, input.date, input.recurringInterval, now)
    ensures t.nextRecurringDate.None?
    ensures t.lastProcessed.None? && t.lastProcessedDate.None? && t.status == COMPLETED
    ensures DatesValid(t)
  {
    var created := Create(input, id, userId, now);
    WithSchedule(created.(nextRecurringDate := Option.None), created.nextRecurringDate)
  }

  /**
   * As written, nothing create stores is ever picked up by the recurring
   * job, not even a recurring body with an interval, whose schedule was
   * computed.
   */
  lemma CreatedNeverDue(input: TransactionInput, id: nat, userId: nat, now: DateTime, later: DateTime)
    requires Valid(input.date) && Valid(now)
    ensures !Due(Create(input, id, userId, now), later)
    ensures input.isRecurring == Some(true) && input.recurringInterval.Some? ==>
              Create(input, id, userId, now).nextRecurringDate.Some?
  {
    var record := Create(input, id, userId, now).(nextRecurringDate := Option.None);
    ScheduleAsWrittenInvisibleToJob(record, Create(input, id, userId, now).nextRecurringDate, later);
  }

  /** As declared, the create schema strips `isRecurring`, so nothing created through it is recurring. */
  lemma CreateThroughSchemaNeverRecurring(raw: RawTransaction, parse: string -> Option<DateTime>,
                                          id: nat, userId: nat, now: DateTime)
    requires ValidateCreateAsWritten(raw, parse).Ok? && Valid(ValidateCreateAsWritten(raw, parse).value.date)
    requires Valid(now)
    ensures var t := Create(ValidateCreateAsWritten(raw, parse).value, id, userId, now);
            !t.isRecurring && t.nextRecurrenceDate.None? && t.nextRecurringDate.None?
  {
  }

  /**
   * With both corrections (the schema keeps `isRecurring`, the schedule goes
   * into `nextRecurrenceDate`), a body asking for a recurring transaction
   * with an interval yields a record that the recurring job picks up once
   * its stored date has come, and that date is not in the past.
   */
  lemma CreatedRecurringReachesJob(raw: RawTransaction, parse: string -> Option<DateTime>,
                                   id: nat, userId: nat, now: DateTime, later: DateTime)
    requires ValidateCreate(raw, parse).Ok? && Valid(ValidateCreate(raw, parse).value.date) && Valid(now)
    requires raw.isRecurring == Some(true) && ValidateCreate(raw, parse).value.recurringInterval.Some?
    ensures var t := CreateCorrected(ValidateCreate(raw, parse).value, id, userId, now);
            t.nextRecurrenceDate.Some? && AtOrBefore(now, t.nextRecurrenceDate.value)
            && (AtOrBefore(t.nextRecurrenceDate.value, later) ==> Due(t, later))
  {
    var input := ValidateCreate(raw, parse).value;
    NextRecurringDateNotPast(input.date, input.recurringInterval.value, now);
  }

  // ---------------------------------------------------------------- lookup by owner

  /** `findOne({ _id, userId })`: the index of the user's record with that id. */
  function FindOwned(records: seq<Transaction>, userId: nat, id: nat): (r: Option<nat>)
    ensures r.Some? ==> r.value < |records| && records[r.value].id == id && records[r.value].userId == userId
    ensures r.None? ==> forall j :: 0 <= j < |records| ==> !(records[j].id == id && records[j].userId == userId)
  {
    if records == [] then Option.None
    else if records[0].id == id && records[0].userId == userId then Some(0)
    else
      match FindOwned(records[1..], userId, id)
      case Some(k) => Some(k + 1)
      case None => Option.None
  }

  // ---------------------------------------------------------------- update

  /** A string field of the body counts only when it is a non-empty string. */
  function Truthy(s: Option<string>): bool {
    s.Some? && s.value != ""
  }

  /**
   * `updateTransactionService`'s `set`, as written: `isRecurring`, `date`
   * and `recurringInterval` fall back to the stored values; title,
   * description and category are replaced only by non-empty strings, type
   * and payment method when given, the amount whenever it is given. The
   * recomputed schedule goes into `nextRecurringDate`, so the
   * `nextRecurrenceDate` the job reads keeps its old value. `receiptUrl`
   * and every other field are left as they were.
   */
  function MergeUpdate(t: Transaction, body: TransactionUpdate, now: DateTime): (r: Transaction)
    requires Valid(t.date) && Valid(now) && (body.date.Some? ==> Valid(body.date.value))
    ensures r.id == t.id && r.userId == t.userId && r.receiptUrl == t.receiptUrl && r.status == t.status
    ensures r.lastProcessed == t.lastProcessed && r.lastProcessedDate == t.lastProcessedDate
    ensures r.isRecurring == body.isRecurring.GetOr(t.isRecurring) && r.date == body.date.GetOr(t.date)
    ensures r.recurringInterval == if body.recurringInterval.Some? then body.recurringInterval else t.recurringInterval
    ensures r.nextRecurringDate == NextRecurringDate(r.isRecurring, r.date, r.recurringInterval, now)
    ensures r.nextRecurrenceDate == t.nextRecurrenceDate
    ensures DatesValid(t) ==> DatesValid(r)
  {
    var merged := MergeFields(t, body);
    WithScheduleAsWritten(merged, NextRecurringDate(merged.isRecurring, merged.date, merged.recurringInterval, now))
  }

  /** The `set` of the update without the schedule. */
  function MergeFields(t: Transaction, body: TransactionUpdate): Transaction {
    t.(title := if Truthy(body.title) then body.title.value else t.title,
       description := if Truthy(body.description) then body.description else t.description,
       category := if Truthy(body.category) then body.category.value else t.category,
       txType := body.txType.GetOr(t.txType),
       paymentMethod := body.paymentMethod.GetOr(t.paymentMethod),
       amount := if body.amount.Some? then FormatCurrency.ConvertToPaise(body.amount.value) else t.amount,
       date := body.date.GetOr(t.date),
       isRecurring := body.isRecurring.GetOr(t.isRecurring),
       recurringInterval := if body.recurringInterval.Some? then body.recurringInterval else t.recurringInterval)
  }

  /**
   * The update with the schedule stored where the recurring job reads it:
   * the date `MergeUpdate` computes goes into `nextRecurrenceDate`, and
   * `nextRecurringDate` is left as it was.
   */
  function MergeUpdateCorrected(t: Transaction, body: TransactionUpdate, now: DateTime): (r: Transaction)
    requires Valid(t.date) && Valid(now) && (body.date.Some? ==> Valid(body.date.value))
    ensures r.id == t.id && r.userId == t.userId && r.receiptUrl == t.receiptUrl && r.status == t.status
    ensures r.lastProcessed == t.lastProcessed && r.lastProcessedDate == t.lastProcessedDate
    ensures r.isRecurring == body.isRecurring.GetOr(t.isRecurring) && r.date == body.date.GetOr(t.date)
    ensures r.nextRecurrenceDate == NextRecurringDate(r.isRecurring, r.date, r.recurringInterval, now)
    ensures r.nextRecurringDate == t.nextRecurringDate
    ensures DatesValid(r)
  {
    var merged := MergeUpdate(t, body, now);
    WithSchedule(merged.(nextRecurringDate := t.nextRecurringDate), merged.nextRecurringDate)
  }

  /** As written, the empty body changes nothing but `nextRecurringDate`, recomputed from the stored values. */
  lemma EmptyUpdateOnlyReschedules(t: Transaction, now: DateTime)
    requires Valid(t.date) && Valid(now)
    ensures var empty := TransactionUpdate(Option.None, Option.None, Option.None, Option.None, Option.None,
                                           Option.None, Option.None, Option.None, Option.None, Option.None);
            MergeUpdate(t, empty, now)
            == t.(nextRecurringDate := NextRecurringDate(t.isRecurring, t.date, t.recurringInterval, now))
  {
  }

  /** Applying the same update twice at the same instant is the same as applying it once. */
  lemma UpdateIdempotent(t: Transaction, body: TransactionUpdate, now: DateTime)
    requires Valid(t.date) && Valid(now) && (body.date.Some? ==> Valid(body.date.value))
    ensures MergeUpdate(MergeUpdate(t, body, now), body, now) == MergeUpdate(t, body, now)
  {
  }

  /**
   * As written, a record that stops recurring keeps its stale
   * `nextRecurrenceDate`; it is no longer picked up only because it is no
   * longer recurring.
   */
  lemma StopRecurringKeepsStaleDate(t: Transaction, body: TransactionUpdate, now: DateTime, later: DateTime)
    requires Valid(t.date) && Valid(now) && (body.date.Some? ==> Valid(body.date.value))
    requires body.isRecurring == Some(false)
    ensures MergeUpdate(t, body, now).nextRecurrenceDate == t.nextRecurrenceDate
    ensures MergeUpdate(t, body, now).nextRecurringDate.None?
    ensures !Due(MergeUpdate(t, body, now), later)
  {
  }

  /**
   * As declared, the update schema strips `isRecurring` as the create schema
   * does, so an update through the route keeps the stored flag and the
   * stored `nextRecurrenceDate`: whether the recurring job picks the record
   * up is never changed by an update.
   */
  lemma UpdateThroughSchemaKeepsRecurring(t: Transaction, raw: RawTransaction, parse: string -> Option<DateTime>,
                                          now: DateTime, later: DateTime)
    requires ValidateUpdateAsWritten(raw, parse).Ok? && Valid(t.date) && Valid(now)
    requires ValidateUpdateAsWritten(raw, parse).value.date.Some? ==> Valid(ValidateUpdateAsWritten(raw, parse).value.date.value)
    ensures var r := MergeUpdate(t, ValidateUpdateAsWritten(raw, parse).value, now);
            r.isRecurring == t.isRecurring && r.nextRecurrenceDate == t.nextRecurrenceDate
            && (Due(r, later) <==> Due(t, later))
  {
  }

  /**
   * With both corrections (the update schema keeps `isRecurring`, the
   * schedule goes into `nextRecurrenceDate`), a flag given in the body
   * reaches the record: turned off, the record is never due; turned on with
   * an interval, it is due from its recomputed date, which is not past.
   */
  lemma UpdateThroughCorrectedSchemaSetsRecurring(t: Transaction, raw: RawTransaction, parse: string -> Option<DateTime>,
                                                  now: DateTime, later: DateTime)
    requires ValidateUpdate(raw, parse).Ok? && Valid(t.date) && Valid(now) && raw.isRecurring.Some?
    requires ValidateUpdate(raw, parse).value.date.Some? ==> Valid(ValidateUpdate(raw, parse).value.date.value)
    ensures var r := MergeUpdateCorrected(t, ValidateUpdate(raw, parse).value, now);
            r.isRecurring == raw.isRecurring.value
            && (!raw.isRecurring.value ==> r.nextRecurrenceDate.None? && !Due(r, later))
            && (r.isRecurring && r.recurringInterval.Some? && r.recurringInterval.value != NONE ==>
                  r.nextRecurrenceDate.Some? && AtOrBefore(now, r.nextRecurrenceDate.value)
                  && (AtOrBefore(r.nextRecurrenceDate.value, later) ==> Due(r, later)))
  {
    UpdateScheduleReachesJob(t, ValidateUpdate(raw, parse).value, now, later);
  }

  /** With the correction, a record that stops recurring loses its schedule, so the job no longer picks it up. */
  lemma StopRecurringClearsSchedule(t: Transaction, body: TransactionUpdate, now: DateTime, later: DateTime)
    requires Valid(t.date) && Valid(now) && (body.date.Some? ==> Valid(body.date.value))
    requires body.isRecurring == Some(false)
    ensures MergeUpdateCorrected(t, body, now).nextRecurrenceDate.None?
    ensures !Due(MergeUpdateCorrected(t, body, now), later)
  {
  }

  /**
   * As written, an update never moves the job's schedule: whether the
   * record is due depends on the old `nextRecurrenceDate` and the new
   * `isRecurring` flag alone, whatever date or interval the body gives.
   * With the correction, a record
   * that is recurring with an interval after the update is picked up from
   * its recomputed date on, and that date is not in the past.
   */
  lemma UpdateScheduleReachesJob(t: Transaction, body: TransactionUpdate, now: DateTime, later: DateTime)
    requires Valid(t.date) && Valid(now) && (body.date.Some? ==> Valid(body.date.value))
    ensures Due(MergeUpdate(t, body, now), later) <==> Due(t.(isRecurring := body.isRecurring.GetOr(t.isRecurring)), later)
    ensures var r := MergeUpdateCorrected(t, body, now);
            r.isRecurring && r.recurringInterval.Some? && r.recurringInterval.value != NONE ==>
              r.nextRecurrenceDate.Some? && AtOrBefore(now, r.nextRecurrenceDate.value)
              && (AtOrBefore(r.nextRecurrenceDate.value, later) ==> Due(r, later))
  {
    var r := MergeUpdateCorrected(t, body, now);
    if r.isRecurring && r.recurringInterval.Some? && r.recurringInterval.value != NONE {
      NextRecurringDateNotPast(r.date, r.recurringInterval.value, now);
    }
  }

  /** Replacing one record by a valid one with the same id keeps the store valid. */
  lemma ReplaceKeepsStoreValid(records: seq<Transaction>, nextId: nat, k: nat, t: Transaction)
    requires StoreValid(records, nextId) && k < |records| && t.id == records[k].id && DatesValid(t)
    ensures StoreValid(records[k := t], nextId)
  {
  }

  /** The update, as one change to the stored record; a record the user does not own is not found. */
  method UpdateTransaction(store: TransactionStore, userId: nat, id: nat, body: TransactionUpdate, now: DateTime)
    returns (r: Result<()>)
    requires store.Valid() && Valid(now) && (body.date.Some? ==> Valid(body.date.value))
    modifies store
    ensures store.Valid() && store.nextId == old(store.nextId)
    ensures match FindOwned(old(store.records), userId, id)
            case None => r == Err("Transaction not found") && store.records == old(store.records)
            case Some(k) => r == Ok(()) && store.records == old(store.records)[k := MergeUpdate(old(store.records)[k], body, now)]
  {
    var found := FindOwned(store.records, userId, id);
    if found.None? {
      return Err("Transaction not found");
    }
    var k := found.value;
    var updated := MergeUpdate(store.records[k], body, now);
    ReplaceKeepsStoreValid(store.records, store.nextId, k, updated);
    store.records := store.records[k := updated];
    return Ok(());
  }

  // ---------------------------------------------------------------- list

  /** The query built from the list filters; the user is always part of it. */
  datatype ListFilter = ListFilter(userId: nat, keyword: Option<string>, txType: Option<TransactionType>,
                                   isRecurring: Option<bool>)

  /**
   * The filter conditions: a non-empty keyword, a type ("INCOME" is Income,
   * any other non-empty value Expense) and a recurring status ("RECURRING"
   * is true, any other non-empty value false).
   */
  function BuildFilter(userId: nat, keyword: Option<string>, txType: Option<string>, recurringStatus: Option<string>)
    : (f: ListFilter)
    ensures f.userId == userId
    ensures f.keyword.Some? <==> Truthy(keyword)
    ensures f.txType.Some? <==> Truthy(txType)
    ensures f.isRecurring.Some? <==> Truthy(recurringStatus)
  {
    ListFilter(userId,
               if Truthy(keyword) then keyword else Option.None,
               if Truthy(txType) then Some(if txType.value == "INCOME" then INCOME else EXPENSE) else Option.None,
               if Truthy(recurringStatus) then Some(recurringStatus.value == "RECURRING") else Option.None)
  }

  /** Only the exact spelling "INCOME" selects income; any other type, "income" included, selects expenses. */
  lemma TypeFilterIsExact(userId: nat, txType: string)
    requires txType != ""
    ensures BuildFilter(userId, Option.None, Some(txType), Option.None).txType
            == Some(if txType == "INCOME" then INCOME else EXPENSE)
    ensures BuildFilter(userId, Option.None, Some("income"), Option.None).txType == Some(EXPENSE)
  {
  }

  /** A case-insensitive substring test (the `$regex` with option `i`, for a keyword without metacharacters). */
  predicate ContainsIgnoreCase(s: string, keyword: string) {
    Contains(ToLower(s), ToLower(keyword))
  }

  predicate MatchesFilter(t: Transaction, f: ListFilter) {
    t.userId == f.userId
    && (f.keyword.Some? ==> ContainsIgnoreCase(t.title, f.keyword.value) || ContainsIgnoreCase(t.category, f.keyword.value))
    && (f.txType.Some? ==> t.txType == f.txType.value)
    && (f.isRecurring.Some? ==> t.isRecurring == f.isRecurring.value)
  }

  /** The matching records, in the order of the collection (kept newest first, as the sort asks). */
  function Listed(records: seq<Transaction>, f: ListFilter): (r: seq<Transaction>)
    ensures |r| <= |records|
    ensures forall t :: t in r <==> t in records && MatchesFilter(t, f)
  {
    if records == [] then []
    else
      var rest := Listed(records[1..], f);
      assert records == [records[0]] + records[1..];
      if MatchesFilter(records[0], f) then [records[0]] + rest else rest
  }

  /** No record of another user is ever listed. */
  lemma ListedOnlyOwn(records: seq<Transaction>, userId: nat, keyword: Option<string>, txType: Option<string>,
                      recurringStatus: Option<string>, i: nat)
    requires i < |Listed(records, BuildFilter(userId, keyword, txType, recurringStatus))|
    ensures Listed(records, BuildFilter(userId, keyword, txType, recurringStatus))[i].userId == userId
  {
    var f := BuildFilter(userId, keyword, txType, recurringStatus);
    assert Listed(records, f)[i] in Listed(records, f);
  }

  /** The pagination block of the response. */
  datatype PageInfo = PageInfo(pageSize: nat, pageNumber: nat, totalCount: nat, totalPages: nat, skip: nat)

  /** `skip = (pageNumber - 1) * pageSize` and `totalPages = ceil(totalCount / pageSize)`. */
  function Paginate(pageSize: nat, pageNumber: nat, totalCount: nat): (p: PageInfo)
    requires pageSize >= 1 && pageNumber >= 1
    ensures p.skip == (pageNumber - 1) * pageSize
    ensures p.totalPages * pageSize >= totalCount
    ensures p.totalPages >= 1 ==> (p.totalPages - 1) * pageSize < totalCount
    ensures p.totalPages == 0 <==> totalCount == 0
  {
    PageInfo(pageSize, pageNumber, totalCount, (totalCount + pageSize - 1) / pageSize, (pageNumber - 1) * pageSize)
  }

  /** The records of one page: skip, then at most `pageSize`. */
  function Page(listed: seq<Transaction>, skip: nat, pageSize: nat): (r: seq<Transaction>)
    ensures |r| <= pageSize
    ensures skip < |listed| ==> r == listed[skip..if skip + pageSize <= |listed| then skip + pageSize else |listed|]
    ensures skip >= |listed| ==> r == []
  {
    if skip >= |listed| then []
    else if skip + pageSize <= |listed| then listed[skip..skip + pageSize]
    else listed[skip..]
  }

  /** `getAllTransactionService`: the requested page of the user's matching records, and the pagination block. */
  function GetAll(records: seq<Transaction>, userId: nat, keyword: Option<string>, txType: Option<string>,
                  recurringStatus: Option<string>, pageSize: nat, pageNumber: nat): (r: (seq<Transaction>, PageInfo))
    requires pageSize >= 1 && pageNumber >= 1
    ensures var listed := Listed(records, BuildFilter(userId, keyword, txType, recurringStatus));
            r.1 == Paginate(pageSize, pageNumber, |listed|) && r.0 == Page(listed, r.1.skip, pageSize)
  {
    var listed := Listed(records, BuildFilter(userId, keyword, txType, recurringStatus));
    var info := Paginate(pageSize, pageNumber, |listed|);
    (Page(listed, info.skip, pageSize), info)
  }

  /**
   * The pages cover the listing exactly once: the record at position `i`
   * sits on page `i / pageSize + 1`, at position `i % pageSize`, and that
   * page is one of the `totalPages` pages.
   */
  lemma EveryRecordOnOnePage(listed: seq<Transaction>, pageSize: nat, i: nat)
    requires pageSize >= 1 && i < |listed|
    ensures var n := i / pageSize + 1;
            var info := Paginate(pageSize, n, |listed|);
            1 <= n <= info.totalPages
            && i % pageSize < |Page(listed, info.skip, pageSize)|
            && Page(listed, info.skip, pageSize)[i % pageSize] == listed[i]
  {
    var n := i / pageSize + 1;
    var info := Paginate(pageSize, n, |listed|);
    assert info.skip + i % pageSize == i;
    assert i < info.totalPages * pageSize;
    assert (n - 1) * pageSize <= i;
    MulLess(n - 1, info.totalPages, pageSize);
  }

  /** Multiplying by the same positive number keeps a strict order. */
  lemma MulLess(a: nat, b: nat, c: nat)
    requires a * c < b * c
    ensures a < b
  {
    if a >= b {
      MulMonotone(b, a, c);
    }
  }

  lemma MulMonotone(b: nat, a: nat, c: nat)
    requires b <= a
    ensures b * c <= a * c
  {
  }

  // ---------------------------------------------------------------- duplicate

  /**
   * `duplicateTransactionService`'s copy: a fresh id, a "Duplicate - " title,
   * the description with " (Duplicate)" appended or "Duplicated transaction"
   * when there was none, not recurring and without interval or
   * `nextRecurringDate`; every other field is copied, the amount through the
   * rupee getter and the paise setter. `nextRecurrenceDate` is among the
   * copied fields, since the code clears only the undeclared
   * `nextRecurringDate`.
   */
  function Duplicate(t: Transaction, id: nat): (d: Transaction)
    ensures d == t.(id := id,
                    title := "Duplicate - " + t.title,
                    description := Some(if Truthy(t.description) then t.description.value + " (Duplicate)"
                                        else "Duplicated transaction"),
                    isRecurring := false,
                    recurringInterval := Option.None,
                    nextRecurringDate := Option.None)
  {
    FormatCurrency.PaiseRoundTrip(t.amount);
    t.(id := id,
       title := "Duplicate - " + t.title,
       description := Some(if Truthy(t.description) then t.description.value + " (Duplicate)" else "Duplicated transaction"),
       amount := FormatCurrency.ConvertToPaise(FormatCurrency.ConvertToRupees(t.amount)),
       isRecurring := false,
       recurringInterval := Option.None,
       nextRecurringDate := Option.None)
  }

  /** A duplicate is never picked up by the recurring job. */
  lemma DuplicateNeverDue(t: Transaction, id: nat, now: DateTime)
    ensures !Due(Duplicate(t, id), now)
  {
  }

  /** Inserting the duplicate keeps the store valid. */
  lemma AppendKeepsStoreValid(records: seq<Transaction>, nextId: nat, t: Transaction)
    requires StoreValid(records, nextId) && t.id == nextId && DatesValid(t)
    ensures StoreValid(records + [t], nextId + 1)
  {
  }

  /** Duplicates the user's record, or reports it as not found. */
  method DuplicateTransaction(store: TransactionStore, userId: nat, id: nat) returns (r: Result<Transaction>)
    requires store.Valid()
    modifies store
    ensures store.Valid()
    ensures match FindOwned(old(store.records), userId, id)
            case None => r == Err("Transaction not found") && store.records == old(store.records)
                         && store.nextId == old(store.nextId)
            case Some(k) => r == Ok(Duplicate(old(store.records)[k], old(store.nextId)))
                            && store.records == old(store.records) + [r.value]
                            && store.nextId == old(store.nextId) + 1
  {
    var found := FindOwned(store.records, userId, id);
    if found.None? {
      return Err("Transaction not found");
    }
    var copy := Duplicate(store.records[found.value], store.nextId);
    AppendKeepsStoreValid(store.records, store.nextId, copy);
    store.records := store.records + [copy];
    store.nextId := store.nextId + 1;
    return Ok(copy);
  }

  // ---------------------------------------------------------------- bulk insert

  /** One document of `bulkTransactionService`: the body, the user, and the schedule fields forced off. */
  function BulkDocument(input: TransactionInput, id: nat, userId: nat): (t: Transaction)
    ensures t.id == id && t.userId == userId && t.title == input.title && t.date == input.date
    ensures t.amount == FormatCurrency.ConvertToPaise(input.amount)
    ensures !t.isRecurring && t.recurringInterval.None? && t.nextRecurringDate.None? && t.lastProcessed.None?
    ensures t.nextRecurrenceDate.None?
  {
    Transaction(id, userId, input.txType, input.title, FormatCurrency.ConvertToPaise(input.amount),
                input.category, input.description, input.receiptUrl, input.date, false,
                Option.None, Option.None, Option.None, Option.None, Option.None, COMPLETED, input.paymentMethod)
  }

  /** The documents of one bulk insert, with consecutive fresh ids, in input order. */
  function BulkDocuments(inputs: seq<TransactionInput>, firstId: nat, userId: nat): (r: seq<Transaction>)
    ensures |r| == |inputs|
    ensures forall i :: 0 <= i < |inputs| ==> r[i] == BulkDocument(inputs[i], firstId + i, userId)
  {
    seq(|inputs|, i requires 0 <= i < |inputs| => BulkDocument(inputs[i], firstId + i, userId))
  }

  /** Nothing a bulk insert adds is ever picked up by the recurring job. */
  lemma BulkNeverDue(inputs: seq<TransactionInput>, firstId: nat, userId: nat, now: DateTime, i: nat)
    requires i < |inputs|
    ensures !Due(BulkDocuments(inputs, firstId, userId)[i], now)
  {
  }

  /** `bulkTransactionService`: inserts every document, in order, and reports how many. */
  method BulkInsert(store: TransactionStore, inputs: seq<TransactionInput>, userId: nat) returns (insertedCount: nat)
    requires store.Valid()
    requires forall i :: 0 <= i < |inputs| ==> Valid(inputs[i].date)
    modifies store
    ensures store.Valid()
    ensures store.records == old(store.records) + BulkDocuments(inputs, old(store.nextId), userId)
    ensures store.nextId == old(store.nextId) + |inputs| && insertedCount == |inputs|
  {
    var docs := BulkDocuments(inputs, store.nextId, userId);
    store.records := store.records + docs;
    store.nextId := store.nextId + |inputs|;
    insertedCount := |inputs|;
  }

  // ---------------------------------------------------------------- bulk delete

  /** `deleteMany({ _id: { $in: ids }, userId })` removes exactly the user's records with those ids. */
  predicate Deleted(t: Transaction, userId: nat, ids: set<nat>) {
    t.id in ids && t.userId == userId
  }

  function Remaining(records: seq<Transaction>, userId: nat, ids: set<nat>): (r: seq<Transaction>)
    ensures |r| <= |records|
    ensures forall t :: t in r <==> t in records && !Deleted(t, userId, ids)
  {
    if records == [] then []
    else
      var rest := Remaining(records[1..], userId, ids);
      assert records == [records[0]] + records[1..];
      if Deleted(records[0], userId, ids) then rest else [records[0]] + rest
  }

  function DeletedCount(records: seq<Transaction>, userId: nat, ids: set<nat>): (n: nat)
    ensures n + |Remaining(records, userId, ids)| == |records|
  {
    if records == [] then 0
    else DeletedCount(records[1..], userId, ids) + (if Deleted(records[0], userId, ids) then 1 else 0)
  }

  /** When nothing matches, nothing is removed. */
  lemma {:induction false} NothingDeletedKeepsAll(records: seq<Transaction>, userId: nat, ids: set<nat>)
    requires DeletedCount(records, userId, ids) == 0
    ensures Remaining(records, userId, ids) == records
  {
    if records != [] {
      NothingDeletedKeepsAll(records[1..], userId, ids);
    }
  }

  /** Removing records keeps the store valid. */
  lemma RemovingKeepsStoreValid(records: seq<Transaction>, nextId: nat, userId: nat, ids: set<nat>)
    requires StoreValid(records, nextId)
    ensures StoreValid(Remaining(records, userId, ids), nextId)
  {
    var r := Remaining(records, userId, ids);
    forall j | 0 <= j < |r| ensures r[j].id < nextId && DatesValid(r[j]) {
      assert r[j] in records;
    }
  }

  /** `bulkDeleteTransactionService`: deletes the user's records among `ids`; none at all is "not found". */
  method BulkDelete(store: TransactionStore, userId: nat, ids: seq<nat>) returns (r: Result<nat>)
    requires store.Valid()
    modifies store
    ensures store.Valid() && store.nextId == old(store.nextId)
    ensures store.records == Remaining(old(store.records), userId, set i | i in ids)
    ensures var n := DeletedCount(old(store.records), userId, set i | i in ids);
            r == if n == 0 then Err("No transactions found") else Ok(n)
  {
    var idSet := set i | i in ids;
    var n := DeletedCount(store.records, userId, idSet);
    RemovingKeepsStoreValid(store.records, store.nextId, userId, idSet);
    store.records := Remaining(store.records, userId, idSet);
    if n == 0 {
      return Err("No transactions found");
    }
    return Ok(n);
  }

  // ---------------------------------------------------------------- receipt scanning

  /** The models tried, in order. */
  const CandidateModels: seq<string> := ["models/gemini-2.5-flash", "models/gemini-2.5-pro"]

  /** One model call: it answered (with its text, if any), or failed with an optional HTTP status. */
  datatype ModelOutcome = ModelAnswered(text: Option<string>) | ModelFailed(status: Option<int>)

  /** A client error other than 429 ends the failover. */
  predicate NonRetriable(status: Option<int>) {
    status.Some? && 400 <= status.value < 500 && status.value != 429
  }

  /** The index of the model that answers, trying from `i` on and stopping at a non-retriable failure. */
  function AnsweringModel(models: seq<string>, call: nat -> ModelOutcome, i: nat): (r: Option<nat>)
    requires i <= |models|
    ensures r.Some? ==> i <= r.value < |models| && call(r.value).ModelAnswered?
    ensures r.Some? ==> forall j :: i <= j < r.value ==> call(j).ModelFailed? && !NonRetriable(call(j).status)
    ensures r.None? ==> forall k :: i <= k < |models| && call(k).ModelAnswered? ==>
                          exists j :: i <= j < k && call(j).ModelFailed? && NonRetriable(call(j).status)
    decreases |models| - i
  {
    if i == |models| then Option.None
    else
      match call(i)
      case ModelAnswered(_) => Some(i)
      case ModelFailed(status) => if NonRetriable(status) then Option.None else AnsweringModel(models, call, i + 1)
  }

  /**
   * The failover loop: the models are tried in order; the first answer
   * wins, and a non-retriable failure stops the search.
   */
  method TryModels(models: seq<string>, call: nat -> ModelOutcome) returns (result: Option<Option<string>>, usedModel: Option<string>)
    ensures result.Some? <==> AnsweringModel(models, call, 0).Some?
    ensures result.Some? ==> var k := AnsweringModel(models, call, 0).value;
                             result.value == call(k).text && usedModel == Some(models[k])
  {
    result := Option.None;
    usedModel := Option.None;
    var i := 0;
    while i < |models|
      invariant 0 <= i <= |models|
      invariant AnsweringModel(models, call, 0) == AnsweringModel(models, call, i)
      invariant result.None?
    {
      match call(i) {
        case ModelAnswered(text) =>
          result := Some(text);
          usedModel := Some(models[i]);
          return;
        case ModelFailed(status) =>
          if NonRetriable(status) {
            return;
          }
      }
      i := i + 1;
    }
  }

  /** A value `JSON.parse` can produce. */
  datatype Json = JNull | JBool(b: bool) | JNumber(n: real) | JString(s: string) | JArray(items: seq<Json>)
                | JObject(fields: map<string, Json>)

  /** `data[key]` on a non-null value: an object's own field, or undefined (`None`). */
  function Field(data: Json, key: string): (r: Option<Json>)
    ensures r.Some? <==> data.JObject? && key in data.fields
  {
    if data.JObject? && key in data.fields then Some(data.fields[key]) else Option.None
  }

  /** JavaScript truthiness: undefined, null, false, 0 and the empty string are falsy. */
  predicate JsTruthy(v: Option<Json>) {
    match v
    case None => false
    case Some(j) =>
      match j
      case JNull => false
      case JBool(b) => b
      case JNumber(n) => n != 0.0
      case JString(s) => s != ""
      case JArray(_) => true
      case JObject(_) => true
  }

  /** `v ?? fallback`: undefined and null give the fallback. */
  function Coalesce(v: Option<Json>, fallback: Json): Json {
    if v.None? || v.value.JNull? then fallback else v.value
  }

  /** An uploaded file: where it lives, and its bytes when they can be read. */
  datatype UploadedFile = UploadedFile(path: string, content: Option<seq<bv8>>)

  /**
   * What the scan returns, or the request error it throws when no file was
   * uploaded. The fields of a scanned receipt are the parsed JSON values as
   * they came, `None` where the reply had none.
   */
  datatype ScanResult =
    | NoFile
    | ScanError(error: string)
    | Scanned(title: Json, amount: Json, date: Json, description: Option<Json>, category: Option<Json>,
              paymentMethod: Option<Json>, txType: Option<Json>, receiptUrl: string, model: string)

  const ModelsUnavailable: string := "Receipt scanning service unavailable (AI models failed). See server logs for details."
  const ScanUnavailable: string := "Receipt scanning service unavailable"
  const NoContent: string := "Could not read receipt content"
  const Unparsable: string := "Could not parse receipt data from AI"
  const MissingInformation: string := "Receipt missing required information"

  /** The reply text with fences stripped and trimmed; a missing reply is empty. */
  function ReplyText(text: Option<string>): string {
    if text.Some? then ReportService.CleanReply(text.value) else ""
  }

  /** The parsed reply carries a non-null value with a truthy `amount` and a truthy `date`. */
  predicate UsableReply(cleaned: string, parse: string -> Option<Json>) {
    cleaned != "" && parse(cleaned).Some? && !parse(cleaned).value.JNull?
    && JsTruthy(Field(parse(cleaned).value, "amount")) && JsTruthy(Field(parse(cleaned).value, "date"))
  }

  /**
   * The checks on the answering model's reply, as the scan makes them:
   * empty text, text that does not parse, and a value without a truthy
   * `amount` or `date` are errors. Reading a field of a `null` reply throws,
   * and the scan's outer handler answers that the service is unavailable.
   */
  function ReceiptFromReply(path: string, model: string, text: Option<string>, parse: string -> Option<Json>)
    : (r: ScanResult)
    ensures r.Scanned? <==> UsableReply(ReplyText(text), parse)
    ensures r.Scanned? ==> var data := parse(ReplyText(text)).value;
                           Some(r.amount) == Field(data, "amount") && Some(r.date) == Field(data, "date")
                           && r.receiptUrl == path && r.model == model
    ensures r == ScanError(ScanUnavailable) <==> ReplyText(text) != "" && parse(ReplyText(text)) == Some(JNull)
    ensures r.ScanError? ==> r.error in {NoContent, Unparsable, ScanUnavailable, MissingInformation}
  {
    assert ScanUnavailable[0] != NoContent[0] && ScanUnavailable[0] != Unparsable[0];
    assert ScanUnavailable[8] != MissingInformation[8];
    var cleaned := ReplyText(text);
    if cleaned == "" then ScanError(NoContent)
    else
      match parse(cleaned)
      case None => ScanError(Unparsable)
      case Some(data) =>
        if data.JNull? then ScanError(ScanUnavailable)
        else if !JsTruthy(Field(data, "amount")) || !JsTruthy(Field(data, "date")) then ScanError(MissingInformation)
        else
          Scanned(Coalesce(Field(data, "title"), JString("Receipt")), Field(data, "amount").value,
                  Field(data, "date").value, Field(data, "description"), Field(data, "category"),
                  Field(data, "paymentMethod"), Field(data, "type"), path, model)
  }

  /**
   * Only JavaScript truthiness is checked: an amount given as the text "0"
   * is accepted, while the number 0 is rejected.
   */
  lemma TruthinessDecidesAmount(path: string, model: string, text: string, parse: string -> Option<Json>,
                                fields: map<string, Json>)
    requires ReplyText(Some(text)) != "" && "date" in fields && JsTruthy(Some(fields["date"]))
    requires parse(ReplyText(Some(text))) == Some(JObject(fields))
    ensures fields.Keys >= {"amount"} && fields["amount"] == JString("0") ==>
              ReceiptFromReply(path, model, Some(text), parse).Scanned?
    ensures fields.Keys >= {"amount"} && fields["amount"] == JNumber(0.0) ==>
              ReceiptFromReply(path, model, Some(text), parse) == ScanError(MissingInformation)
  {
  }

  /** `scanReceiptService`, as a function of the file, the model calls and the JSON reading of the reply. */
  function ScanSpec(file: Option<UploadedFile>, call: nat -> ModelOutcome, parse: string -> Option<Json>)
    : (r: ScanResult)
  {
    match file
    case None => NoFile
    case Some(f) =>
      if f.content.None? || f.content.value == [] then ScanError(ScanUnavailable)
      else
        match AnsweringModel(CandidateModels, call, 0)
        case None => ScanError(ModelsUnavailable)
        case Some(k) => ReceiptFromReply(f.path, CandidateModels[k], call(k).text, parse)
  }

  /** The scan: read the file, run the failover loop, then check the reply. */
  method ScanReceipt(file: Option<UploadedFile>, call: nat -> ModelOutcome, parse: string -> Option<Json>)
    returns (r: ScanResult)
    ensures r == ScanSpec(file, call, parse)
  {
    if file.None? {
      return NoFile;
    }
    var f := file.value;
    if f.content.None? || f.content.value == [] {
      return ScanError(ScanUnavailable);
    }
    var result, usedModel := TryModels(CandidateModels, call);
    if result.None? {
      return ScanError(ModelsUnavailable);
    }
    return ReceiptFromReply(f.path, usedModel.value, result.value, parse);
  }

  /** When the first model answers, its reply is the one checked, and it is named as the model used. */
  lemma FirstModelWins(f: UploadedFile, call: nat -> ModelOutcome, parse: string -> Option<Json>)
    requires f.content.Some? && f.content.value != [] && call(0).ModelAnswered?
    ensures ScanSpec(Some(f), call, parse) == ReceiptFromReply(f.path, "models/gemini-2.5-flash", call(0).text, parse)
  {
    assert AnsweringModel(CandidateModels, call, 0) == Some(0);
  }

  /** A client error (other than 429) from the first model ends the scan without trying the second. */
  lemma ClientErrorStopsFailover(f: UploadedFile, call: nat -> ModelOutcome, parse: string -> Option<Json>)
    requires f.content.Some? && f.content.value != [] && call(0).ModelFailed? && NonRetriable(call(0).status)
    ensures ScanSpec(Some(f), call, parse) == ScanError(ModelsUnavailable)
  {
    assert AnsweringModel(CandidateModels, call, 0) == Option.None;
  }

  /** A rate-limited first model passes the request on to the second. */
  lemma RateLimitTriesNextModel(f: UploadedFile, call: nat -> ModelOutcome, parse: string -> Option<Json>)
    requires f.content.Some? && f.content.value != [] && call(0) == ModelFailed(Some(429)) && call(1).ModelAnswered?
    ensures ScanSpec(Some(f), call, parse) == ReceiptFromReply(f.path, "models/gemini-2.5-pro", call(1).text, parse)
  {
    assert AnsweringModel(CandidateModels, call, 1) == Some(1);
    assert AnsweringModel(CandidateModels, call, 0) == Some(1);
  }

  /** A scanned receipt came from text that parsed to a non-null value, and a reply without a title is titled "Receipt". */
  lemma ScannedTitle(path: string, model: string, text: Option<string>, parse: string -> Option<Json>)
    requires ReceiptFromReply(path, model, text, parse).Scanned?
    ensures text.Some? && parse(ReportService.CleanReply(text.value)).Some?
    ensures var data := parse(ReportService.CleanReply(text.value)).value;
            !data.JNull?
            && ReceiptFromReply(path, model, text, parse).title == Coalesce(Field(data, "title"), JString("Receipt"))
            && (Field(data, "title").None? ==> ReceiptFromReply(path, model, text, parse).title == JString("Receipt"))
  {
  }

  /** Without a file the scan is a request error; with an unreadable or empty one, the service is unavailable. */
  lemma ScanRejectsMissingInput(f: UploadedFile, call: nat -> ModelOutcome, parse: string -> Option<Json>)
    ensures ScanSpec(Option.None, call, parse) == NoFile
    ensures (f.content.None? || f.content.value == []) ==> ScanSpec(Some(f), call, parse) == ScanError(ScanUnavailable)
  {
  }
}
