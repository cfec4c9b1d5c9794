/**
 * The request schemas of backend/src/validators/transaction.validator.ts,
 * written as functions from the raw request fields to a result or an error.
 * A field the request leaves out is `None`; Zod's own messages for a missing
 * field or a wrong JSON type are one message here ("Required").
 */
module TransactionValidator {
  import opened Wrappers
  import opened Text
  import opened CivilTime
  import opened TransactionModel
  import opened FormatCurrency

  /** The `.max` bound on amounts, in rupees. */
  const MaxAmount: real := 1_000_000_000.0

  // ---------------------------------------------------------------- single fields

  /** `transactionSchema`: an id is trimmed and must not be empty. */
  function ValidateId(s: string): (r: Result<string>)
    ensures r.Ok? <==> Trim(s) != []
    ensures r.Ok? ==> r.value == Trim(s)
  {
    var t := Trim(s);
    if t != [] then Ok(t) else Err("String must contain at least 1 character(s)")
  }

  /** A valid id validates to itself: the trimmed form is already trimmed. */
  lemma ValidateIdIdempotent(s: string)
    requires ValidateId(s).Ok?
    ensures ValidateId(ValidateId(s).value) == ValidateId(s)
  {
    TrimNoop(Trim(s));
  }

  /** `title` and `category`: `.min(1)`. */
  function ValidateNonEmpty(s: string, message: string): (r: Result<string>)
    ensures r.Ok? <==> |s| >= 1
    ensures r.Ok? ==> r.value == s
    ensures r.Err? ==> r.error == message
  {
    if |s| >= 1 then Ok(s) else Err(message)
  }

  /**
   * `type`: trimmed and lower-cased, then checked against a list that also
   * names the upper-case spellings (which a lower-cased value can never be);
   * "income" gives Income and every other accepted value Expense.
   */
  function ValidateType(s: string): (r: Result<TransactionType>)
  {
    var v := ToLower(Trim(s));
    if v in ["INCOME", "EXPENSE", "income", "expense"] then Ok(if v == "income" then INCOME else EXPENSE)
    else Err("Transaction type must be either Income or Expense")
  }

  /** Exactly the spellings of "income" and "expense" pass, whatever their case and surrounding blanks. */
  lemma TypeAcceptsExactly(s: string)
    ensures ValidateType(s).Ok? <==> ToLower(Trim(s)) == "income" || ToLower(Trim(s)) == "expense"
    ensures ValidateType(s) == Ok(INCOME) <==> ToLower(Trim(s)) == "income"
    ensures ValidateType(s) == Ok(EXPENSE) <==> ToLower(Trim(s)) == "expense"
  {
    var v := ToLower(Trim(s));
    ToLowerIdempotent(Trim(s));
    assert ToLower(v) == v;
    assert v != "INCOME" && v != "EXPENSE";
  }

  /** The stored spelling of a type validates back to that type. */
  lemma TypeRoundTrip(t: TransactionType)
    ensures ValidateType(t.Value()) == Ok(t)
  {
    TrimNoop(t.Value());
    match t {
      case INCOME => ToLowerIs("Income", "income");
      case EXPENSE => ToLowerIs("Expense", "expense");
    }
  }

  /** `amount`: a number (already coerced), positive and at most one billion rupees. */
  function ValidateAmount(n: JsNumber): (r: Result<real>)
    ensures r.Ok? <==> n.Finite? && 0.0 < n.value <= MaxAmount
    ensures r.Ok? ==> r.value == n.value
  {
    match n
    case Finite(x) =>
      if x <= 0.0 then Err("Amount must be positive")
      else if x > MaxAmount then Err("Amount too large")
      else Ok(x)
    case NaN => Err("Expected number, received nan")
    case PositiveInfinity => Err("Amount too large")
    case NegativeInfinity => Err("Amount must be positive")
  }

  /**
   * An accepted amount is stored as at most 100 000 000 000 paise; it is
   * stored as 0 exactly when it is below half a paisa.
   */
  lemma AcceptedAmountInPaise(n: JsNumber)
    requires ValidateAmount(n).Ok?
    ensures var p := ConvertToPaise(ValidateAmount(n).value);
            0 <= p <= 100_000_000_000
            && (p == 0 <==> ValidateAmount(n).value < 1.0 / 200.0)
  {
  }

  /** What `date` receives: a string to parse, or a `Date` object (`None` for an invalid one). */
  datatype DateInput = DateText(text: string) | DateObject(instant: Option<DateTime>)

  /** `date`: `new Date(val)`, rejected when it is not a valid date. */
  function ValidateDate(d: DateInput, parse: string -> Option<DateTime>): (r: Result<DateTime>)
    ensures d.DateText? ==> (r.Ok? <==> parse(d.text).Some?) && (r.Ok? ==> r.value == parse(d.text).value)
    ensures d.DateObject? ==> (r.Ok? <==> d.instant.Some?) && (r.Ok? ==> r.value == d.instant.value)
  {
    var parsed := match d
      case DateText(s) => parse(s)
      case DateObject(i) => i;
    if parsed.Some? then Ok(parsed.value) else Err("Invalid date")
  }

  /**
   * `recurringInterval`: absent, null or empty gives null; anything else is
   * trimmed and lower-cased and must be daily, weekly, monthly or yearly.
   */
  function ValidateInterval(v: Option<string>): (r: Result<Option<RecurringInterval>>)
    ensures r.Ok? <==> v.None? || v.value == ""
                       || ToLower(Trim(v.value)) in ["daily", "weekly", "monthly", "yearly"]
    ensures r.Ok? && r.value.Some? ==> v.Some? && r.value.value != NONE && r.value.value.Value() == ToLower(Trim(v.value))
    ensures v.None? || v == Some("") ==> r == Ok(Option.None)
  {
    if v.None? || v.value == "" then Ok(Option.None)
    else
      match IntervalNamed(ToLower(Trim(v.value)))
      case Some(i) => Ok(Some(i))
      case None => Err("Recurring interval must be daily, weekly, monthly, or yearly")
  }

  /** The interval the enum check accepts under the name `w`, if any; `none` is not offered. */
  function IntervalNamed(w: string): (r: Option<RecurringInterval>)
    ensures r.Some? <==> w in ["daily", "weekly", "monthly", "yearly"]
    ensures r.Some? ==> r.value != NONE && r.value.Value() == w
  {
    if w == "daily" then Some(DAILY)
    else if w == "weekly" then Some(WEEKLY)
    else if w == "monthly" then Some(MONTHLY)
    else if w == "yearly" then Some(YEARLY)
    else Option.None
  }

  /** Every stored interval but `none` validates back to itself. */
  lemma IntervalRoundTrip(i: RecurringInterval)
    requires i != NONE
    ensures ValidateInterval(Some(i.Value())) == Ok(Some(i))
  {
    TrimNoop(i.Value());
    IntervalValueIsLowerCase(i);
    NamedByValue(i);
  }

  lemma NamedByValue(i: RecurringInterval)
    requires i != NONE
    ensures IntervalNamed(i.Value()) == Some(i)
  {
    match i
    case DAILY =>
    case WEEKLY =>
    case MONTHLY =>
    case YEARLY =>
  }

  lemma IntervalValueIsLowerCase(i: RecurringInterval)
    ensures ToLower(i.Value()) == i.Value()
  {
    match i
    case NONE => ToLowerNoop("none");
    case DAILY => ToLowerNoop("daily");
    case WEEKLY => ToLowerNoop("weekly");
    case MONTHLY => ToLowerNoop("monthly");
    case YEARLY => ToLowerNoop("yearly");
  }

  /**
   * Text reading `none` in any case and spacing, although an interval the
   * model declares, is rejected; so is blank text, while the empty string
   * means no interval.
   */
  lemma IntervalRejectsNoneAndBlank(none: string, blank: string)
    requires ToLower(Trim(none)) == "none"
    requires blank != "" && forall i :: 0 <= i < |blank| ==> IsWhitespace(blank[i])
    ensures ValidateInterval(Some(none)).Err?
    ensures ValidateInterval(Some(blank)).Err?
  {
    TrimBlank(blank);
  }

  /**
   * `paymentMethod`: lower-cased but not trimmed; "credit/debit card" is a
   * second spelling of Card.
   */
  function ValidatePaymentMethod(s: string): (r: Result<PaymentMethod>)
    ensures r.Ok? <==> ToLower(s) in ["cash", "card", "upi", "bank transfer", "credit/debit card"]
    ensures r == Ok(CARD) <==> ToLower(s) == "card" || ToLower(s) == "credit/debit card"
  {
    var v := ToLower(s);
    if v == "cash" then Ok(CASH)
    else if v == "card" then Ok(CARD)
    else if v == "upi" then Ok(UPI)
    else if v == "bank transfer" then Ok(BANK_TRANSFER)
    else if v == "credit/debit card" then Ok(CARD)
    else Err("Payment method must be Cash, Card, UPI, or Bank Transfer")
  }

  /** The stored spelling of a payment method validates back to it; a leading blank is rejected. */
  lemma PaymentRoundTrip(p: PaymentMethod)
    ensures ValidatePaymentMethod(p.Value()) == Ok(p)
    ensures ValidatePaymentMethod(" cash").Err?
  {
    match p {
      case CASH => ToLowerIs("Cash", "cash");
      case CARD => ToLowerIs("Card", "card");
      case UPI => ToLowerIs("UPI", "upi");
      case BANK_TRANSFER => ToLowerIs("Bank Transfer", "bank transfer");
    }
    assert ToLower(" cash")[0] == ' ';
  }

  // ---------------------------------------------------------------- whole bodies

  /** The request body as sent; `isRecurring` is a key the schema does not declare. */
  datatype RawTransaction = RawTransaction(
    title: Option<string>,
    description: Option<string>,
    txType: Option<string>,
    amount: Option<JsNumber>,
    category: Option<string>,
    date: Option<DateInput>,
    recurringInterval: Option<string>,
    receiptUrl: Option<string>,
    paymentMethod: Option<string>,
    isRecurring: Option<bool>)

  /** A body that passed the create schema. */
  datatype TransactionInput = TransactionInput(
    title: string,
    description: Option<string>,
    txType: TransactionType,
    amount: real,
    category: string,
    date: DateTime,
    recurringInterval: Option<RecurringInterval>,
    receiptUrl: Option<string>,
    paymentMethod: PaymentMethod,
    isRecurring: Option<bool>)

  /** A required field: missing is an error, present is checked by `rule`. */
  function Required<T, U>(field: Option<T>, rule: T -> Result<U>): (r: Result<U>)
    ensures r.Ok? <==> field.Some? && rule(field.value).Ok?
    ensures field.Some? ==> r == rule(field.value)
  {
    match field
    case None => Err("Required")
    case Some(x) => rule(x)
  }

  /** An optional field: missing stays missing, present is checked by `rule`. */
  function Optional<T, U>(field: Option<T>, rule: T -> Result<U>): (r: Result<Option<U>>)
    ensures r.Ok? <==> field.None? || rule(field.value).Ok?
    ensures field.None? ==> r == Ok(Option.None)
    ensures r.Ok? && field.Some? ==> r.value == Some(rule(field.value).value)
  {
    match field
    case None => Ok(Option.None)
    case Some(x) =>
      match rule(x)
      case Ok(v) => Ok(Some(v))
      case Err(e) => Err(e)
  }

  function TitleRule(s: string): Result<string> {
    ValidateNonEmpty(s, "Title is required")
  }

  function CategoryRule(s: string): Result<string> {
    ValidateNonEmpty(s, "Category is required")
  }

  /** Every required field is present and passes its rule. */
  predicate CreateFieldsValid(raw: RawTransaction, parse: string -> Option<DateTime>) {
    raw.title.Some? && TitleRule(raw.title.value).Ok?
    && raw.txType.Some? && ValidateType(raw.txType.value).Ok?
    && raw.amount.Some? && ValidateAmount(raw.amount.value).Ok?
    && raw.category.Some? && CategoryRule(raw.category.value).Ok?
    && raw.date.Some? && ValidateDate(raw.date.value, parse).Ok?
    && ValidateInterval(raw.recurringInterval).Ok?
    && raw.paymentMethod.Some? && ValidatePaymentMethod(raw.paymentMethod.value).Ok?
  }

  /**
   * `createTransactionSchema`, keeping the `isRecurring` flag the service
   * reads (`ValidateCreateAsWritten` is the schema as declared, which strips
   * it). The first failing field, in declaration order, gives the error.
   */
  function ValidateCreate(raw: RawTransaction, parse: string -> Option<DateTime>): (r: Result<TransactionInput>)
    ensures r.Ok? <==> CreateFieldsValid(raw, parse)
    ensures r.Ok? ==> |r.value.title| >= 1 && |r.value.category| >= 1
                      && 0.0 < r.value.amount <= MaxAmount
                      && r.value.recurringInterval != Some(NONE)
                      && r.value.description == raw.description
                      && r.value.isRecurring == raw.isRecurring
  {
    var title := Required(raw.title, TitleRule);
    var txType := Required(raw.txType, ValidateType);
    var amount := Required(raw.amount, ValidateAmount);
    var category := Required(raw.category, CategoryRule);
    var date := Required(raw.date, d => ValidateDate(d, parse));
    var interval := ValidateInterval(raw.recurringInterval);
    var payment := Required(raw.paymentMethod, ValidatePaymentMethod);
    if title.Err? then Err(title.error)
    else if txType.Err? then Err(txType.error)
    else if amount.Err? then Err(amount.error)
    else if category.Err? then Err(category.error)
    else if date.Err? then Err(date.error)
    else if interval.Err? then Err(interval.error)
    else if payment.Err? then Err(payment.error)
    else Ok(TransactionInput(title.value, raw.description, txType.value, amount.value, category.value,
                             date.value, interval.value, raw.receiptUrl, payment.value, raw.isRecurring))
  }

  /** The create schema as declared: `isRecurring` is not among its keys, so it never reaches the service. */
  function ValidateCreateAsWritten(raw: RawTransaction, parse: string -> Option<DateTime>): (r: Result<TransactionInput>)
    ensures r.Ok? <==> ValidateCreate(raw, parse).Ok?
    ensures r.Ok? ==> r.value == ValidateCreate(raw, parse).value.(isRecurring := Option.None)
  {
    match ValidateCreate(raw, parse)
    case Ok(v) => Ok(v.(isRecurring := Option.None))
    case Err(e) => Err(e)
  }

  /** `z.array(schema)`: the first element that fails decides the error; otherwise every value, in order. */
  function EveryOk<A, B>(xs: seq<A>, check: A -> Result<B>): (r: Result<seq<B>>)
  {
    if xs == [] then Ok([])
    else
      match check(xs[0])
      case Err(e) => Err(e)
      case Ok(first) =>
        match EveryOk(xs[1..], check)
        case Err(e) => Err(e)
        case Ok(rest) => Ok([first] + rest)
  }

  /** An array passes exactly when every element does, and then it holds every element's value, in order. */
  lemma {:induction false} EveryOkMeaning<A, B>(xs: seq<A>, check: A -> Result<B>)
    ensures EveryOk(xs, check).Ok? <==> forall i :: 0 <= i < |xs| ==> check(xs[i]).Ok?
    ensures EveryOk(xs, check).Ok? ==>
              |EveryOk(xs, check).value| == |xs|
              && forall i :: 0 <= i < |xs| ==> EveryOk(xs, check).value[i] == check(xs[i]).value
  {
    if xs != [] {
      var rest := xs[1..];
      EveryOkMeaning(rest, check);
      assert forall i :: 1 <= i < |xs| ==> xs[i] == rest[i - 1];
    }
  }

  /** `createTransactionsArraySchema`: every element must pass the create schema; the order is kept. */
  function ValidateCreateAll(raws: seq<RawTransaction>, parse: string -> Option<DateTime>): (r: Result<seq<TransactionInput>>)
  {
    EveryOk(raws, raw => ValidateCreate(raw, parse))
  }

  /** The array passes exactly when every element does, and then it is every element's value, in order. */
  lemma ValidateCreateAllMeaning(raws: seq<RawTransaction>, parse: string -> Option<DateTime>)
    ensures var r := ValidateCreateAll(raws, parse);
            (r.Ok? <==> forall i :: 0 <= i < |raws| ==> ValidateCreate(raws[i], parse).Ok?)
            && (r.Ok? ==> |r.value| == |raws|
                          && forall i :: 0 <= i < |raws| ==> r.value[i] == ValidateCreate(raws[i], parse).value)
  {
    EveryOkMeaning(raws, raw => ValidateCreate(raw, parse));
  }

  /** A body that passed the update schema: every field optional. */
  datatype TransactionUpdate = TransactionUpdate(
    title: Option<string>,
    description: Option<string>,
    txType: Option<TransactionType>,
    amount: Option<real>,
    category: Option<string>,
    date: Option<DateTime>,
    recurringInterval: Option<RecurringInterval>,
    receiptUrl: Option<string>,
    paymentMethod: Option<PaymentMethod>,
    isRecurring: Option<bool>)

  /** Every field that is present passes its rule. */
  predicate UpdateFieldsValid(raw: RawTransaction, parse: string -> Option<DateTime>) {
    (raw.title.Some? ==> TitleRule(raw.title.value).Ok?)
    && (raw.txType.Some? ==> ValidateType(raw.txType.value).Ok?)
    && (raw.amount.Some? ==> ValidateAmount(raw.amount.value).Ok?)
    && (raw.category.Some? ==> CategoryRule(raw.category.value).Ok?)
    && (raw.date.Some? ==> ValidateDate(raw.date.value, parse).Ok?)
    && ValidateInterval(raw.recurringInterval).Ok?
    && (raw.paymentMethod.Some? ==> ValidatePaymentMethod(raw.paymentMethod.value).Ok?)
  }

  /**
   * `updateTransactionSchema` (`.partial()`): each field may be left out, and
   * each one given is checked by the same rule as on create. Like the create
   * schema it keeps `isRecurring` here; the schema as declared strips it.
   */
  function ValidateUpdate(raw: RawTransaction, parse: string -> Option<DateTime>): (r: Result<TransactionUpdate>)
    ensures r.Ok? <==> UpdateFieldsValid(raw, parse)
    ensures r.Ok? ==> (r.value.title.Some? <==> raw.title.Some?)
                      && (r.value.amount.Some? <==> raw.amount.Some?)
                      && (r.value.date.Some? <==> raw.date.Some?)
                      && (r.value.amount.Some? ==> 0.0 < r.value.amount.value <= MaxAmount)
                      && r.value.recurringInterval != Some(NONE)
                      && r.value.isRecurring == raw.isRecurring
  {
    var title := Optional(raw.title, TitleRule);
    var txType := Optional(raw.txType, ValidateType);
    var amount := Optional(raw.amount, ValidateAmount);
    var category := Optional(raw.category, CategoryRule);
    var date := Optional(raw.date, d => ValidateDate(d, parse));
    var interval := ValidateInterval(raw.recurringInterval);
    var payment := Optional(raw.paymentMethod, ValidatePaymentMethod);
    if title.Err? then Err(title.error)
    else if txType.Err? then Err(txType.error)
    else if amount.Err? then Err(amount.error)
    else if category.Err? then Err(category.error)
    else if date.Err? then Err(date.error)
    else if interval.Err? then Err(interval.error)
    else if payment.Err? then Err(payment.error)
    else Ok(TransactionUpdate(title.value, raw.description, txType.value, amount.value, category.value,
                              date.value, interval.value, raw.receiptUrl, payment.value, raw.isRecurring))
  }

  /** The update schema as declared, which strips `isRecurring` as the create schema does. */
  function ValidateUpdateAsWritten(raw: RawTransaction, parse: string -> Option<DateTime>): (r: Result<TransactionUpdate>)
    ensures r.Ok? <==> ValidateUpdate(raw, parse).Ok?
    ensures r.Ok? ==> r.value == ValidateUpdate(raw, parse).value.(isRecurring := Option.None)
  {
    match ValidateUpdate(raw, parse)
    case Ok(v) => Ok(v.(isRecurring := Option.None))
    case Err(e) => Err(e)
  }

  /**
   * The partial schema is the create schema with every field made optional:
   * on a body that carries every required field, the two accept the same
   * bodies and yield the same values.
   */
  lemma PartialAgreesWithCreate(raw: RawTransaction, parse: string -> Option<DateTime>)
    requires raw.title.Some? && raw.txType.Some? && raw.amount.Some? && raw.category.Some?
    requires raw.date.Some? && raw.paymentMethod.Some?
    ensures ValidateCreate(raw, parse).Ok? <==> ValidateUpdate(raw, parse).Ok?
    ensures ValidateCreate(raw, parse).Ok? ==>
              var c := ValidateCreate(raw, parse).value;
              var u := ValidateUpdate(raw, parse).value;
              u == TransactionUpdate(Some(c.title), c.description, Some(c.txType), Some(c.amount), Some(c.category),
                                     Some(c.date), c.recurringInterval, c.receiptUrl, Some(c.paymentMethod),
                                     c.isRecurring)
  {
  }

  /** `bulkDeleteransactionSchema`: at least one id, each non-empty once trimmed. */
  function ValidateBulkDelete(ids: seq<string>): (r: Result<seq<string>>)
    ensures r.Ok? <==> |ids| >= 1 && forall i :: 0 <= i < |ids| ==> ValidateId(ids[i]).Ok?
    ensures r.Ok? ==> |r.value| == |ids| && forall i :: 0 <= i < |ids| ==> r.value[i] == Trim(ids[i])
  {
    if |ids| == 0 then Err("At least one Transaction ID is required")
    else if exists i :: 0 <= i < |ids| && ValidateId(ids[i]).Err? then Err("String must contain at least 1 character(s)")
    else Ok(seq(|ids|, i requires 0 <= i < |ids| => Trim(ids[i])))
  }
}
