/**
 * The confirmation step of the CSV import dialog
 * (client/src/components/transaction/import-transaction-modal/confirmation-step.tsx):
 * the cell normalisers, the row builder that maps CSV columns onto
 * transaction fields and validates each row, the guard that decides whether
 * the import request is sent, and the simulated progress bar.
 *
 * A CSV row is a map from column name to cell text; a column missing from
 * the map is a null or undefined cell. `Number(cell)` and `new Date(text)`
 * are the parameters `toNumber` and `parse`.
 */
module ConfirmationStep {
  import opened Wrappers
  import opened Text
  import opened CivilTime
  import opened FormatCurrency

  /** The client's transaction types. */
  datatype ImportType = ImportIncome | ImportExpense

  /** The payment methods the importer can produce. */
  datatype ImportPayment = ImportUpi | ImportBankTransfer | ImportCard | ImportCash

  /** Why a row was rejected. */
  datatype RowError =
    | TypeNotIncomeOrExpense   // "Transaction type must be INCOME or EXPENSE"
    | PaymentMethodUnknown     // "Payment method must be one of: …"
    | DateRequired             // "Date is required"
    | InvalidDate              // "Invalid date"
    | SchemaRejected           // the row schema's error

  /** A normaliser's or a check's outcome: a value, or the error it throws. */
  datatype Checked<T> = Pass(value: T) | Fail(error: RowError)

  // ---------------------------------------------------------------- normalisers

  /** `normalizeType`: trimmed and lower-cased, only "income" and "expense" are accepted. */
  function NormalizeType(value: string): (r: Checked<ImportType>)
    ensures r == Pass(ImportIncome) <==> ToLower(Trim(value)) == "income"
    ensures r == Pass(ImportExpense) <==> ToLower(Trim(value)) == "expense"
    ensures r.Fail? ==> r.error == TypeNotIncomeOrExpense
  {
    var v := ToLower(Trim(value));
    if v == "income" then Pass(ImportIncome)
    else if v == "expense" then Pass(ImportExpense)
    else Fail(TypeNotIncomeOrExpense)
  }

  /** The label of a type, as a CSV would spell it. */
  function TypeLabel(t: ImportType): string {
    match t
    case ImportIncome => "income"
    case ImportExpense => "expense"
  }

  /** Every type is read back from its label, in any letter case. */
  lemma TypeLabelRoundTrip(t: ImportType)
    ensures NormalizeType(TypeLabel(t)) == Pass(t)
    ensures NormalizeType(ToUpper(TypeLabel(t))) == Pass(t)
  {
    TrimNoop(TypeLabel(t));
    TrimNoop(ToUpper(TypeLabel(t)));
    CaseComposition(TypeLabel(t));
    LabelIsLowerCase(t);
  }

  lemma LabelIsLowerCase(t: ImportType)
    ensures ToLower(TypeLabel(t)) == TypeLabel(t)
  {
    match t {
      case ImportIncome => ToLowerNoop("income");
      case ImportExpense => ToLowerNoop("expense");
    }
  }

  /**
   * `normalizePaymentMethod`: the trimmed, lower-cased text is searched for
   * "upi", then "bank", then "card", then "cash"; the first hit decides.
   */
  function NormalizePaymentMethod(value: string): (r: Checked<ImportPayment>)
    ensures var v := ToLower(Trim(value));
            (r == Pass(ImportUpi) <==> Contains(v, "upi"))
            && (r == Pass(ImportBankTransfer) <==> !Contains(v, "upi") && Contains(v, "bank"))
            && (r == Pass(ImportCard) <==> !Contains(v, "upi") && !Contains(v, "bank") && Contains(v, "card"))
            && (r == Pass(ImportCash) <==> !Contains(v, "upi") && !Contains(v, "bank") && !Contains(v, "card")
                                           && Contains(v, "cash"))
    ensures r.Fail? ==> r.error == PaymentMethodUnknown
  {
    var v := ToLower(Trim(value));
    if Contains(v, "upi") then Pass(ImportUpi)
    else if Contains(v, "bank") then Pass(ImportBankTransfer)
    else if Contains(v, "card") then Pass(ImportCard)
    else if Contains(v, "cash") then Pass(ImportCash)
    else Fail(PaymentMethodUnknown)
  }

  /** A cell naming both UPI and a bank is UPI. */
  lemma UpiBeatsBank()
    ensures NormalizePaymentMethod("upi bank") == Pass(ImportUpi)
  {
    var upi, rest := "upi", " bank";
    var cell := upi + rest;
    assert cell[..|upi|] == upi;
    assert cell == "upi bank";
    TrimNoop(cell);
    ToLowerNoop(cell);
    assert OccursAt(cell, upi, 0);
  }

  /** `date.toISOString().split("T")[0]`: the calendar date, zero-padded, with an expanded year outside 0..9999. */
  function IsoDatePart(d: DateTime): (r: string)
    requires Valid(d)
    ensures 0 <= d.year <= 9999 ==>
              |r| == 10 && r[4] == '-' && r[7] == '-'
              && AllDigits(r[..4]) && AllDigits(r[5..7]) && AllDigits(r[8..])
              && DigitsValue(r[..4]) == d.year && DigitsValue(r[5..7]) == d.month && DigitsValue(r[8..]) == d.day
  {
    IsoOf(d.year, d.month, d.day)
  }

  /** The `yyyy-mm-dd` text of a year, a month and a day; for a four-digit year, the three parts read back to them. */
  function IsoOf(year: int, month: nat, day: nat): (r: string)
    requires month < 100 && day < 100
    ensures 0 <= year <= 9999 ==>
              |r| == 10 && r[4] == '-' && r[7] == '-'
              && AllDigits(r[..4]) && AllDigits(r[5..7]) && AllDigits(r[8..])
              && DigitsValue(r[..4]) == year && DigitsValue(r[5..7]) == month && DigitsValue(r[8..]) == day
  {
    var y := IsoYear(year);
    var m := TwoDigits(month);
    var dd := TwoDigits(day);
    DashJoined(y, m, dd)
  }

  /** The year of an ISO date: four digits in 0..9999, otherwise a sign and six digits. */
  function IsoYear(year: int): (r: string)
    ensures 0 <= year <= 9999 ==> |r| == 4 && AllDigits(r) && DigitsValue(r) == year
  {
    if 0 <= year <= 9999 then
      DigitsBound(year);
      PadStartValue(year, 4);
      PadStart(NatToString(year), 4, '0')
    else if year > 9999 then "+" + PadStart(NatToString(year), 6, '0')
    else "-" + PadStart(NatToString(-year), 6, '0')
  }

  /** A month or a day, zero-padded to two digits. */
  function TwoDigits(n: nat): (r: string)
    requires n < 100
    ensures |r| == 2 && AllDigits(r) && DigitsValue(r) == n
  {
    DigitsBound(n);
    PadStartValue(n, 2);
    PadStart(NatToString(n), 2, '0')
  }

  /** Three parts joined by dashes; the dashes sit right after the first and the second part. */
  function DashJoined(a: string, b: string, c: string): (r: string)
    ensures |r| == |a| + |b| + |c| + 2
    ensures r[|a|] == '-' && r[|a| + |b| + 1] == '-'
    ensures r[..|a|] == a && r[|a| + 1..|a| + |b| + 1] == b && r[|a| + |b| + 2..] == c
  {
    var ab := a + "-" + b;
    assert ab[|a|] == '-';
    ab + "-" + c
  }

  /** A number below 10^k has at most k digits. */
  lemma DigitsBound(n: nat)
    ensures n < 10 ==> |NatToString(n)| == 1
    ensures n < 100 ==> |NatToString(n)| <= 2
    ensures n < 10000 ==> |NatToString(n)| <= 4
  {
    if n >= 10 {
      DigitsBound(n / 10);
    }
  }

  /**
   * `normalizeDate`: empty text is an error. Text with exactly three
   * dash-separated parts is read as day-month-year and returned as
   * year-month-day, provided that reordering parses; any other text must
   * parse, and its calendar date is returned.
   */
  function NormalizeDate(value: string, parse: string -> Option<DateTime>): (r: Checked<string>)
    requires forall s :: parse(s).Some? ==> Valid(parse(s).value)
    ensures value == "" ==> r == Fail(DateRequired)
    ensures r.Fail? ==> r.error == DateRequired || r.error == InvalidDate
    ensures value != "" && |Split(value, '-')| == 3 ==>
              var p := Split(value, '-');
              var iso := p[2] + "-" + p[1] + "-" + p[0];
              r == if parse(iso).Some? then Pass(iso) else Fail(InvalidDate)
    ensures value != "" && |Split(value, '-')| != 3 ==>
              r == if parse(value).Some? then Pass(IsoDatePart(parse(value).value)) else Fail(InvalidDate)
  {
    if value == "" then Fail(DateRequired)
    else
      var parts := Split(value, '-');
      if |parts| == 3 then
        var iso := parts[2] + "-" + parts[1] + "-" + parts[0];
        if parse(iso).None? then Fail(InvalidDate) else Pass(iso)
      else
        match parse(value)
        case None => Fail(InvalidDate)
        case Some(d) => Pass(IsoDatePart(d))
  }

  /**
   * A day-first date is reordered to year-month-day; so is text already in
   * year-month-day order, which comes back reversed (or is rejected).
   */
  lemma DayFirstReordered(dd: string, mm: string, yyyy: string, parse: string -> Option<DateTime>)
    requires forall s :: parse(s).Some? ==> Valid(parse(s).value)
    requires '-' !in dd && '-' !in mm && '-' !in yyyy
    ensures var r := NormalizeDate(dd + "-" + mm + "-" + yyyy, parse);
            r == Pass(yyyy + "-" + mm + "-" + dd) || r == Fail(InvalidDate)
  {
    var dash := ['-'];
    var value := dd + dash + mm + dash + yyyy;
    var parts := [dd, mm, yyyy];
    SplitJoin(parts, '-');
    assert parts[1..] == [mm, yyyy] && parts[1..][1..] == [yyyy];
    assert Join([mm, yyyy], dash) == mm + dash + yyyy;
    assert Join(parts, dash) == dd + dash + (mm + dash + yyyy);
    assert dd + dash + (mm + dash + yyyy) == value;
    assert Split(value, '-') == parts;
    assert |value| > 0;
  }

  // ---------------------------------------------------------------- one row

  /**
   * The row being built. Each field is absent until a column sets it;
   * `description` starts empty, and `isRecurring` keeps its default `false`
   * unless a column writes its text there.
   */
  datatype Draft = Draft(title: Option<string>, amount: Option<JsNumber>, date: Option<string>,
                         txType: Option<ImportType>, category: Option<string>, description: string,
                         paymentMethod: Option<ImportPayment>, isRecurringText: Option<string>)

  const EmptyDraft: Draft := Draft(Option.None, Option.None, Option.None, Option.None, Option.None, "",
                                   Option.None, Option.None)

  /** A validated row, as sent to the bulk import. */
  datatype ImportRow = ImportRow(title: string, amount: real, date: string, txType: ImportType, category: string,
                                 description: string, paymentMethod: ImportPayment, isRecurring: bool)

  /** One mapped cell: amount, date, type and payment method are normalised; other fields take the text. */
  function ApplyCell(draft: Draft, field: string, value: string, toNumber: string -> JsNumber,
                     parse: string -> Option<DateTime>): (r: Checked<Draft>)
    requires forall s :: parse(s).Some? ==> Valid(parse(s).value)
  {
    if field == "amount" then Pass(draft.(amount := Some(toNumber(value))))
    else if field == "date" then
      match NormalizeDate(value, parse)
      case Pass(d) => Pass(draft.(date := Some(d)))
      case Fail(e) => Fail(e)
    else if field == "type" then
      match NormalizeType(value)
      case Pass(t) => Pass(draft.(txType := Some(t)))
      case Fail(e) => Fail(e)
    else if field == "paymentMethod" then
      match NormalizePaymentMethod(value)
      case Pass(p) => Pass(draft.(paymentMethod := Some(p)))
      case Fail(e) => Fail(e)
    else if field == "title" then Pass(draft.(title := Some(value)))
    else if field == "category" then Pass(draft.(category := Some(value)))
    else if field == "description" then Pass(draft.(description := value))
    else if field == "isRecurring" then Pass(draft.(isRecurringText := Some(value)))
    else Pass(draft)
  }

  /** The mappings applied in order to `draft`; the first normaliser that throws ends the row. */
  function DraftFrom(row: map<string, string>, mappings: seq<(string, string)>, draft: Draft,
                     toNumber: string -> JsNumber, parse: string -> Option<DateTime>): (r: Checked<Draft>)
    requires forall s :: parse(s).Some? ==> Valid(parse(s).value)
    decreases |mappings|
  {
    if mappings == [] then Pass(draft)
    else
      var (column, field) := mappings[0];
      if column !in row then DraftFrom(row, mappings[1..], draft, toNumber, parse)
      else
        match ApplyCell(draft, field, row[column], toNumber, parse)
        case Pass(next) => DraftFrom(row, mappings[1..], next, toNumber, parse)
        case Fail(e) => Fail(e)
  }

  /** Splitting the mappings after one more entry. */
  lemma DraftFromStep(row: map<string, string>, mappings: seq<(string, string)>, i: nat, draft: Draft,
                      toNumber: string -> JsNumber, parse: string -> Option<DateTime>)
    requires forall s :: parse(s).Some? ==> Valid(parse(s).value)
    requires i < |mappings|
    ensures DraftFrom(row, mappings[i..], draft, toNumber, parse)
            == var (column, field) := mappings[i];
               if column !in row then DraftFrom(row, mappings[i + 1..], draft, toNumber, parse)
               else match ApplyCell(draft, field, row[column], toNumber, parse)
                    case Pass(next) => DraftFrom(row, mappings[i + 1..], next, toNumber, parse)
                    case Fail(e) => Fail(e)
  {
    assert mappings[i..][1..] == mappings[i + 1..];
  }

  /** The row schema: title and category non-empty, a positive amount, every enum set, `isRecurring` a boolean. */
  function CheckSchema(d: Draft): (r: Checked<ImportRow>)
    ensures r.Pass? <==> d.title.Some? && d.title.value != "" && d.amount.Some? && d.amount.value.Finite?
                         && d.amount.value.value > 0.0 && d.date.Some? && d.txType.Some?
                         && d.category.Some? && d.category.value != "" && d.paymentMethod.Some?
                         && d.isRecurringText.None?
    ensures r.Pass? ==> r.value.amount == d.amount.value.value && !r.value.isRecurring
                        && r.value.description == d.description
    ensures r.Fail? ==> r.error == SchemaRejected
  {
    if d.title.Some? && d.title.value != "" && d.amount.Some? && d.amount.value.Finite?
       && d.amount.value.value > 0.0 && d.date.Some? && d.txType.Some?
       && d.category.Some? && d.category.value != "" && d.paymentMethod.Some? && d.isRecurringText.None?
    then Pass(ImportRow(d.title.value, d.amount.value.value, d.date.value, d.txType.value, d.category.value,
                        d.description, d.paymentMethod.value, false))
    else Fail(SchemaRejected)
  }

  /** One CSV row: its draft, then the schema. */
  function RowOf(row: map<string, string>, mappings: seq<(string, string)>, toNumber: string -> JsNumber,
                 parse: string -> Option<DateTime>): (r: Checked<ImportRow>)
    requires forall s :: parse(s).Some? ==> Valid(parse(s).value)
  {
    match DraftFrom(row, mappings, EmptyDraft, toNumber, parse)
    case Pass(d) => CheckSchema(d)
    case Fail(e) => Fail(e)
  }

  /** No column present in the row is mapped to `field`. */
  predicate NoColumnFor(row: map<string, string>, mappings: seq<(string, string)>, field: string) {
    forall k :: 0 <= k < |mappings| && mappings[k].0 in row ==> mappings[k].1 != field
  }

  /** The fields the row schema demands: title, amount, date, type, category and payment method. */
  const RequiredFields: set<string> := {"title", "amount", "date", "type", "category", "paymentMethod"}

  /**
   * A row in which no column is mapped to one of the fields the schema
   * demands never passes: the field keeps its empty default, and the schema
   * rejects it.
   */
  lemma RowNeedsRequiredColumns(row: map<string, string>, mappings: seq<(string, string)>, field: string,
                                toNumber: string -> JsNumber, parse: string -> Option<DateTime>)
    requires forall s :: parse(s).Some? ==> Valid(parse(s).value)
    requires field in RequiredFields && NoColumnFor(row, mappings, field)
    ensures RowOf(row, mappings, toNumber, parse).Fail?
  {
    DraftKeepsUnmapped(row, mappings, EmptyDraft, field, toNumber, parse);
  }

  /** The draft field that a mapping target names is the same in `a` and `b`; a target that is no field always is. */
  predicate SameField(a: Draft, b: Draft, field: string) {
    if field == "amount" then a.amount == b.amount
    else if field == "date" then a.date == b.date
    else if field == "type" then a.txType == b.txType
    else if field == "paymentMethod" then a.paymentMethod == b.paymentMethod
    else if field == "title" then a.title == b.title
    else if field == "category" then a.category == b.category
    else if field == "description" then a.description == b.description
    else if field == "isRecurring" then a.isRecurringText == b.isRecurringText
    else true
  }

  /** A cell mapped to another target leaves `field` as it was. */
  lemma ApplyCellKeeps(draft: Draft, target: string, value: string, field: string, toNumber: string -> JsNumber,
                       parse: string -> Option<DateTime>)
    requires forall s :: parse(s).Some? ==> Valid(parse(s).value)
    requires target != field
    ensures ApplyCell(draft, target, value, toNumber, parse).Pass? ==>
              SameField(ApplyCell(draft, target, value, toNumber, parse).value, draft, field)
  {
  }

  /** A field that no present column maps to keeps its value in the draft. */
  lemma {:induction false} DraftKeepsUnmapped(row: map<string, string>, mappings: seq<(string, string)>, draft: Draft,
                                              field: string, toNumber: string -> JsNumber,
                                              parse: string -> Option<DateTime>)
    requires forall s :: parse(s).Some? ==> Valid(parse(s).value)
    requires NoColumnFor(row, mappings, field)
    ensures DraftFrom(row, mappings, draft, toNumber, parse).Pass? ==>
              SameField(DraftFrom(row, mappings, draft, toNumber, parse).value, draft, field)
    decreases |mappings|
  {
    if mappings != [] {
      var (column, target) := mappings[0];
      assert NoColumnFor(row, mappings[1..], field) by {
        forall k | 0 <= k < |mappings[1..]| && mappings[1..][k].0 in row
          ensures mappings[1..][k].1 != field
        {
          assert mappings[1..][k] == mappings[k + 1];
        }
      }
      if column !in row {
        DraftKeepsUnmapped(row, mappings[1..], draft, field, toNumber, parse);
      } else {
        ApplyCellKeeps(draft, target, row[column], field, toNumber, parse);
        match ApplyCell(draft, target, row[column], toNumber, parse)
        case Pass(next) =>
          DraftKeepsUnmapped(row, mappings[1..], next, field, toNumber, parse);
        case Fail(_) =>
      }
    }
  }

  // ---------------------------------------------------------------- all rows

  /** The outcome of every row, in order. */
  function Results(rows: seq<map<string, string>>, mappings: seq<(string, string)>, toNumber: string -> JsNumber,
                   parse: string -> Option<DateTime>): (rs: seq<Checked<ImportRow>>)
    requires forall s :: parse(s).Some? ==> Valid(parse(s).value)
    ensures |rs| == |rows|
    ensures forall i :: 0 <= i < |rows| ==> rs[i] == RowOf(rows[i], mappings, toNumber, parse)
  {
    seq(|rows|, i requires 0 <= i < |rows| => RowOf(rows[i], mappings, toNumber, parse))
  }

  /** The rows that passed, in input order. */
  function ValidRows(rs: seq<Checked<ImportRow>>): (r: seq<ImportRow>)
  {
    if rs == [] then []
    else
      var prefix := ValidRows(rs[..|rs| - 1]);
      match rs[|rs| - 1]
      case Pass(t) => prefix + [t]
      case Fail(_) => prefix
  }

  /** Exactly the passed rows, in order: all of them when none failed, fewer when some did. */
  lemma {:induction false} ValidRowsMeaning(rs: seq<Checked<ImportRow>>)
    ensures |ValidRows(rs)| <= |rs|
    ensures forall t :: t in ValidRows(rs) <==> Pass(t) in rs
    ensures (forall i :: 0 <= i < |rs| ==> rs[i].Pass?) ==>
              |ValidRows(rs)| == |rs| && forall i :: 0 <= i < |rs| ==> rs[i] == Pass(ValidRows(rs)[i])
    ensures (exists i :: 0 <= i < |rs| && rs[i].Fail?) ==> |ValidRows(rs)| < |rs|
  {
    if rs != [] {
      var init := rs[..|rs| - 1];
      var last := rs[|rs| - 1];
      ValidRowsMeaning(init);
      assert rs == init + [last];
      if (exists i :: 0 <= i < |rs| && rs[i].Fail?) && last.Pass? {
        var i :| 0 <= i < |rs| && rs[i].Fail?;
        assert init[i].Fail?;
      }
      if forall i :: 0 <= i < |rs| ==> rs[i].Pass? {
        assert forall i :: 0 <= i < |init| ==> init[i].Pass? by {
          forall i | 0 <= i < |init| ensures init[i].Pass? { assert init[i] == rs[i]; }
        }
      }
    }
  }

  /** How many rows passed. */
  function PassCount(rs: seq<Checked<ImportRow>>): nat {
    if rs == [] then 0 else PassCount(rs[..|rs| - 1]) + (if rs[|rs| - 1].Pass? then 1 else 0)
  }

  /**
   * The valid rows are the passed rows in input order: there is one per
   * passed row, and the row that passed at index `i` sits at the position
   * given by the number of rows that passed before it. Those positions
   * grow with `i` (`PassCountGrows`), so they fill the valid rows exactly,
   * in input order.
   */
  lemma {:induction false} ValidRowsInOrder(rs: seq<Checked<ImportRow>>)
    ensures |ValidRows(rs)| == PassCount(rs)
    ensures forall i :: 0 <= i < |rs| && rs[i].Pass? ==>
              PassCount(rs[..i]) < |ValidRows(rs)| && ValidRows(rs)[PassCount(rs[..i])] == rs[i].value
  {
    if rs != [] {
      var init := rs[..|rs| - 1];
      var last := rs[|rs| - 1];
      ValidRowsInOrder(init);
      var v := ValidRows(rs);
      var w := ValidRows(init);
      assert v == if last.Pass? then w + [last.value] else w;
      forall i | 0 <= i < |rs| && rs[i].Pass?
        ensures PassCount(rs[..i]) < |v| && v[PassCount(rs[..i])] == rs[i].value
      {
        if i < |init| {
          assert rs[..i] == init[..i] && rs[i] == init[i];
        } else {
          assert rs[..i] == init;
        }
      }
    }
  }

  /** A row that passed before another has fewer passed rows before it. */
  lemma {:induction false} PassCountGrows(rs: seq<Checked<ImportRow>>, i: nat, j: nat)
    requires i < j <= |rs| && rs[i].Pass?
    ensures PassCount(rs[..i]) < PassCount(rs[..j])
    decreases j
  {
    assert rs[..j][..j - 1] == rs[..j - 1];
    if j - 1 > i {
      PassCountGrows(rs, i, j - 1);
    } else {
      assert rs[..j - 1] == rs[..i];
    }
  }

  lemma ValidRowsStep(rs: seq<Checked<ImportRow>>, x: Checked<ImportRow>)
    ensures ValidRows(rs + [x]) == if x.Pass? then ValidRows(rs) + [x.value] else ValidRows(rs)
  {
    assert (rs + [x])[..|rs|] == rs;
  }

  lemma RowErrorsStep(rs: seq<Checked<ImportRow>>, x: Checked<ImportRow>)
    ensures RowErrors(rs + [x]) == if x.Fail? then RowErrors(rs)[|rs| + 1 := x.error] else RowErrors(rs)
  {
    assert (rs + [x])[..|rs|] == rs;
  }

  /** The state of the loop in `BuildTransactions` after the first `k` rows. */
  predicate BuiltUpTo(rs: seq<Checked<ImportRow>>, k: nat, transactions: seq<ImportRow>, hasValidationErrors: bool,
                      errors: map<nat, RowError>)
  {
    k <= |rs| && transactions == ValidRows(rs[..k]) && errors == RowErrors(rs[..k])
    && (hasValidationErrors <==> exists i :: 0 <= i < k && rs[i].Fail?)
  }

  /** A row that passes is appended to the built rows. */
  lemma PassStep(rs: seq<Checked<ImportRow>>, k: nat, transactions: seq<ImportRow>, hasValidationErrors: bool,
                 errors: map<nat, RowError>)
    requires BuiltUpTo(rs, k, transactions, hasValidationErrors, errors)
    requires k < |rs| && rs[k].Pass?
    ensures BuiltUpTo(rs, k + 1, transactions + [rs[k].value], hasValidationErrors, errors)
  {
    assert rs[..k + 1] == rs[..k] + [rs[k]];
    ValidRowsStep(rs[..k], rs[k]);
    RowErrorsStep(rs[..k], rs[k]);
  }

  /** A row that fails records its error under its row number. */
  lemma FailStep(rs: seq<Checked<ImportRow>>, k: nat, transactions: seq<ImportRow>, hasValidationErrors: bool,
                 errors: map<nat, RowError>)
    requires BuiltUpTo(rs, k, transactions, hasValidationErrors, errors)
    requires k < |rs| && rs[k].Fail?
    ensures BuiltUpTo(rs, k + 1, transactions, true, errors[k + 1 := rs[k].error])
  {
    assert rs[..k + 1] == rs[..k] + [rs[k]];
    ValidRowsStep(rs[..k], rs[k]);
    RowErrorsStep(rs[..k], rs[k]);
  }

  /** After the last row, the loop's variables are the row specification's. */
  lemma BuiltAll(rs: seq<Checked<ImportRow>>, transactions: seq<ImportRow>, hasValidationErrors: bool,
                 errors: map<nat, RowError>)
    requires BuiltUpTo(rs, |rs|, transactions, hasValidationErrors, errors)
    ensures transactions == ValidRows(rs) && errors == RowErrors(rs)
    ensures hasValidationErrors <==> exists i :: 0 <= i < |rs| && rs[i].Fail?
    ensures hasValidationErrors <==> exists n :: n in errors
  {
    assert rs[..|rs|] == rs;
    ErrorsMarkFailures(rs);
  }

  /** The error of every failed row, keyed by its one-based row number. */
  function RowErrors(rs: seq<Checked<ImportRow>>): (m: map<nat, RowError>)
  {
    if rs == [] then map[]
    else
      var prefix := RowErrors(rs[..|rs| - 1]);
      match rs[|rs| - 1]
      case Fail(e) => prefix[|rs| := e]
      case Pass(_) => prefix
  }

  /** Row number `n` has an error exactly when row `n` failed, and it is that row's error. */
  lemma {:induction false} RowErrorsAt(rs: seq<Checked<ImportRow>>, n: nat)
    ensures n in RowErrors(rs) <==> 1 <= n <= |rs| && rs[n - 1].Fail?
    ensures n in RowErrors(rs) ==> RowErrors(rs)[n] == rs[n - 1].error
  {
    if rs != [] {
      var init := rs[..|rs| - 1];
      RowErrorsAt(init, n);
      if 1 <= n < |rs| {
        assert init[n - 1] == rs[n - 1];
      }
    }
  }

  /** Some row number has an error exactly when some row failed. */
  lemma ErrorsMarkFailures(rs: seq<Checked<ImportRow>>)
    ensures (exists n :: n in RowErrors(rs)) <==> exists i :: 0 <= i < |rs| && rs[i].Fail?
  {
    if exists i :: 0 <= i < |rs| && rs[i].Fail? {
      var i :| 0 <= i < |rs| && rs[i].Fail?;
      RowErrorsAt(rs, i + 1);
    }
    if exists n :: n in RowErrors(rs) {
      var n :| n in RowErrors(rs);
      RowErrorsAt(rs, n);
    }
  }

  /**
   * `buildTransactions`: every row is built and checked in turn; a row that
   * fails is left out and its error recorded under its row number.
   */
  method BuildTransactions(rows: seq<map<string, string>>, mappings: seq<(string, string)>,
                           toNumber: string -> JsNumber, parse: string -> Option<DateTime>)
    returns (transactions: seq<ImportRow>, hasValidationErrors: bool, errors: map<nat, RowError>)
    requires forall s :: parse(s).Some? ==> Valid(parse(s).value)
    ensures var rs := Results(rows, mappings, toNumber, parse);
            transactions == ValidRows(rs) && errors == RowErrors(rs)
    ensures hasValidationErrors <==> exists i :: 0 <= i < |rows| && RowOf(rows[i], mappings, toNumber, parse).Fail?
    ensures hasValidationErrors <==> exists n :: n in errors
  {
    ghost var rs := Results(rows, mappings, toNumber, parse);
    transactions := [];
    hasValidationErrors := false;
    errors := map[];
    var index := 0;
    while index < |rows|
      invariant index <= |rows|
      invariant BuiltUpTo(rs, index, transactions, hasValidationErrors, errors)
    {
      var result := BuildRow(rows[index], mappings, toNumber, parse);
      assert result == rs[index];
      if result.Fail? {
        FailStep(rs, index, transactions, hasValidationErrors, errors);
        hasValidationErrors := true;
        errors := errors[index + 1 := result.error];
      } else {
        PassStep(rs, index, transactions, hasValidationErrors, errors);
        transactions := transactions + [result.value];
      }
      index := index + 1;
    }
    BuiltAll(rs, transactions, hasValidationErrors, errors);
  }

  /** The draft of one row: the mapping loop, then the schema. */
  method BuildRow(row: map<string, string>, mappings: seq<(string, string)>, toNumber: string -> JsNumber,
                  parse: string -> Option<DateTime>) returns (r: Checked<ImportRow>)
    requires forall s :: parse(s).Some? ==> Valid(parse(s).value)
    ensures r == RowOf(row, mappings, toNumber, parse)
  {
    var draft := EmptyDraft;
    var k := 0;
    while k < |mappings|
      invariant 0 <= k <= |mappings|
      invariant DraftFrom(row, mappings, EmptyDraft, toNumber, parse) == DraftFrom(row, mappings[k..], draft, toNumber, parse)
    {
      DraftFromStep(row, mappings, k, draft, toNumber, parse);
      var (column, field) := mappings[k];
      if column in row {
        var applied := ApplyCell(draft, field, row[column], toNumber, parse);
        if applied.Fail? {
          return Fail(applied.error);
        }
        draft := applied.value;
      }
      k := k + 1;
    }
    return CheckSchema(draft);
  }

  // ---------------------------------------------------------------- import guard and progress

  /** What `handleImport` does with the built rows. */
  datatype ImportDecision = StopOnErrors | TooMany(message: string) | SendImport(transactions: seq<ImportRow>)

  /** No request on any row error, nor above the import limit; otherwise every built row is sent. */
  function DecideImport(transactions: seq<ImportRow>, hasValidationErrors: bool, limit: nat): (d: ImportDecision)
    ensures d.SendImport? <==> !hasValidationErrors && |transactions| <= limit
    ensures d.SendImport? ==> d.transactions == transactions
    ensures d.TooMany? <==> !hasValidationErrors && |transactions| > limit
  {
    if hasValidationErrors then StopOnErrors
    else if |transactions| > limit then TooMany("Cannot import more than " + NatToString(limit) + " transactions")
    else SendImport(transactions)
  }

  /** What is sent is exactly the CSV's rows, each validated, in order. */
  lemma SentImportHasEveryRow(rows: seq<map<string, string>>, mappings: seq<(string, string)>,
                              toNumber: string -> JsNumber, parse: string -> Option<DateTime>, limit: nat)
    requires forall s :: parse(s).Some? ==> Valid(parse(s).value)
    ensures var rs := Results(rows, mappings, toNumber, parse);
            var d := DecideImport(ValidRows(rs), exists i :: 0 <= i < |rows| && rs[i].Fail?, limit);
            d.SendImport? ==> |d.transactions| == |rows| <= limit
                              && forall i :: 0 <= i < |rows| ==> RowOf(rows[i], mappings, toNumber, parse) == Pass(d.transactions[i])
  {
    ValidRowsMeaning(Results(rows, mappings, toNumber, parse));
  }

  /** One timer tick of the simulated progress: ten more, capped at 90. */
  function Tick(p: nat): (q: nat)
    ensures p <= 90 ==> p <= q <= 90
    ensures q <= p + 10
  {
    if p + 10 < 90 then p + 10 else 90
  }

  /** The progress after `n` ticks, starting from 10. */
  function ProgressAfter(n: nat): nat {
    if n == 0 then 10 else Tick(ProgressAfter(n - 1))
  }

  /** The progress rises by ten per tick, never passes 90 before completion and never falls. */
  lemma {:induction false} ProgressClosedForm(n: nat)
    ensures ProgressAfter(n) == if 10 + 10 * n < 90 then 10 + 10 * n else 90
    ensures ProgressAfter(n) <= ProgressAfter(n + 1) <= 90
  {
    if n > 0 {
      ProgressClosedForm(n - 1);
    }
  }
}
