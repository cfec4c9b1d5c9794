/**
 * The schedule and normalisation helpers of backend/src/utils/helper.ts.
 * "Now" is a parameter wherever the code reads the clock.
 */
module Helper {
  import opened Wrappers
  import opened Text
  import opened CivilTime
  import opened TransactionModel

  // ---------------------------------------------------------------- report schedule

  /** The instant the next report is computed from: `min(lastSentDate ?? now, now)`. */
  function ReportReference(lastSentDate: Option<DateTime>, now: DateTime): (r: DateTime)
    ensures AtOrBefore(r, now)
    ensures lastSentDate.None? ==> r == now
    ensures lastSentDate.Some? && AtOrBefore(lastSentDate.value, now) ==> r == lastSentDate.value
  {
    Min(lastSentDate.GetOr(now), now)
  }

  /**
   * `calculateNextReportDate`: 00:00:00.000 UTC on the first day of the month
   * after the reference instant.
   */
  function CalculateNextReportDate(lastSentDate: Option<DateTime>, now: DateTime): (r: DateTime)
    requires Valid(now) && (lastSentDate.Some? ==> Valid(lastSentDate.value))
    ensures Valid(r) && r.day == 1 && r.ms == 0
    ensures var ref := ReportReference(lastSentDate, now);
            r.year * 12 + r.month == ref.year * 12 + ref.month + 1
            && Before(ref, r)
  {
    var ref := ReportReference(lastSentDate, now);
    var ym := ShiftMonth(ref.year, ref.month, 1);
    DateTime(ym.0, ym.1, 1, 0)
  }

  /** December rolls over to January of the following year; other months go to the next month of the same year. */
  lemma NextReportDateRollover(lastSentDate: Option<DateTime>, now: DateTime)
    requires Valid(now) && (lastSentDate.Some? ==> Valid(lastSentDate.value))
    ensures var ref := ReportReference(lastSentDate, now);
            var r := CalculateNextReportDate(lastSentDate, now);
            (ref.month == 12 ==> r.year == ref.year + 1 && r.month == 1)
            && (ref.month < 12 ==> r.year == ref.year && r.month == ref.month + 1)
  {
  }

  /** A `lastSentDate` in the future is clamped to now: the result is the one for `now`. */
  lemma NextReportDateClampsFuture(lastSentDate: DateTime, now: DateTime)
    requires Valid(now) && Valid(lastSentDate) && Before(now, lastSentDate)
    ensures CalculateNextReportDate(Some(lastSentDate), now) == CalculateNextReportDate(Option.None, now)
    ensures Before(now, CalculateNextReportDate(Some(lastSentDate), now))
  {
    OrderTotal(now, lastSentDate);
  }

  // ---------------------------------------------------------------- recurring interval

  /** The enum value spelled exactly `key` (`Object.values(...).includes(v)`). */
  function FindInterval(candidates: seq<RecurringInterval>, key: string): (r: Option<RecurringInterval>)
    ensures r.Some? ==> r.value in candidates && r.value.Value() == key
    ensures r.None? ==> forall c :: c in candidates ==> c.Value() != key
  {
    if candidates == [] then Option.None
    else if candidates[0].Value() == key then Some(candidates[0])
    else FindInterval(candidates[1..], key)
  }

  function FindIntervalIgnoreCase(candidates: seq<RecurringInterval>, key: string): (r: Option<RecurringInterval>)
    ensures r.Some? ==> r.value in candidates && ToUpper(r.value.Value()) == key
    ensures r.None? ==> forall c :: c in candidates ==> ToUpper(c.Value()) != key
  {
    if candidates == [] then Option.None
    else if ToUpper(candidates[0].Value()) == key then Some(candidates[0])
    else FindIntervalIgnoreCase(candidates[1..], key)
  }

  /**
   * `normalizeRecurringInterval`: null/undefined give undefined; an exact enum
   * value is returned as it is; otherwise the enum value equal to the input
   * up to case, or undefined.
   */
  function NormalizeRecurringInterval(v: Option<string>): (r: Option<RecurringInterval>)
    ensures v.None? ==> r.None?
    ensures v.Some? ==> (r.Some? <==> exists i :: i in AllIntervals && ToUpper(i.Value()) == ToUpper(v.value))
    ensures v.Some? && r.Some? ==> ToUpper(r.value.Value()) == ToUpper(v.value)
  {
    if v.None? then Option.None
    else
      match FindInterval(AllIntervals, v.value)
      case Some(i) => Some(i)
      case None => FindIntervalIgnoreCase(AllIntervals, ToUpper(v.value))
  }

  /** Every stored interval value normalises to itself. */
  lemma NormalizeExactValue(i: RecurringInterval)
    ensures NormalizeRecurringInterval(Some(i.Value())) == Some(i)
  {
    match i
    case NONE => assert FindInterval(AllIntervals, "none") == Some(NONE);
    case DAILY => assert FindInterval(AllIntervals, "daily") == Some(DAILY);
    case WEEKLY => assert FindInterval(AllIntervals, "weekly") == Some(WEEKLY);
    case MONTHLY => assert FindInterval(AllIntervals, "monthly") == Some(MONTHLY);
    case YEARLY => assert FindInterval(AllIntervals, "yearly") == Some(YEARLY);
  }

  /** The upper-case spelling of each interval. */
  function UpperName(i: RecurringInterval): string {
    match i
    case NONE => "NONE"
    case DAILY => "DAILY"
    case WEEKLY => "WEEKLY"
    case MONTHLY => "MONTHLY"
    case YEARLY => "YEARLY"
  }

  lemma UpperValue(i: RecurringInterval)
    ensures ToUpper(i.Value()) == UpperName(i)
  {
    match i
    case NONE => assert ToUpper("none") == "NONE";
    case DAILY => assert ToUpper("daily") == "DAILY";
    case WEEKLY => assert ToUpper("weekly") == "WEEKLY";
    case MONTHLY => assert ToUpper("monthly") == "MONTHLY";
    case YEARLY => assert ToUpper("yearly") == "YEARLY";
  }

  /** The enumeration's values stay distinct when upper-cased. */
  lemma UpperValuesDistinct(a: RecurringInterval, b: RecurringInterval)
    requires ToUpper(a.Value()) == ToUpper(b.Value())
    ensures a == b
  {
    UpperValue(a);
    UpperValue(b);
  }

  /** The exact-value shortcut agrees with the case-insensitive search. */
  lemma NormalizeIsSearch(s: string)
    ensures NormalizeRecurringInterval(Some(s)) == FindIntervalIgnoreCase(AllIntervals, ToUpper(s))
  {
    var f := FindIntervalIgnoreCase(AllIntervals, ToUpper(s));
    match FindInterval(AllIntervals, s)
    case Some(i) =>
      assert f.Some?;
      UpperValuesDistinct(f.value, i);
    case None =>
  }

  /** Interval matching ignores case: "DAILY", "Daily" and "daily" all normalise alike. */
  lemma NormalizeIgnoresCase(s: string)
    ensures NormalizeRecurringInterval(Some(s)) == NormalizeRecurringInterval(Some(ToUpper(s)))
    ensures NormalizeRecurringInterval(Some(s)) == NormalizeRecurringInterval(Some(ToLower(s)))
  {
    CaseComposition(s);
    NormalizeIsSearch(s);
    NormalizeIsSearch(ToUpper(s));
    NormalizeIsSearch(ToLower(s));
  }

  /**
   * `calculateNextOccurrence` (helper version): truncate to midnight, then add
   * one day, week, calendar month (clamped) or calendar year (clamped);
   * `none`, a missing or an unrecognised interval leave the truncated date.
   */
  function CalculateNextOccurrence(date: DateTime, recurringInterval: Option<string>): (r: DateTime)
    requires Valid(date)
    ensures Valid(r) && r.ms == 0
  {
    var base := StartOfDay(date);
    match NormalizeRecurringInterval(recurringInterval)
    case Some(DAILY) => AddDays(base, 1)
    case Some(WEEKLY) => AddDays(base, 7)
    case Some(MONTHLY) => AddMonthsClamp(base, 1)
    case Some(YEARLY) => AddYearsClamp(base, 1)
    case _ => base
  }

  /**
   * The four real intervals move strictly past the truncated date, by exactly
   * 1 day, 7 days, one clamped month or one clamped year; any other value is a
   * no-op on the truncated date.
   */
  lemma NextOccurrenceSteps(date: DateTime, interval: Option<string>)
    requires Valid(date)
    ensures var base := StartOfDay(date);
            var n := NormalizeRecurringInterval(interval);
            var r := CalculateNextOccurrence(date, interval);
            (n == Some(DAILY) ==> r == AddDays(base, 1))
            && (n == Some(WEEKLY) ==> r == AddDays(base, 7))
            && (n == Some(MONTHLY) ==> r == AddMonthsClamp(base, 1))
            && (n == Some(YEARLY) ==> r == AddYearsClamp(base, 1) && r.year == date.year + 1 && r.month == date.month)
            && (n.Some? && n.value != NONE ==> Before(base, r))
            && (n.None? || n == Some(NONE) ==> r == base)
  {
    var base := StartOfDay(date);
    assert Valid(base);
    match NormalizeRecurringInterval(interval)
    case Some(DAILY) => AddDaysForward(base, 1);
    case Some(WEEKLY) => AddDaysForward(base, 7);
    case Some(MONTHLY) => AddMonthClampForward(base);
    case Some(YEARLY) =>
    case _ =>
  }

  /** date-fns clamps: a monthly schedule from 31 January lands on 28 February in a common year. */
  lemma MonthlyClampExample()
    ensures CalculateNextOccurrence(DateTime(2025, 1, 31, 0), Some("monthly")) == DateTime(2025, 2, 28, 0)
  {
    NormalizeExactValue(MONTHLY);
    assert AddMonthsClamp(DateTime(2025, 1, 31, 0), 1) == DateTime(2025, 2, 28, 0);
  }

  // ---------------------------------------------------------------- strings

  /** `capitalizeFirstLetter`: first character upper-cased, all others lower-cased. */
  function CapitalizeFirstLetter(s: string): (r: string)
    ensures |r| == |s|
    ensures s != [] ==> r[0] == UpperChar(s[0])
    ensures forall i :: 1 <= i < |s| ==> r[i] == LowerChar(s[i])
  {
    if s == [] then "" else [UpperChar(s[0])] + ToLower(s[1..])
  }

  /** A query-string value as Express hands it over. */
  datatype QueryValue =
    | Undefined
    | Null
    | Str(s: string)
    | Num(n: int)
    | Bool(b: bool)
    | Arr(items: seq<QueryValue>)
    | Obj

  /** The string `normalizeDateRangePreset` looks at: the first element of an array, numbers and booleans stringified. */
  function PresetText(value: QueryValue): (r: Option<string>)
    ensures value.Null? || value.Undefined? || value.Obj? ==> r.None?
    ensures value.Str? ==> r == Some(value.s)
    ensures value.Num? ==> r == Some(IntToString(value.n))
    ensures value.Bool? ==> r == Some(if value.b then "true" else "false")
    ensures value.Arr? && value.items != [] && !value.items[0].Arr? ==> r == PresetText(value.items[0])
  {
    var raw := if value.Arr? then (if value.items == [] then Undefined else value.items[0]) else value;
    match raw
    case Str(s) => Some(s)
    case Num(n) => Some(IntToString(n))
    case Bool(b) => Some(if b then "true" else "false")
    case _ => Option.None
  }

  function FindPreset(presets: seq<string>, key: string): (r: Option<string>)
    ensures r.Some? ==> r.value in presets && ToLower(r.value) == key
    ensures r.None? ==> forall p :: p in presets ==> ToLower(p) != key
  {
    if presets == [] then Option.None
    else if ToLower(presets[0]) == key then Some(presets[0])
    else FindPreset(presets[1..], key)
  }

  /**
   * `normalizeDateRangePreset`: the preset (out of `presets`, the values of
   * the date-range enumeration) equal to the trimmed, lower-cased text,
   * compared lower-cased; undefined when there is no text or no match.
   */
  function NormalizeDateRangePreset(value: QueryValue, presets: seq<string>): (r: Option<string>)
    ensures value.Null? || value.Undefined? || value.Obj? ==> r.None?
    ensures r.Some? ==> r.value in presets && PresetText(value).Some?
                        && ToLower(r.value) == ToLower(Trim(PresetText(value).value))
    ensures r.None? && PresetText(value).Some? && PresetText(value).value != "" ==>
              forall p :: p in presets ==> ToLower(p) != ToLower(Trim(PresetText(value).value))
  {
    match PresetText(value)
    case None => Option.None
    case Some(s) =>
      if s == "" then Option.None
      else FindPreset(presets, ToLower(Trim(s)))
  }

  /** Only the first element of an array is looked at. */
  lemma PresetArrayUsesFirst(v: QueryValue, rest: seq<QueryValue>, presets: seq<string>)
    requires !v.Arr?
    ensures NormalizeDateRangePreset(Arr([v] + rest), presets) == NormalizeDateRangePreset(v, presets)
  {
    assert ([v] + rest)[0] == v;
    assert PresetText(Arr([v] + rest)) == PresetText(v);
  }

  lemma {:induction false} TrimStartUpper(s: string)
    ensures TrimStart(ToUpper(s)) == ToUpper(TrimStart(s))
  {
    if s != [] {
      assert ToUpper(s)[1..] == ToUpper(s[1..]);
      assert IsWhitespace(ToUpper(s)[0]) == IsWhitespace(s[0]);
      if IsWhitespace(s[0]) {
        TrimStartUpper(s[1..]);
      }
    }
  }

  lemma {:induction false} TrimEndUpper(s: string)
    ensures TrimEnd(ToUpper(s)) == ToUpper(TrimEnd(s))
  {
    if s != [] {
      assert ToUpper(s)[..|s| - 1] == ToUpper(s[..|s| - 1]);
      assert IsWhitespace(ToUpper(s)[|s| - 1]) == IsWhitespace(s[|s| - 1]);
      if IsWhitespace(s[|s| - 1]) {
        TrimEndUpper(s[..|s| - 1]);
      }
    }
  }

  /** Presets match whatever the case of the query text: "LAST30DAYS" finds what "last30days" finds. */
  lemma PresetIgnoresCase(s: string, presets: seq<string>)
    ensures NormalizeDateRangePreset(Str(ToUpper(s)), presets) == NormalizeDateRangePreset(Str(s), presets)
  {
    TrimStartUpper(s);
    TrimEndUpper(TrimStart(s));
    CaseComposition(Trim(s));
  }
}
