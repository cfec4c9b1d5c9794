/**
 * The report service of backend/src/services/report.service.ts: the monthly
 * aggregation behind `generateReportService`, the savings rate, the
 * deterministic fallback insights, the retry loop around the AI call, the
 * insight generator that never fails, and the `nextReportDate` rule of
 * `updateReportSettingService`.
 */
module ReportService {
  import opened Wrappers
  import opened Text
  import opened CivilTime
  import opened TransactionModel
  import opened ReportModel
  import opened Sorting
  import FormatCurrency
  import Helper

  // ---------------------------------------------------------------- aggregation

  /** The `$match` stage: dated within [from, to], and the user's when a user filter applies. */
  predicate Matches(t: Transaction, userFilter: Option<nat>, from: DateTime, to: DateTime) {
    AtOrBefore(from, t.date) && AtOrBefore(t.date, to) && (userFilter.Some? ==> t.userId == userFilter.value)
  }

  /** The matched transactions, in collection order. */
  function Matching(txs: seq<Transaction>, userFilter: Option<nat>, from: DateTime, to: DateTime): (r: seq<Transaction>)
    ensures forall t :: t in r ==> t in txs && Matches(t, userFilter, from, to)
    ensures forall t :: t in txs && Matches(t, userFilter, from, to) ==> t in r
  {
    if txs == [] then []
    else
      var rest := Matching(txs[..|txs| - 1], userFilter, from, to);
      var last := txs[|txs| - 1];
      assert txs == txs[..|txs| - 1] + [last];
      if Matches(last, userFilter, from, to) then rest + [last] else rest
  }

  function Abs(x: int): nat {
    if x < 0 then -x else x
  }

  /** `$sum` of `$abs: "$amount"` over the records of one type (in paise). */
  function TypeTotal(ms: seq<Transaction>, ty: TransactionType): nat {
    if ms == [] then 0
    else TypeTotal(ms[..|ms| - 1], ty) + (if ms[|ms| - 1].txType == ty then Abs(ms[|ms| - 1].amount) else 0)
  }

  /** The `$group` total of one expense category (in paise). */
  function CategoryTotal(ms: seq<Transaction>, c: string): nat {
    if ms == [] then 0
    else
      var last := ms[|ms| - 1];
      CategoryTotal(ms[..|ms| - 1], c) + (if last.txType == EXPENSE && last.category == c then Abs(last.amount) else 0)
  }

  predicate Distinct(cs: seq<string>) {
    forall i, j :: 0 <= i < j < |cs| ==> cs[i] != cs[j]
  }

  predicate IsExpenseCategory(ms: seq<Transaction>, c: string) {
    exists i :: 0 <= i < |ms| && ms[i].txType == EXPENSE && ms[i].category == c
  }

  /** The `$group` keys of the expense records: each category once, in order of first appearance. */
  function Categories(ms: seq<Transaction>): (r: seq<string>)
    ensures Distinct(r)
    ensures forall c :: c in r <==> IsExpenseCategory(ms, c)
  {
    if ms == [] then []
    else
      var p := ms[..|ms| - 1];
      var last := ms[|ms| - 1];
      var rest := Categories(p);
      assert forall c :: IsExpenseCategory(p, c) ==> IsExpenseCategory(ms, c) by {
        forall c | IsExpenseCategory(p, c) ensures IsExpenseCategory(ms, c) {
          var i :| 0 <= i < |p| && p[i].txType == EXPENSE && p[i].category == c;
          assert ms[i] == p[i];
        }
      }
      assert forall c :: IsExpenseCategory(ms, c) ==> IsExpenseCategory(p, c) || (last.txType == EXPENSE && last.category == c) by {
        forall c | IsExpenseCategory(ms, c)
          ensures IsExpenseCategory(p, c) || (last.txType == EXPENSE && last.category == c)
        {
          var i :| 0 <= i < |ms| && ms[i].txType == EXPENSE && ms[i].category == c;
          if i < |p| { assert p[i] == ms[i]; }
        }
      }
      if last.txType == EXPENSE && last.category !in rest then
        assert IsExpenseCategory(ms, last.category) by { assert ms[|ms| - 1] == last; }
        rest + [last.category]
      else rest
  }

  /** The sum of the category totals of `cs`. */
  function SumTotals(ms: seq<Transaction>, cs: seq<string>): nat {
    if cs == [] then 0 else SumTotals(ms, cs[..|cs| - 1]) + CategoryTotal(ms, cs[|cs| - 1])
  }

  lemma {:induction false} SumTotalsExtend(p: seq<Transaction>, x: Transaction, cs: seq<string>)
    requires Distinct(cs)
    ensures SumTotals(p + [x], cs)
            == SumTotals(p, cs) + (if x.txType == EXPENSE && x.category in cs then Abs(x.amount) else 0)
  {
    assert (p + [x])[..|p|] == p;
    if cs != [] {
      var init := cs[..|cs| - 1];
      assert Distinct(init);
      SumTotalsExtend(p, x, init);
      assert cs == init + [cs[|cs| - 1]];
      assert x.category in cs <==> x.category in init || x.category == cs[|cs| - 1];
    }
  }

  lemma {:induction false} CategoryTotalAbsent(ms: seq<Transaction>, c: string)
    requires !IsExpenseCategory(ms, c)
    ensures CategoryTotal(ms, c) == 0
  {
    if ms != [] {
      var p := ms[..|ms| - 1];
      forall i | 0 <= i < |p|
        ensures !(p[i].txType == EXPENSE && p[i].category == c)
      {
        assert p[i] == ms[i];
      }
      CategoryTotalAbsent(p, c);
    }
  }

  /** The category totals add up to the expense total, so the percentages of all categories add up to about 100. */
  lemma {:induction false} CategoryTotalsSumToExpenses(ms: seq<Transaction>)
    ensures SumTotals(ms, Categories(ms)) == TypeTotal(ms, EXPENSE)
  {
    if ms != [] {
      var p := ms[..|ms| - 1];
      var x := ms[|ms| - 1];
      assert ms == p + [x];
      CategoryTotalsSumToExpenses(p);
      var cp := Categories(p);
      SumTotalsExtend(p, x, cp);
      if x.txType == EXPENSE && x.category !in cp {
        CategoryTotalAbsent(p, x.category);
        assert Categories(ms) == cp + [x.category];
        assert (cp + [x.category])[..|cp|] == cp;
      }
    }
  }

  /** No category's total exceeds the expense total. */
  lemma {:induction false} CategoryTotalBounded(ms: seq<Transaction>, c: string)
    ensures CategoryTotal(ms, c) <= TypeTotal(ms, EXPENSE)
  {
    if ms != [] {
      CategoryTotalBounded(ms[..|ms| - 1], c);
    }
  }

  datatype CategoryGroup = CategoryGroup(name: string, total: nat)

  function GroupTotal(g: CategoryGroup): real {
    g.total as real
  }

  /** The `$group` stage's output, one group per expense category. */
  function Groups(ms: seq<Transaction>): (r: seq<CategoryGroup>)
    ensures |r| == |Categories(ms)|
    ensures forall i :: 0 <= i < |r| ==> r[i] == CategoryGroup(Categories(ms)[i], CategoryTotal(ms, Categories(ms)[i]))
  {
    var cs := Categories(ms);
    seq(|cs|, i requires 0 <= i < |cs| => CategoryGroup(cs[i], CategoryTotal(ms, cs[i])))
  }

  /** `$sort: { total: -1 }` then `$limit: 5`. Among equal totals, the first-seen category comes first. */
  function TopGroups(ms: seq<Transaction>): (r: seq<CategoryGroup>)
    ensures |r| <= 5
    ensures SortedDesc(r, GroupTotal)
  {
    var sorted := SortDesc(Groups(ms), GroupTotal);
    var r := Take(sorted, 5);
    assert forall i, j :: 0 <= i < j < |r| ==> r[i] == sorted[i] && r[j] == sorted[j];
    r
  }

  /** `Math.round(total / totalExpenses * 100)`, or 0 when there are no expenses. */
  function Percentage(total: nat, totalExpenses: nat): (p: int)
    ensures totalExpenses == 0 ==> p == 0
  {
    if totalExpenses > 0 then FormatCurrency.MathRound(total as real / totalExpenses as real * 100.0) else 0
  }

  /** A part of the expenses is between 0 and 100 percent of them, and all of them is exactly 100. */
  lemma PercentageBounds(total: nat, totalExpenses: nat)
    requires total <= totalExpenses
    ensures 0 <= Percentage(total, totalExpenses) <= 100
    ensures total == totalExpenses > 0 ==> Percentage(total, totalExpenses) == 100
  {
    if totalExpenses > 0 {
      var q := total as real / totalExpenses as real;
      assert 0.0 <= q <= 1.0;
      if total == totalExpenses {
        assert q == 1.0;
      }
    }
  }

  /** A top category in the report: its name, its total in rupees and its share of the expenses. */
  datatype CategoryShare = CategoryShare(name: string, amount: real, percentage: int)

  function ShareOf(g: CategoryGroup, totalExpenses: nat): CategoryShare {
    CategoryShare(g.name, FormatCurrency.ConvertToRupees(g.total), Percentage(g.total, totalExpenses))
  }

  /** The `byCategory` reduction over the top groups, one share per group, in aggregation order. */
  function ShareList(ms: seq<Transaction>): (r: seq<CategoryShare>)
    ensures |r| == |TopGroups(ms)|
    ensures forall i :: 0 <= i < |r| ==> r[i] == ShareOf(TopGroups(ms)[i], TypeTotal(ms, EXPENSE))
  {
    var top := TopGroups(ms);
    var e := TypeTotal(ms, EXPENSE);
    seq(|top|, i requires 0 <= i < |top| => ShareOf(top[i], e))
  }

  /**
   * A property name that is an array index: the canonical decimal text of a
   * number below 2^32 - 1.
   */
  predicate IsArrayIndex(name: string) {
    name != [] && AllDigits(name) && NatToString(DigitsValue(name)) == name && DigitsValue(name) < 0xFFFF_FFFF
  }

  /** The sort key that puts array-index names in ascending numeric order. */
  function IndexOrder(c: CategoryShare): real {
    if IsArrayIndex(c.name) then -(DigitsValue(c.name) as real) else 0.0
  }

  /** A share whose category name is an array index. */
  predicate IsIndexShare(c: CategoryShare) {
    IsArrayIndex(c.name)
  }

  /**
   * `Object.entries` of an object whose properties were created in the
   * order of `shares`: the array-index names first, in ascending numeric
   * order, then the other names in creation order.
   */
  function EntriesOrder(shares: seq<CategoryShare>): seq<CategoryShare> {
    SortDesc(Filter(shares, IsIndexShare, true), IndexOrder) + Filter(shares, IsIndexShare, false)
  }

  /** The listing is a reordering of the shares. */
  lemma EntriesOrderPermutes(shares: seq<CategoryShare>)
    ensures multiset(EntriesOrder(shares)) == multiset(shares)
    ensures |EntriesOrder(shares)| == |shares|
  {
    FilterSplits(shares, IsIndexShare);
    assert |multiset(EntriesOrder(shares))| == |multiset(shares)|;
  }

  /** The sorted array-index part holds array-index names only. */
  lemma IndexNameAt(shares: seq<CategoryShare>, k: nat)
    requires k < |SortDesc(Filter(shares, IsIndexShare, true), IndexOrder)|
    ensures IsArrayIndex(SortDesc(Filter(shares, IsIndexShare, true), IndexOrder)[k].name)
  {
    var f := Filter(shares, IsIndexShare, true);
    assert SortDesc(f, IndexOrder)[k] in multiset(f);
  }

  /** Every array-index name comes first, the array-index names in ascending numeric order. */
  lemma EntriesIndexNamesFirst(shares: seq<CategoryShare>)
    ensures var r := EntriesOrder(shares);
            forall i, j :: 0 <= i < j < |r| && IsArrayIndex(r[j].name) ==>
              IsArrayIndex(r[i].name) && DigitsValue(r[i].name) <= DigitsValue(r[j].name)
  {
    var a := SortDesc(Filter(shares, IsIndexShare, true), IndexOrder);
    var b := Filter(shares, IsIndexShare, false);
    var r := a + b;
    forall i, j | 0 <= i < j < |r| && IsArrayIndex(r[j].name)
      ensures IsArrayIndex(r[i].name) && DigitsValue(r[i].name) <= DigitsValue(r[j].name)
    {
      assert j < |a|;
      assert a[i] in multiset(Filter(shares, IsIndexShare, true));
      assert a[j] in multiset(Filter(shares, IsIndexShare, true));
      assert IndexOrder(a[i]) >= IndexOrder(a[j]);
    }
  }

  /** A name that is not an array index sits in the second part of the listing. */
  lemma OtherNameAt(shares: seq<CategoryShare>, i: nat)
    requires i < |EntriesOrder(shares)| && !IsArrayIndex(EntriesOrder(shares)[i].name)
    ensures var a := SortDesc(Filter(shares, IsIndexShare, true), IndexOrder);
            |a| <= i && EntriesOrder(shares)[i] == Filter(shares, IsIndexShare, false)[i - |a|]
  {
    var a := SortDesc(Filter(shares, IsIndexShare, true), IndexOrder);
    if i < |a| {
      IndexNameAt(shares, i);
    }
  }

  /** The other names keep their order in `shares`, so descending by amount when `shares` is. */
  lemma EntriesOtherNamesDescending(shares: seq<CategoryShare>)
    requires SortedDesc(shares, ShareAmount)
    ensures var r := EntriesOrder(shares);
            forall i, j :: 0 <= i < j < |r| && !IsArrayIndex(r[i].name) && !IsArrayIndex(r[j].name) ==>
              r[i].amount >= r[j].amount
  {
    var a := SortDesc(Filter(shares, IsIndexShare, true), IndexOrder);
    var b := Filter(shares, IsIndexShare, false);
    var r := EntriesOrder(shares);
    FilterKeepsSorted(shares, IsIndexShare, false, ShareAmount);
    forall i, j | 0 <= i < j < |r| && !IsArrayIndex(r[i].name) && !IsArrayIndex(r[j].name)
      ensures r[i].amount >= r[j].amount
    {
      OtherNameAt(shares, i);
      OtherNameAt(shares, j);
      assert ShareAmount(b[i - |a|]) >= ShareAmount(b[j - |a|]);
    }
  }

  /** The report's `topCategories`: `Object.entries(byCategory)`. */
  function TopShares(ms: seq<Transaction>): (r: seq<CategoryShare>)
    ensures |r| == |TopGroups(ms)|
  {
    EntriesOrderPermutes(ShareList(ms));
    EntriesOrder(ShareList(ms))
  }

  /**
   * A category named like a year is listed before a larger category with an
   * ordinary name: "Food" at 500 rupees and "2024" at 100 rupees are listed
   * as "2024", then "Food".
   */
  lemma EntriesPutIndexNamesFirst(food: CategoryShare, year: CategoryShare)
    requires food.name == "Food" && year.name == NatToString(2024)
    requires food.amount == 500.0 && year.amount == 100.0
    ensures EntriesOrder([food, year]) == [year, food]
  {
    YearNameIsIndex();
    assert !IsIndexShare(food) by { assert !IsDigit(food.name[0]); }
    EntriesOfPair(food, year);
  }

  /** The text of a year is an array index. */
  lemma YearNameIsIndex()
    ensures IsArrayIndex(NatToString(2024))
  {
    NatToStringValue(2024);
  }

  /** An ordinary name created first is listed after an array-index name created second. */
  lemma EntriesOfPair(other: CategoryShare, index: CategoryShare)
    requires !IsIndexShare(other) && IsIndexShare(index)
    ensures EntriesOrder([other, index]) == [index, other]
  {
    FilterPair(other, index, IsIndexShare, true);
    FilterPair(other, index, IsIndexShare, false);
    assert SortDesc([index], IndexOrder) == [index] by { SortDescOfSorted([index], IndexOrder); }
  }

  /** Every top group is an expense category carrying its own total. */
  lemma TopGroupsAreCategories(ms: seq<Transaction>, i: nat)
    requires i < |TopGroups(ms)|
    ensures IsExpenseCategory(ms, TopGroups(ms)[i].name)
    ensures TopGroups(ms)[i].total == CategoryTotal(ms, TopGroups(ms)[i].name)
  {
    var gs := Groups(ms);
    var sorted := SortDesc(gs, GroupTotal);
    assert TopGroups(ms)[i] == sorted[i];
    assert sorted[i] in multiset(gs);
    var j :| 0 <= j < |gs| && gs[j] == sorted[i];
    assert Categories(ms)[j] in Categories(ms);
  }

  /** With fewer than five expense categories, every one of them is listed. */
  lemma TopGroupsComplete(ms: seq<Transaction>, c: string)
    requires IsExpenseCategory(ms, c) && |TopGroups(ms)| < 5
    ensures exists i :: 0 <= i < |TopGroups(ms)| && TopGroups(ms)[i].name == c
  {
    var gs := Groups(ms);
    var sorted := SortDesc(gs, GroupTotal);
    var k :| 0 <= k < |Categories(ms)| && Categories(ms)[k] == c;
    assert gs[k] in multiset(sorted);
    var i :| 0 <= i < |sorted| && sorted[i] == gs[k];
    assert TopGroups(ms) == sorted;
  }

  /**
   * The top categories: at most five, from the expense records only, each
   * with its own total in rupees and a percentage between 0 and 100, and,
   * when fewer than five are listed, every expense category among them.
   */
  lemma TopSharesFacts(ms: seq<Transaction>)
    ensures var r := TopShares(ms);
            |r| <= 5
            && (forall i :: 0 <= i < |r| ==> IsExpenseCategory(ms, r[i].name))
            && (forall i :: 0 <= i < |r| ==>
                  r[i].amount == FormatCurrency.ConvertToRupees(CategoryTotal(ms, r[i].name)))
            && (forall i :: 0 <= i < |r| ==> 0 <= r[i].percentage <= 100)
            && (forall c :: IsExpenseCategory(ms, c) && |r| < 5 ==> exists i :: 0 <= i < |r| && r[i].name == c)
  {
    ShareListFacts(ms);
    var l := ShareList(ms);
    var r := TopShares(ms);
    EntriesOrderPermutes(l);
    forall i | 0 <= i < |r|
      ensures IsExpenseCategory(ms, r[i].name)
      ensures r[i].amount == FormatCurrency.ConvertToRupees(CategoryTotal(ms, r[i].name))
      ensures 0 <= r[i].percentage <= 100
    {
      assert r[i] in multiset(l);
    }
    forall c | IsExpenseCategory(ms, c) && |r| < 5
      ensures exists i :: 0 <= i < |r| && r[i].name == c
    {
      var k :| 0 <= k < |l| && l[k].name == c;
      assert l[k] in multiset(r);
      var i :| 0 <= i < |r| && r[i] == l[k];
    }
  }

  /**
   * The order of the top categories, as `Object.entries` lists them: names
   * that are array indices first, in ascending numeric order, then the
   * other names by amount descending.
   */
  lemma TopSharesOrder(ms: seq<Transaction>)
    ensures var r := TopShares(ms);
            (forall i, j :: 0 <= i < j < |r| && IsArrayIndex(r[j].name) ==>
               IsArrayIndex(r[i].name) && DigitsValue(r[i].name) <= DigitsValue(r[j].name))
            && (forall i, j :: 0 <= i < j < |r| && !IsArrayIndex(r[i].name) && !IsArrayIndex(r[j].name) ==>
                  r[i].amount >= r[j].amount)
  {
    ShareListFacts(ms);
    EntriesIndexNamesFirst(ShareList(ms));
    EntriesOtherNamesDescending(ShareList(ms));
  }

  /** The shares in aggregation order: the facts about each, sorted, and complete below five. */
  lemma ShareListFacts(ms: seq<Transaction>)
    ensures var l := ShareList(ms);
            |l| <= 5
            && (forall x :: x in l ==> (IsExpenseCategory(ms, x.name)
                  && x.amount == FormatCurrency.ConvertToRupees(CategoryTotal(ms, x.name))
                  && 0 <= x.percentage <= 100))
            && SortedDesc(l, ShareAmount)
            && (forall c :: IsExpenseCategory(ms, c) && |l| < 5 ==> exists k :: 0 <= k < |l| && l[k].name == c)
  {
    var top := TopGroups(ms);
    var l := ShareList(ms);
    var e := TypeTotal(ms, EXPENSE);
    forall i | 0 <= i < |l|
      ensures IsExpenseCategory(ms, l[i].name)
      ensures l[i].amount == FormatCurrency.ConvertToRupees(CategoryTotal(ms, l[i].name))
      ensures 0 <= l[i].percentage <= 100
    {
      TopGroupsAreCategories(ms, i);
      CategoryTotalBounded(ms, top[i].name);
      PercentageBounds(top[i].total, e);
    }
    forall i, j | 0 <= i < j < |l|
      ensures ShareAmount(l[i]) >= ShareAmount(l[j])
    {
      assert GroupTotal(top[i]) >= GroupTotal(top[j]);
    }
    forall c | IsExpenseCategory(ms, c) && |l| < 5
      ensures exists k :: 0 <= k < |l| && l[k].name == c
    {
      TopGroupsComplete(ms, c);
      var k :| 0 <= k < |top| && top[k].name == c;
      assert l[k].name == c;
    }
  }

  /** No category outside the top five has a larger total than one inside it. */
  lemma TopGroupsKeepLargest(ms: seq<Transaction>, j: nat)
    requires 5 <= j < |Groups(ms)|
    ensures forall i :: 0 <= i < |TopGroups(ms)| ==>
              TopGroups(ms)[i].total >= SortDesc(Groups(ms), GroupTotal)[j].total
  {
    TakeKeepsLargest(SortDesc(Groups(ms), GroupTotal), GroupTotal, 5, j);
  }

  // ---------------------------------------------------------------- rates and rounding

  /**
   * `Number(x.toFixed(d))` on an exact real, with `scale == 10^d`: the
   * magnitude is rounded half up, the sign kept.
   */
  function RoundTo(x: real, scale: nat): (r: real)
    requires scale > 0
    ensures r * scale as real == RoundedUnits(x, scale) as real
  {
    RoundedUnits(x, scale) as real / scale as real
  }

  /** `x * scale` rounded to the nearest integer, halves away from zero. */
  function RoundedUnits(x: real, scale: nat): (m: int)
    ensures x * scale as real - 1.0 / 2.0 <= m as real <= x * scale as real + 1.0 / 2.0
  {
    if x >= 0.0 then FormatCurrency.MathRound(x * scale as real) else -FormatCurrency.MathRound(-x * scale as real)
  }

  /** The rounding only depends on the nearest grid point: a value already on the grid stays put. */
  lemma MathRoundWhole(n: int)
    ensures FormatCurrency.MathRound(n as real) == n
  {
  }

  lemma RoundToGrid(n: nat, scale: nat)
    requires scale > 0
    ensures RoundTo(n as real / scale as real, scale) == n as real / scale as real
  {
    var x := n as real / scale as real;
    assert x * scale as real == n as real;
    assert x >= 0.0;
    MathRoundWhole(n);
    assert RoundedUnits(x, scale) == n;
  }

  /**
   * `calculateSavingRate`: 0 without positive income, otherwise the share of
   * income not spent, in percent, to two decimals.
   */
  function CalculateSavingRate(totalIncome: int, totalExpenses: int): (r: real)
    ensures totalIncome <= 0 ==> r == 0.0
    ensures totalIncome > 0 ==>
              var raw := (totalIncome - totalExpenses) as real / totalIncome as real * 100.0;
              raw - 1.0 / 200.0 <= r <= raw + 1.0 / 200.0
  {
    if totalIncome <= 0 then 0.0
    else RoundTo((totalIncome - totalExpenses) as real / totalIncome as real * 100.0, 100)
  }

  /**
   * With positive income the rate is within rounding of the unspent share:
   * at most 100, exactly 100 with no expenses, and negative once expenses
   * exceed income by more than the rounding.
   */
  lemma SavingRateFacts(totalIncome: int, totalExpenses: int)
    requires totalIncome > 0 && totalExpenses >= 0
    ensures CalculateSavingRate(totalIncome, totalExpenses) <= 100.0 + 1.0 / 200.0
    ensures totalExpenses == 0 ==> CalculateSavingRate(totalIncome, totalExpenses) == 100.0
    ensures totalExpenses >= 2 * totalIncome ==> CalculateSavingRate(totalIncome, totalExpenses) < 0.0
  {
    var raw := (totalIncome - totalExpenses) as real / totalIncome as real * 100.0;
    assert raw <= 100.0;
    if totalExpenses == 0 {
      assert raw == 100.0;
      RoundToGrid(10000, 100);
      assert 10000 as real / 100 as real == 100.0;
    }
    if totalExpenses >= 2 * totalIncome {
      assert raw <= -100.0;
    }
  }

  /** An income of 1000 rupees and expenses of 500 rupees give a savings rate of 50. */
  lemma SavingRateExample()
    ensures CalculateSavingRate(100_000, 50_000) == 50.0
  {
    assert (100_000 - 50_000) as real / 100_000 as real * 100.0 == 50.0;
    RoundToGrid(5000, 100);
    assert 5000 as real / 100 as real == 50.0;
  }

  // ---------------------------------------------------------------- period label

  function MonthName(m: int): string
    requires 1 <= m <= 12
  {
    ["January", "February", "March", "April", "May", "June", "July",
     "August", "September", "October", "November", "December"][m - 1]
  }

  /** date-fns `yyyy`: the year with at least four digits. */
  function YearText(y: int): string {
    if y >= 0 then PadStart(NatToString(y), 4, '0') else "-" + PadStart(NatToString(-y), 4, '0')
  }

  /** `MMMM d, yyyy` */
  function LongDate(d: DateTime): (r: string)
    requires Valid(d)
    ensures r != []
  {
    MonthName(d.month) + " " + NatToString(d.day) + ", " + YearText(d.year)
  }

  /** The report's `period`: both ends of the range as `MMMM d, yyyy`, joined by " - ". */
  function PeriodLabel(from: DateTime, to: DateTime): (r: string)
    requires Valid(from) && Valid(to)
    ensures r != []
  {
    LongDate(from) + " - " + LongDate(to)
  }

  // ---------------------------------------------------------------- retries

  /** One call of the wrapped function: it answers, or it throws with an optional HTTP status. */
  datatype CallOutcome<T> = Answered(value: T) | Threw(status: Option<int>)

  /** How `callWithRetries` ends, and after how many calls. */
  datatype RetryResult<T> = Returned(value: T, calls: nat) | Rethrown(status: Option<int>, calls: nat) | Exhausted

  /** The statuses worth retrying: 429, 500, 502, 503 and 504. */
  predicate IsTransient(status: Option<int>) {
    status.Some? && status.value in {429, 500, 502, 503, 504}
  }

  /** The retry decision from attempt `attempt` on, with attempt `k`'s outcome given by `fn(k)`. */
  function RetryFrom<T>(fn: nat -> CallOutcome<T>, maxRetries: int, attempt: nat): (r: RetryResult<T>)
    requires attempt <= maxRetries
    ensures !r.Exhausted?
    decreases maxRetries - attempt
  {
    match fn(attempt)
    case Answered(v) => Returned(v, attempt + 1)
    case Threw(s) =>
      if attempt >= maxRetries || !IsTransient(s) then Rethrown(s, attempt + 1)
      else RetryFrom(fn, maxRetries, attempt + 1)
  }

  /** `callWithRetries(fn, { maxRetries })`; with a negative bound the loop never runs. */
  function RetrySpec<T>(fn: nat -> CallOutcome<T>, maxRetries: int): (r: RetryResult<T>)
    ensures r.Exhausted? <==> maxRetries < 0
  {
    if maxRetries < 0 then Exhausted else RetryFrom(fn, maxRetries, 0)
  }

  /** Attempts `attempt` to `upTo - 1` all threw a transient status. */
  predicate TransientUntil<T>(fn: nat -> CallOutcome<T>, attempt: nat, upTo: nat) {
    forall k :: attempt <= k < upTo ==> fn(k).Threw? && IsTransient(fn(k).status)
  }

  /**
   * The calls made are between 1 and `maxRetries + 1`; every call before the
   * last threw a transient status; the last call either answered or threw,
   * and it threw a transient status only if it was the final allowed attempt.
   */
  lemma {:induction false} RetryFromFacts<T>(fn: nat -> CallOutcome<T>, maxRetries: int, attempt: nat)
    requires attempt <= maxRetries
    ensures var r := RetryFrom(fn, maxRetries, attempt);
            match r
            case Returned(v, c) =>
              attempt < c <= maxRetries + 1 && TransientUntil(fn, attempt, c - 1) && fn(c - 1) == Answered(v)
            case Rethrown(s, c) =>
              attempt < c <= maxRetries + 1 && TransientUntil(fn, attempt, c - 1) && fn(c - 1) == Threw(s)
              && (IsTransient(s) ==> c == maxRetries + 1)
            case Exhausted => false
    decreases maxRetries - attempt
  {
    match fn(attempt)
    case Answered(v) =>
    case Threw(s) =>
      if !(attempt >= maxRetries || !IsTransient(s)) {
        RetryFromFacts(fn, maxRetries, attempt + 1);
      }
  }

  /** If the first `j` calls threw transient statuses and call `j` answers, within the bound, that answer is returned. */
  lemma {:induction false} RetryReachesAnswer<T>(fn: nat -> CallOutcome<T>, maxRetries: int, attempt: nat, j: nat)
    requires attempt <= j <= maxRetries
    requires TransientUntil(fn, attempt, j) && fn(j).Answered?
    ensures RetryFrom(fn, maxRetries, attempt) == Returned(fn(j).value, j + 1)
    decreases j - attempt
  {
    if attempt < j {
      RetryReachesAnswer(fn, maxRetries, attempt + 1, j);
    }
  }

  /**
   * `callWithRetries`: calls `fn` for attempts 0, 1, ...; returns the first
   * answer; rethrows at once on a non-transient status, and on any status at
   * the last allowed attempt. The backoff delays and `Retry-After` waits are
   * not modelled.
   */
  method CallWithRetries<T>(fn: nat -> CallOutcome<T>, maxRetries: int) returns (r: RetryResult<T>)
    ensures r == RetrySpec(fn, maxRetries)
  {
    var attempt: nat := 0;
    while attempt <= maxRetries
      invariant attempt <= maxRetries || (maxRetries < 0 && attempt == 0)
      invariant maxRetries >= 0 ==> RetrySpec(fn, maxRetries) == RetryFrom(fn, maxRetries, attempt)
      decreases maxRetries - attempt
    {
      var outcome := fn(attempt);
      match outcome {
        case Answered(v) =>
          return Returned(v, attempt + 1);
        case Threw(status) =>
          if attempt >= maxRetries || !IsTransient(status) {
            return Rethrown(status, attempt + 1);
          }
      }
      attempt := attempt + 1;
    }
    return Exhausted;
  }

  // ---------------------------------------------------------------- insights

  /** The report's insights: a parsed JSON value (identified by its text) or lines of text. */
  datatype Insights = JsonInsights(source: string) | TextInsights(lines: seq<string>)

  /** What the insight generators are given (amounts in paise). */
  datatype InsightInput = InsightInput(
    totalIncome: int,
    totalExpenses: int,
    availableBalance: int,
    savingsRate: real,
    categories: seq<CategoryShare>,
    periodLabel: string)

  function ShareAmount(c: CategoryShare): real {
    c.amount
  }

  const LowSavingsMessage: string := "Suggestion: Your savings rate is low — consider reviewing discretionary spending."
  const DecentSavingsMessage: string := "Suggestion: Decent savings — small tweaks could increase it further."
  const HealthySavingsMessage: string := "Great job — your savings rate looks healthy!"

  /** The band message: below 10, below 25, or healthy. */
  function SavingsBand(rate: real): string {
    if rate < 10.0 then LowSavingsMessage
    else if rate < 25.0 then DecentSavingsMessage
    else HealthySavingsMessage
  }

  /** One listed category: its name, its rupee amount and its percentage. */
  function CategoryText(c: CategoryShare, show: real -> string): string {
    c.name + ": " + show(c.amount) + " (" + show(c.percentage as real) + "%)"
  }

  /**
   * The at most three largest categories, by amount descending; equal
   * amounts keep their order. They are drawn from the input, and none left
   * out has a larger amount than one kept.
   */
  function TopThree(categories: seq<CategoryShare>): (r: seq<CategoryShare>)
    ensures |r| <= 3 && |r| <= |categories|
    ensures |categories| > 0 ==> |r| > 0
    ensures SortedDesc(r, ShareAmount) && multiset(r) <= multiset(categories)
    ensures forall x :: x in multiset(categories) - multiset(r) ==>
              forall i :: 0 <= i < |r| ==> r[i].amount >= x.amount
  {
    var sorted := SortDesc(categories, ShareAmount);
    var r := Take(sorted, 3);
    TakeIsSortedPart(sorted, ShareAmount, 3);
    TakeLeavesSmaller(sorted, ShareAmount, 3);
    r
  }

  /** The category line of `fallbackInsights`, as the code has it. */
  function CategoriesLine(categories: seq<CategoryShare>, show: real -> string): string {
    var top := TopThree(categories);
    if |top| > 0 then
      "Top spending categories: "
        + Join(seq(|top|, i requires 0 <= i < |top| => CategoryTextAsWritten(top[i], show)), ", ")
    else "No expense categories to show."
  }

  /**
   * `fallbackInsights`, as written: the category amounts, already in
   * rupees, go through `convertToRupees` once more. `show` renders a number
   * as JavaScript's `String(n)` does.
   */
  function FallbackLines(input: InsightInput, show: real -> string): (r: seq<string>)
    ensures |r| == 5
    ensures r[0] == "Report for " + input.periodLabel + "."
    ensures r[3] == "No expense categories to show." <==> input.categories == []
    ensures r[4] == SavingsBand(input.savingsRate)
  {
    assert |TopThree(input.categories)| > 0 ==> CategoriesLine(input.categories, show)[0] == 'T';
    [ "Report for " + input.periodLabel + ".",
      "Total income: " + show(FormatCurrency.ConvertToRupees(input.totalIncome))
        + ". Total expenses: " + show(FormatCurrency.ConvertToRupees(input.totalExpenses)) + ".",
      "Available balance: " + show(FormatCurrency.ConvertToRupees(input.availableBalance))
        + ". Savings rate: " + show(RoundTo(input.savingsRate, 10)) + "%",
      CategoriesLine(input.categories, show),
      SavingsBand(input.savingsRate) ]
  }

  /** The band message follows the savings rate: low below 10, decent below 25, healthy from 25 on. */
  lemma SavingsBandFacts(rate: real)
    ensures SavingsBand(rate) == LowSavingsMessage <==> rate < 10.0
    ensures SavingsBand(rate) == DecentSavingsMessage <==> 10.0 <= rate < 25.0
    ensures SavingsBand(rate) == HealthySavingsMessage <==> rate >= 25.0
  {
    assert |LowSavingsMessage| != |DecentSavingsMessage|;
    assert |LowSavingsMessage| != |HealthySavingsMessage|;
    assert |DecentSavingsMessage| != |HealthySavingsMessage|;
  }

  /** `fallbackInsights`: pushes the five lines in order. */
  method FallbackInsights(input: InsightInput, show: real -> string) returns (insights: seq<string>)
    ensures insights == FallbackLines(input, show)
  {
    insights := [];
    insights := insights + ["Report for " + input.periodLabel + "."];
    insights := insights + ["Total income: " + show(FormatCurrency.ConvertToRupees(input.totalIncome))
      + ". Total expenses: " + show(FormatCurrency.ConvertToRupees(input.totalExpenses)) + "."];
    insights := insights + ["Available balance: " + show(FormatCurrency.ConvertToRupees(input.availableBalance))
      + ". Savings rate: " + show(RoundTo(input.savingsRate, 10)) + "%"];
    var top := TopThree(input.categories);
    if |top| > 0 {
      insights := insights + ["Top spending categories: "
        + Join(seq(|top|, i requires 0 <= i < |top| => CategoryTextAsWritten(top[i], show)), ", ")];
    } else {
      insights := insights + ["No expense categories to show."];
    }
    if input.savingsRate < 10.0 {
      insights := insights + [LowSavingsMessage];
    } else if input.savingsRate < 25.0 {
      insights := insights + [DecentSavingsMessage];
    } else {
      insights := insights + [HealthySavingsMessage];
    }
  }

  /** One listed category of `fallbackInsights` as the code has it: `convertToRupees` applied to an amount already in rupees. */
  function CategoryTextAsWritten(c: CategoryShare, show: real -> string): string {
    c.name + ": " + show(c.amount / 100.0) + " (" + show(c.percentage as real) + "%)"
  }

  /**
   * For every category, the line as written shows its total converted to
   * rupees twice: its total in paise divided by 10 000, one hundredth of
   * the rupee amount the report holds.
   */
  lemma CategoryTextAsWrittenDividesTwice(g: CategoryGroup, totalExpenses: nat, show: real -> string)
    ensures var share := ShareOf(g, totalExpenses);
            CategoryTextAsWritten(share, show)
            == g.name + ": " + show(g.total as real / 10000.0) + " (" + show(share.percentage as real) + "%)"
            && (g.total as real / 10000.0) * 100.0 == share.amount
  {
    var share := ShareOf(g, totalExpenses);
    assert share.amount * 100.0 == g.total as real;
    assert share.amount / 100.0 == g.total as real / 10000.0;
  }

  /** A category that spent 500 rupees (50000 paise) is listed as 5 by the code as written, and as 500 by the corrected line. */
  lemma FallbackDoubleConversion(show: real -> string)
    ensures var share := ShareOf(CategoryGroup("Food", 50_000), 50_000);
            CategoryTextAsWritten(share, show) == "Food: " + show(5.0) + " (" + show(100.0) + "%)"
            && CategoryText(share, show) == "Food: " + show(500.0) + " (" + show(100.0) + "%)"
  {
    PercentageBounds(50_000, 50_000);
  }

  /** The corrected line shows each category's total in rupees, which converts back to its total in paise. */
  lemma CategoryTextShowsRupees(g: CategoryGroup, totalExpenses: nat, show: real -> string)
    ensures var share := ShareOf(g, totalExpenses);
            CategoryText(share, show) == g.name + ": " + show(FormatCurrency.ConvertToRupees(g.total))
                                         + " (" + show(share.percentage as real) + "%)"
            && FormatCurrency.ConvertToPaise(share.amount) == g.total
  {
    FormatCurrency.PaiseRoundTrip(g.total);
  }

  /**
   * The `replace(/```(?:json)?\n?/g, "")` of the model's reply: every
   * three-backtick fence is removed, with a `json` tag and one newline right
   * after it.
   */
  function StripFences(s: string): (r: string)
    ensures |r| <= |s|
    decreases |s|
  {
    if |s| >= 3 && s[..3] == "```" then
      var afterTicks := s[3..];
      var afterTag := if |afterTicks| >= 4 && afterTicks[..4] == "json" then afterTicks[4..] else afterTicks;
      var afterNewline := if |afterTag| >= 1 && afterTag[0] == '\n' then afterTag[1..] else afterTag;
      StripFences(afterNewline)
    else if s == [] then []
    else [s[0]] + StripFences(s[1..])
  }

  /** A reply without backticks is left as it is. */
  lemma {:induction false} StripFencesNoBackticks(s: string)
    requires '`' !in s
    ensures StripFences(s) == s
  {
    if s != [] {
      assert s[0] != '`';
      assert '`' !in s[1..];
      StripFencesNoBackticks(s[1..]);
    }
  }

  /** The reply text with fences stripped and the ends trimmed. */
  function CleanReply(text: string): string {
    Trim(StripFences(text))
  }

  /** A reply that is only an empty fenced block cleans to nothing. */
  lemma EmptyFencedReply()
    ensures CleanReply("```json\n```") == ""
  {
    assert "```json\n```"[..3] == "```";
    assert "```json\n```"[3..][..4] == "json";
    assert "```json\n```"[3..][4..] == "\n```";
    assert "\n```"[1..] == "```";
    assert "```"[..3] == "```";
  }

  /** The insights made from a non-blank cleaned reply: the parsed JSON when it parses, otherwise one line. */
  function ReplyInsights(cleaned: string, isJson: string -> bool): Insights {
    if isJson(cleaned) then JsonInsights(cleaned) else TextInsights([cleaned])
  }

  /**
   * `generateInsightsAI`: the model is called through `callWithRetries` with
   * five retries; a non-blank cleaned reply becomes the insights (as JSON if
   * `isJson` accepts it, otherwise as one line), and a blank reply or any
   * failure falls back to the deterministic lines. It never fails.
   */
  function GenerateInsightsAI(input: InsightInput, fn: nat -> CallOutcome<string>, isJson: string -> bool,
                              show: real -> string): (r: Insights)
  {
    match RetrySpec(fn, 5)
    case Returned(text, _) =>
      var cleaned := CleanReply(text);
      if cleaned == "" then TextInsights(FallbackLines(input, show))
      else ReplyInsights(cleaned, isJson)
    case _ => TextInsights(FallbackLines(input, show))
  }

  /** Call `j`, one of the six attempts, is reached after only transient failures, and it answers. */
  predicate AnsweredAt(fn: nat -> CallOutcome<string>, j: nat) {
    j <= 5 && TransientUntil(fn, 0, j) && fn(j).Answered?
  }

  /**
   * When some call within the six attempts answers non-blank text after
   * only transient failures, the generated insights are made from that
   * reply.
   */
  lemma InsightsFromReply(input: InsightInput, fn: nat -> CallOutcome<string>, isJson: string -> bool,
                          show: real -> string, j: nat)
    requires AnsweredAt(fn, j) && CleanReply(fn(j).value) != ""
    ensures GenerateInsightsAI(input, fn, isJson, show) == ReplyInsights(CleanReply(fn(j).value), isJson)
  {
    RetryReachesAnswer(fn, 5, 0, j);
  }

  /**
   * In every other case (no answer within the six attempts, or a blank one)
   * the generated insights are the five fallback lines.
   */
  lemma InsightsFallBackExactly(input: InsightInput, fn: nat -> CallOutcome<string>, isJson: string -> bool,
                                show: real -> string)
    requires forall j :: AnsweredAt(fn, j) ==> CleanReply(fn(j).value) == ""
    ensures GenerateInsightsAI(input, fn, isJson, show) == TextInsights(FallbackLines(input, show))
  {
    RetryFromFacts(fn, 5, 0);
    match RetryFrom(fn, 5, 0)
    case Returned(_, c) =>
      assert AnsweredAt(fn, c - 1);
    case _ =>
  }

  // ---------------------------------------------------------------- generateReportService

  datatype Summary = Summary(income: real, expenses: real, balance: real, savingsRate: real,
                             topCategories: seq<CategoryShare>)

  datatype Report = Report(period: string, summary: Summary, insights: Insights)

  /** The summary of the matched records: totals in rupees, the balance, the rate to one decimal, the top categories. */
  function SummaryOf(ms: seq<Transaction>): (s: Summary)
    ensures s.income * 100.0 == TypeTotal(ms, INCOME) as real
    ensures s.expenses * 100.0 == TypeTotal(ms, EXPENSE) as real
    ensures s.balance == s.income - s.expenses
    ensures s.income >= 0.0 && s.expenses >= 0.0
  {
    var income := TypeTotal(ms, INCOME);
    var expenses := TypeTotal(ms, EXPENSE);
    Summary(FormatCurrency.ConvertToRupees(income), FormatCurrency.ConvertToRupees(expenses),
            FormatCurrency.ConvertToRupees(income - expenses),
            RoundTo(CalculateSavingRate(income, expenses), 10), TopShares(ms))
  }

  /** What the insight generator is given for the matched records. */
  function InsightInputOf(ms: seq<Transaction>, period: string): InsightInput {
    var income := TypeTotal(ms, INCOME);
    var expenses := TypeTotal(ms, EXPENSE);
    InsightInput(income, expenses, income - expenses, CalculateSavingRate(income, expenses), TopShares(ms), period)
  }

  /**
   * `generateReportService` for the range [from, to]. `userFilter` is None
   * when the user id is empty or not an ObjectId, in which case the code does
   * not filter by user.
   */
  function GenerateReport(txs: seq<Transaction>, userFilter: Option<nat>, from: DateTime, to: DateTime,
                          fn: nat -> CallOutcome<string>, isJson: string -> bool, show: real -> string): (r: Report)
    requires Valid(from) && Valid(to)
    ensures r.period == PeriodLabel(from, to) && r.period != ""
    ensures r.summary == SummaryOf(Matching(txs, userFilter, from, to))
  {
    var ms := Matching(txs, userFilter, from, to);
    var period := PeriodLabel(from, to);
    Report(period, SummaryOf(ms), GenerateInsightsAI(InsightInputOf(ms, period), fn, isJson, show))
  }

  lemma {:induction false} MatchingNone(txs: seq<Transaction>, userFilter: Option<nat>, from: DateTime, to: DateTime)
    requires forall t :: t in txs ==> !Matches(t, userFilter, from, to)
    ensures Matching(txs, userFilter, from, to) == []
  {
    if txs != [] {
      assert txs[|txs| - 1] in txs;
      MatchingNone(txs[..|txs| - 1], userFilter, from, to);
    }
  }

  /** With no matching transactions everything is zero and there are no top categories. */
  lemma EmptyPeriodReport(txs: seq<Transaction>, userFilter: Option<nat>, from: DateTime, to: DateTime)
    requires forall t :: t in txs ==> !Matches(t, userFilter, from, to)
    ensures SummaryOf(Matching(txs, userFilter, from, to)) == Summary(0.0, 0.0, 0.0, 0.0, [])
  {
    MatchingNone(txs, userFilter, from, to);
    assert Categories([]) == [];
    assert TopShares([]) == [];
    RoundToGrid(0, 10);
  }

  // ---------------------------------------------------------------- updateReportSettingService

  /**
   * The `nextReportDate` the service stores: none unless the update enables
   * reports; when it does, the current date if it is still in the future,
   * otherwise the first of the month after `lastSentDate ?? now`.
   */
  function NextReportDateOnUpdate(setting: ReportSetting, isEnabled: Option<bool>, now: DateTime): (r: Option<DateTime>)
    requires SettingValid(setting) && Valid(now)
    ensures isEnabled != Some(true) <==> r.None?
    ensures r.Some? ==> Valid(r.value)
  {
    if isEnabled == Some(true) then
      if setting.nextReportDate.None? || AtOrBefore(setting.nextReportDate.value, now) then
        Some(Helper.CalculateNextReportDate(Some(setting.lastSentDate.GetOr(now)), now))
      else setting.nextReportDate
    else Option.None
  }

  /**
   * Enabling keeps a future date; otherwise the new date is the first
   * midnight of the month after the reference (`lastSentDate`, clamped to
   * now), and is later than now whenever no report was sent before.
   */
  lemma NextReportDateOnUpdateFacts(setting: ReportSetting, now: DateTime)
    requires SettingValid(setting) && Valid(now)
    ensures var r := NextReportDateOnUpdate(setting, Some(true), now);
            ((setting.nextReportDate.Some? && Before(now, setting.nextReportDate.value))
              ==> r == setting.nextReportDate)
            && ((setting.nextReportDate.None? || AtOrBefore(setting.nextReportDate.value, now))
              ==> r.value.day == 1 && r.value.ms == 0
                  && Before(Helper.ReportReference(Some(setting.lastSentDate.GetOr(now)), now), r.value))
            && (setting.lastSentDate.None? ==> Before(now, r.value))
  {
    OrderTotal(setting.nextReportDate.GetOr(now), now);
  }

  /** The first setting of the user, as `findOne({ userId })` returns it. */
  function FindSetting(settings: seq<ReportSetting>, userId: nat): (r: Option<nat>)
    ensures r.Some? ==> r.value < |settings| && settings[r.value].userId == userId
                        && forall j :: 0 <= j < r.value ==> settings[j].userId != userId
    ensures r.None? ==> forall j :: 0 <= j < |settings| ==> settings[j].userId != userId
  {
    if settings == [] then Option.None
    else if settings[0].userId == userId then Some(0)
    else
      match FindSetting(settings[1..], userId)
      case Some(k) => Some(k + 1)
      case None => Option.None
  }

  /** The setting a user gets when none exists: monthly, enabled unless told otherwise, first report next month. */
  function DefaultSetting(id: nat, userId: nat, isEnabled: Option<bool>, now: DateTime): (s: ReportSetting)
    requires Valid(now)
    ensures SettingValid(s) && s.lastSentDate.None?
  {
    ReportSetting(id, userId, "MONTHLY", isEnabled.GetOr(true),
                  Some(Helper.CalculateNextReportDate(Some(now), now)), Option.None)
  }

  /** The setting after `set({ ...body, nextReportDate })`. */
  function ApplyUpdate(setting: ReportSetting, isEnabled: Option<bool>, now: DateTime): (s: ReportSetting)
    requires SettingValid(setting) && Valid(now)
    ensures SettingValid(s)
  {
    setting.(isEnabled := isEnabled.GetOr(setting.isEnabled),
             nextReportDate := NextReportDateOnUpdate(setting, isEnabled, now))
  }

  /**
   * `updateReportSettingService(userId, { isEnabled })`: finds the user's
   * setting, creating the default one if there is none, then stores the
   * given flag and the new `nextReportDate`. Other body fields are not
   * modelled.
   */
  method UpdateReportSetting(store: ReportStore, userId: nat, isEnabled: Option<bool>, now: DateTime)
    returns (updated: ReportSetting)
    requires store.Valid() && Valid(now)
    modifies store
    ensures store.Valid()
    ensures store.reports == old(store.reports)
    ensures match FindSetting(old(store.settings), userId)
            case Some(k) =>
              updated == ApplyUpdate(old(store.settings)[k], isEnabled, now)
              && store.settings == old(store.settings)[k := updated]
              && store.nextSettingId == old(store.nextSettingId)
            case None =>
              updated == ApplyUpdate(DefaultSetting(old(store.nextSettingId), userId, isEnabled, now), isEnabled, now)
              && store.settings == old(store.settings) + [updated]
              && store.nextSettingId == old(store.nextSettingId) + 1
  {
    var found := FindSetting(store.settings, userId);
    var k: nat;
    if found.None? {
      store.settings := store.settings + [DefaultSetting(store.nextSettingId, userId, isEnabled, now)];
      store.nextSettingId := store.nextSettingId + 1;
      k := |store.settings| - 1;
    } else {
      k := found.value;
    }
    var existing := store.settings[k];
    updated := ApplyUpdate(existing, isEnabled, now);
    store.settings := store.settings[k := updated];
  }

  /**
   * An update that does not say `isEnabled` clears `nextReportDate` but
   * leaves the flag as it was; a newly created setting is then enabled
   * without a date.
   */
  lemma UpdateWithoutFlagClearsDate(setting: ReportSetting, id: nat, userId: nat, now: DateTime)
    requires SettingValid(setting) && Valid(now)
    ensures ApplyUpdate(setting, Option.None, now).isEnabled == setting.isEnabled
    ensures ApplyUpdate(setting, Option.None, now).nextReportDate.None?
    ensures var d := ApplyUpdate(DefaultSetting(id, userId, Option.None, now), Option.None, now);
            d.isEnabled && d.nextReportDate.None?
  {
  }
}
