/**
 * Instants as civil date-times in one fixed timezone (the server runs in UTC,
 * so local and UTC fields coincide; the client's `toISOString`, which
 * converts browser-local time to UTC, is taken to run in UTC as well), and
 * the calendar arithmetic of the JavaScript `Date` object and of the
 * date-fns helpers the core calls.
 */
module CivilTime {

  const MsPerDay: int := 86_400_000

  /** A calendar date and a time of day, in milliseconds since midnight. */
  datatype DateTime = DateTime(year: int, month: int, day: int, ms: int)

  predicate IsLeapYear(y: int) {
    y % 4 == 0 && (y % 100 != 0 || y % 400 == 0)
  }

  function DaysInMonth(y: int, m: int): (n: int)
    ensures 28 <= n <= 31
  {
    if m == 2 then (if IsLeapYear(y) then 29 else 28)
    else if m == 4 || m == 6 || m == 9 || m == 11 then 30
    else 31
  }

  predicate Valid(d: DateTime) {
    1 <= d.month <= 12 && 1 <= d.day <= DaysInMonth(d.year, d.month) && 0 <= d.ms < MsPerDay
  }

  // ---------------------------------------------------------------- order

  /** `a < b` on instants: the lexicographic order of (year, month, day, ms). */
  predicate Before(a: DateTime, b: DateTime) {
    a.year < b.year
    || (a.year == b.year && a.month < b.month)
    || (a.year == b.year && a.month == b.month && a.day < b.day)
    || (a.year == b.year && a.month == b.month && a.day == b.day && a.ms < b.ms)
  }

  /** `a <= b` on instants. */
  predicate AtOrBefore(a: DateTime, b: DateTime) {
    Before(a, b) || a == b
  }

  lemma BeforeTransitive(a: DateTime, b: DateTime, c: DateTime)
    requires Before(a, b) && Before(b, c)
    ensures Before(a, c)
  {
  }

  lemma OrderTotal(a: DateTime, b: DateTime)
    ensures Before(a, b) || a == b || Before(b, a)
    ensures !(Before(a, b) && Before(b, a))
  {
  }

  /** The earlier of two instants (`a > b ? b : a`). */
  function Min(a: DateTime, b: DateTime): (r: DateTime)
    ensures AtOrBefore(r, a) && AtOrBefore(r, b)
    ensures r == a || r == b
  {
    if Before(b, a) then b else a
  }

  // ---------------------------------------------------------------- days

  function NextDay(d: DateTime): DateTime {
    if d.day < DaysInMonth(d.year, d.month) then d.(day := d.day + 1)
    else if d.month < 12 then d.(month := d.month + 1, day := 1)
    else DateTime(d.year + 1, 1, 1, d.ms)
  }

  function PrevDay(d: DateTime): DateTime {
    if d.day > 1 then d.(day := d.day - 1)
    else if d.month > 1 then d.(month := d.month - 1, day := DaysInMonth(d.year, d.month - 1))
    else DateTime(d.year - 1, 12, 31, d.ms)
  }

  /** Adds `n` calendar days (negative `n` goes back); the time of day is kept. */
  function AddDays(d: DateTime, n: int): (r: DateTime)
    requires Valid(d)
    ensures Valid(r) && r.ms == d.ms
    decreases if n < 0 then -n else n
  {
    if n == 0 then d
    else if n > 0 then AddDays(NextDay(d), n - 1)
    else AddDays(PrevDay(d), n + 1)
  }

  /** Adding a positive number of days moves strictly forward. */
  lemma {:induction false} AddDaysForward(d: DateTime, n: int)
    requires Valid(d) && n > 0
    ensures Before(d, AddDays(d, n))
    decreases n
  {
    if n > 1 {
      AddDaysForward(NextDay(d), n - 1);
      BeforeTransitive(d, NextDay(d), AddDays(d, n));
    }
  }

  /** Adding a negative number of days moves strictly backward. */
  lemma {:induction false} AddDaysBackward(d: DateTime, n: int)
    requires Valid(d) && n < 0
    ensures Before(AddDays(d, n), d)
    decreases -n
  {
    if n < -1 {
      AddDaysBackward(PrevDay(d), n + 1);
      BeforeTransitive(AddDays(d, n), PrevDay(d), d);
    }
  }

  // ---------------------------------------------------------------- months

  /** The (year, month) that lies `n` months after (y, m). */
  function ShiftMonth(y: int, m: int, n: int): (r: (int, int))
    requires 1 <= m <= 12
    ensures 1 <= r.1 <= 12
    ensures r.0 * 12 + r.1 == y * 12 + m + n
  {
    var total := y * 12 + (m - 1) + n;
    (total / 12, total % 12 + 1)
  }

  /**
   * date-fns `addMonths(d, n)`: the same day in the month `n` months later,
   * clamped to that month's last day; the time of day is kept.
   */
  function AddMonthsClamp(d: DateTime, n: int): (r: DateTime)
    requires Valid(d)
    ensures Valid(r) && r.ms == d.ms
    ensures r.year * 12 + r.month == d.year * 12 + d.month + n
    ensures r.day == if d.day <= DaysInMonth(r.year, r.month) then d.day else DaysInMonth(r.year, r.month)
  {
    var ym := ShiftMonth(d.year, d.month, n);
    var last := DaysInMonth(ym.0, ym.1);
    DateTime(ym.0, ym.1, if d.day <= last then d.day else last, d.ms)
  }

  /** date-fns `addYears(d, n)`, which is `addMonths(d, 12 * n)`. */
  function AddYearsClamp(d: DateTime, n: int): (r: DateTime)
    requires Valid(d)
    ensures Valid(r) && r.ms == d.ms
    ensures r.year == d.year + n && r.month == d.month
  {
    var r := AddMonthsClamp(d, 12 * n);
    assert r.year * 12 + r.month == (d.year + n) * 12 + d.month;
    r
  }

  /**
   * The `Date` constructor's normalisation of a day number that overshoots its
   * month by at most 3 (as after `setMonth` / `setFullYear` from day 29-31):
   * the surplus days spill into the following month.
   */
  function OverflowDay(y: int, m: int, day: int, ms: int): (r: DateTime)
    requires 1 <= m <= 12 && 1 <= day <= 31 && 0 <= ms < MsPerDay
    ensures Valid(r) && r.ms == ms
  {
    var last := DaysInMonth(y, m);
    if day <= last then DateTime(y, m, day, ms)
    else
      var nm := ShiftMonth(y, m, 1);
      DateTime(nm.0, nm.1, day - last, ms)
  }

  /** Native `d.setMonth(d.getMonth() + n)`: overshooting days roll into the next month. */
  function AddMonthsOverflow(d: DateTime, n: int): (r: DateTime)
    requires Valid(d)
    ensures Valid(r) && r.ms == d.ms
  {
    var ym := ShiftMonth(d.year, d.month, n);
    OverflowDay(ym.0, ym.1, d.day, d.ms)
  }

  /** Native `d.setFullYear(d.getFullYear() + n)`: 29 February of a non-leap target becomes 1 March. */
  function AddYearsOverflow(d: DateTime, n: int): (r: DateTime)
    requires Valid(d)
    ensures Valid(r) && r.ms == d.ms
  {
    OverflowDay(d.year + n, d.month, d.day, d.ms)
  }

  /** One clamped month later is strictly later. */
  lemma AddMonthClampForward(d: DateTime)
    requires Valid(d)
    ensures Before(d, AddMonthsClamp(d, 1))
  {
    var r := AddMonthsClamp(d, 1);
    assert r.year * 12 + r.month == d.year * 12 + d.month + 1;
    assert r.year > d.year || (r.year == d.year && r.month > d.month);
  }

  /** One overflowing month later is strictly later. */
  lemma AddMonthOverflowForward(d: DateTime)
    requires Valid(d)
    ensures Before(d, AddMonthsOverflow(d, 1))
  {
    var ym := ShiftMonth(d.year, d.month, 1);
    assert ym.0 > d.year || (ym.0 == d.year && ym.1 > d.month);
    var nm := ShiftMonth(ym.0, ym.1, 1);
    assert nm.0 > d.year || (nm.0 == d.year && nm.1 > d.month);
  }

  // ---------------------------------------------------------------- boundaries

  /** `setHours(0, 0, 0, 0)`: midnight of the same day. */
  function StartOfDay(d: DateTime): (r: DateTime)
    ensures r.ms == 0 && r.year == d.year && r.month == d.month && r.day == d.day
  {
    d.(ms := 0)
  }

  /** The first instant of the month containing `d` (date-fns `startOfMonth`). */
  function StartOfMonth(d: DateTime): (r: DateTime)
    ensures r.day == 1 && r.ms == 0 && r.year == d.year && r.month == d.month
  {
    DateTime(d.year, d.month, 1, 0)
  }

  /** The last millisecond of the month containing `d` (date-fns `endOfMonth`). */
  function EndOfMonth(d: DateTime): (r: DateTime)
    ensures r.year == d.year && r.month == d.month
    ensures r.day == DaysInMonth(d.year, d.month) && r.ms == MsPerDay - 1
  {
    DateTime(d.year, d.month, DaysInMonth(d.year, d.month), MsPerDay - 1)
  }
}
