/** Proleptic Gregorian calendar dates as Python's `datetime.date` holds
    them: the ordinal day number, `calendar.monthrange`, stepping one day
    with `timedelta(days=1)`, and the ISO `YYYY-MM-DD` text (the
    `full-date` production of section 5.6 of RFC 3339). */
module Calendar {
  import opened Text

  datatype Date = Date(year: int, month: int, day: int)

  predicate IsLeap(y: int) {
    y % 4 == 0 && (y % 100 != 0 || y % 400 == 0)
  }

  function YearLength(y: int): int {
    if IsLeap(y) then 366 else 365
  }

  /** `calendar.monthrange(y, m)[1]`: the number of days in month m. */
  function DaysInMonth(y: int, m: int): (n: int)
    requires 1 <= m <= 12
    ensures 28 <= n <= 31
    ensures n < 30 <==> m == 2
    ensures m == 2 ==> (n == 29 <==> y % 4 == 0 && (y % 100 != 0 || y % 400 == 0))
  {
    if m == 2 then (if IsLeap(y) then 29 else 28)
    else if m == 4 || m == 6 || m == 9 || m == 11 then 30
    else 31
  }

  /** A date Python's `date` constructor accepts (years beyond 9999 are
      allowed here; see `FullDate`). */
  predicate Valid(d: Date) {
    1 <= d.year && 1 <= d.month <= 12 && 1 <= d.day <= DaysInMonth(d.year, d.month)
  }

  /** Days in all the years before y. */
  function DaysBeforeYear(y: int): int
    requires 1 <= y
  {
    var p := y - 1;
    p * 365 + p / 4 - p / 100 + p / 400
  }

  /** Days in the months of year y before month m. */
  function DaysBeforeMonth(y: int, m: int): int
    requires 1 <= m <= 12
  {
    [0, 31, 59, 90, 120, 151, 181, 212, 243, 273, 304, 334][m - 1]
      + (if m > 2 && IsLeap(y) then 1 else 0)
  }

  /** `date.toordinal()`: 0001-01-01 is day 1. */
  function Ordinal(d: Date): int
    requires Valid(d)
  {
    DaysBeforeYear(d.year) + DaysBeforeMonth(d.year, d.month) + d.day
  }

  /** The twelve months of a year add up to the year's length. */
  lemma MonthsFillYear(y: int)
    ensures DaysBeforeMonth(y, 12) + DaysInMonth(y, 12) == YearLength(y)
  {
  }

  lemma MonthStep(y: int, m: int)
    requires 1 <= m < 12
    ensures DaysBeforeMonth(y, m + 1) == DaysBeforeMonth(y, m) + DaysInMonth(y, m)
  {
  }

  lemma DivStep(p: int, k: int)
    requires k == 4 || k == 100 || k == 400
    ensures (p + 1) / k == p / k + (if (p + 1) % k == 0 then 1 else 0)
  {
  }

  lemma YearStep(y: int)
    requires 1 <= y
    ensures DaysBeforeYear(y + 1) == DaysBeforeYear(y) + YearLength(y)
  {
    var p := y - 1;
    DivStep(p, 4);
    DivStep(p, 100);
    DivStep(p, 400);
    assert DaysBeforeYear(y + 1) - DaysBeforeYear(y) == 365 + (y / 4 - p / 4) - (y / 100 - p / 100) + (y / 400 - p / 400);
    assert IsLeap(y) <==> y % 4 == 0 && (y % 100 != 0 || y % 400 == 0);
  }

  /** `d + timedelta(days=1)`. */
  function NextDay(d: Date): (r: Date)
    requires Valid(d)
    ensures Valid(r)
    ensures Ordinal(r) == Ordinal(d) + 1
  {
    if d.day < DaysInMonth(d.year, d.month) then Date(d.year, d.month, d.day + 1)
    else if d.month < 12 then MonthStep(d.year, d.month); Date(d.year, d.month + 1, 1)
    else MonthsFillYear(d.year); YearStep(d.year); Date(d.year + 1, 1, 1)
  }

  /** `d + timedelta(days=n)` for n >= 0. */
  function AddDays(d: Date, n: nat): (r: Date)
    requires Valid(d)
    ensures Valid(r)
    ensures Ordinal(r) == Ordinal(d) + n
    decreases n
  {
    if n == 0 then d else AddDays(NextDay(d), n - 1)
  }

  /** Python's comparison of dates: by year, then month, then day. */
  predicate Before(a: Date, b: Date) {
    a.year < b.year || (a.year == b.year && (a.month < b.month || (a.month == b.month && a.day < b.day)))
  }

  predicate BeforeOrSame(a: Date, b: Date) {
    a == b || Before(a, b)
  }

  /** `(b - a).days`. */
  function DaysBetween(a: Date, b: Date): int
    requires Valid(a) && Valid(b)
  {
    Ordinal(b) - Ordinal(a)
  }

  lemma {:induction false} DaysBeforeYearMonotone(y1: int, y2: int)
    requires 1 <= y1 <= y2
    ensures DaysBeforeYear(y1) + (if y1 < y2 then YearLength(y1) else 0) <= DaysBeforeYear(y2)
    decreases y2 - y1
  {
    if y1 < y2 {
      YearStep(y1);
      DaysBeforeYearMonotone(y1 + 1, y2);
    }
  }

  lemma DaysBeforeMonthMonotone(y: int, m1: int, m2: int)
    requires 1 <= m1 < m2 <= 12
    ensures DaysBeforeMonth(y, m1) + DaysInMonth(y, m1) <= DaysBeforeMonth(y, m2)
  {
  }

  lemma DayWithinYear(d: Date)
    requires Valid(d)
    ensures DaysBeforeMonth(d.year, d.month) + d.day <= YearLength(d.year)
  {
    if d.month < 12 {
      DaysBeforeMonthMonotone(d.year, d.month, 12);
    }
    MonthsFillYear(d.year);
  }

  lemma OrdinalLess(a: Date, b: Date)
    requires Valid(a) && Valid(b)
    requires Before(a, b)
    ensures Ordinal(a) < Ordinal(b)
  {
    if a.year < b.year {
      DayWithinYear(a);
      DaysBeforeYearMonotone(a.year, b.year);
    } else if a.month < b.month {
      DaysBeforeMonthMonotone(a.year, a.month, b.month);
    }
  }

  /** The calendar order of valid dates is the order of their ordinals. */
  lemma OrdinalOrder(a: Date, b: Date)
    requires Valid(a) && Valid(b)
    ensures Before(a, b) <==> Ordinal(a) < Ordinal(b)
    ensures a == b <==> Ordinal(a) == Ordinal(b)
  {
    if Before(a, b) {
      OrdinalLess(a, b);
    } else if a != b {
      OrdinalLess(b, a);
    }
  }

  lemma OrdinalInjective(a: Date, b: Date)
    requires Valid(a) && Valid(b)
    ensures Ordinal(a) == Ordinal(b) ==> a == b
  {
    OrdinalOrder(a, b);
  }

  /** `now.replace(day=1)`. */
  function FirstOfMonth(d: Date): (r: Date)
    requires Valid(d)
    ensures Valid(r) && BeforeOrSame(r, d)
    ensures r.year == d.year && r.month == d.month && r.day == 1
  {
    Date(d.year, d.month, 1)
  }

  /** `(now.replace(day=28) + timedelta(days=4)).replace(day=1)`. */
  function FirstOfNextMonth(d: Date): (r: Date)
    requires Valid(d)
  {
    var later := AddDays(Date(d.year, d.month, 28), 4);
    Date(later.year, later.month, 1)
  }

  /** Four days after the 28th always lands in the following month, so
      the expression yields day 1 of the next month (January of the
      next year after December). */
  lemma FirstOfNextMonthIsNextMonth(d: Date)
    requires Valid(d)
    ensures FirstOfNextMonth(d) == if d.month == 12 then Date(d.year + 1, 1, 1) else Date(d.year, d.month + 1, 1)
    ensures Before(d, FirstOfNextMonth(d))
  {
    var d0 := Date(d.year, d.month, 28);
    var d1 := NextDay(d0);
    var d2 := NextDay(d1);
    var d3 := NextDay(d2);
    var d4 := NextDay(d3);
    FourDays(d0);
    var n := if d.month == 12 then Date(d.year + 1, 1, 1) else Date(d.year, d.month + 1, 1);
    var dim := DaysInMonth(d.year, d.month);
    if dim == 28 {
      assert d1 == n;
    } else if dim == 29 {
      assert d1 == Date(d.year, d.month, 29);
      assert d2 == n;
    } else if dim == 30 {
      assert d2 == Date(d.year, d.month, 30);
      assert d3 == n;
    } else {
      assert d3 == Date(d.year, d.month, 31);
      assert d4 == n;
    }
  }

  /** Four steps of one day each. */
  lemma FourDays(d: Date)
    requires Valid(d)
    ensures AddDays(d, 4) == NextDay(NextDay(NextDay(NextDay(d))))
  {
    var d1 := NextDay(d);
    var d2 := NextDay(d1);
    var d3 := NextDay(d2);
    assert AddDays(d, 4) == AddDays(d1, 3) == AddDays(d2, 2) == AddDays(d3, 1);
  }

  /** The first of the next month comes the rest of d's month after d. */
  lemma FirstOfNextMonthOrdinal(d: Date)
    requires Valid(d)
    ensures Valid(FirstOfNextMonth(d))
    ensures Ordinal(FirstOfNextMonth(d)) == Ordinal(d) + DaysInMonth(d.year, d.month) - d.day + 1
  {
    FirstOfNextMonthIsNextMonth(d);
    if d.month < 12 {
      MonthStep(d.year, d.month);
    } else {
      MonthsFillYear(d.year);
      YearStep(d.year);
    }
  }

  /** A date fewer than a month's length of days on from the first of
      that month lies in that month. */
  lemma WithinMonth(x: Date, f: Date)
    requires Valid(x) && Valid(f) && f.day == 1
    ensures Ordinal(f) <= Ordinal(x) < Ordinal(f) + DaysInMonth(f.year, f.month) ==>
              x.year == f.year && x.month == f.month
  {
    OrdinalOrder(x, f);
    if x.year != f.year || x.month != f.month {
      OrdinalOrder(Date(f.year, f.month, DaysInMonth(f.year, f.month)), x);
    }
  }

  /** `date.isoformat()` / `strftime('%Y-%m-%d')`: the RFC 3339 full-date
      `date-fullyear "-" date-month "-" date-mday`. */
  function FullDate(d: Date): (s: string)
    requires Valid(d) && d.year <= 9999
    ensures |s| == 10 && s[4] == '-' && s[7] == '-'
  {
    FourDigits(d.year) + ("-" + (TwoDigits(d.month) + ("-" + TwoDigits(d.day))))
  }

  /** `datetime.strptime(s, '%Y-%m-%d')` on a ten-character full-date. */
  function ParseFullDate(s: string): Date
    requires |s| == 10 && AllDigits(s[..4]) && AllDigits(s[5..7]) && AllDigits(s[8..])
  {
    Date(ParseDigits(s[..4]), ParseDigits(s[5..7]), ParseDigits(s[8..]))
  }

  lemma ParseFourDigits(n: nat)
    requires n < 10000
    ensures ParseDigits(FourDigits(n)) == n
  {
    var s := FourDigits(n);
    var hi, lo := TwoDigits(n / 100), TwoDigits(n % 100);
    assert s[..3] == hi + lo[..1];
    assert s[..2] == hi;
    assert (hi + lo[..1])[..2] == hi;
    assert ParseDigits(s[..3]) == ParseDigits(hi) * 10 + DigitValue(lo[0]);
    assert ParseDigits(lo) == DigitValue(lo[0]) * 10 + DigitValue(lo[1]) by {
      assert lo[..1][..0] == [];
    }
  }

  /** Parsing the full-date text gives the date back. */
  lemma FullDateRoundTrip(d: Date)
    requires Valid(d) && d.year <= 9999
    ensures var s := FullDate(d);
            AllDigits(s[..4]) && AllDigits(s[5..7]) && AllDigits(s[8..]) && ParseFullDate(s) == d
  {
    var s := FullDate(d);
    assert s[..4] == FourDigits(d.year);
    assert s[5..7] == TwoDigits(d.month);
    assert s[8..] == TwoDigits(d.day);
    ParseFourDigits(d.year);
  }

  lemma FullDateInjective(a: Date, b: Date)
    requires Valid(a) && a.year <= 9999 && Valid(b) && b.year <= 9999
    requires FullDate(a) == FullDate(b)
    ensures a == b
  {
    FullDateRoundTrip(a);
    FullDateRoundTrip(b);
  }

  /** Full-date strings compare lexicographically exactly as the dates
      compare (the ordering note of section 5.1 of RFC 3339). */
  lemma FullDateOrder(a: Date, b: Date)
    requires Valid(a) && a.year <= 9999 && Valid(b) && b.year <= 9999
    ensures LexLess(FullDate(a), FullDate(b)) <==> Before(a, b)
    ensures LexLessEq(FullDate(a), FullDate(b)) <==> BeforeOrSame(a, b)
  {
    var ya, yb := FourDigits(a.year), FourDigits(b.year);
    var ma, mb := TwoDigits(a.month), TwoDigits(b.month);
    var da, db := TwoDigits(a.day), TwoDigits(b.day);
    var ta, tb := "-" + da, "-" + db;
    var ra, rb := ma + ta, mb + tb;
    LexLessConcat("-", da, "-", db);
    LexLessConcat(ma, ta, mb, tb);
    LexLessConcat("-", ra, "-", rb);
    LexLessConcat(ya, "-" + ra, yb, "-" + rb);
    FourDigitsOrder(a.year, b.year);
    TwoDigitsOrder(a.month, b.month);
    TwoDigitsOrder(a.day, b.day);
    if ya == yb { FourDigitsInjective(a.year, b.year); }
    if ma == mb { TwoDigitsInjective(a.month, b.month); }
    if FullDate(a) == FullDate(b) { FullDateInjective(a, b); }
  }

  /** `calendar.month_name[m]`. */
  function MonthName(m: int): (s: string)
    requires 1 <= m <= 12
    ensures |s| >= 3
  {
    ["January", "February", "March", "April", "May", "June", "July",
     "August", "September", "October", "November", "December"][m - 1]
  }

  /** The dates `current_date` takes in `while current_date <= stop:
      ...; current_date += timedelta(days=1)`. */
  function DayRange(cur: Date, stop: Date): (r: seq<Date>)
    requires Valid(cur) && Valid(stop)
    ensures |r| == if BeforeOrSame(cur, stop) then DaysBetween(cur, stop) + 1 else 0
    ensures forall k :: 0 <= k < |r| ==> Valid(r[k]) && Ordinal(r[k]) == Ordinal(cur) + k
    decreases Ordinal(stop) - Ordinal(cur)
  {
    OrdinalOrder(cur, stop);
    if BeforeOrSame(cur, stop) then
      var rest := DayRange(NextDay(cur), stop);
      assert forall k :: 0 < k <= |rest| ==> ([cur] + rest)[k] == rest[k - 1];
      [cur] + rest
    else []
  }

  /** One turn of the loop: a date not after `stop` is visited and the
      loop goes on from the next day; a later date ends it. */
  lemma DayRangeStep(cur: Date, stop: Date)
    requires Valid(cur) && Valid(stop)
    ensures BeforeOrSame(cur, stop) ==>
              Ordinal(cur) <= Ordinal(stop) && DayRange(cur, stop) == [cur] + DayRange(NextDay(cur), stop)
    ensures !BeforeOrSame(cur, stop) ==> DayRange(cur, stop) == []
  {
    OrdinalOrder(cur, stop);
  }

  /** The k-th loop date is k days after the first. */
  lemma DayRangeAt(cur: Date, stop: Date, k: nat)
    requires Valid(cur) && Valid(stop)
    requires k < |DayRange(cur, stop)|
    ensures DayRange(cur, stop)[k] == AddDays(cur, k)
  {
    OrdinalInjective(DayRange(cur, stop)[k], AddDays(cur, k));
  }

  /** Every date of the loop lies between the endpoints. */
  lemma DayRangeBounded(cur: Date, stop: Date, k: nat)
    requires Valid(cur) && Valid(stop)
    requires k < |DayRange(cur, stop)|
    ensures BeforeOrSame(cur, DayRange(cur, stop)[k]) && BeforeOrSame(DayRange(cur, stop)[k], stop)
  {
    var d := DayRange(cur, stop)[k];
    OrdinalOrder(cur, d);
    OrdinalOrder(d, stop);
    OrdinalOrder(cur, stop);
  }
}
