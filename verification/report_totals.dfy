/** reportify's xlsxwriter totals (`reportify/excel_handler.py`): the
    per-day total row, the calendar-month bucket formulas, the grand
    total that adds the bucket rows back up, the bucket labels, and the
    cells `append_data_to_sheet` and `append_all_totals` write. */
module ReportTotals {
  import opened Wrappers
  import opened Text
  import opened Calendar
  import opened Columns
  import opened Formulas
  import opened Layout
  import opened DayTotals
  import opened MonthBuckets

  /** `append_data_to_sheet(...)`: the block at `start_row`, its total row
      counting from `start_row + 2`, and "" below it. */
  function AppendDataToSheet(s: Sheet, data: seq<seq<string>>, date: Date, users: nat, startRow: int): Sheet
    requires Valid(date) && date.year <= 9999
  {
    WriteDayBlock(s, data, TotalRow(FullDate(date), startRow + 2, users), startRow, "")
  }

  /** `total_row_end = num_days * 99 + 1`. */
  function TotalRowEnd(days: nat): int {
    days * BlockRows + 1
  }

  /** The rows of `range(100, total_row_end + 1, 99)`: one per day, row
      100 + 99k for day k. */
  lemma DayTermRows(days: nat)
    ensures |RowRange(100, TotalRowEnd(days) + 1)| == days
    ensures forall k :: 0 <= k < days ==> RowRange(100, TotalRowEnd(days) + 1)[k] == 100 + BlockRows * k
  {
  }

  /** Rows 100 + 99k are, 1-based, the total rows `start_row + 97` of the
      blocks main.py writes at 0-based `start_row = 2 + 99k`. */
  lemma DayTermRowIsTotalRow(k: nat)
    ensures (100 + BlockRows * k) - 1 == (2 + BlockRows * k) + SlotCount + 1
  {
  }

  /** The term a day contributes to its bucket: the minutes of the H:MM
      in the day's total cell. */
  function DayTerm(col: string, day: nat): string {
    MinutesOfTime(Ref(col, 100 + BlockRows * day))
  }

  /** One bucket's formula: the sum of its days' terms, shown as H:MM. */
  function BucketFormula(col: string, bucket: seq<nat>): (f: string)
    ensures f == TimeText("(" + Join("+", seq(|bucket|, j requires 0 <= j < |bucket| => DayTerm(col, bucket[j]))) + ")")
  {
    var terms := seq(|bucket|, j requires 0 <= j < |bucket| => DayTerm(col, bucket[j]));
    TimeText("(" + Join("+", terms) + ")")
  }

  /** The month buckets of the `num_days` days from `start`. */
  function DayBuckets(start: Date, days: nat): seq<seq<nat>>
    requires Valid(start)
  {
    Buckets(start, DaysFrom(start, days))
  }

  /** The grand-total formula of one user: each bucket row's H:MM read
      back by splitting at the colon, summed, shown as H:MM. */
  function GrandTotalFormula(col: string, days: nat, count: nat): string {
    var parts := seq(count, idx requires 0 <= idx < count => MinutesBySplit(Ref(col, TotalRowEnd(days) + idx + 4)));
    TimeText("(" + Join("+", parts) + ")")
  }

  /** One user's bucket formulas, in bucket order. */
  function ColumnBuffers(col: string, b: seq<seq<nat>>): (r: seq<string>)
    ensures |r| == |b|
    ensures forall j :: 0 <= j < |b| ==> r[j] == BucketFormula(col, b[j])
  {
    seq(|b|, j requires 0 <= j < |b| => BucketFormula(col, b[j]))
  }

  /** The grand-total formulas of users 0 .. n - 1, in columns B, C, ... */
  function GrandRow(users: nat, days: nat, count: nat): (r: seq<string>)
    ensures |r| == users
    ensures forall i :: 0 <= i < users ==> r[i] == GrandTotalFormula(ColumnName(i + 2), days, count)
  {
    seq(users, i requires 0 <= i < users => GrandTotalFormula(XlColToName(i + 1), days, count))
  }

  /** The bucket formulas of users 0 .. n - 1. */
  function UserBuffers(users: nat, b: seq<seq<nat>>): (r: seq<seq<string>>)
    ensures |r| == users
    ensures forall i :: 0 <= i < users ==> r[i] == ColumnBuffers(ColumnName(i + 2), b)
  {
    seq(users, i requires 0 <= i < users => ColumnBuffers(XlColToName(i + 1), b))
  }

  /** `generate_all_totals(n, num_days, start, stop)`: the grand-total row
      (the period, then one formula per user) and, per user, the list of
      bucket formulas (the source's dict `{idx: row}` over 0 .. count - 1
      is this list). */
  function GenerateAllTotals(users: nat, days: nat, start: Date, stop: Date): (r: AllTotals)
    requires Valid(start) && start.year <= 9999 && Valid(stop) && stop.year <= 9999
    ensures r.row == [FullDate(start) + " / " + FullDate(stop)] + GrandRow(users, days, |DayBuckets(start, days)|)
    ensures r.buffers == UserBuffers(users, DayBuckets(start, days))
  {
    var b := DayBuckets(start, days);
    AllTotals([FullDate(start) + " / " + FullDate(stop)] + GrandRow(users, days, |b|), UserBuffers(users, b))
  }

  /** Month and year of bucket row k's label. */
  function LabelMonth(start: Date, k: nat): (m: int)
    requires Valid(start)
    ensures 1 <= m <= 12
  {
    (start.month + k - 1) % 12 + 1
  }

  function LabelYear(start: Date, k: nat): int
    requires Valid(start)
  {
    start.year + (start.month + k - 1) / 12
  }

  /** Label k names the month k months after the start's. */
  lemma LabelMonthIndex(start: Date, k: nat)
    requires Valid(start)
    ensures LabelYear(start, k) * 12 + LabelMonth(start, k) - 1 == MonthIndex(start) + k
  {
    var q := start.month + k - 1;
    assert q == 12 * (q / 12) + q % 12;
  }

  /** The text in column 0 of bucket row k. */
  function BucketLabel(start: Date, stop: Date, k: nat): string
    requires Valid(start) && Valid(stop)
  {
    var m := LabelMonth(start, k);
    var y := LabelYear(start, k);
    var first := if start.month == m then TwoDigits(start.day) else "01";
    var last := if start.month == m then TwoDigits(stop.day) else TwoDigits(DaysInMonth(y, m));
    IntToString(y) + ", " + MonthName(m) + " " + first + "-" + last
  }

  /** The label of bucket row k names the month k months after the
      start's, which is the month of every day in bucket k. */
  lemma BucketLabelNamesBucketMonth(start: Date, days: nat, k: nat, x: nat)
    requires Valid(start) && days > 0
    requires k < |DayBuckets(start, days)| && x in DayBuckets(start, days)[k]
    ensures x < days
    ensures AddDays(start, x).year == LabelYear(start, k) && AddDays(start, x).month == LabelMonth(start, k)
  {
    var ds := DaysFrom(start, days);
    BucketsOfConsecutiveDays(start, days);
    MonthsFromAt(ds, Buckets(start, ds), 0, MonthIndex(start), k, x);
    var d := ds[x];
    LabelMonthIndex(start, k);
    MonthIndexInjective(d, LabelYear(start, k), LabelMonth(start, k));
  }

  lemma MonthIndexInjective(d: Date, y: int, m: int)
    requires 1 <= d.month <= 12 && 1 <= m <= 12
    requires MonthIndex(d) == y * 12 + m - 1
    ensures d.year == y && d.month == m
  {
  }

  /** The days of a range that stays in one month form one bucket. */
  lemma SingleMonthOneBucket(start: Date, stop: Date)
    requires Valid(start) && Valid(stop) && BeforeOrSame(start, stop)
    requires start.year == stop.year && start.month == stop.month
    ensures |DayBuckets(start, DaysBetween(start, stop) + 1)| == 1
  {
    OrdinalOrder(start, stop);
    var n := DaysBetween(start, stop) + 1;
    BucketsOfConsecutiveDays(start, n);
    OrdinalInjective(AddDays(start, n - 1), stop);
  }

  /** A range inside one month has exactly one bucket row, labelled with
      the start and stop days. */
  lemma SingleMonthLabel(start: Date, stop: Date)
    requires Valid(start) && Valid(stop) && BeforeOrSame(start, stop)
    requires start.year == stop.year && start.month == stop.month
    ensures |DayBuckets(start, DaysBetween(start, stop) + 1)| == 1
    ensures BucketLabel(start, stop, 0)
         == IntToString(start.year) + ", " + MonthName(start.month) + " " + TwoDigits(start.day) + "-" + TwoDigits(stop.day)
  {
    SingleMonthOneBucket(start, stop);
    assert LabelMonth(start, 0) == start.month && LabelYear(start, 0) == start.year;
  }

  /** Twelve months on, the label's month is the start's again, so it
      takes the start and stop days rather than the month's bounds. */
  lemma LabelRepeatsStartMonth(start: Date, stop: Date, k: nat)
    requires Valid(start) && Valid(stop) && k % 12 == 0
    ensures LabelMonth(start, k) == start.month && LabelYear(start, k) == start.year + k / 12
    ensures BucketLabel(start, stop, k)
         == IntToString(start.year + k / 12) + ", " + MonthName(start.month) + " " + TwoDigits(start.day) + "-" + TwoDigits(stop.day)
  {
    WholeYears(start.month - 1, k);
    assert LabelMonth(start, k) == start.month;
  }

  /** Adding whole years to a month offset r < 12 keeps it as the
      remainder and adds the years to the quotient. */
  lemma WholeYears(r: int, k: nat)
    requires 0 <= r < 12 && k % 12 == 0
    ensures (r + k) % 12 == r && (r + k) / 12 == k / 12
  {
    var q := k / 12;
    assert k == 12 * q;
    assert r + k == 12 * q + r;
  }

  /** Bucket row k: its label, then every user's k-th bucket formula (all
      users have the same number of buckets, so `buffer.get(k, "")` never
      falls back to ""). */
  function BucketRow(t: AllTotals, start: Date, stop: Date, k: nat): (r: seq<string>)
    requires Valid(start) && Valid(stop)
    requires forall i :: 0 <= i < |t.buffers| ==> k < |t.buffers[i]|
    ensures |r| == |t.buffers| + 1 && r[0] == BucketLabel(start, stop, k)
    ensures forall i :: 0 <= i < |t.buffers| ==> r[i + 1] == t.buffers[i][k]
  {
    [BucketLabel(start, stop, k)] + seq(|t.buffers|, i requires 0 <= i < |t.buffers| => t.buffers[i][k])
  }

  /** The bucket rows 0 .. count - 1. */
  function BucketRows(t: AllTotals, start: Date, stop: Date, count: nat): (rows: seq<seq<string>>)
    requires Valid(start) && Valid(stop)
    requires forall i :: 0 <= i < |t.buffers| ==> count <= |t.buffers[i]|
    ensures |rows| == count
    ensures forall k :: 0 <= k < count ==> rows[k] == BucketRow(t, start, stop, k)
  {
    seq(count, k requires 0 <= k < count => BucketRow(t, start, stop, k))
  }

  /** The sheet before the bucket rows: header and grand-total row. */
  function TotalsHead(s: Sheet, t: AllTotals, names: seq<string>, startRow: int): Sheet {
    WriteRow(WriteRow(s, startRow, ["ALL TOTAL"] + names), startRow + 1, t.row)
  }

  /** `append_all_totals(...)`: the header `["ALL TOTAL"] + names` at
      `start_row`, the grand totals below it, then one row per bucket.
      With no users `max()` of an empty sequence raises `ValueError`. */
  function AppendAllTotals(s: Sheet, days: nat, names: seq<string>, startRow: int, start: Date, stop: Date): (r: Result<Sheet, string>)
    requires Valid(start) && start.year <= 9999 && Valid(stop) && stop.year <= 9999
    ensures r.Failure? <==> |names| == 0
    ensures r.Failure? ==> r.error == "ValueError"
  {
    if |names| == 0 then Failure("ValueError")
    else
      var t := GenerateAllTotals(|names|, days, start, stop);
      var count := |DayBuckets(start, days)|;
      Success(WriteRows(TotalsHead(s, t, names, startRow), startRow + 2, BucketRows(t, start, stop, count)))
  }

  /** Cell c of the sheet row `start_row + 2 + idx` holds cell c of bucket
      row idx. */
  lemma AllTotalsBucketCell(s: Sheet, days: nat, names: seq<string>, startRow: int, start: Date, stop: Date, idx: nat, c: nat)
    requires Valid(start) && start.year <= 9999 && Valid(stop) && stop.year <= 9999
    requires 0 < |names| && idx < |DayBuckets(start, days)| && c <= |names|
    ensures var r := AppendAllTotals(s, days, names, startRow, start, stop);
      r.Success?
      && Cell(r.value, startRow + 2 + idx, c)
         == BucketRow(GenerateAllTotals(|names|, days, start, stop), start, stop, idx)[c]
  {
    var t := GenerateAllTotals(|names|, days, start, stop);
    var rows := BucketRows(t, start, stop, |DayBuckets(start, days)|);
    assert rows[idx] == BucketRow(t, start, stop, idx);
  }

  /** The grand total of user i reads, for each bucket idx, the cell that
      holds user i's bucket idx formula, once `append_all_totals` is given
      the row main.py reaches after the last day, `2 + 99 * num_days`,
      which is `total_row_end + 1`. The reference `{col}{total_row_end +
      idx + 4}` names 0-based row `total_row_end + idx + 3` and, for col =
      `ColumnName(i + 2)`, 0-based column i + 1 (`ColumnNumberOfName`);
      column 0 of that row holds the bucket's label. */
  lemma GrandTotalReadsBucketRows(s: Sheet, days: nat, names: seq<string>, start: Date, stop: Date, i: nat, idx: nat)
    requires Valid(start) && start.year <= 9999 && Valid(stop) && stop.year <= 9999
    requires i < |names| && idx < |DayBuckets(start, days)|
    ensures var r := AppendAllTotals(s, days, names, TotalRowEnd(days) + 1, start, stop);
      r.Success?
      && Cell(r.value, (TotalRowEnd(days) + idx + 4) - 1, i + 1)
         == BucketFormula(ColumnName(i + 2), DayBuckets(start, days)[idx])
      && Cell(r.value, (TotalRowEnd(days) + idx + 4) - 1, 0) == BucketLabel(start, stop, idx)
  {
    var startRow := TotalRowEnd(days) + 1;
    AllTotalsBucketCell(s, days, names, startRow, start, stop, idx, i + 1);
    AllTotalsBucketCell(s, days, names, startRow, start, stop, idx, 0);
    assert (TotalRowEnd(days) + idx + 4) - 1 == startRow + 2 + idx;
    BufferFormulaAt(|names|, days, start, stop, i, idx);
  }

  lemma BufferFormulaAt(users: nat, days: nat, start: Date, stop: Date, i: nat, idx: nat)
    requires Valid(start) && start.year <= 9999 && Valid(stop) && stop.year <= 9999
    requires i < users && idx < |DayBuckets(start, days)|
    ensures var t := GenerateAllTotals(users, days, start, stop);
      i < |t.buffers| && idx < |t.buffers[i]|
      && t.buffers[i][idx] == BucketFormula(ColumnName(i + 2), DayBuckets(start, days)[idx])
  {
    var t := GenerateAllTotals(users, days, start, stop);
    var b := DayBuckets(start, days);
    assert t.buffers[i] == ColumnBuffers(ColumnName(i + 2), b);
  }

  predicate Below(xs: seq<nat>, n: int) {
    forall j :: 0 <= j < |xs| ==> xs[j] < n
  }

  predicate AllBelow(b: seq<seq<nat>>, n: int) {
    forall j :: 0 <= j < |b| ==> Below(b[j], n)
  }

  /** Sum of the values m[x] over the day indices x. */
  function SumAt(m: seq<int>, xs: seq<nat>): int
    requires Below(xs, |m|)
  {
    if |xs| == 0 then 0 else SumAt(m, xs[..|xs| - 1]) + m[xs[|xs| - 1]]
  }

  /** The integer meaning of the bucket formulas added up by the grand
      total: the sum over the buckets of the sum over each bucket. */
  function SumBuckets(m: seq<int>, b: seq<seq<nat>>): int
    requires AllBelow(b, |m|)
  {
    if |b| == 0 then 0 else SumBuckets(m, b[..|b| - 1]) + SumAt(m, b[|b| - 1])
  }

  lemma {:induction false} SumAtAppend(m: seq<int>, a: seq<nat>, c: seq<nat>)
    requires Below(a, |m|) && Below(c, |m|)
    ensures Below(a + c, |m|)
    ensures SumAt(m, a + c) == SumAt(m, a) + SumAt(m, c)
    decreases |c|
  {
    if |c| > 0 {
      var c' := c[..|c| - 1];
      assert (a + c)[..|a + c| - 1] == a + c';
      assert (a + c)[|a + c| - 1] == c[|c| - 1];
      SumAtAppend(m, a, c');
    } else {
      assert a + c == a;
    }
  }

  lemma {:induction false} SumBucketsFlatten(m: seq<int>, b: seq<seq<nat>>)
    requires AllBelow(b, |m|)
    ensures Below(Flatten(b), |m|)
    ensures SumBuckets(m, b) == SumAt(m, Flatten(b))
  {
    if |b| > 0 {
      var p := b[..|b| - 1];
      assert AllBelow(p, |m|);
      SumBucketsFlatten(m, p);
      assert Flatten(b) == Flatten(p) + b[|b| - 1];
      SumAtAppend(m, Flatten(p), b[|b| - 1]);
    }
  }

  lemma {:induction false} SumAtIndices(m: seq<int>, n: nat)
    requires n <= |m|
    ensures Below(Indices(0, n), |m|)
    ensures SumAt(m, Indices(0, n)) == Sum(m[..n])
  {
    if n > 0 {
      assert Indices(0, n)[..n - 1] == Indices(0, n - 1);
      assert m[..n][..n - 1] == m[..n - 1];
      SumAtIndices(m, n - 1);
    }
  }

  /** The buckets hold only indices of the days. */
  lemma DayBucketsBelow(start: Date, days: nat)
    requires Valid(start) && days > 0
    ensures AllBelow(DayBuckets(start, days), days)
    ensures Flatten(DayBuckets(start, days)) == Indices(0, days)
  {
    var ds := DaysFrom(start, days);
    var b := Buckets(start, ds);
    BucketsOfConsecutiveDays(start, days);
    assert MonthsFrom(ds, b, 0, MonthIndex(start));
    assert |ds| == days;
    forall j | 0 <= j < |b| ensures Below(b[j], days) {
      forall k | 0 <= k < |b[j]| ensures b[j][k] < days {
        var x := b[j][k];
        MonthsFromAt(ds, b, 0, MonthIndex(start), j, x);
      }
    }
  }

  /** Because the month buckets split the days without loss or
      repetition, adding up the bucket sums gives the sum of all day
      totals: the grand total counts every day exactly once. */
  lemma GrandTotalIsSumOfDays(start: Date, m: seq<int>)
    requires Valid(start) && |m| > 0
    ensures AllBelow(DayBuckets(start, |m|), |m|)
    ensures SumBuckets(m, DayBuckets(start, |m|)) == Sum(m)
  {
    var n := |m|;
    var b := DayBuckets(start, n);
    DayBucketsBelow(start, n);
    SumBucketsFlatten(m, b);
    SumAtIndices(m, n);
    assert m[..n] == m;
  }
}
