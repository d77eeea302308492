/** sheetify's gspread totals (`sheetify/sheetify/sheet_handler.py`) and
    the sheet its `main` builds by appending: per day the 97-row block,
    then one total row, so day k occupies 1-based rows 1 + 98k .. 98 + 98k.
    The grand total is one `FILTER` formula per user that sums the cells
    of the rows in its range whose column A matches "TOTAL*". */
module SheetTotals {
  import opened Wrappers
  import opened Text
  import opened Columns
  import opened Formulas
  import opened Layout
  import opened DayTotals
  import opened Occupancy
  import opened Users
  import opened DayGrid

  /** The letters `get_column_letter(col_index)` gives for `col_index` in
      `range(lo, hi)`, in order; the first index past "ZZZ" raises. */
  function ColumnLetters(lo: int, hi: int): (r: Result<seq<string>, string>)
    requires 1 <= lo
    ensures r.Success? <==> lo >= hi || hi - 1 <= MaxColumn
    ensures r.Success? ==> |r.value| == if lo < hi then hi - lo else 0
    ensures r.Success? ==> forall i :: 0 <= i < |r.value| ==> r.value[i] == ColumnName(lo + i)
    ensures r.Failure? ==> r.error == "Invalid column index " + IntToString(if lo > MaxColumn then lo else MaxColumn + 1)
    decreases hi - lo
  {
    if lo >= hi then Success([])
    else match GetColumnLetter(lo)
      case Failure(e) => Failure(e)
      case Success(col) =>
        var rest := ColumnLetters(lo + 1, hi);
        if rest.Failure? then
          assert (if lo + 1 > MaxColumn then lo + 1 else MaxColumn + 1) == MaxColumn + 1;
          rest
        else
          assert forall i :: 0 < i <= |rest.value| ==> ([col] + rest.value)[i] == rest.value[i - 1];
          Success([col] + rest.value)
  }

  /** The day-total formulas of the loop `for col_index in range(lo, hi)`,
      one per column letter. */
  function TotalFormulas(lo: int, hi: int, startRow: int): (r: Result<seq<string>, string>)
    requires 1 <= lo
    ensures r.Success? <==> lo >= hi || hi - 1 <= MaxColumn
    ensures r.Success? ==> |r.value| == if lo < hi then hi - lo else 0
    ensures r.Success? ==> forall i :: 0 <= i < |r.value| ==> r.value[i] == DayTotalFormula(ColumnName(lo + i), startRow)
    ensures r.Failure? ==> r == Failure("Invalid column index " + IntToString(if lo > MaxColumn then lo else MaxColumn + 1))
  {
    match ColumnLetters(lo, hi)
    case Failure(e) => Failure(e)
    case Success(cols) =>
      assert forall i :: 0 <= i < |cols| ==> cols[i] == ColumnName(lo + i);
      Success(seq(|cols|, i requires 0 <= i < |cols| => DayTotalFormula(cols[i], startRow)))
  }

  /** `generate_total_rows(current_date, start_row, n)`: a single row, the
      label and one day-total formula per user in columns B, C, ... */
  function GenerateTotalRows(date: string, startRow: int, users: nat): (r: Result<seq<seq<string>>, string>)
  {
    var cells := TotalFormulas(2, users + 2, startRow);
    if cells.Failure? then Failure(cells.error) else Success([["TOTAL [" + date + "]"] + cells.value])
  }

  /** The openpyxl-named row agrees with the total row of the xlsxwriter
      writers; it fails exactly when a user would sit past column "ZZZ",
      and then on index 18279. */
  lemma GenerateTotalRowsAgrees(date: string, startRow: int, users: nat)
    ensures GenerateTotalRows(date, startRow, users).Success? <==> users + 1 <= MaxColumn
    ensures users + 1 <= MaxColumn ==> GenerateTotalRows(date, startRow, users) == Success([TotalRow(date, startRow, users)])
    ensures users + 1 > MaxColumn ==>
      GenerateTotalRows(date, startRow, users) == Failure("Invalid column index " + IntToString(MaxColumn + 1))
  {
    var cells := TotalFormulas(2, users + 2, startRow);
    if cells.Success? {
      assert cells.value == TotalCells(users, startRow);
    }
  }

  /** What the appends leave on the sheet, and the error that stopped
      them, if any. */
  datatype Appended = Appended(rows: seq<seq<string>>, error: Option<string>)

  /** `append_table_to_sheet` with a user count: the block is appended
      first, then the total row; a failing total row leaves the block
      appended. */
  function AppendTableToSheet(ws: seq<seq<string>>, data: seq<seq<string>>, date: string, users: nat, startRow: int): (a: Appended)
    ensures |a.rows| >= |ws| + |data| && a.rows[..|ws| + |data|] == ws + data
    ensures a.error.None? <==> users + 1 <= MaxColumn
    ensures a.error.None? ==> a.rows == ws + data + [TotalRow(date, startRow, users)]
    ensures a.error.Some? ==> a.rows == ws + data
  {
    GenerateTotalRowsAgrees(date, startRow, users);
    match GenerateTotalRows(date, startRow, users)
    case Success(t) => Appended(ws + data + t, None)
    case Failure(e) => Appended(ws + data, Some(e))
  }

  /** `main`'s day loop: block k is appended with `row_index` 2 + 98k; the
      first error ends the run. */
  function AppendDays(blocks: seq<seq<seq<string>>>, dates: seq<string>, users: nat): Appended
    requires |dates| == |blocks|
    decreases |blocks|
  {
    if |blocks| == 0 then Appended([], None)
    else
      var n := |blocks| - 1;
      var prev := AppendDays(blocks[..n], dates[..n], users);
      if prev.error.Some? then prev
      else AppendTableToSheet(prev.rows, blocks[n], dates[n], users, 2 + 98 * n)
  }

  /** The rows of day k in `rows`: its block at 0-based rows 98k ..
      98k + 96 and its total row at 98k + 97, for every k < n. */
  predicate DaysLaidOut(rows: seq<seq<string>>, blocks: seq<seq<seq<string>>>, dates: seq<string>, users: nat, n: nat)
    requires n <= |blocks| && n <= |dates| && |rows| == 98 * n
    requires forall k :: 0 <= k < |blocks| ==> |blocks[k]| == SlotCount + 1
  {
    (forall k, j :: 0 <= k < n && 0 <= j <= SlotCount ==> rows[98 * k + j] == blocks[k][j])
    && (forall k :: 0 <= k < n ==> rows[98 * k + SlotCount + 1] == TotalRow(dates[k], 2 + 98 * k, users))
  }

  /** One more day appended keeps the earlier days in place and lays the
      new one out after them. */
  lemma DaysLaidOutSnoc(prev: seq<seq<string>>, blocks: seq<seq<seq<string>>>, dates: seq<string>, users: nat, n: nat)
    requires n < |blocks| && n < |dates| && |prev| == 98 * n
    requires forall k :: 0 <= k < |blocks| ==> |blocks[k]| == SlotCount + 1
    requires DaysLaidOut(prev, blocks, dates, users, n)
    ensures DaysLaidOut(prev + blocks[n] + [TotalRow(dates[n], 2 + 98 * n, users)], blocks, dates, users, n + 1)
  {
    var rows := prev + blocks[n] + [TotalRow(dates[n], 2 + 98 * n, users)];
    forall k, j | 0 <= k < n + 1 && 0 <= j <= SlotCount ensures rows[98 * k + j] == blocks[k][j] {
      if k < n {
        MulLess(k, n);
        assert rows[98 * k + j] == prev[98 * k + j];
      } else {
        assert rows[98 * n + j] == blocks[n][j];
      }
    }
    forall k | 0 <= k < n + 1 ensures rows[98 * k + SlotCount + 1] == TotalRow(dates[k], 2 + 98 * k, users) {
      if k < n {
        MulLess(k, n);
        assert rows[98 * k + SlotCount + 1] == prev[98 * k + SlotCount + 1];
      }
    }
  }

  /** A day's block and total row appended after the earlier days'. */
  lemma AppendDaysLast(blocks: seq<seq<seq<string>>>, dates: seq<string>, users: nat)
    requires |dates| == |blocks| > 0 && users + 1 <= MaxColumn
    requires AppendDays(blocks[..|blocks| - 1], dates[..|blocks| - 1], users).error.None?
    ensures var n := |blocks| - 1;
      AppendDays(blocks, dates, users)
      == Appended(AppendDays(blocks[..n], dates[..n], users).rows + blocks[n] + [TotalRow(dates[n], 2 + 98 * n, users)], None)
  {
  }

  /** A day laid out among the first n of `blocks` is laid out the same
      among the first n of any longer list of days. */
  lemma DaysLaidOutPrefix(rows: seq<seq<string>>, blocks: seq<seq<seq<string>>>, dates: seq<string>, users: nat, n: nat)
    requires n < |blocks| && |dates| == |blocks| && |rows| == 98 * n
    requires forall k :: 0 <= k < |blocks| ==> |blocks[k]| == SlotCount + 1
    requires DaysLaidOut(rows, blocks[..n], dates[..n], users, n)
    ensures DaysLaidOut(rows, blocks, dates, users, n)
  {
    forall k, j | 0 <= k < n && 0 <= j <= SlotCount ensures rows[98 * k + j] == blocks[k][j] {
      assert blocks[..n][k] == blocks[k];
    }
    forall k | 0 <= k < n ensures rows[98 * k + SlotCount + 1] == TotalRow(dates[k], 2 + 98 * k, users) {
      assert dates[..n][k] == dates[k];
    }
  }

  /** Where `main`'s appends put everything: day k's block at 0-based
      rows 98k .. 98k + 96 and its total row at 98k + 97. */
  lemma {:induction false} AppendDaysLayout(blocks: seq<seq<seq<string>>>, dates: seq<string>, users: nat)
    requires |dates| == |blocks| && users + 1 <= MaxColumn
    requires forall k :: 0 <= k < |blocks| ==> |blocks[k]| == SlotCount + 1
    ensures var a := AppendDays(blocks, dates, users);
      a.error.None? && |a.rows| == 98 * |blocks| && DaysLaidOut(a.rows, blocks, dates, users, |blocks|)
    decreases |blocks|
  {
    if |blocks| > 0 {
      var n := |blocks| - 1;
      var prev := AppendDays(blocks[..n], dates[..n], users).rows;
      AppendDaysLayout(blocks[..n], dates[..n], users);
      AppendDaysLast(blocks, dates, users);
      DaysLaidOutPrefix(prev, blocks, dates, users, n);
      DaysLaidOutSnoc(prev, blocks, dates, users, n);
    }
  }

  lemma MulLess(k: int, n: int)
    requires 0 <= k < n
    ensures 98 * k + 98 <= 98 * n
  {
  }

  /** The worksheet after appending `rows` to an empty sheet: appended row
      i is 1-based row i + 1. */
  function AsSheet(rows: seq<seq<string>>): Sheet {
    WriteRows(map[], 0, rows)
  }

  /** Day k's rows inside a laid-out sheet. */
  lemma LaidOutRow(rows: seq<seq<string>>, blocks: seq<seq<seq<string>>>, dates: seq<string>, users: nat, n: nat, k: nat, j: nat)
    requires n <= |blocks| && n <= |dates| && |rows| == 98 * n
    requires forall d :: 0 <= d < |blocks| ==> |blocks[d]| == SlotCount + 1
    requires DaysLaidOut(rows, blocks, dates, users, n) && k < n && j <= SlotCount
    ensures 98 * k + j < |rows| && rows[98 * k + j] == blocks[k][j]
  {
    MulLess(k, n);
  }

  /** A block appended at 0-based row `base`: the COUNTIF over its slot
      rows counts the block's non-empty slot cells of column c. */
  lemma BlockColumnCount(rows: seq<seq<string>>, base: nat, block: seq<seq<string>>, width: nat, c: nat)
    requires WellFormedBlock(block, width) && c < width && base + SlotCount + 1 <= |rows|
    requires forall j :: 0 <= j <= SlotCount ==> rows[base + j] == block[j]
    ensures CountNonEmpty(AsSheet(rows), c, base + 1, base + SlotCount) == NonEmpty(Column(block, c, 1, SlotCount + 1))
  {
    var s := AsSheet(rows);
    var cells := Column(block, c, 1, SlotCount + 1);
    forall j | 0 <= j < |cells| ensures Cell(s, base + 1 + j, c) == cells[j] {
      assert rows[base + (1 + j)] == block[1 + j];
    }
    CountNonEmptyIsNonEmpty(s, c, base + 1, cells);
  }

  /** On a laid-out sheet, day k's total formula counts user i's slot
      cells of day k's block. */
  lemma LaidOutDayTotal(rows: seq<seq<string>>, blocks: seq<seq<seq<string>>>, dates: seq<string>, users: nat, k: nat, i: nat)
    requires |dates| == |blocks| && k < |blocks| && i < users && |rows| == 98 * |blocks|
    requires forall d :: 0 <= d < |blocks| ==> |blocks[d]| == SlotCount + 1
    requires forall d :: 0 <= d < |blocks| ==> WellFormedBlock(blocks[d], users + 1)
    requires DaysLaidOut(rows, blocks, dates, users, |blocks|)
    ensures WellFormedBlock(blocks[k], users + 1)
    ensures DayTotalMinutes(AsSheet(rows), ColumnName(i + 2), 2 + 98 * k)
         == 15 * NonEmpty(Column(blocks[k], i + 1, 1, SlotCount + 1))
  {
    assert WellFormedBlock(blocks[k], users + 1);
    forall j | 0 <= j <= SlotCount ensures rows[98 * k + j] == blocks[k][j] {
      LaidOutRow(rows, blocks, dates, users, |blocks|, k, j);
    }
    BlockColumnCount(rows, 98 * k, blocks[k], users + 1, i + 1);
    DayTotalOfColumn(AsSheet(rows), i, 98 * k);
  }

  /** Day k's total formula, with `start_row` = 2 + 98k, counts exactly
      user i's 96 slot cells of day k's block: the rows `main` advances by
      land the COUNTIF on the slot rows. */
  lemma DayTotalCountsUserSlots(blocks: seq<seq<seq<string>>>, dates: seq<string>, users: nat, k: nat, i: nat)
    requires |dates| == |blocks| && users + 1 <= MaxColumn && k < |blocks| && i < users
    requires forall d :: 0 <= d < |blocks| ==> WellFormedBlock(blocks[d], users + 1)
    ensures WellFormedBlock(blocks[k], users + 1)
    ensures DayTotalMinutes(AsSheet(AppendDays(blocks, dates, users).rows), ColumnName(i + 2), 2 + 98 * k)
         == 15 * NonEmpty(Column(blocks[k], i + 1, 1, SlotCount + 1))
  {
    forall d | 0 <= d < |blocks| ensures |blocks[d]| == SlotCount + 1 {
      assert WellFormedBlock(blocks[d], users + 1);
    }
    AppendDaysLayout(blocks, dates, users);
    LaidOutDayTotal(AppendDays(blocks, dates, users).rows, blocks, dates, users, k, i);
  }

  /** With the "-" default, a slot nobody wrote is non-empty too: unless a
      stored description is itself empty, every slot of a user's column
      counts. */
  lemma DashFillerFillsColumn(date: string, us: OrderedDict, g: Grid, slots: seq<string>, i: nat)
    requires i < |us|
    requires forall slot :: Lookup(g, us[i].1, slot) != Some("")
    ensures NonEmpty(Column(DayBlock(date, us, g, slots, "-"), i + 1, 1, |slots| + 1)) == |slots|
  {
    var cells := Column(DayBlock(date, us, g, slots, "-"), i + 1, 1, |slots| + 1);
    forall j | 0 <= j < |cells| ensures cells[j] != "" {
      BlockCellReads(date, us, g, slots, i, j);
      assert Lookup(g, us[i].1, slots[j]) != Some("");
    }
    NonEmptyBound(cells);
  }

  lemma BlockCellReads(date: string, us: OrderedDict, g: Grid, slots: seq<string>, i: nat, j: nat)
    requires i < |us| && j < |slots|
    ensures var cells := Column(DayBlock(date, us, g, slots, "-"), i + 1, 1, |slots| + 1);
      |cells| == |slots| && cells[j] == Read(g, us[i].1, slots[j], "-")
  {
  }

  /** So on sheetify's sheet every day total of such a user counts all
      96 slots: 1440 minutes (displayed "24:00", see `WholeDayShown`),
      whatever was worked. */
  lemma DashFillerDayTotalIsWholeDay(blocks: seq<seq<seq<string>>>, dates: seq<string>, us: OrderedDict,
                                     g: Grid, slots: seq<string>, k: nat, i: nat)
    requires |dates| == |blocks| && |us| + 1 <= MaxColumn && k < |blocks| && i < |us| && |slots| == SlotCount
    requires forall d :: 0 <= d < |blocks| ==> WellFormedBlock(blocks[d], |us| + 1)
    requires blocks[k] == DayBlock(dates[k], us, g, slots, "-")
    requires forall slot :: Lookup(g, us[i].1, slot) != Some("")
    ensures DayTotalMinutes(AsSheet(AppendDays(blocks, dates, |us|).rows), ColumnName(i + 2), 2 + 98 * k) == 1440
  {
    DayTotalCountsUserSlots(blocks, dates, |us|, k, i);
    DashFillerFillsColumn(dates[k], us, g, slots, i);
  }

  /** `total_days = (stop - start).days`: one less than the number of days
      the loop appends, and that is what `append_all_totals` gets. */
  function SheetifyTotalDays(visited: nat): int {
    visited - 1
  }

  /** `total_row_end = num_days * 99 + 1`. */
  function FilterEnd(days: int): int {
    days * BlockRows + 1
  }

  /** `FILTER(Cf:Cl, REGEXMATCH(Af:Al, "TOTAL*"))` inside the sum of the
      "H:MM" parts: minutes of the column-C cells whose column-A cell
      matches, over rows f .. l. */
  function FilterMinutes(col: string, first: int, last: int): string {
    "SUM(ArrayFormula(VALUE(SPLIT(FILTER(" + Ref(col, first) + ":" + Ref(col, last)
      + ", REGEXMATCH(" + Ref("A", first) + ":" + Ref("A", last) + ", \"TOTAL*\")), \":\")) * {60, 1}))"
  }

  /** One grand-total formula per column letter of `range(lo, hi)`, over
      rows 3 .. `total_row_end`. */
  function AllTotalFormulas(lo: int, hi: int, days: int): (r: Result<seq<string>, string>)
    requires 1 <= lo
    ensures r.Success? <==> lo >= hi || hi - 1 <= MaxColumn
    ensures r.Success? ==> |r.value| == if lo < hi then hi - lo else 0
    ensures r.Success? ==> (forall i :: 0 <= i < |r.value| ==>
              r.value[i] == TimeText(FilterMinutes(ColumnName(lo + i), 3, FilterEnd(days))))
  {
    match ColumnLetters(lo, hi)
    case Failure(e) => Failure(e)
    case Success(cols) =>
      assert forall i :: 0 <= i < |cols| ==> cols[i] == ColumnName(lo + i);
      Success(seq(|cols|, i requires 0 <= i < |cols| => TimeText(FilterMinutes(cols[i], 3, FilterEnd(days)))))
  }

  /** The grand-total formulas of n users, columns B .. */
  function AllTotalCells(users: nat, days: int): (r: seq<string>)
    ensures |r| == users
  {
    seq(users, i requires 0 <= i < users => TimeText(FilterMinutes(ColumnName(i + 2), 3, FilterEnd(days))))
  }

  /** `append_all_totals`: the header `['ALL TOTAL'] + names` and the row
      `'[start / stop]'` + formulas, appended together, header first. */
  function AppendAllTotals(ws: seq<seq<string>>, days: int, us: OrderedDict, start: string, stop: string): (a: Appended)
    ensures a.error.None? <==> |us| + 1 <= MaxColumn
    ensures a.error.Some? ==> a.rows == ws
    ensures a.error.None? ==> |a.rows| == |ws| + 2 && a.rows[..|ws|] == ws
    ensures a.error.None? ==> a.rows[|ws|] == ["ALL TOTAL"] + Keys(us)
    ensures a.error.None? ==> a.rows[|ws| + 1] == ["[" + start + " / " + stop + "]"] + AllTotalCells(|us|, days)
  {
    var cells := AllTotalFormulas(2, |us| + 2, days);
    if cells.Failure? then Appended(ws, Some(cells.error))
    else
      assert cells.value == AllTotalCells(|us|, days);
      Appended(ws + [["ALL TOTAL"] + Keys(us), ["[" + start + " / " + stop + "]"] + cells.value], None)
  }

  /** REGEXMATCH(a, "TOTAL*"): "TOTA" followed by any number of "L"s
      somewhere in a, that is, "TOTA" occurs in a. */
  predicate MatchesTotalStar(a: string) {
    exists p :: 0 <= p && p + 4 <= |a| && a[p] == 'T' && a[p + 1] == 'O' && a[p + 2] == 'T' && a[p + 3] == 'A'
  }

  /** The 1-based rows in f .. l whose column-A cell matches: the rows the
      FILTER sums. */
  function FilterRows(rows: seq<seq<string>>, first: int, last: int): set<int> {
    set i | 0 <= i < |rows| && first <= i + 1 <= last && |rows[i]| > 0 && MatchesTotalStar(rows[i][0]) :: i + 1
  }

  /** The total rows of the days whose row falls in f .. l. */
  function TotalRowsIn(days: nat, first: int, last: int): set<int> {
    set k | 0 <= k < days && first <= 98 * k + 98 <= last :: 98 * k + 98
  }

  /** Column A of a block holds no 'T': the ISO date and the "HH:MM"
      labels. */
  predicate LabelsFreeOfT(block: seq<seq<string>>) {
    forall j :: 0 <= j < |block| ==> |block[j]| > 0 && 'T' !in block[j][0]
  }

  lemma NoTNoMatch(a: string)
    requires 'T' !in a
    ensures !MatchesTotalStar(a)
  {
  }

  /** A day total row's label, "TOTAL [date]", matches. */
  lemma TotalLabelMatches(date: string)
    ensures MatchesTotalStar("TOTAL [" + date + "]")
  {
    var head := "TOTAL [" + date + "]";
    assert head[0] == 'T' && head[1] == 'O' && head[2] == 'T' && head[3] == 'A';
  }

  /** Every matching row of a laid-out sheet is a day's total row. */
  lemma FilterRowsAreTotals(rows: seq<seq<string>>, blocks: seq<seq<seq<string>>>, dates: seq<string>, users: nat, first: int, last: int)
    requires |dates| == |blocks| && |rows| == 98 * |blocks| && 1 <= first
    requires forall d :: 0 <= d < |blocks| ==> |blocks[d]| == SlotCount + 1 && LabelsFreeOfT(blocks[d])
    requires DaysLaidOut(rows, blocks, dates, users, |blocks|)
    ensures FilterRows(rows, first, last) <= TotalRowsIn(|blocks|, first, last)
  {
    forall r | r in FilterRows(rows, first, last) ensures r in TotalRowsIn(|blocks|, first, last) {
      var k, j := (r - 1) / 98, (r - 1) % 98;
      assert r - 1 == 98 * k + j;
      if k >= |blocks| {
        MulMono(|blocks|, k);
        assert false;
      }
      if j <= SlotCount {
        LaidOutRow(rows, blocks, dates, users, |blocks|, k, j);
        assert LabelsFreeOfT(blocks[k]);
        NoTNoMatch(blocks[k][j][0]);
        assert false;
      }
    }
  }

  /** Every day's total row inside the range matches. */
  lemma TotalsAreFilterRows(rows: seq<seq<string>>, blocks: seq<seq<seq<string>>>, dates: seq<string>, users: nat, first: int, last: int)
    requires |dates| == |blocks| && |rows| == 98 * |blocks| && 1 <= first
    requires forall d :: 0 <= d < |blocks| ==> |blocks[d]| == SlotCount + 1
    requires DaysLaidOut(rows, blocks, dates, users, |blocks|)
    ensures TotalRowsIn(|blocks|, first, last) <= FilterRows(rows, first, last)
  {
    forall r | r in TotalRowsIn(|blocks|, first, last) ensures r in FilterRows(rows, first, last) {
      var k :| 0 <= k < |blocks| && first <= 98 * k + 98 <= last && r == 98 * k + 98;
      LaidOutRow(rows, blocks, dates, users, |blocks|, k, SlotCount);
      MulLess(k, |blocks|);
      assert rows[98 * k + SlotCount + 1] == TotalRow(dates[k], 2 + 98 * k, users);
      TotalLabelMatches(dates[k]);
      assert r - 1 == 98 * k + SlotCount + 1;
    }
  }

  /** On `main`'s sheet the FILTER picks exactly the day total rows inside
      its range. */
  lemma FilterPicksTotalRows(blocks: seq<seq<seq<string>>>, dates: seq<string>, users: nat, first: int, last: int)
    requires |dates| == |blocks| && users + 1 <= MaxColumn && 1 <= first
    requires forall d :: 0 <= d < |blocks| ==> |blocks[d]| == SlotCount + 1 && LabelsFreeOfT(blocks[d])
    ensures FilterRows(AppendDays(blocks, dates, users).rows, first, last) == TotalRowsIn(|blocks|, first, last)
  {
    var rows := AppendDays(blocks, dates, users).rows;
    AppendDaysLayout(blocks, dates, users);
    FilterRowsAreTotals(rows, blocks, dates, users, first, last);
    TotalsAreFilterRows(rows, blocks, dates, users, first, last);
  }

  lemma MulMono(a: int, b: int)
    requires 0 <= a <= b
    ensures 98 * a <= 98 * b
  {
  }

  /** The range of sheetify's grand total, `3 .. 99 * (D - 1) + 1` for D
      days, holds day k's total row (1-based 98 + 98k) for every day but
      the last, and the last only from 98 days on: for 2 .. 97 days the
      grand total leaves out the final day. */
  lemma FilterRangeMissesLastDay(visited: nat, k: nat)
    requires 2 <= visited && k < visited
    ensures 3 <= 98 * k + 98
    ensures 98 * k + 98 <= FilterEnd(SheetifyTotalDays(visited)) <==> k < visited - 1 || visited >= 98
  {
  }

  /** The total rows (1-based 98 + 98k) of days 0 .. D - 2, and of day
      D - 1 when D >= 98. */
  function CountedTotalRows(D: int): set<int> {
    set k | 0 <= k < D && (k < D - 1 || D >= 98) :: 98 * k + 98
  }

  /** On the day-block rows of a run over D >= 2 days, the FILTER's
      range selects the total rows of days 0 .. D - 2, plus day D - 1's
      when D >= 98. */
  lemma DayRowsFilter(blocks: seq<seq<seq<string>>>, dates: seq<string>, users: nat)
    requires |dates| == |blocks| && users + 1 <= MaxColumn && 2 <= |blocks|
    requires forall d :: 0 <= d < |blocks| ==> |blocks[d]| == SlotCount + 1 && LabelsFreeOfT(blocks[d])
    ensures var D := |blocks|;
      FilterRows(AppendDays(blocks, dates, users).rows, 3, FilterEnd(SheetifyTotalDays(D)))
      == CountedTotalRows(D)
  {
    var D := |blocks|;
    FilterPicksTotalRows(blocks, dates, users, 3, FilterEnd(SheetifyTotalDays(D)));
    forall k | 0 <= k < D {
      FilterRangeMissesLastDay(D, k);
    }
  }

  /** One more row is selected exactly when it lies in the range and its
      column-A cell matches. */
  lemma FilterRowsSnoc(rows: seq<seq<string>>, row: seq<string>, first: int, last: int)
    ensures FilterRows(rows + [row], first, last)
         == FilterRows(rows, first, last)
            + (if first <= |rows| + 1 <= last && |row| > 0 && MatchesTotalStar(row[0]) then {|rows| + 1} else {})
  {
    var all := rows + [row];
    forall i | 0 <= i < |rows| ensures all[i] == rows[i] { }
    assert all[|rows|] == row;
  }

  /** The header appended by `append_all_totals` matches "TOTAL*" too. */
  lemma AllTotalLabelMatches()
    ensures MatchesTotalStar("ALL TOTAL")
  {
    var a := "ALL TOTAL";
    assert a[4] == 'T' && a[5] == 'O' && a[6] == 'T' && a[7] == 'A';
  }

  /** The grand total on the finished sheet of a run over D >= 2 days,
      the day rows followed by the two rows `append_all_totals` appends
      (1-based rows 98D + 1 and 98D + 2): the FILTER sums the total rows
      of days 0 .. D - 2 and day D - 1's only when D >= 98; from D >= 99
      on it also picks the "ALL TOTAL" header, whose names `VALUE` cannot
      read; from D >= 100 on the range holds the formula's own row, a
      circular reference. */
  lemma GrandTotalDays(blocks: seq<seq<seq<string>>>, dates: seq<string>, us: OrderedDict, start: string, stop: string)
    requires |dates| == |blocks| && |us| + 1 <= MaxColumn && 2 <= |blocks|
    requires forall d :: 0 <= d < |blocks| ==> |blocks[d]| == SlotCount + 1 && LabelsFreeOfT(blocks[d])
    ensures FinalSheet(blocks, dates, us, start, stop).error.None?
    ensures FilterRows(FinalSheet(blocks, dates, us, start, stop).rows, 3, FilterEnd(SheetifyTotalDays(|blocks|)))
         == GrandTotalRows(|blocks|, "[" + start + " / " + stop + "]")
    ensures var D := |blocks|;
      (3 <= 98 * D + 1 <= FilterEnd(SheetifyTotalDays(D)) <==> D >= 99)
      && (3 <= 98 * D + 2 <= FilterEnd(SheetifyTotalDays(D)) <==> D >= 100)
  {
    var D := |blocks|;
    var last := FilterEnd(SheetifyTotalDays(D));
    var rows := AppendDays(blocks, dates, |us|).rows;
    AppendDaysLayout(blocks, dates, |us|);
    DayRowsFilter(blocks, dates, |us|);
    var head := ["ALL TOTAL"] + Keys(us);
    var tail := FinalRows(rows, SheetifyTotalDays(D), us, start, stop);
    assert FinalSheet(blocks, dates, us, start, stop).rows == rows + [head] + [tail];
    FilterOnFinalRows(rows, head, tail, D);
    AppendedRowsInRange(D);
  }

  lemma FilterOnFinalRows(rows: seq<seq<string>>, head: seq<string>, tail: seq<string>, D: int)
    requires 2 <= D && |rows| == 98 * D
    requires FilterRows(rows, 3, FilterEnd(SheetifyTotalDays(D))) == CountedTotalRows(D)
    requires |head| > 0 && head[0] == "ALL TOTAL" && |tail| > 0
    ensures FilterRows(rows + [head] + [tail], 3, FilterEnd(SheetifyTotalDays(D))) == GrandTotalRows(D, tail[0])
  {
    FilterTwoMore(rows, head, tail, FilterEnd(SheetifyTotalDays(D)));
    AppendedRowsInRange(D);
  }

  /** The sheet a sheetify run over the days leaves: the day rows, then
      what `append_all_totals` appends with `total_days` one less than
      the days visited. */
  function FinalSheet(blocks: seq<seq<seq<string>>>, dates: seq<string>, us: OrderedDict, start: string, stop: string): Appended
    requires |dates| == |blocks|
  {
    AppendAllTotals(AppendDays(blocks, dates, |us|).rows, SheetifyTotalDays(|blocks|), us, start, stop)
  }

  /** The rows the grand total's FILTER selects on that sheet: the
      counted day totals, the "ALL TOTAL" header from 99 days on, and the
      period row from 100 days on should its label match. */
  function GrandTotalRows(D: int, period: string): set<int> {
    CountedTotalRows(D)
    + (if D >= 99 then {98 * D + 1} else {})
    + (if D >= 100 && MatchesTotalStar(period) then {98 * D + 2} else {})
  }

  /** Row 98D + 1 lies in the range 3 .. 99(D - 1) + 1 from 99 days on,
      row 98D + 2 from 100 days on. */
  lemma AppendedRowsInRange(D: int)
    requires 2 <= D
    ensures 3 <= 98 * D + 1 <= FilterEnd(SheetifyTotalDays(D)) <==> D >= 99
    ensures 3 <= 98 * D + 2 <= FilterEnd(SheetifyTotalDays(D)) <==> D >= 100
  {
  }

  /** What `append_all_totals` adds below the day rows. */
  lemma FinalRows(rows: seq<seq<string>>, days: int, us: OrderedDict, start: string, stop: string) returns (tail: seq<string>)
    requires |us| + 1 <= MaxColumn
    ensures var fin := AppendAllTotals(rows, days, us, start, stop);
      fin.error.None? && |tail| > 0 && tail[0] == "[" + start + " / " + stop + "]"
      && fin.rows == rows + [["ALL TOTAL"] + Keys(us)] + [tail]
  {
    tail := ["[" + start + " / " + stop + "]"] + AllTotalCells(|us|, days);
  }

  /** The FILTER over the day rows and the two rows appended after them:
      the header row counts when it is in range, the period row when it
      is in range and matches. */
  lemma FilterTwoMore(rows: seq<seq<string>>, head: seq<string>, tail: seq<string>, last: int)
    requires |head| > 0 && head[0] == "ALL TOTAL" && |tail| > 0
    ensures FilterRows(rows + [head] + [tail], 3, last)
         == FilterRows(rows, 3, last)
            + (if 3 <= |rows| + 1 <= last then {|rows| + 1} else {})
            + (if 3 <= |rows| + 2 <= last && MatchesTotalStar(tail[0]) then {|rows| + 2} else {})
  {
    AllTotalLabelMatches();
    FilterRowsSnoc(rows, head, 3, last);
    FilterRowsSnoc(rows + [head], tail, 3, last);
  }
}
