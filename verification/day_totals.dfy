/** The per-day total row shared by the three `generate_total_rows`
    variants, the block writer shared by the two xlsxwriter variants of
    `append_data_to_sheet`, and what a day-total formula evaluates to on
    the sheet those writers produce. */
module DayTotals {
  import opened Text
  import opened Columns
  import opened Formulas
  import opened Layout

  /** Quarter-hour slots per day; a day block is a header row plus these. */
  const SlotCount: int := 96

  /** One user's day total: `COUNTIF` over the 96 rows from `firstRow`,
      times 15 minutes, shown as H:MM. */
  function DayTotalFormula(col: string, firstRow: int): string {
    TimeText(CountIf(col, firstRow, firstRow + SlotCount - 1) + " * 15")
  }

  /** The formulas of `generate_total_rows`, one per user, for users in
      1-based columns 2 .. n + 1 (`xl_col_to_name(col_index - 1)` with
      xlsxwriter, `get_column_letter(col_index)` with openpyxl). */
  function TotalCells(users: nat, firstRow: int): (r: seq<string>)
    ensures |r| == users
    ensures forall i :: 0 <= i < users ==> r[i] == DayTotalFormula(ColumnName(i + 2), firstRow)
  {
    var names := seq(users, i requires 0 <= i < users => XlColToName(i + 1));
    assert forall i :: 0 <= i < users ==> names[i] == ColumnName(i + 2);
    seq(users, i requires 0 <= i < users => DayTotalFormula(names[i], firstRow))
  }

  /** `generate_total_rows(current_date, start_row, n)` of the xlsxwriter
      writers: the label, then one day-total formula per user. */
  function TotalRow(date: string, firstRow: int, users: nat): (r: seq<string>)
    ensures |r| == users + 1
    ensures r[0] == "TOTAL [" + date + "]"
    ensures r[1..] == TotalCells(users, firstRow)
  {
    ["TOTAL [" + date + "]"] + TotalCells(users, firstRow)
  }

  /** What `generate_all_totals` returns in both xlsxwriter writers: the
      grand-total row and, per user, the list of that user's buffer
      formulas (the source's dict `{idx: row}` over 0 .. count - 1 is this
      list). */
  datatype AllTotals = AllTotals(row: seq<string>, buffers: seq<seq<string>>)

  /** What `COUNTIF(Cf:Cl, "<>")` evaluates to on sheet s: the non-empty
      cells of the column named `col` in 1-based rows f .. l. */
  function EvalCountIf(s: Sheet, col: string, first: int, last: int): nat
    requires IsColumnName(col)
  {
    CountNonEmpty(s, ColumnNumber(col) - 1, first - 1, last - 1)
  }

  /** The minutes a `DayTotalFormula(col, firstRow)` cell computes. */
  function DayTotalMinutes(s: Sheet, col: string, firstRow: int): nat
    requires IsColumnName(col)
  {
    15 * EvalCountIf(s, col, firstRow, firstRow + SlotCount - 1)
  }

  /** A day block as the drivers build it: 97 rows (header and slots), all
      of one width. */
  predicate WellFormedBlock(data: seq<seq<string>>, width: nat) {
    |data| == SlotCount + 1 && forall r :: 0 <= r < |data| ==> |data[r]| == width
  }

  /** The writes of `append_data_to_sheet` (reportify and excelify): data
      row r at `start_row + r`, the total row at `start_row + 97`, and
      `filler` in column 0 of `start_row + 98` ("" in reportify, "·" in
      excelify). */
  function WriteDayBlock(s: Sheet, data: seq<seq<string>>, total: seq<string>, startRow: int, filler: string): Sheet {
    WriteRow(WriteRow(WriteRows(s, startRow, data), startRow + SlotCount + 1, total), startRow + SlotCount + 2, [filler])
  }

  /** Where the block writer puts everything, and that it touches only
      rows `start_row .. start_row + 98`. */
  lemma DayBlockLayout(s: Sheet, data: seq<seq<string>>, total: seq<string>, startRow: int, filler: string)
    requires WellFormedBlock(data, |total|)
    ensures var t := WriteDayBlock(s, data, total, startRow, filler);
      (forall r, c :: 0 <= r <= SlotCount && 0 <= c < |total| ==> Cell(t, startRow + r, c) == data[r][c])
      && (forall c :: 0 <= c < |total| ==> Cell(t, startRow + SlotCount + 1, c) == total[c])
      && Cell(t, startRow + SlotCount + 2, 0) == filler
      && (forall rr, c :: !(startRow <= rr <= startRow + SlotCount + 2) ==> Cell(t, rr, c) == Cell(s, rr, c))
  {
  }

  /** The total row of a written block holds the total cells. */
  lemma TotalRowWritten(s: Sheet, data: seq<seq<string>>, total: seq<string>, startRow: int, filler: string, c: nat)
    requires WellFormedBlock(data, |total|) && c < |total|
    ensures Cell(WriteDayBlock(s, data, total, startRow, filler), startRow + SlotCount + 1, c) == total[c]
  {
    var t1 := WriteRow(WriteRows(s, startRow, data), startRow + SlotCount + 1, total);
    assert Cell(t1, startRow + SlotCount + 1, c) == total[c];
  }

  /** The slot rows of a written block hold the block's slot cells. */
  lemma SlotCellsWritten(s: Sheet, data: seq<seq<string>>, total: seq<string>, startRow: int, filler: string, c: nat)
    requires WellFormedBlock(data, |total|) && c < |total|
    ensures forall row :: startRow + 1 <= row <= startRow + SlotCount ==>
      Cell(WriteDayBlock(s, data, total, startRow, filler), row, c) == data[row - startRow][c]
  {
    var t0 := WriteRows(s, startRow, data);
    var t1 := WriteRow(t0, startRow + SlotCount + 1, total);
    var t := WriteRow(t1, startRow + SlotCount + 2, [filler]);
    forall row | startRow + 1 <= row <= startRow + SlotCount
      ensures Cell(t, row, c) == data[row - startRow][c]
    {
      assert Cell(t, row, c) == Cell(t1, row, c) == Cell(t0, row, c);
      assert Cell(t0, startRow + (row - startRow), c) == data[row - startRow][c];
    }
  }

  /** The COUNTIF of the day total, given `start_row + 2` as its first
      row as both writers do, counts exactly the user's 96 slot cells of
      the block: the header, the total row and the filler row lie outside
      its range. */
  lemma {:induction false} DayTotalCountsUserSlots(s: Sheet, data: seq<seq<string>>, total: seq<string>, startRow: int, filler: string, i: nat)
    requires WellFormedBlock(data, |total|) && i + 1 < |total|
    ensures DayTotalMinutes(WriteDayBlock(s, data, total, startRow, filler), ColumnName(i + 2), startRow + 2)
         == 15 * NonEmpty(Column(data, i + 1, 1, SlotCount + 1))
  {
    var t := WriteDayBlock(s, data, total, startRow, filler);
    var cells := Column(data, i + 1, 1, SlotCount + 1);
    SlotColumnWritten(s, data, total, startRow, filler, i + 1, cells);
    CountNonEmptyIsNonEmpty(t, i + 1, startRow + 1, cells);
    DayTotalOfColumn(t, i, startRow);
  }

  /** User i's day total starting at 1-based row `base + 2` counts column
      i + 1 over 0-based rows base + 1 .. base + 96. */
  lemma DayTotalOfColumn(s: Sheet, i: nat, base: int)
    ensures DayTotalMinutes(s, ColumnName(i + 2), base + 2) == 15 * CountNonEmpty(s, i + 1, base + 1, base + SlotCount)
  {
    ColumnNumberOfName(i + 2);
  }

  /** The slot rows of column c of a written block, read top-down, are
      the block's column c below the header. */
  lemma SlotColumnWritten(s: Sheet, data: seq<seq<string>>, total: seq<string>, startRow: int, filler: string, c: nat,
                          cells: seq<string>)
    requires WellFormedBlock(data, |total|) && c < |total| && cells == Column(data, c, 1, SlotCount + 1)
    ensures forall k :: 0 <= k < |cells| ==> Cell(WriteDayBlock(s, data, total, startRow, filler), startRow + 1 + k, c) == cells[k]
  {
    var t := WriteDayBlock(s, data, total, startRow, filler);
    SlotCellsWritten(s, data, total, startRow, filler, c);
    forall k | 0 <= k < |cells| ensures Cell(t, startRow + 1 + k, c) == cells[k] {
      assert cells[k] == data[1 + k][c];
    }
  }
}
