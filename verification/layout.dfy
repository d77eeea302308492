/** A worksheet as the xlsxwriter writers address it: cells keyed by
    0-based (row, column), an unwritten cell reading as the empty string
    (xlsxwriter writes "" as a blank cell). A1 references in formulas are
    1-based: reference row R is 0-based row R - 1. */
module Layout {

  type Sheet = map<(int, int), string>

  function Cell(s: Sheet, row: int, col: int): string {
    if (row, col) in s then s[(row, col)] else ""
  }

  /** `worksheet.write(row, c, cells[c])` for c = 0, 1, ... in order
      (equivalently `write_row(row, 0, cells)`). */
  function WriteRow(s: Sheet, row: int, cells: seq<string>): (r: Sheet)
    ensures forall c :: 0 <= c < |cells| ==> Cell(r, row, c) == cells[c]
    ensures forall rr, c :: !(rr == row && 0 <= c < |cells|) ==> Cell(r, rr, c) == Cell(s, rr, c)
    decreases |cells|
  {
    if |cells| == 0 then s
    else WriteRow(s, row, cells[..|cells| - 1])[(row, |cells| - 1) := cells[|cells| - 1]]
  }

  /** Row k of `rows` written at `startRow + k`, as the writers'
      `for row_idx, row in enumerate(data)` loops do. */
  function WriteRows(s: Sheet, startRow: int, rows: seq<seq<string>>): (r: Sheet)
    ensures forall k, c :: 0 <= k < |rows| && 0 <= c < |rows[k]| ==> Cell(r, startRow + k, c) == rows[k][c]
    ensures forall rr, c :: !(startRow <= rr < startRow + |rows|) ==> Cell(r, rr, c) == Cell(s, rr, c)
    decreases |rows|
  {
    if |rows| == 0 then s
    else WriteRow(WriteRows(s, startRow, rows[..|rows| - 1]), startRow + |rows| - 1, rows[|rows| - 1])
  }

  /** A cell past the end of the row written there keeps its value. */
  lemma {:induction false} WriteRowsKeepsWidth(s: Sheet, startRow: int, rows: seq<seq<string>>, k: int, c: int)
    requires 0 <= k < |rows| && !(0 <= c < |rows[k]|)
    ensures Cell(WriteRows(s, startRow, rows), startRow + k, c) == Cell(s, startRow + k, c)
    decreases |rows|
  {
    if k < |rows| - 1 {
      WriteRowsKeepsWidth(s, startRow, rows[..|rows| - 1], k, c);
    }
  }

  /** Writing one-cell rows from `startRow` on changes only column 0 of
      those rows. */
  lemma WriteColumnKeeps(s: Sheet, startRow: int, rows: seq<seq<string>>, r: int, c: int)
    requires forall k :: 0 <= k < |rows| ==> |rows[k]| == 1
    requires !(startRow <= r < startRow + |rows| && c == 0)
    ensures Cell(WriteRows(s, startRow, rows), r, c) == Cell(s, r, c)
  {
    if startRow <= r < startRow + |rows| {
      WriteRowsKeepsWidth(s, startRow, rows, r - startRow, c);
    }
  }

  /** Column c of rows lo .. hi - 1. */
  function Column(rows: seq<seq<string>>, c: nat, lo: nat, hi: nat): (r: seq<string>)
    requires lo <= hi <= |rows|
    requires forall k :: lo <= k < hi ==> c < |rows[k]|
    ensures |r| == hi - lo
    ensures forall k :: 0 <= k < |r| ==> r[k] == rows[lo + k][c]
  {
    seq(hi - lo, k requires 0 <= k < hi - lo => rows[lo + k][c])
  }

  /** The number of non-empty strings (COUNTIF(..., "<>") on cell values). */
  function NonEmpty(cells: seq<string>): nat {
    if |cells| == 0 then 0
    else NonEmpty(cells[..|cells| - 1]) + (if cells[|cells| - 1] != "" then 1 else 0)
  }

  /** `COUNTIF(Cf:Cl, "<>")` over 0-based rows first .. last of column col. */
  function CountNonEmpty(s: Sheet, col: int, first: int, last: int): nat
    decreases last - first
  {
    if last < first then 0
    else CountNonEmpty(s, col, first, last - 1) + (if Cell(s, last, col) != "" then 1 else 0)
  }

  /** Counting over a range of the sheet is counting the cells found there. */
  lemma {:induction false} CountNonEmptyIsNonEmpty(s: Sheet, col: int, first: int, cells: seq<string>)
    requires forall k :: 0 <= k < |cells| ==> Cell(s, first + k, col) == cells[k]
    ensures CountNonEmpty(s, col, first, first + |cells| - 1) == NonEmpty(cells)
    decreases |cells|
  {
    if |cells| > 0 {
      var p := cells[..|cells| - 1];
      CountNonEmptyIsNonEmpty(s, col, first, p);
    }
  }

  lemma {:induction false} NonEmptyBound(cells: seq<string>)
    ensures NonEmpty(cells) <= |cells|
    ensures NonEmpty(cells) == |cells| <==> forall k :: 0 <= k < |cells| ==> cells[k] != ""
  {
    if |cells| > 0 {
      NonEmptyBound(cells[..|cells| - 1]);
    }
  }
}
