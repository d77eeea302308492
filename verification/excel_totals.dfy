/** excelify's xlsxwriter totals (`excelify/excelify/sheet_handler.py`):
    the per-user grand totals, which add the day totals up in buffers of at
    most 60 days each, the buffer rows the grand totals read, and the
    cells `append_data_to_sheet` and `append_all_totals` write. Dates
    arrive here already formatted as YYYY-MM-DD text. */
module ExcelTotals {
  import opened Wrappers
  import opened Text
  import opened Columns
  import opened Formulas
  import opened Layout
  import opened DayTotals

  /** Days per buffer. */
  const ChunkDays: int := 60

  /** `total_row_end = num_days * 99 - 1`. */
  function TotalRowEnd(days: nat): int {
    days * BlockRows - 1
  }

  /** The term of day k: the minutes of the H:MM in 1-based row 98 + 99k. */
  function DayTerm(col: string, k: nat): (t: string)
    ensures |t| > 0 && t[|t| - 1] == ')'
  {
    var t := MinutesOfTime(Ref(col, 98 + BlockRows * k));
    assert t[|t| - 1] == ')';
    t
  }

  /** The terms of days lo .. hi - 1. */
  function Terms(col: string, lo: nat, hi: nat): (r: seq<string>)
    requires lo <= hi
    ensures |r| == hi - lo
    ensures forall j :: 0 <= j < |r| ==> r[j] == DayTerm(col, lo + j)
  {
    seq(hi - lo, j requires 0 <= j < hi - lo => DayTerm(col, lo + j))
  }

  /** A buffer as the loop accumulates it: "=" and then the terms, each
      added with a "+" in between. */
  function Accumulate(terms: seq<string>): (c: string)
    ensures |c| > 0 && c[0] == '='
    decreases |terms|
  {
    if |terms| == 0 then "="
    else if |terms| == 1 then "=" + terms[0]
    else Accumulate(terms[..|terms| - 1]) + "+" + terms[|terms| - 1]
  }

  /** Adding a term to the running formula (which carries a trailing "+"
      once it holds a term) gives the accumulation of one more term. */
  lemma AccumulateStep(terms: seq<string>, x: string)
    ensures (if |terms| == 0 then "=" else Accumulate(terms) + "+") + x + "+" == Accumulate(terms + [x]) + "+"
  {
    assert (terms + [x])[..|terms|] == terms;
  }

  /** The accumulated formula ends where its last term ends. */
  lemma AccumulateEnd(terms: seq<string>)
    requires |terms| > 0 && |terms[|terms| - 1]| > 0
    ensures var c := Accumulate(terms); var t := terms[|terms| - 1];
      c[|c| - 1] == t[|t| - 1]
  {
  }

  /** A buffer is "=" followed by its terms joined with "+". */
  lemma {:induction false} AccumulateIsJoin(terms: seq<string>)
    ensures Accumulate(terms) == "=" + Join("+", terms)
    decreases |terms|
  {
    if |terms| > 1 {
      var p, x := terms[..|terms| - 1], terms[|terms| - 1];
      AccumulateIsJoin(p);
      assert terms == p + [x];
      JoinSnoc("+", p, x);
    }
  }

  /** Every term is non-empty and does not end in "+", so stripping the
      trailing "+" never eats into a term. */
  predicate CleanEnds(terms: seq<string>) {
    forall k :: 0 <= k < |terms| ==> |terms[k]| > 0 && terms[k][|terms[k]| - 1] != '+'
  }

  /** One past the last term of buffer k. */
  function ChunkEnd(n: nat, k: nat): nat {
    if ChunkDays * k + ChunkDays <= n then ChunkDays * k + ChunkDays else n
  }

  /** Of n terms, buffer k takes terms 60k .. ChunkEnd - 1: a full 60 for
      every buffer but the last, which takes the rest (none when n is a
      multiple of 60). */
  lemma ChunkBounds(n: nat, k: nat)
    requires k <= n / ChunkDays
    ensures ChunkDays * k <= ChunkEnd(n, k) <= ChunkDays * k + ChunkDays
    ensures k < n / ChunkDays ==> ChunkEnd(n, k) == ChunkDays * (k + 1)
    ensures k == n / ChunkDays ==> ChunkEnd(n, k) == n
  {
  }

  /** The buffers of a column's terms: n / 60 + 1 of them, buffer k
      accumulating terms 60k .. ChunkEnd - 1. */
  function ChunkList(terms: seq<string>): (r: seq<string>)
    ensures |r| == |terms| / ChunkDays + 1
  {
    seq(|terms| / ChunkDays + 1, k requires 0 <= k < |terms| / ChunkDays + 1 =>
      ChunkBounds(|terms|, k);
      Accumulate(terms[ChunkDays * k..ChunkEnd(|terms|, k)]))
  }

  /** The first q buffers, each full with 60 terms. */
  function FullChunks(terms: seq<string>, q: nat): (r: seq<string>)
    requires ChunkDays * q <= |terms|
    ensures |r| == q
  {
    seq(q, k requires 0 <= k < q => Accumulate(terms[ChunkDays * k..ChunkDays * k + ChunkDays]))
  }

  lemma FullChunksSnoc(terms: seq<string>, q: nat)
    requires ChunkDays * q + ChunkDays <= |terms|
    ensures FullChunks(terms, q + 1) == FullChunks(terms, q) + [Accumulate(terms[ChunkDays * q..ChunkDays * q + ChunkDays])]
  {
  }

  /** Full buffers of 60 and a last buffer of the rest make up the
      buffer list. */
  lemma ChunkListFromParts(terms: seq<string>, q: nat)
    requires ChunkDays * q <= |terms| < ChunkDays * q + ChunkDays
    ensures FullChunks(terms, q) + [Accumulate(terms[ChunkDays * q..])] == ChunkList(terms)
  {
    var c := ChunkList(terms);
    var b := FullChunks(terms, q) + [Accumulate(terms[ChunkDays * q..])];
    assert |terms| / ChunkDays == q;
    forall k | 0 <= k <= q ensures b[k] == c[k] {
      ChunkBounds(|terms|, k);
      if k == q {
        assert terms[ChunkDays * k..] == terms[ChunkDays * k..ChunkEnd(|terms|, k)];
      }
    }
  }

  /** Each buffer is "=" and its terms joined with "+". */
  lemma ChunkListIsJoin(terms: seq<string>)
    ensures forall k :: 0 <= k < |ChunkList(terms)| ==>
      ChunkDays * k <= ChunkEnd(|terms|, k) <= |terms|
      && ChunkList(terms)[k] == "=" + Join("+", terms[ChunkDays * k..ChunkEnd(|terms|, k)])
  {
    forall k | 0 <= k < |ChunkList(terms)|
      ensures ChunkDays * k <= ChunkEnd(|terms|, k) <= |terms|
      ensures ChunkList(terms)[k] == "=" + Join("+", terms[ChunkDays * k..ChunkEnd(|terms|, k)])
    {
      ChunkBounds(|terms|, k);
      AccumulateIsJoin(terms[ChunkDays * k..ChunkEnd(|terms|, k)]);
    }
  }

  /** The running formula while count terms from j - count on are pending:
      "=" when none are, else their accumulation and a trailing "+". */
  function Pending(terms: seq<string>, j: nat, count: nat): string
    requires count <= j <= |terms|
  {
    if count == 0 then "=" else Accumulate(terms[j - count..j]) + "+"
  }

  /** `total_minutes += formula + "+"`. */
  lemma PendingStep(terms: seq<string>, j: nat, count: nat)
    requires count <= j < |terms|
    ensures Pending(terms, j, count) + terms[j] + "+" == Pending(terms, j + 1, count + 1)
  {
    assert terms[j - count..j + 1] == terms[j - count..j] + [terms[j]];
    AccumulateStep(terms[j - count..j], terms[j]);
  }

  /** `total_minutes.rstrip("+")`: the accumulation of the pending terms. */
  lemma ClosePending(terms: seq<string>, j: nat, count: nat)
    requires CleanEnds(terms) && count <= j <= |terms|
    ensures RStrip(Pending(terms, j, count), '+') == Accumulate(terms[j - count..j])
  {
    if count > 0 {
      AccumulateEnd(terms[j - count..j]);
      RStripOne(Accumulate(terms[j - count..j]), '+');
    } else {
      assert terms[j - count..j] == [];
    }
  }

  /** Closing a full buffer: the stripped running formula is the next
      full buffer, and the formula restarts as "=". */
  lemma CloseFull(terms: seq<string>, buffers: seq<string>, j: nat)
    requires CleanEnds(terms) && j == ChunkDays * |buffers| + ChunkDays <= |terms|
    requires buffers == FullChunks(terms, |buffers|)
    ensures buffers + [RStrip(Pending(terms, j, ChunkDays), '+')] == FullChunks(terms, |buffers| + 1)
    ensures Pending(terms, j, 0) == "="
  {
    ClosePending(terms, j, ChunkDays);
    FullChunksSnoc(terms, |buffers|);
  }

  /** The state of that loop after the first j terms. */
  predicate AccState(terms: seq<string>, j: nat, buffers: seq<string>, total: string, count: int) {
    j <= |terms| && 0 <= count < ChunkDays && j == ChunkDays * |buffers| + count
    && buffers == FullChunks(terms, |buffers|)
    && total == Pending(terms, j, count)
  }

  /** One term of the loop: added to the running formula, which closes
      into a buffer when it reaches 60 terms. */
  lemma AccNext(terms: seq<string>, j: nat, buffers: seq<string>, total: string, count: int)
    requires CleanEnds(terms) && AccState(terms, j, buffers, total, count) && j < |terms|
    ensures count + 1 < ChunkDays ==> AccState(terms, j + 1, buffers, total + terms[j] + "+", count + 1)
    ensures count + 1 >= ChunkDays ==>
      AccState(terms, j + 1, buffers + [RStrip(total + terms[j] + "+", '+')], "=", 0)
  {
    PendingStep(terms, j, count);
    if count + 1 >= ChunkDays {
      AccClose(terms, j, buffers, total + terms[j] + "+");
    }
  }

  /** The 60th pending term closes the running formula into a buffer. */
  lemma AccClose(terms: seq<string>, j: nat, buffers: seq<string>, total: string)
    requires CleanEnds(terms) && j < |terms| && j + 1 == ChunkDays * |buffers| + ChunkDays
    requires buffers == FullChunks(terms, |buffers|) && total == Pending(terms, j + 1, ChunkDays)
    ensures AccState(terms, j + 1, buffers + [RStrip(total, '+')], "=", 0)
  {
    CloseFull(terms, buffers, j + 1);
  }

  /** The loop of `generate_all_totals` over one column's day terms:
      each term is added to the running formula with a "+", and every 60
      terms the running formula, right-stripped of "+", becomes a buffer
      and the formula restarts as "=". */
  method AccumulateTerms(terms: seq<string>) returns (buffers: seq<string>, total: string, count: int)
    requires CleanEnds(terms)
    ensures 0 <= count < ChunkDays && |terms| == ChunkDays * |buffers| + count
    ensures buffers == FullChunks(terms, |buffers|)
    ensures total == Pending(terms, |terms|, count)
  {
    buffers := [];
    total := "=";
    count := 0;
    var j := 0;
    while j < |terms|
      invariant AccState(terms, j, buffers, total, count)
    {
      AccNext(terms, j, buffers, total, count);
      total := total + terms[j] + "+";
      count := count + 1;
      if count >= ChunkDays {
        buffers := buffers + [RStrip(total, '+')];
        total := "=";
        count := 0;
      }
      j := j + 1;
    }
  }

  /** `generate_all_totals`' buffers for one column: the loop's full
      buffers, then whatever the running formula holds at the end (never
      empty, as it starts as "="), right-stripped of "+". */
  method ChunkedBuffers(terms: seq<string>) returns (buffers: seq<string>)
    requires CleanEnds(terms)
    ensures buffers == ChunkList(terms)
  {
    var total, count;
    buffers, total, count := AccumulateTerms(terms);
    ClosePending(terms, |terms|, count);
    assert terms[|terms| - count..] == terms[ChunkDays * |buffers|..];
    ChunkListFromParts(terms, |buffers|);
    if |total| > 0 {
      buffers := buffers + [RStrip(total, '+')];
    }
  }

  /** The rows the loop's `iteration` takes, 98, 197, ... up to
      `total_row_end`: one per day, 98 + 99k for day k. */
  lemma IterationRows(days: nat)
    ensures |RowRange(98, TotalRowEnd(days) + 1)| == days
    ensures forall k :: 0 <= k < days ==> RowRange(98, TotalRowEnd(days) + 1)[k] == 98 + BlockRows * k
  {
  }

  /** Day terms end in ")" and so survive the strip. */
  lemma DayTermsClean(col: string, days: nat)
    ensures CleanEnds(Terms(col, 0, days))
  {
  }

  /** One user's buffer formulas over `num_days` days. */
  function ColumnBuffers(col: string, days: nat): (r: seq<string>)
    ensures |r| == days / ChunkDays + 1
  {
    ChunkList(Terms(col, 0, days))
  }

  /** The grand total of one user: the buffer cells, in 1-based rows
      `total_row_end + idx + 4`, summed and shown as H:MM. */
  function GrandTotalFormula(col: string, days: nat, count: nat): string {
    var refs := seq(count, idx requires 0 <= idx < count => Ref(col, TotalRowEnd(days) + idx + 4));
    TimeText("(" + Join("+", refs) + ")")
  }

  /** The grand-total formulas of users 0 .. n - 1, in columns B, C, ... */
  function GrandRow(users: nat, days: nat): (r: seq<string>)
    ensures |r| == users
    ensures forall i :: 0 <= i < users ==> r[i] == GrandTotalFormula(ColumnName(i + 2), days, days / ChunkDays + 1)
  {
    seq(users, i requires 0 <= i < users => GrandTotalFormula(XlColToName(i + 1), days, days / ChunkDays + 1))
  }

  /** The buffer formulas of users 0 .. n - 1. */
  function UserBuffers(users: nat, days: nat): (r: seq<seq<string>>)
    ensures |r| == users
    ensures forall i :: 0 <= i < users ==> r[i] == ColumnBuffers(ColumnName(i + 2), days)
  {
    seq(users, i requires 0 <= i < users => ColumnBuffers(XlColToName(i + 1), days))
  }

  /** `generate_all_totals(n, num_days, start_date, stop_date)`. */
  function GenerateAllTotals(users: nat, days: nat, start: string, stop: string): (r: AllTotals)
    ensures r.row == ["ALL TOTAL [" + start + " / " + stop + "]"] + GrandRow(users, days)
    ensures r.buffers == UserBuffers(users, days)
  {
    AllTotals(["ALL TOTAL [" + start + " / " + stop + "]"] + GrandRow(users, days), UserBuffers(users, days))
  }

  /** `append_data_to_sheet(...)`: the block at `start_row`, its total row
      counting from `start_row + 2`, and "·" below it. */
  function AppendDataToSheet(s: Sheet, data: seq<seq<string>>, date: string, users: nat, startRow: int): Sheet {
    WriteDayBlock(s, data, TotalRow(date, startRow + 2, users), startRow, "·")
  }

  /** Python's `max(len(d) for d in buffers)`; no value for no buffers. */
  function MaxLen(buffers: seq<seq<string>>): (r: Option<nat>)
    ensures r.None? <==> |buffers| == 0
    ensures r.Some? ==> (forall i :: 0 <= i < |buffers| ==> |buffers[i]| <= r.value)
                        && exists i :: 0 <= i < |buffers| && |buffers[i]| == r.value
  {
    if |buffers| == 0 then None
    else
      var m := MaxLen(buffers[..|buffers| - 1]);
      var last := |buffers[|buffers| - 1]|;
      if m.None? then Some(last)
      else if last > m.value then Some(last)
      else (assert |buffers[..|buffers| - 1]| > 0; m)
  }

  /** Buffer row k: the label, then each user's buffer k or "" where that
      user has fewer buffers (`buffer.get(number, "")`). */
  function BufferRow(buffers: seq<seq<string>>, k: nat): (r: seq<string>)
    ensures |r| == |buffers| + 1 && r[0] == "Buffer 60 days"
    ensures forall i :: 0 <= i < |buffers| ==> r[i + 1] == if k < |buffers[i]| then buffers[i][k] else ""
  {
    ["Buffer 60 days"] + seq(|buffers|, i requires 0 <= i < |buffers| => if k < |buffers[i]| then buffers[i][k] else "")
  }

  function BufferRows(buffers: seq<seq<string>>, count: nat): (rows: seq<seq<string>>)
    ensures |rows| == count
    ensures forall k :: 0 <= k < count ==> rows[k] == BufferRow(buffers, k)
  {
    seq(count, k requires 0 <= k < count => BufferRow(buffers, k))
  }

  /** `append_all_totals(...)`: the grand-total row at `start_row`, "·"
      below it, then the buffer rows. With no users `max()` of an empty
      sequence raises `ValueError`. */
  function AppendAllTotals(s: Sheet, days: nat, users: nat, startRow: int, start: string, stop: string): (r: Result<Sheet, string>)
    ensures r.Failure? <==> users == 0
    ensures r.Failure? ==> r.error == "ValueError"
  {
    var t := GenerateAllTotals(users, days, start, stop);
    var head := WriteRow(WriteRow(s, startRow, t.row), startRow + 1, ["·"]);
    match MaxLen(t.buffers)
    case None => Failure("ValueError")
    case Some(count) => Success(WriteRows(head, startRow + 2, BufferRows(t.buffers, count)))
  }

  /** Every user has the same number of buffers, so the writer emits
      `num_days // 60 + 1` buffer rows. */
  lemma BufferCount(users: nat, days: nat)
    requires users > 0
    ensures MaxLen(UserBuffers(users, days)) == Some(days / ChunkDays + 1)
  {
    var b := UserBuffers(users, days);
    var m := MaxLen(b);
    var i :| 0 <= i < |b| && |b[i]| == m.value;
    assert |b[i]| == |ColumnBuffers(ColumnName(i + 2), days)| == days / ChunkDays + 1;
  }

  /** Cell c of the sheet row `start_row + 2 + idx` holds cell c of buffer
      row idx. */
  lemma AllTotalsBufferCell(s: Sheet, days: nat, users: nat, startRow: int, start: string, stop: string, idx: nat, c: nat)
    requires 0 < users && idx <= days / ChunkDays && c <= users
    ensures var r := AppendAllTotals(s, days, users, startRow, start, stop);
      r.Success?
      && Cell(r.value, startRow + 2 + idx, c) == BufferRow(UserBuffers(users, days), idx)[c]
  {
    BufferCount(users, days);
    var b := UserBuffers(users, days);
    assert BufferRows(b, days / ChunkDays + 1)[idx] == BufferRow(b, idx);
  }

  /** User i's cell of buffer row idx, sheet row `start_row + 2 + idx`,
      holds the user's buffer idx. */
  lemma AllTotalsUserCell(s: Sheet, days: nat, users: nat, startRow: int, start: string, stop: string, idx: nat, i: nat)
    requires i < users && idx <= days / ChunkDays
    ensures var r := AppendAllTotals(s, days, users, startRow, start, stop);
      r.Success?
      && Cell(r.value, startRow + 2 + idx, i + 1) == UserBuffers(users, days)[i][idx]
  {
    var b := UserBuffers(users, days);
    assert |b[i]| == |ColumnBuffers(ColumnName(i + 2), days)| == days / ChunkDays + 1;
    AllTotalsBufferCell(s, days, users, startRow, start, stop, idx, i + 1);
    assert BufferRow(b, idx)[i + 1] == b[i][idx];
  }

  /** The grand total of user i reads, for each buffer idx, the cell that
      holds user i's buffer idx, once `append_all_totals` is given
      `start_row = 99 * num_days = total_row_end + 1`, the row just after
      the last day block when blocks start at 0-based rows 0, 99, 198, ...
      The reference `{col}{total_row_end + idx + 4}` names 0-based row
      `total_row_end + idx + 3`, which is `start_row + 2 + idx`, and, for
      col = `ColumnName(i + 2)`, 0-based column i + 1
      (`ColumnNumberOfName`); user i's buffers are
      `ColumnBuffers(ColumnName(i + 2), num_days)` (`UserBuffers`). */
  lemma GrandTotalReadsBuffers(s: Sheet, days: nat, users: nat, start: string, stop: string, i: nat, idx: nat, startRow: int)
    requires i < users && idx <= days / ChunkDays && startRow == TotalRowEnd(days) + 1
    ensures (TotalRowEnd(days) + idx + 4) - 1 == startRow + 2 + idx
    ensures var r := AppendAllTotals(s, days, users, startRow, start, stop);
      r.Success?
      && Cell(r.value, startRow + 2 + idx, i + 1) == UserBuffers(users, days)[i][idx]
  {
    AllTotalsUserCell(s, days, users, startRow, start, stop, idx, i);
  }

  /** Column 0 of each buffer row holds the label. */
  lemma BufferRowsLabelled(s: Sheet, days: nat, users: nat, start: string, stop: string, idx: nat, startRow: int)
    requires 0 < users && idx <= days / ChunkDays
    ensures var r := AppendAllTotals(s, days, users, startRow, start, stop);
      r.Success? && Cell(r.value, startRow + 2 + idx, 0) == "Buffer 60 days"
  {
    AllTotalsBufferCell(s, days, users, startRow, start, stop, idx, 0);
  }

  /** With blocks at 0-based rows 99k, the day term's 1-based row 98 + 99k
      is block k's total row, and its cell in user i's column holds that
      user's day total. */
  lemma DayTermReadsDayTotal(s: Sheet, data: seq<seq<string>>, date: string, users: nat, k: nat, i: nat)
    requires WellFormedBlock(data, users + 1) && i < users
    ensures Cell(AppendDataToSheet(s, data, date, users, BlockRows * k), (98 + BlockRows * k) - 1, i + 1)
         == DayTotalFormula(ColumnName(i + 2), BlockRows * k + 2)
  {
    var start := BlockRows * k;
    var total := TotalRow(date, start + 2, users);
    var t := WriteDayBlock(s, data, total, start, "·");
    assert AppendDataToSheet(s, data, date, users, start) == t;
    assert (98 + BlockRows * k) - 1 == start + SlotCount + 1;
    TotalRowWritten(s, data, total, start, "·", i + 1);
    assert total[i + 1] == TotalCells(users, start + 2)[i];
  }

  /** With the blocks at main.py's `row_index = 2 + 99k` instead, the
      same 1-based row 98 + 99k falls on a slot row of block k: a day term
      reads a single quarter-hour cell (data row 95), not the day total. */
  lemma DayTermMissesShiftedBlock(s: Sheet, data: seq<seq<string>>, date: string, users: nat, k: nat, c: nat)
    requires WellFormedBlock(data, users + 1) && c <= users
    ensures Cell(AppendDataToSheet(s, data, date, users, 2 + BlockRows * k), (98 + BlockRows * k) - 1, c) == data[95][c]
  {
    SlotCellsWritten(s, data, TotalRow(date, 2 + BlockRows * k + 2, users), 2 + BlockRows * k, "·", c);
  }

  /** The sum of buffer k's days, for day minutes m. */
  function BufferSum(m: seq<int>, k: nat): int
    requires k <= |m| / ChunkDays
  {
    ChunkBounds(|m|, k);
    Sum(m[ChunkDays * k..ChunkEnd(|m|, k)])
  }

  /** The sum of buffers 0 .. q - 1. */
  function BufferSums(m: seq<int>, q: nat): int
    requires q <= |m| / ChunkDays + 1
  {
    if q == 0 then 0 else BufferSums(m, q - 1) + BufferSum(m, q - 1)
  }

  lemma {:induction false} FullBufferSums(m: seq<int>, q: nat)
    requires q <= |m| / ChunkDays
    ensures BufferSums(m, q) == Sum(m[..ChunkDays * q])
  {
    if q > 0 {
      FullBufferSums(m, q - 1);
      ChunkBounds(|m|, q - 1);
      assert m[..ChunkDays * q] == m[..ChunkDays * (q - 1)] + m[ChunkDays * (q - 1)..ChunkDays * q];
      SumAppend(m[..ChunkDays * (q - 1)], m[ChunkDays * (q - 1)..ChunkDays * q]);
    } else {
      assert m[..0] == [];
    }
  }

  /** The buffers split the days without overlap or gap: if each day total
      cell shows m[k] minutes, the buffers add up to the sum of all days,
      and so does the grand total that adds the buffers. */
  lemma {:induction false} GrandTotalIsSumOfDays(m: seq<int>)
    ensures BufferSums(m, |m| / ChunkDays + 1) == Sum(m)
  {
    var q := |m| / ChunkDays;
    FullBufferSums(m, q);
    ChunkBounds(|m|, q);
    assert m == m[..ChunkDays * q] + m[ChunkDays * q..|m|];
    SumAppend(m[..ChunkDays * q], m[ChunkDays * q..|m|]);
  }
}
