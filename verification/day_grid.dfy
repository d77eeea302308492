/** The day loop of the three drivers (reportify, excelify and sheetify
    `main.py`): the 96 slot labels of a day, the 97-row day block handed
    to the writers, the dates the loop visits, and the row each block is
    written at. */
module DayGrid {
  import opened Wrappers
  import opened Text
  import opened Calendar
  import opened Stamps
  import opened Slots
  import opened Occupancy
  import opened Users
  import opened Formulas
  import opened DayTotals
  import ReportTotals

  /** 00:15 UTC of the day with ordinal n. */
  function DayStart(n: int): (t: Stamp)
    ensures t.offset == 0 && Aligned(t) && WallMinute(t) == 15
    ensures t.utc == n * DaySeconds + QuarterSeconds
  {
    assert (n * DaySeconds + QuarterSeconds) / 60 == n * 1440 + 15;
    assert (n * 1440 + 15) % 1440 == 15;
    Stamp(n * DaySeconds + QuarterSeconds, 0)
  }

  /** `D 00:15` in UTC for the calendar date D
      (`replace(hour=0, minute=15, tzinfo=timezone.utc)`); instants count
      from the proleptic epoch of `Ordinal`. */
  function DayBegin(d: Date): Stamp
    requires Valid(d)
  {
    DayStart(Ordinal(d))
  }

  /** `(day_begin + timedelta(days=1)).replace(hour=0, minute=0)`: the
      next day's midnight, 15 minutes before that day's `day_begin`. */
  function NextMidnight(n: int): (t: Stamp)
    ensures t.offset == 0 && WallMinute(t) == 0
    ensures Shift(t, QuarterSeconds) == DayStart(n + 1)
  {
    assert (n + 1) * DaySeconds == ((n + 1) * 1440) * 60;
    assert ((n + 1) * DaySeconds) / 60 == (n + 1) * 1440;
    assert ((n + 1) * 1440) % 1440 == 0;
    Stamp((n + 1) * DaySeconds, 0)
  }

  /** reportify's window `[day_begin, day_begin + 1 day]`. */
  function ReportifyWindow(d: Date): Window
    requires Valid(d)
  {
    Clip(DayBegin(d), Shift(DayBegin(d), DaySeconds))
  }

  /** The window of excelify and sheetify, `[day_begin, day_finish]`. */
  function MidnightWindow(d: Date): Window
    requires Valid(d)
  {
    Clip(DayBegin(d), NextMidnight(Ordinal(d)))
  }

  /** reportify's windows tile the timeline: each ends where the next day's
      begins. The midnight windows end at 00:00, 15 minutes short of the
      next day's start. */
  lemma WindowsMeetNextDay(d: Date)
    requires Valid(d)
    ensures ReportifyWindow(d).dayStart == DayBegin(d) && MidnightWindow(d).dayStart == DayBegin(d)
    ensures ReportifyWindow(d).dayEnd == DayBegin(NextDay(d))
    ensures Shift(MidnightWindow(d).dayEnd, QuarterSeconds) == DayBegin(NextDay(d))
    ensures WallMinute(MidnightWindow(d).dayEnd) == 0
  {
  }

  /** `time_slots`: the label of `day_begin + timedelta(minutes=15 * k)`
      for k in `range(96)`. */
  function TimeSlots(begin: Stamp): (r: seq<string>)
    ensures |r| == SlotCount
  {
    seq(SlotCount, k requires 0 <= k < SlotCount => Label(Shift(begin, QuarterSeconds * k)))
  }

  /** Minutes past midnight of slot k when the day starts at 00:15. */
  function SlotMinute(k: int): int {
    if k == SlotCount - 1 then 0 else 15 * k + 15
  }

  /** Whole minutes of `60 * a + r` seconds. */
  lemma MinutesOf(a: int, r: int)
    requires 0 <= r < 60
    ensures (60 * a + r) / 60 == a
  {
  }

  /** k quarters after minute 15 of the day. */
  lemma QuartersAfter(q: int, k: int)
    requires q % 1440 == 15 && 0 <= k < SlotCount
    ensures (q + 15 * k) % 1440 == SlotMinute(k)
  {
    var c := q / 1440;
    assert q == 1440 * c + 15;
    if k == SlotCount - 1 {
      assert q + 15 * k == 1440 * (c + 1);
    } else {
      assert q + 15 * k == 1440 * c + (15 * k + 15);
    }
  }

  lemma QuarterStepMinute(begin: Stamp, k: int)
    requires WallMinute(begin) == 15 && 0 <= k < SlotCount
    ensures WallMinute(Shift(begin, QuarterSeconds * k)) == SlotMinute(k)
  {
    var l := Local(begin);
    var q, r := l / 60, l % 60;
    assert Local(Shift(begin, QuarterSeconds * k)) == 60 * (q + 15 * k) + r;
    MinutesOf(q + 15 * k, r);
    QuartersAfter(q, k);
  }

  /** From a 00:15 start, slot k is the quarter 15k + 15 minutes past
      midnight, wrapping to 00:00 at the last slot. */
  lemma TimeSlotMinutes(begin: Stamp)
    requires WallMinute(begin) == 15
    ensures forall k :: 0 <= k < SlotCount ==> TimeSlots(begin)[k] == MinuteLabel(SlotMinute(k))
  {
    forall k | 0 <= k < SlotCount
      ensures TimeSlots(begin)[k] == MinuteLabel(SlotMinute(k))
    {
      QuarterStepMinute(begin, k);
    }
  }

  /** The labels run from "00:15" to "00:00". */
  lemma TimeSlotsEnds(begin: Stamp)
    requires WallMinute(begin) == 15
    ensures TimeSlots(begin)[0] == "00:15" && TimeSlots(begin)[SlotCount - 1] == "00:00"
  {
    TimeSlotMinutes(begin);
    assert TwoDigits(0) == "00" && TwoDigits(15) == "15";
  }

  /** No label repeats. */
  lemma TimeSlotsDistinct(begin: Stamp)
    requires WallMinute(begin) == 15
    ensures forall i, j :: 0 <= i < j < SlotCount ==> TimeSlots(begin)[i] != TimeSlots(begin)[j]
  {
    var r := TimeSlots(begin);
    TimeSlotMinutes(begin);
    forall i, j | 0 <= i < j < SlotCount ensures r[i] != r[j] {
      if r[i] == r[j] {
        MinuteLabelInjective(SlotMinute(i), SlotMinute(j));
        assert false;
      }
    }
  }

  /** Every quarter of the day has its label among the slots; with
      `TimeSlotsDistinct`, each appears exactly once. */
  lemma TimeSlotsCoverQuarters(begin: Stamp)
    requires WallMinute(begin) == 15
    ensures forall m :: 0 <= m < 1440 && m % 15 == 0 ==> MinuteLabel(m) in TimeSlots(begin)
  {
    var r := TimeSlots(begin);
    TimeSlotMinutes(begin);
    forall m | 0 <= m < 1440 && m % 15 == 0 ensures MinuteLabel(m) in r {
      var k := if m == 0 then SlotCount - 1 else m / 15 - 1;
      assert SlotMinute(k) == m;
      assert r[k] == MinuteLabel(m);
    }
  }

  /** One slot row: the label, then per user id (in the dict's order) what
      the fetch stored for (id, slot), or `fallback` when nothing was
      (`time_entries[user].get(slot, fallback)`). */
  function SlotRow(users: OrderedDict, g: Grid, slot: string, fallback: string): (r: seq<string>)
    ensures |r| == |users| + 1 && r[0] == slot
    ensures forall i :: 0 <= i < |users| ==> r[i + 1] == Read(g, Values(users)[i], slot, fallback)
  {
    [slot] + seq(|users|, i requires 0 <= i < |users| => Read(g, Values(users)[i], slot, fallback))
  }

  /** `sheet_data_to_send`: the header `[date] + names`, then one slot row
      per label. The fallback is "" in reportify and excelify and "-" in
      sheetify. */
  function DayBlock(date: string, users: OrderedDict, g: Grid, slots: seq<string>, fallback: string): (r: seq<seq<string>>)
    ensures |r| == |slots| + 1 && r[0] == [date] + Keys(users)
    ensures forall k :: 0 <= k < |slots| ==> r[k + 1] == SlotRow(users, g, slots[k], fallback)
    ensures |slots| == SlotCount ==> WellFormedBlock(r, |users| + 1)
  {
    var rows := seq(|slots|, k requires 0 <= k < |slots| => SlotRow(users, g, slots[k], fallback));
    var r := [[date] + Keys(users)] + rows;
    assert forall k :: 0 <= k < |slots| ==> r[k + 1] == rows[k];
    assert forall k :: 0 <= k < |r| ==> |r[k]| == |users| + 1 by {
      forall k | 0 <= k < |r| ensures |r[k]| == |users| + 1 {
        if k > 0 { assert r[k] == rows[k - 1]; }
      }
    }
    r
  }

  /** A cell of the day block holds the description of the last of that
      user's entries, over the fetch, whose slots cover the row's label;
      with no such entry it holds the fallback. */
  lemma DayBlockCell(date: string, users: OrderedDict, batches: seq<Batch>, w: Window, now: Stamp,
                     slots: seq<string>, fallback: string, k: int, i: int)
    requires 0 <= k < |slots| && 0 <= i < |users|
    ensures DayBlock(date, users, FetchTimeEntries(map[], batches, w, now), slots, fallback)[k + 1][i + 1]
         == LastCover(EntriesOf(batches, users[i].1), slots[k], w, now).GetOr(fallback)
  {
    FetchLastWriteWins(batches, w, now, users[i].1, slots[k]);
  }

  /** reportify's `header_len`: `max(n + 1, 5)` for a Google sheet and
      `max(n, 5)` for an Excel file. */
  function HeaderLen(users: nat, sheet: bool): (h: nat)
    ensures h >= 5 && h >= users + (if sheet then 1 else 0)
    ensures h == 5 || h == users + (if sheet then 1 else 0)
  {
    var n := if sheet then users + 1 else users;
    if n > 5 then n else 5
  }

  /** The `row_index` of the first n blocks: `first`, advancing by
      `step` per day. */
  function RowIndexes(first: int, step: int, n: nat): (r: seq<int>)
    ensures |r| == n
  {
    seq(n, k requires 0 <= k < n => first + step * k)
  }

  lemma MulStep(a: int, n: int)
    ensures a * (n + 1) == a * n + a
  {
  }

  lemma RowIndexesSnoc(first: int, step: int, n: nat)
    ensures RowIndexes(first, step, n + 1) == RowIndexes(first, step, n) + [first + step * n]
  {
  }

  /** The `row_index` bookkeeping of the day loops over n days: block k
      is written at `first + step * k`, and `row_index` ends at
      `first + step * n`. */
  method RowLoop(first: int, step: int, n: nat) returns (rows: seq<int>, next: int)
    ensures rows == RowIndexes(first, step, n)
    ensures next == first + step * n
  {
    rows, next := [], first;
    while |rows| < n
      invariant |rows| <= n
      invariant rows == RowIndexes(first, step, |rows|)
      invariant next == first + step * |rows|
    {
      RowIndexesSnoc(first, step, |rows|);
      MulStep(step, |rows|);
      rows := rows + [next];
      next := next + step;
    }
  }

  /** The `while current_date <= stop` loop over `datetime`s (reportify,
      sheetify): it visits every date from `start` to `stop` in order. */
  method VisitDates(start: Date, stop: Date) returns (dates: seq<Date>)
    requires Valid(start) && Valid(stop)
    ensures dates == DayRange(start, stop)
  {
    var cur := start;
    dates := [];
    while BeforeOrSame(cur, stop)
      invariant Valid(cur)
      invariant dates + DayRange(cur, stop) == DayRange(start, stop)
      decreases Ordinal(stop) - Ordinal(cur)
    {
      VisitStep(start, stop, cur, dates);
      dates := dates + [cur];
      cur := NextDay(cur);
    }
    DayRangeStep(cur, stop);
  }

  /** One turn of `VisitDates`' loop keeps its invariant and moves one
      day closer to `stop`. */
  lemma VisitStep(start: Date, stop: Date, cur: Date, dates: seq<Date>)
    requires Valid(start) && Valid(stop) && Valid(cur) && BeforeOrSame(cur, stop)
    requires dates + DayRange(cur, stop) == DayRange(start, stop)
    ensures (dates + [cur]) + DayRange(NextDay(cur), stop) == DayRange(start, stop)
    ensures 0 <= Ordinal(stop) - Ordinal(cur) && Ordinal(NextDay(cur)) == Ordinal(cur) + 1
  {
    DayRangeStep(cur, stop);
    SnocThenAppend(dates, cur, DayRange(NextDay(cur), stop));
  }

  lemma SnocThenAppend(a: seq<Date>, x: Date, b: seq<Date>)
    ensures (a + [x]) + b == a + ([x] + b)
  {
  }

  /** The whole day loop: the dates, the `row_index` of each day's block,
      and `row_index` after the loop. */
  method DayLoop(start: Date, stop: Date, first: int, step: int) returns (dates: seq<Date>, rows: seq<int>, next: int)
    requires Valid(start) && Valid(stop)
    ensures dates == DayRange(start, stop)
    ensures rows == RowIndexes(first, step, |dates|)
    ensures next == first + step * |dates|
  {
    dates := VisitDates(start, stop);
    rows, next := RowLoop(first, step, |dates|);
  }

  /** What reportify's `main` does before its writers run. */
  datatype ReportRun = ReportRun(headerLen: nat, dates: seq<Date>, rows: seq<int>, totalsRow: int)

  /** reportify's `main`: with no active user it exits before writing any
      block; otherwise one block per date from `start` to `stop`, at rows
      4 + 99k (Google sheet) or 2 + 99k (Excel file). For the Excel file
      the grand totals start where the bucket formulas expect them. */
  method ReportifyMain(users: OrderedDict, start: Date, stop: Date, sheet: bool) returns (run: Option<ReportRun>)
    requires Valid(start) && Valid(stop)
    ensures run.None? <==> |users| == 0
    ensures run.Some? ==> run.value.headerLen == HeaderLen(|users|, sheet) && run.value.dates == DayRange(start, stop)
    ensures run.Some? && BeforeOrSame(start, stop) ==> |run.value.dates| == DaysBetween(start, stop) + 1
    ensures run.Some? ==> run.value.rows == RowIndexes(if sheet then 4 else 2, BlockRows, |run.value.dates|)
    ensures run.Some? && !sheet ==> run.value.totalsRow == ReportTotals.TotalRowEnd(|run.value.dates|) + 1
  {
    if |users| == 0 {
      return None;
    }
    var dates, rows, next := DayLoop(start, stop, if sheet then 4 else 2, BlockRows);
    run := Some(ReportRun(HeaderLen(|users|, sheet), dates, rows, next));
  }

  /** `strftime('%Y-%m-%d')` of each date; "" stands for a date Python
      cannot hold, which the loop below never meets. */
  function IsoDates(ds: seq<Date>): (r: seq<string>)
    ensures |r| == |ds|
    ensures forall k :: 0 <= k < |ds| && Valid(ds[k]) && ds[k].year <= 9999 ==> r[k] == FullDate(ds[k])
  {
    seq(|ds|, k requires 0 <= k < |ds| => if Valid(ds[k]) && ds[k].year <= 9999 then FullDate(ds[k]) else "")
  }

  /** Two printed dates are equal exactly when the dates are. */
  lemma IsoDatesInjective(ds: seq<Date>, k: int, j: int)
    requires 0 <= k < |ds| && Valid(ds[k]) && ds[k].year <= 9999
    requires 0 <= j < |ds| && Valid(ds[j]) && ds[j].year <= 9999
    ensures IsoDates(ds)[k] == IsoDates(ds)[j] <==> ds[k] == ds[j]
  {
    if IsoDates(ds)[k] == IsoDates(ds)[j] {
      FullDateInjective(ds[k], ds[j]);
    }
  }

  lemma IsoDatesSnoc(ds: seq<Date>, d: Date)
    requires Valid(d) && d.year <= 9999
    ensures IsoDates(ds + [d]) == IsoDates(ds) + [FullDate(d)]
  {
  }

  lemma ConcatSnoc<T>(a: seq<T>, x: T, b: seq<T>)
    ensures (a + [x]) + b == a + ([x] + b)
  {
  }

  /** excelify's loop over ISO strings: `current_date <= stop` compares
      `YYYY-MM-DD` strings, and each step parses the string, adds a day and
      formats it again. It prints, in order, exactly the dates the date
      loop visits. */
  method IsoDayLoop(start: Date, stop: Date) returns (dates: seq<string>)
    requires Valid(start) && Valid(stop) && start.year <= 9999 && stop.year < 9999
    ensures dates == IsoDates(DayRange(start, stop))
    ensures forall k :: 0 <= k < |dates| ==> DayRange(start, stop)[k].year <= 9999
  {
    var cur := FullDate(start);
    var day := start;
    ghost var visited: seq<Date> := [];
    dates := [];
    FullDateOrder(day, stop);
    while LexLessEq(cur, FullDate(stop))
      invariant Valid(day) && day.year <= 9999 && cur == FullDate(day)
      invariant LexLessEq(cur, FullDate(stop)) <==> BeforeOrSame(day, stop)
      invariant visited + DayRange(day, stop) == DayRange(start, stop)
      invariant dates == IsoDates(visited)
      decreases Ordinal(stop) - Ordinal(day)
    {
      IsoStep(day, stop);
      var parsed := ParseFullDate(cur);
      ConcatSnoc(visited, day, DayRange(NextDay(day), stop));
      IsoDatesSnoc(visited, day);
      dates := dates + [cur];
      visited := visited + [day];
      day := NextDay(parsed);
      cur := FullDate(day);
    }
    DayRangeStep(day, stop);
    assert visited == DayRange(start, stop);
    forall k | 0 <= k < |dates| ensures DayRange(start, stop)[k].year <= 9999 {
      DayRangeBounded(start, stop, k);
    }
  }

  /** One turn of the ISO loop: parsing the current string gives the
      current date back, the next date is still printable, and comparing
      its string with `stop`'s decides the loop as comparing dates would. */
  lemma IsoStep(day: Date, stop: Date)
    requires Valid(day) && Valid(stop) && BeforeOrSame(day, stop) && stop.year < 9999
    ensures NextDay(day).year <= 9999
    ensures var s := FullDate(day);
            AllDigits(s[..4]) && AllDigits(s[5..7]) && AllDigits(s[8..]) && ParseFullDate(s) == day
    ensures LexLessEq(FullDate(NextDay(day)), FullDate(stop)) <==> BeforeOrSame(NextDay(day), stop)
    ensures Ordinal(day) <= Ordinal(stop) && DayRange(day, stop) == [day] + DayRange(NextDay(day), stop)
  {
    FullDateRoundTrip(day);
    FullDateOrder(NextDay(day), stop);
    DayRangeStep(day, stop);
  }
}
