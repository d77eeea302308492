/** The live-scraping prototype (`clockify_scraping/data_processor.py`):
    the month-stamped sheet names, the 96 wall-clock slots of
    `update_sheet`, and where `update_sheet` writes each time entry's
    description. */
module DataProcessor {
  import opened Wrappers
  import opened Text
  import opened Calendar
  import opened Stamps
  import opened Users
  import opened Layout

  /** `now.replace(day=28) + timedelta(days=4)` stays within Python's
      largest date, 9999-12-31, for every month but December 9999. */
  predicate NextMonthFits(now: Date) {
    now.year < 9999 || (now.year == 9999 && now.month < 12)
  }

  /** `now + timedelta(days=32)` stays within 9999-12-31 up to
      9999-11-29. */
  predicate Later32Fits(now: Date) {
    now.year < 9999 || (now.year == 9999 && (now.month < 11 || (now.month == 11 && now.day < 30)))
  }

  /** A project's `work_duration`, the next month computed as
      `now.replace(day=28) + timedelta(days=4)` moved to day 1. */
  function WorkDuration(now: Date): string
    requires Valid(now) && NextMonthFits(now)
  {
    FirstOfNextMonthIsNextMonth(now);
    "[" + FullDate(FirstOfMonth(now)) + " / " + FullDate(FirstOfNextMonth(now)) + "]"
  }

  /** The work duration is "[first of now's month / first of the next
      month]", the year rolling over after December. */
  lemma WorkDurationMonths(now: Date)
    requires Valid(now) && NextMonthFits(now)
    ensures WorkDuration(now) == "[" + FullDate(Date(now.year, now.month, 1)) + " / "
               + FullDate(if now.month == 12 then Date(now.year + 1, 1, 1) else Date(now.year, now.month + 1, 1)) + "]"
  {
    FirstOfNextMonthIsNextMonth(now);
  }

  /** The worksheet `initialize_sheets` opens or creates for a project. */
  function InitialSheetName(project: string, now: Date): string
    requires Valid(now) && NextMonthFits(now)
  {
    project + " " + WorkDuration(now)
  }

  /** `d.strftime('%Y-%m-01')`: the first of d's month, whatever d's day. */
  function MonthStamp(d: Date): (s: string)
    requires Valid(d) && d.year <= 9999
    ensures s == FullDate(FirstOfMonth(d))
  {
    assert TwoDigits(1) == "01";
    FourDigits(d.year) + "-" + TwoDigits(d.month) + "-01"
  }

  /** Thirty-two days on is at most one year later. */
  lemma Later32Year(now: Date)
    requires Valid(now)
    ensures AddDays(now, 32).year <= now.year + 1
  {
    var x := AddDays(now, 32);
    var far := Date(now.year + 2, 1, 1);
    DayWithinYear(now);
    YearStep(now.year);
    YearStep(now.year + 1);
    OrdinalOrder(x, far);
  }

  /** The worksheet `update_sheet` writes to: the month of `now + 32 days`
      stands in for the next month. */
  function UpdateSheetName(project: string, now: Date): string
    requires Valid(now) && Later32Fits(now)
  {
    Later32InRange(now);
    project + " [" + MonthStamp(now) + " / " + MonthStamp(AddDays(now, 32)) + "]"
  }

  /** The last day of now's month from which 32 days on still fall in the
      next month: the two months' lengths less 32. */
  function LastSafeDay(now: Date): int
    requires Valid(now)
  {
    FirstOfNextMonthIsNextMonth(now);
    var f := FirstOfNextMonth(now);
    DaysInMonth(now.year, now.month) + DaysInMonth(f.year, f.month) - 32
  }

  /** Thirty-two days on lands in the next month up to `LastSafeDay`, and
      in the month after it from then on. */
  lemma Later32Month(now: Date)
    requires Valid(now)
    ensures var x, f := AddDays(now, 32), FirstOfNextMonth(now);
      Valid(f) && (now.day <= LastSafeDay(now) ==> FirstOfMonth(x) == f)
      && (now.day > LastSafeDay(now) ==> FirstOfMonth(x) == FirstOfNextMonth(f))
  {
    var x, f := AddDays(now, 32), FirstOfNextMonth(now);
    FirstOfNextMonthOrdinal(now);
    FirstOfNextMonthIsNextMonth(now);
    if now.day <= LastSafeDay(now) {
      WithinMonth(x, f);
    } else {
      var g := FirstOfNextMonth(f);
      FirstOfNextMonthOrdinal(f);
      FirstOfNextMonthIsNextMonth(f);
      WithinMonth(x, g);
    }
  }

  /** Up to 9999-11-29, thirty-two days on is still a representable
      date; from 9999-11-30 on it is not. */
  lemma Later32InRange(now: Date)
    requires Valid(now)
    ensures AddDays(now, 32).year <= 9999 <==> Later32Fits(now)
  {
    var x := AddDays(now, 32);
    if now.year < 9999 {
      Later32Year(now);
    } else if now.year == 9999 {
      Later32In9999(now);
    } else {
      OrdinalOrder(now, x);
    }
  }

  /** The last year, month by month: 32 days on stays in 9999 exactly
      up to the 29th of November. */
  lemma Later32In9999(now: Date)
    requires Valid(now) && now.year == 9999
    ensures AddDays(now, 32).year <= 9999 <==> now.month < 11 || (now.month == 11 && now.day < 30)
  {
    var x, f := AddDays(now, 32), FirstOfNextMonth(now);
    Later32Month(now);
    FirstOfNextMonthIsNextMonth(now);
    FirstOfNextMonthIsNextMonth(f);
    assert x.year == FirstOfMonth(x).year;
    if now.month < 11 {
      assert f.year == 9999 && f.month < 12;
    } else if now.month == 11 {
      assert f == Date(9999, 12, 1);
      NovemberCutOff(now);
    } else {
      assert f == Date(10000, 1, 1);
    }
  }

  /** In November 32 days on reach December up to the 29th. */
  lemma NovemberCutOff(now: Date)
    requires Valid(now) && now.month == 11
    ensures LastSafeDay(now) == 29
  {
    FirstOfNextMonthIsNextMonth(now);
  }

  /** A sheet name "project [a / b]". */
  function Framed(project: string, a: string, b: string): string {
    project + " [" + a + " / " + b + "]"
  }

  /** Two names framed alike with same-length second dates share it. */
  lemma FramedSecond(p: string, a: string, b: string, c: string)
    requires |b| == |c| && Framed(p, a, b) == Framed(p, a, c)
    ensures b == c
  {
    var k := |p| + 2 + |a| + 3;
    assert Framed(p, a, b)[k..k + |b|] == b;
    assert Framed(p, a, c)[k..k + |c|] == c;
  }

  lemma Regroup(p: string, a: string, b: string)
    ensures p + " " + ("[" + a + " / " + b + "]") == Framed(p, a, b)
  {
  }

  lemma SheetNamesFramed(project: string, now: Date)
    requires Valid(now) && Later32Fits(now)
    ensures FirstOfNextMonth(now) == if now.month == 12 then Date(now.year + 1, 1, 1) else Date(now.year, now.month + 1, 1)
    ensures InitialSheetName(project, now) == Framed(project, FullDate(FirstOfMonth(now)), FullDate(FirstOfNextMonth(now)))
    ensures AddDays(now, 32).year <= 9999
    ensures UpdateSheetName(project, now) == Framed(project, FullDate(FirstOfMonth(now)), FullDate(FirstOfMonth(AddDays(now, 32))))
  {
    Later32InRange(now);
    FirstOfNextMonthIsNextMonth(now);
    Regroup(project, FullDate(FirstOfMonth(now)), FullDate(FirstOfNextMonth(now)));
  }

  /** `update_sheet` writes to the sheet `initialize_sheets` made exactly
      when now's day is at most `LastSafeDay`; later in the month it names
      the month after next. */
  lemma UpdateSheetMatchesInitial(project: string, now: Date)
    requires Valid(now) && Later32Fits(now)
    ensures UpdateSheetName(project, now) == InitialSheetName(project, now) <==> now.day <= LastSafeDay(now)
  {
    var x, f := AddDays(now, 32), FirstOfNextMonth(now);
    Later32Month(now);
    SheetNamesFramed(project, now);
    FirstOfNextMonthIsNextMonth(now);
    if now.day > LastSafeDay(now) && UpdateSheetName(project, now) == InitialSheetName(project, now) {
      var g := FirstOfNextMonth(f);
      FirstOfNextMonthIsNextMonth(f);
      FramedSecond(project, FullDate(FirstOfMonth(now)), FullDate(g), FullDate(f));
      FullDateInjective(g, f);
    }
  }

  /** On 31 January 2024 the update names March: it writes to
      "P [2024-01-01 / 2024-03-01]" while the sheet made at start-up is
      "P [2024-01-01 / 2024-02-01]". */
  lemma LateJanuaryNamesMarch()
    ensures UpdateSheetName("P", Date(2024, 1, 31)) != InitialSheetName("P", Date(2024, 1, 31))
    ensures FirstOfMonth(AddDays(Date(2024, 1, 31), 32)) == Date(2024, 3, 1)
  {
    var now := Date(2024, 1, 31);
    FirstOfNextMonthIsNextMonth(now);
    FirstOfNextMonthIsNextMonth(Date(2024, 2, 1));
    assert LastSafeDay(now) == 28;
    Later32Month(now);
    UpdateSheetMatchesInitial("P", now);
  }

  /** `update_sheet`'s `time_slots`: local midnight plus 15 i minutes,
      "00:00" .. "23:45". */
  function ClockSlots(): seq<string> {
    seq(96, i requires 0 <= i < 96 => MinuteLabel(15 * i))
  }

  /** The slots run from "00:00" to "23:45". */
  lemma ClockSlotsEnds()
    ensures |ClockSlots()| == 96 && ClockSlots()[0] == "00:00" && ClockSlots()[95] == "23:45"
  {
    EndLabels();
    assert ClockSlots()[0] == MinuteLabel(0);
    assert ClockSlots()[95] == MinuteLabel(1425);
  }

  lemma EndLabels()
    ensures MinuteLabel(0) == "00:00" && MinuteLabel(1425) == "23:45"
  {
    assert 1425 / 60 == 23 && 1425 % 60 == 45;
    assert TwoDigits(0) == "00";
    assert TwoDigits(23) == "23";
    assert TwoDigits(45) == "45";
  }

  /** The slots ascend in string order, so they are distinct. */
  lemma ClockSlotsAscending()
    ensures forall i, j :: 0 <= i < j < 96 ==> LexLess(ClockSlots()[i], ClockSlots()[j])
  {
    var slots := ClockSlots();
    forall i, j | 0 <= i < j < 96 ensures LexLess(slots[i], slots[j]) {
      MinuteLabelOrder(15 * i, 15 * j);
    }
  }

  /** A quarter minute's label is the slot at index minute / 15. */
  lemma ClockSlotAt(m: int)
    requires 0 <= m < 1440 && m % 15 == 0
    ensures ClockSlots()[m / 15] == MinuteLabel(m)
  {
    var k := m / 15;
    assert 15 * k == m;
    assert ClockSlots()[k] == MinuteLabel(15 * k);
  }

  /** A minute of the day has a slot exactly when it is a quarter. */
  lemma ClockSlotsCover(m: int)
    requires 0 <= m < 1440
    ensures MinuteLabel(m) in ClockSlots() <==> m % 15 == 0
  {
    var slots := ClockSlots();
    if MinuteLabel(m) in slots {
      var i :| 0 <= i < 96 && slots[i] == MinuteLabel(m);
      assert slots[i] == MinuteLabel(15 * i);
      MinuteLabelInjective(15 * i, m);
    }
    if m % 15 == 0 {
      ClockSlotAt(m);
    }
  }

  /** A Clockify time entry as `update_sheet` reads it: the user id, the
      UTC start (seconds; the "...Z" text parsed), the description. */
  datatype ScrapedEntry = ScrapedEntry(userId: string, start: int, description: string)

  /** `start_time.strftime('%H:%M')`: the UTC wall clock, seconds dropped. */
  function StartLabel(e: ScrapedEntry): string {
    Label(Stamp(e.start, 0))
  }

  /** Position of the first pair whose value is `id`, or -1. */
  function ValueIndex(d: OrderedDict, id: string): (i: int)
    ensures -1 <= i < |d|
    ensures i >= 0 ==> d[i].1 == id && forall j :: 0 <= j < i ==> d[j].1 != id
    ensures i < 0 ==> forall j :: 0 <= j < |d| ==> d[j].1 != id
  {
    if |d| == 0 then -1
    else if d[0].1 == id then 0
    else
      var j := ValueIndex(d[1..], id);
      if j < 0 then -1 else j + 1
  }

  /** `s.index(x)`, or -1 where Python raises. */
  function FirstIndex(s: seq<string>, x: string): (i: int)
    ensures -1 <= i < |s|
    ensures i >= 0 ==> s[i] == x && forall j :: 0 <= j < i ==> s[j] != x
    ensures i < 0 ==> x !in s
  {
    if |s| == 0 then -1
    else if s[0] == x then 0
    else
      var j := FirstIndex(s[1..], x);
      if j < 0 then -1 else j + 1
  }

  /** `headers`: the slot column's title, then the user names. */
  function Headers(users: OrderedDict): seq<string> {
    ["Time Slot"] + Keys(users)
  }

  /** Where one entry goes: the 1-based `update_cell(row, col)`, or no
      write when its start is not a slot. */
  datatype Placement = Write(row: int, col: int) | NoSlot

  /** One entry of `update_sheet`'s loop over the slot labels `slots`:
      the user's name is the first whose id matches (`next` raises
      `StopIteration` when none does), then the row after the start
      label's slot and the column of the name. */
  function Place(users: OrderedDict, slots: seq<string>, e: ScrapedEntry): Result<Placement, string> {
    var u := ValueIndex(users, e.userId);
    if u < 0 then Failure("StopIteration")
    else
      var row := FirstIndex(slots, StartLabel(e));
      if row < 0 then Success(NoSlot)
      else
        Success(Write(row + 2, FirstIndex(Headers(users), users[u].0) + 1))
  }

  /** An entry fails exactly when its user id is not among the users'. */
  lemma KnownUserPlaced(users: OrderedDict, slots: seq<string>, e: ScrapedEntry)
    ensures Place(users, slots, e).Success? <==> e.userId in Values(users)
  {
    if e.userId in Values(users) {
      var k :| 0 <= k < |users| && Values(users)[k] == e.userId;
      assert users[k].1 == e.userId;
    }
  }

  /** A write lands below the header row, in the slot column or a user's. */
  lemma PlaceRows(users: OrderedDict, slots: seq<string>, e: ScrapedEntry)
    ensures var r := Place(users, slots, e);
      r.Success? && r.value.Write? ==> 2 <= r.value.row <= |slots| + 1 && 1 <= r.value.col <= |users| + 1
  {
    var u := ValueIndex(users, e.userId);
    if u >= 0 {
      assert Headers(users)[u + 1] == users[u].0;
    }
  }

  /** Against any slots, a write goes to the column after the name's
      header, which is column 2 or later unless the user is named
      "Time Slot" itself (then column 1, the slot labels). With distinct
      names, the i-th user's column is i + 2. */
  lemma PlaceColumn(users: OrderedDict, slots: seq<string>, e: ScrapedEntry)
    ensures var r := Place(users, slots, e); var u := ValueIndex(users, e.userId);
      r.Success? && r.value.Write? ==>
        (r.value.col >= 2 <==> users[u].0 != "Time Slot")
        && (users[u].0 != "Time Slot" && DistinctKeys(users) ==> r.value.col == u + 2)
  {
    var u := ValueIndex(users, e.userId);
    if u >= 0 {
      var headers := Headers(users);
      var name := users[u].0;
      assert headers[u + 1] == name;
      var c := FirstIndex(headers, name);
      if name != "Time Slot" && DistinctKeys(users) && c != u + 1 {
        assert false;
      }
    }
  }

  /** Against the clock's slots, a placed entry is written exactly when
      its UTC start minute is a quarter, to row minute / 15 + 2. */
  lemma PlaceRow(users: OrderedDict, e: ScrapedEntry)
    ensures var m := WallMinute(Stamp(e.start, 0)); var r := Place(users, ClockSlots(), e);
      r.Success? ==> ((r.value.Write? <==> m % 15 == 0)
        && (r.value.Write? ==> r.value.row == m / 15 + 2 && 2 <= r.value.row <= 97))
  {
    var m := WallMinute(Stamp(e.start, 0));
    ClockSlotsCover(m);
    if m % 15 == 0 { ClockSlotAt(m); }
    var slots := ClockSlots();
    var row := FirstIndex(slots, StartLabel(e));
    if row >= 0 {
      MinuteLabelInjective(15 * row, m);
      assert slots[row] == MinuteLabel(15 * row);
    }
  }

  /** Against the clock's slots, a known user's entry is written exactly
      when its UTC start minute is a quarter, to row minute / 15 + 2 (so
      2 .. 97) and to the column after the name's header, which is column
      2 or later unless the user is named "Time Slot" itself (then column
      1, the slot labels). With distinct names, the i-th user's column is
      i + 2. */
  lemma PlaceSpec(users: OrderedDict, e: ScrapedEntry)
    ensures Place(users, ClockSlots(), e).Failure? <==> e.userId !in Values(users)
    ensures var m := WallMinute(Stamp(e.start, 0)); var r := Place(users, ClockSlots(), e);
      r.Success? ==> ((r.value.Write? <==> m % 15 == 0)
        && (r.value.Write? ==> r.value.row == m / 15 + 2 && 2 <= r.value.row <= 97))
    ensures var r := Place(users, ClockSlots(), e); var u := ValueIndex(users, e.userId);
      r.Success? && r.value.Write? ==>
        (r.value.col >= 2 <==> users[u].0 != "Time Slot")
        && (users[u].0 != "Time Slot" && DistinctKeys(users) ==> r.value.col == u + 2)
  {
    KnownUserPlaced(users, ClockSlots(), e);
    PlaceRow(users, e);
    PlaceColumn(users, ClockSlots(), e);
  }

  /** `update_sheet` as written: how far the sheet got, and the exception
      that stopped it, if any. */
  datatype Updated = Updated(sheet: Sheet, error: Option<string>)

  /** The month's worksheet as `update_sheet` finds it (`prev`: what
      earlier polls left there, or nothing for a freshly added sheet),
      after the header row is written at A1 and the slots at A2:A97. */
  function PreparedSheet(prev: Sheet, users: OrderedDict): Sheet {
    WriteRows(WriteRow(prev, 0, Headers(users)), 1, SlotColumn())
  }

  /** The values of `A2:A97`: one slot label per row. */
  function SlotColumn(): (r: seq<seq<string>>)
    ensures |r| == 96
    ensures forall i :: 0 <= i < 96 ==> r[i] == [ClockSlots()[i]]
  {
    seq(96, i requires 0 <= i < 96 => [ClockSlots()[i]])
  }

  /** One iteration of the entry loop: where the entry goes, and the
      description written there. */
  datatype Step = Step(at: Result<Placement, string>, text: string)

  /** The loop's iterations in order: the first failure stops it, and
      each placed description overwrites its cell (1-based row and
      column). */
  function Run(s: Sheet, steps: seq<Step>): Updated
    decreases |steps|
  {
    if |steps| == 0 then Updated(s, None)
    else match steps[0].at
      case Failure(e) => Updated(s, Some(e))
      case Success(NoSlot) => Run(s, steps[1..])
      case Success(Write(row, col)) => Run(s[(row - 1, col - 1) := steps[0].text], steps[1..])
  }

  /** The description of the last step placed at (row, col), if any. */
  function LastWrite(steps: seq<Step>, row: int, col: int): Option<string>
    decreases |steps|
  {
    if |steps| == 0 then None
    else
      var later := LastWrite(steps[1..], row, col);
      if later.Some? then later
      else if steps[0].at == Success(Write(row, col)) then Some(steps[0].text)
      else None
  }

  /** With no failing step the loop runs to the end, and each cell holds
      the text of the last step placed there, or what it held before. */
  lemma {:induction false} RunLastWriteWins(s: Sheet, steps: seq<Step>, row: int, col: int)
    requires forall i :: 0 <= i < |steps| ==> steps[i].at.Success?
    ensures Run(s, steps).error.None?
    ensures Cell(Run(s, steps).sheet, row - 1, col - 1) == LastWrite(steps, row, col).GetOr(Cell(s, row - 1, col - 1))
    decreases |steps|
  {
    if |steps| > 0 {
      assert steps[0].at.Success?;
      var p := steps[0].at.value;
      var t := if p.NoSlot? then s else s[(p.row - 1, p.col - 1) := steps[0].text];
      assert forall i :: 0 <= i < |steps[1..]| ==> steps[1..][i] == steps[i + 1];
      RunLastWriteWins(t, steps[1..], row, col);
      if LastWrite(steps[1..], row, col).None? && p != Write(row, col) {
        assert Cell(t, row - 1, col - 1) == Cell(s, row - 1, col - 1);
      }
    }
  }

  /** The loop stops exactly when some step fails, with that step's
      error, the first failing one's. */
  lemma {:induction false} RunStopsAtFailure(s: Sheet, steps: seq<Step>)
    ensures Run(s, steps).error.Some? <==> exists i :: 0 <= i < |steps| && steps[i].at.Failure?
    ensures Run(s, steps).error.Some? ==> exists i :: 0 <= i < |steps| && steps[i].at == Failure(Run(s, steps).error.value)
    decreases |steps|
  {
    if |steps| > 0 && steps[0].at.Success? {
      var p := steps[0].at.value;
      var t := if p.NoSlot? then s else s[(p.row - 1, p.col - 1) := steps[0].text];
      RunStopsAtFailure(t, steps[1..]);
      assert Run(s, steps) == Run(t, steps[1..]);
      if exists i :: 0 <= i < |steps| && steps[i].at.Failure? {
        var i :| 0 <= i < |steps| && steps[i].at.Failure?;
        assert i > 0 && steps[1..][i - 1] == steps[i];
      }
      if Run(t, steps[1..]).error.Some? {
        var i :| 0 <= i < |steps[1..]| && steps[1..][i].at == Failure(Run(t, steps[1..]).error.value);
        assert steps[i + 1] == steps[1..][i];
      }
    }
  }

  /** Only positions some step placed at are ever written. */
  lemma {:induction false} LastWriteWasPlaced(steps: seq<Step>, row: int, col: int)
    ensures LastWrite(steps, row, col).Some? ==> exists i :: 0 <= i < |steps| && steps[i].at == Success(Write(row, col))
    decreases |steps|
  {
    if |steps| > 0 {
      LastWriteWasPlaced(steps[1..], row, col);
      if LastWrite(steps[1..], row, col).Some? {
        var i :| 0 <= i < |steps[1..]| && steps[1..][i].at == Success(Write(row, col));
        assert steps[i + 1] == steps[1..][i];
      }
    }
  }

  /** `update_sheet`'s iterations over `entries`. */
  function Steps(users: OrderedDict, slots: seq<string>, entries: seq<ScrapedEntry>): (r: seq<Step>)
    ensures |r| == |entries|
    ensures forall i :: 0 <= i < |entries| ==> r[i] == Step(Place(users, slots, entries[i]), entries[i].description)
  {
    seq(|entries|, i requires 0 <= i < |entries| => Step(Place(users, slots, entries[i]), entries[i].description))
  }

  /** `update_sheet(sheet_api, project, users, time_entries)` on the
      cells of the worksheet it opens, which holds `prev`. */
  function UpdateSheet(prev: Sheet, users: OrderedDict, entries: seq<ScrapedEntry>): Updated {
    Run(PreparedSheet(prev, users), Steps(users, ClockSlots(), entries))
  }

  /** `update_sheet` stops with `StopIteration` exactly when some entry's
      user id is unknown. */
  lemma UpdateStopsOnUnknownUser(prev: Sheet, users: OrderedDict, entries: seq<ScrapedEntry>)
    ensures UpdateSheet(prev, users, entries).error.Some? <==> exists i :: 0 <= i < |entries| && entries[i].userId !in Values(users)
    ensures UpdateSheet(prev, users, entries).error.Some? ==> UpdateSheet(prev, users, entries).error == Some("StopIteration")
  {
    var steps := Steps(users, ClockSlots(), entries);
    RunStopsAtFailure(PreparedSheet(prev, users), steps);
    forall i | 0 <= i < |entries|
      ensures steps[i].at.Failure? <==> entries[i].userId !in Values(users)
      ensures steps[i].at.Failure? ==> steps[i].at == Failure("StopIteration")
    {
      KnownUserPlaced(users, ClockSlots(), entries[i]);
    }
  }

  lemma AllPlaced(users: OrderedDict, slots: seq<string>, entries: seq<ScrapedEntry>)
    requires forall i :: 0 <= i < |entries| ==> entries[i].userId in Values(users)
    ensures forall i :: 0 <= i < |entries| ==> Steps(users, slots, entries)[i].at.Success?
  {
    var steps := Steps(users, slots, entries);
    forall i | 0 <= i < |entries| ensures steps[i].at.Success? {
      KnownUserPlaced(users, slots, entries[i]);
    }
  }

  /** What a cell (1-based row and column) of the opened worksheet holds
      once the header row and the slot column are written: the header,
      the slot label, or whatever earlier polls left there. */
  function Prepared(prev: Sheet, users: OrderedDict, row: int, col: int): string {
    if row == 1 && 1 <= col <= |users| + 1 then Headers(users)[col - 1]
    else if 2 <= row <= 97 && col == 1 then ClockSlots()[row - 2]
    else Cell(prev, row - 1, col - 1)
  }

  lemma PreparedCell(prev: Sheet, users: OrderedDict, row: int, col: int)
    ensures Cell(PreparedSheet(prev, users), row - 1, col - 1) == Prepared(prev, users, row, col)
  {
    if 2 <= row <= 97 && col == 1 {
      PreparedSlotCell(prev, users, row, col);
    } else {
      PreparedHeadCell(prev, users, row, col);
    }
  }

  lemma PreparedHeadCell(prev: Sheet, users: OrderedDict, row: int, col: int)
    requires !(2 <= row <= 97 && col == 1)
    ensures Cell(PreparedSheet(prev, users), row - 1, col - 1) == Prepared(prev, users, row, col)
  {
    var h := Headers(users);
    PreparedOtherCell(prev, users, row - 1, col - 1);
    HeaderRowCell(prev, h, row - 1, col - 1);
    assert |h| == |users| + 1;
  }

  lemma HeaderRowCell(prev: Sheet, h: seq<string>, r: int, c: int)
    ensures Cell(WriteRow(prev, 0, h), r, c) == if r == 0 && 0 <= c < |h| then h[c] else Cell(prev, r, c)
  {
  }

  lemma PreparedSlotCell(prev: Sheet, users: OrderedDict, row: int, col: int)
    requires 2 <= row <= 97 && col == 1
    ensures Cell(PreparedSheet(prev, users), row - 1, col - 1) == Prepared(prev, users, row, col)
  {
    var slots := SlotColumn();
    assert slots[row - 2][0] == ClockSlots()[row - 2];
    assert Cell(PreparedSheet(prev, users), 1 + (row - 2), 0) == slots[row - 2][0];
  }

  lemma PreparedOtherCell(prev: Sheet, users: OrderedDict, r: int, c: int)
    requires !(1 <= r <= 96 && c == 0)
    ensures Cell(PreparedSheet(prev, users), r, c) == Cell(WriteRow(prev, 0, Headers(users)), r, c)
  {
    WriteColumnKeeps(WriteRow(prev, 0, Headers(users)), 1, SlotColumn(), r, c);
  }

  /** With every user known, `update_sheet` runs to the end and each
      cell holds the description of the last entry placed on it, or
      else the header, the slot label, or what the worksheet held
      before this poll. */
  lemma UpdateSheetCells(prev: Sheet, users: OrderedDict, entries: seq<ScrapedEntry>, row: int, col: int)
    requires forall i :: 0 <= i < |entries| ==> entries[i].userId in Values(users)
    ensures UpdateSheet(prev, users, entries).error.None?
    ensures Cell(UpdateSheet(prev, users, entries).sheet, row - 1, col - 1)
         == LastWrite(Steps(users, ClockSlots(), entries), row, col).GetOr(Prepared(prev, users, row, col))
  {
    AllPlaced(users, ClockSlots(), entries);
    RunLastWriteWins(PreparedSheet(prev, users), Steps(users, ClockSlots(), entries), row, col);
    PreparedCell(prev, users, row, col);
  }

  /** A user cell of the slot rows that no entry of this poll lands on
      keeps the description an earlier poll wrote there. */
  lemma UpdateKeepsEarlierPolls(prev: Sheet, users: OrderedDict, entries: seq<ScrapedEntry>, row: int, col: int)
    requires forall i :: 0 <= i < |entries| ==> entries[i].userId in Values(users)
    requires 2 <= row && 2 <= col
    requires forall i :: 0 <= i < |entries| ==> Place(users, ClockSlots(), entries[i]) != Success(Write(row, col))
    ensures Cell(UpdateSheet(prev, users, entries).sheet, row - 1, col - 1) == Cell(prev, row - 1, col - 1)
  {
    var steps := Steps(users, ClockSlots(), entries);
    UpdateSheetCells(prev, users, entries, row, col);
    LastWriteWasPlaced(steps, row, col);
  }

  /** The header row is never overwritten. */
  lemma UpdateKeepsHeaders(prev: Sheet, users: OrderedDict, entries: seq<ScrapedEntry>, col: int)
    requires forall i :: 0 <= i < |entries| ==> entries[i].userId in Values(users)
    requires 1 <= col <= |users| + 1
    ensures Cell(UpdateSheet(prev, users, entries).sheet, 0, col - 1) == Headers(users)[col - 1]
  {
    UpdateSheetCells(prev, users, entries, 1, col);
    NoWriteToHeaders(users, entries, col);
  }

  lemma NoWriteToHeaders(users: OrderedDict, entries: seq<ScrapedEntry>, col: int)
    ensures LastWrite(Steps(users, ClockSlots(), entries), 1, col).None?
  {
    var steps := Steps(users, ClockSlots(), entries);
    LastWriteWasPlaced(steps, 1, col);
    if LastWrite(steps, 1, col).Some? {
      var i :| 0 <= i < |steps| && steps[i].at == Success(Write(1, col));
      PlaceRows(users, ClockSlots(), entries[i]);
    }
  }

  /** Column A of rows 2 .. 97 keeps its slot label unless an entry of a
      user named "Time Slot" was placed there. */
  lemma UpdateSlotColumn(prev: Sheet, users: OrderedDict, entries: seq<ScrapedEntry>, row: int)
    requires forall i :: 0 <= i < |entries| ==> entries[i].userId in Values(users)
    requires 2 <= row <= 97
    ensures Cell(UpdateSheet(prev, users, entries).sheet, row - 1, 0)
         == LastWrite(Steps(users, ClockSlots(), entries), row, 1).GetOr(ClockSlots()[row - 2])
  {
    UpdateSheetCells(prev, users, entries, row, 1);
  }
}
