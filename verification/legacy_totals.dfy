/** The older sheetify totals (`sheetify/sheet_handler.py`), computed in
    Python rather than by spreadsheet formulas: per user and day, the time
    from the first start to the last end, printed as "H.MM h.", and a
    grand total per user summed over the days. */
module LegacyTotals {
  import opened Wrappers
  import opened Text
  import opened Users

  /** One user's entry of a day's `day_total`: the keys "start_time" and
      "end_time" that are present, their "%H:%M" values read as minutes
      since midnight. */
  type Times = map<string, int>

  /** A day's `day_total`: user id to that user's times. */
  type DayTotal = map<string, Times>

  const StartKey: string := "start_time"
  const EndKey: string := "end_time"

  /** `'-' * 20`. */
  const Dashes: string := "--------------------"

  /** Minutes from the start to the end, negative when the end is the
      earlier. */
  function Elapsed(t: Times): int
    requires StartKey in t && EndKey in t
  {
    t[EndKey] - t[StartKey]
  }

  /** `f"{h}.{m:02d} h."`. */
  function HoursDot(h: int, m: nat): string
    requires m < 60
  {
    IntToString(h) + "." + TwoDigits(m) + " h."
  }

  /** The day cell of `generate_total_rows` for d elapsed minutes: the
      timedelta's s = 60d seconds give the hours `int(s / 3600 // 1)` and
      the minutes `int(s / 60 % 60)` (Python floors and takes a
      non-negative remainder here, as Dafny does for a positive
      divisor). */
  function DayCellText(d: int): string {
    var secs := 60 * d;
    HoursDot(secs / 3600, (secs / 60) % 60)
  }

  /** The grand-total cell of `append_all_totals` for t minutes:
      `f"{t // 60}.{t % 60:02d} h."`. */
  function GrandText(t: int): string {
    HoursDot(t / 60, t % 60)
  }

  /** The key whose absence makes user `id`'s day cell raise `KeyError`:
      the id itself, or "end_time" when only the start is recorded. */
  function DayCellError(day: DayTotal, id: string): Option<string> {
    if id !in day then Some(id)
    else if StartKey in day[id] && EndKey !in day[id] then Some(EndKey)
    else None
  }

  /** User `id`'s cell of a day's total row: "0.0 h." without a start. */
  function DayCell(day: DayTotal, id: string): (r: Result<string, string>)
    ensures r.Failure? <==> DayCellError(day, id).Some?
    ensures r.Failure? ==> r.error == DayCellError(day, id).value
    ensures r.Success? && id in day && StartKey !in day[id] ==> r.value == "0.0 h."
    ensures r.Success? && id in day && StartKey in day[id] ==> r.value == DayCellText(Elapsed(day[id]))
  {
    if id !in day then Failure(id)
    else if StartKey !in day[id] then Success("0.0 h.")
    else if EndKey !in day[id] then Failure(EndKey)
    else Success(DayCellText(Elapsed(day[id])))
  }

  /** The error of the first of `ids` whose cell raises, if any. */
  function FirstCellError(day: DayTotal, ids: seq<string>): (r: Option<string>)
    ensures r.None? <==> forall i :: 0 <= i < |ids| ==> DayCellError(day, ids[i]).None?
    ensures r.Some? ==> exists i :: 0 <= i < |ids| && DayCellError(day, ids[i]) == r
  {
    if |ids| == 0 then None
    else if DayCellError(day, ids[0]).Some? then DayCellError(day, ids[0])
    else
      var rest := FirstCellError(day, ids[1..]);
      assert forall i :: 1 <= i < |ids| ==> ids[i] == ids[1..][i - 1];
      rest
  }

  /** The cells of the users `ids`, in order; the first user whose cell
      raises ends the list comprehension. */
  function DayCells(day: DayTotal, ids: seq<string>): (r: Result<seq<string>, string>)
    ensures r.Success? <==> FirstCellError(day, ids).None?
    ensures r.Success? ==> |r.value| == |ids| && forall i :: 0 <= i < |ids| ==> DayCell(day, ids[i]) == Success(r.value[i])
    ensures r.Failure? ==> Some(r.error) == FirstCellError(day, ids)
  {
    if |ids| == 0 then Success([])
    else match DayCell(day, ids[0])
      case Failure(e) => Failure(e)
      case Success(c) =>
        var rest := DayCells(day, ids[1..]);
        if rest.Failure? then rest
        else
          var cells := [c] + rest.value;
          assert forall i :: 1 <= i < |ids| ==> ids[i] == ids[1..][i - 1] && cells[i] == rest.value[i - 1];
          Success(cells)
  }

  /** `generate_total_rows(current_date, day_total, found_users)`: the
      total row between two separator rows of 20 dashes per cell. */
  function GenerateTotalRows(date: string, day: DayTotal, users: OrderedDict): (r: Result<seq<seq<string>>, string>)
    ensures r.Success? <==> forall i :: 0 <= i < |users| ==> DayCellError(day, users[i].1).None?
    ensures r.Success? ==> |r.value| == 3 && r.value[0] == r.value[2]
    ensures r.Success? ==> |r.value[0]| == |users| + 1 && forall c :: 0 <= c < |users| + 1 ==> r.value[0][c] == Dashes
    ensures r.Success? ==> |r.value[1]| == |users| + 1 && r.value[1][0] == "TOTAL [" + date + "]"
    ensures r.Success? ==> forall i :: 0 <= i < |users| ==> DayCell(day, users[i].1) == Success(r.value[1][i + 1])
    ensures r.Failure? ==> Some(r.error) == FirstCellError(day, Values(users))
  {
    var ids := Values(users);
    UserCellErrors(day, users);
    match DayCells(day, ids)
    case Failure(e) => Failure(e)
    case Success(cells) =>
      var total := ["TOTAL [" + date + "]"] + cells;
      assert forall i :: 0 <= i < |users| ==> total[i + 1] == cells[i] && ids[i] == users[i].1;
      var sep := seq(|total|, _ => Dashes);
      Success([sep, total, sep])
  }

  /** No cell of the users raises exactly when none of their ids does. */
  lemma UserCellErrors(day: DayTotal, users: OrderedDict)
    ensures FirstCellError(day, Values(users)).None? <==> forall i :: 0 <= i < |users| ==> DayCellError(day, users[i].1).None?
  {
    var ids := Values(users);
    assert forall i :: 0 <= i < |users| ==> ids[i] == users[i].1;
  }

  /** What a day adds to user `id`'s grand total: the elapsed minutes when
      both keys are recorded, otherwise nothing. */
  function DayMinutes(day: DayTotal, id: string): int {
    if id in day && StartKey in day[id] && EndKey in day[id] then Elapsed(day[id]) else 0
  }

  /** User `id`'s minutes summed over the days. */
  function GrandMinutes(days: seq<DayTotal>, id: string): int {
    if |days| == 0 then 0 else GrandMinutes(days[..|days| - 1], id) + DayMinutes(days[|days| - 1], id)
  }

  /** How often `id` occurs among `ids`. */
  function Occurrences(ids: seq<string>, id: string): nat {
    if |ids| == 0 then 0 else (if ids[0] == id then 1 else 0) + Occurrences(ids[1..], id)
  }

  /** The first of `ids` missing from the day, if any. */
  function FirstMissing(day: DayTotal, ids: seq<string>): (r: Option<string>)
    ensures r.None? <==> forall i :: 0 <= i < |ids| ==> ids[i] in day
  {
    if |ids| == 0 then None
    else if ids[0] !in day then Some(ids[0])
    else
      var rest := FirstMissing(day, ids[1..]);
      assert forall i :: 1 <= i < |ids| ==> ids[i] == ids[1..][i - 1];
      rest
  }

  /** A `defaultdict(int)` read. */
  function Total(acc: map<string, int>, id: string): int {
    if id in acc then acc[id] else 0
  }

  /** The inner loop of `append_all_totals` over `found_users.values()`
      for one day: `day_total[user_id]` raises on a missing id. */
  function AddDay(acc: map<string, int>, day: DayTotal, ids: seq<string>): Result<map<string, int>, string>
    decreases |ids|
  {
    if |ids| == 0 then Success(acc)
    else if ids[0] !in day then Failure(ids[0])
    else
      var t := day[ids[0]];
      var next := if StartKey in t && EndKey in t then acc[ids[0] := Total(acc, ids[0]) + Elapsed(t)] else acc;
      AddDay(next, day, ids[1..])
  }

  /** The inner loop raises exactly on the first missing id; otherwise it
      adds the day's minutes once per occurrence of each id. */
  lemma {:induction false} AddDaySpec(acc: map<string, int>, day: DayTotal, ids: seq<string>, id: string)
    ensures AddDay(acc, day, ids).Success? <==> FirstMissing(day, ids).None?
    ensures AddDay(acc, day, ids).Failure? ==> AddDay(acc, day, ids).error == FirstMissing(day, ids).value
    ensures AddDay(acc, day, ids).Success? ==>
      Total(AddDay(acc, day, ids).value, id) == Total(acc, id) + Occurrences(ids, id) * DayMinutes(day, id)
    decreases |ids|
  {
    if |ids| > 0 && ids[0] in day {
      var t := day[ids[0]];
      var next := if StartKey in t && EndKey in t then acc[ids[0] := Total(acc, ids[0]) + Elapsed(t)] else acc;
      AddDaySpec(next, day, ids[1..], id);
      assert Total(next, id) == Total(acc, id) + (if ids[0] == id then DayMinutes(day, id) else 0);
      var o := Occurrences(ids[1..], id);
      var m := DayMinutes(day, id);
      assert Occurrences(ids, id) == (if ids[0] == id then 1 else 0) + o;
      assert ((if ids[0] == id then 1 else 0) + o) * m == (if ids[0] == id then m else 0) + o * m;
    }
  }

  /** The outer loop over the days, in order. */
  function Accumulate(days: seq<DayTotal>, ids: seq<string>): Result<map<string, int>, string> {
    if |days| == 0 then Success(map[])
    else match Accumulate(days[..|days| - 1], ids)
      case Failure(e) => Failure(e)
      case Success(acc) => AddDay(acc, days[|days| - 1], ids)
  }

  /** Every id of `ids` has an entry in every day. */
  predicate AllRecorded(days: seq<DayTotal>, ids: seq<string>) {
    forall d, i :: 0 <= d < |days| && 0 <= i < |ids| ==> ids[i] in days[d]
  }

  /** The loops raise on the first day missing some user, naming that
      day's first missing id; otherwise each id's total is its minutes
      over all days, once per occurrence among the ids. */
  lemma {:induction false} AccumulateSpec(days: seq<DayTotal>, ids: seq<string>, id: string)
    ensures Accumulate(days, ids).Success? <==> AllRecorded(days, ids)
    ensures Accumulate(days, ids).Failure? ==>
      exists d :: 0 <= d < |days| && AllRecorded(days[..d], ids) && FirstMissing(days[d], ids) == Some(Accumulate(days, ids).error)
    ensures Accumulate(days, ids).Success? ==>
      Total(Accumulate(days, ids).value, id) == Occurrences(ids, id) * GrandMinutes(days, id)
    decreases |days|
  {
    if |days| > 0 {
      var n := |days| - 1;
      var prefix := days[..n];
      AccumulateSpec(prefix, ids, id);
      assert forall d :: 0 <= d < n ==> prefix[d] == days[d];
      match Accumulate(prefix, ids)
      case Failure(e) =>
        ghost var d :| 0 <= d < n && AllRecorded(prefix[..d], ids) && FirstMissing(prefix[d], ids) == Some(e);
        assert prefix[..d] == days[..d];
      case Success(acc) =>
        AddDaySpec(acc, days[n], ids, id);
        assert days[..n] == prefix;
        var o := Occurrences(ids, id);
        assert o * (GrandMinutes(prefix, id) + DayMinutes(days[n], id))
            == o * GrandMinutes(prefix, id) + o * DayMinutes(days[n], id);
    }
  }

  /** `append_all_totals`: the row `'ALL TOTAL [start / stop]'` plus one
      grand total per user, or the `KeyError` that stops the loops. */
  function AllTotalRow(days: seq<DayTotal>, users: OrderedDict, start: string, stop: string): Result<seq<string>, string> {
    match Accumulate(days, Values(users))
    case Failure(e) => Failure(e)
    case Success(totals) =>
      Success(["ALL TOTAL [" + start + " / " + stop + "]"]
              + seq(|users|, i requires 0 <= i < |users| => GrandText(Total(totals, users[i].1))))
  }

  /** The grand-total row: it fails exactly when some day lacks some
      user; otherwise user i's cell shows that user's minutes over the
      days that record both times, counted once per occurrence of the
      id among the users (once when the ids are distinct). */
  lemma AllTotalRowSpec(days: seq<DayTotal>, users: OrderedDict, start: string, stop: string)
    ensures var r := AllTotalRow(days, users, start, stop);
      (r.Success? <==> AllRecorded(days, Values(users)))
      && (r.Success? ==> |r.value| == |users| + 1 && r.value[0] == "ALL TOTAL [" + start + " / " + stop + "]")
      && (r.Success? ==> forall i :: 0 <= i < |users| ==>
            r.value[i + 1] == GrandText(Occurrences(Values(users), users[i].1) * GrandMinutes(days, users[i].1)))
  {
    var ids := Values(users);
    AccumulateSpec(days, ids, "");
    var r := AllTotalRow(days, users, start, stop);
    if r.Success? {
      forall i | 0 <= i < |users|
        ensures r.value[i + 1] == GrandText(Occurrences(ids, users[i].1) * GrandMinutes(days, users[i].1))
      {
        GrandCell(days, users, start, stop, i);
      }
    }
  }

  lemma GrandCell(days: seq<DayTotal>, users: OrderedDict, start: string, stop: string, i: nat)
    requires AllTotalRow(days, users, start, stop).Success? && i < |users|
    ensures var r := AllTotalRow(days, users, start, stop);
      |r.value| == |users| + 1
      && r.value[i + 1] == GrandText(Occurrences(Values(users), users[i].1) * GrandMinutes(days, users[i].1))
  {
    var ids := Values(users);
    var totals := Accumulate(days, ids).value;
    AccumulateSpec(days, ids, users[i].1);
    assert AllTotalRow(days, users, start, stop).value[i + 1] == GrandText(Total(totals, users[i].1));
  }

  /** With distinct user ids each grand total is exactly the user's
      summed minutes. */
  lemma DistinctIdsOccurOnce(ids: seq<string>, i: nat)
    requires i < |ids| && forall a, b :: 0 <= a < b < |ids| ==> ids[a] != ids[b]
    ensures Occurrences(ids, ids[i]) == 1
  {
    if i == 0 {
      NotOccurring(ids[1..], ids[0]);
    } else {
      DistinctIdsOccurOnce(ids[1..], i - 1);
    }
  }

  lemma {:induction false} NotOccurring(ids: seq<string>, id: string)
    requires forall a :: 0 <= a < |ids| ==> ids[a] != id
    ensures Occurrences(ids, id) == 0
  {
    if |ids| > 0 {
      NotOccurring(ids[1..], id);
    }
  }

  /** Over a single day on which a user has both times, the grand total
      and the day cell print the same text. */
  lemma SingleDayAgrees(day: DayTotal, id: string)
    requires id in day && StartKey in day[id] && EndKey in day[id]
    ensures DayCell(day, id) == Success(GrandText(GrandMinutes([day], id)))
  {
    var d := Elapsed(day[id]);
    assert [day][..0] == [];
    assert GrandMinutes([day], id) == d;
    assert (60 * d) / 60 == d;
    DivMul60(d);
  }

  lemma DivMul60(d: int)
    ensures (60 * d) / 3600 == d / 60
  {
    var q, r := d / 60, d % 60;
    assert 60 * d == 3600 * q + 60 * r;
    assert 0 <= 60 * r < 3600;
  }

  /** A user with no start time shows "0.0 h." for the day, while a grand
      total of nothing shows "0.00 h.". */
  lemma MissingStartShowsDifferently(day: DayTotal, id: string)
    requires id in day && StartKey !in day[id]
    ensures DayCell(day, id) == Success("0.0 h.")
    ensures GrandText(GrandMinutes([day], id)) == "0.00 h."
    ensures "0.0 h." != "0.00 h."
  {
    assert [day][..0] == [];
  }

  /** Reading an "H.MM h." text back: the signed hours before the dot
      times 60 plus the two minute digits; anything else is `None`. */
  function ReadHoursDot(s: string): Option<int> {
    if |s| < 7 || s[|s| - 6] != '.' || s[|s| - 3..] != " h." || !AllDigits(s[|s| - 5..|s| - 3]) then None
    else
      var head, mm := s[..|s| - 6], ParseDigits(s[|s| - 5..|s| - 3]);
      if head[0] == '-' && |head| > 1 && AllDigits(head[1..]) then Some(-(ParseDigits(head[1..]) as int) * 60 + mm)
      else if AllDigits(head) then Some(ParseDigits(head) * 60 + mm)
      else None
  }

  /** The parts of an "H.MM h." text sit where the reader looks for them. */
  lemma HoursDotParts(hs: string, ms: string)
    requires |ms| == 2
    ensures var s := hs + "." + ms + " h.";
      |s| == |hs| + 6 && s[..|s| - 6] == hs && s[|s| - 6] == '.'
      && s[|s| - 5..|s| - 3] == ms && s[|s| - 3..] == " h."
  {
  }

  /** `str(h)` reads back as h, with or without its sign. */
  lemma ReadHead(h: int)
    ensures var hs := IntToString(h);
      (h < 0 ==> hs[0] == '-' && |hs| > 1 && AllDigits(hs[1..]) && -(ParseDigits(hs[1..]) as int) == h)
      && (h >= 0 ==> hs[0] != '-' && AllDigits(hs) && ParseDigits(hs) == h)
  {
    var hs := IntToString(h);
    if h < 0 {
      assert hs[1..] == NatToString(-h);
      ParseNatToString(-h);
    } else {
      ParseNatToString(h);
    }
  }

  /** An "H.MM h." text reads back as 60 H + MM. */
  lemma ReadHoursDotOf(h: int, m: nat)
    requires m < 60
    ensures ReadHoursDot(HoursDot(h, m)) == Some(h * 60 + m)
  {
    HoursDotParts(IntToString(h), TwoDigits(m));
    ReadHead(h);
  }

  /** Every grand total reads back as its minutes, negative ones
      included, so distinct totals print differently. */
  lemma GrandTextRoundTrip(t: int)
    ensures ReadHoursDot(GrandText(t)) == Some(t)
  {
    ReadHoursDotOf(t / 60, t % 60);
  }

  /** The day cell of a user with both times reads back as the elapsed
      minutes; the "0.0 h." of a user without a start is not in the
      "H.MM h." format at all. */
  lemma DayCellReadsBack(day: DayTotal, id: string)
    requires DayCellError(day, id).None? && id in day
    ensures StartKey in day[id] ==> ReadHoursDot(DayCell(day, id).value) == Some(Elapsed(day[id]))
    ensures StartKey !in day[id] ==> ReadHoursDot(DayCell(day, id).value).None?
  {
    if StartKey in day[id] {
      SingleDayAgrees(day, id);
      assert [day][..0] == [];
      GrandTextRoundTrip(Elapsed(day[id]));
    }
  }
}
