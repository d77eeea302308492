/** The time normalizer of `fetch_time_entries`: which quarter-hour slots
    one time entry occupies. The sheetify variant clips the entry to the
    day window first; the excelify variant does not clip at all. */
module Slots {
  import opened Wrappers
  import opened Text
  import opened Stamps

  /** A Clockify time entry with its start and end already converted to
      local time; `end` is None while the timer is still running. */
  datatype Entry = Entry(start: Stamp, end: Option<Stamp>, description: string)

  /** The day window a variant clips to, or none (excelify). */
  datatype Window = Clip(dayStart: Stamp, dayEnd: Stamp) | NoClip

  /** `end_of_work`: the entry's end, or `now` for a running entry. */
  function EffectiveEnd(e: Entry, now: Stamp): Stamp {
    e.end.GetOr(now)
  }

  /** `if end.minute % 15 != 0: end = round_up(end)`: the end is rounded
      up only when its minute is off the quarter grid (its seconds are
      not looked at). */
  function AdjustEnd(t: Stamp): (r: Stamp)
    ensures r.offset == t.offset
    ensures Minute(t) % 15 == 0 ==> r == t
    ensures Minute(t) % 15 != 0 ==> Aligned(r) && t.utc < r.utc <= t.utc + QuarterSeconds
  {
    if Minute(t) % 15 != 0 then RoundUp(t) else t
  }

  /** The stamps `while s <= e: ...; s += timedelta(minutes=15)` visits. */
  function Walk(s: Stamp, e: Stamp): (r: seq<Stamp>)
    ensures |r| == if s.utc <= e.utc then (e.utc - s.utc) / QuarterSeconds + 1 else 0
    ensures forall k :: 0 <= k < |r| ==> r[k] == Shift(s, QuarterSeconds * k)
    decreases e.utc - s.utc
  {
    if s.utc <= e.utc then [s] + Walk(Shift(s, QuarterSeconds), e) else []
  }

  lemma WalkMember(s: Stamp, e: Stamp, k: int)
    requires 0 <= k < |Walk(s, e)|
    ensures s.utc <= Walk(s, e)[k].utc <= e.utc
    ensures Local(Walk(s, e)[k]) == Local(s) + QuarterSeconds * k
  {
    var q := (e.utc - s.utc) / QuarterSeconds;
    assert k <= q;
    assert QuarterSeconds * k <= QuarterSeconds * q <= e.utc - s.utc;
  }

  lemma WalkReachesQuarter(s: Stamp, e: Stamp, t: Stamp)
    requires Aligned(s) && Aligned(t) && t.offset == s.offset && s.utc <= t.utc <= e.utc
    ensures t in Walk(s, e)
  {
    AlignedGap(s, t);
    var k := (t.utc - s.utc) / QuarterSeconds;
    assert QuarterSeconds * k == t.utc - s.utc;
    assert k <= (e.utc - s.utc) / QuarterSeconds;
    var r := Walk(s, e);
    assert r[k] == Shift(s, QuarterSeconds * k);
    assert r[k] == t;
  }

  /** Starting on a quarter, the walk visits exactly the quarters of that
      offset from s up to and including e. */
  lemma WalkIsQuarterInterval(s: Stamp, e: Stamp, t: Stamp)
    requires Aligned(s)
    ensures t in Walk(s, e) <==> t.offset == s.offset && Aligned(t) && s.utc <= t.utc <= e.utc
  {
    if t.offset == s.offset && Aligned(t) && s.utc <= t.utc <= e.utc {
      WalkReachesQuarter(s, e, t);
    }
    if t in Walk(s, e) {
      WalkOnlyQuarters(s, e, t);
    }
  }

  lemma WalkOnlyQuarters(s: Stamp, e: Stamp, t: Stamp)
    requires Aligned(s) && t in Walk(s, e)
    ensures t.offset == s.offset && Aligned(t) && s.utc <= t.utc <= e.utc
  {
    var r := Walk(s, e);
    var k :| 0 <= k < |r| && r[k] == t;
    WalkMember(s, e, k);
    var a := Local(s) / QuarterSeconds;
    assert Local(s) == QuarterSeconds * a;
    MultipleAligned(t, a + k);
  }

  /** sheetify's guard `start_of_work <= end_of_day and end_of_work >=
      start_of_day`, compared as instants; the unclipped variant has no
      guard. */
  predicate Touches(w: Window, e: Entry, now: Stamp) {
    match w
    case NoClip => true
    case Clip(dayStart, dayEnd) => NotAfter(e.start, dayEnd) && NotAfter(dayStart, EffectiveEnd(e, now))
  }

  /** `selected_start` before rounding: `max(start_of_work, start_of_day)`. */
  function SelectedStart(w: Window, e: Entry): Stamp {
    match w
    case NoClip => e.start
    case Clip(dayStart, _) => Max(e.start, dayStart)
  }

  /** `selected_end` after the end adjustment: `min(end_of_work,
      end_of_day)`, rounded up when off the quarter grid. */
  function SelectedEnd(w: Window, e: Entry, now: Stamp): Stamp {
    match w
    case NoClip => AdjustEnd(EffectiveEnd(e, now))
    case Clip(_, dayEnd) => AdjustEnd(Min(EffectiveEnd(e, now), dayEnd))
  }

  /** The stamps the slot loop visits for one entry, in order. They are
      the quarters (in the offset of the selected start) strictly after
      the selected start and not after the adjusted end. */
  function EntryStamps(w: Window, e: Entry, now: Stamp): (r: seq<Stamp>)
    ensures !Touches(w, e, now) ==> r == []
    ensures Touches(w, e, now) ==>
      forall t :: t in r <==>
        (t.offset == SelectedStart(w, e).offset && Aligned(t)
         && SelectedStart(w, e).utc < t.utc <= SelectedEnd(w, e, now).utc)
    ensures forall k :: 0 <= k < |r| ==> r[k].utc == r[0].utc + QuarterSeconds * k
  {
    if !Touches(w, e, now) then []
    else
      var lo := SelectedStart(w, e);
      var s := RoundUp(lo);
      var r := Walk(s, SelectedEnd(w, e, now));
      assert forall t :: t in r <==>
        (t.offset == lo.offset && Aligned(t) && lo.utc < t.utc <= SelectedEnd(w, e, now).utc) by {
        forall t: Stamp
          ensures t in r <==> (t.offset == lo.offset && Aligned(t) && lo.utc < t.utc <= SelectedEnd(w, e, now).utc)
        {
          WalkIsQuarterInterval(s, SelectedEnd(w, e, now), t);
          if t.offset == lo.offset && Aligned(t) && lo.utc < t.utc {
            RoundUpIsLeast(lo, t);
          }
        }
      }
      r
  }

  /** Number of slots: `(e - s) div 15min + 1` when the rounded start is
      not after the adjusted end, else none. */
  lemma EntryStampCount(w: Window, e: Entry, now: Stamp)
    requires Touches(w, e, now)
    ensures var s, f := RoundUp(SelectedStart(w, e)), SelectedEnd(w, e, now);
            |EntryStamps(w, e, now)| == if s.utc <= f.utc then (f.utc - s.utc) / QuarterSeconds + 1 else 0
  {
  }

  /** The `'%H:%M'` labels one entry writes, in order. */
  function EntryLabels(w: Window, e: Entry, now: Stamp): (r: seq<string>)
    ensures |r| == |EntryStamps(w, e, now)|
    ensures forall k :: 0 <= k < |r| ==> r[k] == Label(EntryStamps(w, e, now)[k])
  {
    var ts := EntryStamps(w, e, now);
    seq(|ts|, k requires 0 <= k < |ts| => Label(ts[k]))
  }

  /** Every label written is a quarter-hour label. */
  lemma EntryLabelsOnQuarters(w: Window, e: Entry, now: Stamp, k: int)
    requires 0 <= k < |EntryStamps(w, e, now)|
    ensures WallMinute(EntryStamps(w, e, now)[k]) % 15 == 0
  {
    var t := EntryStamps(w, e, now)[k];
    assert t in EntryStamps(w, e, now);
    AlignedWallMinute(t);
  }

  /** An entry outside the day window writes nothing. */
  lemma OutsideWindowWritesNothing(dayStart: Stamp, dayEnd: Stamp, e: Entry, now: Stamp)
    requires dayEnd.utc < e.start.utc || EffectiveEnd(e, now).utc < dayStart.utc
    ensures EntryLabels(Clip(dayStart, dayEnd), e, now) == []
  {
  }

  /** Without clipping, a zero-length entry on a quarter emits no slot:
      the start moves a full quarter forward and the aligned end stays. */
  lemma ZeroLengthAlignedEntryIsEmpty(e: Entry, now: Stamp)
    ensures e.end == Some(e.start) && Aligned(e.start) ==> EntryLabels(NoClip, e, now) == []
  {
    if e.end == Some(e.start) && Aligned(e.start) {
      AlignedFields(e.start);
      RoundUpAligned(e.start);
    }
  }

  /** Without clipping an entry lasting over a day comes back to the same
      labels: the label a day after a slot is the slot's own label. */
  lemma UnclippedLabelsRepeatDaily(e: Entry, now: Stamp, k: int)
    requires 0 <= k && k + 96 < |EntryStamps(NoClip, e, now)|
    ensures EntryLabels(NoClip, e, now)[k + 96] == EntryLabels(NoClip, e, now)[k]
  {
    var ts := EntryStamps(NoClip, e, now);
    assert ts[k + 96] == Shift(ts[k], 1 * DaySeconds);
    LabelWrapsDaily(ts[k], 1);
  }

  lemma ScenarioStamps()
    ensures EntryStamps(Clip(Stamp(900, 0), Stamp(86400, 0)),
                        Entry(Stamp(32820, 120), Some(Stamp(34920, 120)), "work"),
                        Stamp(0, 0)) == [Stamp(33300, 120), Stamp(34200, 120), Stamp(35100, 120)]
  {
    var w, e := Clip(Stamp(900, 0), Stamp(86400, 0)), Entry(Stamp(32820, 120), Some(Stamp(34920, 120)), "work");
    var now := Stamp(0, 0);
    assert Touches(w, e, now);
    assert SelectedStart(w, e) == Stamp(32820, 120);
    assert Minute(Stamp(32820, 120)) == 7 && Second(Stamp(32820, 120)) == 0;
    assert RoundUp(Stamp(32820, 120)) == Stamp(33300, 120);
    assert Minute(Stamp(34920, 120)) == 42 && Second(Stamp(34920, 120)) == 0;
    assert SelectedEnd(w, e, now) == Stamp(35100, 120);
    var ts := Walk(Stamp(33300, 120), Stamp(35100, 120));
    assert |ts| == 3;
    assert ts[0] == Stamp(33300, 120) && ts[1] == Stamp(34200, 120) && ts[2] == Stamp(35100, 120);
  }

  lemma ScenarioLabels()
    ensures Label(Stamp(33300, 120)) == "11:15"
    ensures Label(Stamp(34200, 120)) == "11:30"
    ensures Label(Stamp(35100, 120)) == "11:45"
  {
    ScenarioMinutes();
    WholeMinute(Stamp(33300, 120), 675);
    WholeMinute(Stamp(34200, 120), 690);
    WholeMinute(Stamp(35100, 120), 705);
  }

  lemma WholeMinute(t: Stamp, m: int)
    requires 0 <= m < 1440 && Local(t) == 60 * m
    ensures WallMinute(t) == m && Label(t) == MinuteLabel(m)
  {
    var q, r := Local(t) / 60, Local(t) % 60;
    assert Local(t) == 60 * q + r && 0 <= r < 60;
    var d := m - q;
    assert 60 * d == r;
    assert q == m;
    assert m % 1440 == m;
  }

  lemma ScenarioMinutes()
    ensures MinuteLabel(675) == "11:15" && MinuteLabel(690) == "11:30" && MinuteLabel(705) == "11:45"
  {
    assert 675 / 60 == 11 && 675 % 60 == 15;
    assert 690 / 60 == 11 && 690 % 60 == 30;
    assert 705 / 60 == 11 && 705 % 60 == 45;
    assert TwoDigits(11) == "11";
    assert TwoDigits(15) == "15";
    assert TwoDigits(30) == "30";
    assert TwoDigits(45) == "45";
  }

  /** The worked scenario: 09:07Z to 09:42Z at UTC+02:00, clipped to the
      window from 00:15Z to 24:00Z of the same day, occupies 11:15, 11:30
      and 11:45. */
  lemma ClippedScenario()
    ensures EntryLabels(Clip(Stamp(900, 0), Stamp(86400, 0)),
                        Entry(Stamp(32820, 120), Some(Stamp(34920, 120)), "work"),
                        Stamp(0, 0)) == ["11:15", "11:30", "11:45"]
  {
    ScenarioStamps();
    ScenarioLabels();
  }

  /** A start clipped to the day window keeps the day start's offset
      (UTC in the drivers), so its labels are printed in that offset, not
      in local time. The day start is the second argument of `max`, so
      it wins only when strictly later. */
  lemma ClippedStartTakesWinnerOffset(dayStart: Stamp, dayEnd: Stamp, e: Entry, now: Stamp)
    requires Touches(Clip(dayStart, dayEnd), e, now)
    requires e.start.utc < dayStart.utc
    requires |EntryStamps(Clip(dayStart, dayEnd), e, now)| > 0
    ensures EntryStamps(Clip(dayStart, dayEnd), e, now)[0].offset == dayStart.offset
  {
    var r := EntryStamps(Clip(dayStart, dayEnd), e, now);
    assert r[0] in r;
  }
}
