/** Timezone-aware datetimes as the clockify handlers use them: an instant
    in UTC seconds together with the fixed UTC offset (in minutes) of the
    tzinfo the object carries. Comparisons look at the instant only;
    adding a `timedelta` shifts the instant and keeps the offset, which is
    what arithmetic on a pytz-localized datetime does without
    `normalize`. */
module Stamps {
  import opened Text

  datatype Stamp = Stamp(utc: int, offset: int)

  const QuarterSeconds: int := 900
  const DaySeconds: int := 86400

  /** Seconds since the local epoch: the wall clock the stamp shows. */
  function Local(t: Stamp): int {
    t.utc + 60 * t.offset
  }

  /** Minutes since local midnight, 0 <= r < 1440. */
  function WallMinute(t: Stamp): (r: int)
    ensures 0 <= r < 1440
  {
    (Local(t) / 60) % 1440
  }

  /** `dt.minute`. */
  function Minute(t: Stamp): (r: int)
    ensures 0 <= r < 60
  {
    WallMinute(t) % 60
  }

  /** `dt.second`. */
  function Second(t: Stamp): (r: int)
    ensures 0 <= r < 60
  {
    Local(t) % 60
  }

  /** The wall clock sits on a quarter hour: minute % 15 == 0 and
      second == 0. */
  predicate Aligned(t: Stamp) {
    Local(t) % QuarterSeconds == 0
  }

  /** The minute within the quarter depends on the minute count only. */
  lemma MinuteInQuarter(q: int)
    ensures ((q % 1440) % 60) % 15 == q % 15
  {
    var c, r := q / 1440, q % 1440;
    var d, e := r / 60, r % 60;
    assert q == 15 * (96 * c + 4 * d) + e;
  }

  /** The wall clock splits into whole quarters, minutes within the
      quarter and seconds. */
  lemma QuarterParts(t: Stamp)
    ensures Local(t) == QuarterSeconds * (Local(t) / QuarterSeconds) + 60 * (Minute(t) % 15) + Second(t)
    ensures Local(t) % QuarterSeconds == 60 * (Minute(t) % 15) + Second(t)
  {
    var l := Local(t);
    var q, s := l / 60, l % 60;
    var a, b := q / 15, q % 15;
    MinuteInQuarter(q);
    assert l == QuarterSeconds * a + (60 * b + s);
  }

  lemma MultipleAligned(t: Stamp, n: int)
    requires Local(t) == QuarterSeconds * n
    ensures Aligned(t)
  {
  }

  lemma AlignedFields(t: Stamp)
    ensures Aligned(t) <==> Minute(t) % 15 == 0 && Second(t) == 0
  {
    QuarterParts(t);
  }

  lemma AlignedWallMinute(t: Stamp)
    requires Aligned(t)
    ensures WallMinute(t) % 15 == 0
  {
    var a := Local(t) / QuarterSeconds;
    assert Local(t) == QuarterSeconds * a;
    assert Local(t) / 60 == 15 * a;
    var c := (15 * a) / 1440;
    assert WallMinute(t) == 15 * (a - 96 * c);
  }

  /** `t + timedelta(seconds=s)`. */
  function Shift(t: Stamp, s: int): (r: Stamp)
    ensures r.offset == t.offset && r.utc == t.utc + s
  {
    Stamp(t.utc + s, t.offset)
  }

  /** Shifting keeps the zone and moves the wall clock by s seconds;
      whole minutes leave the seconds alone and turn the minute of the
      day round the 24-hour dial. */
  lemma ShiftWallClock(t: Stamp, s: int)
    ensures Shift(t, s).offset == t.offset && Local(Shift(t, s)) == Local(t) + s
    ensures s % 60 == 0 ==> Second(Shift(t, s)) == Second(t)
    ensures s % 60 == 0 ==> WallMinute(Shift(t, s)) == (WallMinute(t) + s / 60) % 1440
  {
    WholeMinutesAdded(Local(t), s);
  }

  /** Adding a whole number of minutes s to a count of seconds x keeps
      x % 60 and moves the minute of the day by s / 60, modulo a day. */
  lemma WholeMinutesAdded(x: int, s: int)
    ensures s % 60 == 0 ==> (x + s) % 60 == x % 60
    ensures s % 60 == 0 ==> ((x + s) / 60) % 1440 == ((x / 60) % 1440 + s / 60) % 1440
  {
    if s % 60 == 0 {
      var k := s / 60;
      var q, r := x / 60, x % 60;
      assert x + s == 60 * (q + k) + r;
      assert (x + s) / 60 == q + k;
      var c := q / 1440;
      assert q + k == 1440 * c + (q % 1440 + k);
    }
  }

  /** `a <= b` on aware datetimes: the instants are compared. */
  predicate NotAfter(a: Stamp, b: Stamp) {
    a.utc <= b.utc
  }

  /** Python's `max(a, b)`: b only when it is strictly later, so on equal
      instants the first argument, with its own offset, is returned. */
  function Max(a: Stamp, b: Stamp): (r: Stamp)
    ensures r == a || r == b
    ensures NotAfter(a, r) && NotAfter(b, r)
    ensures r.utc == a.utc ==> r == a
  {
    if b.utc > a.utc then b else a
  }

  /** Python's `min(a, b)`: b only when it is strictly earlier. */
  function Min(a: Stamp, b: Stamp): (r: Stamp)
    ensures r == a || r == b
    ensures NotAfter(r, a) && NotAfter(r, b)
    ensures r.utc == a.utc ==> r == a
  {
    if b.utc < a.utc then b else a
  }

  /** `round_time_to_nearest_quarter(dt, round_up=True)`: add
      `15 - minute % 15` minutes and drop the seconds, so the next
      quarter strictly after dt. */
  function RoundUp(t: Stamp): (r: Stamp)
    ensures Aligned(r) && r.offset == t.offset
    ensures t.utc < r.utc <= t.utc + QuarterSeconds
  {
    QuarterParts(t);
    var a, off := Local(t) / QuarterSeconds, 60 * (Minute(t) % 15) + Second(t);
    assert 0 <= off < QuarterSeconds;
    var r := Shift(t, (15 - Minute(t) % 15) * 60 - Second(t));
    assert r.utc == t.utc + (QuarterSeconds - off);
    MultipleAligned(r, a + 1);
    r
  }

  /** `round_time_to_nearest_quarter(dt)`: subtract `minute % 15` minutes
      and the seconds. */
  function RoundDown(t: Stamp): (r: Stamp)
    ensures Aligned(r) && r.offset == t.offset
    ensures r.utc <= t.utc < r.utc + QuarterSeconds
  {
    QuarterParts(t);
    var a, off := Local(t) / QuarterSeconds, 60 * (Minute(t) % 15) + Second(t);
    assert 0 <= off < QuarterSeconds;
    var r := Shift(t, -(Minute(t) % 15) * 60 - Second(t));
    assert r.utc == t.utc - off;
    MultipleAligned(r, a);
    r
  }

  /** `round_time_to_nearest_quarter(dt, round_up)`. */
  function RoundToQuarter(t: Stamp, roundUp: bool): (r: Stamp)
    ensures Aligned(r) && r.offset == t.offset
    ensures roundUp ==> t.utc < r.utc <= t.utc + QuarterSeconds
    ensures !roundUp ==> r.utc <= t.utc < r.utc + QuarterSeconds
  {
    if roundUp then RoundUp(t) else RoundDown(t)
  }

  /** Two aligned stamps in one offset are a whole number of quarters
      apart. */
  lemma AlignedGap(a: Stamp, b: Stamp)
    requires Aligned(a) && Aligned(b) && a.offset == b.offset
    ensures (b.utc - a.utc) % QuarterSeconds == 0
  {
  }

  /** Rounding up gives the first quarter strictly after t. */
  lemma RoundUpIsLeast(t: Stamp, u: Stamp)
    requires Aligned(u) && u.offset == t.offset && t.utc < u.utc
    ensures RoundUp(t).utc <= u.utc
  {
    AlignedGap(RoundUp(t), u);
  }

  /** Rounding down gives the last quarter at or before t. */
  lemma RoundDownIsGreatest(t: Stamp, u: Stamp)
    requires Aligned(u) && u.offset == t.offset && u.utc <= t.utc
    ensures u.utc <= RoundDown(t).utc
  {
    AlignedGap(u, RoundDown(t));
  }

  /** An already aligned stamp still moves forward a full quarter. */
  lemma RoundUpAligned(t: Stamp)
    requires Aligned(t)
    ensures RoundUp(t) == Shift(t, QuarterSeconds)
  {
    AlignedGap(t, RoundUp(t));
  }

  /** Rounding down leaves an aligned stamp alone, so it is idempotent. */
  lemma RoundDownIdempotent(t: Stamp)
    ensures RoundDown(t) == t <==> Aligned(t)
    ensures RoundDown(RoundDown(t)) == RoundDown(t)
  {
    if Aligned(t) {
      AlignedGap(RoundDown(t), t);
    }
    AlignedGap(RoundDown(RoundDown(t)), RoundDown(t));
  }

  /** `"%02d:%02d"` of an hour and minute given as minutes since midnight. */
  function MinuteLabel(m: int): (s: string)
    requires 0 <= m < 1440
    ensures |s| == 5 && s[2] == ':'
  {
    TwoDigits(m / 60) + ":" + TwoDigits(m % 60)
  }

  /** `dt.strftime('%H:%M')`. */
  function Label(t: Stamp): (s: string)
    ensures |s| == 5
  {
    MinuteLabel(WallMinute(t))
  }

  /** Distinct minutes of the day print differently. */
  lemma MinuteLabelInjective(a: int, b: int)
    requires 0 <= a < 1440 && 0 <= b < 1440
    requires MinuteLabel(a) == MinuteLabel(b)
    ensures a == b
  {
    assert MinuteLabel(a)[..2] == TwoDigits(a / 60) && MinuteLabel(b)[..2] == TwoDigits(b / 60);
    assert MinuteLabel(a)[3..] == TwoDigits(a % 60) && MinuteLabel(b)[3..] == TwoDigits(b % 60);
    TwoDigitsInjective(a / 60, b / 60);
    TwoDigitsInjective(a % 60, b % 60);
  }

  /** Labels order like the minutes they show. */
  lemma MinuteLabelOrder(a: int, b: int)
    requires 0 <= a < 1440 && 0 <= b < 1440
    ensures LexLess(MinuteLabel(a), MinuteLabel(b)) <==> a < b
  {
    var ha, hb := TwoDigits(a / 60), TwoDigits(b / 60);
    var ma, mb := TwoDigits(a % 60), TwoDigits(b % 60);
    LexLessConcat(ha + ":", ma, hb + ":", mb);
    LexLessConcat(ha, ":", hb, ":");
    TwoDigitsOrder(a / 60, b / 60);
    TwoDigitsOrder(a % 60, b % 60);
    if ha == hb { TwoDigitsInjective(a / 60, b / 60); }
    if ha + ":" == hb + ":" {
      assert ha == (ha + ":")[..2] && hb == (hb + ":")[..2];
    }
  }

  /** Labels wrap at 24 hours: a stamp a day later prints the same. */
  lemma LabelWrapsDaily(t: Stamp, days: int)
    ensures Label(Shift(t, days * DaySeconds)) == Label(t)
  {
    var x, k := Local(t), days * 1440;
    assert Local(Shift(t, days * DaySeconds)) == x + 60 * k;
    assert (x + 60 * k) / 60 == x / 60 + k;
    assert (x / 60 + k) % 1440 == (x / 60) % 1440;
  }
}
