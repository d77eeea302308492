/** The calendar-month grouping inside reportify's `generate_all_totals`:
    the per-column loop walks the days from the start date and closes
    the running bucket whenever `fixed_month < month or fixed_year <
    year`. Buckets are kept here as lists of day indices (0 for the start
    date); the formula text of a bucket is built from them afterwards. */
module MonthBuckets {
  import opened Calendar

  /** Months counted from year 0: consecutive months differ by one. */
  function MonthIndex(d: Date): int {
    d.year * 12 + d.month - 1
  }

  /** The split test of the loop. */
  predicate NewMonth(fixedYear: int, fixedMonth: int, d: Date) {
    fixedMonth < d.month || fixedYear < d.year
  }

  /** On the day after p, the test fires exactly when the month moves on
      by one; otherwise year and month stay. */
  lemma NextDaySplit(p: Date)
    requires Valid(p)
    ensures NewMonth(p.year, p.month, NextDay(p)) ==> MonthIndex(NextDay(p)) == MonthIndex(p) + 1
    ensures !NewMonth(p.year, p.month, NextDay(p)) ==> NextDay(p).year == p.year && NextDay(p).month == p.month
  {
  }

  /** `current_date += timedelta(days=1)` from `start`, n times. */
  function DaysFrom(start: Date, n: nat): (r: seq<Date>)
    requires Valid(start)
    ensures |r| == n
    ensures forall k :: 0 <= k < n ==> r[k] == AddDays(start, k)
  {
    seq(n, k requires 0 <= k < n => AddDays(start, k))
  }

  predicate Consecutive(days: seq<Date>) {
    (forall k :: 0 <= k < |days| ==> Valid(days[k]))
    && forall k :: 0 <= k < |days| - 1 ==> Valid(days[k]) && days[k + 1] == NextDay(days[k])
  }

  lemma DaysFromConsecutive(start: Date, n: nat)
    requires Valid(start)
    ensures Consecutive(DaysFrom(start, n))
  {
    var days := DaysFrom(start, n);
    forall k | 0 <= k < n - 1 ensures days[k + 1] == NextDay(days[k]) {
      OrdinalInjective(days[k + 1], NextDay(days[k]));
    }
  }

  /** The loop body, one day per step: `done` holds the closed buckets,
      `cur` the open one. */
  function Loop(days: seq<Date>, k: nat, fixedYear: int, fixedMonth: int,
                done: seq<seq<nat>>, cur: seq<nat>): seq<seq<nat>>
    requires k <= |days|
    decreases |days| - k
  {
    if k == |days| then done + [cur]
    else if NewMonth(fixedYear, fixedMonth, days[k]) then
      Loop(days, k + 1, days[k].year, days[k].month, done + [cur], [k])
    else Loop(days, k + 1, fixedYear, fixedMonth, done, cur + [k])
  }

  /** The buckets of one column: the loop started with the start date's
      year and month fixed. */
  function Buckets(start: Date, days: seq<Date>): seq<seq<nat>> {
    Loop(days, 0, start.year, start.month, [], [])
  }

  function Flatten(b: seq<seq<nat>>): seq<nat> {
    if |b| == 0 then [] else Flatten(b[..|b| - 1]) + b[|b| - 1]
  }

  /** 0, 1, ..., n-1. */
  function Indices(lo: nat, hi: nat): (r: seq<nat>)
    requires lo <= hi
    ensures |r| == hi - lo
    ensures forall i :: 0 <= i < |r| ==> r[i] == lo + i
  {
    seq(hi - lo, i requires 0 <= i < hi - lo => lo + i)
  }

  lemma FlattenAppend(b: seq<seq<nat>>, c: seq<nat>)
    ensures Flatten(b + [c]) == Flatten(b) + c
  {
    assert (b + [c])[..|b|] == b;
  }

  /** The loop loses and reorders nothing: closed buckets, the open one
      and the remaining days, in that order. */
  lemma {:induction false} LoopFlatten(days: seq<Date>, k: nat, fy: int, fm: int, done: seq<seq<nat>>, cur: seq<nat>)
    requires k <= |days|
    ensures Flatten(Loop(days, k, fy, fm, done, cur)) == Flatten(done) + cur + Indices(k, |days|)
    decreases |days| - k
  {
    if k == |days| {
      FlattenAppend(done, cur);
    } else if NewMonth(fy, fm, days[k]) {
      LoopFlatten(days, k + 1, days[k].year, days[k].month, done + [cur], [k]);
      FlattenAppend(done, cur);
      assert [k] + Indices(k + 1, |days|) == Indices(k, |days|);
    } else {
      LoopFlatten(days, k + 1, fy, fm, done, cur + [k]);
      assert [k] + Indices(k + 1, |days|) == Indices(k, |days|);
    }
  }

  /** What the loop needs of consecutive days: between neighbours the
      split test fires exactly when the month index moves on by one, and
      otherwise year and month stay. */
  predicate MonthSteps(days: seq<Date>) {
    forall k :: 0 <= k < |days| - 1 ==>
      (NewMonth(days[k].year, days[k].month, days[k + 1]) ==> MonthIndex(days[k + 1]) == MonthIndex(days[k]) + 1)
      && (!NewMonth(days[k].year, days[k].month, days[k + 1]) ==>
            days[k + 1].year == days[k].year && days[k + 1].month == days[k].month)
  }

  lemma ConsecutiveMonthSteps(days: seq<Date>)
    requires Consecutive(days)
    ensures MonthSteps(days)
  {
    forall k | 0 <= k < |days| - 1
      ensures NewMonth(days[k].year, days[k].month, days[k + 1]) ==> MonthIndex(days[k + 1]) == MonthIndex(days[k]) + 1
      ensures !NewMonth(days[k].year, days[k].month, days[k + 1]) ==>
                days[k + 1].year == days[k].year && days[k + 1].month == days[k].month
    {
      NextDaySplit(days[k]);
    }
  }

  /** The fixed month is the month of the previous day (of the first day
      before any step). */
  predicate FixedMonth(days: seq<Date>, k: nat, fy: int, fm: int) {
    k <= |days| && MonthSteps(days)
    && (k == 0 ==> |days| == 0 || (fy == days[0].year && fm == days[0].month))
    && (k > 0 ==> fy == days[k - 1].year && fm == days[k - 1].month)
  }

  /** The state the loop keeps: the fixed month as above, and the open
      bucket holds only days of that month. */
  predicate LoopState(days: seq<Date>, k: nat, fy: int, fm: int, cur: seq<nat>) {
    FixedMonth(days, k, fy, fm)
    && forall x :: x in cur ==> x < |days| && MonthIndex(days[x]) == fy * 12 + fm - 1
  }

  /** The closed buckets are passed through and one more always follows. */
  lemma {:induction false} LoopKeepsDone(days: seq<Date>, k: nat, fy: int, fm: int, done: seq<seq<nat>>, cur: seq<nat>)
    requires k <= |days|
    ensures |done| < |Loop(days, k, fy, fm, done, cur)|
    ensures Loop(days, k, fy, fm, done, cur)[..|done|] == done
    ensures k == |days| ==> Loop(days, k, fy, fm, done, cur)[|done|] == cur
    decreases |days| - k
  {
    if k < |days| {
      if NewMonth(fy, fm, days[k]) {
        LoopKeepsDone(days, k + 1, days[k].year, days[k].month, done + [cur], [k]);
        var r := Loop(days, k + 1, days[k].year, days[k].month, done + [cur], [k]);
        assert r[..|done|] == r[..|done| + 1][..|done|];
      } else {
        LoopKeepsDone(days, k + 1, fy, fm, done, cur + [k]);
      }
    }
  }

  /** The step from the previous day to day k under the loop state: a
      split moves the month index on by one, no split keeps the month. */
  lemma StateStep(days: seq<Date>, k: nat, fy: int, fm: int)
    requires FixedMonth(days, k, fy, fm) && k < |days|
    ensures NewMonth(fy, fm, days[k]) ==> k > 0 && MonthIndex(days[k]) == fy * 12 + fm
    ensures !NewMonth(fy, fm, days[k]) ==> days[k].year == fy && days[k].month == fm
  {
    if k > 0 {
      assert k - 1 < |days| - 1;
    }
  }

  /** The loop state carries over to the next day, whichever branch the
      loop takes. */
  lemma StateNext(days: seq<Date>, k: nat, fy: int, fm: int, cur: seq<nat>)
    requires LoopState(days, k, fy, fm, cur) && k < |days|
    ensures NewMonth(fy, fm, days[k]) ==> LoopState(days, k + 1, days[k].year, days[k].month, [k])
    ensures !NewMonth(fy, fm, days[k]) ==> LoopState(days, k + 1, fy, fm, cur + [k])
  {
    StateStep(days, k, fy, fm);
  }

  /** The fixed month carries over to the next day, whichever branch the
      loop takes. */
  lemma FixedNext(days: seq<Date>, k: nat, fy: int, fm: int)
    requires FixedMonth(days, k, fy, fm) && k < |days|
    ensures NewMonth(fy, fm, days[k]) ==> FixedMonth(days, k + 1, days[k].year, days[k].month)
    ensures !NewMonth(fy, fm, days[k]) ==> FixedMonth(days, k + 1, fy, fm)
  {
    StateStep(days, k, fy, fm);
  }

  /** One bucket per month from the fixed month to the last day's. */
  lemma {:induction false} LoopCount(days: seq<Date>, k: nat, fy: int, fm: int, done: seq<seq<nat>>, cur: seq<nat>)
    requires FixedMonth(days, k, fy, fm)
    ensures |Loop(days, k, fy, fm, done, cur)|
         == |done| + 1 + (if k < |days| then MonthIndex(days[|days| - 1]) - (fy * 12 + fm - 1) else 0)
    decreases |days| - k
  {
    if k < |days| {
      FixedNext(days, k, fy, fm);
      StateStep(days, k, fy, fm);
      var d := days[k];
      if NewMonth(fy, fm, d) {
        LoopCount(days, k + 1, d.year, d.month, done + [cur], [k]);
      } else {
        LoopCount(days, k + 1, fy, fm, done, cur + [k]);
      }
    }
  }

  /** Bucket j, from bucket `from` on, holds only days of month index
      `base + (j - from)`. */
  predicate MonthsFrom(days: seq<Date>, b: seq<seq<nat>>, from: int, base: int) {
    forall j, x :: 0 <= from <= j < |b| && x in b[j] ==>
      x < |days| && MonthIndex(days[x]) == base + (j - from)
  }

  /** Reading one fact out of `MonthsFrom`. */
  lemma MonthsFromAt(days: seq<Date>, b: seq<seq<nat>>, from: int, base: int, j: int, x: nat)
    requires MonthsFrom(days, b, from, base)
    requires 0 <= from <= j < |b| && x in b[j]
    ensures x < |days| && MonthIndex(days[x]) == base + (j - from)
  {
  }

  /** Putting one bucket of month `base` in front of buckets of months
      `base + 1` on. */
  lemma MonthsFromExtend(days: seq<Date>, b: seq<seq<nat>>, from: nat, base: int)
    requires from < |b| && MonthsFrom(days, b, from + 1, base + 1)
    requires forall x :: x in b[from] ==> x < |days| && MonthIndex(days[x]) == base
    ensures MonthsFrom(days, b, from, base)
  {
  }

  /** The split step of `LoopKeys`: the bucket closed on a month change
      holds days of the fixed month, and the buckets after it start one
      month later. */
  lemma SplitKeys(days: seq<Date>, k: nat, fy: int, fm: int, done: seq<seq<nat>>, cur: seq<nat>)
    requires LoopState(days, k, fy, fm, cur) && k < |days| && NewMonth(fy, fm, days[k])
    requires MonthsFrom(days, Loop(days, k + 1, days[k].year, days[k].month, done + [cur], [k]), |done| + 1,
                        days[k].year * 12 + days[k].month - 1)
    ensures MonthsFrom(days, Loop(days, k, fy, fm, done, cur), |done|, fy * 12 + fm - 1)
  {
    StateStep(days, k, fy, fm);
    var r := Loop(days, k, fy, fm, done, cur);
    assert r == Loop(days, k + 1, days[k].year, days[k].month, done + [cur], [k]);
    LoopKeepsDone(days, k + 1, days[k].year, days[k].month, done + [cur], [k]);
    assert r[|done|] == (done + [cur])[|done|] == cur;
    MonthsFromExtend(days, r, |done|, fy * 12 + fm - 1);
  }

  /** At the end of the days the open bucket is the last one and holds
      days of the fixed month. */
  lemma LastKeys(days: seq<Date>, k: nat, fy: int, fm: int, done: seq<seq<nat>>, cur: seq<nat>)
    requires LoopState(days, k, fy, fm, cur) && k == |days|
    ensures MonthsFrom(days, Loop(days, k, fy, fm, done, cur), |done|, fy * 12 + fm - 1)
  {
    var r := Loop(days, k, fy, fm, done, cur);
    assert r == done + [cur];
    assert |r| == |done| + 1 && r[|done|] == cur;
  }

  /** Bucket j (counting from the open one) holds only days of the month
      j months after the fixed one. */
  lemma {:induction false} LoopKeys(days: seq<Date>, k: nat, fy: int, fm: int, done: seq<seq<nat>>, cur: seq<nat>)
    requires LoopState(days, k, fy, fm, cur)
    ensures MonthsFrom(days, Loop(days, k, fy, fm, done, cur), |done|, fy * 12 + fm - 1)
    decreases |days| - k
  {
    if k == |days| {
      LastKeys(days, k, fy, fm, done, cur);
    } else {
      StateNext(days, k, fy, fm, cur);
      if NewMonth(fy, fm, days[k]) {
        LoopKeys(days, k + 1, days[k].year, days[k].month, done + [cur], [k]);
        SplitKeys(days, k, fy, fm, done, cur);
      } else {
        LoopKeys(days, k + 1, fy, fm, done, cur + [k]);
        assert Loop(days, k, fy, fm, done, cur) == Loop(days, k + 1, fy, fm, done, cur + [k]);
      }
    }
  }

  /** No bucket after the open one is empty, and the open one is not
      either once it holds a day or a day remains. */
  lemma {:induction false} LoopNonEmpty(days: seq<Date>, k: nat, fy: int, fm: int, done: seq<seq<nat>>, cur: seq<nat>)
    requires k <= |days|
    requires k < |days| && NewMonth(fy, fm, days[k]) ==> |cur| > 0
    ensures |done| < |Loop(days, k, fy, fm, done, cur)|
    ensures forall j :: |done| < j < |Loop(days, k, fy, fm, done, cur)| ==> |Loop(days, k, fy, fm, done, cur)[j]| > 0
    ensures k < |days| || |cur| > 0 ==> |Loop(days, k, fy, fm, done, cur)[|done|]| > 0
    decreases |days| - k
  {
    var r := Loop(days, k, fy, fm, done, cur);
    LoopKeepsDone(days, k, fy, fm, done, cur);
    if k < |days| {
      var d := days[k];
      if NewMonth(fy, fm, d) {
        LoopNonEmpty(days, k + 1, d.year, d.month, done + [cur], [k]);
        LoopKeepsDone(days, k + 1, d.year, d.month, done + [cur], [k]);
        assert r[|done|] == (done + [cur])[|done|] == cur;
      } else {
        LoopNonEmpty(days, k + 1, fy, fm, done, cur + [k]);
      }
    }
  }

  /** The four facts below for any days whose months step as consecutive
      days' do, from a first day in the start's month. */
  lemma BucketsOfMonthSteps(start: Date, days: seq<Date>)
    requires MonthSteps(days) && |days| > 0 && days[0].year == start.year && days[0].month == start.month
    ensures Flatten(Buckets(start, days)) == Indices(0, |days|)
    ensures |Buckets(start, days)| == MonthIndex(days[|days| - 1]) - MonthIndex(start) + 1
    ensures MonthsFrom(days, Buckets(start, days), 0, MonthIndex(start))
    ensures forall j :: 0 <= j < |Buckets(start, days)| ==> |Buckets(start, days)[j]| > 0
  {
    assert LoopState(days, 0, start.year, start.month, []);
    LoopFlatten(days, 0, start.year, start.month, [], []);
    LoopCount(days, 0, start.year, start.month, [], []);
    LoopKeys(days, 0, start.year, start.month, [], []);
    LoopNonEmpty(days, 0, start.year, start.month, [], []);
  }

  /** The buckets of a run of consecutive days from the start date:
      together they are all the days in order; bucket j holds the days j
      months after the start's month; none is empty; and there is one
      bucket per month from the first day's to the last day's. */
  lemma BucketsOfConsecutiveDays(start: Date, n: nat)
    requires Valid(start) && n > 0
    ensures Flatten(Buckets(start, DaysFrom(start, n))) == Indices(0, n)
    ensures |Buckets(start, DaysFrom(start, n))| == MonthIndex(AddDays(start, n - 1)) - MonthIndex(start) + 1
    ensures MonthsFrom(DaysFrom(start, n), Buckets(start, DaysFrom(start, n)), 0, MonthIndex(start))
    ensures forall j :: 0 <= j < |Buckets(start, DaysFrom(start, n))| ==> |Buckets(start, DaysFrom(start, n))[j]| > 0
  {
    var days := DaysFrom(start, n);
    DaysFromConsecutive(start, n);
    ConsecutiveMonthSteps(days);
    assert days[0] == start && days[n - 1] == AddDays(start, n - 1);
    BucketsOfMonthSteps(start, days);
  }

  /** Hence a new bucket starts exactly where the month changes: two days
      share a bucket iff they share a month. */
  lemma SameBucketIffSameMonth(start: Date, n: nat, j1: int, x1: nat, j2: int, x2: nat)
    requires Valid(start) && n > 0
    requires 0 <= j1 < |Buckets(start, DaysFrom(start, n))| && x1 in Buckets(start, DaysFrom(start, n))[j1]
    requires 0 <= j2 < |Buckets(start, DaysFrom(start, n))| && x2 in Buckets(start, DaysFrom(start, n))[j2]
    ensures x1 < n && x2 < n
    ensures j1 == j2 <==> MonthIndex(AddDays(start, x1)) == MonthIndex(AddDays(start, x2))
  {
    var days := DaysFrom(start, n);
    var b := Buckets(start, days);
    BucketsOfConsecutiveDays(start, n);
    MonthsFromAt(days, b, 0, MonthIndex(start), j1, x1);
    MonthsFromAt(days, b, 0, MonthIndex(start), j2, x2);
    assert days[x1] == AddDays(start, x1) && days[x2] == AddDays(start, x2);
  }
}
