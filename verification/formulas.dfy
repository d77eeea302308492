/** The pieces the totals writers assemble their spreadsheet formulas
    from, and the integer-minute meaning of those formulas: a cell shows
    a duration of m minutes as "H:MM". */
module Formulas {
  import opened Text

  /** An A1 reference `f"{column_letter}{row}"` (rows are 1-based). */
  function Ref(col: string, row: int): string {
    col + IntToString(row)
  }

  /** `=TEXT(INT(x / 60), "0") & ":" & TEXT(MOD(x, 60), "00")`: the
      minutes x shown as hours, a colon and two-digit minutes. */
  function TimeText(x: string): string {
    "=TEXT(INT(" + x + " / 60), \"0\") & \":\" & TEXT(MOD(" + x + ", 60), \"00\")"
  }

  /** `COUNTIF(Cf:Cl, "<>")`: the number of non-empty cells of column C
      from row f to row l. */
  function CountIf(col: string, first: int, last: int): string {
    "COUNTIF(" + Ref(col, first) + ":" + Ref(col, last) + ", \"<>\")"
  }

  /** `HOUR(TIMEVALUE(r))*60+MINUTE(TIMEVALUE(r))`: the minutes of an
      "H:MM" cell. */
  function MinutesOfTime(ref: string): string {
    "HOUR(TIMEVALUE(" + ref + "))*60+MINUTE(TIMEVALUE(" + ref + "))"
  }

  /** `LEFT(r,FIND(":",r)-1)*60+RIGHT(r,LEN(r)-FIND(":",r))`: the minutes
      of an "H:MM" cell read by splitting at the colon. */
  function MinutesBySplit(ref: string): string {
    "LEFT(" + ref + ",FIND(\":\"," + ref + ")-1)*60+RIGHT(" + ref + ",LEN(" + ref + ")-FIND(\":\"," + ref + "))"
  }

  /** The text a `TimeText` cell shows for m >= 0 minutes. */
  function HoursMinutes(m: nat): (s: string)
    ensures ':' in s
  {
    assert (NatToString(m / 60) + ":" + TwoDigits(m % 60))[|NatToString(m / 60)|] == ':';
    NatToString(m / 60) + ":" + TwoDigits(m % 60)
  }

  /** Position of the first colon (FIND(":", s) - 1). */
  function ColonAt(s: string): (i: int)
    requires ':' in s
    ensures 0 <= i < |s| && s[i] == ':'
    ensures forall j :: 0 <= j < i ==> s[j] != ':'
  {
    if s[0] == ':' then 0 else ColonAt(s[1..]) + 1
  }

  /** What `MinutesBySplit` computes from a cell: hours before the colon
      times 60 plus the minutes after it. */
  function ParseHoursMinutes(s: string): int
    requires ':' in s
    requires AllDigits(s[..ColonAt(s)]) && AllDigits(s[ColonAt(s) + 1..])
  {
    ParseDigits(s[..ColonAt(s)]) * 60 + ParseDigits(s[ColonAt(s) + 1..])
  }

  /** Reading back a displayed duration by splitting at the colon gives the
      minutes that were displayed. */
  lemma HoursMinutesRoundTrip(m: nat)
    ensures var s := HoursMinutes(m);
            AllDigits(s[..ColonAt(s)]) && AllDigits(s[ColonAt(s) + 1..]) && ParseHoursMinutes(s) == m
  {
    var h, mm := NatToString(m / 60), TwoDigits(m % 60);
    var s := HoursMinutes(m);
    assert forall j :: 0 <= j < |h| ==> s[j] == h[j];
    assert ColonAt(s) == |h|;
    assert s[..|h|] == h;
    assert s[|h| + 1..] == mm;
    ParseNatToString(m / 60);
  }

  /** A whole day of quarter hours, 1440 minutes, is displayed "24:00". */
  lemma WholeDayShown()
    ensures HoursMinutes(1440) == "24:00"
  {
    assert NatToString(24) == "24" by {
      assert NatToString(2) == "2" && NatToString(4) == "4";
    }
  }

  /** Distinct minute totals are displayed differently. */
  lemma HoursMinutesInjective(a: nat, b: nat)
    requires HoursMinutes(a) == HoursMinutes(b)
    ensures a == b
  {
    HoursMinutesRoundTrip(a);
    HoursMinutesRoundTrip(b);
  }

  /** Rows per day block in the two-worksheet layouts (header, 96 slots,
      total, spacer). */
  const BlockRows: int := 99

  /** Python's `range(start, stop, 99)`. */
  function RowRange(start: int, stop: int): (r: seq<int>)
    ensures |r| == if start < stop then (stop - start - 1) / BlockRows + 1 else 0
    ensures forall k :: 0 <= k < |r| ==> r[k] == start + BlockRows * k
    decreases stop - start
  {
    if start < stop then [start] + RowRange(start + BlockRows, stop) else []
  }

  /** `s.rstrip(c)`: trailing copies of c removed. */
  function RStrip(s: string, c: char): (r: string)
    ensures |r| <= |s| && r == s[..|r|]
    ensures |r| == 0 || r[|r| - 1] != c
    ensures forall i :: |r| <= i < |s| ==> s[i] == c
  {
    if |s| > 0 && s[|s| - 1] == c then RStrip(s[..|s| - 1], c) else s
  }

  /** Stripping a single trailing c from a string that does not otherwise
      end in c gives the string back. */
  lemma RStripOne(s: string, c: char)
    requires |s| > 0 && s[|s| - 1] != c
    ensures RStrip(s + [c], c) == s
  {
    assert (s + [c])[..|s|] == s;
  }

  /** Sum of a sequence of integers. */
  function Sum(xs: seq<int>): int {
    if |xs| == 0 then 0 else Sum(xs[..|xs| - 1]) + xs[|xs| - 1]
  }

  lemma {:induction false} SumAppend(a: seq<int>, b: seq<int>)
    ensures Sum(a + b) == Sum(a) + Sum(b)
  {
    if |b| == 0 {
      assert a + b == a;
    } else {
      assert (a + b)[..|a + b| - 1] == a + b[..|b| - 1];
      SumAppend(a, b[..|b| - 1]);
    }
  }
}
