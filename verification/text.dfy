/** Decimal rendering of integers as Python's `str`, `%02d` and `%04d`
    produce it, plus Python's lexicographic string order. */
module Text {

  predicate IsDigit(c: char) {
    '0' <= c <= '9'
  }

  predicate AllDigits(s: string) {
    forall i :: 0 <= i < |s| ==> IsDigit(s[i])
  }

  function DigitChar(d: nat): (c: char)
    requires d < 10
    ensures IsDigit(c)
    ensures DigitValue(c) == d
  {
    (48 + d) as char
  }

  function DigitValue(c: char): nat
    requires IsDigit(c)
  {
    c as nat - 48
  }

  /** The number a string of decimal digits denotes. */
  function ParseDigits(s: string): nat
    requires AllDigits(s)
  {
    if |s| == 0 then 0 else ParseDigits(s[..|s| - 1]) * 10 + DigitValue(s[|s| - 1])
  }

  /** `str(n)` for a non-negative Python int: no padding, no sign. */
  function NatToString(n: nat): (s: string)
    ensures 1 <= |s|
    ensures AllDigits(s)
    ensures s[0] == '0' ==> n == 0
  {
    if n < 10 then [DigitChar(n)] else NatToString(n / 10) + [DigitChar(n % 10)]
  }

  /** `str(i)` for any Python int. */
  function IntToString(i: int): (s: string)
    ensures 1 <= |s|
    ensures (s[0] == '-') <==> i < 0
    ensures i >= 0 ==> s == NatToString(i)
  {
    if i < 0 then "-" + NatToString(-i) else NatToString(i)
  }

  /** `f"{n:02d}"` for 0 <= n < 100. */
  function TwoDigits(n: nat): (s: string)
    requires n < 100
    ensures |s| == 2 && AllDigits(s)
    ensures ParseDigits(s) == n
  {
    var s := [DigitChar(n / 10), DigitChar(n % 10)];
    assert s[..1][..0] == [];
    assert ParseDigits(s[..1]) == n / 10;
    s
  }

  /** `f"{n:04d}"` for 0 <= n < 10000 (the year of an ISO date). */
  function FourDigits(n: nat): (s: string)
    requires n < 10000
    ensures |s| == 4 && AllDigits(s)
  {
    TwoDigits(n / 100) + TwoDigits(n % 100)
  }

  /** `sep.join(parts)`. */
  function Join(sep: string, parts: seq<string>): string {
    if |parts| == 0 then ""
    else if |parts| == 1 then parts[0]
    else parts[0] + sep + Join(sep, parts[1..])
  }

  /** Joining one more part appends the separator and the part. */
  lemma {:induction false} JoinSnoc(sep: string, parts: seq<string>, x: string)
    requires |parts| > 0
    ensures Join(sep, parts + [x]) == Join(sep, parts) + sep + x
    decreases |parts|
  {
    if |parts| > 1 {
      assert (parts + [x])[1..] == parts[1..] + [x];
      JoinSnoc(sep, parts[1..], x);
    } else {
      assert (parts + [x])[1..] == [x];
    }
  }

  /** Python's `a < b` on str: a proper prefix, or smaller at the first
      position where the two differ. */
  predicate LexLess(a: string, b: string) {
    |b| > 0 && (|a| == 0 || a[0] < b[0] || (a[0] == b[0] && LexLess(a[1..], b[1..])))
  }

  /** Python's `a <= b` on str. */
  predicate LexLessEq(a: string, b: string) {
    a == b || LexLess(a, b)
  }

  /** Decimal rendering and parsing are inverse. */
  lemma {:induction false} ParseNatToString(n: nat)
    ensures ParseDigits(NatToString(n)) == n
  {
    if n >= 10 {
      var s := NatToString(n);
      assert s[..|s| - 1] == NatToString(n / 10);
      ParseNatToString(n / 10);
    }
  }

  lemma NatToStringInjective(a: nat, b: nat)
    requires NatToString(a) == NatToString(b)
    ensures a == b
  {
    ParseNatToString(a);
    ParseNatToString(b);
  }

  lemma TwoDigitsInjective(a: nat, b: nat)
    requires a < 100 && b < 100
    requires TwoDigits(a) == TwoDigits(b)
    ensures a == b
  {
  }

  lemma FourDigitsInjective(a: nat, b: nat)
    requires a < 10000 && b < 10000
    requires FourDigits(a) == FourDigits(b)
    ensures a == b
  {
    assert TwoDigits(a / 100) == FourDigits(a)[..2] == FourDigits(b)[..2] == TwoDigits(b / 100);
    assert TwoDigits(a % 100) == FourDigits(a)[2..] == FourDigits(b)[2..] == TwoDigits(b % 100);
    TwoDigitsInjective(a / 100, b / 100);
    TwoDigitsInjective(a % 100, b % 100);
  }

  /** Comparing two concatenations whose first parts have equal length
      compares the first parts, then the second. */
  lemma {:induction false} LexLessConcat(a1: string, a2: string, b1: string, b2: string)
    requires |a1| == |b1|
    ensures LexLess(a1 + a2, b1 + b2) <==> LexLess(a1, b1) || (a1 == b1 && LexLess(a2, b2))
  {
    if |a1| == 0 {
      assert a1 + a2 == a2 && b1 + b2 == b2;
    } else {
      assert (a1 + a2)[0] == a1[0] && (b1 + b2)[0] == b1[0];
      assert (a1 + a2)[1..] == a1[1..] + a2;
      assert (b1 + b2)[1..] == b1[1..] + b2;
      LexLessConcat(a1[1..], a2, b1[1..], b2);
      if a1[0] == b1[0] && a1[1..] == b1[1..] {
        assert a1 == [a1[0]] + a1[1..] && b1 == [b1[0]] + b1[1..];
      }
      if a1 == b1 {
        assert a1[1..] == b1[1..];
      }
    }
  }

  lemma LexLessIrreflexive(a: string)
    ensures !LexLess(a, a)
  {
  }

  /** Fixed-width decimal strings order like the numbers they denote. */
  lemma TwoDigitsOrder(a: nat, b: nat)
    requires a < 100 && b < 100
    ensures LexLess(TwoDigits(a), TwoDigits(b)) <==> a < b
  {
    var sa, sb := TwoDigits(a), TwoDigits(b);
    assert sa[1..] == [DigitChar(a % 10)] && sb[1..] == [DigitChar(b % 10)];
    assert sa[1..][1..] == [] && sb[1..][1..] == [];
    assert LexLess(sa[1..], sb[1..]) <==> sa[1] < sb[1];
    assert LexLess(sa, sb) <==> sa[0] < sb[0] || (sa[0] == sb[0] && sa[1] < sb[1]);
    assert a == (a / 10) * 10 + a % 10 && b == (b / 10) * 10 + b % 10;
  }

  lemma FourDigitsOrder(a: nat, b: nat)
    requires a < 10000 && b < 10000
    ensures LexLess(FourDigits(a), FourDigits(b)) <==> a < b
  {
    LexLessConcat(TwoDigits(a / 100), TwoDigits(a % 100), TwoDigits(b / 100), TwoDigits(b % 100));
    TwoDigitsOrder(a / 100, b / 100);
    TwoDigitsOrder(a % 100, b % 100);
    if TwoDigits(a / 100) == TwoDigits(b / 100) {
      TwoDigitsInjective(a / 100, b / 100);
    }
  }
}
