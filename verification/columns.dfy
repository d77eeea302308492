/** Spreadsheet column letters: bijective base 26 ("A" = 1, "Z" = 26,
    "AA" = 27). xlsxwriter's `xl_col_to_name` takes a 0-based index,
    openpyxl's `get_column_letter` a 1-based one; both are this one
    numbering. */
module Columns {
  import opened Wrappers
  import opened Text

  predicate IsUpper(c: char) {
    'A' <= c <= 'Z'
  }

  predicate IsColumnName(s: string) {
    |s| > 0 && forall i :: 0 <= i < |s| ==> IsUpper(s[i])
  }

  function Letter(k: int): (c: char)
    requires 0 <= k < 26
    ensures IsUpper(c)
  {
    (65 + k) as char
  }

  /** The letters of 1-based column n. */
  function ColumnName(n: int): (s: string)
    requires n >= 1
    ensures IsColumnName(s)
    decreases n
  {
    if n <= 26 then [Letter(n - 1)]
    else ColumnName((n - 1) / 26) + [Letter((n - 1) % 26)]
  }

  /** Reference reading of column letters as a number. */
  function ColumnNumber(s: string): int
    requires forall i :: 0 <= i < |s| ==> IsUpper(s[i])
  {
    if |s| == 0 then 0 else ColumnNumber(s[..|s| - 1]) * 26 + (s[|s| - 1] as int - 64)
  }

  /** Reading the letters of column n gives n. */
  lemma {:induction false} ColumnNumberOfName(n: int)
    requires n >= 1
    ensures ColumnNumber(ColumnName(n)) == n
    decreases n
  {
    if n > 26 {
      var p := ColumnName((n - 1) / 26);
      var s := ColumnName(n);
      assert s[..|s| - 1] == p;
      ColumnNumberOfName((n - 1) / 26);
    }
  }

  /** Every non-empty string of capitals names exactly one column. */
  lemma {:induction false} ColumnNameOfNumber(s: string)
    requires IsColumnName(s)
    ensures ColumnNumber(s) >= 1
    ensures ColumnName(ColumnNumber(s)) == s
  {
    var p, c := s[..|s| - 1], s[|s| - 1];
    if |p| == 0 {
      assert s == [c];
    } else {
      ColumnNameOfNumber(p);
      var q := ColumnNumber(p);
      var n := ColumnNumber(s);
      assert n == q * 26 + (c as int - 64);
      assert (n - 1) / 26 == q && (n - 1) % 26 == c as int - 65;
      assert s == p + [c];
    }
  }

  /** Distinct columns have distinct letters. */
  lemma ColumnNameInjective(a: int, b: int)
    requires a >= 1 && b >= 1
    requires ColumnName(a) == ColumnName(b)
    ensures a == b
  {
    ColumnNumberOfName(a);
    ColumnNumberOfName(b);
  }

  /** `xlsxwriter.utility.xl_col_to_name(col)` for a 0-based column. */
  function XlColToName(col: nat): (s: string)
    ensures IsColumnName(s) && ColumnNumber(s) == col + 1
  {
    ColumnNumberOfName(col + 1);
    ColumnName(col + 1)
  }

  const MaxColumn: int := 18278

  /** openpyxl's `get_column_letter(idx)`: defined for 1..18278 ("ZZZ"),
      a `ValueError` outside. */
  function GetColumnLetter(idx: int): (r: Result<string, string>)
    ensures r.Success? <==> 1 <= idx <= MaxColumn
    ensures r.Success? ==> r.value == ColumnName(idx) && ColumnNumber(r.value) == idx
    ensures r.Failure? ==> r.error == "Invalid column index " + IntToString(idx)
  {
    if 1 <= idx <= MaxColumn then
      ColumnNumberOfName(idx);
      Success(ColumnName(idx))
    else Failure("Invalid column index " + IntToString(idx))
  }

  /** The two libraries agree: 0-based column c in xlsxwriter is 1-based
      column c + 1 in openpyxl. */
  lemma LibrariesAgree(col: nat)
    requires col + 1 <= MaxColumn
    ensures GetColumnLetter(col + 1) == Success(XlColToName(col))
  {
  }

  lemma ColumnExamples()
    ensures ColumnName(1) == "A" && ColumnName(2) == "B" && ColumnName(26) == "Z"
    ensures ColumnName(27) == "AA" && ColumnName(52) == "AZ" && ColumnName(53) == "BA"
    ensures ColumnName(702) == "ZZ" && ColumnName(703) == "AAA" && ColumnName(MaxColumn) == "ZZZ"
  {
    assert ColumnName(26) == [Letter(25)];
    assert ColumnName(27) == ColumnName(1) + [Letter(0)];
    assert ColumnName(52) == ColumnName(1) + [Letter(25)];
    assert ColumnName(53) == ColumnName(2) + [Letter(0)];
    assert ColumnName(702) == ColumnName(26) + [Letter(25)];
    assert ColumnName(703) == ColumnName(27) + [Letter(0)];
    assert ColumnName(MaxColumn) == ColumnName(702) + [Letter(25)];
  }
}
