/** The command-line input checks of the three drivers: the ordered date
    checks and the identifier checks made with `re.match(r'^[...]{n}$')`.
    The clock and the file system are inputs. */
module Validation {
  import opened Wrappers
  import opened Text
  import opened Calendar

  /** A naive `datetime`: a calendar date and the second of that day. */
  datatype DateTime = DateTime(date: Date, second: int)

  /** What Python's `datetime` can hold: years 1 to 9999. */
  predicate ValidDateTime(t: DateTime) {
    Valid(t.date) && t.date.year <= 9999 && 0 <= t.second < 86400
  }

  /** Seconds since 0001-01-01T00:00, the order `<` and `>` use. */
  function Seconds(t: DateTime): int
    requires ValidDateTime(t)
  {
    (Ordinal(t.date) - 1) * 86400 + t.second
  }

  /** Seconds order datetimes like (date, second) pairs. */
  lemma SecondsOrder(a: DateTime, b: DateTime)
    requires ValidDateTime(a) && ValidDateTime(b)
    ensures Seconds(a) < Seconds(b) <==> Before(a.date, b.date) || (a.date == b.date && a.second < b.second)
  {
    OrdinalOrder(a.date, b.date);
  }

  const EndBeforeStart := "End date must be after start date."
  const StartInFuture := "Start date cannot be in the future."
  const EndInFuture := "End date cannot be in the future."

  /** `validate_dates` / `click_validate_dates`: the three checks in
      order, each raising `click.BadParameter` with its message. */
  function CheckDates(start: DateTime, end: DateTime, now: DateTime): (r: Result<(), string>)
    requires ValidDateTime(start) && ValidDateTime(end) && ValidDateTime(now)
    ensures r.Success? <==> Seconds(start) <= Seconds(end) <= Seconds(now)
    ensures r == Failure(EndBeforeStart) <==> Seconds(start) > Seconds(end)
    ensures r == Failure(StartInFuture) <==> Seconds(start) <= Seconds(end) && Seconds(start) > Seconds(now)
    ensures r == Failure(EndInFuture) <==> Seconds(start) <= Seconds(end) && Seconds(start) <= Seconds(now) < Seconds(end)
  {
    if Seconds(start) > Seconds(end) then Failure(EndBeforeStart)
    else if Seconds(start) > Seconds(now) then Failure(StartInFuture)
    else if Seconds(end) > Seconds(now) then Failure(EndInFuture)
    else Success(())
  }

  /** Text of the form YYYY-MM-DD. */
  predicate IsDateText(s: string) {
    |s| == 10 && AllDigits(s[..4]) && s[4] == '-' && AllDigits(s[5..7]) && s[7] == '-' && AllDigits(s[8..])
  }

  /** excelify's `click_validate_dates`: on success the two dates as
      `str(d.date())`, the RFC 3339 full-date strings. */
  function CheckDatesToText(start: DateTime, end: DateTime, now: DateTime): (r: Result<(string, string), string>)
    requires ValidDateTime(start) && ValidDateTime(end) && ValidDateTime(now)
    ensures r.Success? <==> CheckDates(start, end, now).Success?
    ensures r.Failure? ==> r.error == CheckDates(start, end, now).error
    ensures r.Success? ==> IsDateText(r.value.0) && ParseFullDate(r.value.0) == start.date
    ensures r.Success? ==> IsDateText(r.value.1) && ParseFullDate(r.value.1) == end.date
    ensures r.Success? ==> LexLessEq(r.value.0, r.value.1)
  {
    match CheckDates(start, end, now)
    case Failure(e) => Failure(e)
    case Success(_) =>
      FullDateRoundTrip(start.date);
      FullDateRoundTrip(end.date);
      DateTextOrder(start, end);
      Success((FullDate(start.date), FullDate(end.date)))
  }

  /** A datetime not later than another has a date string not greater. */
  lemma DateTextOrder(a: DateTime, b: DateTime)
    requires ValidDateTime(a) && ValidDateTime(b)
    requires Seconds(a) <= Seconds(b)
    ensures LexLessEq(FullDate(a.date), FullDate(b.date))
  {
    var oa, ob := Ordinal(a.date), Ordinal(b.date);
    if oa > ob {
      assert false;
    }
    OrdinalOrder(a.date, b.date);
    FullDateOrder(a.date, b.date);
  }

  /** The character classes used in the identifier patterns. */
  datatype CharClass =
    | Alnum        // [0-9a-zA-Z]
    | LowerAlnum   // [0-9a-z]
    | SheetIdChar  // [a-zA-Z0-9-_]: letters, digits, '-' and '_'

  predicate InClass(c: char, cls: CharClass) {
    match cls
    case Alnum => '0' <= c <= '9' || 'a' <= c <= 'z' || 'A' <= c <= 'Z'
    case LowerAlnum => '0' <= c <= '9' || 'a' <= c <= 'z'
    case SheetIdChar => '0' <= c <= '9' || 'a' <= c <= 'z' || 'A' <= c <= 'Z' || c == '-' || c == '_'
  }

  /** What `re.match(r'^[cls]{n}$', s)` accepts: n characters of the
      class, optionally followed by one newline, which `$` lets through. */
  predicate FullMatch(s: string, cls: CharClass, n: nat) {
    (|s| == n || (|s| == n + 1 && s[n] == '\n'))
    && forall i :: 0 <= i < n ==> InClass(s[i], cls)
  }

  /** A left-to-right matcher in the way the regex engine runs the
      pattern: count class characters, then accept at the end of the
      string or before a final newline. */
  method Match(s: string, cls: CharClass, n: nat) returns (ok: bool)
    ensures ok <==> FullMatch(s, cls, n)
  {
    if |s| < n {
      return false;
    }
    var i := 0;
    while i < n
      invariant 0 <= i <= n
      invariant forall j :: 0 <= j < i ==> InClass(s[j], cls)
    {
      if !InClass(s[i], cls) {
        return false;
      }
      i := i + 1;
    }
    ok := i == |s| || (i + 1 == |s| && s[i] == '\n');
  }

  /** An optional command-line value that is present and non-empty; the
      checks skip the others. */
  predicate Given(x: Option<string>) {
    x.Some? && |x.value| > 0
  }

  /** A value passes its check when absent, empty or matching. */
  predicate Passes(x: Option<string>, cls: CharClass, n: nat) {
    !Given(x) || FullMatch(x.value, cls, n)
  }

  /** How a check ends when it does not pass: `click.BadParameter` with a
      message, or an exception the check does not catch. */
  datatype Failure = BadParameter(message: string) | Uncaught(exception: string)

  /** The state of a credentials path on disk. */
  datatype JsonState = Malformed | Parsed(truthy: bool)
  datatype PathState = Absent | Directory | File(json: JsonState)

  const ApiKeyLength: nat := 48
  const WorkspaceIdLength: nat := 24
  const SheetIdLength: nat := 44

  /** reportify `validate_auth_data`: API key, workspace id, credentials
      file, sheet id, directory, in that order. The credentials check
      opens whatever exists: a directory or malformed JSON escapes as an
      exception, parsed JSON must be truthy. */
  function ReportifyAuth(apiKey: Option<string>, workspaceId: Option<string>, creds: Option<string>,
                         credsState: PathState, sheetId: Option<string>, dir: Option<string>,
                         dirExists: bool): (r: Option<Failure>)
    ensures r.None? <==>
      Passes(apiKey, Alnum, ApiKeyLength) && Passes(workspaceId, LowerAlnum, WorkspaceIdLength)
      && (!Given(creds) || credsState == File(Parsed(true)))
      && Passes(sheetId, SheetIdChar, SheetIdLength) && (!Given(dir) || dirExists)
    ensures r == Some(BadParameter("Invalid API key.")) <==> !Passes(apiKey, Alnum, ApiKeyLength)
    ensures r == Some(BadParameter("Invalid Google Sheet ID.")) <==>
      Passes(apiKey, Alnum, ApiKeyLength) && Passes(workspaceId, LowerAlnum, WorkspaceIdLength)
      && (!Given(creds) || credsState == File(Parsed(true)))
      && !Passes(sheetId, SheetIdChar, SheetIdLength)
  {
    if !Passes(apiKey, Alnum, ApiKeyLength) then Some(BadParameter("Invalid API key."))
    else if !Passes(workspaceId, LowerAlnum, WorkspaceIdLength) then Some(BadParameter("Invalid workspace ID."))
    else if Given(creds) && credsState != File(Parsed(true)) then
      match credsState
      case Absent => Some(BadParameter("Invalid Google credentials file."))
      case Directory => Some(Uncaught("IsADirectoryError"))
      case File(Malformed) => Some(Uncaught("JSONDecodeError"))
      case File(Parsed(_)) => Some(BadParameter("Invalid Google credentials file."))
    else if !Passes(sheetId, SheetIdChar, SheetIdLength) then Some(BadParameter("Invalid Google Sheet ID."))
    else if Given(dir) && !dirExists then Some(BadParameter("Invalid directory path."))
    else None
  }

  /** sheetify `click_validate_auth_data`: API key, workspace id,
      credentials file (must be a file holding valid JSON, of any value),
      sheet id. */
  function SheetifyAuth(apiKey: Option<string>, workspaceId: Option<string>, creds: Option<string>,
                        credsState: PathState, sheetId: Option<string>): (r: Option<Failure>)
    ensures r.None? <==>
      Passes(apiKey, Alnum, ApiKeyLength) && Passes(workspaceId, LowerAlnum, WorkspaceIdLength)
      && (!Given(creds) || (credsState.File? && credsState.json.Parsed?))
      && Passes(sheetId, SheetIdChar, SheetIdLength)
    ensures r.Some? ==> r.value.BadParameter?
    ensures r == Some(BadParameter("Google credentials file is not a valid JSON.")) <==>
      Passes(apiKey, Alnum, ApiKeyLength) && Passes(workspaceId, LowerAlnum, WorkspaceIdLength)
      && Given(creds) && credsState == File(Malformed)
  {
    if !Passes(apiKey, Alnum, ApiKeyLength) then Some(BadParameter("Invalid API key."))
    else if !Passes(workspaceId, LowerAlnum, WorkspaceIdLength) then Some(BadParameter("Invalid workspace ID."))
    else if Given(creds) && !credsState.File? then Some(BadParameter("Google credentials file does not exist."))
    else if Given(creds) && credsState.json.Malformed? then Some(BadParameter("Google credentials file is not a valid JSON."))
    else if !Passes(sheetId, SheetIdChar, SheetIdLength) then Some(BadParameter("Invalid Google Sheet ID format."))
    else None
  }

  /** excelify `click_validate_auth_data`: API key, workspace id,
      directory. */
  function ExcelifyAuth(apiKey: Option<string>, workspaceId: Option<string>, dir: Option<string>,
                        dirExists: bool): (r: Option<Failure>)
    ensures r.None? <==>
      Passes(apiKey, Alnum, ApiKeyLength) && Passes(workspaceId, LowerAlnum, WorkspaceIdLength)
      && (!Given(dir) || dirExists)
    ensures r == Some(BadParameter("Invalid workspace ID.")) <==>
      Passes(apiKey, Alnum, ApiKeyLength) && !Passes(workspaceId, LowerAlnum, WorkspaceIdLength)
  {
    if !Passes(apiKey, Alnum, ApiKeyLength) then Some(BadParameter("Invalid API key."))
    else if !Passes(workspaceId, LowerAlnum, WorkspaceIdLength) then Some(BadParameter("Invalid workspace ID."))
    else if Given(dir) && !dirExists then Some(BadParameter("Invalid directory path."))
    else None
  }

  /** `$` lets one trailing newline through: a 48-character key followed
      by "\n" is accepted, one followed by any other character is not. */
  lemma TrailingNewlineAccepted(key: string, c: char)
    requires FullMatch(key, Alnum, ApiKeyLength) && |key| == ApiKeyLength
    ensures FullMatch(key + [c], Alnum, ApiKeyLength) <==> c == '\n'
  {
    assert (key + [c])[ApiKeyLength] == c;
    assert forall i :: 0 <= i < ApiKeyLength ==> (key + [c])[i] == key[i];
  }

  /** The sheet-id class takes '-' and '_' besides letters and digits;
      the API-key class takes neither. */
  lemma SheetIdClassTakesDashAndUnderscore()
    ensures InClass('-', SheetIdChar) && InClass('_', SheetIdChar)
    ensures !InClass('-', Alnum) && !InClass('_', Alnum)
    ensures forall c :: InClass(c, LowerAlnum) ==> InClass(c, Alnum) && InClass(c, SheetIdChar)
  {
  }
}
