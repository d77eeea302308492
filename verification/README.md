# Clockify time-slot reports, modelled in Dafny

The repository turns Clockify time entries into day-by-day spreadsheets of
quarter-hour slots. Each day gets a block of 97 rows: a header row with the
date and the user names, then one row per 15-minute slot holding the
description of the entry that covers it. A total row follows each block, and
grand totals per user sit at the end. Three command-line drivers do this:

- `reportify` writes an Excel file through xlsxwriter or a Google sheet.
- `excelify` writes an Excel file.
- `sheetify` appends to a Google sheet.

An older `sheetify` variant and the `clockify_scraping` prototype are also
covered. The prototype writes the entries of the last minute into a monthly
sheet.

This project models the computational core of those programs as pure Dafny
functions and proves what they compute:

- **Stamps and slots.** Rounding an instant to the quarter grid. The loop
  that walks an entry's quarters and labels them `HH:MM`. Clipping an entry
  to a day's window.
- **Occupancy.** The grid of slot descriptions that `fetch_time_entries`
  builds. The last covering entry wins.
- **Users.** The ordered user dictionaries of the three drivers, and how the
  "in work" and "exclusion" filters relate.
- **Validation.** The date and credential validators, including how
  Python's `re.match` treats `$`.
- **Columns and formulas.** Spreadsheet column letters in xlsxwriter's and
  openpyxl's conventions. The `H:MM` text of the spreadsheet formulas.
- **Sheet layout.** Blocks, day totals, reportify's calendar-month buckets,
  excelify's 60-day buffers, sheetify's `FILTER` grand total, and the older
  sheetify's totals computed in Python.
- **Day loop.** The driver loop that visits the days and places the blocks.
- **Live scraper.** `update_sheet` of the prototype: the sheet names and
  where each description goes. The worksheet it opens keeps what earlier
  polls wrote, so its prior contents are a parameter.

A sheet is modelled as a map from 0-based (row, column) to cell text. An
unwritten cell reads as `""`. Spreadsheet formulas are modelled twice: as
the text the program writes, and, where a property needs it, as the integer
the formula evaluates to on the modelled sheet. An instant is a
`Stamp(utc, offset)`: seconds since 0001-01-01T00:00 UTC, plus the UTC
offset in minutes of the time zone it is shown in.

Modules follow the program's structure:

| module | file |
|---|---|
| Wrappers | `wrappers.dfy` |
| Text | `text.dfy` |
| Calendar | `calendar.dfy` |
| Stamps | `stamps.dfy` |
| Slots | `slots.dfy` |
| Occupancy | `occupancy.dfy` |
| Users | `users.dfy` |
| Validation | `validation.dfy` |
| Columns | `columns.dfy` |
| Formulas | `formulas.dfy` |
| Layout | `layout.dfy` |
| DayTotals | `day_totals.dfy` |
| MonthBuckets | `buckets.dfy` |
| ReportTotals | `report_totals.dfy` |
| ExcelTotals | `excel_totals.dfy` |
| DayGrid | `day_grid.dfy` |
| SheetTotals | `sheet_totals.dfy` |
| LegacyTotals | `legacy_totals.dfy` |
| DataProcessor | `data_processor.dfy` |

Where the drivers and their helper files disagree, each side is modelled as
it is written. The disagreements are listed under "Left out".

## Model

| member | source | states |
|---|---|---|
| Calendar.DaysInMonth | reportify/reportify/excel_handler.py:108 | a month has between 28 and 31 days, fewer than 30 only in February, which has 29 exactly in the years divisible by 4 but not by 100 unless by 400 |
| Calendar.NextDay | reportify/reportify/main.py:112 | the next day is a valid date whose ordinal is one more |
| Calendar.AddDays | clockify_scraping/data_processor.py:22 | adding n days gives a valid date n ordinals later |
| Calendar.OrdinalOrder | reportify/reportify/main.py:96 | comparing dates field by field agrees with comparing their ordinals, and equal ordinals mean equal dates |
| Calendar.FirstOfMonth | clockify_scraping/data_processor.py:21 | day 1 of the same year and month, not after the date |
| Calendar.FirstOfNextMonthIsNextMonth | clockify_scraping/data_processor.py:22 | the 28th-plus-4-days trick lands on day 1 of the following month, rolling December into January of the next year, strictly after the date |
| Calendar.FirstOfNextMonthOrdinal | clockify_scraping/data_processor.py:22 | the first of the next month lies exactly the remaining days of the month after the date |
| Calendar.WithinMonth | clockify_scraping/data_processor.py:66 | a date less than a month's length after a first-of-month lies in that month |
| Calendar.FullDate | excelify/excelify/main.py:20 | the ISO text of a date has 10 characters with dashes at positions 4 and 7 |
| Calendar.FullDateRoundTrip | excelify/excelify/main.py:80 | parsing the ISO text of a date with `%Y-%m-%d` gives the date back |
| Calendar.FullDateInjective | excelify/excelify/main.py:95 | different dates have different ISO texts |
| Calendar.FullDateOrder | excelify/excelify/main.py:79 | string comparison of ISO texts agrees with date order, strict and non-strict |
| Calendar.DayRange | reportify/reportify/main.py:96-112 | the `while current_date <= stop` loop visits the days between the dates, one per ordinal, none when start is after stop |
| Calendar.DayRangeStep | reportify/reportify/main.py:96-112 | the visited days are the current day followed by those from the next day, or none once past stop |
| Calendar.DayRangeAt | reportify/reportify/main.py:112 | the k-th visited day is the start plus k days |
| Calendar.DayRangeBounded | reportify/reportify/main.py:96 | every visited day lies between start and stop |
| Stamps.AlignedFields | sheetify/sheetify/clockify_handler.py:30-34 | an instant is on the quarter grid iff its minute is a multiple of 15 and its second is 0 |
| Stamps.ShiftWallClock | sheetify/sheetify/clockify_handler.py:125 | adding a timedelta keeps the time zone and moves the wall clock by the same seconds; whole minutes keep the seconds and turn the minute of the day round the 24-hour dial |
| Stamps.Max | sheetify/sheetify/clockify_handler.py:115 | Python's `max` returns the later instant, or the first argument, with its own offset, on a tie |
| Stamps.Min | sheetify/sheetify/clockify_handler.py:116 | Python's `min` returns the earlier instant, or the first argument on a tie |
| Stamps.RoundUp | sheetify/sheetify/clockify_handler.py:31-32 | rounding up gives an on-grid instant strictly after the input and at most 15 minutes later |
| Stamps.RoundDown | sheetify/sheetify/clockify_handler.py:33-34 | rounding down gives an on-grid instant at or before the input and less than 15 minutes earlier |
| Stamps.RoundToQuarter | sheetify/sheetify/clockify_handler.py:30-35 | the flag selects the up or the down rounding, both on the grid in the same time zone |
| Stamps.RoundUpIsLeast | sheetify/sheetify/clockify_handler.py:32 | no on-grid instant after the input comes before the rounded-up one |
| Stamps.RoundDownIsGreatest | sheetify/sheetify/clockify_handler.py:34 | no on-grid instant at or before the input comes after the rounded-down one |
| Stamps.RoundUpAligned | sheetify/sheetify/clockify_handler.py:32 | rounding up an on-grid instant moves it a full quarter on |
| Stamps.RoundDownIdempotent | sheetify/sheetify/clockify_handler.py:33-34 | rounding down leaves exactly the on-grid instants unchanged and is idempotent |
| Stamps.MinuteLabelInjective | sheetify/sheetify/clockify_handler.py:123 | different minutes of the day get different `%H:%M` labels |
| Stamps.MinuteLabelOrder | sheetify/sheetify/clockify_handler.py:123 | label order as strings is minute order |
| Stamps.LabelWrapsDaily | excelify/excelify/clockify_handler.py:120 | instants whole days apart get the same label |
| Slots.AdjustEnd | sheetify/sheetify/clockify_handler.py:119-120 | the end is rounded up exactly when its minute is off the grid, and the seconds are ignored |
| Slots.Walk | sheetify/sheetify/clockify_handler.py:122-125 | the loop visits start, start + 15 min, ... while not after the end, as many as fit |
| Slots.WalkIsQuarterInterval | sheetify/sheetify/clockify_handler.py:122-125 | from an on-grid start the loop visits exactly the on-grid instants of that time zone between start and end |
| Slots.EntryStamps | sheetify/sheetify/clockify_handler.py:114-125 | an entry outside the day window writes nothing; otherwise the visited instants are exactly the quarters strictly after the clipped start and not after the adjusted clipped end, 15 minutes apart |
| Slots.EntryStampCount | sheetify/sheetify/clockify_handler.py:118-125 | the number of slots an entry fills, from the rounded start and adjusted end |
| Slots.EntryLabelsOnQuarters | sheetify/sheetify/clockify_handler.py:118-123 | every label an entry fills is a quarter of the day |
| Slots.OutsideWindowWritesNothing | sheetify/sheetify/clockify_handler.py:114 | an entry ending before the day starts or starting after it ends fills no slot |
| Slots.ZeroLengthAlignedEntryIsEmpty | excelify/excelify/clockify_handler.py:115-119 | without clipping, an on-grid entry of length zero fills no slot, because its start is rounded past its end |
| Slots.UnclippedLabelsRepeatDaily | excelify/excelify/clockify_handler.py:119-122 | without clipping, an entry longer than a day writes each label again 96 steps later |
| Slots.ClippedScenario | sheetify/sheetify/clockify_handler.py:118-125 | an entry 11:07-11:42 at UTC+2 fills 11:15, 11:30 and 11:45 |
| Slots.ClippedStartTakesWinnerOffset | sheetify/sheetify/clockify_handler.py:115-123 | an entry clipped at the day start is labelled in the day start's time zone, not the entry's |
| Occupancy.WriteLabels | sheetify/sheetify/clockify_handler.py:122-125 | after one entry, its labels for its user hold its description and every other cell is unchanged |
| Occupancy.WriteEntries | sheetify/sheetify/clockify_handler.py:108-125 | one user's entries change only that user's cells and drop none |
| Occupancy.WriteEntriesLastWins | sheetify/sheetify/clockify_handler.py:108-125 | a cell holds the description of the last entry covering it, or its earlier content when none does |
| Occupancy.FetchLastWriteWins | sheetify/sheetify/clockify_handler.py:102-127 | the whole fetch gives each user's slot the description of that user's last covering entry over all batches |
| Occupancy.FetchOtherUsersUnchanged | sheetify/sheetify/clockify_handler.py:105-124 | writing one user's entries leaves every other user's cells as they were |
| Users.Put | excelify/excelify/clockify_handler.py:137 | assigning a dict key keeps keys distinct, appends a new key at the end, keeps an old key's position, and changes only that key |
| Users.FromPairs | excelify/excelify/main.py:71 | a dict comprehension keeps each key once, in first-seen order, with the last value given for it |
| Users.UsersInWork | excelify/excelify/clockify_handler.py:126-139 | the names are exactly those of users with some entry in the period, each with the last such user's id |
| Users.Appeared | sheetify/sheetify/clockify_handler.py:130-136 | the appeared set holds exactly the ids that had some entry |
| Users.ExcludeLoop | sheetify/sheetify/clockify_handler.py:138-140 | the ids excluded are the non-appeared ids, each with the last name seen for it |
| Users.UsersExclusion | sheetify/sheetify/clockify_handler.py:129-142 | the exclusion holds exactly the ids of users that never had an entry, named by their last occurrence |
| Users.ExcelifyUsersInWork | excelify/excelify/main.py:71 | the users kept are those whose id is not excluded, as a dict comprehension builds them |
| Users.FoundUsers | sheetify/sheetify/main.py:69-70 | every project user's name is a key, holding the last id given for that name |
| Users.ExclusionAgreesWithInWork | excelify/excelify/main.py:69-71 | filtering all users by the exclusion gives the same dict as collecting the users in work |
| Users.InitializeProjectData | excelify/excelify/clockify_handler.py:78-84 | the first project of the given name is returned; with none, the error names the project |
| Validation.SecondsOrder | reportify/reportify/main.py:17-21 | comparing datetimes is comparing dates, then times of day |
| Validation.CheckDates | reportify/reportify/main.py:16-22 | validation passes iff start <= end <= now; otherwise it reports the first failing check, in the order end-before-start, start in future, end in future |
| Validation.CheckDatesToText | excelify/excelify/main.py:12-20 | on success the two dates come back as ISO texts that parse to the inputs and are in order; errors are those of the check |
| Validation.DateTextOrder | excelify/excelify/main.py:20 | validated dates in order give ISO texts in string order |
| Validation.Match | reportify/reportify/main.py:25 | the matcher accepts exactly n characters of the class, optionally followed by a single newline that `$` lets through |
| Validation.ReportifyAuth | reportify/reportify/main.py:24-34 | the inputs pass iff every given value matches its pattern, the credentials file parses to truthy JSON and the directory exists; the API-key and sheet-id errors fire exactly when those checks are the first to fail |
| Validation.SheetifyAuth | sheetify/sheetify/main.py:22-36 | the inputs pass iff every given value matches and the credentials file is a file holding valid JSON; every failure is a `BadParameter`, and the JSON error fires exactly for a malformed file |
| Validation.ExcelifyAuth | excelify/excelify/main.py:23-29 | the inputs pass iff the key and workspace id match their patterns and the directory exists; the workspace error fires exactly after a good key |
| Validation.TrailingNewlineAccepted | reportify/reportify/main.py:25 | a valid 48-character key with one more character still matches exactly when that character is a newline |
| Validation.SheetIdClassTakesDashAndUnderscore | reportify/reportify/main.py:31 | the sheet-id class admits `-` and `_`, which the key class does not, and contains the workspace class |
| Columns.ColumnNumberOfName | reportify/reportify/excel_handler.py:13 | reading back the letters of column n gives n |
| Columns.ColumnNameOfNumber | reportify/reportify/excel_handler.py:13 | every upper-case letter string is the name of exactly the column it reads as |
| Columns.ColumnNameInjective | reportify/reportify/excel_handler.py:26 | different columns get different letters |
| Columns.XlColToName | reportify/reportify/excel_handler.py:13 | xlsxwriter's 0-based name of column c is a letter string reading as c + 1 |
| Columns.GetColumnLetter | sheetify/sheetify/sheet_handler.py:29 | openpyxl's letters exist exactly for columns 1 to 18278 and read back as the index; beyond that the error names the index |
| Columns.LibrariesAgree | sheetify/sheetify/sheet_handler.py:29 | the openpyxl letters of column c + 1 are the xlsxwriter letters of 0-based c |
| Columns.ColumnExamples | sheetify/sheetify/sheet_handler.py:50 | A, B, Z, AA, AZ, BA, ZZ, AAA and ZZZ are columns 1, 2, 26, 27, 52, 53, 702, 703 and 18278 |
| Formulas.HoursMinutesRoundTrip | reportify/reportify/excel_handler.py:45-46 | splitting the `H:MM` text at its colon and reading both sides gives the minutes back |
| Formulas.WholeDayShown | sheetify/sheetify/sheet_handler.py:32 | a full day of 1440 minutes shows as "24:00" |
| Formulas.HoursMinutesInjective | reportify/reportify/excel_handler.py:16 | different minute counts show differently |
| Formulas.RowRange | reportify/reportify/excel_handler.py:33 | `range(start, stop, 99)` has one element per block, the k-th being start + 99k |
| Formulas.RStrip | excelify/excelify/sheet_handler.py:38 | stripping gives the longest prefix that does not end in the character, having removed only that character |
| Formulas.RStripOne | excelify/excelify/sheet_handler.py:45 | stripping one trailing "+" from a term that does not end in "+" gives the term back |
| Layout.WriteRow | reportify/reportify/excel_handler.py:76-77 | writing a row sets its cells and leaves every other cell as it was |
| Layout.WriteRows | reportify/reportify/excel_handler.py:65-73 | writing a block sets row k to the k-th row and leaves rows outside the block unchanged |
| Layout.CountNonEmptyIsNonEmpty | reportify/reportify/excel_handler.py:14 | `COUNTIF(range, "<>")` over the rows holding the given cells counts the non-empty ones |
| Layout.NonEmptyBound | reportify/reportify/excel_handler.py:14 | the count is at most the number of cells, and equal iff none is empty |
| DayTotals.TotalCells | reportify/reportify/excel_handler.py:12-17 | one day-total formula per user, in columns B, C, ... over rows start to start + 95 |
| DayTotals.DayBlockLayout | reportify/reportify/excel_handler.py:63-79 | the block sits at rows start to start + 96, the total row at start + 97 and the filler at start + 98, and nothing else changes |
| DayTotals.TotalRowWritten | reportify/reportify/excel_handler.py:75-77 | the total row holds the total cells after the block is written |
| DayTotals.SlotCellsWritten | reportify/reportify/excel_handler.py:65-73 | the 96 slot rows hold the block's slot cells |
| DayTotals.DayTotalCountsUserSlots | reportify/reportify/excel_handler.py:75 | with the count starting at 1-based row start + 2, a user's day total is 15 times the number of that user's non-empty slots of the day |
| MonthBuckets.NextDaySplit | reportify/reportify/excel_handler.py:34 | from one day to the next, the split test fires exactly when the month moves on by one |
| MonthBuckets.LoopFlatten | reportify/reportify/excel_handler.py:33-42 | the loop loses, repeats and reorders no day |
| MonthBuckets.LoopCount | reportify/reportify/excel_handler.py:33-42 | the loop makes one bucket per month from the fixed month to the last day's |
| MonthBuckets.LoopKeys | reportify/reportify/excel_handler.py:34-39 | bucket j holds only days of the month j months after the fixed one |
| MonthBuckets.LoopNonEmpty | reportify/reportify/excel_handler.py:34-42 | no bucket after the first is empty |
| MonthBuckets.BucketsOfConsecutiveDays | reportify/reportify/excel_handler.py:30-42 | over consecutive days from the start, the buckets are all the days in order, one non-empty bucket per calendar month, bucket j being the j-th month |
| MonthBuckets.SameBucketIffSameMonth | reportify/reportify/excel_handler.py:34-37 | two days share a bucket iff they share a calendar month |
| ReportTotals.DayTermRows | reportify/reportify/excel_handler.py:33 | the bucket loop reads one row per day, 100 + 99k |
| ReportTotals.DayTermRowIsTotalRow | reportify/reportify/excel_handler.py:75-77 | row 100 + 99k, 1-based, is the total row of the block written at 2 + 99k |
| ReportTotals.GrandRow | reportify/reportify/excel_handler.py:44-50 | each user's grand total adds up that user's bucket cells, in columns B, C, ... |
| ReportTotals.UserBuffers | reportify/reportify/excel_handler.py:26-51 | every user gets the bucket formulas of the same month buckets |
| ReportTotals.LabelMonth | reportify/reportify/excel_handler.py:104 | a bucket label's month is a calendar month |
| ReportTotals.LabelMonthIndex | reportify/reportify/excel_handler.py:104-105 | label k names the month k months after the start's |
| ReportTotals.BucketLabelNamesBucketMonth | reportify/reportify/excel_handler.py:103-109 | every day in bucket k falls in the year and month that label k names |
| ReportTotals.SingleMonthOneBucket | reportify/reportify/excel_handler.py:33-42 | a range inside one month makes exactly one bucket |
| ReportTotals.SingleMonthLabel | reportify/reportify/excel_handler.py:107-109 | a range inside one month has one bucket row, labelled with the start and stop days |
| ReportTotals.LabelRepeatsStartMonth | reportify/reportify/excel_handler.py:107-108 | twelve months on, a label takes the start and stop days again, since only the month is compared |
| ReportTotals.AppendAllTotals | reportify/reportify/excel_handler.py:81-113 | with no user, `max()` of an empty sequence fails; otherwise the header, grand-total row and bucket rows are written |
| ReportTotals.AllTotalsBucketCell | reportify/reportify/excel_handler.py:111-113 | sheet row start + 2 + k holds bucket row k |
| ReportTotals.GrandTotalReadsBucketRows | reportify/reportify/excel_handler.py:44-46 | the grand total of user i reads exactly the cells where that user's bucket formulas were written |
| ReportTotals.DayBucketsBelow | reportify/reportify/excel_handler.py:28-42 | the buckets hold only day indices and together all of them, in order |
| ReportTotals.GrandTotalIsSumOfDays | reportify/reportify/excel_handler.py:33-50 | adding the bucket sums up gives the sum of all day totals |
| ExcelTotals.DayTerm | excelify/excelify/sheet_handler.py:33 | a day term is non-empty and ends in `)` |
| ExcelTotals.Accumulate | excelify/excelify/sheet_handler.py:28-34 | an accumulated buffer starts with `=` |
| ExcelTotals.AccumulateIsJoin | excelify/excelify/sheet_handler.py:34-38 | a buffer is `=` followed by its terms joined with `+` |
| ExcelTotals.ChunkBounds | excelify/excelify/sheet_handler.py:35-40 | buffer k takes days 60k onwards: a full 60 except the last, which takes the rest |
| ExcelTotals.ChunkList | excelify/excelify/sheet_handler.py:32-45 | a column has n / 60 + 1 buffers, the last one possibly a bare `=` |
| ExcelTotals.ChunkListIsJoin | excelify/excelify/sheet_handler.py:32-45 | buffer k is `=` and the terms of days 60k to 60k + 59 joined with `+` |
| ExcelTotals.PendingStep | excelify/excelify/sheet_handler.py:34 | appending a term and "+" extends the pending formula by one term |
| ExcelTotals.ClosePending | excelify/excelify/sheet_handler.py:38 | stripping the trailing "+" gives the formula of the pending terms |
| ExcelTotals.CloseFull | excelify/excelify/sheet_handler.py:37-40 | closing after 60 terms adds the next full buffer and resets to `=` |
| ExcelTotals.AccumulateTerms | excelify/excelify/sheet_handler.py:32-42 | the loop closes a full buffer every 60 days and leaves the remaining terms pending |
| ExcelTotals.ChunkedBuffers | excelify/excelify/sheet_handler.py:27-45 | the loop's buffers are the 60-day chunks of the day terms, the last one always emitted |
| ExcelTotals.IterationRows | excelify/excelify/sheet_handler.py:21-42 | the loop's rows are 98 + 99k, one per day |
| ExcelTotals.DayTermsClean | excelify/excelify/sheet_handler.py:33-38 | no day term is damaged by the strip |
| ExcelTotals.ColumnBuffers | excelify/excelify/sheet_handler.py:25-45 | one user has n / 60 + 1 buffers |
| ExcelTotals.GrandRow | excelify/excelify/sheet_handler.py:47-49 | each user's grand total adds up that user's buffer cells, in columns B, C, ... |
| ExcelTotals.UserBuffers | excelify/excelify/sheet_handler.py:25-52 | every user gets the buffers of that user's own column |
| ExcelTotals.MaxLen | excelify/excelify/sheet_handler.py:93 | `max` over no buffers has no value; otherwise it bounds every buffer count |
| ExcelTotals.AppendAllTotals | excelify/excelify/sheet_handler.py:78-96 | with no user the `max()` fails; otherwise the grand-total row, a "·" row and the buffer rows are written |
| ExcelTotals.BufferCount | excelify/excelify/sheet_handler.py:93 | every user has the same n / 60 + 1 buffers, so that many buffer rows are written |
| ExcelTotals.AllTotalsBufferCell | excelify/excelify/sheet_handler.py:94-96 | sheet row start + 2 + k holds buffer row k |
| ExcelTotals.AllTotalsUserCell | excelify/excelify/sheet_handler.py:95-96 | user i's cell of buffer row k holds that user's k-th buffer |
| ExcelTotals.GrandTotalReadsBuffers | excelify/excelify/sheet_handler.py:47 | when `start_row` is `total_row_end + 1`, the grand total of user i reads exactly that user's buffer cells |
| ExcelTotals.BufferRowsLabelled | excelify/excelify/sheet_handler.py:95 | column A of each buffer row holds the label |
| ExcelTotals.DayTermReadsDayTotal | excelify/excelify/sheet_handler.py:71-74 | with blocks at 0-based rows 99k, the term of day k reads that day's total row |
| ExcelTotals.DayTermMissesShiftedBlock | excelify/excelify/main.py:77-94 | with blocks at `row_index` 2 + 99k, as excelify's loop places them, the term of day k reads the day's 95th slot row instead |
| ExcelTotals.FullBufferSums | excelify/excelify/sheet_handler.py:32-42 | q full buffers add up the first 60q day totals |
| ExcelTotals.GrandTotalIsSumOfDays | excelify/excelify/sheet_handler.py:32-49 | the buffers split the days without gap or overlap, so their sums add up to the sum of all day totals |
| DayGrid.DayStart | reportify/reportify/main.py:97 | `day_begin` is 00:15 UTC of the date, on the quarter grid |
| DayGrid.NextMidnight | excelify/excelify/main.py:81 | `day_finish` is the next midnight, one quarter before the next day's `day_begin` |
| DayGrid.WindowsMeetNextDay | reportify/reportify/main.py:97-98 | reportify's window ends where the next day's starts; the others end a quarter earlier, at midnight |
| DayGrid.TimeSlots | reportify/reportify/main.py:93 | a day has 96 slot labels |
| DayGrid.TimeSlotMinutes | reportify/reportify/main.py:93 | slot k is the quarter 15k + 15 minutes past midnight, wrapping to 00:00 |
| DayGrid.TimeSlotsEnds | reportify/reportify/main.py:93 | the labels run from "00:15" to "00:00" |
| DayGrid.TimeSlotsDistinct | reportify/reportify/main.py:93 | no label repeats |
| DayGrid.TimeSlotsCoverQuarters | reportify/reportify/main.py:93 | every quarter of the day has its label among the slots |
| DayGrid.DayBlock | reportify/reportify/main.py:101-102 | the block is the header `[date] + names` and one row per slot, and is well formed for 96 slots |
| DayGrid.DayBlockCell | reportify/reportify/main.py:99-102 | a cell holds the description of that user's last entry covering the slot, or the fallback |
| DayGrid.HeaderLen | reportify/reportify/main.py:74-87 | the title row's width is at least 5 and at least the user columns, and is one of the two |
| DayGrid.RowIndexes | reportify/reportify/main.py:92-111 | block k is written at first + step times k |
| DayGrid.RowLoop | excelify/excelify/main.py:77-94 | the `row_index` bookkeeping places block k at first + step times k and ends one step past the last block |
| DayGrid.VisitDates | reportify/reportify/main.py:96-112 | the date loop visits exactly the days from start to stop |
| DayGrid.DayLoop | reportify/reportify/main.py:91-112 | the loop visits the days from start to stop and writes one block per day at its row |
| DayGrid.ReportifyMain | reportify/reportify/main.py:61-118 | with no active user nothing is written; otherwise one block per day of the range at rows 4 + 99k (sheet) or 2 + 99k (Excel), and the Excel totals go right after the last block |
| DayGrid.IsoDates | excelify/excelify/main.py:95 | one ISO text per date, entry k the `YYYY-MM-DD` text of date k |
| DayGrid.IsoDatesInjective | excelify/excelify/main.py:95 | two printed dates are equal exactly when the dates are |
| DayGrid.IsoDayLoop | excelify/excelify/main.py:79-95 | comparing ISO strings visits the same days as comparing dates, each as its ISO text |
| DayGrid.IsoStep | excelify/excelify/main.py:79-95 | one turn of the string loop parses the current text back, formats the next day, and compares as dates do |
| SheetTotals.ColumnLetters | sheetify/sheetify/sheet_handler.py:28-29 | the openpyxl letters of a column range exist iff its last column is at most 18278, and then are the column names in order |
| SheetTotals.TotalFormulas | sheetify/sheetify/sheet_handler.py:28-33 | the day-total formulas exist iff every column has letters, one per column; otherwise the first bad index is reported |
| SheetTotals.GenerateTotalRowsAgrees | sheetify/sheetify/sheet_handler.py:26-35 | the openpyxl-named total row equals the xlsxwriter-named one whenever the columns fit |
| SheetTotals.AppendTableToSheet | sheetify/sheetify/sheet_handler.py:37-41 | the block is always appended; the total row follows it exactly when the columns fit |
| SheetTotals.AppendDaysLayout | sheetify/sheetify/main.py:77-92 | appending days puts day k's block at 0-based rows 98k to 98k + 96 and its total row at 98k + 97 |
| SheetTotals.DaysLaidOutSnoc | sheetify/sheetify/main.py:90-92 | appending one more day keeps the earlier days in place |
| SheetTotals.LaidOutDayTotal | sheetify/sheetify/sheet_handler.py:30-32 | on a laid-out sheet, day k's total counts the user's slot cells of that day |
| DayTotals.DayTotalOfColumn | sheetify/sheetify/sheet_handler.py:30-31 | a user's day total is 15 times the count of non-empty cells of the user's column below the header |
| SheetTotals.DayTotalCountsUserSlots | sheetify/sheetify/main.py:73-92 | with `start_row` 2 + 98k, day k's total counts exactly that user's non-empty slots of the day |
| SheetTotals.DashFillerFillsColumn | sheetify/sheetify/main.py:87 | with the "-" default, every slot cell of a user is non-empty |
| SheetTotals.DashFillerDayTotalIsWholeDay | sheetify/sheetify/main.py:85-90 | so every day total of a user whose description is never empty counts 1440 minutes |
| SheetTotals.AllTotalFormulas | sheetify/sheetify/sheet_handler.py:49-55 | one `FILTER` grand total per column, over rows 3 to 99D + 1, exactly when the columns fit |
| SheetTotals.AppendAllTotals | sheetify/sheetify/sheet_handler.py:43-60 | the header `ALL TOTAL` + names and the `[start / stop]` row are appended exactly when the columns fit, else nothing is |
| SheetTotals.NoTNoMatch | sheetify/sheetify/sheet_handler.py:52 | a label without the letter T does not match "TOTAL*" |
| SheetTotals.TotalLabelMatches | sheetify/sheetify/sheet_handler.py:52 | every `TOTAL [date]` label matches "TOTAL*" |
| SheetTotals.FilterRowsAreTotals | sheetify/sheetify/sheet_handler.py:44-52 | every row the `FILTER` selects is a day's total row |
| SheetTotals.TotalsAreFilterRows | sheetify/sheetify/sheet_handler.py:44-52 | every day total row in the range is selected |
| SheetTotals.FilterPicksTotalRows | sheetify/sheetify/sheet_handler.py:44-52 | on the rows the day loop appends, the `FILTER` selects exactly the day total rows inside its range |
| SheetTotals.FilterRangeMissesLastDay | sheetify/sheetify/main.py:50-97 | with `total_days` one less than the days visited, the range reaches the last day's total row only from 98 days on |
| SheetTotals.DayRowsFilter | sheetify/sheetify/main.py:50-97 | on the day rows alone, over D >= 2 days, the `FILTER` range selects the total rows of days 0 to D - 2, and day D - 1's only when D >= 98 |
| SheetTotals.AllTotalLabelMatches | sheetify/sheetify/sheet_handler.py:52-57 | the appended "ALL TOTAL" header matches "TOTAL*" as well |
| SheetTotals.GrandTotalDays | sheetify/sheetify/main.py:50-97 | on the finished sheet of D >= 2 days, the `FILTER` picks the total rows of days 0 to D - 2, day D - 1's only when D >= 98, the "ALL TOTAL" header row from D >= 99 on, and its range holds the formula's own row exactly when D >= 100 |
| LegacyTotals.DayCell | sheetify/sheet_handler.py:13-16 | a user's day cell is the elapsed `H.MM h.`, or "0.0 h." without a start time; a missing user or end time raises `KeyError` naming the key |
| LegacyTotals.FirstCellError | sheetify/sheet_handler.py:13-17 | the error raised is that of the first user whose cell fails |
| LegacyTotals.DayCells | sheetify/sheet_handler.py:13-17 | the cells succeed iff no user's fails; then they are the users' cells in order |
| LegacyTotals.GenerateTotalRows | sheetify/sheet_handler.py:12-20 | three rows: dashes, `TOTAL [date]` with the users' cells, dashes again; or the first user's `KeyError` |
| LegacyTotals.AddDaySpec | sheetify/sheet_handler.py:36-40 | one day's pass fails on the first user missing from the day; otherwise each user gains that day's minutes once per occurrence of the id |
| LegacyTotals.AccumulateSpec | sheetify/sheet_handler.py:34-40 | the totals exist iff every user is recorded on every day; then each is the user's minutes over the days times the id's occurrences |
| LegacyTotals.AllTotalRowSpec | sheetify/sheet_handler.py:33-45 | the grand-total row fails exactly when some day lacks some user, and otherwise shows each user's total minutes as `H.MM h.` |
| LegacyTotals.DistinctIdsOccurOnce | sheetify/sheet_handler.py:36-40 | with distinct ids each user is counted once |
| LegacyTotals.SingleDayAgrees | sheetify/sheet_handler.py:12-45 | over one day with both times, the grand total shows what the day cell shows |
| LegacyTotals.MissingStartShowsDifferently | sheetify/sheet_handler.py:16-42 | a user without a start time shows "0.0 h." for the day but "0.00 h." as the grand total |
| LegacyTotals.GrandTextRoundTrip | sheetify/sheet_handler.py:42 | every grand-total text reads back as its minutes, negative totals included |
| LegacyTotals.DayCellReadsBack | sheetify/sheet_handler.py:14-16 | a day cell with both times reads back as the elapsed minutes; the "0.0 h." cell does not read as a total |
| DataProcessor.WorkDurationMonths | clockify_scraping/data_processor.py:20-27 | `work_duration` spans day 1 of this month to day 1 of the next, December rolling the year |
| DataProcessor.MonthStamp | clockify_scraping/data_processor.py:66 | `strftime('%Y-%m-01')` is the ISO text of the first of the date's month |
| DataProcessor.Later32Year | clockify_scraping/data_processor.py:66 | 32 days on is at most one year later |
| DataProcessor.Later32Month | clockify_scraping/data_processor.py:66 | 32 days on falls in the next month up to a cut-off day, and in the month after that beyond it |
| DataProcessor.Later32InRange | clockify_scraping/data_processor.py:65-66 | `now + timedelta(days=32)` stays a representable date exactly up to 9999-11-29 |
| DataProcessor.UpdateSheetMatchesInitial | clockify_scraping/data_processor.py:54-66 | the sheet `update_sheet` opens has the name `initialize_sheets` created iff the day is at most the cut-off |
| DataProcessor.LateJanuaryNamesMarch | clockify_scraping/data_processor.py:66 | on 31 January 2024, 32 days on is in March, so the two names differ |
| DataProcessor.ClockSlotsEnds | clockify_scraping/data_processor.py:76-77 | 96 slots, from "00:00" to "23:45" |
| DataProcessor.ClockSlotsAscending | clockify_scraping/data_processor.py:77 | the slots are in ascending string order |
| DataProcessor.ClockSlotAt | clockify_scraping/data_processor.py:85-86 | the label of quarter m sits at index m / 15 |
| DataProcessor.ClockSlotsCover | clockify_scraping/data_processor.py:85 | a wall-clock label is a slot iff its minute is a quarter |
| DataProcessor.ValueIndex | clockify_scraping/data_processor.py:81 | the first position whose id matches, or -1 when none does |
| DataProcessor.FirstIndex | clockify_scraping/data_processor.py:86-87 | `list.index`: the first position holding the value, or -1 when absent |
| DataProcessor.KnownUserPlaced | clockify_scraping/data_processor.py:81 | an entry fails exactly when its user id is unknown |
| DataProcessor.PlaceRows | clockify_scraping/data_processor.py:85-87 | a write lands in a slot row 2 to 97 and in a user column |
| DataProcessor.PlaceSpec | clockify_scraping/data_processor.py:80-90 | an entry is written iff its start minute is a quarter, to row minute / 15 + 2; the column is the user's, except that a user named "Time Slot" writes into column A |
| DataProcessor.RunLastWriteWins | clockify_scraping/data_processor.py:80-88 | when every entry is placed, each cell holds the last description written to it, or its earlier content |
| DataProcessor.RunStopsAtFailure | clockify_scraping/data_processor.py:80-81 | the loop stops with an error iff some step fails, and the error is that step's |
| DataProcessor.LastWriteWasPlaced | clockify_scraping/data_processor.py:84-88 | a written cell was the target of some step |
| DataProcessor.UpdateStopsOnUnknownUser | clockify_scraping/data_processor.py:81 | `update_sheet` stops with `StopIteration` exactly when some entry's user id is unknown |
| DataProcessor.PreparedCell | clockify_scraping/data_processor.py:67-78 | after the header and slot writes, a cell of the opened worksheet holds its header, its slot label, or what it held before |
| DataProcessor.UpdateSheetCells | clockify_scraping/data_processor.py:67-88 | with known users, `update_sheet` on the worksheet it opens runs to the end, and each cell holds the last description written there, else the header, the slot label, or what the worksheet held before the poll |
| DataProcessor.UpdateKeepsEarlierPolls | clockify_scraping/data_processor.py:67-88 | a user cell of a slot row that no entry of this poll lands on keeps what an earlier poll wrote |
| DataProcessor.UpdateKeepsHeaders | clockify_scraping/data_processor.py:73-74 | the header row stays `["Time Slot"] + names` |
| DataProcessor.UpdateSlotColumn | clockify_scraping/data_processor.py:76-78 | column A of rows 2 to 97 keeps its slot label unless an entry was written there |

## Left out

- HTTP calls to Clockify and Google, file I/O, and the `print` output are not modelled. The entries, users, projects and path states a call would return are parameters. This covers the fetchers, `get_data`, `initialize_sheets` and `fetch_and_update_data`.
- `datetime.now()`, `datetime.utcnow()` and the wall clock are not modelled: "now" is a parameter.
- Time zones are not modelled. `convert_to_local_time` to Europe/Prague is an offset given with each instant, so DST transitions inside an entry are not modelled.
- `strptime` and `fromisoformat` parsing of Clockify timestamps is not modelled. Instants arrive as integers. The date strings the drivers build are modelled (`Calendar.FullDate`).
- The spreadsheet engine is not modelled. Its behaviour is stated only for the functions the formulas use (`COUNTIF "<>"`, `FILTER` with `REGEXMATCH`, and `H:MM` text read back). Cell formats, colours, column widths, `tqdm` progress bars and the retry loops of `safety_append_rows` and `append_data_to_sheet` are not modelled.
- The polling `while True` loop of the live scraper is not modelled. It also queries only the last minute despite its variable name `fifteen_minutes_ago`.
- The drivers and their helper files do not fit together as written. Each side is modelled as written:
  - sheetify's `main` calls `append_data_to_sheet` with the user dict, while its `sheet_handler` defines `append_table_to_sheet`, which passes the dict on as a count.
  - excelify's `main` calls `append_data_to_sheet` without the workbook, on an openpyxl workbook.
  - excelify's `main` calls `get_users_exclusion`, which its `clockify_handler` lacks.
  - excelify's `main` calls `append_all_totals` with five arguments, while its `sheet_handler` takes seven (the workbook and `start_row` among them), so the call raises a `TypeError`.
- ExcelTotals.GrandTotalReadsBuffers: takes `start_row = total_row_end + 1` as a hypothesis. No caller supplies a `start_row` as written, since the call in excelify's `main` does not match the signature.
- SheetTotals.AppendTableToSheet: takes the number of users, since the dict the caller passes would make `range` raise a `TypeError` after the block is appended, before the total row is.
- Dates past 9999-12-31 are excluded by preconditions. Python raises `OverflowError` there, so those preconditions are not modelled. The live scraper's sheet names admit every month up to November 9999 (`DataProcessor.NextMonthFits`), and `update_sheet`'s name every day up to 9999-11-29 (`DataProcessor.Later32Fits`), the exact range in which its date arithmetic stays representable.
- The empty-`max()` failure of `append_all_totals` is modelled as the error `"ValueError"`. The message text differs between Python versions and is not modelled.
- `%Y` is taken to print four digits for years below 1000.
- The reversed `FILTER` range of a one-day sheetify run is not modelled. Its range then runs from 3 down to 1. `SheetTotals.GrandTotalDays` requires at least two days for that reason.
- The `""` writes of reportify's `main` at `row_index + 97` are not modelled. An xlsxwriter blank write without a format writes nothing, so these writes leave the total label in place. The filler `""` after each block is modelled as a write of the empty cell, which reads the same.
- `total_days` is a float in the drivers. The model keeps its integer value, which `int(total_days)` gives back exactly.
- reportify's own `clockify_handler` and `sheet_handler` are not part of this model. Its `get_users_in_work` is modelled from excelify's, and its Google-sheet totals from sheetify's.
