# Visual Mileage Parser, modelled in Dafny

The Visual Mileage Parser turns a pasted time-clock export into a mileage
report. An employee pastes the export, one field per line. The "Export to MS
Excel!" button handler (`MainWindow.press_it`) then runs three stages:

1. **Record parser.** Lines are cleaned of tabs and newlines. The noise lines
   `CST`, empty and `-` are skipped. Lines are collected into an entry until a
   line with `miles` in it closes the entry. A closed entry of exactly seven
   lines becomes a visit record. Any other closed entry is lost.
2. **Normaliser.** The date and time texts are read with `strptime` formats,
   and any text that does not read aborts the run. Dates are rewritten as
   `YYYY-MM-DD`, visits of duration `0:00` are dropped, and the rest is sorted
   by entry timestamp.
3. **Leg builder.** The unique entry dates are visited in order of first
   appearance. For each date, its visits are walked in order. Every move
   between two consecutive visits at different branches is looked up in the
   mileage chart, and it is recorded unless its distance is zero. A branch
   name missing from the name table, or a code pair missing from the chart,
   aborts the run.

The model is split into these modules:

- `Wrappers`: `Option`, `Result`, and the three ways a run can fail.
- `Text`: character removal, substring search and line splitting.
- `RecordParser`: stage 1. `ParseLines` is the source's `for` loop over a
  buffer. It is proved equal to the step-by-step reference `ParseRecords`. A
  second, independent reference, `CompleteRecords(Entries(Significant(lines)))`,
  cuts the significant lines at each terminator.
- `Calendar` and `TimestampText`: the proleptic Gregorian calendar, and the
  `%b %d, %Y`, `%I:%M %p` and `%Y-%m-%d` formats.
- `Normalizer`: stage 2, column by column as pandas does it, held to a
  one-row-at-a-time reference `ConvertRow`.
- `Distance`: the branch-to-code table and `get_mileage`.
- `LegBuilder`: stage 3. `BuildLegs` and `WalkDay` are the nested loops. They
  are proved equal to the reference `Legs`, a flattening of one step result
  per visit.
- `MileageReport`: the whole handler, `PressIt`, against the composition
  `Report`.

The pasted text and the mileage chart are parameters. The chart is a map from
a pair of station codes to a distance. The result is the sequence of legs the
spreadsheet would hold, or the error that would have ended the run.

Some of the code's behaviour is easy to misread. The model does what the
code does:

- A leg is dropped only when its distance equals `0.0`. A negative chart value
  is recorded, not dropped.
- The sort is pandas' default `sort_values`, which is not stable. Only
  "sorted and a permutation" is claimed, not the order within a tie.
- The "from" branch of each move is always the previous visit's branch, even
  when the previous move was skipped.
- Dates are visited in first-appearance order, as `unique()` yields them.
  `LegBuilder.LegsChronological` proves that on the cleaned table this is
  calendar order.
- A seven-line entry with duration `0:00` does become a record. It is the
  normaliser that drops it.

## Model

| member | source | states |
|---|---|---|
| Text.SplitLines | VisualMileageParser.py:55 | the pasted text is cut at every newline into at least one line, no line holds a newline, and joining the lines with newlines gives the text back |
| Text.SplitJoin | VisualMileageParser.py:55 | splitting lines that were joined with newlines gives the same lines back |
| Text.RemoveKeepsOthers | VisualMileageParser.py:68-69 | `replace(c, "")` keeps exactly the characters other than `c`, each as often as it occurs, and changes nothing when `c` is absent |
| Text.RemoveAppend | VisualMileageParser.py:68-69 | removal distributes over concatenation and keeps a single character exactly when it is not `c`, so the kept characters stay in order |
| Text.Contains | VisualMileageParser.py:79 | a substring is never longer than the text that contains it |
| Text.ContainsMeansOccurs | VisualMileageParser.py:79 | `"miles" in line` holds exactly when `miles` occurs at some position of the line |
| RecordParser.CleanLine | VisualMileageParser.py:68-69 | no contract of its own: the tab, then the newline, removed; `CleanLineIsClean` states its meaning |
| RecordParser.StepLine | VisualMileageParser.py:71-90 | one line's effect: a noise line changes nothing, a `miles` line leaves the buffer empty, and at most one record is emitted, only at a `miles` line after six pending lines, made of those lines and it |
| RecordParser.CleanLineIsClean | VisualMileageParser.py:68-69 | a cleaned line has no tab and no newline, and a line without them is unchanged |
| RecordParser.NoiseIsNotTerminator | VisualMileageParser.py:72-79 | a noise line never contains `miles`, so the `continue` comes before the terminator test for no line it could affect |
| RecordParser.FromFields | VisualMileageParser.py:82-83 | the seven buffered items become the seven columns of the row, in order |
| RecordParser.ParseLines | VisualMileageParser.py:62-90 | the loop's records equal the step-by-step reference, every record is well-formed, and there are at most as many records as `miles` lines |
| RecordParser.RunAppend | VisualMileageParser.py:66-90 | the records of two stretches of input are the first stretch's records followed by the second's, read from the buffer the first leaves: records keep input order |
| RecordParser.NoiseIsIgnored | VisualMileageParser.py:71-73 | inserting a noise line anywhere changes neither the records nor the buffer left |
| RecordParser.TerminatorRule | VisualMileageParser.py:79-88 | after a `miles` line the buffer is empty, and one record is added exactly when the buffer held six items before that line |
| RecordParser.NoTerminatorNoRecords | VisualMileageParser.py:66-90 | input without a `miles` line emits no record, whatever the buffer |
| RecordParser.TrailingEntryDropped | VisualMileageParser.py:66-90 | lines after the last `miles` line never change the records: the unfinished entry is never emitted |
| RecordParser.RecordsAreWellFormed | VisualMileageParser.py:66-90 | every record has seven clean, non-noise fields, its last field contains `miles`, and none of its first six does |
| RecordParser.RecordsAtMostTerminators | VisualMileageParser.py:79-88 | there are never more records than `miles` lines |
| RecordParser.FirstTerminator | VisualMileageParser.py:79 | the position found is that of the first line containing `miles`, or the end when there is none |
| RecordParser.RunKeepsCompleteEntries | VisualMileageParser.py:66-90 | from any buffer without a terminator, the records are the seven-line entries among the significant lines cut at each terminator |
| RecordParser.ParserKeepsCompleteEntries | VisualMileageParser.py:66-90 | the records are exactly the entries of seven significant lines ending at a `miles` line, in input order |
| Calendar.InstantOrder | VisualMileageParser.py:115 | for valid timestamps, the minute count orders exactly as the calendar does, and equal counts mean equal timestamps |
| Calendar.DateOfEarlierInstant | VisualMileageParser.py:115 | a timestamp that does not come later falls on the same day or an earlier day |
| Calendar.DayNumberAscends | VisualMileageParser.py:115 | an earlier calendar date has a smaller day number |
| TimestampText.ParseDate | VisualMileageParser.py:104 | a text read with `%b %d, %Y` gives a date that exists; `ParseDateOfDateText` states which date |
| TimestampText.ParseDateOfDateText | VisualMileageParser.py:104 | reading back a date written as `%b %d, %Y` gives that date, for every valid date |
| TimestampText.MonthNumberOfAbbrev | VisualMileageParser.py:98 | every month's abbreviation reads as that month's number |
| TimestampText.ParseTime | VisualMileageParser.py:108 | a text read with `%I:%M %p` gives a valid time of day |
| TimestampText.ParseDateTime | VisualMileageParser.py:97-100 | a text read with `%b %d, %Y %I:%M %p` gives a valid timestamp; `ParseDateTimeOfText` states which |
| TimestampText.ParseDateTimeOfText | VisualMileageParser.py:97-100 | a timestamp written as `%b %d, %Y %I:%M %p` reads back as that timestamp, for every valid date and time |
| TimestampText.ParseDateTimeOfParts | VisualMileageParser.py:97-100 | a date and a time that read alone read, once joined by a space, as the timestamp made of both |
| TimestampText.DatePrefixAppend | VisualMileageParser.py:97-104 | text after a date does not change how the date is read |
| TimestampText.IsoDate | VisualMileageParser.py:105 | `%Y-%m-%d` renders a valid date in ten characters; `IsoDateInjective` states that it tells dates apart |
| TimestampText.Clock12 | VisualMileageParser.py:109 | `%I:%M %p` renders a valid time in eight characters; `ParseTimeOfClock12` states that it reads back as the time |
| TimestampText.IsoDateInjective | VisualMileageParser.py:103-105 | two dates render to the same `%Y-%m-%d` text exactly when they are the same date |
| TimestampText.ParseTimeOfClock12 | VisualMileageParser.py:107-109 | reading back a time rendered with `%I:%M %p` gives the time |
| TimestampText.ValuePad2 | VisualMileageParser.py:105-109 | a zero-padded two-digit rendering is all digits and reads back as the number |
| TimestampText.ValuePad4 | VisualMileageParser.py:105 | a zero-padded four-digit year is all digits and reads back as the year |
| TimestampText.MonthNumber | VisualMileageParser.py:98 | the three-letter prefix gives 0 exactly when it is no month abbreviation in any letter case, and otherwise the number of the month it abbreviates |
| Normalizer.ParseColumn | VisualMileageParser.py:97-108 | a column converts exactly when every text in it reads, gives one value per text, and otherwise fails with a parse error |
| Normalizer.ParseColumnReportsFirstFailure | VisualMileageParser.py:97-108 | the error names the first text of the column that does not read |
| Normalizer.StrptimeIsSound | VisualMileageParser.py:97-108 | the three formats give only existing dates and times, and a date and a time that read alone read as one timestamp once joined by a space |
| Normalizer.ConvertColumns | VisualMileageParser.py:97-109 | the six column conversions keep the number of rows, and every failure is a parse error |
| Normalizer.ConvertRowOfText | VisualMileageParser.py:97-105 | a record whose dates and times are written as the time clock writes them converts to exactly the timestamps they name, and its date columns become `%Y-%m-%d` of those dates |
| Normalizer.ConvertRow | VisualMileageParser.py:97-109 | one record converted alone keeps its branch, duration and length, and its dates and times agree with its timestamps |
| Normalizer.ConvertColumnsOk | VisualMileageParser.py:97-109 | when every record reads, the columns convert, and row i is record i converted alone |
| Normalizer.ConvertColumnsFails | VisualMileageParser.py:97-109 | one record whose date or time does not read makes the whole conversion fail: no row is skipped |
| Normalizer.DropZeroDuration | VisualMileageParser.py:112 | no row of duration `0:00` is left, and every other row is kept as often as it occurred |
| Normalizer.InsertBy | VisualMileageParser.py:115 | inserting into a sorted table keeps it sorted and adds exactly the new row |
| Normalizer.SortBy | VisualMileageParser.py:115 | the result is sorted by the key and is a permutation of the input |
| Normalizer.SortByEntry | VisualMileageParser.py:115 | the result is in non-decreasing entry-timestamp order and is a permutation of the input |
| Normalizer.ConvertRows | VisualMileageParser.py:97-109 | when every record reads, each record gives one row whose dates and times agree with its timestamps |
| Normalizer.Normalize | VisualMileageParser.py:97-116 | the cleaning stage fails only with a parse error and otherwise gives rows sorted by entry; `NormalizeMeets` states the rest |
| Normalizer.NormalizeMeets | VisualMileageParser.py:97-116 | normalising succeeds exactly when every record reads, fails only with a parse error, and gives rows sorted by entry with no `0:00` duration that are the non-zero-duration converted records, each as often as it occurred |
| Distance.GetMileage | VisualMileageParser.py:134-167 | the lookup, through the 23-name constant `ConvTable` that copies `conv_dict` entry for entry, succeeds exactly when both names are in the table and the chart holds their code pair, and then gives the chart's value; an unknown first name, then an unknown second name, then a missing pair is the error |
| Distance.SharedCodeSameDistance | VisualMileageParser.py:134-167 | two names with one code are interchangeable in every lookup, on either side |
| Distance.SharedCodes | VisualMileageParser.py:139-156 | "Mobile Services" and "King Road Branch" share KINGRD, and "Cherry Street Mission" and "Main Library" share MAIN |
| Distance.AliasLookupIsDiagonal | VisualMileageParser.py:139-167 | a move between two names of one code reads the chart's diagonal entry for that code |
| LegBuilder.Unique | VisualMileageParser.py:121 | the unique dates hold no repeats and are exactly the dates that occur |
| LegBuilder.UniqueInFirstAppearanceOrder | VisualMileageParser.py:121 | the unique dates come in the order of their first appearance in the column |
| LegBuilder.RowsOn | VisualMileageParser.py:173 | the selected rows are exactly the rows of that date, each as often as it occurs |
| LegBuilder.RowsOnKeepsOrder | VisualMileageParser.py:173 | selecting one date's rows from a table sorted by entry leaves them sorted by entry |
| LegBuilder.LegAt | VisualMileageParser.py:181-205 | step x yields at most one leg, and that leg is the move from visit x-1 to visit x at its non-zero chart distance; a recordable move always yields its leg; the step fails exactly when the branches differ and the lookup fails |
| LegBuilder.DayLegs | VisualMileageParser.py:175-205 | a date of zero or one visits gives no legs; `DayLegsAdjacent`, `DayLegsOkIff` and `DayLegsCount` state the rest |
| LegBuilder.Legs | VisualMileageParser.py:121-205 | no contract of its own: the references for the loops; `LegsAreGenuine`, `LegsOkIff`, `LegsFirstError` and `LegsChronological` state its meaning |
| LegBuilder.BuildLegs | VisualMileageParser.py:172-205 | the nested loops give the reference legs of all dates, or the first lookup error |
| LegBuilder.WalkDay | VisualMileageParser.py:177-205 | one date's walk appends that date's legs to those already recorded, or gives the first lookup error of the date |
| LegBuilder.StepYields | VisualMileageParser.py:178-205 | step x yields at most one leg, none at x = 0; a leg it yields is the move from visit x-1 to visit x, between different branches, at the chart's non-zero distance; a recordable move always yields its leg; the step fails exactly when the branches differ and the lookup fails, and then with that lookup's error |
| LegBuilder.DayLegsAdjacent | VisualMileageParser.py:177-205 | each leg of a date is the move into some visit x ≥ 1 of that date, from visit x-1, at a different branch and a non-zero distance; the legs ascend in x; every recordable move of the date is among them |
| LegBuilder.DayLegsOkIff | VisualMileageParser.py:177-205 | a date's walk succeeds exactly when every move between different branches of that date resolves |
| LegBuilder.DayLegsFirstError | VisualMileageParser.py:186-205 | a failed walk fails with the error of its first move between different branches that does not resolve |
| LegBuilder.DayLegsCount | VisualMileageParser.py:177-205 | a date of n ≥ 1 visits whose every move is between different branches at a resolvable non-zero distance gives exactly n-1 legs; a single visit gives none |
| LegBuilder.LegsAreGenuine | VisualMileageParser.py:172-205 | every leg is a recordable move of one date between consecutive visits of that date, and carries that date; the legs come by date group, then by visit index; no recordable move is missing |
| LegBuilder.LegsOkIff | VisualMileageParser.py:172-205 | building the legs succeeds exactly when, on every date, every move between different branches resolves |
| LegBuilder.LegsFirstError | VisualMileageParser.py:172-205 | a failure is the error of the first unresolvable move of the first date that has one, and every earlier date resolves |
| LegBuilder.LegsErrorIsLookup | VisualMileageParser.py:164-205 | building the legs can fail only with an unknown branch or a missing chart pair |
| LegBuilder.CleanedIsDatedInOrder | VisualMileageParser.py:103-116 | on a cleaned table, two rows share a date text exactly when they were entered on one day, and a later row with another date text was entered on a later day |
| LegBuilder.DateGroupsAscend | VisualMileageParser.py:115-121 | on a cleaned table, every visit of an earlier unique date was entered on an earlier day than every visit of a later one |
| LegBuilder.LegsChronological | VisualMileageParser.py:115-205 | on a cleaned table, a leg listed before a leg of another date belongs to an earlier calendar day |
| MileageReport.Report | VisualMileageParser.py:53-205 | no contract of its own: parse, normalise, build the legs; `ReportParseError`, `ReportSucceeds` and `ReportLegs` state its meaning |
| MileageReport.PressIt | VisualMileageParser.py:53-205 | the handler gives the report of the pasted text: parse, normalise, then build the legs |
| MileageReport.ReportParseError | VisualMileageParser.py:53-205 | the run ends with a parse error exactly when some complete record does not read |
| MileageReport.ReportSucceeds | VisualMileageParser.py:53-205 | the run succeeds exactly when normalisation does and every move between different branches on every date resolves |
| MileageReport.ReportLegs | VisualMileageParser.py:53-205 | in a successful run the rows are sorted by entry, consistent and free of `0:00` durations; every leg is a recordable move between consecutive visits of one date, none is missing, and legs of different dates come in calendar order |

## Left out

- The PyQt6 window, reading and clearing the text box, and the completion message (VisualMileageParser.py:18-57, 211-219) are user interface only. The pasted text is a parameter.
- Reading `mileage-chart.csv` (VisualMileageParser.py:159-160) is file input. The chart is a parameter mapping a pair of codes to a distance. A missing row and a missing column both become `MissingDistance`.
- Writing `final-mileage.xlsx` (VisualMileageParser.py:210) is file output. The result is the sequence of legs that would be written.
- Floating point: a distance is a `real`, compared only with `0.0`. An empty chart cell, which pandas reads as NaN and which is then recorded, is not modelled.
- pandas' `Timestamp` range (years 1677 to 2262) is not modelled. Dates are valid from year 1 to 9999 as in Python's `datetime`, so an out-of-range timestamp that pandas would reject is accepted.
- `strptime` is modelled for ASCII text only. Whitespace means the ASCII characters `str.isspace` accepts (space, 9-13 and the separators 28-31), digits are `0`-`9`, and month names and AM/PM are matched case-insensitively in ASCII. Locale-dependent names are not modelled.
- TimestampText.ParseDate: which date a text means is proved for the form `DateText` writes (`Jan 05, 2024`). Texts that `strptime` also accepts, such as a one-digit day, more whitespace or another letter case, are read by the same code, but no lemma states their value.
- TimestampText.ParseTime: which time a text means is proved for the form `Clock12` writes (`08:05 PM`). Texts that `strptime` also accepts, such as a one-digit hour or minute, more whitespace or a lower-case `am`/`pm`, are read by the same code, but no lemma states their value.
- pandas' dtype coercion and `reset_index` (VisualMileageParser.py:116) have no observable effect on the result and are not modelled.
- Normalizer.SortByEntry: states sorted and a permutation only, because pandas' default quicksort does not fix the order of rows with equal entry timestamps. The insertion sort that makes the model a function is one admissible outcome.
- Idempotence and stability of the sort are not claimed, for the same reason.
- LegBuilder.WalkDay: does not state its `fromBranch` and `toBranch` out-parameters. They carry the source's variables across dates, but the walk overwrites them before any use.
- LegBuilder.WalkDay: the source's single loop body over the dates is split into the outer loop `BuildLegs` and the per-date walk `WalkDay`, with the same order of lookups and appends.
