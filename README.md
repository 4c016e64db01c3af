# Pump-log five-minute interval analysis, in Dafny

This project models the data path of `prueba.py`, a small desktop tool for
pump-test logs. The user selects a tab-separated log and types a start
minute in five entry fields. The tool then:

- reads the log into a table of signal values indexed by instant
  (`leer_datos_txt`);
- sorts the table and cuts the window from the first instant at or after the
  start up to five minutes later, both ends included (`procesar_intervalo`);
- for every signal, shows the first value, the last value and their
  difference, with a pass/fail mark at a tolerance of 50, and plots each value
  relative to the signal's first one (`mostrar_grafico`, `generar_pdf`);
- appends the window, projected onto a fixed 16-column layout, to a
  cumulative workbook, after bringing the rows already stored there to that
  layout (`guardar_xlsx`).

Modules, in the order of the pipeline:

| file | module | what it holds |
|---|---|---|
| `options.dfy` | `Options` | `Option` and `Result` |
| `text.dfy` | `Text` | Python's `str.strip`, `str.split`, `str.join`, `str(n)` and zero padding, with their round trips |
| `timestamp.dfy` | `Timestamp` | `strptime` for `%m/%d/%Y %I:%M:%S %p`, and the Gregorian calendar as seconds since 0001-01-01 |
| `log_parser.dfy` | `LogParser` | `leer_datos_txt`: the specification `ParseLog` and the method `ReadLog` with the loops of the source |
| `window_selector.dfy` | `WindowSelector` | `sort_index`, the `>= start` mask and the closed `loc` slice |
| `delta_evaluator.dfy` | `DeltaEvaluator` | the table of changes, and the relative view |
| `cumulative_exporter.dfy` | `CumulativeExporter` | the cycle name, the row projection (loops over a `map`), the reindex, and the workbook as a class |
| `pipeline.dfy` | `Pipeline` | the application: the selected file, the checks of `procesar_intervalo` in order, and the export |

Values are modelled as follows:

- Instants are `int` seconds, and NaT is `None`.
- Signal values are `real`.
- The file system is a parameter. The log is a `Disk` value holding lines of text.
- The workbook is a `StoredFile` held in the field of a `Workbook` object.
- Whether a write succeeds is a boolean parameter.
- The wall-clock load time is a string parameter.

Facts of `prueba.py` the model keeps:

- The layout has 16 columns: 4 fixed, then `señal_1` to `señal_12`
  (prueba.py:225).
- Reading fails when the file has no non-blank line. It also fails when the
  header lacks `Date` or `Time` (a `KeyError`), and when the header repeats a
  name: `df[c]` is then a frame, which `to_numeric` rejects for a repeated
  signal name and the `Date + ' ' + Time` conversion rejects for a repeated
  `Date` or `Time` (prueba.py:115-122).
- An entry of 2^31 or more makes `datetime(...)` raise `OverflowError`, which
  `except ValueError` does not catch, so the callback ends with no message
  (prueba.py:78-84).
- The "no data in the interval" message cannot be reached. The matched row is
  always in its own window: `Pipeline.IntervalNeverEmpty` proves it.

## Model

| member | source | states |
|---|---|---|
| Text.Strip | prueba.py:106-107 | `strip()` leaves no whitespace at either end, and gives `""` exactly when the line is whitespace only |
| Text.Split | prueba.py:107 | `split('\t')` gives at least one piece, and no piece holds the separator |
| Text.Join | prueba.py:212 | `sep.join(parts)`: pinned as the inverse of `Split` by `JoinSplit` and `SplitJoin`, and as the `nombre_registro` cell by `RegisterNames` |
| Text.JoinSplit | prueba.py:111 | joining the pieces of a split with the separator gives back the line |
| Text.SplitJoin | prueba.py:212 | splitting a join of separator-free pieces gives back the pieces |
| Text.StripAround | prueba.py:70-74 | stripping a field with surrounding whitespace gives the text between |
| Text.ShowNatValue | prueba.py:215-216 | `str(n)` reads back as `n` |
| Text.PadNatValue | prueba.py:118-122 | a zero-padded number reads back as itself, with exactly the padded width when it fits |
| Timestamp.To24 | prueba.py:118-122 | `%I` with `%p` gives an hour from 0 to 23 |
| Timestamp.ClockConversion | prueba.py:118-122 | the 12-hour reading `(h, pm)` and the 24-hour hour agree both ways; 12 AM is 0 and 12 PM is 12 |
| Timestamp.ParseDateTime | prueba.py:118-122 | whatever `strptime` accepts names a real date and time (days per month, leap years, years 1-9999) |
| Timestamp.ParseFormatted | prueba.py:118-122 | every valid instant written in the log's format parses back to itself |
| Timestamp.ToSeconds | prueba.py:118-122 | an index value, in seconds since 0001-01-01: `ChronologicalOrder` proves it orders datetimes as the calendar does and gives two datetimes the same value only when they are equal, and `DaysBeforeYearClosedForm` ties its day count to `datetime`'s |
| Timestamp.ParseTimestamp | prueba.py:118-122 | `to_datetime(..., errors='coerce')` on one row's `Date + ' ' + Time`: the instant of the datetime read, or NaT; `ParseFormatted` gives every canonical spelling its instant and `NoSlashNoDate` gives NaT to a date with no `/` |
| Timestamp.DaysBeforeYearClosedForm | prueba.py:81 | the year-by-year day count equals `datetime`'s closed form `365x + x/4 - x/100 + x/400` |
| Timestamp.ChronologicalOrder | prueba.py:86-88 | the instants order calendar readings chronologically, and two readings share an instant only if they are equal |
| LogParser.NonBlank | prueba.py:106 | the kept lines are none of them blank, and no more than the file's |
| LogParser.NonBlankKeeps | prueba.py:106 | a line is kept exactly when it is in the file and not blank |
| LogParser.NonBlankWhole | prueba.py:106 | a file without blank lines is kept whole, in its order |
| LogParser.NonBlankSingle | prueba.py:106 | a single line is kept exactly when it is not blank; with `NonBlankConcat` this fixes the kept lines as the file's non-blank lines in file order |
| LogParser.NonBlankConcat | prueba.py:106 | the lines kept from two parts of a file are those kept from the first, then those from the second |
| LogParser.FitRow | prueba.py:111-113 | a fitted row has exactly the header's width: field `k` where the line has one, `"0"` past its end |
| LogParser.Fields | prueba.py:107-111 | `l.strip().split('\t')`: `LineRoundTrip` proves that a tab-joined line followed by whitespace, such as its line break, gives back its fields |
| LogParser.SignalIndices | prueba.py:115-117 | the positions of the columns other than `Date`, `Time` and `DateTime`, all of them, in ascending order |
| LogParser.SignalColumns | prueba.py:115-124 | the result's columns are exactly the header names other than `Date`, `Time` and `DateTime`: every such name is kept, column `j` is the header name at the `j`-th signal position, so they keep header order, and no other name appears |
| LogParser.ParseUnsigned | prueba.py:116 | a number read is non-negative and was written with digits and a point only |
| LogParser.ParseDecimal | prueba.py:116 | an optional sign before an unsigned number; `WholeNumber`, `DecimalNumber` and `PointedValue` give the value of every spelling of those shapes |
| LogParser.ToNumber | prueba.py:116-117 | `to_numeric(errors='coerce').fillna(0)` on one field: `WholeNumber`, `DecimalNumber` and `PointedValue` give the values read, `NotANumber` the 0 for a field no number spells, and `PaddingReadsZero` the 0 of the padding |
| LogParser.RecordOf | prueba.py:114-123 | one row of the frame carries one value per signal column; `FieldValue` says which value, `WrittenInstant` and `UndatedRow` which instant |
| LogParser.ParseKept | prueba.py:107-124 | the frame built from the kept lines is well formed; `ParseLogIff` and `ParsedShape` say when it exists and what it holds |
| LogParser.FrameOf | prueba.py:114-124 | one row per data line, each with one value per column |
| LogParser.ParseLog | prueba.py:103-127 | a frame read is well formed: one value per column in every row |
| LogParser.SkipBlank | prueba.py:106 | the loop keeps exactly the lines `NonBlank` keeps, in order |
| LogParser.FitRows | prueba.py:110-113 | the loop over `lines[1:]` gives `FitRow` of each line's fields, in order |
| LogParser.ToRecords | prueba.py:114-123 | the column rewrite gives the record of each fitted row, in order |
| LogParser.ReadLog | prueba.py:103-127 | the method reads exactly the frame `ParseLog` specifies, or fails exactly where it does |
| LogParser.BlankLineIgnored | prueba.py:106 | a blank or whitespace-only line anywhere in the file changes nothing |
| LogParser.NothingToRead | prueba.py:104-127 | a file with no non-blank line is a failure, not an empty frame |
| LogParser.ParsedShape | prueba.py:107-124 | the header is the first non-blank line, the columns are its signal columns in header order, and there is one row per later non-blank line |
| LogParser.ParseLogIff | prueba.py:104-127 | a file reads exactly when its first non-blank line is a header with `Date`, `Time` and no repeated name; the frame then has that header's signal columns and one row per later non-blank line |
| LogParser.PaddingReadsZero | prueba.py:112-116 | the padding `"0"` reads as 0 |
| LogParser.FieldValue | prueba.py:110-117 | the value in row `i`, column `j` is the reading of the line's field, and 0 where the line is too short |
| LogParser.UndatedRow | prueba.py:118-122 | a data line too short to reach the Date column, or whose Date field holds no `/`, stays in the frame with the instant NaT |
| Timestamp.NoSlashNoDate | prueba.py:118-122 | a Date text with no `/` never matches the format, whatever Time text follows |
| LogParser.WrittenInstant | prueba.py:118-123 | a row whose Date and Time spell a valid instant in the log's format carries that instant |
| LogParser.LineRoundTrip | prueba.py:111 | a tab-joined line with a line break after it splits back into its fields |
| LogParser.WholeNumber | prueba.py:116 | a whole number, signed or not, reads as itself |
| LogParser.DecimalNumber | prueba.py:116 | digits, a point and digits read as the whole part plus the fraction |
| LogParser.PointedValue | prueba.py:116 | any field of digits, a point and digits reads as its whole part plus its fraction |
| LogParser.NotANumber | prueba.py:116 | a field with a character no number holds reads as 0, and the row is kept |
| WindowSelector.Insert | prueba.py:86 | inserting into a sorted sequence keeps it sorted and adds exactly that row |
| WindowSelector.SortByTime | prueba.py:86 | `sort_index` gives a permutation of the rows, ascending by instant, NaT last |
| WindowSelector.Select | prueba.py:86-93 | every window starts at or after the start, ends 300 s later and begins with a row carrying its start; `NoDataIff` says when there is one, `WindowBounds` which instant starts it, and `WindowContents` which rows it holds |
| WindowSelector.Cut | prueba.py:87-93 | on the sorted rows, the cut has the shape of a window; `CutWindow` proves that on a sorted frame it holds exactly the rows inside `[start_idx, end]` |
| WindowSelector.FirstAtOrAfter | prueba.py:87-91 | the first position the mask selects: no earlier row is at or after the start |
| WindowSelector.RunUpTo | prueba.py:92-93 | the slice runs over the rows up to five minutes later, and stops at the first later row or NaT |
| WindowSelector.NoDataIff | prueba.py:87-90 | "no data from the start" exactly when no row, NaT rows included, is at or after the start |
| WindowSelector.WindowBounds | prueba.py:91-92 | `start_idx` is the least instant at or after the start, some row carries it, and the end is 300 s later |
| WindowSelector.CutWindow | prueba.py:91-93 | on a sorted frame the slice is exactly the rows inside `[start_idx, end]`, and begins with the matched row |
| WindowSelector.WindowContents | prueba.py:86-93 | the window holds every copy of each row inside `[start_idx, end]` and nothing else, in ascending order, and is never empty |
| WindowSelector.FilterCount | prueba.py:93 | the interval keeps every copy of a row inside it and none outside |
| WindowSelector.SortedFilter | prueba.py:93 | the rows of a sorted frame inside an interval are themselves sorted |
| DeltaEvaluator.Deltas | prueba.py:140-145 | one line per signal |
| DeltaEvaluator.Relative | prueba.py:151 | one relative row per window row, one value per signal |
| DeltaEvaluator.StatusOf | prueba.py:144 | the mark of one change: `StatusBand` proves it passes exactly inside `[-50, 50]`, and `StatusAtTheBound` that 50 passes and anything beyond fails |
| DeltaEvaluator.DeltaOf | prueba.py:140-145 | one line of the table: `DeltaLines` proves it holds the signal's name, its first and last values, their difference and the mark of that difference |
| DeltaEvaluator.StatusBand | prueba.py:144 | a change passes exactly when it lies in `[-50, 50]`, whatever its sign |
| DeltaEvaluator.StatusAtTheBound | prueba.py:144 | 50 and -50 pass; anything beyond either fails |
| DeltaEvaluator.DeltaLines | prueba.py:140-145 | each line names its signal in column order, holds the first and last values and their difference, and fails exactly outside `[-50, 50]` |
| DeltaEvaluator.SingleRowPasses | prueba.py:140-145 | a window of one row changes nothing and passes on every signal |
| DeltaEvaluator.OnlyEndsMatter | prueba.py:140 | only the window's first and last rows decide the table |
| DeltaEvaluator.RelativeView | prueba.py:151 | the relative view starts at zero, ends at the table's difference, and adds back to the values |
| CumulativeExporter.AfterLastSep | prueba.py:201 | the text after the last separator has no separator |
| CumulativeExporter.Basename | prueba.py:201 | `basename` gives a name with no separator |
| CumulativeExporter.LastIndexOf | prueba.py:201 | the last dot: no dot follows it |
| CumulativeExporter.Stem | prueba.py:201 | `splitext(name)[0]` is a prefix of the name |
| CumulativeExporter.CycleName | prueba.py:201 | the cycle name holds no separator |
| CumulativeExporter.ColsOrder | prueba.py:225 | the layout has 16 columns |
| CumulativeExporter.ExportRow | prueba.py:205-226 | a projected row has exactly the 16 cells of the layout |
| CumulativeExporter.ExportRows | prueba.py:205-226 | one projected row per window row, each of 16 cells |
| CumulativeExporter.SignalNamesDistinct | prueba.py:215-216 | `señal_{i+1}` names differ for different slots, and start unlike the four fixed names |
| CumulativeExporter.ColsOrderDistinct | prueba.py:225 | the 16 layout names are pairwise distinct |
| CumulativeExporter.BuildRow | prueba.py:207-226 | the dict filled slot by slot, then taken in layout order, is the specified row |
| CumulativeExporter.BuildRows | prueba.py:205-222 | the loop over the window rows gives the specified rows, in order |
| CumulativeExporter.ReindexRow | prueba.py:232 | a reindexed row has the 16 cells of the layout |
| CumulativeExporter.Reindex | prueba.py:232 | reindexing keeps the number of stored rows and gives each the layout's width |
| CumulativeExporter.ExportStep | prueba.py:228-241 | the workbook after one export: `ExportAppends` proves the failure cases and the appending of the new rows after the reindexed old ones, `ReindexCells` which cell each old row keeps, and `ExportTwice` the order of two exports |
| CumulativeExporter.Workbook.Export | prueba.py:228-241 | the workbook after the call, and the outcome, are those of `ExportStep` on the rows built from the window |
| CumulativeExporter.CycleOfFile | prueba.py:201 | a path ending in a directory, a stem and one extension names the cycle by its stem |
| CumulativeExporter.StemNoDot | prueba.py:201 | a name with no dot has no extension, so `splitext` leaves it whole |
| CumulativeExporter.CycleOfPlainFile | prueba.py:201 | a file with no extension, which the `*.*` filter lets the user pick, names the cycle by its whole name |
| CumulativeExporter.LeadingDotsKept | prueba.py:201 | a name whose only dots lead it, such as `.txt`, keeps its dots |
| CumulativeExporter.NoSepTail | prueba.py:201 | after a separator, a name without separators is the basename |
| CumulativeExporter.RegisterNames | prueba.py:212 | `nombre_registro` splits back into the window's columns when no column name holds a comma |
| CumulativeExporter.ExportedCells | prueba.py:207-220 | in every exported row `señal_{i+1}` holds the `i`-th column's value or 0, and the cycle, column list and load time are those of the call |
| CumulativeExporter.LayoutLookup | prueba.py:225-226 | in a row of the layout each name is read at its own place |
| CumulativeExporter.ReindexConforming | prueba.py:232 | a sheet already in the layout is left unchanged by the reindex |
| CumulativeExporter.ReindexIdempotent | prueba.py:232 | reindexing twice is reindexing once |
| CumulativeExporter.ReindexCells | prueba.py:232 | a stored cell under a layout name keeps its value, a missing layout column reads 0, other columns are dropped |
| CumulativeExporter.ExportAppends | prueba.py:228-241 | an export fails exactly when the write fails or the stored file cannot be read, and then leaves the file as it was; a new file holds just the new rows; an update keeps the reindexed old rows as a prefix, then the new rows, lengths adding up |
| CumulativeExporter.ExportTwice | prueba.py:228-239 | two successful exports leave the earlier rows followed by both windows' rows |
| Pipeline.Load | prueba.py:61-67 | a loaded frame is well formed with at least one column and one row; failure is "no file selected" or "could not load" only |
| Pipeline.EntryValue | prueba.py:70-77 | an accepted field is, once stripped, a non-empty run of digits |
| Pipeline.StartOf | prueba.py:70-84 | the entries fail only as "not numeric", as the uncaught overflow, or as "not a valid date" |
| Pipeline.StartFrom | prueba.py:78-84 | `datetime(year, month, day, hour, minute)` fails only by overflow or as an invalid date; `NumericEntries` and `StartFromValid` say which numbers give which outcome |
| Pipeline.NonNumericEntry | prueba.py:75-77 | a field that is not a digit run once stripped gives "not numeric", whatever the other fields hold |
| Pipeline.NumericEntries | prueba.py:78-84 | five fields read as numbers overflow when one is 2^31 or more, and otherwise give "not a valid date" exactly when they name no valid minute, or that minute's instant |
| Pipeline.PaddedEntry | prueba.py:78-79 | a number typed with leading zeros, such as `05`, reads as the number |
| Pipeline.OverflowAborts | prueba.py:78-84 | an entry of 2^31 or more, the others numeric, ends the callback with the overflow and no message |
| Pipeline.App.SelectFile | prueba.py:50-57 | a chosen path becomes the selection; a cancelled dialog keeps the earlier one |
| Pipeline.App.ProcessInterval | prueba.py:59-101 | the outcome is `Analyse`'s; on failure nothing is exported and the workbook is unchanged; on success the workbook is the export of the window rows with the log's cycle name |
| Pipeline.AnalyseFile | prueba.py:59-96 | the checks in the source's order give exactly `Analyse`'s outcome |
| Pipeline.LoadFile | prueba.py:61-67 | the file checks and `leer_datos_txt` give exactly `Load`'s outcome |
| Pipeline.ReportOf | prueba.py:86-96 | the report of a loaded frame and a start: `ReportIff` proves it exists exactly when some row is at or after the start, `IntervalNeverEmpty` that the empty-interval outcome never happens, and `ReportContents` what it holds |
| Pipeline.Proceed | prueba.py:59-96 | the checks after the file and the entries are read, in the source's order: a load failure first, then an entry failure, then the selection; `ProcessedIff` proves the outcome |
| Pipeline.Analyse | prueba.py:59-96 | `procesar_intervalo` up to the export: `ProcessedIff` proves when it succeeds, `ReportContents` what its report holds, and `AnalyseFile` that the method with the source's checks computes it |
| Pipeline.WindowRectangular | prueba.py:91-93 | the window's rows carry one value per column, and there is at least one |
| Pipeline.IntervalNeverEmpty | prueba.py:94-96 | the "no data in the interval" outcome never happens |
| Pipeline.ProcessedIff | prueba.py:59-96 | the interval is processed exactly when the file loads, the entries name a valid minute, and some row is at or after it |
| Pipeline.ReportIff | prueba.py:87-96 | a loaded frame gives a report exactly when one of its rows is at or after the start |
| Pipeline.LoadIff | prueba.py:61-67 | the file loads exactly when a readable file is selected whose first non-blank line is a header with `Date`, `Time`, no repeated name and some signal column, followed by at least one non-blank line; the frame then has the header's signal columns and one row per later non-blank line; "no file selected" exactly when no path or no file |
| Pipeline.ReportContents | prueba.py:86-151 | a report holds the loaded frame, the start typed, the window selected, the table of changes for it and its relative view |
| Pipeline.EntryRoundTrip | prueba.py:70-77 | a field spelling a number, with any spaces around it, reads as that number |
| Pipeline.StartOfValid | prueba.py:70-84 | typing the five numbers of a valid minute gives that minute's instant |
| Pipeline.EntryOfNumber | prueba.py:70-77 | a field spelling a number reads as that number |

## Left out

- Tkinter: the window, the entry widgets and the message boxes. The model returns the failure that picks the message.
- Plotting, the PDF and the `%.2f` text of `mostrar_grafico` and `generar_pdf`. Only the table's arithmetic and the relative values are modelled.
- File I/O. The log is given as the lines of a `Disk` value, `os.path.isfile` as `NotAFile`, an unreadable file as `Unreadable`, and the workbook's write as `writeSucceeds`.
- `datetime.datetime.now()`. The load time is the parameter `loadTime`.
- Floating point. Signal values are exact reals: no rounding, NaN or infinities.
- pandas' full `to_numeric` grammar: exponents, `inf`, `nan` and spaces. The model reads an optional sign, digits and one optional point; anything else reads as 0.
- pandas' timestamp range of 1677 to 2262. The model accepts `datetime`'s years 1 to 9999.
- `strptime`'s alternative of a space before a one-digit `%d`, and non-ASCII digits, in the log's timestamps.
- Pipeline.StartOf: reads ASCII digits only. Other Unicode digits pass `isdigit()`. Some, such as `٣`, are read by `int()` and the source goes on, and others, such as `²`, make `int()` raise at prueba.py:78, outside the `try`, so the callback ends with no message. The model answers "not numeric" for both.
- A seconds field of 60 or 61 in the log, which pandas' format parser may accept and carry into the next minute. The model reads such a row as NaT.
- `loc` on a sorted index that still holds NaT, which pandas may reject. The model slices the sorted rows as if the index were monotonic.
- Ties in `sort_index`. The model keeps equal instants in their file order.
- Windows UNC share roots in `ntpath.basename`. Separators `/` and `\` and a drive `X:` are modelled.
- `read_excel`'s renaming of repeated header names. The model reads the first column with a name.
- Cell types that change when a workbook is written and read back. The model keeps the cell values as they were written.
- A write that fails half way. A failed write leaves the workbook as it was.
- `rrhh.py`, a separate form that creates a dated folder.
- CumulativeExporter.Workbook.Export: does not require a non-empty window. The source never calls it with one, and with an empty window it would fail on the column selection.
