/**
 * The application (`App`): it remembers the log file the user selected and,
 * on "Graficar 5 minutos" (`App.procesar_intervalo`), reads the log, reads
 * the start instant from the five entry fields, selects the five-minute
 * window, computes the table of changes shown and printed for it, and
 * appends its rows to the cumulative workbook.
 */
module Pipeline {
  import opened Options
  import opened Text
  import Timestamp
  import opened LogParser
  import opened WindowSelector
  import opened DeltaEvaluator
  import opened CumulativeExporter

  /** What the file system holds at the selected path. */
  datatype Disk = NotAFile | Unreadable | Lines(lines: seq<string>)

  /** The text of the five entry fields: day, month, year, hour and minute. */
  datatype Entries = Entries(day: string, month: string, year: string, hour: string, minute: string)

  /** Why the interval was not processed, in the order the checks are made. */
  datatype Failure =
    | NoFileSelected    // "Debes seleccionar un archivo TXT primero."
    | LoadFailed        // "No se pudieron cargar los datos del archivo."
    | InvalidEntry      // "Introduce valores numéricos ..."
    | InvalidDate       // "La fecha y hora introducidas no son válidas."
    | NoDataFrom        // "No hay registros desde ... en adelante."
    | NoDataInInterval  // "No hay datos en el intervalo seleccionado."
    | EntryOverflow     // no message: `datetime(...)` raises `OverflowError`, which escapes the callback

  /** What is shown, printed and saved for a processed interval. */
  datatype Report = Report(table: Table, start: int, window: Window, deltas: seq<Delta>, relative: seq<seq<real>>)

  // ---------------------------------------------------------------------------
  // The stages

  /** The frame of the selected file, or why there is none (`df is None or df.empty`). */
  function Load(filepath: Option<string>, disk: Disk): (r: Result<Table, Failure>)
    ensures r.Ok? ==> WellFormed(r.value) && |r.value.columns| >= 1 && |r.value.records| >= 1
    ensures r.Err? ==> r.error == NoFileSelected || r.error == LoadFailed
  {
    if filepath.None? || filepath.value == [] || disk.NotAFile? then Err(NoFileSelected)
    else if disk.Unreadable? then Err(LoadFailed)
    else
      match ParseLog(disk.lines)
      case None => Err(LoadFailed)
      case Some(t) => if |t.columns| == 0 || |t.records| == 0 then Err(LoadFailed) else Ok(t)
  }

  /** `e.strip()`, when it `isdigit()`, as `int(e)`. */
  function EntryValue(e: string): (r: Option<nat>)
    ensures r.Some? ==> |Strip(e)| >= 1 && AllDigits(Strip(e))
  {
    var t := Strip(e);
    if |t| >= 1 && AllDigits(t) then Some(DigitsValue(t)) else None
  }

  /** `datetime`'s arguments are C `int`s: from this value on, the constructor overflows. */
  const IntLimit: nat := 0x8000_0000

  /** `start_dt = datetime(year, month, day, hour, minute)`, in seconds. */
  function StartOf(e: Entries): (r: Result<int, Failure>)
    ensures r.Err? ==> r.error == InvalidEntry || r.error == EntryOverflow || r.error == InvalidDate
  {
    if !AllRead(e) then Err(InvalidEntry)
    else StartFrom(EntryValue(e.day).value, EntryValue(e.month).value, EntryValue(e.year).value,
      EntryValue(e.hour).value, EntryValue(e.minute).value)
  }

  /** The five fields are digit runs. */
  predicate AllRead(e: Entries) {
    && EntryValue(e.day).Some? && EntryValue(e.month).Some? && EntryValue(e.year).Some?
    && EntryValue(e.hour).Some? && EntryValue(e.minute).Some?
  }

  /** The `datetime` constructor on the five numbers read. */
  function StartFrom(day: nat, month: nat, year: nat, hour: nat, minute: nat): (r: Result<int, Failure>)
    ensures r.Err? ==> r.error == EntryOverflow || r.error == InvalidDate
  {
    if day >= IntLimit || month >= IntLimit || year >= IntLimit || hour >= IntLimit || minute >= IntLimit then
      Err(EntryOverflow)
    else
      var dt := Timestamp.DateTime(year, month, day, hour, minute, 0);
      if !Timestamp.Valid(dt) then Err(InvalidDate) else Ok(Timestamp.ToSeconds(dt))
  }

  /** The rows of a window all come from the frame, so they carry one value per column. */
  lemma WindowRectangular(t: Table, start: int)
    requires WellFormed(t) && Select(t.records, start).Some?
    ensures Rectangular(Select(t.records, start).value.rows, t.columns)
    ensures |Select(t.records, start).value.rows| >= 1
  {
    var w := Select(t.records, start).value;
    WindowContents(t.records, start);
    forall k | 0 <= k < |w.rows| ensures |w.rows[k].values| == |t.columns| {
      var x := w.rows[k];
      assert multiset(w.rows)[x] > 0;
      assert x in multiset(t.records);
      var j :| 0 <= j < |t.records| && t.records[j] == x;
    }
  }

  /** The report of a frame and a start instant, or why there is none. */
  function ReportOf(t: Table, start: int): Result<Report, Failure>
    requires WellFormed(t)
  {
    match Select(t.records, start)
    case None => Err(NoDataFrom)
    case Some(w) =>
      if |w.rows| == 0 || |t.columns| == 0 then Err(NoDataInInterval)
      else
        WindowRectangular(t, start);
        Ok(Report(t, start, w, Deltas(w.rows, t.columns), Relative(w.rows, t.columns)))
  }

  /** The outcome once the frame is loaded and the start instant read, in the order of the checks. */
  function Proceed(loaded: Result<Table, Failure>, start: Result<int, Failure>): Result<Report, Failure>
    requires loaded.Ok? ==> WellFormed(loaded.value)
  {
    if loaded.Err? then Err(loaded.error)
    else if start.Err? then Err(start.error)
    else ReportOf(loaded.value, start.value)
  }

  /** `procesar_intervalo` up to the export. */
  function Analyse(filepath: Option<string>, disk: Disk, entries: Entries): Result<Report, Failure> {
    Proceed(Load(filepath, disk), StartOf(entries))
  }

  // ---------------------------------------------------------------------------
  // The application

  class App {
    /** `self.filepath`: None until a file is selected. */
    var filepath: Option<string>
    /** The workbook at `self.output_xlsx_path`. */
    const book: Workbook

    constructor (book: Workbook)
      ensures filepath.None? && this.book == book
    {
      filepath := None;
      this.book := book;
    }

    /** `seleccionar_txt`: a cancelled dialog (an empty path) keeps the earlier selection. */
    method SelectFile(path: string)
      modifies this
      ensures filepath == (if path != [] then Some(path) else old(filepath))
    {
      if path != [] {
        filepath := Some(path);
      }
    }

    /**
     * `procesar_intervalo`. `disk` is what the file system holds at the
     * selected path; `loadTime` the wall-clock time of the export;
     * `writeSucceeds` whether the workbook could be written.
     */
    method ProcessInterval(disk: Disk, entries: Entries, loadTime: string, writeSucceeds: bool)
      returns (r: Result<Report, Failure>, saved: Option<ExportOutcome>)
      modifies book
      ensures r == Analyse(filepath, disk, entries)
      ensures r.Err? ==> saved.None? && book.file == old(book.file)
      ensures r.Ok? ==> saved.Some?
      ensures r.Ok? ==> (book.file, saved.value) == ExportStep(old(book.file),
        ExportRows(r.value.window.rows, r.value.table.columns, CycleName(filepath.value), loadTime), writeSucceeds)
    {
      saved := None;
      r := AnalyseFile(filepath, disk, entries);
      if r.Ok? {
        var report := r.value;
        var outcome := book.Export(report.window.rows, report.table.columns, CycleName(filepath.value), loadTime, writeSucceeds);
        saved := Some(outcome);
      }
    }
  }

  /** `procesar_intervalo` up to the export: the checks in order, then the report. */
  method AnalyseFile(filepath: Option<string>, disk: Disk, entries: Entries) returns (r: Result<Report, Failure>)
    ensures r == Analyse(filepath, disk, entries)
  {
    var loaded := LoadFile(filepath, disk);
    if loaded.Err? {
      return Err(loaded.error);
    }
    var start := StartOf(entries);
    if start.Err? {
      return Err(start.error);
    }
    r := ReportOf(loaded.value, start.value);
  }

  /** The checks on the selection and `leer_datos_txt`. */
  method LoadFile(filepath: Option<string>, disk: Disk) returns (r: Result<Table, Failure>)
    ensures r == Load(filepath, disk)
  {
    if filepath.None? || filepath.value == [] || disk.NotAFile? {
      return Err(NoFileSelected);
    }
    if disk.Unreadable? {
      return Err(LoadFailed);
    }
    var df := ReadLog(disk.lines);
    if df.None? || |df.value.columns| == 0 || |df.value.records| == 0 {
      return Err(LoadFailed);
    }
    return Ok(df.value);
  }

  // ---------------------------------------------------------------------------
  // Properties

  /** A window found is never empty: the "no data in the interval" message cannot be reached. */
  lemma IntervalNeverEmpty(filepath: Option<string>, disk: Disk, entries: Entries)
    ensures Analyse(filepath, disk, entries) != Err(NoDataInInterval)
  {
    ProceedNeverEmpty(Load(filepath, disk), StartOf(entries));
  }

  lemma ProceedNeverEmpty(loaded: Result<Table, Failure>, start: Result<int, Failure>)
    requires loaded.Ok? ==> WellFormed(loaded.value) && |loaded.value.columns| >= 1
    requires loaded.Err? ==> loaded.error != NoDataInInterval
    requires start.Err? ==> start.error != NoDataInInterval
    ensures Proceed(loaded, start) != Err(NoDataInInterval)
  {
    if loaded.Ok? && start.Ok? && Select(loaded.value.records, start.value).Some? {
      WindowRectangular(loaded.value, start.value);
    }
  }

  /** `mask.any()`: some row of the frame is at or after the start. */
  predicate SomeRowFrom(t: Table, start: int) {
    exists k :: 0 <= k < |t.records| && AtOrAfter(t.records[k].time, start)
  }

  /**
   * The interval is processed exactly when the selected file loads, the
   * entries give a valid instant, and some row is at or after it.
   */
  lemma ProcessedIff(filepath: Option<string>, disk: Disk, entries: Entries)
    ensures Analyse(filepath, disk, entries).Ok? <==>
      && Load(filepath, disk).Ok?
      && StartOf(entries).Ok?
      && SomeRowFrom(Load(filepath, disk).value, StartOf(entries).value)
  {
    ProceedIff(Load(filepath, disk), StartOf(entries));
  }

  lemma ProceedIff(loaded: Result<Table, Failure>, start: Result<int, Failure>)
    requires loaded.Ok? ==> WellFormed(loaded.value) && |loaded.value.columns| >= 1
    ensures Proceed(loaded, start).Ok? <==> loaded.Ok? && start.Ok? && SomeRowFrom(loaded.value, start.value)
  {
    if loaded.Ok? && start.Ok? {
      ReportIff(loaded.value, start.value);
    }
  }

  /** A frame gives a report exactly when one of its rows is at or after the start. */
  lemma ReportIff(t: Table, start: int)
    requires WellFormed(t) && |t.columns| >= 1
    ensures ReportOf(t, start).Ok? <==> SomeRowFrom(t, start)
  {
    NoDataIff(t.records, start);
    if Select(t.records, start).Some? {
      WindowRectangular(t, start);
    }
  }

  /**
   * The file loads exactly when a path is selected and names a readable file
   * with a header line holding `Date`, `Time`, no repeated name and some
   * signal column, followed by at least one data line; blank lines do not
   * count. The frame then has the header's signal columns and one row per
   * data line.
   */
  lemma LoadIff(filepath: Option<string>, disk: Disk)
    ensures Load(filepath, disk).Ok? <==>
      (&& filepath.Some? && filepath.value != [] && disk.Lines?
       && |NonBlank(disk.lines)| >= 2
       && HeaderAccepted(Fields(NonBlank(disk.lines)[0]))
       && |SignalColumns(Fields(NonBlank(disk.lines)[0]))| >= 1)
    ensures Load(filepath, disk).Ok? ==>
      && Load(filepath, disk).value.columns == SignalColumns(Fields(NonBlank(disk.lines)[0]))
      && |Load(filepath, disk).value.records| == |NonBlank(disk.lines)| - 1
    ensures Load(filepath, disk).Err? ==>
      (Load(filepath, disk).error == NoFileSelected <==> filepath.None? || filepath.value == [] || disk.NotAFile?)
  {
    if filepath.Some? && filepath.value != [] && disk.Lines? {
      ParseLogIff(disk.lines);
      var read := ParseLog(disk.lines);
      if read.Some? {
        assert Load(filepath, disk)
          == if |read.value.columns| == 0 || |read.value.records| == 0 then Err(LoadFailed) else Ok(read.value);
      }
    }
  }

  /**
   * A processed interval reports the window selected from the frame loaded, and
   * for every signal the change between the window's first and last rows.
   */
  lemma ReportContents(filepath: Option<string>, disk: Disk, entries: Entries)
    requires Analyse(filepath, disk, entries).Ok?
    ensures var rep := Analyse(filepath, disk, entries).value;
      && Load(filepath, disk) == Ok(rep.table)
      && StartOf(entries) == Ok(rep.start)
      && Select(rep.table.records, rep.start) == Some(rep.window)
      && |rep.window.rows| >= 1
      && Rectangular(rep.window.rows, rep.table.columns)
      && rep.deltas == Deltas(rep.window.rows, rep.table.columns)
      && |rep.deltas| == |rep.table.columns|
      && rep.relative == Relative(rep.window.rows, rep.table.columns)
  {
    var t := Load(filepath, disk).value;
    var start := StartOf(entries).value;
    WindowRectangular(t, start);
    var w := Select(t.records, start).value;
    assert Analyse(filepath, disk, entries) == ReportOf(t, start);
    assert ReportOf(t, start) == Ok(Report(t, start, w, Deltas(w.rows, t.columns), Relative(w.rows, t.columns)));
  }

  /** Entry fields that spell the numbers (with any surrounding spaces) read as those numbers. */
  lemma EntryRoundTrip(n: nat, before: string, after: string)
    requires forall k :: 0 <= k < |before| ==> IsSpace(before[k])
    requires forall k :: 0 <= k < |after| ==> IsSpace(after[k])
    ensures EntryValue(before + ShowNat(n) + after) == Some(n)
  {
    var s := ShowNat(n);
    StripAround(before, s, after);
    ShowNatValue(n);
  }

  /** A number typed with leading zeros, such as `05`, reads as the number: `int("05") == 5`. */
  lemma PaddedEntry(n: nat, zeros: string)
    requires forall k :: 0 <= k < |zeros| ==> zeros[k] == '0'
    ensures EntryValue(zeros + ShowNat(n)) == Some(n)
  {
    var s := ShowNat(n);
    LeadingZeros(zeros, s);
    ShowNatValue(n);
    DigitsEntry(zeros + s);
  }

  lemma DigitsEntry(t: string)
    requires |t| >= 1 && AllDigits(t)
    ensures EntryValue(t) == Some(DigitsValue(t))
  {
    assert IsDigit(t[0]) && IsDigit(t[|t| - 1]);
    StripNothing(t);
  }

  /** A field that is not a digit run is "not numeric", whatever the others hold. */
  lemma NonNumericEntry(e: Entries)
    requires !AllRead(e)
    ensures StartOf(e) == Err(InvalidEntry)
  {
  }

  /**
   * Five fields read as numbers: a value of 2^31 or more overflows; otherwise
   * numbers that name no valid minute are "not a valid date", and numbers that
   * name one give its instant.
   */
  lemma NumericEntries(e: Entries, day: nat, month: nat, year: nat, hour: nat, minute: nat)
    requires EntryValue(e.day) == Some(day) && EntryValue(e.month) == Some(month)
    requires EntryValue(e.year) == Some(year) && EntryValue(e.hour) == Some(hour)
    requires EntryValue(e.minute) == Some(minute)
    ensures var over := day >= IntLimit || month >= IntLimit || year >= IntLimit || hour >= IntLimit || minute >= IntLimit;
      var dt := Timestamp.DateTime(year, month, day, hour, minute, 0);
      && (over ==> StartOf(e) == Err(EntryOverflow))
      && (!over && !Timestamp.Valid(dt) ==> StartOf(e) == Err(InvalidDate))
      && (!over && Timestamp.Valid(dt) ==> StartOf(e) == Ok(Timestamp.ToSeconds(dt)))
  {
    assert AllRead(e);
    assert StartOf(e) == StartFrom(day, month, year, hour, minute);
  }

  /** Any entry of 2^31 or more, the others numeric, ends the callback with no message. */
  lemma OverflowAborts(e: Entries, n: nat)
    requires n >= IntLimit
    requires e.day == ShowNat(n) || e.month == ShowNat(n) || e.year == ShowNat(n)
          || e.hour == ShowNat(n) || e.minute == ShowNat(n)
    requires EntryValue(e.day).Some? && EntryValue(e.month).Some? && EntryValue(e.year).Some?
    requires EntryValue(e.hour).Some? && EntryValue(e.minute).Some?
    ensures StartOf(e) == Err(EntryOverflow)
  {
    EntryOfNumber(n);
  }

  /** A start typed as the five numbers of a valid minute is that minute. */
  lemma StartOfValid(dt: Timestamp.DateTime)
    requires Timestamp.Valid(dt) && dt.second == 0
    ensures StartOf(Entries(ShowNat(dt.day), ShowNat(dt.month), ShowNat(dt.year), ShowNat(dt.hour), ShowNat(dt.minute)))
      == Ok(Timestamp.ToSeconds(dt))
  {
    EntryOfNumber(dt.day);
    EntryOfNumber(dt.month);
    EntryOfNumber(dt.year);
    EntryOfNumber(dt.hour);
    EntryOfNumber(dt.minute);
    var e := Entries(ShowNat(dt.day), ShowNat(dt.month), ShowNat(dt.year), ShowNat(dt.hour), ShowNat(dt.minute));
    assert StartOf(e) == StartFrom(dt.day, dt.month, dt.year, dt.hour, dt.minute);
    StartFromValid(dt);
  }

  lemma StartFromValid(dt: Timestamp.DateTime)
    requires Timestamp.Valid(dt) && dt.second == 0
    ensures StartFrom(dt.day, dt.month, dt.year, dt.hour, dt.minute) == Ok(Timestamp.ToSeconds(dt))
  {
    assert dt.day < IntLimit && dt.month < IntLimit && dt.year < IntLimit && dt.hour < IntLimit && dt.minute < IntLimit;
    var same := Timestamp.DateTime(dt.year, dt.month, dt.day, dt.hour, dt.minute, 0);
    assert same == dt;
  }

  lemma EntryOfNumber(n: nat)
    ensures EntryValue(ShowNat(n)) == Some(n)
  {
    StripNothing(ShowNat(n));
    ShowNatValue(n);
  }
}
