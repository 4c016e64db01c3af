/**
 * The cumulative workbook (`App.guardar_xlsx`): every window is written as
 * rows of a fixed sixteen-column layout (the cycle's name, the names of its
 * signals, the instant, the load time and twelve signal slots) and appended
 * to the rows already in the workbook, which are first brought to the same
 * layout.
 */
module CumulativeExporter {
  import opened Options
  import opened Text
  import opened LogParser

  // ---------------------------------------------------------------------------
  // The cycle's name: `os.path.splitext(os.path.basename(path))[0]`, with the
  // Windows path rules (`ntpath`)

  predicate IsSep(c: char) {
    c == '/' || c == '\\'
  }

  /** The text after the last separator, or all of `p` when it has none. */
  function AfterLastSep(p: string): (t: string)
    ensures |t| <= |p| && t == p[|p| - |t|..]
    ensures forall k :: 0 <= k < |t| ==> !IsSep(t[k])
    ensures |t| < |p| ==> IsSep(p[|p| - |t| - 1])
  {
    if p == [] then []
    else if IsSep(p[|p| - 1]) then []
    else
      var t := AfterLastSep(p[..|p| - 1]);
      assert p[..|p| - 1][|p| - 1 - |t|..] + [p[|p| - 1]] == p[|p| - 1 - |t|..];
      t + [p[|p| - 1]]
  }

  /** `ntpath.basename`: the last component, after a drive such as `C:` when there is no separator. */
  function Basename(p: string): (b: string)
    ensures forall k :: 0 <= k < |b| ==> !IsSep(b[k])
  {
    var t := AfterLastSep(p);
    if |t| < |p| then t
    else if |p| >= 2 && p[1] == ':' then p[2..]
    else p
  }

  /** The position of the last `c` in `s`. */
  function LastIndexOf(s: string, c: char): (i: nat)
    requires c in s
    ensures i < |s| && s[i] == c
    ensures forall k :: i < k < |s| ==> s[k] != c
  {
    if s[|s| - 1] == c then |s| - 1
    else
      assert c in s[..|s| - 1] by {
        var k :| 0 <= k < |s| && s[k] == c;
        assert s[..|s| - 1][k] == c;
      }
      LastIndexOf(s[..|s| - 1], c)
  }

  /**
   * `splitext(name)[0]`: the name without its last extension; a name whose
   * only dots lead it (".txt", "..x") has no extension.
   */
  function Stem(name: string): (stem: string)
    ensures |stem| <= |name| && stem == name[..|stem|]
  {
    if '.' in name then
      var dot := LastIndexOf(name, '.');
      if exists k :: 0 <= k < dot && name[k] != '.' then name[..dot] else name
    else name
  }

  /** `nombre_ciclo`. */
  function CycleName(path: string): (name: string)
    ensures forall k :: 0 <= k < |name| ==> !IsSep(name[k])
  {
    var b := Basename(path);
    var stem := Stem(b);
    assert forall k :: 0 <= k < |stem| ==> stem[k] == b[k];
    stem
  }

  // ---------------------------------------------------------------------------
  // Cells and the fixed layout

  /** A cell of the workbook, as `read_excel` gives it back. */
  datatype Cell = Text(text: string) | Number(x: real) | Stamp(t: int) | Blank

  const SignalSlots: nat := 12

  /** `f'señal_{i+1}'`. */
  function SignalName(i: nat): string {
    "se\U{F1}al_" + ShowNat(i + 1)
  }

  /** `cols_order`. */
  function ColsOrder(): (cols: seq<string>)
    ensures |cols| == 4 + SignalSlots
  {
    ["nombre_ciclo", "nombre_registro", "tiempo", "tiempo_carga"] + seq(SignalSlots, i requires 0 <= i < SignalSlots => SignalName(i))
  }

  /** The `DateTime` of a row; NaT is written as an empty cell. */
  function StampCell(t: Option<int>): Cell {
    match t
    case Some(x) => Stamp(x)
    case None => Blank
  }

  /** Signal slot `i` of the row: the `i`-th original column's value, or 0 past the last of them. */
  function SlotCell(r: Record, i: nat): Cell {
    if i < |r.values| then Number(r.values[i]) else Number(0.0)
  }

  /** The unnamed-key view of `base`: the row of the workbook a window row becomes, in `cols_order`. */
  function ExportRow(r: Record, columns: seq<string>, cycle: string, loadTime: string): (row: seq<Cell>)
    ensures |row| == |ColsOrder()|
  {
    [Text(cycle), Text(Join(columns, ',')), StampCell(r.time), Text(loadTime)]
      + seq(SignalSlots, i requires 0 <= i < SignalSlots => SlotCell(r, i))
  }

  /** `df_formateado`: one row per window row, in order. */
  function ExportRows(window: seq<Record>, columns: seq<string>, cycle: string, loadTime: string): (rows: seq<seq<Cell>>)
    ensures |rows| == |window|
    ensures forall i :: 0 <= i < |rows| ==> |rows[i]| == |ColsOrder()|
  {
    seq(|window|, i requires 0 <= i < |window| => ExportRow(window[i], columns, cycle, loadTime))
  }

  // ---------------------------------------------------------------------------
  // Building the rows, slot by slot

  lemma PrefixCancel(p: string, x: string, y: string)
    requires p + x == p + y
    ensures x == y
  {
    assert x == (p + x)[|p|..];
    assert y == (p + y)[|p|..];
  }

  /** The twelve slot names are distinct, and none is one of the four fixed names. */
  lemma SignalNamesDistinct(i: nat, j: nat)
    ensures SignalName(i) == SignalName(j) ==> i == j
    ensures SignalName(i)[0] == 's'
  {
    if SignalName(i) == SignalName(j) {
      PrefixCancel("se\U{F1}al_", ShowNat(i + 1), ShowNat(j + 1));
      ShowNatValue(i + 1);
      ShowNatValue(j + 1);
    }
  }

  /** The names of `cols_order` are pairwise distinct. */
  lemma ColsOrderDistinct()
    ensures forall a, b :: 0 <= a < b < |ColsOrder()| ==> ColsOrder()[a] != ColsOrder()[b]
  {
    var cols := ColsOrder();
    forall a, b | 0 <= a < b < |cols| ensures cols[a] != cols[b] {
      if b >= 4 {
        SignalNamesDistinct(b - 4, b - 4);
        if a >= 4 {
          SignalNamesDistinct(a - 4, b - 4);
        } else {
          assert cols[a][0] != 's';
        }
      }
    }
  }

  /** Each name of `cols_order` is first found at its own place. */
  lemma ColsIndex(k: nat)
    requires k < |ColsOrder()|
    ensures ColsOrder()[k] in ColsOrder() && IndexOf(ColsOrder(), ColsOrder()[k]) == k
  {
    ColsOrderDistinct();
    IndexOfAt(ColsOrder(), k);
  }

  /** Taking the cells of `base` in the order of `cols`. */
  lemma Projection(base: map<string, Cell>, cols: seq<string>, expected: seq<Cell>)
    requires |cols| == |expected|
    requires forall k :: 0 <= k < |cols| ==> cols[k] in base && base[cols[k]] == expected[k]
    ensures seq(|cols|, k requires 0 <= k < |cols| => base[cols[k]]) == expected
  {
  }

  /** The loop that fills `base` for one window row, and the projection to `cols_order`. */
  method BuildRow(r: Record, columns: seq<string>, cycle: string, loadTime: string) returns (row: seq<Cell>)
    ensures row == ExportRow(r, columns, cycle, loadTime)
  {
    var base: map<string, Cell> := map[
      "nombre_ciclo" := Text(cycle),
      "tiempo" := StampCell(r.time),
      "tiempo_carga" := Text(loadTime),
      "nombre_registro" := Text(Join(columns, ','))];
    for i := 0 to SignalSlots
      invariant "nombre_ciclo" in base && base["nombre_ciclo"] == Text(cycle)
      invariant "tiempo" in base && base["tiempo"] == StampCell(r.time)
      invariant "tiempo_carga" in base && base["tiempo_carga"] == Text(loadTime)
      invariant "nombre_registro" in base && base["nombre_registro"] == Text(Join(columns, ','))
      invariant forall k :: 0 <= k < i ==> SignalName(k) in base && base[SignalName(k)] == SlotCell(r, k)
    {
      var key := SignalName(i);
      SignalNamesDistinct(i, i);
      forall k | 0 <= k < i ensures SignalName(k) != key {
        SignalNamesDistinct(k, i);
      }
      if i < |r.values| {
        base := base[key := Number(r.values[i])];
      } else {
        base := base[key := Number(0.0)];
      }
    }
    var cols := ColsOrder();
    var expected := ExportRow(r, columns, cycle, loadTime);
    forall k | 4 <= k < |cols| ensures cols[k] in base && base[cols[k]] == expected[k] {
      assert cols[k] == SignalName(k - 4);
      assert expected[k] == SlotCell(r, k - 4);
    }
    Projection(base, cols, expected);
    row := seq(|cols|, k requires 0 <= k < |cols| => base[cols[k]]);
  }

  /** The loop over `df5.iterrows()`. */
  method BuildRows(window: seq<Record>, columns: seq<string>, cycle: string, loadTime: string)
    returns (rows: seq<seq<Cell>>)
    ensures rows == ExportRows(window, columns, cycle, loadTime)
  {
    rows := [];
    for i := 0 to |window|
      invariant rows == ExportRows(window[..i], columns, cycle, loadTime)
    {
      var row := BuildRow(window[i], columns, cycle, loadTime);
      assert window[..i + 1] == window[..i] + [window[i]];
      rows := rows + [row];
    }
    assert window[..|window|] == window;
  }

  // ---------------------------------------------------------------------------
  // Reconciling with the rows already in the workbook

  /** A sheet read back: its header and its rows. */
  datatype Sheet = Sheet(header: seq<string>, rows: seq<seq<Cell>>)

  /** What `read_excel` finds at the workbook's path. */
  datatype StoredFile = Absent | Unreadable | Stored(sheet: Sheet)

  datatype ExportOutcome = Created | CreateFailed | Updated | UpdateFailed

  /** The cell of a row under position `j`, empty when the row is short. */
  function CellAt(row: seq<Cell>, j: nat): Cell {
    if j < |row| then row[j] else Blank
  }

  /** The cell of a row under the column `name` of `header` (its first occurrence). */
  function CellOf(header: seq<string>, row: seq<Cell>, name: string): Cell {
    if name in header then CellAt(row, IndexOf(header, name)) else Blank
  }

  /** One row of `existing.reindex(columns=cols_order, fill_value=0)`. */
  function ReindexRow(header: seq<string>, row: seq<Cell>): (out: seq<Cell>)
    ensures |out| == |ColsOrder()|
  {
    var cols := ColsOrder();
    seq(|cols|, k requires 0 <= k < |cols| =>
      if cols[k] in header then CellOf(header, row, cols[k]) else Number(0.0))
  }

  function Reindex(s: Sheet): (rows: seq<seq<Cell>>)
    ensures |rows| == |s.rows|
    ensures forall i :: 0 <= i < |rows| ==> |rows[i]| == |ColsOrder()|
  {
    seq(|s.rows|, i requires 0 <= i < |s.rows| => ReindexRow(s.header, s.rows[i]))
  }

  /** The workbook after one export, and what is reported. */
  function ExportStep(file: StoredFile, rows: seq<seq<Cell>>, writeSucceeds: bool): (StoredFile, ExportOutcome) {
    match file
    case Absent =>
      if writeSucceeds then (Stored(Sheet(ColsOrder(), rows)), Created) else (Absent, CreateFailed)
    case Unreadable => (Unreadable, UpdateFailed)
    case Stored(s) =>
      if writeSucceeds then (Stored(Sheet(ColsOrder(), Reindex(s) + rows)), Updated) else (file, UpdateFailed)
  }

  /** The workbook on disk, which every export reads and rewrites. */
  class Workbook {
    var file: StoredFile

    constructor (initial: StoredFile)
      ensures file == initial
    {
      file := initial;
    }

    /**
     * `guardar_xlsx(window)`: the write itself, which may fail, is the
     * parameter `writeSucceeds`; the wall-clock load time is `loadTime`.
     */
    method Export(window: seq<Record>, columns: seq<string>, cycle: string, loadTime: string, writeSucceeds: bool)
      returns (outcome: ExportOutcome)
      modifies this
      ensures (file, outcome) == ExportStep(old(file), ExportRows(window, columns, cycle, loadTime), writeSucceeds)
    {
      var rows := BuildRows(window, columns, cycle, loadTime);
      match file {
        case Absent =>
          if writeSucceeds {
            file := Stored(Sheet(ColsOrder(), rows));
            outcome := Created;
          } else {
            outcome := CreateFailed;
          }
        case Unreadable =>
          outcome := UpdateFailed;
        case Stored(existing) =>
          var combined := Reindex(existing) + rows;
          if writeSucceeds {
            file := Stored(Sheet(ColsOrder(), combined));
            outcome := Updated;
          } else {
            outcome := UpdateFailed;
          }
      }
    }
  }

  // ---------------------------------------------------------------------------
  // Properties

  /** The last dot of `name` sits at `dot`. */
  lemma LastDot(name: string, dot: nat)
    requires dot < |name| && name[dot] == '.'
    requires forall k :: dot < k < |name| ==> name[k] != '.'
    ensures '.' in name && LastIndexOf(name, '.') == dot
  {
  }

  /** A name with a character other than a dot before its last dot loses the extension. */
  lemma StemBeforeDot(name: string, dot: nat, k: nat)
    requires dot < |name| && name[dot] == '.'
    requires forall j :: dot < j < |name| ==> name[j] != '.'
    requires k < dot && name[k] != '.'
    ensures Stem(name) == name[..dot]
  {
    LastDot(name, dot);
  }

  /** A path ending in a separator, a stem and one extension names the cycle by its stem. */
  lemma CycleOfFile(dir: string, sep: char, stem: string, ext: string)
    requires IsSep(sep)
    requires forall k :: 0 <= k < |stem| ==> !IsSep(stem[k])
    requires exists k :: 0 <= k < |stem| && stem[k] != '.'
    requires forall k :: 0 <= k < |ext| ==> !IsSep(ext[k]) && ext[k] != '.'
    ensures CycleName(dir + [sep] + stem + "." + ext) == stem
  {
    var name := stem + "." + ext;
    assert dir + [sep] + stem + "." + ext == (dir + [sep]) + name;
    NoSepTail(dir + [sep], name);
    var k :| 0 <= k < |stem| && stem[k] != '.';
    StemBeforeDot(name, |stem|, k);
    assert name[..|stem|] == stem;
  }

  /** A name with no dot has no extension: `splitext` leaves it whole. */
  lemma StemNoDot(name: string)
    requires '.' !in name
    ensures Stem(name) == name
  {
  }

  /** A file picked through the `*.*` filter with no extension names the cycle by its whole name. */
  lemma CycleOfPlainFile(dir: string, sep: char, name: string)
    requires IsSep(sep)
    requires forall k :: 0 <= k < |name| ==> !IsSep(name[k]) && name[k] != '.'
    ensures CycleName(dir + [sep] + name) == name
  {
    NoSepTail(dir + [sep], name);
    StemNoDot(name);
  }

  /** A name whose only dots lead it keeps its dots: `.txt` is the cycle `.txt`. */
  lemma LeadingDotsKept(dir: string, sep: char, dots: string, rest: string)
    requires IsSep(sep) && |dots| >= 1
    requires forall k :: 0 <= k < |dots| ==> dots[k] == '.'
    requires forall k :: 0 <= k < |rest| ==> !IsSep(rest[k]) && rest[k] != '.'
    ensures CycleName(dir + [sep] + dots + rest) == dots + rest
  {
    var name := dots + rest;
    assert dir + [sep] + dots + rest == (dir + [sep]) + name;
    NoSepTail(dir + [sep], name);
    assert forall k :: |dots| - 1 < k < |name| ==> name[k] == rest[k - |dots|];
    StemOnlyLeadingDots(name, |dots| - 1);
  }

  /** A name whose every dot leads it has no extension. */
  lemma StemOnlyLeadingDots(name: string, dot: nat)
    requires dot < |name| && name[dot] == '.'
    requires forall k :: dot < k < |name| ==> name[k] != '.'
    requires forall k :: 0 <= k < dot ==> name[k] == '.'
    ensures Stem(name) == name
  {
    LastDot(name, dot);
  }

  /** After a separator, a name without separators is the last component. */
  lemma {:induction false} AfterSepName(head: string, name: string)
    requires |head| >= 1 && IsSep(head[|head| - 1])
    requires forall k :: 0 <= k < |name| ==> !IsSep(name[k])
    ensures AfterLastSep(head + name) == name
  {
    var p := head + name;
    if name == [] {
      assert p == head;
    } else {
      var init := name[..|name| - 1];
      assert p[..|p| - 1] == head + init;
      AfterSepName(head, init);
      assert init + [name[|name| - 1]] == name;
    }
  }

  lemma NoSepTail(head: string, name: string)
    requires |head| >= 1 && IsSep(head[|head| - 1])
    requires forall k :: 0 <= k < |name| ==> !IsSep(name[k])
    ensures Basename(head + name) == name
  {
    AfterSepName(head, name);
  }

  /** `nombre_registro` splits back into the window's columns when no column name holds a comma. */
  lemma RegisterNames(columns: seq<string>)
    requires |columns| >= 1 && forall k :: 0 <= k < |columns| ==> ',' !in columns[k]
    ensures Split(Join(columns, ','), ',') == columns
  {
    SplitJoin(columns, ',');
  }

  /**
   * In every exported row, the column named `señal_{i+1}` holds the `i`-th
   * original column's value, or 0 when there are fewer than `i+1` columns;
   * the cycle name, the column list and the load time are the same on every
   * row of one export.
   */
  lemma ExportedCells(window: seq<Record>, columns: seq<string>, cycle: string, loadTime: string, n: nat, i: nat)
    requires n < |window| && i < SignalSlots
    requires Rectangular(window, columns)
    ensures var row := ExportRows(window, columns, cycle, loadTime)[n];
      && CellOf(ColsOrder(), row, SignalName(i)) == (if i < |columns| then Number(window[n].values[i]) else Number(0.0))
      && CellOf(ColsOrder(), row, "nombre_ciclo") == Text(cycle)
      && CellOf(ColsOrder(), row, "nombre_registro") == Text(Join(columns, ','))
      && CellOf(ColsOrder(), row, "tiempo") == StampCell(window[n].time)
      && CellOf(ColsOrder(), row, "tiempo_carga") == Text(loadTime)
  {
    var row := ExportRow(window[n], columns, cycle, loadTime);
    assert ExportRows(window, columns, cycle, loadTime)[n] == row;
    LayoutLookup(row, i);
    assert row[4 + i] == SlotCell(window[n], i);
  }

  /** In a row of the layout, each named column is read at its place in `cols_order`. */
  lemma LayoutLookup(row: seq<Cell>, i: nat)
    requires |row| == |ColsOrder()| && i < SignalSlots
    ensures CellOf(ColsOrder(), row, SignalName(i)) == row[4 + i]
    ensures CellOf(ColsOrder(), row, "nombre_ciclo") == row[0]
    ensures CellOf(ColsOrder(), row, "nombre_registro") == row[1]
    ensures CellOf(ColsOrder(), row, "tiempo") == row[2]
    ensures CellOf(ColsOrder(), row, "tiempo_carga") == row[3]
  {
    ColsIndex(4 + i);
    ColsIndex(0);
    ColsIndex(1);
    ColsIndex(2);
    ColsIndex(3);
  }

  /** A sheet already in the layout is left as it is by the reindex. */
  lemma ReindexConforming(s: Sheet)
    requires s.header == ColsOrder()
    requires forall i :: 0 <= i < |s.rows| ==> |s.rows[i]| == |ColsOrder()|
    ensures Reindex(s) == s.rows
  {
    var cols := ColsOrder();
    forall i | 0 <= i < |s.rows| ensures Reindex(s)[i] == s.rows[i] {
      forall k | 0 <= k < |cols| ensures Reindex(s)[i][k] == s.rows[i][k] {
        ColsIndex(k);
      }
    }
  }

  /** Reindexing twice is reindexing once. */
  lemma ReindexIdempotent(s: Sheet)
    ensures Reindex(Sheet(ColsOrder(), Reindex(s))) == Reindex(s)
  {
    ReindexConforming(Sheet(ColsOrder(), Reindex(s)));
  }

  /**
   * A column of the layout found at position `j` of a sheet without repeated
   * names keeps its cells; a column of the layout the sheet lacks reads 0
   * on every row; columns outside the layout are dropped.
   */
  lemma ReindexCells(s: Sheet, n: nat, k: nat)
    requires n < |s.rows| && k < |ColsOrder()|
    requires forall a, b :: 0 <= a < b < |s.header| ==> s.header[a] != s.header[b]
    ensures forall j :: 0 <= j < |s.header| && s.header[j] == ColsOrder()[k] ==> Reindex(s)[n][k] == CellAt(s.rows[n], j)
    ensures ColsOrder()[k] !in s.header ==> Reindex(s)[n][k] == Number(0.0)
  {
  }

  /**
   * A successful export appends: the earlier rows, brought to the layout,
   * stay in front and unchanged, and the new rows follow them in order. A
   * failed export leaves the workbook as it was.
   */
  lemma ExportAppends(file: StoredFile, rows: seq<seq<Cell>>, writeSucceeds: bool)
    ensures var (after, outcome) := ExportStep(file, rows, writeSucceeds);
      && (outcome == CreateFailed || outcome == UpdateFailed <==> !writeSucceeds || file.Unreadable?)
      && (!writeSucceeds || file.Unreadable? ==> after == file)
      && (file.Absent? && writeSucceeds ==> after == Stored(Sheet(ColsOrder(), rows)) && outcome == Created)
      && (file.Stored? && writeSucceeds ==>
            && outcome == Updated
            && after.Stored? && after.sheet.header == ColsOrder()
            && |after.sheet.rows| == |file.sheet.rows| + |rows|
            && after.sheet.rows[..|file.sheet.rows|] == Reindex(file.sheet)
            && after.sheet.rows[|file.sheet.rows|..] == rows)
  {
    match file
    case Absent =>
    case Unreadable =>
    case Stored(s) =>
      if writeSucceeds {
        var combined := Reindex(s) + rows;
        assert combined[..|s.rows|] == Reindex(s);
        assert combined[|s.rows|..] == rows;
      }
  }

  /** Two successful exports leave the earlier rows followed by both windows' rows. */
  lemma ExportTwice(file: StoredFile, rows1: seq<seq<Cell>>, rows2: seq<seq<Cell>>)
    requires file.Absent? || file.Stored?
    requires forall i :: 0 <= i < |rows1| ==> |rows1[i]| == |ColsOrder()|
    ensures var (after1, _) := ExportStep(file, rows1, true);
      var (after2, _) := ExportStep(after1, rows2, true);
      after2 == Stored(Sheet(ColsOrder(), (if file.Stored? then Reindex(file.sheet) else []) + rows1 + rows2))
  {
    var earlier := if file.Stored? then Reindex(file.sheet) else [];
    var first := Sheet(ColsOrder(), earlier + rows1);
    assert ExportStep(file, rows1, true).0 == Stored(first) by {
      if file.Absent? {
        assert earlier + rows1 == rows1;
      }
    }
    ReindexConforming(first);
  }
}
