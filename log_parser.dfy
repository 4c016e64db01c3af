/**
 * Reading a pump log (`App.leer_datos_txt`): a text file of tab-separated
 * lines whose first non-blank line names the columns. `Date` and `Time`
 * together give each row its instant; every other column is a signal whose
 * fields are read as numbers, 0 when they do not read as one.
 */
module LogParser {
  import opened Options
  import opened Text
  import Timestamp

  /** One data row: its instant (None for NaT) and its signal values, in column order. */
  datatype Record = Record(time: Option<int>, values: seq<real>)

  /** The frame `leer_datos_txt` returns: the signal columns and the rows indexed by instant. */
  datatype Table = Table(columns: seq<string>, records: seq<Record>)

  /** Every row carries one value per column. */
  predicate WellFormed(t: Table) {
    forall i :: 0 <= i < |t.records| ==> |t.records[i].values| == |t.columns|
  }

  /** Every row of `rows` carries one value per name in `columns`. */
  predicate Rectangular(rows: seq<Record>, columns: seq<string>) {
    forall i :: 0 <= i < |rows| ==> |rows[i].values| == |columns|
  }

  // ---------------------------------------------------------------------------
  // Lines and fields

  /** `l.strip()` is falsy: the line is whitespace only. */
  predicate Blank(l: string) {
    forall i :: 0 <= i < |l| ==> IsSpace(l[i])
  }

  /** `[l for l in f if l.strip()]`. */
  function NonBlank(lines: seq<string>): (kept: seq<string>)
    ensures |kept| <= |lines|
    ensures forall k :: 0 <= k < |kept| ==> !Blank(kept[k])
  {
    if lines == [] then []
    else
      var last := lines[|lines| - 1];
      NonBlank(lines[..|lines| - 1]) + (if Blank(last) then [] else [last])
  }

  /** `l.strip().split('\t')`. */
  function Fields(l: string): seq<string> {
    Split(Strip(l), '\t')
  }

  /** `(parts + ['0'] * (n - len(parts)))[:n]`. */
  function FitRow(parts: seq<string>, n: nat): (row: seq<string>)
    ensures |row| == n
    ensures forall k :: 0 <= k < n ==> row[k] == (if k < |parts| then parts[k] else "0")
  {
    var padded := parts + seq(if n > |parts| then n - |parts| else 0, _ => "0");
    padded[..n]
  }

  // ---------------------------------------------------------------------------
  // Columns

  /**
   * The header names `pd.DataFrame(rows, columns=header)` can work with:
   * `df['Date']` and `df['Time']` must exist, and a repeated name makes
   * `df[c]` a frame, which `to_numeric` and `to_datetime` reject.
   */
  predicate HeaderAccepted(header: seq<string>) {
    && "Date" in header
    && "Time" in header
    && forall i, j | 0 <= i < j < |header| :: header[i] != header[j]
  }

  /**
   * A column that survives into the result: `Date` and `Time` are dropped,
   * and a column named `DateTime` is overwritten by the instants and becomes
   * the index.
   */
  predicate IsSignal(name: string) {
    name != "Date" && name != "Time" && name != "DateTime"
  }

  /** The positions of the signal columns, in header order. */
  function SignalIndices(header: seq<string>): (ks: seq<nat>)
    ensures forall j :: 0 <= j < |ks| ==> ks[j] < |header| && IsSignal(header[ks[j]])
    ensures forall k :: 0 <= k < |header| && IsSignal(header[k]) ==> k in ks
    ensures forall i, j :: 0 <= i < j < |ks| ==> ks[i] < ks[j]
  {
    if header == [] then []
    else
      var n := |header| - 1;
      SignalIndices(header[..n]) + (if IsSignal(header[n]) then [n] else [])
  }

  /**
   * The columns `leer_datos_txt` keeps: every header name other than `Date`,
   * `Time` and `DateTime`, in header order.
   */
  function SignalColumns(header: seq<string>): (cols: seq<string>)
    ensures forall c :: c in cols ==> IsSignal(c) && c in header
    ensures |cols| == |SignalIndices(header)|
    ensures forall j :: 0 <= j < |cols| ==> cols[j] == header[SignalIndices(header)[j]]
    ensures forall k :: 0 <= k < |header| && IsSignal(header[k]) ==> header[k] in cols
  {
    var ks := SignalIndices(header);
    var cols := seq(|ks|, j requires 0 <= j < |ks| => header[ks[j]]);
    assert forall k :: 0 <= k < |header| && IsSignal(header[k]) ==> header[k] in cols by {
      forall k | 0 <= k < |header| && IsSignal(header[k]) ensures header[k] in cols {
        var j :| 0 <= j < |ks| && ks[j] == k;
        assert cols[j] == header[k];
      }
    }
    cols
  }

  // ---------------------------------------------------------------------------
  // Field values

  /**
   * An unsigned decimal literal: digits, or digits with a fractional part
   * after a point, with at least one digit in all.
   */
  function ParseUnsigned(s: string): (r: Option<real>)
    ensures r.Some? ==> r.value >= 0.0
    ensures r.Some? ==> forall i :: 0 <= i < |s| ==> IsDigit(s[i]) || s[i] == '.'
  {
    var n := DigitRun(s);
    var whole := DigitsValue(s[..n]) as real;
    if n == |s| then
      if n >= 1 then Some(whole) else None
    else if s[n] == '.' then
      var frac := s[n + 1..];
      var m := DigitRun(frac);
      if m == |frac| && n + m >= 1 then
        assert frac[..m] == frac;
        assert forall i :: 0 <= i < |s| ==> IsDigit(s[i]) || s[i] == '.' by {
          forall i | 0 <= i < |s| ensures IsDigit(s[i]) || s[i] == '.' {
            if i < n {
              assert s[..n][i] == s[i];
            } else if i > n {
              assert frac[i - n - 1] == s[i];
            }
          }
        }
        Some(whole + Fraction(frac))
      else None
    else None
  }

  /** The value of the digits after a decimal point. */
  function Fraction(digits: string): real
    requires AllDigits(digits)
  {
    DigitsValue(digits) as real / Pow10(|digits|) as real
  }

  /** A decimal literal with an optional sign. */
  function ParseDecimal(s: string): Option<real> {
    if |s| > 0 && s[0] == '-' then
      match ParseUnsigned(s[1..])
      case Some(x) => Some(-x)
      case None => None
    else if |s| > 0 && s[0] == '+' then ParseUnsigned(s[1..])
    else ParseUnsigned(s)
  }

  /** `pd.to_numeric(field, errors='coerce')` followed by `fillna(0)`. */
  function ToNumber(field: string): real {
    ParseDecimal(field).GetOr(0.0)
  }

  predicate NumberChar(c: char) {
    IsDigit(c) || c == '.' || c == '+' || c == '-'
  }

  // ---------------------------------------------------------------------------
  // Rows

  /** The position of a header name. */
  function ColumnOf(header: seq<string>, name: string): (k: nat)
    requires name in header
    ensures k < |header| && header[k] == name
  {
    IndexOf(header, name)
  }

  /** A fitted row of the raw frame, once its signals are coerced and its instant parsed. */
  function RecordOf(header: seq<string>, row: seq<string>): (r: Record)
    requires HeaderAccepted(header) && |row| == |header|
    ensures |r.values| == |SignalColumns(header)|
  {
    var ks := SignalIndices(header);
    var stamp := row[ColumnOf(header, "Date")] + " " + row[ColumnOf(header, "Time")];
    Record(Timestamp.ParseTimestamp(stamp), seq(|ks|, j requires 0 <= j < |ks| => ToNumber(row[ks[j]])))
  }

  /** The frame of the data lines under an accepted header. */
  function FrameOf(header: seq<string>, data: seq<string>): (t: Table)
    requires HeaderAccepted(header)
    ensures WellFormed(t) && |t.records| == |data|
  {
    Table(SignalColumns(header),
      seq(|data|, k requires 0 <= k < |data| => RecordOf(header, FitRow(Fields(data[k]), |header|))))
  }

  /** The frame read from the non-blank lines of a file. */
  function ParseKept(kept: seq<string>): (r: Option<Table>)
    ensures r.Some? ==> WellFormed(r.value)
  {
    if |kept| == 0 then None
    else
      var header := Fields(kept[0]);
      if !HeaderAccepted(header) then None
      else Some(FrameOf(header, kept[1..]))
  }

  /** The frame read from the file's lines, or None where `leer_datos_txt` catches an exception. */
  function ParseLog(lines: seq<string>): (r: Option<Table>)
    ensures r.Some? ==> WellFormed(r.value)
  {
    ParseKept(NonBlank(lines))
  }

  /** The list comprehension that keeps the non-blank lines. */
  method SkipBlank(lines: seq<string>) returns (kept: seq<string>)
    ensures kept == NonBlank(lines)
  {
    kept := [];
    for i := 0 to |lines|
      invariant kept == NonBlank(lines[..i])
    {
      assert lines[..i + 1][..i] == lines[..i];
      if Strip(lines[i]) != [] {
        kept := kept + [lines[i]];
      }
    }
    assert lines[..|lines|] == lines;
  }

  lemma PaddedRow(fields: seq<string>, n: nat, parts: seq<string>)
    requires parts == if |fields| < n then fields + seq(n - |fields|, _ => "0") else fields
    ensures |parts| >= n && parts[..n] == FitRow(fields, n)
  {
  }

  lemma FittedSnoc(data: seq<string>, n: nat, i: nat)
    requires i < |data|
    ensures seq(i, k requires 0 <= k < i => FitRow(Fields(data[k]), n)) + [FitRow(Fields(data[i]), n)]
      == seq(i + 1, k requires 0 <= k < i + 1 => FitRow(Fields(data[k]), n))
  {
    var before := seq(i, k requires 0 <= k < i => FitRow(Fields(data[k]), n));
    var after := seq(i + 1, k requires 0 <= k < i + 1 => FitRow(Fields(data[k]), n));
    assert |before + [FitRow(Fields(data[i]), n)]| == |after|;
    forall k | 0 <= k < i + 1
      ensures (before + [FitRow(Fields(data[i]), n)])[k] == after[k]
    {
      if k < i {
        assert (before + [FitRow(Fields(data[i]), n)])[k] == before[k];
      }
    }
  }

  /** The loop over `lines[1:]` that pads or truncates each row to the header width. */
  method FitRows(data: seq<string>, n: nat) returns (rows: seq<seq<string>>)
    ensures rows == seq(|data|, k requires 0 <= k < |data| => FitRow(Fields(data[k]), n))
  {
    rows := [];
    for i := 0 to |data|
      invariant rows == seq(i, k requires 0 <= k < i => FitRow(Fields(data[k]), n))
    {
      var fields := Fields(data[i]);
      var parts := fields;
      if |parts| < n {
        parts := parts + seq(n - |parts|, _ => "0");
      }
      PaddedRow(fields, n, parts);
      FittedSnoc(data, n, i);
      rows := rows + [parts[..n]];
    }
  }

  /**
   * The column-by-column rewrite of the raw frame (`df[c] = pd.to_numeric(...)`,
   * `df['DateTime'] = pd.to_datetime(...)`), carried out row by row.
   */
  method ToRecords(header: seq<string>, rows: seq<seq<string>>) returns (records: seq<Record>)
    requires HeaderAccepted(header)
    requires forall k :: 0 <= k < |rows| ==> |rows[k]| == |header|
    ensures records == seq(|rows|, k requires 0 <= k < |rows| => RecordOf(header, rows[k]))
  {
    records := [];
    for i := 0 to |rows|
      invariant records == seq(i, k requires 0 <= k < i => RecordOf(header, rows[k]))
    {
      records := records + [RecordOf(header, rows[i])];
    }
  }

  /** `leer_datos_txt` on the lines of a file it could open. */
  method ReadLog(lines: seq<string>) returns (r: Option<Table>)
    ensures r == ParseLog(lines)
  {
    var kept := SkipBlank(lines);
    if |kept| == 0 {
      return None;
    }
    var header := Fields(kept[0]);
    var rows := FitRows(kept[1..], |header|);
    if !HeaderAccepted(header) {
      return None;
    }
    var records := ToRecords(header, rows);
    assert Table(SignalColumns(header), records) == FrameOf(header, kept[1..]);
    return Some(Table(SignalColumns(header), records));
  }

  // ---------------------------------------------------------------------------
  // Blank lines

  lemma {:induction false} NonBlankConcat(a: seq<string>, b: seq<string>)
    ensures NonBlank(a + b) == NonBlank(a) + NonBlank(b)
    decreases |b|
  {
    if b == [] {
      assert a + b == a;
    } else {
      var n := |b| - 1;
      assert (a + b)[..|a + b| - 1] == a + b[..n];
      NonBlankConcat(a, b[..n]);
    }
  }

  /** A blank or whitespace-only line, wherever it stands, changes nothing. */
  lemma BlankLineIgnored(before: seq<string>, line: string, after: seq<string>)
    requires Blank(line)
    ensures ParseLog(before + [line] + after) == ParseLog(before + after)
  {
    var a := before + [line];
    assert NonBlank(a) == NonBlank(before) by {
      assert a[..|a| - 1] == before;
    }
    NonBlankConcat(a, after);
    NonBlankConcat(before, after);
  }

  lemma {:induction false} AllBlank(lines: seq<string>)
    requires forall k :: 0 <= k < |lines| ==> Blank(lines[k])
    ensures NonBlank(lines) == []
  {
    if lines != [] {
      AllBlank(lines[..|lines| - 1]);
    }
  }

  /** A file with no non-blank line is a failure, not an empty frame. */
  lemma NothingToRead(lines: seq<string>)
    requires forall k :: 0 <= k < |lines| ==> Blank(lines[k])
    ensures ParseLog(lines) == None
  {
    AllBlank(lines);
  }

  /** A file of one line keeps it exactly when it is not blank. */
  lemma NonBlankSingle(l: string)
    ensures NonBlank([l]) == if Blank(l) then [] else [l]
  {
    assert [l][..0] == [];
  }

  /**
   * The kept lines are exactly the file's non-blank lines: a line is kept
   * exactly when it is not blank. With `NonBlankConcat` and `NonBlankSingle`
   * this makes `NonBlank` the order-keeping filter.
   */
  lemma {:induction false} NonBlankKeeps(lines: seq<string>)
    ensures forall l :: l in NonBlank(lines) <==> l in lines && !Blank(l)
  {
    if lines != [] {
      var init := lines[..|lines| - 1];
      var last := lines[|lines| - 1];
      NonBlankKeeps(init);
      assert NonBlank(lines) == NonBlank(init) + (if Blank(last) then [] else [last]);
      assert lines == init + [last];
      forall l ensures l in lines <==> l in init || l == last {
      }
    }
  }

  /** A file with no blank line is kept whole. */
  lemma {:induction false} NonBlankWhole(lines: seq<string>)
    requires forall k :: 0 <= k < |lines| ==> !Blank(lines[k])
    ensures NonBlank(lines) == lines
  {
    if lines != [] {
      var init := lines[..|lines| - 1];
      NonBlankWhole(init);
      assert lines == init + [lines[|lines| - 1]];
    }
  }

  // ---------------------------------------------------------------------------
  // Shape of the frame

  /**
   * The frame's columns are the header's signal columns, in header order; it
   * has one row per non-blank line after the header, and one value per column
   * in every row.
   */
  lemma ParsedShape(lines: seq<string>)
    requires ParseLog(lines).Some?
    ensures var kept := NonBlank(lines); var t := ParseLog(lines).value;
      && |kept| >= 1
      && HeaderAccepted(Fields(kept[0]))
      && t == FrameOf(Fields(kept[0]), kept[1..])
      && t.columns == SignalColumns(Fields(kept[0]))
      && |t.records| == |kept| - 1
      && WellFormed(t)
      && "Date" !in t.columns && "Time" !in t.columns && "DateTime" !in t.columns
  {
  }

  /**
   * A file reads exactly when its first non-blank line is a header holding
   * `Date` and `Time` and no repeated name; the frame then has that header's
   * signal columns and one row per later non-blank line.
   */
  lemma ParseLogIff(lines: seq<string>)
    ensures ParseLog(lines).Some? <==> |NonBlank(lines)| >= 1 && HeaderAccepted(Fields(NonBlank(lines)[0]))
    ensures ParseLog(lines).Some? ==>
      && ParseLog(lines).value.columns == SignalColumns(Fields(NonBlank(lines)[0]))
      && |ParseLog(lines).value.records| == |NonBlank(lines)| - 1
  {
    var kept := NonBlank(lines);
    if |kept| >= 1 && HeaderAccepted(Fields(kept[0])) {
      assert ParseLog(lines) == Some(FrameOf(Fields(kept[0]), kept[1..]));
    }
  }

  /** The padding `"0"` reads as 0. */
  lemma PaddingReadsZero()
    ensures ToNumber("0") == 0.0
  {
    DigitRunPrefix("0", []);
    assert "0" + [] == "0" && "0"[..1] == "0";
  }

  /** Signal `j` of a row is the numeric reading of its field in the signal's column. */
  lemma SignalValue(header: seq<string>, row: seq<string>, j: nat)
    requires HeaderAccepted(header) && |row| == |header| && j < |SignalIndices(header)|
    ensures RecordOf(header, row).values[j] == ToNumber(row[SignalIndices(header)[j]])
  {
  }

  /**
   * The value in row `i`, column `j` of the frame is the numeric reading of the
   * matching field of the `i`-th data line, and 0 when that line is too short
   * to have one.
   */
  lemma FieldValue(header: seq<string>, data: seq<string>, i: nat, j: nat)
    requires HeaderAccepted(header) && i < |data| && j < |SignalColumns(header)|
    ensures var k := SignalIndices(header)[j]; var parts := Fields(data[i]);
      && FrameOf(header, data).columns[j] == header[k]
      && FrameOf(header, data).records[i].values[j] == (if k < |parts| then ToNumber(parts[k]) else 0.0)
  {
    var row := FitRow(Fields(data[i]), |header|);
    assert FrameOf(header, data).records[i] == RecordOf(header, row);
    SignalValue(header, row, j);
    PaddingReadsZero();
  }

  /** The instant of row `i` is read from its Date and Time fields, joined by a space. */
  lemma RowInstant(header: seq<string>, data: seq<string>, i: nat)
    requires HeaderAccepted(header) && i < |data|
    ensures var row := FitRow(Fields(data[i]), |header|);
      FrameOf(header, data).records[i].time
        == Timestamp.ParseTimestamp(row[ColumnOf(header, "Date")] + " " + row[ColumnOf(header, "Time")])
  {
    assert FrameOf(header, data).records[i] == RecordOf(header, FitRow(Fields(data[i]), |header|));
  }

  /** A row whose Date and Time fields spell an instant in the log's format carries that instant. */
  lemma WrittenInstant(header: seq<string>, row: seq<string>, dt: Timestamp.DateTime)
    requires HeaderAccepted(header) && |row| == |header| && Timestamp.Valid(dt)
    requires row[ColumnOf(header, "Date")] == Timestamp.FormatDate(dt)
    requires row[ColumnOf(header, "Time")] == Timestamp.FormatClock(dt)
    ensures RecordOf(header, row).time == Some(Timestamp.ToSeconds(dt))
  {
    Timestamp.ParseFormatted(dt);
  }

  /**
   * A data line too short to reach the Date column, or whose Date field holds
   * no `/`, is kept as a row whose instant is NaT.
   */
  lemma UndatedRow(header: seq<string>, data: seq<string>, i: nat)
    requires HeaderAccepted(header) && i < |data|
    requires var parts := Fields(data[i]); var k := ColumnOf(header, "Date");
      k >= |parts| || '/' !in parts[k]
    ensures |FrameOf(header, data).records| == |data|
    ensures FrameOf(header, data).records[i].time == None
  {
    var row := FitRow(Fields(data[i]), |header|);
    var date := row[ColumnOf(header, "Date")];
    assert '/' !in date;
    RowInstant(header, data, i);
    Timestamp.NoSlashNoDate(date, row[ColumnOf(header, "Time")]);
  }

  /**
   * A line written as tab-joined fields, with no whitespace at its two ends and
   * a line break after it, splits back into those fields.
   */
  lemma LineRoundTrip(fields: seq<string>, ending: string)
    requires |fields| >= 1 && forall k :: 0 <= k < |fields| ==> '\t' !in fields[k]
    requires fields[0] != [] && !IsSpace(fields[0][0])
    requires var last := fields[|fields| - 1]; last != [] && !IsSpace(last[|last| - 1])
    requires forall i :: 0 <= i < |ending| ==> IsSpace(ending[i])
    ensures Fields(Join(fields, '\t') + ending) == fields
  {
    var line := Join(fields, '\t');
    JoinEnds(fields, '\t');
    var last := fields[|fields| - 1];
    assert line[0] == fields[0][0];
    assert line[|line| - 1] == last[|last| - 1] by {
      assert line[|line| - |last|..][|last| - 1] == last[|last| - 1];
    }
    StripTrailing(line, ending);
    SplitJoin(fields, '\t');
  }

  // ---------------------------------------------------------------------------
  // Numeric coercion

  /** A whole number written out reads as itself. */
  lemma WholeNumber(n: nat)
    ensures ToNumber(ShowNat(n)) == n as real
    ensures ToNumber("-" + ShowNat(n)) == -(n as real)
  {
    var s := ShowNat(n);
    DigitRunPrefix(s, []);
    assert s + [] == s && s[..|s|] == s;
    ShowNatValue(n);
    assert ("-" + s)[1..] == s;
  }

  /** A number with a fractional part reads as its value. */
  lemma DecimalNumber(n: nat, frac: string)
    requires AllDigits(frac)
    ensures ToNumber(ShowNat(n) + "." + frac) == n as real + Fraction(frac)
  {
    var whole := ShowNat(n);
    var s := whole + "." + frac;
    assert s[..|whole|] == whole && s[|whole|] == '.' && s[|whole| + 1..] == frac;
    PointedValue(s, |whole|);
    ShowNatValue(n);
  }

  /** Digits, a point and digits read as the whole part plus the fraction. */
  lemma PointedValue(s: string, n: nat)
    requires n < |s| && AllDigits(s[..n]) && s[n] == '.' && AllDigits(s[n + 1..])
    requires n >= 1 || n + 1 < |s|
    ensures ParseUnsigned(s) == Some(DigitsValue(s[..n]) as real + Fraction(s[n + 1..]))
  {
    assert s == s[..n] + s[n..];
    DigitRunPrefix(s[..n], s[n..]);
    var frac := s[n + 1..];
    assert frac + [] == frac;
    DigitRunPrefix(frac, []);
  }

  /** A field holding any character a number cannot contain reads as 0. */
  lemma NotANumber(field: string, i: nat)
    requires i < |field| && !NumberChar(field[i])
    ensures ToNumber(field) == 0.0
  {
    if |field| > 0 && (field[0] == '-' || field[0] == '+') {
      assert field[1..][i - 1] == field[i];
    }
  }
}
