/**
 * The table of changes shown for the window (`App.mostrar_grafico`,
 * repeated in `App.generar_pdf`): for every signal its first and last value
 * in the window, their difference, and whether the change stays within the
 * tolerance; and the plotted relative view, each value minus the signal's
 * first value.
 */
module DeltaEvaluator {
  import opened LogParser

  /** A change larger than this, either way, fails. */
  const Tolerance: real := 50.0

  datatype Status = Pass | Fail

  /** One line of the table: `[c, i0, i1, d, s]`. */
  datatype Delta = Delta(signal: string, first: real, last: real, diff: real, status: Status)

  function Abs(x: real): real {
    if x < 0.0 then -x else x
  }

  /** `'✗' if abs(d) > 50 else '✓'`. */
  function StatusOf(d: real): Status {
    if Abs(d) > Tolerance then Fail else Pass
  }

  /** The line of signal `c`, from the first and last rows of the window. */
  function DeltaOf(window: seq<Record>, columns: seq<string>, c: nat): Delta
    requires |window| >= 1 && Rectangular(window, columns) && c < |columns|
  {
    var i0 := window[0].values[c];
    var i1 := window[|window| - 1].values[c];
    Delta(columns[c], i0, i1, i1 - i0, StatusOf(i1 - i0))
  }

  /** The table, one line per signal in column order. */
  function Deltas(window: seq<Record>, columns: seq<string>): (ds: seq<Delta>)
    requires |window| >= 1 && Rectangular(window, columns)
    ensures |ds| == |columns|
  {
    seq(|columns|, c requires 0 <= c < |columns| => DeltaOf(window, columns, c))
  }

  /** `data.subtract(fr)`: every value minus the first row's value of its signal. */
  function Relative(window: seq<Record>, columns: seq<string>): (rel: seq<seq<real>>)
    requires |window| >= 1 && Rectangular(window, columns)
    ensures |rel| == |window|
    ensures forall i :: 0 <= i < |rel| ==> |rel[i]| == |columns|
  {
    seq(|window|, i requires 0 <= i < |window| =>
      seq(|columns|, c requires 0 <= c < |columns| => window[i].values[c] - window[0].values[c]))
  }

  // ---------------------------------------------------------------------------
  // Properties

  /** A change passes exactly when it lies in `[-50, 50]`: the bound itself passes. */
  lemma StatusBand(d: real)
    ensures StatusOf(d) == Pass <==> -Tolerance <= d <= Tolerance
    ensures StatusOf(-d) == StatusOf(d)
  {
  }

  /** The boundary cases: 50 and -50 pass, anything beyond either fails. */
  lemma StatusAtTheBound(e: real)
    requires e > 0.0
    ensures StatusOf(Tolerance) == Pass && StatusOf(-Tolerance) == Pass
    ensures StatusOf(Tolerance + e) == Fail && StatusOf(-Tolerance - e) == Fail
  {
    StatusBand(Tolerance);
    StatusBand(Tolerance + e);
    StatusBand(-Tolerance - e);
  }

  /**
   * Each line names its signal, in column order, holds the signal's first and
   * last values, their difference last minus first, and fails exactly when
   * that difference is outside `[-50, 50]`.
   */
  lemma DeltaLines(window: seq<Record>, columns: seq<string>, c: nat)
    requires |window| >= 1 && Rectangular(window, columns) && c < |columns|
    ensures var d := Deltas(window, columns)[c];
      && d.signal == columns[c]
      && d.first == window[0].values[c]
      && d.last == window[|window| - 1].values[c]
      && d.first + d.diff == d.last
      && (d.status == Fail <==> d.diff < -Tolerance || d.diff > Tolerance)
  {
    StatusBand(Deltas(window, columns)[c].diff);
  }

  /** A window of one row changes nothing and passes on every signal. */
  lemma SingleRowPasses(window: seq<Record>, columns: seq<string>, c: nat)
    requires |window| == 1 && Rectangular(window, columns) && c < |columns|
    ensures Deltas(window, columns)[c].diff == 0.0
    ensures Deltas(window, columns)[c].status == Pass
  {
  }

  /** Only the first and last rows of the window decide the table. */
  lemma OnlyEndsMatter(window: seq<Record>, columns: seq<string>)
    requires |window| >= 1 && Rectangular(window, columns)
    ensures var ends := [window[0], window[|window| - 1]];
      Rectangular(ends, columns) && Deltas(ends, columns) == Deltas(window, columns)
  {
    var ends := [window[0], window[|window| - 1]];
    assert Rectangular(ends, columns);
    forall c | 0 <= c < |columns| ensures Deltas(ends, columns)[c] == Deltas(window, columns)[c] {
      assert DeltaOf(ends, columns, c) == DeltaOf(window, columns, c);
    }
  }

  /**
   * The relative view starts at zero on every signal, ends at the table's
   * difference, and adds back to the values.
   */
  lemma RelativeView(window: seq<Record>, columns: seq<string>, i: nat, c: nat)
    requires |window| >= 1 && Rectangular(window, columns)
    requires i < |window| && c < |columns|
    ensures Relative(window, columns)[0][c] == 0.0
    ensures Relative(window, columns)[|window| - 1][c] == Deltas(window, columns)[c].diff
    ensures Relative(window, columns)[i][c] + window[0].values[c] == window[i].values[c]
  {
  }
}
