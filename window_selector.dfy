/**
 * Choosing the five-minute window (`App.procesar_intervalo`): the frame is
 * sorted by instant, the window starts at the first instant at or after the
 * requested start, and it holds every row from there up to five minutes
 * later, both ends included.
 */
module WindowSelector {
  import opened Options
  import opened LogParser

  /** `datetime.timedelta(minutes=5)`, in seconds. */
  const WindowLength: int := 300

  /** The order `sort_index` puts the index in: instants ascending, NaT last. */
  predicate TimeLe(a: Option<int>, b: Option<int>) {
    match a
    case None => b.None?
    case Some(x) => b.None? || x <= b.value
  }

  predicate SortedByTime(rs: seq<Record>) {
    forall i, j :: 0 <= i < j < |rs| ==> TimeLe(rs[i].time, rs[j].time)
  }

  /** `rs` with `r` placed before the first row that is not earlier. */
  function Insert(r: Record, rs: seq<Record>): (out: seq<Record>)
    requires SortedByTime(rs)
    ensures SortedByTime(out)
    ensures multiset(out) == multiset(rs) + multiset{r}
  {
    if rs == [] then [r]
    else if TimeLe(r.time, rs[0].time) then [r] + rs
    else
      var tail := Insert(r, rs[1..]);
      assert rs == [rs[0]] + rs[1..];
      forall k | 0 <= k < |tail| ensures TimeLe(rs[0].time, tail[k].time) {
        assert tail[k] in multiset(rs[1..]) + multiset{r};
      }
      SortedCons(rs[0], tail);
      [rs[0]] + tail
  }

  lemma SortedCons(x: Record, rs: seq<Record>)
    requires SortedByTime(rs)
    requires forall k :: 0 <= k < |rs| ==> TimeLe(x.time, rs[k].time)
    ensures SortedByTime([x] + rs)
  {
    forall i, j | 0 <= i < j < |[x] + rs| ensures TimeLe(([x] + rs)[i].time, ([x] + rs)[j].time) {
      if i > 0 {
        assert ([x] + rs)[i] == rs[i - 1];
      }
      assert ([x] + rs)[j] == rs[j - 1];
    }
  }

  /** `df.sort_index()`. */
  function SortByTime(rs: seq<Record>): (out: seq<Record>)
    ensures SortedByTime(out)
    ensures multiset(out) == multiset(rs)
  {
    if rs == [] then []
    else
      assert rs == [rs[0]] + rs[1..];
      Insert(rs[0], SortByTime(rs[1..]))
  }

  /** `index >= start_dt`: NaT is never at or after anything. */
  predicate AtOrAfter(t: Option<int>, start: int) {
    t.Some? && t.value >= start
  }

  /** Inside the closed interval `[lo, hi]`. */
  predicate Within(t: Option<int>, lo: int, hi: int) {
    t.Some? && lo <= t.value <= hi
  }

  /** The position of the first row the mask selects, or `|rs|` when it selects none. */
  function FirstAtOrAfter(rs: seq<Record>, start: int): (i: nat)
    ensures i <= |rs|
    ensures forall k :: 0 <= k < i ==> !AtOrAfter(rs[k].time, start)
    ensures i < |rs| ==> AtOrAfter(rs[i].time, start)
  {
    if rs == [] then 0
    else if AtOrAfter(rs[0].time, start) then 0
    else 1 + FirstAtOrAfter(rs[1..], start)
  }

  /** The length of the run of rows that start `rs` and are no later than `hi`. */
  function RunUpTo(rs: seq<Record>, hi: int): (n: nat)
    ensures n <= |rs|
    ensures forall k :: 0 <= k < n ==> rs[k].time.Some? && rs[k].time.value <= hi
    ensures n < |rs| ==> rs[n].time.None? || rs[n].time.value > hi
  {
    if rs != [] && rs[0].time.Some? && rs[0].time.value <= hi then 1 + RunUpTo(rs[1..], hi) else 0
  }

  /** The window: `start_idx`, `end_dt` and the rows of `df_sorted.loc[start_idx:end_dt]`. */
  datatype Window = Window(first: int, last: int, rows: seq<Record>)

  /**
   * The window of rows from the first instant at or after `start`, or None
   * when `mask.any()` is false.
   */
  function Select(records: seq<Record>, start: int): (r: Option<Window>)
    ensures r.Some? ==> WindowShape(r.value, start)
  {
    Cut(SortByTime(records), start)
  }

  /**
   * What every window is: it starts at or after `start`, ends five minutes
   * later, and its first row carries the start instant.
   */
  predicate WindowShape(w: Window, start: int) {
    && w.first >= start
    && w.last == w.first + WindowLength
    && |w.rows| >= 1
    && w.rows[0].time == Some(w.first)
  }

  /** `df_sorted.loc[start_idx:end_dt]` on the sorted frame. */
  function Cut(sorted: seq<Record>, start: int): (r: Option<Window>)
    ensures r.Some? ==> WindowShape(r.value, start)
  {
    var i := FirstAtOrAfter(sorted, start);
    if i == |sorted| then None
    else
      var first := sorted[i].time.value;
      var last := first + WindowLength;
      var j := i + RunUpTo(sorted[i..], last);
      Some(Window(first, last, sorted[i..j]))
  }

  // ---------------------------------------------------------------------------
  // The rows of `rs` inside an interval, in their order

  function Filter(rs: seq<Record>, lo: int, hi: int): seq<Record> {
    if rs == [] then []
    else
      var last := rs[|rs| - 1];
      Filter(rs[..|rs| - 1], lo, hi) + (if Within(last.time, lo, hi) then [last] else [])
  }

  lemma {:induction false} FilterConcat(a: seq<Record>, b: seq<Record>, lo: int, hi: int)
    ensures Filter(a + b, lo, hi) == Filter(a, lo, hi) + Filter(b, lo, hi)
    decreases |b|
  {
    if b == [] {
      assert a + b == a;
    } else {
      var n := |b| - 1;
      assert (a + b)[..|a + b| - 1] == a + b[..n];
      FilterConcat(a, b[..n], lo, hi);
    }
  }

  lemma {:induction false} FilterAll(rs: seq<Record>, lo: int, hi: int)
    requires forall k :: 0 <= k < |rs| ==> Within(rs[k].time, lo, hi)
    ensures Filter(rs, lo, hi) == rs
  {
    if rs != [] {
      FilterAll(rs[..|rs| - 1], lo, hi);
    }
  }

  lemma {:induction false} FilterNone(rs: seq<Record>, lo: int, hi: int)
    requires forall k :: 0 <= k < |rs| ==> !Within(rs[k].time, lo, hi)
    ensures Filter(rs, lo, hi) == []
  {
    if rs != [] {
      FilterNone(rs[..|rs| - 1], lo, hi);
    }
  }

  /** The filter keeps every copy of a row inside the interval and none outside it. */
  lemma {:induction false} FilterCount(rs: seq<Record>, lo: int, hi: int, x: Record)
    ensures multiset(Filter(rs, lo, hi))[x] == if Within(x.time, lo, hi) then multiset(rs)[x] else 0
  {
    if rs != [] {
      var n := |rs| - 1;
      FilterCount(rs[..n], lo, hi, x);
      assert rs == rs[..n] + [rs[n]];
    }
  }

  // ---------------------------------------------------------------------------
  // What the selection promises

  /** "No data from the start" exactly when no row has an instant at or after it. */
  lemma NoDataIff(records: seq<Record>, start: int)
    ensures Select(records, start).None? <==> forall k :: 0 <= k < |records| ==> !AtOrAfter(records[k].time, start)
  {
    var sorted := SortByTime(records);
    var i := FirstAtOrAfter(sorted, start);
    if i < |sorted| {
      assert sorted[i] in multiset(records);
      var k :| 0 <= k < |records| && records[k] == sorted[i];
    } else {
      forall k | 0 <= k < |records| ensures !AtOrAfter(records[k].time, start) {
        assert records[k] in multiset(sorted);
      }
    }
  }

  /**
   * The window starts at the least instant at or after `start`, which some
   * row carries, and ends five minutes later.
   */
  lemma WindowBounds(records: seq<Record>, start: int)
    requires Select(records, start).Some?
    ensures var w := Select(records, start).value;
      && w.first >= start
      && w.last == w.first + WindowLength
      && (exists k :: 0 <= k < |records| && records[k].time == Some(w.first))
      && forall k :: 0 <= k < |records| && AtOrAfter(records[k].time, start) ==> w.first <= records[k].time.value
  {
    var sorted := SortByTime(records);
    var i := FirstAtOrAfter(sorted, start);
    var w := Select(records, start).value;
    assert sorted[i] in multiset(records);
    forall k | 0 <= k < |records| && AtOrAfter(records[k].time, start)
      ensures w.first <= records[k].time.value
    {
      assert records[k] in multiset(sorted);
      var m :| 0 <= m < |sorted| && sorted[m] == records[k];
      assert m >= i;
      if m > i {
        assert TimeLe(sorted[i].time, sorted[m].time);
      }
    }
  }

  lemma SplitThree<T>(s: seq<T>, i: nat, j: nat)
    requires i <= j <= |s|
    ensures s == s[..i] + s[i..j] + s[j..]
  {
  }

  lemma MiddleInside(sorted: seq<Record>, i: nat, j: nat, lo: int, hi: int)
    requires SortedByTime(sorted) && i < j <= |sorted|
    requires sorted[i].time == Some(lo)
    requires forall k :: i <= k < j ==> sorted[k].time.Some? && sorted[k].time.value <= hi
    ensures forall k :: 0 <= k < |sorted[i..j]| ==> Within(sorted[i..j][k].time, lo, hi)
  {
    forall k | 0 <= k < |sorted[i..j]| ensures Within(sorted[i..j][k].time, lo, hi) {
      assert sorted[i..j][k] == sorted[i + k];
      if k > 0 {
        assert TimeLe(sorted[i].time, sorted[i + k].time);
      }
    }
  }

  lemma SuffixOutside(sorted: seq<Record>, j: nat, hi: int, lo: int)
    requires SortedByTime(sorted) && j <= |sorted|
    requires j < |sorted| ==> sorted[j].time.None? || sorted[j].time.value > hi
    ensures forall k :: 0 <= k < |sorted[j..]| ==> !Within(sorted[j..][k].time, lo, hi)
  {
    forall k | 0 <= k < |sorted[j..]| ensures !Within(sorted[j..][k].time, lo, hi) {
      assert sorted[j..][k] == sorted[j + k];
      if k > 0 {
        assert TimeLe(sorted[j].time, sorted[j + k].time);
      }
    }
  }

  /**
   * In a sorted sequence, the rows from the first one at `lo` up to the first
   * one past `hi` are exactly the rows inside `[lo, hi]`.
   */
  lemma CutIsFilter(sorted: seq<Record>, i: nat, j: nat, lo: int, hi: int)
    requires SortedByTime(sorted) && i < j <= |sorted|
    requires forall k :: 0 <= k < i ==> !Within(sorted[k].time, lo, hi)
    requires sorted[i].time == Some(lo)
    requires forall k :: i <= k < j ==> sorted[k].time.Some? && sorted[k].time.value <= hi
    requires j < |sorted| ==> sorted[j].time.None? || sorted[j].time.value > hi
    ensures sorted[i..j] == Filter(sorted, lo, hi)
  {
    var prefix, middle, suffix := sorted[..i], sorted[i..j], sorted[j..];
    FilterNone(prefix, lo, hi);
    MiddleInside(sorted, i, j, lo, hi);
    FilterAll(middle, lo, hi);
    SuffixOutside(sorted, j, hi, lo);
    FilterNone(suffix, lo, hi);
    SplitThree(sorted, i, j);
    FilterConcat(prefix + middle, suffix, lo, hi);
    FilterConcat(prefix, middle, lo, hi);
  }

  /** The run counted on the suffix from `i`, read on the whole sequence. */
  lemma RunInPlace(rs: seq<Record>, i: nat, hi: int)
    requires i <= |rs|
    ensures var n := RunUpTo(rs[i..], hi);
      && i + n <= |rs|
      && (forall k :: i <= k < i + n ==> rs[k].time.Some? && rs[k].time.value <= hi)
      && (i + n < |rs| ==> rs[i + n].time.None? || rs[i + n].time.value > hi)
  {
    var n := RunUpTo(rs[i..], hi);
    forall k | i <= k < i + n ensures rs[k].time.Some? && rs[k].time.value <= hi {
      assert rs[i..][k - i] == rs[k];
    }
    if i + n < |rs| {
      assert rs[i..][n] == rs[i + n];
    }
  }

  /** The cut of a sorted frame: its bounds, and the rows inside them. */
  lemma CutWindow(sorted: seq<Record>, start: int)
    requires SortedByTime(sorted) && Cut(sorted, start).Some?
    ensures var w := Cut(sorted, start).value;
      && w.first >= start
      && w.last == w.first + WindowLength
      && w.rows == Filter(sorted, w.first, w.last)
      && |w.rows| >= 1 && w.rows[0].time == Some(w.first)
  {
    var i := FirstAtOrAfter(sorted, start);
    var first := sorted[i].time.value;
    var last := first + WindowLength;
    var n := RunUpTo(sorted[i..], last);
    CutShape(sorted, start);
    BeforeFirstOutside(sorted, start, first, last);
    RunInPlace(sorted, i, last);
    CutIsFilter(sorted, i, i + n, first, last);
    assert Cut(sorted, start).value.rows == sorted[i..i + n];
  }

  /** The cut starts at the first row at or after `start`, and holds the run up to five minutes later. */
  lemma CutShape(sorted: seq<Record>, start: int)
    requires Cut(sorted, start).Some?
    ensures var i := FirstAtOrAfter(sorted, start);
      var first := sorted[i].time.value;
      var n := RunUpTo(sorted[i..], first + WindowLength);
      && i < |sorted| && sorted[i].time.Some? && first >= start && n >= 1
      && Cut(sorted, start) == Some(Window(first, first + WindowLength, sorted[i..i + n]))
      && sorted[i..i + n][0] == sorted[i]
  {
    var i := FirstAtOrAfter(sorted, start);
    assert sorted[i..][0] == sorted[i];
  }

  /** No row before the first one at or after `start` lies in an interval that starts at or after it. */
  lemma BeforeFirstOutside(rs: seq<Record>, start: int, lo: int, hi: int)
    requires lo >= start
    ensures forall k :: 0 <= k < FirstAtOrAfter(rs, start) ==> !Within(rs[k].time, lo, hi)
  {
  }

  /**
   * The window starts at the first instant at or after `start` and ends five
   * minutes later; it holds exactly the rows whose instant lies between the
   * two, both included, every copy of each, in ascending order of instant; it
   * is never empty and its first row carries the start instant.
   */
  lemma WindowContents(records: seq<Record>, start: int)
    requires Select(records, start).Some?
    ensures var w := Select(records, start).value;
      && w.rows == Filter(SortByTime(records), w.first, w.last)
      && SortedByTime(w.rows)
      && |w.rows| >= 1
      && w.rows[0].time == Some(w.first)
      && (forall k :: 0 <= k < |w.rows| ==> Within(w.rows[k].time, w.first, w.last))
      && forall x :: multiset(w.rows)[x] == if Within(x.time, w.first, w.last) then multiset(records)[x] else 0
  {
    var sorted := SortByTime(records);
    CutWindow(sorted, start);
    var w := Cut(sorted, start).value;
    forall x ensures multiset(w.rows)[x] == if Within(x.time, w.first, w.last) then multiset(records)[x] else 0 {
      FilterCount(sorted, w.first, w.last, x);
    }
    forall k | 0 <= k < |w.rows| ensures Within(w.rows[k].time, w.first, w.last) {
      assert w.rows[k] in multiset(w.rows);
    }
    SortedFilter(sorted, w.first, w.last);
  }

  lemma {:induction false} SortedFilter(rs: seq<Record>, lo: int, hi: int)
    requires SortedByTime(rs)
    ensures SortedByTime(Filter(rs, lo, hi))
  {
    if rs != [] {
      var n := |rs| - 1;
      SortedFilter(rs[..n], lo, hi);
      var f := Filter(rs[..n], lo, hi);
      forall k | 0 <= k < |f| ensures TimeLe(f[k].time, rs[n].time) {
        FilterCount(rs[..n], lo, hi, f[k]);
        assert f[k] in multiset(f);
        assert f[k] in rs[..n];
      }
      SortedSnoc(f, rs[n]);
    }
  }

  lemma SortedSnoc(rs: seq<Record>, x: Record)
    requires SortedByTime(rs)
    requires forall k :: 0 <= k < |rs| ==> TimeLe(rs[k].time, x.time)
    ensures SortedByTime(rs + [x])
  {
    forall i, j | 0 <= i < j < |rs + [x]| ensures TimeLe((rs + [x])[i].time, (rs + [x])[j].time) {
      assert (rs + [x])[i] == rs[i];
      if j < |rs| {
        assert (rs + [x])[j] == rs[j];
      }
    }
  }
}
