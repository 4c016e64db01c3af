/**
 * The string operations the log reader and the exporter rely on, with
 * Python's semantics: `str.strip()`, `str.split(sep)` with an explicit
 * separator, `sep.join(parts)`, and decimal digit strings.
 */
module Text {

  /** Whitespace as Python's `str.isspace()` defines it. */
  predicate IsSpace(c: char) {
    || ('\t' <= c <= '\r')
    || ('\U{1C}' <= c <= '\U{1F}')
    || c == ' '
    || c == '\U{85}'
    || c == '\U{A0}'
    || c == '\U{1680}'
    || ('\U{2000}' <= c <= '\U{200A}')
    || c == '\U{2028}'
    || c == '\U{2029}'
    || c == '\U{202F}'
    || c == '\U{205F}'
    || c == '\U{3000}'
  }

  /** Drops the leading whitespace: the rest of `s` from its first non-space. */
  function TrimStart(s: string): (r: string)
    ensures |r| <= |s| && r == s[|s| - |r|..]
    ensures forall i :: 0 <= i < |s| - |r| ==> IsSpace(s[i])
    ensures r == [] || !IsSpace(r[0])
  {
    if |s| > 0 && IsSpace(s[0]) then TrimStart(s[1..]) else s
  }

  /** Drops the trailing whitespace: `s` up to and including its last non-space. */
  function TrimEnd(s: string): (r: string)
    ensures |r| <= |s| && r == s[..|r|]
    ensures forall i :: |r| <= i < |s| ==> IsSpace(s[i])
    ensures r == [] || !IsSpace(r[|r| - 1])
  {
    if |s| > 0 && IsSpace(s[|s| - 1]) then TrimEnd(s[..|s| - 1]) else s
  }

  /** Python's `s.strip()`. */
  function Strip(s: string): (r: string)
    ensures |r| <= |s|
    ensures r == [] || (!IsSpace(r[0]) && !IsSpace(r[|r| - 1]))
    ensures r == [] <==> forall i :: 0 <= i < |s| ==> IsSpace(s[i])
  {
    TrimEnd(TrimStart(s))
  }

  /** The position of the first `c` in `s`. */
  function IndexOf<T(==)>(s: seq<T>, c: T): (i: nat)
    requires c in s
    ensures i < |s| && s[i] == c && c !in s[..i]
  {
    if s[0] == c then 0 else 1 + IndexOf(s[1..], c)
  }

  /** An element that does not occur before position `k` is first found at `k`. */
  lemma {:induction false} IndexOfAt<T>(s: seq<T>, k: nat)
    requires k < |s|
    requires forall j :: 0 <= j < k ==> s[j] != s[k]
    ensures IndexOf(s, s[k]) == k
  {
    if k > 0 {
      assert s[1..][k - 1] == s[k];
      IndexOfAt(s[1..], k - 1);
    }
  }

  /** Python's `s.split(sep)`: the pieces between separators, `[""]` for `""`. */
  function Split(s: string, sep: char): (parts: seq<string>)
    ensures |parts| >= 1
    ensures forall k :: 0 <= k < |parts| ==> sep !in parts[k]
    decreases |s|
  {
    if sep in s then
      var i := IndexOf(s, sep);
      [s[..i]] + Split(s[i + 1..], sep)
    else
      [s]
  }

  /** Python's `sep.join(parts)`. */
  function Join(parts: seq<string>, sep: char): string {
    if |parts| == 0 then ""
    else if |parts| == 1 then parts[0]
    else parts[0] + [sep] + Join(parts[1..], sep)
  }

  /** Joining the pieces of a split gives back the string. */
  lemma {:induction false} JoinSplit(s: string, sep: char)
    ensures Join(Split(s, sep), sep) == s
    decreases |s|
  {
    if sep in s {
      var i := IndexOf(s, sep);
      var rest := Split(s[i + 1..], sep);
      var parts := [s[..i]] + rest;
      assert Split(s, sep) == parts;
      assert parts[1..] == rest;
      JoinSplit(s[i + 1..], sep);
      assert Join(parts, sep) == s[..i] + [sep] + Join(rest, sep);
      assert s == s[..i] + [sep] + s[i + 1..];
    }
  }

  /** Splitting a join gives back the pieces, when no piece holds the separator. */
  lemma {:induction false} SplitJoin(parts: seq<string>, sep: char)
    requires |parts| >= 1
    requires forall k :: 0 <= k < |parts| ==> sep !in parts[k]
    ensures Split(Join(parts, sep), sep) == parts
  {
    if |parts| > 1 {
      var p0 := parts[0];
      var tail := Join(parts[1..], sep);
      var s := Join(parts, sep);
      assert s == p0 + [sep] + tail;
      assert s[|p0|] == sep;
      forall j | 0 <= j < |p0| ensures s[j] != s[|p0|] {
        assert s[j] == p0[j];
      }
      IndexOfAt(s, |p0|);
      assert s[..|p0|] == p0;
      assert s[|p0| + 1..] == tail;
      SplitJoin(parts[1..], sep);
      assert Split(s, sep) == [p0] + Split(tail, sep);
      assert parts == [p0] + parts[1..];
    } else {
      assert Join(parts, sep) == parts[0];
    }
  }

  /** A join starts with its first piece and ends with its last. */
  lemma {:induction false} JoinEnds(parts: seq<string>, sep: char)
    requires |parts| >= 1
    ensures |parts[0]| <= |Join(parts, sep)| && Join(parts, sep)[..|parts[0]|] == parts[0]
    ensures var last := parts[|parts| - 1]; var j := Join(parts, sep);
      |last| <= |j| && j[|j| - |last|..] == last
  {
    if |parts| > 1 {
      JoinEnds(parts[1..], sep);
      var j := Join(parts, sep);
      assert j == parts[0] + [sep] + Join(parts[1..], sep);
      assert j[..|parts[0]|] == parts[0];
    }
  }

  lemma {:induction false} TrimEndSpaces(s: string, w: string)
    requires s != [] && !IsSpace(s[|s| - 1])
    requires forall i :: 0 <= i < |w| ==> IsSpace(w[i])
    ensures TrimEnd(s + w) == s
    decreases |w|
  {
    if w != [] {
      var t := s + w;
      assert t[..|t| - 1] == s + w[..|w| - 1];
      TrimEndSpaces(s, w[..|w| - 1]);
    } else {
      assert s + w == s;
    }
  }

  /** `strip()` on a string with no whitespace at its ends, followed by whitespace, gives the string. */
  lemma StripTrailing(s: string, w: string)
    requires s != [] && !IsSpace(s[0]) && !IsSpace(s[|s| - 1])
    requires forall i :: 0 <= i < |w| ==> IsSpace(w[i])
    ensures Strip(s + w) == s
  {
    assert TrimStart(s + w) == s + w by {
      assert (s + w)[0] == s[0];
    }
    TrimEndSpaces(s, w);
  }

  lemma {:induction false} TrimStartSpaces(w: string, s: string)
    requires s == [] || !IsSpace(s[0])
    requires forall i :: 0 <= i < |w| ==> IsSpace(w[i])
    ensures TrimStart(w + s) == s
    decreases |w|
  {
    if w != [] {
      assert (w + s)[1..] == w[1..] + s;
      TrimStartSpaces(w[1..], s);
    } else {
      assert w + s == s;
    }
  }

  /** `strip()` leaves a string with no whitespace at its ends as it is. */
  lemma StripNothing(s: string)
    requires s != [] && !IsSpace(s[0]) && !IsSpace(s[|s| - 1])
    ensures Strip(s) == s
  {
  }

  /** `strip()` on a string with no whitespace at its ends, surrounded by whitespace, gives the string. */
  lemma StripAround(before: string, s: string, after: string)
    requires s != [] && !IsSpace(s[0]) && !IsSpace(s[|s| - 1])
    requires forall i :: 0 <= i < |before| ==> IsSpace(before[i])
    requires forall i :: 0 <= i < |after| ==> IsSpace(after[i])
    ensures Strip(before + s + after) == s
  {
    assert before + s + after == before + (s + after);
    TrimStartSpaces(before, s + after);
    TrimEndSpaces(s, after);
  }

  predicate IsDigit(c: char) { '0' <= c <= '9' }

  predicate AllDigits(s: string) { forall i :: 0 <= i < |s| ==> IsDigit(s[i]) }

  /** The length of the run of ASCII digits that starts `s`. */
  function DigitRun(s: string): (n: nat)
    ensures n <= |s| && AllDigits(s[..n])
    ensures n == |s| || !IsDigit(s[n])
  {
    if |s| > 0 && IsDigit(s[0]) then
      var n := 1 + DigitRun(s[1..]);
      assert s[..n] == [s[0]] + s[1..][..n - 1];
      n
    else
      0
  }

  /** The run of digits stops at the first non-digit. */
  lemma {:induction false} DigitRunStops(s: string, p: nat)
    requires p < |s| && !IsDigit(s[p])
    ensures DigitRun(s) <= p
  {
    if p > 0 && IsDigit(s[0]) {
      assert s[1..][p - 1] == s[p];
      DigitRunStops(s[1..], p - 1);
    }
  }

  /** A run of digits followed by a non-digit is read to its end. */
  lemma {:induction false} DigitRunPrefix(d: string, r: string)
    requires AllDigits(d)
    requires r == [] || !IsDigit(r[0])
    ensures DigitRun(d + r) == |d|
    decreases |d|
  {
    if |d| > 0 {
      assert (d + r)[1..] == d[1..] + r;
      DigitRunPrefix(d[1..], r);
    } else {
      assert d + r == r;
    }
  }

  /** The number a string of decimal digits denotes. */
  function DigitsValue(s: string): nat
    requires AllDigits(s)
  {
    if s == [] then 0
    else DigitsValue(s[..|s| - 1]) * 10 + (s[|s| - 1] as int - '0' as int)
  }

  function Pow10(k: nat): (p: nat)
    ensures p >= 1
  {
    if k == 0 then 1 else 10 * Pow10(k - 1)
  }

  /** The digit character for `d`. */
  function DigitChar(d: nat): (c: char)
    requires d < 10
    ensures IsDigit(c) && c as int - '0' as int == d
  {
    ('0' as int + d) as char
  }

  /** The shortest decimal spelling of `n`, as Python's `str(n)`. */
  function ShowNat(n: nat): (s: string)
    ensures |s| >= 1 && AllDigits(s)
  {
    if n < 10 then [DigitChar(n)] else ShowNat(n / 10) + [DigitChar(n % 10)]
  }

  /** `n` left-padded with zeros to at least `width` digits, as `f"{n:0{width}d}"`. */
  function PadNat(n: nat, width: nat): (s: string)
    ensures AllDigits(s)
  {
    var digits := ShowNat(n);
    var zeros := seq(if width > |digits| then width - |digits| else 0, _ => '0');
    zeros + digits
  }

  /** Reading a spelled-out number gives the number back. */
  lemma {:induction false} ShowNatValue(n: nat)
    ensures DigitsValue(ShowNat(n)) == n
  {
    if n >= 10 {
      ShowNatValue(n / 10);
      var s := ShowNat(n);
      assert s[..|s| - 1] == ShowNat(n / 10);
    }
  }

  /** A number below 10^k needs at most k digits. */
  lemma {:induction false} ShowNatLength(n: nat, k: nat)
    requires n < Pow10(k)
    ensures |ShowNat(n)| <= k || (n == 0 && k == 0)
  {
    if n >= 10 {
      ShowNatLength(n / 10, k - 1);
    }
  }

  /** Leading zeros do not change the value of a digit string. */
  lemma {:induction false} LeadingZeros(zeros: string, s: string)
    requires forall i :: 0 <= i < |zeros| ==> zeros[i] == '0'
    requires AllDigits(s)
    ensures AllDigits(zeros + s) && DigitsValue(zeros + s) == DigitsValue(s)
    decreases |s|, |zeros|
  {
    var t := zeros + s;
    if s == [] {
      if zeros != [] {
        assert t[..|t| - 1] == zeros[..|zeros| - 1] + [];
        LeadingZeros(zeros[..|zeros| - 1], []);
      }
    } else {
      assert t[..|t| - 1] == zeros + s[..|s| - 1];
      LeadingZeros(zeros, s[..|s| - 1]);
    }
  }

  /** The padded spelling reads back as the number, and has exactly `width` digits when it fits. */
  lemma PadNatValue(n: nat, width: nat)
    ensures DigitsValue(PadNat(n, width)) == n
    ensures 1 <= width && n < Pow10(width) ==> |PadNat(n, width)| == width
  {
    var digits := ShowNat(n);
    var zeros := seq(if width > |digits| then width - |digits| else 0, _ => '0');
    LeadingZeros(zeros, digits);
    ShowNatValue(n);
    if 1 <= width && n < Pow10(width) {
      ShowNatLength(n, width);
    }
  }
}
