/** String helpers that mirror the handful of Python `str` operations the
    sync job relies on: `startswith`, `str(int)`, `split(",")`, `strip()`
    and `"-" * n`. */
module Text {

  predicate StartsWith(s: string, prefix: string) {
    |prefix| <= |s| && s[..|prefix|] == prefix
  }

  predicate IsDigit(c: char) {
    '0' <= c <= '9'
  }

  predicate AllDigits(s: string) {
    forall i | 0 <= i < |s| :: IsDigit(s[i])
  }

  function DigitChar(d: nat): (c: char)
    requires d < 10
    ensures IsDigit(c) && c as int - '0' as int == d
  {
    (d + '0' as int) as char
  }

  function DigitValue(c: char): nat
    requires IsDigit(c)
  {
    c as int - '0' as int
  }

  /** The number a string of decimal digits denotes (most significant first). */
  function DigitsValue(s: string): nat
    requires AllDigits(s)
  {
    if s == [] then 0 else 10 * DigitsValue(s[..|s| - 1]) + DigitValue(s[|s| - 1])
  }

  /** Python's `str(n)` for a non-negative integer: no sign, no leading zero. */
  function NatToString(n: nat): (r: string)
    ensures |r| >= 1 && AllDigits(r)
    ensures |r| > 1 ==> r[0] != '0'
  {
    if n < 10 then [DigitChar(n)] else NatToString(n / 10) + [DigitChar(n % 10)]
  }

  /** Python's `str(i)` for any integer. */
  function IntToString(i: int): (r: string)
    ensures |r| >= 1
  {
    if i < 0 then "-" + NatToString(-i) else NatToString(i)
  }

  /** Reading the decimal rendering back gives the number. */
  lemma {:induction false} NatToStringRoundTrip(n: nat)
    ensures DigitsValue(NatToString(n)) == n
  {
    if n >= 10 {
      var s := NatToString(n / 10) + [DigitChar(n % 10)];
      assert s[..|s| - 1] == NatToString(n / 10);
      NatToStringRoundTrip(n / 10);
    }
  }

  /** Python's `str.isspace()` character set. */
  predicate IsWhitespace(c: char) {
    || '\t' <= c <= '\r'
    || '\U{1C}' <= c <= '\U{1F}'
    || c == ' ' || c == '\U{85}' || c == '\U{A0}' || c == '\U{1680}'
    || '\U{2000}' <= c <= '\U{200A}'
    || c == '\U{2028}' || c == '\U{2029}' || c == '\U{202F}' || c == '\U{205F}'
    || c == '\U{3000}'
  }

  /** Every character is ASCII, as `s.encode("ascii")` demands. */
  predicate IsAscii(s: string) {
    forall i | 0 <= i < |s| :: s[i] <= '\U{7F}'
  }

  /** A string with no whitespace at either end. */
  predicate IsStripped(s: string) {
    s == [] || (!IsWhitespace(s[0]) && !IsWhitespace(s[|s| - 1]))
  }

  /** The end of the whitespace run starting at `i`. */
  function LeadEnd(s: string, i: nat): (n: nat)
    requires i <= |s|
    ensures i <= n <= |s|
    ensures forall k | i <= k < n :: IsWhitespace(s[k])
    ensures n == |s| || !IsWhitespace(s[n])
    decreases |s| - i
  {
    if i < |s| && IsWhitespace(s[i]) then LeadEnd(s, i + 1) else i
  }

  /** The start of the whitespace run ending at `j`, not going below `lo`. */
  function TrailStart(s: string, lo: nat, j: nat): (n: nat)
    requires lo <= j <= |s|
    ensures lo <= n <= j
    ensures forall k | n <= k < j :: IsWhitespace(s[k])
    ensures n == lo || !IsWhitespace(s[n - 1])
  {
    if j > lo && IsWhitespace(s[j - 1]) then TrailStart(s, lo, j - 1) else j
  }

  /** `r` is the slice `s[i..j]` with only whitespace around it. */
  predicate SliceBetweenWhitespace(s: string, r: string, i: int, j: int) {
    && 0 <= i <= j <= |s| && r == s[i..j]
    && (forall k | 0 <= k < i :: IsWhitespace(s[k]))
    && (forall k | j <= k < |s| :: IsWhitespace(s[k]))
  }

  /** Python's `s.strip()`: the slice left after dropping whitespace from both
      ends. */
  function Strip(s: string): (r: string)
    ensures IsStripped(r)
    ensures exists i, j :: SliceBetweenWhitespace(s, r, i, j)
    ensures IsStripped(s) ==> r == s
  {
    var i := LeadEnd(s, 0);
    var j := TrailStart(s, i, |s|);
    assert SliceBetweenWhitespace(s, s[i..j], i, j);
    assert i < j ==> !IsWhitespace(s[i]) && !IsWhitespace(s[j - 1]);
    assert IsStripped(s) && s != [] ==> i == 0 && j == |s|;
    s[i..j]
  }

  /** A string strips to nothing exactly when it is all whitespace. */
  lemma StripBlank(s: string)
    ensures Strip(s) == "" <==> forall k | 0 <= k < |s| :: IsWhitespace(s[k])
  {
    var r := Strip(s);
    var i, j :| SliceBetweenWhitespace(s, r, i, j);
    if r != "" {
      assert s[i] == r[0];
    }
  }

  /** Python's `s.split(sep)` for a one-character separator: always at least
      one part, and `"".split(",") == [""]`. */
  function Split(s: string, sep: char): (parts: seq<string>)
    ensures |parts| >= 1
    ensures forall k | 0 <= k < |parts| :: sep !in parts[k]
  {
    if s == [] then [""]
    else
      var init := Split(s[..|s| - 1], sep);
      var c := s[|s| - 1];
      if c == sep then init + [""]
      else init[..|init| - 1] + [init[|init| - 1] + [c]]
  }

  /** Every character of a part comes from the string split. */
  lemma {:induction false} SplitPartChars(s: string, sep: char, k: nat)
    requires k < |Split(s, sep)|
    ensures forall c | c in Split(s, sep)[k] :: c in s
  {
    if s != [] {
      var pre := s[..|s| - 1];
      var last := s[|s| - 1];
      assert s == pre + [last];
      var init := Split(pre, sep);
      if last == sep {
        if k < |init| {
          SplitPartChars(pre, sep, k);
        }
      } else {
        SplitPartChars(pre, sep, if k < |init| - 1 then k else |init| - 1);
      }
    }
  }

  /** Python's `sep.join(parts)`. */
  function Join(parts: seq<string>, sep: char): string
    requires |parts| >= 1
  {
    if |parts| == 1 then parts[0]
    else Join(parts[..|parts| - 1], sep) + [sep] + parts[|parts| - 1]
  }

  lemma {:induction false} JoinExtendLast(parts: seq<string>, sep: char, c: char)
    requires |parts| >= 1
    ensures Join(parts[..|parts| - 1] + [parts[|parts| - 1] + [c]], sep) == Join(parts, sep) + [c]
  {
    var q := parts[..|parts| - 1] + [parts[|parts| - 1] + [c]];
    if |parts| > 1 {
      assert q[..|q| - 1] == parts[..|parts| - 1];
    }
  }

  /** Joining the parts of a split with the same separator gives back the
      original string. */
  lemma {:induction false} JoinSplit(s: string, sep: char)
    ensures Join(Split(s, sep), sep) == s
  {
    if s != [] {
      var pre := s[..|s| - 1];
      var c := s[|s| - 1];
      assert s == pre + [c];
      var init := Split(pre, sep);
      JoinSplit(pre, sep);
      SplitSnoc(pre, c, sep);
      if c == sep {
        var q := init + [""];
        assert q[..|q| - 1] == init;
        assert Join(q, sep) == Join(init, sep) + [sep] + "";
      } else {
        JoinExtendLast(init, sep, c);
      }
    }
  }

  /** Splitting one character more either opens a new part or extends the
      last one. */
  lemma SplitSnoc(s: string, c: char, sep: char)
    ensures c == sep ==> Split(s + [c], sep) == Split(s, sep) + [""]
    ensures c != sep ==> var p := Split(s, sep);
      Split(s + [c], sep) == p[..|p| - 1] + [p[|p| - 1] + [c]]
  {
    assert (s + [c])[..|s|] == s;
  }

  /** Extending the last part of a concatenation extends the last part of
      its second half. */
  lemma ExtendLastAppend(x: seq<string>, y: seq<string>, c: char)
    requires |y| >= 1
    ensures var xy := x + y;
      xy[..|xy| - 1] + [xy[|xy| - 1] + [c]] == x + (y[..|y| - 1] + [y[|y| - 1] + [c]])
  {
    var xy := x + y;
    assert xy[..|xy| - 1] == x + y[..|y| - 1];
  }

  /** Splitting at a separator occurrence splits the parts list there. */
  lemma {:induction false} SplitConcat(a: string, b: string, sep: char)
    ensures Split(a + [sep] + b, sep) == Split(a, sep) + Split(b, sep)
  {
    if b == [] {
      assert a + [sep] + b == a + [sep];
      SplitSnoc(a, sep, sep);
    } else {
      var b' := b[..|b| - 1];
      var c := b[|b| - 1];
      var s' := a + [sep] + b';
      assert b == b' + [c];
      assert a + [sep] + b == s' + [c];
      SplitConcat(a, b', sep);
      SplitSnoc(s', c, sep);
      SplitSnoc(b', c, sep);
      var x := Split(a, sep);
      var y := Split(b', sep);
      if c == sep {
        assert (x + y) + [""] == x + (y + [""]);
      } else {
        ExtendLastAppend(x, y, c);
      }
    }
  }

  /** A string free of the separator splits into itself alone. */
  lemma {:induction false} SplitNoSeparator(s: string, sep: char)
    requires sep !in s
    ensures Split(s, sep) == [s]
  {
    if s != [] {
      SplitNoSeparator(s[..|s| - 1], sep);
      assert s[..|s| - 1] + [s[|s| - 1]] == s;
    }
  }

  /** Two separator-free strings joined by one separator split back into the
      two. */
  lemma SplitTwo(a: string, b: string, sep: char)
    requires sep !in a && sep !in b
    ensures Split(a + [sep] + b, sep) == [a, b]
  {
    SplitConcat(a, b, sep);
    SplitNoSeparator(a, sep);
    SplitNoSeparator(b, sep);
  }

  /** A character of a join other than the separator comes from one of the
      parts. */
  lemma {:induction false} JoinChars(parts: seq<string>, sep: char, c: char)
    requires |parts| >= 1
    requires c in Join(parts, sep) && c != sep
    ensures exists k | 0 <= k < |parts| :: c in parts[k]
  {
    if |parts| > 1 {
      var init := parts[..|parts| - 1];
      if c in Join(init, sep) {
        JoinChars(init, sep, c);
        assert forall k | 0 <= k < |init| :: init[k] == parts[k];
      } else {
        assert c in parts[|parts| - 1];
      }
    }
  }

  /** Splitting a join of separator-free parts gives the parts back. */
  lemma {:induction false} SplitJoin(parts: seq<string>, sep: char)
    requires |parts| >= 1
    requires forall k | 0 <= k < |parts| :: sep !in parts[k]
    ensures Split(Join(parts, sep), sep) == parts
  {
    if |parts| == 1 {
      SplitNoSeparator(parts[0], sep);
    } else {
      var init := parts[..|parts| - 1];
      var last := parts[|parts| - 1];
      assert Join(parts, sep) == Join(init, sep) + [sep] + last;
      assert forall k | 0 <= k < |init| :: init[k] == parts[k];
      SplitJoin(init, sep);
      SplitConcat(Join(init, sep), last, sep);
      SplitNoSeparator(last, sep);
      assert parts == init + [last];
    }
  }

  /** Python's `c * n` for a one-character string. */
  function Repeat(c: char, n: nat): (r: string)
    ensures |r| == n && forall i | 0 <= i < n :: r[i] == c
  {
    if n == 0 then [] else Repeat(c, n - 1) + [c]
  }
}
