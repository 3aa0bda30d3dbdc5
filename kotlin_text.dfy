/**
 * The pieces of the Kotlin standard library that the app's decisions rest on:
 * nullable values, signed bytes, `Char.isWhitespace`, `String.trim()`,
 * `String.toLongOrNull()` / `String.toIntOrNull()` in radix 10, and the
 * decimal printing of a number (the inverse of the parser).
 */
module KotlinText {

  /** A Kotlin nullable value `T?`. */
  datatype Option<+T> = None | Some(value: T) {
    function GetOr(default: T): T {
      match this
      case Some(v) => v
      case None => default
    }
  }

  /** A JVM `Byte`. */
  newtype Byte = b: int | -128 <= b < 128

  const LONG_MIN: int := -0x8000_0000_0000_0000
  const LONG_MAX: int := 0x7FFF_FFFF_FFFF_FFFF
  const INT_MIN: int := -0x8000_0000
  const INT_MAX: int := 0x7FFF_FFFF

  function Min(a: int, b: int): int { if a <= b then a else b }

  // ---------------------------------------------------------------------------
  // Whitespace and trim()

  /**
   * Kotlin's `Char.isWhitespace()` on the JVM: `Character.isWhitespace` or
   * `Character.isSpaceChar`.
   */
  predicate IsWhitespace(c: char)
    ensures c == ' ' || c == '\t' || c == '\n' || c == '\U{A0}' ==> IsWhitespace(c)
    ensures IsWhitespace(c) ==> !('0' <= c <= '9') && c != '-' && c != '+'
  {
    || c == ' ' || ('\t' <= c <= '\r') || ('\U{1C}' <= c <= '\U{1F}')
    || c == '\U{A0}' || c == '\U{1680}' || ('\U{2000}' <= c <= '\U{200A}')
    || c == '\U{2028}' || c == '\U{2029}' || c == '\U{202F}' || c == '\U{205F}'
    || c == '\U{3000}'
  }

  predicate AllWhitespace(s: string) {
    forall i | 0 <= i < |s| :: IsWhitespace(s[i])
  }

  /** The scan from the front in `trim()`: the first index at or after `i` that is not whitespace. */
  function TrimStartIndex(s: string, i: nat): (k: nat)
    requires i <= |s|
    ensures i <= k <= |s|
    ensures forall j | i <= j < k :: IsWhitespace(s[j])
    ensures k < |s| ==> !IsWhitespace(s[k])
    decreases |s| - i
  {
    if i == |s| || !IsWhitespace(s[i]) then i else TrimStartIndex(s, i + 1)
  }

  /**
   * The scan from the back in `trim()`, which stops at `start`: the end of the
   * text once the trailing whitespace after `start` is dropped.
   */
  function TrimEndIndex(s: string, start: nat, e: nat): (k: nat)
    requires start <= e <= |s|
    ensures start <= k <= e
    ensures forall j | k <= j < e :: IsWhitespace(s[j])
    ensures start < k ==> !IsWhitespace(s[k - 1])
    decreases e
  {
    if e == start || !IsWhitespace(s[e - 1]) then e else TrimEndIndex(s, start, e - 1)
  }

  /** `CharSequence.trim()`: the text without leading and trailing whitespace. */
  function Trim(s: string): (r: string)
    ensures r == [] || (!IsWhitespace(r[0]) && !IsWhitespace(r[|r| - 1]))
  {
    var start := TrimStartIndex(s, 0);
    s[start..TrimEndIndex(s, start, |s|)]
  }

  /**
   * `trim()` is determined by where the text proper begins and ends: any
   * slice with only whitespace around it and no whitespace at its two ends is
   * what `trim()` returns.
   */
  lemma TrimIs(s: string, k: nat, e: nat)
    requires k <= e <= |s|
    requires forall j | 0 <= j < k :: IsWhitespace(s[j])
    requires forall j | e <= j < |s| :: IsWhitespace(s[j])
    requires k < e ==> !IsWhitespace(s[k]) && !IsWhitespace(s[e - 1])
    requires k == e ==> AllWhitespace(s)
    ensures Trim(s) == s[k..e]
  {
    var start := TrimStartIndex(s, 0);
    var end := TrimEndIndex(s, start, |s|);
    if k < e {
      assert start == k;
      assert end == e;
    } else {
      assert start == |s|;
    }
  }

  lemma PaddedSlice(p: string, s: string, q: string)
    ensures forall j | 0 <= j < |p| :: (p + s + q)[j] == p[j]
    ensures forall j | 0 <= j < |s| :: (p + s + q)[|p| + j] == s[j]
    ensures forall j | |p| + |s| <= j < |p + s + q| :: (p + s + q)[j] == q[j - |p| - |s|]
  {
  }

  lemma TrimPaddedBlank(p: string, s: string, q: string)
    requires AllWhitespace(p) && AllWhitespace(s) && AllWhitespace(q)
    ensures Trim(p + s + q) == Trim(s) == []
  {
    var x := p + s + q;
    PaddedSlice(p, s, q);
    assert AllWhitespace(x) by {
      forall j | 0 <= j < |x| ensures IsWhitespace(x[j]) {
        if |p| <= j < |p| + |s| { assert x[j] == s[j - |p|]; }
      }
    }
    TrimIs(x, |x|, |x|);
    TrimIs(s, |s|, |s|);
  }

  lemma TrimPaddedSlice(p: string, s: string, q: string, start: nat, end: nat)
    requires AllWhitespace(p) && AllWhitespace(q)
    requires start < end <= |s|
    requires forall j | 0 <= j < start :: IsWhitespace(s[j])
    requires forall j | end <= j < |s| :: IsWhitespace(s[j])
    requires !IsWhitespace(s[start]) && !IsWhitespace(s[end - 1])
    ensures Trim(p + s + q) == s[start..end]
  {
    var x := p + s + q;
    PaddedSlice(p, s, q);
    assert forall j | 0 <= j < |p| + start :: IsWhitespace(x[j]) by {
      forall j | 0 <= j < |p| + start ensures IsWhitespace(x[j]) {
        if j >= |p| { assert x[j] == s[j - |p|]; }
      }
    }
    assert forall j | |p| + end <= j < |x| :: IsWhitespace(x[j]) by {
      forall j | |p| + end <= j < |x| ensures IsWhitespace(x[j]) {
        if j < |p| + |s| { assert x[j] == s[j - |p|]; }
      }
    }
    assert x[|p| + start..|p| + end] == s[start..end];
    TrimIs(x, |p| + start, |p| + end);
  }

  /** Whitespace around a text never changes what `trim()` returns. */
  lemma TrimPadded(p: string, s: string, q: string)
    requires AllWhitespace(p) && AllWhitespace(q)
    ensures Trim(p + s + q) == Trim(s)
  {
    var start := TrimStartIndex(s, 0);
    var end := TrimEndIndex(s, start, |s|);
    if start < end {
      TrimPaddedSlice(p, s, q, start, end);
    } else {
      assert AllWhitespace(s);
      TrimPaddedBlank(p, s, q);
    }
  }

  /** A text that is already trimmed is its own `trim()`. */
  lemma TrimTrimmed(s: string)
    requires s == [] || (!IsWhitespace(s[0]) && !IsWhitespace(s[|s| - 1]))
    ensures Trim(s) == s
  {
    TrimIs(s, 0, |s|);
  }

  /** A text made only of whitespace trims to the empty text. */
  lemma TrimBlank(p: string)
    requires AllWhitespace(p)
    ensures Trim(p) == []
  {
    TrimIs(p, |p|, |p|);
  }

  // ---------------------------------------------------------------------------
  // Decimal numbers

  predicate IsDigit(c: char) { '0' <= c <= '9' }

  predicate AllDigits(s: string) {
    forall i | 0 <= i < |s| :: IsDigit(s[i])
  }

  function DigitValue(c: char): (d: nat)
    requires IsDigit(c)
    ensures d < 10
  {
    (c as int) - ('0' as int)
  }

  function DigitChar(d: nat): (c: char)
    requires d < 10
    ensures IsDigit(c) && DigitValue(c) == d
  {
    ('0' as int + d) as char
  }

  /** The value of a string of decimal digits, most significant first. */
  function DecimalValue(ds: string): nat
    requires AllDigits(ds)
  {
    if ds == [] then 0 else DecimalValue(ds[..|ds| - 1]) * 10 + DigitValue(ds[|ds| - 1])
  }

  /**
   * `String.toLongOrNull()` / `String.toIntOrNull()` in radix 10, for the
   * range [lo, hi] of the target type: an optional leading '-' or '+', then
   * one or more digits, and a value that fits the range; anything else is null.
   */
  function ParseDecimal(s: string, lo: int, hi: int): (r: Option<int>)
    ensures r.Some? ==> lo <= r.value <= hi
    ensures r.Some? ==> |s| > 0 && (s[0] == '-' || s[0] == '+' || IsDigit(s[0]))
    ensures r.Some? && s[0] != '-' ==> r.value >= 0
    ensures r.Some? && s[0] == '-' ==> r.value <= 0
    ensures r.Some? ==> IsDigit(s[|s| - 1])
  {
    if |s| == 0 then None
    else if s[0] < '0' && (|s| == 1 || (s[0] != '-' && s[0] != '+')) then None
    else
      var digits := if s[0] < '0' then s[1..] else s;
      if !AllDigits(digits) then None
      else
        var v: int := if s[0] == '-' then 0 - DecimalValue(digits) as int else DecimalValue(digits);
        if lo <= v <= hi then Some(v) else None
  }

  /** `String.toLongOrNull()`: a Long, from a text with no whitespace at either end, or null. */
  function ToLongOrNull(s: string): (r: Option<int>)
    ensures r.Some? ==> LONG_MIN <= r.value <= LONG_MAX
    ensures r.Some? ==> |s| > 0 && !IsWhitespace(s[0]) && !IsWhitespace(s[|s| - 1])
  {
    ParseDecimal(s, LONG_MIN, LONG_MAX)
  }

  /** `String.toIntOrNull()`: an Int, from a text with no whitespace at either end, or null. */
  function ToIntOrNull(s: string): (r: Option<int>)
    ensures r.Some? ==> INT_MIN <= r.value <= INT_MAX
    ensures r.Some? ==> |s| > 0 && !IsWhitespace(s[0]) && !IsWhitespace(s[|s| - 1])
  {
    ParseDecimal(s, INT_MIN, INT_MAX)
  }

  /** The digits of a natural number, as `Long.toString` prints them. */
  function NatToString(n: nat): (s: string)
    ensures |s| > 0 && AllDigits(s)
    ensures s[0] == '0' ==> n == 0
  {
    if n < 10 then [DigitChar(n)] else NatToString(n / 10) + [DigitChar(n % 10)]
  }

  /** `Long.toString()` / `Int.toString()` in radix 10. */
  function IntToString(n: int): (s: string)
    ensures |s| > 0
    ensures s[0] == '-' <==> n < 0
    ensures forall i | 0 < i < |s| :: IsDigit(s[i])
    ensures n >= 0 ==> IsDigit(s[0])
  {
    if n < 0 then "-" + NatToString(-n) else NatToString(n)
  }

  lemma {:induction false} NatToStringValue(n: nat)
    ensures DecimalValue(NatToString(n)) == n
  {
    if n >= 10 {
      var s := NatToString(n);
      NatToStringValue(n / 10);
      assert s[..|s| - 1] == NatToString(n / 10);
    }
  }

  /** A printed number has no whitespace to trim. */
  lemma PrintedIsTrimmed(n: int)
    ensures Trim(IntToString(n)) == IntToString(n)
  {
    var s := IntToString(n);
    assert IsDigit(s[|s| - 1]);
    assert s[0] == '-' || IsDigit(s[0]);
    TrimTrimmed(s);
  }

  /** Parsing what `toString` printed gives the number back, whenever it fits the range. */
  lemma ParsePrinted(n: int, lo: int, hi: int)
    requires lo <= n <= hi
    ensures ParseDecimal(IntToString(n), lo, hi) == Some(n)
  {
    var m := if n < 0 then -n else n;
    NatToStringValue(m);
    if n < 0 {
      assert IntToString(n)[1..] == NatToString(m);
    }
  }

  /** A number outside the range does not parse, however it is printed. */
  lemma ParseOutOfRange(n: int, lo: int, hi: int)
    requires n < lo || hi < n
    ensures ParseDecimal(IntToString(n), lo, hi) == None
  {
    var m := if n < 0 then -n else n;
    NatToStringValue(m);
    if n < 0 {
      assert IntToString(n)[1..] == NatToString(m);
    }
  }

  /** A string of digits has value zero exactly when every digit is '0'. */
  lemma {:induction false} DecimalValueZero(ds: string)
    requires AllDigits(ds)
    ensures DecimalValue(ds) == 0 <==> forall i | 0 <= i < |ds| :: ds[i] == '0'
  {
    if ds != [] {
      var init := ds[..|ds| - 1];
      DecimalValueZero(init);
      assert forall i | 0 <= i < |init| :: init[i] == ds[i];
    }
  }
}
