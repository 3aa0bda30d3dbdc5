/**
 * The settings screen: the validator that the `min_interval_ms` preference
 * runs on every edit before the new text is stored.
 */
module Settings {
  import opened KotlinText

  /**
   * The texts the validator lets through, described without the parser: an
   * optional '+' and one or more digits whose value fits a Long, or a '-'
   * followed only by zeros (a negative zero is still zero).
   */
  predicate NonNegativeLongText(t: string) {
    && |t| > 0
    && if t[0] == '-' then
         |t| > 1 && forall i | 1 <= i < |t| :: t[i] == '0'
       else
         var ds := if t[0] == '+' then t[1..] else t;
         |ds| > 0 && AllDigits(ds) && DecimalValue(ds) <= LONG_MAX
  }

  /**
   * The preference-change listener of `min_interval_ms`: the new text is
   * trimmed and parsed as a Long; null or a negative value blocks the change.
   */
  function AcceptsMinInterval(newValue: string): (ok: bool)
    ensures ok ==> |Trim(newValue)| > 0 && IsDigit(Trim(newValue)[|Trim(newValue)| - 1])
    ensures ok ==> !AllWhitespace(newValue)
  {
    var v := ToLongOrNull(Trim(newValue));
    if v == None || v.value < 0 then false else true
  }

  /** The validator accepts exactly the texts that trim to a non-negative Long. */
  lemma AcceptsExactly(newValue: string)
    ensures AcceptsMinInterval(newValue) <==> NonNegativeLongText(Trim(newValue))
  {
    var t := Trim(newValue);
    if |t| > 1 && t[0] == '-' && AllDigits(t[1..]) {
      DecimalValueZero(t[1..]);
    }
  }

  /** Every non-negative Long, printed and padded with whitespace, is accepted. */
  lemma AcceptsNonNegative(v: int, p: string, q: string)
    requires 0 <= v <= LONG_MAX
    requires AllWhitespace(p) && AllWhitespace(q)
    ensures AcceptsMinInterval(p + IntToString(v) + q)
  {
    var s := IntToString(v);
    TrimPadded(p, s, q);
    PrintedIsTrimmed(v);
    ParsePrinted(v, LONG_MIN, LONG_MAX);
    assert ToLongOrNull(Trim(p + s + q)) == Some(v);
  }

  /** A negative number is rejected, padded or not. */
  lemma RejectsNegative(v: int, p: string, q: string)
    requires v < 0
    requires AllWhitespace(p) && AllWhitespace(q)
    ensures !AcceptsMinInterval(p + IntToString(v) + q)
  {
    var s := IntToString(v);
    TrimPadded(p, s, q);
    PrintedIsTrimmed(v);
    if v < LONG_MIN {
      ParseOutOfRange(v, LONG_MIN, LONG_MAX);
    } else {
      ParsePrinted(v, LONG_MIN, LONG_MAX);
    }
  }

  /** A number beyond the Long range makes `toLongOrNull` null, so it is rejected. */
  lemma RejectsBeyondLong(v: int)
    requires v > LONG_MAX
    ensures !AcceptsMinInterval(IntToString(v))
  {
    PrintedIsTrimmed(v);
    ParseOutOfRange(v, LONG_MIN, LONG_MAX);
  }

  /** The empty text, and any text of only whitespace, is rejected. */
  lemma RejectsBlank(p: string)
    requires AllWhitespace(p)
    ensures !AcceptsMinInterval(p)
  {
    TrimBlank(p);
  }

  /** Leading and trailing whitespace does not change the decision. */
  lemma PaddingIrrelevant(p: string, s: string, q: string)
    requires AllWhitespace(p) && AllWhitespace(q)
    ensures AcceptsMinInterval(p + s + q) == AcceptsMinInterval(s)
  {
    TrimPadded(p, s, q);
  }

  /** A zero minimum interval is allowed, and so are the sign forms "+0" and "-0". */
  lemma AcceptsZero()
    ensures AcceptsMinInterval("0")
    ensures AcceptsMinInterval("+0") && AcceptsMinInterval("-0")
    ensures !AcceptsMinInterval("-1") && !AcceptsMinInterval("") && !AcceptsMinInterval("1.5")
  {
    TrimTrimmed("0");
    TrimTrimmed("+0");
    TrimTrimmed("-0");
    TrimTrimmed("-1");
    TrimTrimmed("1.5");
    assert DecimalValue("0") == 0;
    assert "+0"[1..] == "0";
    assert "-0"[1..] == "0";
    assert "-1"[1..] == "1";
    assert DecimalValue("1") == 1;
    assert !IsDigit("1.5"[1]);
  }
}
