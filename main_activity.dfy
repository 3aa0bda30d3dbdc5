/**
 * The decision-making state of MainActivity: the ledger of frames waiting
 * for heading feedback (filled by the uploader's `onSent`, emptied by its
 * `onHeading`), the three-way direction derived from a heading, the
 * "speak only on change" bookkeeping, and the preference parsing for the
 * heading tolerance and the minimum send interval.
 *
 * The clock (`elapsedRealtime`) is an input; the arrow overlay, the info
 * text and the media players are not part of this model.
 */
module MainActivity {
  import opened KotlinText
  import Settings
  import WsUpload

  datatype Direction = Left | Forward | Right

  /** Kotlin's `coerceIn(lo, hi)`. */
  function CoerceIn(v: int, lo: int, hi: int): (r: int)
    requires lo <= hi
    ensures lo <= r <= hi
    ensures lo <= v <= hi ==> r == v
    ensures v < lo ==> r == lo
    ensures v > hi ==> r == hi
  {
    if v < lo then lo else if v > hi then hi else v
  }

  /** The tolerance in degrees: 90 degrees times the percentage, clamped to 0..40. */
  function ToleranceDegrees(pct: int): (tol: real)
    ensures 0.0 <= tol <= 36.0
  {
    90.0 * (CoerceIn(pct, 0, 40) as real) / 100.0
  }

  /**
   * `headingToDirection`: RIGHT up to 90 - tol, else LEFT from 90 + tol,
   * FORWARD strictly in between.
   */
  function HeadingToDirection(heading: real, pct: int): (d: Direction)
    ensures d == Right <==> heading <= 90.0 - ToleranceDegrees(pct)
    ensures d == Left <==> 90.0 - ToleranceDegrees(pct) < heading && 90.0 + ToleranceDegrees(pct) <= heading
    ensures d == Forward <==> 90.0 - ToleranceDegrees(pct) < heading < 90.0 + ToleranceDegrees(pct)
  {
    var tol := ToleranceDegrees(pct);
    if heading <= 90.0 - tol then Right
    else if heading >= 90.0 + tol then Left
    else Forward
  }

  /** The order of the directions along the heading axis. */
  function Rank(d: Direction): nat {
    match d
    case Right => 0
    case Forward => 1
    case Left => 2
  }

  /** Turning the heading further never moves the direction back: RIGHT, then FORWARD, then LEFT. */
  lemma DirectionMonotone(h1: real, h2: real, pct: int)
    requires h1 <= h2
    ensures Rank(HeadingToDirection(h1, pct)) <= Rank(HeadingToDirection(h2, pct))
  {
  }

  /** A wider tolerance keeps every FORWARD heading FORWARD. */
  lemma WiderToleranceKeepsForward(h: real, pct1: int, pct2: int)
    requires 0 <= pct1 <= pct2 <= 40
    requires HeadingToDirection(h, pct1) == Forward
    ensures HeadingToDirection(h, pct2) == Forward
  {
  }

  /** With no tolerance nothing is FORWARD, and a heading of exactly 90 is RIGHT. */
  lemma ZeroToleranceHasNoForward(h: real, pct: int)
    requires pct <= 0
    ensures HeadingToDirection(h, pct) != Forward
    ensures HeadingToDirection(90.0, pct) == Right
  {
  }

  /**
   * The `heading_tolerance_pct` preference as the preference listener and
   * `onResume` read it: parsed as an Int and clamped to 0..40, 10 when it
   * does not parse.
   */
  function TolerancePref(stored: Option<string>): (pct: int)
    ensures 0 <= pct <= 40
  {
    match stored
    case None => 10
    case Some(text) =>
      match ToIntOrNull(text)
      case None => 10
      case Some(v) => CoerceIn(v, 0, 40)
  }

  /** A stored number reads back as itself clamped to 0..40; text that is not a number reads as 10. */
  lemma TolerancePrefReads(v: int, junk: string)
    requires INT_MIN <= v <= INT_MAX
    requires ToIntOrNull(junk) == None
    ensures TolerancePref(Some(IntToString(v))) == CoerceIn(v, 0, 40)
    ensures TolerancePref(Some(junk)) == 10 && TolerancePref(None) == 10
  {
    ParsePrinted(v, INT_MIN, INT_MAX);
  }

  /** The tolerance as `onCreate` reads it: parsed, but not clamped. */
  function InitialTolerancePct(stored: Option<string>): (pct: int)
    ensures INT_MIN <= pct <= INT_MAX
  {
    match stored
    case None => 10
    case Some(text) => ToIntOrNull(text).GetOr(10)
  }

  /** `onCreate` reads a stored Int as itself, unclamped, and anything else as 10. */
  lemma InitialTolerancePctReads(v: int, junk: string)
    requires INT_MIN <= v <= INT_MAX
    requires ToIntOrNull(junk) == None
    ensures InitialTolerancePct(Some(IntToString(v))) == v
    ensures InitialTolerancePct(Some(junk)) == 10 && InitialTolerancePct(None) == 10
  {
    ParsePrinted(v, INT_MIN, INT_MAX);
  }

  /** The unclamped tolerance of `onCreate` gives the same directions as the clamped one. */
  lemma InitialToleranceSameDirections(h: real, stored: Option<string>)
    ensures HeadingToDirection(h, InitialTolerancePct(stored)) == HeadingToDirection(h, TolerancePref(stored))
  {
    assert ToleranceDegrees(InitialTolerancePct(stored)) == ToleranceDegrees(TolerancePref(stored));
  }

  // ---------------------------------------------------------------------------
  // The minimum send interval read back from the preferences

  /**
   * `min_interval_ms` as the preference listener and `onCreate` read it:
   * `toLongOrNull()` on the stored text without trimming it, 200 when that
   * is null.
   */
  function MinIntervalPrefAsWritten(stored: Option<string>): (v: int)
    ensures LONG_MIN <= v <= LONG_MAX
  {
    match stored
    case None => 200
    case Some(text) => ToLongOrNull(text).GetOr(200)
  }

  /**
   * A stored Long reads back as itself, negative ones included; text that
   * does not parse, among it every text with whitespace at either end,
   * reads as 200.
   */
  lemma MinIntervalPrefAsWrittenReads(v: int, junk: string)
    requires LONG_MIN <= v <= LONG_MAX
    requires ToLongOrNull(junk) == None
    ensures MinIntervalPrefAsWritten(Some(IntToString(v))) == v
    ensures MinIntervalPrefAsWritten(Some(junk)) == 200 && MinIntervalPrefAsWritten(None) == 200
  {
    ParsePrinted(v, LONG_MIN, LONG_MAX);
  }

  /** A stored text with whitespace at either end is read as 200, whatever number it holds. */
  lemma PaddedTextFallsBack(text: string)
    requires |text| > 0 && (IsWhitespace(text[0]) || IsWhitespace(text[|text| - 1]))
    ensures MinIntervalPrefAsWritten(Some(text)) == 200
  {
  }

  /**
   * The settings screen accepts " 500" (it trims before checking) and stores
   * it as typed; read back without trimming it does not parse, so the
   * uploader gets 200 ms instead of 500 ms.
   */
  lemma PaddedIntervalFallsBack()
    ensures Settings.AcceptsMinInterval(" 500")
    ensures MinIntervalPrefAsWritten(Some(" 500")) == 200
  {
    TrimIs(" 500", 1, 4);
    assert " 500"[1..4] == "500";
    assert "500"[..2] == "50" && "50"[..1] == "5";
    assert DecimalValue("500") == 500;
    assert ToLongOrNull(" 500") == None by {
      assert " 500"[0] == ' ';
    }
  }

  /**
   * Corrected read of `min_interval_ms`: trimmed first, the way the
   * validator reads it.
   */
  function MinIntervalPref(stored: Option<string>): (v: int)
    ensures LONG_MIN <= v <= LONG_MAX
  {
    match stored
    case None => 200
    case Some(text) => ToLongOrNull(Trim(text)).GetOr(200)
  }

  /** Every text the settings screen accepts is read back as the non-negative number it was accepted as. */
  lemma AcceptedIntervalApplied(text: string)
    requires Settings.AcceptsMinInterval(text)
    ensures MinIntervalPref(Some(text)) >= 0
    ensures ToLongOrNull(Trim(text)) == Some(MinIntervalPref(Some(text)))
  {
  }

  /** A whitespace-padded non-negative number is read back as that number. */
  lemma PaddedIntervalApplied(v: int, p: string, q: string)
    requires 0 <= v <= LONG_MAX
    requires AllWhitespace(p) && AllWhitespace(q)
    ensures MinIntervalPref(Some(p + IntToString(v) + q)) == v
  {
    TrimPadded(p, IntToString(v), q);
    PrintedIsTrimmed(v);
    ParsePrinted(v, LONG_MIN, LONG_MAX);
  }

  /**
   * The `min_interval_ms` branch of the preference listener as written: the
   * untrimmed read goes to the uploader, which ignores a negative value.
   */
  method ApplyMinIntervalPref(uploader: WsUpload.WsJpegUploader, stored: Option<string>)
    modifies uploader`minIntervalMs
    ensures var v := MinIntervalPrefAsWritten(stored);
            uploader.minIntervalMs == if v >= 0 then v else old(uploader.minIntervalMs)
  {
    uploader.UpdateMinIntervalMs(MinIntervalPrefAsWritten(stored));
  }

  /** Corrected listener branch: the trimmed read goes to the uploader. */
  method ApplyMinIntervalPrefCorrected(uploader: WsUpload.WsJpegUploader, stored: Option<string>)
    modifies uploader`minIntervalMs
    ensures var v := MinIntervalPref(stored);
            uploader.minIntervalMs == if v >= 0 then v else old(uploader.minIntervalMs)
    ensures stored.Some? && Settings.AcceptsMinInterval(stored.value) ==>
              uploader.minIntervalMs == MinIntervalPref(stored) >= 0
  {
    uploader.UpdateMinIntervalMs(MinIntervalPref(stored));
    if stored.Some? && Settings.AcceptsMinInterval(stored.value) {
      AcceptedIntervalApplied(stored.value);
    }
  }

  // ---------------------------------------------------------------------------
  // The activity's own state

  class MainState {
    var pendingFrames: map<int, int>
    var lastHeadingVal: Option<real>
    var lastLatencyMs: Option<int>
    var lastSentFrameId: Option<int>
    var headingTolerancePct: int
    var lastSpokenDir: Option<Direction>

    /** The fields as `onCreate` leaves them, given the stored tolerance text. */
    constructor (storedTolerance: Option<string>)
      ensures pendingFrames == map[] && lastHeadingVal == None && lastLatencyMs == None
      ensures lastSentFrameId == None && lastSpokenDir == None
      ensures headingTolerancePct == InitialTolerancePct(storedTolerance)
    {
      pendingFrames := map[];
      lastHeadingVal := None;
      lastLatencyMs := None;
      lastSentFrameId := None;
      headingTolerancePct := InitialTolerancePct(storedTolerance);
      lastSpokenDir := None;
    }

    /** The `heading_tolerance_pct` branch of the preference listener (and `onResume`). */
    method ReloadTolerance(stored: Option<string>)
      modifies this`headingTolerancePct
      ensures headingTolerancePct == TolerancePref(stored)
      ensures 0 <= headingTolerancePct <= 40
    {
      headingTolerancePct := TolerancePref(stored);
    }

    /** The `onSent` callback: record the send time of the frame and remember its id. */
    method OnSent(sentAt: int, frameId: int)
      modifies this`pendingFrames, this`lastSentFrameId
      ensures pendingFrames == old(pendingFrames)[frameId := sentAt]
      ensures pendingFrames.Keys == old(pendingFrames).Keys + {frameId}
      ensures forall k | k in old(pendingFrames) && k != frameId :: pendingFrames[k] == old(pendingFrames)[k]
      ensures lastSentFrameId == Some(frameId)
    {
      pendingFrames := pendingFrames[frameId := sentAt];
      lastSentFrameId := Some(frameId);
    }

    /**
     * `speakDirectionIfChanged`: nothing when the direction is the one last
     * spoken; otherwise its player is restarted (`played`) and it becomes
     * the last spoken direction.
     */
    method SpeakDirectionIfChanged(dir: Direction) returns (played: bool)
      modifies this`lastSpokenDir
      ensures played <==> old(lastSpokenDir) != Some(dir)
      ensures lastSpokenDir == Some(dir)
    {
      if lastSpokenDir == Some(dir) {
        return false;
      }
      lastSpokenDir := Some(dir);
      return true;
    }

    /**
     * The `onHeading` callback at clock reading `now`. A frame id with a
     * ledger entry takes that entry out and sets the latency to the time
     * since the frame was sent; an absent or unknown id leaves the ledger and
     * the latency alone. `shown` is the latency displayed (None is "—").
     */
    method OnHeading(heading: real, frameId: Option<int>, now: int)
      returns (shown: Option<int>, dir: Direction, played: bool)
      modifies this`pendingFrames, this`lastLatencyMs, this`lastHeadingVal, this`lastSpokenDir
      ensures lastHeadingVal == Some(heading)
      ensures frameId.Some? && frameId.value in old(pendingFrames) ==>
                && pendingFrames == old(pendingFrames) - {frameId.value}
                && lastLatencyMs == Some(now - old(pendingFrames)[frameId.value])
      ensures !(frameId.Some? && frameId.value in old(pendingFrames)) ==>
                pendingFrames == old(pendingFrames) && lastLatencyMs == old(lastLatencyMs)
      ensures shown == lastLatencyMs
      ensures dir == HeadingToDirection(heading, headingTolerancePct)
      ensures played <==> old(lastSpokenDir) != Some(dir)
      ensures lastSpokenDir == Some(dir)
    {
      lastHeadingVal := Some(heading);
      if frameId.Some? && frameId.value in pendingFrames {
        var sentAt := pendingFrames[frameId.value];
        pendingFrames := pendingFrames - {frameId.value};
        lastLatencyMs := Some(now - sentAt);
      }
      shown := lastLatencyMs;
      dir := HeadingToDirection(heading, headingTolerancePct);
      played := SpeakDirectionIfChanged(dir);
    }
  }

  /**
   * A response for a recorded frame yields the latency since its send and
   * takes it out of the ledger; a second response for the same id finds no
   * entry and shows the same latency again.
   */
  method RepeatedResponse(sentAt: int, frameId: int, heading: real, now: int, later: int)
    returns (first: Option<int>, second: Option<int>, pendingAfter: map<int, int>)
    ensures first == Some(now - sentAt) && second == first
    ensures frameId !in pendingAfter
  {
    var state := new MainState(None);
    state.OnSent(sentAt, frameId);
    var dir, played;
    first, dir, played := state.OnHeading(heading, Some(frameId), now);
    second, dir, played := state.OnHeading(heading, Some(frameId), later);
    pendingAfter := state.pendingFrames;
  }

  /** A response for an id that was never recorded is handled, with the latency shown as unknown. */
  method UnknownResponse(frameId: int, heading: real, now: int)
    returns (shown: Option<int>, dir: Direction)
    ensures shown == None
    ensures dir == HeadingToDirection(heading, 10)
  {
    var state := new MainState(None);
    var played;
    shown, dir, played := state.OnHeading(heading, Some(frameId), now);
  }
}
