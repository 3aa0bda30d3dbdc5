/**
 * Scenarios that run the uploader and the activity's feedback handling
 * together, with the default frame size limit of 1 MiB.
 */
module Pipeline {
  import opened KotlinText
  import opened WsUpload
  import opened MainActivity

  const MAX_FRAME_BYTES := 1024 * 1024

  /**
   * Two frames submitted back to back while no socket exists: the first
   * opens one socket and schedules a send, the second finds the send in
   * flight and opens no second socket.
   */
  method BackToBackWhileDisconnected(jpeg1: seq<Byte>, jpeg2: seq<Byte>, minIntervalMs: int, now: int)
    returns (first: SubmitOutcome, second: SubmitOutcome, socketsOpened: nat)
    requires 0 < |jpeg1| <= MAX_FRAME_BYTES && 0 < |jpeg2| <= MAX_FRAME_BYTES
    requires now >= minIntervalMs
    ensures first == Scheduled && second == Busy
    ensures socketsOpened == 1
  {
    var uploader := new WsJpegUploader(minIntervalMs, 10, "", MAX_FRAME_BYTES);
    first := uploader.Submit(jpeg1, "", "", "", now);
    second := uploader.Submit(jpeg2, "", "", "", now);
    socketsOpened := uploader.socketsOpened;
  }

  /**
   * A fresh uploader with the default 200 ms interval takes one frame at
   * `submittedAt`: the frame is latest and its send task is queued.
   */
  method FrameQueued(jpeg: seq<Byte>, submittedAt: int) returns (uploader: WsJpegUploader)
    requires 0 < |jpeg| <= MAX_FRAME_BYTES
    requires submittedAt >= 200
    ensures fresh(uploader) && uploader.Valid()
    ensures uploader.tasks == [SendFrame(0, "", "", "")] && uploader.latest == Some(jpeg)
    ensures uploader.sending && uploader.pendingSince == submittedAt && uploader.frameCounter == 0
    ensures uploader.minIntervalMs == 200 && uploader.maxFrameBytes == MAX_FRAME_BYTES
    ensures uploader.lastSendSpacingAt == 0
  {
    uploader := new WsJpegUploader(200, 10, "", MAX_FRAME_BYTES);
    var outcome := uploader.Submit(jpeg, "", "", "", submittedAt);
    assert outcome == Scheduled;
  }

  /** Then the queued send runs; its binary send is accepted or refused at `sentAt`. */
  method SubmitAndRun(jpeg: seq<Byte>, submittedAt: int, sentAt: int, binaryAccepted: bool)
    returns (uploader: WsJpegUploader, notice: Option<SentNotice>)
    requires 0 < |jpeg| <= MAX_FRAME_BYTES
    requires submittedAt >= 200 && sentAt >= submittedAt
    ensures fresh(uploader) && uploader.Valid()
    ensures notice == if binaryAccepted then Some(SentNotice(sentAt, 1)) else None
    ensures !uploader.sending && uploader.minIntervalMs == 200 && uploader.maxFrameBytes == MAX_FRAME_BYTES
    ensures uploader.lastSendSpacingAt == if binaryAccepted then sentAt else 0
  {
    uploader := FrameQueued(jpeg, submittedAt);
    notice := uploader.RunNext(0, sentAt, binaryAccepted);
  }

  /**
   * A frame goes out, its send is accepted at `sentAt`, the server answers
   * with a heading for frame id 1, and the activity shows `now - sentAt` as
   * the latency and the direction for that heading.
   */
  method RoundTrip(jpeg: seq<Byte>, submittedAt: int, sentAt: int, heading: real, now: int)
    returns (notice: Option<SentNotice>, shown: Option<int>, dir: Direction)
    requires 0 < |jpeg| <= MAX_FRAME_BYTES
    requires submittedAt >= 200 && sentAt >= submittedAt
    ensures notice == Some(SentNotice(sentAt, 1))
    ensures shown == Some(now - sentAt)
    ensures dir == HeadingToDirection(heading, 10)
  {
    var uploader;
    uploader, notice := SubmitAndRun(jpeg, submittedAt, sentAt, true);
    var state := new MainState(None);
    state.OnSent(notice.value.sentAt, notice.value.frameId);
    var feedback := OnMessage(Inbound(Number(heading), Number(1)));
    var played;
    shown, dir, played := state.OnHeading(feedback.value.heading, feedback.value.frameId, now);
  }

  /**
   * A frame whose binary send is refused leaves no ledger entry, so the
   * response to it shows no latency, and the throttle does not move: the
   * next frame may go out at once.
   */
  method RefusedSend(jpeg: seq<Byte>, submittedAt: int, heading: real, now: int)
    returns (notice: Option<SentNotice>, shown: Option<int>, next: SubmitOutcome)
    requires 0 < |jpeg| <= MAX_FRAME_BYTES
    requires submittedAt >= 200
    ensures notice == None && shown == None
    ensures next == Scheduled
  {
    var uploader;
    uploader, notice := SubmitAndRun(jpeg, submittedAt, submittedAt, false);
    var state := new MainState(None);
    var feedback := OnMessage(Inbound(Number(heading), Number(1)));
    var dir, played;
    shown, dir, played := state.OnHeading(feedback.value.heading, feedback.value.frameId, now);
    next := uploader.Submit(jpeg, "", "", "", submittedAt);
  }

  /**
   * A socket that fails `failures` times in a row, each failure followed by
   * the queued reconnect step, has been opened `failures + 1` times: one
   * attempt per failure, never a second one while a connection is pending.
   */
  method RetryAfterFailures(failures: nat) returns (attempts: nat)
    ensures attempts == failures + 1
  {
    var uploader := new WsJpegUploader(200, 10, "", MAX_FRAME_BYTES);
    uploader.SendJson("{}");
    var i := 0;
    while i < failures
      invariant i <= failures
      invariant uploader.Valid()
      invariant uploader.tasks == [] && uploader.connectingOrOpen
      invariant uploader.socketsOpened == i + 1
    {
      uploader.OnFailure();
      var notice := uploader.RunNext(0, 0, false);
      i := i + 1;
    }
    attempts := uploader.socketsOpened;
  }
}
