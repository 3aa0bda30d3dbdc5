/**
 * The WebSocket frame uploader (class WsJpegUploader): a rate-limited,
 * single-flight sender of camera frames. Each frame goes out as a
 * `frame_meta` text message carrying a fresh frame id, followed by the JPEG
 * bytes as one binary message.
 *
 * The clock, the socket and the executor are explicit here: `Submit` is the
 * part of `trySend` that runs on the caller's thread and gets the clock
 * reading `now`; the executor is the queue `tasks`, and `RunNext` runs its
 * head; every socket `newWebSocket` creates is known by its number, and the
 * transport is the ghost log of every `send` call with the socket it was made
 * on. The result of the binary `send` is an input of `RunNext`.
 */
module WsUpload {
  import opened KotlinText

  /** The `frame_meta` text message sent just before a frame. */
  datatype FrameMeta = FrameMeta(
    frameId: int,
    ts: int,
    latencyMs: string,
    longitude: string,
    latitude: string,
    selectedModel: string)

  /** What the uploader passes to a socket's `send`. */
  datatype Outbound =
    | Meta(meta: FrameMeta)
    | Setting(selectedModel: string)
    | Json(text: string)
    | Jpeg(bytes: seq<Byte>)

  /** One call of `send` on the socket with number `socket`. */
  datatype Sent = Sent(socket: nat, msg: Outbound)

  /** Work waiting on the uploader's single-thread executor. */
  datatype Task =
    | SendFrame(socket: nat, latencyMs: string, longitude: string, latitude: string)
    | Reconnect

  /**
   * Which return of `trySend` was taken (the source returns nothing; the
   * model names the exit so that the contracts can speak of it).
   */
  datatype SubmitOutcome = InvalidSize | Throttled | NoSocket | Busy | Scheduled

  /**
   * A binary send that was accepted: its `sentAt` clock reading and the
   * minimum interval in force when its frame passed the throttle.
   */
  datatype Accepted = Accepted(sentAt: int, interval: int)

  /** The arguments of the `onSent` callback. */
  datatype SentNotice = SentNotice(sentAt: int, frameId: int)

  /** A JSON field of an inbound message, as `org.json` finds it. */
  datatype Field<T> = Absent | Number(n: T) | NotNumber

  /** An inbound text message: a JSON object with its two fields of interest, or no JSON object at all. */
  datatype Inbound = Inbound(heading: Field<real>, frameId: Field<int>) | Unparsable

  /** The arguments of the `onHeading` callback. */
  datatype HeadingFeedback = HeadingFeedback(heading: real, frameId: Option<int>)

  /** The number of frame sends waiting in an executor queue. */
  function CountSends(q: seq<Task>): nat {
    if q == [] then 0 else (if q[0].SendFrame? then 1 else 0) + CountSends(q[1..])
  }

  lemma {:induction false} CountSendsAppend(q: seq<Task>, t: Task)
    ensures CountSends(q + [t]) == CountSends(q) + (if t.SendFrame? then 1 else 0)
  {
    if q != [] {
      assert (q + [t])[1..] == q[1..] + [t];
      CountSendsAppend(q[1..], t);
    }
  }

  /**
   * Every `frame_meta` is immediately followed by its frame on the same
   * socket, and every frame immediately follows a `frame_meta`.
   */
  ghost predicate FramesPaired(log: seq<Sent>) {
    && (forall i | 0 <= i < |log| && log[i].msg.Meta? ::
          i + 1 < |log| && log[i + 1].msg.Jpeg? && log[i + 1].socket == log[i].socket)
    && (forall i | 0 <= i < |log| && log[i].msg.Jpeg? :: 0 < i && log[i - 1].msg.Meta?)
  }

  /** Frame ids appear in the log in strictly increasing order. */
  ghost predicate IdsIncreasing(log: seq<Sent>) {
    forall i, j | 0 <= i < j < |log| && log[i].msg.Meta? && log[j].msg.Meta? ::
      log[i].msg.meta.frameId < log[j].msg.meta.frameId
  }

  /** Every frame id in the log lies in 1..n. */
  ghost predicate IdsWithin(log: seq<Sent>, n: int) {
    forall i | 0 <= i < |log| && log[i].msg.Meta? :: 1 <= log[i].msg.meta.frameId <= n
  }

  /** The frame log is well formed and every id so far is at most `counter`. */
  ghost predicate FrameLog(log: seq<Sent>, counter: int) {
    FramesPaired(log) && IdsIncreasing(log) && IdsWithin(log, counter)
  }

  /** A meta/frame pair with the next id keeps the frame log well formed. */
  lemma AppendFramePair(log: seq<Sent>, counter: int, socket: nat, meta: FrameMeta, bytes: seq<Byte>)
    requires FrameLog(log, counter)
    requires meta.frameId == counter + 1 && counter >= 0
    ensures FrameLog(log + [Sent(socket, Meta(meta)), Sent(socket, Jpeg(bytes))], counter + 1)
  {
    var log' := log + [Sent(socket, Meta(meta)), Sent(socket, Jpeg(bytes))];
    assert forall i | 0 <= i < |log| :: log'[i] == log[i];
    assert log'[|log|].msg.Meta? && log'[|log| + 1].msg.Jpeg?;
    forall i | 0 <= i < |log'| && log'[i].msg.Jpeg?
      ensures 0 < i && log'[i - 1].msg.Meta?
    {
      if i < |log| {
        assert log[i].msg.Jpeg?;
      }
    }
  }

  /** A text message other than `frame_meta` keeps the frame log well formed. */
  lemma AppendText(log: seq<Sent>, counter: int, s: Sent)
    requires FrameLog(log, counter)
    requires s.msg.Setting? || s.msg.Json?
    ensures FrameLog(log + [s], counter)
  {
    var log' := log + [s];
    assert forall i | 0 <= i < |log| :: log'[i] == log[i];
    forall i | 0 <= i < |log| && log[i].msg.Meta?
      ensures i + 1 < |log|
    {
    }
  }

  /** The throttle's reference time after the accepted sends of `log`: 0 before the first. */
  function LastSentAt(log: seq<Accepted>): int {
    if log == [] then 0 else log[|log| - 1].sentAt
  }

  /** Each accepted send is at least its interval after the one before it (after time 0 for the first). */
  ghost predicate SpacedSends(log: seq<Accepted>) {
    forall i | 0 <= i < |log| :: log[i].sentAt - LastSentAt(log[..i]) >= log[i].interval
  }

  /** An accepted send that keeps its interval after the last one keeps the log spaced. */
  lemma SpacedSendsAppend(log: seq<Accepted>, a: Accepted)
    requires SpacedSends(log)
    requires a.sentAt - LastSentAt(log) >= a.interval
    ensures SpacedSends(log + [a])
  {
    var log' := log + [a];
    forall i | 0 <= i < |log'|
      ensures log'[i].sentAt - LastSentAt(log'[..i]) >= log'[i].interval
    {
      assert log'[..i] == if i < |log| then log[..i] else log;
    }
  }

  /**
   * With every interval at least `gap >= 0`, any two accepted sends are at
   * least `gap` apart: the throttle holds across the whole log, not only
   * between neighbours.
   */
  lemma {:induction false} SendsApart(log: seq<Accepted>, gap: int, i: nat, j: nat)
    requires SpacedSends(log)
    requires forall k | 0 <= k < |log| :: log[k].interval >= gap
    requires 0 <= gap && i < j < |log|
    ensures log[j].sentAt - log[i].sentAt >= gap
    decreases j - i
  {
    assert log[j].sentAt - LastSentAt(log[..j]) >= log[j].interval;
    assert LastSentAt(log[..j]) == log[j - 1].sentAt;
    if i < j - 1 {
      SendsApart(log, gap, i, j - 1);
    }
  }

  /**
   * The text-message handler of the socket listener: a message with a
   * numeric `heading` is reported, with its `frame_id` if it has one
   * (`optLong` reads a non-numeric id as 0); a message without a heading,
   * with a non-numeric heading, or that is not a JSON object, is ignored.
   */
  function OnMessage(m: Inbound): (r: Option<HeadingFeedback>)
    ensures r.Some? <==> m.Inbound? && m.heading.Number?
    ensures r.Some? ==> r.value.heading == m.heading.n
    ensures r.Some? ==> (r.value.frameId.None? <==> m.frameId.Absent?)
    ensures r.Some? && m.frameId.Number? ==> r.value.frameId == Some(m.frameId.n)
    ensures r.Some? && m.frameId.NotNumber? ==> r.value.frameId == Some(0)
  {
    match m
    case Unparsable => None
    case Inbound(heading, frameId) =>
      match heading
      case Number(h) =>
        var fid := match frameId
          case Absent => None
          case Number(n) => Some(n)
          case NotNumber => Some(0);
        Some(HeadingFeedback(h, fid))
      case _ => None
  }

  class WsJpegUploader {
    const maxFrameBytes: int
    var ws: Option<nat>
    var socketsOpened: nat
    var connectingOrOpen: bool
    var sending: bool
    var latest: Option<seq<Byte>>
    var lastSendSpacingAt: int
    var frameCounter: int
    var minIntervalMs: int
    var headingTolerancePct: int
    var selectedModel: string
    var tasks: seq<Task>
    ghost var transport: seq<Sent>
    // the clock reading and the interval in force when the queued frame passed the throttle
    ghost var pendingSince: int
    ghost var pendingInterval: int
    ghost var accepted: seq<Accepted>

    ghost predicate Valid()
      reads this
    {
      // `ws` is the last socket created, and there is one once a connect began
      && (ws.None? <==> socketsOpened == 0)
      && (ws.Some? ==> ws.value == socketsOpened - 1)
      && (connectingOrOpen ==> ws.Some?)
      // single flight: `sending` is set exactly while a frame send is queued
      && CountSends(tasks) == (if sending then 1 else 0)
      && (forall i | 0 <= i < |tasks| && tasks[i].SendFrame? :: tasks[i].socket < socketsOpened)
      && (latest.Some? ==> 0 < |latest.value| <= maxFrameBytes)
      && frameCounter >= 0
      && FrameLog(transport, frameCounter)
      && (forall i | 0 <= i < |transport| :: transport[i].socket < socketsOpened)
      // the throttle: `lastSendSpacingAt` is the last accepted send, accepted
      // sends are spaced, and a queued frame passed the throttle against it
      && lastSendSpacingAt == LastSentAt(accepted)
      && SpacedSends(accepted)
      && (sending ==> pendingSince - lastSendSpacingAt >= pendingInterval)
    }

    constructor (minIntervalMs: int, headingTolerancePct: int, selectedModel: string, maxFrameBytes: int)
      ensures Valid()
      ensures this.minIntervalMs == minIntervalMs && this.headingTolerancePct == headingTolerancePct
      ensures this.selectedModel == selectedModel && this.maxFrameBytes == maxFrameBytes
      ensures ws == None && socketsOpened == 0 && !connectingOrOpen && !sending && latest == None
      ensures lastSendSpacingAt == 0 && frameCounter == 0 && tasks == [] && transport == []
      ensures accepted == []
    {
      this.maxFrameBytes := maxFrameBytes;
      this.minIntervalMs := minIntervalMs;
      this.headingTolerancePct := headingTolerancePct;
      this.selectedModel := selectedModel;
      ws := None;
      socketsOpened := 0;
      connectingOrOpen := false;
      sending := false;
      latest := None;
      lastSendSpacingAt := 0;
      frameCounter := 0;
      tasks := [];
      transport := [];
      pendingSince := 0;
      pendingInterval := 0;
      accepted := [];
    }

    /** `updateMinIntervalMs`: a negative value is ignored. */
    method UpdateMinIntervalMs(value: int)
      modifies this`minIntervalMs
      ensures minIntervalMs == if value >= 0 then value else old(minIntervalMs)
    {
      if value >= 0 {
        minIntervalMs := value;
      }
    }

    /** `updateHeadingTolerance`: a negative value is ignored. */
    method UpdateHeadingTolerance(value: int)
      modifies this`headingTolerancePct
      ensures headingTolerancePct == if value >= 0 then value else old(headingTolerancePct)
    {
      if value >= 0 {
        headingTolerancePct := value;
      }
    }

    /**
     * `ensureConnected`: does nothing while a connection is being made or is
     * open; otherwise raises the flag and creates a new socket, which becomes `ws`.
     */
    method EnsureConnected()
      requires Valid()
      modifies this`connectingOrOpen, this`ws, this`socketsOpened
      ensures Valid()
      ensures connectingOrOpen && ws.Some?
      ensures old(connectingOrOpen) ==> ws == old(ws) && socketsOpened == old(socketsOpened)
      ensures !old(connectingOrOpen) ==> ws == Some(old(socketsOpened)) && socketsOpened == old(socketsOpened) + 1
    {
      if connectingOrOpen {
        return;
      }
      connectingOrOpen := true;
      ws := Some(socketsOpened);
      socketsOpened := socketsOpened + 1;
    }

    /** `onFailure`: the flag drops and one reconnect is queued on the executor. */
    method OnFailure()
      requires Valid()
      modifies this`connectingOrOpen, this`tasks
      ensures Valid()
      ensures !connectingOrOpen && tasks == old(tasks) + [Reconnect]
    {
      connectingOrOpen := false;
      CountSendsAppend(tasks, Reconnect);
      tasks := tasks + [Reconnect];
    }

    /** `onClosed`: the flag drops; nothing is scheduled. */
    method OnClosed()
      requires Valid()
      modifies this`connectingOrOpen
      ensures Valid()
      ensures !connectingOrOpen
    {
      connectingOrOpen := false;
    }

    /** `sendJson` and the send in `updateModel`: connect if needed, then send on `ws`. */
    method SendText(msg: Outbound)
      requires Valid()
      requires msg.Setting? || msg.Json?
      modifies this`connectingOrOpen, this`ws, this`socketsOpened, this`transport
      ensures Valid()
      ensures connectingOrOpen && ws.Some?
      ensures old(connectingOrOpen) ==> ws == old(ws) && socketsOpened == old(socketsOpened)
      ensures !old(connectingOrOpen) ==> ws == Some(old(socketsOpened)) && socketsOpened == old(socketsOpened) + 1
      ensures transport == old(transport) + [Sent(ws.value, msg)]
    {
      EnsureConnected();
      if ws.Some? {
        AppendText(transport, frameCounter, Sent(ws.value, msg));
        transport := transport + [Sent(ws.value, msg)];
      }
    }

    /** `sendJson`: an arbitrary JSON text (location telemetry). */
    method SendJson(json: string)
      requires Valid()
      modifies this`connectingOrOpen, this`ws, this`socketsOpened, this`transport
      ensures Valid()
      ensures connectingOrOpen && ws.Some?
      ensures old(connectingOrOpen) ==> ws == old(ws) && socketsOpened == old(socketsOpened)
      ensures !old(connectingOrOpen) ==> ws == Some(old(socketsOpened)) && socketsOpened == old(socketsOpened) + 1
      ensures transport == old(transport) + [Sent(ws.value, Json(json))]
    {
      SendText(Json(json));
    }

    /** `updateModel`: remember the model and announce it in a `Setting` message. */
    method UpdateModel(value: string)
      requires Valid()
      modifies this`selectedModel, this`connectingOrOpen, this`ws, this`socketsOpened, this`transport
      ensures Valid()
      ensures selectedModel == value
      ensures connectingOrOpen && ws.Some?
      ensures old(connectingOrOpen) ==> ws == old(ws) && socketsOpened == old(socketsOpened)
      ensures !old(connectingOrOpen) ==> ws == Some(old(socketsOpened)) && socketsOpened == old(socketsOpened) + 1
      ensures transport == old(transport) + [Sent(ws.value, Setting(value))]
    {
      selectedModel := value;
      SendText(Setting(value));
    }

    /**
     * The caller-thread part of `trySend(jpeg, latency, longitude, latitude)`,
     * with `now` the clock reading. The checks run in the source's order; a
     * frame that passes the size check becomes `latest` even when a later
     * check drops it.
     */
    method Submit(jpeg: seq<Byte>, latencyMs: string, longitude: string, latitude: string, now: int)
      returns (outcome: SubmitOutcome)
      requires Valid()
      modifies this`latest, this`connectingOrOpen, this`ws, this`socketsOpened, this`sending, this`tasks,
               this`pendingSince, this`pendingInterval
      ensures Valid()
      // 1. empty or oversized: no change at all
      ensures outcome == InvalidSize <==> |jpeg| == 0 || |jpeg| > maxFrameBytes
      ensures outcome == InvalidSize ==> unchanged(this)
      ensures outcome != InvalidSize ==> latest == Some(jpeg)
      // 2. throttled: no connect, nothing scheduled
      ensures outcome == Throttled <==>
                outcome != InvalidSize && now - lastSendSpacingAt < minIntervalMs
      ensures outcome == Throttled ==>
                unchanged(this`connectingOrOpen, this`ws, this`socketsOpened, this`sending, this`tasks)
      // past the throttle, ensureConnected has run
      ensures outcome in {Busy, Scheduled} ==> connectingOrOpen && ws.Some?
      ensures outcome in {Busy, Scheduled} && old(connectingOrOpen) ==>
                ws == old(ws) && socketsOpened == old(socketsOpened)
      ensures outcome in {Busy, Scheduled} && !old(connectingOrOpen) ==>
                ws == Some(old(socketsOpened)) && socketsOpened == old(socketsOpened) + 1
      // 3. the socket is there once ensureConnected has run
      ensures outcome != NoSocket
      // 4. single flight
      ensures outcome == Busy <==> outcome !in {InvalidSize, Throttled} && old(sending)
      ensures outcome == Scheduled ==>
                sending && tasks == old(tasks) + [SendFrame(ws.value, latencyMs, longitude, latitude)]
      ensures outcome != Scheduled ==> sending == old(sending) && tasks == old(tasks)
      ensures outcome == Scheduled ==> pendingSince == now && pendingInterval == minIntervalMs
      ensures outcome != Scheduled ==> unchanged(this`pendingSince, this`pendingInterval)
    {
      if |jpeg| == 0 || |jpeg| > maxFrameBytes {
        return InvalidSize;
      }
      latest := Some(jpeg);
      if now - lastSendSpacingAt < minIntervalMs {
        return Throttled;
      }
      outcome := ConnectAndSchedule(latencyMs, longitude, latitude, now);
    }

    /** The part of `trySend` past the throttle: connect, then schedule unless a send is in flight. */
    method ConnectAndSchedule(latencyMs: string, longitude: string, latitude: string, now: int)
      returns (outcome: SubmitOutcome)
      requires Valid()
      requires now - lastSendSpacingAt >= minIntervalMs
      modifies this`connectingOrOpen, this`ws, this`socketsOpened, this`sending, this`tasks,
               this`pendingSince, this`pendingInterval
      ensures Valid()
      ensures outcome in {Busy, Scheduled}
      ensures connectingOrOpen && ws.Some?
      ensures old(connectingOrOpen) ==> ws == old(ws) && socketsOpened == old(socketsOpened)
      ensures !old(connectingOrOpen) ==> ws == Some(old(socketsOpened)) && socketsOpened == old(socketsOpened) + 1
      ensures outcome == Busy <==> old(sending)
      ensures outcome == Scheduled ==>
                sending && tasks == old(tasks) + [SendFrame(ws.value, latencyMs, longitude, latitude)]
                && pendingSince == now && pendingInterval == minIntervalMs
      ensures outcome == Busy ==> unchanged(this`sending, this`tasks, this`pendingSince, this`pendingInterval)
    {
      EnsureConnected();
      var socket;
      match ws {
        case None => return NoSocket;
        case Some(s) => socket := s;
      }
      if sending {
        return Busy;
      }
      Schedule(SendFrame(socket, latencyMs, longitude, latitude), now);
      return Scheduled;
    }

    /** The send task goes on the executor once the frame passed every check. */
    method Schedule(task: Task, now: int)
      requires Valid() && !sending && task.SendFrame? && task.socket < socketsOpened
      requires now - lastSendSpacingAt >= minIntervalMs
      modifies this`sending, this`tasks, this`pendingSince, this`pendingInterval
      ensures Valid()
      ensures sending && tasks == old(tasks) + [task]
      ensures pendingSince == now && pendingInterval == minIntervalMs
    {
      sending := true;
      pendingSince, pendingInterval := now, minIntervalMs;
      CountSendsAppend(tasks, task);
      tasks := tasks + [task];
    }

    /**
     * One step of the executor: run the task at the head of the queue.
     * A reconnect task (after its one-second sleep) calls `ensureConnected`.
     * A send task takes whatever frame is `latest` now, numbers it with the
     * next id, sends the meta text and then at most `maxFrameBytes` bytes of
     * the frame on the socket captured at submission; only when the binary
     * send is accepted (`binaryAccepted`) does the throttle move to `sentAt`
     * and `onSent(sentAt, id)` fire. `sending` is cleared on every path.
     * `wallClockMs` is the `ts` of the meta message.
     */
    method RunNext(wallClockMs: int, sentAt: int, binaryAccepted: bool) returns (notice: Option<SentNotice>)
      requires Valid()
      requires tasks != [] && tasks[0].SendFrame? ==> sentAt >= pendingSince
      modifies this`tasks, this`sending, this`frameCounter, this`transport, this`lastSendSpacingAt,
               this`connectingOrOpen, this`ws, this`socketsOpened, this`accepted
      ensures Valid()
      ensures old(tasks) == [] ==> unchanged(this) && notice == None
      ensures old(tasks) != [] ==> tasks == old(tasks)[1..]
      // a reconnect
      ensures old(tasks) != [] && old(tasks)[0].Reconnect? ==>
                && notice == None && connectingOrOpen && ws.Some?
                && (old(connectingOrOpen) ==> ws == old(ws) && socketsOpened == old(socketsOpened))
                && (!old(connectingOrOpen) ==> ws == Some(old(socketsOpened)) && socketsOpened == old(socketsOpened) + 1)
                && unchanged(this`sending, this`frameCounter, this`transport, this`lastSendSpacingAt, this`accepted)
      // a frame send
      ensures old(tasks) != [] && old(tasks)[0].SendFrame? ==>
                && !sending
                && unchanged(this`connectingOrOpen, this`ws, this`socketsOpened)
      ensures old(tasks) != [] && old(tasks)[0].SendFrame? && old(latest) == None ==>
                notice == None && unchanged(this`frameCounter, this`transport, this`lastSendSpacingAt, this`accepted)
      ensures old(tasks) != [] && old(tasks)[0].SendFrame? && old(latest).Some? ==>
                && accepted == old(accepted) + (if binaryAccepted then [Accepted(sentAt, old(pendingInterval))] else [])
                && (binaryAccepted ==> sentAt - old(lastSendSpacingAt) >= old(pendingInterval))
      ensures old(tasks) != [] && old(tasks)[0].SendFrame? && old(latest).Some? ==>
                var t := old(tasks)[0];
                var frame := old(latest).value;
                && frameCounter == old(frameCounter) + 1
                && transport == old(transport) + [
                     Sent(t.socket, Meta(FrameMeta(frameCounter, wallClockMs, t.latencyMs, t.longitude, t.latitude, selectedModel))),
                     Sent(t.socket, Jpeg(frame[..Min(|frame|, maxFrameBytes)]))]
                && frame[..Min(|frame|, maxFrameBytes)] == frame
                && lastSendSpacingAt == (if binaryAccepted then sentAt else old(lastSendSpacingAt))
                && notice == (if binaryAccepted then Some(SentNotice(sentAt, frameCounter)) else None)
    {
      if tasks == [] {
        return None;
      }
      if tasks[0].Reconnect? {
        RunReconnect();
        notice := None;
      } else {
        notice := RunSendFrame(wallClockMs, sentAt, binaryAccepted);
      }
    }

    /** The reconnect task at the head of the queue: `ensureConnected` after the sleep. */
    method RunReconnect()
      requires Valid() && tasks != [] && tasks[0].Reconnect?
      modifies this`tasks, this`connectingOrOpen, this`ws, this`socketsOpened
      ensures Valid()
      ensures tasks == old(tasks)[1..]
      ensures connectingOrOpen && ws.Some?
      ensures old(connectingOrOpen) ==> ws == old(ws) && socketsOpened == old(socketsOpened)
      ensures !old(connectingOrOpen) ==> ws == Some(old(socketsOpened)) && socketsOpened == old(socketsOpened) + 1
    {
      tasks := tasks[1..];
      EnsureConnected();
    }

    /** The frame send task at the head of the queue. */
    method RunSendFrame(wallClockMs: int, sentAt: int, binaryAccepted: bool) returns (notice: Option<SentNotice>)
      requires Valid() && tasks != [] && tasks[0].SendFrame?
      requires sentAt >= pendingSince
      modifies this`tasks, this`sending, this`frameCounter, this`transport, this`lastSendSpacingAt, this`accepted
      ensures Valid()
      ensures tasks == old(tasks)[1..] && !sending
      ensures old(latest) == None ==>
                notice == None && unchanged(this`frameCounter, this`transport, this`lastSendSpacingAt, this`accepted)
      ensures old(latest).Some? ==>
                && accepted == old(accepted) + (if binaryAccepted then [Accepted(sentAt, old(pendingInterval))] else [])
                && (binaryAccepted ==> sentAt - old(lastSendSpacingAt) >= old(pendingInterval))
      ensures old(latest).Some? ==>
                var t := old(tasks)[0];
                var frame := old(latest).value;
                && frameCounter == old(frameCounter) + 1
                && transport == old(transport) + [
                     Sent(t.socket, Meta(FrameMeta(frameCounter, wallClockMs, t.latencyMs, t.longitude, t.latitude, selectedModel))),
                     Sent(t.socket, Jpeg(frame[..Min(|frame|, maxFrameBytes)]))]
                && frame[..Min(|frame|, maxFrameBytes)] == frame
                && lastSendSpacingAt == (if binaryAccepted then sentAt else old(lastSendSpacingAt))
                && notice == (if binaryAccepted then Some(SentNotice(sentAt, frameCounter)) else None)
    {
      assert sending && sentAt - lastSendSpacingAt >= pendingInterval;
      var task := TakeSend();
      notice := None;
      if latest.Some? {
        var id := SendFramePair(task, latest.value, wallClockMs);
        if binaryAccepted {
          MarkSent(sentAt);
          notice := Some(SentNotice(sentAt, id));
        }
      }
      sending := false;
    }

    /** The send task at the head of the queue is taken off it; no other send is left queued. */
    method TakeSend() returns (task: Task)
      requires tasks != [] && tasks[0].SendFrame? && CountSends(tasks) == 1
      requires forall i | 0 <= i < |tasks| && tasks[i].SendFrame? :: tasks[i].socket < socketsOpened
      modifies this`tasks
      ensures task == old(tasks)[0] && tasks == old(tasks)[1..]
      ensures task.socket < socketsOpened && CountSends(tasks) == 0
      ensures forall i | 0 <= i < |tasks| && tasks[i].SendFrame? :: tasks[i].socket < socketsOpened
    {
      task := tasks[0];
      tasks := tasks[1..];
    }

    /** The frame gets the next id; its meta text and then its bytes are sent on the task's socket. */
    method SendFramePair(task: Task, frame: seq<Byte>, wallClockMs: int) returns (id: int)
      requires task.SendFrame? && task.socket < socketsOpened && frameCounter >= 0
      requires 0 < |frame| <= maxFrameBytes
      requires FrameLog(transport, frameCounter)
      requires forall i | 0 <= i < |transport| :: transport[i].socket < socketsOpened
      modifies this`frameCounter, this`transport
      ensures id == frameCounter == old(frameCounter) + 1
      ensures transport == old(transport) + [
                Sent(task.socket, Meta(FrameMeta(id, wallClockMs, task.latencyMs, task.longitude, task.latitude, selectedModel))),
                Sent(task.socket, Jpeg(frame[..Min(|frame|, maxFrameBytes)]))]
      ensures FrameLog(transport, frameCounter)
      ensures forall i | 0 <= i < |transport| :: transport[i].socket < socketsOpened
    {
      frameCounter := frameCounter + 1;
      id := frameCounter;
      var meta := FrameMeta(id, wallClockMs, task.latencyMs, task.longitude, task.latitude, selectedModel);
      var payload := frame[..Min(|frame|, maxFrameBytes)];
      AppendFramePair(transport, id - 1, task.socket, meta, payload);
      transport := transport + [Sent(task.socket, Meta(meta)), Sent(task.socket, Jpeg(payload))];
    }

    /** An accepted binary send moves the throttle to `sentAt` and is logged with its interval. */
    method MarkSent(sentAt: int)
      requires SpacedSends(accepted) && lastSendSpacingAt == LastSentAt(accepted)
      requires sentAt - lastSendSpacingAt >= pendingInterval
      modifies this`accepted, this`lastSendSpacingAt
      ensures accepted == old(accepted) + [Accepted(sentAt, pendingInterval)]
      ensures lastSendSpacingAt == sentAt == LastSentAt(accepted)
      ensures SpacedSends(accepted)
    {
      SpacedSendsAppend(accepted, Accepted(sentAt, pendingInterval));
      accepted := accepted + [Accepted(sentAt, pendingInterval)];
      lastSendSpacingAt := sentAt;
    }
  }
}
