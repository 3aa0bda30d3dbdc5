/**
 * The older HTTP uploader (class JpegUploader): each accepted frame is POSTed
 * as `image/jpeg` from a single-thread executor, at most one at a time and no
 * more often than `minIntervalMs` apart.
 *
 * As for the WebSocket uploader, the clock reading `now` is an input of
 * `TryUpload`, the executor is the queue `tasks` drained by `RunNext`, and
 * whether the HTTP call completes or throws is an input of `RunNext`. The
 * ghost log `requests` holds every request body posted and `successes` the
 * submission time of every upload that completed.
 */
module HttpUpload {

  import opened KotlinText

  /** A queued upload: the frame and the clock reading at submission. */
  datatype Upload = Upload(jpeg: seq<Byte>, submittedAt: int)

  /** Consecutive times are at least `gap` apart. */
  ghost predicate Spaced(times: seq<int>, gap: int) {
    forall i | 0 < i < |times| :: times[i] - times[i - 1] >= gap
  }

  lemma SpacedAppend(times: seq<int>, gap: int, t: int)
    requires Spaced(times, gap)
    requires times != [] ==> t - times[|times| - 1] >= gap
    ensures Spaced(times + [t], gap)
  {
    var times' := times + [t];
    forall i | 0 < i < |times'|
      ensures times'[i] - times'[i - 1] >= gap
    {
      if i < |times| {
        assert times'[i] == times[i] && times'[i - 1] == times[i - 1];
      }
    }
  }

  class JpegUploader {
    const minIntervalMs: int
    var busy: bool
    var lastUploadAt: int
    var tasks: seq<Upload>
    ghost var requests: seq<seq<Byte>>
    ghost var successes: seq<int>

    ghost predicate Valid()
      reads this
    {
      // single flight: `busy` exactly while an upload is queued
      && |tasks| == (if busy then 1 else 0)
      // `lastUploadAt` is the submission time of the last completed upload
      && (successes == [] ==> lastUploadAt == 0)
      && (successes != [] ==> lastUploadAt == successes[|successes| - 1])
      && Spaced(successes, minIntervalMs)
      // the queued upload passed the throttle against the current `lastUploadAt`
      && (forall i | 0 <= i < |tasks| :: tasks[i].submittedAt - lastUploadAt >= minIntervalMs)
    }

    constructor (minIntervalMs: int)
      ensures Valid()
      ensures this.minIntervalMs == minIntervalMs
      ensures !busy && lastUploadAt == 0 && tasks == [] && requests == [] && successes == []
    {
      this.minIntervalMs := minIntervalMs;
      busy := false;
      lastUploadAt := 0;
      tasks := [];
      requests := [];
      successes := [];
    }

    /**
     * `tryUpload(jpeg)` with `now` the clock reading: nothing happens while
     * within `minIntervalMs` of the last completed upload or while an upload
     * is in flight; otherwise `busy` is set and exactly one upload is queued.
     */
    method TryUpload(jpeg: seq<Byte>, now: int) returns (scheduled: bool)
      requires Valid()
      modifies this`busy, this`tasks
      ensures Valid()
      ensures scheduled <==> now - lastUploadAt >= minIntervalMs && !old(busy)
      ensures scheduled ==> busy && tasks == old(tasks) + [Upload(jpeg, now)]
      ensures !scheduled ==> unchanged(this)
    {
      if now - lastUploadAt < minIntervalMs {
        return false;
      }
      if busy {
        return false;
      }
      busy := true;
      tasks := tasks + [Upload(jpeg, now)];
      return true;
    }

    /**
     * One step of the executor: POST the queued frame. `completed` says
     * whether the call returned (true) or threw (false). Only a completed
     * upload moves `lastUploadAt`, and it moves it to the submission time,
     * not to the completion time; `busy` is cleared either way.
     */
    method RunNext(completed: bool)
      requires Valid()
      modifies this`busy, this`tasks, this`lastUploadAt, this`requests, this`successes
      ensures Valid()
      ensures old(tasks) == [] ==> unchanged(this)
      ensures old(tasks) != [] ==>
                && !busy && tasks == []
                && requests == old(requests) + [old(tasks)[0].jpeg]
                && lastUploadAt == (if completed then old(tasks)[0].submittedAt else old(lastUploadAt))
                && successes == old(successes) + (if completed then [old(tasks)[0].submittedAt] else [])
    {
      if tasks == [] {
        return;
      }
      var upload := tasks[0];
      tasks := tasks[1..];
      requests := requests + [upload.jpeg];
      if completed {
        SpacedAppend(successes, minIntervalMs, upload.submittedAt);
        lastUploadAt := upload.submittedAt;
        successes := successes + [upload.submittedAt];
      }
      busy := false;
    }
  }
}
