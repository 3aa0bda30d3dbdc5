# BlindNavApp frame uploader, in Dafny

A model of the upload core of the BlindNavApp Android client. The app takes
camera frames, converts them from YUV_420_888 to NV21 and then to JPEG, and
streams them over a WebSocket to a server. The server answers with a heading
for each frame, and the app turns that heading into a LEFT / FORWARD / RIGHT
cue. The model covers:

- `WsJpegUploader` (module `WsUpload`). This is the rate-limited,
  single-flight frame sender. It checks size, then the throttle, then
  connects, then allows only one send in flight. Each frame goes out as a
  `frame_meta` text with a fresh id, followed by the JPEG bytes. The module
  also covers connection management (`ensureConnected`, `onFailure`,
  `onClosed`), the text-message handler, `sendJson` and the runtime setters.
- `JpegUploader` (module `HttpUpload`). This is the older HTTP POST uploader,
  with its own throttle and busy flag.
- The `MainActivity` logic (module `MainActivity`). This covers the
  pending-frame ledger (`onSent` and `onHeading`), `headingToDirection`,
  `speakDirectionIfChanged`, and how the tolerance and minimum-interval
  preferences are read back.
- The `min_interval_ms` validator of the settings screen (module `Settings`).
- `yuv420888ToNv21` and the NV21 buffer sizing (module `Nv21`).
- The Kotlin library behaviour the above relies on (module `KotlinText`):
  `trim()` with the JVM whitespace set, `toLongOrNull` / `toIntOrNull`
  (optional sign, range check) and `toString` for integers.

The clock (`elapsedRealtime`, `currentTimeMillis`) is an input. The
single-thread executor is an explicit queue of tasks (`tasks`), and
`RunNext` runs the task at its head. Each socket that `newWebSocket`
creates is identified by its number. Every `send` is recorded in a ghost log
(`transport`), and whether the binary send was accepted is an input.
`Pipeline` runs the uploader and the activity together in a few scenarios.

Two behaviours of the uploader are worth stating plainly, since the model
keeps them as the code has them:

- A frame submitted before the socket has opened is not dropped. The call
  to `newWebSocket` returns the socket object at once, so the frame is
  queued on the socket that is still connecting. `Submit` therefore never
  returns `NoSocket`.
- The connection has no separate connecting, open and closed states. The
  code keeps one flag, `connectingOrOpen`, and so does the model.

The send time of a frame is read from the monotonic clock
(`elapsedRealtime`) after the frame passed the throttle, so `RunNext`
requires it to be no earlier than the clock reading at submission. With
that, the ghost log `accepted` records every accepted send with the
interval in force when its frame passed the throttle. `Valid()` keeps every
accepted send at least that interval after the one before it.

## Model

| member | source | states |
|---|---|---|
| KotlinText.Trim | app/src/main/java/com/example/ipcam/SettingsActivity.kt:28 | the trimmed text neither starts nor ends with whitespace |
| KotlinText.TrimIs | app/src/main/java/com/example/ipcam/SettingsActivity.kt:28 | any slice with only whitespace before and after it, and no whitespace at its ends, is exactly what `trim()` returns |
| KotlinText.TrimPadded | app/src/main/java/com/example/ipcam/SettingsActivity.kt:28 | whitespace added on either side never changes the result of `trim()` |
| KotlinText.TrimTrimmed | app/src/main/java/com/example/ipcam/SettingsActivity.kt:28 | a text without whitespace at its ends is its own `trim()` |
| KotlinText.TrimBlank | app/src/main/java/com/example/ipcam/SettingsActivity.kt:28 | a text made only of whitespace trims to the empty text |
| KotlinText.ParseDecimal | app/src/main/java/com/example/ipcam/SettingsActivity.kt:29 | `toLongOrNull` / `toIntOrNull`: a result is always in the type's range, the text starts with a sign or a digit, and the value's sign follows the leading '-' |
| KotlinText.IsWhitespace | app/src/main/java/com/example/ipcam/SettingsActivity.kt:28 | `Char.isWhitespace` on the JVM: space, tab, newline and no-break space are whitespace; no digit and no sign is |
| KotlinText.ToLongOrNull | app/src/main/java/com/example/ipcam/SettingsActivity.kt:29 | `toLongOrNull`: a result is a Long, and a text that parses has no whitespace at either end |
| KotlinText.ToIntOrNull | app/src/main/java/com/example/ipcam/MainActivity.kt:89 | `toIntOrNull`: a result is an Int, and a text that parses has no whitespace at either end |
| KotlinText.IntToString | app/src/main/java/com/example/ipcam/WsJpegUploader.kt:144 | decimal printing: a leading '-' exactly for negative numbers, digits everywhere else |
| KotlinText.ParsePrinted | app/src/main/java/com/example/ipcam/SettingsActivity.kt:29 | parsing a printed number gives it back whenever it fits the type |
| KotlinText.ParseOutOfRange | app/src/main/java/com/example/ipcam/SettingsActivity.kt:29 | a printed number outside the type's range parses to null |
| KotlinText.NatToStringValue | app/src/main/java/com/example/ipcam/SettingsActivity.kt:29 | the digits printed for n have decimal value n |
| KotlinText.PrintedIsTrimmed | app/src/main/java/com/example/ipcam/SettingsActivity.kt:28 | a printed number has nothing to trim |
| KotlinText.DecimalValueZero | app/src/main/java/com/example/ipcam/SettingsActivity.kt:30 | a digit string has value 0 exactly when all its digits are '0', so "-0" is not negative |
| Settings.AcceptsMinInterval | app/src/main/java/com/example/ipcam/SettingsActivity.kt:27-36 | the validator lets through only a text whose trimmed form is non-empty and ends in a digit, so never a blank one; its exact set is given by `Settings.AcceptsExactly` |
| Settings.AcceptsExactly | app/src/main/java/com/example/ipcam/SettingsActivity.kt:27-36 | the validator accepts a new value exactly when its trimmed text is an optional '+' and digits whose value fits a Long, or a '-' followed only by zeros |
| Settings.AcceptsNonNegative | app/src/main/java/com/example/ipcam/SettingsActivity.kt:27-36 | every non-negative Long, with any whitespace around it, is accepted |
| Settings.RejectsNegative | app/src/main/java/com/example/ipcam/SettingsActivity.kt:30-32 | every negative number, with any whitespace around it, is blocked |
| Settings.RejectsBeyondLong | app/src/main/java/com/example/ipcam/SettingsActivity.kt:29-32 | a number above the Long range is blocked because it does not parse |
| Settings.RejectsBlank | app/src/main/java/com/example/ipcam/SettingsActivity.kt:28-32 | an empty or all-whitespace value is blocked |
| Settings.PaddingIrrelevant | app/src/main/java/com/example/ipcam/SettingsActivity.kt:28 | surrounding whitespace never changes the validator's decision |
| Settings.AcceptsZero | app/src/main/java/com/example/ipcam/SettingsActivity.kt:27-36 | "0", "+0" and "-0" are accepted; "-1", "" and "1.5" are blocked |
| WsUpload.OnMessage | app/src/main/java/com/example/ipcam/WsJpegUploader.kt:81-93 | feedback is reported exactly for a JSON object with a numeric `heading`; the frame id is absent exactly when `frame_id` is absent, and a non-numeric id reads as 0 |
| WsUpload.AppendFramePair | app/src/main/java/com/example/ipcam/WsJpegUploader.kt:141-148 | a meta/frame pair with the next id keeps the send log well formed: every meta text is followed by its frame on the same socket, and ids strictly increase |
| WsUpload.AppendText | app/src/main/java/com/example/ipcam/WsJpegUploader.kt:118-121 | a telemetry or settings text keeps the send log well formed |
| WsUpload.SpacedSendsAppend | app/src/main/java/com/example/ipcam/WsJpegUploader.kt:132 | an accepted send at least its interval after the last accepted one keeps the log of accepted sends spaced |
| WsUpload.SendsApart | app/src/main/java/com/example/ipcam/WsJpegUploader.kt:132 | while the interval stays at least `gap >= 0`, any two accepted sends, not only neighbours, are at least `gap` apart |
| WsUpload.WsJpegUploader.constructor | app/src/main/java/com/example/ipcam/WsJpegUploader.kt:16-45 | the uploader starts with no socket, no frame, nothing in flight, counter 0 and throttle time 0 |
| WsUpload.WsJpegUploader.UpdateMinIntervalMs | app/src/main/java/com/example/ipcam/WsJpegUploader.kt:47-49 | a non-negative interval is taken; a negative one is ignored |
| WsUpload.WsJpegUploader.UpdateHeadingTolerance | app/src/main/java/com/example/ipcam/WsJpegUploader.kt:50-52 | a non-negative tolerance is taken; a negative one is ignored |
| WsUpload.WsJpegUploader.UpdateModel | app/src/main/java/com/example/ipcam/WsJpegUploader.kt:53-60 | the model is remembered and announced in a `Setting` message on the current socket, connecting first if needed |
| WsUpload.WsJpegUploader.EnsureConnected | app/src/main/java/com/example/ipcam/WsJpegUploader.kt:72-76 | idempotent: while connecting or open nothing changes; otherwise exactly one new socket is created and becomes `ws` |
| WsUpload.WsJpegUploader.OnFailure | app/src/main/java/com/example/ipcam/WsJpegUploader.kt:99-106 | the flag drops and exactly one reconnect is queued |
| WsUpload.WsJpegUploader.OnClosed | app/src/main/java/com/example/ipcam/WsJpegUploader.kt:108-111 | the flag drops and nothing is queued |
| WsUpload.WsJpegUploader.SendText | app/src/main/java/com/example/ipcam/WsJpegUploader.kt:118-121 | a text is sent on `ws` after connecting if needed; the send log grows by exactly that message |
| WsUpload.WsJpegUploader.SendJson | app/src/main/java/com/example/ipcam/WsJpegUploader.kt:118-121 | `sendJson` sends its text on the current socket, connecting first if needed |
| WsUpload.WsJpegUploader.Submit | app/src/main/java/com/example/ipcam/WsJpegUploader.kt:127-138 | the checks run in order: empty or oversized changes nothing; within the interval only `latest` changes; past the throttle the uploader connects; a send in flight drops the frame; otherwise exactly one send is queued on the socket, with the clock reading and the interval it passed the throttle with, and single flight is kept |
| WsUpload.WsJpegUploader.ConnectAndSchedule | app/src/main/java/com/example/ipcam/WsJpegUploader.kt:134-138 | past the throttle: the uploader is connected afterwards, a send in flight gives Busy and changes nothing else, otherwise exactly one send is queued |
| WsUpload.WsJpegUploader.Schedule | app/src/main/java/com/example/ipcam/WsJpegUploader.kt:136-138 | the send flag is raised and exactly one send task is appended, keeping single flight and the throttle invariant |
| WsUpload.WsJpegUploader.RunNext | app/src/main/java/com/example/ipcam/WsJpegUploader.kt:138-159 | one executor step: a reconnect reconnects; a send takes the newest frame, numbers it with the next id, logs its meta text and then its bytes, and moves the throttle and reports `onSent` only when the binary send is accepted, at least the interval after the previous accepted send; `sending` is cleared |
| WsUpload.WsJpegUploader.RunReconnect | app/src/main/java/com/example/ipcam/WsJpegUploader.kt:102-105 | the queued reconnect runs `ensureConnected` |
| WsUpload.WsJpegUploader.RunSendFrame | app/src/main/java/com/example/ipcam/WsJpegUploader.kt:139-158 | the frame sent is the latest one at send time; its id is one more than the last; the meta text carries that id and the model; the throttle and `onSent` move only on an accepted send, which is logged and lies at least the interval it passed the throttle with after the previous accepted send |
| WsUpload.WsJpegUploader.TakeSend | app/src/main/java/com/example/ipcam/WsJpegUploader.kt:138-140 | the send task is taken off the head of the queue and no other send is left queued |
| WsUpload.WsJpegUploader.SendFramePair | app/src/main/java/com/example/ipcam/WsJpegUploader.kt:141-148 | the frame gets the next id; its meta text carrying that id and the model, then its bytes, are sent on the task's socket, keeping the send log well formed |
| WsUpload.WsJpegUploader.MarkSent | app/src/main/java/com/example/ipcam/WsJpegUploader.kt:149-151 | an accepted send moves the throttle to its send time and joins the spaced log of accepted sends |
| HttpUpload.SpacedAppend | app/src/main/java/com/example/ipcam/JpegUploader.kt:24 | appending a time at least `minIntervalMs` after the last keeps the times spaced |
| HttpUpload.JpegUploader.constructor | app/src/main/java/com/example/ipcam/JpegUploader.kt:13-20 | the uploader starts idle, with `lastUploadAt` 0 |
| HttpUpload.JpegUploader.TryUpload | app/src/main/java/com/example/ipcam/JpegUploader.kt:22-27 | an upload is queued exactly when the interval since the last completed upload has passed and none is in flight; otherwise nothing changes |
| HttpUpload.JpegUploader.RunNext | app/src/main/java/com/example/ipcam/JpegUploader.kt:27-40 | the queued frame is posted; only a completed upload moves `lastUploadAt`, to its submission time; `busy` is cleared; completed uploads stay `minIntervalMs` apart |
| MainActivity.CoerceIn | app/src/main/java/com/example/ipcam/MainActivity.kt:358 | the result lies in the bounds, equals the value inside them, and is the nearer bound outside |
| MainActivity.ToleranceDegrees | app/src/main/java/com/example/ipcam/MainActivity.kt:358 | the tolerance lies between 0 and 36 degrees |
| MainActivity.HeadingToDirection | app/src/main/java/com/example/ipcam/MainActivity.kt:357-364 | RIGHT exactly up to 90 - tol, LEFT exactly from 90 + tol, FORWARD exactly strictly between |
| MainActivity.DirectionMonotone | app/src/main/java/com/example/ipcam/MainActivity.kt:357-364 | a larger heading never gives a direction earlier in RIGHT, FORWARD, LEFT |
| MainActivity.WiderToleranceKeepsForward | app/src/main/java/com/example/ipcam/MainActivity.kt:358-363 | widening the tolerance keeps every FORWARD heading FORWARD |
| MainActivity.ZeroToleranceHasNoForward | app/src/main/java/com/example/ipcam/MainActivity.kt:358-363 | with tolerance 0 or less there is no FORWARD, and 90 degrees is RIGHT |
| MainActivity.TolerancePref | app/src/main/java/com/example/ipcam/MainActivity.kt:89 | the tolerance read by the listener and `onResume` always lies in 0..40 |
| MainActivity.TolerancePrefReads | app/src/main/java/com/example/ipcam/MainActivity.kt:402-403 | a stored Int reads back clamped to 0..40; text that is not an Int, or no value, reads as 10 |
| MainActivity.InitialTolerancePct | app/src/main/java/com/example/ipcam/MainActivity.kt:165 | `onCreate` reads any Int, unclamped, or 10 |
| MainActivity.InitialTolerancePctReads | app/src/main/java/com/example/ipcam/MainActivity.kt:165 | `onCreate` reads a stored Int as itself, unclamped; text that is not an Int, or no value, reads as 10 |
| MainActivity.InitialToleranceSameDirections | app/src/main/java/com/example/ipcam/MainActivity.kt:165-166 | the unclamped tolerance of `onCreate` gives the same directions as the clamped one, because `headingToDirection` clamps again |
| MainActivity.MinIntervalPrefAsWritten | app/src/main/java/com/example/ipcam/MainActivity.kt:81 | the interval read back as written is always a Long |
| MainActivity.MinIntervalPrefAsWrittenReads | app/src/main/java/com/example/ipcam/MainActivity.kt:81 | as written, a stored Long reads back as itself, negative ones included; text that is not a Long, or no value, reads as 200 |
| MainActivity.PaddedTextFallsBack | app/src/main/java/com/example/ipcam/MainActivity.kt:81 | as written, any stored text with whitespace at either end reads as 200, whatever number it holds |
| MainActivity.PaddedIntervalFallsBack | app/src/main/java/com/example/ipcam/MainActivity.kt:81 | " 500" passes the validator, yet reads back as the fallback 200 |
| MainActivity.MinIntervalPref | app/src/main/java/com/example/ipcam/MainActivity.kt:81 | corrected (Findings row 1): the interval is read back trimmed, as the validator reads it, and is always a Long |
| MainActivity.AcceptedIntervalApplied | app/src/main/java/com/example/ipcam/MainActivity.kt:81-82 | corrected (Findings row 1): under the trimmed read, every value the validator accepts reads back as the non-negative number it was accepted as |
| MainActivity.PaddedIntervalApplied | app/src/main/java/com/example/ipcam/MainActivity.kt:81-82 | corrected (Findings row 1): under the trimmed read, a whitespace-padded non-negative number reads back as that number |
| MainActivity.ApplyMinIntervalPref | app/src/main/java/com/example/ipcam/MainActivity.kt:80-82 | as written: the uploader's interval becomes the untrimmed reading when it is non-negative, and stays as it was otherwise |
| MainActivity.ApplyMinIntervalPrefCorrected | app/src/main/java/com/example/ipcam/MainActivity.kt:80-82 | corrected (Findings row 1): the uploader's interval becomes the trimmed reading, so every value the validator accepted is applied as that value |
| MainActivity.MainState.constructor | app/src/main/java/com/example/ipcam/MainActivity.kt:165-166 | the ledger starts empty; nothing is shown or spoken; the tolerance is `onCreate`'s reading |
| MainActivity.MainState.ReloadTolerance | app/src/main/java/com/example/ipcam/MainActivity.kt:88-92 | the tolerance becomes the clamped reading, in 0..40 |
| MainActivity.MainState.OnSent | app/src/main/java/com/example/ipcam/MainActivity.kt:218-220 | the frame's send time is recorded under its id, other entries are untouched, and the id becomes the last sent |
| MainActivity.MainState.SpeakDirectionIfChanged | app/src/main/java/com/example/ipcam/MainActivity.kt:367-381 | a sound plays exactly when the direction differs from the last one spoken, which it then becomes |
| MainActivity.MainState.OnHeading | app/src/main/java/com/example/ipcam/MainActivity.kt:194-213 | a known id's entry is removed and the latency becomes now minus its send time; an absent or unknown id leaves the ledger and the latency alone; the direction follows the heading |
| MainActivity.RepeatedResponse | app/src/main/java/com/example/ipcam/MainActivity.kt:197-206 | the first answer for a frame shows its latency and removes the entry; a second answer for it shows the same latency again |
| MainActivity.UnknownResponse | app/src/main/java/com/example/ipcam/MainActivity.kt:203-206 | an answer for an id never recorded shows no latency |
| Nv21.RowMajorOrder | app/src/main/java/com/example/ipcam/MainActivity.kt:135-141 | row-major order of (row, col) is the order of row*width + col |
| Nv21.ChromaOrder | app/src/main/java/com/example/ipcam/MainActivity.kt:135-141 | chroma samples are written at strictly increasing output positions, two bytes apart |
| Nv21.ChromaEnd | app/src/main/java/com/example/ipcam/MainActivity.kt:133-142 | the chroma pass ends exactly at w*h + 2*(w/2)*(h/2) bytes |
| Nv21.ChromaFailure | app/src/main/java/com/example/ipcam/MainActivity.kt:137-140 | if any chroma read or write is out of bounds, so is the last sample's |
| Nv21.BufferLargeEnough | app/src/main/java/com/example/ipcam/MainActivity.kt:277-278 | a buffer of w*h*3/2 bytes always holds everything the conversion writes |
| Nv21.Nv21Buffer | app/src/main/java/com/example/ipcam/MainActivity.kt:277-278 | the previous buffer is reused when it holds w*h*3/2 bytes; otherwise a new one of exactly that size is made |
| Nv21.LumaRowStep | app/src/main/java/com/example/ipcam/MainActivity.kt:119-123 | copying one more row keeps the rows already copied |
| Nv21.LumaKept | app/src/main/java/com/example/ipcam/MainActivity.kt:115-142 | writes beyond the first w*h bytes keep the luma |
| Nv21.ChromaStep | app/src/main/java/com/example/ipcam/MainActivity.kt:139-140 | writing one more V/U pair keeps the samples already written |
| Nv21.Yuv420888ToNv21 | app/src/main/java/com/example/ipcam/MainActivity.kt:108-143 | corrected (Findings row 2): succeeds exactly when all reads and writes of the corrected copy are in bounds; then luma (r, c) is at r*w + c, chroma (r, c) has V at w*h + 2*(r*(w/2) + c) and U after it, and nothing past those bytes changes |
| Nv21.Yuv420888ToNv21AsWritten | app/src/main/java/com/example/ipcam/MainActivity.kt:108-143 | as written: succeeds exactly when the Y plane holds a whole stride for every padded row and the chroma fits; the output is then the same as the corrected conversion's |
| Nv21.CorrectedAcceptsMore | app/src/main/java/com/example/ipcam/MainActivity.kt:117-124 | every image the padded branch as written copies, the corrected branch copies too |
| Nv21.CopyLuma | app/src/main/java/com/example/ipcam/MainActivity.kt:115-124 | corrected (Findings row 2): the luma branch chosen by the row stride copies every luma sample exactly when the corrected reads and the writes fit |
| Nv21.CopyLumaAsWritten | app/src/main/java/com/example/ipcam/MainActivity.kt:115-124 | as written: the same branch choice, succeeding exactly when the whole-stride reads and the writes fit |
| Nv21.CopyLumaPacked | app/src/main/java/com/example/ipcam/MainActivity.kt:115-116 | with unpadded rows, one bulk copy of w*h bytes succeeds exactly when both buffers hold w*h bytes |
| Nv21.CopyLumaPadded | app/src/main/java/com/example/ipcam/MainActivity.kt:117-124 | corrected: with padded rows, the copy succeeds exactly when every row fits and the last row's w bytes are present |
| Nv21.CopyLumaPaddedAsWritten | app/src/main/java/com/example/ipcam/MainActivity.kt:117-124 | as written: succeeds exactly when the plane holds a whole stride for every row, the last one included |
| Nv21.UnpaddedLastRow | app/src/main/java/com/example/ipcam/MainActivity.kt:120 | a plane without padding after its last row fails as written and is copied by the corrected branch |
| Nv21.CopyChroma | app/src/main/java/com/example/ipcam/MainActivity.kt:125-142 | the interleaved V/U copy succeeds exactly when the last sample of each plane and the output fit; the luma bytes stay untouched |
| Pipeline.BackToBackWhileDisconnected | app/src/main/java/com/example/ipcam/WsJpegUploader.kt:127-138 | two frames submitted while disconnected open one socket: the first is queued, the second finds the send in flight |
| Pipeline.FrameQueued | app/src/main/java/com/example/ipcam/WsJpegUploader.kt:127-138 | a fresh uploader given one frame queues exactly one send on socket 0, with the frame as latest |
| Pipeline.SubmitAndRun | app/src/main/java/com/example/ipcam/WsJpegUploader.kt:138-153 | the queued send then runs: frame id 1 is reported and the throttle moves exactly when the binary send is accepted |
| Pipeline.RoundTrip | app/src/main/java/com/example/ipcam/MainActivity.kt:194-223 | an accepted frame gets id 1; the answer for id 1 shows now minus its send time as the latency, and the direction for its heading |
| Pipeline.RefusedSend | app/src/main/java/com/example/ipcam/WsJpegUploader.kt:148-153 | a refused binary send records no ledger entry and leaves the throttle alone, so the next frame can go out at once |
| Pipeline.RetryAfterFailures | app/src/main/java/com/example/ipcam/WsJpegUploader.kt:99-106 | after n failures, each followed by its reconnect step, exactly n + 1 sockets have been opened |

## Left out

- `shutdown()` of both uploaders (closing the socket, stopping the executors and OkHttp's pools) is left out, because it only releases resources. The model never rejects work after a shutdown.
- Threads are left out. The atomics, `@Volatile`, `Thread.sleep(1000)` before a reconnect and `runOnUiThread` all become steps that run one after another. Text sends from other threads cannot come between a frame's meta text and its bytes in the model.
- JSON is left out. Building the `frame_meta`, `Setting` and telemetry texts is reduced to datatypes. Parsing server messages is reduced to `Inbound`, which says whether `heading` and `frame_id` are present and numeric.
- `sendStats` is left out: it builds a JSON text and calls `sendJson`, which is modelled.
- `onOpen` and the binary `onMessage` only log, so they are left out.
- `MjpegHttpServer`, `YuvToRgbConverter`, `ArrowOverlay`, the build files and `getWifiIp` are not part of this model.
- Also left out: camera setup, JPEG compression, location updates, the info text, the media players and permissions.
- WsUpload.WsJpegUploader.RunNext: Long overflow of `frameCounter` and of the clock arithmetic (`now - lastSendSpacingAt`) is not modelled, because integers are unbounded here.
- MainActivity.HeadingToDirection: it uses exact reals instead of Double rounding, and does not model NaN or infinite headings.
- KotlinText.ParseDecimal: only ASCII digits are accepted. The JVM also accepts the other Unicode decimal digits.
- Nv21.Yuv420888ToNv21: Int overflow of `w * h` is not modelled. The Y plane's bytes are taken from position 0, and its pixel stride is taken to be 1, as the source assumes.
- MainActivity.MainState.OnHeading: the latency is `now - sentAt` with both readings given as inputs. The monotonic clock is not modelled.
- The `model_select` branch of the preference listener calls `updateModel` (modelled). It also writes the model name into the info text where the interval is meant to go; the info text is not modelled.

## Findings

| source | as written | input that shows it | evidently intended | confidence | as-written member | corrected member |
|---|---|---|---|---|---|---|
| app/src/main/java/com/example/ipcam/MainActivity.kt:81 | the stored `min_interval_ms` text is parsed with `toLongOrNull()` without `trim()` (also at line 173), although the settings validator trims before checking | the value " 500" passes the validator and is stored; read back, it does not parse, so the uploader uses 200 ms | the interval the validator accepted, here 500 ms | not executed; depends on the preference storing the text as typed | MainActivity.PaddedIntervalFallsBack | MainActivity.AcceptedIntervalApplied |
| app/src/main/java/com/example/ipcam/MainActivity.kt:120 | with padded Y rows, every row first reads a whole `yRowStride` bytes, the last row included | w = 2, h = 2, yRowStride = 3, Y buffer of 5 bytes (no padding after the last row): the last read underflows and the frame is dropped | copy each row's w bytes; the last row needs only w bytes | not executed; camera buffers often end right after the last row's pixels | Nv21.UnpaddedLastRow | Nv21.CopyLumaPadded |
