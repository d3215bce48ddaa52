# Shot scoring on the Raspberry Pi target camera, modelled in Dafny

This project models the core of a Raspberry Pi shooting-target scorer.

- **Capture loop** (main.py). A camera loop keeps the two newest frames in a ring buffer. It draws an aiming cross on every frame and offers each frame's JPEG to a preview queue of capacity 10. A LOW→HIGH edge of the trigger button is meant to submit the newest buffered frame to a processing queue of capacity 5. As written, building that job raises NameError, which ends the loop before anything is enqueued (see Findings).
- **Trigger listener** (threads/workers.py). A Bluetooth shutter submits the *oldest* buffered frame, together with the calibrated centre, on each key-down.
- **Processing worker** (app.py). It classifies the shot against the detector's boxes and registers the crop on a reference target face. It scores the registered point, or else the rescaled point, using the ring zones 10/9/8/7/6/5. It then posts one result record.
- **Connectivity** (threads/workers.py). A video sender and a command poller share a server-connectivity flag.
- **Livestream** (stream_app.py). A one-slot queue always holds the latest preview frame. It is served as multipart chunks.

Layout:

- One module per source file: `Processing`, `Handles`, `App`, `MainLoop`, `Workers`, `StreamApp`.
- Two shared modules: `Common` holds the records, `Queues` holds `queue.Queue` and the ring buffer.

How the code is modelled:

- Pure functions in the source become Dafny functions with lemmas.
- Every thread becomes a `class` whose fields are the thread's state.
- One pass of a thread's loop is one method call. The method's postcondition is tied to a specification function.
- External inputs are parameters of each call: the camera frame, the button level, the detector's boxes, the OpenCV outcome, HTTP responses, the clock and the input device.

Behaviours of the code that the model makes explicit:

- The frame is appended to the ring buffer and only then has the cross drawn on it. Because it is the same array, the buffered frame carries the cross (`MainLoop.CaptureLoop.CaptureAndPreview`). A job built from the buffer therefore contains the cross too.
- The corrected capture loop submits the newest buffered frame (`RingBuffer.Newest`); main.py as written submits nothing. The trigger listener submits the oldest (`RingBuffer.Oldest`). With one frame buffered, the two are the same frame. With two slots and at least one frame already buffered, the oldest after a capture is the frame that was newest before it (`Queues.WindowOfTwo`). So once two frames are buffered, the listener submits the frame one capture earlier than the corrected loop does.
- The "Không xử lý được" branch of `_process_frame` can never be taken. The classifier only answers hit-with-crop or miss (`App.FrameOutcome`).
- main.py's job is a two-field tuple, while the worker unpacks three fields. The worker would log such a job as a ValueError and skip its `task_done` (`App.JobOutcome`).
- threads/workers.py reads `SERVER_IS_CONNECTED` and `CALIBRATED_CENTER` from the entry script. The main.py here defines neither of them. That entry script is not part of this model, so the flag is a shared `Workers.Link` object and the centre is a parameter.

## Model

| member | source | states |
|---|---|---|
| Queues.BoundedQueue.Put | main.py:141-142 | on a queue that is not full, the item is appended at the tail and the unfinished-task count grows by one |
| Queues.BoundedQueue.GetNowait | threads/workers.py:32 | an empty queue gives None and stays empty; otherwise the head is returned and removed; the unfinished count does not change |
| Queues.BoundedQueue.TaskDone | app.py:42 | the unfinished-task count drops by one; the items do not change |
| Queues.Window | main.py:29 | the window holds the last min(len, n) elements of the sequence |
| Queues.AppendToFullWindow | main.py:132 | appending to a full ring buffer evicts exactly the oldest frame |
| Queues.AppendToRoomyWindow | main.py:132 | appending to a ring buffer that has room keeps every frame |
| Queues.WindowOfTwo | main.py:29 | in a window of two, the element that was newest before an append is the oldest after it |
| Queues.RingBuffer.Append | main.py:132 | the new contents are the window of old contents plus the frame, never more than maxlen; the newest slot is the frame, and `Newest()` is its copy |
| Processing.LastSegment | utils/processing.py:7 | the result is a suffix without '/', and is preceded by '/' when shorter than the input |
| Processing.Spaced | utils/processing.py:9 | same length; every '_' becomes ' ' and every other character is kept in place |
| Processing.FriendlyObjectName | utils/processing.py:6-9 | ValueError iff the last path segment has two or more dots; otherwise a name with no '_', '/' or '.' that is no longer than the input |
| Processing.LastSegmentAfterSlash | utils/processing.py:7 | the last segment of `dir/name` is `name` |
| Processing.LastSegmentWithoutSlash | utils/processing.py:7 | a name without '/' is its own last segment |
| Processing.FriendlyNameOfFile | utils/processing.py:6-9 | a bare `stem.ext` and a bare `stem` both give `stem` with '_' replaced by spaces |
| Processing.FriendlyNameOfPath | utils/processing.py:6-9 | `dir/stem.ext` and `dir/stem` both give `stem` with '_' replaced by spaces |
| Processing.FriendlyNameTwoDots | utils/processing.py:8 | a base name with two dots raises |
| Processing.AimPoint | utils/processing.py:17-27 | the calibrated centre when given, otherwise `(w//2, h//2)` |
| Processing.FirstQualifying | utils/processing.py:37-56 | the index of the first box that qualifies (confidence, inclusive containment, positive area), with none before it; None iff no box qualifies |
| Processing.SliceLen | utils/processing.py:51 | a Python slice's length, which is `stop - start` for in-range bounds |
| Processing.CropOf | utils/processing.py:51 | the crop never exceeds the frame |
| Processing.Classify | utils/processing.py:29-59 | the status is never "other", and it is a hit iff a crop is returned |
| Processing.CheckObjectCenter | utils/processing.py:12-59 | the loop with early return computes `Classify` |
| Processing.ClassifyHit | utils/processing.py:37-56 | a hit comes from the first qualifying box; its relative point is aim minus origin, within the box size; the crop is that box's |
| Processing.QualifyingIsHit | utils/processing.py:43-56 | any qualifying box of the first result (confidence at least the threshold, aim point inside, positive width and height) makes the answer a hit |
| Processing.ClassifyMiss | utils/processing.py:58-59 | with no qualifying box the result is a miss with the unchanged aim point |
| Processing.CropOfInsideBox | utils/processing.py:51 | a box inside the frame crops to exactly its width and height |
| Processing.ClassifyExample | utils/processing.py:43-56 | a 200×200 box at (100,100) aimed at (150,150) is a hit at relative (50,50) |
| Processing.RatioTest | utils/processing.py:87-88 | a size bound only (at most one match per pair); which matches are kept is stated by `RatioTestMembers` |
| Processing.RatioTestMembers | utils/processing.py:87-88 | a match survives iff its pair passes `4*d1 < 3*d2` (strict) |
| Processing.KeepMutual | utils/processing.py:93-95 | a size bound only (never more mutual than forward matches); membership is stated by `KeepMutualMembers` and order by `KeepMutualSubsequence` |
| Processing.MutualFilter | utils/processing.py:91-95 | the loop over `good12` with the reverse set computes `KeepMutual` |
| Processing.KeepMutualSubsequence | utils/processing.py:91-95 | the mutual matches are a subsequence of `good12`, order kept |
| Processing.KeepMutualMembers | utils/processing.py:92-95 | a match is kept iff it is in `good12` and its reverse is in `good21` |
| Processing.MutualMatches | utils/processing.py:83-95 | the mutual matches are a subsequence of the ratio-tested forward matches |
| Processing.WarpCropToOriginal | utils/processing.py:70-122 | a point needs a warped image and a supplied shot; a warped image of the reference size needs both images, both descriptor sets, at least 10 keypoints on each side, enough mutual matches and a homography with `\|det\| >= 1e-6` |
| Processing.WarpBothOrNeither | utils/processing.py:109-122 | with a shot that transforms, the warped image and the point come together or not at all |
| Processing.WarpWithoutShot | utils/processing.py:109-122 | without a shot, success gives a warped image and no point |
| Processing.WarpWithShot | utils/processing.py:109-122 | when every guard passes and a shot is given, the result is the warped image of the reference size and the shot as the homography maps it |
| Processing.WarpTooFewMatches | utils/processing.py:97-99 | fewer than `min_inliers` mutual matches gives `(None, None)` |
| Processing.Trunc | utils/processing.py:127 | `int()` truncates toward zero |
| Processing.ZoneScore | utils/processing.py:137-144 | every zone value is 0 or 5..10 |
| Processing.CalculateScore | utils/processing.py:124-144 | the score is 0 or 5..10; it is nonzero only for present inputs, a truncated point inside the image, and mask 255 there |
| Processing.DistanceBelowIffSquared | utils/processing.py:133-142 | `distance < k` iff `dx²+dy² < k²` |
| Processing.ScoreNonIncreasing | utils/processing.py:132-144 | in the active region, a point nearer the centre never scores less |
| Processing.ScoreOutsideMask | utils/processing.py:136-144 | a pixel whose mask value is not 255 scores 0 |
| Processing.TruncOfWhole | utils/processing.py:127 | integer coordinates are taken unchanged |
| Processing.ScoreJustLeftOfImage | utils/processing.py:127-130 | x in (-1, 0) truncates to column 0 and is scored like x = 0 |
| Processing.ScoreExamples | utils/processing.py:132-142 | on a 1000×1000 face, 50 px from the centre scores 10, 200 px scores 7, 400 px scores 0 |
| Handles.Rescale | utils/handles.py:32-33 | ZeroDivisionError iff the crop axis is 0; otherwise the floor of `a*W/w` for non-negative `a` |
| Handles.RescaleBounds | utils/handles.py:30-34 | a relative coordinate within the crop maps into `[0, W]`, and the far edge maps onto `W` |
| Handles.ShotMarker | utils/handles.py:25-36 | the marker is drawn at the truncated scored point |
| Handles.ChooseShot | utils/handles.py:22-34 | the registered point iff both warp outputs are present; otherwise the rescaled point; raises iff the crop is missing or empty |
| Handles.FallbackOnFarEdgeScoresZero | utils/handles.py:30-35 | a shot on the crop's right or bottom edge rescales to `W` or `H` and scores 0 |
| Handles.HandleHit | utils/handles.py:9-45 | the time and target are passed through and the marker is on the reference face; the handler raises only for a missing reference or a failed fallback |
| Handles.HandleHitBia4 | utils/handles.py:9-45 | target 'Bia số 4' with a score in {0,5..10}; raises iff the reference is missing or the fallback fails |
| Handles.HandleHitBia78 | utils/handles.py:47-87 | target 'Bia số 7-8' with an integer score from the bia-7 scorer |
| Handles.HandleHitBia4Scoring | utils/handles.py:22-37 | registered: scores and red-marks the registered point; fallback: scores and yellow-marks the rescaled point |
| Handles.Bia78LikeBia4 | utils/handles.py:56-87 | given the same scorer, the bia-7-8 handler equals the bia-4 handler except for the target |
| Handles.HandleMiss | utils/handles.py:88-110 | as written: TypeError for no hit info; otherwise target "Không trúng mục tiêu", score 0, marker at the shot point |
| Handles.HandleMissFixed | utils/handles.py:93-110 | "Không xử lý được" iff there is no hit info, score 0 always, and equal to the as-written record whenever that one does not raise |
| App.Decide | app.py:54-110 | the score is always set and in {0,5..10}; the target is 'Bia số 4' iff hit with crop, the miss text iff miss, the unresolved text otherwise; non-hits score 0 with the marker at the aim point; raises only on a hit |
| App.FrameOutcome | app.py:48-110 | the unresolved text is never produced; 'Bia số 4' iff the classifier reports a hit |
| App.JobOutcome | app.py:40-41 | a two-field job raises ValueError; a three-field job gives the frame's outcome |
| App.HitInsideFrameIsScored | app.py:78-88 | with the reference loaded and boxes inside the frame, the fallback never divides by zero, so every job is scored |
| App.HitWithoutReference | app.py:65-67 | a hit with no reference image raises AttributeError |
| App.AgreesWithBia4Handler | app.py:65-93 | the worker's hit path equals `handle_hit_bia_so_4` except that its fallback marker is red |
| App.ProcessingWorker.constructor | app.py:27-34 | the worker starts running, with nothing posted or logged |
| App.ProcessingWorker.Stop | app.py:122-124 | clears `running` |
| App.ProcessingWorker.ProcessFrame | app.py:48-120 | the step-by-step record building returns `FrameOutcome`; the record is posted iff no exception is raised |
| App.ProcessingWorker.Iterate | app.py:37-46 | stopped or empty: nothing changes; else the head job is taken; on success it is posted and `task_done` is called; on an exception the error is logged and `task_done` is skipped |
| MainLoop.Fires | main.py:144-159 | a size bound only (at most one fire per reading); the firing behaviour is stated by `HoldingFiresOnce`, `HeldHighNeverFires` and `FiresNeedRelease` |
| MainLoop.HoldingFiresOnce | main.py:146-159 | holding the button for any number of passes fires exactly once |
| MainLoop.HeldHighNeverFires | main.py:146 | a button already held never fires |
| MainLoop.FiresNeedRelease | main.py:146-159 | over n readings, at most (n+1)/2 fires: every fire needs a release first |
| MainLoop.OnTrigger | main.py:150-157 | as written: never enqueues; NameError iff a frame is buffered and the queue has room |
| MainLoop.OnTriggerFixed | main.py:150-157 | enqueues iff a frame is buffered and fewer than 5 jobs wait; otherwise same as written |
| MainLoop.Offer | main.py:141-142 | the item is appended iff the queue is below capacity, otherwise dropped; a queue within capacity stays within it |
| MainLoop.FirstShotCrashes | main.py:153 | the first shot after start-up crashes as written and is enqueued when fixed |
| MainLoop.CaptureLoop.constructor | main.py:101-124 | empty ring buffer (2), preview queue (10), processing queue (5); button LOW |
| MainLoop.CaptureLoop.CaptureAndPreview | main.py:132-142 | the frame enters the window and is the newest slot; it carries the cross; its JPEG is queued iff fewer than 10 wait |
| MainLoop.CaptureLoop.Step | main.py:127-160 | halted or no frame: nothing changes, including the preview queue's unfinished count and the given frame's cross; else buffer, cross and preview, and the preview count grows iff the JPEG was queued; on a LOW→HIGH edge the `OnTrigger` outcome (never an empty buffer); the button is remembered unless it crashed; the processing queue never changes |
| MainLoop.CaptureLoop.StepFixed | main.py:127-160 | as `Step`, including both preview-queue counts and the untouched frame when halted, but a fired trigger with room appends `(ring.Newest(), now, None)` to the processing queue, and that newest copy is the frame just captured, cross included |
| MainLoop.FixedJobUnpacks | app.py:40 | the fixed job unpacks in the worker; the two-field job raises ValueError |
| MainLoop.PreviewSender.Stop | main.py:55-56 | clears `running` |
| MainLoop.PreviewSender.Iterate | main.py:38-53 | the head JPEG is uploaded and acknowledged whether or not delivery succeeds; an empty queue changes nothing |
| Workers.Transition | threads/workers.py:36-79 | a message is printed iff the flag changes; a loss message iff it was set; a send failure clears the flag; a heartbeat sets it; a failure clears it only when stale |
| Workers.ReplayAlternates | threads/workers.py:36-79 | over any run of observations, loss and recovery messages alternate, and the final flag matches the message count |
| Workers.Link.Report | threads/workers.py:36-79 | the flag and the printed messages follow `Transition` |
| Workers.SenderWorker.Stop | threads/workers.py:46-47 | clears `running` |
| Workers.SenderWorker.Iterate | threads/workers.py:25-44 | while the flag is clear nothing is dequeued or sent; otherwise the head JPEG is uploaded and acknowledged, and a failed upload clears the flag with one message |
| Workers.CommandPoller.constructor | threads/workers.py:50-56 | the last heartbeat starts at 0 |
| Workers.CommandPoller.Stop | threads/workers.py:83-84 | clears `running` and keeps the last heartbeat |
| Workers.CommandPoller.Iterate | threads/workers.py:58-81 | stopped: nothing changes, the command queue's unfinished count included; running: the flag follows `Transition`; the heartbeat time is recorded iff there is a heartbeat; a truthy command is queued, nothing otherwise |
| Workers.RecentFailureKeepsLink | threads/workers.py:74-79 | a failed poll within 5 s of the poller's last heartbeat never changes the flag and prints nothing |
| Workers.FailureBeforeHeartbeat | threads/workers.py:56-79 | for a poller whose last heartbeat is still 0, a failed poll after 5 s is stale and clears a set flag with a loss message |
| Workers.FirstFailedPoll | threads/workers.py:56-79 | a running poller with no heartbeat yet and the flag set: after a failed poll past 5 s, the flag is clear and one loss message is added |
| Workers.LowerIgnoresCase | threads/workers.py:99 | the lowered name has no ASCII capital, and lowering forgets the case of every ASCII letter |
| Workers.MatchIgnoresCase | threads/workers.py:99 | a device matches the keyword whatever the ASCII case of its name |
| Workers.FindTrigger | threads/workers.py:96-102 | the first listed device whose lower-cased name contains "ab shutter3"; None iff none does |
| Workers.FindsShutterByName | threads/workers.py:94-101 | "AB Shutter3 Keyboard" is found after a non-matching device |
| Workers.Admit | threads/workers.py:118-128 | the queue keeps its old items as a prefix; every added job is the oldest-frame job; an empty buffer adds none; a bounded queue never exceeds its capacity; at most one job per event |
| Workers.NonTriggersIgnored | threads/workers.py:119 | events other than a volume-down key-down (key-ups, repeats, other keys) add no job |
| Workers.AdmitShape | threads/workers.py:118-128 | the queue gains one copy of the oldest-frame job per key-down, up to the room left; other events add nothing |
| Workers.TriggerListener.FindTriggerDevice | threads/workers.py:96-102 | the search loop computes `FindTrigger` |
| Workers.TriggerListener.HandleEvents | threads/workers.py:118-128 | the event loop computes `Admit` and counts what it enqueued |
| Workers.TriggerListener.Stop | threads/workers.py:141-143 | clears `running` and keeps the device |
| Workers.TriggerListener.Iterate | threads/workers.py:106-139 | no device and none found: searching; a failed grab or a disconnection drops the device; a would-block keeps it; events are admitted, and the unfinished count grows by the number admitted |
| StreamApp.PartHead | stream_app.py:33-34 | a length only (37 bytes); the framing is stated by `Part` and `ParsePartRoundTrip` |
| StreamApp.Part | stream_app.py:33-34 | a chunk is the 37-byte header, then the frame bytes unchanged, then CR LF |
| StreamApp.ParsePart | stream_app.py:33-34 | a parsed body is 39 bytes (header and trailer) shorter than its chunk |
| StreamApp.ParsePartRoundTrip | stream_app.py:33-34 | every chunk parses back to the bytes it carries |
| StreamApp.ParsePartExact | stream_app.py:33-34 | a chunk that parses is exactly the part of its body |
| StreamApp.PartInjective | stream_app.py:33-34 | different frames give different chunks |
| StreamApp.StreamServer.UpdateFrame | stream_app.py:12-24 | the slot ends holding exactly the new encoding, or nothing if encoding failed; it never holds more than one |
| StreamApp.StreamServer.NextChunk | stream_app.py:26-40 | the queued frame framed as a part and acknowledged, or an empty part when nothing is queued |

## Left out

- Concurrency:
  - Threads run one loop pass per method call, one at a time.
  - Interleavings inside a pass are not modelled.
  - `get(timeout=…)` is modelled as `get_nowait`.
  - `time.sleep` and the `daemon` flags are left out.
- I/O and libraries outside the core:
  - The camera, GPIO, evdev, HTTP requests, Flask, audio playback, file writes, JPEG and base64 encoding, and `cv2.drawMarker` are left out.
  - A marker is recorded as a position and colour on a named canvas.
  - A JPEG is recorded as the frame content it encodes.
  - `posted` and `uploads` record the requests made, not whether they were delivered.
- OpenCV registration:
  - ORB, the kNN matcher, `findHomography`, the determinant, `perspectiveTransform` and `warpPerspective` are floating-point library calls.
  - They are given as a `CvOutcome` record. Only the guards and the match filters around them are modelled.
- The detector: its boxes are given as integer coordinates with a real confidence. The rounding of tensor values to integers is not modelled.
- `set_zoom`: floating-point crop-region arithmetic feeding a camera control.
- Processing.CalculateScore: requires the mask to cover the reference image. A smaller mask makes `mask[y, x]` raise IndexError, which is not modelled.
- Handles.Rescale: computes the exact quotient, truncated. Python first divides in floating point, which can differ for very large coordinates.
- Handles.HandleHitBia78: states nothing about the range of the score, because `calculate_score_bia7` is defined nowhere in the source. It is a parameter here.
- Importing the handlers: as written, importing utils/handles.py fails with ImportError, because `calculate_score_bia7` is undefined. The model treats the handlers as importable.
- Workers.Lower: lower-cases ASCII letters only. Python's `str.lower` covers all of Unicode.
- Workers.CommandPoller.Iterate:
  - A response is given as its status code and two fields. A body that is not JSON is not modelled.
  - The command queue is assumed unbounded, since it is created outside the core.
- Workers.TriggerListener.Iterate:
  - All events of one read share one capture time.
  - A disconnection in the middle of a batch is modelled as happening before the first event.
- MainLoop.CaptureLoop.Step: after the NameError, the `finally` clause stops the workers, the camera and GPIO. The model only stops the loop itself. KeyboardInterrupt is not modelled.
- The entry script that defines `SERVER_IS_CONNECTED` and `CALIBRATED_CENTER` is not part of this model.

## Findings

| source | as written | input that shows it | evidently intended | confidence | as-written member | corrected member |
|---|---|---|---|---|---|---|
| main.py:153 | the job tuple reads `capture_time`, which `run_main` never assigns, so the first trigger with a buffered frame and room in the queue raises NameError; nothing catches it, and the loop ends | any LOW→HIGH button edge after a frame was captured, with fewer than 5 jobs queued (`OnTrigger(1, 0)`) | take the capture time at the trigger and enqueue `(copy of newest frame, time, centre)`, the three fields app.py:40 unpacks | high (not executed) | MainLoop.OnTrigger | MainLoop.OnTriggerFixed |
| utils/handles.py:102 | `hit_info['shot_point']` is evaluated even after the `hit_info is None` test, so the "Không xử lý được" record is never returned and TypeError is raised instead | `handle_miss(None, t, frame)` | for no hit info, return the "Không xử lý được" record with score 0 | high (not executed) | Handles.HandleMiss | Handles.HandleMissFixed |
