/** The capture loop of main.py: every camera frame goes into the ring
    buffer, gets the aiming cross drawn on it and is offered to the
    preview queue; a rising edge of the trigger button submits the newest
    buffered frame for processing. The button, the camera and the clock
    are parameters of each step. */
module MainLoop {
  import opened Common
  import opened Queues
  import App

  datatype Level = Low | High

  /** `current == HIGH and previous == LOW`. */
  predicate RisingEdge(previous: Level, current: Level)
  {
    previous == Low && current == High
  }

  /** How many times a run of button readings fires the trigger, starting
      from the remembered level `previous`. */
  function Fires(previous: Level, levels: seq<Level>): (n: nat)
    ensures n <= |levels|
    decreases |levels|
  {
    if levels == [] then 0
    else (if RisingEdge(previous, levels[0]) then 1 else 0) + Fires(levels[0], levels[1..])
  }

  /** Holding the button down for any number of iterations fires once. */
  lemma {:induction false} HoldingFiresOnce(k: nat)
    requires k > 0
    ensures Fires(Low, seq(k, _ => High)) == 1
  {
    var levels := seq(k, _ => High);
    assert levels[1..] == seq(k - 1, _ => High);
    HeldHighNeverFires(k - 1);
  }

  lemma {:induction false} HeldHighNeverFires(k: nat)
    ensures Fires(High, seq(k, _ => High)) == 0
  {
    if k > 0 {
      assert seq(k, _ => High)[1..] == seq(k - 1, _ => High);
      HeldHighNeverFires(k - 1);
    }
  }

  /** Every firing needs a release before it: over `n` readings the
      trigger fires at most `(n + 1) / 2` times, and at most `n / 2`
      times when the button starts pressed. */
  lemma {:induction false} FiresNeedRelease(previous: Level, levels: seq<Level>)
    ensures 2 * Fires(previous, levels) <= |levels| + (if previous == Low then 1 else 0)
    decreases |levels|
  {
    if levels != [] {
      FiresNeedRelease(levels[0], levels[1..]);
    }
  }

  const RingCapacity: nat := 2
  const PreviewCapacity: nat := 10
  const ProcessingCapacity: nat := 5

  /** What the trigger branch did. */
  datatype TriggerOutcome = NoTrigger | Enqueued | QueueFull | BufferEmpty | Crashed(error: PyError)

  /** The trigger branch as written: building the job reads
      `capture_time`, which `run_main` never assigns. */
  function OnTrigger(buffered: nat, queued: nat): (t: TriggerOutcome)
    ensures t != Enqueued && t != NoTrigger
    ensures t.Crashed? <==> buffered > 0 && queued < ProcessingCapacity
    ensures t.Crashed? ==> t.error == NameError
  {
    if buffered > 0 then
      if queued < ProcessingCapacity then Crashed(NameError) else QueueFull
    else BufferEmpty
  }

  /** The trigger branch with the job built from a capture time that is
      actually taken: it enqueues exactly when the original would have
      crashed, and otherwise agrees with it. */
  function OnTriggerFixed(buffered: nat, queued: nat): (t: TriggerOutcome)
    ensures t == Enqueued <==> buffered > 0 && queued < ProcessingCapacity
    ensures !t.Crashed? && t != NoTrigger
    ensures t == Enqueued <==> OnTrigger(buffered, queued).Crashed?
    ensures t != Enqueued ==> t == OnTrigger(buffered, queued)
  {
    if buffered > 0 then
      if queued < ProcessingCapacity then Enqueued else QueueFull
    else BufferEmpty
  }

  /** `if q.qsize() < q.maxsize: q.put(x)`: offer an item, dropping it
      when the queue is at capacity. */
  function Offer<T>(items: seq<T>, x: T, capacity: nat): (r: seq<T>)
    ensures |items| <= capacity ==> |r| <= capacity
    ensures r == items || r == items + [x]
    ensures r == items + [x] <==> |items| < capacity
  {
    if |items| < capacity then items + [x] else items
  }

  /** The first shot after start-up, with one frame buffered and an empty
      processing queue, crashes as written and is enqueued once fixed. */
  lemma FirstShotCrashes()
    ensures OnTrigger(1, 0) == Crashed(NameError)
    ensures OnTriggerFixed(1, 0) == Enqueued
  {
  }

  /** What one pass of the `while True` loop did. */
  datatype StepOutcome = Halted | Skipped | Ran(trigger: TriggerOutcome)

  class CaptureLoop {
    const ring: RingBuffer
    const previewQueue: BoundedQueue<Jpeg>
    const processingQueue: BoundedQueue<QueuedItem>
    var previousButton: Level
    /** False once an uncaught exception has ended `run_main`. */
    var running: bool

    ghost predicate Valid()
      reads this, ring, previewQueue, processingQueue
    {
      && ring.Valid() && ring.maxlen == RingCapacity
      && previewQueue.Valid() && previewQueue.maxsize == PreviewCapacity
      && processingQueue.Valid() && processingQueue.maxsize == ProcessingCapacity
    }

    /** The queues of `run_main` and the module-level ring buffer, empty,
        with the button remembered as released. */
    constructor ()
      ensures Valid() && running && previousButton == Low
      ensures fresh(ring) && fresh(previewQueue) && fresh(processingQueue)
      ensures ring.frames == [] && previewQueue.items == [] && processingQueue.items == []
      ensures processingQueue.unfinished == 0
    {
      ring := new RingBuffer(RingCapacity);
      previewQueue := new BoundedQueue(PreviewCapacity);
      processingQueue := new BoundedQueue(ProcessingCapacity);
      previousButton := Low;
      running := true;
    }

    /** Buffer the frame, draw the cross on it in place (the buffered
        reference sees the cross too) and offer its JPEG to the preview
        queue, dropping it when that queue is full. */
    method CaptureAndPreview(frame: Frame)
      requires Valid()
      modifies ring, frame, previewQueue
      ensures Valid()
      ensures ring.frames == Window(old(ring.frames) + [frame], RingCapacity)
      ensures frame.cross && ring.frames[|ring.frames| - 1] == frame
      ensures previewQueue.items == Offer(old(previewQueue.items), frame.Snapshot(), PreviewCapacity)
      ensures previewQueue.unfinished ==
                old(previewQueue.unfinished) + (if |old(previewQueue.items)| < PreviewCapacity then 1 else 0)
    {
      ring.Append(frame);
      frame.cross := true;
      var jpeg := frame.Snapshot();
      if |previewQueue.items| < previewQueue.maxsize {
        previewQueue.Put(jpeg);
      }
    }

    /** One pass of the loop as written. No job ever reaches the
        processing queue: a trigger with room in it ends the loop with
        NameError. */
    method Step(frame: Frame?, button: Level) returns (o: StepOutcome)
      requires Valid()
      modifies this, ring, previewQueue, frame
      ensures Valid()
      ensures processingQueue.items == old(processingQueue.items)
      ensures !old(running) || frame == null ==>
                o == (if old(running) then Skipped else Halted)
                && ring.frames == old(ring.frames) && previewQueue.items == old(previewQueue.items)
                && previewQueue.unfinished == old(previewQueue.unfinished)
                && previousButton == old(previousButton) && running == old(running)
                && (frame != null ==> frame.cross == old(frame.cross))
      ensures old(running) && frame != null ==>
                && ring.frames == Window(old(ring.frames) + [frame], RingCapacity)
                && frame.cross
                && previewQueue.items == Offer(old(previewQueue.items), frame.Snapshot(), PreviewCapacity)
                && previewQueue.unfinished ==
                     old(previewQueue.unfinished) + (if |old(previewQueue.items)| < PreviewCapacity then 1 else 0)
                && o == Ran(if RisingEdge(old(previousButton), button)
                            then OnTrigger(|ring.frames|, |processingQueue.items|) else NoTrigger)
                && o.trigger != BufferEmpty
                && (o.trigger.Crashed? <==> !running)
                && previousButton == (if running then button else old(previousButton))
    {
      if !running {
        return Halted;
      }
      if frame == null {
        return Skipped;
      }
      CaptureAndPreview(frame);
      var trigger := NoTrigger;
      if button == High && previousButton == Low {
        if |ring.frames| > 0 {
          if |processingQueue.items| < processingQueue.maxsize {
            trigger := Crashed(NameError);
            running := false;
            return Ran(trigger);
          } else {
            trigger := QueueFull;
          }
        } else {
          trigger := BufferEmpty;
        }
      }
      previousButton := button;
      return Ran(trigger);
    }

    /** One pass of the loop with the job built as the processing worker
        unpacks it: the newest buffered frame, copied, the capture time
        `now`, and no calibrated centre. */
    method StepFixed(frame: Frame?, button: Level, now: Timestamp) returns (o: StepOutcome)
      requires Valid()
      modifies this, ring, previewQueue, processingQueue, frame
      ensures Valid() && running == old(running)
      ensures !old(running) || frame == null ==>
                o == (if old(running) then Skipped else Halted)
                && ring.frames == old(ring.frames) && previewQueue.items == old(previewQueue.items)
                && previewQueue.unfinished == old(previewQueue.unfinished)
                && processingQueue.items == old(processingQueue.items)
                && processingQueue.unfinished == old(processingQueue.unfinished)
                && previousButton == old(previousButton)
                && (frame != null ==> frame.cross == old(frame.cross))
      ensures old(running) && frame != null ==>
                && ring.frames == Window(old(ring.frames) + [frame], RingCapacity)
                && frame.cross
                && previewQueue.items == Offer(old(previewQueue.items), frame.Snapshot(), PreviewCapacity)
                && previewQueue.unfinished ==
                     old(previewQueue.unfinished) + (if |old(previewQueue.items)| < PreviewCapacity then 1 else 0)
                && previousButton == button
                && o == Ran(if RisingEdge(old(previousButton), button)
                            then OnTriggerFixed(|ring.frames|, |old(processingQueue.items)|) else NoTrigger)
                && o.trigger != BufferEmpty
                && processingQueue.items == old(processingQueue.items)
                     + (if o.trigger == Enqueued then [Triple(ring.Newest().value, now, None)] else [])
                && (o.trigger == Enqueued ==> ring.Newest() == Some(frame.Snapshot()))
                && processingQueue.unfinished == old(processingQueue.unfinished) + (if o.trigger == Enqueued then 1 else 0)
    {
      if !running {
        return Halted;
      }
      if frame == null {
        return Skipped;
      }
      CaptureAndPreview(frame);
      var trigger := NoTrigger;
      if button == High && previousButton == Low {
        if |ring.frames| > 0 {
          if |processingQueue.items| < processingQueue.maxsize {
            var newest := ring.Newest();
            processingQueue.Put(Triple(newest.value, now, None));
            trigger := Enqueued;
          } else {
            trigger := QueueFull;
          }
        } else {
          trigger := BufferEmpty;
        }
      }
      previousButton := button;
      return Ran(trigger);
    }
  }

  /** The job the corrected loop submits is one the processing worker
      unpacks; the two-field job of the original is one it refuses. */
  lemma FixedJobUnpacks(frame: FrameData, now: Timestamp)
    ensures App.Unpack(Triple(frame, now, None)) == Ok((frame, now, None))
    ensures App.Unpack(Pair(frame, now)) == Raised(ValueError)
  {
  }

  /** The preview sender of main.py: posts every preview JPEG it takes off
      its queue to /video_upload, ignoring delivery failures. */
  class PreviewSender {
    const frameQueue: BoundedQueue<Jpeg>
    var running: bool
    /** Every JPEG handed to an upload request, in order. */
    var uploads: seq<Jpeg>

    ghost predicate Valid()
      reads this, frameQueue
    {
      frameQueue.Valid()
    }

    constructor (frameQueue: BoundedQueue<Jpeg>)
      requires frameQueue.Valid()
      ensures Valid() && this.frameQueue == frameQueue && running && uploads == []
    {
      this.frameQueue := frameQueue;
      running := true;
      uploads := [];
    }

    method Stop()
      modifies this
      ensures !running && uploads == old(uploads)
    {
      running := false;
    }

    /** One pass of `run`: the oldest JPEG, if any, is uploaded and
        acknowledged with `task_done`, whether or not the upload succeeded. */
    method Iterate() returns (sent: Option<Jpeg>)
      requires Valid()
      modifies this, frameQueue
      ensures Valid() && running == old(running)
      ensures !old(running) || old(frameQueue.items) == [] ==>
                sent == None && uploads == old(uploads) && frameQueue.items == old(frameQueue.items)
                && frameQueue.unfinished == old(frameQueue.unfinished)
      ensures old(running) && old(frameQueue.items) != [] ==>
                sent == Some(old(frameQueue.items)[0]) && frameQueue.items == old(frameQueue.items)[1..]
                && uploads == old(uploads) + [sent.value]
                && frameQueue.unfinished == old(frameQueue.unfinished) - 1
    {
      if !running {
        return None;
      }
      sent := frameQueue.GetNowait();
      if sent.Some? {
        uploads := uploads + [sent.value];
        frameQueue.TaskDone();
      }
    }
  }
}
