/** The processing worker of app.py: it takes capture jobs off the
    processing queue, classifies the shot, scores it on the reference
    target face and posts one result record per job. The detector's boxes
    and the OpenCV outcome for a job are given as parameters. */
module App {
  import opened Common
  import opened Queues
  import opened Processing
  import opened Handles

  /** The confidence threshold used for detection and classification. */
  const ConfThreshold: real := 0.6

  /** `frame, capture_time, center_coords = item`: a job of any other
      arity raises ValueError. */
  function Unpack(item: QueuedItem): (r: Result<(FrameData, Timestamp, Option<Point>)>)
    ensures r.Ok? <==> item.Triple?
    ensures r.Raised? ==> r.error == ValueError
    ensures r.Ok? ==> r.value.0 == item.frame && r.value.1 == item.time && r.value.2 == item.center
  {
    match item
    case Pair(_, _) => Raised(ValueError)
    case Triple(f, t, c) => Ok((f, t, c))
  }

  /** What `_process_frame` sends once the classifier has answered:
      scored on the reference face for a hit with a crop, 0 and
      "Không trúng mục tiêu" for a miss, 0 and "Không xử lý được"
      otherwise. Markers are drawn red on every path. */
  function Decide(hr: HitResult, frame: FrameData, time: Timestamp, cv: CvOutcome,
                  ref: Option<ImageDims>, mask: Option<Mask>): (r: Result<Payload>)
    requires ref.Some? && mask.Some? ==> Covers(mask.value, ref.value)
    ensures r.Raised? ==> hr.status == Hit && hr.crop.Some?
    ensures r.Ok? ==> r.value.time == time && r.value.score.Points? && IsScore(r.value.score.n)
    ensures r.Ok? ==> r.value.image.color == Red
    ensures r.Ok? ==> (r.value.target == TargetBia4 <==> hr.status == Hit && hr.crop.Some?)
    ensures r.Ok? ==> (r.value.target == TargetMissed <==> hr.status == Miss && !(hr.status == Hit && hr.crop.Some?))
    ensures r.Ok? ==> (r.value.target == TargetUnresolved <==> hr.status != Miss && !(hr.status == Hit && hr.crop.Some?))
    ensures r.Ok? && r.value.target != TargetBia4 ==>
              r.value.score == Points(0) && r.value.image == Annotation(Captured(frame), Some(hr.point), Red)
  {
    if hr.status == Hit && hr.crop.Some? then
      if ref.None? then Raised(AttributeError)
      else
        var reg := WarpCropToOriginal(ref, hr.crop, Some(hr.point), cv, DefaultMinInliers);
        match ChooseShot(reg, hr.point, ref.value, hr.crop)
        case Raised(e) => Raised(e)
        case Ok(shot) =>
          Ok(Payload(time, TargetBia4, Points(CalculateScore(Some(ShotPoint(shot)), ref, mask)),
                     Annotation(Reference, Some(ShotMarker(shot)), Red)))
    else if hr.status == Miss then
      Ok(Payload(time, TargetMissed, Points(0), Annotation(Captured(frame), Some(hr.point), Red)))
    else
      Ok(Payload(time, TargetUnresolved, Points(0), Annotation(Captured(frame), Some(hr.point), Red)))
  }

  /** The whole of `_process_frame` for one job. */
  function FrameOutcome(frame: FrameData, time: Timestamp, center: Option<Point>, results: seq<seq<Detection>>,
                        cv: CvOutcome, ref: Option<ImageDims>, mask: Option<Mask>): (r: Result<Payload>)
    requires ref.Some? && mask.Some? ==> Covers(mask.value, ref.value)
    ensures r.Ok? ==> r.value.target != TargetUnresolved
    ensures r.Ok? ==> (r.value.target == TargetBia4 <==> Classify(results, frame, center, ConfThreshold).status == Hit)
  {
    Decide(Classify(results, frame, center, ConfThreshold), frame, time, cv, ref, mask)
  }

  /** One job taken off the queue: unpacked, then processed. */
  function JobOutcome(item: QueuedItem, results: seq<seq<Detection>>, cv: CvOutcome,
                      ref: Option<ImageDims>, mask: Option<Mask>): (r: Result<Payload>)
    requires ref.Some? && mask.Some? ==> Covers(mask.value, ref.value)
    ensures item.Pair? ==> r == Raised(ValueError)
    ensures item.Triple? ==> r == FrameOutcome(item.frame, item.time, item.center, results, cv, ref, mask)
  {
    match Unpack(item)
    case Raised(e) => Raised(e)
    case Ok(job) => FrameOutcome(job.0, job.1, job.2, results, cv, ref, mask)
  }

  /** A hit whose box lies inside the frame is always scored when the
      reference face is loaded: the fallback never divides by zero. */
  lemma HitInsideFrameIsScored(frame: FrameData, time: Timestamp, center: Option<Point>,
                               results: seq<seq<Detection>>, cv: CvOutcome, ref: ImageDims, mask: Option<Mask>)
    requires mask.Some? ==> Covers(mask.value, ref)
    requires |results| > 0
    requires forall d :: d in results[0] ==> 0 <= d.x1 && d.x2 <= frame.width && 0 <= d.y1 && d.y2 <= frame.height
    ensures FrameOutcome(frame, time, center, results, cv, Some(ref), mask).Ok?
  {
    var hr := Classify(results, frame, center, ConfThreshold);
    if hr.status == Hit {
      ClassifyHit(results, frame, center, ConfThreshold);
      var aim := AimPoint(center, frame);
      var i :| 0 <= i < |results[0]|
              && Qualifies(results[0][i], ConfThreshold, aim)
              && hr.crop == Some(CropOf(frame, results[0][i]));
      var d := results[0][i];
      assert d in results[0];
      CropOfInsideBox(frame, d);
    }
    DecideWithNonEmptyCrop(hr, frame, time, cv, ref, mask);
  }

  /** With the reference loaded, a hit whose crop is not empty is scored. */
  lemma DecideWithNonEmptyCrop(hr: HitResult, frame: FrameData, time: Timestamp, cv: CvOutcome,
                               ref: ImageDims, mask: Option<Mask>)
    requires mask.Some? ==> Covers(mask.value, ref)
    requires hr.crop.Some? ==> hr.crop.value.width > 0 && hr.crop.value.height > 0
    ensures Decide(hr, frame, time, cv, Some(ref), mask).Ok?
  {
    if hr.status == Hit && hr.crop.Some? {
      var reg := WarpCropToOriginal(Some(ref), hr.crop, Some(hr.point), cv, DefaultMinInliers);
      assert ChooseShot(reg, hr.point, ref, hr.crop).Ok?;
    }
  }

  /** A hit whose reference face is missing fails on the copy of the
      reference image, before registration is tried. */
  lemma HitWithoutReference(frame: FrameData, time: Timestamp, center: Option<Point>,
                            results: seq<seq<Detection>>, cv: CvOutcome, mask: Option<Mask>)
    requires Classify(results, frame, center, ConfThreshold).status == Hit
    ensures FrameOutcome(frame, time, center, results, cv, None, mask) == Raised(AttributeError)
  {
  }

  /** The worker's hit path agrees with `handle_hit_bia_so_4` on outcome,
      target, score and marker position; only the fallback marker's
      colour differs (red here, yellow there). */
  lemma AgreesWithBia4Handler(hr: HitResult, frame: FrameData, time: Timestamp, cv: CvOutcome,
                              ref: Option<ImageDims>, mask: Option<Mask>)
    requires ref.Some? && mask.Some? ==> Covers(mask.value, ref.value)
    requires hr.status == Hit && hr.crop.Some?
    ensures var a := Decide(hr, frame, time, cv, ref, mask);
            var h := HandleHitBia4(HitInfo(hr.crop, hr.point), time, ref, mask, cv);
            && a.Raised? == h.Raised?
            && (a.Raised? ==> a.error == h.error)
            && (a.Ok? ==> a.value == h.value.(image := h.value.image.(color := Red)))
  {
  }

  /** What one pass of the worker's `run` loop did. */
  datatype WorkerStep = Stopped | Idle | Processed(payload: Payload) | Failed(error: PyError)

  class ProcessingWorker {
    const queue: BoundedQueue<QueuedItem>
    /** The reference face `bia_so_4.jpg` (None when it failed to load). */
    const reference: Option<ImageDims>
    /** The scoring mask (None when it failed to load). */
    const mask: Option<Mask>
    var running: bool
    /** Every record posted to /processed_data_upload, in order. */
    var posted: seq<Payload>
    /** Every exception the loop caught and logged, in order. */
    var errors: seq<PyError>

    ghost predicate Valid()
      reads this, queue
    {
      && queue.Valid()
      && (reference.Some? && mask.Some? ==> Covers(mask.value, reference.value))
    }

    constructor (queue: BoundedQueue<QueuedItem>, reference: Option<ImageDims>, mask: Option<Mask>)
      requires queue.Valid()
      requires reference.Some? && mask.Some? ==> Covers(mask.value, reference.value)
      ensures Valid()
      ensures this.queue == queue && this.reference == reference && this.mask == mask
      ensures running && posted == [] && errors == []
    {
      this.queue := queue;
      this.reference := reference;
      this.mask := mask;
      running := true;
      posted := [];
      errors := [];
    }

    method Stop()
      modifies this
      ensures !running && posted == old(posted) && errors == old(errors)
    {
      running := false;
    }

    /** `_process_frame`: classify, build the record step by step, post it.
        An exception leaves nothing posted. */
    method ProcessFrame(frame: FrameData, time: Timestamp, center: Option<Point>,
                        results: seq<seq<Detection>>, cv: CvOutcome) returns (r: Result<Payload>)
      requires Valid()
      modifies this
      ensures Valid()
      ensures r == FrameOutcome(frame, time, center, results, cv, reference, mask)
      ensures posted == old(posted) + (if r.Ok? then [r.value] else [])
      ensures errors == old(errors) && running == old(running)
    {
      var hr := CheckObjectCenter(results, frame, center, ConfThreshold);
      var resultData := Payload(time, TargetBia4, Pending, Annotation(Captured(frame), None, Red));
      var processedImage := Annotation(Captured(frame), None, Red);
      if hr.status == Hit && hr.crop.Some? {
        if reference.None? {
          return Raised(AttributeError);
        }
        processedImage := Annotation(Reference, None, Red);
        var reg := WarpCropToOriginal(reference, hr.crop, Some(hr.point), cv, DefaultMinInliers);
        var score: int;
        if reg.warped.Some? && reg.point.Some? {
          score := CalculateScore(reg.point, reference, mask);
          processedImage := processedImage.(marker := Some(Point(Trunc(reg.point.value.x), Trunc(reg.point.value.y))));
        } else {
          var x := Rescale(hr.point.x, reference.value.width, hr.crop.value.width);
          if x.Raised? {
            return Raised(x.error);
          }
          var y := Rescale(hr.point.y, reference.value.height, hr.crop.value.height);
          if y.Raised? {
            return Raised(y.error);
          }
          score := CalculateScore(Some(ToReal(Point(x.value, y.value))), reference, mask);
          processedImage := processedImage.(marker := Some(Point(x.value, y.value)));
        }
        resultData := resultData.(score := Points(score));
      } else if hr.status == Miss {
        resultData := resultData.(score := Points(0), target := TargetMissed);
        processedImage := Annotation(Captured(frame), Some(hr.point), Red);
      } else {
        resultData := resultData.(score := Points(0), target := TargetUnresolved);
        processedImage := Annotation(Captured(frame), Some(hr.point), Red);
      }
      resultData := resultData.(image := processedImage);
      posted := posted + [resultData];
      return Ok(resultData);
    }

    /** One pass of `run`: nothing once stopped; nothing when the queue is
        empty; otherwise the oldest job is taken and processed, `task_done`
        is called only when processing returned normally, and an exception
        is logged. */
    method Iterate(results: seq<seq<Detection>>, cv: CvOutcome) returns (step: WorkerStep)
      requires Valid()
      modifies this, queue
      ensures Valid()
      ensures running == old(running)
      ensures !old(running) ==> step == Stopped && queue.items == old(queue.items)
      ensures old(running) && old(queue.items) == [] ==> step == Idle && queue.items == []
      ensures step.Stopped? || step.Idle? ==>
                posted == old(posted) && errors == old(errors) && queue.unfinished == old(queue.unfinished)
      ensures old(running) && old(queue.items) != [] ==>
                var r := JobOutcome(old(queue.items)[0], results, cv, reference, mask);
                && queue.items == old(queue.items)[1..]
                && step == (if r.Ok? then Processed(r.value) else Failed(r.error))
                && posted == old(posted) + (if r.Ok? then [r.value] else [])
                && errors == old(errors) + (if r.Raised? then [r.error] else [])
                && queue.unfinished == old(queue.unfinished) - (if r.Ok? then 1 else 0)
    {
      if !running {
        return Stopped;
      }
      var item := queue.GetNowait();
      if item.None? {
        return Idle;
      }
      var job := Unpack(item.value);
      if job.Raised? {
        errors := errors + [job.error];
        return Failed(job.error);
      }
      var (frame, time, center) := job.value;
      var r := ProcessFrame(frame, time, center, results, cv);
      if r.Raised? {
        errors := errors + [r.error];
        return Failed(r.error);
      }
      queue.TaskDone();
      return Processed(r.value);
    }
  }
}
