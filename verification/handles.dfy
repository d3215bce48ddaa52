/** The per-target result handlers of utils/handles.py: score the
    registered shot point, or fall back to rescaling the crop-relative
    point, and build the result record. */
module Handles {
  import opened Common
  import opened Processing

  /** `hit_info`: the crop and the crop-relative shot point. */
  datatype HitInfo = HitInfo(crop: Option<Crop>, shotPoint: Point)

  /** `int(a * big / small)` for a whole `a`: ZeroDivisionError for an
      empty axis, otherwise the quotient truncated toward zero. */
  function Rescale(a: int, big: nat, small: nat): (r: Result<int>)
    ensures r.Raised? <==> small == 0
    ensures r.Raised? ==> r.error == ZeroDivisionError
    ensures r.Ok? && a >= 0 ==> r.value * small <= a * big < (r.value + 1) * small
  {
    if small == 0 then Raised(ZeroDivisionError)
    else if a * big >= 0 then Ok((a * big) / small)
    else Ok(-((-(a * big)) / small))
  }

  lemma MulMonotone(x: int, y: int, k: nat)
    requires x <= y
    ensures x * k <= y * k
  {
    assert y * k - x * k == (y - x) * k;
  }

  /** A point inside the crop lands inside the reference image's range,
      its far edge included. */
  lemma RescaleBounds(a: int, big: nat, small: nat)
    requires 0 <= a <= small && small > 0
    ensures Rescale(a, big, small).Ok?
    ensures 0 <= Rescale(a, big, small).value <= big
    ensures a == small ==> Rescale(a, big, small).value == big
  {
    var r := Rescale(a, big, small).value;
    QuotientBounds(a, big, small, r);
  }

  lemma QuotientBounds(a: nat, big: nat, small: nat, r: int)
    requires a <= small && small > 0
    requires r * small <= a * big < (r + 1) * small
    ensures 0 <= r <= big
    ensures a == small ==> r == big
  {
    MulMonotone(a, small, big);
    assert a * big <= small * big;
    if r < 0 {
      MulMonotone(r + 1, 0, small);
      assert false;
    }
    if r > big {
      MulMonotone(big + 1, r, small);
      assert false;
    }
    if a == small && r < big {
      MulMonotone(r + 1, big, small);
      assert false;
    }
  }

  /** The point that is scored: the registered one, or the crop-relative
      one stretched to the reference size. */
  datatype Shot = Registered(p: PointF) | Rescaled(q: Point)

  function ShotPoint(s: Shot): PointF
  {
    match s
    case Registered(p) => p
    case Rescaled(q) => ToReal(q)
  }

  /** Where the marker is drawn: `(int(x), int(y))` of the scored point. */
  function ShotMarker(s: Shot): (m: Point)
    ensures m == Point(Trunc(ShotPoint(s).x), Trunc(ShotPoint(s).y))
  {
    match s
    case Registered(p) => Point(Trunc(p.x), Trunc(p.y))
    case Rescaled(q) => TruncOfWhole(q.x); TruncOfWhole(q.y); q
  }

  /** The registered point when registration returned both outputs;
      otherwise the fallback rescale, which reads the crop's shape. */
  function ChooseShot(reg: Registration, rel: Point, ref: ImageDims, crop: Option<Crop>): (r: Result<Shot>)
    ensures reg.warped.Some? && reg.point.Some? ==> r == Ok(Registered(reg.point.value))
    ensures !(reg.warped.Some? && reg.point.Some?) ==>
      (r.Raised? <==> crop.None? || crop.value.width == 0 || crop.value.height == 0)
    ensures !(reg.warped.Some? && reg.point.Some?) && r.Ok? ==>
      r.value == Rescaled(Point(Rescale(rel.x, ref.width, crop.value.width).value,
                                Rescale(rel.y, ref.height, crop.value.height).value))
  {
    if reg.warped.Some? && reg.point.Some? then Ok(Registered(reg.point.value))
    else if crop.None? then Raised(AttributeError)
    else match Rescale(rel.x, ref.width, crop.value.width)
      case Raised(e) => Raised(e)
      case Ok(x) =>
        match Rescale(rel.y, ref.height, crop.value.height)
        case Raised(e) => Raised(e)
        case Ok(y) => Ok(Rescaled(Point(x, y)))
  }

  /** A shot on the right or bottom edge of the box is rescaled onto the
      reference image's width or height, one past its last pixel, and so
      scores 0. */
  lemma FallbackOnFarEdgeScoresZero(rel: Point, ref: ImageDims, crop: Crop, mask: Option<Mask>)
    requires crop.width > 0 && crop.height > 0
    requires 0 <= rel.x <= crop.width && 0 <= rel.y <= crop.height
    requires rel.x == crop.width || rel.y == crop.height
    requires mask.Some? ==> Covers(mask.value, ref)
    ensures var r := ChooseShot(Registration(None, None), rel, ref, Some(crop));
            r.Ok? && CalculateScore(Some(ShotPoint(r.value)), Some(ref), mask) == 0
  {
    RescaleBounds(rel.x, ref.width, crop.width);
    RescaleBounds(rel.y, ref.height, crop.height);
    var r := ChooseShot(Registration(None, None), rel, ref, Some(crop));
    TruncOfWhole(r.value.q.x);
    TruncOfWhole(r.value.q.y);
  }

  /** The marker colour: red for a registered point, yellow for the fallback. */
  function HandlerColor(s: Shot): Color
  {
    if s.Registered? then Red else Yellow
  }

  /** The hit handling shared by both target faces, with the scorer given. */
  function HandleHit(target: string, hit: HitInfo, time: Timestamp, ref: Option<ImageDims>,
                     cv: CvOutcome, score: PointF -> int): (r: Result<Payload>)
    ensures r.Raised? ==> ref.None? || ChooseShot(WarpCropToOriginal(ref, hit.crop, Some(hit.shotPoint), cv, DefaultMinInliers),
                                                   hit.shotPoint, ref.value, hit.crop).Raised?
    ensures r.Ok? ==> r.value.time == time && r.value.target == target && r.value.image.canvas == Reference
  {
    var reg := WarpCropToOriginal(ref, hit.crop, Some(hit.shotPoint), cv, DefaultMinInliers);
    if ref.None? then Raised(AttributeError)
    else match ChooseShot(reg, hit.shotPoint, ref.value, hit.crop)
      case Raised(e) => Raised(e)
      case Ok(shot) =>
        Ok(Payload(time, target, Points(score(ShotPoint(shot))),
                   Annotation(Reference, Some(ShotMarker(shot)), HandlerColor(shot))))
  }

  /** `handle_hit_bia_so_4`: target "Bia số 4", scored with `calculate_score`. */
  function HandleHitBia4(hit: HitInfo, time: Timestamp, ref: Option<ImageDims>, mask: Option<Mask>,
                         cv: CvOutcome): (r: Result<Payload>)
    requires ref.Some? && mask.Some? ==> Covers(mask.value, ref.value)
    ensures r.Ok? ==> r.value.target == TargetBia4 && r.value.score.Points? && IsScore(r.value.score.n)
    ensures r.Raised? <==>
              (ref.None? ||
               ChooseShot(WarpCropToOriginal(ref, hit.crop, Some(hit.shotPoint), cv, DefaultMinInliers),
                          hit.shotPoint, ref.value, hit.crop).Raised?)
  {
    HandleHit(TargetBia4, hit, time, ref, cv, p => CalculateScore(Some(p), ref, mask))
  }

  /** `handle_hit_bia_so_7_8`: the same branching, target "Bia số 7-8",
      scored by `scoreBia7` (the function the module imports under the
      name `calculate_score_bia7`). */
  function HandleHitBia78(hit: HitInfo, time: Timestamp, ref: Option<ImageDims>, cv: CvOutcome,
                          scoreBia7: PointF -> int): (r: Result<Payload>)
    ensures r.Ok? ==> r.value.target == TargetBia78 && r.value.score.Points?
  {
    HandleHit(TargetBia78, hit, time, ref, cv, scoreBia7)
  }

  /** With both registration outputs present, the bia-4 handler scores the
      registered point and marks it red; otherwise it scores the rescaled
      point and marks it yellow. */
  lemma HandleHitBia4Scoring(hit: HitInfo, time: Timestamp, ref: ImageDims, mask: Option<Mask>, cv: CvOutcome)
    requires mask.Some? ==> Covers(mask.value, ref)
    ensures var reg := WarpCropToOriginal(Some(ref), hit.crop, Some(hit.shotPoint), cv, DefaultMinInliers);
            var r := HandleHitBia4(hit, time, Some(ref), mask, cv);
            && (reg.warped.Some? && reg.point.Some? ==>
                  r == Ok(Payload(time, TargetBia4, Points(CalculateScore(reg.point, Some(ref), mask)),
                                  Annotation(Reference, Some(Point(Trunc(reg.point.value.x), Trunc(reg.point.value.y))), Red))))
            && (!(reg.warped.Some? && reg.point.Some?) && r.Ok? ==>
                  var x := Rescale(hit.shotPoint.x, ref.width, hit.crop.value.width).value;
                  var y := Rescale(hit.shotPoint.y, ref.height, hit.crop.value.height).value;
                  r.value.score == Points(CalculateScore(Some(ToReal(Point(x, y))), Some(ref), mask))
                  && r.value.image == Annotation(Reference, Some(Point(x, y)), Yellow))
  {
  }

  /** The bia-7-8 handler given `calculate_score` would agree with the
      bia-4 handler in everything but the target name. */
  lemma Bia78LikeBia4(hit: HitInfo, time: Timestamp, ref: ImageDims, mask: Option<Mask>, cv: CvOutcome)
    requires mask.Some? ==> Covers(mask.value, ref)
    ensures var r4 := HandleHitBia4(hit, time, Some(ref), mask, cv);
            var r78 := HandleHitBia78(hit, time, Some(ref), cv, p => CalculateScore(Some(p), Some(ref), mask));
            r78 == if r4.Ok? then Ok(r4.value.(target := TargetBia78)) else r4
  {
  }

  /** `handle_miss` as written: the record for a missed shot; for
      `hit_info = None` it subscripts None and raises TypeError, so the
      "Không xử lý được" text it selects is never returned. */
  function HandleMiss(hit: Option<HitInfo>, time: Timestamp, frame: FrameData): (r: Result<Payload>)
    ensures hit.None? ==> r == Raised(TypeError)
    ensures hit.Some? ==> r.Ok? && r.value.target == TargetMissed && r.value.score == Points(0)
    ensures hit.Some? ==> r.value.image == Annotation(Captured(frame), Some(hit.value.shotPoint), Red)
  {
    var statusText := if hit.None? then TargetUnresolved else TargetMissed;
    match hit
    case None => Raised(TypeError)
    case Some(h) => Ok(Payload(time, statusText, Points(0), Annotation(Captured(frame), Some(h.shotPoint), Red)))
  }

  /** `handle_miss` as its None test intends: "Không xử lý được" exactly
      when there is no hit information, score 0 in every case, and the
      same record as written whenever that one does not raise. */
  function HandleMissFixed(hit: Option<HitInfo>, time: Timestamp, frame: FrameData): (p: Payload)
    ensures p.target == TargetUnresolved <==> hit.None?
    ensures p.target == TargetMissed <==> hit.Some?
    ensures p.score == Points(0) && p.time == time
    ensures hit.Some? ==> HandleMiss(hit, time, frame) == Ok(p)
  {
    match hit
    case None => Payload(time, TargetUnresolved, Points(0), Annotation(Captured(frame), None, Red))
    case Some(h) => Payload(time, TargetMissed, Points(0), Annotation(Captured(frame), Some(h.shotPoint), Red))
  }
}
