/** The shot-scoring logic of utils/processing.py: the display name of a
    detector class, the hit classifier, the match filters and failure
    guards of the registration step, and the banded score. */
module Processing {
  import opened Common

  // ---------------------------------------------------------------------
  // friendly_object_name

  /** `s.split('/')[-1]`: the text after the last '/'. */
  function LastSegment(s: string): (r: string)
    ensures '/' !in r
    ensures |r| <= |s| && r == s[|s| - |r|..]
    ensures |r| < |s| ==> s[|s| - |r| - 1] == '/'
  {
    if s == [] then []
    else if s[|s| - 1] == '/' then []
    else LastSegment(s[..|s| - 1]) + [s[|s| - 1]]
  }

  /** The position of the first `c` in `s`. */
  function IndexOf(s: string, c: char): (i: nat)
    requires c in s
    ensures i < |s| && s[i] == c && c !in s[..i]
  {
    if s[0] == c then 0 else 1 + IndexOf(s[1..], c)
  }

  /** `s.replace('_', ' ')`. */
  function Spaced(s: string): (r: string)
    ensures |r| == |s| && '_' !in r
    ensures forall i :: 0 <= i < |s| && s[i] != '_' ==> r[i] == s[i]
    ensures forall i :: 0 <= i < |s| && s[i] == '_' ==> r[i] == ' '
    ensures forall c :: c in r ==> c == ' ' || c in s
  {
    seq(|s|, i requires 0 <= i < |s| => if s[i] == '_' then ' ' else s[i])
  }

  /** A string holds a dot iff its multiset counts one. */
  lemma NoDotCountsZero(s: string)
    ensures '.' !in s <==> multiset(s)['.'] == 0
  {
  }

  /** Splitting a base name at its first dot. */
  lemma SplitAtFirstDot(base: string)
    requires '.' in base && '/' !in base
    ensures var i := IndexOf(base, '.');
            && multiset(base)['.'] == 1 + multiset(base[i + 1..])['.']
            && '/' !in base[..i] && '.' !in base[..i]
  {
    var i := IndexOf(base, '.');
    assert base == base[..i] + [base[i]] + base[i + 1..];
    assert forall c :: c in base[..i] ==> c in base;
  }

  /** The file name without its directories and extension, with '_' read
      as a space. `name, _ = base.split('.')` raises ValueError when the
      base name holds two or more dots. */
  function FriendlyObjectName(filename: string): (r: Result<string>)
    ensures r.Raised? <==> multiset(LastSegment(filename))['.'] >= 2
    ensures r.Raised? ==> r.error == ValueError
    ensures r.Ok? ==> '_' !in r.value && '/' !in r.value && '.' !in r.value
    ensures r.Ok? ==> |r.value| <= |filename|
  {
    var base := LastSegment(filename);
    NoDotCountsZero(base);
    if '.' !in base then
      Ok(Spaced(base))
    else
      var i := IndexOf(base, '.');
      SplitAtFirstDot(base);
      NoDotCountsZero(base[i + 1..]);
      if '.' in base[i + 1..] then Raised(ValueError)
      else Ok(Spaced(base[..i]))
  }

  /** The last segment after a '/' is whatever follows it. */
  lemma {:induction false} LastSegmentAfterSlash(dir: string, name: string)
    requires '/' !in name
    ensures LastSegment(dir + ['/'] + name) == name
    decreases |name|
  {
    var s := dir + ['/'] + name;
    if name != [] {
      var n := |name|;
      assert s[..|s| - 1] == dir + ['/'] + name[..n - 1];
      assert s[|s| - 1] == name[n - 1];
      LastSegmentAfterSlash(dir, name[..n - 1]);
      assert name == name[..n - 1] + [name[n - 1]];
    }
  }

  /** "models/paper_target.pt" is shown as "paper target": the name of a
      file under any directory, one extension dropped, '_' as space. */
  lemma FriendlyNameOfPath(dir: string, stem: string, ext: string)
    requires '/' !in stem && '/' !in ext && '.' !in stem && '.' !in ext
    ensures FriendlyObjectName(dir + "/" + stem + "." + ext) == Ok(Spaced(stem))
    ensures FriendlyObjectName(dir + "/" + stem) == Ok(Spaced(stem))
  {
    FriendlyNameWithExtension(dir, stem, ext);
    FriendlyNameWithoutExtension(dir, stem);
  }

  lemma FriendlyNameWithExtension(dir: string, stem: string, ext: string)
    requires '/' !in stem && '/' !in ext && '.' !in stem && '.' !in ext
    ensures FriendlyObjectName(dir + "/" + stem + "." + ext) == Ok(Spaced(stem))
  {
    var base := stem + "." + ext;
    var full := dir + "/" + stem + "." + ext;
    assert '/' !in base;
    assert full == dir + ['/'] + base;
    LastSegmentAfterSlash(dir, base);
    assert LastSegment(full) == base;
    FirstDotAfterStem(stem, ext);
    assert base[..|stem|] == stem;
    assert base[|stem| + 1..] == ext;
    assert FriendlyObjectName(full) == Ok(Spaced(base[..|stem|]));
  }

  /** In `stem.ext` the first dot is the one after the stem. */
  lemma FirstDotAfterStem(stem: string, ext: string)
    requires '.' !in stem
    ensures '.' in stem + "." + ext && IndexOf(stem + "." + ext, '.') == |stem|
  {
    var base := stem + "." + ext;
    assert base[|stem|] == '.';
    assert base[..|stem|] == stem;
  }

  lemma FriendlyNameWithoutExtension(dir: string, stem: string)
    requires '/' !in stem && '.' !in stem
    ensures FriendlyObjectName(dir + "/" + stem) == Ok(Spaced(stem))
  {
    assert dir + "/" + stem == dir + ['/'] + stem;
    LastSegmentAfterSlash(dir, stem);
  }

  /** A path without '/' is its own last segment. */
  lemma LastSegmentWithoutSlash(s: string)
    requires '/' !in s
    ensures LastSegment(s) == s
  {
  }

  /** A bare file name, with or without one extension, is shown as its
      stem with '_' read as a space. */
  lemma FriendlyNameOfFile(stem: string, ext: string)
    requires '/' !in stem && '/' !in ext && '.' !in stem && '.' !in ext
    ensures FriendlyObjectName(stem + "." + ext) == Ok(Spaced(stem))
    ensures FriendlyObjectName(stem) == Ok(Spaced(stem))
  {
    BareNameWithExtension(stem, ext);
    LastSegmentWithoutSlash(stem);
  }

  lemma BareNameWithExtension(stem: string, ext: string)
    requires '/' !in stem && '/' !in ext && '.' !in stem && '.' !in ext
    ensures FriendlyObjectName(stem + "." + ext) == Ok(Spaced(stem))
  {
    var base := stem + "." + ext;
    assert '/' !in base;
    LastSegmentWithoutSlash(base);
    FirstDotAfterStem(stem, ext);
    assert base[..|stem|] == stem;
    assert base[|stem| + 1..] == ext;
    assert FriendlyObjectName(base) == Ok(Spaced(base[..|stem|]));
  }

  /** A base name with two dots is refused. */
  lemma FriendlyNameTwoDots(dir: string, a: string, b: string, c: string)
    requires '/' !in a && '/' !in b && '/' !in c
    ensures FriendlyObjectName(dir + "/" + a + "." + b + "." + c).Raised?
  {
    var base := a + "." + b + "." + c;
    assert dir + "/" + a + "." + b + "." + c == dir + ['/'] + base;
    LastSegmentAfterSlash(dir, base);
    assert multiset(base)['.'] >= 2 by {
      assert base == a + ['.'] + b + ['.'] + c;
    }
  }

  // ---------------------------------------------------------------------
  // check_object_center

  /** The aim point: the calibrated centre when one is set, otherwise the
      middle pixel of the frame (`w // 2, h // 2`). */
  function AimPoint(calibrated: Option<Point>, frame: FrameData): (p: Point)
    ensures calibrated.Some? ==> p == calibrated.value
    ensures calibrated.None? ==> 0 <= 2 * p.x <= frame.width < 2 * p.x + 2
    ensures calibrated.None? ==> 0 <= 2 * p.y <= frame.height < 2 * p.y + 2
  {
    match calibrated
    case Some(c) => c
    case None => Point(frame.width / 2, frame.height / 2)
  }

  /** One detector box, its corners already rounded to integers. */
  datatype Detection = Detection(x1: int, y1: int, x2: int, y2: int, conf: real)

  /** "TRÚNG", "TRƯỢT", or any other status text. */
  datatype Status = Hit | Miss | Unresolved

  /** The size of the cropped region of the frame. */
  datatype Crop = Crop(width: nat, height: nat)

  /** The classifier's answer: status, crop and either the crop-relative
      shot point (on a hit) or the aim point used (on a miss). */
  datatype HitResult = HitResult(status: Status, crop: Option<Crop>, point: Point)

  /** The aim point lies in the box, bounds included. */
  predicate Contains(d: Detection, p: Point)
  {
    d.x1 <= p.x <= d.x2 && d.y1 <= p.y <= d.y2
  }

  /** A box that the classifier accepts as the hit target. */
  predicate Qualifies(d: Detection, threshold: real, p: Point)
  {
    d.conf >= threshold && Contains(d, p) && d.x2 - d.x1 > 0 && d.y2 - d.y1 > 0
  }

  /** The index of the first qualifying box, in detector order. */
  function FirstQualifying(boxes: seq<Detection>, threshold: real, p: Point): (r: Option<nat>)
    ensures r.Some? ==> r.value < |boxes| && Qualifies(boxes[r.value], threshold, p)
    ensures r.Some? ==> forall j :: 0 <= j < r.value ==> !Qualifies(boxes[j], threshold, p)
    ensures r.None? ==> forall j :: 0 <= j < |boxes| ==> !Qualifies(boxes[j], threshold, p)
  {
    if boxes == [] then None
    else if Qualifies(boxes[0], threshold, p) then Some(0)
    else match FirstQualifying(boxes[1..], threshold, p)
      case None => None
      case Some(i) => Some(i + 1)
  }

  /** Where a Python slice bound lands on an axis of length `n`. */
  function SliceBound(i: int, n: nat): (b: nat)
    ensures b <= n
    ensures 0 <= i <= n ==> b == i
  {
    if i < 0 then (if i + n < 0 then 0 else i + n)
    else if i > n then n
    else i
  }

  /** The length of `a[start:stop]` for an axis of length `n`. */
  function SliceLen(start: int, stop: int, n: nat): (len: nat)
    ensures len <= n
    ensures 0 <= start <= stop <= n ==> len == stop - start
  {
    var a, b := SliceBound(start, n), SliceBound(stop, n);
    if b > a then b - a else 0
  }

  /** `image[y1:y2, x1:x2]`. */
  function CropOf(frame: FrameData, d: Detection): (c: Crop)
    ensures c.width <= frame.width && c.height <= frame.height
  {
    Crop(SliceLen(d.x1, d.x2, frame.width), SliceLen(d.y1, d.y2, frame.height))
  }

  /** What `check_object_center` returns. `results` is the detector's list
      of result objects; only the boxes of the first one are looked at. */
  function Classify(results: seq<seq<Detection>>, frame: FrameData, calibrated: Option<Point>,
                    threshold: real): (hr: HitResult)
    ensures hr.status != Unresolved
    ensures hr.status == Hit <==> hr.crop.Some?
  {
    var aim := AimPoint(calibrated, frame);
    if |results| == 0 || |results[0]| == 0 then HitResult(Miss, None, aim)
    else match FirstQualifying(results[0], threshold, aim)
      case None => HitResult(Miss, None, aim)
      case Some(i) =>
        var d := results[0][i];
        HitResult(Hit, Some(CropOf(frame, d)), Point(aim.x - d.x1, aim.y - d.y1))
  }

  /** The classifier's loop over the boxes, with its early return. */
  method CheckObjectCenter(results: seq<seq<Detection>>, frame: FrameData, calibrated: Option<Point>,
                           threshold: real) returns (hr: HitResult)
    ensures hr == Classify(results, frame, calibrated, threshold)
  {
    var aim := AimPoint(calibrated, frame);
    if |results| == 0 || |results[0]| == 0 {
      return HitResult(Miss, None, aim);
    }
    var boxes := results[0];
    var i := 0;
    while i < |boxes|
      invariant 0 <= i <= |boxes|
      invariant forall j :: 0 <= j < i ==> !Qualifies(boxes[j], threshold, aim)
    {
      var d := boxes[i];
      if d.conf >= threshold && d.x1 <= aim.x <= d.x2 && d.y1 <= aim.y <= d.y2 {
        var w, h := d.x2 - d.x1, d.y2 - d.y1;
        if w > 0 && h > 0 {
          return HitResult(Hit, Some(CropOf(frame, d)), Point(aim.x - d.x1, aim.y - d.y1));
        }
      }
      i := i + 1;
    }
    return HitResult(Miss, None, aim);
  }

  /** A hit comes from the first qualifying box in detector order; its
      relative point is the aim point minus the box origin and lies within
      the box's width and height. */
  lemma ClassifyHit(results: seq<seq<Detection>>, frame: FrameData, calibrated: Option<Point>, threshold: real)
    requires Classify(results, frame, calibrated, threshold).status == Hit
    ensures |results| > 0
    ensures var aim := AimPoint(calibrated, frame);
            var hr := Classify(results, frame, calibrated, threshold);
            exists i :: 0 <= i < |results[0]|
              && Qualifies(results[0][i], threshold, aim)
              && (forall j :: 0 <= j < i ==> !Qualifies(results[0][j], threshold, aim))
              && hr.point == Point(aim.x - results[0][i].x1, aim.y - results[0][i].y1)
              && 0 <= hr.point.x <= results[0][i].x2 - results[0][i].x1
              && 0 <= hr.point.y <= results[0][i].y2 - results[0][i].y1
              && hr.crop == Some(CropOf(frame, results[0][i]))
  {
    var aim := AimPoint(calibrated, frame);
    var i := FirstQualifying(results[0], threshold, aim).value;
    assert Qualifies(results[0][i], threshold, aim);
  }

  /** When no box qualifies the result is a miss that keeps the aim point. */
  lemma ClassifyMiss(results: seq<seq<Detection>>, frame: FrameData, calibrated: Option<Point>, threshold: real)
    requires |results| > 0 ==>
      forall j :: 0 <= j < |results[0]| ==> !Qualifies(results[0][j], threshold, AimPoint(calibrated, frame))
    ensures Classify(results, frame, calibrated, threshold)
         == HitResult(Miss, None, AimPoint(calibrated, frame))
  {
  }

  /** Any box of the first result that qualifies makes the answer a hit,
      whatever its position among the boxes. */
  lemma QualifyingIsHit(results: seq<seq<Detection>>, frame: FrameData, calibrated: Option<Point>,
                        threshold: real, k: nat)
    requires |results| > 0 && k < |results[0]|
    requires Qualifies(results[0][k], threshold, AimPoint(calibrated, frame))
    ensures Classify(results, frame, calibrated, threshold).status == Hit
  {
  }

  /** A box inside the frame is cropped to exactly its own size. */
  lemma CropOfInsideBox(frame: FrameData, d: Detection)
    requires 0 <= d.x1 <= d.x2 <= frame.width && 0 <= d.y1 <= d.y2 <= frame.height
    ensures CropOf(frame, d) == Crop(d.x2 - d.x1, d.y2 - d.y1)
  {
  }

  /** The example of a box (100,100)-(300,300) at confidence 0.9 around the
      aim point (150,150): a hit with a 200x200 crop and relative point (50,50). */
  lemma ClassifyExample(frame: FrameData)
    requires frame.width >= 300 && frame.height >= 300
    ensures Classify([[Detection(100, 100, 300, 300, 0.9)]], frame, Some(Point(150, 150)), 0.5)
         == HitResult(Hit, Some(Crop(200, 200)), Point(50, 50))
  {
    var boxes := [Detection(100, 100, 300, 300, 0.9)];
    assert Qualifies(boxes[0], 0.5, Point(150, 150));
    assert FirstQualifying(boxes, 0.5, Point(150, 150)) == Some(0);
  }

  // ---------------------------------------------------------------------
  // warp_crop_to_original: ratio test and mutual-match filter

  /** One descriptor match: indices into the query and train keypoints,
      and the Hamming distance of the two descriptors. */
  datatype DMatch = DMatch(queryIdx: nat, trainIdx: nat, distance: nat)

  /** The two nearest neighbours that a k=2 match returns for one query. */
  datatype KnnPair = KnnPair(best: DMatch, second: DMatch)

  /** Lowe's ratio test at 0.75, on integer distances. */
  predicate PassesRatio(p: KnnPair)
  {
    4 * p.best.distance < 3 * p.second.distance
  }

  /** `[m for m, n in matches if m.distance < 0.75 * n.distance]`. */
  function RatioTest(pairs: seq<KnnPair>): (good: seq<DMatch>)
    ensures |good| <= |pairs|
  {
    if pairs == [] then []
    else (if PassesRatio(pairs[0]) then [pairs[0].best] else []) + RatioTest(pairs[1..])
  }

  /** A match survives the ratio test exactly when its pair passes it. */
  lemma {:induction false} RatioTestMembers(pairs: seq<KnnPair>, m: DMatch)
    ensures m in RatioTest(pairs) <==>
            exists k :: 0 <= k < |pairs| && pairs[k].best == m && PassesRatio(pairs[k])
  {
    if pairs != [] {
      RatioTestMembers(pairs[1..], m);
      var head := if PassesRatio(pairs[0]) then [pairs[0].best] else [];
      assert RatioTest(pairs) == head + RatioTest(pairs[1..]);
      if exists k :: 0 <= k < |pairs| && pairs[k].best == m && PassesRatio(pairs[k]) {
        var k :| 0 <= k < |pairs| && pairs[k].best == m && PassesRatio(pairs[k]);
        if k > 0 { assert pairs[1..][k - 1] == pairs[k]; }
      }
      if exists k :: 0 <= k < |pairs[1..]| && pairs[1..][k].best == m && PassesRatio(pairs[1..][k]) {
        var k :| 0 <= k < |pairs[1..]| && pairs[1..][k].best == m && PassesRatio(pairs[1..][k]);
        assert pairs[k + 1] == pairs[1..][k];
      }
    }
  }

  /** `{(m.trainIdx, m.queryIdx) for m in good21}`. */
  function ReverseKeys(good21: seq<DMatch>): (keys: set<(nat, nat)>)
  {
    set m | m in good21 :: (m.trainIdx, m.queryIdx)
  }

  predicate IsMutual(m: DMatch, keys: set<(nat, nat)>)
  {
    (m.queryIdx, m.trainIdx) in keys
  }

  /** The matches of `good12` whose reverse is among the keys, in order. */
  function KeepMutual(good12: seq<DMatch>, keys: set<(nat, nat)>): (mutual: seq<DMatch>)
    ensures |mutual| <= |good12|
  {
    if good12 == [] then []
    else (if IsMutual(good12[0], keys) then [good12[0]] else []) + KeepMutual(good12[1..], keys)
  }

  /** The filter loop: build the reverse set, then keep, in order, each
      forward match whose reverse is present. */
  method MutualFilter(good12: seq<DMatch>, good21: seq<DMatch>) returns (mutual: seq<DMatch>)
    ensures mutual == KeepMutual(good12, ReverseKeys(good21))
  {
    var reverseMap := set m | m in good21 :: (m.trainIdx, m.queryIdx);
    mutual := [];
    var i := 0;
    while i < |good12|
      invariant 0 <= i <= |good12|
      invariant mutual + KeepMutual(good12[i..], reverseMap) == KeepMutual(good12, reverseMap)
    {
      assert good12[i..][1..] == good12[i + 1..];
      if (good12[i].queryIdx, good12[i].trainIdx) in reverseMap {
        mutual := mutual + [good12[i]];
      }
      i := i + 1;
    }
    assert good12[i..] == [];
  }

  /** `a` is `b` with some elements left out, order kept. */
  predicate IsSubsequence<T(==)>(a: seq<T>, b: seq<T>)
    decreases |b|
  {
    a == [] || (b != [] && ((a[0] == b[0] && IsSubsequence(a[1..], b[1..])) || IsSubsequence(a, b[1..])))
  }

  /** The mutual matches are a subsequence of the forward matches. */
  lemma {:induction false} KeepMutualSubsequence(good12: seq<DMatch>, keys: set<(nat, nat)>)
    ensures IsSubsequence(KeepMutual(good12, keys), good12)
  {
    if good12 != [] {
      KeepMutualSubsequence(good12[1..], keys);
      var rest := KeepMutual(good12[1..], keys);
      if IsMutual(good12[0], keys) {
        assert KeepMutual(good12, keys) == [good12[0]] + rest;
        assert ([good12[0]] + rest)[1..] == rest;
      } else {
        assert KeepMutual(good12, keys) == rest;
        assert rest == [] || IsSubsequence(rest, good12[1..]);
      }
    }
  }

  /** A forward match is kept exactly when it is one and its reverse
      appears among the backward matches. */
  lemma {:induction false} KeepMutualMembers(good12: seq<DMatch>, good21: seq<DMatch>, m: DMatch)
    ensures m in KeepMutual(good12, ReverseKeys(good21)) <==>
            m in good12 && exists r :: r in good21 && r.queryIdx == m.trainIdx && r.trainIdx == m.queryIdx
  {
    var keys := ReverseKeys(good21);
    if good12 != [] {
      KeepMutualMembers(good12[1..], good21, m);
      assert good12 == [good12[0]] + good12[1..];
    }
    if (exists r :: r in good21 && r.queryIdx == m.trainIdx && r.trainIdx == m.queryIdx) {
      var r :| r in good21 && r.queryIdx == m.trainIdx && r.trainIdx == m.queryIdx;
      assert (r.trainIdx, r.queryIdx) in keys;
    }
  }

  // ---------------------------------------------------------------------
  // warp_crop_to_original: failure guards around the OpenCV calls

  /** The homography that the robust fit found: the magnitude of its
      determinant, and where it maps the shot point (None when that
      transformation raised). */
  datatype Homography = Homography(absDet: real, mappedShot: Option<PointF>)

  /** What the OpenCV calls produced for one registration attempt:
      keypoint counts, whether descriptors exist, the k=2 matches in both
      directions and the fitted homography, if any. */
  datatype CvOutcome = CvOutcome(
    keypoints1: nat, keypoints2: nat,
    descriptors1: bool, descriptors2: bool,
    knn12: seq<KnnPair>, knn21: seq<KnnPair>,
    homography: Option<Homography>)

  /** The crop warped onto the reference image's size. */
  datatype Warped = Warped(width: nat, height: nat)

  datatype Registration = Registration(warped: Option<Warped>, point: Option<PointF>)

  const MinKeypoints: nat := 10
  const DefaultMinInliers: nat := 10
  const DegenerateDet: real := 0.000001

  /** The mutual matches of both ratio-tested directions. */
  function MutualMatches(cv: CvOutcome): (mutual: seq<DMatch>)
    ensures IsSubsequence(mutual, RatioTest(cv.knn12))
  {
    KeepMutualSubsequence(RatioTest(cv.knn12), ReverseKeys(RatioTest(cv.knn21)));
    KeepMutual(RatioTest(cv.knn12), ReverseKeys(RatioTest(cv.knn21)))
  }

  /** `warp_crop_to_original` with its OpenCV steps given by `cv`. */
  function WarpCropToOriginal(original: Option<ImageDims>, crop: Option<Crop>, shot: Option<Point>,
                              cv: CvOutcome, minInliers: nat): (reg: Registration)
    ensures reg.point.Some? ==> reg.warped.Some? && shot.Some?
    ensures reg.warped.Some? ==> original.Some? && crop.Some?
    ensures reg.warped.Some? ==> reg.warped.value == Warped(original.value.width, original.value.height)
    ensures reg.warped.Some? ==> cv.descriptors1 && cv.descriptors2
    ensures reg.warped.Some? ==> cv.keypoints1 >= MinKeypoints && cv.keypoints2 >= MinKeypoints
    ensures reg.warped.Some? ==> |MutualMatches(cv)| >= minInliers
    ensures reg.warped.Some? ==> cv.homography.Some? && cv.homography.value.absDet >= DegenerateDet
  {
    if original.None? || crop.None? then Registration(None, None)
    else if !cv.descriptors1 || !cv.descriptors2 || cv.keypoints1 < MinKeypoints || cv.keypoints2 < MinKeypoints then
      Registration(None, None)
    else if |MutualMatches(cv)| < minInliers then Registration(None, None)
    else if cv.homography.None? || cv.homography.value.absDet < DegenerateDet then Registration(None, None)
    else
      var point := if shot.Some? then cv.homography.value.mappedShot else None;
      Registration(Some(Warped(original.value.width, original.value.height)), point)
  }

  /** With a shot point whose transformation does not raise, the warped
      image and the mapped point come together or not at all. */
  lemma WarpBothOrNeither(original: Option<ImageDims>, crop: Option<Crop>, shot: Point, cv: CvOutcome, minInliers: nat)
    requires cv.homography.Some? ==> cv.homography.value.mappedShot.Some?
    ensures var reg := WarpCropToOriginal(original, crop, Some(shot), cv, minInliers);
            reg.warped.Some? <==> reg.point.Some?
  {
  }

  /** Without a shot point a successful registration returns the warped
      image alone: "both or neither" needs a point to be supplied. */
  lemma WarpWithoutShot(original: ImageDims, crop: Crop, cv: CvOutcome, minInliers: nat)
    requires cv.descriptors1 && cv.descriptors2
    requires cv.keypoints1 >= MinKeypoints && cv.keypoints2 >= MinKeypoints
    requires |MutualMatches(cv)| >= minInliers
    requires cv.homography.Some? && cv.homography.value.absDet >= DegenerateDet
    ensures WarpCropToOriginal(Some(original), Some(crop), None, cv, minInliers)
         == Registration(Some(Warped(original.width, original.height)), None)
  {
  }

  /** When every guard passes, the shot point comes back as the fitted
      homography maps it, together with the image warped to the
      reference size. */
  lemma WarpWithShot(original: ImageDims, crop: Crop, shot: Point, cv: CvOutcome, minInliers: nat)
    requires cv.descriptors1 && cv.descriptors2
    requires cv.keypoints1 >= MinKeypoints && cv.keypoints2 >= MinKeypoints
    requires |MutualMatches(cv)| >= minInliers
    requires cv.homography.Some? && cv.homography.value.absDet >= DegenerateDet
    ensures WarpCropToOriginal(Some(original), Some(crop), Some(shot), cv, minInliers)
         == Registration(Some(Warped(original.width, original.height)), cv.homography.value.mappedShot)
  {
  }

  /** Fewer mutual matches than required is a failure, whatever the fit. */
  lemma WarpTooFewMatches(original: Option<ImageDims>, crop: Option<Crop>, shot: Option<Point>, cv: CvOutcome, minInliers: nat)
    requires |MutualMatches(cv)| < minInliers
    ensures WarpCropToOriginal(original, crop, shot, cv, minInliers) == Registration(None, None)
  {
  }

  // ---------------------------------------------------------------------
  // calculate_score

  /** Python's `int(r)`: truncation toward zero. */
  function Trunc(r: real): (i: int)
    ensures r >= 0.0 ==> 0 <= i && i as real <= r < i as real + 1.0
    ensures r < 0.0 ==> i <= 0 && i as real - 1.0 < r <= i as real
  {
    if r >= 0.0 then r.Floor else -((-r).Floor)
  }

  /** A grayscale zone mask, indexed `rows[y][x]`. */
  datatype Mask = Mask(rows: seq<seq<int>>)

  /** The mask has a value for every pixel of the image. */
  predicate Covers(mask: Mask, img: ImageDims)
  {
    |mask.rows| >= img.height && forall y :: 0 <= y < img.height ==> |mask.rows[y]| >= img.width
  }

  const Active: int := 255

  /** The possible scores. */
  predicate IsScore(s: int)
  {
    s == 0 || 5 <= s <= 10
  }

  /** The zone of a point at squared distance `d2` from the centre.
      `sqrt(d2) < k` is the same as `d2 < k*k` for a whole number `k`. */
  function ZoneScore(d2: int): (s: int)
    ensures IsScore(s)
  {
    if d2 < 56 * 56 then 10
    else if d2 < 116 * 116 then 9
    else if d2 < 173 * 173 then 8
    else if d2 < 230 * 230 then 7
    else if d2 < 285 * 285 then 6
    else if d2 < 320 * 320 then 5
    else 0
  }

  /** The truncated point of `pt`, when it lies in the image. */
  predicate InImage(x: int, y: int, img: ImageDims)
  {
    0 <= x < img.width && 0 <= y < img.height
  }

  /** The squared distance from the point to the image centre `(w//2, h//2)`. */
  function CenterDist2(x: int, y: int, img: ImageDims): (d2: nat)
  {
    var dx, dy := x - img.width / 2, y - img.height / 2;
    dx * dx + dy * dy
  }

  /** `calculate_score`: 0 for a missing input, a point outside the image
      or a pixel outside the active mask region, otherwise the zone of the
      distance from the image centre. */
  function CalculateScore(pt: Option<PointF>, img: Option<ImageDims>, mask: Option<Mask>): (s: int)
    requires img.Some? && mask.Some? ==> Covers(mask.value, img.value)
    ensures IsScore(s)
    ensures s != 0 ==> pt.Some? && img.Some? && mask.Some?
    ensures s != 0 ==> InImage(Trunc(pt.value.x), Trunc(pt.value.y), img.value)
    ensures s != 0 ==> mask.value.rows[Trunc(pt.value.y)][Trunc(pt.value.x)] == Active
  {
    if img.None? || mask.None? || pt.None? then 0
    else
      var x, y := Trunc(pt.value.x), Trunc(pt.value.y);
      if !InImage(x, y, img.value) then 0
      else if mask.value.rows[y][x] == Active then ZoneScore(CenterDist2(x, y, img.value))
      else 0
  }

  /** For whole-number thresholds, comparing the Euclidean distance is the
      same as comparing the squared distance. */
  lemma DistanceBelowIffSquared(dist: real, d2: nat, k: nat)
    requires dist >= 0.0 && dist * dist == d2 as real
    ensures dist < k as real <==> d2 < k * k
  {
    var kr := k as real;
    if dist < kr {
      assert dist * dist <= dist * kr;
      assert dist * kr < kr * kr;
    } else {
      assert kr * kr <= kr * dist;
      assert kr * dist <= dist * dist;
    }
    assert (k * k) as real == kr * kr;
  }

  /** Inside the active region the score never rises as the point moves
      away from the centre. */
  lemma ScoreNonIncreasing(p: PointF, q: PointF, img: ImageDims, mask: Mask)
    requires Covers(mask, img)
    requires InImage(Trunc(p.x), Trunc(p.y), img) && InImage(Trunc(q.x), Trunc(q.y), img)
    requires mask.rows[Trunc(p.y)][Trunc(p.x)] == Active && mask.rows[Trunc(q.y)][Trunc(q.x)] == Active
    requires CenterDist2(Trunc(p.x), Trunc(p.y), img) <= CenterDist2(Trunc(q.x), Trunc(q.y), img)
    ensures CalculateScore(Some(p), Some(img), Some(mask)) >= CalculateScore(Some(q), Some(img), Some(mask))
  {
  }

  /** A pixel outside the active region scores 0 whatever its distance. */
  lemma ScoreOutsideMask(pt: PointF, img: ImageDims, mask: Mask)
    requires Covers(mask, img)
    requires InImage(Trunc(pt.x), Trunc(pt.y), img)
    requires mask.rows[Trunc(pt.y)][Trunc(pt.x)] != Active
    ensures CalculateScore(Some(pt), Some(img), Some(mask)) == 0
  {
  }

  /** Integer points are taken as they are. */
  lemma TruncOfWhole(n: int)
    ensures Trunc(n as real) == n
  {
  }

  /** A point just left of the image, with x in (-1, 0), truncates to
      column 0 and is scored like a point on that column. */
  lemma ScoreJustLeftOfImage(x: real, y: real, img: ImageDims, mask: Option<Mask>)
    requires -1.0 < x < 0.0
    requires mask.Some? ==> Covers(mask.value, img)
    ensures CalculateScore(Some(PointF(x, y)), Some(img), mask)
         == CalculateScore(Some(PointF(0.0, y)), Some(img), mask)
  {
    assert Trunc(x) == 0;
    TruncOfWhole(0);
  }

  /** The examples of the zone table: along the centre row, a point 50
      pixels from the centre scores 10, one 200 pixels away scores 7 and
      one 400 pixels away scores 0. */
  lemma ScoreExamples(img: ImageDims, mask: Mask)
    requires img.width == 1000 && img.height == 1000 && Covers(mask, img)
    requires mask.rows[500][550] == Active && mask.rows[500][700] == Active && mask.rows[500][900] == Active
    ensures CalculateScore(Some(PointF(550.0, 500.0)), Some(img), Some(mask)) == 10
    ensures CalculateScore(Some(PointF(700.0, 500.0)), Some(img), Some(mask)) == 7
    ensures CalculateScore(Some(PointF(900.0, 500.0)), Some(img), Some(mask)) == 0
  {
    TruncOfWhole(550);
    TruncOfWhole(700);
    TruncOfWhole(900);
    TruncOfWhole(500);
  }
}
