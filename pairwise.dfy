/** The pairwise stitcher (forward_stitch): two images in, one composite and a diagnostic out. */
module Pairwise {
  import opened Wrappers
  import opened Config
  import opened Images
  import opened Cv
  import opened Seam
  import opened Matching
  import opened Blending

  /** The `(result_rgb, mapped_feature_image_rgb)` pair of a successful pairwise stitch. */
  datatype Stitched = Stitched(panorama: Image, mapped: Image)

  /** Which early return of forward_stitch was taken; the caller sees `(None, None)` for each. */
  datatype StitchFailure =
    | FeatureDetectionFailed
    | InsufficientMatches
    | MatchDrawingFailed
    | HomographyComputationFailed
    | BlendFailed

  /** Most matches drawn into the diagnostic image. */
  const DiagnosticMatches: nat := 100

  /** `matches[:n]` */
  function Take(ms: seq<Match>, n: nat): (r: seq<Match>)
    ensures |r| == if |ms| <= n then |ms| else n
    ensures r == ms[..|r|]
  {
    if |ms| <= n then ms else ms[..n]
  }

  function MaxNat(a: nat, b: nat): nat { if a >= b then a else b }

  /** cv2.cvtColor(image, COLOR_RGB2GRAY): one intensity per pixel, same height and width. */
  function Gray(cv: Ops, image: Image): (g: GrayImage)
    ensures |g| == image.height
    ensures forall i :: 0 <= i < image.height ==> |g[i]| == image.width
    ensures forall i, j :: 0 <= i < image.height && 0 <= j < image.width ==> g[i][j] == cv.rgbToGray(image.px[i][j])
  {
    seq(image.height, i requires 0 <= i < image.height =>
      seq(image.width, j requires 0 <= j < image.width => cv.rgbToGray(image.px[i][j])))
  }

  /** give_gray: the image unchanged, with its grayscale conversion. Every image here has three channels. */
  function GiveGray(cv: Ops, image: Image): (r: (Image, GrayImage))
    ensures r.0 == image
    ensures |r.1| == image.height
    ensures forall i, j :: 0 <= i < image.height && 0 <= j < image.width ==>
              j < |r.1[i]| && r.1[i][j] == cv.rgbToGray(image.px[i][j])
  {
    (image, Gray(cv, image))
  }

  /** `_sift_detector(give_gray(image))` */
  function DetectFeatures(cv: Ops, image: Image): Option<Features> {
    cv.detectAndCompute(GiveGray(cv, image).1)
  }

  /** SIFT sees only the grayscale conversion: two images with the same grayscale get the same features. */
  lemma DetectionDependsOnlyOnGray(cv: Ops, a: Image, b: Image)
    requires Gray(cv, a) == Gray(cv, b)
    ensures DetectFeatures(cv, a) == DetectFeatures(cv, b)
  {
  }

  /** The sorted matches forward_stitch works with, once both images have features. */
  function PairMatches(cv: Ops, trainFeatures: Features, queryFeatures: Features): seq<Match> {
    CreateAndMatchKeypoints(cv, trainFeatures.descriptors, queryFeatures.descriptors)
  }

  /**
   * cv2.drawMatches(train, kpTrain, query, kpQuery, ms): the two images side by side, train on
   * the left, on a canvas as tall as the taller one. OpenCV raises when a match names a keypoint
   * that does not exist (queryIdx into the first set, trainIdx into the second).
   */
  function DrawMatches(cv: Ops, train: Image, trainKeypoints: seq<Keypoint>, query: Image,
                       queryKeypoints: seq<Keypoint>, ms: seq<Match>): (r: Option<Image>)
    ensures r.None? <==> !IndicesInRange(trainKeypoints, queryKeypoints, ms)
    ensures r.Some? ==> r.value.height == MaxNat(train.height, query.height) && r.value.width == train.width + query.width
  {
    if !IndicesInRange(trainKeypoints, queryKeypoints, ms) then None
    else
      var height, width := MaxNat(train.height, query.height), train.width + query.width;
      var rows := seq(height, i requires 0 <= i < height =>
                    seq(width, j requires 0 <= j < width => cv.drawMatches(train, trainKeypoints, query, queryKeypoints, ms, i, j)));
      assert forall i :: 0 <= i < height ==> |rows[i]| == width;
      Some(Grid(height, width, rows))
  }

  /** forward_stitch: features, matches, diagnostic, homography, blend, each stage able to end the attempt. */
  function ForwardStitch(cv: Ops, query: Image, train: Image): Result<Stitched, StitchFailure> {
    var window := SmoothingWindow(query.width, train.width);
    var trainFeatures := DetectFeatures(cv, train);
    var queryFeatures := DetectFeatures(cv, query);
    if trainFeatures.None? || queryFeatures.None? then Failure(FeatureDetectionFailed)
    else
      var matches := PairMatches(cv, trainFeatures.value, queryFeatures.value);
      if |matches| < MinMatchCount then Failure(InsufficientMatches)
      else
        var mapped := DrawMatches(cv, train, trainFeatures.value.keypoints, query, queryFeatures.value.keypoints,
                                  Take(matches, DiagnosticMatches));
        if mapped.None? then Failure(MatchDrawingFailed)
        else
          var fit := ComputeHomography(cv, trainFeatures.value.keypoints, queryFeatures.value.keypoints,
                                       matches, ReprojThreshold);
          if fit.None? then Failure(HomographyComputationFailed)
          else
            match Blend(query, train, fit.value.homography, window, cv.warpPerspective)
            case None => Failure(BlendFailed)
            case Some(result) =>
              Success(Stitched(SwapRB(MapPixels(result, cv.asFloat32)), SwapRB(MapPixels(mapped.value, cv.asFloat32))))
  }

  /**
   * The stages are tried in order and the first that fails decides the outcome: a pair fails
   * at detection iff a feature set is missing, at matching iff fewer than MinMatchCount matches
   * remain, at drawing iff one of the first 100 matches names a missing keypoint, at the
   * homography iff compute_homography gives None, and at blending iff the masks cannot be
   * built; otherwise it succeeds.
   */
  lemma ForwardStitchStages(cv: Ops, query: Image, train: Image)
    ensures var r := ForwardStitch(cv, query, train);
            var ft := DetectFeatures(cv, train);
            var fq := DetectFeatures(cv, query);
            && (r == Failure(FeatureDetectionFailed) <==> ft.None? || fq.None?)
            && (ft.Some? && fq.Some? ==>
                  var matches := PairMatches(cv, ft.value, fq.value);
                  var drawn := IndicesInRange(ft.value.keypoints, fq.value.keypoints, Take(matches, DiagnosticMatches));
                  var fit := ComputeHomography(cv, ft.value.keypoints, fq.value.keypoints, matches, ReprojThreshold);
                  && (r == Failure(InsufficientMatches) <==> |matches| < MinMatchCount)
                  && (r == Failure(MatchDrawingFailed) <==> |matches| >= MinMatchCount && !drawn)
                  && (r == Failure(HomographyComputationFailed) <==> |matches| >= MinMatchCount && drawn && fit.None?)
                  && (r == Failure(BlendFailed) <==>
                        |matches| >= MinMatchCount && drawn && fit.Some? &&
                        query.width < 2 * Offset(SmoothingWindow(query.width, train.width)))
                  && (r.Success? <==>
                        |matches| >= MinMatchCount && drawn && fit.Some? &&
                        query.width >= 2 * Offset(SmoothingWindow(query.width, train.width))))
  {
  }

  /** Indices valid for a whole match list are valid for each of its prefixes. */
  lemma PrefixIndicesInRange(trainKeypoints: seq<Keypoint>, queryKeypoints: seq<Keypoint>, ms: seq<Match>, n: nat)
    requires IndicesInRange(trainKeypoints, queryKeypoints, ms)
    ensures IndicesInRange(trainKeypoints, queryKeypoints, Take(ms, n))
  {
    var t := Take(ms, n);
    forall i | 0 <= i < |t| ensures t[i].queryIdx < |trainKeypoints| && t[i].trainIdx < |queryKeypoints| {
      assert t[i] == ms[i];
    }
  }

  /**
   * Drawing fails only where the homography stage would have failed too: a pair whose homography
   * can be computed is never lost to the diagnostic.
   */
  lemma DrawingFailureOnlyPreemptsHomographyFailure(cv: Ops, trainKeypoints: seq<Keypoint>, queryKeypoints: seq<Keypoint>,
                                                    matches: seq<Match>)
    requires ComputeHomography(cv, trainKeypoints, queryKeypoints, matches, ReprojThreshold).Some?
    ensures IndicesInRange(trainKeypoints, queryKeypoints, Take(matches, DiagnosticMatches))
  {
    PrefixIndicesInRange(trainKeypoints, queryKeypoints, matches, DiagnosticMatches);
  }

  /**
   * On success the diagnostic is drawn from at most the first 100 matches, while the homography
   * was fitted to the full sorted list; both outputs are float32-cast and channel-swapped.
   */
  lemma ForwardStitchSuccess(cv: Ops, query: Image, train: Image)
    ensures ForwardStitch(cv, query, train).Success? ==>
            DetectFeatures(cv, train).Some? && DetectFeatures(cv, query).Some? &&
            var ft := DetectFeatures(cv, train).value;
            var fq := DetectFeatures(cv, query).value;
            var matches := PairMatches(cv, ft, fq);
            var fit := ComputeHomography(cv, ft.keypoints, fq.keypoints, matches, ReprojThreshold);
            var drawn := DrawMatches(cv, train, ft.keypoints, query, fq.keypoints, Take(matches, DiagnosticMatches));
            var blended := Blend(query, train, fit.value.homography, SmoothingWindow(query.width, train.width), cv.warpPerspective);
            var out := ForwardStitch(cv, query, train).value;
            && fit.Some? && fit.value.matches == matches
            && |Take(matches, DiagnosticMatches)| <= DiagnosticMatches
            && drawn.Some? && out.mapped == SwapRB(MapPixels(drawn.value, cv.asFloat32))
            && blended.Some? && out.panorama == SwapRB(MapPixels(blended.value, cv.asFloat32))
  {
  }

  /**
   * A successful pair's panorama fits the query-height by combined-width canvas, and its
   * diagnostic is the two images side by side, as tall as the taller.
   */
  lemma ForwardStitchShape(cv: Ops, query: Image, train: Image)
    ensures ForwardStitch(cv, query, train).Success? ==>
            var out := ForwardStitch(cv, query, train).value;
            && out.panorama.height <= query.height && out.panorama.width <= query.width + train.width
            && out.mapped.height == MaxNat(train.height, query.height)
            && out.mapped.width == train.width + query.width
  {
    ForwardStitchSuccess(cv, query, train);
  }

  /**
   * With OpenCV's guarantees every sorted match names an existing keypoint of each image, so
   * neither the drawing nor the index guard of compute_homography can reject it.
   */
  lemma CoherentMatchesInRange(cv: Ops, train: Image, query: Image)
    requires Coherent(cv)
    requires DetectFeatures(cv, train).Some? && DetectFeatures(cv, query).Some?
    ensures var ft := DetectFeatures(cv, train).value;
            var fq := DetectFeatures(cv, query).value;
            IndicesInRange(ft.keypoints, fq.keypoints, PairMatches(cv, ft, fq))
  {
    var ft := DetectFeatures(cv, train).value;
    var fq := DetectFeatures(cv, query).value;
    assert |ft.descriptors| == |ft.keypoints| && |fq.descriptors| == |fq.keypoints|;
    var matches := PairMatches(cv, ft, fq);
    var raw := cv.bfMatch(ft.descriptors, fq.descriptors);
    if raw.Some? {
      assert MatchesIndexInto(raw.value, |ft.descriptors|, |fq.descriptors|);
      forall i | 0 <= i < |matches|
        ensures matches[i].queryIdx < |ft.keypoints| && matches[i].trainIdx < |fq.keypoints|
      {
        assert matches[i] in multiset(raw.value);
        var j :| 0 <= j < |raw.value| && raw.value[j] == matches[i];
      }
    }
  }

  /** With OpenCV's guarantees drawing the matches never fails. */
  lemma CoherentOpsNeverFailAtDrawing(cv: Ops, query: Image, train: Image)
    requires Coherent(cv)
    ensures ForwardStitch(cv, query, train) != Failure(MatchDrawingFailed)
  {
    var ft := DetectFeatures(cv, train);
    var fq := DetectFeatures(cv, query);
    if ft.Some? && fq.Some? {
      CoherentMatchesInRange(cv, train, query);
      PrefixIndicesInRange(ft.value.keypoints, fq.value.keypoints, PairMatches(cv, ft.value, fq.value), DiagnosticMatches);
    }
  }

  /** With OpenCV's guarantees, past the match-count gate only the estimator decides the homography stage. */
  lemma CoherentHomographyIsEstimatorOutcome(cv: Ops, query: Image, train: Image)
    requires Coherent(cv)
    requires DetectFeatures(cv, train).Some? && DetectFeatures(cv, query).Some?
    ensures var ft := DetectFeatures(cv, train).value;
            var fq := DetectFeatures(cv, query).value;
            var matches := PairMatches(cv, ft, fq);
            && IndicesInRange(ft.keypoints, fq.keypoints, matches)
            && (|matches| >= MinMatchCount ==>
              (ComputeHomography(cv, ft.keypoints, fq.keypoints, matches, ReprojThreshold).Some? <==>
               cv.findHomography(TrainPoints(ft.keypoints, matches), QueryPoints(fq.keypoints, matches), ReprojThreshold).Some?))
  {
    CoherentMatchesInRange(cv, train, query);
  }

  /** A validated query image never fails at the blending stage. */
  lemma WideQueryNeverFailsAtBlend(cv: Ops, query: Image, train: Image)
    requires query.width >= 100
    ensures ForwardStitch(cv, query, train) != Failure(BlendFailed)
  {
    var ft := DetectFeatures(cv, train);
    var fq := DetectFeatures(cv, query);
    if ft.Some? && fq.Some? {
      var matches := PairMatches(cv, ft.value, fq.value);
      var fit := ComputeHomography(cv, ft.value.keypoints, fq.value.keypoints, matches, ReprojThreshold);
      if |matches| >= MinMatchCount && fit.Some? {
        BlendSucceedsOnWideQuery(query, train, fit.value.homography, cv.warpPerspective);
      }
    }
  }
}
