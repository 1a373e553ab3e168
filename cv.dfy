/**
 * The OpenCV operations the pipeline calls but whose code is not part of this model.
 * Each is a field of `Ops`, so every stage that uses one receives it as a parameter.
 */
module Cv {
  import opened Wrappers
  import opened Images

  /** A keypoint's sub-pixel coordinate (`kp.pt`). */
  datatype Point = Point(x: real, y: real)

  /** A detected keypoint; only its coordinate matters to the pipeline. */
  datatype Keypoint = Keypoint(pt: Point, size: real, angle: real)

  /** One fixed-length descriptor vector per keypoint. */
  type Descriptors = seq<seq<real>>

  /** What `_sift_detector` hands back when detection succeeds. */
  datatype Features = Features(keypoints: seq<Keypoint>, descriptors: Descriptors)

  /** A cv2.DMatch: one index into each descriptor set and their distance. */
  datatype Match = Match(queryIdx: nat, trainIdx: nat, distance: real)

  /** A 3x3 projective transform. */
  datatype Homography = Homography(entries: seq<seq<real>>)

  /** What cv2.findHomography returns: the transform and one inlier flag per point pair. */
  datatype Fit = Fit(homography: Homography, inliers: seq<bool>)

  /** A single-channel image: one intensity per pixel, row by row. */
  type GrayImage = seq<seq<real>>

  datatype Ops = Ops(
    /** cv2.cvtColor(image, COLOR_RGB2GRAY), per pixel: the intensity of one colour pixel */
    rgbToGray: Pixel -> real,
    /** SIFT_create().detectAndCompute; None covers a None result and a raised error */
    detectAndCompute: GrayImage -> Option<Features>,
    /** BFMatcher(NORM_L2, crossCheck=True).match(train, query); None when it raises */
    bfMatch: (Descriptors, Descriptors) -> Option<seq<Match>>,
    /** cv2.findHomography(src, dst, RANSAC, threshold); None when no transform is found */
    findHomography: (seq<Point>, seq<Point>, real) -> Option<Fit>,
    /** cv2.warpPerspective: the destination pixel at (row, col) for a source image and transform */
    warpPerspective: (Image, Homography, nat, nat) -> Pixel,
    /**
     * cv2.drawMatches(train, train keypoints, query, query keypoints, matches): the pixel at
     * (row, col) of the side-by-side canvas with the match lines drawn on it
     */
    drawMatches: (Image, seq<Keypoint>, Image, seq<Keypoint>, seq<Match>, nat, nat) -> Pixel,
    /** numpy float32(...) on one pixel */
    asFloat32: Pixel -> Pixel,
    /** numpy uint8(...) on one pixel, which truncates and wraps */
    asUint8: Pixel -> Pixel)

  /** Every match names a descriptor of each set: queryIdx below `queryCount`, trainIdx below `trainCount`. */
  predicate MatchesIndexInto(ms: seq<Match>, queryCount: nat, trainCount: nat) {
    forall i :: 0 <= i < |ms| ==> ms[i].queryIdx < queryCount && ms[i].trainIdx < trainCount
  }

  /**
   * The guarantees OpenCV gives and the pipeline relies on without checking them: SIFT returns
   * one descriptor per keypoint, and every match of `bfMatch(d1, d2)` indexes into d1 with its
   * queryIdx and into d2 with its trainIdx.
   */
  ghost predicate Coherent(cv: Ops) {
    && (forall g :: cv.detectAndCompute(g).Some? ==>
          |cv.detectAndCompute(g).value.descriptors| == |cv.detectAndCompute(g).value.keypoints|)
    && (forall d1, d2 :: cv.bfMatch(d1, d2).Some? ==> MatchesIndexInto(cv.bfMatch(d1, d2).value, |d1|, |d2|))
  }
}
