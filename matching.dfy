/**
 * Correspondences between two images: the matcher's output ordered best first
 * (create_and_match_keypoints) and the gated point lists handed to the homography
 * estimator (compute_homography).
 */
module Matching {
  import opened Wrappers
  import opened Config
  import opened Cv

  predicate SortedByDistance(ms: seq<Match>) {
    forall i, j :: 0 <= i < j < |ms| ==> ms[i].distance <= ms[j].distance
  }

  /** The matches of distance `d`, in their order of appearance. */
  function WithDistance(ms: seq<Match>, d: real): (r: seq<Match>)
    ensures forall m :: m in r ==> m in ms && m.distance == d
  {
    if ms == [] then []
    else if ms[0].distance == d then [ms[0]] + WithDistance(ms[1..], d)
    else WithDistance(ms[1..], d)
  }

  /** A match no farther than the head of a sorted list can be put in front of it. */
  lemma SortedCons(x: Match, t: seq<Match>)
    ensures SortedByDistance(t) && (|t| > 0 ==> x.distance <= t[0].distance) ==> SortedByDistance([x] + t)
  {
    if SortedByDistance(t) && (|t| > 0 ==> x.distance <= t[0].distance) {
      var u := [x] + t;
      forall i, j | 0 <= i < j < |u| ensures u[i].distance <= u[j].distance {
        if i == 0 {
          assert u[j] == t[j - 1];
          assert t[0].distance <= t[j - 1].distance;
        } else {
          assert u[i] == t[i - 1] && u[j] == t[j - 1];
        }
      }
    }
  }

  /** Places `m` in front of the first element that is not closer than it. */
  function Insert(m: Match, s: seq<Match>): (r: seq<Match>)
    ensures multiset(r) == multiset(s) + multiset{m}
    ensures SortedByDistance(s) ==> SortedByDistance(r)
    ensures |r| == |s| + 1
  {
    if s == [] || m.distance <= s[0].distance then
      SortedCons(m, s);
      [m] + s
    else
      var rest := Insert(m, s[1..]);
      assert s == [s[0]] + s[1..];
      SortedCons(s[0], rest);
      [s[0]] + rest
  }

  /** Python's `sorted(..., key=lambda x: x.distance)`: ascending and stable. */
  function SortByDistance(ms: seq<Match>): (r: seq<Match>)
    ensures SortedByDistance(r)
    ensures multiset(r) == multiset(ms)
  {
    if ms == [] then []
    else
      assert ms == [ms[0]] + ms[1..];
      Insert(ms[0], SortByDistance(ms[1..]))
  }

  lemma {:induction false} InsertKeepsTies(m: Match, s: seq<Match>, d: real)
    ensures WithDistance(Insert(m, s), d) == if m.distance == d then [m] + WithDistance(s, d) else WithDistance(s, d)
  {
    if s == [] || m.distance <= s[0].distance {
      assert ([m] + s)[1..] == s;
    } else {
      InsertKeepsTies(m, s[1..], d);
      var rest := Insert(m, s[1..]);
      assert ([s[0]] + rest)[1..] == rest;
      if m.distance == d {
        assert s[0].distance < d;
      }
    }
  }

  /** The sort is stable: matches of equal distance keep the matcher's relative order. */
  lemma {:induction false} SortIsStable(ms: seq<Match>, d: real)
    ensures WithDistance(SortByDistance(ms), d) == WithDistance(ms, d)
  {
    if ms != [] {
      SortIsStable(ms[1..], d);
      InsertKeepsTies(ms[0], SortByDistance(ms[1..]), d);
    }
  }

  /** The sorted list is exactly the matcher's list when that one is already in order. */
  lemma {:induction false} SortKeepsSortedInput(ms: seq<Match>)
    requires SortedByDistance(ms)
    ensures SortByDistance(ms) == ms
  {
    if ms != [] {
      SortKeepsSortedInput(ms[1..]);
      assert SortByDistance(ms[1..]) == ms[1..];
      if |ms| > 1 {
        assert ms[0].distance <= ms[1].distance;
      }
      assert [ms[0]] + ms[1..] == ms;
    }
  }

  /**
   * create_and_match_keypoints: cross-checked brute-force matches, best first. A matcher
   * that raises leaves the empty list.
   */
  function CreateAndMatchKeypoints(cv: Ops, trainFeatures: Descriptors, queryFeatures: Descriptors): (r: seq<Match>)
    ensures SortedByDistance(r)
    ensures cv.bfMatch(trainFeatures, queryFeatures).None? ==> r == []
    ensures cv.bfMatch(trainFeatures, queryFeatures).Some? ==>
              multiset(r) == multiset(cv.bfMatch(trainFeatures, queryFeatures).value)
  {
    match cv.bfMatch(trainFeatures, queryFeatures)
    case None => []
    case Some(raw) => SortByDistance(raw)
  }

  /** Every index a match carries names an existing keypoint (else numpy raises IndexError). */
  predicate IndicesInRange(trainKeypoints: seq<Keypoint>, queryKeypoints: seq<Keypoint>, ms: seq<Match>) {
    forall i :: 0 <= i < |ms| ==> ms[i].queryIdx < |trainKeypoints| && ms[i].trainIdx < |queryKeypoints|
  }

  /** `points_train`: the train keypoint named by each match's queryIdx, literally as the source indexes. */
  function TrainPoints(trainKeypoints: seq<Keypoint>, ms: seq<Match>): (pts: seq<Point>)
    requires forall i :: 0 <= i < |ms| ==> ms[i].queryIdx < |trainKeypoints|
    ensures |pts| == |ms|
    ensures forall i :: 0 <= i < |ms| ==> pts[i] == trainKeypoints[ms[i].queryIdx].pt
  {
    if ms == [] then [] else [trainKeypoints[ms[0].queryIdx].pt] + TrainPoints(trainKeypoints, ms[1..])
  }

  /** `points_query`: the query keypoint named by each match's trainIdx. */
  function QueryPoints(queryKeypoints: seq<Keypoint>, ms: seq<Match>): (pts: seq<Point>)
    requires forall i :: 0 <= i < |ms| ==> ms[i].trainIdx < |queryKeypoints|
    ensures |pts| == |ms|
    ensures forall i :: 0 <= i < |ms| ==> pts[i] == queryKeypoints[ms[i].trainIdx].pt
  {
    if ms == [] then [] else [queryKeypoints[ms[0].trainIdx].pt] + QueryPoints(queryKeypoints, ms[1..])
  }

  /** The `(matches, H, status)` triple compute_homography returns. */
  datatype HomographyResult = HomographyResult(matches: seq<Match>, homography: Homography, status: seq<bool>)

  /**
   * compute_homography: below MinMatchCount no fit is attempted; otherwise the two aligned
   * point lists go to the estimator, and its failure (or an index out of range) gives None.
   */
  function ComputeHomography(cv: Ops, trainKeypoints: seq<Keypoint>, queryKeypoints: seq<Keypoint>,
                             matches: seq<Match>, reprojThresh: real): (r: Option<HomographyResult>)
    ensures |matches| < MinMatchCount ==> r.None?
    ensures r.Some? <==>
              && |matches| >= MinMatchCount
              && IndicesInRange(trainKeypoints, queryKeypoints, matches)
              && cv.findHomography(TrainPoints(trainKeypoints, matches), QueryPoints(queryKeypoints, matches), reprojThresh).Some?
    ensures r.Some? ==>
              && r.value.matches == matches
              && var fit := cv.findHomography(TrainPoints(trainKeypoints, matches), QueryPoints(queryKeypoints, matches), reprojThresh).value;
                 r.value.homography == fit.homography && r.value.status == fit.inliers
  {
    if |matches| >= MinMatchCount then
      if IndicesInRange(trainKeypoints, queryKeypoints, matches) then
        var pointsTrain := TrainPoints(trainKeypoints, matches);
        var pointsQuery := QueryPoints(queryKeypoints, matches);
        match cv.findHomography(pointsTrain, pointsQuery, reprojThresh)
        case Some(fit) => Some(HomographyResult(matches, fit.homography, fit.inliers))
        case None => None
      else None
    else None
  }

  /** Below the gate the estimator is never consulted: any two estimators give the same None. */
  lemma GateSkipsEstimator(cv1: Ops, cv2: Ops, trainKeypoints: seq<Keypoint>, queryKeypoints: seq<Keypoint>,
                           matches: seq<Match>, reprojThresh: real)
    requires |matches| < MinMatchCount
    ensures ComputeHomography(cv1, trainKeypoints, queryKeypoints, matches, reprojThresh)
         == ComputeHomography(cv2, trainKeypoints, queryKeypoints, matches, reprojThresh)
  {
  }
}
