/** The tunable constants of the stitching pipeline (config.py). */
module Config {

  /** Images the capture layer must deliver before a run is attempted. */
  const ExpectedImageCount: nat := 8

  /** Fraction of the narrower width used as the seam's feather width. */
  const SmoothingWindowPercent: real := 0.10

  /** Fewest correspondences for which a homography fit is attempted. */
  const MinMatchCount: nat := 4

  /** RANSAC reprojection-error bound, in pixels. */
  const ReprojThreshold: real := 4.0
}
