# Panorama stitching core, modelled in Dafny

This project models the panorama-stitching pipeline of a 360-degree capture server. Eight
Raspberry Pi cameras each deliver one photo. A validator checks the batch. The reduction
controller then folds the ordered list right to left, using a pairwise stitcher. For each pair,
the stitcher:

- detects SIFT features;
- matches them by brute force and sorts the matches by distance;
- gates on a minimum match count;
- fits a RANSAC homography;
- blends the query image and the warped train image across one feathered seam;
- crops the result to its content.

The model covers three source files:

- **app/utils.py**: seam window, masks, match handling, canvas composition and crop.
- **app/stitching.py**: `forward_stitch`, `recurse_stitch` and `stitch_images`.
- **app/pi_client.py**: `validate_images`.

## Treatment of OpenCV

Every OpenCV routine is an uninterpreted function. These functions are the fields of the
datatype `Cv.Ops`, and every stage receives them as parameters:

- SIFT (`detectAndCompute`);
- the brute-force matcher;
- RANSAC (`findHomography`);
- `warpPerspective` and `drawMatches`;
- the grayscale conversion;
- the `float32` and `uint8` casts.

Each routine that can fail returns an `Option`. Nothing ties SIFT's descriptor count to
its keypoint count, and nothing keeps the matcher's indices below the descriptor counts, so
the model on its own also reaches the `IndexError` of `compute_homography` and the
`MatchDrawingFailed` return. `Cv.Coherent` states the two guarantees OpenCV gives. Under it,
`Pairwise.CoherentOpsNeverFailAtDrawing` and `Pairwise.CoherentHomographyIsEstimatorOutcome`
prove that neither of those paths is taken.
The routines that produce images are modelled pointwise: a per-cell function applied over an
output of fixed shape.

- `warpPerspective` fills a canvas of the requested size.
- `drawMatches` fills a canvas as tall as the taller image and as wide as both together. It
  fails when a drawn match names a keypoint that does not exist.
- The grayscale conversion keeps the height and width and gives one intensity per pixel.
- The casts keep the shape and convert each pixel (`Images.MapPixels`).

What value each routine gives a cell is left open.

## Module layout

| file | module | source |
|---|---|---|
| `wrappers.dfy` | `Wrappers` | `Option` and `Result` |
| `config.dfy` | `Config` | the tuning constants of `config.py` |
| `images.dfy` | `Images` | images as height-by-width grids of three-channel pixels with exact real values; the BGR/RGB channel swap |
| `cv.dfy` | `Cv` | keypoints, matches, homographies and the `Ops` record of OpenCV routines |
| `seam.dfy` | `Seam` | `ImageStitching.__init__` (window clamp) and `create_mask` (imperative, over `array2`) |
| `matching.dfy` | `Matching` | `create_and_match_keypoints` (stable sort) and `compute_homography` |
| `crop.dfy` | `Crop` | the crop-to-content step of `blending_smoothing` |
| `blend.dfy` | `Blending` | `blending_smoothing` |
| `pairwise.dfy` | `Pairwise` | `give_gray`, `_sift_detector` and `forward_stitch` |
| `reduction.dfy` | `Reduction` | `recurse_stitch` |
| `stitching.dfy` | `Stitching` | `stitch_images` |
| `pi_client.dfy` | `PiClient` | `validate_images` |

`blending_smoothing` is modelled twice:

- `Blending.Blend` is a specification function.
- `Blending.BlendingSmoothing` is a method. It works step by step on canvas arrays, as the
  source does, and it is proved equal to `Blend`.

`recurse_stitch` is modelled as follows:

- `recurse_stitch` calls itself in tail position, so `Reduction.RecurseStitch` is a loop over
  a shrinking cursor.
- The loop overwrites slot `m - 2` of the caller's array in place.
- The loop itself is `Reduction.StitchFromRight`. `Reduction.Staged` describes the array
  contents after each step.
- The result is proved equal to the right fold `Reduction.Reduce`.
- `Reduction.Carried` describes what every slot of the array holds afterwards.

`Reduce` and `RecurseStitch` are stated for any image type, any pairwise stitch and any
conversion of a pair's result into the image stored in its slot. `Stitching` instantiates them
with `forward_stitch` and with `cvtColor(uint8(result), BGR2RGB)`.

## Behaviour fixed by the code

- **Position of the seam ramp.** The ramp is not centred on the query's right edge. The code
  computes `barrier = wq - offset` and writes the ramp over `[barrier - offset, barrier + offset)`.
  That range equals `[wq - 2*offset, wq)`, so the ramp ends exactly at the query's right edge.
  For two 1000-pixel images the ramp covers columns 900 to 999, not 950 to 1049
  (`Seam.ThousandPixelPairSeam`).
- **Failure report of a reduction.** A failed reduction returns `(None, None)`, with no step
  index. The model returns `None`. The number of stitches made is only a ghost counter
  (`attempts`).
- **Failure reasons of a pair.** `forward_stitch` prints its failure reason and returns
  `(None, None)`. `Pairwise.ForwardStitch` keeps the reason as a `Result`, so the stage-order
  lemmas can state it. The controller sees only `None` (`Stitching.StitchPair`).

## Model

| member | source | states |
|---|---|---|
| Seam.SmoothingWindow | app/utils.py:17-25 | the window is the configured percent of the narrower width, clamped to [100, 1000]: exactly 100 when that product is at most 100, exactly 1000 when it is at least 1000, the product itself in between |
| Seam.NarrowPairsGetMinimumWindow | app/utils.py:19-25 | with the 10% setting, any pair whose narrower image is at most 1000 pixels wide gets the minimum window 100 |
| Seam.Offset | app/utils.py:151 | for a non-negative window, the offset is the largest whole number whose double is at most the window: `0 <= 2*offset <= window < 2*offset + 2` |
| Seam.Barrier | app/utils.py:152 | the ramp `[barrier - offset, barrier + offset)` ends at the query's right edge and starts `2*offset` columns before it; the barrier never exceeds the query width |
| Seam.Truncate | app/utils.py:151-152 | Python's `int()` rounds toward zero: within one below a non-negative value, within one above a negative one |
| Seam.OffsetBounds | app/utils.py:151 | for a clamped window the offset lies in [50, 500] |
| Seam.RampFitsInQuery | app/utils.py:151-157 | for a query at least 100 wide, the ramp start `barrier - offset` is not negative, the ramp ends at column `wq`, and `2*offset <= wq` |
| Seam.ThousandPixelPairSeam | app/utils.py:151-159 | two 1000-wide images: window 100, offset 50, left mask 1 below column 900, 0 from 1000, `1 - (c-900)/99` in between |
| Seam.Linspace | app/utils.py:157 | `linspace(start, stop, n)` has n values, starts at `start`, ends at `stop`, with a constant step `(stop-start)/(n-1)` |
| Seam.RampIsMaskWeight | app/utils.py:155-163 | the i-th value of either ramp is the mask weight of column `wq - 2*offset + i` |
| Seam.LeftMaskZones | app/utils.py:155-159 | the left mask is 1 before the ramp and at its first column, 0 at its last column and from `wq` on, and strictly decreasing across the ramp |
| Seam.MasksComplementary | app/utils.py:155-164 | at every column the left and right weights sum to 1 |
| Seam.MaskWeight | app/utils.py:153-164 | every mask weight lies in [0, 1]; the zones, the ramp values and the complementarity of the two masks are stated by `LeftMaskZones`, `RampIsMaskWeight` and `MasksComplementary` |
| Seam.FillColumns | app/utils.py:156-164 | the slice assignment `mask[:, lo:lo+k] = tile(vals)` writes `vals` into those columns of every row and leaves all other cells unchanged |
| Seam.Merge | app/utils.py:166 | `cv2.merge([m, m, m])` is a fresh array of the same shape with all three channels equal to `m` |
| Seam.CreateMask | app/utils.py:132-170 | None exactly when the query is narrower than `2*offset` (numpy cannot broadcast the ramp); otherwise a fresh `qh x (wq+wt)` mask whose every cell has three channels equal to the column's mask weight |
| Matching.SortedCons | app/utils.py:84 | prepending a match no farther than the head of a sorted list keeps it sorted |
| Matching.Insert | app/utils.py:84 | insertion keeps the multiset, adds one element, and keeps a sorted list sorted |
| Matching.SortByDistance | app/utils.py:84 | the sorted list is ascending by distance and a permutation of its input |
| Matching.InsertKeepsTies | app/utils.py:84 | among the matches of any one distance, an inserted match of that distance comes first and the others keep their relative order; matches of other distances are unaffected |
| Matching.SortIsStable | app/utils.py:84 | for every distance, the matches of that distance appear in the same relative order before and after sorting (Python's `sorted` is stable) |
| Matching.SortKeepsSortedInput | app/utils.py:84 | an already sorted list comes back unchanged |
| Matching.CreateAndMatchKeypoints | app/utils.py:81-91 | the result is sorted by distance; it is a permutation of the matcher's output, or empty when the matcher raises |
| Matching.TrainPoints | app/utils.py:107-111 | one point per match; point i is the train keypoint named by `matches[i].queryIdx` |
| Matching.QueryPoints | app/utils.py:108-112 | one point per match; point i is the query keypoint named by `matches[i].trainIdx` |
| Matching.ComputeHomography | app/utils.py:106-130 | None below 4 matches; a result exactly when there are at least 4 matches, every index is in range and the estimator succeeds; the result carries the input matches and the estimator's transform and inlier mask |
| Matching.GateSkipsEstimator | app/utils.py:110-126 | below the gate the outcome does not depend on the estimator at all |
| Crop.FirstRow | app/utils.py:215-217 | `min(rows)`: a content row with no content row before it |
| Crop.LastRow | app/utils.py:215-217 | `max(rows)`: a content row with no content row after it |
| Crop.FirstCol | app/utils.py:215-218 | `min(cols)`: a content column with no content column before it |
| Crop.LastCol | app/utils.py:215-218 | `max(cols)`: a content column with no content column after it |
| Crop.ContentBox | app/utils.py:215-218 | None exactly when no cell's channel 0 is non-zero; otherwise a non-empty box inside the image |
| Crop.SubImage | app/utils.py:219 | the slice `result[r0:r1, c0:c1, :]` has the box's size and pixel (i, j) of the image at (r0+i, c0+j) |
| Crop.CropToContent | app/utils.py:215-221 | the crop is no larger than the canvas, non-empty when there is content, and the canvas itself when there is none |
| Crop.CropKeepsAllContent | app/utils.py:215-219 | every content cell lies inside the box and keeps its value at the shifted position |
| Crop.ContentSurvivesCrop | app/utils.py:215-219 | every content cell is a content cell of the crop |
| Crop.BoxIsTight | app/utils.py:215-218 | the box's first and last rows and columns hold content, and every row or column holding content lies inside it |
| Crop.ContentRowSurvivesCrop | app/utils.py:215-219 | a content row of the canvas lies inside the box and is a content row of the crop at the shifted position |
| Crop.ContentColSurvivesCrop | app/utils.py:215-219 | a content column of the canvas lies inside the box and is a content column of the crop at the shifted position |
| Crop.CropEdgeRowsHaveContent | app/utils.py:215-219 | the crop's first and last rows each hold a content cell |
| Crop.CropEdgeColsHaveContent | app/utils.py:215-219 | the crop's first and last columns each hold a content cell |
| Crop.TightImageIsItsOwnBox | app/utils.py:215-218 | an image whose four borders hold content has the whole image as its box |
| Crop.SubImageWhole | app/utils.py:219 | slicing with the whole-image box gives the image back |
| Crop.CropOfTightImage | app/utils.py:215-221 | cropping an image whose borders hold content changes nothing |
| Crop.CropIdempotent | app/utils.py:215-221 | cropping twice equals cropping once |
| Images.SwapRB | app/stitching.py:27 | `cvtColor(BGR2RGB)` keeps the shape and swaps the first and last channels of every pixel |
| Images.SwapRBInvolution | app/stitching.py:114-115 | converting twice gives the image back |
| Images.MapPixels | app/stitching.py:111-112 | a dtype cast keeps the height and width and applies the per-pixel cast to every pixel |
| Images.Snapshot | app/utils.py:212 | the image a canvas array holds: same height and width, and each pixel is the array's cell |
| Images.SameCellsSameImage | app/utils.py:212 | two images with the same shape and the same pixel everywhere are equal, which identifies the summed canvas with the composite |
| Images.MulByGray3 | app/utils.py:204 | multiplying by a three-equal-channel mask scales the pixel; black stays black |
| Blending.Composite | app/utils.py:188-212 | the unclipped canvas is query height by the sum of both widths |
| Blending.Blend | app/utils.py:184-227 | None exactly when the masks cannot be built; otherwise the cropped composite, never larger than the canvas |
| Blending.CompositeZones | app/utils.py:192-212 | before the ramp, a canvas cell is the query pixel; from `wq` on, the warped train pixel; across the ramp, `(1-t)*query + t*warped` with `t = (c - lo)/(2*offset - 1)` |
| Blending.CompositeOfAgreeingLayers | app/utils.py:203-212 | wherever the query and the warped train image agree, the blend reproduces that pixel |
| Blending.BlendSucceedsOnWideQuery | app/utils.py:195-200 | a query at least 100 pixels wide always gets its masks, so blending does not fail |
| Blending.PlaceImage | app/utils.py:203 | `panorama1[0:h, 0:w, :] = query` writes the image at the origin and nothing else |
| Blending.MultiplyInPlace | app/utils.py:204 | `panorama1 *= mask1` multiplies every cell channel-wise |
| Blending.WarpPerspective | app/utils.py:207-208 | the warp output is a fresh canvas-sized array holding the warped pixel at each cell |
| Blending.AddLayers | app/utils.py:212 | the sum is a fresh array holding the cell-wise sum |
| Blending.QueryLayer | app/utils.py:192-204 | the first layer is the query pixel times the left mask where the query lies, black elsewhere |
| Blending.WarpedLayer | app/utils.py:207-209 | the second layer is the warped pixel times the right mask |
| Blending.QueryLayerAt | app/utils.py:192-204 | no contract of its own: the cell value of the first layer, which `QueryLayer` is proved to fill |
| Blending.WarpedLayerAt | app/utils.py:207-209 | no contract of its own: the cell value of the second layer, which `WarpedLayer` is proved to fill |
| Blending.BlendingSmoothing | app/utils.py:172-227 | the array-level procedure returns exactly `Blend` |
| Pairwise.Take | app/stitching.py:87 | `matches[:100]` is a prefix of the matches, of length at most 100 |
| Pairwise.Gray | app/utils.py:38-39 | the grayscale conversion has the image's height and width, with the converted intensity of each pixel |
| Pairwise.GiveGray | app/utils.py:28-42 | the first component returned is the image itself, the second its grayscale conversion, pixel by pixel |
| Pairwise.DetectFeatures | app/stitching.py:64-74 | no contract of its own: SIFT run on `give_gray`'s grayscale image; the detection clause of `ForwardStitchStages` and `DetectionDependsOnlyOnGray` state what it decides |
| Pairwise.DetectionDependsOnlyOnGray | app/utils.py:45-68 | two images with the same grayscale conversion get the same features, or both fail detection |
| Pairwise.DrawMatches | app/stitching.py:84-89 | None exactly when a drawn match names a keypoint that does not exist; otherwise a canvas as tall as the taller image and as wide as both together |
| Pairwise.ForwardStitch | app/stitching.py:50-121 | no contract of its own; its outcome is stated by `ForwardStitchStages`, `ForwardStitchSuccess`, `ForwardStitchShape` and `WideQueryNeverFailsAtBlend` |
| Pairwise.ForwardStitchStages | app/stitching.py:61-121 | the stages run in order and the first to fail decides the outcome: detection iff a feature set is missing, matching iff fewer than 4 matches, drawing iff one of the first 100 matches names a missing keypoint, homography iff `compute_homography` gives None, blending iff the masks cannot be built; success iff none of these |
| Pairwise.PrefixIndicesInRange | app/stitching.py:87 | indices valid for the whole match list are valid for `matches[:n]` |
| Pairwise.PairMatches | app/stitching.py:76-77 | no contract of its own: `create_and_match_keypoints` on the two images' descriptors; `CoherentMatchesInRange` states what it yields |
| Pairwise.CoherentMatchesInRange | app/stitching.py:76-77 | with OpenCV's guarantees every sorted match names an existing train keypoint and an existing query keypoint |
| Pairwise.CoherentOpsNeverFailAtDrawing | app/stitching.py:84-89 | with OpenCV's guarantees forward_stitch never fails at drawing the matches |
| Pairwise.CoherentHomographyIsEstimatorOutcome | app/utils.py:110-123 | with OpenCV's guarantees the match indices are in range, so past the 4-match gate `compute_homography` succeeds exactly when RANSAC does |
| Pairwise.DrawingFailureOnlyPreemptsHomographyFailure | app/stitching.py:83-99 | whenever `compute_homography` succeeds on the full list, drawing the first 100 matches does not fail: a drawing failure only takes the place of a homography failure |
| Pairwise.ForwardStitchSuccess | app/stitching.py:83-117 | on success the diagnostic is drawn from at most the first 100 matches, while the homography was fitted to the full sorted list; both outputs are cast to float32 pixel by pixel and channel-swapped |
| Pairwise.ForwardStitchShape | app/stitching.py:84-117 | on success the panorama fits the query-height by combined-width canvas, and the diagnostic is as tall as the taller image and as wide as both together |
| Pairwise.WideQueryNeverFailsAtBlend | app/stitching.py:104-108 | a query at least 100 wide never fails at the blending stage |
| Reduction.Reduce | app/stitching.py:134-160 | no contract of its own: the strict right fold; `RecurseStitch` is proved equal to it, and `ReduceOfTwo`, `ReduceFromCarried` and `SuccessfulReduceFillsEverySlot` state its properties |
| Reduction.Carried | app/stitching.py:141-157 | no contract of its own: what slot k receives; `CarriedIsFold`, `CarriedFailurePropagates` and `FilledRightOf` state its properties |
| Reduction.CarriedFailurePropagates | app/stitching.py:148-150 | once a pair fails, no slot to its left is filled |
| Reduction.CarriedIsFold | app/stitching.py:141-160 | slot k ends up holding the converted panorama of the right fold over `images[k..]` |
| Reduction.ReduceFromCarried | app/stitching.py:134-160 | the final result is the stitch of slot 0 with what the reduction carried into slot 1 |
| Reduction.ReduceOfTwo | app/stitching.py:134-139 | with two images the result is the pairwise stitch's own, diagnostic included |
| Reduction.SuccessfulReduceFillsEverySlot | app/stitching.py:141-160 | a successful run means every slot right of the first was filled by a successful stitch |
| Reduction.FailureReachesFront | app/stitching.py:148-150 | once slot j (j >= 1) is unfilled, so is every slot from 1 to j, and the whole fold fails |
| Reduction.FilledRightOf | app/stitching.py:141-160 | once slot j is filled, every slot right of it is filled |
| Reduction.Staged | app/stitching.py:157 | the working list keeps its length; its slots are stated by `StagedAt` |
| Reduction.StagedAt | app/stitching.py:141-157 | once the reduction has reached slot lo, slot k holds what was carried into it when lo <= k < n-1 and it was filled, and its original image otherwise |
| Reduction.StitchFromRight | app/stitching.py:141-160 | the loop stops with two live slots or at the first failing pair; the slot at the cursor is filled; the array is then exactly the staged working list; on failure the failing pair's slot is unfilled; its ghost counter, incremented at each pairwise stitch, equals the stitches made |
| Reduction.RecurseStitch | app/stitching.py:123-164 | None with no stitch when n < 2; otherwise the result is the right fold; only slots 1..n-2 change, each to its carried value; a successful run makes exactly n-1 stitches; a failed one stops at the first failing pair |
| Stitching.StitchPair | app/stitching.py:135-150 | no contract of its own: `forward_stitch` as `recurse_stitch` sees it; `StitchPairCollapsesFailures` states it |
| Stitching.StitchPairCollapsesFailures | app/stitching.py:61-121 | the controller sees None exactly when `forward_stitch` takes an early return, and otherwise both of its outputs |
| Stitching.Conv | app/stitching.py:152-154 | no contract of its own: what an intermediate panorama becomes before it is stored; `ConvKeepsShape` states it |
| Stitching.ConvKeepsShape | app/stitching.py:153-154 | the stored composite has the panorama's shape; each pixel is cast to uint8, then its first and last channels swap |
| Stitching.ToRgb | app/stitching.py:25-28 | one converted image per input, in order |
| Stitching.ConvertAll | app/stitching.py:24-28 | the append loop builds exactly `ToRgb` |
| Stitching.ReduceList | app/stitching.py:31 | running the controller over a fresh list of the images gives the right fold, with n-1 stitches on success |
| Stitching.StitchImages | app/stitching.py:7-47 | fewer than two images fail with no stitch; otherwise the result is the right fold of `forward_stitch` over the RGB inputs, with `n-1` stitches on success |
| Stitching.ValidatedInputsNeverFailAtBlend | app/stitching.py:104-108 | when the inputs pass validation, no stitch whose query is a converted input fails at blending |
| PiClient.FirstInvalid | app/pi_client.py:47-53 | the loop returns at the first index whose image is missing, not three-dimensional or under 100 in height or width, and runs to the end iff every image passes |
| PiClient.ValidateImages | app/pi_client.py:41-55 | True iff there are exactly 8 images and each passes both per-image checks |
| PiClient.ValidationIgnoresOrder | app/pi_client.py:41-55 | the verdict depends only on the multiset of shapes |
| PiClient.MinimumSizeIsInclusive | app/pi_client.py:48-53 | a 100 x 100 image passes; one pixel less in either dimension fails, as do a two-dimensional shape and a missing image |
| PiClient.Shapes | app/pi_client.py:47-51 | the shape of each three-channel image is `(height, width, 3)` |
| PiClient.ValidatedImagesAreLargeEnough | app/pi_client.py:41-55 | validated inputs are 8 images, each at least 100 high and wide |

## Left out

- OpenCV routines are uninterpreted (`Cv.Ops`): SIFT detection, brute-force matching and
  RANSAC, and the cell values of perspective warping, `drawMatches` and the grayscale
  conversion. Their code is not part of this model. The shapes of the image outputs are fixed.
  The sizes of SIFT's and the matcher's outputs are constrained only where a lemma assumes
  `Cv.Coherent`.
- The `float32` and `uint8` casts are modelled per pixel and keep the shape
  (`Images.MapPixels` with `Ops.asFloat32` and `Ops.asUint8`). What a cast does to a pixel
  value is left open. This leaves out uint8 truncation and wrap-around of intermediate
  composites, and float32 rounding.
- Pixel values and mask weights are exact reals. The window `0.10 * width` is computed
  exactly, with no floating-point rounding before `int()`.
- `warpPerspective` is modelled pointwise, as a function `(source, H, row, col) -> Pixel`.
  Its interpolation and border handling are not modelled.
- Images have exactly three channels (`Images.Image`). Inputs with any other channel layout
  are not modelled:
  - A four-channel input is accepted by `cvtColor(BGR2RGB)` (app/stitching.py:27), which
    drops its alpha channel.
  - An `(h, w, 1)` input passes `validate_images`, because app/pi_client.py:48 checks only the
    number of dimensions. It then makes that `cvtColor` raise, so `stitch_images` returns
    `(None, None)` (app/stitching.py:45-47).
  - A two-dimensional input makes that `cvtColor` raise in the same way.
- Stitching.StitchImages: the exception path of `stitch_images` (app/stitching.py:45-47) is
  not modelled. Besides the channel layouts above, an empty three-channel image (height or
  width 0) also makes `cvtColor` raise, and for such inputs the model can return a result
  where the program returns `(None, None)`. Validated inputs are at least 100 by 100
  (`PiClient.ValidatedImagesAreLargeEnough`), so they never take that path.
- `give_gray`'s two-dimensional branch (app/utils.py:40-41) is not modelled. `stitch_images`'
  conversion always yields three channels, so that branch is never reached from the pipeline.
- The `print` logging and the `cv2.imwrite` calls in `stitch_images` are left out. They are
  console and file output and do not affect the result.
- `fetch_images` and `check_pi_status` are left out (network I/O). So is `cleanup_old_files`
  (file system and clock), and so are the Flask routes and `src/main.py`.
- Exceptions raised inside OpenCV routines are covered only through their `None` results. The
  model has no other source of exceptions. An out-of-range match index is modelled in
  two ways. It raises `IndexError` in `compute_homography`, modelled as `None`. It raises
  inside `drawMatches`, modelled as the `MatchDrawingFailed` return of forward_stitch. With
  OpenCV's guarantees (`Cv.Coherent`) neither happens.
- Seam.CreateMask: requires a non-negative window; every window the pipeline computes is at
  least 100.
- Reduction.RecurseStitch: requires `n` to be at most the list's length. The source indexes
  past its list otherwise, and every caller passes `len(image_list)`.
- Reduction.RecurseStitch: the number of stitches is a ghost counter, not a value returned
  by the source.
- Config.SmoothingWindowPercent, Config.MinMatchCount and Config.ReprojThreshold are plain
  constants (0.10, 4 and 4.0, `config.py:27-29`). They are used where the source uses them.
