/** The pipeline's entry point (stitch_images): inputs converted to RGB, then reduced to one panorama. */
module Stitching {
  import opened Wrappers
  import opened Images
  import opened Cv
  import opened Pairwise
  import opened Reduction
  import PiClient

  /** forward_stitch as the controller calls it: any failure is `(None, None)`. */
  function StitchPair(cv: Ops): PairStitch<Image, Stitched> {
    (query: Image, train: Image) => ForwardStitch(cv, query, train).ToOption()
  }

  /** `cvtColor(uint8(result), COLOR_BGR2RGB)`: what an intermediate pair's panorama becomes before it is stored. */
  function Conv(cv: Ops): Stitched -> Image {
    (st: Stitched) => SwapRB(MapPixels(st.panorama, cv.asUint8))
  }

  /** The controller sees a pair as None exactly when forward_stitch took an early return, and otherwise gets both outputs. */
  lemma StitchPairCollapsesFailures(cv: Ops, query: Image, train: Image)
    ensures StitchPair(cv)(query, train).None? <==> ForwardStitch(cv, query, train).Failure?
    ensures StitchPair(cv)(query, train).Some? ==> StitchPair(cv)(query, train).value == ForwardStitch(cv, query, train).value
  {
  }

  /** A stored composite has its panorama's shape; each pixel is cast to uint8, then its first and last channels swap. */
  lemma ConvKeepsShape(cv: Ops, st: Stitched)
    ensures Conv(cv)(st).height == st.panorama.height && Conv(cv)(st).width == st.panorama.width
    ensures forall i, j :: 0 <= i < st.panorama.height && 0 <= j < st.panorama.width ==>
              Conv(cv)(st).px[i][j] == SwapChannels(cv.asUint8(st.panorama.px[i][j]))
  {
  }

  /** `images_rgb`: each input converted from BGR to RGB. */
  function ToRgb(images: seq<Image>): (r: seq<Image>)
    ensures |r| == |images|
    ensures forall i :: 0 <= i < |images| ==> r[i] == SwapRB(images[i])
  {
    if images == [] then [] else [SwapRB(images[0])] + ToRgb(images[1..])
  }

  /** The append loop that builds `images_rgb`. */
  method ConvertAll(images: seq<Image>) returns (imagesRgb: seq<Image>)
    ensures imagesRgb == ToRgb(images)
  {
    imagesRgb := [];
    for i := 0 to |images|
      invariant |imagesRgb| == i
      invariant forall j :: 0 <= j < i ==> imagesRgb[j] == SwapRB(images[j])
    {
      imagesRgb := imagesRgb + [SwapRB(images[i])];
    }
  }

  /** `recurse_stitch(images_rgb, len(images_rgb))` on a fresh mutable list holding `images`. */
  method ReduceList(fs: PairStitch<Image, Stitched>, conv: Stitched -> Image, images: seq<Image>) returns (r: Option<Stitched>, ghost attempts: nat)
    requires |images| >= 2
    ensures r == Reduce(fs, conv, images)
    ensures r.Some? ==> attempts == |images| - 1
  {
    var imageList := new Image[|images|](i requires 0 <= i < |images| => images[i]);
    assert imageList[..imageList.Length] == images;
    r, attempts := RecurseStitch(fs, conv, imageList, imageList.Length);
  }

  /**
   * stitch_images: fewer than two images fail without any stitch; otherwise the inputs are
   * converted to RGB one by one and folded right to left by recurse_stitch.
   */
  method StitchImages(cv: Ops, images: seq<Image>) returns (r: Option<Stitched>, ghost attempts: nat)
    ensures |images| < 2 ==> r.None? && attempts == 0
    ensures |images| >= 2 ==> r == Reduce(StitchPair(cv), Conv(cv), ToRgb(images))
    ensures |images| >= 2 && r.Some? ==> attempts == |images| - 1
  {
    if |images| < 2 {
      return None, 0;
    }
    var imagesRgb := ConvertAll(images);
    r, attempts := ReduceList(StitchPair(cv), Conv(cv), imagesRgb);
  }

  /**
   * Every pair the reduction stitches has one of the converted inputs as its query image, so once
   * the inputs pass validation no step of the run can fail at the blending stage.
   */
  lemma {:induction false} ValidatedInputsNeverFailAtBlend(cv: Ops, images: seq<Image>, k: nat, train: Image)
    requires PiClient.ValidateImages(PiClient.Shapes(images))
    requires k < |images|
    ensures ForwardStitch(cv, ToRgb(images)[k], train) != Failure(BlendFailed)
  {
    PiClient.ValidatedImagesAreLargeEnough(images);
    WideQueryNeverFailsAtBlend(cv, ToRgb(images)[k], train);
  }
}
