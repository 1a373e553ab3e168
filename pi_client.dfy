/** Input validation before a stitching run (validate_images). */
module PiClient {
  import opened Wrappers
  import opened Config
  import opened Images

  /** A numpy array's `shape`; None stands for a missing image. */
  type Shape = seq<nat>

  /** Smallest height and width an input may have. */
  const MinSide: nat := 100

  /** Both per-image checks: present and three-dimensional, and at least MinSide in height and width. */
  predicate PassesChecks(img: Option<Shape>) {
    img.Some? && |img.value| == 3 && img.value[0] >= MinSide && img.value[1] >= MinSide
  }

  /** The for loop: the index at which it returns False, or None when it runs to the end. */
  function FirstInvalid(images: seq<Option<Shape>>, i: nat): (k: Option<nat>)
    requires i <= |images|
    ensures k.None? <==> forall j :: i <= j < |images| ==> PassesChecks(images[j])
    ensures k.Some? ==> i <= k.value < |images| && !PassesChecks(images[k.value])
    ensures k.Some? ==> forall j :: i <= j < k.value ==> PassesChecks(images[j])
    decreases |images| - i
  {
    if i == |images| then None
    else if images[i].None? || |images[i].value| != 3 then Some(i)
    else if images[i].value[0] < MinSide || images[i].value[1] < MinSide then Some(i)
    else FirstInvalid(images, i + 1)
  }

  /** validate_images: exactly ExpectedImageCount images, each passing both checks. */
  function ValidateImages(images: seq<Option<Shape>>): (ok: bool)
    ensures ok <==> |images| == ExpectedImageCount && forall i :: 0 <= i < |images| ==> PassesChecks(images[i])
  {
    if |images| != ExpectedImageCount then false
    else FirstInvalid(images, 0).None?
  }

  /** The verdict depends only on the multiset of shapes, not on their order. */
  lemma {:induction false} ValidationIgnoresOrder(a: seq<Option<Shape>>, b: seq<Option<Shape>>)
    requires multiset(a) == multiset(b)
    ensures ValidateImages(a) == ValidateImages(b)
  {
    assert |a| == |multiset(a)| == |multiset(b)| == |b|;
    if ValidateImages(a) {
      forall j | 0 <= j < |b| ensures PassesChecks(b[j]) {
        assert b[j] in multiset(a);
        var i :| 0 <= i < |a| && a[i] == b[j];
      }
    }
    if ValidateImages(b) {
      forall i | 0 <= i < |a| ensures PassesChecks(a[i]) {
        assert a[i] in multiset(b);
        var j :| 0 <= j < |b| && b[j] == a[i];
      }
    }
  }

  /** The bound is inclusive: 100 x 100 passes, one pixel less in either direction does not. */
  lemma MinimumSizeIsInclusive(h: nat, w: nat, c: nat)
    ensures PassesChecks(Some([h, w, c])) <==> h >= 100 && w >= 100
    ensures !PassesChecks(Some([h, w]))
    ensures !PassesChecks(None)
  {
  }

  /** The shape of one of the pipeline's three-channel images. */
  function ShapeOf(img: Image): Option<Shape> {
    Some([img.height, img.width, 3])
  }

  function Shapes(images: seq<Image>): (r: seq<Option<Shape>>)
    ensures |r| == |images|
    ensures forall i :: 0 <= i < |images| ==> r[i] == ShapeOf(images[i])
  {
    if images == [] then [] else [ShapeOf(images[0])] + Shapes(images[1..])
  }

  /** Validated inputs are eight images, each at least MinSide high and wide. */
  lemma {:induction false} ValidatedImagesAreLargeEnough(images: seq<Image>)
    requires ValidateImages(Shapes(images))
    ensures |images| == ExpectedImageCount
    ensures forall i :: 0 <= i < |images| ==> images[i].height >= MinSide && images[i].width >= MinSide
  {
    forall i | 0 <= i < |images| ensures images[i].height >= MinSide && images[i].width >= MinSide {
      assert PassesChecks(Shapes(images)[i]);
    }
  }
}
