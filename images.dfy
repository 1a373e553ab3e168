/** Raster images: height x width grids of three-channel pixels with exact real values. */
module Images {

  datatype Pixel = Pixel(c0: real, c1: real, c2: real)

  /** The value every canvas cell starts from (numpy `zeros`). */
  const Black: Pixel := Pixel(0.0, 0.0, 0.0)

  /** A pixel times a scalar weight. */
  function Scale(p: Pixel, w: real): Pixel {
    Pixel(p.c0 * w, p.c1 * w, p.c2 * w)
  }

  /** Channel-wise product, as numpy's `*` on two 3-channel arrays. */
  function Mul(p: Pixel, q: Pixel): Pixel {
    Pixel(p.c0 * q.c0, p.c1 * q.c1, p.c2 * q.c2)
  }

  /** Channel-wise sum, as numpy's `+`. */
  function Add(p: Pixel, q: Pixel): Pixel {
    Pixel(p.c0 + q.c0, p.c1 + q.c1, p.c2 + q.c2)
  }

  /** A mask weight merged into three equal channels (cv2.merge([m, m, m])). */
  function Gray3(w: real): Pixel {
    Pixel(w, w, w)
  }

  /** OpenCV's BGR<->RGB conversion: the first and last channel trade places. */
  function SwapChannels(p: Pixel): Pixel {
    Pixel(p.c2, p.c1, p.c0)
  }

  datatype Grid = Grid(height: nat, width: nat, px: seq<seq<Pixel>>) {
    /** Every numpy array is rectangular: `height` rows of `width` pixels. */
    predicate Wf() {
      |px| == height && forall r :: 0 <= r < |px| ==> |px[r]| == width
    }
  }

  type Image = g: Grid | g.Wf() witness Grid(0, 0, [])

  lemma MulByGray3(p: Pixel, w: real)
    ensures Mul(p, Gray3(w)) == Scale(p, w)
    ensures Mul(Black, Gray3(w)) == Black
  {
  }

  /** cv2.cvtColor(image, COLOR_BGR2RGB) applied to a whole image. */
  function SwapRB(img: Image): (r: Image)
    ensures r.height == img.height && r.width == img.width
    ensures forall i, j :: 0 <= i < r.height && 0 <= j < r.width ==>
              r.px[i][j] == SwapChannels(img.px[i][j])
  {
    Grid(img.height, img.width,
         seq(img.height, i requires 0 <= i < img.height =>
           seq(img.width, j requires 0 <= j < img.width => SwapChannels(img.px[i][j]))))
  }

  /** An elementwise numpy operation (a dtype cast such as `float32(...)`): the shape is kept and `f` is applied to every pixel. */
  function MapPixels(img: Image, f: Pixel -> Pixel): (r: Image)
    ensures r.height == img.height && r.width == img.width
    ensures forall i, j :: 0 <= i < r.height && 0 <= j < r.width ==> r.px[i][j] == f(img.px[i][j])
  {
    Grid(img.height, img.width,
         seq(img.height, i requires 0 <= i < img.height =>
           seq(img.width, j requires 0 <= j < img.width => f(img.px[i][j]))))
  }

  /** Converting twice gives the image back, so BGR and RGB views carry the same content. */
  lemma SwapRBInvolution(img: Image)
    ensures SwapRB(SwapRB(img)) == img
  {
    var back := SwapRB(SwapRB(img));
    forall i | 0 <= i < img.height
      ensures back.px[i] == img.px[i]
    {
      assert |back.px[i]| == |img.px[i]|;
      forall j | 0 <= j < img.width ensures back.px[i][j] == img.px[i][j] {
      }
    }
  }

  /** The value held by a canvas array, as an image. */
  function Snapshot(a: array2<Pixel>): (img: Image)
    reads a
    ensures img.height == a.Length0 && img.width == a.Length1
    ensures forall i, j :: 0 <= i < a.Length0 && 0 <= j < a.Length1 ==> img.px[i][j] == a[i, j]
  {
    Grid(a.Length0, a.Length1,
         seq(a.Length0, i reads a requires 0 <= i < a.Length0 =>
           seq(a.Length1, j reads a requires 0 <= j < a.Length1 => a[i, j])))
  }

  /** Two images with the same shape and the same pixel at every position are equal. */
  lemma SameCellsSameImage(a: Image, b: Image)
    requires a.height == b.height && a.width == b.width
    requires forall i, j :: 0 <= i < a.height && 0 <= j < a.width ==> a.px[i][j] == b.px[i][j]
    ensures a == b
  {
    forall i | 0 <= i < a.height ensures a.px[i] == b.px[i] {
      assert |a.px[i]| == |b.px[i]|;
    }
    assert a.px == b.px;
  }
}
