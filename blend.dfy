/**
 * Blending one pair onto a shared canvas (blending_smoothing): the query image at the
 * origin weighted by the left mask, the warped train image weighted by the right mask,
 * their sum, and the crop to content.
 */
module Blending {
  import opened Wrappers
  import opened Images
  import opened Cv
  import opened Seam
  import opened Crop

  /** cv2.warpPerspective, pointwise: the destination pixel at (row, col). */
  type WarpFn = (Image, Homography, nat, nat) -> Pixel

  /** The first layer at (r, c): the query where it lies on the canvas, black elsewhere, times the left mask. */
  function QueryLayerAt(query: Image, offset: int, r: nat, c: nat): Pixel
    requires r < query.height
  {
    if c < query.width then Scale(query.px[r][c], MaskWeight(LeftImage, query.width, offset, c)) else Black
  }

  /** The second layer at (r, c): the warped train image times the right mask. */
  function WarpedLayerAt(train: Image, homography: Homography, warp: WarpFn, queryWidth: nat, offset: int, r: nat, c: nat): Pixel {
    Scale(warp(train, homography, r, c), MaskWeight(RightImage, queryWidth, offset, c))
  }

  /** The blended canvas before cropping: query height by the sum of both widths. */
  function Composite(query: Image, train: Image, homography: Homography, warp: WarpFn, offset: int): (img: Image)
    ensures img.height == query.height && img.width == query.width + train.width
  {
    var height, width := query.height, query.width + train.width;
    Grid(height, width,
         seq(height, r requires 0 <= r < height =>
           seq(width, c requires 0 <= c < width =>
             Add(QueryLayerAt(query, offset, r, c), WarpedLayerAt(train, homography, warp, query.width, offset, r, c)))))
  }

  /**
   * The value blending_smoothing returns: None exactly when the masks cannot be built, else the
   * cropped composite, which never exceeds the canvas.
   */
  function Blend(query: Image, train: Image, homography: Homography, window: real, warp: WarpFn): (r: Option<Image>)
    ensures r.None? <==> query.width < 2 * Offset(window)
    ensures r.Some? ==> r.value.height <= query.height && r.value.width <= query.width + train.width
  {
    if query.width < 2 * Offset(window) then None
    else Some(CropToContent(Composite(query, train, homography, warp, Offset(window))))
  }

  /**
   * The canvas, column by column: the query alone left of the ramp, the warped train image alone
   * from the query's right edge on, and across the ramp their linear cross-fade.
   */
  lemma CompositeZones(query: Image, train: Image, homography: Homography, warp: WarpFn, offset: int, r: nat, c: nat)
    requires offset >= 1 && r < query.height && c < query.width + train.width
    ensures var px := Composite(query, train, homography, warp, offset).px[r][c];
            var lo := query.width - 2 * offset;
            && (c < lo ==> px == query.px[r][c])
            && (c >= query.width ==> px == warp(train, homography, r, c))
            && (lo <= c < query.width ==>
                  var t := (c - lo) as real / (2 * offset - 1) as real;
                  px == Add(Scale(query.px[r][c], 1.0 - t), Scale(warp(train, homography, r, c), t)))
  {
    var lo := query.width - 2 * offset;
    var p := Composite(query, train, homography, warp, offset).px[r][c];
    var w := warp(train, homography, r, c);
    if c < lo {
      assert p == Add(Scale(query.px[r][c], 1.0), Scale(w, 0.0));
    } else if c >= query.width {
      assert p == Add(Black, Scale(w, 1.0));
    }
  }

  /** Where the query and the warped train image agree, the blend reproduces that pixel exactly. */
  lemma CompositeOfAgreeingLayers(query: Image, train: Image, homography: Homography, warp: WarpFn, offset: int, r: nat, c: nat)
    requires r < query.height && c < query.width
    requires query.px[r][c] == warp(train, homography, r, c)
    ensures Composite(query, train, homography, warp, offset).px[r][c] == query.px[r][c]
  {
    var p := query.px[r][c];
    var wl := MaskWeight(LeftImage, query.width, offset, c);
    var wr := MaskWeight(RightImage, query.width, offset, c);
    MasksComplementary(query.width, offset, c);
    assert wl + wr == 1.0;
    assert p.c0 * wl + p.c0 * wr == p.c0 * (wl + wr);
    assert p.c1 * wl + p.c1 * wr == p.c1 * (wl + wr);
    assert p.c2 * wl + p.c2 * wr == p.c2 * (wl + wr);
  }

  /** A query image at least 100 pixels wide (every validated input) always gets its masks. */
  lemma BlendSucceedsOnWideQuery(query: Image, train: Image, homography: Homography, warp: WarpFn)
    requires query.width >= 100
    ensures Blend(query, train, homography, SmoothingWindow(query.width, train.width), warp).Some?
  {
    RampFitsInQuery(query.width, train.width);
  }

  /** panorama1[0:h, 0:w, :] = image */
  method PlaceImage(canvas: array2<Pixel>, img: Image)
    requires img.height <= canvas.Length0 && img.width <= canvas.Length1
    modifies canvas
    ensures forall r, c :: 0 <= r < canvas.Length0 && 0 <= c < canvas.Length1 ==>
              canvas[r, c] == if r < img.height && c < img.width then img.px[r][c] else old(canvas[r, c])
  {
    var r := 0;
    while r < img.height
      invariant 0 <= r <= img.height
      invariant forall i, j :: 0 <= i < canvas.Length0 && 0 <= j < canvas.Length1 ==>
                  canvas[i, j] == if i < r && j < img.width then img.px[i][j] else old(canvas[i, j])
    {
      var c := 0;
      while c < img.width
        invariant 0 <= c <= img.width
        invariant forall i, j :: 0 <= i < canvas.Length0 && 0 <= j < canvas.Length1 ==>
                    canvas[i, j] == if (i < r || (i == r && j < c)) && j < img.width then img.px[i][j] else old(canvas[i, j])
      {
        canvas[r, c] := img.px[r][c];
        c := c + 1;
      }
      r := r + 1;
    }
  }

  /** canvas *= mask, cell by cell and channel by channel. */
  method MultiplyInPlace(canvas: array2<Pixel>, mask: array2<Pixel>)
    requires canvas != mask
    requires mask.Length0 == canvas.Length0 && mask.Length1 == canvas.Length1
    modifies canvas
    ensures forall r, c :: 0 <= r < canvas.Length0 && 0 <= c < canvas.Length1 ==>
              canvas[r, c] == Mul(old(canvas[r, c]), mask[r, c])
  {
    var r := 0;
    while r < canvas.Length0
      invariant 0 <= r <= canvas.Length0
      invariant forall i, j :: 0 <= i < canvas.Length0 && 0 <= j < canvas.Length1 ==>
                  canvas[i, j] == if i < r then Mul(old(canvas[i, j]), mask[i, j]) else old(canvas[i, j])
    {
      var c := 0;
      while c < canvas.Length1
        invariant 0 <= c <= canvas.Length1
        invariant forall i, j :: 0 <= i < canvas.Length0 && 0 <= j < canvas.Length1 ==>
                    canvas[i, j] == if i < r || (i == r && j < c) then Mul(old(canvas[i, j]), mask[i, j]) else old(canvas[i, j])
      {
        canvas[r, c] := Mul(canvas[r, c], mask[r, c]);
        c := c + 1;
      }
      r := r + 1;
    }
  }

  /** cv2.warpPerspective(train, H, (width, height)): a fresh height by width image. */
  method WarpPerspective(train: Image, homography: Homography, warp: WarpFn, height: nat, width: nat)
    returns (warped: array2<Pixel>)
    ensures fresh(warped) && warped.Length0 == height && warped.Length1 == width
    ensures forall r, c :: 0 <= r < height && 0 <= c < width ==> warped[r, c] == warp(train, homography, r, c)
  {
    warped := new Pixel[height, width]((r, c) requires 0 <= r && 0 <= c => warp(train, homography, r, c));
  }

  /** panorama1 + panorama2: a fresh array holding the cell-wise sum. */
  method AddLayers(a: array2<Pixel>, b: array2<Pixel>) returns (sum: array2<Pixel>)
    requires a.Length0 == b.Length0 && a.Length1 == b.Length1
    ensures fresh(sum) && sum.Length0 == a.Length0 && sum.Length1 == a.Length1
    ensures forall r, c :: 0 <= r < a.Length0 && 0 <= c < a.Length1 ==> sum[r, c] == Add(a[r, c], b[r, c])
  {
    sum := new Pixel[a.Length0, a.Length1];
    var r := 0;
    while r < a.Length0
      invariant 0 <= r <= a.Length0
      invariant forall i, j :: 0 <= i < r && 0 <= j < a.Length1 ==> sum[i, j] == Add(a[i, j], b[i, j])
    {
      var c := 0;
      while c < a.Length1
        invariant 0 <= c <= a.Length1
        invariant forall i, j :: 0 <= i < r && 0 <= j < a.Length1 ==> sum[i, j] == Add(a[i, j], b[i, j])
        invariant forall j :: 0 <= j < c ==> sum[r, j] == Add(a[r, j], b[r, j])
      {
        sum[r, c] := Add(a[r, c], b[r, c]);
        c := c + 1;
      }
      r := r + 1;
    }
  }

  /** panorama1: a black canvas, the query copied to its origin, then multiplied in place by the left mask. */
  method QueryLayer(query: Image, width: nat, offset: int, mask1: array2<Pixel>) returns (panorama1: array2<Pixel>)
    requires query.width <= width
    requires mask1.Length0 == query.height && mask1.Length1 == width
    requires forall r, c :: 0 <= r < query.height && 0 <= c < width ==>
               mask1[r, c] == Gray3(MaskWeight(LeftImage, query.width, offset, c))
    ensures fresh(panorama1) && panorama1.Length0 == query.height && panorama1.Length1 == width
    ensures forall r, c :: 0 <= r < query.height && 0 <= c < width ==> panorama1[r, c] == QueryLayerAt(query, offset, r, c)
  {
    panorama1 := new Pixel[query.height, width]((_, _) => Black);
    PlaceImage(panorama1, query);
    label placed:
    MultiplyInPlace(panorama1, mask1);
    forall r, c | 0 <= r < query.height && 0 <= c < width
      ensures panorama1[r, c] == QueryLayerAt(query, offset, r, c)
    {
      var w := MaskWeight(LeftImage, query.width, offset, c);
      var p := if c < query.width then query.px[r][c] else Black;
      assert old@placed(panorama1[r, c]) == p;
      assert panorama1[r, c] == Mul(p, Gray3(w));
      MulByGray3(p, w);
    }
  }

  /** panorama2: warpPerspective(train, H, (width, height)) * mask2. */
  method WarpedLayer(train: Image, homography: Homography, warp: WarpFn, height: nat, width: nat,
                     queryWidth: nat, offset: int, mask2: array2<Pixel>) returns (panorama2: array2<Pixel>)
    requires mask2.Length0 == height && mask2.Length1 == width
    requires forall r, c :: 0 <= r < height && 0 <= c < width ==>
               mask2[r, c] == Gray3(MaskWeight(RightImage, queryWidth, offset, c))
    ensures fresh(panorama2) && panorama2.Length0 == height && panorama2.Length1 == width
    ensures forall r, c :: 0 <= r < height && 0 <= c < width ==>
              panorama2[r, c] == WarpedLayerAt(train, homography, warp, queryWidth, offset, r, c)
  {
    panorama2 := WarpPerspective(train, homography, warp, height, width);
    MultiplyInPlace(panorama2, mask2);
    forall r, c | 0 <= r < height && 0 <= c < width
      ensures panorama2[r, c] == WarpedLayerAt(train, homography, warp, queryWidth, offset, r, c)
    {
      MulByGray3(warp(train, homography, r, c), MaskWeight(RightImage, queryWidth, offset, c));
    }
  }

  /** blending_smoothing, step by step on canvas arrays. */
  method BlendingSmoothing(query: Image, train: Image, homography: Homography, window: real, warp: WarpFn)
    returns (result: Option<Image>)
    requires window >= 0.0
    ensures result == Blend(query, train, homography, window, warp)
  {
    var height, width := query.height, query.width + train.width;
    var mask1 := CreateMask(query, train, window, LeftImage);
    var mask2 := CreateMask(query, train, window, RightImage);
    if mask1.None? || mask2.None? {
      return None;
    }
    var offset := Offset(window);
    var panorama1 := QueryLayer(query, width, offset, mask1.value);
    var panorama2 := WarpedLayer(train, homography, warp, height, width, query.width, offset, mask2.value);
    var sum := AddLayers(panorama1, panorama2);
    var canvas := Snapshot(sum);
    SameCellsSameImage(canvas, Composite(query, train, homography, warp, offset));
    result := Some(CropToContent(canvas));
  }
}
