/**
 * Seam geometry: the feather window chosen when a pair is set up (ImageStitching.__init__)
 * and the two complementary blending masks (create_mask).
 */
module Seam {
  import opened Wrappers
  import opened Config
  import opened Images

  /** The clamp bounds on the feather window, in pixels. */
  const MinWindow: real := 100.0
  const MaxWindow: real := 1000.0

  function MinNat(a: nat, b: nat): nat { if a <= b then a else b }
  function MinReal(a: real, b: real): real { if a <= b then a else b }
  function MaxReal(a: real, b: real): real { if a >= b then a else b }

  /**
   * `smoothing_window_size`: the configured fraction of the narrower width, clamped
   * to [MinWindow, MaxWindow].
   */
  function SmoothingWindow(queryWidth: nat, trainWidth: nat): (w: real)
    ensures MinWindow <= w <= MaxWindow
    ensures SmoothingWindowPercent * MinNat(queryWidth, trainWidth) as real <= MinWindow ==> w == MinWindow
    ensures MaxWindow <= SmoothingWindowPercent * MinNat(queryWidth, trainWidth) as real ==> w == MaxWindow
    ensures MinWindow <= SmoothingWindowPercent * MinNat(queryWidth, trainWidth) as real <= MaxWindow ==>
              w == SmoothingWindowPercent * MinNat(queryWidth, trainWidth) as real
  {
    MaxReal(MinWindow, MinReal(SmoothingWindowPercent * MinNat(queryWidth, trainWidth) as real, MaxWindow))
  }

  /** With a 10% window, any pair whose narrower image is at most 1000 pixels wide gets the minimum window. */
  lemma NarrowPairsGetMinimumWindow(queryWidth: nat, trainWidth: nat)
    requires MinNat(queryWidth, trainWidth) <= 1000
    ensures SmoothingWindow(queryWidth, trainWidth) == MinWindow
  {
    assert SmoothingWindowPercent * MinNat(queryWidth, trainWidth) as real <= 100.0;
  }

  /** Python's int(x): truncation toward zero. */
  function Truncate(x: real): (k: int)
    ensures x >= 0.0 ==> k as real <= x < k as real + 1.0
    ensures x < 0.0 ==> k as real - 1.0 < x <= k as real
  {
    if x >= 0.0 then x.Floor else -((-x).Floor)
  }

  /** `offset`: half the window, truncated; for a non-negative window, the largest whole half. */
  function Offset(window: real): (off: int)
    ensures window >= 0.0 ==> 0 <= off && (2 * off) as real <= window < (2 * off + 2) as real
  {
    Truncate(window / 2.0)
  }

  /**
   * `barrier`: the query width less the offset. The ramp [barrier - offset, barrier + offset)
   * therefore ends exactly at the query's right edge and starts 2*offset columns before it.
   */
  function Barrier(queryWidth: nat, window: real): (b: int)
    ensures b + Offset(window) == queryWidth
    ensures b - Offset(window) == queryWidth - 2 * Offset(window)
    ensures window >= 0.0 ==> b <= queryWidth
  {
    queryWidth - Offset(window)
  }

  lemma OffsetBounds(window: real)
    requires MinWindow <= window <= MaxWindow
    ensures 50 <= Offset(window) <= 500
  {
  }

  /**
   * Once the query image is at least 100 pixels wide (what the input validator demands), the
   * ramp [barrier - offset, barrier + offset) lies inside the query's columns: its start is not
   * negative, so numpy's slice never wraps, and it ends exactly at the query's right edge.
   */
  lemma RampFitsInQuery(queryWidth: nat, trainWidth: nat)
    requires queryWidth >= 100
    ensures var w := SmoothingWindow(queryWidth, trainWidth);
            0 <= Barrier(queryWidth, w) - Offset(w) &&
            Barrier(queryWidth, w) + Offset(w) == queryWidth &&
            2 * Offset(w) <= queryWidth
  {
    var p := SmoothingWindowPercent * MinNat(queryWidth, trainWidth) as real;
    var w := SmoothingWindow(queryWidth, trainWidth);
    if p <= MinWindow {
      assert w == 100.0;
      assert Offset(w) == 50;
    } else {
      assert w <= p;
      assert p <= SmoothingWindowPercent * queryWidth as real;
      var off := Offset(w);
      assert off as real <= w / 2.0;
      assert (2 * off) as real <= queryWidth as real;
    }
  }

  // ---------------------------------------------------------------------------------------
  // Masks

  /** The `version` argument of create_mask. */
  datatype Side = LeftImage | RightImage

  /**
   * The weight a mask gives column `c` (every row is the same). The left mask is 1 before the
   * ramp, falls linearly from 1 to 0 across the 2*offset ramp columns ending at the query's right
   * edge, and is 0 from there on; the right mask is the mirror image.
   */
  function MaskWeight(side: Side, queryWidth: int, offset: int, c: int): (weight: real)
    ensures 0.0 <= weight <= 1.0
  {
    var lo := queryWidth - 2 * offset;
    if c < lo then
      (if side == LeftImage then 1.0 else 0.0)
    else if c < queryWidth then
      var d := (2 * offset - 1) as real;
      var t := (c - lo) as real / d;
      assert 0.0 <= (c - lo) as real <= d;
      assert t <= 1.0;
      if side == LeftImage then 1.0 - t else t
    else
      (if side == LeftImage then 0.0 else 1.0)
  }

  /** numpy's linspace(start, stop, n): n evenly spaced values from start to stop. */
  function Linspace(start: real, stop: real, n: nat): (r: seq<real>)
    ensures |r| == n
    ensures n >= 1 ==> r[0] == start
    ensures n >= 2 ==> r[n - 1] == stop
    ensures n >= 2 ==> forall i :: 0 <= i < n - 1 ==> r[i + 1] - r[i] == (stop - start) / (n - 1) as real
  {
    if n <= 1 then seq(n, _ => start)
    else seq(n, i requires 0 <= i < n => start + i as real * ((stop - start) / (n - 1) as real))
  }

  /** The ramp written by create_mask's slice assignment agrees with MaskWeight on the ramp columns. */
  lemma RampIsMaskWeight(side: Side, queryWidth: int, offset: int, i: nat)
    requires offset >= 1 && i < 2 * offset
    ensures var ramp := if side == LeftImage then Linspace(1.0, 0.0, 2 * offset) else Linspace(0.0, 1.0, 2 * offset);
            ramp[i] == MaskWeight(side, queryWidth, offset, queryWidth - 2 * offset + i)
  {
    var d := (2 * offset - 1) as real;
    assert d > 0.0;
    assert i as real * ((0.0 - 1.0) / d) == -(i as real / d);
    assert i as real * ((1.0 - 0.0) / d) == i as real / d;
  }

  /** Wherever both masks are defined they sum to one: the blend is a partition of unity. */
  lemma MasksComplementary(queryWidth: int, offset: int, c: int)
    ensures MaskWeight(LeftImage, queryWidth, offset, c) + MaskWeight(RightImage, queryWidth, offset, c) == 1.0
  {
  }

  /** The left mask, column by column, as the feather zones describe it. */
  lemma LeftMaskZones(queryWidth: int, offset: int, c: int)
    requires offset >= 1
    ensures c < queryWidth - 2 * offset ==> MaskWeight(LeftImage, queryWidth, offset, c) == 1.0
    ensures c >= queryWidth ==> MaskWeight(LeftImage, queryWidth, offset, c) == 0.0
    ensures c == queryWidth - 2 * offset ==> MaskWeight(LeftImage, queryWidth, offset, c) == 1.0
    ensures c == queryWidth - 1 ==> MaskWeight(LeftImage, queryWidth, offset, c) == 0.0
    ensures queryWidth - 2 * offset <= c < queryWidth - 1 ==>
              MaskWeight(LeftImage, queryWidth, offset, c + 1) < MaskWeight(LeftImage, queryWidth, offset, c)
  {
    var d := (2 * offset - 1) as real;
    var lo := queryWidth - 2 * offset;
    if lo <= c < queryWidth - 1 {
      var a := (c - lo) as real;
      assert (c + 1 - lo) as real == a + 1.0;
      assert (a + 1.0) / d == a / d + 1.0 / d;
      assert 1.0 / d > 0.0;
    }
  }

  /**
   * Two 1000-pixel-wide images: the window is 100, the offset 50, and the left mask ramps down
   * over columns 900 to 999, ending at the query's right edge rather than centred on it.
   */
  lemma ThousandPixelPairSeam(c: int)
    ensures SmoothingWindow(1000, 1000) == MinWindow && Offset(MinWindow) == 50
    ensures c < 900 ==> MaskWeight(LeftImage, 1000, 50, c) == 1.0
    ensures c >= 1000 ==> MaskWeight(LeftImage, 1000, 50, c) == 0.0
    ensures 900 <= c < 1000 ==> MaskWeight(LeftImage, 1000, 50, c) == 1.0 - (c - 900) as real / 99.0
  {
    NarrowPairsGetMinimumWindow(1000, 1000);
  }

  /** mask[:, lo:lo+|vals|] = tile(vals, (height, 1)): every row gets `vals` from column `lo`. */
  method FillColumns(m: array2<real>, lo: nat, vals: seq<real>)
    requires lo + |vals| <= m.Length1
    modifies m
    ensures forall r, c :: 0 <= r < m.Length0 && 0 <= c < m.Length1 ==>
              m[r, c] == if lo <= c < lo + |vals| then vals[c - lo] else old(m[r, c])
  {
    var r := 0;
    while r < m.Length0
      invariant 0 <= r <= m.Length0
      invariant forall i, c :: 0 <= i < m.Length0 && 0 <= c < m.Length1 ==>
                  m[i, c] == if i < r && lo <= c < lo + |vals| then vals[c - lo] else old(m[i, c])
    {
      var j := 0;
      while j < |vals|
        invariant 0 <= j <= |vals|
        invariant forall i, c :: 0 <= i < m.Length0 && 0 <= c < m.Length1 ==>
                    m[i, c] == if (i < r || (i == r && c < lo + j)) && lo <= c < lo + |vals| then vals[c - lo] else old(m[i, c])
      {
        m[r, lo + j] := vals[j];
        j := j + 1;
      }
      r := r + 1;
    }
  }

  /** cv2.merge([m, m, m]): the single-channel mask copied into all three channels. */
  method Merge(m: array2<real>) returns (merged: array2<Pixel>)
    ensures fresh(merged)
    ensures merged.Length0 == m.Length0 && merged.Length1 == m.Length1
    ensures forall r, c :: 0 <= r < m.Length0 && 0 <= c < m.Length1 ==> merged[r, c] == Gray3(m[r, c])
  {
    merged := new Pixel[m.Length0, m.Length1];
    var r := 0;
    while r < m.Length0
      invariant 0 <= r <= m.Length0
      invariant forall i, c :: 0 <= i < r && 0 <= c < m.Length1 ==> merged[i, c] == Gray3(m[i, c])
    {
      var c := 0;
      while c < m.Length1
        invariant 0 <= c <= m.Length1
        invariant forall i, j :: 0 <= i < r && 0 <= j < m.Length1 ==> merged[i, j] == Gray3(m[i, j])
        invariant forall j :: 0 <= j < c ==> merged[r, j] == Gray3(m[r, j])
      {
        merged[r, c] := Gray3(m[r, c]);
        c := c + 1;
      }
      r := r + 1;
    }
  }

  /**
   * create_mask: a query-height by (query width + train width) grid, three equal channels,
   * holding MaskWeight in every row. When the ramp would start left of column 0 (a query narrower
   * than 2*offset) numpy cannot broadcast the ramp into the shorter slice and the source returns None.
   */
  method CreateMask(query: Image, train: Image, window: real, side: Side) returns (mask: Option<array2<Pixel>>)
    requires window >= 0.0
    ensures mask.None? <==> query.width < 2 * Offset(window)
    ensures mask.Some? ==>
              && fresh(mask.value)
              && mask.value.Length0 == query.height
              && mask.value.Length1 == query.width + train.width
              && forall r, c :: 0 <= r < query.height && 0 <= c < query.width + train.width ==>
                   mask.value[r, c] == Gray3(MaskWeight(side, query.width, Offset(window), c))
  {
    var offset := Offset(window);
    var barrier := query.width - offset;
    var height, width := query.height, query.width + train.width;
    if barrier - offset < 0 {
      return None;
    }
    var m := new real[height, width]((_, _) => 0.0);
    var lo := barrier - offset;
    if side == LeftImage {
      FillColumns(m, lo, Linspace(1.0, 0.0, 2 * offset));
      FillColumns(m, 0, seq(lo, _ => 1.0));
    } else {
      FillColumns(m, lo, Linspace(0.0, 1.0, 2 * offset));
      FillColumns(m, barrier + offset, seq(width - (barrier + offset), _ => 1.0));
    }
    forall r, c | 0 <= r < height && 0 <= c < width
      ensures m[r, c] == MaskWeight(side, query.width, offset, c)
    {
      if lo <= c < query.width {
        RampIsMaskWeight(side, query.width, offset, c - lo);
      }
    }
    var merged := Merge(m);
    mask := Some(merged);
  }
}
