/**
 * Cropping a blended canvas to content: the tight bounding box of the cells whose first
 * channel is non-zero (the last step of blending_smoothing).
 */
module Crop {
  import opened Wrappers
  import opened Images

  /** A content cell: numpy's `result[:, :, 0] != 0`. */
  predicate IsContent(img: Image, r: int, c: int)
    requires 0 <= r < img.height && 0 <= c < img.width
  {
    img.px[r][c].c0 != 0.0
  }

  predicate RowHasContent(img: Image, r: int)
    requires 0 <= r < img.height
  {
    exists c :: 0 <= c < img.width && IsContent(img, r, c)
  }

  predicate ColHasContent(img: Image, c: int)
    requires 0 <= c < img.width
  {
    exists r :: 0 <= r < img.height && IsContent(img, r, c)
  }

  predicate HasContent(img: Image) {
    exists r :: 0 <= r < img.height && RowHasContent(img, r)
  }

  /** The first row at or after `from` that holds content: min(rows). */
  function FirstRow(img: Image, from: nat): (r: nat)
    requires from <= img.height
    requires exists k :: from <= k < img.height && RowHasContent(img, k)
    ensures from <= r < img.height && RowHasContent(img, r)
    ensures forall k :: from <= k < r ==> !RowHasContent(img, k)
    decreases img.height - from
  {
    if RowHasContent(img, from) then from else FirstRow(img, from + 1)
  }

  /** The last row before `upto` that holds content: max(rows). */
  function LastRow(img: Image, upto: nat): (r: nat)
    requires upto <= img.height
    requires exists k :: 0 <= k < upto && RowHasContent(img, k)
    ensures r < upto && RowHasContent(img, r)
    ensures forall k :: r < k < upto ==> !RowHasContent(img, k)
  {
    if RowHasContent(img, upto - 1) then upto - 1 else LastRow(img, upto - 1)
  }

  /** The first column at or after `from` that holds content: min(cols). */
  function FirstCol(img: Image, from: nat): (c: nat)
    requires from <= img.width
    requires exists k :: from <= k < img.width && ColHasContent(img, k)
    ensures from <= c < img.width && ColHasContent(img, c)
    ensures forall k :: from <= k < c ==> !ColHasContent(img, k)
    decreases img.width - from
  {
    if ColHasContent(img, from) then from else FirstCol(img, from + 1)
  }

  /** The last column before `upto` that holds content: max(cols). */
  function LastCol(img: Image, upto: nat): (c: nat)
    requires upto <= img.width
    requires exists k :: 0 <= k < upto && ColHasContent(img, k)
    ensures c < upto && ColHasContent(img, c)
    ensures forall k :: c < k < upto ==> !ColHasContent(img, k)
  {
    if ColHasContent(img, upto - 1) then upto - 1 else LastCol(img, upto - 1)
  }

  /** Rows [minRow, maxRow) and columns [minCol, maxCol): the upper bounds are exclusive, as `max(...) + 1`. */
  datatype Box = Box(minRow: nat, maxRow: nat, minCol: nat, maxCol: nat)

  predicate BoxInside(img: Image, b: Box) {
    b.minRow < b.maxRow <= img.height && b.minCol < b.maxCol <= img.width
  }

  lemma ContentInSomeColumn(img: Image)
    requires HasContent(img)
    ensures exists k :: 0 <= k < img.width && ColHasContent(img, k)
  {
    var r :| 0 <= r < img.height && RowHasContent(img, r);
    var c :| 0 <= c < img.width && IsContent(img, r, c);
    assert ColHasContent(img, c);
  }

  /** The bounding box of the content cells, or None when there are none. */
  function ContentBox(img: Image): (b: Option<Box>)
    ensures b.None? <==> !HasContent(img)
    ensures b.Some? ==> BoxInside(img, b.value)
  {
    if HasContent(img) then
      ContentInSomeColumn(img);
      Some(Box(FirstRow(img, 0), LastRow(img, img.height) + 1, FirstCol(img, 0), LastCol(img, img.width) + 1))
    else None
  }

  /** `img[minRow:maxRow, minCol:maxCol, :]` */
  function SubImage(img: Image, b: Box): (r: Image)
    requires BoxInside(img, b)
    ensures r.height == b.maxRow - b.minRow && r.width == b.maxCol - b.minCol
    ensures forall i, j :: 0 <= i < r.height && 0 <= j < r.width ==> r.px[i][j] == img.px[b.minRow + i][b.minCol + j]
  {
    Grid(b.maxRow - b.minRow, b.maxCol - b.minCol,
         seq(b.maxRow - b.minRow, i requires 0 <= i < b.maxRow - b.minRow => img.px[b.minRow + i][b.minCol..b.maxCol]))
  }

  /** Crop to the content's bounding box; an image without content comes back unchanged. */
  function CropToContent(img: Image): (r: Image)
    ensures r.height <= img.height && r.width <= img.width
    ensures !HasContent(img) ==> r == img
    ensures HasContent(img) ==> 0 < r.height && 0 < r.width
  {
    match ContentBox(img)
    case None => img
    case Some(b) => SubImage(img, b)
  }

  /** Every content cell lies inside the box and survives the crop at the shifted position. */
  lemma CropKeepsAllContent(img: Image, r: nat, c: nat)
    requires r < img.height && c < img.width && IsContent(img, r, c)
    ensures ContentBox(img).Some?
    ensures var b := ContentBox(img).value;
            && b.minRow <= r < b.maxRow && b.minCol <= c < b.maxCol
            && CropToContent(img).px[r - b.minRow][c - b.minCol] == img.px[r][c]
  {
    assert RowHasContent(img, r);
    assert ColHasContent(img, c);
    ContentInSomeColumn(img);
  }

  /** A content cell of the canvas is a content cell of the cropped image, at the shifted position. */
  lemma ContentSurvivesCrop(img: Image, r: nat, c: nat)
    requires r < img.height && c < img.width && IsContent(img, r, c)
    ensures ContentBox(img).Some?
    ensures var b := ContentBox(img).value;
            && b.minRow <= r < b.maxRow && b.minCol <= c < b.maxCol
            && IsContent(CropToContent(img), r - b.minRow, c - b.minCol)
  {
    CropKeepsAllContent(img, r, c);
  }

  /**
   * The box is tight: its first and last rows and columns hold content, and every row or
   * column that holds content lies inside it.
   */
  lemma BoxIsTight(img: Image)
    requires HasContent(img)
    ensures var b := ContentBox(img).value;
            && RowHasContent(img, b.minRow) && RowHasContent(img, b.maxRow - 1)
            && ColHasContent(img, b.minCol) && ColHasContent(img, b.maxCol - 1)
            && (forall r :: 0 <= r < img.height && RowHasContent(img, r) ==> b.minRow <= r < b.maxRow)
            && (forall c :: 0 <= c < img.width && ColHasContent(img, c) ==> b.minCol <= c < b.maxCol)
  {
    ContentInSomeColumn(img);
  }

  /** A content row of the canvas is a content row of the crop, at the shifted position. */
  lemma ContentRowSurvivesCrop(img: Image, r: nat)
    requires r < img.height && RowHasContent(img, r)
    ensures ContentBox(img).Some?
    ensures var b := ContentBox(img).value;
            b.minRow <= r < b.maxRow && RowHasContent(CropToContent(img), r - b.minRow)
  {
    var c :| 0 <= c < img.width && IsContent(img, r, c);
    ContentSurvivesCrop(img, r, c);
  }

  /** A content column of the canvas is a content column of the crop, at the shifted position. */
  lemma ContentColSurvivesCrop(img: Image, c: nat)
    requires c < img.width && ColHasContent(img, c)
    ensures ContentBox(img).Some?
    ensures var b := ContentBox(img).value;
            b.minCol <= c < b.maxCol && ColHasContent(CropToContent(img), c - b.minCol)
  {
    var r :| 0 <= r < img.height && IsContent(img, r, c);
    ContentSurvivesCrop(img, r, c);
  }

  /** The box is tight on rows: the first and last rows of the crop each hold a content cell. */
  lemma CropEdgeRowsHaveContent(img: Image)
    requires HasContent(img)
    ensures var y := CropToContent(img);
            0 < y.height && RowHasContent(y, 0) && RowHasContent(y, y.height - 1)
  {
    var b := ContentBox(img).value;
    BoxIsTight(img);
    ContentRowSurvivesCrop(img, b.minRow);
    ContentRowSurvivesCrop(img, b.maxRow - 1);
    assert CropToContent(img).height == b.maxRow - b.minRow;
  }

  /** The box is tight on columns: the first and last columns of the crop each hold a content cell. */
  lemma CropEdgeColsHaveContent(img: Image)
    requires HasContent(img)
    ensures var y := CropToContent(img);
            0 < y.width && ColHasContent(y, 0) && ColHasContent(y, y.width - 1)
  {
    var b := ContentBox(img).value;
    BoxIsTight(img);
    ContentColSurvivesCrop(img, b.minCol);
    ContentColSurvivesCrop(img, b.maxCol - 1);
    assert CropToContent(img).width == b.maxCol - b.minCol;
  }

  /** An image whose edges all hold content is its own bounding box. */
  lemma TightImageIsItsOwnBox(y: Image)
    requires 0 < y.height && 0 < y.width
    requires RowHasContent(y, 0) && RowHasContent(y, y.height - 1)
    requires ColHasContent(y, 0) && ColHasContent(y, y.width - 1)
    ensures ContentBox(y) == Some(Box(0, y.height, 0, y.width))
  {
    assert HasContent(y);
  }

  /** The whole-image box selects every pixel. */
  lemma {:induction false} SubImageWhole(y: Image)
    requires 0 < y.height && 0 < y.width
    ensures SubImage(y, Box(0, y.height, 0, y.width)) == y
  {
    var z := SubImage(y, Box(0, y.height, 0, y.width));
    forall i | 0 <= i < y.height ensures z.px[i] == y.px[i] {
      assert |z.px[i]| == |y.px[i]|;
    }
    assert z.px == y.px;
  }

  /** Cropping an image whose edges all hold content changes nothing. */
  lemma CropOfTightImage(y: Image)
    requires 0 < y.height && 0 < y.width
    requires RowHasContent(y, 0) && RowHasContent(y, y.height - 1)
    requires ColHasContent(y, 0) && ColHasContent(y, y.width - 1)
    ensures CropToContent(y) == y
  {
    TightImageIsItsOwnBox(y);
    SubImageWhole(y);
  }

  /** Cropping a cropped image changes nothing. */
  lemma CropIdempotent(img: Image)
    ensures CropToContent(CropToContent(img)) == CropToContent(img)
  {
    if HasContent(img) {
      CropEdgeRowsHaveContent(img);
      CropEdgeColsHaveContent(img);
      CropOfTightImage(CropToContent(img));
    }
  }
}
