/**
 * Pixel scans over a decoded sprite sheet. A bitmap is its ARGB pixels, row by
 * row. A pixel is a 32-bit Kotlin `Int`; it is held here as that bit pattern
 * read unsigned, so `p ushr 24` (the alpha byte) is `p / 2^24`.
 */
module BitmapUtils {
  import opened Numerics
  import opened Geometry
  import opened Wrappers

  newtype Argb = p: int | 0 <= p < 0x1_0000_0000

  datatype Image = Image(width: nat, height: nat, rows: seq<seq<Argb>>) {
    predicate Valid()
    {
      |rows| == height && forall y :: 0 <= y < height ==> |rows[y]| == width
    }
  }

  /** `p ushr 24`: the alpha byte of an ARGB pixel. */
  function Alpha(p: Argb): (a: int)
    ensures 0 <= a < 256
  {
    p as int / 0x100_0000
  }

  /** `computeOpaqueBounds` counts a pixel when its alpha is not zero, i.e. when a bit above bit 23 is set. */
  predicate Opaque(p: Argb) { p >= 0x100_0000 }

  lemma OpaqueIsNonZeroAlpha(p: Argb)
    ensures Opaque(p) <==> Alpha(p) != 0
  {
    if p >= 0x100_0000 {
      DivAtLeast(p as int, 0x100_0000, 1);
    }
  }

  predicate ColOpaque(img: Image, x: int)
    requires img.Valid() && 0 <= x < img.width
  {
    exists y :: 0 <= y < img.height && Opaque(img.rows[y][x])
  }

  predicate RowOpaque(img: Image, y: int)
    requires img.Valid() && 0 <= y < img.height
  {
    exists x :: 0 <= x < img.width && Opaque(img.rows[y][x])
  }

  /** The first column at or after `x` holding an opaque pixel, or `width` when there is none. */
  function FirstOpaqueCol(img: Image, x: nat): (c: int)
    requires img.Valid() && x <= img.width
    ensures x <= c <= img.width
    ensures c < img.width ==> ColOpaque(img, c)
    ensures forall x' :: x <= x' < c ==> !ColOpaque(img, x')
    decreases img.width - x
  {
    if x == img.width then img.width
    else if ColOpaque(img, x) then x
    else FirstOpaqueCol(img, x + 1)
  }

  /** The last column before `x` holding an opaque pixel, or -1 when there is none. */
  function LastOpaqueCol(img: Image, x: nat): (c: int)
    requires img.Valid() && x <= img.width
    ensures -1 <= c < x
    ensures c >= 0 ==> ColOpaque(img, c)
    ensures forall x' :: c < x' < x ==> !ColOpaque(img, x')
  {
    if x == 0 then -1
    else if ColOpaque(img, x - 1) then x - 1
    else LastOpaqueCol(img, x - 1)
  }

  /** The first row at or after `y` holding an opaque pixel, or `height` when there is none. */
  function FirstOpaqueRow(img: Image, y: nat): (r: int)
    requires img.Valid() && y <= img.height
    ensures y <= r <= img.height
    ensures r < img.height ==> RowOpaque(img, r)
    ensures forall y' :: y <= y' < r ==> !RowOpaque(img, y')
    decreases img.height - y
  {
    if y == img.height then img.height
    else if RowOpaque(img, y) then y
    else FirstOpaqueRow(img, y + 1)
  }

  /** The last row before `y` holding an opaque pixel, or -1 when there is none. */
  function LastOpaqueRow(img: Image, y: nat): (r: int)
    requires img.Valid() && y <= img.height
    ensures -1 <= r < y
    ensures r >= 0 ==> RowOpaque(img, r)
    ensures forall y' :: r < y' < y ==> !RowOpaque(img, y')
  {
    if y == 0 then -1
    else if RowOpaque(img, y - 1) then y - 1
    else LastOpaqueRow(img, y - 1)
  }

  /**
   * The opaque bounding box grown by one pixel on every side and clipped to the
   * bitmap; `None` for a fully transparent bitmap.
   */
  function OpaqueBounds(img: Image): Option<Rect>
    requires img.Valid()
  {
    var left := FirstOpaqueCol(img, 0);
    var right := LastOpaqueCol(img, img.width);
    var top := FirstOpaqueRow(img, 0);
    var bottom := LastOpaqueRow(img, img.height);
    if right < left || bottom < top then
      None
    else
      Some(Rect(Max(0, left - 1), Max(0, top - 1), Min(img.width, right + 2), Min(img.height, bottom + 2)))
  }

  lemma OpaqueBoundsSpec(img: Image, r: Option<Rect>)
    requires img.Valid() && r == OpaqueBounds(img)
    ensures r.None? <==> forall y, x :: 0 <= y < img.height && 0 <= x < img.width ==> !Opaque(img.rows[y][x])
    ensures r.Some? ==>
      0 <= r.value.left < r.value.right <= img.width && 0 <= r.value.top < r.value.bottom <= img.height
    // every opaque pixel lies inside the box
    ensures r.Some? ==> forall y, x :: 0 <= y < img.height && 0 <= x < img.width && Opaque(img.rows[y][x]) ==>
      r.value.left <= x < r.value.right && r.value.top <= y < r.value.bottom
    // and the box is at most one pixel larger than the opaque pixels on each side
    ensures r.Some? ==> ColOpaque(img, Min(r.value.left + 1, img.width - 1)) || ColOpaque(img, r.value.left)
    ensures r.Some? ==> ColOpaque(img, Max(r.value.right - 2, 0)) || ColOpaque(img, r.value.right - 1)
    ensures r.Some? ==> RowOpaque(img, Min(r.value.top + 1, img.height - 1)) || RowOpaque(img, r.value.top)
    ensures r.Some? ==> RowOpaque(img, Max(r.value.bottom - 2, 0)) || RowOpaque(img, r.value.bottom - 1)
  {
    OpaqueWithinExtremes(img);
  }

  /** Every opaque pixel lies between the first and last opaque column and row. */
  lemma OpaqueWithinExtremes(img: Image)
    requires img.Valid()
    ensures forall y, x :: 0 <= y < img.height && 0 <= x < img.width && Opaque(img.rows[y][x]) ==>
      FirstOpaqueCol(img, 0) <= x <= LastOpaqueCol(img, img.width) &&
      FirstOpaqueRow(img, 0) <= y <= LastOpaqueRow(img, img.height)
  {
    forall y, x | 0 <= y < img.height && 0 <= x < img.width && Opaque(img.rows[y][x])
      ensures FirstOpaqueCol(img, 0) <= x <= LastOpaqueCol(img, img.width)
      ensures FirstOpaqueRow(img, 0) <= y <= LastOpaqueRow(img, img.height)
    {
      assert ColOpaque(img, x);
      assert RowOpaque(img, y);
    }
  }

  /** Pixel `(xx, yy)` comes before `(x, y)` in the row-major scan. */
  predicate Scanned(y: int, x: int, yy: int, xx: int) { yy < y || (yy == y && xx < x) }

  /** The four running extremes of `computeOpaqueBounds`. */
  datatype Extent = Extent(left: int, right: int, top: int, bottom: int)

  /** One pixel of the scan: an opaque pixel at `(x, y)` widens the extent to include it. */
  function Widen(e: Extent, x: int, y: int, hit: bool): Extent
  {
    if !hit then e
    else Extent(if x < e.left then x else e.left, if x > e.right then x else e.right,
                if y < e.top then y else e.top, if y > e.bottom then y else e.bottom)
  }

  /** The extent after the row-major scan has reached pixel `(x, y)`. */
  ghost function ScanState(img: Image, y: nat, x: nat): Extent
    requires img.Valid() && y <= img.height && x <= img.width && (x > 0 ==> y < img.height)
    decreases y, x
  {
    if x == 0 then
      (if y == 0 then Extent(img.width, -1, img.height, -1) else ScanState(img, y - 1, img.width))
    else Widen(ScanState(img, y, x - 1), x - 1, y, Opaque(img.rows[y][x - 1]))
  }

  /** Every opaque pixel scanned before `(x, y)` lies inside the extent. */
  ghost predicate Covers(img: Image, y: int, x: int, e: Extent)
    requires img.Valid()
  {
    forall yy, xx :: 0 <= yy < img.height && 0 <= xx < img.width && Scanned(y, x, yy, xx) && Opaque(img.rows[yy][xx]) ==>
      e.left <= xx <= e.right && e.top <= yy <= e.bottom
  }

  /**
   * The extent is still the sentinel `(w, -1, h, -1)`, or each of its sides is attained
   * by an opaque pixel: `(e.left, ly)`, `(e.right, ry)`, `(tx, e.top)`, `(bx, e.bottom)`.
   */
  ghost predicate Attained(img: Image, e: Extent, ly: int, ry: int, tx: int, bx: int)
    requires img.Valid()
  {
    (e.right == -1 ==> e.left == img.width && e.top == img.height && e.bottom == -1) &&
    (e.right != -1 ==>
      0 <= e.left <= e.right < img.width && 0 <= e.top <= e.bottom < img.height &&
      0 <= ly < img.height && Opaque(img.rows[ly][e.left]) &&
      0 <= ry < img.height && Opaque(img.rows[ry][e.right]) &&
      0 <= tx < img.width && Opaque(img.rows[e.top][tx]) &&
      0 <= bx < img.width && Opaque(img.rows[e.bottom][bx]))
  }

  /** What the extent means after scanning up to `(x, y)`. */
  ghost predicate Extremes(img: Image, y: int, x: int, e: Extent, ly: int, ry: int, tx: int, bx: int)
    requires img.Valid()
  {
    Covers(img, y, x, e) && Attained(img, e, ly, ry, tx, bx)
  }

  lemma CoversWiden(img: Image, y: int, x: int, e: Extent)
    requires img.Valid() && 0 <= y < img.height && 0 <= x < img.width
    requires Covers(img, y, x, e)
    ensures Covers(img, y, x + 1, Widen(e, x, y, Opaque(img.rows[y][x])))
  {
    var e1 := Widen(e, x, y, Opaque(img.rows[y][x]));
    forall yy, xx | 0 <= yy < img.height && 0 <= xx < img.width && Scanned(y, x + 1, yy, xx) && Opaque(img.rows[yy][xx])
      ensures e1.left <= xx <= e1.right && e1.top <= yy <= e1.bottom
    {
      if yy != y || xx != x {
        assert Scanned(y, x, yy, xx);
      }
    }
  }

  /** Scanning pixel `(x - 1, y)` keeps the meaning of the extent; returns the new witnesses. */
  lemma ScanPixel(img: Image, y: int, x: int, e: Extent, ly0: int, ry0: int, tx0: int, bx0: int, e1: Extent)
    returns (ly: int, ry: int, tx: int, bx: int)
    requires img.Valid() && 0 <= y < img.height && 0 < x <= img.width
    requires Extremes(img, y, x - 1, e, ly0, ry0, tx0, bx0)
    requires e1 == Widen(e, x - 1, y, Opaque(img.rows[y][x - 1]))
    ensures Extremes(img, y, x, e1, ly, ry, tx, bx)
  {
    CoversWiden(img, y, x - 1, e);
    if Opaque(img.rows[y][x - 1]) {
      ly := if x - 1 < e.left then y else ly0;
      ry := if x - 1 > e.right then y else ry0;
      tx := if y < e.top then x - 1 else tx0;
      bx := if y > e.bottom then x - 1 else bx0;
    } else {
      ly, ry, tx, bx := ly0, ry0, tx0, bx0;
    }
  }

  /** Finishing a row and starting the next scans the same pixels. */
  lemma ScanRowEnd(img: Image, y: int, e: Extent)
    requires img.Valid() && 0 <= y < img.height
    requires Covers(img, y, img.width, e)
    ensures Covers(img, y + 1, 0, e)
  {
  }

  /** The scan state has the meaning `Extremes` gives it, with witnesses. */
  lemma {:induction false} ScanStateExtremes(img: Image, y: nat, x: nat) returns (ly: int, ry: int, tx: int, bx: int)
    requires img.Valid() && y <= img.height && x <= img.width && (x > 0 ==> y < img.height)
    ensures Extremes(img, y, x, ScanState(img, y, x), ly, ry, tx, bx)
    decreases y, x
  {
    if x == 0 {
      if y == 0 {
        ly, ry, tx, bx := 0, 0, 0, 0;
      } else {
        ly, ry, tx, bx := ScanStateExtremes(img, y - 1, img.width);
        ScanRowEnd(img, y - 1, ScanState(img, y, x));
      }
    } else {
      var ly0, ry0, tx0, bx0 := ScanStateExtremes(img, y, x - 1);
      ly, ry, tx, bx := ScanPixel(img, y, x, ScanState(img, y, x - 1), ly0, ry0, tx0, bx0, ScanState(img, y, x));
    }
  }

  /** A column attained by an opaque pixel, with no opaque pixel to its left, is the first opaque column. */
  lemma FirstColIs(img: Image, c: int, yc: int)
    requires img.Valid() && 0 <= c < img.width && 0 <= yc < img.height && Opaque(img.rows[yc][c])
    requires forall yy, xx :: 0 <= yy < img.height && 0 <= xx < img.width && Opaque(img.rows[yy][xx]) ==> c <= xx
    ensures FirstOpaqueCol(img, 0) == c
  {
    var f := FirstOpaqueCol(img, 0);
    assert ColOpaque(img, c);
  }

  lemma LastColIs(img: Image, c: int, yc: int)
    requires img.Valid() && 0 <= c < img.width && 0 <= yc < img.height && Opaque(img.rows[yc][c])
    requires forall yy, xx :: 0 <= yy < img.height && 0 <= xx < img.width && Opaque(img.rows[yy][xx]) ==> xx <= c
    ensures LastOpaqueCol(img, img.width) == c
  {
    var f := LastOpaqueCol(img, img.width);
    assert ColOpaque(img, c);
  }

  lemma FirstRowIs(img: Image, r: int, xr: int)
    requires img.Valid() && 0 <= r < img.height && 0 <= xr < img.width && Opaque(img.rows[r][xr])
    requires forall yy, xx :: 0 <= yy < img.height && 0 <= xx < img.width && Opaque(img.rows[yy][xx]) ==> r <= yy
    ensures FirstOpaqueRow(img, 0) == r
  {
    var f := FirstOpaqueRow(img, 0);
    assert RowOpaque(img, r);
  }

  lemma LastRowIs(img: Image, r: int, xr: int)
    requires img.Valid() && 0 <= r < img.height && 0 <= xr < img.width && Opaque(img.rows[r][xr])
    requires forall yy, xx :: 0 <= yy < img.height && 0 <= xx < img.width && Opaque(img.rows[yy][xx]) ==> yy <= r
    ensures LastOpaqueRow(img, img.height) == r
  {
    var f := LastOpaqueRow(img, img.height);
    assert RowOpaque(img, r);
  }

  /** After the whole scan the extent holds the first and last opaque column and row. */
  lemma ExtremesAreSpec(img: Image, e: Extent, ly: int, ry: int, tx: int, bx: int)
    requires img.Valid()
    requires Extremes(img, img.height, 0, e, ly, ry, tx, bx)
    ensures e.right == -1 ==> OpaqueBounds(img) == None
    ensures e.right != -1 ==>
      (e.left == FirstOpaqueCol(img, 0) && e.right == LastOpaqueCol(img, img.width) &&
       e.top == FirstOpaqueRow(img, 0) && e.bottom == LastOpaqueRow(img, img.height))
  {
    assert forall yy, xx :: 0 <= yy < img.height && 0 <= xx < img.width && Opaque(img.rows[yy][xx]) ==>
      e.left <= xx <= e.right && e.top <= yy <= e.bottom
    by {
      assert Covers(img, img.height, 0, e);
    }
    if e.right == -1 {
      OpaqueBoundsSpec(img, OpaqueBounds(img));
    } else {
      FirstColIs(img, e.left, ly);
      LastColIs(img, e.right, ry);
      FirstRowIs(img, e.top, tx);
      LastRowIs(img, e.bottom, bx);
    }
  }

  /** `computeOpaqueBounds`: one row-major pass keeping the running extremes. */
  method ComputeOpaqueBounds(img: Image) returns (r: Option<Rect>)
    requires img.Valid()
    ensures r == OpaqueBounds(img)
  {
    var w, h := img.width, img.height;
    var left: int, right: int, top: int, bottom: int := w, -1, h, -1;
    var y := 0;
    while y < h
      invariant 0 <= y <= h
      invariant Extent(left, right, top, bottom) == ScanState(img, y, 0)
    {
      var row := img.rows[y];
      var x := 0;
      while x < w
        invariant 0 <= x <= w
        invariant Extent(left, right, top, bottom) == ScanState(img, y, x)
      {
        if Opaque(row[x]) {
          if x < left { left := x; }
          if x > right { right := x; }
          if y < top { top := y; }
          if y > bottom { bottom := y; }
        }
        x := x + 1;
      }
      y := y + 1;
    }
    ghost var ly, ry, tx, bx := ScanStateExtremes(img, h, 0);
    ExtremesAreSpec(img, Extent(left, right, top, bottom), ly, ry, tx, bx);
    if right < left || bottom < top {
      return None;
    }
    return Some(Rect(Max(0, left - 1), Max(0, top - 1), Min(w, right + 2), Min(h, bottom + 2)));
  }

  /**
   * `(p ushr 24) > threshold`, written without the division: the alpha byte exceeds
   * `threshold` exactly when the pixel is at least `(threshold + 1) * 2^24`.
   */
  predicate AlphaAbove(p: Argb, threshold: int) { p as int >= (threshold + 1) * 0x100_0000 }

  lemma AlphaAboveIsAlphaTest(p: Argb, threshold: int)
    ensures AlphaAbove(p, threshold) <==> Alpha(p) > threshold
  {
    DivAtLeast(p as int, 0x100_0000, threshold + 1);
  }

  predicate RowAbove(img: Image, threshold: int, y: int)
    requires img.Valid() && 0 <= y < img.height
  {
    exists x :: 0 <= x < img.width && AlphaAbove(img.rows[y][x], threshold)
  }

  /** The last row before `y` with a pixel whose alpha exceeds `threshold`, or -1. */
  function LastRowAbove(img: Image, threshold: int, y: nat): (r: int)
    requires img.Valid() && y <= img.height
    ensures -1 <= r < y
    ensures r >= 0 ==> RowAbove(img, threshold, r)
    ensures forall y' :: r < y' < y ==> !RowAbove(img, threshold, y')
  {
    if y == 0 then -1
    else if RowAbove(img, threshold, y - 1) then y - 1
    else LastRowAbove(img, threshold, y - 1)
  }

  /**
   * The transparent padding below the lowest row holding a pixel whose alpha exceeds
   * `threshold`; the full height when there is no such pixel.
   */
  function BottomPad(img: Image, threshold: int): int
    requires img.Valid()
  {
    var last := LastRowAbove(img, threshold, img.height);
    if last == -1 then img.height else img.height - 1 - last
  }

  lemma BottomPadSpec(img: Image, threshold: int, pad: int)
    requires img.Valid() && pad == BottomPad(img, threshold)
    ensures 0 <= pad <= img.height
    ensures pad == img.height <==>
      forall y, x :: 0 <= y < img.height && 0 <= x < img.width ==> Alpha(img.rows[y][x]) <= threshold
    // the row just above the padding holds such a pixel, and none of the padding rows does
    ensures pad < img.height ==>
      exists p :: p in img.rows[img.height - 1 - pad] && Alpha(p) > threshold
    ensures forall y, x :: img.height - pad <= y < img.height && 0 <= x < img.width ==>
      Alpha(img.rows[y][x]) <= threshold
  {
    forall p: Argb ensures AlphaAbove(p, threshold) <==> Alpha(p) > threshold {
      AlphaAboveIsAlphaTest(p, threshold);
    }
    var last := LastRowAbove(img, threshold, img.height);
    if last >= 0 {
      var x :| 0 <= x < img.width && AlphaAbove(img.rows[last][x], threshold);
    }
    forall y, x | img.height - pad <= y < img.height && 0 <= x < img.width
      ensures Alpha(img.rows[y][x]) <= threshold
    {
      if Alpha(img.rows[y][x]) > threshold {
        assert RowAbove(img, threshold, y);
      }
    }
  }

  /** A row with such a pixel and none below it is the last such row. */
  lemma LastRowAboveIs(img: Image, threshold: int, r: int)
    requires img.Valid() && -1 <= r < img.height
    requires r >= 0 ==> RowAbove(img, threshold, r)
    requires forall y' :: r < y' < img.height ==> !RowAbove(img, threshold, y')
    ensures LastRowAbove(img, threshold, img.height) == r
  {
  }

  /** `computeBottomPad`: scans rows bottom-up and stops at the first row with such a pixel. */
  method ComputeBottomPad(img: Image, threshold: int) returns (pad: int)
    requires img.Valid()
    ensures pad == BottomPad(img, threshold)
  {
    var w, h := img.width, img.height as int;
    var lastOpaqueY := -1;
    var y := h - 1;
    while y >= 0
      invariant -1 <= y < h
      invariant forall y' :: y < y' < h ==> !RowAbove(img, threshold, y')
    {
      var row := img.rows[y];
      var rowHit := false;
      var x := 0;
      while x < w
        invariant 0 <= x <= w
        invariant forall x' :: 0 <= x' < x ==> !AlphaAbove(row[x'], threshold)
      {
        if AlphaAbove(row[x], threshold) {
          rowHit := true;
          break;
        }
        x := x + 1;
      }
      if rowHit {
        assert RowAbove(img, threshold, y);
        lastOpaqueY := y;
        break;
      }
      y := y - 1;
    }
    LastRowAboveIs(img, threshold, lastOpaqueY);
    return if lastOpaqueY == -1 then h else h - 1 - lastOpaqueY;
  }
}
