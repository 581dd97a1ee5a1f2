/**
 * A sprite strip: a horizontal sheet of square-ish frames, each frame's opaque
 * area (its trim) and the tallest trim height, used to align sprites on their feet.
 */
module Strip {
  import opened Numerics
  import opened Geometry
  import opened Wrappers
  import opened BitmapUtils
  import Animation

  datatype Strip = Strip(bmp: Image, frames: int, fw: int, fh: int, speed: int, loop: bool,
                         trims: seq<Rect>, baseHpx: int)
  {
    /** The timing part of the strip, as the frame cadence sees it. */
    function Clip(): Animation.Clip { Animation.Clip(frames, speed, loop) }
  }

  /** `Bitmap.createBitmap(bmp, sx, 0, cw, height)`: the columns `[sx, sx + cw)` of every row. */
  function Crop(img: Image, sx: nat, cw: nat): (c: Image)
    requires img.Valid() && sx + cw <= img.width
    ensures c.Valid() && c.width == cw && c.height == img.height
    ensures forall y, x :: 0 <= y < c.height && 0 <= x < cw ==> c.rows[y][x] == img.rows[y][sx + x]
  {
    Image(cw, img.height, seq(img.height, y requires 0 <= y < img.height => img.rows[y][sx..sx + cw]))
  }

  /** The frame-local trim of frame `i`: its opaque bounds, or the whole frame when it is fully transparent. */
  function LocalTrim(img: Image, i: nat, fw: nat): Rect
    requires img.Valid() && (i + 1) * fw <= img.width
  {
    match OpaqueBounds(Crop(img, i * fw, fw))
    case Some(r) => r
    case None => Rect(0, 0, fw, img.height)
  }

  /** Frame `i`'s trim in sheet coordinates: the local trim shifted to the frame's column. */
  function FrameTrim(img: Image, i: nat, fw: nat): Rect
    requires img.Valid() && (i + 1) * fw <= img.width
  {
    var l := LocalTrim(img, i, fw);
    Rect(i * fw + l.left, l.top, i * fw + l.right, l.bottom)
  }

  /** The trims of the first `n` frames. */
  function Trims(img: Image, fw: nat, n: nat): (t: seq<Rect>)
    requires img.Valid() && n * fw <= img.width
    ensures |t| == n
  {
    if n == 0 then []
    else
      assert (n - 1) * fw <= n * fw;
      Trims(img, fw, n - 1) + [FrameTrim(img, n - 1, fw)]
  }

  /** `maxH` after the trims `ts`: the largest trim height seen, counting each as at least 1, and at least 1. */
  function MaxHeight(ts: seq<Rect>): int
  {
    if |ts| == 0 then 1
    else Max(MaxHeight(ts[..|ts| - 1]), Max(ts[|ts| - 1].Height(), 1))
  }

  /** With `fw == width / frames`, the frames `0 .. frames - 1` all fit in the sheet. */
  lemma FrameFits(frames: int, fw: int, width: int, i: int)
    requires frames >= 1 && width >= 1 && fw == width / frames && 0 <= i < frames
    ensures i * fw <= (i + 1) * fw <= frames * fw <= width
  {
    assert width == frames * fw + width % frames;
    assert frames * fw - (i + 1) * fw == (frames - i - 1) * fw;
    MulNonNeg(frames - i - 1, fw);
    MulNonNeg(1, fw);
    assert (i + 1) * fw == i * fw + fw;
  }

  /** A sheet at least one pixel wide splits into frames at least one pixel wide. */
  lemma FrameWidthPositive(width: int, fh: int)
    requires width >= 1 && fh >= 1
    ensures 1 <= Max(width / fh, 1) <= width
    ensures width / Max(width / fh, 1) >= 1
  {
    var q := width / fh;
    DivAtLeast(width, fh, width + 1);
    MulAtLeast(fh, width + 1);
    assert q <= width;
    var m := Max(q, 1);
    DivAtLeast(width, m, 1);
  }

  /** Trimming frame `i` extends the trims by that frame. */
  lemma NextFrameTrim(bmp: Image, fw: nat, i: nat, sx: int, local: Rect)
    requires bmp.Valid() && (i + 1) * fw <= bmp.width && sx == i * fw
    requires local == LocalTrim(bmp, i, fw)
    ensures i * fw <= bmp.width
    ensures Trims(bmp, fw, i + 1) == Trims(bmp, fw, i) + [Rect(sx + local.left, local.top, sx + local.right, local.bottom)]
  {
    assert i * fw <= (i + 1) * fw;
  }

  /** Appending a trim raises the running maximum height to that trim's height. */
  lemma NextFrameHeight(ts: seq<Rect>, r: Rect)
    ensures MaxHeight(ts + [r]) == Max(MaxHeight(ts), Max(r.Height(), 1))
  {
    assert (ts + [r])[..|ts|] == ts;
  }

  /** One frame's local trim: the opaque bounds of its crop, or the whole frame. */
  method TrimFrame(bmp: Image, i: nat, fw: nat) returns (local: Rect)
    requires bmp.Valid() && i * fw + fw <= bmp.width && (i + 1) * fw == i * fw + fw
    ensures local == LocalTrim(bmp, i, fw)
  {
    var b := ComputeOpaqueBounds(Crop(bmp, i * fw, fw));
    local := match b case Some(r) => r case None => Rect(0, 0, fw, bmp.height);
  }

  /** `loadStrip` for an already decoded bitmap: splits it into frames and trims each one. */
  method LoadStrip(bmp: Image, speed: int, loop: bool) returns (s: Strip)
    requires bmp.Valid() && bmp.width >= 1 && bmp.height >= 1
    ensures s.bmp == bmp && s.speed == speed && s.loop == loop && s.fh == bmp.height
    ensures s.frames == Max(bmp.width / bmp.height, 1) && s.fw == bmp.width / s.frames
    ensures s.fw >= 1 && s.frames * s.fw <= bmp.width
    ensures s.trims == Trims(bmp, s.fw, s.frames)
    ensures s.baseHpx == MaxHeight(s.trims)
  {
    var fh := bmp.height;
    var frames := Max(bmp.width / fh, 1);
    FrameWidthPositive(bmp.width, fh);
    var fw := bmp.width / frames;
    FrameFits(frames, fw, bmp.width, 0);
    var trims: seq<Rect> := [];
    var maxH := 1;
    var i := 0;
    while i < frames
      invariant 0 <= i <= frames
      invariant i * fw <= bmp.width
      invariant trims == Trims(bmp, fw, i)
      invariant maxH == MaxHeight(trims)
    {
      FrameFits(frames, fw, bmp.width, i);
      MulNonNeg(i, fw);
      var sx := i * fw;
      var local := TrimFrame(bmp, i, fw);
      NextFrameTrim(bmp, fw, i, sx, local);
      var r := Rect(sx + local.left, local.top, sx + local.right, local.bottom);
      NextFrameHeight(trims, r);
      trims := trims + [r];
      maxH := Max(maxH, Max(local.Height(), 1));
      i := i + 1;
    }
    s := Strip(bmp, frames, fw, fh, speed, loop, trims, maxH);
  }

  /** A frame's local trim is a non-empty rectangle inside the frame. */
  lemma LocalTrimInFrame(img: Image, i: nat, fw: nat)
    requires img.Valid() && (i + 1) * fw <= img.width && fw >= 1 && img.height >= 1
    ensures var l := LocalTrim(img, i, fw);
      0 <= l.left < l.right <= fw && 0 <= l.top < l.bottom <= img.height
  {
    var c := Crop(img, i * fw, fw);
    OpaqueBoundsSpec(c, OpaqueBounds(c));
  }

  /**
   * Every trim lies inside its own frame cell `[i * fw, (i + 1) * fw) x [0, fh)`, and the
   * base height is at least 1, at most the frame height, and at least every trim's height.
   */
  lemma {:induction false} TrimsInFrames(img: Image, fw: nat, n: nat)
    requires img.Valid() && n * fw <= img.width && fw >= 1 && img.height >= 1
    ensures forall j :: 0 <= j < n ==>
      j * fw <= Trims(img, fw, n)[j].left < Trims(img, fw, n)[j].right <= j * fw + fw &&
      0 <= Trims(img, fw, n)[j].top < Trims(img, fw, n)[j].bottom <= img.height
    ensures 1 <= MaxHeight(Trims(img, fw, n)) <= img.height
    ensures forall j :: 0 <= j < n ==> Trims(img, fw, n)[j].Height() <= MaxHeight(Trims(img, fw, n))
  {
    var ts := Trims(img, fw, n);
    forall j | 0 <= j < n
      ensures j * fw <= Trims(img, fw, n)[j].left < Trims(img, fw, n)[j].right <= j * fw + fw
      ensures 0 <= Trims(img, fw, n)[j].top < Trims(img, fw, n)[j].bottom <= img.height
      ensures ts[j].Height() <= MaxHeight(ts)
    {
      TrimsIndex(img, fw, n, j);
      LocalTrimInFrame(img, j, fw);
      MaxHeightAbove(ts, j);
    }
    MaxHeightRange(ts, img.height);
  }

  /** Frame `j` of `n` frames of width `fw` ends within the first `n` frames; the first `n - 1` end one frame earlier. */
  lemma FrameSpan(n: nat, j: nat, fw: nat)
    requires j < n
    ensures (j + 1) * fw <= n * fw
    ensures (n - 1) * fw == n * fw - fw
  {
    MulNonNeg(n - 1 - j, fw);
    assert (n - 1 - j) * fw == n * fw - (j + 1) * fw;
  }

  /** Entry `j` of the trims is frame `j`'s trim. */
  lemma {:induction false} TrimsIndex(img: Image, fw: nat, n: nat, j: nat)
    requires img.Valid() && n * fw <= img.width && j < n
    ensures (j + 1) * fw <= img.width
    ensures Trims(img, fw, n)[j] == FrameTrim(img, j, fw)
  {
    FrameSpan(n, j, fw);
    if j < n - 1 {
      TrimsIndex(img, fw, n - 1, j);
    }
  }

  /** The running maximum is at least 1, and at most any bound `h >= 1` on every trim's height. */
  lemma {:induction false} MaxHeightRange(ts: seq<Rect>, h: int)
    requires h >= 1 && forall j :: 0 <= j < |ts| ==> ts[j].Height() <= h
    ensures 1 <= MaxHeight(ts) <= h
  {
    if |ts| > 0 {
      MaxHeightRange(ts[..|ts| - 1], h);
    }
  }

  /** The running maximum is at least the height of every trim it has seen. */
  lemma {:induction false} MaxHeightAbove(ts: seq<Rect>, j: nat)
    requires j < |ts|
    ensures ts[j].Height() <= MaxHeight(ts)
  {
    if j < |ts| - 1 {
      MaxHeightAbove(ts[..|ts| - 1], j);
    }
  }
}
