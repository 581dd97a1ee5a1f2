/** Android's `RectF` (float rectangle) and `Rect` (integer rectangle). */
module Geometry {

  datatype RectF = RectF(left: real, top: real, right: real, bottom: real) {
    function Width(): real { right - left }
    function Height(): real { bottom - top }
    function CenterX(): real { (left + right) / 2.0 }
    function CenterY(): real { (top + bottom) / 2.0 }
  }

  /**
   * Strict overlap on both axes: `RectF.intersects`, `GameView.rectOverlap` and
   * the hand-written `overlaps` of Arrow, Bullet and Fireball all use this test.
   */
  predicate Overlap(a: RectF, b: RectF)
  {
    a.left < b.right && a.right > b.left && a.top < b.bottom && a.bottom > b.top
  }

  /** `RectF(x, y, x + w, y + h)`, the `bounds()` of a body or projectile. */
  function BoundsAt(x: real, y: real, w: real, h: real): (r: RectF)
    ensures r.Width() == w && r.Height() == h && r.left == x && r.top == y
  {
    RectF(x, y, x + w, y + h)
  }

  datatype Rect = Rect(left: int, top: int, right: int, bottom: int) {
    function Width(): int { right - left }
    function Height(): int { bottom - top }
  }
}
