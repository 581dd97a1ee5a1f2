/**
 * `Arrow`: the player's projectile. It moves by the speed captured when it was made,
 * and collides through the rectangle its last draw covered.
 */
module Arrow {
  import opened Geometry
  import C = Constants

  /** Horizontal slack added on each side of the drawn rectangle. */
  const Slack: real := 20.0
  /** How far outside the world an arrow may fly before it is dropped. */
  const Margin: real := 64.0

  /** The rectangle `draw` covers for an arrow at `(x, y)` of size `w` by `h`. */
  function DrawRect(x: real, y: real, w: real, h: real): (d: RectF)
    ensures d.Width() == w + 2.0 * Slack && d.Height() == h
    ensures d.CenterX() == x + w / 2.0 && d.top == y
  {
    RectF(x - Slack, y, x + w + Slack, y + h)
  }

  class Arrow {
    var x: real
    var y: real
    /** Public and writable, but motion uses `speed`. */
    var vx: real
    const speed: real
    const w: real
    const h: real
    var dead: bool
    /** The rectangle of the last draw; empty at the origin before the first. */
    var dst: RectF

    /**
     * Two tiles wide; the height keeps the aspect ratio of the trimmed sprite
     * `srcTrim`, whose width is positive.
     */
    constructor(x: real, y: real, vx: real, srcTrim: Rect)
      requires srcTrim.Width() > 0
      ensures this.x == x && this.y == y && this.vx == vx && speed == vx && !dead
      ensures w == 2.0 * C.Tile as real
      ensures h == w * (srcTrim.Height() as real / srcTrim.Width() as real)
      ensures dst == RectF(0.0, 0.0, 0.0, 0.0)
    {
      this.x := x;
      this.y := y;
      this.vx := vx;
      speed := vx;
      w := 2.0 * C.Tile as real;
      h := 2.0 * C.Tile as real * (srcTrim.Height() as real / srcTrim.Width() as real);
      dead := false;
      dst := RectF(0.0, 0.0, 0.0, 0.0);
    }

    /** One step by the construction-time speed; leaving the margin kills it for good. */
    method Update(worldW: real)
      modifies this
      ensures x == old(x) + speed && y == old(y) && vx == old(vx) && dst == old(dst)
      ensures dead <==> old(dead) || x < -Margin || x > worldW + Margin
    {
      x := x + speed;
      if x < -Margin || x > worldW + Margin {
        dead := true;
      }
    }

    /** The state half of `draw`: records the rectangle drawn at the current position. */
    method Draw()
      modifies this
      ensures dst == DrawRect(x, y, w, h)
      ensures x == old(x) && y == old(y) && vx == old(vx) && dead == old(dead)
    {
      dst := RectF(x - Slack, y, x + w + Slack, y + h);
    }

    /**
     * Strict intersection of the last drawn rectangle with a body's bounds `b`. When that
     * draw happened at the current position, the arrow hits exactly the bodies whose
     * bounds, grown by the arrow's size and the slack, contain its corner `(x, y)`.
     */
    predicate Overlaps(b: RectF)
      reads this
      ensures dst == DrawRect(x, y, w, h) ==>
        (Overlaps(b) <==> b.left - w - Slack < x < b.right + Slack && b.top - h < y < b.bottom)
    {
      Overlap(dst, b)
    }
  }
}
