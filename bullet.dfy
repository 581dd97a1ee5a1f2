/** `Bullet`: the small round shot of the older game loop; it flies along x only. */
module Bullet {
  import opened Geometry

  /** Half the side of the collision square. */
  const R: real := 4.0

  /** The collision square of a bullet at `(x, y)`. */
  function HitSquare(x: real, y: real): (a: RectF)
    ensures a.CenterX() == x && a.CenterY() == y
    ensures a.Width() == 2.0 * R && a.Height() == 2.0 * R
  {
    RectF(x - R, y - R, x + R, y + R)
  }

  /**
   * The square meets a body exactly when the bullet's centre lies strictly inside the
   * body's bounds grown by `R` on every side.
   */
  lemma HitSquareOverlap(x: real, y: real, b: RectF)
    ensures Overlap(HitSquare(x, y), b) <==>
      (b.left - R < x < b.right + R && b.top - R < y < b.bottom + R)
  {
  }

  class Bullet {
    var x: real
    var y: real
    var vx: real
    var dead: bool

    constructor(x: real, y: real, vx: real)
      ensures this.x == x && this.y == y && this.vx == vx && !dead
    {
      this.x := x;
      this.y := y;
      this.vx := vx;
      dead := false;
    }

    /** One step along x; leaving `[0, worldW]` kills the bullet for good. */
    method Update(worldW: real)
      modifies this
      ensures x == old(x) + vx && y == old(y) && vx == old(vx)
      ensures dead <==> old(dead) || x < 0.0 || x > worldW
    {
      x := x + vx;
      if x < 0.0 || x > worldW {
        dead := true;
      }
    }

    /** Strict intersection of the collision square with a body's bounds `b`. */
    predicate Overlaps(b: RectF)
      reads this
      ensures Overlaps(b) <==>
        (b.left - R < x < b.right + R && b.top - R < y < b.bottom + R)
    {
      HitSquareOverlap(x, y, b);
      Overlap(HitSquare(x, y), b)
    }
  }
}
