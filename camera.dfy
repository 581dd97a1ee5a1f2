/** The camera's top-left corner, kept inside the world while following the player. */
module Camera {
  import opened Numerics

  datatype Pos = Pos(x: real, y: real)

  /**
   * Where `follow` puts the camera: centred on the point `(px, py)` and clamped
   * to `[0, max(0, world - screen)]` on each axis; `(0, 0)` while any size is not
   * yet positive. `sw` and `sh` are the screen size in pixels, `ww`, `wh` the world's.
   */
  function Target(px: real, py: real, sw: int, sh: int, ww: real, wh: real): (p: Pos)
    ensures sw <= 0 || sh <= 0 || ww <= 0.0 || wh <= 0.0 ==> p == Pos(0.0, 0.0)
    ensures 0.0 <= p.x && 0.0 <= p.y
    ensures sw > 0 && sh > 0 && ww > 0.0 && wh > 0.0 ==>
      p.x <= MaxR(0.0, ww - sw as real) && p.y <= MaxR(0.0, wh - sh as real)
    ensures ww <= sw as real ==> p.x == 0.0
    ensures wh <= sh as real ==> p.y == 0.0
    // the view centres the point whenever the centred view fits inside the world
    ensures sw > 0 && sh > 0 && ww > 0.0 && wh > 0.0 && 0.0 <= px - sw as real / 2.0 <= ww - sw as real ==>
      p.x == px - sw as real / 2.0
    ensures sw > 0 && sh > 0 && ww > 0.0 && wh > 0.0 && 0.0 <= py - sh as real / 2.0 <= wh - sh as real ==>
      p.y == py - sh as real / 2.0
    // the view never shows past the right or bottom edge of a world at least a screen large
    ensures sw > 0 && sh > 0 && ww >= sw as real && wh > 0.0 ==> p.x + sw as real <= ww
    ensures sw > 0 && sh > 0 && ww > 0.0 && wh >= sh as real ==> p.y + sh as real <= wh
  {
    if sw <= 0 || sh <= 0 || ww <= 0.0 || wh <= 0.0 then Pos(0.0, 0.0)
    else
      var maxX := MaxR(0.0, ww - sw as real);
      var maxY := MaxR(0.0, wh - sh as real);
      Pos(CoerceInR(px - sw as real / 2.0, 0.0, maxX), CoerceInR(py - sh as real / 2.0, 0.0, maxY))
  }

  class Camera {
    var x: real
    var y: real

    constructor()
      ensures x == 0.0 && y == 0.0
    {
      x := 0.0;
      y := 0.0;
    }

    /** Moves the camera to `Target(...)`; the result does not depend on where the camera was. */
    method Follow(px: real, py: real, sw: int, sh: int, ww: real, wh: real)
      modifies this
      ensures Pos(x, y) == Target(px, py, sw, sh, ww, wh)
    {
      if sw <= 0 || sh <= 0 || ww <= 0.0 || wh <= 0.0 {
        x := 0.0;
        y := 0.0;
        return;
      }
      var maxX := MaxR(0.0, ww - sw as real);
      var maxY := MaxR(0.0, wh - sh as real);
      var targetX := px - sw as real / 2.0;
      var targetY := py - sh as real / 2.0;
      x := CoerceInR(targetX, 0.0, maxX);
      y := CoerceInR(targetY, 0.0, maxY);
    }
  }
}
