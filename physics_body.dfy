/** The state every moving actor exposes to tile collision (`PhysicsBody`). */
module PhysicsBody {
  import opened Geometry

  /** What a move changes on a body: position, velocity and the landing flag. */
  datatype Motion = Motion(x: real, y: real, vx: real, vy: real, canJump: bool)

  /**
   * The fields of a `PhysicsBody`: position, velocity, a fixed size and the
   * jump flags. Actors own one body each; `moveAndCollide` updates it in place.
   */
  class Body {
    var x: real
    var y: real
    var vx: real
    var vy: real
    const w: real
    const h: real
    var canJump: bool
    var wasJump: bool

    constructor (x: real, y: real, w: real, h: real)
      ensures this.x == x && this.y == y && this.w == w && this.h == h
      ensures vx == 0.0 && vy == 0.0 && !canJump && !wasJump
    {
      this.x, this.y, this.w, this.h := x, y, w, h;
      vx, vy := 0.0, 0.0;
      canJump, wasJump := false, false;
    }

    function State(): Motion
      reads this
    {
      Motion(x, y, vx, vy, canJump)
    }

    /** `bounds()`: the body's rectangle at its current position. */
    function Bounds(): (r: RectF)
      reads this
      ensures r.left == x && r.top == y && r.Width() == w && r.Height() == h
    {
      BoundsAt(x, y, w, h)
    }
  }
}
