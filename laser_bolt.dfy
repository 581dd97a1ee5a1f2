/**
 * `LaserBolt`: a bolt the boss fires at a snapshot of the player's position. It keeps
 * its launch velocity, passes through tiles and bodies, and disappears only when it
 * leaves the world with a margin.
 */
module LaserBolt {
  import opened Numerics
  import opened Geometry
  import A = Animation
  import C = Constants

  const Margin: real := 64.0
  /** The lowest `y` a projectile may reach before it is dropped, less the margin. */
  const FloorY: real := 2000.0

  /** Outside the world widened by the margin on every side. */
  predicate Offscreen(x: real, y: real, w: real, worldWidth: real)
  {
    x + w < -Margin || x > worldWidth + Margin || y < -Margin || y > FloorY + Margin
  }

  /** Where a body starting at `s` is after `k` steps of `v`, added one step at a time. */
  function Flight(s: real, v: real, k: nat): real
  {
    if k == 0 then s else Flight(s, v, k - 1) + v
  }

  /** `k` steps of `v` add up to `k * v`. */
  lemma {:induction false} FlightDistance(s: real, v: real, k: nat)
    ensures Flight(s, v, k) == s + k as real * v
  {
    if k > 0 {
      FlightDistance(s, v, k - 1);
      MulSucc((k - 1) as real, v);
    }
  }

  class LaserBolt {
    var x: real
    var y: real
    const w: real
    const h: real
    var vx: real
    var vy: real
    var dead: bool
    var frame: int
    var tick: nat
    var dealtPlayerDamage: bool
    const clip: A.Clip
    /** Where the bolt was launched; with `tick` it fixes the position. */
    ghost const sx: real
    ghost const sy: real

    /**
     * `tick` counts the live updates; the bolt is `tick` velocity steps away from its
     * launch point (`FlightDistance` gives the closed form) and shows the looping clip's
     * frame for that tick.
     */
    ghost predicate Valid()
      reads this
    {
      clip.Valid() && clip.loop &&
      frame == A.Play(clip, tick) &&
      x == Flight(sx, vx, tick) && y == Flight(sy, vy, tick)
    }

    /**
     * A bolt at `(sx, sy)`, 8 tiles wide with the first frame's aspect ratio, moving at
     * `(vx, vy)`: 15 pixels per update toward the target, a direction whose
     * computation (`hypot`) is not part of this model.
     */
    constructor(sx: real, sy: real, vx: real, vy: real, frames: int, firstTrim: Rect)
      requires frames >= 1 && firstTrim.Width() > 0
      ensures x == sx && y == sy && this.vx == vx && this.vy == vy
      ensures !dead && !dealtPlayerDamage && frame == 0 && tick == 0
      ensures clip == A.Clip(frames, 2, true)
      ensures w == 8.0 * C.Tile as real
      ensures h == w * (firstTrim.Height() as real / firstTrim.Width() as real)
      ensures Valid()
    {
      this.sx := sx;
      this.sy := sy;
      x := sx;
      y := sy;
      this.vx := vx;
      this.vy := vy;
      w := 8.0 * C.Tile as real;
      h := 8.0 * C.Tile as real * (firstTrim.Height() as real / firstTrim.Width() as real);
      clip := A.Clip(frames, 2, true);
      dead := false;
      dealtPlayerDamage := false;
      frame := 0;
      tick := 0;
    }

    /**
     * A dead bolt stays as it is. A live one moves one velocity step, advances its clip,
     * and dies exactly when it is now off screen.
     */
    method Update(worldWidth: real)
      requires Valid()
      modifies this
      ensures Valid()
      ensures vx == old(vx) && vy == old(vy) && dealtPlayerDamage == old(dealtPlayerDamage)
      ensures old(dead) ==> x == old(x) && y == old(y) && tick == old(tick) && frame == old(frame) && dead
      ensures !old(dead) ==>
        (x == old(x) + vx && y == old(y) + vy && tick == old(tick) + 1 &&
         (dead <==> Offscreen(x, y, w, worldWidth)))
    {
      if dead {
        return;
      }
      x := x + vx;
      y := y + vy;
      frame := A.NextFrame(clip, frame, tick);
      tick := tick + 1;
      assert frame == A.Play(clip, tick);
      if x + w < -Margin || x > worldWidth + Margin || y < -Margin || y > FloorY + Margin {
        dead := true;
      }
    }

    predicate AlreadyDamagedPlayer()
      reads this
    {
      dealtPlayerDamage
    }

    /** Records the one hit this bolt may deal; the flag is never cleared. */
    method MarkDamagedPlayer()
      modifies this
      ensures AlreadyDamagedPlayer()
      ensures x == old(x) && y == old(y) && vx == old(vx) && vy == old(vy)
      ensures dead == old(dead) && frame == old(frame) && tick == old(tick)
    {
      dealtPlayerDamage := true;
    }
  }
}
