/**
 * `Fireball`: the witch's projectile. It flies on a looping MOVE clip until something
 * makes it explode, then plays the one-shot EXPLODE clip and dies on its last frame.
 */
module Fireball {
  import opened Numerics
  import opened Geometry
  import A = Animation
  import C = Constants

  /**
   * The update (counted from the start of the explosion) on which `dead` is first set:
   * the first positive multiple of the speed at which the clip shows its last frame.
   */
  function ExplosionLength(c: A.Clip): (n: int)
    requires c.Valid()
    ensures n >= c.speed && n % c.speed == 0
  {
    MulAtLeast(Max(1, c.frames - 1), c.speed);
    DivUnique(Max(1, c.frames - 1) * c.speed, c.speed, Max(1, c.frames - 1), 0);
    Max(1, c.frames - 1) * c.speed
  }

  /**
   * Update `k >= 1` of an explosion satisfies the death test (last frame shown on a
   * cadence tick) exactly when it is a multiple of the speed no earlier than
   * `ExplosionLength`.
   */
  lemma ExplosionEnds(c: A.Clip, k: nat)
    requires c.Valid() && !c.loop && k >= 1
    ensures (A.Play(c, k) >= c.frames - 1 && k % c.speed == 0) <==>
      (k % c.speed == 0 && k >= ExplosionLength(c))
  {
    A.OneShotFrame(c, k);
    DivAtLeast(k, c.speed, c.frames - 1);
    if k % c.speed == 0 {
      DivAtLeast(k, c.speed, 1);
      MulAtLeast(c.frames - 1, c.speed);
    }
  }

  class Fireball {
    var x: real
    var y: real
    var vx: real
    var vy: real
    var dead: bool
    /** `anim == EXPLODE`; MOVE otherwise. */
    var exploding: bool
    var frame: int
    var tick: nat
    var dealtPlayerDamage: bool
    const move: A.Clip
    const explode: A.Clip
    const w: real
    const h: real

    function Current(): A.Clip
      reads this
    {
      if exploding then explode else move
    }

    /**
     * The clips are as loaded (MOVE loops, EXPLODE plays once); `tick` counts the
     * updates since the current clip started, so `frame` is what that clip shows after
     * `tick` updates; only an explosion can have damaged the player; and the fireball is dead exactly once the explosion has run its
     * length.
     */
    ghost predicate Valid()
      reads this
    {
      move.Valid() && explode.Valid() && move.loop && !explode.loop &&
      frame == A.Play(Current(), tick) &&
      (dealtPlayerDamage ==> exploding) &&
      (dead <==> exploding && tick >= ExplosionLength(explode))
    }

    /**
     * A flying fireball, 4.5 tiles wide, its height from the aspect ratio of the first
     * MOVE frame's trim `firstTrim`. Both clips advance every 2 updates.
     */
    constructor(x: real, y: real, vx: real, vy: real, moveFrames: int, explodeFrames: int, firstTrim: Rect)
      requires moveFrames >= 1 && explodeFrames >= 1 && firstTrim.Width() > 0
      ensures this.x == x && this.y == y && this.vx == vx && this.vy == vy
      ensures move == A.Clip(moveFrames, 2, true) && explode == A.Clip(explodeFrames, 2, false)
      ensures !exploding && !dead && !dealtPlayerDamage && frame == 0 && tick == 0
      ensures w == 4.5 * C.Tile as real
      ensures h == w * (firstTrim.Height() as real / firstTrim.Width() as real)
      ensures Valid()
    {
      this.x := x;
      this.y := y;
      this.vx := vx;
      this.vy := vy;
      move := A.Clip(moveFrames, 2, true);
      explode := A.Clip(explodeFrames, 2, false);
      w := 4.5 * C.Tile as real;
      h := 4.5 * C.Tile as real * (firstTrim.Height() as real / firstTrim.Width() as real);
      exploding := false;
      dead := false;
      dealtPlayerDamage := false;
      frame := 0;
      tick := 0;
    }

    /**
     * Switches a flying fireball to EXPLODE from its first frame and stops it; `hitPlayer`
     * records that the player has been damaged. A fireball already exploding or dead is
     * left alone.
     */
    method StartExplode(hitPlayer: bool)
      requires Valid()
      modifies this
      ensures Valid()
      ensures old(exploding) || old(dead) ==>
        exploding == old(exploding) && frame == old(frame) && tick == old(tick) &&
        vx == old(vx) && vy == old(vy) && dealtPlayerDamage == old(dealtPlayerDamage)
      ensures !old(exploding) && !old(dead) ==>
        exploding && frame == 0 && tick == 0 && vx == 0.0 && vy == 0.0 &&
        dealtPlayerDamage == (old(dealtPlayerDamage) || hitPlayer)
      ensures x == old(x) && y == old(y) && dead == old(dead)
    {
      if exploding || dead {
        return;
      }
      exploding := true;
      frame := 0;
      tick := 0;
      vx := 0.0;
      vy := 0.0;
      if hitPlayer {
        dealtPlayerDamage := true;
      }
    }

    predicate AlreadyDamagedPlayer()
      reads this
      ensures AlreadyDamagedPlayer() ==> !Valid() || exploding
    {
      dealtPlayerDamage
    }

    predicate IsExploding()
      reads this
      ensures IsExploding() && Valid() ==> !Current().loop
    {
      exploding
    }

    /**
     * Moves by `(vx, vy)` only while flying, advances the current clip by one update, and
     * marks the fireball dead once the explosion's last frame is reached on a cadence
     * tick. `worldW` plays no part: a flying fireball never dies here.
     */
    method Update(worldW: real)
      requires Valid()
      modifies this
      ensures Valid()
      ensures exploding == old(exploding) && vx == old(vx) && vy == old(vy)
      ensures dealtPlayerDamage == old(dealtPlayerDamage)
      ensures !exploding ==> x == old(x) + vx && y == old(y) + vy && !dead
      ensures exploding ==> x == old(x) && y == old(y)
      ensures tick == old(tick) + 1 && frame == A.NextFrame(Current(), old(frame), old(tick))
      ensures dead <==> old(dead) || (exploding && tick == ExplosionLength(explode))
    {
      if !exploding {
        x := x + vx;
        y := y + vy;
      }
      frame := A.NextFrame(if exploding then explode else move, frame, tick);
      tick := tick + 1;
      if exploding {
        if frame >= explode.frames - 1 && tick % explode.speed == 0 {
          dead := true;
        }
        ExplosionEnds(explode, tick);
      }
    }
  }
}
