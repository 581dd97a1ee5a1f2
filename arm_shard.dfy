/**
 * `ArmShard`: the boss's thrown arm. It flies straight for a 30-update tell, then
 * snapshots the player's centre once and steers toward that point until it gets
 * there, after which it flies straight again. It lives for at most 600 updates and is
 * dropped when it leaves the world with a margin.
 *
 * The steering itself (`atan2`, `cos`, `sin`, `hypot`) is not part of this model: each
 * update receives whether the shard has arrived near its target and the velocity the
 * steering would produce.
 */
module ArmShard {
  import opened Numerics
  import opened Geometry
  import A = Animation
  import C = Constants
  import LB = LaserBolt
  import opened Wrappers

  /** Straight-flight updates before the target is taken. */
  const TellTicks: int := 30
  /** Lifetime in updates (ten seconds at 60 updates per second). */
  const LifeTicks: int := 600

  datatype Point = Point(x: real, y: real)

  /** Where a shard thrown from `px` in `direction` starts: its back edge at `px`. */
  function StartX(px: real, w: real, direction: int): (x: real)
    ensures direction > 0 ==> x == px
    ensures direction <= 0 ==> x + w == px
  {
    if direction > 0 then px else px - w
  }

  class ArmShard {
    var x: real
    var y: real
    var vx: real
    var vy: real
    const w: real
    const h: real
    var dead: bool
    var frame: int
    var tick: nat
    var life: int
    var redirectDelay: int
    var targetLocked: bool
    var targetX: real
    var targetY: real
    var passedTarget: bool
    const clip: A.Clip
    /** Whether a `getPlayerCenter` callback was supplied. */
    const tracking: bool
    /** Calls made to that callback so far. */
    ghost var centerQueries: nat

    /**
     * `tick` counts live updates. The tell, the lock and the life are all functions of
     * it, the callback has been asked exactly once if and only if the target is locked
     * (and a callback exists), and the shard has been steered only after the lock.
     */
    ghost predicate Valid()
      reads this
    {
      clip.Valid() && clip.loop && frame == A.Play(clip, tick) &&
      tick <= LifeTicks &&
      life == LifeTicks - tick &&
      (life <= 0 ==> dead) &&
      (targetLocked <==> tick >= TellTicks) &&
      redirectDelay == (if targetLocked then 0 else TellTicks - tick) &&
      (passedTarget ==> targetLocked) &&
      centerQueries == (if targetLocked && tracking then 1 else 0)
    }

    /**
     * A shard thrown from `(px, py)` toward `direction` at `(vx, vy)`, 11 tiles wide
     * with the first frame's aspect ratio; its target starts at the throw point.
     */
    constructor(px: real, py: real, vx: real, vy: real, direction: int, tracking: bool,
                frames: int, firstTrim: Rect)
      requires frames >= 1 && firstTrim.Width() > 0
      ensures w == 11.0 * C.Tile as real
      ensures h == w * (firstTrim.Height() as real / firstTrim.Width() as real)
      ensures x == StartX(px, w, direction) && y == py && this.vx == vx && this.vy == vy
      ensures targetX == px && targetY == py && !targetLocked && !passedTarget && !dead
      ensures life == LifeTicks && redirectDelay == TellTicks && frame == 0 && tick == 0
      ensures clip == A.Clip(frames, 6, true) && this.tracking == tracking
      ensures centerQueries == 0
      ensures Valid()
    {
      w := 11.0 * C.Tile as real;
      h := 11.0 * C.Tile as real * (firstTrim.Height() as real / firstTrim.Width() as real);
      x := if direction > 0 then px else px - 11.0 * C.Tile as real;
      y := py;
      this.vx := vx;
      this.vy := vy;
      this.tracking := tracking;
      clip := A.Clip(frames, 6, true);
      dead := false;
      frame := 0;
      tick := 0;
      life := LifeTicks;
      redirectDelay := TellTicks;
      targetLocked := false;
      targetX := px;
      targetY := py;
      passedTarget := false;
      centerQueries := 0;
    }

    /**
     * One update. `center` is what the callback returns if it is asked (`None` for a
     * null answer); `arrived` says whether the shard's centre is within 0.8 tiles of the
     * target; `steered` is the velocity the capped turn toward the target yields.
     */
    method Update(worldWidth: real, center: Option<Point>, arrived: bool, steered: Point)
      requires Valid()
      modifies this
      ensures Valid()
      ensures old(dead) ==>
        (dead && x == old(x) && y == old(y) && vx == old(vx) && vy == old(vy) &&
         tick == old(tick) && targetLocked == old(targetLocked) &&
         targetX == old(targetX) && targetY == old(targetY) && centerQueries == old(centerQueries))
      ensures !old(dead) ==> tick == old(tick) + 1 && x == old(x) + vx && y == old(y) + vy
      // the target is taken once, on the 30th live update, and never again
      ensures !old(dead) && tick == TellTicks && tracking && center.Some? ==>
        targetX == center.value.x && targetY == center.value.y
      ensures old(targetLocked) || tick != TellTicks || !tracking || center.None? ==>
        targetX == old(targetX) && targetY == old(targetY)
      // no steering during the tell or after the target was passed
      ensures !old(targetLocked) || old(passedTarget) ==> vx == old(vx) && vy == old(vy)
      ensures old(passedTarget) ==> passedTarget
      ensures !old(dead) ==> (dead <==> life <= 0 || LB.Offscreen(x, y, w, worldWidth))
    {
      if dead {
        return;
      }
      Steer(center, arrived, steered);
      Advance(worldWidth);
    }

    /** The second half of a live update: move, age, animate, and despawn. */
    method Advance(worldWidth: real)
      requires !dead && clip.Valid()
      modifies this
      ensures x == old(x) + vx && y == old(y) + vy && life == old(life) - 1
      ensures frame == A.NextFrame(clip, old(frame), old(tick)) && tick == old(tick) + 1
      ensures dead <==> life <= 0 || LB.Offscreen(x, y, w, worldWidth)
      ensures vx == old(vx) && vy == old(vy) && targetX == old(targetX) && targetY == old(targetY)
      ensures targetLocked == old(targetLocked) && passedTarget == old(passedTarget)
      ensures redirectDelay == old(redirectDelay) && centerQueries == old(centerQueries)
    {
      x := x + vx;
      y := y + vy;
      life := life - 1;
      if life <= 0 {
        dead := true;
      }
      frame := A.NextFrame(clip, frame, tick);
      tick := tick + 1;
      if x + w < -LB.Margin || x > worldWidth + LB.Margin || y < -LB.Margin || y > LB.FloorY + LB.Margin {
        dead := true;
      }
    }

    /**
     * The phase step of `Update`: count down the tell and take the target when it ends,
     * or, once locked, steer until the target is reached.
     */
    method Steer(center: Option<Point>, arrived: bool, steered: Point)
      modifies this
      ensures x == old(x) && y == old(y) && tick == old(tick) && life == old(life)
      ensures dead == old(dead) && frame == old(frame)
      ensures !old(targetLocked) ==>
        (redirectDelay == old(redirectDelay) - 1 && vx == old(vx) && vy == old(vy) &&
         passedTarget == old(passedTarget) &&
         targetLocked == (redirectDelay <= 0) &&
         centerQueries == old(centerQueries) + (if targetLocked && tracking then 1 else 0) &&
         (if targetLocked && tracking && center.Some?
          then targetX == center.value.x && targetY == center.value.y
          else targetX == old(targetX) && targetY == old(targetY)))
      ensures old(targetLocked) ==>
        (targetLocked && redirectDelay == old(redirectDelay) && centerQueries == old(centerQueries) &&
         targetX == old(targetX) && targetY == old(targetY) &&
         passedTarget == (old(passedTarget) || arrived) &&
         (if old(passedTarget) || arrived then vx == old(vx) && vy == old(vy)
          else vx == steered.x && vy == steered.y))
    {
      if !targetLocked {
        redirectDelay := redirectDelay - 1;
        if redirectDelay <= 0 {
          if tracking {
            centerQueries := centerQueries + 1;
            if center.Some? {
              targetX := center.value.x;
              targetY := center.value.y;
            }
          }
          targetLocked := true;
        }
      } else {
        if !passedTarget {
          if arrived {
            passedTarget := true;
          } else {
            vx := steered.x;
            vy := steered.y;
          }
        }
      }
    }
  }
}
