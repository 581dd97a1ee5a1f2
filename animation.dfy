/**
 * Frame cadence shared by every animated entity. Each entity keeps a `frame`
 * and a `tick`; one update does
 *   `if (++tick % speed == 0) frame = if (loop) (frame + 1) % frames
 *                                      else (frame + 1).coerceAtMost(frames - 1)`.
 * A sprite strip is reduced to its timing: frame count, ticks per frame, looping.
 */
module Animation {
  import opened Numerics

  datatype Clip = Clip(frames: int, speed: int, loop: bool) {
    predicate Valid() { frames >= 1 && speed >= 1 }

    function LastFrame(): int { frames - 1 }

    /** `frames * speed`: the tick budget of a one-shot (attack timer, cast timer). */
    function Duration(): int { frames * speed }
  }

  /** The frame after one update that starts from `frame` with the tick counter at `tick`. */
  function NextFrame(c: Clip, frame: int, tick: nat): (f: int)
    requires c.Valid()
    ensures 0 <= frame < c.frames ==> 0 <= f < c.frames
    ensures (tick + 1) % c.speed != 0 ==> f == frame
    ensures !c.loop && 0 <= frame < c.frames ==> frame <= f <= frame + 1
    ensures !c.loop && frame == c.LastFrame() ==> f == frame
  {
    if (tick + 1) % c.speed == 0 then
      (if c.loop then (frame + 1) % c.frames else Min(frame + 1, c.frames - 1))
    else frame
  }

  /** The frame shown after `k` updates of a clip started at frame 0, tick 0. */
  ghost function Play(c: Clip, k: nat): int
    requires c.Valid()
  {
    if k == 0 then 0 else NextFrame(c, Play(c, k - 1), k - 1)
  }

  /** `frame` is what `c` shows `tick` updates after it was started at frame 0. */
  ghost predicate Shows(c: Clip, frame: int, tick: nat)
    requires c.Valid()
  {
    0 <= frame < c.frames && frame == Play(c, tick)
  }

  /** Advancing a clip by one update keeps its frame equal to what it shows. */
  lemma ShowsNext(c: Clip, frame: int, tick: nat)
    requires c.Valid() && Shows(c, frame, tick)
    ensures Shows(c, NextFrame(c, frame, tick), tick + 1)
  {
    assert Play(c, tick + 1) == NextFrame(c, Play(c, tick), tick);
  }

  /** A one-shot clip shows frame `min(k / speed, frames - 1)` after `k` updates. */
  lemma {:induction false} OneShotFrame(c: Clip, k: nat)
    requires c.Valid() && !c.loop
    ensures Play(c, k) == Min(k / c.speed, c.frames - 1)
  {
    if k > 0 {
      OneShotFrame(c, k - 1);
      DivStep(k, c.speed);
    }
  }

  /** A looping clip shows frame `(k / speed) % frames` after `k` updates. */
  lemma {:induction false} LoopFrame(c: Clip, k: nat)
    requires c.Valid() && c.loop
    ensures Play(c, k) == (k / c.speed) % c.frames
  {
    if k > 0 {
      LoopFrame(c, k - 1);
      DivStep(k, c.speed);
      ModSucc((k - 1) / c.speed, c.frames);
    }
  }

  /**
   * A one-shot reaches its last frame on exactly update `(frames - 1) * speed`,
   * so a `frames * speed` timer always outlasts the strip.
   */
  lemma OneShotReachesLast(c: Clip, k: nat)
    requires c.Valid() && !c.loop
    ensures Play(c, k) == c.LastFrame() <==> k >= (c.frames - 1) * c.speed
  {
    OneShotFrame(c, k);
    DivAtLeast(k, c.speed, c.frames - 1);
  }
}
