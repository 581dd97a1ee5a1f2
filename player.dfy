/**
 * `Player`: the archer of the main game. Besides its physics body it keeps hit
 * points, two one-shot timers (hurt, attack), an animation (clip, frame, tick),
 * a facing, and the attack queued by `tryShoot` that releases one arrow at the
 * attack's keyframe. Its ammunition is a pause-aware reload queue of 5 arrows
 * that reload in 60 ticks each.
 */
module Player {
  import opened Numerics
  import opened Geometry
  import opened Wrappers
  import A = Animation
  import PB = PhysicsBody
  import IQ = InfQuiver
  import RQ = ReloadQueue
  import GS = GameState
  import C = Constants

  const MaxHp: int := 3
  const HurtDuration: int := 15
  const MaxAmmo: int := 5
  const ReloadTicks: int := 60
  /** The attack frame on which the queued arrow leaves the bow. */
  const AttackFireFrame: int := 7
  const ArrowSpeed: real := 14.0
  /** Speeds at or below this (in either direction) keep the current facing. */
  const TurnSpeed: real := 0.05
  /** Speeds above this (in either direction) count as walking. */
  const WalkSpeed: real := 0.12

  datatype Anim = Idle | Walk | Attack | Hurt

  /** The timing of the four strips: idle and walk loop every 2 ticks, attack plays once a frame per tick, hurt once every 2 ticks. */
  datatype Strips = Strips(idle: A.Clip, walk: A.Clip, attack: A.Clip, hurt: A.Clip) {
    predicate Loaded()
    {
      idle.Valid() && walk.Valid() && attack.Valid() && hurt.Valid() &&
      idle.speed == 2 && idle.loop && walk.speed == 2 && walk.loop &&
      attack.speed == 1 && !attack.loop && hurt.speed == 2 && !hurt.loop
    }

    function Of(a: Anim): A.Clip
    {
      match a
      case Idle => idle
      case Walk => walk
      case Attack => attack
      case Hurt => hurt
    }
  }

  /** The animation-and-timer part of the player that one update steps. */
  datatype Pose = Pose(anim: Anim, frame: int, tick: nat, hurtTimer: int, attackTimer: int)

  /** `frame` is what the current clip shows `tick` updates after it started. */
  ghost predicate Shows(p: Pose, s: Strips)
    requires s.Loaded()
  {
    A.Shows(s.Of(p.anim), p.frame, p.tick)
  }

  /** The clip the update picks: hurt, then attack, then walk, then idle. */
  function Choose(hurtTimer: int, attackTimer: int, moving: bool): Anim
  {
    if hurtTimer > 0 then Hurt
    else if attackTimer > 0 then Attack
    else if moving then Walk
    else Idle
  }

  /**
   * The animation half of one update: pick the clip by priority, restart it when it
   * changes, advance it by one tick, then count both timers down. The chosen clip
   * follows the priority order, the frame stays inside the clip, and neither timer
   * drops below zero.
   */
  function Step(p: Pose, moving: bool, s: Strips): (r: Pose)
    requires s.Loaded() && 0 <= p.frame < s.Of(p.anim).frames
    ensures r.anim == Hurt <==> p.hurtTimer > 0
    ensures r.anim == Attack <==> p.hurtTimer <= 0 && p.attackTimer > 0
    ensures r.anim == Walk <==> p.hurtTimer <= 0 && p.attackTimer <= 0 && moving
    ensures 0 <= r.frame < s.Of(r.anim).frames
    ensures 0 <= p.hurtTimer ==> r.hurtTimer == Max(p.hurtTimer - 1, 0)
    ensures 0 <= p.attackTimer ==> r.attackTimer == Max(p.attackTimer - 1, 0)
    ensures r.anim != p.anim ==> r.tick == 1
  {
    var a := Choose(p.hurtTimer, p.attackTimer, moving);
    var c := s.Of(a);
    var f0 := if a != p.anim then 0 else p.frame;
    var t0 := if a != p.anim then 0 else p.tick;
    Pose(a, A.NextFrame(c, f0, t0), t0 + 1,
      if p.hurtTimer > 0 then p.hurtTimer - 1 else p.hurtTimer,
      if p.attackTimer > 0 then p.attackTimer - 1 else p.attackTimer)
  }

  /** One update keeps the frame equal to what the (possibly restarted) clip shows. */
  lemma StepShows(p: Pose, moving: bool, s: Strips)
    requires s.Loaded() && Shows(p, s)
    ensures Shows(Step(p, moving, s), s)
  {
    var a := Choose(p.hurtTimer, p.attackTimer, moving);
    if a != p.anim {
      A.ShowsNext(s.Of(a), 0, 0);
    } else {
      A.ShowsNext(s.Of(a), p.frame, p.tick);
    }
  }

  /** `k` updates in a row with the same motion. */
  ghost function Run(p: Pose, moving: bool, s: Strips, k: nat): (r: Pose)
    requires s.Loaded() && 0 <= p.frame < s.Of(p.anim).frames
    ensures 0 <= r.frame < s.Of(r.anim).frames
  {
    if k == 0 then p else Step(Run(p, moving, s, k - 1), moving, s)
  }

  /** The pose `tryShoot` leaves when the player is not hurt. */
  function StartAttack(s: Strips): (p: Pose)
    requires s.Loaded()
    ensures 0 <= p.frame < s.Of(p.anim).frames
  {
    Pose(Attack, 0, 0, 0, s.attack.Duration())
  }

  /**
   * An attack that nothing interrupts shows frame `min(k, frames - 1)` on its `k`-th
   * update while its timer lasts (`frames` updates), and gives way to walking or
   * idling after that.
   */
  lemma {:induction false} AttackRun(s: Strips, moving: bool, k: nat)
    requires s.Loaded()
    ensures var r := Run(StartAttack(s), moving, s, k);
      r.hurtTimer == 0 &&
      (k <= s.attack.frames ==>
        r.anim == Attack && r.frame == Min(k, s.attack.frames - 1) && r.attackTimer == s.attack.frames - k) &&
      (k > s.attack.frames ==> r.anim != Attack && r.attackTimer == 0)
  {
    if k > 0 {
      AttackRun(s, moving, k - 1);
      var p := Run(StartAttack(s), moving, s, k - 1);
      if k <= s.attack.frames {
        A.OneShotFrame(s.attack, k);
        if k == 1 {
          assert Shows(p, s);
        } else {
          A.OneShotFrame(s.attack, k - 1);
          assert p.frame == A.Play(s.attack, k - 1);
        }
        assert A.Play(s.attack, k) == A.NextFrame(s.attack, A.Play(s.attack, k - 1), k - 1);
      }
    }
  }

  /**
   * The keyframe of an uninterrupted attack: an attack strip of at least 8 frames
   * reaches the firing frame on exactly its 7th update, and a shorter one never
   * reaches it, so the arrow it queued is never released.
   */
  lemma KeyframeReached(s: Strips, moving: bool, k: nat)
    requires s.Loaded()
    ensures var r := Run(StartAttack(s), moving, s, k);
      r.anim == Attack && r.frame >= AttackFireFrame <==>
        AttackFireFrame <= k <= s.attack.frames && s.attack.frames > AttackFireFrame
  {
    AttackRun(s, moving, k);
  }

  /** The facing after an update: the sign of a clear horizontal speed, else unchanged. */
  function Heading(vx: real, facing: int): int
  {
    if vx > TurnSpeed then 1 else if vx < -TurnSpeed then -1 else facing
  }

  /** An arrow released at the keyframe: where it starts and its speed. */
  datatype ArrowShot = ArrowShot(x: real, y: real, vx: real)

  class Player {
    const body: PB.Body
    var hp: int
    var hurtTimer: int
    var attackTimer: int
    var anim: Anim
    var frame: int
    var tick: nat
    /** 1 facing right, -1 facing left. */
    var facing: int
    const strips: Strips
    const quiver: IQ.InfQuiver
    /** An attack is waiting for its keyframe (`queuedOut != null`). */
    var queued: bool
    var queuedDir: int
    var firedThisAttack: bool

    function CurrentPose(): Pose
      reads this
    {
      Pose(anim, frame, tick, hurtTimer, attackTimer)
    }

    /** `abs(vx) > 0.12 || !canJump`: the body walks or is in the air. */
    predicate Moving()
      reads body
    {
      AbsR(body.vx) > WalkSpeed || !body.canJump
    }

    ghost predicate Valid()
      reads this, quiver
    {
      strips.Loaded() && Shows(CurrentPose(), strips) &&
      0 <= hp <= MaxHp && 0 <= hurtTimer && 0 <= attackTimer &&
      (facing == 1 || facing == -1) && (queuedDir == 1 || queuedDir == -1) &&
      quiver.Valid() && quiver.maxAmmo == MaxAmmo && quiver.cooldownTicks == ReloadTicks
    }

    /**
     * A player at `(px, py)`, four tiles tall; its width is half the height scaled by
     * the aspect ratio of the first idle frame's trim `firstTrim`. It starts idle,
     * facing right, with 3 hit points and a full quiver.
     */
    constructor(px: real, py: real, idleFrames: int, walkFrames: int, attackFrames: int, hurtFrames: int, firstTrim: Rect)
      requires idleFrames >= 1 && walkFrames >= 1 && attackFrames >= 1 && hurtFrames >= 1
      requires firstTrim.Height() > 0
      ensures fresh(body) && fresh(quiver)
      ensures body.x == px && body.y == py && body.vx == 0.0 && body.vy == 0.0
      ensures !body.canJump && !body.wasJump
      ensures body.h == 4.0 * C.Tile as real
      ensures body.w == body.h * (firstTrim.Width() as real / firstTrim.Height() as real) * 0.5
      ensures strips == Strips(A.Clip(idleFrames, 2, true), A.Clip(walkFrames, 2, true),
        A.Clip(attackFrames, 1, false), A.Clip(hurtFrames, 2, false))
      ensures hp == MaxHp && hurtTimer == 0 && attackTimer == 0
      ensures anim == Idle && frame == 0 && tick == 0 && facing == 1
      ensures !queued && queuedDir == 1 && !firedThisAttack
      ensures quiver.Ammo() == MaxAmmo && quiver.reloading == []
      ensures Valid()
    {
      var h := 4.0 * C.Tile as real;
      body := new PB.Body(px, py, h * (firstTrim.Width() as real / firstTrim.Height() as real) * 0.5, h);
      strips := Strips(A.Clip(idleFrames, 2, true), A.Clip(walkFrames, 2, true),
        A.Clip(attackFrames, 1, false), A.Clip(hurtFrames, 2, false));
      quiver := new IQ.InfQuiver(MaxAmmo, ReloadTicks);
      hp := MaxHp;
      hurtTimer, attackTimer := 0, 0;
      anim, frame, tick, facing := Idle, 0, 0, 1;
      queued, queuedDir, firedThisAttack := false, 1, false;
    }

    predicate IsAttacking()
      reads this
    {
      attackTimer > 0
    }

    /**
     * `tryShoot`: with no arrow ready nothing happens. Otherwise the player turns
     * to the direction of a clear horizontal speed (else keeps its facing) and starts
     * the attack over from its first frame, whether or not one is already running;
     * the arrow waits for the keyframe.
     */
    method TryShoot()
      requires Valid()
      modifies this
      ensures Valid()
      ensures !old(quiver.CanFire()) ==>
        CurrentPose() == old(CurrentPose()) &&
        facing == old(facing) && queued == old(queued) && queuedDir == old(queuedDir) &&
        firedThisAttack == old(firedThisAttack)
      ensures old(quiver.CanFire()) ==>
        anim == Attack && frame == 0 && tick == 0 && attackTimer == strips.attack.Duration() &&
        hurtTimer == old(hurtTimer) && queued && !firedThisAttack &&
        queuedDir == Heading(body.vx, old(facing)) && facing == queuedDir
      ensures hp == old(hp)
    {
      if !quiver.CanFire() {
        return;
      }
      var dir := Heading(body.vx, facing);
      facing := dir;
      attackTimer := strips.attack.Duration();
      anim, frame, tick := Attack, 0, 0;
      firedThisAttack := false;
      queued := true;
      queuedDir := dir;
    }

    /**
     * The state half of `draw`, run once per frame: turn with the speed, step the
     * animation and timers, release the queued arrow at the attack keyframe if the
     * quiver lets one go, and tick the quiver. The attack counts as fired at the
     * keyframe even when the quiver refuses, so an attack releases at most one arrow.
     */
    method Update(gameState: GS.GameState) returns (shot: Option<ArrowShot>)
      requires Valid()
      modifies this, quiver
      ensures Valid()
      ensures CurrentPose() == Step(old(CurrentPose()), Moving(), strips)
      ensures facing == Heading(body.vx, old(facing))
      ensures var due := anim == Attack && !old(firedThisAttack) && frame >= AttackFireFrame;
        firedThisAttack == (old(firedThisAttack) || due) && queued == (old(queued) && !due) &&
        (shot.Some? <==> due && old(queued) && !gameState.paused && old(quiver.CanFire()))
      ensures old(firedThisAttack) ==> shot.None? && firedThisAttack
      ensures shot.Some? ==>
        shot.value == ArrowShot(body.x + body.w / 2.0, body.y + body.h * 0.47, ArrowSpeed * queuedDir as real)
      ensures var q := if shot.Some? then RQ.Consume(old(quiver.State()), ReloadTicks).0 else old(quiver.State());
        quiver.State() == if gameState.paused then q else RQ.Tick(q, MaxAmmo)
      ensures hp == old(hp) && queuedDir == old(queuedDir)
    {
      Animate();
      shot := Release(gameState);
      quiver.Tick(gameState);
    }

    /** Turns with the speed and steps the animation and the timers. */
    method Animate()
      requires Valid()
      modifies this
      ensures Valid()
      ensures CurrentPose() == Step(old(CurrentPose()), Moving(), strips)
      ensures facing == Heading(body.vx, old(facing))
      ensures hp == old(hp) && queued == old(queued) && queuedDir == old(queuedDir)
      ensures firedThisAttack == old(firedThisAttack)
    {
      StepShows(CurrentPose(), Moving(), strips);
      var p := Step(CurrentPose(), Moving(), strips);
      facing := Heading(body.vx, facing);
      anim, frame, tick, hurtTimer, attackTimer := p.anim, p.frame, p.tick, p.hurtTimer, p.attackTimer;
    }

    /** At the attack keyframe, spends an arrow on the queued attack if the quiver gives one, and marks the attack fired either way. */
    method Release(gameState: GS.GameState) returns (shot: Option<ArrowShot>)
      requires Valid()
      modifies this, quiver
      ensures Valid()
      ensures CurrentPose() == old(CurrentPose()) && facing == old(facing)
      ensures var due := anim == Attack && !old(firedThisAttack) && frame >= AttackFireFrame;
        firedThisAttack == (old(firedThisAttack) || due) && queued == (old(queued) && !due) &&
        (shot.Some? <==> due && old(queued) && !gameState.paused && old(quiver.CanFire()))
      ensures shot.Some? ==>
        shot.value == ArrowShot(body.x + body.w / 2.0, body.y + body.h * 0.47, ArrowSpeed * queuedDir as real)
      ensures quiver.State() ==
        if shot.Some? then RQ.Consume(old(quiver.State()), ReloadTicks).0 else old(quiver.State())
      ensures hp == old(hp) && queuedDir == old(queuedDir)
    {
      shot := None;
      if anim == Attack && !firedThisAttack && frame >= AttackFireFrame {
        if queued {
          var ok := quiver.TryConsume(gameState);
          if ok {
            shot := Some(ArrowShot(body.x + body.w / 2.0, body.y + body.h * 0.47, ArrowSpeed * queuedDir as real));
          }
        }
        firedThisAttack := true;
        queued := false;
      }
    }

    /** `hit`: a living player loses one point and starts the hurt timer; at zero nothing changes, so hit points never go negative. */
    method Hit()
      requires Valid()
      modifies this`hp, this`hurtTimer
      ensures Valid()
      ensures old(hp) > 0 ==> hp == old(hp) - 1 && hurtTimer == HurtDuration
      ensures old(hp) == 0 ==> hp == 0 && hurtTimer == old(hurtTimer)
      ensures anim == old(anim) && frame == old(frame) && tick == old(tick) && attackTimer == old(attackTimer)
      ensures facing == old(facing) && queued == old(queued) && queuedDir == old(queuedDir) && firedThisAttack == old(firedThisAttack)
    {
      if hp > 0 {
        hp := hp - 1;
        hurtTimer := HurtDuration;
      }
    }

    /** `reset`: back to `(px, py)` at rest, grounded flags cleared, full health, the clip restarted facing right; the timers and the quiver are kept. */
    method Reset(px: real, py: real)
      requires Valid()
      modifies this, body
      ensures Valid()
      ensures body.x == px && body.y == py && body.vx == 0.0 && body.vy == 0.0
      ensures !body.canJump && !body.wasJump
      ensures hp == MaxHp && frame == 0 && tick == 0 && facing == 1
      ensures anim == old(anim) && hurtTimer == old(hurtTimer) && attackTimer == old(attackTimer)
      ensures queued == old(queued) && queuedDir == old(queuedDir) && firedThisAttack == old(firedThisAttack)
    {
      body.x, body.y, body.vx, body.vy := px, py, 0.0, 0.0;
      hp := MaxHp;
      body.canJump, body.wasJump := false, false;
      frame, tick, facing := 0, 0, 1;
    }
  }
}
