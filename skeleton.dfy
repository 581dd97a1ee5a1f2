/**
 * `Skeleton`: a melee enemy. It turns towards the player, chases to a stand-off
 * distance, swings when the player is close, in its height band and in front, and
 * lands at most one blow per swing. Hits wound it (with a short invulnerability) or
 * start its death animation; when that animation shows its last frame the
 * skeleton is gone for good.
 */
module Skeleton {
  import opened Numerics
  import opened Geometry
  import A = Animation
  import PB = PhysicsBody
  import P = Player
  import C = Constants
  import S = Steering

  const MaxHp: int := 10
  const AttackCooldown: int := 180
  /** The swing frame that announces the attack (clamped into the strip). */
  const CastAttackFrame: int := 7
  const HurtIframes: int := 10
  const MaxSpeed: real := 3.0
  const Accel: real := 0.07
  const Friction: real := 0.3
  const StandOff: real := 120.0
  const TriggerRange: real := 800.0
  const AttackRangeX: real := 120.0
  const AttackRangeY: real := 80.0
  const VisionBandRatio: real := 0.35
  /** Speeds above this count as moving. */
  const StillSpeed: real := 0.05

  datatype Anim = Idle | Walk | Attack | Hurt | Death

  /** Strip timing: idle loops every 13 ticks, walk every 17; attack (7), hurt (20) and death (9) play once. */
  datatype Strips = Strips(idle: A.Clip, walk: A.Clip, attack: A.Clip, hurt: A.Clip, death: A.Clip) {
    predicate Loaded()
    {
      idle.Valid() && walk.Valid() && attack.Valid() && hurt.Valid() && death.Valid() &&
      idle.speed == 13 && idle.loop && walk.speed == 17 && walk.loop &&
      attack.speed == 7 && !attack.loop && hurt.speed == 20 && !hurt.loop &&
      death.speed == 9 && !death.loop
    }

    function Of(a: Anim): A.Clip
    {
      match a
      case Idle => idle
      case Walk => walk
      case Attack => attack
      case Hurt => hurt
      case Death => death
    }

    /** The frame that announces the swing: 7, or the last frame of a shorter strip. */
    function FireFrame(): (f: int)
      requires Loaded()
      ensures 0 <= f < attack.frames
      ensures f == CastAttackFrame || f == attack.frames - 1
    {
      CoerceIn(CastAttackFrame, 0, attack.frames - 1)
    }
  }

  /** What `hit` reports to its listeners. */
  datatype HitOutcome = Ignored | Wounded | Killed

  /** The skeleton's chase: stand off at 120 px, top speed 3, within 800 px. */
  const Tune: S.Tuning := S.Tuning(StandOff, MaxSpeed, Accel, Friction, TriggerRange)

  /**
   * The gate for a swing: the player is within reach horizontally, within the
   * vision band vertically (`dy` from the sensing height), and not behind.
   */
  predicate InReach(dx: real, dy: real, w: real, h: real, facing: int)
  {
    AbsR(dx) <= AttackRangeX && AbsR(dy) <= h * VisionBandRatio && dx * facing as real >= -w * 0.10
  }

  /** The clip picked before advancing: death, then an unfinished hurt, then the swing, then walk or idle. */
  function Choose(dying: bool, anim: Anim, attackingTicks: int, moving: bool): Anim
  {
    if dying then Death
    else if anim == Hurt then Hurt
    else if attackingTicks > 0 then Attack
    else if moving then Walk
    else Idle
  }

  /** Where a finished swing or hurt returns to. */
  function Rest(vx: real): Anim
  {
    if AbsR(vx) > StillSpeed then Walk else Idle
  }

  /** The skeleton's own fields, as one value. */
  datatype Fields = Fields(
    hp: int, alive: bool, hasHitPlayer: bool,
    attackCd: nat, attackingTicks: nat, attackedThisAnim: bool,
    dying: bool, deadAndGone: bool, invulTicks: nat,
    anim: Anim, frame: int, tick: nat, facing: S.Dir)

  /**
   * The AI half of a tick on the fields: the cooldown and the invulnerability count
   * down and the skeleton turns to the player (`dx`, `dy` from its sensing point;
   * `right` when the player is right of its centre); a swing starts when it is
   * alive, its cooldown runs out this tick, it is not swinging and the player is in
   * reach.
   */
  function Thought(s: Fields, strips: Strips, dx: real, dy: real, w: real, h: real, right: bool): (r: Fields)
    requires strips.Loaded() && A.Shows(strips.Of(s.anim), s.frame, s.tick)
    ensures A.Shows(strips.Of(r.anim), r.frame, r.tick)
    ensures r.invulTicks == Max(s.invulTicks - 1, 0)
    ensures r.attackCd == AttackCooldown || r.attackCd == Max(s.attackCd - 1, 0)
    ensures r.dying == s.dying
    ensures var starts := s.alive && s.attackCd <= 1 && s.attackingTicks <= 0 && InReach(dx, dy, w, h, S.Face(s.facing, dx));
      (r.anim != Hurt && r.attackingTicks > 0 && !r.attackedThisAnim) <==>
      starts || (s.anim != Hurt && s.attackingTicks > 0 && !s.attackedThisAnim)
  {
    var face := S.Face(s.facing, dx);
    var c := s.(attackCd := Max(s.attackCd - 1, 0), invulTicks := Max(s.invulTicks - 1, 0), facing := face);
    if s.alive && s.attackCd <= 1 && s.attackingTicks <= 0 && InReach(dx, dy, w, h, face) then
      c.(facing := if right then 1 else -1, anim := Attack, frame := 0, tick := 0,
        attackingTicks := strips.attack.Duration(), attackCd := AttackCooldown, attackedThisAnim := false, hasHitPlayer := false)
    else
      c
  }

  /**
   * The pose after one tick's clip choice and advance: death, an unfinished hurt,
   * the swing, walk, idle, in that order; a new clip starts over on its first tick,
   * the same clip plays on, and the frame is always the one the clip shows.
   */
  function Animated(s: Fields, strips: Strips, moving: bool): (r: Fields)
    requires strips.Loaded() && A.Shows(strips.Of(s.anim), s.frame, s.tick)
    ensures r.anim == Death <==> s.dying
    ensures r.anim == Hurt <==> !s.dying && s.anim == Hurt
    ensures r.anim == Attack <==> !s.dying && s.anim != Hurt && s.attackingTicks > 0
    ensures r.anim == Walk <==> !s.dying && s.anim != Hurt && s.attackingTicks <= 0 && moving
    ensures r.tick == if r.anim != s.anim then 1 else s.tick + 1
    ensures A.Shows(strips.Of(r.anim), r.frame, r.tick)
  {
    var next := Choose(s.dying, s.anim, s.attackingTicks, moving);
    var f0 := if next != s.anim then 0 else s.frame;
    var t0 := if next != s.anim then 0 else s.tick;
    A.ShowsNext(strips.Of(next), f0, t0);
    s.(anim := next, frame := A.NextFrame(strips.Of(next), f0, t0), tick := t0 + 1)
  }

  /**
   * The clip-specific end of a tick, and whether the swing is announced. A swing
   * counts its timer down, announces itself on first reaching the fire frame, and
   * hands over to walk or idle once the timer is out on its last frame; a hurt clip
   * hands over on its last frame; the death clip's last frame marks the skeleton
   * gone.
   */
  function Settled(s: Fields, strips: Strips, vx: real): (r: (Fields, bool))
    requires strips.Loaded()
    ensures r.1 <==> s.anim == Attack && !s.attackedThisAnim && s.frame >= strips.FireFrame()
    ensures r.0.attackedThisAnim <==> s.attackedThisAnim || r.1
    ensures r.0.attackingTicks == if s.anim == Attack then Max(s.attackingTicks - 1, 0) else s.attackingTicks
    ensures r.0.deadAndGone <==> s.deadAndGone || (s.anim == Death && s.frame >= strips.death.frames - 1)
    ensures r.0.anim != s.anim ==> (s.anim == Attack || s.anim == Hurt) && r.0.anim == Rest(vx) && r.0.frame == 0 && r.0.tick == 0
  {
    if s.anim == Attack then
      var t := Max(s.attackingTicks - 1, 0);
      var fire := !s.attackedThisAnim && s.frame >= strips.FireFrame();
      var s1 := s.(attackingTicks := t, attackedThisAnim := s.attackedThisAnim || fire);
      (if t == 0 && s.frame >= strips.attack.frames - 1 then s1.(anim := Rest(vx), frame := 0, tick := 0) else s1, fire)
    else if s.anim == Hurt then
      (if s.frame >= strips.hurt.frames - 1 then s.(anim := Rest(vx), frame := 0, tick := 0) else s, false)
    else if s.anim == Death then
      (s.(deadAndGone := s.deadAndGone || s.frame >= strips.death.frames - 1), false)
    else
      (s, false)
  }

  class Skeleton {
    const body: PB.Body
    const strips: Strips
    var hp: int
    /** Public; nothing in this class clears it. */
    var alive: bool
    var hasHitPlayer: bool
    var attackCd: nat
    var attackingTicks: nat
    var attackedThisAnim: bool
    var dying: bool
    var deadAndGone: bool
    var invulTicks: nat
    var anim: Anim
    var frame: int
    var tick: nat
    var facing: S.Dir

    function State(): Fields
      reads this
    {
      Fields(hp, alive, hasHitPlayer, attackCd, attackingTicks, attackedThisAnim,
        dying, deadAndGone, invulTicks, anim, frame, tick, facing)
    }

    /**
     * The frame is what the current clip shows, the death animation plays only for
     * a dying skeleton, one with no hit points left, and only such a skeleton can be
     * gone.
     */
    ghost predicate Valid()
      reads this
    {
      strips.Loaded() && A.Shows(strips.Of(anim), frame, tick) &&
      (dying ==> hp <= 0) && (deadAndGone ==> dying) && (anim == Death ==> dying)
    }

    /**
     * A skeleton at `(px, py)`, 6.7 tiles tall; its width is 0.7 of the height scaled
     * by the aspect ratio of the first idle frame's trim. It starts idle, facing
     * right, with 10 hit points.
     */
    constructor(px: real, py: real, idleFrames: int, walkFrames: int, attackFrames: int, hurtFrames: int,
      deathFrames: int, firstTrim: Rect)
      requires idleFrames >= 1 && walkFrames >= 1 && attackFrames >= 1 && hurtFrames >= 1 && deathFrames >= 1
      requires firstTrim.Height() > 0
      ensures fresh(body)
      ensures body.x == px && body.y == py && body.vx == 0.0 && body.vy == 0.0
      ensures body.h == 6.7 * C.Tile as real
      ensures body.w == body.h * (firstTrim.Width() as real / firstTrim.Height() as real) * 0.7
      ensures strips == Strips(A.Clip(idleFrames, 13, true), A.Clip(walkFrames, 17, true),
        A.Clip(attackFrames, 7, false), A.Clip(hurtFrames, 20, false), A.Clip(deathFrames, 9, false))
      ensures State() == Fields(MaxHp, true, false, 0, 0, false, false, false, 0, Idle, 0, 0, 1)
      ensures Valid()
    {
      var h := 6.7 * C.Tile as real;
      body := new PB.Body(px, py, h * (firstTrim.Width() as real / firstTrim.Height() as real) * 0.7, h);
      strips := Strips(A.Clip(idleFrames, 13, true), A.Clip(walkFrames, 17, true),
        A.Clip(attackFrames, 7, false), A.Clip(hurtFrames, 20, false), A.Clip(deathFrames, 9, false));
      hp, alive, hasHitPlayer := MaxHp, true, false;
      attackCd, attackingTicks, attackedThisAnim := 0, 0, false;
      dying, deadAndGone, invulTicks := false, false, 0;
      anim, frame, tick, facing := Idle, 0, 0, 1;
    }

    predicate IsDeadAndGone()
      reads this
    {
      deadAndGone
    }

    predicate IsAttacking()
      reads this
    {
      anim == Attack && attackingTicks > 0
    }

    /**
     * `tryAttack`: refused unless alive, off cooldown and not already swinging (it
     * does not look at `dying`). A swing faces the player, restarts the attack clip,
     * runs for the strip's length, starts the 180-tick cooldown and re-arms both
     * one-shot flags; nothing else changes.
     */
    method TryAttack(playerX: real, playerY: real)
      requires Valid()
      modifies this
      ensures Valid()
      ensures old(alive && attackCd <= 0 && attackingTicks <= 0) ==>
        anim == Attack && frame == 0 && tick == 0 &&
        attackingTicks == strips.attack.Duration() && attackCd == AttackCooldown &&
        !attackedThisAnim && !hasHitPlayer &&
        facing == if playerX > body.x + body.w * 0.5 then 1 else -1
      ensures !old(alive && attackCd <= 0 && attackingTicks <= 0) ==> unchanged(this)
      ensures hp == old(hp) && alive == old(alive) && dying == old(dying)
      ensures deadAndGone == old(deadAndGone) && invulTicks == old(invulTicks)
    {
      if !alive {
        return;
      }
      if attackCd > 0 || attackingTicks > 0 {
        return;
      }
      Swing(if playerX > body.x + body.w * 0.5 then 1 else -1);
      Rearm();
    }

    /** The clip half of a new swing: the given facing, the attack clip from its start, its timer and the cooldown. */
    method Swing(dir: S.Dir)
      requires Valid()
      modifies this
      ensures Valid()
      ensures facing == dir && anim == Attack && frame == 0 && tick == 0
      ensures attackingTicks == strips.attack.Duration() && attackCd == AttackCooldown
      ensures hp == old(hp) && alive == old(alive) && dying == old(dying) && deadAndGone == old(deadAndGone)
      ensures invulTicks == old(invulTicks) && attackedThisAnim == old(attackedThisAnim) && hasHitPlayer == old(hasHitPlayer)
    {
      facing := dir;
      anim := Attack;
      frame, tick := 0, 0;
      attackingTicks := strips.attack.Duration();
      attackCd := AttackCooldown;
    }

    /** The one-shot half of a new swing: neither announced nor landed yet. */
    method Rearm()
      requires Valid()
      modifies this
      ensures Valid()
      ensures !attackedThisAnim && !hasHitPlayer
      ensures hp == old(hp) && alive == old(alive) && dying == old(dying) && deadAndGone == old(deadAndGone)
      ensures invulTicks == old(invulTicks) && facing == old(facing) && attackCd == old(attackCd)
      ensures attackingTicks == old(attackingTicks) && anim == old(anim) && frame == old(frame) && tick == old(tick)
    {
      attackedThisAnim := false;
      hasHitPlayer := false;
    }

    /**
     * `hit`: ignored once gone, while dying or while invulnerable. Otherwise one point
     * of damage that cancels the swing; at zero or below the skeleton starts dying
     * (death clip from its first frame, stopped) and reports `Killed`, else it reports
     * `Wounded`, becomes invulnerable for 10 ticks and plays the hurt clip. A skeleton
     * is killed only once, since a dying one ignores hits.
     */
    method Hit() returns (outcome: HitOutcome)
      requires Valid()
      modifies this, body
      ensures Valid()
      ensures var s := old(State());
        if s.deadAndGone || s.dying || s.invulTicks > 0 then
          outcome == Ignored && State() == s && body.vx == old(body.vx) && body.vy == old(body.vy)
        else if s.hp <= 1 then
          outcome == Killed && body.vx == 0.0 && body.vy == 0.0 &&
          State() == s.(hp := s.hp - 1, attackingTicks := 0, attackedThisAnim := true,
            dying := true, anim := Death, frame := 0, tick := 0)
        else
          outcome == Wounded && body.vx == old(body.vx) && body.vy == old(body.vy) &&
          State() == s.(hp := s.hp - 1, attackingTicks := 0, attackedThisAnim := true,
            invulTicks := HurtIframes, anim := Hurt, frame := 0, tick := 0)
      ensures outcome == Killed <==> !old(dying) && dying
      ensures body.x == old(body.x) && body.y == old(body.y)
    {
      if deadAndGone || dying {
        return Ignored;
      }
      if invulTicks > 0 {
        return Ignored;
      }
      Damage();
      if hp <= 0 {
        Die();
        return Killed;
      }
      Wound();
      return Wounded;
    }

    /** The part of an accepted hit that does not depend on the outcome: one point goes and the swing is cancelled. */
    method Damage()
      requires Valid() && !dying
      modifies this
      ensures Valid()
      ensures hp == old(hp) - 1 && attackingTicks == 0 && attackedThisAnim
      ensures alive == old(alive) && hasHitPlayer == old(hasHitPlayer) && attackCd == old(attackCd)
      ensures dying == old(dying) && deadAndGone == old(deadAndGone) && invulTicks == old(invulTicks)
      ensures anim == old(anim) && frame == old(frame) && tick == old(tick) && facing == old(facing)
    {
      hp, attackingTicks, attackedThisAnim := hp - 1, 0, true;
    }

    /** A lethal hit: the death clip starts with the body stopped. */
    method Die()
      requires Valid() && hp <= 0
      modifies this, body
      ensures Valid()
      ensures dying && anim == Death && frame == 0 && tick == 0
      ensures hp == old(hp) && attackingTicks == old(attackingTicks) && attackedThisAnim == old(attackedThisAnim)
      ensures alive == old(alive) && hasHitPlayer == old(hasHitPlayer) && attackCd == old(attackCd)
      ensures deadAndGone == old(deadAndGone) && invulTicks == old(invulTicks) && facing == old(facing)
      ensures body.vx == 0.0 && body.vy == 0.0 && body.x == old(body.x) && body.y == old(body.y)
    {
      dying, anim, frame, tick := true, Death, 0, 0;
      body.vx, body.vy := 0.0, 0.0;
    }

    /** A survivable hit: the hurt clip starts with 10 ticks of invulnerability. */
    method Wound()
      requires Valid() && !dying
      modifies this
      ensures Valid()
      ensures invulTicks == HurtIframes && anim == Hurt && frame == 0 && tick == 0
      ensures hp == old(hp) && attackingTicks == old(attackingTicks) && attackedThisAnim == old(attackedThisAnim)
      ensures alive == old(alive) && hasHitPlayer == old(hasHitPlayer) && attackCd == old(attackCd)
      ensures dying == old(dying) && deadAndGone == old(deadAndGone) && facing == old(facing)
    {
      invulTicks, anim, frame, tick := HurtIframes, Hurt, 0, 0;
    }

    /** The melee box: reach 120 ahead of the body's centre line, at most 80 tall, centred on the torso. */
    function MeleeHitbox(): (r: RectF)
      reads this, body
      ensures body.h >= 0.0 ==> r.Height() == MinR(AttackRangeY, body.h * 0.55)
      ensures r.Width() == AttackRangeX
      ensures facing >= 0 ==> r.left == body.x + body.w * 0.5
      ensures facing < 0 ==> r.right == body.x + body.w * 0.5
    {
      var torsoTop := body.y + body.h * 0.20;
      var torsoBot := body.y + body.h * 0.75;
      var insetY := MinR(AttackRangeY, torsoBot - torsoTop);
      var top := (torsoTop + torsoBot - insetY) * 0.5;
      var cx := body.x + body.w * 0.5;
      if facing >= 0 then RectF(cx, top, cx + AttackRangeX, top + insetY)
      else RectF(cx - AttackRangeX, top, cx, top + insetY)
    }

    /**
     * `checkMeleeHit`: a live swing that has reached the strip's last frame and has
     * not yet landed hits the player if the melee box overlaps the player's body,
     * and then cannot land again until the next swing.
     */
    method CheckMeleeHit(player: P.Player)
      requires Valid() && player.Valid()
      modifies this, player
      ensures Valid() && player.Valid()
      ensures var lands := old(alive) && old(IsAttacking()) && !old(hasHitPlayer) &&
        old(frame) >= strips.attack.frames - 1 && Overlap(MeleeHitbox(), player.body.Bounds());
        State() == old(State()).(hasHitPlayer := old(hasHitPlayer) || lands) &&
        (lands ==> player.hp == Max(old(player.hp) - 1, 0)) &&
        (!lands ==> player.hp == old(player.hp))
    {
      if !alive || !IsAttacking() || hasHitPlayer {
        return;
      }
      if frame < strips.attack.frames - 1 {
        return;
      }
      if Overlap(MeleeHitbox(), player.body.Bounds()) {
        hasHitPlayer := true;
        player.Hit();
      }
    }

    /**
     * `updateAiAndAnim`: nothing once gone. Otherwise count the cooldown and the
     * invulnerability down, turn to the player, swing if the player is in reach,
     * steer, then step the animation. `attacked` is the swing's announcement, made at
     * most once per swing: only a swing started in this very update re-arms it.
     */
    method Update(playerX: real, playerY: real, onGround: bool) returns (attacked: bool)
      requires Valid()
      modifies this, body
      ensures Valid()
      ensures old(deadAndGone) ==> !attacked && State() == old(State()) && body.vx == old(body.vx)
      ensures !old(deadAndGone) ==>
        var dx := playerX - (body.x + body.w * 0.3);
        var starts := old(alive) && old(attackCd) <= 1 && old(attackingTicks) <= 0 &&
          InReach(dx, playerY - (body.y + body.h * 0.55), body.w, body.h, S.Face(old(facing), dx));
        invulTicks == Max(old(invulTicks) - 1, 0) &&
        attackCd == (if starts then AttackCooldown else Max(old(attackCd) - 1, 0)) &&
        hasHitPlayer == (old(hasHitPlayer) && !starts) &&
        body.vx == S.Steer(Tune, old(body.vx), dx, dying, old(anim) == Hurt && !starts, starts || old(attackingTicks) > 0) &&
        (attacked ==> attackedThisAnim && (starts || !old(attackedThisAnim)))
      ensures !old(deadAndGone) ==>
        var dx := playerX - (body.x + body.w * 0.3);
        var starts := old(alive) && old(attackCd) <= 1 && old(attackingTicks) <= 0 &&
          InReach(dx, playerY - (body.y + body.h * 0.55), body.w, body.h, S.Face(old(facing), dx));
        var thought := Thought(old(State()), strips, dx, playerY - (body.y + body.h * 0.55), body.w, body.h,
          playerX > body.x + body.w * 0.5);
        var a := Animated(thought, strips, AbsR(body.vx) > StillSpeed || !onGround);
        var r := Settled(a, strips, body.vx);
        State() == r.0 && attacked == r.1 &&
        (attacked <==>
          !old(dying) && (starts || (old(anim) != Hurt && old(attackingTicks) > 0 && !old(attackedThisAnim))) &&
          a.frame >= strips.FireFrame())
      ensures AbsR(old(body.vx)) <= MaxSpeed ==> AbsR(body.vx) <= MaxSpeed
      ensures !old(deadAndGone) && dying ==> anim == Death
      ensures deadAndGone ==> old(deadAndGone) || (anim == Death && frame == strips.death.frames - 1)
      ensures hp == old(hp) && dying == old(dying) && alive == old(alive)
      ensures body.x == old(body.x) && body.y == old(body.y) && body.vy == old(body.vy)
    {
      if deadAndGone {
        return false;
      }
      Think(playerX, playerY);
      ghost var thought := State();
      attacked := Advance(onGround);
      assert attackCd == thought.attackCd && invulTicks == thought.invulTicks && hasHitPlayer == thought.hasHitPlayer;
      assert thought.dying == old(dying);
    }

    /** The AI half of an update: count down, turn, swing if the player is in reach, steer. */
    method Think(playerX: real, playerY: real)
      requires Valid()
      modifies this, body
      ensures Valid()
      ensures var dx := playerX - (body.x + body.w * 0.3);
        var starts := old(alive) && old(attackCd) <= 1 && old(attackingTicks) <= 0 &&
          InReach(dx, playerY - (body.y + body.h * 0.55), body.w, body.h, S.Face(old(facing), dx));
        invulTicks == Max(old(invulTicks) - 1, 0) &&
        attackCd == (if starts then AttackCooldown else Max(old(attackCd) - 1, 0)) &&
        hasHitPlayer == (old(hasHitPlayer) && !starts) &&
        attackedThisAnim == (old(attackedThisAnim) && !starts) &&
        body.vx == S.Steer(Tune, old(body.vx), dx, dying, old(anim) == Hurt && !starts, starts || old(attackingTicks) > 0)
      ensures State() == Thought(old(State()), strips, playerX - (body.x + body.w * 0.3), playerY - (body.y + body.h * 0.55),
        body.w, body.h, playerX > body.x + body.w * 0.5)
      ensures AbsR(old(body.vx)) <= MaxSpeed ==> AbsR(body.vx) <= MaxSpeed
      ensures hp == old(hp) && dying == old(dying) && alive == old(alive) && deadAndGone == old(deadAndGone)
      ensures body.x == old(body.x) && body.y == old(body.y) && body.vy == old(body.vy)
    {
      Countdown();
      var dx := playerX - (body.x + body.w * 0.3);
      facing := S.Face(facing, dx);
      if InReach(dx, playerY - (body.y + body.h * 0.55), body.w, body.h, facing) {
        TryAttack(playerX, playerY);
      }
      Steer(dx);
    }

    /** The steering step, given the offset to the player. */
    method Steer(dx: real)
      modifies body
      ensures body.vx == S.Steer(Tune, old(body.vx), dx, dying, anim == Hurt, attackingTicks > 0)
      ensures AbsR(old(body.vx)) <= MaxSpeed ==> AbsR(body.vx) <= MaxSpeed
      ensures body.x == old(body.x) && body.y == old(body.y) && body.vy == old(body.vy)
    {
      if AbsR(body.vx) <= MaxSpeed {
        S.SteerBounded(Tune, body.vx, dx, dying, anim == Hurt, attackingTicks > 0);
      }
      body.vx := S.Steer(Tune, body.vx, dx, dying, anim == Hurt, attackingTicks > 0);
    }

    /** The animation half of an update: pick and advance the clip, then settle it. */
    method Advance(onGround: bool) returns (attacked: bool)
      requires Valid()
      modifies this
      ensures Valid()
      ensures var a := Animated(old(State()), strips, AbsR(body.vx) > StillSpeed || !onGround);
        var r := Settled(a, strips, body.vx);
        State() == r.0 && attacked == r.1 &&
        (attacked <==>
          !old(dying) && old(anim) != Hurt && old(attackingTicks) > 0 && !old(attackedThisAnim) &&
          a.frame >= strips.FireFrame())
      ensures attacked ==> attackedThisAnim && !old(attackedThisAnim)
      ensures dying ==> anim == Death
      ensures deadAndGone ==> old(deadAndGone) || (anim == Death && frame == strips.death.frames - 1)
      ensures State() == old(State()).(attackingTicks := attackingTicks, attackedThisAnim := attackedThisAnim,
        deadAndGone := deadAndGone, anim := anim, frame := frame, tick := tick)
    {
      Animate(onGround);
      attacked := Settle();
    }

    /** The cooldown and the invulnerability count down to zero. */
    method Countdown()
      requires Valid()
      modifies this
      ensures Valid()
      ensures State() == old(State()).(attackCd := Max(old(attackCd) - 1, 0), invulTicks := Max(old(invulTicks) - 1, 0))
    {
      if attackCd > 0 {
        attackCd := attackCd - 1;
      }
      if invulTicks > 0 {
        invulTicks := invulTicks - 1;
      }
    }

    /**
     * Picks the clip by priority (death, an unfinished hurt, the swing, walk, idle),
     * restarts it when it changes and advances it one tick.
     */
    method Animate(onGround: bool)
      requires Valid()
      modifies this`anim, this`frame, this`tick
      ensures Valid()
      ensures State() == Animated(old(State()), strips, AbsR(body.vx) > StillSpeed || !onGround)
    {
      var next := Choose(dying, anim, attackingTicks, AbsR(body.vx) > StillSpeed || !onGround);
      if next != anim {
        anim, frame, tick := next, 0, 0;
      }
      A.ShowsNext(strips.Of(anim), frame, tick);
      frame := A.NextFrame(strips.Of(anim), frame, tick);
      tick := tick + 1;
    }

    /**
     * The clip-specific end of an update. A swing counts its timer down, announces
     * itself once on reaching the fire frame, and hands over to walk or idle once the
     * timer is out and the last frame shows; a hurt clip hands over on its last frame;
     * the death clip on its last frame marks the skeleton gone.
     */
    method Settle() returns (attacked: bool)
      requires Valid()
      modifies this
      ensures Valid()
      ensures var r := Settled(old(State()), strips, body.vx);
        State() == r.0 && attacked == r.1
    {
      match anim {
        case Attack => attacked := SettleAttack();
        case Hurt => attacked := false; SettleHurt();
        case Death => attacked := false; SettleDeath();
        case _ => attacked := false;
      }
    }

    /** The end of a swing's update: timer, one announcement at the fire frame, hand-over when done. */
    method SettleAttack() returns (attacked: bool)
      requires Valid() && anim == Attack
      modifies this
      ensures Valid()
      ensures var s := old(State());
        var t := Max(s.attackingTicks - 1, 0);
        var s1 := s.(attackingTicks := t, attackedThisAnim := s.attackedThisAnim || attacked);
        (attacked <==> !s.attackedThisAnim && s.frame >= strips.FireFrame()) &&
        State() == if t == 0 && s.frame >= strips.attack.frames - 1 then s1.(anim := Rest(body.vx), frame := 0, tick := 0) else s1
    {
      attackingTicks := Max(attackingTicks - 1, 0);
      attacked := Announce();
      if attackingTicks == 0 && frame >= strips.attack.frames - 1 {
        Recover();
      }
    }

    /** The swing's announcement: once per swing, on reaching the fire frame. */
    method Announce() returns (attacked: bool)
      requires Valid()
      modifies this
      ensures Valid()
      ensures attacked <==> !old(attackedThisAnim) && frame >= strips.FireFrame()
      ensures attackedThisAnim == (old(attackedThisAnim) || attacked)
      ensures hp == old(hp) && alive == old(alive) && dying == old(dying) && deadAndGone == old(deadAndGone)
      ensures invulTicks == old(invulTicks) && facing == old(facing) && attackCd == old(attackCd)
      ensures attackingTicks == old(attackingTicks) && anim == old(anim) && frame == old(frame) && tick == old(tick)
      ensures hasHitPlayer == old(hasHitPlayer)
    {
      attacked := !attackedThisAnim && frame >= strips.FireFrame();
      attackedThisAnim := attackedThisAnim || attacked;
    }

    /** A finished swing or hurt clip hands over to walk or idle from its start. */
    method Recover()
      requires Valid()
      modifies this
      ensures Valid()
      ensures anim == Rest(body.vx) && frame == 0 && tick == 0
      ensures hp == old(hp) && alive == old(alive) && dying == old(dying) && deadAndGone == old(deadAndGone)
      ensures invulTicks == old(invulTicks) && facing == old(facing) && attackCd == old(attackCd)
      ensures attackingTicks == old(attackingTicks) && attackedThisAnim == old(attackedThisAnim)
      ensures hasHitPlayer == old(hasHitPlayer)
    {
      anim, frame, tick := Rest(body.vx), 0, 0;
    }

    /** The end of a hurt clip's update: hand-over on the last frame. */
    method SettleHurt()
      requires Valid() && anim == Hurt
      modifies this
      ensures Valid()
      ensures var s := old(State());
        State() == if s.frame >= strips.hurt.frames - 1 then s.(anim := Rest(body.vx), frame := 0, tick := 0) else s
    {
      if frame >= strips.hurt.frames - 1 {
        Recover();
      }
    }

    /** The end of the death clip's update: gone once the last frame shows. */
    method SettleDeath()
      requires Valid() && anim == Death
      modifies this
      ensures Valid()
      ensures var s := old(State());
        State() == s.(deadAndGone := s.deadAndGone || s.frame >= strips.death.frames - 1)
    {
      deadAndGone := deadAndGone || frame >= strips.death.frames - 1;
    }
  }
}
