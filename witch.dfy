/**
 * `Witch`: a ranged enemy. It turns towards the player and chases to a longer
 * stand-off distance; a cast, started from outside, plays the cast clip and throws
 * one fireball at the point the player was at when the cast began. Hits cancel a
 * cast, wound the witch (with a short invulnerability) or start its death
 * animation; when that animation shows its last frame the witch is gone.
 */
module Witch {
  import opened Numerics
  import opened Geometry
  import opened Wrappers
  import A = Animation
  import PB = PhysicsBody
  import S = Steering
  import C = Constants

  const MaxHp: int := 5
  /** Five seconds at 60 updates a second. */
  const FireCooldown: int := 300
  /** The cast frame on which the fireball leaves (clamped into the strip). */
  const CastFireFrame: int := 8
  const HurtIframes: int := 10
  const FireballSpeed: real := 5.6
  const MaxSpeed: real := 1.9
  const Accel: real := 0.12
  const Friction: real := 0.7
  const StandOff: real := 260.0
  const TriggerRange: real := 680.0
  /** Speeds above this count as moving. */
  const StillSpeed: real := 0.05

  /** The witch's chase: stand off at 260 px, top speed 1.9, within 680 px. */
  const Tune: S.Tuning := S.Tuning(StandOff, MaxSpeed, Accel, Friction, TriggerRange)

  datatype Anim = Idle | Walk | Cast | Hurt | Death

  /** Strip timing: idle loops every 13 ticks, walk every 11; cast (7), hurt (20) and death (9) play once. */
  datatype Strips = Strips(idle: A.Clip, walk: A.Clip, cast: A.Clip, hurt: A.Clip, death: A.Clip) {
    predicate Loaded()
    {
      idle.Valid() && walk.Valid() && cast.Valid() && hurt.Valid() && death.Valid() &&
      idle.speed == 13 && idle.loop && walk.speed == 11 && walk.loop &&
      cast.speed == 7 && !cast.loop && hurt.speed == 20 && !hurt.loop &&
      death.speed == 9 && !death.loop
    }

    function Of(a: Anim): A.Clip
    {
      match a
      case Idle => idle
      case Walk => walk
      case Cast => cast
      case Hurt => hurt
      case Death => death
    }

    /** The frame that releases the fireball: 8, or the last frame of a shorter strip. */
    function FireFrame(): (f: int)
      requires Loaded()
      ensures 0 <= f < cast.frames
      ensures f == CastFireFrame || f == cast.frames - 1
    {
      CoerceIn(CastFireFrame, 0, cast.frames - 1)
    }
  }

  /** What `hit` reports to its listeners. */
  datatype HitOutcome = Ignored | Wounded | Killed

  /**
   * A thrown fireball: it leaves from `(x, y)` at `FireballSpeed` towards the
   * aim point `(targetX, targetY)`.
   */
  datatype Throw = Throw(x: real, y: real, targetX: real, targetY: real)

  /** The clip picked before advancing: death, then an unfinished hurt, then the cast, then walk or idle. */
  function Choose(dying: bool, anim: Anim, castingTicks: int, moving: bool): Anim
  {
    if dying then Death
    else if anim == Hurt then Hurt
    else if castingTicks > 0 then Cast
    else if moving then Walk
    else Idle
  }

  /** Where a finished cast or hurt returns to. */
  function Rest(vx: real): Anim
  {
    if AbsR(vx) > StillSpeed then Walk else Idle
  }

  /** The witch's own fields, as one value. */
  datatype Fields = Fields(
    hp: int, alive: bool,
    fireCd: nat, castingTicks: nat, firedThisCast: bool,
    pending: bool, targetX: real, targetY: real,
    dying: bool, deadAndGone: bool, invulTicks: nat,
    anim: Anim, frame: int, tick: nat, facing: S.Dir)

  /**
   * The pose after one tick's clip choice and advance: death, an unfinished hurt,
   * the cast, walk, idle, in that order; a new clip starts over on its first tick,
   * the same clip plays on, and the frame is always the one the clip shows.
   */
  function Animated(s: Fields, strips: Strips, moving: bool): (r: Fields)
    requires strips.Loaded() && A.Shows(strips.Of(s.anim), s.frame, s.tick)
    ensures r.anim == Death <==> s.dying
    ensures r.anim == Hurt <==> !s.dying && s.anim == Hurt
    ensures r.anim == Cast <==> !s.dying && s.anim != Hurt && s.castingTicks > 0
    ensures r.anim == Walk <==> !s.dying && s.anim != Hurt && s.castingTicks <= 0 && moving
    ensures r.tick == if r.anim != s.anim then 1 else s.tick + 1
    ensures A.Shows(strips.Of(r.anim), r.frame, r.tick)
  {
    var next := Choose(s.dying, s.anim, s.castingTicks, moving);
    var f0 := if next != s.anim then 0 else s.frame;
    var t0 := if next != s.anim then 0 else s.tick;
    A.ShowsNext(strips.Of(next), f0, t0);
    s.(anim := next, frame := A.NextFrame(strips.Of(next), f0, t0), tick := t0 + 1)
  }

  /**
   * The clip-specific end of a tick, and whether a fireball leaves. A cast counts
   * its timer down, throws on first reaching the fire frame if it still holds the
   * caller's list (the throw is spent either way), and hands over to walk or idle
   * once the timer is out on its last frame; a hurt clip hands over on its last
   * frame; the death clip's last frame marks the witch gone.
   */
  function Settled(s: Fields, strips: Strips, vx: real): (r: (Fields, bool))
    requires strips.Loaded()
    ensures r.1 <==> s.anim == Cast && s.pending && !s.firedThisCast && s.frame >= strips.FireFrame()
    ensures r.0.firedThisCast <==> s.firedThisCast || (s.anim == Cast && s.frame >= strips.FireFrame())
    ensures r.0.pending <==> s.pending && !(s.anim == Cast && !s.firedThisCast && s.frame >= strips.FireFrame())
    ensures r.0.castingTicks == if s.anim == Cast then Max(s.castingTicks - 1, 0) else s.castingTicks
    ensures r.0.deadAndGone <==> s.deadAndGone || (s.anim == Death && s.frame >= strips.death.frames - 1)
    ensures r.0.anim != s.anim ==> (s.anim == Cast || s.anim == Hurt) && r.0.anim == Rest(vx) && r.0.frame == 0 && r.0.tick == 0
  {
    if s.anim == Cast then
      var t := Max(s.castingTicks - 1, 0);
      var fire := !s.firedThisCast && s.frame >= strips.FireFrame();
      var s1 := s.(castingTicks := t, firedThisCast := s.firedThisCast || fire, pending := s.pending && !fire);
      (if t == 0 && s.frame >= strips.cast.frames - 1 then s1.(anim := Rest(vx), frame := 0, tick := 0) else s1, fire && s.pending)
    else if s.anim == Hurt then
      (if s.frame >= strips.hurt.frames - 1 then s.(anim := Rest(vx), frame := 0, tick := 0) else s, false)
    else if s.anim == Death then
      (s.(deadAndGone := s.deadAndGone || s.frame >= strips.death.frames - 1), false)
    else
      (s, false)
  }

  class Witch {
    const body: PB.Body
    const strips: Strips
    var hp: int
    /** Public; nothing in this class clears it. */
    var alive: bool
    var fireCd: nat
    var castingTicks: nat
    var firedThisCast: bool
    /** Whether a cast still holds the caller's projectile list (`pendingOut != null`). */
    var pending: bool
    var targetX: real
    var targetY: real
    var dying: bool
    var deadAndGone: bool
    var invulTicks: nat
    var anim: Anim
    var frame: int
    var tick: nat
    var facing: S.Dir

    function State(): Fields
      reads this
    {
      Fields(hp, alive, fireCd, castingTicks, firedThisCast, pending, targetX, targetY,
        dying, deadAndGone, invulTicks, anim, frame, tick, facing)
    }

    /**
     * The frame is what the current clip shows; the death animation plays only for
     * a dying witch, one with no hit points left, and only such a witch can be gone.
     */
    ghost predicate Valid()
      reads this
    {
      strips.Loaded() && A.Shows(strips.Of(anim), frame, tick) &&
      (dying ==> hp <= 0) && (deadAndGone ==> dying) && (anim == Death ==> dying)
    }

    /**
     * A witch at `(px, py)`, 5.5 tiles tall; its width is 0.7 of the height scaled
     * by the aspect ratio of the first idle frame's trim. It starts idle, facing
     * right, with 5 hit points.
     */
    constructor(px: real, py: real, idleFrames: int, walkFrames: int, castFrames: int, hurtFrames: int,
      deathFrames: int, firstTrim: Rect)
      requires idleFrames >= 1 && walkFrames >= 1 && castFrames >= 1 && hurtFrames >= 1 && deathFrames >= 1
      requires firstTrim.Height() > 0
      ensures fresh(body)
      ensures body.x == px && body.y == py && body.vx == 0.0 && body.vy == 0.0
      ensures body.h == 5.5 * C.Tile as real
      ensures body.w == body.h * (firstTrim.Width() as real / firstTrim.Height() as real) * 0.7
      ensures strips == Strips(A.Clip(idleFrames, 13, true), A.Clip(walkFrames, 11, true),
        A.Clip(castFrames, 7, false), A.Clip(hurtFrames, 20, false), A.Clip(deathFrames, 9, false))
      ensures State() == Fields(MaxHp, true, 0, 0, false, false, 0.0, 0.0, false, false, 0, Idle, 0, 0, 1)
      ensures Valid()
    {
      var h := 5.5 * C.Tile as real;
      body := new PB.Body(px, py, h * (firstTrim.Width() as real / firstTrim.Height() as real) * 0.7, h);
      strips := Strips(A.Clip(idleFrames, 13, true), A.Clip(walkFrames, 11, true),
        A.Clip(castFrames, 7, false), A.Clip(hurtFrames, 20, false), A.Clip(deathFrames, 9, false));
      hp, alive := MaxHp, true;
      fireCd, castingTicks, firedThisCast := 0, 0, false;
      pending, targetX, targetY := false, 0.0, 0.0;
      dying, deadAndGone, invulTicks := false, false, 0;
      anim, frame, tick, facing := Idle, 0, 0, 1;
    }

    predicate IsDeadAndGone()
      reads this
    {
      deadAndGone
    }

    /** `tryShoot` with bullets: a witch only throws fireballs, so this does nothing. */
    method TryShoot(px: real, py: real)
      ensures unchanged(this) && unchanged(body)
    {
    }

    /**
     * `tryShootFireball`: refused unless alive, off cooldown and not already casting.
     * A cast restarts the cast clip, runs for the strip's length, starts the
     * 300-tick cooldown, re-arms the throw and keeps the caller's list and the aim
     * point given now; nothing else changes.
     */
    method TryShootFireball(px: real, py: real)
      requires Valid()
      modifies this
      ensures Valid()
      ensures old(alive && fireCd <= 0 && castingTicks <= 0) ==>
        anim == Cast && frame == 0 && tick == 0 &&
        castingTicks == strips.cast.Duration() && fireCd == FireCooldown &&
        !firedThisCast && pending && targetX == px && targetY == py
      ensures !old(alive && fireCd <= 0 && castingTicks <= 0) ==> unchanged(this)
      ensures hp == old(hp) && alive == old(alive) && dying == old(dying)
      ensures deadAndGone == old(deadAndGone) && invulTicks == old(invulTicks) && facing == old(facing)
    {
      if !alive {
        return;
      }
      if fireCd > 0 || castingTicks > 0 {
        return;
      }
      StartCast();
      Aim(px, py);
    }

    /** The clip half of a new cast: the cast clip from its start, its timer and the cooldown. */
    method StartCast()
      requires Valid()
      modifies this
      ensures Valid()
      ensures anim == Cast && frame == 0 && tick == 0
      ensures castingTicks == strips.cast.Duration() && fireCd == FireCooldown
      ensures hp == old(hp) && alive == old(alive) && dying == old(dying) && deadAndGone == old(deadAndGone)
      ensures invulTicks == old(invulTicks) && facing == old(facing) && firedThisCast == old(firedThisCast)
      ensures pending == old(pending) && targetX == old(targetX) && targetY == old(targetY)
    {
      anim := Cast;
      frame, tick := 0, 0;
      castingTicks := strips.cast.Duration();
      fireCd := FireCooldown;
    }

    /** The throw half of a new cast: re-armed, holding the caller's list, aimed at `(px, py)`. */
    method Aim(px: real, py: real)
      requires Valid()
      modifies this
      ensures Valid()
      ensures !firedThisCast && pending && targetX == px && targetY == py
      ensures hp == old(hp) && alive == old(alive) && dying == old(dying) && deadAndGone == old(deadAndGone)
      ensures invulTicks == old(invulTicks) && facing == old(facing) && fireCd == old(fireCd)
      ensures castingTicks == old(castingTicks) && anim == old(anim) && frame == old(frame) && tick == old(tick)
    {
      firedThisCast := false;
      pending, targetX, targetY := true, px, py;
    }

    /**
     * `hit`: ignored once gone, while dying or while invulnerable. Otherwise one
     * point of damage that cancels the cast for good (the caller's list is dropped
     * and the throw counts as done); at zero or below the witch starts dying (death
     * clip from its first frame, stopped) and reports `Killed`, else it reports
     * `Wounded`, becomes invulnerable for 10 ticks and plays the hurt clip.
     */
    method Hit() returns (outcome: HitOutcome)
      requires Valid()
      modifies this, body
      ensures Valid()
      ensures var s := old(State());
        if s.deadAndGone || s.dying || s.invulTicks > 0 then
          outcome == Ignored && State() == s && body.vx == old(body.vx) && body.vy == old(body.vy)
        else if s.hp <= 1 then
          outcome == Killed && body.vx == 0.0 && body.vy == 0.0 &&
          State() == s.(hp := s.hp - 1, castingTicks := 0, pending := false, firedThisCast := true,
            dying := true, anim := Death, frame := 0, tick := 0)
        else
          outcome == Wounded && body.vx == old(body.vx) && body.vy == old(body.vy) &&
          State() == s.(hp := s.hp - 1, castingTicks := 0, pending := false, firedThisCast := true,
            invulTicks := HurtIframes, anim := Hurt, frame := 0, tick := 0)
      ensures outcome == Killed <==> !old(dying) && dying
      ensures body.x == old(body.x) && body.y == old(body.y)
    {
      if deadAndGone || dying {
        return Ignored;
      }
      if invulTicks > 0 {
        return Ignored;
      }
      Damage();
      if hp <= 0 {
        Die();
        return Killed;
      }
      Wound();
      return Wounded;
    }

    /** The part of an accepted hit that does not depend on the outcome: one point goes and the cast is cancelled for good. */
    method Damage()
      requires Valid() && !dying
      modifies this
      ensures Valid()
      ensures hp == old(hp) - 1 && castingTicks == 0 && !pending && firedThisCast
      ensures alive == old(alive) && fireCd == old(fireCd) && targetX == old(targetX) && targetY == old(targetY)
      ensures dying == old(dying) && deadAndGone == old(deadAndGone) && invulTicks == old(invulTicks)
      ensures anim == old(anim) && frame == old(frame) && tick == old(tick) && facing == old(facing)
    {
      hp, castingTicks, pending, firedThisCast := hp - 1, 0, false, true;
    }

    /** A lethal hit: the death clip starts with the body stopped. */
    method Die()
      requires Valid() && hp <= 0
      modifies this, body
      ensures Valid()
      ensures dying && anim == Death && frame == 0 && tick == 0
      ensures hp == old(hp) && castingTicks == old(castingTicks) && pending == old(pending)
      ensures firedThisCast == old(firedThisCast) && alive == old(alive) && fireCd == old(fireCd)
      ensures targetX == old(targetX) && targetY == old(targetY)
      ensures deadAndGone == old(deadAndGone) && invulTicks == old(invulTicks) && facing == old(facing)
      ensures body.vx == 0.0 && body.vy == 0.0 && body.x == old(body.x) && body.y == old(body.y)
    {
      dying, anim, frame, tick := true, Death, 0, 0;
      body.vx, body.vy := 0.0, 0.0;
    }

    /** A survivable hit: the hurt clip starts with 10 ticks of invulnerability. */
    method Wound()
      requires Valid() && !dying
      modifies this
      ensures Valid()
      ensures invulTicks == HurtIframes && anim == Hurt && frame == 0 && tick == 0
      ensures hp == old(hp) && castingTicks == old(castingTicks) && pending == old(pending)
      ensures firedThisCast == old(firedThisCast) && alive == old(alive) && fireCd == old(fireCd)
      ensures targetX == old(targetX) && targetY == old(targetY)
      ensures dying == old(dying) && deadAndGone == old(deadAndGone) && facing == old(facing)
    {
      invulTicks, anim, frame, tick := HurtIframes, Hurt, 0, 0;
    }

    /**
     * `updateAiAndAnim`: nothing once gone. Otherwise count the cooldown and the
     * invulnerability down, turn to the player, steer, then step the animation. A
     * fireball is thrown at most once per cast, only while the cast still holds the
     * caller's list, and at the aim point stored when the cast began.
     */
    method Update(playerX: real, playerY: real, onGround: bool) returns (thrown: Option<Throw>)
      requires Valid()
      modifies this, body
      ensures Valid()
      ensures old(deadAndGone) ==> thrown.None? && unchanged(this) && unchanged(body)
      ensures !old(deadAndGone) ==>
        var dx := playerX - (body.x + body.w * 0.5);
        fireCd == Max(old(fireCd) - 1, 0) && invulTicks == Max(old(invulTicks) - 1, 0) &&
        body.vx == S.Steer(Tune, old(body.vx), dx, dying, old(anim) == Hurt, old(castingTicks) > 0)
      ensures !old(deadAndGone) ==>
        var dx := playerX - (body.x + body.w * 0.5);
        var thought := old(State()).(fireCd := Max(old(fireCd) - 1, 0), invulTicks := Max(old(invulTicks) - 1, 0),
          facing := S.Face(old(facing), dx));
        var a := Animated(thought, strips, AbsR(body.vx) > StillSpeed || !onGround);
        var r := Settled(a, strips, body.vx);
        State() == r.0 && (thrown.Some? <==> r.1) &&
        (thrown.Some? <==>
          !old(dying) && old(anim) != Hurt && old(castingTicks) > 0 &&
          old(pending) && !old(firedThisCast) && a.frame >= strips.FireFrame())
      ensures AbsR(old(body.vx)) <= MaxSpeed ==> AbsR(body.vx) <= MaxSpeed
      ensures thrown.Some? ==> old(pending) && !pending && firedThisCast
      ensures thrown.Some? ==> thrown.value == Throw(body.x + body.w * 0.5, body.y + body.h * 0.1, old(targetX), old(targetY))
      ensures !old(deadAndGone) && dying ==> anim == Death
      ensures deadAndGone ==> old(deadAndGone) || (anim == Death && frame == strips.death.frames - 1)
      ensures hp == old(hp) && dying == old(dying) && alive == old(alive)
      ensures targetX == old(targetX) && targetY == old(targetY)
      ensures body.x == old(body.x) && body.y == old(body.y) && body.vy == old(body.vy)
    {
      if deadAndGone {
        return None;
      }
      Think(playerX);
      thrown := Advance(onGround);
    }

    /** The AI half of an update: count down, turn, steer. */
    method Think(playerX: real)
      requires Valid()
      modifies this, body
      ensures Valid()
      ensures var dx := playerX - (body.x + body.w * 0.5);
        facing == S.Face(old(facing), dx) &&
        body.vx == S.Steer(Tune, old(body.vx), dx, dying, anim == Hurt, castingTicks > 0)
      ensures AbsR(old(body.vx)) <= MaxSpeed ==> AbsR(body.vx) <= MaxSpeed
      ensures State() == old(State()).(fireCd := Max(old(fireCd) - 1, 0), invulTicks := Max(old(invulTicks) - 1, 0),
        facing := facing)
      ensures body.x == old(body.x) && body.y == old(body.y) && body.vy == old(body.vy)
    {
      fireCd := Max(fireCd - 1, 0);
      invulTicks := Max(invulTicks - 1, 0);
      var dx := playerX - (body.x + body.w * 0.5);
      facing := S.Face(facing, dx);
      Steer(dx);
    }

    /** The steering step, given the offset to the player. */
    method Steer(dx: real)
      modifies body
      ensures body.vx == S.Steer(Tune, old(body.vx), dx, dying, anim == Hurt, castingTicks > 0)
      ensures AbsR(old(body.vx)) <= MaxSpeed ==> AbsR(body.vx) <= MaxSpeed
      ensures body.x == old(body.x) && body.y == old(body.y) && body.vy == old(body.vy)
    {
      if AbsR(body.vx) <= MaxSpeed {
        S.SteerBounded(Tune, body.vx, dx, dying, anim == Hurt, castingTicks > 0);
      }
      body.vx := S.Steer(Tune, body.vx, dx, dying, anim == Hurt, castingTicks > 0);
    }

    /** The animation half of an update: pick and advance the clip, then settle it. */
    method Advance(onGround: bool) returns (thrown: Option<Throw>)
      requires Valid()
      modifies this
      ensures Valid()
      ensures var a := Animated(old(State()), strips, AbsR(body.vx) > StillSpeed || !onGround);
        var r := Settled(a, strips, body.vx);
        State() == r.0 && (thrown.Some? <==> r.1) &&
        (thrown.Some? <==>
          !old(dying) && old(anim) != Hurt && old(castingTicks) > 0 &&
          old(pending) && !old(firedThisCast) && a.frame >= strips.FireFrame())
      ensures thrown.Some? ==> old(pending) && !pending && firedThisCast
      ensures thrown.Some? ==> thrown.value == Throw(body.x + body.w * 0.5, body.y + body.h * 0.1, targetX, targetY)
      ensures dying ==> anim == Death
      ensures deadAndGone ==> old(deadAndGone) || (anim == Death && frame == strips.death.frames - 1)
      ensures State() == old(State()).(castingTicks := castingTicks, firedThisCast := firedThisCast, pending := pending,
        deadAndGone := deadAndGone, anim := anim, frame := frame, tick := tick)
    {
      Animate(onGround);
      thrown := Settle();
    }

    /**
     * Picks the clip by priority (death, an unfinished hurt, the cast, walk, idle),
     * restarts it when it changes and advances it one tick.
     */
    method Animate(onGround: bool)
      requires Valid()
      modifies this`anim, this`frame, this`tick
      ensures Valid()
      ensures State() == Animated(old(State()), strips, AbsR(body.vx) > StillSpeed || !onGround)
    {
      var next := Choose(dying, anim, castingTicks, AbsR(body.vx) > StillSpeed || !onGround);
      if next != anim {
        anim, frame, tick := next, 0, 0;
      }
      A.ShowsNext(strips.Of(anim), frame, tick);
      frame := A.NextFrame(strips.Of(anim), frame, tick);
      tick := tick + 1;
    }

    /**
     * The clip-specific end of an update. A cast counts its timer down, throws once
     * on reaching the fire frame (only if it still holds the caller's list), and
     * hands over to walk or idle once the timer is out and the last frame shows; a
     * hurt clip hands over on its last frame; the death clip on its last frame marks
     * the witch gone.
     */
    method Settle() returns (thrown: Option<Throw>)
      requires Valid()
      modifies this
      ensures Valid()
      ensures var r := Settled(old(State()), strips, body.vx);
        State() == r.0 && (thrown.Some? <==> r.1)
      ensures thrown.Some? ==> thrown.value == Throw(body.x + body.w * 0.5, body.y + body.h * 0.1, targetX, targetY)
    {
      match anim {
        case Cast => thrown := SettleCast();
        case Hurt => thrown := None; SettleHurt();
        case Death => thrown := None; SettleDeath();
        case _ => thrown := None;
      }
    }

    /** The end of a cast's update: timer, one throw at the fire frame, hand-over when done. */
    method SettleCast() returns (thrown: Option<Throw>)
      requires Valid() && anim == Cast
      modifies this
      ensures Valid()
      ensures var s := old(State());
        var t := Max(s.castingTicks - 1, 0);
        var fire := !s.firedThisCast && s.frame >= strips.FireFrame();
        var s1 := s.(castingTicks := t, firedThisCast := s.firedThisCast || fire, pending := s.pending && !fire);
        (thrown.Some? <==> fire && s.pending) &&
        State() == if t == 0 && s.frame >= strips.cast.frames - 1 then s1.(anim := Rest(body.vx), frame := 0, tick := 0) else s1
      ensures thrown.Some? ==> thrown.value == Throw(body.x + body.w * 0.5, body.y + body.h * 0.1, targetX, targetY)
    {
      castingTicks := Max(castingTicks - 1, 0);
      thrown := Release();
      if castingTicks == 0 && frame >= strips.cast.frames - 1 {
        Recover();
      }
    }

    /** The throw: once per cast, on reaching the fire frame, and only while the cast holds the caller's list. */
    method Release() returns (thrown: Option<Throw>)
      requires Valid()
      modifies this
      ensures Valid()
      ensures var fire := !old(firedThisCast) && frame >= strips.FireFrame();
        (thrown.Some? <==> fire && old(pending)) &&
        firedThisCast == (old(firedThisCast) || fire) && pending == (old(pending) && !fire)
      ensures thrown.Some? ==> thrown.value == Throw(body.x + body.w * 0.5, body.y + body.h * 0.1, targetX, targetY)
      ensures hp == old(hp) && alive == old(alive) && dying == old(dying) && deadAndGone == old(deadAndGone)
      ensures invulTicks == old(invulTicks) && facing == old(facing) && fireCd == old(fireCd)
      ensures castingTicks == old(castingTicks) && anim == old(anim) && frame == old(frame) && tick == old(tick)
      ensures targetX == old(targetX) && targetY == old(targetY)
    {
      thrown := None;
      if !firedThisCast && frame >= strips.FireFrame() {
        if pending {
          thrown := Some(Throw(body.x + body.w * 0.5, body.y + body.h * 0.1, targetX, targetY));
        }
        firedThisCast, pending := true, false;
      }
    }

    /** A finished cast or hurt clip hands over to walk or idle from its start. */
    method Recover()
      requires Valid()
      modifies this
      ensures Valid()
      ensures anim == Rest(body.vx) && frame == 0 && tick == 0
      ensures hp == old(hp) && alive == old(alive) && dying == old(dying) && deadAndGone == old(deadAndGone)
      ensures invulTicks == old(invulTicks) && facing == old(facing) && fireCd == old(fireCd)
      ensures castingTicks == old(castingTicks) && firedThisCast == old(firedThisCast) && pending == old(pending)
      ensures targetX == old(targetX) && targetY == old(targetY)
    {
      anim, frame, tick := Rest(body.vx), 0, 0;
    }

    /** The end of a hurt clip's update: hand-over on the last frame. */
    method SettleHurt()
      requires Valid() && anim == Hurt
      modifies this
      ensures Valid()
      ensures var s := old(State());
        State() == if s.frame >= strips.hurt.frames - 1 then s.(anim := Rest(body.vx), frame := 0, tick := 0) else s
    {
      if frame >= strips.hurt.frames - 1 {
        Recover();
      }
    }

    /** The end of the death clip's update: gone once the last frame shows. */
    method SettleDeath()
      requires Valid() && anim == Death
      modifies this
      ensures Valid()
      ensures var s := old(State());
        State() == s.(deadAndGone := s.deadAndGone || s.frame >= strips.death.frames - 1)
    {
      deadAndGone := deadAndGone || frame >= strips.death.frames - 1;
    }
  }
}
