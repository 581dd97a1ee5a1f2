/**
 * `Boss`: the golem. Until it is summoned it lies as a rock pile; a summon plays
 * its appearance backwards and hands over to the AI. The AI runs one action at a
 * time (approach and melee strike, a thrown arm, a laser burst, a loitering wait)
 * chosen by weighted draw whenever it is free; armour stacks rise as hit points
 * fall and scale every later hit down by 0.75 per stack; after ten attacks it is
 * forced to rest.
 */
module Boss {
  import opened Numerics
  import opened Geometry
  import W = Wrappers
  import A = Animation
  import PB = PhysicsBody
  import S = Steering
  import C = Constants

  const HpMax: int := 600
  const WalkMax: real := 2.0
  const ChaseMax: real := 3.0
  const Accel: real := 0.12
  const Friction: real := 0.7
  const SightRadius: real := 9999.0
  const RangeRadius: real := 1200.0
  const CdRange: nat := 180
  const CdMelee: nat := 120
  const CdLaser: nat := 360
  const CdArmor: nat := 420
  const ArmorBuffDur: int := 240
  const ImmuneDur: int := 100
  const MeleeDashMax: real := 10.0
  const MeleeDashAccel: real := 0.35
  /** About 1.5 s to line the arm up with the player before the swing is forced. */
  const MeleeApproachTimeout: int := 90
  const ArmAlignTolerance: real := 10.0
  /** The strike deals its damage on this frame of the melee strip. */
  const MeleeHitFrame: int := 6
  const SummonImmuneTicks: int := 60
  const LaserWindup: int := 60
  const LaserBurst: nat := 3
  const LaserFirstDelay: nat := 70
  const LaserInterDelay: nat := 20
  /** While firing, the laser clip loops over its last four frames. */
  const LaserLoopLen: int := 4
  const MeleeWeight: int := 6
  const RangeWeight: int := 5
  const LaserWeight: int := 4
  const IdleWeight: int := 1
  const AttacksBeforeIdle: nat := 10
  const ForcedIdleMin: int := 150
  const ForcedIdleMax: int := 250
  const WaitMin: int := 60
  const WaitMax: int := 120
  const WaitWalkSpeed: real := 1.2
  const ShardSpeed: real := 15.0
  /** `Int.MAX_VALUE`: the range action has no countdown once its arm is out. */
  const IntMax: int := 0x7fff_ffff
  /** Speeds above this count as moving. */
  const StillSpeed: real := 0.05

  datatype Anim = Idle | Glow | Walk | Melee | RangePrepare | RangeLoop | LaserCharge | Armor | Immune | Hurt | Death | Appear

  /** The frame counts of the golem's strips. */
  datatype Counts = Counts(idle: int, glow: int, walk: int, melee: int, range: int, laser: int,
    armor: int, immune: int, hurt: int, death: int, appear: int)
  {
    predicate Positive()
    {
      idle >= 1 && glow >= 1 && walk >= 1 && melee >= 1 && range >= 1 && laser >= 1 &&
      armor >= 1 && immune >= 1 && hurt >= 1 && death >= 1 && appear >= 1
    }
  }

  /**
   * Strip timing. Idle (9 ticks a frame), glow (8), walk (11), armour (7) and
   * immune (9) loop; melee (6), the range strip (7, shared by its prepare and
   * loop phases), laser (5), hurt (14), death (11) and appear (12) play once.
   */
  datatype Strips = Strips(idle: A.Clip, glow: A.Clip, walk: A.Clip, melee: A.Clip, range: A.Clip, laser: A.Clip,
    armor: A.Clip, immune: A.Clip, hurt: A.Clip, death: A.Clip, appear: A.Clip)
  {
    predicate Loaded()
    {
      idle.Valid() && glow.Valid() && walk.Valid() && melee.Valid() && range.Valid() && laser.Valid() &&
      armor.Valid() && immune.Valid() && hurt.Valid() && death.Valid() && appear.Valid() &&
      idle.speed == 9 && idle.loop && glow.speed == 8 && glow.loop && walk.speed == 11 && walk.loop &&
      melee.speed == 6 && !melee.loop && range.speed == 7 && !range.loop && laser.speed == 5 && !laser.loop &&
      armor.speed == 7 && armor.loop && immune.speed == 9 && immune.loop && hurt.speed == 14 && !hurt.loop &&
      death.speed == 11 && !death.loop && appear.speed == 12 && !appear.loop
    }

    function Of(a: Anim): A.Clip
    {
      match a
      case Idle => idle
      case Glow => glow
      case Walk => walk
      case Melee => melee
      case RangePrepare => range
      case RangeLoop => range
      case LaserCharge => laser
      case Armor => armor
      case Immune => immune
      case Hurt => hurt
      case Death => death
      case Appear => appear
    }
  }

  function Timed(n: Counts): (s: Strips)
    requires n.Positive()
    ensures s.Loaded()
    ensures s.idle.frames == n.idle && s.melee.frames == n.melee && s.range.frames == n.range
    ensures s.laser.frames == n.laser && s.death.frames == n.death && s.appear.frames == n.appear
  {
    Strips(A.Clip(n.idle, 9, true), A.Clip(n.glow, 8, true), A.Clip(n.walk, 11, true), A.Clip(n.melee, 6, false),
      A.Clip(n.range, 7, false), A.Clip(n.laser, 5, false), A.Clip(n.armor, 7, true), A.Clip(n.immune, 9, true),
      A.Clip(n.hurt, 14, false), A.Clip(n.death, 11, false), A.Clip(n.appear, 12, false))
  }

  /** The boss's current action; exactly one runs at a time. */
  datatype Act = None | Chase | Melee | Range | Laser | Armor | Immune | Dying | MeleeApproach | Wait

  /** The attacks that count towards the forced rest. */
  predicate Attack(a: Act)
  {
    a == Act.Melee || a == Act.Range || a == Act.Laser
  }

  datatype WaitMode = Idle | Walk
  datatype FrozenPose = Immune | Idle

  /** The four action cooldowns, in ticks. */
  datatype Cooldowns = Cooldowns(range: nat, melee: nat, laser: nat, armor: nat)
  {
    /** One tick of every cooldown that is still running. */
    function Down(): (c: Cooldowns)
      ensures c.range == Max(range - 1, 0) && c.melee == Max(melee - 1, 0)
      ensures c.laser == Max(laser - 1, 0) && c.armor == Max(armor - 1, 0)
    {
      Cooldowns(if range > 0 then range - 1 else 0, if melee > 0 then melee - 1 else 0,
        if laser > 0 then laser - 1 else 0, if armor > 0 then armor - 1 else 0)
    }
  }

  /** The range action: its prepare phase, whether the arm is still to be thrown, and the aim stored at its start. */
  datatype RangeState = RangeState(glow: bool, waiting: bool, targetX: real, targetY: real)

  /**
   * The laser action: the windup, the beams still to fire and the delay before
   * the next, and whether the clip holds its last frames.
   */
  datatype LaserState = LaserState(casting: bool, beamsLeft: nat, nextDelay: nat, hold: bool)

  /** The laser clip's mini-loop: the first frame it cycles from, its index and its own tick counter. */
  datatype MiniLoop = MiniLoop(base: int, idx: nat, tick: nat)

  /**
   * The random draws one update may use. `Random.nextInt(n)` is modelled as the
   * draw modulo `n`, `nextInt(lo, hi + 1)` as `lo` plus the draw modulo the range.
   */
  datatype Rolls = Rolls(pick: nat, coin: nat, waitTicks: nat, waitIdle: bool)

  function Between(d: nat, lo: int, hi: int): (r: int)
    requires lo <= hi
    ensures lo <= r <= hi
  {
    lo + d % (hi - lo + 1)
  }

  /** An arm shard thrown straight ahead: spawn point, horizontal speed and direction. */
  datatype ShardShot = ShardShot(x: real, y: real, vx: real, direction: S.Dir)

  /** A laser bolt from the head towards the player's chest. */
  datatype BoltShot = BoltShot(sx: real, sy: real, tx: real, ty: real)

  /** The listeners the boss calls, and the projectiles it adds to the caller's list, in order. */
  datatype Event =
    | OnDeath | OnHurt | OnLaserStart | OnLaserEnd | OnThrowArm | OnMelee
    | OnArmorStart | OnArmorEnd | OnAppearanceDone | OnDamagePlayer(damage: int)
    | AddShard(shard: ShardShot) | AddBolt(bolt: BoltShot)

  // ---------------------------------------------------------------------------
  // Armour

  /** Armour stacks for a hit-point ratio: one per threshold (75 %, 50 %, 25 %) at or above it. */
  function StacksFor(ratio: real): (s: nat)
    ensures s <= 3
    ensures s >= 1 <==> ratio <= 0.75
    ensures s >= 2 <==> ratio <= 0.5
    ensures s >= 3 <==> ratio <= 0.25
  {
    if ratio <= 0.25 then 3
    else if ratio <= 0.5 then 2
    else if ratio <= 0.75 then 1
    else 0
  }

  /** A lower hit-point ratio never means fewer stacks. */
  lemma StacksMonotone(r1: real, r2: real)
    requires r1 <= r2
    ensures StacksFor(r2) <= StacksFor(r1)
  {
  }

  /** The share of damage that gets through `stacks` armour stacks: 0.75 per stack. */
  function TakenMul(stacks: nat): (m: real)
    ensures 0.0 < m <= 1.0
  {
    Pow(0.75, stacks)
  }

  /** The damage a hit of `raw` deals through `stacks` stacks: scaled, rounded, at least 1. */
  function Taken(raw: int, stacks: nat): (d: int)
    ensures d >= 1
  {
    Max(1, RoundToInt(raw as real * TakenMul(stacks)))
  }

  /** More stacks never let more through. */
  lemma {:induction false} TakenMulFalls(s1: nat, s2: nat)
    requires s1 <= s2
    ensures TakenMul(s2) <= TakenMul(s1)
  {
    if s1 < s2 {
      TakenMulFalls(s1, s2 - 1);
      var p := Pow(0.75, s2 - 1);
      MulLe(0.75, 1.0, p);
    }
  }

  /**
   * Armour only ever softens a hit: an unarmoured hit deals its raw damage (at
   * least 1), and each further stack deals no more than the one before.
   */
  lemma TakenMeaning(raw: int, s1: nat, s2: nat)
    requires raw >= 0 && s1 <= s2
    ensures Taken(raw, 0) == Max(1, raw)
    ensures Taken(raw, s2) <= Taken(raw, s1) <= Max(1, raw)
  {
    assert TakenMul(0) == 1.0;
    TakenMulFalls(s1, s2);
    TakenMulFalls(0, s1);
    var x1 := raw as real * TakenMul(s1);
    var x2 := raw as real * TakenMul(s2);
    assert x2 <= x1 <= raw as real by {
      if raw > 0 {
        MulLe(TakenMul(s2), TakenMul(s1), raw as real);
        MulLe(TakenMul(s1), 1.0, raw as real);
      }
    }
    RoundMono(x2, x1);
    RoundMono(x1, raw as real);
  }

  /** Rounding keeps order. */
  lemma RoundMono(x: real, y: real)
    requires x <= y
    ensures RoundToInt(x) <= RoundToInt(y)
  {
  }

  // ---------------------------------------------------------------------------
  // Weighted action choice

  /** One option of the action choice and its weight. */
  datatype Offer = Offer(act: Act, weight: int)

  /** The sum of the first `n` weights. */
  function Prefix(o: seq<Offer>, n: nat): int
    requires n <= |o|
  {
    if n == 0 then 0 else Prefix(o, n - 1) + o[n - 1].weight
  }

  function Total(o: seq<Offer>): int
  {
    Prefix(o, |o|)
  }

  predicate Offered(o: seq<Offer>, a: Act)
  {
    exists i :: 0 <= i < |o| && o[i].act == a
  }

  /** Option `i` is the first whose running weight sum exceeds the draw `r`. */
  predicate FirstOver(o: seq<Offer>, r: int, i: nat)
  {
    i < |o| && r < Prefix(o, i + 1) && forall j :: 1 <= j <= i ==> Prefix(o, j) <= r
  }

  /** `a` is what the weighted draw `pick` selects among the options `o`, whose weights sum to at least 1. */
  ghost predicate Picked(o: seq<Offer>, pick: nat, a: Act)
  {
    Total(o) >= 1 && exists i: nat :: FirstOver(o, pick % Total(o), i) && a == o[i].act
  }

  /**
   * `pickWeighted`: nothing when the weights sum to 0 or less; otherwise the draw
   * `roll % total` lands on the first option whose running sum exceeds it.
   */
  method PickWeighted(o: seq<Offer>, roll: nat) returns (picked: W.Option<nat>)
    ensures picked.None? <==> Total(o) <= 0
    ensures picked.Some? ==> FirstOver(o, roll % Total(o), picked.value)
  {
    var total := Total(o);
    if total <= 0 {
      return W.None;
    }
    var r := roll % total;
    var i := 0;
    while true
      invariant 0 <= i < |o|
      invariant r == roll % total - Prefix(o, i)
      invariant forall j :: 1 <= j <= i ==> Prefix(o, j) <= roll % total
      decreases |o| - i
    {
      r := r - o[i].weight;
      if r < 0 {
        return W.Some(i);
      }
      i := i + 1;
    }
  }

  lemma {:induction false} PrefixMono(o: seq<Offer>, m: nat, n: nat)
    requires m <= n <= |o|
    requires forall i :: 0 <= i < |o| ==> o[i].weight >= 0
    ensures Prefix(o, m) <= Prefix(o, n)
  {
    if m < n {
      PrefixMono(o, m, n - 1);
    }
  }

  /**
   * With non-negative weights, option `i` takes exactly the draws in
   * `[Prefix(i), Prefix(i) + weight(i))`: each option is picked in proportion to its weight.
   */
  lemma PickShare(o: seq<Offer>, r: nat, i: nat)
    requires i < |o|
    requires forall k :: 0 <= k < |o| ==> o[k].weight >= 0
    ensures FirstOver(o, r, i) <==> Prefix(o, i) <= r < Prefix(o, i) + o[i].weight
  {
    assert Prefix(o, i + 1) == Prefix(o, i) + o[i].weight;
    if Prefix(o, i) <= r < Prefix(o, i) + o[i].weight {
      forall j | 1 <= j <= i
        ensures Prefix(o, j) <= r
      {
        PrefixMono(o, j, i);
      }
    }
    if FirstOver(o, r, i) && i > 0 {
      assert Prefix(o, i) <= r;
    }
  }

  /**
   * The options of a free boss that can see the player: melee when its cooldown is
   * out, range and laser when also within range, and waiting, always.
   */
  function Offers(cdMelee: nat, cdRange: nat, cdLaser: nat, near: bool): (o: seq<Offer>)
    ensures Offered(o, Act.MeleeApproach) <==> cdMelee == 0
    ensures Offered(o, Act.Range) <==> near && cdRange == 0
    ensures Offered(o, Act.Laser) <==> near && cdLaser == 0
    ensures Offered(o, Act.Wait)
    ensures forall i :: 0 <= i < |o| ==> o[i].weight >= 1
    ensures forall i :: 0 <= i < |o| ==> o[i].act == Act.MeleeApproach || o[i].act == Act.Range || o[i].act == Act.Laser || o[i].act == Act.Wait
  {
    var m := if cdMelee == 0 then [Offer(Act.MeleeApproach, MeleeWeight)] else [];
    var r := if near && cdRange == 0 then [Offer(Act.Range, RangeWeight)] else [];
    var l := if near && cdLaser == 0 then [Offer(Act.Laser, LaserWeight)] else [];
    var o := m + r + l + [Offer(Act.Wait, IdleWeight)];
    assert o[|o| - 1].act == Act.Wait;
    assert cdMelee == 0 ==> o[0].act == Act.MeleeApproach;
    assert near && cdRange == 0 ==> o[|m|].act == Act.Range;
    assert near && cdLaser == 0 ==> o[|m| + |r|].act == Act.Laser;
    o
  }

  /** Waiting is always on offer, so the weights never sum to zero and a choice is always made. */
  lemma {:induction false} WaitAlwaysOffered(cdMelee: nat, cdRange: nat, cdLaser: nat, near: bool)
    ensures Total(Offers(cdMelee, cdRange, cdLaser, near)) >= 1
  {
    var o := Offers(cdMelee, cdRange, cdLaser, near);
    PrefixMono(o, 0, |o| - 1);
  }

  /** `distTo(px, py) <= radius`, compared squared. */
  predicate Within(dx: real, dy: real, radius: real)
  {
    dx * dx + dy * dy <= radius * radius
  }
  /**
   * The action a free golem picks with cooldowns `c` and the player at offset
   * `(dx, dy)`: seeing the player (within 9999 px), the weighted draw among the
   * offered actions; otherwise a coin between waiting and standing free.
   */
  ghost predicate Chosen(c: Cooldowns, dx: real, dy: real, rolls: Rolls, a: Act)
  {
    if Within(dx, dy, SightRadius) then
      Picked(Offers(c.melee, c.range, c.laser, Within(dx, dy, RangeRadius)), rolls.pick, a)
    else
      a == if rolls.coin % 100 < 50 then Act.Wait else Act.None
  }

  /** The cooldowns after starting `a`: only the started attack's cooldown restarts. */
  function Restarted(c: Cooldowns, a: Act): (r: Cooldowns)
    ensures r.armor == c.armor
    ensures r.melee == if a == Act.MeleeApproach then CdMelee else c.melee
    ensures r.range == if a == Act.Range then CdRange else c.range
    ensures r.laser == if a == Act.Laser then CdLaser else c.laser
  {
    Cooldowns(if a == Act.Range then CdRange else c.range, if a == Act.MeleeApproach then CdMelee else c.melee,
      if a == Act.Laser then CdLaser else c.laser, c.armor)
  }


  // ---------------------------------------------------------------------------
  // Movement

  /** `steerHoriz`: one `a` nudge towards `desired`, then capped at `lim`. */
  function SteerHoriz(vx: real, desired: real, a: real, lim: real): (r: real)
    requires 0.0 <= lim
    ensures AbsR(r) <= lim
    ensures AbsR(vx + a * Sign(desired - vx) as real) <= lim ==> r == vx + a * Sign(desired - vx) as real
  {
    var v := vx + a * Sign(desired - vx) as real;
    if AbsR(v) > lim then lim * Sign(v) as real else v
  }

  /** Below the cap, a steering step moves the speed strictly towards the desired one. */
  lemma SteerTowards(vx: real, desired: real, a: real, lim: real)
    requires 0.0 < a && 0.0 <= lim && AbsR(vx) < lim
    ensures desired > vx ==> vx < SteerHoriz(vx, desired, a, lim)
    ensures desired < vx ==> SteerHoriz(vx, desired, a, lim) < vx
    ensures desired == vx ==> SteerHoriz(vx, desired, a, lim) == vx
  {
  }

  /** The forward arm box: centred `0.55 w` ahead of the body centre on the facing side, `0.3 h` below it. */
  function ForwardArm(x: real, y: real, w: real, h: real, facing: S.Dir): (r: RectF)
    ensures r.CenterX() == x + w * 0.5 + facing as real * (w * 0.55)
    ensures r.CenterY() == y + h * 0.55 + h * 0.3
    ensures r.Width() == 2.0 * (w * 0.18) && r.Height() == 2.0 * (h * 0.15)
  {
    var hw := w * 0.18;
    var hh := h * 0.15;
    var ax := if facing == 1 then x + w * 0.5 + w * 0.55 else x + w * 0.5 - w * 0.55;
    var ay := y + h * 0.55 + h * 0.3;
    RectF(ax - hw, ay - hh, ax + hw, ay + hh)
  }

  // ---------------------------------------------------------------------------
  // Laser burst timing

  /** The counters a laser action runs on: the windup flag and timer, the beams left and the delay. */
  datatype LaserClock = LaserClock(casting: bool, ticks: int, beamsLeft: nat, nextDelay: nat)

  /** What one laser tick does: nothing visible, fire a beam, or end the action. */
  datatype Beat = Quiet | Fire | Done

  datatype LaserTick = LaserTick(next: LaserClock, beat: Beat)

  /**
   * One tick of a laser action: count the windup down (its end sets the first
   * delay), then count each delay down and fire, and end once no beam is left.
   */
  function LaserStep(c: LaserClock): LaserTick
  {
    if c.casting then
      if c.ticks - 1 <= 0 then LaserTick(c.(casting := false, ticks := c.ticks - 1, nextDelay := LaserFirstDelay), Quiet)
      else LaserTick(c.(ticks := c.ticks - 1), Quiet)
    else if c.beamsLeft > 0 then
      if c.nextDelay > 0 then LaserTick(c.(nextDelay := c.nextDelay - 1), Quiet)
      else LaserTick(c.(beamsLeft := c.beamsLeft - 1, nextDelay := LaserInterDelay), Fire)
    else LaserTick(c, Done)
  }

  /** The clock after `n` ticks. */
  function After(c: LaserClock, n: nat): LaserClock
    decreases n
  {
    if n == 0 then c else After(LaserStep(c).next, n - 1)
  }

  /** The beats of the first `n` ticks. */
  function Beats(c: LaserClock, n: nat): (b: seq<Beat>)
    ensures |b| == n
    decreases n
  {
    if n == 0 then [] else [LaserStep(c).beat] + Beats(LaserStep(c).next, n - 1)
  }

  function Quiets(n: nat): (b: seq<Beat>)
    ensures |b| == n && forall i :: 0 <= i < n ==> b[i] == Quiet
  {
    seq(n, _ => Quiet)
  }

  /** The clock `startLaser` sets. */
  const LaserStart: LaserClock := LaserClock(true, LaserWindup, LaserBurst, LaserFirstDelay)

  lemma {:induction false} BeatsSplit(c: LaserClock, m: nat, n: nat)
    ensures Beats(c, m + n) == Beats(c, m) + Beats(After(c, m), n)
    ensures After(c, m + n) == After(After(c, m), n)
    decreases m
  {
    if m > 0 {
      BeatsSplit(LaserStep(c).next, m - 1, n);
    }
  }

  /** A windup of `t` ticks is quiet and ends with the first delay set. */
  lemma {:induction false} Windup(c: LaserClock, t: nat)
    requires c.casting && c.ticks == t && t >= 1
    ensures Beats(c, t) == Quiets(t)
    ensures After(c, t) == c.(casting := false, ticks := 0, nextDelay := LaserFirstDelay)
    decreases t
  {
    if t > 1 {
      Windup(c.(ticks := t - 1), t - 1);
    }
  }

  /** With a beam left, a delay of `d` ticks is quiet, then the beam fires and the gap is set. */
  lemma {:induction false} Volley(c: LaserClock, d: nat)
    requires !c.casting && c.beamsLeft > 0 && c.nextDelay == d
    ensures Beats(c, d + 1) == Quiets(d) + [Fire]
    ensures After(c, d + 1) == c.(beamsLeft := c.beamsLeft - 1, nextDelay := LaserInterDelay)
    decreases d
  {
    if d > 0 {
      Volley(c.(nextDelay := d - 1), d - 1);
    }
  }

  /**
   * An undisturbed laser action: 60 quiet windup ticks, the first beam 70 ticks
   * later, two more 20 ticks apart, and the end on the tick after the third:
   * exactly three beams.
   */
  lemma LaserBurstTimeline()
    ensures Beats(LaserStart, 174) ==
      Quiets(130) + [Fire] + Quiets(20) + [Fire] + Quiets(20) + [Fire] + [Done]
  {
    var c0 := LaserStart;
    Windup(c0, 60);
    var c1 := After(c0, 60);
    Volley(c1, 70);
    var c2 := After(c1, 71);
    Volley(c2, 20);
    var c3 := After(c2, 21);
    Volley(c3, 20);
    var c4 := After(c3, 21);
    assert Beats(c4, 1) == [Done];
    BeatsSplit(c3, 21, 1);
    BeatsSplit(c2, 21, 22);
    BeatsSplit(c1, 71, 43);
    BeatsSplit(c0, 60, 114);
    assert Quiets(60) + Quiets(70) == Quiets(130);
  }

  // ---------------------------------------------------------------------------
  // Laser clip mini-loop

  /** How many frames the mini-loop cycles through: four, or the whole strip when it is shorter. */
  function LoopSpan(frames: int): (n: int)
    requires frames >= 1
    ensures 1 <= n <= frames && n <= LaserLoopLen
  {
    Min(LaserLoopLen, frames)
  }

  /** The frame the mini-loop shows: its index counted from the start of the last frames. */
  function LoopFrame(frames: int, idx: nat): (f: int)
    requires frames >= 1 && idx < LoopSpan(frames)
    ensures 0 <= f < frames
    ensures frames >= LaserLoopLen ==> f == frames - LaserLoopLen + idx
  {
    Max(frames - LaserLoopLen, 0) + idx
  }

  /** The next loop index, cycling within the span. */
  function NextLoopIdx(frames: int, idx: nat): (n: nat)
    requires frames >= 1
    ensures n < LoopSpan(frames)
    ensures frames >= LaserLoopLen ==> n == (idx + 1) % LaserLoopLen
  {
    (idx + 1) % LoopSpan(frames)
  }

  /** The mini-loop as written: the index cycles through four values whatever the strip's length. */
  function LoopFrameAsWritten(frames: int, idx: nat): (f: int)
    ensures idx < LaserLoopLen ==> f < Max(frames, LaserLoopLen)
  {
    Max(frames - LaserLoopLen, 0) + idx
  }

  function NextLoopIdxAsWritten(idx: nat): (n: nat)
    ensures n < LaserLoopLen
  {
    (idx + 1) % LaserLoopLen
  }

  /**
   * With a laser strip of two frames, three cadence steps of the loop as written
   * show frame 3, past the strip's end.
   */
  lemma LoopOverrunsShortStrip()
    ensures var idx := NextLoopIdxAsWritten(NextLoopIdxAsWritten(NextLoopIdxAsWritten(0)));
      LoopFrameAsWritten(2, idx) == 3 && LoopFrameAsWritten(2, idx) >= 2
  {
  }

  /** For strips of four frames or more the corrected loop is the loop as written. */
  lemma LoopAgrees(frames: int, idx: nat)
    requires frames >= LaserLoopLen && idx < LaserLoopLen
    ensures LoopFrame(frames, idx) == LoopFrameAsWritten(frames, idx)
    ensures NextLoopIdx(frames, idx) == NextLoopIdxAsWritten(idx)
  {
  }

  // ---------------------------------------------------------------------------
  // The golem

  /** Nothing the golem does pushes its horizontal speed past the dash cap. */
  predicate Calm(vx: real)
  {
    AbsR(vx) <= MeleeDashMax
  }

  /** The small air damping applied while off the ground. */
  function AirDamp(vx: real, onGround: bool): real
  {
    if onGround then vx else vx * 0.98
  }

  /** Scaling a calm speed by a factor in [0, 1] keeps it calm. */
  lemma CalmScaled(vx: real, k: real)
    requires Calm(vx) && 0.0 <= k <= 1.0
    ensures Calm(vx * k) && Calm(AirDamp(vx * k, false)) && Calm(AirDamp(vx * k, true))
  {
    S.Damped(vx, k, MeleeDashMax);
    S.Damped(vx * k, 0.98, MeleeDashMax);
  }

  /** A cooldown after one tick: run down by one, or restarted at `full` from at most one tick left. */
  predicate Rearmed(now: nat, before: nat, full: nat)
  {
    now == Max(before - 1, 0) || (now == full && before <= 1)
  }

  class Boss {
    const body: PB.Body
    const strips: Strips
    var hp: int
    var armorStacks: nat
    /** Public; hits are ignored while it is false. */
    var alive: bool
    /** The damage reduction shown to the player: `1 - 0.75^stacks`. */
    var armorPct: real
    /** The armour clip is playing its one-off flash. */
    var armorPlayOnce: bool
    var meleeHitApplied: bool
    var summoned: bool
    var appearing: bool
    var frozen: bool
    var frozenPose: FrozenPose
    var anim: Anim
    var frame: nat
    var tick: nat
    var facing: S.Dir
    var act: Act
    var actTicks: int
    var cd: Cooldowns
    var range: RangeState
    var laser: LaserState
    var loop: MiniLoop
    var attacksSinceRest: nat
    var waitMode: WaitMode

    /**
     * The frame lies within the current strip (the laser mini-loop included), at
     * most three armour stacks, fewer than ten attacks since the last rest, and a
     * melee approach has between 1 and 90 ticks left.
     */
    ghost predicate Valid()
      reads this
    {
      strips.Loaded() && frame < strips.Of(anim).frames &&
      armorStacks <= 3 && attacksSinceRest < AttacksBeforeIdle &&
      loop.idx < LoopSpan(strips.laser.frames) &&
      (act == Act.MeleeApproach ==> 1 <= actTicks <= MeleeApproachTimeout)
    }

    function CenterX(): real
      reads body`x
    {
      body.x + body.w * 0.5
    }

    function CenterY(): real
      reads body`y
    {
      body.y + body.h * 0.55
    }

    /** The laser counters as one clock. */
    function Clock(): LaserClock
      reads this
    {
      LaserClock(laser.casting, actTicks, laser.beamsLeft, laser.nextDelay)
    }

    /**
     * A golem at `(px, py)`, 20 tiles tall; its width is 0.72 of the height scaled
     * by the aspect ratio of the first idle frame's trim. It starts unsummoned,
     * showing the first appearance frame, immune for 100 ticks, facing left, with
     * 600 hit points.
     */
    constructor(px: real, py: real, n: Counts, firstTrim: Rect)
      requires n.Positive() && firstTrim.Height() > 0
      ensures fresh(body) && Valid()
      ensures body.x == px && body.y == py && body.vx == 0.0 && body.vy == 0.0
      ensures body.h == 20.0 * C.Tile as real
      ensures body.w == body.h * (firstTrim.Width() as real / firstTrim.Height() as real) * 0.72
      ensures strips == Timed(n)
      ensures hp == HpMax && armorStacks == 0 && alive && armorPct == 0.0 && !armorPlayOnce && !meleeHitApplied
      ensures !summoned && !appearing && !frozen && frozenPose == FrozenPose.Immune
      ensures anim == Anim.Appear && frame == 0 && tick == 0 && facing == -1
      ensures act == Act.Immune && actTicks == ImmuneDur && cd == Cooldowns(0, 0, 0, 0)
      ensures range == RangeState(true, false, 0.0, 0.0) && laser == LaserState(false, 0, 0, false) && loop == MiniLoop(0, 0, 0)
      ensures attacksSinceRest == 0 && waitMode == WaitMode.Idle
    {
      var h := 20.0 * C.Tile as real;
      body := new PB.Body(px, py, h * (firstTrim.Width() as real / firstTrim.Height() as real) * 0.72, h);
      strips := Timed(n);
      hp, armorStacks, alive, armorPct := HpMax, 0, true, 0.0;
      armorPlayOnce, meleeHitApplied := false, false;
      summoned, appearing, frozen, frozenPose := false, false, false, FrozenPose.Immune;
      anim, frame, tick, facing := Anim.Appear, 0, 0, -1;
      act, actTicks, cd := Act.Immune, ImmuneDur, Cooldowns(0, 0, 0, 0);
      range, laser, loop := RangeState(true, false, 0.0, 0.0), LaserState(false, 0, 0, false), MiniLoop(0, 0, 0);
      attacksSinceRest, waitMode := 0, WaitMode.Idle;
    }

    /** The death clip shows its last frame (the rock pile of a dormant golem shows the same). */
    predicate IsDeadAndGone()
      reads this
    {
      anim == Anim.Death && frame == strips.death.frames - 1
    }

    /** `animTo`: switching to another clip restarts it; asking for the current one changes nothing. */
    method AnimTo(a: Anim)
      requires Valid()
      modifies this`anim, this`frame, this`tick
      ensures Valid()
      ensures anim == a
      ensures a != old(anim) ==> frame == 0 && tick == 0
      ensures a == old(anim) ==> frame == old(frame) && tick == old(tick)
    {
      if a != anim {
        anim, frame, tick := a, 0, 0;
      }
    }

    /** `startDormant`: a rock pile showing the last death frame, unsummoned and immune to hits. */
    method StartDormant()
      requires Valid()
      modifies this`summoned, this`appearing, this`alive, this`act, this`anim, this`frame, this`tick
      ensures Valid()
      ensures !summoned && !appearing && !alive && act == Act.None
      ensures anim == Anim.Death && frame == strips.death.frames - 1 && tick == 0
      ensures IsDeadAndGone()
    {
      summoned, appearing, alive, act := false, false, false, Act.None;
      anim, frame, tick := Anim.Death, strips.death.frames - 1, 0;
    }

    /** `triggerSummon`: once summoned or appearing nothing happens; otherwise the appearance starts from its last frame. */
    method TriggerSummon()
      requires Valid()
      modifies this`appearing, this`anim, this`frame, this`tick
      ensures Valid()
      ensures old(summoned || appearing) ==> unchanged(this)
      ensures !old(summoned || appearing) ==>
        appearing && anim == Anim.Appear && frame == strips.appear.frames - 1 && tick == 0
    {
      if summoned || appearing {
        return;
      }
      appearing := true;
      anim, frame, tick := Anim.Appear, strips.appear.frames - 1, 0;
    }

    /** `setCutsceneFrozen`: freeze or release the golem, in the idle or (by default) the immune pose. */
    method SetCutsceneFrozen(frozen: bool, poseIdle: bool)
      modifies this`frozen, this`frozenPose
      ensures this.frozen == frozen && frozenPose == (if poseIdle then FrozenPose.Idle else FrozenPose.Immune)
    {
      this.frozen := frozen;
      frozenPose := if poseIdle then FrozenPose.Idle else FrozenPose.Immune;
    }

    // --- hits -----------------------------------------------------------------

    /**
     * `hit`: ignored while not alive or immune. Otherwise the hit loses
     * `max(1, round(raw * 0.75^stacks))` hit points with the stacks held before it
     * and reports the hurt; then the stacks rise to what the new hit-point ratio
     * calls for (never falling), a rise starting the armour flash; at zero or
     * below the golem dies, reporting it, else a free golem shows the hurt clip.
     */
    method Hit(raw: int) returns (events: seq<Event>)
      requires Valid()
      modifies this`hp, this`armorPct, this`armorStacks, this`armorPlayOnce, this`act, this`alive
      modifies this`anim, this`frame, this`tick
      ensures Valid()
      ensures !old(alive) || old(act) == Act.Immune ==> events == [] && unchanged(this)
      ensures old(alive) && old(act) != Act.Immune ==>
        var rose := StacksFor(hp as real / HpMax as real) > old(armorStacks);
        hp == old(hp) - Taken(raw, old(armorStacks)) &&
        armorStacks == Max(old(armorStacks), StacksFor(hp as real / HpMax as real)) &&
        armorPct == 1.0 - TakenMul(armorStacks) &&
        events == [OnHurt] + (if rose then [OnArmorStart] else []) + (if hp <= 0 then [OnDeath] else []) &&
        (rose ==> armorPlayOnce) &&
        (hp <= 0 ==> !alive && act == Act.Dying && anim == Anim.Death) &&
        (hp > 0 && rose ==> alive && act == Act.Armor && anim == Anim.Armor) &&
        (hp > 0 && !rose ==>
          alive && act == old(act) && anim == (if old(act) == Act.None || old(act) == Act.Chase then Anim.Hurt else old(anim)))
      ensures armorStacks >= old(armorStacks)
      ensures OnDeath in events <==> old(alive) && !alive
    {
      if !alive {
        return [];
      }
      if act == Act.Immune {
        return [];
      }
      Wound(raw);
      var flash := ArmourUp();
      var end := Outcome();
      events := [OnHurt] + flash + end;
    }

    /** After a hit the stacks rise to what the hit-point ratio calls for; a rise starts the armour flash. */
    method ArmourUp() returns (events: seq<Event>)
      requires Valid()
      modifies this`armorStacks, this`armorPct, this`armorPlayOnce, this`act, this`anim, this`frame, this`tick
      ensures Valid()
      ensures var rose := StacksFor(hp as real / HpMax as real) > old(armorStacks);
        armorStacks == Max(old(armorStacks), StacksFor(hp as real / HpMax as real)) &&
        (rose ==>
          armorPct == 1.0 - TakenMul(armorStacks) && armorPlayOnce && act == Act.Armor && anim == Anim.Armor &&
          events == [OnArmorStart]) &&
        (!rose ==>
          armorPct == old(armorPct) && armorPlayOnce == old(armorPlayOnce) && act == old(act) && anim == old(anim) &&
          frame == old(frame) && tick == old(tick) && events == [])
    {
      events := [];
      var newStacks := StacksFor(hp as real / HpMax as real);
      if newStacks > armorStacks {
        events := Harden(newStacks);
      }
    }

    /** The end of a hit: at zero hit points or below the golem dies, else a free golem shows the hurt clip. */
    method Outcome() returns (events: seq<Event>)
      requires Valid() && alive
      modifies this`alive, this`act, this`anim, this`frame, this`tick
      ensures Valid()
      ensures hp <= 0 ==> !alive && act == Act.Dying && anim == Anim.Death && events == [OnDeath]
      ensures hp > 0 ==>
        alive && act == old(act) && events == [] &&
        anim == (if old(act) == Act.None || old(act) == Act.Chase then Anim.Hurt else old(anim))
    {
      events := [];
      if hp <= 0 {
        Die();
        events := [OnDeath];
      } else if act == Act.None || act == Act.Chase {
        AnimTo(Anim.Hurt);
      }
    }

    /** The damage of an accepted hit, through the stacks held before it. */
    method Wound(raw: int)
      requires Valid()
      modifies this`hp, this`armorPct
      ensures Valid()
      ensures hp == old(hp) - Taken(raw, armorStacks) && armorPct == 1.0 - TakenMul(armorStacks)
    {
      armorPct := 1.0 - TakenMul(armorStacks);
      var takenMul := 1.0 - armorPct;
      var dmg := Max(1, RoundToInt(raw as real * takenMul));
      hp := hp - dmg;
    }

    /** A rise to `stacks`: the reduction follows and the armour flash starts. */
    method Harden(stacks: nat) returns (events: seq<Event>)
      requires Valid() && armorStacks < stacks <= 3
      modifies this`armorStacks, this`armorPct, this`armorPlayOnce, this`act, this`anim, this`frame, this`tick
      ensures Valid()
      ensures armorStacks == stacks && armorPct == 1.0 - TakenMul(stacks)
      ensures armorPlayOnce && act == Act.Armor && anim == Anim.Armor && events == [OnArmorStart]
    {
      armorStacks := stacks;
      armorPct := 1.0 - TakenMul(armorStacks);
      events := StartArmorVisualFlash();
    }

    /** `startArmorVisualFlash`: the armour clip plays once from its start as an action of its own. */
    method StartArmorVisualFlash() returns (events: seq<Event>)
      requires Valid()
      modifies this`armorPlayOnce, this`act, this`anim, this`frame, this`tick
      ensures Valid()
      ensures armorPlayOnce && act == Act.Armor && anim == Anim.Armor && events == [OnArmorStart]
      ensures old(anim) != Anim.Armor ==> frame == 0 && tick == 0
    {
      armorPlayOnce, act := true, Act.Armor;
      events := [OnArmorStart];
      AnimTo(Anim.Armor);
    }

    /** A lethal hit: no longer alive, dying, on the death clip. */
    method Die()
      requires Valid()
      modifies this`alive, this`act, this`anim, this`frame, this`tick
      ensures Valid()
      ensures !alive && act == Act.Dying && anim == Anim.Death
      ensures old(anim) != Anim.Death ==> frame == 0 && tick == 0
    {
      alive, act := false, Act.Dying;
      AnimTo(Anim.Death);
    }

    // --- starting and ending actions -------------------------------------------

    /**
     * `endAction`: the golem is free again. A melee, range or laser action counts
     * as an attack; the tenth since the last rest resets the count and forces an
     * idle wait of 150 to 250 ticks with the golem stopped.
     */
    method EndAction(rolls: Rolls)
      requires Valid()
      modifies this`act, this`attacksSinceRest, this`actTicks, this`waitMode, body`vx
      ensures Valid()
      ensures var n := if Attack(old(act)) then old(attacksSinceRest) + 1 else old(attacksSinceRest);
        if n >= AttacksBeforeIdle then
          attacksSinceRest == 0 && act == Act.Wait && waitMode == WaitMode.Idle && body.vx == 0.0 &&
          actTicks == Between(rolls.waitTicks, ForcedIdleMin, ForcedIdleMax)
        else
          attacksSinceRest == n && act == Act.None && actTicks == old(actTicks) &&
          waitMode == old(waitMode) && body.vx == old(body.vx)
    {
      var prev := act;
      act := Act.None;
      if Attack(prev) {
        attacksSinceRest := attacksSinceRest + 1;
        if attacksSinceRest >= AttacksBeforeIdle {
          attacksSinceRest := 0;
          StartWait(true, rolls);
        }
      }
    }

    /**
     * `startWait`: loiter for 60 to 120 ticks, standing or strolling by the draw; a
     * forced wait stands for 150 to 250 ticks and stops the golem at once.
     */
    method StartWait(forced: bool, rolls: Rolls)
      requires Valid()
      modifies this`act, this`actTicks, this`waitMode, body`vx
      ensures Valid()
      ensures act == Act.Wait
      ensures forced ==>
        actTicks == Between(rolls.waitTicks, ForcedIdleMin, ForcedIdleMax) && waitMode == WaitMode.Idle && body.vx == 0.0
      ensures !forced ==>
        actTicks == Between(rolls.waitTicks, WaitMin, WaitMax) && waitMode == (if rolls.waitIdle then WaitMode.Idle else WaitMode.Walk) && body.vx == old(body.vx)
    {
      act := Act.Wait;
      actTicks := if forced then Between(rolls.waitTicks, ForcedIdleMin, ForcedIdleMax)
        else Between(rolls.waitTicks, WaitMin, WaitMax);
      waitMode := if forced then WaitMode.Idle else if rolls.waitIdle then WaitMode.Idle else WaitMode.Walk;
      if forced {
        body.vx := 0.0;
      }
    }

    /** `startIdle`: free, with no action. */
    method StartIdle()
      requires Valid()
      modifies this`act
      ensures Valid() && act == Act.None
    {
      act := Act.None;
    }

    /** `startChase`: chase on the glow clip. */
    method StartChase()
      requires Valid()
      modifies this`act, this`anim, this`frame, this`tick
      ensures Valid() && act == Act.Chase && anim == Anim.Glow
    {
      act := Act.Chase;
      AnimTo(Anim.Glow);
    }

    /**
     * `startMeleeApproach`: the melee cooldown restarts at 120, the approach has 90
     * ticks, and the golem turns to the player (unless exactly level with it).
     */
    method StartMeleeApproach(player: RectF)
      requires Valid()
      modifies this`act, this`cd, this`actTicks, this`facing
      ensures Valid()
      ensures act == Act.MeleeApproach && cd == old(cd).(melee := CdMelee) && actTicks == MeleeApproachTimeout
      ensures var d := player.CenterX() - CenterX();
        facing == (if d == 0.0 then old(facing) else Sign(d))
    {
      act := Act.MeleeApproach;
      cd := cd.(melee := CdMelee);
      actTicks := MeleeApproachTimeout;
      var dir := Sign(player.CenterX() - CenterX());
      if dir != 0 {
        facing := dir;
      }
    }

    /** `startMeleeStrike`: the strike lasts the melee strip's length and may land once. */
    method StartMeleeStrike()
      requires Valid()
      modifies this`act, this`actTicks, this`meleeHitApplied, this`anim, this`frame, this`tick
      ensures Valid()
      ensures act == Act.Melee && actTicks == strips.melee.Duration() && !meleeHitApplied && anim == Anim.Melee
      ensures old(anim) != Anim.Melee ==> frame == 0 && tick == 0
    {
      act := Act.Melee;
      actTicks := strips.melee.Duration();
      meleeHitApplied := false;
      AnimTo(Anim.Melee);
    }

    /**
     * `startRange`: the range cooldown restarts at 180 and the prepare phase runs
     * for the range strip's length, aiming at `(px, py)`.
     */
    method StartRange(px: real, py: real)
      requires Valid()
      modifies this`act, this`cd, this`range, this`actTicks, this`anim, this`frame, this`tick
      ensures Valid()
      ensures act == Act.Range && cd == old(cd).(range := CdRange) && range == RangeState(true, false, px, py)
      ensures actTicks == strips.range.Duration() && anim == Anim.RangePrepare
    {
      act := Act.Range;
      cd := cd.(range := CdRange);
      range := RangeState(true, false, px, py);
      actTicks := strips.range.Duration();
      AnimTo(Anim.RangePrepare);
    }

    /** `startLaser`: the laser cooldown restarts at 360 and the laser clock starts its windup. */
    method StartLaser()
      requires Valid()
      modifies this`act, this`cd, this`laser, this`actTicks, this`anim, this`frame, this`tick
      ensures Valid()
      ensures act == Act.Laser && cd == old(cd).(laser := CdLaser) && anim == Anim.LaserCharge
      ensures Clock() == LaserStart && !laser.hold
    {
      act := Act.Laser;
      cd := cd.(laser := CdLaser);
      laser := LaserState(true, LaserBurst, LaserFirstDelay, false);
      actTicks := LaserWindup;
      AnimTo(Anim.LaserCharge);
    }

    /** `startArmor`: a 240-tick armour buff at 0.6 reduction, on a 420-tick cooldown. */
    method StartArmor() returns (events: seq<Event>)
      requires Valid()
      modifies this`act, this`cd, this`armorPct, this`actTicks, this`anim, this`frame, this`tick
      ensures Valid()
      ensures act == Act.Armor && cd == old(cd).(armor := CdArmor) && armorPct == 0.6
      ensures actTicks == ArmorBuffDur && anim == Anim.Armor && events == [OnArmorStart]
    {
      act := Act.Armor;
      cd := cd.(armor := CdArmor);
      armorPct := 0.6;
      actTicks := ArmorBuffDur;
      events := [OnArmorStart];
      AnimTo(Anim.Armor);
    }

    /** `startImmune`: immune to hits for `ticks` ticks, on the immune clip. */
    method StartImmune(ticks: int)
      requires Valid()
      modifies this`act, this`actTicks, this`anim, this`frame, this`tick
      ensures Valid()
      ensures act == Act.Immune && actTicks == ticks && anim == Anim.Immune
      ensures old(anim) != Anim.Immune ==> frame == 0 && tick == 0
    {
      act, actTicks := Act.Immune, ticks;
      AnimTo(Anim.Immune);
    }

    // --- one update ------------------------------------------------------------

    /**
     * `updateAiAndAnim`. An unsummoned golem only plays its reverse appearance
     * (or, dormant, shows the rock pile); a frozen one stands still in its
     * cutscene pose; any other golem lives one tick.
     */
    method Update(px: real, py: real, onGround: bool, player: RectF, shardAlive: bool, rolls: Rolls)
      returns (events: seq<Event>)
      requires Valid()
      modifies this, body`vx
      ensures Valid()
      ensures !old(summoned) && !old(appearing) ==>
        events == [] && IsDeadAndGone() && tick == old(tick) + 1 && !summoned &&
        act == old(act) && alive == old(alive) && body.vx == old(body.vx)
      ensures !old(summoned) && old(appearing) ==>
        (OnAppearanceDone in events <==> summoned) && body.vx == old(body.vx) &&
        (summoned ==> alive && !appearing && act == Act.Immune && actTicks == SummonImmuneTicks)
      ensures old(summoned) && old(frozen) ==>
        events == [] && body.vx == 0.0 && act == old(act) && cd == old(cd) &&
        anim == (if frozenPose == FrozenPose.Idle then Anim.Idle else Anim.Immune)
      ensures old(summoned) && !old(frozen) ==>
        Rearmed(cd.melee, old(cd.melee), CdMelee) && Rearmed(cd.range, old(cd.range), CdRange) &&
        Rearmed(cd.laser, old(cd.laser), CdLaser) && cd.armor == Max(old(cd.armor) - 1, 0) &&
        (old(act) != Act.None && old(act) != Act.Chase ==> cd == old(cd).Down())
      ensures OnMelee in events ==> old(act) == Act.Melee && !old(meleeHitApplied) && meleeHitApplied
      ensures act == Act.Chase ==> old(act) == Act.Chase
      ensures Calm(old(body.vx)) ==> Calm(body.vx)
    {
      if !summoned {
        if appearing {
          events := Reappear(px);
        } else {
          Dormant();
          events := [];
        }
        return;
      }
      if frozen {
        events := Freeze(rolls);
        return;
      }
      events := Live(px, py, onGround, player, shardAlive, rolls);
    }

    /**
     * A summoned golem's tick: the cooldowns run down, a free golem turns to the
     * player and picks its next action, the action runs one tick, a golem with no
     * action drifts idle, and the clip advances. A cooldown is only ever restarted
     * by choosing its action, which needs it to have run out.
     */
    method Live(px: real, py: real, onGround: bool, player: RectF, shardAlive: bool, rolls: Rolls)
      returns (events: seq<Event>)
      requires Valid()
      modifies body`vx, this`cd, this`facing, this`act, this`actTicks, this`range, this`laser, this`loop
      modifies this`waitMode, this`anim, this`frame, this`tick, this`meleeHitApplied, this`attacksSinceRest
      modifies this`armorPlayOnce
      ensures Valid()
      ensures Rearmed(cd.melee, old(cd.melee), CdMelee) && Rearmed(cd.range, old(cd.range), CdRange)
      ensures Rearmed(cd.laser, old(cd.laser), CdLaser) && cd.armor == Max(old(cd.armor) - 1, 0)
      ensures old(act) != Act.None && old(act) != Act.Chase ==> cd == old(cd).Down()
      ensures OnMelee in events ==> old(act) == Act.Melee && !old(meleeHitApplied) && meleeHitApplied
      ensures act == Act.Chase ==> old(act) == Act.Chase
      ensures Calm(old(body.vx)) ==> Calm(body.vx)
    {
      var dx := px - CenterX();
      Plan(px, py, player, rolls);
      events := Run(dx, onGround, player, shardAlive, rolls);
    }

    /** The timers run down, and a free golem turns to the player and picks its next action. */
    method Plan(px: real, py: real, player: RectF, rolls: Rolls)
      requires Valid()
      modifies this`cd, this`facing, this`act, this`actTicks, this`range, this`laser, this`waitMode
      modifies this`anim, this`frame, this`tick, body`vx
      ensures Valid() && body.vx == old(body.vx)
      ensures Rearmed(cd.melee, old(cd.melee), CdMelee) && Rearmed(cd.range, old(cd.range), CdRange)
      ensures Rearmed(cd.laser, old(cd.laser), CdLaser) && cd.armor == Max(old(cd.armor) - 1, 0)
      ensures old(act) != Act.None && old(act) != Act.Chase ==> cd == old(cd).Down() && act == old(act)
      ensures act == Act.Chase ==> old(act) == Act.Chase
      ensures act == Act.Melee ==> old(act) == Act.Melee
      ensures old(act) == Act.None || old(act) == Act.Chase ==>
        Chosen(old(cd).Down(), px - CenterX(), py - CenterY(), rolls, act) && cd == Restarted(old(cd).Down(), act) &&
        (act == Act.Laser ==> Clock() == LaserStart) &&
        (act == Act.Range ==> range == RangeState(true, false, px, py) && actTicks == strips.range.Duration())
    {
      cd := cd.Down();
      Turn(px - CenterX());
      Decide(px, py, player, rolls);
    }

    /** A free golem (no action, or chasing) selects its next action; a busy one keeps its action. */
    method Decide(px: real, py: real, player: RectF, rolls: Rolls)
      requires Valid()
      modifies this`cd, this`act, this`actTicks, this`range, this`laser, this`waitMode
      modifies this`anim, this`frame, this`tick, this`facing, body`vx
      ensures Valid() && body.vx == old(body.vx)
      ensures old(act) != Act.None && old(act) != Act.Chase ==> cd == old(cd) && act == old(act)
      ensures act == Act.Chase ==> old(act) == Act.Chase
      ensures act == Act.Melee ==> old(act) == Act.Melee
      ensures old(act) == Act.None || old(act) == Act.Chase ==>
        Chosen(old(cd), px - CenterX(), py - CenterY(), rolls, act) && cd == Restarted(old(cd), act) &&
        (act == Act.Laser ==> Clock() == LaserStart) &&
        (act == Act.Range ==> range == RangeState(true, false, px, py) && actTicks == strips.range.Duration())
    {
      if act == Act.None || act == Act.Chase {
        Select(px, py, player, rolls);
      }
    }

    method Run(dx: real, onGround: bool, player: RectF, shardAlive: bool, rolls: Rolls) returns (events: seq<Event>)
      requires Valid()
      modifies body`vx, this`act, this`actTicks, this`range, this`laser, this`loop, this`waitMode
      modifies this`anim, this`frame, this`tick, this`meleeHitApplied, this`attacksSinceRest, this`armorPlayOnce
      ensures Valid()
      ensures OnMelee in events ==> old(act) == Act.Melee && !old(meleeHitApplied) && meleeHitApplied
      ensures act == Act.Chase ==> old(act) == Act.Chase
      ensures Calm(old(body.vx)) ==> Calm(body.vx)
    {
      events := ActTick(dx, onGround, player, shardAlive, rolls);
      Fallback();
      var more := AdvanceFrames(rolls);
      events := events + more;
    }

    /** The reverse appearance: the golem faces the player and steps the appear clip back. */
    method Reappear(px: real) returns (events: seq<Event>)
      requires Valid() && !summoned && appearing
      modifies this`facing, this`anim, this`frame, this`tick, this`appearing, this`summoned, this`alive
      modifies this`act, this`actTicks
      ensures Valid()
      ensures facing == (if px >= CenterX() then 1 else -1)
      ensures summoned ==> events == [OnAppearanceDone] && alive && !appearing && act == Act.Immune && actTicks == SummonImmuneTicks && anim == Anim.Immune
      ensures !summoned ==> appearing && events == [] && anim == Anim.Appear && act == old(act) && alive == old(alive)
    {
      facing := if px >= CenterX() then 1 else -1;
      AnimTo(Anim.Appear);
      events := AppearStep();
    }

    /**
     * One step of the appearance played backwards: on each cadence tick the clip
     * goes back a frame; reaching frame 0 summons the golem, alive and immune for
     * 60 ticks, reported once.
     */
    method AppearStep() returns (events: seq<Event>)
      requires Valid() && !summoned && appearing && anim == Anim.Appear
      modifies this`anim, this`frame, this`tick, this`appearing, this`summoned, this`alive, this`act, this`actTicks
      ensures Valid()
      ensures var step := (old(tick) + 1) % strips.appear.speed == 0;
        var done := step && old(frame) <= 1;
        (done ==>
          events == [OnAppearanceDone] && summoned && alive && !appearing &&
          act == Act.Immune && actTicks == SummonImmuneTicks && anim == Anim.Immune && frame == 0 && tick == 0) &&
        (!done ==>
          events == [] && !summoned && appearing && alive == old(alive) && act == old(act) && actTicks == old(actTicks) &&
          anim == Anim.Appear && tick == old(tick) + 1 && frame == (if step then old(frame) - 1 else old(frame)))
    {
      tick := tick + 1;
      events := [];
      if tick % strips.appear.speed == 0 {
        frame := Max(frame - 1, 0);
        if frame == 0 {
          appearing, summoned, alive := false, true, true;
          StartImmune(SummonImmuneTicks);
          events := [OnAppearanceDone];
        }
      }
    }

    /** A dormant rock pile: the last death frame, no AI. */
    method Dormant()
      requires Valid()
      modifies this`anim, this`frame, this`tick
      ensures Valid()
      ensures anim == Anim.Death && frame == strips.death.frames - 1 && tick == old(tick) + 1
    {
      anim, frame, tick := Anim.Death, strips.death.frames - 1, tick + 1;
    }

    /** A cutscene freeze: stopped, in the chosen pose, the clip still advancing, the action kept. */
    method Freeze(rolls: Rolls) returns (events: seq<Event>)
      requires Valid()
      modifies body`vx, this`anim, this`frame, this`tick, this`armorPlayOnce, this`laser, this`loop, this`act
      modifies this`actTicks, this`attacksSinceRest, this`waitMode
      ensures Valid()
      ensures events == [] && body.vx == 0.0 && act == old(act)
      ensures anim == (if frozenPose == FrozenPose.Idle then Anim.Idle else Anim.Immune)
    {
      body.vx := 0.0;
      AnimTo(if frozenPose == FrozenPose.Idle then Anim.Idle else Anim.Immune);
      events := AdvanceFrames(rolls);
    }

    /** Turning: only a free golem turns, and only to a player more than 3 px away horizontally. */
    method Turn(dx: real)
      requires Valid()
      modifies this`facing
      ensures Valid()
      ensures facing == if (act == Act.None || act == Act.Chase) && AbsR(dx) > 3.0 then Sign(dx) else old(facing)
    {
      if (act == Act.None || act == Act.Chase) && AbsR(dx) > 3.0 {
        var dir := Sign(dx);
        if dir != 0 {
          facing := dir;
        }
      }
    }

    /**
     * The action choice of a free golem. Seeing the player (within 9999 px), it
     * draws among the offered actions by weight, so an attack is only chosen with
     * its cooldown run out and, for range and laser, within 1200 px; not seeing
     * it, a coin decides between waiting and standing free. The chosen action's
     * cooldown restarts.
     */
    method Select(px: real, py: real, player: RectF, rolls: Rolls)
      requires Valid() && (act == Act.None || act == Act.Chase)
      modifies this`act, this`cd, this`actTicks, this`facing, this`range, this`laser, this`waitMode
      modifies this`anim, this`frame, this`tick, body`vx
      ensures Valid()
      ensures Chosen(old(cd), px - CenterX(), py - CenterY(), rolls, act)
      ensures act == Act.MeleeApproach ==> old(cd.melee) == 0
      ensures act == Act.Range ==> old(cd.range) == 0 && Within(px - CenterX(), py - CenterY(), RangeRadius)
      ensures act == Act.Laser ==> old(cd.laser) == 0 && Within(px - CenterX(), py - CenterY(), RangeRadius)
      ensures cd == Restarted(old(cd), act)
      ensures act == Act.Laser ==> Clock() == LaserStart
      ensures act == Act.Range ==> range == RangeState(true, false, px, py) && actTicks == strips.range.Duration()
      ensures body.vx == old(body.vx)
    {
      var dx := px - CenterX();
      var dy := py - CenterY();
      if Within(dx, dy, SightRadius) {
        Choose(Within(dx, dy, RangeRadius), px, py, player, rolls);
      } else if rolls.coin % 100 < 50 {
        StartWait(false, rolls);
      } else {
        StartIdle();
      }
    }

    /** The weighted draw among the offered actions, and the start of the one drawn. */
    method Choose(near: bool, px: real, py: real, player: RectF, rolls: Rolls)
      requires Valid()
      modifies this`act, this`cd, this`actTicks, this`facing, this`range, this`laser, this`waitMode
      modifies this`anim, this`frame, this`tick, body`vx
      ensures Valid()
      ensures Picked(Offers(old(cd.melee), old(cd.range), old(cd.laser), near), rolls.pick, act)
      ensures act == Act.MeleeApproach ==> old(cd.melee) == 0
      ensures act == Act.Range ==> old(cd.range) == 0 && near
      ensures act == Act.Laser ==> old(cd.laser) == 0 && near
      ensures act == Act.MeleeApproach || act == Act.Range || act == Act.Laser || act == Act.Wait
      ensures cd == Restarted(old(cd), act)
      ensures act == Act.Laser ==> Clock() == LaserStart
      ensures act == Act.Range ==> range == RangeState(true, false, px, py) && actTicks == strips.range.Duration()
      ensures body.vx == old(body.vx)
    {
      var o := Offers(cd.melee, cd.range, cd.laser, near);
      WaitAlwaysOffered(cd.melee, cd.range, cd.laser, near);
      var picked := PickWeighted(o, rolls.pick);
      match picked {
        case None =>
          assert false;
        case Some(i) =>
          assert Offered(o, o[i].act);
          Launch(o[i].act, px, py, player, rolls);
      }
    }

    /** Starting the chosen action. */
    method Launch(a: Act, px: real, py: real, player: RectF, rolls: Rolls)
      requires Valid() && (a == Act.MeleeApproach || a == Act.Range || a == Act.Laser || a == Act.Wait)
      modifies this`act, this`cd, this`actTicks, this`facing, this`range, this`laser, this`waitMode
      modifies this`anim, this`frame, this`tick, body`vx
      ensures Valid() && act == a
      ensures cd == Restarted(old(cd), a)
      ensures a == Act.Laser ==> Clock() == LaserStart
      ensures a == Act.Range ==> range == RangeState(true, false, px, py) && actTicks == strips.range.Duration()
      ensures body.vx == old(body.vx)
    {
      if a == Act.MeleeApproach {
        StartMeleeApproach(player);
      } else if a == Act.Range {
        StartRange(px, py);
      } else if a == Act.Laser {
        StartLaser();
      } else {
        StartWait(false, rolls);
      }
    }

    // --- the action of one tick ------------------------------------------------

    /** Where a thrown arm starts: at the forward hand, flying straight ahead at 15 px a tick. */
    function Shard(): ShardShot
      reads this`facing, body`x, body`y
    {
      ShardShot(CenterX() + facing as real * (body.w * 0.45), CenterY() - body.h * 0.35, ShardSpeed * facing as real, facing)
    }

    /** A laser bolt from the head (30 px below its anchor) to the player's chest. */
    function Bolt(player: RectF): BoltShot
      reads body`x, body`y
    {
      BoltShot(CenterX() - body.w * 0.5, CenterY() - body.h * 0.42 + 30.0,
        player.CenterX(), player.CenterY() - player.Height() * 0.15)
    }

    /** The forward arm box at the golem's current position and facing. */
    function Arm(): RectF
      reads this`facing, body`x, body`y
    {
      ForwardArm(body.x, body.y, body.w, body.h, facing)
    }

    /**
     * One tick of the current action. Every action keeps the horizontal speed
     * calm, a strike lands at most once, an arm is thrown at most once, and no
     * action turns into a chase.
     */
    method ActTick(dx: real, onGround: bool, player: RectF, shardAlive: bool, rolls: Rolls)
      returns (events: seq<Event>)
      requires Valid()
      modifies body`vx, this`anim, this`frame, this`tick, this`act, this`actTicks, this`meleeHitApplied
      modifies this`attacksSinceRest, this`waitMode, this`range, this`laser
      ensures Valid()
      ensures OnMelee in events ==> old(act) == Act.Melee && !old(meleeHitApplied) && meleeHitApplied
      ensures OnThrowArm in events ==> old(act) == Act.Range && old(range.waiting) && !range.waiting
      ensures act == Act.Chase ==> old(act) == Act.Chase
      ensures Calm(old(body.vx)) ==> Calm(body.vx)
    {
      match act {
        case MeleeApproach =>
          Approach(player, onGround);
          events := [];
        case Chase =>
          ChaseTick(dx, onGround);
          events := [];
        case Melee =>
          events := MeleeTick(player, rolls);
        case Range =>
          events := RangeTick(shardAlive, rolls);
        case Laser =>
          events := LaserTick(player, rolls);
        case _ =>
          Passive(onGround, rolls);
          events := [];
      }
    }

    /**
     * The melee approach: steer (0.35 a tick, at most 10 px a tick) to bring the
     * forward arm's centre over the player's centre; strike, stopped, once within
     * 10 px or when the approach time runs out.
     */
    method Approach(player: RectF, onGround: bool)
      requires Valid() && act == Act.MeleeApproach
      modifies body`vx, this`anim, this`frame, this`tick, this`act, this`actTicks, this`meleeHitApplied
      ensures Valid()
      ensures var dAx := player.CenterX() - Arm().CenterX();
        var strike := AbsR(dAx) <= ArmAlignTolerance || old(actTicks) - 1 <= 0;
        (strike ==>
          act == Act.Melee && body.vx == 0.0 && actTicks == strips.melee.Duration() && !meleeHitApplied && anim == Anim.Melee) &&
        (!strike ==>
          act == Act.MeleeApproach && actTicks == old(actTicks) - 1 && anim == Anim.Glow &&
          body.vx == AirDamp(SteerHoriz(old(body.vx), MeleeDashMax * Sign(dAx) as real, MeleeDashAccel, MeleeDashMax), onGround))
      ensures Calm(body.vx)
    {
      var dAx := player.CenterX() - Arm().CenterX();
      var v := SteerHoriz(body.vx, MeleeDashMax * Sign(dAx) as real, MeleeDashAccel, MeleeDashMax);
      S.Damped(v, 0.98, MeleeDashMax);
      body.vx := AirDamp(v, onGround);
      AnimTo(Anim.Glow);
      if AbsR(dAx) <= ArmAlignTolerance || actTicks - 1 <= 0 {
        body.vx := 0.0;
        StartMeleeStrike();
      } else {
        actTicks := actTicks - 1;
      }
    }

    /** The chase: steer towards the player at up to 3 px a tick, glowing while moving. */
    method ChaseTick(dx: real, onGround: bool)
      requires Valid() && act == Act.Chase
      modifies body`vx, this`anim, this`frame, this`tick
      ensures Valid()
      ensures body.vx == AirDamp(SteerHoriz(old(body.vx), ChaseMax * Sign(dx) as real, Accel, ChaseMax), onGround)
      ensures AbsR(body.vx) <= ChaseMax
      ensures anim == if AbsR(body.vx) > StillSpeed then Anim.Glow else Anim.Idle
    {
      var v := SteerHoriz(body.vx, ChaseMax * Sign(dx) as real, Accel, ChaseMax);
      S.Damped(v, 0.98, ChaseMax);
      body.vx := AirDamp(v, onGround);
      AnimTo(if AbsR(body.vx) > StillSpeed then Anim.Glow else Anim.Idle);
    }

    /** The strike: slowing down, counting down its time, and landing on the hit frame. */
    method MeleeTick(player: RectF, rolls: Rolls) returns (events: seq<Event>)
      requires Valid() && act == Act.Melee
      modifies body`vx, this`act, this`actTicks, this`attacksSinceRest, this`waitMode, this`anim, this`frame, this`tick
      modifies this`meleeHitApplied
      ensures Valid()
      ensures OnMelee in events ==> !old(meleeHitApplied) && meleeHitApplied
      ensures OnThrowArm !in events && act != Act.Chase
      ensures Calm(old(body.vx)) ==> Calm(body.vx)
      ensures anim == Anim.Melee
      ensures old(anim) == Anim.Melee ==> frame == old(frame) && tick == old(tick)
      ensures old(anim) != Anim.Melee ==> frame == 0 && tick == 0
      ensures old(actTicks) - 1 > 0 ==>
        act == Act.Melee && actTicks == old(actTicks) - 1 && body.vx == old(body.vx) * 0.85 &&
        attacksSinceRest == old(attacksSinceRest)
      ensures old(actTicks) - 1 <= 0 ==>
        attacksSinceRest == (old(attacksSinceRest) + 1) % AttacksBeforeIdle &&
        (attacksSinceRest == 0 ==> act == Act.Wait && body.vx == 0.0) &&
        (attacksSinceRest != 0 ==> act == Act.None && body.vx == old(body.vx) * 0.85)
      ensures var now := !old(meleeHitApplied) && frame == MeleeHitFrame && tick % strips.melee.speed == 0;
        (now ==> meleeHitApplied && events == [OnMelee] + (if Overlap(Arm(), player) then [OnDamagePlayer(1)] else [])) &&
        (!now ==> meleeHitApplied == old(meleeHitApplied) && events == [])
    {
      if Calm(body.vx) {
        CalmScaled(body.vx, 0.85);
      }
      body.vx := body.vx * 0.85;
      MeleeTimer(rolls);
      events := Swing(player);
    }

    /**
     * The strike's timer: it ends, counting as an attack, when the strip's length
     * has run out; the melee clip keeps playing for the rest of this tick.
     */
    method MeleeTimer(rolls: Rolls)
      requires Valid() && act == Act.Melee
      modifies body`vx, this`act, this`actTicks, this`attacksSinceRest, this`waitMode, this`anim, this`frame, this`tick
      ensures Valid() && anim == Anim.Melee
      ensures old(anim) == Anim.Melee ==> frame == old(frame) && tick == old(tick)
      ensures old(anim) != Anim.Melee ==> frame == 0 && tick == 0
      ensures old(actTicks) - 1 > 0 ==>
        act == Act.Melee && actTicks == old(actTicks) - 1 && body.vx == old(body.vx) && attacksSinceRest == old(attacksSinceRest)
      ensures old(actTicks) - 1 <= 0 ==>
        attacksSinceRest == (old(attacksSinceRest) + 1) % AttacksBeforeIdle &&
        (attacksSinceRest == 0 ==> act == Act.Wait && body.vx == 0.0) &&
        (attacksSinceRest != 0 ==> act == Act.None && body.vx == old(body.vx))
    {
      actTicks := actTicks - 1;
      if actTicks <= 0 {
        EndAction(rolls);
      }
      AnimTo(Anim.Melee);
    }

    /**
     * The strike lands on entering frame 6 of the melee clip, once per strike:
     * it reports the swing and damages the player by 1 when the forward arm box
     * overlaps them.
     */
    method Swing(player: RectF) returns (events: seq<Event>)
      requires Valid() && anim == Anim.Melee
      modifies this`meleeHitApplied
      ensures var now := !old(meleeHitApplied) && frame == MeleeHitFrame && tick % strips.melee.speed == 0;
        (now ==> meleeHitApplied && events == [OnMelee] + (if Overlap(Arm(), player) then [OnDamagePlayer(1)] else [])) &&
        (!now ==> meleeHitApplied == old(meleeHitApplied) && events == [])
    {
      events := [];
      if !meleeHitApplied && frame == MeleeHitFrame && tick % strips.melee.speed == 0 {
        events := [OnMelee];
        if Overlap(Arm(), player) {
          events := events + [OnDamagePlayer(1)];
        }
        meleeHitApplied := true;
      }
    }

    /** The range action: the prepare phase slows the golem down, then the arm is thrown. */
    method RangeTick(shardAlive: bool, rolls: Rolls) returns (events: seq<Event>)
      requires Valid() && act == Act.Range
      modifies body`vx, this`anim, this`frame, this`tick, this`range, this`act, this`attacksSinceRest
      modifies this`actTicks, this`waitMode
      ensures Valid()
      ensures OnThrowArm in events ==> old(range.waiting) && !range.waiting
      ensures OnMelee !in events && act != Act.Chase
      ensures Calm(old(body.vx)) ==> Calm(body.vx)
      ensures old(range.glow) ==>
        events == [] && act == Act.Range && body.vx == old(body.vx) * 0.85 &&
        (old(actTicks) - 1 <= 0 ==>
          range == old(range).(glow := false, waiting := true) && actTicks == IntMax && anim == Anim.RangeLoop) &&
        (old(actTicks) - 1 > 0 ==>
          range == old(range) && actTicks == old(actTicks) - 1 && anim == Anim.RangePrepare)
      ensures !old(range.glow) ==>
        anim == Anim.RangeLoop &&
        (old(range.waiting) ==>
          range == old(range).(waiting := false) && events == [AddShard(Shard()), OnThrowArm] &&
          act == Act.Range && attacksSinceRest == old(attacksSinceRest)) &&
        (!old(range.waiting) ==> range == old(range) && events == [] && (act == Act.Range <==> shardAlive)) &&
        (!old(range.waiting) && !shardAlive ==> attacksSinceRest == (old(attacksSinceRest) + 1) % AttacksBeforeIdle)
    {
      if range.glow {
        if Calm(body.vx) {
          CalmScaled(body.vx, 0.85);
        }
        body.vx := body.vx * 0.85;
        RangePrepare();
        events := [];
      } else {
        events := RangeThrow(shardAlive, rolls);
      }
    }

    /** The range prepare phase: when it runs out the arm waits to be thrown, with no countdown left. */
    method RangePrepare()
      requires Valid() && act == Act.Range && range.glow
      modifies this`anim, this`frame, this`tick, this`actTicks, this`range
      ensures Valid()
      ensures old(actTicks) - 1 <= 0 ==>
        range == old(range).(glow := false, waiting := true) && actTicks == IntMax && anim == Anim.RangeLoop
      ensures old(actTicks) - 1 > 0 ==>
        range == old(range) && actTicks == old(actTicks) - 1 && anim == Anim.RangePrepare
    {
      AnimTo(Anim.RangePrepare);
      actTicks := actTicks - 1;
      if actTicks <= 0 {
        range := range.(glow := false, waiting := true);
        actTicks := IntMax;
        AnimTo(Anim.RangeLoop);
      }
    }

    /**
     * The range loop phase: a waiting arm is thrown (once); the action ends,
     * counting as an attack, once no arm shard is alive.
     */
    method RangeThrow(shardAlive: bool, rolls: Rolls) returns (events: seq<Event>)
      requires Valid() && act == Act.Range && !range.glow
      modifies this`anim, this`frame, this`tick, this`range, this`act, this`attacksSinceRest, this`actTicks
      modifies this`waitMode, body`vx
      ensures Valid() && anim == Anim.RangeLoop
      ensures old(range.waiting) ==>
        range == old(range).(waiting := false) && events == [AddShard(Shard()), OnThrowArm] &&
        act == Act.Range && attacksSinceRest == old(attacksSinceRest)
      ensures !old(range.waiting) ==> range == old(range) && events == [] && (act == Act.Range <==> shardAlive)
      ensures !old(range.waiting) && !shardAlive ==>
        attacksSinceRest == (old(attacksSinceRest) + 1) % AttacksBeforeIdle
      ensures act == Act.Range || act == Act.None || act == Act.Wait
      ensures body.vx == old(body.vx) || body.vx == 0.0
    {
      AnimTo(Anim.RangeLoop);
      events := [];
      var thrown := false;
      if range.waiting {
        events := [AddShard(Shard()), OnThrowArm];
        range := range.(waiting := false);
        thrown := true;
      }
      if !shardAlive && !thrown {
        EndAction(rolls);
      }
    }

    /**
     * The laser action: one tick of the laser clock, windup or burst, with the
     * golem's feet kept planted.
     */
    method LaserTick(player: RectF, rolls: Rolls) returns (events: seq<Event>)
      requires Valid() && act == Act.Laser
      modifies body`vx, this`anim, this`frame, this`tick, this`laser, this`act, this`attacksSinceRest
      modifies this`actTicks, this`waitMode
      ensures Valid()
      ensures var st := LaserStep(old(Clock()));
        laser.casting == st.next.casting && laser.beamsLeft == st.next.beamsLeft && laser.nextDelay == st.next.nextDelay &&
        (st.beat == Beat.Fire <==> OnLaserStart in events) && (st.beat == Beat.Done <==> OnLaserEnd in events) &&
        (st.beat != Beat.Done ==> act == Act.Laser && actTicks == st.next.ticks && anim == Anim.LaserCharge)
      ensures OnMelee !in events && OnThrowArm !in events && act != Act.Chase
      ensures Calm(old(body.vx)) ==> Calm(body.vx)
    {
      if laser.casting {
        LaserWind();
        events := [];
      } else {
        events := LaserFire(player, rolls);
      }
      if Calm(body.vx) {
        CalmScaled(body.vx, 0.8);
      }
      body.vx := body.vx * 0.8;
    }

    /** The laser windup: on the last tick the clip freezes on its final frame and the first delay starts. */
    method LaserWind()
      requires Valid() && act == Act.Laser && laser.casting
      modifies this`anim, this`frame, this`tick, this`actTicks, this`laser
      ensures Valid() && anim == Anim.LaserCharge
      ensures Clock() == LaserStep(old(Clock())).next
      ensures !laser.casting ==> laser.hold && frame == strips.laser.frames - 1 && tick == 0
    {
      AnimTo(Anim.LaserCharge);
      actTicks := actTicks - 1;
      if actTicks <= 0 {
        laser := laser.(casting := false, hold := true, nextDelay := LaserFirstDelay);
        frame, tick := strips.laser.frames - 1, 0;
      }
    }

    /** The laser burst: wait out each delay, fire a bolt at the player, end when no beam is left. */
    method LaserFire(player: RectF, rolls: Rolls) returns (events: seq<Event>)
      requires Valid() && act == Act.Laser && !laser.casting
      modifies this`anim, this`frame, this`tick, this`laser, this`act, this`attacksSinceRest, this`actTicks
      modifies this`waitMode, body`vx
      ensures Valid() && anim == Anim.LaserCharge
      ensures var st := LaserStep(old(Clock()));
        !laser.casting && laser.beamsLeft == st.next.beamsLeft && laser.nextDelay == st.next.nextDelay &&
        (st.beat == Beat.Quiet ==> events == [] && act == Act.Laser && actTicks == old(actTicks)) &&
        (st.beat == Beat.Fire ==> events == [AddBolt(Bolt(player)), OnLaserStart] && act == Act.Laser && actTicks == old(actTicks)) &&
        (st.beat == Beat.Done ==>
          events == [OnLaserEnd] && attacksSinceRest == (old(attacksSinceRest) + 1) % AttacksBeforeIdle &&
          (act == Act.None || act == Act.Wait))
      ensures body.vx == old(body.vx) || body.vx == 0.0
    {
      AnimTo(Anim.LaserCharge);
      if laser.beamsLeft > 0 {
        if laser.nextDelay > 0 {
          laser := laser.(nextDelay := laser.nextDelay - 1);
          events := [];
        } else {
          events := [AddBolt(Bolt(player)), OnLaserStart];
          laser := laser.(beamsLeft := laser.beamsLeft - 1, nextDelay := LaserInterDelay);
        }
      } else {
        events := [OnLaserEnd];
        EndAction(rolls);
      }
    }

    /** The actions that are not attacks: armour, immunity, dying, waiting, and none. */
    method Passive(onGround: bool, rolls: Rolls)
      requires Valid() && !Attack(act) && act != Act.MeleeApproach && act != Act.Chase
      modifies body`vx, this`anim, this`frame, this`tick, this`act, this`actTicks, this`attacksSinceRest, this`waitMode
      ensures Valid()
      ensures act == old(act) || act == Act.None
      ensures Calm(old(body.vx)) ==> Calm(body.vx)
      ensures old(act) == Act.Armor ==>
        act == Act.Armor && actTicks == old(actTicks) && body.vx == old(body.vx) * 0.7 && anim == Anim.Armor
      ensures old(act) == Act.Immune ==>
        act == (if old(actTicks) - 1 <= 0 then Act.None else Act.Immune) && actTicks == old(actTicks) - 1 &&
        body.vx == old(body.vx) * 0.8 && anim == Anim.Immune
      ensures old(act) == Act.Dying ==> act == Act.Dying && body.vx == 0.0 && anim == Anim.Death
      ensures old(act) == Act.Wait ==>
        act == (if old(actTicks) - 1 <= 0 then Act.None else Act.Wait) && actTicks == old(actTicks) - 1 &&
        (waitMode == WaitMode.Idle ==> body.vx == AirDamp(old(body.vx) * Friction, onGround) && anim == Anim.Idle) &&
        (waitMode == WaitMode.Walk ==>
          body.vx == AirDamp(SteerHoriz(old(body.vx), WaitWalkSpeed * facing as real, Accel, WalkMax), onGround) &&
          anim == (if AbsR(body.vx) > StillSpeed then Anim.Glow else Anim.Idle))
      ensures old(act) == Act.None ==>
        act == Act.None && body.vx == old(body.vx) && anim == old(anim) && frame == old(frame) && tick == old(tick)
      ensures attacksSinceRest == old(attacksSinceRest) && waitMode == old(waitMode)
    {
      match act {
        case Armor =>
          Brace();
        case Immune =>
          ImmuneTick(rolls);
        case Dying =>
          Collapse();
        case Wait =>
          DoWait(onGround, rolls);
        case None =>
      }
    }

    /** Armor: slowing down hard (to 70% a tick) on the armor clip. */
    method Brace()
      requires Valid() && act == Act.Armor
      modifies body`vx, this`anim, this`frame, this`tick
      ensures Valid() && body.vx == old(body.vx) * 0.7 && anim == Anim.Armor
      ensures Calm(old(body.vx)) ==> Calm(body.vx)
    {
      if Calm(body.vx) {
        CalmScaled(body.vx, 0.7);
      }
      body.vx := body.vx * 0.7;
      AnimTo(Anim.Armor);
    }

    /** Dying: standing still on the death clip. */
    method Collapse()
      requires Valid() && act == Act.Dying
      modifies body`vx, this`anim, this`frame, this`tick
      ensures Valid() && body.vx == 0.0 && anim == Anim.Death
    {
      body.vx := 0.0;
      AnimTo(Anim.Death);
    }

    /**
     * The countdown of an action that is not an attack: it ends, without
     * counting, when its time runs out.
     */
    method CountDown(rolls: Rolls)
      requires Valid() && !Attack(act) && act != Act.MeleeApproach
      modifies this`act, this`actTicks, this`attacksSinceRest, this`waitMode, body`vx
      ensures Valid() && actTicks == old(actTicks) - 1
      ensures act == if old(actTicks) - 1 <= 0 then Act.None else old(act)
      ensures attacksSinceRest == old(attacksSinceRest) && waitMode == old(waitMode) && body.vx == old(body.vx)
    {
      actTicks := actTicks - 1;
      if actTicks <= 0 {
        EndAction(rolls);
      }
    }

    /** Immunity: slowing down on the immune clip until its time runs out. */
    method ImmuneTick(rolls: Rolls)
      requires Valid() && act == Act.Immune
      modifies body`vx, this`anim, this`frame, this`tick, this`act, this`actTicks, this`attacksSinceRest, this`waitMode
      ensures Valid() && anim == Anim.Immune && attacksSinceRest == old(attacksSinceRest) && waitMode == old(waitMode)
      ensures body.vx == old(body.vx) * 0.8
      ensures act == (if old(actTicks) - 1 <= 0 then Act.None else Act.Immune) && actTicks == old(actTicks) - 1
    {
      body.vx := body.vx * 0.8;
      AnimTo(Anim.Immune);
      CountDown(rolls);
    }

    /** `doWait`: one tick of loitering, then the countdown. */
    method DoWait(onGround: bool, rolls: Rolls)
      requires Valid() && act == Act.Wait
      modifies body`vx, this`anim, this`frame, this`tick, this`act, this`actTicks, this`attacksSinceRest, this`waitMode
      ensures Valid() && waitMode == old(waitMode) && attacksSinceRest == old(attacksSinceRest)
      ensures act == (if old(actTicks) - 1 <= 0 then Act.None else Act.Wait) && actTicks == old(actTicks) - 1
      ensures Calm(old(body.vx)) ==> Calm(body.vx)
      ensures waitMode == WaitMode.Idle ==> body.vx == AirDamp(old(body.vx) * Friction, onGround) && anim == Anim.Idle
      ensures waitMode == WaitMode.Walk ==>
        body.vx == AirDamp(SteerHoriz(old(body.vx), WaitWalkSpeed * facing as real, Accel, WalkMax), onGround) &&
        AbsR(body.vx) <= WalkMax && anim == (if AbsR(body.vx) > StillSpeed then Anim.Glow else Anim.Idle)
    {
      Loiter(onGround);
      CountDown(rolls);
    }

    /**
     * Loitering: standing (friction, idle clip) or strolling the way the golem
     * faces at up to 2 px a tick, glowing while moving.
     */
    method Loiter(onGround: bool)
      requires Valid() && act == Act.Wait
      modifies body`vx, this`anim, this`frame, this`tick
      ensures Valid()
      ensures waitMode == WaitMode.Idle ==> body.vx == AirDamp(old(body.vx) * Friction, onGround) && anim == Anim.Idle
      ensures waitMode == WaitMode.Walk ==>
        body.vx == AirDamp(SteerHoriz(old(body.vx), WaitWalkSpeed * facing as real, Accel, WalkMax), onGround) &&
        AbsR(body.vx) <= WalkMax && anim == (if AbsR(body.vx) > StillSpeed then Anim.Glow else Anim.Idle)
      ensures Calm(old(body.vx)) ==> Calm(body.vx)
    {
      match waitMode {
        case Idle =>
          if Calm(body.vx) {
            CalmScaled(body.vx, Friction);
          }
          body.vx := AirDamp(body.vx * Friction, onGround);
          AnimTo(Anim.Idle);
        case Walk =>
          var v := SteerHoriz(body.vx, WaitWalkSpeed * facing as real, Accel, WalkMax);
          S.Damped(v, 0.98, WalkMax);
          body.vx := AirDamp(v, onGround);
          AnimTo(if AbsR(body.vx) > StillSpeed then Anim.Glow else Anim.Idle);
      }
    }

    /** With no action left the golem drifts to a stop on the idle clip. */
    method Fallback()
      requires Valid()
      modifies body`vx, this`anim, this`frame, this`tick
      ensures Valid()
      ensures act == Act.None ==> body.vx == old(body.vx) * Friction && anim == Anim.Idle
      ensures act != Act.None ==> body.vx == old(body.vx) && anim == old(anim) && frame == old(frame) && tick == old(tick)
      ensures Calm(old(body.vx)) ==> Calm(body.vx)
    {
      if act == Act.None {
        if Calm(body.vx) {
          CalmScaled(body.vx, Friction);
        }
        body.vx := body.vx * Friction;
        AnimTo(Anim.Idle);
      }
    }

    // --- frames -------------------------------------------------------------------

    /**
     * `advanceFrames`: the armour flash plays once and then ends its action; the
     * range loop holds the strip's last frame; the firing laser cycles the
     * mini-loop over its last frames; every other clip advances on its cadence.
     */
    method AdvanceFrames(rolls: Rolls) returns (events: seq<Event>)
      requires Valid()
      modifies this`frame, this`tick, this`armorPlayOnce, this`loop, this`act, this`actTicks
      modifies this`attacksSinceRest, this`waitMode, body`vx
      ensures Valid()
      ensures events == [] || events == [OnArmorEnd]
      ensures body.vx == old(body.vx) || body.vx == 0.0
      ensures act == old(act) || act == Act.None || act == Act.Wait
      ensures !(anim == Anim.Armor && old(armorPlayOnce)) ==>
        events == [] && act == old(act) && actTicks == old(actTicks) && attacksSinceRest == old(attacksSinceRest) &&
        body.vx == old(body.vx) && armorPlayOnce == old(armorPlayOnce)
      ensures anim == Anim.Armor && old(armorPlayOnce) ==> tick == old(tick) + 1 && loop == old(loop)
      ensures anim == Anim.Armor && old(armorPlayOnce) ==>
        var step := tick % strips.armor.speed == 0;
        var last := old(frame) >= strips.armor.frames - 1;
        (step && last ==> !armorPlayOnce && events == [OnArmorEnd] && frame == old(frame)) &&
        (!(step && last) ==> armorPlayOnce && frame == (if step then old(frame) + 1 else old(frame)))
      ensures anim == Anim.RangeLoop ==> frame == strips.range.frames - 1 && tick == old(tick) + 1 && loop == old(loop)
      ensures anim == Anim.LaserCharge && !laser.casting && laser.hold ==>
        frame == LoopFrame(strips.laser.frames, loop.idx) && tick == old(tick)
      ensures (!(anim == Anim.Armor && old(armorPlayOnce)) && anim != Anim.RangeLoop &&
               !(anim == Anim.LaserCharge && !laser.casting && laser.hold)) ==>
        frame == A.NextFrame(strips.Of(anim), old(frame), old(tick)) && tick == old(tick) + 1 && loop == old(loop)
    {
      events := [];
      if anim == Anim.Armor && armorPlayOnce {
        events := ArmorOnce(rolls);
      } else if anim == Anim.RangeLoop {
        frame, tick := strips.range.frames - 1, tick + 1;
      } else if anim == Anim.LaserCharge && !laser.casting && laser.hold {
        LaserLoop();
      } else {
        frame, tick := A.NextFrame(strips.Of(anim), frame, tick), tick + 1;
      }
    }

    /** The armour flash: one pass through the clip, then the flash and its action end. */
    method ArmorOnce(rolls: Rolls) returns (events: seq<Event>)
      requires Valid() && anim == Anim.Armor && armorPlayOnce
      modifies this`frame, this`tick, this`armorPlayOnce, this`act, this`actTicks, this`attacksSinceRest, this`waitMode
      modifies body`vx
      ensures Valid() && tick == old(tick) + 1
      ensures var step := tick % strips.armor.speed == 0;
        var last := old(frame) >= strips.armor.frames - 1;
        (step && last ==> !armorPlayOnce && events == [OnArmorEnd] && frame == old(frame) && (act == Act.None || act == Act.Wait)) &&
        (!(step && last) ==>
          armorPlayOnce && events == [] && frame == (if step then old(frame) + 1 else old(frame)) &&
          act == old(act) && actTicks == old(actTicks) && attacksSinceRest == old(attacksSinceRest) && body.vx == old(body.vx))
      ensures body.vx == old(body.vx) || body.vx == 0.0
    {
      tick := tick + 1;
      events := [];
      if tick % strips.armor.speed == 0 {
        if frame < strips.armor.frames - 1 {
          frame := frame + 1;
        } else {
          armorPlayOnce := false;
          events := [OnArmorEnd];
          EndAction(rolls);
        }
      }
    }

    /**
     * The laser mini-loop: a new strip resets it; its index advances on the
     * strip's cadence and cycles within the last (up to four) frames.
     */
    method LaserLoop()
      requires Valid() && anim == Anim.LaserCharge
      modifies this`loop, this`frame
      ensures Valid()
      ensures var base := Max(strips.laser.frames - LaserLoopLen, 0);
        var reset := old(loop.base) != base;
        var t := (if reset then 0 else old(loop.tick)) + 1;
        var idx := if reset then 0 else old(loop.idx);
        loop == MiniLoop(base, if t % strips.laser.speed == 0 then NextLoopIdx(strips.laser.frames, idx) else idx, t) &&
        frame == LoopFrame(strips.laser.frames, loop.idx) && frame >= base
    {
      var base := Max(strips.laser.frames - LaserLoopLen, 0);
      if loop.base != base {
        loop := MiniLoop(base, 0, 0);
      }
      loop := loop.(tick := loop.tick + 1);
      if loop.tick % strips.laser.speed == 0 {
        loop := loop.(idx := NextLoopIdx(strips.laser.frames, loop.idx));
      }
      frame := LoopFrame(strips.laser.frames, loop.idx);
    }
  }
}
