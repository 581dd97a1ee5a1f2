/**
 * The actors of the older `GameView` loop (its inner `Player`, `Enemy`, `Boss`
 * and `Bullet`). Each body-carrying actor owns a `PhysicsBody.Body`; bullets
 * are values kept in the view's lists.
 */
module ViewActors {
  import opened Numerics
  import opened Geometry
  import opened Wrappers
  import PB = PhysicsBody

  // ---------------------------------------------------------------------------
  // Reload cadence shared by the three guns
  // ---------------------------------------------------------------------------

  /** A call fires when the cooldown has run out. */
  predicate Fires(cd: int)
  {
    cd <= 0
  }

  /** The cooldown after one call: a call that does not fire only counts down; a shot restarts it at `reload`. */
  function AfterCall(cd: int, reload: int): int
  {
    if cd > 0 then cd - 1 else reload
  }

  /** The number of shots `n` consecutive calls fire, starting from cooldown `cd`. */
  function ShotsFired(cd: int, reload: int, n: nat): nat
    decreases n
  {
    if n == 0 then 0
    else (if Fires(cd) then 1 else 0) + ShotsFired(AfterCall(cd, reload), reload, n - 1)
  }

  /** A cooldown of `cd` keeps the next `cd` calls silent; after that the gun behaves as a ready one. */
  lemma {:induction false} CountDown(cd: int, reload: int, n: nat)
    requires 0 <= cd
    ensures ShotsFired(cd, reload, n) == if n <= cd then 0 else ShotsFired(0, reload, n - cd)
    decreases n
  {
    if n > 0 && cd > 0 {
      CountDown(cd - 1, reload, n - 1);
    }
  }

  /** Held fire: at most one shot in every `reload + 1` calls. */
  lemma {:induction false} ShotRate(cd: int, reload: int, n: nat)
    requires 0 <= cd <= reload
    ensures (reload + 1) * ShotsFired(cd, reload, n) <= n + reload - cd
    decreases n
  {
    if n > 0 {
      if cd > 0 {
        ShotRate(cd - 1, reload, n - 1);
      } else {
        ShotRate(reload, reload, n - 1);
        var k := ShotsFired(reload, reload, n - 1);
        assert (reload + 1) * (1 + k) == (reload + 1) + (reload + 1) * k;
      }
    }
  }

  /** Held fire from a ready gun: exactly `k` shots in `k * (reload + 1)` calls, the first on the first call. */
  lemma {:induction false} HeldFire(reload: int, k: nat)
    requires 0 <= reload
    ensures ShotsFired(0, reload, k * (reload + 1)) == k
  {
    if k > 0 {
      var n := k * (reload + 1);
      assert n - 1 - reload == (k - 1) * (reload + 1);
      CountDown(reload, reload, n - 1);
      HeldFire(reload, k - 1);
    }
  }

  // ---------------------------------------------------------------------------
  // Bullets
  // ---------------------------------------------------------------------------

  const BulletRadius: real := 4.0

  /** A bullet: position, horizontal speed and the `dead` flag. */
  datatype Bullet = Bullet(x: real, y: real, vx: real, dead: bool)

  /** `Bullet.bounds()`: the square of half-side 4 around the centre. */
  function BulletBounds(b: Bullet): (r: RectF)
    ensures r.CenterX() == b.x && r.CenterY() == b.y
    ensures r.Width() == 2.0 * BulletRadius && r.Height() == 2.0 * BulletRadius
  {
    RectF(b.x - BulletRadius, b.y - BulletRadius, b.x + BulletRadius, b.y + BulletRadius)
  }

  /** `Bullet.update()`: moves by `vx`, and dies once outside `[0, pixelWidth]`. */
  function StepBullet(b: Bullet, pixelWidth: real): Bullet
  {
    var x := b.x + b.vx;
    b.(x := x, dead := b.dead || x < 0.0 || x > pixelWidth)
  }

  /** A bullet moves by exactly its speed, never turns, never revives, and is alive after a step exactly when it was alive and is still over the map. */
  lemma StepBulletMeaning(b: Bullet, pixelWidth: real)
    ensures var r := StepBullet(b, pixelWidth);
      r.x == b.x + b.vx && r.y == b.y && r.vx == b.vx
      && (!r.dead <==> !b.dead && 0.0 <= r.x <= pixelWidth)
  {
  }

  // ---------------------------------------------------------------------------
  // Player
  // ---------------------------------------------------------------------------

  const PlayerReload: int := 12
  const PlayerMaxHp: int := 3

  class Player {
    const body: PB.Body
    var hp: int
    var fireCooldown: int

    constructor (px: real, py: real)
      ensures fresh(body)
      ensures body.x == px && body.y == py && body.w == 26.0 && body.h == 30.0
      ensures body.vx == 0.0 && body.vy == 0.0 && !body.canJump && !body.wasJump
      ensures hp == PlayerMaxHp && fireCooldown == 0
    {
      body := new PB.Body(px, py, 26.0, 30.0);
      hp, fireCooldown := PlayerMaxHp, 0;
    }

    /**
     * `tryShoot`: while reloading only counts down; otherwise fires a bullet of
     * speed 7 from the body's centre, forwards unless moving left, and
     * reloads for 12 calls.
     */
    method TryShoot() returns (shot: Option<Bullet>)
      modifies this
      ensures fireCooldown == AfterCall(old(fireCooldown), PlayerReload)
      ensures shot.Some? <==> Fires(old(fireCooldown))
      ensures shot.Some? ==> shot.value == Bullet(body.x + body.w / 2.0, body.y + body.h / 2.0,
        if body.vx >= 0.0 then 7.0 else -7.0, false)
      ensures hp == old(hp)
    {
      if fireCooldown > 0 {
        fireCooldown := fireCooldown - 1;
        return None;
      }
      var dir := if body.vx >= 0.0 then 1.0 else -1.0;
      shot := Some(Bullet(body.x + body.w / 2.0, body.y + body.h / 2.0, 7.0 * dir, false));
      fireCooldown := PlayerReload;
    }

    /** `hit`: one point of damage, never below zero. */
    method Hit()
      modifies this
      ensures old(hp) > 0 ==> hp == old(hp) - 1
      ensures old(hp) <= 0 ==> hp == old(hp)
      ensures 0 <= old(hp) ==> 0 <= hp
      ensures fireCooldown == old(fireCooldown)
    {
      if hp > 0 {
        hp := hp - 1;
      }
    }

    /** `reset`: back to a start position at rest with full health; the gun's cooldown is kept. */
    method Reset(px: real, py: real)
      modifies this, body
      ensures body.x == px && body.y == py && body.vx == 0.0 && body.vy == 0.0
      ensures hp == PlayerMaxHp && !body.canJump && !body.wasJump
      ensures fireCooldown == old(fireCooldown)
    {
      body.x, body.y, body.vx, body.vy := px, py, 0.0, 0.0;
      hp := PlayerMaxHp;
      body.canJump, body.wasJump := false, false;
    }
  }

  // ---------------------------------------------------------------------------
  // Enemy
  // ---------------------------------------------------------------------------

  const EnemyReload: int := 60

  /** What an enemy's turn can change: its flags, its cooldown and its body's motion. */
  datatype EnemyState = EnemyState(alive: bool, patrolRight: bool, shootCD: int, m: PB.Motion, wasJump: bool)

  class Enemy {
    const body: PB.Body
    var patrolRight: bool
    var alive: bool
    var shootCD: int

    function State(): EnemyState
      reads this, body
    {
      EnemyState(alive, patrolRight, shootCD, body.State(), body.wasJump)
    }

    constructor (px: real, py: real)
      ensures fresh(body)
      ensures body.x == px && body.y == py && body.w == 24.0 && body.h == 28.0
      ensures body.vx == 0.0 && body.vy == 0.0 && !body.canJump && !body.wasJump
      ensures patrolRight && alive && shootCD == 0
    {
      body := new PB.Body(px, py, 24.0, 28.0);
      patrolRight, alive, shootCD := true, true, 0;
    }

    /** `tryShoot`: reloads for 60 calls; a shot has speed 5 towards the target's side. */
    method TryShoot(tx: real, ty: real) returns (shot: Option<Bullet>)
      modifies this
      ensures shootCD == AfterCall(old(shootCD), EnemyReload)
      ensures shot.Some? <==> Fires(old(shootCD))
      ensures shot.Some? ==> shot.value == Bullet(body.x + body.w / 2.0, body.y + body.h / 2.0,
        if tx < body.x then -5.0 else 5.0, false)
      ensures alive == old(alive) && patrolRight == old(patrolRight)
    {
      if shootCD > 0 {
        shootCD := shootCD - 1;
        return None;
      }
      var dir := if tx < body.x then -1.0 else 1.0;
      shot := Some(Bullet(body.x + body.w / 2.0, body.y + body.h / 2.0, 5.0 * dir, false));
      shootCD := EnemyReload;
    }

    /** `hit`: one hit kills. */
    method Hit()
      modifies this
      ensures !alive
      ensures shootCD == old(shootCD) && patrolRight == old(patrolRight)
    {
      alive := false;
    }
  }

  // ---------------------------------------------------------------------------
  // Boss
  // ---------------------------------------------------------------------------

  const BossReload: int := 30
  const BossMaxHp: int := 30

  class Boss {
    const body: PB.Body
    var hp: int
    var shootCD: int

    constructor (px: real, py: real)
      ensures fresh(body)
      ensures body.x == px && body.y == py && body.w == 48.0 && body.h == 54.0
      ensures body.vx == 0.0 && body.vy == 0.0 && !body.canJump && !body.wasJump
      ensures hp == BossMaxHp && shootCD == 0
    {
      body := new PB.Body(px, py, 48.0, 54.0);
      hp, shootCD := BossMaxHp, 0;
    }

    /** `alive` is derived: the boss lives while it has health. */
    predicate Alive()
      reads this
    {
      hp > 0
    }

    /** `tryShoot`: nothing once dead; otherwise reloads for 30 calls, and a shot has speed 6 from 60% of the body's height. */
    method TryShoot(tx: real, ty: real) returns (shot: Option<Bullet>)
      modifies this
      ensures !old(Alive()) ==> shot.None? && shootCD == old(shootCD)
      ensures old(Alive()) ==> shootCD == AfterCall(old(shootCD), BossReload) && (shot.Some? <==> Fires(old(shootCD)))
      ensures shot.Some? ==> shot.value == Bullet(body.x + body.w / 2.0, body.y + body.h * 0.6,
        if tx < body.x then -6.0 else 6.0, false)
      ensures hp == old(hp)
    {
      if !Alive() {
        return None;
      }
      if shootCD > 0 {
        shootCD := shootCD - 1;
        return None;
      }
      var dir := if tx < body.x then -1.0 else 1.0;
      shot := Some(Bullet(body.x + body.w / 2.0, body.y + body.h * 0.6, 6.0 * dir, false));
      shootCD := BossReload;
    }

    /** `hit`: one point of damage with no floor, so a caller must check `alive` first. */
    method Hit()
      modifies this
      ensures hp == old(hp) - 1
      ensures old(hp) <= 1 ==> !Alive()
      ensures shootCD == old(shootCD)
    {
      hp := hp - 1;
    }
  }
}
