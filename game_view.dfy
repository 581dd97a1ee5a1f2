/**
 * The older game loop `GameView`: a 500 x 20 generated level, a player with a
 * pea-shooter, patrolling enemies, a boss, two bullet lists and the game
 * flags, advanced one tick at a time by `update`. Touch handling only sets
 * the four control flags, so the flags are fields the caller sets.
 */
module GameView {
  import opened Numerics
  import opened Geometry
  import opened Grid
  import opened Wrappers
  import opened ViewActors
  import Col = Collision
  import VT = ViewTileMap
  import PB = PhysicsBody

  const TileSize: int := 32
  const Gravity: real := 0.5
  const WorldCols: int := 500
  const WorldRows: int := 20

  // ---------------------------------------------------------------------------
  // Tick rules
  // ---------------------------------------------------------------------------

  const Accel: real := 0.8
  const MaxRun: real := 3.5
  const JumpImpulse: real := -9.5

  /** The horizontal control: left or right alone accelerates up to the run cap; neither or both brakes by a fifth. */
  function Steer(vx: real, left: bool, right: bool): real
  {
    if left && !right then MaxR(vx - Accel, -MaxRun)
    else if right && !left then MinR(vx + Accel, MaxRun)
    else vx * 0.8
  }

  /**
   * The run cap is kept: from a speed within it, the control never leaves it;
   * left never speeds the player rightwards, right never leftwards, and with
   * neither (or both) held the speed only decays.
   */
  lemma SteerBounded(vx: real, left: bool, right: bool)
    requires -MaxRun <= vx <= MaxRun
    ensures -MaxRun <= Steer(vx, left, right) <= MaxRun
    ensures left && !right ==> Steer(vx, left, right) <= vx
    ensures right && !left ==> Steer(vx, left, right) >= vx
    ensures left == right ==> AbsR(Steer(vx, left, right)) <= AbsR(vx)
  {
  }

  /** The jump impulse needs the button newly pressed and the body on the ground. */
  predicate JumpFires(jumpDown: bool, canJump: bool, wasJumpDown: bool)
  {
    jumpDown && canJump && !wasJumpDown
  }

  /** An enemy within 280 px turns towards the player at 1.2 px per tick; otherwise it patrols at 1 px per tick. */
  function EnemyVx(ex: real, px: real, patrolRight: bool): real
  {
    if AbsR(ex - px) < 280.0 then (if px < ex then -1.2 else 1.2)
    else if patrolRight then 1.0 else -1.0
  }

  lemma EnemyVxMeaning(ex: real, px: real, patrolRight: bool)
    ensures var v := EnemyVx(ex, px, patrolRight);
      (AbsR(ex - px) < 280.0 ==> AbsR(v) == 1.2 && (v < 0.0 <==> px < ex))
      && (AbsR(ex - px) >= 280.0 ==> AbsR(v) == 1.0 && (v > 0.0 <==> patrolRight))
  {
  }

  /** An enemy shoots only with the player within 340 px across and 120 px up or down. */
  predicate EnemySees(ex: real, ey: real, px: real, py: real)
  {
    AbsR(ex - px) < 340.0 && AbsR(ey - py) < 120.0
  }

  /** The boss holds still within 60 px of the player and otherwise walks towards the player at 1.4 px per tick. */
  function BossVx(bx: real, px: real): real
  {
    if px < bx - 60.0 then -1.4 else if px > bx + 60.0 then 1.4 else 0.0
  }

  lemma BossVxMeaning(bx: real, px: real)
    ensures var v := BossVx(bx, px);
      (v == 0.0 <==> AbsR(px - bx) <= 60.0)
      && (v < 0.0 <==> px < bx - 60.0) && (v > 0.0 <==> px > bx + 60.0)
      && AbsR(v) <= 1.4
  {
  }

  /** `Cloud.update`: drifts right by 0.2 px and wraps back 400 px once 50 px past the right edge of the view. */
  function CloudStep(x: real, camX: real, width: real): real
  {
    var nx := x + 0.2;
    if nx - camX > width + 50.0 then nx - 400.0 else nx
  }

  /** With the camera still, a cloud no further right than 50 px past the view never gets further. */
  lemma CloudStaysNear(x: real, camX: real, width: real)
    requires x - camX <= width + 50.0
    ensures CloudStep(x, camX, width) - camX <= width + 50.0
    ensures x < CloudStep(x, camX, width) || CloudStep(x, camX, width) < x - 399.0
  {
  }

  /** The camera follow: centred on `p`, clamped to the world. */
  function Follow(p: real, view: real, world: real): (c: real)
    requires view <= world
    ensures 0.0 <= c <= world - view
    ensures 0.0 <= p - view / 2.0 <= world - view ==> c == p - view / 2.0
  {
    CoerceInR(p - view / 2.0, 0.0, world - view)
  }

  /**
   * The camera follow as `update` writes it, `(p - view / 2).coerceIn(0, world - view)`:
   * Kotlin's `coerceIn` throws `IllegalArgumentException` on an empty range,
   * so a view larger than the world gives no camera position (`None`).
   */
  function FollowChecked(p: real, view: real, world: real): (r: Option<real>)
    ensures r.None? <==> world < view
    ensures r.Some? ==> 0.0 <= r.value <= world - view
  {
    if world < view then None else Some(Follow(p, view, world))
  }

  /** The level is 640 pixels tall, so a view 720 pixels tall (a 720p screen in landscape) makes the follow throw. */
  lemma TallViewThrows(py: real)
    ensures FollowChecked(py, 720.0, (WorldRows * TileSize) as real) == None
  {
  }

  /**
   * The camera follow with the empty range handled as the level's own camera
   * does: a view larger than the world stays pinned at 0; otherwise the
   * clamped follow.
   */
  function Pinned(p: real, view: real, world: real): (c: real)
    ensures 0.0 <= c
    ensures view <= world ==> c + view <= world
    ensures 0.0 <= p - view / 2.0 <= world - view ==> c == p - view / 2.0
    ensures world < view ==> c == 0.0
  {
    if world < view then 0.0 else Follow(p, view, world)
  }

  /** Wherever the follow as written gives a position, the pinned follow gives the same one. */
  lemma PinnedAgrees(p: real, view: real, world: real)
    ensures FollowChecked(p, view, world).Some? ==> FollowChecked(p, view, world).value == Pinned(p, view, world)
    ensures FollowChecked(p, view, world).None? ==> Pinned(p, view, world) == 0.0
  {
  }

  // ---------------------------------------------------------------------------
  // Bullet bookkeeping
  // ---------------------------------------------------------------------------

  /** `removeAll`'s test: the bullet is dead, or its centre pixel is in a solid cell. */
  predicate Gone(g: Grid, cols: int, rows: int, tile: int, b: Bullet)
    requires WellFormed(g, cols, rows) && 0 < tile
  {
    b.dead || Col.IsSolidAtPx(g, cols, rows, tile, Trunc(b.x), Trunc(b.y))
  }

  /** The bullets `removeAll` keeps, in their order. */
  function Survivors(g: Grid, cols: int, rows: int, tile: int, bs: seq<Bullet>): (r: seq<Bullet>)
    requires WellFormed(g, cols, rows) && 0 < tile
    ensures |r| <= |bs|
    ensures forall b :: b in r <==> b in bs && !Gone(g, cols, rows, tile, b)
  {
    if bs == [] then []
    else
      var init := bs[..|bs| - 1];
      var last := bs[|bs| - 1];
      assert bs == init + [last];
      Survivors(g, cols, rows, tile, init) + (if Gone(g, cols, rows, tile, last) then [] else [last])
  }

  /** Whether one of the first `n` bullets overlaps `r`. */
  function Struck(bs: seq<Bullet>, n: int, r: RectF): bool
    requires 0 <= n <= |bs|
  {
    n > 0 && (Struck(bs, n - 1, r) || Overlap(BulletBounds(bs[n - 1]), r))
  }

  /** How many of the first `n` bullets overlap `r`. */
  function CountStruck(bs: seq<Bullet>, n: int, r: RectF): (k: nat)
    requires 0 <= n <= |bs|
    ensures k <= n
    ensures k > 0 <==> Struck(bs, n, r)
  {
    if n == 0 then 0 else CountStruck(bs, n - 1, r) + (if Overlap(BulletBounds(bs[n - 1]), r) then 1 else 0)
  }

  /** The boss's health after the first `n` player bullets: each overlapping bullet costs one point while the boss lives. */
  function BossHpAfter(hp: int, bs: seq<Bullet>, n: int, br: RectF): (h: int)
    requires 0 <= n <= |bs|
    ensures h <= hp
    ensures hp > 0 ==> h >= 0
    ensures hp <= 0 ==> h == hp
  {
    if n == 0 then hp
    else
      var h := BossHpAfter(hp, bs, n - 1, br);
      if h > 0 && Overlap(BulletBounds(bs[n - 1]), br) then h - 1 else h
  }

  /** The boss loses one point per overlapping bullet until it is empty: its health is the hit count taken off, floored at zero. */
  lemma {:induction false} BossHpCounts(hp: int, bs: seq<Bullet>, n: int, br: RectF)
    requires 0 <= hp && 0 <= n <= |bs|
    ensures BossHpAfter(hp, bs, n, br) == Max(hp - CountStruck(bs, n, br), 0)
  {
    if n > 0 {
      BossHpCounts(hp, bs, n - 1, br);
    }
  }

  /** Whether bullet `i` meets one of the first `n` enemies while that enemy still lives (it was alive and no earlier bullet hit it). */
  function KillsAny(alive: seq<bool>, rects: seq<RectF>, bs: seq<Bullet>, i: int, n: int): bool
    requires |alive| == |rects| && 0 <= n <= |rects| && 0 <= i < |bs|
  {
    n > 0 && (KillsAny(alive, rects, bs, i, n - 1)
      || (alive[n - 1] && !Struck(bs, i, rects[n - 1]) && Overlap(BulletBounds(bs[i]), rects[n - 1])))
  }

  /** A bullet is spent on an enemy only by overlapping one that was still alive. */
  lemma {:induction false} KillsAnyMeaning(alive: seq<bool>, rects: seq<RectF>, bs: seq<Bullet>, i: int, n: int)
    requires |alive| == |rects| && 0 <= n <= |rects| && 0 <= i < |bs|
    ensures KillsAny(alive, rects, bs, i, n) <==>
      exists j :: 0 <= j < n && alive[j] && !Struck(bs, i, rects[j]) && Overlap(BulletBounds(bs[i]), rects[j])
  {
    if n > 0 {
      KillsAnyMeaning(alive, rects, bs, i, n - 1);
    }
  }

  /** Whether player bullet `i` is spent by the collision pass: it killed a living enemy, or struck the boss while the boss lived. */
  predicate SpentShot(alive: seq<bool>, rects: seq<RectF>, hp: int, br: RectF, bs: seq<Bullet>, i: int)
    requires |alive| == |rects| && 0 <= i < |bs|
  {
    KillsAny(alive, rects, bs, i, |rects|) || (BossHpAfter(hp, bs, i, br) > 0 && Overlap(BulletBounds(bs[i]), br))
  }

  /** Every bullet after one flight step, in order. */
  function Flown(bs: seq<Bullet>, pixelWidth: real): (r: seq<Bullet>)
    ensures |r| == |bs| && forall i :: 0 <= i < |bs| ==> r[i] == StepBullet(bs[i], pixelWidth)
  {
    seq(|bs|, i requires 0 <= i < |bs| => StepBullet(bs[i], pixelWidth))
  }

  /** The player's bullets after the collision pass: a bullet is marked dead exactly when it was spent on an enemy or the boss. */
  function Volley(bs: seq<Bullet>, alive: seq<bool>, rects: seq<RectF>, hp: int, br: RectF): (r: seq<Bullet>)
    requires |alive| == |rects|
    ensures |r| == |bs|
    ensures forall i :: 0 <= i < |bs| ==> r[i].x == bs[i].x && r[i].y == bs[i].y && r[i].vx == bs[i].vx
    ensures forall i :: 0 <= i < |bs| ==> (r[i].dead <==> bs[i].dead || SpentShot(alive, rects, hp, br, bs, i))
  {
    seq(|bs|, i requires 0 <= i < |bs| => bs[i].(dead := bs[i].dead || SpentShot(alive, rects, hp, br, bs, i)))
  }

  /** The enemies' bullets after the collision pass: a bullet is marked dead exactly when it overlaps the player's box `pr`. */
  function Doused(eb: seq<Bullet>, pr: RectF): (r: seq<Bullet>)
    ensures |r| == |eb|
    ensures forall i :: 0 <= i < |eb| ==> r[i].x == eb[i].x && r[i].y == eb[i].y && r[i].vx == eb[i].vx
    ensures forall i :: 0 <= i < |eb| ==> (r[i].dead <==> eb[i].dead || Overlap(BulletBounds(eb[i]), pr))
  {
    seq(|eb|, i requires 0 <= i < |eb| => eb[i].(dead := eb[i].dead || Overlap(BulletBounds(eb[i]), pr)))
  }

  /** The bullet a shot adds to its list: one, or none. */
  function Added(shot: Option<Bullet>): (r: seq<Bullet>)
    ensures |r| <= 1 && forall b :: b in r <==> shot == Some(b)
  {
    if shot.Some? then [shot.value] else []
  }

  /** `bullets.forEach { it.update() }`. */
  method StepAll(bs: seq<Bullet>, pixelWidth: real) returns (r: seq<Bullet>)
    ensures r == Flown(bs, pixelWidth)
  {
    r := bs;
    var i := 0;
    while i < |r|
      invariant 0 <= i <= |r| == |bs|
      invariant forall k :: 0 <= k < i ==> r[k] == StepBullet(bs[k], pixelWidth)
      invariant forall k :: i <= k < |r| ==> r[k] == bs[k]
    {
      r := r[i := StepBullet(r[i], pixelWidth)];
      i := i + 1;
    }
  }

  /** `removeAll { it.dead || isSolidAtPx(...) }`. */
  method Sweep(g: Grid, cols: int, rows: int, tile: int, bs: seq<Bullet>) returns (r: seq<Bullet>)
    requires WellFormed(g, cols, rows) && 0 < tile
    ensures r == Survivors(g, cols, rows, tile, bs)
  {
    r := [];
    var i := 0;
    while i < |bs|
      invariant 0 <= i <= |bs|
      invariant r == Survivors(g, cols, rows, tile, bs[..i])
    {
      assert bs[..i + 1][..i] == bs[..i];
      if !Gone(g, cols, rows, tile, bs[i]) {
        r := r + [bs[i]];
      }
      i := i + 1;
    }
    assert bs[..|bs|] == bs;
  }

  // ---------------------------------------------------------------------------
  // The view
  // ---------------------------------------------------------------------------

  /** The shots of one round of enemy turns, in enemy order. */
  function Fired(shots: seq<Option<Bullet>>): (r: seq<Bullet>)
    ensures |r| <= |shots|
    ensures forall b :: b in r <==> Some(b) in shots
  {
    if shots == [] then []
    else (if shots[0].Some? then [shots[0].value] else []) + Fired(shots[1..])
  }

  /**
   * The player's move from `m` to `m'` (its body `w` x `h`) under the
   * controls: they set the speed and may jump (the button pressed now and
   * not on the last frame, `wasJump`), gravity adds to the fall, then the
   * collision pass moves the body.
   */
  ghost predicate Moved(t: VT.TileMap, w: real, h: real, left: bool, right: bool, jumpDown: bool,
    m: PB.Motion, wasJump: bool, m': PB.Motion)
    requires Level(t)
  {
    var jump := JumpFires(jumpDown, m.canJump, wasJump);
    Col.Collided(t.grid, t.cols, t.rows, t.tile, w, h,
      m.(vx := Steer(m.vx, left, right), vy := (if jump then JumpImpulse else m.vy) + Gravity, canJump := m.canJump && !jump),
      m')
  }

  /**
   * One enemy's turn from `e` to `e'` (its body `w` x `h`) against a player
   * at `(px, py)`: a dead enemy is left as it was; a living one gains
   * gravity, chases or patrols, moves through the level by the collision
   * pass, and shoots through its reload only with the player in sight, from
   * its centre towards the player's side.
   */
  ghost predicate Stepped(t: VT.TileMap, w: real, h: real, e: EnemyState, e': EnemyState, px: real, py: real, shot: Option<Bullet>)
    requires Level(t)
  {
    e'.alive == e.alive && e'.patrolRight == e.patrolRight
    && if !e.alive then
      shot.None? && e' == e
    else
      Col.Collided(t.grid, t.cols, t.rows, t.tile, w, h,
        e.m.(vx := EnemyVx(e.m.x, px, e.patrolRight), vy := e.m.vy + Gravity), e'.m)
      && e'.wasJump == e.wasJump
      && if EnemySees(e'.m.x, e'.m.y, px, py) then
        e'.shootCD == AfterCall(e.shootCD, EnemyReload) && (shot.Some? <==> Fires(e.shootCD))
        && (shot.Some? ==> shot.value == Bullet(e'.m.x + w / 2.0, e'.m.y + h / 2.0, if px < e'.m.x then -5.0 else 5.0, false))
      else
        e'.shootCD == e.shootCD && shot.None?
  }


  /**
   * The player's bullets `bs` after flying, leaving the walls and hitting, on
   * the level `t`: `bs'` marks the spent ones, each enemy that was alive
   * (`alive`, boxes `rects`) is alive afterwards (`alive'`) exactly when no
   * surviving bullet overlaps it, and the boss (box `br`) loses a point per
   * overlapping bullet while it lives, from `hp` to `hp'`.
   */
  ghost predicate PlayerVolley(t: VT.TileMap, bs: seq<Bullet>, alive: seq<bool>, rects: seq<RectF>, hp: int, br: RectF,
    bs': seq<Bullet>, alive': seq<bool>, hp': int)
    requires Level(t)
  {
    var s := Survivors(t.grid, t.cols, t.rows, t.tile, Flown(bs, t.pixelWidth));
    |alive| == |rects| == |alive'|
    && bs' == Volley(s, alive, rects, hp, br)
    && (forall j :: 0 <= j < |alive'| ==> alive'[j] == (alive[j] && !Struck(s, |s|, rects[j])))
    && hp' == BossHpAfter(hp, s, |s|, br)
  }

  /**
   * The enemies' bullets `ebs` after flying, leaving the walls and hitting, on
   * the level `t`: `ebs'` marks those overlapping the player's box `pr`, and
   * the player loses one heart per such bullet, from `hp` to `hp'`, never
   * below 0.
   */
  ghost predicate EnemyVolley(t: VT.TileMap, ebs: seq<Bullet>, hp: int, pr: RectF, ebs': seq<Bullet>, hp': int)
    requires Level(t)
  {
    PlayerHit(Survivors(t.grid, t.cols, t.rows, t.tile, Flown(ebs, t.pixelWidth)), pr, hp, ebs', hp')
  }

  /**
   * The player's box `pr` against the flying enemy bullets `eb`: `eb'` marks
   * the overlapping ones spent, and each costs a heart, from `hp` to `hp'`,
   * never below 0.
   */
  ghost predicate PlayerHit(eb: seq<Bullet>, pr: RectF, hp: int, eb': seq<Bullet>, hp': int)
  {
    eb' == Doused(eb, pr) && hp' == Max(hp - CountStruck(eb, |eb|, pr), 0)
  }

  /** The generated level `GameView` plays on: 500 x 20 cells of 32 pixels. */
  ghost predicate Level(t: VT.TileMap)
  {
    t.tile == TileSize && t.cols == WorldCols && t.rows == WorldRows
    && WellFormed(t.grid, t.cols, t.rows)
    && t.pixelWidth == (WorldCols * TileSize) as real && t.pixelHeight == (WorldRows * TileSize) as real
  }

  /** The actors: distinct enemies, and no physics body shared between any two actors. */
  ghost predicate Cast(p: Player, b: Boss, es: seq<Enemy>)
  {
    p.body != b.body
    && (forall j :: 0 <= j < |es| ==> es[j].body != p.body && es[j].body != b.body)
    && (forall j, k :: 0 <= j < k < |es| ==> es[j] != es[k] && es[j].body != es[k].body)
  }

  class GameView {
    const tiles: VT.TileMap
    const player: Player
    var enemies: seq<Enemy>
    var boss: Boss
    var bullets: seq<Bullet>
    var enemyBullets: seq<Bullet>
    var cloudX: seq<real>
    var paused: bool
    var gameOver: bool
    var victory: bool
    var leftDown: bool
    var rightDown: bool
    var jumpDown: bool
    var fireDown: bool
    var camX: real
    var camY: real

    /** The enemies' bodies, which `update` moves. */
    function Bodies(): set<PB.Body>
      reads this
    {
      set j | 0 <= j < |enemies| :: enemies[j].body
    }

    /** The enemies' bounding boxes, in list order. */
    function EnemyRects(): (r: seq<RectF>)
      reads this, Bodies()
      ensures |r| == |enemies| && forall j :: 0 <= j < |enemies| ==> r[j] == enemies[j].body.Bounds()
    {
      seq(|enemies|, j reads this, Bodies() requires 0 <= j < |enemies| => enemies[j].body.Bounds())
    }

    /** The enemies' `alive` flags, in list order. */
    function AliveFlags(): (r: seq<bool>)
      reads this, enemies
      ensures |r| == |enemies| && forall j :: 0 <= j < |enemies| ==> r[j] == enemies[j].alive
    {
      seq(|enemies|, j reads this, enemies requires 0 <= j < |enemies| => enemies[j].alive)
    }

    /** The 500 x 20 level, and one object and one body per actor, no two shared. */
    ghost predicate Valid()
      reads this`boss, this`enemies
    {
      Level(tiles) && Cast(player, boss, enemies)
    }

    constructor ()
      ensures Valid()
      ensures !paused && !gameOver && !victory && bullets == [] && enemyBullets == []
      ensures player.hp == PlayerMaxHp && boss.hp == BossMaxHp
      ensures player.body.x == tiles.playerStart.x as real && player.body.y == tiles.playerStart.y as real
      ensures |enemies| == |tiles.spawnPoints|
      ensures |cloudX| == 12 && forall i :: 0 <= i < 12 ==> cloudX[i] == (i * 300) as real + 50.0
    {
      var m := new VT.TileMap(TileSize, WorldCols, WorldRows);
      tiles := m;
      player := new Player(m.playerStart.x as real, m.playerStart.y as real);
      var es := SpawnEnemies(m.spawnPoints);
      enemies := es;
      boss := new Boss(m.bossStart.x as real, m.bossStart.y as real);
      bullets, enemyBullets := [], [];
      cloudX := seq(12, i => (i * 300) as real + 50.0);
      paused, gameOver, victory := false, false, false;
      leftDown, rightDown, jumpDown, fireDown := false, false, false, false;
      camX, camY := 0.0, 0.0;
    }

    /** `update`: one tick of the game, or nothing at all while paused, lost or won. */
    method Update(width: int, height: int)
      requires Valid() && 0 <= player.hp
      modifies this, player, player.body, boss, boss.body, enemies, Bodies()
      ensures Valid() && 0 <= player.hp
      ensures enemies == old(enemies) && boss == old(boss)
      ensures old(paused || gameOver || victory) ==>
        unchanged(this, player, player.body, boss, boss.body) && unchanged(old(enemies)) && unchanged(old(Bodies()))
      ensures !old(paused || gameOver || victory) ==> Ticked(width, height)
    {
      if paused || gameOver || victory {
        return;
      }
      Tick(width, height);
    }

    /**
     * What a tick promises: controls and pause untouched, the outcome flags
     * set by this tick's hits, every cloud drifted against the previous
     * camera, and the camera centred on the player's new position, clamped to
     * the world, or pinned at 0 on an axis where the view is larger than the
     * world.
     */
    twostate predicate Ticked(width: int, height: int)
      reads this, player, player.body, boss
    {
      paused == old(paused)
      && leftDown == old(leftDown) && rightDown == old(rightDown) && jumpDown == old(jumpDown) && fireDown == old(fireDown)
      && victory == (old(boss.hp) > 0 && boss.hp <= 0)
      && (player.hp < old(player.hp) && player.hp == 0 ==> gameOver) && (gameOver ==> player.hp == 0)
      && |cloudX| == |old(cloudX)|
      && (forall i :: 0 <= i < |cloudX| ==> cloudX[i] == CloudStep(old(cloudX)[i], old(camX), width as real))
      && camX == Pinned(player.body.x, width as real, tiles.pixelWidth)
      && camY == Pinned(player.body.y, height as real, tiles.pixelHeight)
    }

    /**
     * The body of `update` when the game is running: clouds, the player,
     * the foes, the bullets, then the camera. The boss emptied by this
     * tick's bullets wins the game, and the player emptied by them loses it.
     */
    method Tick(width: int, height: int)
      requires Valid() && 0 <= player.hp
      modifies this, player, player.body, boss, boss.body, enemies, Bodies()
      ensures Valid() && 0 <= player.hp
      ensures enemies == old(enemies) && boss == old(boss)
      ensures Ticked(width, height)
    {
      var clouds := StepClouds(cloudX, camX, width as real);
      var shot, foeShots, bs, ebs, won, lost := Advance();
      var cx := Pinned(player.body.x, width as real, tiles.pixelWidth);
      var cy := Pinned(player.body.y, height as real, tiles.pixelHeight);
      ghost var px, py, hp, bhp := player.body.x, player.body.y, player.hp, boss.hp;
      Show(clouds, bs, ebs, won, lost, cx, cy);
      assert player.body.x == px && player.body.y == py && player.hp == hp && boss.hp == bhp;
    }

    /** Stores a tick's results: the clouds, both bullet lists, the outcome flags and the camera. */
    method Show(clouds: seq<real>, bs: seq<Bullet>, ebs: seq<Bullet>, won: bool, lost: bool, cx: real, cy: real)
      modifies this`cloudX, this`bullets, this`enemyBullets, this`victory, this`gameOver, this`camX, this`camY
      ensures cloudX == clouds && bullets == bs && enemyBullets == ebs && victory == won && gameOver == lost && camX == cx && camY == cy
    {
      cloudX, bullets, enemyBullets, victory, gameOver, camX, camY := clouds, bs, ebs, won, lost, cx, cy;
    }

    /**
     * The actors' part of a tick: the player moves and may fire (`shot`),
     * the foes move and fire (`foeShots`), then both bullet lists, with the
     * new shots appended, fly and hit. Returns the new lists and whether the
     * boss or the player was emptied.
     */
    method Advance() returns (shot: Option<Bullet>, foeShots: seq<Bullet>, bs: seq<Bullet>, ebs: seq<Bullet>, won: bool, lost: bool)
      requires Valid() && 0 <= player.hp
      modifies player, player.body, boss, boss.body, enemies, Bodies()
      ensures 0 <= player.hp
      ensures won == (old(boss.hp) > 0 && boss.hp <= 0)
      ensures lost ==> player.hp == 0
      ensures player.hp < old(player.hp) && player.hp == 0 ==> lost
      ensures Moved(tiles, player.body.w, player.body.h, leftDown, rightDown, jumpDown,
        old(player.body.State()), old(player.body.wasJump), player.body.State())
      ensures player.body.wasJump == jumpDown
      ensures shot.Some? <==> fireDown && Fires(old(player.fireCooldown))
      ensures shot.Some? ==> shot.value == Bullet(player.body.x + player.body.w / 2.0, player.body.y + player.body.h / 2.0,
        if player.body.vx >= 0.0 then 7.0 else -7.0, false)
      ensures |foeShots| <= |enemies| + 1
      ensures PlayerVolley(tiles, bullets + Added(shot), old(AliveFlags()), EnemyRects(), old(boss.hp), boss.body.Bounds(),
        bs, AliveFlags(), boss.hp)
      ensures EnemyVolley(tiles, enemyBullets + foeShots, old(player.hp), player.body.Bounds(), ebs, player.hp)
    {
      shot, foeShots := Move();
      ghost var m := player.body.State();
      bs, ebs, won, lost := ResolveBullets(bullets + Added(shot), enemyBullets + foeShots);
      assert player.body.State() == m;
    }

    /** The actors' moves in a tick: the player moves and may fire (`shot`), then the foes move and fire (`foeShots`); nobody is hurt yet. */
    method Move() returns (shot: Option<Bullet>, foeShots: seq<Bullet>)
      requires Valid()
      modifies player, player.body, boss, boss.body, enemies, Bodies()
      ensures player.hp == old(player.hp) && boss.hp == old(boss.hp) && AliveFlags() == old(AliveFlags())
      ensures Moved(tiles, player.body.w, player.body.h, leftDown, rightDown, jumpDown,
        old(player.body.State()), old(player.body.wasJump), player.body.State())
      ensures player.body.wasJump == jumpDown
      ensures shot.Some? <==> fireDown && Fires(old(player.fireCooldown))
      ensures shot.Some? ==> shot.value == Bullet(player.body.x + player.body.w / 2.0, player.body.y + player.body.h / 2.0,
        if player.body.vx >= 0.0 then 7.0 else -7.0, false)
      ensures |foeShots| <= |enemies| + 1
    {
      ghost var alive0 := AliveFlags();
      shot := MovePlayer();
      assert AliveFlags() == alive0;
      ghost var m := player.body.State();
      foeShots := MoveFoes();
      assert AliveFlags() == alive0 && player.body.State() == m;
    }

    /** The player's part of `update`: the controls, gravity, the move through the level, and a shot while fire is held. */
    method MovePlayer() returns (shot: Option<Bullet>)
      requires Valid()
      modifies player, player.body
      ensures player.hp == old(player.hp)
      ensures Moved(tiles, player.body.w, player.body.h, leftDown, rightDown, jumpDown,
        old(player.body.State()), old(player.body.wasJump), player.body.State())
      ensures player.body.wasJump == jumpDown
      ensures !fireDown ==> shot.None? && player.fireCooldown == old(player.fireCooldown)
      ensures fireDown ==>
        player.fireCooldown == AfterCall(old(player.fireCooldown), PlayerReload) && (shot.Some? <==> Fires(old(player.fireCooldown)))
      ensures shot.Some? ==> shot.value == Bullet(player.body.x + player.body.w / 2.0, player.body.y + player.body.h / 2.0,
        if player.body.vx >= 0.0 then 7.0 else -7.0, false)
    {
      Control();
      player.body.vy := player.body.vy + Gravity;
      Col.MoveAndCollide(tiles.grid, tiles.cols, tiles.rows, tiles.tile, player.body);
      shot := None;
      if fireDown {
        shot := player.TryShoot();
      }
    }

    /** The foes' part of `update`: every enemy's turn, then the boss's; their shots in firing order. */
    method MoveFoes() returns (shots: seq<Bullet>)
      requires Valid()
      modifies enemies, Bodies(), boss, boss.body
      ensures |shots| <= |enemies| + 1
      ensures boss.hp == old(boss.hp)
      ensures forall j :: 0 <= j < |enemies| ==> enemies[j].alive == old(enemies[j].alive)
    {
      var fired := StepEnemies();
      var bossShot := StepBoss();
      shots := Fired(fired) + (if bossShot.Some? then [bossShot.value] else []);
    }

    /**
     * The bullets' part of `update`: both lists move and lose their dead and
     * walled-in bullets, then the player's bullets hit enemies and boss and
     * the enemies' bullets hit the player.
     */
    method ResolveBullets(bs: seq<Bullet>, ebs: seq<Bullet>) returns (bs': seq<Bullet>, ebs': seq<Bullet>, won: bool, lost: bool)
      requires Valid() && 0 <= player.hp
      modifies enemies, boss, player
      ensures 0 <= player.hp
      ensures won == (old(boss.hp) > 0 && boss.hp <= 0)
      ensures lost ==> player.hp == 0
      ensures player.hp < old(player.hp) && player.hp == 0 ==> lost
      ensures |bs'| <= |bs| && |ebs'| <= |ebs|
      ensures PlayerVolley(tiles, bs, old(AliveFlags()), EnemyRects(), old(boss.hp), boss.body.Bounds(), bs', AliveFlags(), boss.hp)
      ensures EnemyVolley(tiles, ebs, old(player.hp), player.body.Bounds(), ebs', player.hp)
      ensures player.fireCooldown == old(player.fireCooldown)
    {
      bs', won := PlayerSide(bs);
      ghost var alive1, rects1 := AliveFlags(), EnemyRects();
      ebs', lost := EnemySide(ebs);
      assert AliveFlags() == alive1 && EnemyRects() == rects1;
    }

    /** The player's bullets fly, leave the walls and hit the enemies and the boss. */
    method PlayerSide(bs: seq<Bullet>) returns (bs': seq<Bullet>, won: bool)
      requires Valid()
      modifies enemies, boss
      ensures won == (old(boss.hp) > 0 && boss.hp <= 0)
      ensures |bs'| <= |bs|
      ensures PlayerVolley(tiles, bs, old(AliveFlags()), EnemyRects(), old(boss.hp), boss.body.Bounds(), bs', AliveFlags(), boss.hp)
    {
      bs' := StepAll(bs, tiles.pixelWidth);
      bs' := Sweep(tiles.grid, tiles.cols, tiles.rows, tiles.tile, bs');
      ghost var s := bs';
      ghost var alive0 := AliveFlags();
      ghost var rects := EnemyRects();
      bs', won := PlayerBulletsHit(bs', alive0, rects);
      assert EnemyRects() == rects;
    }

    /** The enemies' bullets fly, leave the walls and hit the player. */
    method EnemySide(ebs: seq<Bullet>) returns (ebs': seq<Bullet>, lost: bool)
      requires Valid() && 0 <= player.hp
      modifies player
      ensures 0 <= player.hp
      ensures lost ==> player.hp == 0
      ensures player.hp < old(player.hp) && player.hp == 0 ==> lost
      ensures |ebs'| <= |ebs|
      ensures EnemyVolley(tiles, ebs, old(player.hp), player.body.Bounds(), ebs', player.hp)
      ensures player.fireCooldown == old(player.fireCooldown)
    {
      ebs' := StepAll(ebs, tiles.pixelWidth);
      ebs' := Sweep(tiles.grid, tiles.cols, tiles.rows, tiles.tile, ebs');
      ghost var pr := player.body.Bounds();
      ebs', lost := EnemyBulletsHit(ebs');
      assert player.body.Bounds() == pr;
    }

    /** `clouds.forEach { it.update() }`, against the camera of the previous tick. */
    static method StepClouds(xs: seq<real>, camX: real, width: real) returns (r: seq<real>)
      ensures |r| == |xs| && forall i :: 0 <= i < |xs| ==> r[i] == CloudStep(xs[i], camX, width)
    {
      r := xs;
      var i := 0;
      while i < |r|
        invariant 0 <= i <= |r| == |xs|
        invariant forall k :: 0 <= k < i ==> r[k] == CloudStep(xs[k], camX, width)
        invariant forall k :: i <= k < |r| ==> r[k] == xs[k]
      {
        r := r[i := CloudStep(r[i], camX, width)];
        i := i + 1;
      }
    }

    /** The control half of `update`: steering, then the jump on a rising edge of the jump button. */
    method Control()
      modifies player.body
      ensures player.body.vx == Steer(old(player.body.vx), leftDown, rightDown)
      ensures JumpFires(jumpDown, old(player.body.canJump), old(player.body.wasJump)) ==>
        player.body.vy == JumpImpulse && !player.body.canJump
      ensures !JumpFires(jumpDown, old(player.body.canJump), old(player.body.wasJump)) ==>
        player.body.vy == old(player.body.vy) && player.body.canJump == old(player.body.canJump)
      ensures player.body.wasJump == jumpDown
      ensures player.body.x == old(player.body.x) && player.body.y == old(player.body.y)
    {
      var p := player.body;
      if leftDown && !rightDown {
        p.vx := MaxR(p.vx - Accel, -MaxRun);
      } else if rightDown && !leftDown {
        p.vx := MinR(p.vx + Accel, MaxRun);
      } else {
        p.vx := p.vx * 0.8;
      }
      if jumpDown && p.canJump && !p.wasJump {
        p.vy := JumpImpulse;
        p.canJump := false;
      }
      p.wasJump := jumpDown;
    }

    /** One enemy's turn: gravity, chase or patrol, collisions, then a shot if the player is in sight. */
    method StepEnemy(j: int) returns (shot: Option<Bullet>)
      requires Valid() && 0 <= j < |enemies|
      modifies enemies[j], enemies[j].body
      ensures Stepped(tiles, enemies[j].body.w, enemies[j].body.h, old(enemies[j].State()), enemies[j].State(),
        player.body.x, player.body.y, shot)
    {
      var e := enemies[j];
      shot := None;
      if !e.alive {
        return;
      }
      e.body.vy := e.body.vy + Gravity;
      e.body.vx := EnemyVx(e.body.x, player.body.x, e.patrolRight);
      Col.MoveAndCollide(tiles.grid, tiles.cols, tiles.rows, tiles.tile, e.body);
      if EnemySees(e.body.x, e.body.y, player.body.x, player.body.y) {
        shot := e.TryShoot(player.body.x, player.body.y);
      }
    }

    /** `enemies.forEach { ... }`: every enemy's turn, in list order, with the shot (if any) each one fires. */
    method StepEnemies() returns (shots: seq<Option<Bullet>>)
      requires Valid()
      modifies enemies, Bodies()
      ensures |shots| == |enemies|
      ensures forall j :: 0 <= j < |enemies| ==>
        Stepped(tiles, enemies[j].body.w, enemies[j].body.h, old(enemies[j].State()), enemies[j].State(), player.body.x, player.body.y, shots[j])
    {
      shots := [];
      var j := 0;
      while j < |enemies|
        invariant 0 <= j <= |enemies| && |shots| == j
        invariant forall k :: 0 <= k < j ==>
          Stepped(tiles, enemies[k].body.w, enemies[k].body.h, old(enemies[k].State()), enemies[k].State(), player.body.x, player.body.y, shots[k])
        invariant forall k :: j <= k < |enemies| ==> unchanged(enemies[k], enemies[k].body)
      {
        var shot := StepEnemy(j);
        shots := shots + [shot];
        j := j + 1;
      }
    }

    /** The boss's turn: while alive, gravity, a step towards the player, collisions and a shot at the player. */
    method StepBoss() returns (shot: Option<Bullet>)
      requires Valid()
      modifies boss, boss.body
      ensures !old(boss.Alive()) ==> unchanged(boss, boss.body) && shot.None?
      ensures old(boss.Alive()) ==>
        Col.Collided(tiles.grid, tiles.cols, tiles.rows, tiles.tile, boss.body.w, boss.body.h,
          old(boss.body.State()).(vx := BossVx(old(boss.body.x), player.body.x), vy := old(boss.body.vy) + Gravity), boss.body.State())
        && boss.body.wasJump == old(boss.body.wasJump)
        && boss.shootCD == AfterCall(old(boss.shootCD), BossReload)
        && shot == (if Fires(old(boss.shootCD)) then
          Some(Bullet(boss.body.x + boss.body.w / 2.0, boss.body.y + boss.body.h * 0.6,
            if player.body.x < boss.body.x then -6.0 else 6.0, false))
          else None)
      ensures boss.hp == old(boss.hp)
    {
      shot := None;
      if boss.Alive() {
        var b := boss.body;
        b.vy := b.vy + Gravity;
        b.vx := BossVx(b.x, player.body.x);
        Col.MoveAndCollide(tiles.grid, tiles.cols, tiles.rows, tiles.tile, b);
        shot := boss.TryShoot(player.body.x, player.body.y);
      }
    }

    /**
     * The player's bullets against the enemies and the boss. Every bullet
     * kills each living enemy it overlaps and is then spent, but it keeps
     * going through the rest of the enemies; a bullet overlapping the living
     * boss costs it one point. `won` says whether a hit emptied the boss.
     */
    method PlayerBulletsHit(bs: seq<Bullet>, ghost alive0: seq<bool>, ghost rects: seq<RectF>) returns (r: seq<Bullet>, won: bool)
      requires Valid() && |alive0| == |rects| == |enemies|
      requires forall j :: 0 <= j < |enemies| ==> alive0[j] == enemies[j].alive && rects[j] == enemies[j].body.Bounds()
      modifies enemies, boss
      ensures var br := boss.body.Bounds(); var hp0 := old(boss.hp);
        r == Volley(bs, alive0, rects, hp0, br)
        && (forall j :: 0 <= j < |enemies| ==> enemies[j].alive == (alive0[j] && !Struck(bs, |bs|, rects[j])))
        && boss.hp == BossHpAfter(hp0, bs, |bs|, br)
        && won == (hp0 > 0 && boss.hp <= 0)
    {
      ghost var br := boss.body.Bounds();
      var hp0 := boss.hp;
      r := [];
      var i := 0;
      while i < |bs|
        invariant 0 <= i <= |bs| && |r| == i
        invariant forall j :: 0 <= j < |enemies| ==> enemies[j].body.Bounds() == rects[j]
        invariant forall j :: 0 <= j < |enemies| ==> enemies[j].alive == (alive0[j] && !Struck(bs, i, rects[j]))
        invariant boss.hp == BossHpAfter(hp0, bs, i, br) && boss.body.Bounds() == br
        invariant forall k :: 0 <= k < i ==> r[k] == bs[k].(dead := bs[k].dead || SpentShot(alive0, rects, hp0, br, bs, k))
      {
        var spent := HitOne(bs, i, alive0, rects, hp0, br);
        r := r + [bs[i].(dead := bs[i].dead || spent)];
        i := i + 1;
      }
      won := !boss.Alive() && hp0 > 0;
    }

    /** Bullet `i` against every enemy and then the boss, given what the bullets before it did. */
    method HitOne(bs: seq<Bullet>, i: int, ghost alive0: seq<bool>, ghost rects: seq<RectF>, ghost hp0: int, ghost br: RectF)
      returns (spent: bool)
      requires Valid() && 0 <= i < |bs| && |alive0| == |rects| == |enemies|
      requires forall j :: 0 <= j < |enemies| ==> enemies[j].body.Bounds() == rects[j]
      requires forall j :: 0 <= j < |enemies| ==> enemies[j].alive == (alive0[j] && !Struck(bs, i, rects[j]))
      requires boss.hp == BossHpAfter(hp0, bs, i, br) && boss.body.Bounds() == br
      modifies enemies, boss
      ensures forall j :: 0 <= j < |enemies| ==> enemies[j].body.Bounds() == rects[j]
      ensures forall j :: 0 <= j < |enemies| ==> enemies[j].alive == (alive0[j] && !Struck(bs, i + 1, rects[j]))
      ensures boss.hp == BossHpAfter(hp0, bs, i + 1, br) && boss.body.Bounds() == br
      ensures spent == SpentShot(alive0, rects, hp0, br, bs, i)
    {
      var killed := HitEnemies(bs[i], rects);
      KillsAnyMeaning(alive0, rects, bs, i, |rects|);
      var struck := HitBoss(bs[i], br);
      spent := killed || struck;
    }

    /** One bullet against the boss, whose box is `br`: a hit on the living boss costs it one point. */
    method HitBoss(b: Bullet, ghost br: RectF) returns (struck: bool)
      requires boss.body.Bounds() == br
      modifies boss
      ensures boss.body.Bounds() == br
      ensures struck == (old(boss.hp) > 0 && Overlap(BulletBounds(b), br))
      ensures boss.hp == if struck then old(boss.hp) - 1 else old(boss.hp)
    {
      struck := boss.Alive() && Overlap(BulletBounds(b), boss.body.Bounds());
      if struck {
        boss.Hit();
      }
    }

    /**
     * One bullet against every enemy, in list order, the enemies' boxes
     * being `rects`: it kills each living enemy it overlaps, and is spent if
     * it killed any.
     */
    method HitEnemies(b: Bullet, ghost rects: seq<RectF>) returns (spent: bool)
      requires Valid() && |rects| == |enemies|
      requires forall j :: 0 <= j < |enemies| ==> enemies[j].body.Bounds() == rects[j]
      modifies enemies
      ensures forall j :: 0 <= j < |enemies| ==> enemies[j].body.Bounds() == rects[j]
      ensures forall j :: 0 <= j < |enemies| ==>
        enemies[j].alive == (old(enemies[j].alive) && !Overlap(BulletBounds(b), rects[j]))
      ensures spent <==> exists j :: 0 <= j < |enemies| && old(enemies[j].alive) && Overlap(BulletBounds(b), rects[j])
    {
      spent := false;
      var j := 0;
      while j < |enemies|
        invariant 0 <= j <= |enemies|
        invariant forall k :: 0 <= k < |enemies| ==> enemies[k].body.Bounds() == rects[k]
        invariant forall k :: 0 <= k < j ==>
          enemies[k].alive == (old(enemies[k].alive) && !Overlap(BulletBounds(b), rects[k]))
        invariant forall k :: j <= k < |enemies| ==> enemies[k].alive == old(enemies[k].alive)
        invariant spent <==> exists k :: 0 <= k < j && old(enemies[k].alive) && Overlap(BulletBounds(b), rects[k])
      {
        var e := enemies[j];
        if e.alive && Overlap(BulletBounds(b), e.body.Bounds()) {
          e.Hit();
          spent := true;
        }
        j := j + 1;
      }
    }

    /**
     * The enemies' bullets against the player: each overlapping bullet costs
     * a point (never below zero) and is spent; `lost` says whether a hit left
     * the player with none.
     */
    method EnemyBulletsHit(eb: seq<Bullet>) returns (r: seq<Bullet>, lost: bool)
      requires 0 <= player.hp
      modifies player
      ensures 0 <= player.hp
      ensures PlayerHit(eb, player.body.Bounds(), old(player.hp), r, player.hp)
      ensures lost == (CountStruck(eb, |eb|, player.body.Bounds()) > 0 && player.hp == 0)
      ensures lost ==> player.hp == 0
      ensures player.hp < old(player.hp) && player.hp == 0 ==> lost
      ensures player.fireCooldown == old(player.fireCooldown)
    {
      ghost var hp0 := player.hp;
      var pr := player.body.Bounds();
      r, lost := eb, false;
      var i := 0;
      while i < |eb|
        invariant 0 <= i <= |eb| == |r|
        invariant player.hp == Max(hp0 - CountStruck(eb, i, pr), 0)
        invariant forall k :: 0 <= k < i ==> r[k] == eb[k].(dead := eb[k].dead || Overlap(BulletBounds(eb[k]), pr))
        invariant forall k :: i <= k < |r| ==> r[k] == eb[k]
        invariant lost == (CountStruck(eb, i, pr) > 0 && player.hp == 0)
        invariant player.fireCooldown == old(player.fireCooldown)
      {
        if Overlap(BulletBounds(eb[i]), pr) {
          player.Hit();
          r := r[i := r[i].(dead := true)];
          if player.hp <= 0 {
            lost := true;
          }
        }
        i := i + 1;
      }
    }

    /** `resetGame`: the player back at the start with full health, fresh enemies and boss, no bullets, and all three flags cleared. */
    method ResetGame()
      requires Valid()
      modifies this, player, player.body
      ensures Valid()
      ensures !paused && !gameOver && !victory && bullets == [] && enemyBullets == []
      ensures player.hp == PlayerMaxHp && player.body.vx == 0.0 && player.body.vy == 0.0
      ensures !player.body.canJump && !player.body.wasJump && player.fireCooldown == old(player.fireCooldown)
      ensures player.body.x == tiles.playerStart.x as real && player.body.y == tiles.playerStart.y as real
      ensures |enemies| == |tiles.spawnPoints|
      ensures forall j :: 0 <= j < |enemies| ==>
        enemies[j].alive && enemies[j].patrolRight && enemies[j].shootCD == 0
        && enemies[j].body.x == tiles.spawnPoints[j].x as real && enemies[j].body.y == tiles.spawnPoints[j].y as real
      ensures boss.hp == BossMaxHp && boss.shootCD == 0
      ensures boss.body.x == tiles.bossStart.x as real && boss.body.y == tiles.bossStart.y as real
      ensures cloudX == old(cloudX) && camX == old(camX) && camY == old(camY)
      ensures leftDown == old(leftDown) && rightDown == old(rightDown) && jumpDown == old(jumpDown) && fireDown == old(fireDown)
    {
      player.Reset(tiles.playerStart.x as real, tiles.playerStart.y as real);
      Respawn();
      bullets, enemyBullets, gameOver, victory, paused := [], [], false, false, false;
    }

    /** A fresh enemy on every spawn point and a fresh boss on its start, the player kept. */
    method Respawn()
      requires Valid()
      modifies this`enemies, this`boss
      ensures Valid()
      ensures |enemies| == |tiles.spawnPoints|
      ensures forall j :: 0 <= j < |enemies| ==>
        enemies[j].alive && enemies[j].patrolRight && enemies[j].shootCD == 0
        && enemies[j].body.x == tiles.spawnPoints[j].x as real && enemies[j].body.y == tiles.spawnPoints[j].y as real
      ensures boss.hp == BossMaxHp && boss.shootCD == 0
      ensures boss.body.x == tiles.bossStart.x as real && boss.body.y == tiles.bossStart.y as real
    {
      var es := SpawnEnemies(tiles.spawnPoints);
      var b := new Boss(tiles.bossStart.x as real, tiles.bossStart.y as real);
      enemies, boss := es, b;
    }
  }

  /** `spawnPoints.map { Enemy(x, y) }`: one fresh enemy per spawn point, in order. */
  method SpawnEnemies(points: seq<Spawn>) returns (es: seq<Enemy>)
    ensures |es| == |points|
    ensures forall j :: 0 <= j < |es| ==> fresh(es[j]) && fresh(es[j].body)
    ensures forall j :: 0 <= j < |es| ==>
      es[j].alive && es[j].patrolRight && es[j].shootCD == 0 && es[j].body.x == points[j].x as real && es[j].body.y == points[j].y as real
    ensures forall j, k :: 0 <= j < k < |es| ==> es[j].body != es[k].body
  {
    es := [];
    var j := 0;
    while j < |points|
      invariant 0 <= j <= |points| && |es| == j
      invariant forall k :: 0 <= k < j ==> fresh(es[k]) && fresh(es[k].body)
      invariant forall k :: 0 <= k < j ==>
        es[k].alive && es[k].patrolRight && es[k].shootCD == 0 && es[k].body.x == points[k].x as real && es[k].body.y == points[k].y as real
      invariant forall k, l :: 0 <= k < l < j ==> es[k].body != es[l].body
    {
      var e := new Enemy(points[j].x as real, points[j].y as real);
      es := es + [e];
      j := j + 1;
    }
  }
}
