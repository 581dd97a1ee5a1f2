# game_android simulation core in Dafny

A model of the per-tick simulation of the game_android platformer, with the
drawing, audio and touch handling taken out. The model covers:

- **The level grid.** The world `TileMap` parses ASCII lines into a grid padded
  to `cols × rows`, lifts the spawn markers out of it, and answers `'#'`/`'^'`
  queries that check bounds. It tests boxes against solid cells and against the
  6-px top band of one-way cells, and resolves movement one axis at a time.
  The older inner `TileMap` of `GameView` generates its level and keeps its markers.
- **Ammunition.**
  - `Quiver` and `InfQuiver` give each spent arrow its own reload countdown, kept in a FIFO queue.
  - `PickupQuiver` is a clamped counter.
  - The player's quiver follows `InfQuiver`.
- **Actors.**
  - The `Player`: hits, reset, shooting, animation priority, and one arrow per attack on its keyframe.
  - The `Skeleton` and the `Witch`: cooldowns, one swing or one fireball per attack, hurt and
    death animations, and the shared chase steering.
  - The golem `Boss`: weighted action choice, armor stacks that only ratchet up, a forced rest
    after ten attacks, the laser burst, the dormant → appearing → summoned gate, and the cutscene freeze.
- **Projectiles:** `Arrow`, `Bullet`, `Fireball`, `ArmShard` and `LaserBolt`.
- **Helpers:**
  - the `GameState` flags;
  - the `Camera` clamp;
  - the opaque-bounds and bottom-padding scans of `BitmapUtils`;
  - the frame and trim arithmetic of `Strip`.
- **The older `GameView` loop:** its tick rules, inner actors, bullets and `resetGame`.

The model follows these conventions:

- `Float` is `real`. Kotlin's truncating `Int /` and `Float.toInt()` are written out (module `Numerics`).
- Objects whose fields the game updates in place are classes whose methods state their whole new state.
- Callbacks (`onDeath`, `onHurt`, `onDamagePlayer`, …) and the projectiles an actor adds to
  the caller's list come back as a returned list of events, in call order.
- Random draws, trigonometric aiming and steering, and oriented-box overlap tests are parameters.

## Model

| member | source | states |
|---|---|---|
| Animation.NextFrame | app/src/main/java/com/example/game_android/game/entities/Boss.kt:879-881 | one update keeps the frame inside the strip, moves it only on a cadence tick, and a one-shot clip advances by at most one frame and stays on its last |
| Animation.ShowsNext | app/src/main/java/com/example/game_android/game/entities/Boss.kt:879-881 | advancing a clip keeps its frame equal to the frame it shows that many updates after it was started |
| Animation.OneShotFrame | app/src/main/java/com/example/game_android/game/entities/Boss.kt:879-881 | after k updates a one-shot clip shows frame min(k / speed, frames - 1) |
| Animation.LoopFrame | app/src/main/java/com/example/game_android/game/entities/Boss.kt:879-881 | after k updates a looping clip shows frame (k / speed) mod frames |
| Animation.OneShotReachesLast | app/src/main/java/com/example/game_android/game/entities/Boss.kt:879-881 | a one-shot clip is on its last frame exactly from update (frames - 1) * speed on |
| Geometry.BoundsAt | app/src/main/java/com/example/game_android/game/entities/PhysicsBody.kt:17 | the bounds rectangle has its top-left corner at the position and the body's width and height |
| PhysicsBody.Body.constructor | app/src/main/java/com/example/game_android/game/entities/PhysicsBody.kt:5-15 | a body at the given position and size, at rest, with both jump flags clear |
| PhysicsBody.Body.Bounds | app/src/main/java/com/example/game_android/game/entities/PhysicsBody.kt:17 | the body's rectangle at its current position, of its width and height |
| Camera.Target | app/src/main/java/com/example/game_android/game/core/Camera.kt:7-23 | origin for an unready screen or world; otherwise never negative, centred on the point whenever the centred view fits, pinned to 0 on an axis where the world is no larger than the screen, and never past the right or bottom edge of a world at least a screen large |
| Camera.Camera.constructor | app/src/main/java/com/example/game_android/game/core/Camera.kt:3-5 | the camera starts at the origin |
| Camera.Camera.Follow | app/src/main/java/com/example/game_android/game/core/Camera.kt:7-23 | the camera moves to the clamped target |
| GameState.GameState.constructor | app/src/main/java/com/example/game_android/game/world/GameState.kt:3-7 | a new game is neither paused, over nor won, so no overlay shows |
| GameState.GameState.Reset | app/src/main/java/com/example/game_android/game/world/GameState.kt:8-10 | reset clears the three flags, so no overlay shows |
| Bullet.HitSquare | app/src/main/java/com/example/game_android/game/entities/Bullet.kt:20-24 | the hit box is the square of half-side 4 centred on the bullet |
| Bullet.HitSquareOverlap | app/src/main/java/com/example/game_android/game/entities/Bullet.kt:20-24 | the hit square overlaps a body exactly when the bullet centre lies within 4 px of the body's rectangle on both axes |
| Bullet.Bullet.constructor | app/src/main/java/com/example/game_android/game/entities/Bullet.kt:9-11 | a live bullet at the given position and speed |
| Bullet.Bullet.Update | app/src/main/java/com/example/game_android/game/entities/Bullet.kt:12-14 | the bullet moves by its speed and is dead once it has left the world horizontally (dead stays dead) |
| Bullet.Bullet.Overlaps | app/src/main/java/com/example/game_android/game/entities/Bullet.kt:20-24 | overlap with a body holds exactly when the centre lies within 4 px of the body's rectangle on both axes |
| ReloadQueue.Survivors | app/src/main/java/com/example/game_android/game/entities/Quiver.kt:11-22 | the timers that stay queued after one tick are at least 1 and no more than before |
| ReloadQueue.Ready | app/src/main/java/com/example/game_android/game/entities/Quiver.kt:11-22 | at most as many arrows come back in a tick as there are timers |
| ReloadQueue.SurvivorsPlusReady | app/src/main/java/com/example/game_android/game/entities/Quiver.kt:11-22 | every timer either stays queued or returns its arrow |
| ReloadQueue.SurvivorsAppend | app/src/main/java/com/example/game_android/game/entities/Quiver.kt:11-22 | ticking a queue splits over concatenation, keeping the order of the timers |
| ReloadQueue.RotateStep | app/src/main/java/com/example/game_android/game/entities/Quiver.kt:17-21 | one pass of the rotate loop: the head timer either returns its arrow or goes to the back decremented, and the queue is the unprocessed rest followed by the survivors so far |
| ReloadQueue.Consume | app/src/main/java/com/example/game_android/game/entities/Quiver.kt:27-32 | firing succeeds exactly when an arrow is available; it then takes one and queues a full cooldown, else nothing changes |
| ReloadQueue.TickConserves | app/src/main/java/com/example/game_android/game/entities/Quiver.kt:11-22 | a tick keeps available plus queued equal to the capacity, and returns exactly the ready arrows |
| ReloadQueue.ConsumeConserves | app/src/main/java/com/example/game_android/game/entities/Quiver.kt:27-32 | firing keeps available plus queued equal to the capacity |
| ReloadQueue.DecayStep | app/src/main/java/com/example/game_android/game/entities/Quiver.kt:11-22 | one more tick of a queue already ticked k times gives the queue ticked k + 1 times and returns the timers that reach zero then |
| ReloadQueue.DecayedZero | app/src/main/java/com/example/game_android/game/entities/Quiver.kt:11-22 | a queue of positive timers ticked zero times is itself, with nothing returned |
| ReloadQueue.TicksClosedForm | app/src/main/java/com/example/game_android/game/entities/Quiver.kt:11-22 | k ticks return every timer of at most k and lower every other timer by k, in order, conserving the arrows |
| ReloadQueue.ConsumedArrowReturns | app/src/main/java/com/example/game_android/game/entities/Quiver.kt:11-32 | a fired arrow is still queued (at 1) after cooldown - 1 ticks and is back after exactly cooldown ticks |
| ReloadQueue.DecayedAppendOne | app/src/main/java/com/example/game_android/game/entities/Quiver.kt:11-22 | ticking a queue with one timer appended ticks the queue and that timer separately |
| Quiver.Quiver.constructor | app/src/main/java/com/example/game_android/game/entities/Quiver.kt:4-9 | a full quiver with nothing reloading |
| Quiver.Quiver.Tick | app/src/main/java/com/example/game_android/game/entities/Quiver.kt:11-22 | the quiver state becomes one reload tick of the old state |
| Quiver.Quiver.CanFire | app/src/main/java/com/example/game_android/game/entities/Quiver.kt:24 | the quiver can fire exactly when a consume would succeed |
| Quiver.Quiver.TryConsume | app/src/main/java/com/example/game_android/game/entities/Quiver.kt:27-32 | state and answer are those of consuming from the old state |
| Quiver.Quiver.Ammo | app/src/main/java/com/example/game_android/game/entities/Quiver.kt:34 | the count shown plus the arrows reloading is the capacity, and lies between 0 and the capacity |
| InfQuiver.InfQuiver.constructor | app/src/main/java/com/example/game_android/game/entities/InfQuiver.kt:7-12 | a full quiver with nothing reloading |
| InfQuiver.InfQuiver.Tick | app/src/main/java/com/example/game_android/game/entities/InfQuiver.kt:14-27 | paused, nothing changes; otherwise the state becomes one reload tick of the old one |
| InfQuiver.InfQuiver.RunTimers | app/src/main/java/com/example/game_android/game/entities/InfQuiver.kt:17-26 | the rotate loop over the timers computes one reload tick |
| InfQuiver.InfQuiver.CanFire | app/src/main/java/com/example/game_android/game/entities/InfQuiver.kt:29 | the quiver can fire exactly when a consume would succeed |
| InfQuiver.InfQuiver.TryConsume | app/src/main/java/com/example/game_android/game/entities/InfQuiver.kt:32-42 | paused, firing fails and nothing changes; otherwise state and answer are those of consuming |
| InfQuiver.InfQuiver.Ammo | app/src/main/java/com/example/game_android/game/entities/InfQuiver.kt:44 | the count shown plus the arrows reloading is the capacity, and lies between 0 and the capacity |
| PickupQuiver.PickupQuiver.constructor | app/src/main/java/com/example/game_android/game/entities/PickupQuiver.kt:11-16 | the initial ammo is clamped into 0..capacity |
| PickupQuiver.PickupQuiver.Default | app/src/main/java/com/example/game_android/game/entities/PickupQuiver.kt:11-13 | with the default arguments the capacity is 10 and the quiver starts full |
| PickupQuiver.PickupQuiver.Ammo | app/src/main/java/com/example/game_android/game/entities/PickupQuiver.kt:18 | the ammo lies between 0 and the capacity |
| PickupQuiver.PickupQuiver.Capacity | app/src/main/java/com/example/game_android/game/entities/PickupQuiver.kt:21 | the capacity bounds the ammo |
| PickupQuiver.PickupQuiver.CanFire | app/src/main/java/com/example/game_android/game/entities/PickupQuiver.kt:24 | firing is possible exactly when an arrow is left |
| PickupQuiver.PickupQuiver.TryConsume | app/src/main/java/com/example/game_android/game/entities/PickupQuiver.kt:30-42 | firing succeeds exactly when not paused and an arrow is left, and then takes exactly one |
| PickupQuiver.PickupQuiver.AddAmmo | app/src/main/java/com/example/game_android/game/entities/PickupQuiver.kt:49-59 | a full quiver takes nothing; otherwise it takes the non-negative amount up to the free room, and reports exactly what it took |
| PickupQuiver.PickupQuiver.SetAmmoUnsafe | app/src/main/java/com/example/game_android/game/entities/PickupQuiver.kt:62-65 | the ammo is set to the value clamped into 0..capacity |
| Arrow.DrawRect | app/src/main/java/com/example/game_android/game/entities/Arrow.kt:62-63 | the drawn rectangle is 20 px wider than the body on each side, centred on it, at the same top and height |
| Arrow.Arrow.constructor | app/src/main/java/com/example/game_android/game/entities/Arrow.kt:10-35 | a live arrow two tiles wide, its height following the trimmed sprite's aspect, moving at its initial speed |
| Arrow.Arrow.Update | app/src/main/java/com/example/game_android/game/entities/Arrow.kt:57-60 | the arrow moves by its initial speed and is dead once more than 64 px outside the world horizontally |
| Arrow.Arrow.Draw | app/src/main/java/com/example/game_android/game/entities/Arrow.kt:62-73 | drawing places the drawn rectangle around the arrow and changes nothing else |
| Arrow.Arrow.Overlaps | app/src/main/java/com/example/game_android/game/entities/Arrow.kt:75-79 | once drawn, the arrow overlaps a body exactly when the widened drawn rectangle does |
| Strip.Crop | app/src/main/java/com/example/game_android/game/util/Strip.kt:29 | the cropped frame keeps the strip's height, has the frame's width, and each pixel is the strip's pixel shifted by the frame's start column |
| Strip.Trims | app/src/main/java/com/example/game_android/game/util/Strip.kt:24-35 | one trim rectangle per frame |
| Strip.FrameFits | app/src/main/java/com/example/game_android/game/util/Strip.kt:21-27 | every frame's columns lie within the strip's width |
| Strip.FrameWidthPositive | app/src/main/java/com/example/game_android/game/util/Strip.kt:20-22 | the frame count is between 1 and the width, and every frame is at least one pixel wide |
| Strip.NextFrameTrim | app/src/main/java/com/example/game_android/game/util/Strip.kt:27-31 | one pass of the trim loop appends the frame's local trim shifted by the frame's start column |
| Strip.NextFrameHeight | app/src/main/java/com/example/game_android/game/util/Strip.kt:32 | one pass of the trim loop raises the running height to the frame's trimmed height, at least 1 |
| Strip.TrimFrame | app/src/main/java/com/example/game_android/game/util/Strip.kt:29-30 | the local trim of a frame is its opaque bounds, or the whole frame when it is fully transparent |
| Strip.LoadStrip | app/src/main/java/com/example/game_android/game/util/Strip.kt:18-37 | frames = max(width / height, 1), frame width = width / frames, one trim per frame as specified, and the base height is the tallest trim (at least 1) |
| Strip.LocalTrimInFrame | app/src/main/java/com/example/game_android/game/util/Strip.kt:30 | a frame's local trim is a non-empty rectangle inside the frame |
| Strip.TrimsInFrames | app/src/main/java/com/example/game_android/game/util/Strip.kt:24-36 | every trim lies inside its own frame's columns and the strip's rows, and the base height bounds every trim's height and lies between 1 and the strip's height |
| Strip.TrimsIndex | app/src/main/java/com/example/game_android/game/util/Strip.kt:26-31 | the j-th trim is the trim of frame j |
| Strip.MaxHeightRange | app/src/main/java/com/example/game_android/game/util/Strip.kt:25-32 | the running base height is at least 1 and at most any bound on every trim height, so it lies between 1 and the strip height |
| Strip.MaxHeightAbove | app/src/main/java/com/example/game_android/game/util/Strip.kt:25-32 | the running base height is at least the height of every trim it has seen |
| BitmapUtils.Alpha | app/src/main/java/com/example/game_android/game/util/BitmapUtils.kt:20 | the alpha channel of a pixel, between 0 and 255 |
| BitmapUtils.OpaqueIsNonZeroAlpha | app/src/main/java/com/example/game_android/game/util/BitmapUtils.kt:20 | a pixel counts as opaque exactly when its alpha is non-zero |
| BitmapUtils.FirstOpaqueCol | app/src/main/java/com/example/game_android/game/util/BitmapUtils.kt:17-27 | the first column from x holding an opaque pixel, every column before it transparent |
| BitmapUtils.LastOpaqueCol | app/src/main/java/com/example/game_android/game/util/BitmapUtils.kt:17-27 | the last column before x holding an opaque pixel, every column after it transparent |
| BitmapUtils.FirstOpaqueRow | app/src/main/java/com/example/game_android/game/util/BitmapUtils.kt:17-27 | the first row from y holding an opaque pixel, every row before it transparent |
| BitmapUtils.LastOpaqueRow | app/src/main/java/com/example/game_android/game/util/BitmapUtils.kt:17-27 | the last row before y holding an opaque pixel, every row after it transparent |
| BitmapUtils.OpaqueBoundsSpec | app/src/main/java/com/example/game_android/game/util/BitmapUtils.kt:7-33 | null exactly for a fully transparent bitmap; otherwise a non-empty box inside the bitmap containing every opaque pixel and at most one pixel larger than them on each side |
| BitmapUtils.OpaqueWithinExtremes | app/src/main/java/com/example/game_android/game/util/BitmapUtils.kt:17-27 | every opaque pixel lies between the extreme opaque columns and rows |
| BitmapUtils.ScanStateExtremes | app/src/main/java/com/example/game_android/game/util/BitmapUtils.kt:17-27 | after scanning up to any pixel, the four running extremes are those of the opaque pixels scanned so far, each attained where it is not at its start value |
| BitmapUtils.ExtremesAreSpec | app/src/main/java/com/example/game_android/game/util/BitmapUtils.kt:28-32 | after the whole scan, right == -1 exactly when the bitmap is transparent, and otherwise the extremes are the first and last opaque columns and rows |
| BitmapUtils.ComputeOpaqueBounds | app/src/main/java/com/example/game_android/game/util/BitmapUtils.kt:7-33 | the nested scan returns the opaque bounds (padded by one pixel and clamped), or null when no pixel is opaque |
| BitmapUtils.AlphaAboveIsAlphaTest | app/src/main/java/com/example/game_android/game/util/BitmapUtils.kt:54 | the threshold test on the raw pixel is the test alpha > threshold |
| BitmapUtils.LastRowAbove | app/src/main/java/com/example/game_android/game/util/BitmapUtils.kt:49-60 | the last row below y holding a pixel above the threshold, every row after it below |
| BitmapUtils.BottomPadSpec | app/src/main/java/com/example/game_android/game/util/BitmapUtils.kt:42-63 | the padding lies between 0 and the height, equals the height exactly when no pixel is above the threshold, the row just above the padding holds such a pixel and no padding row does |
| BitmapUtils.ComputeBottomPad | app/src/main/java/com/example/game_android/game/util/BitmapUtils.kt:42-63 | the downward scan with early exit returns the bottom padding |
| Fireball.ExplosionLength | app/src/main/java/com/example/game_android/game/entities/Fireball.kt:139-143 | the explosion lasts a positive whole number of animation steps |
| Fireball.ExplosionEnds | app/src/main/java/com/example/game_android/game/entities/Fireball.kt:131-143 | the dead-test fires on exactly the animation ticks at or after the explosion's length |
| Fireball.Fireball.constructor | app/src/main/java/com/example/game_android/game/entities/Fireball.kt:12-87 | a flying fireball 4.5 tiles wide with the first move frame's aspect, looping move strip and one-shot explode strip at speed 2, nothing dealt yet |
| Fireball.Fireball.StartExplode | app/src/main/java/com/example/game_android/game/entities/Fireball.kt:104-111 | ignored while exploding or dead; otherwise switches to the explosion from frame 0, stops, and remembers a player hit |
| Fireball.Fireball.AlreadyDamagedPlayer | app/src/main/java/com/example/game_android/game/entities/Fireball.kt:114 | the damage flag is only ever set by an explosion |
| Fireball.Fireball.IsExploding | app/src/main/java/com/example/game_android/game/entities/Fireball.kt:117 | the explosion strip does not loop |
| Fireball.Fireball.Update | app/src/main/java/com/example/game_android/game/entities/Fireball.kt:121-145 | moves only while flying, advances the current strip one tick, and dies exactly when the explosion strip reaches its end |
| LaserBolt.FlightDistance | app/src/main/java/com/example/game_android/game/entities/LaserBolt.kt:77-97 | k updates of a bolt move it k times its velocity |
| LaserBolt.LaserBolt.constructor | app/src/main/java/com/example/game_android/game/entities/LaserBolt.kt:19-75 | a live bolt 8 tiles wide with the first frame's aspect and a looping strip at speed 2 |
| LaserBolt.LaserBolt.Update | app/src/main/java/com/example/game_android/game/entities/LaserBolt.kt:77-97 | a dead bolt stays put; a live one moves by its velocity, ticks, and dies exactly when it leaves the world's margins |
| LaserBolt.LaserBolt.MarkDamagedPlayer | app/src/main/java/com/example/game_android/game/entities/LaserBolt.kt:216-217 | sets the damage-once flag and changes nothing else |
| ArmShard.StartX | app/src/main/java/com/example/game_android/game/entities/ArmShard.kt:36 | thrown right the shard starts at the hand, thrown left its right edge does |
| ArmShard.ArmShard.constructor | app/src/main/java/com/example/game_android/game/entities/ArmShard.kt:18-72 | an 11-tile shard at the hand with the target at the hand, 600 ticks of life and a 30-tick tell |
| ArmShard.ArmShard.Update | app/src/main/java/com/example/game_android/game/entities/ArmShard.kt:74-139 | a dead shard is frozen; a live one moves by its velocity, snapshots the player once when the tell ends, never steers during the tell or after passing the target, and dies when its life runs out or it leaves the world |
| ArmShard.ArmShard.Advance | app/src/main/java/com/example/game_android/game/entities/ArmShard.kt:118-138 | integration, life countdown, animation tick and the out-of-bounds despawn |
| ArmShard.ArmShard.Steer | app/src/main/java/com/example/game_android/game/entities/ArmShard.kt:77-116 | during the tell counts it down and locks the target when it ends; afterwards steers (heading given) until the target is reached, then flies straight |
| Player.Step | app/src/main/java/com/example/game_android/game/entities/Player.kt:166-213 | one drawn frame of the pose: hurt beats attack beats walk beats idle, the frame stays within the chosen strip, the one-shot timers count down to 0, and a change of animation restarts it |
| Player.StepShows | app/src/main/java/com/example/game_android/game/entities/Player.kt:179-189 | a pose whose frame and timers are consistent stays so after a step |
| Player.Run | app/src/main/java/com/example/game_android/game/entities/Player.kt:166-213 | any number of steps keep the frame within the current strip |
| Player.StartAttack | app/src/main/java/com/example/game_android/game/entities/Player.kt:145-163 | a fresh attack pose has a frame within the attack strip |
| Player.AttackRun | app/src/main/java/com/example/game_android/game/entities/Player.kt:145-148 | after an attack starts, for k steps up to the strip's length the pose is the attack at frame min(k, last) with the timer at length minus k; after that the attack is over |
| Player.KeyframeReached | app/src/main/java/com/example/game_android/game/entities/Player.kt:216-218 | the attack pose reaches the firing keyframe exactly on steps 7 through the attack's length, and only when the strip has more than 7 frames |
| Player.Player.constructor | app/src/main/java/com/example/game_android/game/entities/Player.kt:13-138 | a player 4 tiles tall with the trimmed idle frame's aspect halved, full health, idle facing right, and a full quiver |
| Player.Player.TryShoot | app/src/main/java/com/example/game_android/game/entities/Player.kt:151-163 | with no arrow to fire nothing changes; otherwise the attack restarts from frame 0 for its full duration, facing and aiming the way the player moves (or faced), with a shot queued |
| Player.Player.Update | app/src/main/java/com/example/game_android/game/entities/Player.kt:165-230 | steps the pose, updates the facing, fires the queued arrow exactly once when the attack reaches its keyframe and an arrow is available, from the bow height at 14 px per tick, then ticks the quiver |
| Player.Player.Animate | app/src/main/java/com/example/game_android/game/entities/Player.kt:166-213 | the pose and facing part of a draw |
| Player.Player.Release | app/src/main/java/com/example/game_android/game/entities/Player.kt:215-227 | the firing part of a draw: at most one arrow per attack, consumed from the quiver |
| Player.Player.Hit | app/src/main/java/com/example/game_android/game/entities/Player.kt:241-246 | a living player loses one heart and starts a 15-tick hurt; at 0 nothing changes |
| Player.Player.Reset | app/src/main/java/com/example/game_android/game/entities/Player.kt:248-252 | back at the given spot at rest with full health, frame 0 and facing right |
| Skeleton.Strips.FireFrame | app/src/main/java/com/example/game_android/game/entities/Skeleton.kt:368 | the firing keyframe is the cast frame clamped into the attack strip |
| Skeleton.Skeleton.constructor | app/src/main/java/com/example/game_android/game/entities/Skeleton.kt:19-168 | a skeleton 6.7 tiles tall with the idle frame's aspect scaled by 0.7, its five strips at their speeds, full health, idle and facing right |
| Skeleton.Skeleton.TryAttack | app/src/main/java/com/example/game_android/game/entities/Skeleton.kt:179-193 | a living, rested, idle skeleton starts a swing for the attack strip's duration, facing the player, with the cooldown reset and the hit flags cleared; otherwise nothing changes |
| Skeleton.Skeleton.Swing | app/src/main/java/com/example/game_android/game/entities/Skeleton.kt:183-189 | the swing itself: facing, attack pose from frame 0, duration and cooldown |
| Skeleton.Skeleton.Rearm | app/src/main/java/com/example/game_android/game/entities/Skeleton.kt:190-191 | clears the fired and landed flags and nothing else |
| Skeleton.Skeleton.Hit | app/src/main/java/com/example/game_android/game/entities/Skeleton.kt:195-216 | ignored when gone, dying or invulnerable; otherwise one health point and the swing are lost, and the skeleton either dies (stopped, death pose) or is hurt (invulnerable for 10 ticks) |
| Skeleton.Skeleton.Damage | app/src/main/java/com/example/game_android/game/entities/Skeleton.kt:199-201 | loses one health point and cancels the swing |
| Skeleton.Skeleton.Die | app/src/main/java/com/example/game_android/game/entities/Skeleton.kt:203-209 | enters the death pose and stops |
| Skeleton.Skeleton.Wound | app/src/main/java/com/example/game_android/game/entities/Skeleton.kt:212-215 | enters the hurt pose with 10 invulnerable ticks |
| Skeleton.Skeleton.MeleeHitbox | app/src/main/java/com/example/game_android/game/entities/Skeleton.kt:255-276 | the blade box: attack reach wide, starting at the body's centre on the facing side, as tall as the attack band capped by the torso |
| Skeleton.Skeleton.CheckMeleeHit | app/src/main/java/com/example/game_android/game/entities/Skeleton.kt:278-292 | a swing lands at most once, only on its last frame and only when the blade box meets the player's bounds; a landed swing costs the player one heart |
| Skeleton.Skeleton.Update | app/src/main/java/com/example/game_android/game/entities/Skeleton.kt:298-396 | the whole tick: the new pose, swing and gone flag are exactly Skeleton.Settled of Skeleton.Animated of Skeleton.Thought of the old state; the swing is announced exactly when a living skeleton that starts a swing this tick (the player in reach in front at the same height, the cooldown out) or is in an unspent, unhurt swing reaches the keyframe; the speed follows the shared chase rules and never exceeds top speed |
| Skeleton.Skeleton.Think | app/src/main/java/com/example/game_android/game/entities/Skeleton.kt:299-343 | the new state is exactly Skeleton.Thought of the old one, with the player measured from the skeleton's sensing point |
| Skeleton.Skeleton.Steer | app/src/main/java/com/example/game_android/game/entities/Skeleton.kt:319-343 | the speed update: stopped while dying, damped while hurt or swinging, else the chase towards the stand-off distance, never above top speed |
| Skeleton.Skeleton.Advance | app/src/main/java/com/example/game_android/game/entities/Skeleton.kt:345-395 | the new state is exactly Skeleton.Settled of Skeleton.Animated of the old one, and the swing is announced exactly when a living, unhurt, unspent swing first reaches the keyframe |
| Skeleton.Skeleton.Countdown | app/src/main/java/com/example/game_android/game/entities/Skeleton.kt:301-302 | the cooldown and invulnerability count down to 0 and nothing else changes |
| Skeleton.Skeleton.Animate | app/src/main/java/com/example/game_android/game/entities/Skeleton.kt:345-362 | the new pose is exactly Skeleton.Animated of the old state, moving meaning faster than the stillness threshold or in the air |
| Skeleton.Skeleton.Settle | app/src/main/java/com/example/game_android/game/entities/Skeleton.kt:364-395 | the new state is exactly Skeleton.Settled of the old one, and the swing is announced exactly when Skeleton.Settled says so |
| Skeleton.Thought | app/src/main/java/com/example/game_android/game/entities/Skeleton.kt:299-317 | the cooldown and invulnerability count down (the cooldown restarts on a new swing), dying is kept, and a live unspent swing exists afterwards exactly when one starts (alive, cooldown running out, not swinging, the player in reach) or one was already live |
| Skeleton.Animated | app/src/main/java/com/example/game_android/game/entities/Skeleton.kt:345-362 | the pose priority: death exactly when dying, hurt exactly while an unfinished hurt plays, the swing exactly while attacking, walk exactly when moving, otherwise idle; a new clip restarts on its first tick and the frame is the one the clip shows |
| Skeleton.Settled | app/src/main/java/com/example/game_android/game/entities/Skeleton.kt:364-395 | the swing is announced exactly on first reaching its keyframe and is spent from then on; the swing timer counts down only on the attack clip; gone exactly after the death clip's last frame; a clip change only ends a swing or hurt, into walk or idle from frame 0 |
| Skeleton.Skeleton.SettleAttack | app/src/main/java/com/example/game_android/game/entities/Skeleton.kt:365-377 | the attack branch: fires once at the keyframe and returns to walk or idle when the swing is over |
| Skeleton.Skeleton.Announce | app/src/main/java/com/example/game_android/game/entities/Skeleton.kt:369-372 | reports the attack exactly once per swing, at or after the keyframe |
| Skeleton.Skeleton.Recover | app/src/main/java/com/example/game_android/game/entities/Skeleton.kt:374-375 | returns to walk or idle by speed, from frame 0 |
| Skeleton.Skeleton.SettleHurt | app/src/main/java/com/example/game_android/game/entities/Skeleton.kt:379-385 | the hurt ends on its last frame |
| Skeleton.Skeleton.SettleDeath | app/src/main/java/com/example/game_android/game/entities/Skeleton.kt:387-392 | the death's last frame marks the skeleton gone |
| Witch.Strips.FireFrame | app/src/main/java/com/example/game_android/game/entities/Witch.kt:306 | the throwing keyframe is the cast's fire frame clamped into the cast strip |
| Witch.Witch.constructor | app/src/main/java/com/example/game_android/game/entities/Witch.kt:17-168 | a witch 5.5 tiles tall with the idle frame's aspect scaled by 0.7, her five strips at their speeds, full health, idle and facing right |
| Witch.Witch.TryShoot | app/src/main/java/com/example/game_android/game/entities/Witch.kt:175-177 | the bullet attack is a no-op |
| Witch.Witch.TryShootFireball | app/src/main/java/com/example/game_android/game/entities/Witch.kt:179-193 | a living, rested witch not already casting starts a cast for the cast strip's duration, resets the cooldown and remembers the target for one fireball; otherwise nothing changes |
| Witch.Witch.StartCast | app/src/main/java/com/example/game_android/game/entities/Witch.kt:183-187 | the cast pose from frame 0 with its duration and the cooldown |
| Witch.Witch.Aim | app/src/main/java/com/example/game_android/game/entities/Witch.kt:189-192 | arms one fireball at the given target |
| Witch.Witch.Hit | app/src/main/java/com/example/game_android/game/entities/Witch.kt:195-218 | ignored when gone, dying or invulnerable; otherwise one health point, the cast and the pending fireball are lost, and the witch either dies (stopped, death pose) or is hurt (invulnerable for 10 ticks) |
| Witch.Witch.Damage | app/src/main/java/com/example/game_android/game/entities/Witch.kt:199-203 | loses one health point and cancels the cast and its fireball |
| Witch.Witch.Die | app/src/main/java/com/example/game_android/game/entities/Witch.kt:205-211 | enters the death pose and stops |
| Witch.Witch.Wound | app/src/main/java/com/example/game_android/game/entities/Witch.kt:214-217 | enters the hurt pose with 10 invulnerable ticks |
| Witch.Witch.Update | app/src/main/java/com/example/game_android/game/entities/Witch.kt:221-349 | the whole tick: the cooldown and invulnerability count down and she turns to the player, then the new pose, cast and gone flag are exactly Witch.Settled of Witch.Animated of that state; a fireball is thrown exactly when a living, unhurt witch with a pending fireball reaches the keyframe of her cast for the first time, from her hand towards the remembered target; the speed follows the shared chase rules and never exceeds top speed |
| Witch.Witch.Think | app/src/main/java/com/example/game_android/game/entities/Witch.kt:225-273 | timers, turning and steering of one tick |
| Witch.Witch.Steer | app/src/main/java/com/example/game_android/game/entities/Witch.kt:236-273 | the speed update: stopped while dying, damped while hurt or casting, else the chase towards the stand-off distance, never above top speed |
| Witch.Witch.Advance | app/src/main/java/com/example/game_android/game/entities/Witch.kt:276-348 | the new state is exactly Witch.Settled of Witch.Animated of the old one, and a fireball leaves exactly when a living, unhurt, casting witch with one pending first reaches the keyframe |
| Witch.Witch.Animate | app/src/main/java/com/example/game_android/game/entities/Witch.kt:276-298 | the new pose is exactly Witch.Animated of the old state, moving meaning faster than the stillness threshold or in the air |
| Witch.Witch.Settle | app/src/main/java/com/example/game_android/game/entities/Witch.kt:301-348 | the new state is exactly Witch.Settled of the old one, and a fireball is returned exactly when Witch.Settled says one leaves |
| Witch.Animated | app/src/main/java/com/example/game_android/game/entities/Witch.kt:276-298 | the pose priority: death exactly when dying, hurt exactly while an unfinished hurt plays, the cast exactly while casting, walk exactly when moving, otherwise idle; a new clip restarts on its first tick, the same clip ticks on, and the frame is the one the clip shows |
| Witch.Settled | app/src/main/java/com/example/game_android/game/entities/Witch.kt:301-348 | a fireball leaves exactly on first reaching the cast keyframe with one pending; the cast is spent and the pending fireball dropped from then on; the cast timer counts down only on the cast clip; gone exactly after the death clip's last frame; a clip change only ends a cast or hurt, into walk or idle from frame 0 |
| Witch.Witch.SettleCast | app/src/main/java/com/example/game_android/game/entities/Witch.kt:302-330 | the cast branch: throws once at the keyframe and returns to walk or idle when the cast is over |
| Witch.Witch.Release | app/src/main/java/com/example/game_android/game/entities/Witch.kt:308-324 | a fireball leaves exactly when the keyframe is first reached with one pending, and the cast is spent either way |
| Witch.Witch.Recover | app/src/main/java/com/example/game_android/game/entities/Witch.kt:327-328 | returns to walk or idle by speed, from frame 0 |
| Witch.Witch.SettleHurt | app/src/main/java/com/example/game_android/game/entities/Witch.kt:332-338 | the hurt ends on its last frame |
| Witch.Witch.SettleDeath | app/src/main/java/com/example/game_android/game/entities/Witch.kt:340-345 | the death's last frame marks the witch gone |
| Steering.Face | app/src/main/java/com/example/game_android/game/entities/Witch.kt:229-233 | a clear horizontal offset (over 2 px) turns the actor towards it; otherwise the facing is kept |
| Steering.Damped | app/src/main/java/com/example/game_android/game/entities/Witch.kt:243-261 | damping by a factor in [0, 1] never grows a speed |
| Steering.SteerBounded | app/src/main/java/com/example/game_android/game/entities/Witch.kt:236-273 | from a speed within the top speed, every branch of the steering stays within it |
| Steering.ChaseDirection | app/src/main/java/com/example/game_android/game/entities/Witch.kt:252-268 | within range and beyond the stand-off band the actor accelerates towards the player up to top speed; inside the band it backs away |
| Grid.NonBlank | app/src/main/java/com/example/game_android/game/world/TileMap.kt:183 | keeps exactly the lines that are not blank, in order |
| Grid.PadEnd | app/src/main/java/com/example/game_android/game/world/TileMap.kt:186 | pads a line with the fill character to at least the given length, never truncating it |
| Grid.Parse | app/src/main/java/com/example/game_android/game/world/TileMap.kt:182-188 | exactly `rows` rows; row r is the r-th non-blank line padded with '.' to at least `cols` cells, and missing rows are all '.' |
| Grid.RowPositionsMembers | app/src/main/java/com/example/game_android/game/world/TileMap.kt:214-215 | the cells of one row holding a character, listed left to right, are exactly those cells |
| Grid.PositionsMembers | app/src/main/java/com/example/game_android/game/world/TileMap.kt:214-215 | the cells of the grid holding a character, in row-major order, are exactly the in-grid cells holding it |
| Grid.PositionsSingleton | app/src/main/java/com/example/game_android/game/world/TileMap.kt:214-215 | a character held by one in-grid cell only is found at that cell only |
| Grid.PositionsNone | app/src/main/java/com/example/game_android/game/world/TileMap.kt:214-215 | a character held by no in-grid cell is found nowhere |
| Grid.ToPixels | app/src/main/java/com/example/game_android/game/world/TileMap.kt:229-245 | each cell becomes the pixel position of its column and of its row shifted by a fixed number of rows |
| Grid.ToPixelsAppend | app/src/main/java/com/example/game_android/game/world/TileMap.kt:229-245 | converting a concatenation converts each part |
| Grid.LastOrAppend | app/src/main/java/com/example/game_android/game/world/TileMap.kt:216-226 | the last position found over a concatenation is the last one over the second part, falling back to the first |
| Collision.SolidNotOneWay | app/src/main/java/com/example/game_android/game/world/TileMap.kt:257-261 | no cell is both solid and one-way, and cells outside the grid are neither |
| Collision.SolidAtPxMeaning | app/src/main/java/com/example/game_android/game/world/TileMap.kt:263 | for non-negative pixels, solid at a pixel means a solid cell contains it; Kotlin's truncating division maps pixels just left of or above the grid to column or row 0 |
| Collision.AxisWindow | app/src/main/java/com/example/game_android/game/world/TileMap.kt:322-325 | every cell overlapping an interval lies within the scan window truncated start / tile − 1 to truncated end / tile + 1 |
| Collision.SolidInWindow | app/src/main/java/com/example/game_android/game/world/TileMap.kt:321-338 | a solid cell overlapping the box lies in the scan window |
| Collision.OneWayInWindow | app/src/main/java/com/example/game_android/game/world/TileMap.kt:344-358 | a platform whose top band catches the box's feet lies in the scan window |
| Collision.CollidesSolid | app/src/main/java/com/example/game_android/game/world/TileMap.kt:321-338 | the windowed early-exit scan answers exactly whether some in-grid '#' cell strictly overlaps the box on both axes |
| Collision.CollidesOneWayFromAbove | app/src/main/java/com/example/game_android/game/world/TileMap.kt:344-358 | the windowed scan answers exactly whether some '^' cell has its top below the box's bottom by less than 6 px and overlaps it horizontally (for a tile of at least 6 px) |
| Collision.PushLeftMeaning | app/src/main/java/com/example/game_android/game/world/TileMap.kt:291 | moving right into a wall, the body is placed one pixel left of the tile line at or before its right edge |
| Collision.PushRightMeaning | app/src/main/java/com/example/game_android/game/world/TileMap.kt:293 | otherwise it is placed on the first tile line after its left edge |
| Collision.SnapDown | app/src/main/java/com/example/game_android/game/world/TileMap.kt:309 | subtracting the float remainder rounds a non-negative coordinate down to its tile line |
| Collision.LandingMeaning | app/src/main/java/com/example/game_android/game/world/TileMap.kt:307-310 | falling onto ground, the feet rest 0.1 px above the tile line at or before the box's bottom |
| Collision.CeilingMeaning | app/src/main/java/com/example/game_android/game/world/TileMap.kt:311-313 | rising into a ceiling, the head is placed on the first tile line after the box's top |
| Collision.MoveX | app/src/main/java/com/example/game_android/game/world/TileMap.kt:286-297 | with no solid cell under the moved box, x advances by vx and vx is kept; on a hit, x snaps against the cell (left of it when moving right, right of it otherwise) and vx becomes 0 |
| Collision.MoveY | app/src/main/java/com/example/game_android/game/world/TileMap.kt:300-317 | one-way cells never stop a rising body; any stop zeroes vy, a falling stop puts the body on the cell top and a rising stop puts it under the ceiling; only a stop while falling sets canJump, which is never cleared; with no hit y advances by vy |
| Collision.MoveAndCollide | app/src/main/java/com/example/game_android/game/world/TileMap.kt:285-318 | the horizontal pass moves or snaps and stops on a solid hit; the vertical pass moves, lands (allowing a jump) or bumps the ceiling, stopping on a hit; a rising body passes through platforms |
| MapGen.SteppedNext | app/src/main/java/com/example/game_android/game/world/TileMap.kt:195-206 | a stepped range grows by exactly its next element |
| MapGen.SteppedDone | app/src/main/java/com/example/game_android/game/world/TileMap.kt:195-206 | a stepped range is the same once the counter passes its end |
| MapGen.Put | app/src/main/java/com/example/game_android/game/world/TileMap.kt:194-207 | writing a cell changes that cell only |
| MapGen.MarkRow | app/src/main/java/com/example/game_android/game/world/TileMap.kt:194-206 | marks exactly the stepped columns of one row |
| MapGen.LayPlatform | app/src/main/java/com/example/game_android/game/world/TileMap.kt:198-202 | writes '^' on the platform's columns (clamped to the last column) of one row and nothing else |
| MapGen.OnPlatformNext | app/src/main/java/com/example/game_android/game/world/TileMap.kt:196-203 | a cell lies on the platforms up to the next step exactly when it lies on the earlier ones or on the platform just laid |
| MapGen.LaidNext | app/src/main/java/com/example/game_android/game/world/TileMap.kt:196-203 | laying the next platform keeps the loop's invariant: the band holds '^' exactly on the platforms laid so far |
| MapGen.LaidAll | app/src/main/java/com/example/game_android/game/world/TileMap.kt:196-203 | once the counter passes the end, the band holds '^' exactly on all the stepped platforms |
| MapGen.Platforms | app/src/main/java/com/example/game_android/game/world/TileMap.kt:196-203 | a cell in the band is '^' exactly when it lies on one of the stepped platforms (MapGen.OnPlatform); every other cell is unchanged |
| MapGen.GenerateMap | app/src/main/java/com/example/game_android/game/world/TileMap.kt:192-208 | the fallback level (MapGen.Generated): the player, enemy and boss markers where they are placed; otherwise '^' exactly on the two platform series, '#' exactly on the ground row and the stubs every 7 columns not covered by a platform, and '.' everywhere else |
| TileMap.ScanCellListed | app/src/main/java/com/example/game_android/game/world/TileMap.kt:228-246 | a scanned cell appends its spawn to its marker's list and leaves the other lists |
| TileMap.ScanCellStart | app/src/main/java/com/example/game_android/game/world/TileMap.kt:216-226 | a scanned P or B cell replaces that start position |
| TileMap.ScanRowListed | app/src/main/java/com/example/game_android/game/world/TileMap.kt:214-246 | scanning a row appends its markers' spawns in column order |
| TileMap.ScanRowStart | app/src/main/java/com/example/game_android/game/world/TileMap.kt:216-226 | after a row, the start is that of the row's last P or B, else unchanged |
| TileMap.ScanRowsListed | app/src/main/java/com/example/game_android/game/world/TileMap.kt:214-246 | scanning the grid appends every marker's spawn in row-major order |
| TileMap.ScanRowsStart | app/src/main/java/com/example/game_android/game/world/TileMap.kt:216-226 | after the grid, the start is that of the last P or B scanned, else the default |
| TileMap.ClearRow | app/src/main/java/com/example/game_android/game/world/TileMap.kt:219-245 | clearing keeps the row's length |
| TileMap.ClearRowStep | app/src/main/java/com/example/game_android/game/world/TileMap.kt:215-246 | clearing one more cell blanks it exactly when it is a marker |
| TileMap.TileMap.constructor | app/src/main/java/com/example/game_android/game/world/TileMap.kt:22-57 | the level parsed from the file (or generated when there is none) and scanned, with the pixel size of the world |
| TileMap.TileMap.ScanSpecials | app/src/main/java/com/example/game_android/game/world/TileMap.kt:213-249 | every row loses its markers and the spawns are those of the row-major scan |
| TileMap.TileMap.ScanRowOf | app/src/main/java/com/example/game_android/game/world/TileMap.kt:214-248 | one row of the scan |
| TileMap.TileMap.IsSolidAt | app/src/main/java/com/example/game_android/game/world/TileMap.kt:257-258 | true exactly for in-grid '#' cells |
| TileMap.TileMap.IsOneWayAt | app/src/main/java/com/example/game_android/game/world/TileMap.kt:260-261 | true exactly for in-grid '^' cells |
| TileMap.TileMap.IsSolidAtPx | app/src/main/java/com/example/game_android/game/world/TileMap.kt:263 | for non-negative pixels, true exactly when the pixel's cell is an in-grid '#' |
| TileMap.ScanClearsMarkers | app/src/main/java/com/example/game_android/game/world/TileMap.kt:212-249 | after the scan, marker cells are '.', every other cell keeps its character, 'E' included |
| TileMap.SpawnLists | app/src/main/java/com/example/game_android/game/world/TileMap.kt:213-249 | the witch, skeleton, goblin, heart and ammo spawn lists are exactly the cells holding their markers, in row-major order, in pixels (hearts and ammo one row up) |
| TileMap.SpawnStarts | app/src/main/java/com/example/game_android/game/world/TileMap.kt:213-249 | the player and boss starts are those of the last P and B markers in row-major order (one and two rows up), else the defaults |
| TileMap.GeneratedStarts | app/src/main/java/com/example/game_android/game/world/TileMap.kt:204-207 | in the generated level the player starts at column 2, one row above its marker, and the boss at column cols − 10, two rows above its marker; both markers sit on the row above the ground |
| TileMap.GeneratedNoSpawns | app/src/main/java/com/example/game_android/game/world/TileMap.kt:204-206 | the generated level has no witch, skeleton, goblin, heart or ammo spawns, because its enemy markers are 'E', which the scan ignores |
| ViewTileMap.ScanCellStart | app/src/main/java/com/example/game_android/game/GameView.kt:557-562 | a scanned P or B cell replaces that start position |
| ViewTileMap.ScanRowSpawns | app/src/main/java/com/example/game_android/game/GameView.kt:557-562 | scanning a row appends the spawn of each 'E', one row up, in column order |
| ViewTileMap.ScanRowStart | app/src/main/java/com/example/game_android/game/GameView.kt:557-562 | after a row, the start is that of the row's last P or B, else unchanged |
| ViewTileMap.ScanRowsSpawns | app/src/main/java/com/example/game_android/game/GameView.kt:556-564 | the enemy spawns are the 'E' cells in row-major order, one row up |
| ViewTileMap.ScanRowsStart | app/src/main/java/com/example/game_android/game/GameView.kt:556-564 | after the grid, the start is that of the last P or B scanned, else the default |
| ViewTileMap.TileMap.constructor | app/src/main/java/com/example/game_android/game/GameView.kt:543-554 | the generated level with its pixel size, scanned |
| ViewTileMap.TileMap.ScanSpecials | app/src/main/java/com/example/game_android/game/GameView.kt:556-564 | the recorded starts and spawns are those of the row-major scan, and the grid is not changed |
| ViewTileMap.TileMap.IsSolidAt | app/src/main/java/com/example/game_android/game/GameView.kt:566 | only in-grid cells can be solid, and no solid cell is one-way |
| ViewTileMap.TileMap.IsOneWayAt | app/src/main/java/com/example/game_android/game/GameView.kt:567 | only in-grid cells can be one-way |
| ViewTileMap.TileMap.IsSolidAtPx | app/src/main/java/com/example/game_android/game/GameView.kt:568 | for non-negative pixels, the solidity of the pixel's cell; pixels just left of the grid truncate to column 0 |
| ViewTileMap.GeneratedPlayerStart | app/src/main/java/com/example/game_android/game/GameView.kt:549-634 | the player starts at column 2, one row above the stubs on the ground (at (0, 0) for a 12-column level, whose boss marker overwrites the P) |
| ViewTileMap.GeneratedBossStart | app/src/main/java/com/example/game_android/game/GameView.kt:549-634 | the boss starts at column cols − 10, two rows above its marker |
| ViewTileMap.GeneratedSpawnPoints | app/src/main/java/com/example/game_android/game/GameView.kt:560-634 | the enemy spawns are exactly the generator's enemy slots, in row-major order, one row up |
| GameView.SteerBounded | app/src/main/java/com/example/game_android/game/GameView.kt:243-248 | the run speed stays within 3.5 px per tick, moves towards the held direction, and decays with neither or both held |
| GameView.EnemyVxMeaning | app/src/main/java/com/example/game_android/game/GameView.kt:267-272 | a nearby enemy (within 280 px) walks towards the player at 1.2; otherwise it patrols at 1.0 in its patrol direction |
| GameView.BossVxMeaning | app/src/main/java/com/example/game_android/game/GameView.kt:282-286 | the boss stands still within 60 px of the player and otherwise walks towards the player at 1.4 |
| GameView.CloudStaysNear | app/src/main/java/com/example/game_android/game/GameView.kt:519 | a cloud never drifts more than 50 px past the view's right edge, and each step either moves it right or wraps it 400 px back |
| GameView.Follow | app/src/main/java/com/example/game_android/game/GameView.kt:307-308 | for a view no larger than the world, the camera stays inside the world and centres on the player when that is possible |
| GameView.FollowChecked | app/src/main/java/com/example/game_android/game/GameView.kt:307-308 | the follow as written: no position (Kotlin's `coerceIn` throws) exactly when the view is larger than the world, otherwise a position inside the world |
| GameView.TallViewThrows | app/src/main/java/com/example/game_android/game/GameView.kt:308 | a 720 px tall view against the 640 px level gets no vertical camera position from the follow as written |
| GameView.Pinned | app/src/main/java/com/example/game_android/game/GameView.kt:307-308 | the camera never goes left of or above the world, stays inside it when the view fits, centres on the player when possible, and is pinned at 0 when the view is larger than the world |
| GameView.PinnedAgrees | app/src/main/java/com/example/game_android/game/GameView.kt:307-308 | wherever the follow as written gives a position, the pinned follow gives the same one; elsewhere it gives 0 |
| GameView.Survivors | app/src/main/java/com/example/game_android/game/GameView.kt:294-295 | the bullets kept are exactly those neither dead nor inside a solid tile, in order |
| GameView.CountStruck | app/src/main/java/com/example/game_android/game/GameView.kt:298-304 | the number of bullets hitting a box, positive exactly when one does |
| GameView.BossHpAfter | app/src/main/java/com/example/game_android/game/GameView.kt:300 | the boss's health after a volley never rises, never drops below 0 from a positive start, and is unchanged when already 0 |
| GameView.BossHpCounts | app/src/main/java/com/example/game_android/game/GameView.kt:298-301 | the boss loses one health point per hitting bullet while alive, down to 0 |
| GameView.KillsAnyMeaning | app/src/main/java/com/example/game_android/game/GameView.kt:299 | a bullet hits some enemy exactly when it overlaps one still alive |
| GameView.Fired | app/src/main/java/com/example/game_android/game/GameView.kt:260-288 | the bullets fired are exactly the shots taken, in order |
| GameView.Flown | app/src/main/java/com/example/game_android/game/GameView.kt:292-293 | each bullet of the list, in place, after one step |
| GameView.Volley | app/src/main/java/com/example/game_android/game/GameView.kt:297-301 | the player's bullets keep position and speed, and a bullet is marked dead exactly when it was dead or was spent on a living enemy or the living boss |
| GameView.Doused | app/src/main/java/com/example/game_android/game/GameView.kt:302-304 | the enemy bullets keep position and speed, and a bullet is marked dead exactly when it was dead or overlaps the player |
| GameView.Added | app/src/main/java/com/example/game_android/game/GameView.kt:260 | a shot adds exactly its one bullet to the list, and no shot adds none |
| GameView.GameView.constructor | app/src/main/java/com/example/game_android/game/GameView.kt:17-78 | a fresh game: the player at the level's start with full health, one enemy per spawn, the boss at full health, 12 clouds 300 px apart and no bullets |
| GameView.GameView.Update | app/src/main/java/com/example/game_android/game/GameView.kt:236-309 | nothing at all changes while paused, lost or won; otherwise exactly what one tick promises |
| GameView.GameView.Tick | app/src/main/java/com/example/game_android/game/GameView.kt:238-308 | controls and pause untouched; victory exactly when this tick empties the boss; game over whenever the last heart is lost and only with none left; every cloud drifted against the previous camera; the camera pinned-followed on the player's new position on both axes |
| GameView.GameView.Advance | app/src/main/java/com/example/game_android/game/GameView.kt:242-304 | the player moved by the controls, gravity and the collision pass; the shot exactly when fire is held and the cooldown allows, from the player's centre at 7 px per tick; the player's bullets (with the new shot) and the enemies' bullets (with the foes' shots) flown, swept and resolved against the enemies, the boss and the player; the won and lost outcomes |
| GameView.GameView.Move | app/src/main/java/com/example/game_android/game/GameView.kt:242-289 | the player moved as the controls and the collision pass say, with its shot, then the foes, with at most one shot each; nobody's health or life changes |
| GameView.GameView.MovePlayer | app/src/main/java/com/example/game_android/game/GameView.kt:242-260 | the new body is the collision pass applied to the steered speed and the jump impulse or gravity; the jump button is remembered; a shot only when fire is held and the cooldown allows, from the player's centre at 7 px per tick in the direction of the speed, and the reload restarted |
| GameView.GameView.MoveFoes | app/src/main/java/com/example/game_android/game/GameView.kt:262-289 | every living enemy and the boss act; at most one shot each |
| GameView.GameView.ResolveBullets | app/src/main/java/com/example/game_android/game/GameView.kt:292-304 | both lists fly and lose their dead and walled-in bullets; the player's survivors kill exactly the living enemies they overlap and cost the living boss one point each, and are marked spent; the enemies' survivors cost the player a heart each, down to 0, and are marked spent |
| GameView.GameView.PlayerSide | app/src/main/java/com/example/game_android/game/GameView.kt:292-301 | the player's half: flown, swept, then resolved against the enemies and the boss as above; victory exactly when the boss is emptied |
| GameView.GameView.EnemySide | app/src/main/java/com/example/game_android/game/GameView.kt:292-304 | the enemies' half: flown, swept, then resolved against the player as above; lost exactly when a hit empties the player |
| GameView.GameView.Control | app/src/main/java/com/example/game_android/game/GameView.kt:244-253 | the run speed follows the held buttons, and a jump fires only on a fresh press while grounded |
| GameView.GameView.StepEnemy | app/src/main/java/com/example/game_android/game/GameView.kt:263-276 | a dead enemy is untouched and does not shoot; a living one gets gravity, the chase or patrol speed and the collision pass, keeps its jump flag, and shoots through its reload only with the player in sight, from its centre towards the player's side at 5 px per tick |
| GameView.GameView.StepEnemies | app/src/main/java/com/example/game_android/game/GameView.kt:263-276 | every enemy takes exactly the step StepEnemy describes, in order, one shot slot each |
| GameView.GameView.StepBoss | app/src/main/java/com/example/game_android/game/GameView.kt:279-289 | a dead boss does nothing; a living one gets gravity, walks towards the player outside 60 px, moves by the collision pass, and shoots when its cooldown allows |
| GameView.GameView.PlayerBulletsHit | app/src/main/java/com/example/game_android/game/GameView.kt:298-301 | each enemy dies when a bullet hits it, the boss loses one point per hitting bullet while alive, and each bullet that hit something is spent |
| GameView.GameView.HitOne | app/src/main/java/com/example/game_android/game/GameView.kt:299-300 | one bullet against the enemies and the boss |
| GameView.GameView.HitBoss | app/src/main/java/com/example/game_android/game/GameView.kt:300 | a living boss overlapped by the bullet loses one health point |
| GameView.GameView.HitEnemies | app/src/main/java/com/example/game_android/game/GameView.kt:299 | every living enemy the bullet overlaps dies, and the bullet is spent exactly when one did |
| GameView.GameView.EnemyBulletsHit | app/src/main/java/com/example/game_android/game/GameView.kt:302-304 | the player loses one heart per hitting bullet down to 0, each hitting bullet is spent, and the game is lost exactly when a hit leaves no heart |
| GameView.GameView.ResetGame | app/src/main/java/com/example/game_android/game/GameView.kt:398-404 | a new round: the player back at the start at rest with full health, its jump flags cleared, fresh enemies patrolling right on their spawns, a fresh boss, no bullets, the flags cleared; clouds, camera and controls kept |
| GameView.GameView.Respawn | app/src/main/java/com/example/game_android/game/GameView.kt:399-400 | one fresh living enemy per spawn point, patrolling right with a rested reload, and a fresh boss at its start |
| GameView.SpawnEnemies | app/src/main/java/com/example/game_android/game/GameView.kt:398-400 | one fresh living enemy per spawn point, at that point, each with its own body |
| GameView.StepAll | app/src/main/java/com/example/game_android/game/GameView.kt:292-293 | every bullet advances one step |
| GameView.Sweep | app/src/main/java/com/example/game_android/game/GameView.kt:294-295 | the removeAll keeps exactly the survivors |
| ViewActors.CountDown | app/src/main/java/com/example/game_android/game/GameView.kt:438-505 | a shooter with cooldown c fires nothing in its first c calls, then behaves as if rested |
| ViewActors.ShotRate | app/src/main/java/com/example/game_android/game/GameView.kt:438-443 | a held trigger fires at most once every reload + 1 calls |
| ViewActors.HeldFire | app/src/main/java/com/example/game_android/game/GameView.kt:438-443 | a rested shooter holding the trigger fires exactly once every reload + 1 calls |
| ViewActors.BulletBounds | app/src/main/java/com/example/game_android/game/GameView.kt:514 | a bullet's box is centred on it, 8 px square |
| ViewActors.StepBulletMeaning | app/src/main/java/com/example/game_android/game/GameView.kt:512 | a bullet moves by its speed and dies exactly when it leaves the world's width |
| ViewActors.Player.constructor | app/src/main/java/com/example/game_android/game/GameView.kt:418-427 | a 26 x 30 player at rest with 3 hearts |
| ViewActors.Player.TryShoot | app/src/main/java/com/example/game_android/game/GameView.kt:438-443 | a waiting cooldown is counted down; otherwise a bullet leaves the centre at 7 px per tick in the facing of the speed and the cooldown is 12 |
| ViewActors.Player.Hit | app/src/main/java/com/example/game_android/game/GameView.kt:444 | one heart lost, never below 0 |
| ViewActors.Player.Reset | app/src/main/java/com/example/game_android/game/GameView.kt:445 | back at the spot at rest with 3 hearts |
| ViewActors.Enemy.constructor | app/src/main/java/com/example/game_android/game/GameView.kt:448-457 | a 24 x 28 living enemy patrolling right |
| ViewActors.Enemy.TryShoot | app/src/main/java/com/example/game_android/game/GameView.kt:469-474 | a waiting cooldown is counted down; otherwise a bullet towards the target at 5 px per tick and a cooldown of 60 |
| ViewActors.Enemy.Hit | app/src/main/java/com/example/game_android/game/GameView.kt:475 | the enemy dies |
| ViewActors.Boss.constructor | app/src/main/java/com/example/game_android/game/GameView.kt:478-487 | a 48 x 54 boss with 30 health |
| ViewActors.Boss.TryShoot | app/src/main/java/com/example/game_android/game/GameView.kt:499-505 | a dead boss does nothing; otherwise a counted-down cooldown or a bullet towards the target at 6 px per tick and a cooldown of 30 |
| ViewActors.Boss.Hit | app/src/main/java/com/example/game_android/game/GameView.kt:506 | one health point lost; from 1 the boss is dead |
| Boss.Counts.Timed | app/src/main/java/com/example/game_android/game/entities/Boss.kt:137-156 | the golem's strips at their speeds and loop modes, with the given frame counts, all loaded |
| Boss.Cooldowns.Down | app/src/main/java/com/example/game_android/game/entities/Boss.kt:336-339 | each of the four cooldowns runs down by one tick, stopping at 0 |
| Boss.Between | app/src/main/java/com/example/game_android/game/entities/Boss.kt:642-645 | a draw from an inclusive range lies in the range |
| Boss.StacksFor | app/src/main/java/com/example/game_android/game/entities/Boss.kt:594-599 | armour stacks by remaining health: one at or below 75 %, two at or below 50 %, three at or below 25 %, never more than three |
| Boss.StacksMonotone | app/src/main/java/com/example/game_android/game/entities/Boss.kt:594-599 | less health never means fewer stacks |
| Boss.TakenMul | app/src/main/java/com/example/game_android/game/entities/Boss.kt:602-606 | the share of damage taken, 0.75 per stack, lies in (0, 1] |
| Boss.Taken | app/src/main/java/com/example/game_android/game/entities/Boss.kt:800-802 | every hit deals at least one point |
| Boss.TakenMulFalls | app/src/main/java/com/example/game_android/game/entities/Boss.kt:604 | more stacks never let more damage through |
| Boss.TakenMeaning | app/src/main/java/com/example/game_android/game/entities/Boss.kt:800-802 | without armour a hit deals its raw damage (at least 1); with more stacks it deals no more |
| Boss.PickWeighted | app/src/main/java/com/example/game_android/game/entities/Boss.kt:238-247 | no pick exactly when the weights sum to nothing; otherwise the first choice whose running weight passes the roll modulo the total |
| Boss.PickShare | app/src/main/java/com/example/game_android/game/entities/Boss.kt:238-247 | choice i is picked exactly for the rolls in [its prefix sum, its prefix sum + its weight), so each choice wins in proportion to its weight |
| Boss.Offers | app/src/main/java/com/example/game_android/game/entities/Boss.kt:356-378 | the melee approach is offered exactly when its cooldown is over, the arm throw and the laser exactly when also within 1200 px, the wait always, all with positive weights |
| Boss.WaitAlwaysOffered | app/src/main/java/com/example/game_android/game/entities/Boss.kt:377-380 | the weights always sum to at least 1, so a pick always happens and the chase fallback is never taken |
| Boss.SteerHoriz | app/src/main/java/com/example/game_android/game/entities/Boss.kt:783-793 | one accel nudge towards the desired speed, capped at the limit |
| Boss.SteerTowards | app/src/main/java/com/example/game_android/game/entities/Boss.kt:783-793 | below the cap the nudge moves the speed towards the desired one and not past the cap |
| Boss.ForwardArm | app/src/main/java/com/example/game_android/game/entities/Boss.kt:680-686 | the arm box sits 0.55 widths ahead of the centre on the facing side and 0.3 heights below it, 0.36 w by 0.3 h |
| Boss.BeatsSplit | app/src/main/java/com/example/game_android/game/entities/Boss.kt:494-552 | running the laser clock m + n ticks is running it m then n |
| Boss.Windup | app/src/main/java/com/example/game_android/game/entities/Boss.kt:496-510 | the 60-tick windup is silent and ends with the first-shot delay armed |
| Boss.Volley | app/src/main/java/com/example/game_android/game/entities/Boss.kt:516-546 | with beams left, a delay of d ticks is d quiet ticks then one beam |
| Boss.LaserBurstTimeline | app/src/main/java/com/example/game_android/game/entities/Boss.kt:494-552 | a laser action is 130 quiet ticks, a beam, 20 quiet, a beam, 20 quiet, a beam, then the end |
| Boss.LoopSpan | app/src/main/java/com/example/game_android/game/entities/Boss.kt:862-876 | the mini-loop's length is between 1 and 4 and never longer than the strip |
| Boss.LoopFrame | app/src/main/java/com/example/game_android/game/entities/Boss.kt:862-876 | the looping frame stays within the strip, and on a strip of at least 4 frames it is one of the last four |
| Boss.NextLoopIdx | app/src/main/java/com/example/game_android/game/entities/Boss.kt:871-873 | the loop index stays within the loop, cycling through 4 on a long strip |
| Boss.LoopFrameAsWritten | app/src/main/java/com/example/game_android/game/entities/Boss.kt:874 | the frame as written: base + index, which can pass the strip's end |
| Boss.NextLoopIdxAsWritten | app/src/main/java/com/example/game_android/game/entities/Boss.kt:872 | the index as written always cycles through 4 |
| Boss.LoopOverrunsShortStrip | app/src/main/java/com/example/game_android/game/entities/Boss.kt:862-876 | on a 2-frame strip the code as written shows frame 3 after three steps, past the strip |
| Boss.LoopAgrees | app/src/main/java/com/example/game_android/game/entities/Boss.kt:862-876 | on strips of at least 4 frames the corrected loop is the code as written |
| Boss.CalmScaled | app/src/main/java/com/example/game_android/game/entities/Boss.kt:398-421 | damping a speed within the dash cap keeps it within the cap |
| Boss.Boss.constructor | app/src/main/java/com/example/game_android/game/entities/Boss.kt:27-272 | a golem 20 tiles tall with the idle frame's aspect scaled by 0.72, full health, no armour, showing its appearance, immune for 100 ticks, all cooldowns 0 |
| Boss.Boss.AnimTo | app/src/main/java/com/example/game_android/game/entities/Boss.kt:831-834 | switching to a new clip restarts it; the same clip keeps playing |
| Boss.Boss.StartDormant | app/src/main/java/com/example/game_android/game/entities/Boss.kt:616-624 | a rock pile: not summoned, not alive, showing the last death frame, which reads as dead and gone |
| Boss.Boss.TriggerSummon | app/src/main/java/com/example/game_android/game/entities/Boss.kt:627-634 | ignored once summoned or appearing; otherwise the appearance starts from its last frame |
| Boss.Boss.SetCutsceneFrozen | app/src/main/java/com/example/game_android/game/entities/Boss.kt:126-129 | sets the freeze and its pose |
| Boss.Boss.Hit | app/src/main/java/com/example/game_android/game/entities/Boss.kt:795-826 | ignored while dead or immune; otherwise health falls by the armour-scaled damage (at least 1), stacks rise to match the health left with an armour flash, and the golem dies at 0 or flinches when free; the death event is raised exactly when it dies |
| Boss.Boss.ArmourUp | app/src/main/java/com/example/game_android/game/entities/Boss.kt:809-816 | stacks rise to those of the health left, with a flash and the new reduction when they rose, and nothing changes otherwise |
| Boss.Boss.Outcome | app/src/main/java/com/example/game_android/game/entities/Boss.kt:818-825 | at 0 health the golem dies; otherwise a free or chasing golem shows its hurt clip |
| Boss.Boss.Wound | app/src/main/java/com/example/game_android/game/entities/Boss.kt:800-805 | health falls by the damage scaled by the current stacks |
| Boss.Boss.Harden | app/src/main/java/com/example/game_android/game/entities/Boss.kt:811-815 | the new stacks, their reduction, and the flash |
| Boss.Boss.StartArmorVisualFlash | app/src/main/java/com/example/game_android/game/entities/Boss.kt:608-613 | the armour action with its one-off clip, restarted |
| Boss.Boss.Die | app/src/main/java/com/example/game_android/game/entities/Boss.kt:819-822 | not alive, dying, and showing death |
| Boss.Boss.EndAction | app/src/main/java/com/example/game_android/game/entities/Boss.kt:764-781 | finishing an attack counts it; the tenth forces a rest of 150 to 250 ticks standing still, otherwise the golem is free |
| Boss.Boss.StartWait | app/src/main/java/com/example/game_android/game/entities/Boss.kt:640-651 | a forced rest: 150 to 250 ticks idle and stopped; otherwise 60 to 120 ticks idling or strolling |
| Boss.Boss.StartIdle | app/src/main/java/com/example/game_android/game/entities/Boss.kt:671-673 | the golem is free |
| Boss.Boss.StartChase | app/src/main/java/com/example/game_android/game/entities/Boss.kt:675-677 | chases with the glow clip |
| Boss.Boss.StartMeleeApproach | app/src/main/java/com/example/game_android/game/entities/Boss.kt:704-712 | the approach with its 90-tick timeout and the melee cooldown, facing the player unless level with it |
| Boss.Boss.StartMeleeStrike | app/src/main/java/com/example/game_android/game/entities/Boss.kt:714-720 | the swing for the melee strip's duration, not yet landed |
| Boss.Boss.StartRange | app/src/main/java/com/example/game_android/game/entities/Boss.kt:723-733 | the arm throw's windup for the strip's duration, aimed at the given point, with the range cooldown |
| Boss.Boss.StartLaser | app/src/main/java/com/example/game_android/game/entities/Boss.kt:735-746 | the laser's windup with three beams to fire and the laser cooldown |
| Boss.Boss.StartArmor | app/src/main/java/com/example/game_android/game/entities/Boss.kt:749-756 | the timed armour buff: 60 % reduction for 240 ticks with the armour cooldown |
| Boss.Boss.StartImmune | app/src/main/java/com/example/game_android/game/entities/Boss.kt:758-762 | immune for the given ticks |
| Boss.Boss.Update | app/src/main/java/com/example/game_android/game/entities/Boss.kt:290-591 | dormant: shows the rock pile; appearing: plays backwards and summons (immune for 60 ticks) when done; frozen: stops in its pose; otherwise each cooldown runs down or restarts only for the action just chosen, a busy golem's cooldowns just run down, the melee event comes only from an unspent swing, the chase is never entered, and the speed never exceeds the dash cap |
| Boss.Boss.Live | app/src/main/java/com/example/game_android/game/entities/Boss.kt:336-590 | the cooldowns, turning, choice, action tick and frames of a summoned golem |
| Boss.Boss.Plan | app/src/main/java/com/example/game_android/game/entities/Boss.kt:336-385 | the four cooldowns run down; a free golem (no action or chasing) takes the action Boss.Chosen describes — in sight the weighted draw among the offered actions, otherwise the coin between wait and idle — and only that action's cooldown restarts; a busy golem keeps its action; a started laser is at its first phase, a started range attack glows for the windup clip aimed at the player |
| Boss.Boss.Decide | app/src/main/java/com/example/game_android/game/entities/Boss.kt:349-385 | a free golem takes the action Boss.Chosen describes with only its cooldown restarted; a busy golem keeps its action and cooldowns |
| Boss.Boss.Run | app/src/main/java/com/example/game_android/game/entities/Boss.kt:387-590 | the action tick, the free fallback and the frames |
| Boss.Boss.Reappear | app/src/main/java/com/example/game_android/game/entities/Boss.kt:300-317 | faces the player and plays the appearance backwards, summoning when it reaches frame 0 |
| Boss.Boss.AppearStep | app/src/main/java/com/example/game_android/game/entities/Boss.kt:303-315 | on each step tick the appearance goes back one frame; reaching 0 summons it, alive and immune for 60 ticks |
| Boss.Boss.Dormant | app/src/main/java/com/example/game_android/game/entities/Boss.kt:318-323 | the rock pile's frame |
| Boss.Boss.Freeze | app/src/main/java/com/example/game_android/game/entities/Boss.kt:328-333 | stopped in its cutscene pose |
| Boss.Boss.Turn | app/src/main/java/com/example/game_android/game/entities/Boss.kt:342-347 | a free or chasing golem turns towards a player more than 3 px away |
| Boss.Boss.Select | app/src/main/java/com/example/game_android/game/entities/Boss.kt:350-385 | the chosen action is the one Boss.Chosen describes; an attack starts only when its cooldown is over (range and laser only within 1200 px), and only its cooldown restarts |
| Boss.Boss.Choose | app/src/main/java/com/example/game_android/game/entities/Boss.kt:356-380 | the action started is the weighted draw among the offered actions (Boss.Picked), always an attack or a wait, and only its cooldown restarts |
| Boss.Boss.Launch | app/src/main/java/com/example/game_android/game/entities/Boss.kt:357-377 | the picked action becomes the current one, only its cooldown restarts, a laser starts at its first phase and a range attack glows aimed at the player |
| Boss.Boss.ActTick | app/src/main/java/com/example/game_android/game/entities/Boss.kt:387-580 | one tick of the current action: the melee event from an unspent swing only, the arm event from a waiting arm only |
| Boss.Boss.Approach | app/src/main/java/com/example/game_android/game/entities/Boss.kt:388-408 | dashes the arm towards the player, striking when aligned within 10 px or when the timeout runs out |
| Boss.Boss.ChaseTick | app/src/main/java/com/example/game_android/game/entities/Boss.kt:410-418 | steers towards the player up to 3 px per tick |
| Boss.Boss.MeleeTick | app/src/main/java/com/example/game_android/game/entities/Boss.kt:420-438 | the melee clip plays; the swing counts down at 85% speed; when it ends the attack is counted and the tenth attack since the last rest turns into a standing wait, otherwise the golem is free; the strike lands, with damage only when the arm overlaps the player, exactly on the unspent hit frame |
| Boss.Boss.MeleeTimer | app/src/main/java/com/example/game_android/game/entities/Boss.kt:421-423 | the swing ends when its ticks run out, counting the attack |
| Boss.Boss.Swing | app/src/main/java/com/example/game_android/game/entities/Boss.kt:425-437 | the strike lands once, on frame 6 at a frame step, hurting the player when the arm box meets the player |
| Boss.Boss.RangeTick | app/src/main/java/com/example/game_android/game/entities/Boss.kt:440-492 | during the windup it slows and glows until the windup ticks run out, then loops waiting to throw; the waiting arm is thrown once as a shard from the forward hand; afterwards the attack lasts exactly as long as the shard does and is counted when it ends |
| Boss.Boss.RangePrepare | app/src/main/java/com/example/game_android/game/entities/Boss.kt:444-453 | when the windup runs out the arm is ready to throw, with no countdown |
| Boss.Boss.RangeThrow | app/src/main/java/com/example/game_android/game/entities/Boss.kt:454-491 | throws the waiting arm once from ahead of the golem; ends the action once no shard is alive |
| Boss.Boss.LaserTick | app/src/main/java/com/example/game_android/game/entities/Boss.kt:494-556 | follows the laser clock: beams exactly on its beats, the end exactly at its end |
| Boss.Boss.LaserWind | app/src/main/java/com/example/game_android/game/entities/Boss.kt:496-510 | the windup counts down and then holds the last cast frame |
| Boss.Boss.LaserFire | app/src/main/java/com/example/game_android/game/entities/Boss.kt:511-552 | counts down the delay, fires a bolt at the player's chest and re-arms the delay, and ends after the last beam |
| Boss.Boss.Passive | app/src/main/java/com/example/game_android/game/entities/Boss.kt:559-577 | armour slows to 70% on the armour clip; immunity slows to 80% and counts down; dying stands still on the death clip; a wait loiters and counts down; with no action nothing changes |
| Boss.Boss.Brace | app/src/main/java/com/example/game_android/game/entities/Boss.kt:559-562 | the armour tick: speed scaled to 70% on the armour clip |
| Boss.Boss.Collapse | app/src/main/java/com/example/game_android/game/entities/Boss.kt:570-573 | the dying tick: speed zero on the death clip |
| Boss.Boss.CountDown | app/src/main/java/com/example/game_android/game/entities/Boss.kt:567-668 | a timed action's ticks run down and it ends at 0 |
| Boss.Boss.ImmuneTick | app/src/main/java/com/example/game_android/game/entities/Boss.kt:564-568 | slows to 0.8 and counts the immunity down |
| Boss.Boss.DoWait | app/src/main/java/com/example/game_android/game/entities/Boss.kt:653-669 | the wait counts down and ends at zero; standing, the golem slows by friction on the idle clip; walking, it steers toward 1.2 px a tick in its facing, never past the walk cap, glowing while it moves |
| Boss.Boss.Loiter | app/src/main/java/com/example/game_android/game/entities/Boss.kt:654-667 | idling slows by friction; strolling steers towards 1.2 px per tick in the facing, within the walk cap |
| Boss.Boss.Fallback | app/src/main/java/com/example/game_android/game/entities/Boss.kt:583-587 | a free golem slows by friction and idles |
| Boss.Boss.AdvanceFrames | app/src/main/java/com/example/game_android/game/entities/Boss.kt:836-882 | one step of the current clip: the armour flash advances one tick and a frame on its cadence, and on its last frame ends its action with the armour-end event; the range loop holds the strip's last frame; the holding laser shows the mini-loop frame without moving the clip tick; every other case (the laser windup, an armour clip not flagged to play once, every other clip) takes the ordinary clip step, wrapping or holding the last frame; only the armour flash emits events or touches the action |
| Boss.Boss.ArmorOnce | app/src/main/java/com/example/game_android/game/entities/Boss.kt:840-852 | the armour flash steps to its last frame and then ends the action |
| Boss.Boss.LaserLoop | app/src/main/java/com/example/game_android/game/entities/Boss.kt:862-876 | loops over the last four frames of the laser strip, restarting when the base moves, never past the strip |

## Left out

- Drawing: every `draw`, `drawTiles`, `drawDebugTiles`, the debug hitbox and range overlays, the parallax backgrounds, `SpriteDraw`, `TileSet`, `Cloud`, `PickupItem`, the HUD and the overlays. They only produce canvas output.
- Touch and UI: `InputController`, `HudRenderer`, `OverlayButtons`, the activities and `GameView.onTouchEvent`. Held buttons become boolean fields or parameters.
- Audio: `SoundManager` calls into the Android media APIs.
- The game thread: `GameView.run`, its nanoTime accumulator and the surface callbacks. One call of an update method is one tick.
- Floating point: `Float` is modelled as exact `real`, so rounding error is not modelled. `Int` is unbounded, so 32-bit overflow of counters and coordinates is not modelled.
- Trigonometry and square roots:
  - ArmShard's turn-rate steering (`atan2`, `cos`, `sin`, `hypot`) is given to `ArmShard.ArmShard.Update` as the steered velocity and an arrival flag.
  - The witch's fireball velocity, the boss's laser and shard aim, and `Fireball`'s rotation angle are parameters.
  - The rotated bounds and separating-axis overlaps of `LaserBolt` and `ArmShard` are not modelled.
  - Distances that the source compares through `sqrt` are compared squared.
- Randomness: `kotlin.random.Random` draws are parameters. A bounded draw `nextInt(n)` is modelled as the parameter taken modulo `n`.
- Resource loading: `SpriteLoader`, bitmap decoding and asset reading are not modelled. `Strip` and `BitmapUtils` take the pixels as rows of ARGB values, and the world `TileMap` takes the level as a list of lines.
- Logging (`Log.d`, `Log.w`) is not modelled.
- `TileMap.isSolidAtPxRect` (a four-corner probe that `moveAndCollide` does not use) and `visibleRange` (used only by drawing) are not modelled.
- The `tileSolidAtPx` parameter of the boss's update is never read by its body, so it is left out.
- The boss's output lists for projectiles are assumed to be set. The source sets them when an action starts, so their null branches are not modelled.
- `Witch.pendingOut` is a flag. The list it points to is the one passed to the update that fires the fireball.
- `Player`'s quiver: the source constructs a `Quiver` but calls `InfQuiver`'s signatures, so the player's ammunition follows `InfQuiver` with capacity 5 and cooldown 60.
- `Boss.startArmor` has no caller in the source. The model includes it as `Boss.Boss.StartArmor`.
- The boss's CHASE state is modelled, but action selection never enters it, because the WAIT action is always offered.
- The `Projectile` and `PhysicsBody` interfaces are not modelled as interfaces. Each entity class carries the fields itself, and the tile map moves a `PhysicsBody.Body`.
- `Enemy.kt` is left out. Its only behaviour is `hit()` clearing `alive`, and that is modelled on `GameView`'s inner enemy.
- Collision.CollidesOneWayFromAbove: the scan is exact only for tiles of at least 6 px and boxes with top ≤ bottom. Otherwise the model proves only that a reported hit is real, because the scan window may miss a band.
- PickupQuiver.PickupQuiver.constructor: requires a non-negative capacity. With a negative `maxAmmo` the source's `coerceIn(0, maxAmmo)` throws `IllegalArgumentException`; the model does not represent that throw. The default arguments are the separate constructor `PickupQuiver.PickupQuiver.Default`.
- Boss.Boss.LaserLoop: follows the corrected laser mini-loop of the Findings row (`Boss.LoopFrame`), not the code as written at Boss.kt:862-876. The two agree on every laser strip of at least 4 frames (`Boss.LoopAgrees`). They differ only on shorter strips, where the code as written indexes past the strip (`Boss.LoopOverrunsShortStrip`).
- Boss.Boss.AdvanceFrames: its laser branch is `Boss.Boss.LaserLoop`, so it carries the same correction, with the same agreement on strips of at least 4 frames.
- Boss.Boss.Update: at this level the contract states the cooldowns, where the melee and arm events can come from, that the chase is never entered and the dash cap; it does not state which action is chosen, nor the new action timers, clip and frame, nor the full new position and velocity. These are stated one level down: the choice by Boss.Boss.Plan, and each action's timers, clip and speed by Boss.Boss.MeleeTick, Boss.Boss.RangeTick, Boss.Boss.Passive and the other per-action methods.
- Boss.Boss.Live: does not restate the chosen action, the timers or the frames; see Boss.Boss.Plan and the per-action methods.
- Boss.Boss.Run: does not restate the per-action timers, clips and speeds of the action it runs; see the per-action methods.
- Boss.Boss.ActTick: states only where its events come from and that no chase is entered; the per-action timers, clips and speeds are stated by Boss.Boss.MeleeTick, Boss.Boss.RangeTick, Boss.Boss.Passive and the other per-action methods it dispatches to.
- GameView.GameView.Tick: its camera is `GameView.Pinned`, the corrected follow of the Findings row, not the code as written at GameView.kt:307-308, which throws for a view taller or wider than the level (`GameView.TallViewThrows`). The two agree wherever the code as written gives a position (`GameView.PinnedAgrees`). Tick also does not restate the new bullet lists, the player's new body or the foes' moves; GameView.GameView.Advance states the first two and GameView.GameView.StepEnemies and GameView.GameView.StepBoss the last.
- GameView.GameView.Update: promises what GameView.GameView.Tick promises, with the same corrected camera and the same parts left to GameView.GameView.Advance, GameView.GameView.StepEnemies and GameView.GameView.StepBoss.
- GameView.GameView.Advance: gives the number of the foes' shots but not their values, and does not restate how the enemies and the boss move; GameView.GameView.StepEnemies and GameView.GameView.StepBoss state both.
- GameView.GameView.Move: the same as GameView.GameView.Advance for the foes' moves and shots.
- GameView.GameView.MoveFoes: states only the number of shots and that health and life are kept; each enemy's step and the boss's step are stated by GameView.GameView.StepEnemies and GameView.GameView.StepBoss.

## Findings

| source | as written | input that shows it | evidently intended | confidence | as-written member | corrected member |
|---|---|---|---|---|---|---|
| app/src/main/java/com/example/game_android/game/entities/Boss.kt:862-876 | the laser mini-loop shows frame `max(frames - 4, 0) + idx` and steps `idx` as `(idx + 1) % 4` | a laser strip of 2 frames: after three steps `idx` is 3 and the frame shown is 3, past the strip's last frame 1 | loop over the last `min(4, frames)` frames of the strip | low, not executed | Boss.LoopOverrunsShortStrip | Boss.LoopFrame |
| app/src/main/java/com/example/game_android/game/GameView.kt:307-308 | the camera is `(p - view / 2).coerceIn(0, world - view)` on both axes | a landscape view 720 px tall against the 640 px tall level: the range `0..-80` is empty and Kotlin's `coerceIn` throws `IllegalArgumentException` on every tick | pin the camera at 0 on an axis where the view is larger than the world, as the level's `Camera.follow` does | medium, not executed | GameView.TallViewThrows | GameView.Pinned |
