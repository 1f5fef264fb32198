# Rust Invaders kernel, modelled in Dafny

A model of the game rules inside the Bevy systems of the "Rust Invaders"
shoot-'em-up. The world is not simulated as a live ECS. Each system is a
method or function. It reads the rows its query would return and returns
the deferred `Commands` it would issue, in issue order (`Commands.Command`:
despawn an entity, spawn a sprite bundle, spawn an `ExplosionToSpawn`
marker, spawn an animated explosion). Components that a system updates in
place are arrays of rows that the method writes. The resources are modelled
this way:

- `FormationMaker` and `PlayerState` are classes.
- `EnemyCount` is a value passed in and returned.
- `WinSize` is a parameter.

Modules, by source file:

- `Common` (common.dfy): vectors, `WinSize` and the game's constants.
- `Commands` (commands.dfy): the commands, the sprite bundles the systems
  spawn and the component filters of each query.
- `Formations` (formation.dfy): `Formation` and the `FormationMaker`
  template/member-count generator of src/enemy/formation.rs.
- `PlayerStates` (player_state.dfy): the `PlayerState` resource of
  src/main.rs.
- `Movables` (movable.dfy): the movable integrator and its off-screen
  despawn rule.
- `Collisions` (collision.dfy): the player-laser/enemy pass and the
  enemy-laser/player pass.
- `Explosions` (explosion.dfy): turning markers into explosions, and the
  explosion animation and lifetime.
- `EnemySystems` (enemy.dfy): enemy spawn, enemy fire and the per-enemy
  movement step of src/enemy/mod.rs.
- `PlayerSystems` (player.dfy): player spawn, keyboard steering and the
  two-laser fire of src/player.rs.

Engine services are inputs:

- Bevy's box test `collide` is a function parameter about which nothing is
  assumed.
- Each random draw of a fresh formation is a field of a `Draws` record that
  satisfies the `gen_range` ranges. The `atan2` of the starting angle is a
  field too.
- `cos`, `sin` and `sqrt` of a movement step come in a `Trig` record. The
  lemmas that need it require that `sqrt` was taken of the true squared
  distance (`DistanceFits`, and `TrigFits` for an enemy).

The geometry of a movement step is stated for any point p and target t
(`EnemySystems.Move`); an enemy's new translation is that move applied to
its position and the point on its ellipse (`EnemySystems.StepTranslation`).
- A timer's `finished()` is a boolean per tick.
- The keyboard state is a set of booleans.

Every `f32` is an exact `real`.

The code is modelled as written. Two consequences are proved as facts and
not corrected:

- The lasers `player_fire_system` spawns carry neither `Laser`, `FromPlayer`
  nor `SpriteSize` (`PlayerSystems.PlayerFire`). So the query of
  `player_laser_hit_enemy_system` never returns them.
- The player bundle carries no `SpriteSize` (`PlayerSystems.PlayerBundle`).
  So the player query of `enemy_laser_hit_player_system` never returns it.

## Model

| member | source | states |
|---|---|---|
| `Formations.FreshFormation` | src/enemy/formation.rs:31-68 | A fresh template starts at x = w/2+100 when the coin says right and at -(w/2+100) otherwise, with y in [-(h/2+100), h/2+100). Its pivot lies in [-w/4, w/4) x [0, h/3-50) and its radii are [80, 150) and exactly 100. Its speed is `BASE_SPEED` and its angle is the drawn heading, so it is well formed. |
| `Formations.FreshStartsOffScreen` | src/enemy/formation.rs:35-37 | A fresh template starts outside the viewport, to the left or to the right of it. |
| `Formations.Next` | src/enemy/formation.rs:23-70 | With a template and fewer than `FORMATION_MEMBERS_MAX` members, `make` hands out the template and adds one member. Otherwise it builds a fresh template, stores it and restarts the count at 1. Either way, afterwards the stored template is the formation handed out and the count lies in [1, `FORMATION_MEMBERS_MAX`]. |
| `Formations.FormationMaker.constructor` | src/enemy/formation.rs:15-19 | The default maker has no template and no members. |
| `Formations.FormationMaker.Make` | src/enemy/formation.rs:23-70 | On the copy branch the method returns the old template and leaves it unchanged, and the member count goes up by one. On the fresh branch it stores and returns the fresh formation and sets the count to 1. The new fields agree with `Next`, and the invariant holds afterwards. |
| `Formations.Run` | src/enemy/formation.rs:23-70 | A run of `make` calls hands out exactly one formation per call. |
| `Formations.RunSettles` | src/enemy/formation.rs:24-66 | From any maker state, after one call or more there is a template and 1 <= members <= `FORMATION_MEMBERS_MAX`. |
| `Formations.RunAlternates` | src/enemy/formation.rs:24-68 | From a maker about to build (the default one included), call i returns the formation built fresh from the draws of call i - i mod 2. So calls alternate fresh, copy, fresh, copy. |
| `Formations.PairsShareATemplate` | src/enemy/formation.rs:24-68 | From the default maker, calls 2k+1 and 2k+2 return the same formation, the one built from the draws of call 2k+1. |
| `PlayerStates.PlayerState.constructor` | src/main.rs:62-69 | The default state is not on, with last shot -1. |
| `PlayerStates.PlayerState.Shot` | src/main.rs:72-75 | After `shot(t)` the player is off and the last shot is t. |
| `PlayerStates.PlayerState.Spawned` | src/main.rs:76-79 | After `spawned()` the player is on and the last shot is -1. |
| `Movables.Integrate` | src/main.rs:143-146 | One tick moves x and y by the velocity times 25/3 (`TIME_STEP` x `BASE_SPEED`). It changes nothing else. |
| `Movables.OffScreen` | src/main.rs:150-154 | The despawn test: strictly outside the window grown by `MARGIN` on some side. Anything it despawns lies outside the visible window. |
| `Movables.IntegrateReverses` | src/main.rs:145-146 | A tick with the opposite velocity undoes a tick. |
| `Movables.OnScreenStaysInMargin` | src/main.rs:145-154 | A body inside the viewport, whose velocity components lie in [-1, 1], is not despawned on the next tick. |
| `Movables.OffScreenDespawnsExactly` | src/main.rs:148-157 | The system despawns an entity if and only if some row of it is auto-despawn and strictly outside the window grown by `MARGIN`. |
| `Movables.KeptWithoutAutoDespawn` | src/main.rs:148 | An entity whose `auto_despawn` is false is never despawned, when each entity has one row. |
| `Movables.LaserLeavesTopMargin` | src/main.rs:150-156 | An upward laser 199 units above the top edge is despawned on the next tick. |
| `Movables.MovableSystem` | src/main.rs:139-160 | Every row is moved in place by one tick, and the commands are exactly the despawns of the moved rows that leave the margin, in query order. |
| `Collisions.LaserExtent` | src/main.rs:176-189 | A laser is tested with its sprite size times its scale (likewise at src/main.rs:223-228); at scale 1 that is its size. |
| `Collisions.TargetExtent` | src/main.rs:184-191 | An enemy is tested with its sprite size times its scale times 100 (the player likewise at src/main.rs:230); at scale 1 that is 100 times its size. |
| `Collisions.TargetBoxHundredfold` | src/main.rs:187-191 | The box of a target is exactly 100 times the box the same row would get as a laser, on each axis. |
| `Collisions.FirstTarget` | src/main.rs:179-195 | The enemy a live laser destroys is the first enemy, in query order, that is not yet despawned and that the laser hits. No such enemy means no destruction. |
| `Collisions.KillCommandEffects` | src/main.rs:196-206 | One destruction despawns the enemy, then the laser, and queues one explosion marker at the enemy's translation. |
| `Collisions.Resolve` | src/main.rs:169-208 | The destructions of one pass of the nested loops, in order: a laser not yet despawned destroys the first enemy it hits that is not yet despawned, and both join the despawned set. At most one destruction per laser; the lemmas below state what the pass promises. |
| `Collisions.ResolveSound` | src/main.rs:171-195 | Every destruction pairs a laser and an enemy of the queries, neither despawned before, and the laser hits the enemy. |
| `Collisions.ResolveDistinct` | src/main.rs:169-203 | No laser destroys two enemies and no enemy is destroyed twice: the despawned set makes a spent laser skip the rest. |
| `Collisions.ResolveDespawnsOnce` | src/main.rs:169-203 | Each entity is despawned at most once per pass, and never one that was already despawned. |
| `Collisions.KillCommandsEffects` | src/main.rs:195-206 | A pass issues two despawns and exactly one explosion marker per destruction. Marker i sits at the translation of the i-th destroyed enemy. |
| `Collisions.ResolveBound` | src/main.rs:195-199 | A pass destroys no more enemies than there are live enemies not yet despawned. |
| `Collisions.DistinctEnemiesDestroyed` | src/main.rs:195-199 | A pass destroys as many distinct enemies as it has destructions, so the count drops by exactly the number of distinct enemies hit. |
| `Collisions.StrikeFirst` | src/main.rs:179-208 | The inner loop, for a laser not yet despawned: with no target it changes nothing. Otherwise it despawns the first target, then the laser, queues its explosion, and lowers the count by one. |
| `Collisions.ResolveAdvance` | src/main.rs:171-208 | Resolving from laser i on: a laser already despawned or with no target adds nothing, and otherwise its destruction comes first and marks both entities despawned for the rest. |
| `Collisions.StrikeLaser` | src/main.rs:171-208 | One pass of the outer loop: the commands issued for laser i, followed by those of the remaining lasers, are those of resolving from laser i on, and the count drops by the destructions laser i makes. |
| `Collisions.PlayerLaserHitEnemy` | src/main.rs:163-210 | The new enemy count is the old count minus the number of distinct enemies destroyed. The commands are those of the destructions, in order. |
| `Collisions.FirstHit` | src/main.rs:222-234 | The laser that hits the player is the first one in query order that `collide` reports. No such laser means no hit. |
| `Collisions.EnemyLaserHitPlayer` | src/main.rs:212-249 | The pass acts only when there is exactly one player. On the first hit it despawns the player and that laser, queues an explosion at the player, and records the shot at `now`. Later lasers are untouched. Without a hit nothing is issued and the state is unchanged. |
| `Explosions.ExplosionToSpawnSystem` | src/main.rs:251-273 | Each marker yields exactly one explosion at its stored position, on frame 0, and then the marker is despawned. |
| `Explosions.ExplosionAnimation` | src/main.rs:275-289 | The frame index rises by exactly one on the ticks whose timer finished and is unchanged otherwise. The despawns are those of the explosions whose index reached `EXPLOSION_LEN`. |
| `Explosions.Tick` | src/main.rs:281-286 | One tick of one explosion: the frame rises by at most one, a despawn happens only on a finished tick with the frame at `EXPLOSION_LEN` or more, and an explosion below that length is despawned exactly when its timer finishes on the last frame. |
| `Explosions.ExplosionLifetime` | src/main.rs:281-286 | An explosion on frame f is despawned if and only if its timer finishes at least 16 - f times. It goes on the very tick of the (16 - f)-th finish. |
| `Explosions.NewExplosionLivesSixteenPeriods` | src/main.rs:281-286 | A new explosion is never despawned before its 16th tick, and survives any run with fewer than 16 finishes. |
| `EnemySystems.EnemyBundle` | src/enemy/mod.rs:44-55 | A spawned enemy sits at (start.x, start.y, 10), at scale `SPRITE_SCALE`/2, and carries its formation and `ENEMY_SIZE`. Only the enemy query sees it, and it is not movable. |
| `EnemySystems.EnemySpawn` | src/enemy/mod.rs:32-59 | Below `ENEMY_MAX` the system calls `make` once, spawns one enemy on the result and adds one to the count. Otherwise it changes nothing, the maker included. So the count never passes `ENEMY_MAX`. |
| `EnemySystems.EnemyLaserBundle` | src/enemy/mod.rs:77-92 | An enemy laser starts 15 below the enemy, on layer 0, with velocity (0,-1), and is auto-despawned. The enemy-laser query sees it and the player-laser query does not. |
| `EnemySystems.EnemyFire` | src/enemy/mod.rs:69-94 | Exactly one laser per enemy, in query order. |
| `EnemySystems.Direction` | src/enemy/mod.rs:104 | The turn direction is +1 if and only if the formation started left of centre, and -1 otherwise. |
| `EnemySystems.Ratio` | src/enemy/mod.rs:120 | The ratio is 0 at distance 0, so there is no division by zero. Otherwise ratio x distance = max distance, and it is never negative. |
| `EnemySystems.AdvancedAngle` | src/enemy/mod.rs:104-110 | The advanced angle grows for enemies that entered from the left and shrinks for those from the right; a formation with speed 0 keeps its angle. |
| `EnemySystems.Approach` | src/enemy/mod.rs:117-126 | One axis of the step with its clamp: whatever the ratio, the new coordinate never passes the target's (at least it when the offset is positive, at most it otherwise). |
| `EnemySystems.ApproachPartial` | src/enemy/mod.rs:122-126 | With a ratio in [0, 1] the clamp does not bite: the coordinate moves by exactly `ratio` of its offset to the target. |
| `EnemySystems.ApproachFull` | src/enemy/mod.rs:122-126 | With a ratio of at least 1 the clamp stops the coordinate exactly on the target's. |
| `EnemySystems.ApproachBetween` | src/enemy/mod.rs:122-126 | With a non-negative ratio the new coordinate lies between the old one and the target's: no overshoot. |
| `EnemySystems.Step` | src/enemy/mod.rs:96-135 | The angle is replaced by the advanced one only when distance < max distance x speed / 20. Start, pivot, radius and speed never change, and z is kept. |
| `EnemySystems.CoveredFraction` | src/enemy/mod.rs:102-126 | The fraction of the offset covered lies in [0, 1] and covers at most the max distance. It is 0 on the target and 1 within reach of it. |
| `EnemySystems.CoveredDistance` | src/enemy/mod.rs:117-126 | The covered fraction of the distance d is min(d, max distance), and what is left is max(d - max distance, 0). |
| `EnemySystems.MoveTowardTarget` | src/enemy/mod.rs:113-126 | A move goes along the straight line to the target: both offsets shrink by the same fraction m in [0, 1], with m x distance at most the max distance and m = 1 within reach. |
| `EnemySystems.MoveRemaining` | src/enemy/mod.rs:113-126 | When `distance` is the true Euclidean distance, the enemy ends exactly max(distance - max distance, 0) from the target. |
| `EnemySystems.MoveLength` | src/enemy/mod.rs:102-126 | Under the same condition the move has length exactly min(distance, max distance). |
| `EnemySystems.MoveNeverRecedes` | src/enemy/mod.rs:113-126 | A move never takes the enemy further from its target. |
| `EnemySystems.MoveBounded` | src/enemy/mod.rs:102-126 | No move is longer than `TIME_STEP` x speed. |
| `EnemySystems.MoveLandsOnTarget` | src/enemy/mod.rs:117-126 | A target within reach, but not at distance 0, is reached exactly. |
| `EnemySystems.MoveHoldsOnTarget` | src/enemy/mod.rs:120-126 | At distance 0 the enemy does not move. |
| `EnemySystems.StepApproachesTarget` | src/enemy/mod.rs:96-135 | An enemy's step, when the distance it was given is its true distance to the point on its ellipse, ends max(distance - `TIME_STEP` x speed, 0) from that point after a move of length min(distance, `TIME_STEP` x speed). |
| `EnemySystems.EnemyMovement` | src/enemy/mod.rs:96-135 | Every enemy row is stepped in place, and no other row changes. |
| `EnemySystems.StepKeepsWellFormed` | src/enemy/mod.rs:129-131 | A step keeps radii positive and speed non-negative, so the next tick is defined. |
| `PlayerSystems.PlayerBundle` | src/player.rs:21-33 | The player appears centred, 50 above the bottom edge plus half its scaled height (y = -h/2 + 50.1953125), on layer 10. It is movable, is never auto-despawned and starts with velocity (1,0). It carries no `SpriteSize`, so the player collision query never sees it. |
| `PlayerSystems.PlayerSpawn` | src/player.rs:15-34 | Spawning issues exactly one command, the player bundle. |
| `PlayerSystems.KeyboardVelocityX` | src/player.rs:74-80 | The x velocity is -1 exactly when Left is held (Left wins over Right), +1 exactly when only Right is held, and 0 exactly when neither is. |
| `PlayerSystems.PlayerKeyboard` | src/player.rs:69-82 | With exactly one player only its x velocity is set and its y velocity is kept. Otherwise nothing changes. |
| `PlayerSystems.PlayerLaserBundle` | src/player.rs:49-61 | A player laser is at the given point on layer 0, at scale `SPRITE_SCALE`, with velocity (0,1), and is auto-despawned. It has no tags and no size. |
| `PlayerSystems.PlayerFire` | src/player.rs:36-67 | With exactly one player and Space just pressed, the system fires two lasers: one at x+10, then one at x-10, both at y+75.75. Otherwise it fires nothing. None of these lasers enters the player-laser collision query. |

## Left out

- App setup and rendering are not modelled: plugins, `setup_system`, window placement, asset loading, textures, the texture atlas and the `Quat` rotation of enemy lasers. `SpriteBundle` keeps only the texture handle's role, the translation, the scale and the inserted components.
- Randomness is not modelled. The fresh-formation draws come from the caller. So does the `gen_bool(1/60)` gate of enemy fire: `EnemyFire` is what runs when the gate opens.
- Floating point is not modelled. `f32`/`f64` are exact reals, and `std::f32::consts::PI` is the constant 3.1415927. `cos`, `sin`, `sqrt` and `atan2` are inputs, so convergence of enemies onto their ellipse is not stated.
- The inside of `collide_aabb::collide` is not modelled. Only whether it returns `Some` matters, and it is an arbitrary function.
- Bevy's `Timer` and `Time` are not modelled. A timer's `finished()` is a per-tick input, and the time of a shot is the parameter `now`.
- `FixedTimestep` and run criteria, which decide when a system runs, are not modelled. Each model runs one invocation of its system.
- src/enemy.rs is not part of this model: it is an older `EnemyPlugin` that the module tree in src/enemy/mod.rs replaces.
- No respawn of the player is modelled, because none exists in the code.
- Entities are natural numbers, and the ECS world's bookkeeping (archetypes, deferred application of commands) is not modelled.
- Collisions.ResolveDespawnsOnce: requires that no entity is both a player laser and an enemy. Nothing in the code spawns such an entity, but the queries alone do not rule it out.
- Collisions.PlayerLaserHitEnemy: requires that the enemy count is at least the number of live enemies. The `u32` subtraction would otherwise underflow.
- EnemySystems.EnemyMovement: requires well-formed formations (positive radii, non-negative speed). The angle step divides by the smaller radius, and every formation the maker builds is well formed.
- EnemySystems.MoveLandsOnTarget: covers a distance strictly greater than 0. At distance 0, `EnemySystems.MoveHoldsOnTarget` shows the enemy stays put, without deriving from the square root that it already stands on the target.
- Formations.FreshFormation: requires draws from non-empty ranges (`ValidDraws`), so it, `Next`, `FormationMaker.Make`, `Run` and `EnemySystems.EnemySpawn` are only defined on the fresh branch for windows with w > 0 and h/3 - 50 > 0. For other windows `gen_range` at src/enemy/formation.rs:38-44 panics on an empty range, and that panic is not modelled.
- Widths are not modelled: `u32`/`usize` counters (`EnemyCount`, `current_members`, the sprite index) are unbounded naturals, and no overflow of `+= 1` is modelled.
