# Space Invaders engine: a verified model

This project models the engine of a terminal Space Invaders game: the game state and its frame step
(`src/model.c`), the geometry and random-number helpers it uses (`src/utils.c`), and the controller that turns
player commands into calls on the engine (`src/controller.c`).

The model has two layers:

- **Value-level specification.** A `Game` value holds the live prefixes of the engine's fixed-size pools:
  the enemies, the player's shots, the enemy bombs and the shields. Pure functions define each step on it:
  - `Squad` marches the enemy formation and makes one enemy fire;
  - `Pools` moves projectiles and compacts their pools;
  - `Collisions` runs the four collision passes;
  - `Levels` covers initialisation, reset, level completion and level jumps;
  - `Rules` covers the player commands and the whole frame.

  Lemmas state what the source promises about these functions: score accounting, enemy counts, bounds,
  which fields each step leaves alone, and the invariant `Entities.Inv`, which every operation preserves.
- **State-level implementation.** `Model.GameState` is a class over arrays with the same fields as the C
  struct. Each of its methods updates the arrays in place with loops over the same slots, in the same order, as the C loops. Where a C
  loop writes a hit straight into the state, the model's loop collects it in a returned flag or count and
  the caller writes it once after the loop (see "## Left out"). Each method is
  proved to move the abstract value `Abs()` exactly as the matching value-level function does. For example,
  `Update` ensures `Abs() == Rules.Frame(old(Abs()), ...)`.

`Control` models the controller. It checks for a null controller or a null game state, and dispatches each
command to the engine.

Randomness is supplied as parameters:

- `fireRoll` is the `rand()` value behind `utils_random_int` in the enemy-fire probe.
- `shieldRolls` holds the twelve `rand()` values that `init_shields` draws: four positions, then two row
  offsets per shield.

## Model

| member | source | states |
|---|---|---|
| Utils.RectCollisionSymmetric | src/utils.c:17-23 | the overlap test does not depend on which rectangle is given first |
| Utils.TouchingRectsDoNotCollide | src/utils.c:17-23 | the test is strict: rectangles that share only an edge do not collide |
| Utils.CellInRect | src/utils.c:17-23 | a 1x1 cell collides with a non-empty rectangle exactly when it lies inside it (both directions) |
| Utils.Clamp | src/utils.c:28-32 | with min <= max the result lies in [min, max]; a value already in range is returned unchanged; the result is always the value or one of the bounds |
| Utils.ClampIdempotent | src/utils.c:28-32 | clamping twice is the same as clamping once |
| Utils.RandomInt | src/utils.c:37-44 | the result lies between the two bounds, whichever order they are given in |
| Utils.RandomIntSwapsBounds | src/utils.c:37-44 | swapping min and max gives the same result for the same roll |
| Entities.CountActive | src/model.c:343-347 | the live-enemy count is at most the pool size, and a positive count means some enemy is active |
| Entities.CountActiveSameFlags | src/model.c:188-221 | moving enemies without changing their active flags keeps the live count |
| Entities.CountActiveAllAlive | src/model.c:99-100 | a pool whose enemies are all active has a live count equal to its size |
| Pools.Compact | src/model.c:278-287 | the compacted pool is no longer than the original, and holds only active projectiles taken from it |
| Pools.CompactSize | src/model.c:278-287 | the new count is the number of active projectiles |
| Pools.CompactAppend | src/model.c:278-287 | compaction is stable: compacting a concatenation concatenates the compacted parts |
| Pools.CompactAllActive | src/model.c:278-287 | a pool with no inactive projectile is left as it is |
| Pools.CompactIdempotent | src/model.c:278-287 | compacting twice changes nothing more |
| Pools.Moved | src/model.c:262-276 | moving projectiles keeps the pool's length |
| Pools.AdvanceAppend | src/model.c:260-288 | advancing a pool never lengthens it and works slot by slot, in order |
| Pools.AdvanceOneShot | src/model.c:262-276 | an active shot moves up one row and is dropped once it would leave the top; an inactive shot is dropped |
| Pools.AdvanceOneBomb | src/model.c:295-306 | an active bomb falls by ENEMY_PROJECTILE_SPEED and is dropped on reaching BOARD_HEIGHT; an inactive bomb is dropped |
| Pools.AdvanceShotsOnBoard | src/model.c:260-288 | every shot left after the update is active and has y >= 0, on the board |
| Pools.AdvanceBombsOnBoard | src/model.c:293-318 | every bomb left after the update is active and has y < BOARD_HEIGHT, on the board |
| Squad.Tier | src/model.c:168-178 | speed is 3 exactly when at most 5 enemies live, the base speed exactly when more than the threshold live, and always between the two |
| Squad.TierMonotone | src/model.c:168-178 | fewer live enemies never make the formation slower |
| Squad.Shifted | src/model.c:188-201 | the horizontal shift keeps the formation's size |
| Squad.Lowered | src/model.c:207-219 | lowering keeps the formation's size |
| Squad.SquadMarchCadence | src/model.c:181-184 | the move counter stays below 10 minus the speed; it resets to 0 exactly on a move frame and otherwise counts up |
| Squad.SquadMarchStep | src/model.c:184-220 | on a move frame, active enemies shift by the direction; when one touches an edge, the direction flips and active enemies drop by ENEMY_MOVE_DOWN; the game ends exactly when a dropped enemy reaches row BOARD_HEIGHT-2 |
| Squad.SquadMarchKeepsSquad | src/model.c:180-221 | marching never kills an enemy or changes the live count |
| Squad.Probe | src/model.c:234-251 | any slot the probe reports holds an active enemy of the pool |
| Squad.ProbeFindsFirstActive | src/model.c:232-251 | the probe fails exactly when none of the next five slots after the rolled start (cyclically) is active; otherwise it reports the first active one among them |
| Squad.SquadFireBounds | src/model.c:224-254 | the fire timer stays in [0, ENEMY_FIRE_RATE); firing touches only the timer and the bomb pool; the pool is either unchanged or, on an expired timer with room, gains one bomb below the centre of an active enemy |
| Squad.SquadFireShoots | src/model.c:225-250 | when the timer expires, enemies live and the pool has room, a bomb is added exactly when one of the five slots after the rolled start (cyclically) holds an active enemy |
| Collisions.KillRow | src/model.c:331-349 | one shot's pass over the formation keeps its size |
| Collisions.KillRowCount | src/model.c:331-349 | one shot kills no more enemies than are alive, and the live count drops by exactly its kills |
| Collisions.KillPass | src/model.c:326-350 | the kill pass keeps the sizes of the shot pool and the formation |
| Collisions.KillPassAccounting | src/model.c:326-350 | the live count drops by exactly the pass's kills; each enemy is either unchanged or was alive and is now destroyed in place; each shot is either unchanged or was active and is now spent in place |
| Collisions.KillPassCount | src/model.c:326-350 | the live count drops by exactly the pass's kills |
| Collisions.KillPassSlots | src/model.c:326-350 | each enemy and each shot is either unchanged or has only lost its active flag |
| Collisions.KillPassClosedForm | src/model.c:326-350 | an enemy ends the pass destroyed exactly when some active shot of the pool overlaps it, and is otherwise unchanged (both directions) |
| Collisions.KillPassShots | src/model.c:326-350 | a shot ends the pass spent exactly when it was active and destroyed at least one enemy of the formation as the shots before it left it; otherwise it is unchanged (both directions) |
| Collisions.OneShotCanKillTwice | src/model.c:336-348 | a shot overlapping two enemies in one pass kills both and scores twice: the inner loop does not stop at the first hit |
| Collisions.Chipped | src/model.c:358-374 | a shot's pass over one shield keeps its number of blocks and its block count |
| Collisions.ChippedAll | src/model.c:358-374 | a shot's pass keeps the number of shields |
| Collisions.ChippedBlocks | src/model.c:360-373 | every block is either unchanged or, being live and below the block count, loses exactly one health; a block changes exactly when it is below the block count and the shot hits it; a shield changes exactly when the shot strikes it |
| Collisions.ChippedAllSound | src/model.c:358-374 | chipping keeps the shields sound (shape and health ranges) and their block counts |
| Collisions.ShieldPass | src/model.c:352-375 | the shield pass keeps the pool and shield counts |
| Collisions.ShieldPassSound | src/model.c:352-375 | the pass keeps the shields sound and their block counts; each projectile is either unchanged or was active and is now spent in place |
| Collisions.ShieldPassShots | src/model.c:352-375 | a projectile ends the pass spent exactly when it was active and struck a live block of the shields as the projectiles before it left them; otherwise it is unchanged (both directions) |
| Collisions.PlayerPass | src/model.c:377-401 | the bomb pass keeps the pool size |
| Collisions.PlayerPassClosedForm | src/model.c:377-401 | health drops by exactly the number of active bombs overlapping the ship; the game ends exactly when it was already over or some hit left health at or below 0; a bomb stays active only if it was active and missed |
| Collisions.LivesCanGoNegative | src/model.c:391-399 | two bombs hitting a ship with one life leave health at -1, because health is not clamped |
| Collisions.KillStepScores | src/model.c:344-347 | each enemy killed adds POINTS_PER_ENEMY to the score and removes one from the live count |
| Collisions.CollideKeepsInv | src/model.c:323-427 | the four collision passes keep the game invariant |
| Collisions.CollideScores | src/model.c:352-426 | the passes after the kill pass change neither the score, the level nor the formation |
| Collisions.CollideProgress | src/model.c:323-427 | collisions keep the invariant, add exactly POINTS_PER_ENEMY per kill, never revive an enemy and keep the level |
| Levels.EnemyGrid | src/model.c:97-119 | the formation has INITIAL_ENEMIES slots |
| Levels.EnemyGridLayout | src/model.c:102-118 | the slot at row r, column c holds a live enemy of health 1 at (2 + 12c, 2 + 3r) |
| Levels.EnemyGridAlive | src/model.c:99-100 | all INITIAL_ENEMIES enemies of a fresh formation are alive |
| Levels.BuildShield | src/model.c:129-141 | rebuilding a shield keeps its number of blocks |
| Levels.BuildShields | src/model.c:129-141 | rebuilding keeps SHIELD_COUNT shields |
| Levels.BuildShieldsHalfBuilt | src/model.c:124-142 | each shield claims SHIELD_WIDTH*SHIELD_HEIGHT = 4 blocks, but only blocks 0 and 1 get full health: block 0 at a column in [0, 80), block 1 one column to its right, both on rows BOARD_HEIGHT-19 to BOARD_HEIGHT-15; blocks 2 and 3 stay at health 0, and the shields stay sound |
| Levels.RestockedKeepsInv | src/model.c:560-563 | emptying the pools and rebuilding the squad and shields keeps the invariant and brings back all INITIAL_ENEMIES enemies |
| Levels.InitialInv | src/model.c:25-52 | a new game satisfies the invariant with all enemies alive |
| Levels.RestartLikeInitial | src/model.c:68-92 | a reset keeps the invariant and matches a new game in every field except the enemy-fire timer, which it leaves unchanged, and the shields, which are rebuilt over the old ones: each shield's block count and its built blocks equal a new game's, and the never-built slots keep what they held |
| Levels.LevelUpSpec | src/model.c:544-564 | the next level adds one to the level and POINTS_LEVEL_BONUS to the score; past level 10 the game ends as won and nothing else changes; otherwise both pools are emptied, the formation is rebuilt as `EnemyGrid()`, the shields are rebuilt from the rolls, and the pause flag, frame counter, fire timer, march direction and move counter are kept |
| Levels.JumpToLevelSpec | src/model.c:570-582 | a level below 1 is ignored; otherwise the level is set, the score grows by POINTS_LEVEL_BONUS per skipped level, the pools are emptied and the formation is rebuilt as `EnemyGrid()` with INITIAL_ENEMIES alive, the shields are rebuilt from the rolls, and the lives, the flags, the frame counter, the fire timer, the march direction and the move counter are kept |
| Levels.StartAtLevelFive | src/model.c:570-582 | jumping a new game to level 5 scores 4 level bonuses and restores the full formation |
| Rules.Advanced | src/model.c:157-158 | moving the projectiles changes only the two pools, and neither grows |
| Rules.SquadTurnKeepsInv | src/model.c:166-255 | the enemy turn keeps the invariant and leaves the player and the level alone |
| Rules.SquadMarchKeepsInv | src/model.c:180-221 | marching keeps the invariant and leaves the ship and the level alone |
| Rules.SquadFireKeepsInv | src/model.c:223-254 | firing keeps the invariant and leaves the ship and the level alone |
| Rules.AdvancedKeepsInv | src/model.c:157-158 | moving both pools keeps the invariant and leaves the ship and the level alone |
| Rules.Played | src/model.c:154-159 | one frame before the level check keeps the invariant, never lowers the score and keeps the level |
| Rules.FrozenWhenPausedOrOver | src/model.c:149-152 | while paused or over, a frame, a move left, a move right and a shot leave the game unchanged (the pause toggle is covered by `Rules.FlipPauseTwice`) |
| Rules.FlipPauseTwice | src/model.c:492-498 | pausing is ignored once the game is over; otherwise it flips the flag, and flipping twice restores the game |
| Rules.MovesStayOnBoard | src/model.c:443-468 | a move shifts the ship by at most PLAYER_SPEED in its direction, keeps it on the board and changes nothing else; in a running game the new column is the old one plus or minus PLAYER_SPEED, clamped to [0, BOARD_WIDTH - PLAYER_WIDTH] with `Utils.Clamp` |
| Rules.LeftMovesAtZero | src/model.c:447-451 | any number of moves left from the left edge leave the ship at x = 0 |
| Rules.FireShotAppends | src/model.c:473-487 | firing appends one active shot above the ship's centre when the game runs and the pool has room, and otherwise changes nothing; the pool never exceeds MAX_PROJECTILES |
| Rules.CommandsKeepInv | src/model.c:443-498 | every player command keeps the invariant |
| Rules.IsOverIsTheFlag | src/model.c:503-514 | under the invariant the game is over exactly when its flag is set, and a won game is over |
| Rules.FramePreservesInv | src/model.c:147-161 | a whole frame keeps the game invariant |
| Rules.FrameProgress | src/model.c:147-161 | a frame never lowers the score or the level |
| Rules.FrameNeverEndsCleared | src/model.c:432-438 | after a running frame, either some enemy is alive or the game has been won |
| Rules.SpentShotLingersOneFrame | src/model.c:344 | a shot that kills stays in the pool, inactive, until the next frame's advance removes it |
| Model.CompactPool | src/model.c:278-287 | in-place compaction leaves exactly the compacted live prefix in the array and returns its length |
| Model.ChipShield | src/model.c:360-373 | the block loop updates one shield in place to its chipped value and reports whether the shot struck it |
| Model.StrikeShields | src/model.c:358-374 | the shield loop chips every shield in place and reports whether any was struck |
| Model.ShieldScan | src/model.c:352-375 | the pool-against-shields loop leaves the pool and the shields as the shield pass defines |
| Model.ScanRow | src/model.c:331-349 | one shot's loop over the squad destroys in place exactly the enemies the value-level row pass does, and returns its kill count |
| Model.KillScan | src/model.c:326-350 | the nested kill loops leave the shot pool and the squad as the kill pass does, and return its kills |
| Model.BombScan | src/model.c:377-401 | the bomb loop leaves the bomb pool, the ship and the game-over flag as the player pass does |
| Model.FireProbe | src/model.c:232-251 | the probe loop with its early exit leaves the bomb pool as the value-level volley defines: the first live enemy among the next five slots fires if the pool has room |
| Model.GameState.constructor | src/model.c:25-52 | a new state is valid and its abstract value is the initial game |
| Model.GameState.InitEnemies | src/model.c:97-119 | the nested loops fill the formation with the enemy grid, all alive |
| Model.GameState.InitShields | src/model.c:124-142 | the loops rebuild the shields from the rolls |
| Model.GameState.Restock | src/model.c:560-563 | the pools are emptied and the squad and shields rebuilt in place, as the value-level restock |
| Model.GameState.Reset | src/model.c:68-92 | reset moves the state as the value-level restart does |
| Model.GameState.MovePlayerLeft | src/model.c:443-453 | as the value-level left step |
| Model.GameState.MovePlayerRight | src/model.c:458-468 | as the value-level right step |
| Model.GameState.PlayerShoot | src/model.c:473-487 | as the value-level fire command |
| Model.GameState.TogglePause | src/model.c:492-498 | as the value-level pause toggle |
| Model.GameState.IsOver | src/model.c:503-506 | the query agrees with the value level and is the game-over flag |
| Model.GameState.IsWon | src/model.c:511-514 | the query agrees with the value level and implies the game is over |
| Model.GameState.NextLevel | src/model.c:544-564 | as the value-level level-up |
| Model.GameState.CheckLevelComplete | src/model.c:432-438 | as the value-level level check, which levels up once no enemy is alive |
| Model.GameState.SetLevel | src/model.c:570-582 | as the value-level level jump |
| Model.GameState.Update | src/model.c:147-161 | one call performs exactly one value-level frame |
| Model.GameState.Play | src/model.c:154-159 | the four update stages in order, as the value-level played frame |
| Model.GameState.CountFrame | src/model.c:154 | the frame counter goes up by one and the state stays valid |
| Model.GameState.MoveProjectiles | src/model.c:157-158 | both pool updates together, as the value-level advance, keeping the state valid |
| Model.GameState.UpdateEnemies | src/model.c:166-255 | marching then firing, as the value-level enemy turn |
| Model.GameState.MarchEnemies | src/model.c:168-221 | as the value-level march |
| Model.GameState.StepSquad | src/model.c:184-220 | a step frame's shift, turn and drop, as the value-level squad step |
| Model.GameState.ShiftEnemies | src/model.c:186-201 | the shift loop moves the active enemies and reports whether one touches an edge |
| Model.GameState.LowerEnemies | src/model.c:207-219 | the drop loop lowers the active enemies and reports whether one reached the bottom rows |
| Model.GameState.FireEnemies | src/model.c:223-254 | the probe loop fires as the value-level fire step |
| Model.GameState.UpdateProjectiles | src/model.c:260-288 | the move and compaction loops advance the shots |
| Model.GameState.UpdateEnemyProjectiles | src/model.c:293-318 | the move and compaction loops advance the bombs |
| Model.GameState.HandleCollisions | src/model.c:323-427 | the four collision loops, as the value-level collision step |
| Model.GameState.KillEnemies | src/model.c:326-350 | the state moves as the value-level kill step: the live count drops by the kills and the score rises by POINTS_PER_ENEMY per kill |
| Model.GameState.ShootShields | src/model.c:352-375 | the state moves as the value-level shot-against-shield step |
| Model.GameState.BombShields | src/model.c:403-426 | the state moves as the value-level bomb-against-shield step |
| Model.GameState.HitPlayer | src/model.c:377-401 | the state moves as the value-level player-hit step |
| Control.Apply | src/controller.c:34-58 | commands other than move, shoot and pause leave the game unchanged |
| Control.ApplyKeepsInv | src/controller.c:34-58 | every command keeps the game invariant |
| Control.Controller.constructor | src/controller.c:12-20 | a new controller holds the given state and is running |
| Control.ExecuteCommand | src/controller.c:34-58 | the command counts as handled exactly when the controller and its state exist and the command is move, shoot, pause or quit; the game moves as the command's engine call; only a handled quit stops the controller |
| Control.ControllerUpdate | src/controller.c:63-70 | with an attached state, the game advances by one frame; otherwise nothing changes |
| Control.IsRunning | src/controller.c:75-77 | a null controller is never running |
| Control.SetRunning | src/controller.c:82-86 | afterwards the controller reports running exactly when it exists and was set to run |

The arithmetic lemmas `Squad.ModSucc`, `Squad.ModAddShift` and `Squad.ModUnique` are proof helpers for
`Squad.ProbeFindsFirstActive` and model no source lines of their own.

## Left out

- The views, the main loop, input decoding and the high-score file (`game_load_scores`, `game_save_scores`)
  are file and terminal I/O outside the engine. They are not part of this model.
- `game_free`, `controller_free` and a failing `malloc` in `game_init` or `controller_init` are memory
  management. Dafny allocation cannot fail, so the constructors always succeed.
- The `fprintf` diagnostics on stderr are output only and are left out.
- `utils_sleep_ms`, `utils_time_ms` and `utils_random_seed` touch the clock or the seed. Every `rand()` result
  the engine draws is supplied as a parameter instead (`fireRoll`, `shieldRolls`).
- Integers are unbounded. The model does not capture C `int` overflow of the score, the frame counter or the
  coordinates. Neither does `Utils.RandomInt`: `max - min + 1` is computed without overflow.
- The null `GameState*` guards at the top of `game_reset`, `game_update`, the commands, the queries and the
  level functions are not modelled on `GameState`, whose receiver cannot be null. Null handling is modelled
  where the controller passes its possibly-null state (`Control`).
- `Control.ExecuteCommand`: the `Command` datatype has exactly the seven enum constants, so C's `default:`
  branch for an out-of-range enum value cannot occur.
- `Control.IsRunning` is stated one way only (`r ==> ctrl != null`). Its other direction, that running
  means the flag is set, is its body. `Control.SetRunning` states the round trip through it.
- The model splits some C functions into helper methods. None of these splits changes behaviour:
  - Each loop that finds hits reports them to its caller, which writes them into the state once, after
    the loop. The final state is the same as the C code's:
    - `Model.GameState.ShiftEnemies` returns the edge flag. The C loop keeps it in the local `hit_edge`.
    - `Model.GameState.LowerEnemies` returns whether an enemy reached the bottom, and `StepSquad` then
      sets `gameOver`. The C drop loop sets `game_over` itself, at the hit.
    - `Model.ChipShield` and `Model.StrikeShields` return whether the projectile hit a block, and
      `Model.ShieldScan` then deactivates it. The C shield loops deactivate the projectile at each hit.
    - `Model.ScanRow` returns the number of kills, and `Model.KillScan` then deactivates the shot once.
      The C kill loop deactivates it at each hit.
    - `Model.BombScan` returns the new ship and game-over flag, and `HitPlayer` stores them. The C loop
      writes them into the state at each hit.
  - `Restock` groups the pool reset and the two init calls that reset and the level functions share.
  - `StepSquad`, `CountFrame` and `MoveProjectiles` group consecutive statements of `update_enemies` and
    `game_update`.
  - The four collision loops are the module-level `KillScan`/`ScanRow`, `ShieldScan` and `BombScan`,
    working on the arrays.
  - The fire probe is the module-level `FireProbe`.
- `Model.GameState.KillEnemies` applies the live-count and score updates once, after the kill loops, for
  the total number of kills. The C code applies them at each hit. The final state is the same.
- `init_shields` computes a block row (`j / SHIELD_WIDTH`) that it never uses. `PROJECTILE_SPEED` is defined
  but unused, because shots move one row per frame. Both are left out.
- Behaviour a reader might not expect, kept as the code has it:
  - lives are not clamped at zero;
  - one shot can destroy several enemies in one pass;
  - the bottom check runs only on the frame the formation bounces off an edge;
  - the win check uses a literal level 10;
  - `game_reset` leaves `enemy_fire_timer` unchanged;
  - only the first two blocks of each shield are placed.
