/** Building the squad and the shields, the start state, reset, and level progression. */
module Levels {
  import opened Config
  import opened Entities

  // ---------------------------------------------------------------------------------------
  // The squad

  /** Slot of the enemy at (row, col) of the grid, filled row by row. */
  function GridSlot(row: int, col: int): int
  {
    row * ENEMY_COLS + col
  }

  /** The enemy a fresh grid puts in slot k. */
  function GridEnemy(k: int): Enemy
  {
    Enemy(GRID_START_X + (k % ENEMY_COLS) * GRID_SPACING_X, GRID_START_Y + (k / ENEMY_COLS) * GRID_SPACING_Y, true, 1)
  }

  /** The squad every level starts with. */
  function EnemyGrid(): (es: seq<Enemy>)
    ensures |es| == INITIAL_ENEMIES
  {
    seq(INITIAL_ENEMIES, k requires 0 <= k < INITIAL_ENEMIES => GridEnemy(k))
  }

  /** The grid has ENEMY_ROWS rows of ENEMY_COLS live enemies, GRID_SPACING_X apart in a row and
      GRID_SPACING_Y apart between rows, starting at (GRID_START_X, GRID_START_Y). */
  lemma EnemyGridLayout()
    ensures INITIAL_ENEMIES == ENEMY_ROWS * ENEMY_COLS
    ensures forall row, col :: 0 <= row < ENEMY_ROWS && 0 <= col < ENEMY_COLS ==>
      0 <= GridSlot(row, col) < INITIAL_ENEMIES &&
      EnemyGrid()[GridSlot(row, col)] ==
        Enemy(GRID_START_X + col * GRID_SPACING_X, GRID_START_Y + row * GRID_SPACING_Y, true, 1)
  {
  }

  /** Every slot of a fresh grid is alive. */
  lemma EnemyGridAlive()
    ensures CountActive(EnemyGrid()) == INITIAL_ENEMIES
  {
    CountActiveAllAlive(EnemyGrid());
  }

  // ---------------------------------------------------------------------------------------
  // The shields

  /** Index in the roll sequence of the rand() value that places block j of shield i: the four
      position rolls come first, then one roll per built block, shield by shield. */
  function RowRollIndex(i: int, j: int): int
  {
    SHIELD_COUNT + i * SHIELD_BUILT_BLOCKS + j
  }

  /** Block j of a shield placed at column `pos`, lifted by `roll` % SHIELD_ROW_RANGE rows. */
  function BuiltBlock(pos: int, j: int, roll: nat): ShieldBlock
  {
    ShieldBlock(pos + j % SHIELD_WIDTH, SHIELD_BASE_ROW - roll % SHIELD_ROW_RANGE, SHIELD_HEALTH)
  }

  /** Shield i after a build: the block count is set to SHIELD_WIDTH * SHIELD_HEIGHT but only the
      first SHIELD_BUILT_BLOCKS slots are written; the other slots keep what they held. */
  function BuildShield(sh: Shield, i: int, rolls: seq<nat>): (r: Shield)
    requires 0 <= i < SHIELD_COUNT && |rolls| == SHIELD_ROLLS
    ensures |r.blocks| == |sh.blocks|
  {
    var pos := rolls[i] % SHIELD_POSITION_RANGE;
    Shield(seq(|sh.blocks|, k requires 0 <= k < |sh.blocks| =>
             if k < SHIELD_BUILT_BLOCKS then BuiltBlock(pos, k, rolls[RowRollIndex(i, k)]) else sh.blocks[k]),
           SHIELD_WIDTH * SHIELD_HEIGHT)
  }

  function BuildShields(shs: seq<Shield>, rolls: seq<nat>): (r: seq<Shield>)
    requires |shs| == SHIELD_COUNT && |rolls| == SHIELD_ROLLS
    ensures |r| == SHIELD_COUNT
  {
    seq(SHIELD_COUNT, i requires 0 <= i < SHIELD_COUNT => BuildShield(shs[i], i, rolls))
  }

  /** A build keeps the shields sound. It sets every block count to 4 but gives only blocks 0 and 1
      health; blocks 2 and 3 keep health 0, so no projectile can ever hit them. Built blocks sit
      in the left part of the board, between 15 and 19 rows above its bottom. */
  lemma BuildShieldsHalfBuilt(shs: seq<Shield>, rolls: seq<nat>)
    requires ShieldsSound(shs) && |rolls| == SHIELD_ROLLS
    ensures ShieldsSound(BuildShields(shs, rolls))
    ensures forall s :: 0 <= s < SHIELD_COUNT ==>
      var sh := BuildShields(shs, rolls)[s];
      sh.blockCount == 4 &&
      sh.blocks[0].health == SHIELD_HEALTH && sh.blocks[1].health == SHIELD_HEALTH &&
      sh.blocks[2].health == 0 && sh.blocks[3].health == 0 &&
      0 <= sh.blocks[0].x < SHIELD_POSITION_RANGE && sh.blocks[1].x == sh.blocks[0].x + 1 &&
      BOARD_HEIGHT - 19 <= sh.blocks[0].y <= BOARD_HEIGHT - 15 &&
      BOARD_HEIGHT - 19 <= sh.blocks[1].y <= BOARD_HEIGHT - 15
  {
    var r := BuildShields(shs, rolls);
    forall s, k | 0 <= s < |r| && 0 <= k < |r[s].blocks|
      ensures 0 <= r[s].blocks[k].health <= SHIELD_HEALTH
      ensures SHIELD_BUILT_BLOCKS <= k ==> r[s].blocks[k].health == 0
    {
      assert r[s] == BuildShield(shs[s], s, rolls);
    }
  }

  /** Shield array before the first build: every slot zeroed. */
  function BlankShields(): seq<Shield>
  {
    seq(SHIELD_COUNT, _ => Shield(seq(SHIELD_CAPACITY, _ => ShieldBlock(0, 0, 0)), 0))
  }

  // ---------------------------------------------------------------------------------------
  // Start, reset and levels

  /** The ship at the start: centred, on the second row from the bottom, full lives, no score. */
  function StartPlayer(): Player
  {
    Player(BOARD_WIDTH / 2 - PLAYER_WIDTH / 2, BOARD_HEIGHT - 2, INITIAL_LIVES, 0)
  }

  /** game_init: a zeroed state, then the ship, the progress counters, the squad and the shields. */
  function Initial(rolls: seq<nat>): Game
    requires |rolls| == SHIELD_ROLLS
  {
    Game(StartPlayer(), EnemyGrid(), INITIAL_ENEMIES, [], [], BuildShields(BlankShields(), rolls),
         INITIAL_LEVEL, 0, 0, false, false, false, 1, 0)
  }

  lemma InitialInv(rolls: seq<nat>)
    requires |rolls| == SHIELD_ROLLS
    ensures Inv(Initial(rolls))
    ensures Initial(rolls).aliveEnemyCount == INITIAL_ENEMIES
  {
    EnemyGridAlive();
    BuildShieldsHalfBuilt(BlankShields(), rolls);
  }

  /** The tail game_reset, game_next_level and game_set_level share: both pools emptied, a fresh
      squad, and the shields rebuilt over their current slots. */
  function Restocked(g: Game, rolls: seq<nat>): Game
    requires |g.shields| == SHIELD_COUNT && |rolls| == SHIELD_ROLLS
  {
    g.(projectiles := [], enemyProjectiles := [], enemies := EnemyGrid(),
       aliveEnemyCount := INITIAL_ENEMIES, shields := BuildShields(g.shields, rolls))
  }

  /** Restocking keeps the invariant and brings back the whole squad. */
  lemma RestockedKeepsInv(g: Game, rolls: seq<nat>)
    requires Inv(g) && |rolls| == SHIELD_ROLLS
    ensures Inv(Restocked(g, rolls))
    ensures CountActive(Restocked(g, rolls).enemies) == INITIAL_ENEMIES
  {
    EnemyGridAlive();
    BuildShieldsHalfBuilt(g.shields, rolls);
  }

  /** The ship, flags and counters game_reset puts back to their starting values. */
  function Rewound(g: Game): Game
  {
    g.(player := StartPlayer(), level := INITIAL_LEVEL, frameCount := 0,
       isPaused := false, gameOver := false, playerWon := false,
       enemyDirection := 1, enemyMoveCounter := 0)
  }

  /** game_reset: everything game_init sets, except that the enemy fire timer is left as it was,
      and the shields are rebuilt over their current slots. */
  function Restart(g: Game, rolls: seq<nat>): Game
    requires |g.shields| == SHIELD_COUNT && |rolls| == SHIELD_ROLLS
  {
    Restocked(Rewound(g), rolls)
  }

  /** A reset keeps the invariant and matches a fresh start in everything but the fire timer,
      which it keeps, and the shields: these are rebuilt over the old ones, so the block counts
      and the built blocks match a fresh start while the never-built slots keep what they held. */
  lemma RestartLikeInitial(g: Game, rolls: seq<nat>)
    requires Inv(g) && |rolls| == SHIELD_ROLLS
    ensures Inv(Restart(g, rolls))
    ensures Restart(g, rolls).enemyFireTimer == g.enemyFireTimer
    ensures Restart(g, rolls).(enemyFireTimer := 0, shields := []) == Initial(rolls).(shields := [])
    ensures Restart(g, rolls).shields == BuildShields(g.shields, rolls)
    ensures forall s :: 0 <= s < SHIELD_COUNT ==>
      Restart(g, rolls).shields[s].blockCount == Initial(rolls).shields[s].blockCount
    ensures forall s, k :: 0 <= s < SHIELD_COUNT && 0 <= k < SHIELD_BUILT_BLOCKS ==>
      Restart(g, rolls).shields[s].blocks[k] == Initial(rolls).shields[s].blocks[k]
  {
    EnemyGridAlive();
    BuildShieldsHalfBuilt(g.shields, rolls);
  }

  /** The first half of game_next_level: the level goes up by one, the score by the level bonus. */
  function Promoted(g: Game): Game
  {
    g.(level := g.level + 1, player := g.player.(score := g.player.score + POINTS_LEVEL_BONUS))
  }

  /** game_next_level: one level up with its bonus; past MAX_LEVEL the player has won and nothing
      else changes, otherwise both pools are emptied and the squad and shields rebuilt. */
  function LevelUp(g: Game, rolls: seq<nat>): Game
    requires |g.shields| == SHIELD_COUNT && |rolls| == SHIELD_ROLLS
  {
    var g1 := Promoted(g);
    if g1.level > MAX_LEVEL then g1.(playerWon := true, gameOver := true)
    else Restocked(g1, rolls)
  }

  /** Level up: the level goes up by one and the score by POINTS_LEVEL_BONUS; past MAX_LEVEL the
      game is won and over with squad, pools and shields untouched; otherwise the pools are
      empty, the squad is the fresh grid, the shields are rebuilt from the rolls, and the flags and
      counters are kept. The invariant is kept. */
  lemma LevelUpSpec(g: Game, rolls: seq<nat>)
    requires Inv(g) && |rolls| == SHIELD_ROLLS
    ensures Inv(LevelUp(g, rolls))
    ensures LevelUp(g, rolls).level == g.level + 1
    ensures LevelUp(g, rolls).player == g.player.(score := g.player.score + POINTS_LEVEL_BONUS)
    ensures g.level + 1 > MAX_LEVEL ==>
      LevelUp(g, rolls) == g.(level := g.level + 1, player := LevelUp(g, rolls).player,
                              playerWon := true, gameOver := true)
    ensures g.level + 1 <= MAX_LEVEL ==>
      LevelUp(g, rolls).projectiles == [] && LevelUp(g, rolls).enemyProjectiles == [] &&
      LevelUp(g, rolls).enemies == EnemyGrid() &&
      LevelUp(g, rolls).aliveEnemyCount == CountActive(LevelUp(g, rolls).enemies) == INITIAL_ENEMIES &&
      LevelUp(g, rolls).shields == BuildShields(g.shields, rolls) &&
      LevelUp(g, rolls).playerWon == g.playerWon && LevelUp(g, rolls).gameOver == g.gameOver &&
      LevelUp(g, rolls).isPaused == g.isPaused && LevelUp(g, rolls).frameCount == g.frameCount &&
      LevelUp(g, rolls).enemyFireTimer == g.enemyFireTimer &&
      LevelUp(g, rolls).enemyDirection == g.enemyDirection &&
      LevelUp(g, rolls).enemyMoveCounter == g.enemyMoveCounter
  {
    EnemyGridAlive();
    BuildShieldsHalfBuilt(g.shields, rolls);
  }

  /** check_level_complete: level up once the squad is wiped out. */
  function LevelCheck(g: Game, rolls: seq<nat>): Game
    requires |g.shields| == SHIELD_COUNT && |rolls| == SHIELD_ROLLS
  {
    if g.aliveEnemyCount <= 0 then LevelUp(g, rolls) else g
  }

  /** game_set_level: for n >= 1, jump to level n with the bonus of the n - 1 levels skipped,
      empty pools and a fresh squad and shields; any smaller n is ignored. */
  function JumpToLevel(g: Game, n: int, rolls: seq<nat>): Game
    requires |g.shields| == SHIELD_COUNT && |rolls| == SHIELD_ROLLS
  {
    if n < 1 then g
    else Restocked(g.(level := n, player := g.player.(score := g.player.score + POINTS_LEVEL_BONUS * (n - 1))), rolls)
  }

  /** Jumping to level n >= 1 sets the level to n, adds POINTS_LEVEL_BONUS * (n - 1) to the
      score, empties both pools and rebuilds the squad as the fresh grid and the shields
      from the rolls; lives, flags and counters are kept.
      It keeps the invariant. */
  lemma JumpToLevelSpec(g: Game, n: int, rolls: seq<nat>)
    requires Inv(g) && |rolls| == SHIELD_ROLLS
    ensures Inv(JumpToLevel(g, n, rolls))
    ensures n < 1 ==> JumpToLevel(g, n, rolls) == g
    ensures n >= 1 ==>
      JumpToLevel(g, n, rolls).level == n &&
      JumpToLevel(g, n, rolls).player == g.player.(score := g.player.score + POINTS_LEVEL_BONUS * (n - 1)) &&
      JumpToLevel(g, n, rolls).projectiles == [] && JumpToLevel(g, n, rolls).enemyProjectiles == [] &&
      JumpToLevel(g, n, rolls).enemies == EnemyGrid() &&
      JumpToLevel(g, n, rolls).aliveEnemyCount == CountActive(JumpToLevel(g, n, rolls).enemies) == INITIAL_ENEMIES &&
      JumpToLevel(g, n, rolls).shields == BuildShields(g.shields, rolls) &&
      JumpToLevel(g, n, rolls).gameOver == g.gameOver && JumpToLevel(g, n, rolls).isPaused == g.isPaused &&
      JumpToLevel(g, n, rolls).playerWon == g.playerWon && JumpToLevel(g, n, rolls).frameCount == g.frameCount &&
      JumpToLevel(g, n, rolls).enemyFireTimer == g.enemyFireTimer &&
      JumpToLevel(g, n, rolls).enemyDirection == g.enemyDirection &&
      JumpToLevel(g, n, rolls).enemyMoveCounter == g.enemyMoveCounter
  {
    EnemyGridAlive();
    BuildShieldsHalfBuilt(g.shields, rolls);
  }

  /** Starting a game at level 5: the level is 5, the score is the bonus of four levels, and the
      squad is the same fresh grid a level-1 start has. */
  lemma StartAtLevelFive(r1: seq<nat>, r2: seq<nat>)
    requires |r1| == SHIELD_ROLLS && |r2| == SHIELD_ROLLS
    ensures JumpToLevel(Initial(r1), 5, r2).level == 5
    ensures JumpToLevel(Initial(r1), 5, r2).player.score == 4 * POINTS_LEVEL_BONUS
    ensures JumpToLevel(Initial(r1), 5, r2).enemies == Initial(r1).enemies
  {
  }
}
