/** Integer constants of the simulation: board, ship, squad, pools, shields and scoring. */
module Config {
  // Board
  const BOARD_WIDTH := 80
  const BOARD_HEIGHT := 24

  // Player ship
  const PLAYER_WIDTH := 3
  const PLAYER_HEIGHT := 1
  const PLAYER_SPEED := 2

  // Enemy squad
  const ENEMY_WIDTH := 3
  const ENEMY_HEIGHT := 1
  const MAX_ENEMIES := 55
  const INITIAL_ENEMIES := 30
  const ENEMY_ROWS := 5
  const ENEMY_COLS := 6
  const ENEMY_BASE_SPEED := 1
  const ENEMY_MOVE_DOWN := 1
  const ENEMY_SPEED_INCREASE_THRESHOLD := 10

  // Grid layout used when the squad is (re)built
  const GRID_START_X := 2
  const GRID_START_Y := 2
  const GRID_SPACING_X := 12
  const GRID_SPACING_Y := 3

  // Projectile pools
  const MAX_PROJECTILES := 100
  const MAX_ENEMY_PROJECTILES := 30
  const ENEMY_PROJECTILE_SPEED := 1
  const ENEMY_FIRE_RATE := 50
  /** How many squad slots the fire control probes before giving up. */
  const FIRE_PROBES := 5

  // Shields
  const SHIELD_COUNT := 4
  const SHIELD_WIDTH := 4
  const SHIELD_HEIGHT := 1
  const SHIELD_HEALTH := 3
  /** Capacity of one shield's block array (8 * 6 slots). */
  const SHIELD_CAPACITY := 48
  /** Blocks actually written when a shield is built. */
  const SHIELD_BUILT_BLOCKS := 2
  /** Hit-box of a shield block, wider than the block itself. */
  const SHIELD_HIT_WIDTH := 6
  const SHIELD_HIT_HEIGHT := 2
  /** Horizontal range of a shield's random position (rand() % 80). */
  const SHIELD_POSITION_RANGE := 80
  /** Vertical jitter of a shield block (rand() % 5 rows above BOARD_HEIGHT - 15). */
  const SHIELD_ROW_RANGE := 5
  const SHIELD_BASE_ROW := BOARD_HEIGHT - 15
  /** rand() values consumed by one shield build: one position per shield, one row per built block. */
  const SHIELD_ROLLS := SHIELD_COUNT + SHIELD_COUNT * SHIELD_BUILT_BLOCKS

  // Progress and scoring
  const INITIAL_LIVES := 3
  const INITIAL_LEVEL := 1
  const MAX_LEVEL := 10
  const POINTS_PER_ENEMY := 10
  const POINTS_LEVEL_BONUS := 100

  /** The horizontal step cadence counts up to 10 - tier. */
  const CADENCE_BASE := 10
}
