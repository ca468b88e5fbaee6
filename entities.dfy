/** The records of the simulation state and the invariant every reachable state keeps. */
module Entities {
  import opened Config

  datatype Option<T> = None | Some(value: T)

  /** The ship: grid position, remaining lives (`health`) and score. */
  datatype Player = Player(x: int, y: int, health: int, score: int)

  /** One squad slot; destroyed enemies stay in their slot with `active` false. */
  datatype Enemy = Enemy(x: int, y: int, active: bool, health: int)

  /** One entry of a projectile pool. */
  datatype Projectile = Projectile(x: int, y: int, active: bool)

  /** One shield block; health 0 means destroyed. */
  datatype ShieldBlock = ShieldBlock(x: int, y: int, health: int)

  /** A shield: a fixed array of block slots of which the first `blockCount` are scanned. */
  datatype Shield = Shield(blocks: seq<ShieldBlock>, blockCount: int)

  /** The whole simulation state as a value. Each collection holds the live prefix of its
      fixed-capacity array: `enemies` is enemies[0..enemy_count), `projectiles` is
      projectiles[0..projectile_count), `enemyProjectiles` likewise. */
  datatype Game = Game(
    player: Player,
    enemies: seq<Enemy>,
    aliveEnemyCount: int,
    projectiles: seq<Projectile>,
    enemyProjectiles: seq<Projectile>,
    shields: seq<Shield>,
    level: int,
    frameCount: int,
    enemyFireTimer: int,
    isPaused: bool,
    gameOver: bool,
    playerWon: bool,
    enemyDirection: int,
    enemyMoveCounter: int)

  /** Number of active entries of a squad. */
  function CountActive(es: seq<Enemy>): (n: nat)
    ensures n <= |es|
    ensures n > 0 ==> exists k :: 0 <= k < |es| && es[k].active
  {
    if |es| == 0 then 0
    else CountActive(es[..|es| - 1]) + (if es[|es| - 1].active then 1 else 0)
  }

  /** Two squads with the same active flags slot by slot have the same number of live enemies. */
  lemma {:induction false} CountActiveSameFlags(a: seq<Enemy>, b: seq<Enemy>)
    requires |a| == |b|
    requires forall k :: 0 <= k < |a| ==> a[k].active == b[k].active
    ensures CountActive(a) == CountActive(b)
  {
    if |a| > 0 {
      CountActiveSameFlags(a[..|a| - 1], b[..|b| - 1]);
    }
  }

  /** A squad whose every slot is active counts all of them. */
  lemma {:induction false} CountActiveAllAlive(es: seq<Enemy>)
    requires forall k :: 0 <= k < |es| ==> es[k].active
    ensures CountActive(es) == |es|
  {
    if |es| > 0 {
      CountActiveAllAlive(es[..|es| - 1]);
    }
  }

  /** The slots of a shield array and the range of the block counter. */
  ghost predicate ShieldsShaped(shs: seq<Shield>)
  {
    |shs| == SHIELD_COUNT &&
    forall s :: 0 <= s < |shs| ==>
      |shs[s].blocks| == SHIELD_CAPACITY && 0 <= shs[s].blockCount <= SHIELD_CAPACITY
  }

  /** Block health stays in [0, SHIELD_HEALTH], and the slots past the first two, which are never
      built, keep the health 0 they started with. */
  ghost predicate ShieldsSound(shs: seq<Shield>)
  {
    ShieldsShaped(shs) &&
    (forall s, k :: 0 <= s < |shs| && 0 <= k < |shs[s].blocks| ==>
       0 <= shs[s].blocks[k].health <= SHIELD_HEALTH) &&
    (forall s, k :: 0 <= s < |shs| && SHIELD_BUILT_BLOCKS <= k < |shs[s].blocks| ==>
       shs[s].blocks[k].health == 0)
  }

  /** The invariant of every state the engine can reach. */
  ghost predicate Inv(g: Game)
  {
    |g.enemies| <= MAX_ENEMIES &&
    g.aliveEnemyCount == CountActive(g.enemies) &&
    |g.projectiles| <= MAX_PROJECTILES &&
    |g.enemyProjectiles| <= MAX_ENEMY_PROJECTILES &&
    ShieldsSound(g.shields) &&
    0 <= g.player.x <= BOARD_WIDTH - PLAYER_WIDTH &&
    (g.player.health <= 0 ==> g.gameOver) &&
    (g.playerWon ==> g.gameOver) &&
    g.level >= INITIAL_LEVEL &&
    (g.enemyDirection == 1 || g.enemyDirection == -1) &&
    0 <= g.enemyMoveCounter < CADENCE_BASE - ENEMY_BASE_SPEED &&
    0 <= g.enemyFireTimer < ENEMY_FIRE_RATE
  }
}
