/** The engine's state object: a record of fixed-capacity arrays and counters that every
    operation updates in place. Each operation is proved to move the abstract value `Abs()` exactly
    as the matching function of the value-level model does, and to keep `Valid()`. */
module Model {
  import opened Config
  import opened Utils
  import opened Entities
  import opened Pools
  import opened Squad
  import opened Collisions
  import opened Levels
  import Rules

  /** The stable in-place compaction both pool updates end with: every active entry of a[..n] is
      copied down to the next free slot, in order; the new count is returned. */
  method CompactPool(a: array<Projectile>, n: int) returns (m: int)
    requires 0 <= n <= a.Length
    modifies a
    ensures 0 <= m <= n
    ensures a[..m] == Compact(old(a[..n]))
  {
    ghost var s := a[..n];
    m := 0;
    var i := 0;
    while i < n
      invariant 0 <= m <= i <= n
      invariant a[..m] == Compact(s[..i])
      invariant forall k :: i <= k < n ==> a[k] == s[k]
    {
      assert s[..i + 1][..i] == s[..i];
      if a[i].active {
        ghost var kept := a[..m];
        a[m] := a[i];
        assert a[..m + 1] == kept + [s[i]];
        m := m + 1;
      }
      i := i + 1;
    }
    assert s[..n] == s;
  }

  /** One scan of the first `blockCount` blocks of shield s by projectile p: every undestroyed block
      whose hit-box holds p loses one point. Reports whether any block was hit. */
  method ChipShield(p: Projectile, shields: array<Shield>, s: int) returns (hit: bool)
    requires 0 <= s < shields.Length
    requires 0 <= shields[s].blockCount <= |shields[s].blocks|
    modifies shields
    ensures shields[..] == old(shields[..])[s := Chipped(p, old(shields[s]))]
    ensures hit == StrikesShield(p, old(shields[s]))
  {
    ghost var sh := shields[s];
    hit := false;
    var b := 0;
    while b < shields[s].blockCount
      invariant 0 <= b <= sh.blockCount
      invariant shields[s].blockCount == sh.blockCount && |shields[s].blocks| == |sh.blocks|
      invariant forall k :: 0 <= k < b ==> shields[s].blocks[k] == Chipped(p, sh).blocks[k]
      invariant forall k :: b <= k < |sh.blocks| ==> shields[s].blocks[k] == sh.blocks[k]
      invariant forall t :: 0 <= t < shields.Length && t != s ==> shields[t] == old(shields[t])
      invariant hit <==> exists k :: 0 <= k < b && HitsBlock(p, sh.blocks[k])
    {
      var block := shields[s].blocks[b];
      if block.health > 0 {
        if RectCollision(p.x, p.y, 1, 1, block.x, block.y, SHIELD_HIT_WIDTH, SHIELD_HIT_HEIGHT) {
          hit := true;
          shields[s] := shields[s].(blocks := shields[s].blocks[b := block.(health := block.health - 1)]);
        }
      }
      b := b + 1;
    }
    assert shields[s].blocks == Chipped(p, sh).blocks;
  }

  /** Projectile p scans every shield in turn; reports whether it hit any block. */
  method StrikeShields(p: Projectile, shields: array<Shield>) returns (struck: bool)
    requires ShieldsShaped(shields[..])
    modifies shields
    ensures ShieldsShaped(shields[..])
    ensures shields[..] == ChippedAll(p, old(shields[..]))
    ensures struck == StrikesAny(p, old(shields[..]))
  {
    ghost var shs := shields[..];
    struck := false;
    var s := 0;
    while s < SHIELD_COUNT
      invariant 0 <= s <= SHIELD_COUNT == shields.Length
      invariant forall t :: 0 <= t < s ==> shields[t] == Chipped(p, shs[t])
      invariant forall t :: s <= t < SHIELD_COUNT ==> shields[t] == shs[t]
      invariant struck <==> exists t :: 0 <= t < s && StrikesShield(p, shs[t])
    {
      var hit := ChipShield(p, shields, s);
      struck := struck || hit;
      s := s + 1;
    }
    assert shields[..] == ChippedAll(p, shs);
  }

  /** One projectile pool against the shields: each active projectile, in pool order, scans all
      shields as the earlier ones left them and is deactivated when it hit a block. */
  method ShieldScan(pool: array<Projectile>, n: int, shields: array<Shield>)
    requires 0 <= n <= pool.Length && ShieldsShaped(shields[..])
    modifies pool, shields
    ensures ShieldsShaped(shields[..])
    ensures pool[..n] == ShieldPass(old(pool[..n]), old(shields[..])).pool
    ensures shields[..] == ShieldPass(old(pool[..n]), old(shields[..])).shields
  {
    ghost var pool0, shs0 := pool[..n], shields[..];
    ghost var o := ShieldPass(pool0[..0], shs0);
    var i := 0;
    while i < n
      invariant 0 <= i <= n
      invariant o == ShieldPass(pool0[..i], shs0)
      invariant ShieldsShaped(shields[..])
      invariant shields[..] == o.shields && pool[..i] == o.pool
      invariant forall k :: i <= k < n ==> pool[k] == pool0[k]
    {
      assert pool0[..i + 1][..i] == pool0[..i];
      ghost var next := ShieldPass(pool0[..i + 1], shs0);
      if pool[i].active {
        var struck := StrikeShields(pool[i], shields);
        if struck {
          pool[i] := pool[i].(active := false);
        }
      }
      assert next.pool == o.pool + [pool[i]];
      assert pool[..i + 1] == next.pool;
      o := next;
      i := i + 1;
    }
    assert pool0[..n] == pool0;
  }

  /** One active player shot against the first m squad slots: every live enemy whose body holds
      the shot is destroyed; the scan does not stop at the first hit. Returns the number of kills. */
  method ScanRow(p: Projectile, enemies: array<Enemy>, m: int) returns (kills: nat)
    requires 0 <= m <= enemies.Length
    modifies enemies
    ensures enemies[..m] == KillRow(p, old(enemies[..m]))
    ensures kills == KillCount(p, old(enemies[..m]))
  {
    ghost var es := enemies[..m];
    kills := 0;
    var j := 0;
    while j < m
      invariant 0 <= j <= m
      invariant forall k :: 0 <= k < j ==> enemies[k] == KillRow(p, es)[k]
      invariant forall k :: j <= k < m ==> enemies[k] == es[k]
      invariant kills == KillCount(p, es[..j])
    {
      assert es[..j + 1][..j] == es[..j];
      if enemies[j].active {
        if RectCollision(p.x, p.y, 1, 1, enemies[j].x, enemies[j].y, ENEMY_WIDTH, ENEMY_HEIGHT) {
          enemies[j] := enemies[j].(active := false);
          kills := kills + 1;
        }
      }
      j := j + 1;
    }
    assert es[..m] == es;
    assert enemies[..m] == KillRow(p, es);
  }

  /** The player pool against the squad: each active shot, in pool order, scans the squad as the
      earlier shots left it, and is deactivated when it destroyed anything. Returns the kills. */
  method KillScan(shots: array<Projectile>, n: int, enemies: array<Enemy>, m: int) returns (kills: nat)
    requires 0 <= n <= shots.Length && 0 <= m <= enemies.Length
    modifies shots, enemies
    ensures var o := KillPass(old(shots[..n]), old(enemies[..m]));
      shots[..n] == o.shots && enemies[..m] == o.enemies && kills == o.kills
  {
    ghost var ss, es := shots[..n], enemies[..m];
    ghost var o := KillPass(ss[..0], es);
    kills := 0;
    var i := 0;
    while i < n
      invariant 0 <= i <= n
      invariant o == KillPass(ss[..i], es)
      invariant shots[..i] == o.shots && enemies[..m] == o.enemies && kills == o.kills
      invariant forall k :: i <= k < n ==> shots[k] == ss[k]
    {
      assert ss[..i + 1][..i] == ss[..i];
      ghost var next := KillPass(ss[..i + 1], es);
      if shots[i].active {
        var hits := ScanRow(shots[i], enemies, m);
        if hits > 0 {
          shots[i] := shots[i].(active := false);
        }
        kills := kills + hits;
      }
      assert next.shots == o.shots + [shots[i]];
      assert shots[..i + 1] == next.shots;
      o := next;
      i := i + 1;
    }
    assert ss[..n] == ss;
  }

  /** The enemy pool against the ship: each active shot overlapping the ship is deactivated and
      costs one life, and the game ends once lives reach 0. Returns the new ship and flag. */
  method BombScan(pool: array<Projectile>, n: int, pl: Player, over: bool) returns (ship: Player, ended: bool)
    requires 0 <= n <= pool.Length
    modifies pool
    ensures var o := PlayerPass(old(pool[..n]), pl, over);
      pool[..n] == o.pool && ship == o.player && ended == o.gameOver
  {
    ghost var ps := pool[..n];
    ghost var o := PlayerPass(ps[..0], pl, over);
    ship, ended := pl, over;
    var i := 0;
    while i < n
      invariant 0 <= i <= n
      invariant o == PlayerPass(ps[..i], pl, over)
      invariant pool[..i] == o.pool && ship == o.player && ended == o.gameOver
      invariant forall k :: i <= k < n ==> pool[k] == ps[k]
    {
      assert ps[..i + 1][..i] == ps[..i];
      ghost var next := PlayerPass(ps[..i + 1], pl, over);
      var shot := pool[i];
      if shot.active {
        if RectCollision(shot.x, shot.y, 1, 1, ship.x, ship.y, PLAYER_WIDTH, PLAYER_HEIGHT) {
          pool[i] := shot.(active := false);
          ship := ship.(health := ship.health - 1);
          if ship.health <= 0 {
            ended := true;
          }
        }
      }
      assert next.pool == o.pool + [pool[i]];
      assert pool[..i + 1] == next.pool;
      o := next;
      i := i + 1;
    }
    assert ps[..n] == ps;
  }

  /** The probe of update_enemies: up to FIRE_PROBES slots after `start`, cyclically; the first
      live enemy found fires into the next free slot of the enemy pool if there is room, and the
      probe stops. Returns the new pool count. */
  method FireProbe(enemies: array<Enemy>, m: int, start: int, bombs: array<Projectile>, n: int) returns (count: int)
    requires 0 < m <= enemies.Length && 0 <= start < m
    requires 0 <= n <= bombs.Length == MAX_ENEMY_PROJECTILES
    modifies bombs
    ensures 0 <= count <= bombs.Length
    ensures bombs[..count] == Volley(enemies[..m], start, old(bombs[..n]))
  {
    count := n;
    var idx := start;
    var attempts := 0;
    while attempts < FIRE_PROBES
      invariant 0 <= attempts <= FIRE_PROBES && 0 <= idx < m
      invariant Probe(enemies[..m], start, FIRE_PROBES) == Probe(enemies[..m], idx, FIRE_PROBES - attempts)
      invariant count == n && bombs[..n] == old(bombs[..n])
    {
      idx := (idx + 1) % m;
      if enemies[idx].active {
        if count < MAX_ENEMY_PROJECTILES {
          bombs[count] := Muzzle(enemies[idx]);
          count := count + 1;
          assert bombs[..count] == old(bombs[..n]) + [Muzzle(enemies[idx])];
        }
        return;
      }
      attempts := attempts + 1;
    }
  }

  /** The game state: the ship, the squad, both projectile pools, the shields and the progress
      counters. The arrays have the engine's fixed capacities; the counters say how much of each
      is live. */
  class GameState {
    var player: Player
    const enemies: array<Enemy>
    var enemyCount: int
    var aliveEnemyCount: int
    const projectiles: array<Projectile>
    var projectileCount: int
    const enemyProjectiles: array<Projectile>
    var enemyProjectileCount: int
    const shields: array<Shield>
    var level: int
    var frameCount: int
    var enemyFireTimer: int
    var isPaused: bool
    var gameOver: bool
    var playerWon: bool
    var enemyDirection: int
    var enemyMoveCounter: int

    ghost function Repr(): set<object>
    {
      {this, enemies, projectiles, enemyProjectiles, shields}
    }

    /** Array capacities and counters within them. */
    ghost predicate Shape()
      reads this
    {
      enemies.Length == MAX_ENEMIES && 0 <= enemyCount <= MAX_ENEMIES &&
      projectiles.Length == MAX_PROJECTILES && 0 <= projectileCount <= MAX_PROJECTILES &&
      enemyProjectiles.Length == MAX_ENEMY_PROJECTILES &&
      0 <= enemyProjectileCount <= MAX_ENEMY_PROJECTILES &&
      shields.Length == SHIELD_COUNT && projectiles != enemyProjectiles
    }

    /** The state as a value: the live prefix of each array. */
    ghost function Abs(): Game
      reads this, enemies, projectiles, enemyProjectiles, shields
      requires Shape()
    {
      Game(player, enemies[..enemyCount], aliveEnemyCount, projectiles[..projectileCount],
           enemyProjectiles[..enemyProjectileCount], shields[..], level, frameCount, enemyFireTimer,
           isPaused, gameOver, playerWon, enemyDirection, enemyMoveCounter)
    }

    ghost predicate Valid()
      reads Repr()
    {
      Shape() && Inv(Abs())
    }

    /** game_init: every slot zeroed, then the ship, the counters, the squad and the shields. */
    constructor (shieldRolls: seq<nat>)
      requires |shieldRolls| == SHIELD_ROLLS
      ensures Valid() && Abs() == Initial(shieldRolls)
      ensures fresh(enemies) && fresh(projectiles) && fresh(enemyProjectiles) && fresh(shields)
    {
      player := StartPlayer();
      enemies := new Enemy[MAX_ENEMIES](_ => Enemy(0, 0, false, 0));
      enemyCount, aliveEnemyCount := 0, 0;
      projectiles := new Projectile[MAX_PROJECTILES](_ => Projectile(0, 0, false));
      projectileCount := 0;
      enemyProjectiles := new Projectile[MAX_ENEMY_PROJECTILES](_ => Projectile(0, 0, false));
      enemyProjectileCount := 0;
      shields := new Shield[SHIELD_COUNT](_ => Shield(seq(SHIELD_CAPACITY, _ => ShieldBlock(0, 0, 0)), 0));
      level := INITIAL_LEVEL;
      enemyDirection := 1;
      enemyMoveCounter := 0;
      enemyFireTimer := 0;
      frameCount := 0;
      isPaused, gameOver, playerWon := false, false, false;
      new;
      assert shields[..] == BlankShields();
      InitEnemies();
      InitShields(shieldRolls);
      InitialInv(shieldRolls);
    }

    /** init_enemies: a full grid of ENEMY_ROWS x ENEMY_COLS live enemies, filled row by row. */
    method InitEnemies()
      requires Shape()
      modifies this`enemyCount, this`aliveEnemyCount, enemies
      ensures Shape()
      ensures Abs() == old(Abs()).(enemies := EnemyGrid(), aliveEnemyCount := INITIAL_ENEMIES)
    {
      enemyCount := INITIAL_ENEMIES;
      aliveEnemyCount := INITIAL_ENEMIES;
      var idx := 0;
      var row := 0;
      while row < ENEMY_ROWS && idx < INITIAL_ENEMIES
        modifies enemies
        invariant 0 <= row <= ENEMY_ROWS && idx == row * ENEMY_COLS
        invariant forall k :: 0 <= k < idx ==> enemies[k] == GridEnemy(k)
      {
        var col := 0;
        while col < ENEMY_COLS && idx < INITIAL_ENEMIES
          modifies enemies
          invariant 0 <= col <= ENEMY_COLS && idx == row * ENEMY_COLS + col
          invariant forall k :: 0 <= k < idx ==> enemies[k] == GridEnemy(k)
        {
          assert idx % ENEMY_COLS == col && idx / ENEMY_COLS == row;
          enemies[idx] := Enemy(GRID_START_X + col * GRID_SPACING_X, GRID_START_Y + row * GRID_SPACING_Y, true, 1);
          idx := idx + 1;
          col := col + 1;
        }
        row := row + 1;
      }
      assert enemies[..enemyCount] == EnemyGrid();
    }

    /** init_shields: four position rolls, then for each shield the block count is set and its
        first SHIELD_BUILT_BLOCKS blocks are placed with one row roll each. */
    method InitShields(rolls: seq<nat>)
      requires Shape() && ShieldsShaped(shields[..]) && |rolls| == SHIELD_ROLLS
      modifies shields
      ensures Shape()
      ensures Abs() == old(Abs()).(shields := BuildShields(old(shields[..]), rolls))
    {
      var positions := [rolls[0] % SHIELD_POSITION_RANGE, rolls[1] % SHIELD_POSITION_RANGE,
                        rolls[2] % SHIELD_POSITION_RANGE, rolls[3] % SHIELD_POSITION_RANGE];
      var i := 0;
      while i < SHIELD_COUNT
        invariant 0 <= i <= SHIELD_COUNT
        invariant forall t :: 0 <= t < i ==> shields[t] == BuildShield(old(shields[t]), t, rolls)
        invariant forall t :: i <= t < SHIELD_COUNT ==> shields[t] == old(shields[t])
      {
        ghost var sh, before := shields[i], shields[..];
        shields[i] := shields[i].(blockCount := SHIELD_WIDTH * SHIELD_HEIGHT);
        var j := 0;
        while j < SHIELD_BUILT_BLOCKS
          invariant 0 <= j <= SHIELD_BUILT_BLOCKS
          invariant shields[i].blockCount == SHIELD_WIDTH * SHIELD_HEIGHT && |shields[i].blocks| == |sh.blocks|
          invariant forall k :: 0 <= k < |sh.blocks| ==>
            shields[i].blocks[k] == if k < j then BuiltBlock(positions[i], k, rolls[RowRollIndex(i, k)]) else sh.blocks[k]
          invariant forall t :: 0 <= t < SHIELD_COUNT && t != i ==> shields[t] == before[t]
        {
          var blockX := j % SHIELD_WIDTH;
          var block := ShieldBlock(positions[i] + blockX, SHIELD_BASE_ROW - rolls[RowRollIndex(i, j)] % SHIELD_ROW_RANGE, SHIELD_HEALTH);
          shields[i] := shields[i].(blocks := shields[i].blocks[j := block]);
          j := j + 1;
        }
        assert shields[i].blocks == BuildShield(sh, i, rolls).blocks;
        i := i + 1;
      }
      assert shields[..] == BuildShields(old(shields[..]), rolls);
    }
  
    /** The tail shared by reset, level-up and level selection: both pools emptied, then the
        squad and the shields rebuilt. */
    method Restock(shieldRolls: seq<nat>)
      requires Shape() && ShieldsShaped(shields[..]) && |shieldRolls| == SHIELD_ROLLS
      modifies this`projectileCount, this`enemyProjectileCount, this`enemyCount, this`aliveEnemyCount, enemies, shields
      ensures Shape()
      ensures Abs() == Restocked(old(Abs()), shieldRolls)
    {
      projectileCount := 0;
      enemyProjectileCount := 0;
      InitEnemies();
      InitShields(shieldRolls);
    }

    /** game_reset: back to a level-1 start with a fresh squad and shields; the enemy fire timer
        is not touched. */
    method Reset(shieldRolls: seq<nat>)
      requires Valid() && |shieldRolls| == SHIELD_ROLLS
      modifies this, enemies, shields
      ensures Valid() && Abs() == Restart(old(Abs()), shieldRolls)
    {
      player := StartPlayer();
      level := INITIAL_LEVEL;
      frameCount := 0;
      isPaused, gameOver, playerWon := false, false, false;
      enemyDirection := 1;
      enemyMoveCounter := 0;
      assert Abs() == Rewound(old(Abs()));
      Restock(shieldRolls);
      RestartLikeInitial(old(Abs()), shieldRolls);
    }

    /** game_move_player_left. */
    method MovePlayerLeft()
      requires Valid()
      modifies this`player
      ensures Valid() && Abs() == Rules.StepLeft(old(Abs()))
    {
      if !isPaused && !gameOver {
        player := player.(x := player.x - PLAYER_SPEED);
        if player.x < 0 {
          player := player.(x := 0);
        }
      }
      Rules.CommandsKeepInv(old(Abs()));
    }

    /** game_move_player_right. */
    method MovePlayerRight()
      requires Valid()
      modifies this`player
      ensures Valid() && Abs() == Rules.StepRight(old(Abs()))
    {
      if !isPaused && !gameOver {
        player := player.(x := player.x + PLAYER_SPEED);
        if player.x + PLAYER_WIDTH > BOARD_WIDTH {
          player := player.(x := BOARD_WIDTH - PLAYER_WIDTH);
        }
      }
      Rules.CommandsKeepInv(old(Abs()));
    }

    /** game_player_shoot: the new shot goes into the next free slot of the player pool. */
    method PlayerShoot()
      requires Valid()
      modifies this`projectileCount, projectiles
      ensures Valid() && Abs() == Rules.FireShot(old(Abs()))
    {
      if !isPaused && !gameOver {
        if projectileCount < MAX_PROJECTILES {
          projectiles[projectileCount] := Projectile(player.x + PLAYER_WIDTH / 2, player.y - 1, true);
          projectileCount := projectileCount + 1;
          assert projectiles[..projectileCount] == old(projectiles[..projectileCount]) + [Rules.ShipMuzzle(player)];
        }
      }
      Rules.CommandsKeepInv(old(Abs()));
    }

    /** game_toggle_pause. */
    method TogglePause()
      requires Valid()
      modifies this`isPaused
      ensures Valid() && Abs() == Rules.FlipPause(old(Abs()))
    {
      if !gameOver {
        isPaused := !isPaused;
      }
      Rules.CommandsKeepInv(old(Abs()));
    }

    /** game_is_over: in a valid state the lives test adds nothing to the game-over flag. */
    function IsOver(): (over: bool)
      requires Valid()
      reads Repr()
      ensures over == Rules.IsOver(Abs())
      ensures over <==> gameOver
    {
      gameOver || player.health <= 0
    }

    /** game_is_won: a won game is always over. */
    function IsWon(): (won: bool)
      requires Valid()
      reads Repr()
      ensures won == Rules.IsWon(Abs())
      ensures won ==> IsOver()
    {
      playerWon
    }

    /** game_next_level: one level up with its bonus; past MAX_LEVEL the game is won, otherwise
        the pools are emptied and the squad and shields rebuilt. */
    method NextLevel(shieldRolls: seq<nat>)
      requires Valid() && |shieldRolls| == SHIELD_ROLLS
      modifies this, enemies, shields
      ensures Valid() && Abs() == LevelUp(old(Abs()), shieldRolls)
    {
      level := level + 1;
      player := player.(score := player.score + POINTS_LEVEL_BONUS);
      assert Abs() == Promoted(old(Abs()));
      if level > MAX_LEVEL {
        playerWon := true;
        gameOver := true;
      } else {
        Restock(shieldRolls);
      }
      LevelUpSpec(old(Abs()), shieldRolls);
    }

    /** check_level_complete. */
    method CheckLevelComplete(shieldRolls: seq<nat>)
      requires Valid() && |shieldRolls| == SHIELD_ROLLS
      modifies this, enemies, shields
      ensures Valid() && Abs() == LevelCheck(old(Abs()), shieldRolls)
    {
      if aliveEnemyCount <= 0 {
        NextLevel(shieldRolls);
      }
    }

    /** game_set_level: a level below 1 is ignored. */
    method SetLevel(n: int, shieldRolls: seq<nat>)
      requires Valid() && |shieldRolls| == SHIELD_ROLLS
      modifies this, enemies, shields
      ensures Valid() && Abs() == JumpToLevel(old(Abs()), n, shieldRolls)
    {
      if n < 1 {
        return;
      }
      level := n;
      player := player.(score := player.score + POINTS_LEVEL_BONUS * (n - 1));
      assert Abs() == old(Abs()).(level := n, player := player);
      Restock(shieldRolls);
      JumpToLevelSpec(old(Abs()), n, shieldRolls);
    }
  
    // -------------------------------------------------------------------------------------
    // One frame

    /** game_update: nothing while paused or over; otherwise count the frame, then the squad,
        both pools, the collisions and the level check, in that order. */
    method Update(fireRoll: nat, shieldRolls: seq<nat>)
      requires Valid() && |shieldRolls| == SHIELD_ROLLS
      modifies Repr()
      ensures Valid() && Abs() == Rules.Frame(old(Abs()), fireRoll, shieldRolls)
    {
      if isPaused || gameOver {
        return;
      }
      Play(fireRoll);
      CheckLevelComplete(shieldRolls);
    }

    /** The live part of game_update, before the level check. */
    method Play(fireRoll: nat)
      requires Valid()
      modifies Repr()
      ensures Valid() && Abs() == Rules.Played(old(Abs()), fireRoll)
    {
      CountFrame();
      UpdateEnemies(fireRoll);
      MoveProjectiles();
      HandleCollisions();
    }

    /** The frame counter's increment. */
    method CountFrame()
      requires Valid()
      modifies this`frameCount
      ensures Valid() && Abs() == Rules.Counted(old(Abs()))
    {
      frameCount := frameCount + 1;
    }

    /** update_projectiles followed by update_enemy_projectiles. */
    method MoveProjectiles()
      requires Valid()
      modifies this`projectileCount, this`enemyProjectileCount, projectiles, enemyProjectiles
      ensures Valid() && Abs() == Rules.Advanced(old(Abs()))
    {
      UpdateProjectiles();
      UpdateEnemyProjectiles();
      Rules.AdvancedKeepsInv(old(Abs()));
    }

    /** update_enemies: march, then fire. */
    method UpdateEnemies(fireRoll: nat)
      requires Valid()
      modifies this, enemies, enemyProjectiles
      ensures Valid() && Abs() == SquadTurn(old(Abs()), fireRoll)
    {
      SquadMarchKeepsSquad(old(Abs()));
      MarchEnemies();
      FireEnemies(fireRoll);
      Rules.SquadTurnKeepsInv(old(Abs()), fireRoll);
    }

    /** The marching half of update_enemies. */
    method MarchEnemies()
      requires Shape()
      modifies this`enemyMoveCounter, this`enemyDirection, this`gameOver, enemies
      ensures Shape() && Abs() == SquadMarch(old(Abs()))
    {
      var speed := ENEMY_BASE_SPEED;
      if aliveEnemyCount <= ENEMY_SPEED_INCREASE_THRESHOLD {
        speed := 2;
      }
      if aliveEnemyCount <= 5 {
        speed := 3;
      }
      enemyMoveCounter := enemyMoveCounter + 1;
      if enemyMoveCounter >= CADENCE_BASE - speed {
        enemyMoveCounter := 0;
        StepSquad();
      }
    }

    /** The squad's move on a step frame: shift, and on meeting an edge turn around and lower. */
    method StepSquad()
      requires Shape()
      modifies this`enemyDirection, this`gameOver, enemies
      ensures Shape() && Abs() == SquadStep(old(Abs()))
    {
      var hitEdge := ShiftEnemies();
      if hitEdge {
        enemyDirection := enemyDirection * -1;
        var reachedBottom := LowerEnemies();
        if reachedBottom {
          gameOver := true;
        }
      }
    }

    /** Every active enemy moves one step in the marching direction; reports whether one of them
        is now at an edge. */
    method ShiftEnemies() returns (hitEdge: bool)
      requires Shape()
      modifies enemies
      ensures enemies[..enemyCount] == Shifted(old(enemies[..enemyCount]), enemyDirection)
      ensures hitEdge == AnyAtEdge(enemies[..enemyCount])
    {
      ghost var es := enemies[..enemyCount];
      hitEdge := false;
      var i := 0;
      while i < enemyCount
        invariant 0 <= i <= enemyCount
        invariant forall k :: 0 <= k < i ==> enemies[k] == Shifted(es, enemyDirection)[k]
        invariant forall k :: i <= k < enemyCount ==> enemies[k] == es[k]
        invariant hitEdge <==> exists k :: 0 <= k < i && AtEdge(enemies[k])
      {
        if enemies[i].active {
          enemies[i] := enemies[i].(x := enemies[i].x + enemyDirection);
          if enemies[i].x <= 0 || enemies[i].x + ENEMY_WIDTH >= BOARD_WIDTH {
            hitEdge := true;
          }
        }
        i := i + 1;
      }
      assert enemies[..enemyCount] == Shifted(es, enemyDirection);
      assert hitEdge ==> AnyAtEdge(enemies[..enemyCount]);
    }

    /** Every active enemy moves one row down; reports whether one of them reached the player's
        line. */
    method LowerEnemies() returns (reachedBottom: bool)
      requires Shape()
      modifies enemies
      ensures enemies[..enemyCount] == Lowered(old(enemies[..enemyCount]))
      ensures reachedBottom == AnyAtBottom(enemies[..enemyCount])
    {
      ghost var es := enemies[..enemyCount];
      reachedBottom := false;
      var i := 0;
      while i < enemyCount
        invariant 0 <= i <= enemyCount
        invariant forall k :: 0 <= k < i ==> enemies[k] == Lowered(es)[k]
        invariant forall k :: i <= k < enemyCount ==> enemies[k] == es[k]
        invariant reachedBottom <==> exists k :: 0 <= k < i && AtBottom(enemies[k])
      {
        if enemies[i].active {
          enemies[i] := enemies[i].(y := enemies[i].y + ENEMY_MOVE_DOWN);
          if enemies[i].y >= BOARD_HEIGHT - 2 {
            reachedBottom := true;
          }
        }
        i := i + 1;
      }
      assert enemies[..enemyCount] == Lowered(es);
      assert reachedBottom ==> AnyAtBottom(enemies[..enemyCount]);
    }

    /** The fire-control half of update_enemies: probe forward from a random slot for a live
        enemy and let it fire if the enemy pool has room. */
    method FireEnemies(fireRoll: nat)
      requires Shape() && (aliveEnemyCount > 0 ==> enemyCount > 0)
      modifies this`enemyFireTimer, this`enemyProjectileCount, enemyProjectiles
      ensures Shape() && Abs() == SquadFire(old(Abs()), fireRoll)
    {
      enemyFireTimer := enemyFireTimer + 1;
      if enemyFireTimer >= ENEMY_FIRE_RATE {
        enemyFireTimer := 0;
        if aliveEnemyCount > 0 {
          var idx := RandomInt(0, enemyCount - 1, fireRoll);
          enemyProjectileCount := FireProbe(enemies, enemyCount, idx, enemyProjectiles, enemyProjectileCount);
        }
      }
    }

    /** update_projectiles: every active player shot rises one row and is deactivated above the
        board; then the pool is compacted. */
    method UpdateProjectiles()
      requires Shape()
      modifies this`projectileCount, projectiles
      ensures Shape() && Abs() == old(Abs()).(projectiles := Advance(old(Abs()).projectiles, Rise))
    {
      ghost var ps := projectiles[..projectileCount];
      var i := 0;
      while i < projectileCount
        modifies projectiles
        invariant 0 <= i <= projectileCount
        invariant forall k :: 0 <= k < i ==> projectiles[k] == Rise(ps[k])
        invariant forall k :: i <= k < projectileCount ==> projectiles[k] == ps[k]
      {
        if projectiles[i].active {
          projectiles[i] := projectiles[i].(y := projectiles[i].y - 1);
          if projectiles[i].y < 0 {
            projectiles[i] := projectiles[i].(active := false);
          }
        }
        i := i + 1;
      }
      assert projectiles[..projectileCount] == Moved(ps, Rise);
      projectileCount := CompactPool(projectiles, projectileCount);
    }

    /** update_enemy_projectiles: every active enemy shot falls and is deactivated below the
        board; then the pool is compacted. */
    method UpdateEnemyProjectiles()
      requires Shape()
      modifies this`enemyProjectileCount, enemyProjectiles
      ensures Shape() && Abs() == old(Abs()).(enemyProjectiles := Advance(old(Abs()).enemyProjectiles, Fall))
    {
      ghost var ps := enemyProjectiles[..enemyProjectileCount];
      var i := 0;
      while i < enemyProjectileCount
        modifies enemyProjectiles
        invariant 0 <= i <= enemyProjectileCount
        invariant forall k :: 0 <= k < i ==> enemyProjectiles[k] == Fall(ps[k])
        invariant forall k :: i <= k < enemyProjectileCount ==> enemyProjectiles[k] == ps[k]
      {
        if enemyProjectiles[i].active {
          enemyProjectiles[i] := enemyProjectiles[i].(y := enemyProjectiles[i].y + ENEMY_PROJECTILE_SPEED);
          if enemyProjectiles[i].y >= BOARD_HEIGHT {
            enemyProjectiles[i] := enemyProjectiles[i].(active := false);
          }
        }
        i := i + 1;
      }
      assert enemyProjectiles[..enemyProjectileCount] == Moved(ps, Fall);
      enemyProjectileCount := CompactPool(enemyProjectiles, enemyProjectileCount);
    }
  
    /** handle_collisions: shots against the squad, shots against the shields, enemy shots
        against the ship, enemy shots against the shields. */
    method HandleCollisions()
      requires Valid()
      modifies this`aliveEnemyCount, this`player, this`gameOver, enemies, projectiles, enemyProjectiles, shields
      ensures Valid() && Abs() == Collide(old(Abs()))
    {
      KillEnemies();
      ShootShields();
      HitPlayer();
      BombShields();
      CollideKeepsInv(old(Abs()));
    }

    /** Player shots against the squad: every kill removes one live enemy and scores
        POINTS_PER_ENEMY. */
    method KillEnemies()
      requires Shape() && ShieldsShaped(shields[..])
      modifies this`aliveEnemyCount, this`player, enemies, projectiles
      ensures Shape() && ShieldsShaped(shields[..]) && Abs() == KillStep(old(Abs()))
    {
      var kills := KillScan(projectiles, projectileCount, enemies, enemyCount);
      aliveEnemyCount := aliveEnemyCount - kills;
      player := player.(score := player.score + POINTS_PER_ENEMY * kills);
    }

    /** Player shots against the shields. */
    method ShootShields()
      requires Shape() && ShieldsShaped(shields[..])
      modifies projectiles, shields
      ensures Shape() && ShieldsShaped(shields[..]) && Abs() == ShotShieldStep(old(Abs()))
    {
      ShieldScan(projectiles, projectileCount, shields);
    }

    /** Enemy shots against the ship. */
    method HitPlayer()
      requires Shape() && ShieldsShaped(shields[..])
      modifies this`player, this`gameOver, enemyProjectiles
      ensures Shape() && ShieldsShaped(shields[..]) && Abs() == PlayerHitStep(old(Abs()))
    {
      player, gameOver := BombScan(enemyProjectiles, enemyProjectileCount, player, gameOver);
    }

    /** Enemy shots against the shields. */
    method BombShields()
      requires Shape() && ShieldsShaped(shields[..])
      modifies enemyProjectiles, shields
      ensures Shape() && ShieldsShaped(shields[..]) && Abs() == BombShieldStep(old(Abs()))
    {
      ShieldScan(enemyProjectiles, enemyProjectileCount, shields);
    }
  }
}
