/** The engine's public operations on the state value: player commands, the one-frame update
    and the terminal queries. */
module Rules {
  import opened Config
  import opened Utils
  import opened Entities
  import opened Pools
  import opened Squad
  import opened Collisions
  import opened Levels

  /** game_move_player_left: PLAYER_SPEED columns left, stopping at column 0. */
  function StepLeft(g: Game): Game
  {
    if g.isPaused || g.gameOver then g
    else
      var x := g.player.x - PLAYER_SPEED;
      g.(player := g.player.(x := if x < 0 then 0 else x))
  }

  /** game_move_player_right: PLAYER_SPEED columns right, stopping with the ship's right end on
      the board's right edge. */
  function StepRight(g: Game): Game
  {
    if g.isPaused || g.gameOver then g
    else
      var x := g.player.x + PLAYER_SPEED;
      g.(player := g.player.(x := if x + PLAYER_WIDTH > BOARD_WIDTH then BOARD_WIDTH - PLAYER_WIDTH else x))
  }

  /** Where a player shot starts: above the middle of the ship. */
  function ShipMuzzle(pl: Player): Projectile
  {
    Projectile(pl.x + PLAYER_WIDTH / 2, pl.y - 1, true)
  }

  /** game_player_shoot: append one shot to the player pool when it has room. */
  function FireShot(g: Game): Game
  {
    if g.isPaused || g.gameOver then g
    else if |g.projectiles| < MAX_PROJECTILES then g.(projectiles := g.projectiles + [ShipMuzzle(g.player)])
    else g
  }

  /** game_toggle_pause: flip the pause flag unless the game is over. */
  function FlipPause(g: Game): Game
  {
    if g.gameOver then g else g.(isPaused := !g.isPaused)
  }

  /** game_is_over: the game-over flag or no lives left. */
  function IsOver(g: Game): bool
  {
    g.gameOver || g.player.health <= 0
  }

  /** game_is_won. */
  function IsWon(g: Game): bool
  {
    g.playerWon
  }

  /** Both pools advanced: player shots rise, enemy bombs fall, and shots leaving the board are
      dropped with the survivors kept in order. */
  function Advanced(g: Game): (r: Game)
    ensures r == g.(projectiles := r.projectiles, enemyProjectiles := r.enemyProjectiles)
    ensures |r.projectiles| <= |g.projectiles| && |r.enemyProjectiles| <= |g.enemyProjectiles|
  {
    g.(projectiles := Advance(g.projectiles, Rise), enemyProjectiles := Advance(g.enemyProjectiles, Fall))
  }

  /** The squad's turn keeps the invariant and leaves the ship, the score and the level alone. */
  lemma SquadTurnKeepsInv(g: Game, fireRoll: nat)
    requires Inv(g)
    ensures Inv(SquadTurn(g, fireRoll))
    ensures SquadTurn(g, fireRoll).player == g.player && SquadTurn(g, fireRoll).level == g.level
  {
    SquadMarchKeepsInv(g);
    SquadFireKeepsInv(SquadMarch(g), fireRoll);
  }

  /** Marching keeps the invariant and leaves the ship and the level alone. */
  lemma SquadMarchKeepsInv(g: Game)
    requires Inv(g)
    ensures Inv(SquadMarch(g))
    ensures SquadMarch(g).player == g.player && SquadMarch(g).level == g.level
  {
    SquadMarchKeepsSquad(g);
    SquadMarchCadence(g);
    var shifted := Shifted(g.enemies, g.enemyDirection);
    if g.enemyMoveCounter + 1 >= Cadence(g.aliveEnemyCount) && AnyAtEdge(shifted) {
      assert SquadMarch(g).enemyDirection == -g.enemyDirection;
    }
  }

  /** Firing keeps the invariant and leaves the ship and the level alone. */
  lemma SquadFireKeepsInv(g: Game, fireRoll: nat)
    requires Inv(g)
    ensures Inv(SquadFire(g, fireRoll))
    ensures SquadFire(g, fireRoll).player == g.player && SquadFire(g, fireRoll).level == g.level
  {
    SquadFireBounds(g, fireRoll);
  }

  /** The pool advance keeps the invariant and touches nothing but the two pools. */
  lemma AdvancedKeepsInv(g: Game)
    requires Inv(g)
    ensures Inv(Advanced(g))
    ensures Advanced(g).player == g.player && Advanced(g).level == g.level
  {
  }

  /** The frame counter's increment at the start of a live frame. */
  function Counted(g: Game): Game
  {
    g.(frameCount := g.frameCount + 1)
  }

  /** The stages of the live part of game_update: count the frame, let the squad march and
      fire, advance both pools and resolve the collisions. */
  function Stages(g: Game, fireRoll: nat): Game
    requires g.aliveEnemyCount > 0 ==> |g.enemies| > 0
  {
    Collide(Advanced(SquadTurn(Counted(g), fireRoll)))
  }

  /** The live part of game_update, up to the level check. It keeps the invariant, never lowers
      the score and leaves the level alone. */
  function Played(g: Game, fireRoll: nat): (r: Game)
    requires Inv(g)
    ensures Inv(r)
    ensures r.player.score >= g.player.score && r.level == g.level
  {
    var g1 := Counted(g);
    assert Inv(g1);
    var g2 := SquadTurn(g1, fireRoll);
    SquadTurnKeepsInv(g1, fireRoll);
    AdvancedKeepsInv(g2);
    CollideProgress(Advanced(g2));
    Stages(g, fireRoll)
  }

  /** game_update: nothing while paused or over; otherwise the live part of the frame followed by
      the check for a cleared level. */
  function Frame(g: Game, fireRoll: nat, shieldRolls: seq<nat>): Game
    requires Inv(g) && |shieldRolls| == SHIELD_ROLLS
  {
    if g.isPaused || g.gameOver then g
    else LevelCheck(Played(g, fireRoll), shieldRolls)
  }

  /** While paused or over, neither the frame update nor a move or shot changes anything. */
  lemma FrozenWhenPausedOrOver(g: Game, fireRoll: nat, shieldRolls: seq<nat>)
    requires Inv(g) && |shieldRolls| == SHIELD_ROLLS
    requires g.isPaused || g.gameOver
    ensures Frame(g, fireRoll, shieldRolls) == g
    ensures StepLeft(g) == g && StepRight(g) == g && FireShot(g) == g
  {
  }

  /** Pausing is refused once the game is over; otherwise it flips, so toggling twice restores. */
  lemma FlipPauseTwice(g: Game)
    ensures g.gameOver ==> FlipPause(g) == g
    ensures !g.gameOver ==> FlipPause(g).isPaused == !g.isPaused
    ensures FlipPause(FlipPause(g)) == g
  {
  }

  /** A move keeps the ship on the board, moves it at most PLAYER_SPEED columns, and changes
      nothing but its column; in a running game the new column is the old one moved by
      PLAYER_SPEED and clamped to the board. */
  lemma MovesStayOnBoard(g: Game)
    requires 0 <= g.player.x <= BOARD_WIDTH - PLAYER_WIDTH
    ensures !g.isPaused && !g.gameOver ==>
      StepLeft(g).player.x == Clamp(g.player.x - PLAYER_SPEED, 0, BOARD_WIDTH - PLAYER_WIDTH) &&
      StepRight(g).player.x == Clamp(g.player.x + PLAYER_SPEED, 0, BOARD_WIDTH - PLAYER_WIDTH)
    ensures 0 <= StepLeft(g).player.x <= g.player.x <= StepLeft(g).player.x + PLAYER_SPEED
    ensures StepLeft(g).player.x + PLAYER_WIDTH <= BOARD_WIDTH
    ensures g.player.x <= StepRight(g).player.x <= g.player.x + PLAYER_SPEED
    ensures 0 <= StepRight(g).player.x && StepRight(g).player.x + PLAYER_WIDTH <= BOARD_WIDTH
    ensures StepLeft(g) == g.(player := StepLeft(g).player) && StepLeft(g).player == g.player.(x := StepLeft(g).player.x)
    ensures StepRight(g) == g.(player := StepRight(g).player) && StepRight(g).player == g.player.(x := StepRight(g).player.x)
  {
  }

  /** The state after n left moves. */
  function LeftMoves(g: Game, n: nat): Game
  {
    if n == 0 then g else StepLeft(LeftMoves(g, n - 1))
  }

  /** A ship at column 0 stays there however many left moves follow. */
  lemma {:induction false} LeftMovesAtZero(g: Game, n: nat)
    requires g.player.x == 0
    ensures LeftMoves(g, n).player.x == 0
  {
    if n > 0 {
      LeftMovesAtZero(g, n - 1);
    }
  }

  /** A shot appends exactly one active projectile at the ship's muzzle when the game is live and
      the pool has room, and leaves the state unchanged otherwise; the pool never exceeds its
      capacity. */
  lemma FireShotAppends(g: Game)
    requires |g.projectiles| <= MAX_PROJECTILES
    ensures |FireShot(g).projectiles| <= MAX_PROJECTILES
    ensures !g.isPaused && !g.gameOver && |g.projectiles| < MAX_PROJECTILES ==>
      FireShot(g) == g.(projectiles := g.projectiles + [Projectile(g.player.x + 1, g.player.y - 1, true)]) &&
      |FireShot(g).projectiles| == |g.projectiles| + 1
    ensures g.isPaused || g.gameOver || |g.projectiles| == MAX_PROJECTILES ==> FireShot(g) == g
  {
  }

  /** The commands keep the invariant. */
  lemma CommandsKeepInv(g: Game)
    requires Inv(g)
    ensures Inv(StepLeft(g)) && Inv(StepRight(g)) && Inv(FireShot(g)) && Inv(FlipPause(g))
  {
  }

  /** In a reachable state losing all lives always comes with the game-over flag, so the two
      tests of game_is_over agree. */
  lemma IsOverIsTheFlag(g: Game)
    requires Inv(g)
    ensures IsOver(g) <==> g.gameOver
    ensures IsWon(g) ==> IsOver(g)
  {
  }

  /** One frame keeps the invariant: the live count matches the active flags, both pools stay
      within capacity, the ship stays on the board, shields stay sound, and the counters stay in
      range. */
  lemma FramePreservesInv(g: Game, fireRoll: nat, shieldRolls: seq<nat>)
    requires Inv(g) && |shieldRolls| == SHIELD_ROLLS
    ensures Inv(Frame(g, fireRoll, shieldRolls))
  {
    if !g.isPaused && !g.gameOver {
      var p := Played(g, fireRoll);
      if p.aliveEnemyCount <= 0 {
        LevelUpSpec(p, shieldRolls);
      }
    }
  }

  /** A frame never lowers the score or the level. */
  lemma FrameProgress(g: Game, fireRoll: nat, shieldRolls: seq<nat>)
    requires Inv(g) && |shieldRolls| == SHIELD_ROLLS
    ensures Frame(g, fireRoll, shieldRolls).player.score >= g.player.score
    ensures Frame(g, fireRoll, shieldRolls).level >= g.level
  {
    if !g.isPaused && !g.gameOver {
      var p := Played(g, fireRoll);
      if p.aliveEnemyCount <= 0 {
        LevelUpSpec(p, shieldRolls);
      }
    }
  }

  /** A live frame never ends with the squad wiped out: a cleared level is replaced by the next
      one within the same frame, unless that was the last level and the game is won. */
  lemma FrameNeverEndsCleared(g: Game, fireRoll: nat, shieldRolls: seq<nat>)
    requires Inv(g) && |shieldRolls| == SHIELD_ROLLS
    requires !g.isPaused && !g.gameOver
    ensures Frame(g, fireRoll, shieldRolls).aliveEnemyCount > 0 || IsWon(Frame(g, fireRoll, shieldRolls))
  {
  }

  /** A shot that destroys an enemy stays in its pool, inactive, until the next frame's advance
      drops it. */
  lemma SpentShotLingersOneFrame()
    ensures KillPass([Projectile(5, 5, true)], [Enemy(4, 5, true, 1)]).shots == [Projectile(5, 5, false)]
    ensures Advance([Projectile(5, 5, false)], Rise) == []
  {
    var p := Projectile(5, 5, true);
    var es := [Enemy(4, 5, true, 1)];
    assert [p][..0] == [];
    assert es[..0] == [];
    assert KillCount(p, es) == 1;
    AdvanceOneShot(Projectile(5, 5, false));
  }
}
