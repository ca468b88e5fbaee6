/** The four collision passes of a frame, each over the positions the projectiles have after
    this frame's advance, in the order the engine runs them. */
module Collisions {
  import opened Config
  import opened Utils
  import opened Entities

  // ---------------------------------------------------------------------------------------
  // Player projectiles against enemies

  /** A projectile (a 1x1 cell) overlapping a live enemy's body. */
  predicate HitsEnemy(p: Projectile, e: Enemy)
  {
    e.active && RectCollision(p.x, p.y, 1, 1, e.x, e.y, ENEMY_WIDTH, ENEMY_HEIGHT)
  }

  /** The squad after one projectile's scan: every live enemy it overlaps is destroyed (the scan
      does not stop at the first hit). */
  function KillRow(p: Projectile, es: seq<Enemy>): (r: seq<Enemy>)
    ensures |r| == |es|
  {
    seq(|es|, k requires 0 <= k < |es| => if HitsEnemy(p, es[k]) then es[k].(active := false) else es[k])
  }

  /** Number of live enemies one projectile overlaps. */
  function KillCount(p: Projectile, es: seq<Enemy>): nat
  {
    if |es| == 0 then 0
    else KillCount(p, es[..|es| - 1]) + (if HitsEnemy(p, es[|es| - 1]) then 1 else 0)
  }

  /** Each enemy one projectile destroys was alive, so the live count drops by its kill count. */
  lemma {:induction false} KillRowCount(p: Projectile, es: seq<Enemy>)
    ensures KillCount(p, es) <= CountActive(es)
    ensures CountActive(KillRow(p, es)) == CountActive(es) - KillCount(p, es)
  {
    if |es| > 0 {
      var n := |es|;
      assert KillRow(p, es)[..n - 1] == KillRow(p, es[..n - 1]);
      KillRowCount(p, es[..n - 1]);
    }
  }

  datatype KillOutcome = KillOutcome(shots: seq<Projectile>, enemies: seq<Enemy>, kills: nat)

  /** The whole pass: each active projectile in pool order scans the squad as the earlier ones
      left it, and is deactivated when it destroyed anything. */
  function KillPass(shots: seq<Projectile>, es: seq<Enemy>): (o: KillOutcome)
    ensures |o.shots| == |shots| && |o.enemies| == |es|
  {
    if |shots| == 0 then KillOutcome([], es, 0)
    else
      var o := KillPass(shots[..|shots| - 1], es);
      var p := shots[|shots| - 1];
      if !p.active then KillOutcome(o.shots + [p], o.enemies, o.kills)
      else
        var hits := KillCount(p, o.enemies);
        KillOutcome(o.shots + [p.(active := hits == 0)], KillRow(p, o.enemies), o.kills + hits)
  }

  /** Over the whole pass the live count drops by exactly the number of kills; slots only go
      from alive to destroyed, and projectiles only from active to inactive, none moving. */
  lemma KillPassAccounting(shots: seq<Projectile>, es: seq<Enemy>)
    ensures CountActive(KillPass(shots, es).enemies) == CountActive(es) - KillPass(shots, es).kills
    ensures forall k :: 0 <= k < |es| ==>
      KillPass(shots, es).enemies[k] == es[k] ||
      (es[k].active && KillPass(shots, es).enemies[k] == es[k].(active := false))
    ensures forall k :: 0 <= k < |shots| ==>
      KillPass(shots, es).shots[k] == shots[k] ||
      (shots[k].active && KillPass(shots, es).shots[k] == shots[k].(active := false))
  {
    KillPassCount(shots, es);
    KillPassSlots(shots, es);
  }

  /** The live count drops by exactly the pass's kills. */
  lemma {:induction false} KillPassCount(shots: seq<Projectile>, es: seq<Enemy>)
    ensures CountActive(KillPass(shots, es).enemies) == CountActive(es) - KillPass(shots, es).kills
  {
    if |shots| > 0 {
      var n := |shots|;
      var o := KillPass(shots[..n - 1], es);
      KillPassCount(shots[..n - 1], es);
      var p := shots[n - 1];
      if p.active {
        KillRowCount(p, o.enemies);
      }
    }
  }

  /** Each slot of either sequence is unchanged or has only lost its active flag. */
  lemma {:induction false} KillPassSlots(shots: seq<Projectile>, es: seq<Enemy>)
    ensures forall k :: 0 <= k < |es| ==>
      KillPass(shots, es).enemies[k] == es[k] ||
      (es[k].active && KillPass(shots, es).enemies[k] == es[k].(active := false))
    ensures forall k :: 0 <= k < |shots| ==>
      KillPass(shots, es).shots[k] == shots[k] ||
      (shots[k].active && KillPass(shots, es).shots[k] == shots[k].(active := false))
  {
    if |shots| > 0 {
      var n := |shots|;
      KillPassSlots(shots[..n - 1], es);
      assert KillPass(shots, es).shots[..n - 1] == KillPass(shots[..n - 1], es).shots;
    }
  }

  /** Some active projectile of the pool overlaps the live enemy `e`. */
  predicate Struck(shots: seq<Projectile>, e: Enemy)
  {
    exists i :: 0 <= i < |shots| && shots[i].active && HitsEnemy(shots[i], e)
  }

  /** The pass in closed form for the squad: an enemy ends destroyed exactly when some active
      projectile of the pool overlaps it as it stood, and is otherwise untouched. Enemies do not
      move during the pass, so a later projectile finds the same cell an earlier one emptied. */
  lemma {:induction false} KillPassClosedForm(shots: seq<Projectile>, es: seq<Enemy>)
    ensures forall k :: 0 <= k < |es| ==>
      KillPass(shots, es).enemies[k] == if Struck(shots, es[k]) then es[k].(active := false) else es[k]
  {
    if |shots| > 0 {
      var n := |shots|;
      var front := shots[..n - 1];
      var p := shots[n - 1];
      KillPassClosedForm(front, es);
      forall k | 0 <= k < |es|
        ensures KillPass(shots, es).enemies[k] == if Struck(shots, es[k]) then es[k].(active := false) else es[k]
      {
        if Struck(front, es[k]) {
          var i :| 0 <= i < |front| && front[i].active && HitsEnemy(front[i], es[k]);
          assert shots[i] == front[i];
        } else if p.active && HitsEnemy(p, es[k]) {
          assert Struck(shots, es[k]) by { assert shots[n - 1] == p; }
        } else {
          assert !Struck(shots, es[k]) by {
            forall i | 0 <= i < n - 1 ensures shots[i] == front[i] { }
          }
        }
      }
    }
  }

  /** The pass in closed form for the pool: a shot ends spent exactly when it was active and
      destroyed at least one enemy of the squad as the shots before it left it, and is otherwise
      unchanged. */
  lemma {:induction false} KillPassShots(shots: seq<Projectile>, es: seq<Enemy>, k: int)
    requires 0 <= k < |shots|
    ensures KillPass(shots, es).shots[k] ==
      if shots[k].active && KillCount(shots[k], KillPass(shots[..k], es).enemies) > 0
      then shots[k].(active := false) else shots[k]
  {
    var n := |shots|;
    if k < n - 1 {
      KillPassShots(shots[..n - 1], es, k);
      assert shots[..n - 1][..k] == shots[..k];
      assert KillPass(shots, es).shots[..n - 1] == KillPass(shots[..n - 1], es).shots;
    } else {
      assert shots[..k] == shots[..n - 1];
    }
  }

  /** One projectile overlapping two live enemies destroys both in the same pass. */
  lemma OneShotCanKillTwice()
    ensures KillPass([Projectile(5, 5, true)], [Enemy(4, 5, true, 1), Enemy(5, 5, true, 1)]).kills == 2
  {
    var p := Projectile(5, 5, true);
    var es := [Enemy(4, 5, true, 1), Enemy(5, 5, true, 1)];
    assert [p][..0] == [];
    assert es[..1][..0] == [];
    assert es[..1] == [es[0]];
    assert KillCount(p, es) == 2;
  }

  // ---------------------------------------------------------------------------------------
  // Projectiles against shield blocks (the same pass runs for both pools)

  /** A projectile inside the enlarged hit-box of an undestroyed block. */
  predicate HitsBlock(p: Projectile, b: ShieldBlock)
  {
    b.health > 0 && RectCollision(p.x, p.y, 1, 1, b.x, b.y, SHIELD_HIT_WIDTH, SHIELD_HIT_HEIGHT)
  }

  /** One shield after one projectile's scan of its first `blockCount` slots: each block hit
      loses one point of health. */
  function Chipped(p: Projectile, sh: Shield): (r: Shield)
    ensures |r.blocks| == |sh.blocks| && r.blockCount == sh.blockCount
  {
    Shield(seq(|sh.blocks|, k requires 0 <= k < |sh.blocks| =>
             if k < sh.blockCount && HitsBlock(p, sh.blocks[k])
             then sh.blocks[k].(health := sh.blocks[k].health - 1) else sh.blocks[k]),
           sh.blockCount)
  }

  predicate StrikesShield(p: Projectile, sh: Shield)
  {
    exists k :: 0 <= k < sh.blockCount && k < |sh.blocks| && HitsBlock(p, sh.blocks[k])
  }

  function ChippedAll(p: Projectile, shs: seq<Shield>): (r: seq<Shield>)
    ensures |r| == |shs|
  {
    seq(|shs|, s requires 0 <= s < |shs| => Chipped(p, shs[s]))
  }

  predicate StrikesAny(p: Projectile, shs: seq<Shield>)
  {
    exists s :: 0 <= s < |shs| && StrikesShield(p, shs[s])
  }

  datatype ShieldOutcome = ShieldOutcome(pool: seq<Projectile>, shields: seq<Shield>)

  /** The whole pass for one pool: each active projectile in pool order scans every shield as the
      earlier ones left it, and is deactivated when it hit any block. */
  function ShieldPass(pool: seq<Projectile>, shs: seq<Shield>): (o: ShieldOutcome)
    ensures |o.pool| == |pool| && |o.shields| == |shs|
  {
    if |pool| == 0 then ShieldOutcome([], shs)
    else
      var o := ShieldPass(pool[..|pool| - 1], shs);
      var p := pool[|pool| - 1];
      if !p.active then ShieldOutcome(o.pool + [p], o.shields)
      else ShieldOutcome(o.pool + [p.(active := !StrikesAny(p, o.shields))], ChippedAll(p, o.shields))
  }

  /** A block loses at most one point per projectile and only while its health is positive, so
      block health stays in range and never-built slots stay destroyed; no projectile moves. */
  lemma {:induction false} ShieldPassSound(pool: seq<Projectile>, shs: seq<Shield>)
    requires ShieldsSound(shs)
    ensures ShieldsSound(ShieldPass(pool, shs).shields)
    ensures forall s :: 0 <= s < |shs| ==>
      ShieldPass(pool, shs).shields[s].blockCount == shs[s].blockCount
    ensures forall k :: 0 <= k < |pool| ==>
      ShieldPass(pool, shs).pool[k] == pool[k] ||
      (pool[k].active && ShieldPass(pool, shs).pool[k] == pool[k].(active := false))
  {
    if |pool| > 0 {
      var n := |pool|;
      var o := ShieldPass(pool[..n - 1], shs);
      ShieldPassSound(pool[..n - 1], shs);
      var p := pool[n - 1];
      if p.active {
        ChippedAllSound(p, o.shields);
      }
    }
  }

  /** The pass in closed form for the pool: a projectile ends spent exactly when it was active
      and struck a live block of the shields as the projectiles before it left them, and is
      otherwise unchanged. */
  lemma {:induction false} ShieldPassShots(pool: seq<Projectile>, shs: seq<Shield>, k: int)
    requires 0 <= k < |pool|
    ensures ShieldPass(pool, shs).pool[k] ==
      if pool[k].active && StrikesAny(pool[k], ShieldPass(pool[..k], shs).shields)
      then pool[k].(active := false) else pool[k]
  {
    var n := |pool|;
    if k < n - 1 {
      ShieldPassShots(pool[..n - 1], shs, k);
      assert pool[..n - 1][..k] == pool[..k];
    } else {
      assert pool[..k] == pool[..n - 1];
    }
  }

  lemma ChippedAllSound(p: Projectile, shs: seq<Shield>)
    requires ShieldsSound(shs)
    ensures ShieldsSound(ChippedAll(p, shs))
    ensures forall s :: 0 <= s < |shs| ==> ChippedAll(p, shs)[s].blockCount == shs[s].blockCount
  {
    var r := ChippedAll(p, shs);
    forall s, k | 0 <= s < |r| && 0 <= k < |r[s].blocks|
      ensures 0 <= r[s].blocks[k].health <= SHIELD_HEALTH
      ensures SHIELD_BUILT_BLOCKS <= k ==> r[s].blocks[k].health == 0
    {
      assert r[s] == Chipped(p, shs[s]);
    }
  }

  /** Only positive-health blocks take a hit, and a hit costs exactly one point: after one
      projectile every block is as it was or one point lower. */
  lemma ChippedBlocks(p: Projectile, sh: Shield)
    ensures forall k :: 0 <= k < |sh.blocks| ==>
      Chipped(p, sh).blocks[k] == sh.blocks[k] ||
      (sh.blocks[k].health > 0 && k < sh.blockCount &&
       Chipped(p, sh).blocks[k] == sh.blocks[k].(health := sh.blocks[k].health - 1))
    ensures forall k :: 0 <= k < |sh.blocks| ==>
      (Chipped(p, sh).blocks[k] != sh.blocks[k] <==> k < sh.blockCount && HitsBlock(p, sh.blocks[k]))
    ensures StrikesShield(p, sh) <==> Chipped(p, sh) != sh
  {
    var r := Chipped(p, sh);
    if StrikesShield(p, sh) {
      var k :| 0 <= k < sh.blockCount && k < |sh.blocks| && HitsBlock(p, sh.blocks[k]);
      assert r.blocks[k] != sh.blocks[k];
    } else {
      assert r.blocks == sh.blocks;
    }
  }

  // ---------------------------------------------------------------------------------------
  // Enemy projectiles against the player

  /** An enemy projectile (a 1x1 cell) overlapping the ship. */
  predicate HitsPlayer(p: Projectile, pl: Player)
  {
    RectCollision(p.x, p.y, 1, 1, pl.x, pl.y, PLAYER_WIDTH, PLAYER_HEIGHT)
  }

  datatype PlayerOutcome = PlayerOutcome(pool: seq<Projectile>, player: Player, gameOver: bool)

  /** The whole pass: each active enemy projectile overlapping the ship is deactivated and costs
      one life; the game ends as soon as lives reach 0 or below (lives are not clamped). */
  function PlayerPass(pool: seq<Projectile>, pl: Player, over: bool): (o: PlayerOutcome)
    ensures |o.pool| == |pool|
  {
    if |pool| == 0 then PlayerOutcome([], pl, over)
    else
      var o := PlayerPass(pool[..|pool| - 1], pl, over);
      var p := pool[|pool| - 1];
      if p.active && HitsPlayer(p, o.player) then
        var health := o.player.health - 1;
        PlayerOutcome(o.pool + [p.(active := false)], o.player.(health := health), o.gameOver || health <= 0)
      else PlayerOutcome(o.pool + [p], o.player, o.gameOver)
  }

  /** Number of active enemy projectiles overlapping the ship. */
  function PlayerHits(pool: seq<Projectile>, pl: Player): nat
  {
    if |pool| == 0 then 0
    else PlayerHits(pool[..|pool| - 1], pl) + (if pool[|pool| - 1].active && HitsPlayer(pool[|pool| - 1], pl) then 1 else 0)
  }

  /** The pass in closed form: lives drop by exactly the number of hits, every hitting projectile
      is deactivated and no other changes, and the game is over afterwards exactly when it was
      before or some hit landed and lives ended at 0 or below. */
  lemma {:induction false} PlayerPassClosedForm(pool: seq<Projectile>, pl: Player, over: bool)
    ensures PlayerPass(pool, pl, over).player == pl.(health := pl.health - PlayerHits(pool, pl))
    ensures PlayerPass(pool, pl, over).gameOver <==>
      over || (PlayerHits(pool, pl) > 0 && pl.health - PlayerHits(pool, pl) <= 0)
    ensures forall k :: 0 <= k < |pool| ==>
      PlayerPass(pool, pl, over).pool[k] ==
        if pool[k].active && HitsPlayer(pool[k], pl) then pool[k].(active := false) else pool[k]
  {
    if |pool| > 0 {
      PlayerPassClosedForm(pool[..|pool| - 1], pl, over);
    }
  }

  /** Lives are not clamped: two hits in one frame take a ship with one life to -1. */
  lemma LivesCanGoNegative()
    ensures PlayerPass([Projectile(40, 22, true), Projectile(41, 22, true)], Player(39, 22, 1, 0), false)
      == PlayerOutcome([Projectile(40, 22, false), Projectile(41, 22, false)], Player(39, 22, -1, 0), true)
  {
    var pool := [Projectile(40, 22, true), Projectile(41, 22, true)];
    assert pool[..1] == [pool[0]];
    assert pool[..1][..0] == [];
  }

  // ---------------------------------------------------------------------------------------
  // The four passes on the whole state

  function KillStep(g: Game): Game
  {
    var o := KillPass(g.projectiles, g.enemies);
    g.(projectiles := o.shots, enemies := o.enemies, aliveEnemyCount := g.aliveEnemyCount - o.kills,
       player := g.player.(score := g.player.score + POINTS_PER_ENEMY * o.kills))
  }

  function ShotShieldStep(g: Game): Game
  {
    var o := ShieldPass(g.projectiles, g.shields);
    g.(projectiles := o.pool, shields := o.shields)
  }

  function PlayerHitStep(g: Game): Game
  {
    var o := PlayerPass(g.enemyProjectiles, g.player, g.gameOver);
    g.(enemyProjectiles := o.pool, player := o.player, gameOver := o.gameOver)
  }

  function BombShieldStep(g: Game): Game
  {
    var o := ShieldPass(g.enemyProjectiles, g.shields);
    g.(enemyProjectiles := o.pool, shields := o.shields)
  }

  /** handle_collisions: the four passes in the engine's order. */
  function Collide(g: Game): Game
  {
    BombShieldStep(PlayerHitStep(ShotShieldStep(KillStep(g))))
  }

  /** Scoring: the pass adds exactly POINTS_PER_ENEMY per destroyed enemy, and the live count drops
      by the same number of kills. */
  lemma KillStepScores(g: Game)
    requires g.aliveEnemyCount == CountActive(g.enemies)
    ensures var kills := g.aliveEnemyCount - KillStep(g).aliveEnemyCount;
      kills >= 0 &&
      KillStep(g).player.score == g.player.score + POINTS_PER_ENEMY * kills &&
      KillStep(g).aliveEnemyCount == CountActive(KillStep(g).enemies)
  {
    KillPassAccounting(g.projectiles, g.enemies);
  }

  /** The collision passes keep the state invariant. */
  lemma CollideKeepsInv(g: Game)
    requires Inv(g)
    ensures Inv(Collide(g))
  {
    var g1 := KillStep(g);
    KillPassAccounting(g.projectiles, g.enemies);
    assert Inv(g1);
    var g2 := ShotShieldStep(g1);
    ShieldPassSound(g1.projectiles, g1.shields);
    assert Inv(g2);
    var g3 := PlayerHitStep(g2);
    PlayerPassClosedForm(g2.enemyProjectiles, g2.player, g2.gameOver);
    assert Inv(g3);
    ShieldPassSound(g3.enemyProjectiles, g3.shields);
  }

  /** Only the kill pass scores: the later passes leave the score, the level and the squad as the
      kill pass left them. */
  lemma CollideScores(g: Game)
    ensures Collide(g).player.score == KillStep(g).player.score
    ensures Collide(g).level == g.level
    ensures Collide(g).enemies == KillStep(g).enemies && Collide(g).aliveEnemyCount == KillStep(g).aliveEnemyCount
  {
    var g2 := ShotShieldStep(KillStep(g));
    PlayerPassClosedForm(g2.enemyProjectiles, g2.player, g2.gameOver);
  }

  /** The collision passes keep the invariant, add POINTS_PER_ENEMY per destroyed enemy to the
      score and leave the level alone. */
  lemma CollideProgress(g: Game)
    requires Inv(g)
    ensures Inv(Collide(g))
    ensures Collide(g).player.score == g.player.score + POINTS_PER_ENEMY * (g.aliveEnemyCount - Collide(g).aliveEnemyCount)
    ensures Collide(g).aliveEnemyCount <= g.aliveEnemyCount
    ensures Collide(g).level == g.level
  {
    CollideKeepsInv(g);
    KillStepScores(g);
    CollideScores(g);
  }
}
