/** The enemy squad's per-frame behaviour: speed tier, marching cadence, edge bounce with
    descent, and the fire control that picks one shooter by probing forward from a random slot. */
module Squad {
  import opened Config
  import opened Utils
  import opened Entities

  /** Speed tier from the number of live enemies: fewer survivors march faster. */
  function Tier(alive: int): (t: int)
    ensures ENEMY_BASE_SPEED <= t <= 3
    ensures t == 3 <==> alive <= 5
    ensures t == ENEMY_BASE_SPEED <==> alive > ENEMY_SPEED_INCREASE_THRESHOLD
  {
    var speed := if alive <= ENEMY_SPEED_INCREASE_THRESHOLD then 2 else ENEMY_BASE_SPEED;
    if alive <= 5 then 3 else speed
  }

  /** The tier never drops as the squad shrinks. */
  lemma TierMonotone(fewer: int, more: int)
    requires fewer <= more
    ensures Tier(fewer) >= Tier(more)
  {
  }

  /** Frames between two horizontal steps. */
  function Cadence(alive: int): int
  {
    CADENCE_BASE - Tier(alive)
  }

  /** Every active enemy shifted horizontally by `dir`. */
  function Shifted(es: seq<Enemy>, dir: int): (r: seq<Enemy>)
    ensures |r| == |es|
  {
    seq(|es|, k requires 0 <= k < |es| => if es[k].active then es[k].(x := es[k].x + dir) else es[k])
  }

  /** Every active enemy moved one row down. */
  function Lowered(es: seq<Enemy>): (r: seq<Enemy>)
    ensures |r| == |es|
  {
    seq(|es|, k requires 0 <= k < |es| => if es[k].active then es[k].(y := es[k].y + ENEMY_MOVE_DOWN) else es[k])
  }

  /** An active enemy touching the left edge or reaching the right edge. */
  predicate AtEdge(e: Enemy)
  {
    e.active && (e.x <= 0 || e.x + ENEMY_WIDTH >= BOARD_WIDTH)
  }

  /** An active enemy on the player's line or below it. */
  predicate AtBottom(e: Enemy)
  {
    e.active && e.y >= BOARD_HEIGHT - 2
  }

  predicate AnyAtEdge(es: seq<Enemy>)
  {
    exists k :: 0 <= k < |es| && AtEdge(es[k])
  }

  predicate AnyAtBottom(es: seq<Enemy>)
  {
    exists k :: 0 <= k < |es| && AtBottom(es[k])
  }

  /** The marching half of the squad update: count up the cadence; on a step shift the squad,
      and when it meets an edge turn it around and lower it one row, which ends the game once an
      enemy reaches the player's line. */
  function SquadMarch(g: Game): Game
  {
    var counter := g.enemyMoveCounter + 1;
    if counter < Cadence(g.aliveEnemyCount) then g.(enemyMoveCounter := counter)
    else SquadStep(g.(enemyMoveCounter := 0))
  }

  /** One step of the squad: shift it, and when it meets an edge turn it around and lower it one
      row, which ends the game once an enemy reaches the player's line. */
  function SquadStep(g: Game): Game
  {
    var shifted := Shifted(g.enemies, g.enemyDirection);
    if !AnyAtEdge(shifted) then g.(enemies := shifted)
    else
      var lowered := Lowered(shifted);
      g.(enemies := lowered, enemyDirection := -g.enemyDirection, gameOver := g.gameOver || AnyAtBottom(lowered))
  }

  /** The cadence counter stays below the current cadence, and a step happens exactly when the
      counter reaches it; between steps nothing but the counter changes. */
  lemma SquadMarchCadence(g: Game)
    requires g.enemyMoveCounter >= 0
    ensures 0 <= SquadMarch(g).enemyMoveCounter < Cadence(g.aliveEnemyCount)
    ensures g.enemyMoveCounter + 1 < Cadence(g.aliveEnemyCount) ==>
      SquadMarch(g) == g.(enemyMoveCounter := g.enemyMoveCounter + 1)
    ensures g.enemyMoveCounter + 1 >= Cadence(g.aliveEnemyCount) ==> SquadMarch(g).enemyMoveCounter == 0
  {
  }

  /** On a step every active enemy moves by the direction, plus one row down when some enemy met
      an edge; inactive slots do not move and no slot changes its active flag. */
  lemma SquadMarchStep(g: Game)
    requires g.enemyMoveCounter + 1 >= Cadence(g.aliveEnemyCount)
    ensures |SquadMarch(g).enemies| == |g.enemies|
    ensures forall k :: 0 <= k < |g.enemies| ==>
      var e, e' := g.enemies[k], SquadMarch(g).enemies[k];
      e'.active == e.active && e'.health == e.health &&
      e'.x == (if e.active then e.x + g.enemyDirection else e.x) &&
      e'.y == (if e.active && AnyAtEdge(Shifted(g.enemies, g.enemyDirection)) then e.y + ENEMY_MOVE_DOWN else e.y)
    ensures SquadMarch(g).enemyDirection ==
      (if AnyAtEdge(Shifted(g.enemies, g.enemyDirection)) then -g.enemyDirection else g.enemyDirection)
    ensures SquadMarch(g).gameOver <==>
      g.gameOver || (AnyAtEdge(Shifted(g.enemies, g.enemyDirection)) && AnyAtBottom(SquadMarch(g).enemies))
  {
    var shifted := Shifted(g.enemies, g.enemyDirection);
    if AnyAtEdge(shifted) {
      assert SquadMarch(g).enemies == Lowered(shifted);
    }
  }

  /** Marching moves enemies but never changes how many are alive. */
  lemma SquadMarchKeepsSquad(g: Game)
    ensures |SquadMarch(g).enemies| == |g.enemies|
    ensures CountActive(SquadMarch(g).enemies) == CountActive(g.enemies)
    ensures SquadMarch(g).aliveEnemyCount == g.aliveEnemyCount
  {
    var shifted := Shifted(g.enemies, g.enemyDirection);
    CountActiveSameFlags(g.enemies, shifted);
    CountActiveSameFlags(shifted, Lowered(shifted));
  }

  /** Slot probed on the k-th attempt when probing starts after slot `idx` of an n-slot squad. */
  function ProbeSlot(n: int, idx: int, k: int): int
    requires n > 0
  {
    (idx + k) % n
  }

  /** The probe of the fire control: step to the next slot (wrapping), at most `attempts` times,
      and stop at the first active enemy. */
  function Probe(es: seq<Enemy>, idx: int, attempts: nat): (r: Option<nat>)
    requires |es| > 0 && idx >= 0
    ensures r.Some? ==> r.value < |es| && es[r.value].active
    decreases attempts
  {
    if attempts == 0 then None
    else
      var next := (idx + 1) % |es|;
      if es[next].active then Some(next) else Probe(es, next, attempts - 1)
  }

  lemma {:induction false} MulAtLeast(d: int, n: int)
    requires d >= 1 && n > 0
    ensures d * n >= n
  {
    if d > 1 {
      MulAtLeast(d - 1, n);
      assert d * n == (d - 1) * n + n;
    }
  }

  /** Euclidean remainder is determined by any decomposition x = q * n + r with 0 <= r < n. */
  lemma ModUnique(x: int, q: int, r: int, n: int)
    requires n > 0 && 0 <= r < n && x == q * n + r
    ensures x % n == r
  {
    var q0, r0 := x / n, x % n;
    assert x == q0 * n + r0;
    assert (q - q0) * n == r0 - r;
    if q > q0 {
      MulAtLeast(q - q0, n);
    } else if q < q0 {
      assert (q0 - q) * n == r - r0;
      MulAtLeast(q0 - q, n);
    }
  }

  lemma ModSucc(m: int, n: int)
    requires m >= 0 && n > 0
    ensures ((m % n) + 1) % n == (m + 1) % n
  {
    var q, r := m / n, m % n;
    assert m == q * n + r;
    if r + 1 < n {
      ModUnique(m + 1, q, r + 1, n);
      ModUnique(r + 1, 0, r + 1, n);
    } else {
      assert m + 1 == (q + 1) * n + 0 by {
        assert (q + 1) * n == q * n + n;
      }
      ModUnique(m + 1, q + 1, 0, n);
      ModUnique(n, 1, 0, n);
    }
  }

  /** Reducing the start first does not change the probed slot. */
  lemma {:induction false} ModAddShift(a: int, k: nat, n: int)
    requires a >= 0 && n > 0
    ensures (a % n + k) % n == (a + k) % n
  {
    if k == 0 {
      ModUnique(a % n, 0, a % n, n);
    } else {
      ModAddShift(a, k - 1, n);
      ModSucc(a % n + k - 1, n);
      ModSucc(a + k - 1, n);
    }
  }

  /** The probe fails exactly when none of the `attempts` slots after `idx` holds an active
      enemy, and otherwise returns the first of them that does. */
  lemma {:induction false} ProbeFindsFirstActive(es: seq<Enemy>, idx: int, attempts: nat)
    requires |es| > 0 && idx >= 0
    ensures Probe(es, idx, attempts).None? <==>
      forall k :: 1 <= k <= attempts ==> !es[ProbeSlot(|es|, idx, k)].active
    ensures Probe(es, idx, attempts).Some? ==>
      exists k :: 1 <= k <= attempts && Probe(es, idx, attempts).value == ProbeSlot(|es|, idx, k) &&
        forall i :: 1 <= i < k ==> !es[ProbeSlot(|es|, idx, i)].active
    decreases attempts
  {
    if attempts > 0 {
      var n := |es|;
      var next := (idx + 1) % n;
      assert next == ProbeSlot(n, idx, 1);
      if !es[next].active {
        ProbeFindsFirstActive(es, next, attempts - 1);
        forall k | 0 <= k
          ensures ProbeSlot(n, next, k) == ProbeSlot(n, idx, k + 1)
        {
          ModAddShift(idx + 1, k, n);
        }
        if Probe(es, idx, attempts).Some? {
          var k :| 1 <= k <= attempts - 1 && Probe(es, next, attempts - 1).value == ProbeSlot(n, next, k) &&
            forall i :: 1 <= i < k ==> !es[ProbeSlot(n, next, i)].active;
          assert Probe(es, idx, attempts).value == ProbeSlot(n, idx, k + 1);
          forall i | 1 <= i < k + 1
            ensures !es[ProbeSlot(n, idx, i)].active
          {
            if i > 1 {
              assert ProbeSlot(n, idx, i) == ProbeSlot(n, next, i - 1);
            }
          }
        } else {
          forall k | 1 <= k <= attempts
            ensures !es[ProbeSlot(n, idx, k)].active
          {
            if k > 1 {
              assert ProbeSlot(n, idx, k) == ProbeSlot(n, next, k - 1);
            }
          }
        }
      }
    }
  }

  /** The projectile an enemy fires: from the middle of its body, one row below it. */
  function Muzzle(e: Enemy): Projectile
  {
    Projectile(e.x + ENEMY_WIDTH / 2, e.y + 1, true)
  }

  /** The enemy pool after the probe from `start`: the first live enemy found fires, if the pool
      has room. */
  function Volley(es: seq<Enemy>, start: int, pool: seq<Projectile>): seq<Projectile>
    requires |es| > 0 && start >= 0
  {
    match Probe(es, start, FIRE_PROBES)
    case None => pool
    case Some(j) => if |pool| < MAX_ENEMY_PROJECTILES then pool + [Muzzle(es[j])] else pool
  }

  /** The fire-control half of the squad update: count up the fire timer; when it reaches the
      fire rate reset it and, if an enemy is alive, probe for a shooter starting after a random
      slot, adding its shot to the enemy pool when the pool has room. */
  function SquadFire(g: Game, roll: nat): Game
    requires g.aliveEnemyCount > 0 ==> |g.enemies| > 0
  {
    var timer := g.enemyFireTimer + 1;
    if timer < ENEMY_FIRE_RATE then g.(enemyFireTimer := timer)
    else if g.aliveEnemyCount <= 0 then g.(enemyFireTimer := 0)
    else
      var start := RandomInt(0, |g.enemies| - 1, roll);
      g.(enemyFireTimer := 0, enemyProjectiles := Volley(g.enemies, start, g.enemyProjectiles))
  }

  /** The fire timer stays below the fire rate, only the timer and the enemy pool change, and the
      pool gains at most one shot, fired by an active enemy, only when the timer fired and the
      pool had room. */
  lemma SquadFireBounds(g: Game, roll: nat)
    requires g.aliveEnemyCount > 0 ==> |g.enemies| > 0
    requires g.enemyFireTimer >= 0
    ensures 0 <= SquadFire(g, roll).enemyFireTimer < ENEMY_FIRE_RATE
    ensures SquadFire(g, roll) ==
      g.(enemyFireTimer := SquadFire(g, roll).enemyFireTimer,
         enemyProjectiles := SquadFire(g, roll).enemyProjectiles)
    ensures SquadFire(g, roll).enemyProjectiles == g.enemyProjectiles ||
      (g.enemyFireTimer + 1 >= ENEMY_FIRE_RATE && |g.enemyProjectiles| < MAX_ENEMY_PROJECTILES &&
       exists j :: 0 <= j < |g.enemies| && g.enemies[j].active &&
         SquadFire(g, roll).enemyProjectiles == g.enemyProjectiles + [Muzzle(g.enemies[j])])
  {
  }

  /** When the timer fires with room in the pool, a shot is added exactly when one of the five
      slots after the random start holds an active enemy. */
  lemma SquadFireShoots(g: Game, roll: nat)
    requires g.aliveEnemyCount > 0 && |g.enemies| > 0
    requires g.enemyFireTimer + 1 >= ENEMY_FIRE_RATE
    requires |g.enemyProjectiles| < MAX_ENEMY_PROJECTILES
    ensures var start := roll % |g.enemies|;
      |SquadFire(g, roll).enemyProjectiles| == |g.enemyProjectiles| + 1 <==>
        exists k :: 1 <= k <= FIRE_PROBES && g.enemies[ProbeSlot(|g.enemies|, start, k)].active
  {
    var start := RandomInt(0, |g.enemies| - 1, roll);
    assert start == roll % |g.enemies|;
    ProbeFindsFirstActive(g.enemies, start, FIRE_PROBES);
  }

  /** One frame of update_enemies: march, then fire. */
  function SquadTurn(g: Game, roll: nat): Game
    requires g.aliveEnemyCount > 0 ==> |g.enemies| > 0
  {
    SquadMarchKeepsSquad(g);
    SquadFire(SquadMarch(g), roll)
  }
}
