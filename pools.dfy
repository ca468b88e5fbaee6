/** Projectile pools: the per-frame advance and the compaction that drops inactive entries. */
module Pools {
  import opened Config
  import opened Entities

  /** The stable filter that keeps the active projectiles of a pool in their order. */
  function Compact(ps: seq<Projectile>): (r: seq<Projectile>)
    ensures |r| <= |ps|
    ensures forall k :: 0 <= k < |r| ==> r[k].active
    ensures forall k :: 0 <= k < |r| ==> r[k] in ps
  {
    if |ps| == 0 then []
    else Compact(ps[..|ps| - 1]) + (if ps[|ps| - 1].active then [ps[|ps| - 1]] else [])
  }

  /** Number of active entries of a pool. */
  function LiveCount(ps: seq<Projectile>): nat
  {
    if |ps| == 0 then 0
    else LiveCount(ps[..|ps| - 1]) + (if ps[|ps| - 1].active then 1 else 0)
  }

  /** Compaction keeps exactly the active entries: one slot per active projectile. */
  lemma {:induction false} CompactSize(ps: seq<Projectile>)
    ensures |Compact(ps)| == LiveCount(ps)
  {
    if |ps| > 0 {
      CompactSize(ps[..|ps| - 1]);
    }
  }

  /** Compaction distributes over concatenation, so the relative order of survivors is kept. */
  lemma {:induction false} CompactAppend(a: seq<Projectile>, b: seq<Projectile>)
    ensures Compact(a + b) == Compact(a) + Compact(b)
  {
    if |b| == 0 {
      assert a + b == a;
    } else {
      var b' := b[..|b| - 1];
      assert (a + b)[..|a + b| - 1] == a + b';
      CompactAppend(a, b');
    }
  }

  /** A pool that is already all active is left as it is; in particular compaction is idempotent. */
  lemma {:induction false} CompactAllActive(ps: seq<Projectile>)
    requires forall k :: 0 <= k < |ps| ==> ps[k].active
    ensures Compact(ps) == ps
  {
    if |ps| > 0 {
      CompactAllActive(ps[..|ps| - 1]);
      assert ps[..|ps| - 1] + [ps[|ps| - 1]] == ps;
    }
  }

  lemma CompactIdempotent(ps: seq<Projectile>)
    ensures Compact(Compact(ps)) == Compact(ps)
  {
    CompactAllActive(Compact(ps));
  }

  /** One frame of a player shot: an active shot rises one row and is dropped once above the board. */
  function Rise(p: Projectile): Projectile
  {
    if !p.active then p
    else Projectile(p.x, p.y - 1, p.y - 1 >= 0)
  }

  /** One frame of an enemy shot: an active shot falls ENEMY_PROJECTILE_SPEED rows and is
      dropped once it leaves the bottom of the board. */
  function Fall(p: Projectile): Projectile
  {
    if !p.active then p
    else Projectile(p.x, p.y + ENEMY_PROJECTILE_SPEED, p.y + ENEMY_PROJECTILE_SPEED < BOARD_HEIGHT)
  }

  /** Every entry of a pool moved by `step`. */
  function Moved(ps: seq<Projectile>, step: Projectile -> Projectile): (r: seq<Projectile>)
    ensures |r| == |ps|
  {
    seq(|ps|, k requires 0 <= k < |ps| => step(ps[k]))
  }

  /** A pool after one frame: every entry moved, then compacted. */
  function Advance(ps: seq<Projectile>, step: Projectile -> Projectile): seq<Projectile>
  {
    Compact(Moved(ps, step))
  }

  /** Advancing a pool never grows it, and it treats the pool piece by piece, in order. */
  lemma AdvanceAppend(a: seq<Projectile>, b: seq<Projectile>, step: Projectile -> Projectile)
    ensures |Advance(a + b, step)| <= |a + b|
    ensures Advance(a + b, step) == Advance(a, step) + Advance(b, step)
  {
    assert Moved(a + b, step) == Moved(a, step) + Moved(b, step);
    CompactAppend(Moved(a, step), Moved(b, step));
  }

  /** What happens to a single player shot: it survives, one row higher, exactly when it was
      active and not on the top row. */
  lemma AdvanceOneShot(p: Projectile)
    ensures Advance([p], Rise) == if p.active && p.y >= 1 then [p.(y := p.y - 1)] else []
  {
    assert Moved([p], Rise) == [Rise(p)];
    assert Compact([Rise(p)]) == Compact([]) + (if Rise(p).active then [Rise(p)] else []);
  }

  /** What happens to a single enemy shot: it survives, ENEMY_PROJECTILE_SPEED rows lower,
      exactly when it was active and does not leave the board. */
  lemma AdvanceOneBomb(p: Projectile)
    ensures Advance([p], Fall) ==
      if p.active && p.y + ENEMY_PROJECTILE_SPEED < BOARD_HEIGHT
      then [p.(y := p.y + ENEMY_PROJECTILE_SPEED)] else []
  {
    assert Moved([p], Fall) == [Fall(p)];
    assert Compact([Fall(p)]) == Compact([]) + (if Fall(p).active then [Fall(p)] else []);
  }

  /** After the advance every player shot left in the pool is active and on the board. */
  lemma AdvanceShotsOnBoard(ps: seq<Projectile>)
    ensures forall k :: 0 <= k < |Advance(ps, Rise)| ==>
      Advance(ps, Rise)[k].active && Advance(ps, Rise)[k].y >= 0
  {
    var m := Moved(ps, Rise);
    forall k | 0 <= k < |Compact(m)|
      ensures Compact(m)[k].active && Compact(m)[k].y >= 0
    {
      var q := Compact(m)[k];
      assert q in m;
      var j :| 0 <= j < |m| && m[j] == q;
      assert m[j] == Rise(ps[j]);
    }
  }

  /** After the advance every enemy shot left in the pool is active and above the bottom edge. */
  lemma AdvanceBombsOnBoard(ps: seq<Projectile>)
    ensures forall k :: 0 <= k < |Advance(ps, Fall)| ==>
      Advance(ps, Fall)[k].active && Advance(ps, Fall)[k].y < BOARD_HEIGHT
  {
    var m := Moved(ps, Fall);
    forall k | 0 <= k < |Compact(m)|
      ensures Compact(m)[k].active && Compact(m)[k].y < BOARD_HEIGHT
    {
      var q := Compact(m)[k];
      assert q in m;
      var j :| 0 <= j < |m| && m[j] == q;
      assert m[j] == Fall(ps[j]);
    }
  }
}
