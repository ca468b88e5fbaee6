/** Integer helpers: rectangle overlap, clamping and a ranged pick from a rand() value. */
module Utils {

  /** True overlap of two axis-aligned rectangles given by corner, width and height;
      rectangles that only share an edge do not overlap. */
  predicate RectCollision(x1: int, y1: int, w1: int, h1: int, x2: int, y2: int, w2: int, h2: int)
  {
    x1 < x2 + w2 && x1 + w1 > x2 && y1 < y2 + h2 && y1 + h1 > y2
  }

  /** Swapping the two rectangles does not change the answer. */
  lemma RectCollisionSymmetric(x1: int, y1: int, w1: int, h1: int, x2: int, y2: int, w2: int, h2: int)
    ensures RectCollision(x1, y1, w1, h1, x2, y2, w2, h2) == RectCollision(x2, y2, w2, h2, x1, y1, w1, h1)
  {
  }

  /** Rectangles that only touch (the second starts in a column or row where the first ends) do
      not collide; with the symmetry above this covers all four sides. */
  lemma TouchingRectsDoNotCollide(x1: int, y1: int, w1: int, h1: int, x2: int, y2: int, w2: int, h2: int)
    ensures x2 == x1 + w1 ==> !RectCollision(x1, y1, w1, h1, x2, y2, w2, h2)
    ensures y2 == y1 + h1 ==> !RectCollision(x1, y1, w1, h1, x2, y2, w2, h2)
  {
  }

  /** A 1x1 cell collides with a non-empty rectangle exactly when it lies inside it. */
  lemma CellInRect(px: int, py: int, x: int, y: int, w: int, h: int)
    requires w > 0 && h > 0
    ensures RectCollision(px, py, 1, 1, x, y, w, h) <==> x <= px < x + w && y <= py < y + h
  {
  }

  /** Clamp `value` into [lo, hi]: below lo gives lo, above hi gives hi, otherwise value. */
  function Clamp(value: int, lo: int, hi: int): (r: int)
    ensures lo <= hi ==> lo <= r <= hi
    ensures lo <= value <= hi ==> r == value
    ensures r == value || r == lo || r == hi
  {
    if value < lo then lo
    else if value > hi then hi
    else value
  }

  /** Clamping is idempotent on a non-empty range. */
  lemma ClampIdempotent(value: int, lo: int, hi: int)
    requires lo <= hi
    ensures Clamp(Clamp(value, lo, hi), lo, hi) == Clamp(value, lo, hi)
  {
  }

  /** A pick in the closed range between `a` and `b` (in either order), drawn from the
      non-negative value `roll` that rand() returned. */
  function RandomInt(a: int, b: int, roll: nat): (r: int)
    ensures (if a <= b then a else b) <= r <= (if a <= b then b else a)
  {
    var lo := if a > b then b else a;
    var hi := if a > b then a else b;
    lo + roll % (hi - lo + 1)
  }

  /** Reversing the bounds gives the same pick. */
  lemma RandomIntSwapsBounds(a: int, b: int, roll: nat)
    ensures RandomInt(a, b, roll) == RandomInt(b, a, roll)
  {
  }
}
