/**
 * Simulation containers: the collision test of each shape and the boundary
 * condition applied to a point.  Only the periodic box has a boundary that
 * moves points (minimum-image folding with a round-half-away-from-zero
 * `anint`); the sphere, the clutch and the cylinder leave points alone.
 */
module Containers {
  import opened Particles

  /**
   * The four shapes with the fields their collision tests read.  A box keeps
   * len, len_half and len_inv side by side, as the source does.
   */
  datatype Container =
    | Cell(r2: real)
    | Box(len: real, lenHalf: real, lenInv: real)
    | Clutch(r2: real, zmin: real, zmax: real)
    | Cylinder(r2: real, len: real)

  /** A box whose derived fields agree with its side length: len_half == len/2 and len_inv == 1/len. */
  predicate ConsistentBox(c: Container)
  {
    c.Box? && c.len > 0.0 && c.lenHalf * 2.0 == c.len && c.lenInv * c.len == 1.0
  }

  function Abs(x: real): real
  {
    if x < 0.0 then -x else x
  }

  function SquaredNorm(p: Point): real
  {
    p.x * p.x + p.y * p.y + p.z * p.z
  }

  /** collision(p) of each shape. */
  predicate Collision(c: Container, p: Point): (r: bool)
    ensures p == Point(0.0, 0.0, 0.0) && c.Cell? && c.r2 >= 0.0 ==> !r
    ensures p == Point(0.0, 0.0, 0.0) && c.Box? && c.lenHalf >= 0.0 ==> !r
    ensures p == Point(0.0, 0.0, 0.0) && c.Cylinder? && c.r2 >= 0.0 && c.len >= 0.0 ==> !r
    ensures c.Clutch? && c.zmin < p.z < c.zmax ==> r
    ensures c.Clutch? && c.r2 < SquaredNorm(p) ==> r
  {
    match c
    case Cell(r2) => SquaredNorm(p) > r2
    case Box(_, h, _) => Abs(p.x) > h || Abs(p.y) > h || Abs(p.z) > h
    case Clutch(r2, zmin, zmax) => (p.z < zmax && p.z > zmin) || SquaredNorm(p) > r2
    case Cylinder(r2, len) => p.x * p.x + p.y * p.y > r2 || p.z < 0.0 || p.z > len
  }

  // ---------------------------------------------------------------------
  // Rounding

  /** C's conversion of a double to int: truncation toward zero. */
  function Trunc(x: real): int
  {
    if x >= 0.0 then x.Floor else -((-x).Floor)
  }

  /** box::anint: truncate x + 0.5 when x > 0 and x - 0.5 otherwise. */
  function Anint(x: real): (n: int)
    ensures x > 0.0 ==> n >= 0
    ensures x <= 0.0 ==> n <= 0
    ensures -0.5 < x < 0.5 ==> n == 0
  {
    if x > 0.0 then Trunc(x + 0.5) else Trunc(x - 0.5)
  }

  /** anint is odd: ties are rounded away from zero on both sides. */
  lemma {:induction false} AnintOdd(x: real)
    ensures Anint(-x) == -Anint(x)
  {
    if x > 0.0 {
      assert Anint(-x) == -((x + 0.5).Floor);
    } else if x < 0.0 {
      assert Anint(x) == -((-x + 0.5).Floor);
    }
  }

  /**
   * anint(x) is a nearest integer: it is off by at most 1/2, by exactly 1/2 only
   * at a tie, and the tie goes away from zero.
   */
  lemma {:induction false} AnintNearest(x: real)
    ensures -0.5 <= x - Anint(x) as real <= 0.5
    ensures x > 0.0 ==> x - Anint(x) as real < 0.5
    ensures x <= 0.0 ==> x - Anint(x) as real > -0.5
  {
    if x > 0.0 {
      var n := (x + 0.5).Floor;
      assert Anint(x) == n;
      assert n as real <= x + 0.5 < n as real + 1.0;
    } else {
      var m := (-x + 0.5).Floor;
      assert Anint(x) == -m;
      assert m as real <= -x + 0.5 < m as real + 1.0;
    }
  }

  lemma {:induction false} AnintSmall(x: real)
    requires -0.5 < x < 0.5
    ensures Anint(x) == 0
  {
    AnintNearest(x);
    var n := Anint(x);
    assert -1.0 < n as real < 1.0;
  }

  // ---------------------------------------------------------------------
  // The periodic box

  /** One coordinate after box::boundary: x - len * anint(x * len_inv). */
  function Fold(c: Container, x: real): (y: real)
    requires c.Box?
    ensures -0.5 < x * c.lenInv < 0.5 ==> y == x
  {
    x - c.len * Anint(x * c.lenInv) as real
  }

  /** Where boundary(p) leaves a point: the box folds each axis on its own, the other shapes do nothing. */
  function BoundaryImage(c: Container, p: Point): (q: Point)
    ensures !c.Box? ==> q == p
    ensures c.Box? && -0.5 < p.x * c.lenInv < 0.5 && -0.5 < p.y * c.lenInv < 0.5 && -0.5 < p.z * c.lenInv < 0.5 ==> q == p
  {
    if c.Box? then Point(Fold(c, p.x), Fold(c, p.y), Fold(c, p.z)) else p
  }

  lemma {:induction false} ScaledHalf(len: real, t: real)
    requires len > 0.0 && -0.5 <= t <= 0.5
    ensures -len / 2.0 <= len * t <= len / 2.0
  {
    if t >= 0.0 {
      assert len * t <= len * 0.5;
    } else {
      assert len * t >= len * -0.5;
    }
  }

  lemma {:induction false} HalfScaled(t: real, len: real)
    requires len > 0.0
    ensures t >= 0.5 ==> t * len >= len / 2.0
    ensures t <= -0.5 ==> t * len <= -len / 2.0
  {
    assert t * len - len / 2.0 == (t - 0.5) * len;
    assert t * len + len / 2.0 == (t + 0.5) * len;
  }

  lemma {:induction false} ScaledBack(c: Container, x: real)
    requires ConsistentBox(c)
    ensures x * c.lenInv * c.len == x
    ensures Fold(c, x) == c.len * (x * c.lenInv - Anint(x * c.lenInv) as real)
  {
    var y := x * c.lenInv;
    var n := Anint(y) as real;
    assert c.lenInv * c.len == 1.0;
    assert y * c.len == x * (c.lenInv * c.len);
    assert c.len * (y - n) == y * c.len - c.len * n;
  }

  /**
   * box::boundary moves a coordinate by a whole number of box lengths into
   * [-len/2, len/2]; so the folded coordinate never collides with the walls.
   */
  lemma {:induction false} FoldIntoBox(c: Container, x: real) returns (k: int)
    requires ConsistentBox(c)
    ensures Fold(c, x) == x - k as real * c.len
    ensures -c.lenHalf <= Fold(c, x) <= c.lenHalf
  {
    var y := x * c.lenInv;
    k := Anint(y);
    AnintNearest(y);
    ScaledBack(c, x);
    ScaledHalf(c.len, y - k as real);
  }

  /** A coordinate strictly inside the box is left unchanged. */
  lemma {:induction false} FoldKeepsInterior(c: Container, x: real)
    requires ConsistentBox(c) && Abs(x) < c.lenHalf
    ensures Fold(c, x) == x
  {
    InteriorScaled(c, x);
    AnintSmall(x * c.lenInv);
  }

  lemma {:induction false} InteriorScaled(c: Container, x: real)
    requires ConsistentBox(c) && Abs(x) < c.lenHalf
    ensures -0.5 < x * c.lenInv < 0.5
  {
    var t := x * c.lenInv;
    ScaledBack(c, x);
    HalfScaled(t, c.len);
    assert x == t * c.len;
  }

  /** The two faces of an axis swap places: folding is not idempotent there. */
  lemma {:induction false} FoldSwapsFaces(c: Container)
    requires ConsistentBox(c)
    ensures Fold(c, -c.lenHalf) == c.lenHalf
    ensures Fold(c, c.lenHalf) == -c.lenHalf
  {
    assert c.lenHalf * c.lenInv == 0.5;
    assert -c.lenHalf * c.lenInv == -0.5;
    assert Anint(0.5) == 1;
    assert Anint(-0.5) == -1;
  }

  /** Folding three times is folding once: every folded value is fixed or sits on a face. */
  lemma {:induction false} FoldThrice(c: Container, x: real)
    requires ConsistentBox(c)
    ensures Fold(c, Fold(c, Fold(c, x))) == Fold(c, x)
  {
    var y := Fold(c, x);
    var k := FoldIntoBox(c, x);
    FoldSwapsFaces(c);
    if Abs(y) < c.lenHalf {
      FoldKeepsInterior(c, y);
    }
  }

  /** After boundary(p) in a consistent box, p is inside the box. */
  lemma {:induction false} BoundaryImageInside(c: Container, p: Point)
    requires ConsistentBox(c)
    ensures !Collision(c, BoundaryImage(c, p))
  {
    var kx := FoldIntoBox(c, p.x);
    var ky := FoldIntoBox(c, p.y);
    var kz := FoldIntoBox(c, p.z);
  }

  /** A point inside a consistent box is a fixed point of boundary(p). */
  lemma {:induction false} BoundaryImageKeepsInterior(c: Container, p: Point)
    requires ConsistentBox(c) && Abs(p.x) < c.lenHalf && Abs(p.y) < c.lenHalf && Abs(p.z) < c.lenHalf
    ensures BoundaryImage(c, p) == p
  {
    FoldKeepsInterior(c, p.x);
    FoldKeepsInterior(c, p.y);
    FoldKeepsInterior(c, p.z);
  }

  // ---------------------------------------------------------------------
  // Collision properties

  /** On the wall is not a collision: every test is strict. */
  lemma {:induction false} WallsDoNotCollide(c: Container, p: Point)
    ensures c.Cell? && SquaredNorm(p) == c.r2 ==> !Collision(c, p)
    ensures c.Box? && Abs(p.x) == c.lenHalf && Abs(p.y) <= c.lenHalf && Abs(p.z) <= c.lenHalf ==> !Collision(c, p)
    ensures c.Cylinder? && p.x == 0.0 && p.y == 0.0 && 0.0 <= c.r2 && (p.z == 0.0 || p.z == c.len) && 0.0 <= c.len
            ==> !Collision(c, p)
  {
  }

  /** Collision in the sphere and the box does not depend on the sign of the coordinates. */
  lemma {:induction false} CollisionReflection(c: Container, p: Point)
    requires c.Cell? || c.Box?
    ensures Collision(c, Point(-p.x, -p.y, -p.z)) == Collision(c, p)
  {
    var q := Point(-p.x, -p.y, -p.z);
    assert q.x * q.x == p.x * p.x && q.y * q.y == p.y * p.y && q.z * q.z == p.z * p.z;
  }

  /** The clutch is the sphere with a disc removed: whatever hits the sphere hits the clutch. */
  lemma {:induction false} ClutchWithinCell(r2: real, zmin: real, zmax: real, p: Point)
    ensures Collision(Cell(r2), p) ==> Collision(Clutch(r2, zmin, zmax), p)
    ensures !(zmin < p.z < zmax) ==> (Collision(Clutch(r2, zmin, zmax), p) <==> Collision(Cell(r2), p))
  {
  }

  /** A clutch whose disc spans z == 0 makes the centre inaccessible. */
  lemma {:induction false} ClutchCentreCollides(r2: real, zmin: real, zmax: real)
    requires zmin < 0.0 < zmax
    ensures Collision(Clutch(r2, zmin, zmax), Point(0.0, 0.0, 0.0))
  {
  }

  // ---------------------------------------------------------------------
  // boundary(p) on a point updated in place

  /** A point whose coordinates are overwritten in place. */
  class Position {
    var x: real
    var y: real
    var z: real

    constructor (p: Point)
      ensures Value() == p
    {
      x, y, z := p.x, p.y, p.z;
    }

    function Value(): Point
      reads this
    {
      Point(x, y, z)
    }
  }

  /** boundary(p): the box overwrites x, y, z with their folded values; the other shapes do nothing. */
  method Boundary(c: Container, q: Position)
    modifies q
    ensures q.Value() == BoundaryImage(c, old(q.Value()))
  {
    if c.Box? {
      q.x, q.y, q.z := Fold(c, q.x), Fold(c, q.y), Fold(c, q.z);
    }
  }
}
