/**
 * The hydrophobic wall: an external potential acting on hydrophobic
 * particles near a planar surface, either as a square well ("sqwl") or as
 * a 12-6 Lennard-Jones wall ("lj"), and its linear-slope variant.
 *
 * The surface is placed by setSurfPositionZ, which stores a function
 * reading the surface's z coordinate through a pointer each time the
 * potential is evaluated; here that current z value is a parameter of the
 * evaluation.  Energies are `real`: where the double arithmetic would
 * divide by zero, or the coordinate function call has no target, the model
 * returns an error instead.
 */
module ExternalPotential {
  import opened Outcomes
  import opened Particles

  /** Whether the coordinate function has been set (it starts as an empty function). */
  datatype Coordinate = Unset | SurfaceZ

  /** The wall's settings as read from the input, and its coordinate function. */
  datatype Wall = Wall(kind: string, depth: real, threshold: real, coordinate: Coordinate)

  /** The input defaults: a square well of depth 0 and threshold 0, with no surface set yet. */
  function NewWall(kind: Option<string>, depth: Option<real>, threshold: Option<real>): (w: Wall)
    ensures w.kind == (if kind.Some? then kind.value else "sqwl")
    ensures w.depth == (if depth.Some? then depth.value else 0.0)
    ensures w.threshold == (if threshold.Some? then threshold.value else 0.0)
    ensures w.coordinate == Unset
  {
    Wall(
      match kind case Some(k) => k case None => "sqwl",
      match depth case Some(d) => d case None => 0.0,
      match threshold case Some(t) => t case None => 0.0,
      Unset)
  }

  /** setSurfPositionZ: from now on the coordinate is the distance along z to the surface. */
  function SetSurfPositionZ(w: Wall): (r: Wall)
    ensures r.coordinate == SurfaceZ
    ensures r.kind == w.kind && r.depth == w.depth && r.threshold == w.threshold
  {
    w.(coordinate := SurfaceZ)
  }

  /** The particle-to-surface distance |z - p.z| for the surface's current z. */
  function SurfDistance(z: real, p: Point): (r: real)
    ensures r >= 0.0
    ensures r == z - p.z || r == p.z - z
    ensures r == 0.0 <==> p.z == z
  {
    if z - p.z < 0.0 then p.z - z else z - p.z
  }

  /** The distance does not depend on which side of the surface the particle is, nor on x and y. */
  lemma {:induction false} SurfDistanceMirror(z: real, p: Point, q: Point)
    requires q.z == 2.0 * z - p.z
    ensures SurfDistance(z, q) == SurfDistance(z, p)
    ensures SurfDistance(z, p.(x := q.x, y := q.y)) == SurfDistance(z, p)
  {
  }

  /** p2c: the coordinate function applied to a particle; calling the empty function is an error. */
  function P2c(w: Wall, z: real, p: Particle): (r: Result<real>)
    ensures r.Ok? <==> w.coordinate == SurfaceZ
    ensures r.Ok? ==> r.value == SurfDistance(z, p.pos)
  {
    match w.coordinate
    case Unset => Err("coordinate function not set")
    case SurfaceZ => Ok(SurfDistance(z, p.pos))
  }

  /** The Lennard-Jones wall shape s3*s3 - 2*s3 with s3 = (radius/d)^6, which is never below -1. */
  function LjShape(radius: real, d: real): (r: real)
    requires d != 0.0
  {
    var r2 := (radius * radius) / (d * d);
    var r6 := r2 * r2 * r2;
    r6 * r6 - 2.0 * r6
  }

  /** A non-zero product divided by itself is one. */
  lemma {:induction false} ProductOverItself(a: real, b: real)
    requires a != 0.0 && b != 0.0
    ensures (a * b) / (a * b) == 1.0
  {
  }

  /** The Lennard-Jones shape reaches its minimum -1 at contact, where d is the radius. */
  lemma {:induction false} LjShapeAtContact(radius: real)
    requires radius != 0.0
    ensures LjShape(radius, radius) == -1.0
  {
    ProductOverItself(radius, radius);
  }

  /** t * t - 2 * t is (t - 1)^2 - 1, which is never below -1. */
  lemma {:induction false} SquareShapeBounded(t: real)
    ensures t * t - 2.0 * t >= -1.0
  {
    assert t * t - 2.0 * t == (t - 1.0) * (t - 1.0) - 1.0;
  }

  /** The Lennard-Jones shape is at least -1 at every non-zero distance. */
  lemma {:induction false} LjShapeBounded(radius: real, d: real)
    requires d != 0.0
    ensures LjShape(radius, d) >= -1.0
  {
    var r2 := (radius * radius) / (d * d);
    SquareShapeBounded(r2 * r2 * r2);
  }

  /** The Lennard-Jones wall energy: depth times the shape. */
  function LjEnergy(depth: real, radius: real, d: real): real
    requires d != 0.0
  {
    depth * LjShape(radius, d)
  }

  /** A non-negative depth times a shape value of at least -1 is at least -depth. */
  lemma {:induction false} ScaledBound(depth: real, s: real)
    requires depth >= 0.0 && s >= -1.0
    ensures depth * s >= -depth
  {
    assert depth * (s + 1.0) >= 0.0;
  }

  /**
   * HydrophobicWall::operator(): nothing for a particle that is not
   * hydrophobic or a type other than "sqwl" and "lj"; the square well gives
   * -depth closer than the threshold and 0 beyond it; the Lennard-Jones wall
   * gives depth times the shape at the particle's distance.
   */
  function Energy(w: Wall, z: real, p: Particle): (r: Result<real>)
    ensures !p.hydrophobic ==> r == Ok(0.0)
    ensures w.kind != "sqwl" && w.kind != "lj" ==> r == Ok(0.0)
    ensures p.hydrophobic && (w.kind == "sqwl" || w.kind == "lj") ==> (r.Ok? ==> w.coordinate == SurfaceZ)
    ensures p.hydrophobic && w.kind == "sqwl" && w.coordinate == SurfaceZ ==>
      r == Ok(if SurfDistance(z, p.pos) < w.threshold then -w.depth else 0.0)
    ensures p.hydrophobic && w.kind == "lj" && w.coordinate == SurfaceZ ==>
      (r.Ok? <==> SurfDistance(z, p.pos) != 0.0)
  {
    if p.hydrophobic && (w.kind == "sqwl" || w.kind == "lj") then
      match P2c(w, z, p)
      case Err(e) => Err(e)
      case Ok(d) =>
        if w.kind == "sqwl" then
          Ok(if d < w.threshold then -w.depth else 0.0)
        else if d == 0.0 then Err("division by zero distance")
        else Ok(LjEnergy(w.depth, p.radius, d))
    else Ok(0.0)
  }

  /** A Lennard-Jones wall of non-negative depth never goes below -depth, and reaches it at contact. */
  lemma {:induction false} LjWallMinimum(w: Wall, z: real, p: Particle)
    requires w.kind == "lj" && w.coordinate == SurfaceZ && p.hydrophobic && w.depth >= 0.0
    requires SurfDistance(z, p.pos) != 0.0
    ensures Energy(w, z, p).Ok? && Energy(w, z, p).value >= -w.depth
    ensures SurfDistance(z, p.pos) == p.radius ==> Energy(w, z, p).value == -w.depth
  {
    var d := SurfDistance(z, p.pos);
    assert Energy(w, z, p) == Ok(LjEnergy(w.depth, p.radius, d));
    LjShapeBounded(p.radius, d);
    ScaledBound(w.depth, LjShape(p.radius, d));
    if d == p.radius {
      LjShapeAtContact(p.radius);
    }
  }

  /** A square well of non-negative depth only ever gives -depth or 0. */
  lemma {:induction false} SquareWellValues(w: Wall, z: real, p: Particle)
    requires w.kind == "sqwl" && w.coordinate == SurfaceZ
    ensures Energy(w, z, p) == Ok(-w.depth) || Energy(w, z, p) == Ok(0.0)
    ensures Energy(w, z, p) == Ok(-w.depth) <== p.hydrophobic && SurfDistance(z, p.pos) < w.threshold
  {
  }

  /** The linear slope at distance d inside the threshold. */
  function Slope(depth: real, threshold: real, d: real): real
    requires threshold > 0.0
  {
    -depth * (1.0 - d / threshold)
  }

  /**
   * HydrophobicWallLinear::operator(): for a hydrophobic particle closer
   * than the threshold, -depth * (1 - d / threshold), else 0.  The
   * distance must be positive (an assertion in the source, an error here).
   */
  function LinearEnergy(w: Wall, z: real, p: Particle): (r: Result<real>)
    ensures !p.hydrophobic ==> r == Ok(0.0)
    ensures p.hydrophobic && w.coordinate == SurfaceZ ==> (r.Ok? <==> SurfDistance(z, p.pos) > 0.0)
    ensures p.hydrophobic && w.coordinate == SurfaceZ && r.Ok? && SurfDistance(z, p.pos) >= w.threshold ==> r.value == 0.0
  {
    if p.hydrophobic then
      match P2c(w, z, p)
      case Err(e) => Err(e)
      case Ok(d) =>
        if !(d > 0.0) then Err("particle-surface distance must be positive")
        else if d < w.threshold then Ok(Slope(w.depth, w.threshold, d))
        else Ok(0.0)
    else Ok(0.0)
  }

  lemma {:induction false} PositiveFactor(a: real, b: real)
    requires b > 0.0 && a * b > 0.0
    ensures a > 0.0
  {
  }

  lemma {:induction false} QuotientInUnit(d: real, t: real)
    requires 0.0 < d < t
    ensures 0.0 < d / t < 1.0
  {
    var q := d / t;
    assert q * t == d;
    PositiveFactor(q, t);
    assert (1.0 - q) * t == t - d;
    PositiveFactor(1.0 - q, t);
  }

  lemma {:induction false} NegatedFraction(depth: real, u: real)
    requires depth > 0.0 && 0.0 < u < 1.0
    ensures -depth < -depth * u < 0.0
  {
    assert depth * u < depth * 1.0;
  }

  /** For a positive depth and 0 < d < threshold the linear wall lies strictly between -depth and 0. */
  lemma {:induction false} SlopeBounds(depth: real, threshold: real, d: real)
    requires depth > 0.0 && 0.0 < d < threshold
    ensures -depth < Slope(depth, threshold, d) < 0.0
  {
    QuotientInUnit(d, threshold);
    NegatedFraction(depth, 1.0 - d / threshold);
  }

  /** The linear wall rises with distance: strictly for a positive depth, weakly for depth 0. */
  lemma {:induction false} SlopeIncreasing(depth: real, threshold: real, d1: real, d2: real)
    requires depth >= 0.0 && threshold > 0.0 && d1 < d2
    ensures Slope(depth, threshold, d1) <= Slope(depth, threshold, d2)
    ensures depth > 0.0 ==> Slope(depth, threshold, d1) < Slope(depth, threshold, d2)
  {
    var q1 := d1 / threshold;
    var q2 := d2 / threshold;
    assert q1 * threshold == d1 && q2 * threshold == d2;
    assert q1 < q2;
    assert Slope(depth, threshold, d2) - Slope(depth, threshold, d1) == depth * (q2 - q1);
    assert depth * (q2 - q1) >= 0.0;
  }

  /** The linear wall's value inside the threshold is the slope, so it inherits the bounds and the rise. */
  lemma {:induction false} LinearWallIsSlope(w: Wall, z: real, p: Particle)
    requires p.hydrophobic && w.coordinate == SurfaceZ
    requires 0.0 < SurfDistance(z, p.pos) < w.threshold
    ensures LinearEnergy(w, z, p) == Ok(Slope(w.depth, w.threshold, SurfDistance(z, p.pos)))
    ensures w.depth > 0.0 ==> -w.depth < LinearEnergy(w, z, p).value < 0.0
  {
    var d := SurfDistance(z, p.pos);
    assert P2c(w, z, p) == Ok(d);
    assert d > 0.0 && d < w.threshold;
    assert LinearEnergy(w, z, p) == Ok(Slope(w.depth, w.threshold, d));
    if w.depth > 0.0 {
      SlopeBounds(w.depth, w.threshold, d);
    }
  }
}
