/**
 * Particle values shared by the interaction engine, the particle store and
 * the particle serialiser, together with the pair sums that every energy
 * routine of the engine is specified by.
 *
 * All sums are over sequences of particles and recurse on the first
 * element, so that concatenation lemmas give the decomposition of the
 * whole-system energy.  Loops use the "snoc" lemmas to extend a prefix.
 */
module Particles {

  /** A position in space. */
  datatype Point = Point(x: real, y: real, z: real)

  /** A particle: position, charge, species id, hydrophobic flag and radius. */
  datatype Particle = Particle(pos: Point, charge: real, id: int, hydrophobic: bool, radius: real)

  /** An abstract pair potential, returning a reduced (unscaled) energy. */
  type PairPot = (Particle, Particle) -> real

  /** Swapping the two particles does not change the pair energy. */
  ghost predicate Symmetric(pot: PairPot) {
    forall a: Particle, b: Particle :: pot(a, b) == pot(b, a)
  }

  /** Sum of pot(s[k], a) over the sequence: each element first, `a` second. */
  function SumTo(pot: PairPot, s: seq<Particle>, a: Particle): real
  {
    if s == [] then 0.0 else pot(s[0], a) + SumTo(pot, s[1..], a)
  }

  /** Sum of pot(a, s[k]) over the sequence: `a` first, each element second. */
  function SumFrom(pot: PairPot, a: Particle, s: seq<Particle>): real
  {
    if s == [] then 0.0 else pot(a, s[0]) + SumFrom(pot, a, s[1..])
  }

  /** Full cross product: every element x of s paired with every element of t, as pot(x, t[k]). */
  function Cross(pot: PairPot, s: seq<Particle>, t: seq<Particle>): real
  {
    if s == [] then 0.0 else SumFrom(pot, s[0], t) + Cross(pot, s[1..], t)
  }

  /** Every unordered pair i < j of the sequence once, as pot(s[i], s[j]). */
  function Tri(pot: PairPot, s: seq<Particle>): real
  {
    if s == [] then 0.0 else SumFrom(pot, s[0], s[1..]) + Tri(pot, s[1..])
  }

  /** Sum of the charges. */
  function ChargeSum(s: seq<Particle>): real
  {
    if s == [] then 0.0 else s[0].charge + ChargeSum(s[1..])
  }

  lemma {:induction false} SumToConcat(pot: PairPot, s: seq<Particle>, t: seq<Particle>, a: Particle)
    ensures SumTo(pot, s + t, a) == SumTo(pot, s, a) + SumTo(pot, t, a)
  {
    if s != [] {
      assert (s + t)[1..] == s[1..] + t;
      SumToConcat(pot, s[1..], t, a);
    } else {
      assert s + t == t;
    }
  }

  lemma {:induction false} SumFromConcat(pot: PairPot, a: Particle, s: seq<Particle>, t: seq<Particle>)
    ensures SumFrom(pot, a, s + t) == SumFrom(pot, a, s) + SumFrom(pot, a, t)
  {
    if s != [] {
      assert (s + t)[1..] == s[1..] + t;
      SumFromConcat(pot, a, s[1..], t);
    } else {
      assert s + t == t;
    }
  }

  lemma {:induction false} ChargeSumConcat(s: seq<Particle>, t: seq<Particle>)
    ensures ChargeSum(s + t) == ChargeSum(s) + ChargeSum(t)
  {
    if s != [] {
      assert (s + t)[1..] == s[1..] + t;
      ChargeSumConcat(s[1..], t);
    } else {
      assert s + t == t;
    }
  }

  /** Extending a prefix by one element, as a loop does. */
  lemma {:induction false} SumToSnoc(pot: PairPot, s: seq<Particle>, x: Particle, a: Particle)
    ensures SumTo(pot, s + [x], a) == SumTo(pot, s, a) + pot(x, a)
  {
    SumToConcat(pot, s, [x], a);
  }

  lemma {:induction false} SumFromSnoc(pot: PairPot, a: Particle, s: seq<Particle>, x: Particle)
    ensures SumFrom(pot, a, s + [x]) == SumFrom(pot, a, s) + pot(a, x)
  {
    SumFromConcat(pot, a, s, [x]);
  }

  lemma {:induction false} ChargeSumSnoc(s: seq<Particle>, x: Particle)
    ensures ChargeSum(s + [x]) == ChargeSum(s) + x.charge
  {
    ChargeSumConcat(s, [x]);
  }

  lemma {:induction false} CrossConcatLeft(pot: PairPot, s: seq<Particle>, u: seq<Particle>, t: seq<Particle>)
    ensures Cross(pot, s + u, t) == Cross(pot, s, t) + Cross(pot, u, t)
  {
    if s != [] {
      assert (s + u)[1..] == s[1..] + u;
      CrossConcatLeft(pot, s[1..], u, t);
    } else {
      assert s + u == u;
    }
  }

  lemma {:induction false} CrossConcatRight(pot: PairPot, s: seq<Particle>, t: seq<Particle>, u: seq<Particle>)
    ensures Cross(pot, s, t + u) == Cross(pot, s, t) + Cross(pot, s, u)
  {
    if s != [] {
      SumFromConcat(pot, s[0], t, u);
      CrossConcatRight(pot, s[1..], t, u);
    }
  }

  /** One more row of the cross product, as the outer loop of a group sum adds it. */
  lemma {:induction false} CrossSnoc(pot: PairPot, s: seq<Particle>, x: Particle, t: seq<Particle>)
    ensures Cross(pot, s + [x], t) == Cross(pot, s, t) + SumFrom(pot, x, t)
  {
    CrossConcatLeft(pot, s, [x], t);
    assert [x][1..] == [];
  }

  /** The column of a single particle: pairing the whole of s with x. */
  lemma {:induction false} CrossSingleton(pot: PairPot, s: seq<Particle>, x: Particle)
    ensures Cross(pot, s, [x]) == SumTo(pot, s, x)
  {
    if s != [] {
      assert [x][1..] == [];
      assert SumFrom(pot, s[0], [x]) == pot(s[0], x);
      CrossSingleton(pot, s[1..], x);
    }
  }

  lemma {:induction false} SumToFromSymmetric(pot: PairPot, s: seq<Particle>, a: Particle)
    requires Symmetric(pot)
    ensures SumTo(pot, s, a) == SumFrom(pot, a, s)
  {
    if s != [] {
      assert pot(s[0], a) == pot(a, s[0]);
      SumToFromSymmetric(pot, s[1..], a);
    }
  }

  /** With a symmetric potential the cross product does not depend on which side comes first. */
  lemma {:induction false} CrossTranspose(pot: PairPot, s: seq<Particle>, t: seq<Particle>)
    requires Symmetric(pot)
    ensures Cross(pot, s, t) == Cross(pot, t, s)
  {
    if s == [] {
      CrossEmptyRight(pot, t);
    } else {
      CrossTranspose(pot, s[1..], t);
      assert s == [s[0]] + s[1..];
      CrossConcatRight(pot, t, [s[0]], s[1..]);
      CrossSingleton(pot, t, s[0]);
      SumToFromSymmetric(pot, t, s[0]);
    }
  }

  lemma {:induction false} CrossEmptyRight(pot: PairPot, t: seq<Particle>)
    ensures Cross(pot, t, []) == 0.0
  {
    if t != [] {
      CrossEmptyRight(pot, t[1..]);
    }
  }

  /** The pairs of s + t are those inside s, those across, and those inside t. */
  lemma {:induction false} TriConcat(pot: PairPot, s: seq<Particle>, t: seq<Particle>)
    ensures Tri(pot, s + t) == Tri(pot, s) + Cross(pot, s, t) + Tri(pot, t)
  {
    if s == [] {
      assert s + t == t;
    } else {
      assert (s + t)[0] == s[0];
      assert (s + t)[1..] == s[1..] + t;
      SumFromConcat(pot, s[0], s[1..], t);
      TriConcat(pot, s[1..], t);
    }
  }

  /** Appending one particle adds its pairs with every earlier particle. */
  lemma {:induction false} TriSnoc(pot: PairPot, s: seq<Particle>, x: Particle)
    ensures Tri(pot, s + [x]) == Tri(pot, s) + SumTo(pot, s, x)
  {
    TriConcat(pot, s, [x]);
    CrossSingleton(pot, s, x);
    assert [x][1..] == [];
  }
}
