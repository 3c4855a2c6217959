/**
 * The interaction engine: energies between particles, groups and the whole
 * system, summed from an abstract pair potential `pot` and scaled once by the
 * potential's factor `f`.  Each overload of the engine is a method whose loops
 * follow the source's; its postcondition ties the result to the pair sums of
 * module Particles, and the lemmas below state how those sums decompose.
 */
module Interaction {
  import opened Particles

  /** A group: the inclusive index range [beg, end] of the particle vector; beg == -1 marks an empty group. */
  datatype Group = Group(beg: int, end: int)

  /** group::find -- the index lies inside the inclusive bounds. */
  predicate Find(g: Group, i: int)
  {
    g.beg <= i <= g.end
  }

  /** The group's loops stay inside a vector of n particles (end == beg - 1 is an empty range). */
  predicate InBounds(g: Group, n: int)
  {
    0 <= g.beg <= g.end + 1 <= n
  }

  /** The particles of the group, p[beg], ..., p[end]. */
  function Members(p: seq<Particle>, g: Group): seq<Particle>
    requires InBounds(g, |p|)
  {
    p[g.beg..g.end + 1]
  }

  /** The particles before the group. */
  function Before(p: seq<Particle>, g: Group): seq<Particle>
    requires InBounds(g, |p|)
  {
    p[..g.beg]
  }

  /** The particles after the group. */
  function After(p: seq<Particle>, g: Group): seq<Particle>
    requires InBounds(g, |p|)
  {
    p[g.end + 1..]
  }

  /** Everything that is not in the group, in order. */
  function Complement(p: seq<Particle>, g: Group): seq<Particle>
    requires InBounds(g, |p|)
  {
    Before(p, g) + After(p, g)
  }

  /** Unscaled energy of particle j with every other particle: [0, j) then (j, n). */
  function IndexSum(pot: PairPot, p: seq<Particle>, j: int): real
    requires 0 <= j < |p|
  {
    SumTo(pot, p[..j], p[j]) + SumTo(pot, p[j + 1..], p[j])
  }

  /** Unscaled energy of the group's members with everything before and after the group. */
  function ExternalSum(pot: PairPot, p: seq<Particle>, g: Group): real
    requires InBounds(g, |p|)
  {
    Cross(pot, Members(p, g), Before(p, g)) + Cross(pot, Members(p, g), After(p, g))
  }

  /** Unscaled energy of particle j with the members of g, leaving out j itself when it is a member. */
  function GroupIndexSum(pot: PairPot, p: seq<Particle>, g: Group, j: int): real
    requires InBounds(g, |p|) && 0 <= j < |p|
  {
    if Find(g, j) then SumTo(pot, p[g.beg..j], p[j]) + SumTo(pot, p[j + 1..g.end + 1], p[j])
    else SumTo(pot, Members(p, g), p[j])
  }

  /** An abstract distance between two points. */
  type Metric = (Point, Point) -> real

  /** No particle of s sits at distance zero from a. */
  predicate Apart(dist: Metric, s: seq<Particle>, a: Point)
  {
    forall k :: 0 <= k < |s| ==> dist(s[k].pos, a) != 0.0
  }

  /** Sum of charge / distance to a: the electrostatic potential of s at a, unscaled. */
  function ChargeOverDist(dist: Metric, s: seq<Particle>, a: Point): real
    requires Apart(dist, s, a)
  {
    if s == [] then 0.0 else s[0].charge / dist(s[0].pos, a) + ChargeOverDist(dist, s[1..], a)
  }

  lemma {:induction false} ChargeOverDistConcat(dist: Metric, s: seq<Particle>, t: seq<Particle>, a: Point)
    requires Apart(dist, s, a) && Apart(dist, t, a)
    ensures Apart(dist, s + t, a)
    ensures ChargeOverDist(dist, s + t, a) == ChargeOverDist(dist, s, a) + ChargeOverDist(dist, t, a)
  {
    assert forall k :: 0 <= k < |s + t| ==> (s + t)[k] == if k < |s| then s[k] else t[k - |s|];
    if s != [] {
      assert (s + t)[1..] == s[1..] + t;
      ChargeOverDistConcat(dist, s[1..], t, a);
    } else {
      assert s + t == t;
    }
  }

  // ---------------------------------------------------------------------
  // Loops shared by the overloads

  /** Adds pot(p[k], a) for lo <= k < hi to u0, in index order. */
  method AddSumTo(pot: PairPot, p: seq<Particle>, lo: int, hi: int, a: Particle, u0: real) returns (u: real)
    requires 0 <= lo <= hi <= |p|
    ensures u == u0 + SumTo(pot, p[lo..hi], a)
  {
    u := u0;
    var i := lo;
    while i < hi
      invariant lo <= i <= hi
      invariant u == u0 + SumTo(pot, p[lo..i], a)
    {
      SumToSnoc(pot, p[lo..i], p[i], a);
      assert p[lo..i + 1] == p[lo..i] + [p[i]];
      u := u + pot(p[i], a);
      i := i + 1;
    }
  }

  /** Adds pot(a, p[k]) for lo <= k < hi to u0, in index order. */
  method AddSumFrom(pot: PairPot, a: Particle, p: seq<Particle>, lo: int, hi: int, u0: real) returns (u: real)
    requires 0 <= lo <= hi <= |p|
    ensures u == u0 + SumFrom(pot, a, p[lo..hi])
  {
    u := u0;
    var i := lo;
    while i < hi
      invariant lo <= i <= hi
      invariant u == u0 + SumFrom(pot, a, p[lo..i])
    {
      SumFromSnoc(pot, a, p[lo..i], p[i]);
      assert p[lo..i + 1] == p[lo..i] + [p[i]];
      u := u + pot(a, p[i]);
      i := i + 1;
    }
  }

  /** Adds pot(p[i], p[k]) for lo <= i < hi and clo <= k < chi to u0, row by row. */
  method AddCross(pot: PairPot, p: seq<Particle>, lo: int, hi: int, clo: int, chi: int, u0: real) returns (u: real)
    requires 0 <= lo <= hi <= |p| && 0 <= clo <= chi <= |p|
    ensures u == u0 + Cross(pot, p[lo..hi], p[clo..chi])
  {
    u := u0;
    var i := lo;
    while i < hi
      invariant lo <= i <= hi
      invariant u == u0 + Cross(pot, p[lo..i], p[clo..chi])
    {
      assert p[lo..i + 1] == p[lo..i] + [p[i]];
      CrossSnoc(pot, p[lo..i], p[i], p[clo..chi]);
      u := AddSumFrom(pot, p[i], p, clo, chi, u);
      i := i + 1;
    }
  }

  /** Adds s[k].charge / dist(s[k], a) for lo <= k < hi to u0. */
  method AddChargeOverDist(dist: Metric, p: seq<Particle>, lo: int, hi: int, a: Point, u0: real) returns (u: real)
    requires 0 <= lo <= hi <= |p|
    requires Apart(dist, p[lo..hi], a)
    ensures u == u0 + ChargeOverDist(dist, p[lo..hi], a)
  {
    u := u0;
    var i := lo;
    while i < hi
      invariant lo <= i <= hi
      invariant Apart(dist, p[lo..i], a)
      invariant u == u0 + ChargeOverDist(dist, p[lo..i], a)
    {
      assert p[lo..hi][i - lo] == p[i];
      assert p[lo..i + 1] == p[lo..i] + [p[i]];
      assert [p[i]][1..] == [];
      ChargeOverDistConcat(dist, p[lo..i], [p[i]], a);
      u := u + p[i].charge / dist(p[i].pos, a);
      i := i + 1;
    }
  }

  // ---------------------------------------------------------------------
  // The overloads of interaction<T>

  /** energy(p, a): every particle of p against an external particle value a. */
  method ParticleEnergy(pot: PairPot, f: real, p: seq<Particle>, a: Particle) returns (u: real)
    ensures u == f * SumTo(pot, p, a)
  {
    u := AddSumTo(pot, p, 0, |p|, a, 0.0);
    assert p[0..|p|] == p;
    u := f * u;
  }

  /** energy(p, j): particle j against all others, the ranges [0, j) and (j, n); no self term. */
  method IndexEnergy(pot: PairPot, f: real, p: seq<Particle>, j: int) returns (u: real)
    requires 0 <= j < |p|
    ensures u == f * IndexSum(pot, p, j)
  {
    u := AddSumTo(pot, p, 0, j, p[j], 0.0);
    u := AddSumTo(pot, p, j + 1, |p|, p[j], u);
    assert p[0..j] == p[..j] && p[j + 1..|p|] == p[j + 1..];
    u := f * u;
  }

  /** energy(p, g): each member of g against every particle before and after g; no intra-group pair. */
  method GroupEnergy(pot: PairPot, f: real, p: seq<Particle>, g: Group) returns (u: real)
    requires InBounds(g, |p|)
    ensures u == f * ExternalSum(pot, p, g)
  {
    var n, psize := g.end + 1, |p|;
    var s := 0.0;
    var i := g.beg;
    while i < n
      invariant g.beg <= i <= n
      invariant s == Cross(pot, p[g.beg..i], p[..g.beg]) + Cross(pot, p[g.beg..i], p[n..])
    {
      assert p[g.beg..i + 1] == p[g.beg..i] + [p[i]];
      CrossSnoc(pot, p[g.beg..i], p[i], p[..g.beg]);
      CrossSnoc(pot, p[g.beg..i], p[i], p[n..]);
      s := AddSumFrom(pot, p[i], p, 0, g.beg, s);
      s := AddSumFrom(pot, p[i], p, n, psize, s);
      assert p[0..g.beg] == p[..g.beg] && p[n..psize] == p[n..];
      i := i + 1;
    }
    u := f * s;
  }

  /** energy(p, g, j): particle j against the members of g, skipping j itself when j is a member. */
  method GroupIndexEnergy(pot: PairPot, f: real, p: seq<Particle>, g: Group, j: int) returns (u: real)
    requires InBounds(g, |p|) && 0 <= j < |p|
    ensures u == f * GroupIndexSum(pot, p, g, j)
  {
    var len := g.end + 1;
    var s;
    if Find(g, j) {
      s := AddSumTo(pot, p, g.beg, j, p[j], 0.0);
      s := AddSumTo(pot, p, j + 1, len, p[j], s);
    } else {
      s := AddSumTo(pot, p, g.beg, len, p[j], 0.0);
    }
    assert s == GroupIndexSum(pot, p, g, j);
    u := f * s;
  }

  /** energy(p, g, a): the members of g against an external particle a; 0 for the empty group. */
  method GroupParticleEnergy(pot: PairPot, f: real, p: seq<Particle>, g: Group, a: Particle) returns (u: real)
    requires g.beg == -1 || InBounds(g, |p|)
    ensures g.beg == -1 ==> u == 0.0
    ensures g.beg != -1 ==> u == f * SumFrom(pot, a, Members(p, g))
  {
    if g.beg == -1 {
      return 0.0;
    }
    u := AddSumFrom(pot, a, p, g.beg, g.end + 1, 0.0);
    u := f * u;
  }

  /** Unscaled energy of each listed group with everything after its last particle. */
  function MoleculesSum(pot: PairPot, p: seq<Particle>, gs: seq<Group>): real
    requires forall l :: 0 <= l < |gs| ==> InBounds(gs[l], |p|)
  {
    if gs == [] then 0.0
    else Cross(pot, Members(p, gs[0]), After(p, gs[0])) + MoleculesSum(pot, p, gs[1..])
  }

  lemma {:induction false} MoleculesSumSnoc(pot: PairPot, p: seq<Particle>, gs: seq<Group>, g: Group)
    requires forall l :: 0 <= l < |gs| ==> InBounds(gs[l], |p|)
    requires InBounds(g, |p|)
    ensures MoleculesSum(pot, p, gs + [g]) == MoleculesSum(pot, p, gs) + Cross(pot, Members(p, g), After(p, g))
  {
    if gs == [] {
      assert gs + [g] == [g];
      assert [g][1..] == [];
    } else {
      assert (gs + [g])[1..] == gs[1..] + [g];
      MoleculesSumSnoc(pot, p, gs[1..], g);
    }
  }

  /** energy(p, vector<macromolecule>): each group against every particle after it. */
  method MoleculesEnergy(pot: PairPot, f: real, p: seq<Particle>, gs: seq<Group>) returns (u: real)
    requires forall l :: 0 <= l < |gs| ==> InBounds(gs[l], |p|)
    ensures u == f * MoleculesSum(pot, p, gs)
  {
    var s := 0.0;
    var t := |p|;
    var l := 0;
    while l < |gs|
      invariant 0 <= l <= |gs|
      invariant s == MoleculesSum(pot, p, gs[..l])
    {
      var k := gs[l].end + 1;
      s := AddCross(pot, p, gs[l].beg, k, k, t, s);
      assert p[k..t] == After(p, gs[l]);
      assert gs[..l + 1] == gs[..l] + [gs[l]];
      MoleculesSumSnoc(pot, p, gs[..l], gs[l]);
      l := l + 1;
    }
    assert gs[..|gs|] == gs;
    u := f * s;
  }

  /** energy(p): the whole system, every pair i < j once. */
  method SystemEnergy(pot: PairPot, f: real, p: seq<Particle>) returns (u: real)
    ensures u == f * Tri(pot, p)
  {
    var s := 0.0;
    var n := |p|;
    var i := 0;
    while i < n - 1
      invariant 0 <= i <= if n == 0 then 0 else n - 1
      invariant s + Tri(pot, p[i..]) == Tri(pot, p)
    {
      assert p[i..][0] == p[i] && p[i..][1..] == p[i + 1..];
      s := AddSumFrom(pot, p[i], p, i + 1, n, s);
      assert p[i + 1..n] == p[i + 1..];
      i := i + 1;
    }
    assert |p[i..]| <= 1;
    assert p[i..] != [] ==> p[i..][1..] == [];
    u := f * s;
  }

  /** energy(p, g1, g2): the full cross product of two groups. */
  method GroupGroupEnergy(pot: PairPot, f: real, p: seq<Particle>, g1: Group, g2: Group) returns (u: real)
    requires InBounds(g1, |p|) && InBounds(g2, |p|)
    ensures u == f * Cross(pot, Members(p, g1), Members(p, g2))
  {
    var s := AddCross(pot, p, g1.beg, g1.end + 1, g2.beg, g2.end + 1, 0.0);
    u := f * s;
  }

  /** internal(p, g): every pair i < j inside the group once; 0 for the empty group. */
  method Internal(pot: PairPot, f: real, p: seq<Particle>, g: Group) returns (u: real)
    requires g.beg == -1 || InBounds(g, |p|)
    ensures g.beg == -1 ==> u == 0.0
    ensures g.beg != -1 ==> u == f * Tri(pot, Members(p, g))
  {
    if g.beg == -1 {
      return 0.0;
    }
    var glen := g.end + 1;
    var s := 0.0;
    var i := g.beg;
    while i < glen - 1
      invariant g.beg <= i <= if glen == g.beg then glen else glen - 1
      invariant s + Tri(pot, p[i..glen]) == Tri(pot, p[g.beg..glen])
    {
      assert p[i..glen][0] == p[i] && p[i..glen][1..] == p[i + 1..glen];
      s := AddSumFrom(pot, p[i], p, i + 1, glen, s);
      i := i + 1;
    }
    assert |p[i..glen]| <= 1;
    assert p[i..glen] != [] ==> p[i..glen][1..] == [];
    u := f * s;
  }

  /** pot(p, a): the scaled electrostatic potential of all particles at the point a. */
  method PotentialAt(dist: Metric, f: real, p: seq<Particle>, a: Point) returns (u: real)
    requires Apart(dist, p, a)
    ensures u == f * ChargeOverDist(dist, p, a)
  {
    assert p[0..|p|] == p;
    u := AddChargeOverDist(dist, p, 0, |p|, a, 0.0);
    u := f * u;
  }

  /**
   * potential(p, j): the unscaled potential at particle j from every other particle;
   * exactly 0 when particle j carries no charge.
   */
  method Potential(dist: Metric, p: seq<Particle>, j: int) returns (u: real)
    requires 0 <= j < |p|
    requires p[j].charge != 0.0 ==> Apart(dist, p[..j] + p[j + 1..], p[j].pos)
    ensures p[j].charge == 0.0 ==> u == 0.0
    ensures p[j].charge != 0.0 ==> u == ChargeOverDist(dist, p[..j] + p[j + 1..], p[j].pos)
  {
    if p[j].charge == 0.0 {
      return 0.0;
    }
    var others := p[..j] + p[j + 1..];
    assert p[0..j] == p[..j] == others[..j];
    assert p[j + 1..|p|] == p[j + 1..] == others[j..];
    assert Apart(dist, p[0..j], p[j].pos);
    assert Apart(dist, p[j + 1..|p|], p[j].pos);
    u := AddChargeOverDist(dist, p, 0, j, p[j].pos, 0.0);
    u := AddChargeOverDist(dist, p, j + 1, |p|, p[j].pos, u);
    ChargeOverDistConcat(dist, p[..j], p[j + 1..], p[j].pos);
  }

  // ---------------------------------------------------------------------
  // Properties of the sums

  /** energy(p, j) leaves out exactly the self term pot(p[j], p[j]). */
  lemma {:induction false} IndexSumExcludesSelf(pot: PairPot, p: seq<Particle>, j: int)
    requires 0 <= j < |p|
    ensures IndexSum(pot, p, j) + pot(p[j], p[j]) == SumTo(pot, p, p[j])
  {
    assert p == p[..j] + ([p[j]] + p[j + 1..]);
    SumToConcat(pot, p[..j], [p[j]] + p[j + 1..], p[j]);
    assert ([p[j]] + p[j + 1..])[1..] == p[j + 1..];
  }

  /** energy(p, g, j) with j inside g leaves out exactly the self term. */
  lemma {:induction false} GroupIndexExcludesSelf(pot: PairPot, p: seq<Particle>, g: Group, j: int)
    requires InBounds(g, |p|) && Find(g, j)
    ensures GroupIndexSum(pot, p, g, j) + pot(p[j], p[j]) == SumTo(pot, Members(p, g), p[j])
  {
    var m := p[g.beg..g.end + 1];
    assert m == p[g.beg..j] + ([p[j]] + p[j + 1..g.end + 1]);
    SumToConcat(pot, p[g.beg..j], [p[j]] + p[j + 1..g.end + 1], p[j]);
    assert ([p[j]] + p[j + 1..g.end + 1])[1..] == p[j + 1..g.end + 1];
  }

  /**
   * Removing one particle x from l + [x] + r removes exactly its pairs with
   * every other particle (symmetric potential).
   */
  lemma {:induction false} TriRemoveOne(pot: PairPot, l: seq<Particle>, x: Particle, r: seq<Particle>)
    requires Symmetric(pot)
    ensures Tri(pot, l + [x] + r) == Tri(pot, l + r) + SumTo(pot, l, x) + SumTo(pot, r, x)
  {
    assert l + [x] + r == l + ([x] + r);
    TriConcat(pot, l, [x] + r);
    TriConcat(pot, l, r);
    CrossConcatRight(pot, l, [x], r);
    CrossSingleton(pot, l, x);
    assert ([x] + r)[0] == x && ([x] + r)[1..] == r;
    SumToFromSymmetric(pot, r, x);
  }

  /** The system energy is the energy without particle j plus energy(p, j). */
  lemma {:induction false} SystemMinusIndex(pot: PairPot, p: seq<Particle>, j: int)
    requires Symmetric(pot) && 0 <= j < |p|
    ensures Tri(pot, p) == Tri(pot, p[..j] + p[j + 1..]) + IndexSum(pot, p, j)
  {
    assert p == p[..j] + [p[j]] + p[j + 1..];
    TriRemoveOne(pot, p[..j], p[j], p[j + 1..]);
  }

  /** The internal energy of g is that of g without member j plus energy(p, g, j). */
  lemma {:induction false} InternalMinusMember(pot: PairPot, p: seq<Particle>, g: Group, j: int)
    requires Symmetric(pot) && InBounds(g, |p|) && Find(g, j)
    ensures Tri(pot, Members(p, g)) == Tri(pot, p[g.beg..j] + p[j + 1..g.end + 1]) + GroupIndexSum(pot, p, g, j)
  {
    assert Members(p, g) == p[g.beg..j] + [p[j]] + p[j + 1..g.end + 1];
    TriRemoveOne(pot, p[g.beg..j], p[j], p[j + 1..g.end + 1]);
  }

  /** energy(p, j) equals energy(p, g) for the one-particle group [j, j] (symmetric potential). */
  lemma {:induction false} IndexIsSingletonGroup(pot: PairPot, p: seq<Particle>, j: int)
    requires Symmetric(pot) && 0 <= j < |p|
    ensures IndexSum(pot, p, j) == ExternalSum(pot, p, Group(j, j))
  {
    var g := Group(j, j);
    assert Members(p, g) == [p[j]];
    assert Before(p, g) == p[..j] && After(p, g) == p[j + 1..];
    assert [p[j]][1..] == [];
    assert Cross(pot, [p[j]], p[..j]) == SumFrom(pot, p[j], p[..j]);
    assert Cross(pot, [p[j]], p[j + 1..]) == SumFrom(pot, p[j], p[j + 1..]);
    SumToFromSymmetric(pot, p[..j], p[j]);
    SumToFromSymmetric(pot, p[j + 1..], p[j]);
  }

  /**
   * Decomposition of the whole-system energy: for every group g the pairs of p are
   * those inside g (internal), those between g and the rest (energy(p, g)) and
   * those wholly outside g, when the pair potential is symmetric.  Each energy is
   * f times its sum, so the same holds for the scaled energies.
   */
  lemma {:induction false} SystemDecomposition(pot: PairPot, p: seq<Particle>, g: Group)
    requires Symmetric(pot) && InBounds(g, |p|)
    ensures Tri(pot, p) == Tri(pot, Members(p, g)) + ExternalSum(pot, p, g) + Tri(pot, Complement(p, g))
  {
    var a, m, b := Before(p, g), Members(p, g), After(p, g);
    assert p == a + (m + b);
    TriConcat(pot, a, m + b);
    TriConcat(pot, m, b);
    CrossConcatRight(pot, a, m, b);
    TriConcat(pot, a, b);
    CrossTranspose(pot, a, m);
  }

  /** The groups lie back to back from index lo to the end of a vector of n particles. */
  predicate Tiles(gs: seq<Group>, lo: int, n: int)
  {
    if gs == [] then lo == n
    else gs[0].beg == lo && InBounds(gs[0], n) && Tiles(gs[1..], gs[0].end + 1, n)
  }

  lemma {:induction false} TilesInBounds(gs: seq<Group>, lo: int, n: int)
    requires Tiles(gs, lo, n)
    ensures forall l :: 0 <= l < |gs| ==> InBounds(gs[l], n)
  {
    if gs != [] {
      TilesInBounds(gs[1..], gs[0].end + 1, n);
      assert forall l :: 1 <= l < |gs| ==> gs[l] == gs[1..][l - 1];
    }
  }

  /** Sum of the internal energies of the listed groups. */
  function InternalsSum(pot: PairPot, p: seq<Particle>, gs: seq<Group>): real
    requires forall l :: 0 <= l < |gs| ==> InBounds(gs[l], |p|)
  {
    if gs == [] then 0.0 else Tri(pot, Members(p, gs[0])) + InternalsSum(pot, p, gs[1..])
  }

  /**
   * When molecules tile the vector from lo, their internal energies plus
   * energy(p, vector<macromolecule>) count every pair of p[lo..] exactly once.
   */
  lemma {:induction false} MoleculesTiling(pot: PairPot, p: seq<Particle>, gs: seq<Group>, lo: int)
    requires Tiles(gs, lo, |p|)
    ensures forall l :: 0 <= l < |gs| ==> InBounds(gs[l], |p|)
    ensures 0 <= lo <= |p|
    ensures InternalsSum(pot, p, gs) + MoleculesSum(pot, p, gs) == Tri(pot, p[lo..])
  {
    TilesInBounds(gs, lo, |p|);
    if gs == [] {
      assert p[lo..] == [];
    } else {
      var g := gs[0];
      MoleculesTiling(pot, p, gs[1..], g.end + 1);
      assert p[lo..] == Members(p, g) + After(p, g);
      TriConcat(pot, Members(p, g), After(p, g));
    }
  }
}
