/**
 * The hydrophobic extension of the interaction engine: besides the usual pair
 * sums, every listed ion gets an extra term with the nearest hydrophobic
 * particle, searched separately on each side of end_of_protein_one.
 *
 * `hy` and `pa` are vectors of unsigned short in the source, so every index
 * stored in them is reduced modulo 2^16.  The square root that the source
 * applies before calling hypairpot is folded into the abstract potential
 * `hypot`, which receives the squared distance.
 */
module Hydrophobic {
  import opened Particles
  import opened Interaction
  import opened Outcomes

  /** int(1e7), the constructor's value of end_of_protein_one. */
  const DefaultEndOfProteinOne: nat := 10000000

  /** dmin's starting value 1e7, a squared distance treated as "far". */
  const Far: real := 10000000.0

  /** The error reported where the source reads hymin before assigning it. */
  const HyminUnassigned: string := "hymin read before assignment"

  /** Number of values of an unsigned short. */
  const ShortRange: nat := 65536

  /** hypairpot(a, b, sqrt(d2)): the hydrophobic pair energy as a function of the squared distance d2. */
  type HyPot = (Particle, Particle, real) -> real

  /** The value an index keeps once stored in an unsigned short. */
  function Short(i: nat): nat
  {
    i % ShortRange
  }

  predicate Increasing(s: seq<int>)
  {
    forall a, b :: 0 <= a < b < |s| ==> s[a] < s[b]
  }

  /** Every element of s is an index of a vector of n particles. */
  predicate IndicesIn(s: seq<int>, n: int)
  {
    forall k :: 0 <= k < |s| ==> 0 <= s[k] < n
  }

  /** What search pushes onto hy while visiting the first n particles. */
  function HydrophobicIndices(p: seq<Particle>, n: nat): seq<int>
    requires n <= |p|
  {
    if n == 0 then []
    else HydrophobicIndices(p, n - 1) + (if p[n - 1].hydrophobic then [Short(n - 1)] else [])
  }

  /** What search pushes onto pa: non-hydrophobic particles whose id is one of the ions. */
  function IonIndices(p: seq<Particle>, ions: set<int>, n: nat): seq<int>
    requires n <= |p|
  {
    if n == 0 then []
    else IonIndices(p, ions, n - 1) + (if !p[n - 1].hydrophobic && p[n - 1].id in ions then [Short(n - 1)] else [])
  }

  /** When the vector fits the index type, hy is exactly the ascending list of hydrophobic indices. */
  lemma {:induction false} HydrophobicIndicesExact(p: seq<Particle>, n: nat)
    requires n <= |p| <= ShortRange
    ensures forall x :: x in HydrophobicIndices(p, n) <==> 0 <= x < n && p[x].hydrophobic
    ensures Increasing(HydrophobicIndices(p, n))
  {
    if n > 0 {
      HydrophobicIndicesExact(p, n - 1);
      assert Short(n - 1) == n - 1;
      var prev := HydrophobicIndices(p, n - 1);
      forall k | 0 <= k < |prev|
        ensures prev[k] < n - 1
      {
        assert prev[k] in prev;
      }
    }
  }

  /** When the vector fits the index type, pa is exactly the ascending list of non-hydrophobic ions. */
  lemma {:induction false} IonIndicesExact(p: seq<Particle>, ions: set<int>, n: nat)
    requires n <= |p| <= ShortRange
    ensures forall x :: x in IonIndices(p, ions, n) <==> 0 <= x < n && !p[x].hydrophobic && p[x].id in ions
    ensures Increasing(IonIndices(p, ions, n))
  {
    if n > 0 {
      IonIndicesExact(p, ions, n - 1);
      assert Short(n - 1) == n - 1;
      var prev := IonIndices(p, ions, n - 1);
      forall k | 0 <= k < |prev|
        ensures prev[k] < n - 1
      {
        assert prev[k] in prev;
      }
    }
  }

  /** No index is listed both as hydrophobic and as an ion. */
  lemma {:induction false} SearchDisjoint(p: seq<Particle>, ions: set<int>)
    requires |p| <= ShortRange
    ensures forall x :: x in HydrophobicIndices(p, |p|) ==> x !in IonIndices(p, ions, |p|)
  {
    HydrophobicIndicesExact(p, |p|);
    IonIndicesExact(p, ions, |p|);
  }

  /** Stored indices are always below 2^16, and below n when they were not wrapped. */
  lemma {:induction false} StoredIndicesBounded(p: seq<Particle>, ions: set<int>, n: nat)
    requires n <= |p|
    ensures IndicesIn(HydrophobicIndices(p, n), ShortRange)
    ensures IndicesIn(IonIndices(p, ions, n), ShortRange)
    ensures |p| <= ShortRange ==> IndicesIn(HydrophobicIndices(p, n), |p|) && IndicesIn(IonIndices(p, ions, n), |p|)
  {
    if n > 0 {
      StoredIndicesBounded(p, ions, n - 1);
      assert |p| <= ShortRange ==> Short(n - 1) == n - 1;
    }
  }

  // ---------------------------------------------------------------------
  // Nearest hydrophobic particle, as the evidently intended behaviour

  /** The first index of s whose particle is nearest to a, in the order of s. */
  function Nearest(sq: Metric, a: Point, p: seq<Particle>, s: seq<int>): (m: Option<int>)
    requires IndicesIn(s, |p|)
    ensures m.None? <==> s == []
    ensures m.Some? ==> 0 <= m.value < |p|
  {
    if s == [] then None
    else
      var m := Nearest(sq, a, p, s[..|s| - 1]);
      var x := s[|s| - 1];
      if m.None? || sq(a, p[x].pos) < sq(a, p[m.value].pos) then Some(x) else m
  }

  /** Nearest returns a minimiser of the squared distance, and the first one in the order of s. */
  lemma {:induction false} NearestIsFirstMinimiser(sq: Metric, a: Point, p: seq<Particle>, s: seq<int>) returns (at: nat)
    requires IndicesIn(s, |p|) && s != []
    ensures Nearest(sq, a, p, s).Some?
    ensures at < |s| && s[at] == Nearest(sq, a, p, s).value
    ensures forall k :: 0 <= k < |s| ==> sq(a, p[s[at]].pos) <= sq(a, p[s[k]].pos)
    ensures forall k :: 0 <= k < at ==> sq(a, p[s[k]].pos) > sq(a, p[s[at]].pos)
  {
    var t := s[..|s| - 1];
    var x := s[|s| - 1];
    assert forall k :: 0 <= k < |t| ==> t[k] == s[k];
    if t == [] {
      at := 0;
    } else {
      var prev := NearestIsFirstMinimiser(sq, a, p, t);
      if sq(a, p[x].pos) < sq(a, p[t[prev]].pos) {
        at := |s| - 1;
      } else {
        at := prev;
      }
    }
  }

  /** The indices of s at or below the split: the first protein's hydrophobic particles. */
  function FirstProtein(s: seq<int>, eop: int): seq<int>
  {
    if s == [] then []
    else FirstProtein(s[..|s| - 1], eop) + (if s[|s| - 1] <= eop then [s[|s| - 1]] else [])
  }

  /** The indices of s above the split: the second protein's hydrophobic particles. */
  function SecondProtein(s: seq<int>, eop: int): seq<int>
  {
    if s == [] then []
    else SecondProtein(s[..|s| - 1], eop) + (if s[|s| - 1] > eop then [s[|s| - 1]] else [])
  }

  /** The two proteins split the hydrophobic indices at end_of_protein_one, each keeping the order of s. */
  lemma {:induction false} ProteinsSplit(s: seq<int>, eop: int)
    ensures forall x :: x in FirstProtein(s, eop) <==> x in s && x <= eop
    ensures forall x :: x in SecondProtein(s, eop) <==> x in s && x > eop
    ensures |FirstProtein(s, eop)| + |SecondProtein(s, eop)| == |s|
  {
    if s != [] {
      var t := s[..|s| - 1];
      ProteinsSplit(t, eop);
      assert s == t + [s[|s| - 1]];
    }
  }

  lemma {:induction false} ProteinsIndicesIn(s: seq<int>, eop: int, n: int)
    requires IndicesIn(s, n)
    ensures IndicesIn(FirstProtein(s, eop), n) && IndicesIn(SecondProtein(s, eop), n)
  {
    if s != [] {
      assert IndicesIn(s[..|s| - 1], n);
      ProteinsIndicesIn(s[..|s| - 1], eop, n);
    }
  }

  /** One more candidate: it replaces the nearest so far only when strictly nearer. */
  lemma {:induction false} NearestSnoc(sq: Metric, a: Point, p: seq<Particle>, s: seq<int>, x: int)
    requires IndicesIn(s, |p|) && 0 <= x < |p|
    ensures IndicesIn(s + [x], |p|)
    ensures var m := Nearest(sq, a, p, s);
      Nearest(sq, a, p, s + [x]) == if m.None? || sq(a, p[x].pos) < sq(a, p[m.value].pos) then Some(x) else m
  {
    assert (s + [x])[..|s|] == s;
  }

  /** Extending hy by one index extends exactly one of the two proteins. */
  lemma {:induction false} ProteinsSnoc(s: seq<int>, x: int, eop: int)
    ensures FirstProtein(s + [x], eop) == FirstProtein(s, eop) + (if x <= eop then [x] else [])
    ensures SecondProtein(s + [x], eop) == SecondProtein(s, eop) + (if x > eop then [x] else [])
  {
    assert (s + [x])[..|s|] == s;
  }

  /** The term for one protein: hypairpot with its nearest hydrophobic particle, 0 when it has none. */
  function SegmentTerm(hypot: HyPot, sq: Metric, p: seq<Particle>, i: int, s: seq<int>): real
    requires 0 <= i < |p| && IndicesIn(s, |p|)
  {
    match Nearest(sq, p[i].pos, p, s)
    case None => 0.0
    case Some(m) => hypot(p[i], p[m], sq(p[i].pos, p[m].pos))
  }

  /** The nearest-particle terms of both proteins for particle i, before scaling by f. */
  function NearestTerms(hypot: HyPot, sq: Metric, p: seq<Particle>, i: int, hy: seq<int>, eop: int): real
    requires 0 <= i < |p| && IndicesIn(hy, |p|)
  {
    ProteinsIndicesIn(hy, eop, |p|);
    SegmentTerm(hypot, sq, p, i, FirstProtein(hy, eop)) + SegmentTerm(hypot, sq, p, i, SecondProtein(hy, eop))
  }

  /** hyenergy(p, i) as intended: 0 for a hydrophobic particle, else f times the nearest term of each protein. */
  function HyTerm(f: real, hypot: HyPot, sq: Metric, p: seq<Particle>, i: int, hy: seq<int>, eop: int): real
    requires 0 <= i < |p| && IndicesIn(hy, |p|)
  {
    if p[i].hydrophobic then 0.0 else f * NearestTerms(hypot, sq, p, i, hy, eop)
  }

  /** hyenergy(p): the terms of every listed ion, in the order of pa. */
  function HyTotal(f: real, hypot: HyPot, sq: Metric, p: seq<Particle>, pa: seq<int>, hy: seq<int>, eop: int): real
    requires IndicesIn(pa, |p|) && IndicesIn(hy, |p|)
  {
    if pa == [] then 0.0
    else HyTotal(f, hypot, sq, p, pa[..|pa| - 1], hy, eop) + HyTerm(f, hypot, sq, p, pa[|pa| - 1], hy, eop)
  }

  // ---------------------------------------------------------------------
  // hyenergy(p, i) as the source writes it

  /** The loop state of the source: u, dmin and hymin, the last possibly never assigned. */
  datatype ScanState = ScanState(u: real, dmin: real, hymin: Option<int>, unassigned: bool)

  /**
   * The source's loop over hy: past the split u is overwritten with the term of the
   * nearest particle so far and dmin restarts at 1e7; `unassigned` records a read of
   * hymin before any assignment.
   */
  function Scan(hypot: HyPot, sq: Metric, p: seq<Particle>, i: int, s: seq<int>, eop: int): (r: ScanState)
    requires 0 <= i < |p| && IndicesIn(s, |p|)
    ensures r.hymin.Some? ==> 0 <= r.hymin.value < |p|
  {
    if s == [] then ScanState(0.0, Far, None, false)
    else
      var st := Scan(hypot, sq, p, i, s[..|s| - 1], eop);
      var x := s[|s| - 1];
      if st.unassigned then st
      else if x > eop && st.hymin.None? then st.(unassigned := true)
      else
        var st1 := if x > eop then st.(u := hypot(p[i], p[st.hymin.value], st.dmin), dmin := Far) else st;
        var d := sq(p[i].pos, p[x].pos);
        if d < st1.dmin then st1.(dmin := d, hymin := Some(x)) else st1
  }

  /** What the source's loop leaves to scale by f: u plus the last term, or an error where hymin is unassigned. */
  function AsWrittenTerms(hypot: HyPot, sq: Metric, p: seq<Particle>, i: int, hy: seq<int>, eop: int): Result<real>
    requires 0 <= i < |p| && IndicesIn(hy, |p|)
  {
    var st := Scan(hypot, sq, p, i, hy, eop);
    if st.unassigned || st.hymin.None? then Err(HyminUnassigned)
    else Ok(st.u + hypot(p[i], p[st.hymin.value], st.dmin))
  }

  /** hyenergy(p, i) as written: 0 for a hydrophobic particle, else f times the loop's result. */
  function HyTermAsWritten(f: real, hypot: HyPot, sq: Metric, p: seq<Particle>, i: int, hy: seq<int>, eop: int): Result<real>
    requires 0 <= i < |p| && IndicesIn(hy, |p|)
  {
    if p[i].hydrophobic then Ok(0.0)
    else
      match AsWrittenTerms(hypot, sq, p, i, hy, eop)
      case Err(e) => Err(e)
      case Ok(v) => Ok(f * v)
  }

  /**
   * On one protein (no index past the split) the source's scan keeps u == 0 and
   * finds the nearest particle, provided it is closer than the 1e7 start value.
   */
  lemma {:induction false} ScanOneProtein(hypot: HyPot, sq: Metric, p: seq<Particle>, i: int, s: seq<int>, eop: int)
    requires 0 <= i < |p| && IndicesIn(s, |p|)
    requires forall k :: 0 <= k < |s| ==> s[k] <= eop
    ensures var st := Scan(hypot, sq, p, i, s, eop);
      var m := Nearest(sq, p[i].pos, p, s);
      !st.unassigned && st.u == 0.0 &&
      (if m.Some? && sq(p[i].pos, p[m.value].pos) < Far
       then st.hymin == m && st.dmin == sq(p[i].pos, p[m.value].pos)
       else st.hymin.None? && st.dmin == Far)
  {
    if s != [] {
      var t := s[..|s| - 1];
      assert IndicesIn(t, |p|);
      ScanOneProtein(hypot, sq, p, i, t, eop);
    }
  }

  /**
   * With a single protein (as under the default split, which no stored index
   * exceeds) and a nearest hydrophobic particle closer than 1e7, the source's
   * loop yields the intended value: hypairpot with the first nearest particle.
   */
  lemma {:induction false} AsWrittenAgreesOnOneProtein(hypot: HyPot, sq: Metric, p: seq<Particle>, i: int, hy: seq<int>, eop: int)
    requires 0 <= i < |p| && IndicesIn(hy, |p|)
    requires forall k :: 0 <= k < |hy| ==> hy[k] <= eop
    requires hy != [] && sq(p[i].pos, p[Nearest(sq, p[i].pos, p, hy).value].pos) < Far
    ensures AsWrittenTerms(hypot, sq, p, i, hy, eop).Ok?
    ensures AsWrittenTerms(hypot, sq, p, i, hy, eop).value == NearestTerms(hypot, sq, p, i, hy, eop)
  {
    var m := Nearest(sq, p[i].pos, p, hy).value;
    ScanOneProtein(hypot, sq, p, i, hy, eop);
    FirstProteinAll(hy, eop);
    SecondProteinNone(hy, eop);
    var h := hypot(p[i], p[m], sq(p[i].pos, p[m].pos));
    assert SegmentTerm(hypot, sq, p, i, FirstProtein(hy, eop)) == h;
    assert SegmentTerm(hypot, sq, p, i, SecondProtein(hy, eop)) == 0.0;
    var st := Scan(hypot, sq, p, i, hy, eop);
    assert st == ScanState(0.0, sq(p[i].pos, p[m].pos), Some(m), false);
    var r := AsWrittenTerms(hypot, sq, p, i, hy, eop);
    assert r.Ok? && r.value == 0.0 + h;
  }

  lemma {:induction false} FirstProteinAll(s: seq<int>, eop: int)
    requires forall k :: 0 <= k < |s| ==> s[k] <= eop
    ensures FirstProtein(s, eop) == s
  {
    if s != [] {
      FirstProteinAll(s[..|s| - 1], eop);
    }
  }

  lemma {:induction false} SecondProteinNone(s: seq<int>, eop: int)
    requires forall k :: 0 <= k < |s| ==> s[k] <= eop
    ensures SecondProtein(s, eop) == []
  {
    if s != [] {
      SecondProteinNone(s[..|s| - 1], eop);
    }
  }

  /** Without any hydrophobic particle the source reads hymin unassigned; the intended terms are 0. */
  lemma {:induction false} AsWrittenFailsWithoutHydrophobic(hypot: HyPot, sq: Metric, p: seq<Particle>, i: int, eop: int)
    requires 0 <= i < |p|
    ensures AsWrittenTerms(hypot, sq, p, i, [], eop).Err?
    ensures NearestTerms(hypot, sq, p, i, [], eop) == 0.0
  {
  }

  /** Squared distances of the example below: the x-offset, which is 1, 2 and 3 there. */
  const ExampleSq: Metric := (a: Point, b: Point) => b.x - a.x

  /** A hydrophobic pair potential equal to the squared distance, so each term shows which particle was used. */
  const ExampleHyPot: HyPot := (a: Particle, b: Particle, d2: real) => d2

  /** Three hydrophobic particles followed by one ion at the origin. */
  const ExampleParticles: seq<Particle> :=
    [Particle(Point(1.0, 0.0, 0.0), 0.0, 0, true, 1.0), Particle(Point(2.0, 0.0, 0.0), 0.0, 0, true, 1.0),
     Particle(Point(3.0, 0.0, 0.0), 0.0, 0, true, 1.0), Particle(Point(0.0, 0.0, 0.0), 1.0, 1, false, 1.0)]

  /**
   * The ion of the example with the split after index 0: the source overwrites u
   * at every index past the split, so the first protein's term (1) is lost and the
   * second protein ends with its farthest particle (3) instead of its nearest (2).
   */
  lemma {:induction false} SecondProteinCounterexample()
    ensures AsWrittenTerms(ExampleHyPot, ExampleSq, ExampleParticles, 3, [0, 1, 2], 0).Ok?
    ensures AsWrittenTerms(ExampleHyPot, ExampleSq, ExampleParticles, 3, [0, 1, 2], 0).value == 5.0
    ensures NearestTerms(ExampleHyPot, ExampleSq, ExampleParticles, 3, [0, 1, 2], 0) == 3.0
  {
    ExampleScan();
    ExampleNearest();
  }

  lemma {:induction false} ExampleScan()
    ensures Scan(ExampleHyPot, ExampleSq, ExampleParticles, 3, [0, 1, 2], 0) == ScanState(2.0, 3.0, Some(2), false)
  {
    var p := ExampleParticles;
    var o := p[3].pos;
    assert [0, 1, 2][..2] == [0, 1] && [0, 1][..1] == [0] && [0][..0] == [];
    assert ExampleSq(o, p[0].pos) == 1.0 && ExampleSq(o, p[1].pos) == 2.0 && ExampleSq(o, p[2].pos) == 3.0;
    assert Scan(ExampleHyPot, ExampleSq, p, 3, [], 0) == ScanState(0.0, Far, None, false);
    assert Scan(ExampleHyPot, ExampleSq, p, 3, [0], 0) == ScanState(0.0, 1.0, Some(0), false);
    assert Scan(ExampleHyPot, ExampleSq, p, 3, [0, 1], 0) == ScanState(1.0, 2.0, Some(1), false);
  }

  lemma {:induction false} ExampleNearest()
    ensures FirstProtein([0, 1, 2], 0) == [0] && SecondProtein([0, 1, 2], 0) == [1, 2]
    ensures Nearest(ExampleSq, ExampleParticles[3].pos, ExampleParticles, [0]) == Some(0)
    ensures Nearest(ExampleSq, ExampleParticles[3].pos, ExampleParticles, [1, 2]) == Some(1)
  {
    var p := ExampleParticles;
    var o := p[3].pos;
    assert [0, 1, 2][..2] == [0, 1] && [0, 1][..1] == [0] && [0][..0] == [];
    assert [1, 2][..1] == [1] && [1][..0] == [];
    assert ExampleSq(o, p[0].pos) == 1.0 && ExampleSq(o, p[1].pos) == 2.0 && ExampleSq(o, p[2].pos) == 3.0;
    assert Nearest(ExampleSq, o, p, [1]) == Some(1);
  }

  // ---------------------------------------------------------------------
  // The class

  class IntHydrophobic {
    var hy: seq<int>
    var pa: seq<int>
    var endOfProteinOne: nat

    constructor ()
      ensures hy == [] && pa == [] && endOfProteinOne == DefaultEndOfProteinOne
    {
      hy, pa := [], [];
      endOfProteinOne := DefaultEndOfProteinOne;
    }

    /** search(p): rebuild hy and pa from the particle flags and ids; `ions` are the ids of NA, CL and I. */
    method Search(p: seq<Particle>, ions: set<int>)
      modifies this
      ensures hy == HydrophobicIndices(p, |p|) && pa == IonIndices(p, ions, |p|)
      ensures endOfProteinOne == old(endOfProteinOne)
    {
      pa := [];
      hy := [];
      var i := 0;
      while i < |p|
        invariant 0 <= i <= |p|
        invariant hy == HydrophobicIndices(p, i) && pa == IonIndices(p, ions, i)
        invariant endOfProteinOne == old(endOfProteinOne)
      {
        if p[i].hydrophobic {
          hy := hy + [Short(i)];
        } else if p[i].id in ions {
          pa := pa + [Short(i)];
        }
        i := i + 1;
      }
    }

    /** hyenergy(p, i) with the nearest particle of each protein searched separately. */
    method HyEnergyAt(f: real, hypot: HyPot, sq: Metric, p: seq<Particle>, i: int) returns (u: real)
      requires 0 <= i < |p| && IndicesIn(hy, |p|)
      ensures u == HyTerm(f, hypot, sq, p, i, hy, endOfProteinOne)
    {
      if p[i].hydrophobic {
        return 0.0;
      }
      var s := NearestSearch(hypot, sq, p, i);
      u := f * s;
    }

    /** The loop of hyenergy(p, i): the nearest particle of each protein, tracked side by side. */
    method NearestSearch(hypot: HyPot, sq: Metric, p: seq<Particle>, i: int) returns (s: real)
      requires 0 <= i < |p| && IndicesIn(hy, |p|)
      ensures s == NearestTerms(hypot, sq, p, i, hy, endOfProteinOne)
    {
      var a := p[i].pos;
      var eop := endOfProteinOne;
      assert hy[..0] == [];
      var first: Option<int> := None;
      var second: Option<int> := None;
      var j := 0;
      while j < |hy|
        invariant 0 <= j <= |hy|
        invariant IndicesIn(FirstProtein(hy[..j], eop), |p|)
        invariant IndicesIn(SecondProtein(hy[..j], eop), |p|)
        invariant first == Nearest(sq, a, p, FirstProtein(hy[..j], eop))
        invariant second == Nearest(sq, a, p, SecondProtein(hy[..j], eop))
      {
        var x := hy[j];
        assert hy[..j + 1] == hy[..j] + [x];
        ProteinsSnoc(hy[..j], x, eop);
        ghost var one, two := FirstProtein(hy[..j], eop), SecondProtein(hy[..j], eop);
        if x > eop {
          assert one + [] == one;
          NearestSnoc(sq, a, p, SecondProtein(hy[..j], eop), x);
          if second.None? || sq(a, p[x].pos) < sq(a, p[second.value].pos) {
            second := Some(x);
          }
        } else {
          assert two + [] == two;
          NearestSnoc(sq, a, p, FirstProtein(hy[..j], eop), x);
          if first.None? || sq(a, p[x].pos) < sq(a, p[first.value].pos) {
            first := Some(x);
          }
        }
        j := j + 1;
      }
      assert hy[..|hy|] == hy;
      var u1 := if first.Some? then hypot(p[i], p[first.value], sq(a, p[first.value].pos)) else 0.0;
      var u2 := if second.Some? then hypot(p[i], p[second.value], sq(a, p[second.value].pos)) else 0.0;
      s := u1 + u2;
    }

    /** hyenergy(p, i) exactly as the source's loop runs, failing where it reads hymin unassigned. */
    method HyEnergyAtAsWritten(f: real, hypot: HyPot, sq: Metric, p: seq<Particle>, i: int) returns (r: Result<real>)
      requires 0 <= i < |p| && IndicesIn(hy, |p|)
      ensures r == HyTermAsWritten(f, hypot, sq, p, i, hy, endOfProteinOne)
    {
      if p[i].hydrophobic {
        return Ok(0.0);
      }
      var t := ScanAsWritten(hypot, sq, p, i);
      ghost var expected := HyTermAsWritten(f, hypot, sq, p, i, hy, endOfProteinOne);
      if t.Err? {
        r := Err(t.error);
        assert expected == r;
      } else {
        r := Ok(f * t.value);
        assert expected.Ok?;
        assert expected.value == f * t.value;
        assert expected == r;
      }
    }

    /** The loop of hyenergy(p, i) as the source writes it, before scaling by f. */
    method ScanAsWritten(hypot: HyPot, sq: Metric, p: seq<Particle>, i: int) returns (r: Result<real>)
      requires 0 <= i < |p| && IndicesIn(hy, |p|)
      ensures r == AsWrittenTerms(hypot, sq, p, i, hy, endOfProteinOne)
    {
      var hymin: Option<int> := None;
      var dmin, u := Far, 0.0;
      var j := 0;
      while j < |hy|
        invariant 0 <= j <= |hy|
        invariant IndicesIn(hy[..j], |p|)
        invariant Scan(hypot, sq, p, i, hy[..j], endOfProteinOne) == ScanState(u, dmin, hymin, false)
      {
        assert hy[..j + 1][..j] == hy[..j] && hy[..j + 1][j] == hy[j];
        if hy[j] > endOfProteinOne {
          if hymin.None? {
            ScanStaysUnassigned(hypot, sq, p, i, hy, j + 1, endOfProteinOne);
            return Err(HyminUnassigned);
          }
          u := hypot(p[i], p[hymin.value], dmin);
          dmin := Far;
        }
        var d := sq(p[i].pos, p[hy[j]].pos);
        if d < dmin {
          dmin := d;
          hymin := Some(hy[j]);
        }
        j := j + 1;
      }
      assert hy[..|hy|] == hy;
      if hymin.None? {
        return Err(HyminUnassigned);
      }
      var v := u + hypot(p[i], p[hymin.value], dmin);
      ghost var terms := AsWrittenTerms(hypot, sq, p, i, hy, endOfProteinOne);
      assert terms.Ok? && terms.value == v;
      r := Ok(v);
    }

    /** hyenergy(p): the intended term of every ion in pa. */
    method HyEnergy(f: real, hypot: HyPot, sq: Metric, p: seq<Particle>) returns (u: real)
      requires IndicesIn(pa, |p|) && IndicesIn(hy, |p|)
      ensures u == HyTotal(f, hypot, sq, p, pa, hy, endOfProteinOne)
    {
      u := 0.0;
      var k := 0;
      while k < |pa|
        invariant 0 <= k <= |pa|
        invariant IndicesIn(pa[..k], |p|)
        invariant u == HyTotal(f, hypot, sq, p, pa[..k], hy, endOfProteinOne)
      {
        assert pa[..k + 1][..k] == pa[..k];
        var t := HyEnergyAt(f, hypot, sq, p, pa[k]);
        u := u + t;
        k := k + 1;
      }
      assert pa[..|pa|] == pa;
    }

    /** energy(p): the whole-system pair energy plus hyenergy(p). */
    method SystemEnergy(pot: PairPot, f: real, hypot: HyPot, sq: Metric, p: seq<Particle>) returns (u: real)
      requires IndicesIn(pa, |p|) && IndicesIn(hy, |p|)
      ensures u == f * Tri(pot, p) + HyTotal(f, hypot, sq, p, pa, hy, endOfProteinOne)
    {
      var base := Interaction.SystemEnergy(pot, f, p);
      var h := HyEnergy(f, hypot, sq, p);
      u := base + h;
    }

    /** energy(p, i): particle i against all others plus the whole of hyenergy(p). */
    method IndexEnergy(pot: PairPot, f: real, hypot: HyPot, sq: Metric, p: seq<Particle>, i: int) returns (u: real)
      requires 0 <= i < |p| && IndicesIn(pa, |p|) && IndicesIn(hy, |p|)
      ensures u == f * IndexSum(pot, p, i) + HyTotal(f, hypot, sq, p, pa, hy, endOfProteinOne)
    {
      var base := Interaction.IndexEnergy(pot, f, p, i);
      var h := HyEnergy(f, hypot, sq, p);
      u := base + h;
    }

    /** energy(p, g): the group against the rest plus the whole of hyenergy(p). */
    method GroupEnergy(pot: PairPot, f: real, hypot: HyPot, sq: Metric, p: seq<Particle>, g: Group) returns (u: real)
      requires InBounds(g, |p|) && IndicesIn(pa, |p|) && IndicesIn(hy, |p|)
      ensures u == f * ExternalSum(pot, p, g) + HyTotal(f, hypot, sq, p, pa, hy, endOfProteinOne)
    {
      var base := Interaction.GroupEnergy(pot, f, p, g);
      var h := HyEnergy(f, hypot, sq, p);
      u := base + h;
    }
  }

  /** Once the scan has read hymin unassigned it stays failed over any longer prefix. */
  lemma {:induction false} ScanStaysUnassigned(hypot: HyPot, sq: Metric, p: seq<Particle>, i: int, s: seq<int>, n: nat, eop: int)
    requires 0 <= i < |p| && IndicesIn(s, |p|) && 0 < n <= |s|
    requires Scan(hypot, sq, p, i, s[..n], eop).unassigned
    ensures Scan(hypot, sq, p, i, s, eop).unassigned
    decreases |s| - n
  {
    if n < |s| {
      assert s[..n + 1][..n] == s[..n];
      assert Scan(hypot, sq, p, i, s[..n + 1], eop).unassigned;
      ScanStaysUnassigned(hypot, sq, p, i, s, n + 1, eop);
    } else {
      assert s[..n] == s;
    }
  }
}
