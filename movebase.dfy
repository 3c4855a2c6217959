/**
 * The bookkeeping shared by every Monte Carlo move: trial and acceptance
 * counters, the running sum of accepted energy changes, and the move(n) loop.
 *
 * The random draws, the energy change of each trial and its Boltzmann
 * factor exp(-du) are not computed here: move(n) receives them as
 * sequences, one entry per trial, and decides each trial by metropolis.
 */
module MoveBase {

  /** How many of the first n trials were accepted. */
  function Accepted(accept: seq<bool>, n: nat): (r: nat)
    requires n <= |accept|
    ensures r <= n
    ensures r == n <==> forall k :: 0 <= k < n ==> accept[k]
  {
    if n == 0 then 0 else Accepted(accept, n - 1) + (if accept[n - 1] then 1 else 0)
  }

  /** The energy each accepted trial reports: its own change, or the alternate value when that flag is set. */
  function ReportedEnergy(du: real, useAlternate: bool, alternate: real): real
  {
    if useAlternate then alternate else du
  }

  /** The sum of the reported energies of the accepted trials among the first n. */
  function AcceptedEnergy(du: seq<real>, accept: seq<bool>, useAlternate: bool, alternate: real, n: nat): real
    requires n <= |du| && n <= |accept|
  {
    if n == 0 then 0.0
    else
      AcceptedEnergy(du, accept, useAlternate, alternate, n - 1)
      + (if accept[n - 1] then ReportedEnergy(du[n - 1], useAlternate, alternate) else 0.0)
  }

  /** When every trial is rejected, move returns nothing. */
  lemma {:induction false} NothingAccepted(du: seq<real>, accept: seq<bool>, useAlternate: bool, alternate: real, n: nat)
    requires n <= |du| && n <= |accept|
    requires forall k :: 0 <= k < n ==> !accept[k]
    ensures Accepted(accept, n) == 0
    ensures AcceptedEnergy(du, accept, useAlternate, alternate, n) == 0.0
  {
    if n > 0 {
      NothingAccepted(du, accept, useAlternate, alternate, n - 1);
    }
  }

  /** With the alternate flag set, the returned energy is the alternate value once per accepted trial. */
  lemma {:induction false} AlternateEnergyCounts(du: seq<real>, accept: seq<bool>, alternate: real, n: nat)
    requires n <= |du| && n <= |accept|
    ensures AcceptedEnergy(du, accept, true, alternate, n) == Accepted(accept, n) as real * alternate
  {
    if n > 0 {
      AlternateEnergyCounts(du, accept, alternate, n - 1);
      var e := AcceptedEnergy(du, accept, true, alternate, n - 1);
      var c := Accepted(accept, n - 1);
      if accept[n - 1] {
        assert AcceptedEnergy(du, accept, true, alternate, n) == e + alternate;
        assert Accepted(accept, n) as real == c as real + 1.0;
        OneMore(c as real, alternate);
      } else {
        assert AcceptedEnergy(du, accept, true, alternate, n) == e;
        assert Accepted(accept, n) == c;
      }
    }
  }

  lemma {:induction false} OneMore(m: real, a: real)
    ensures (m + 1.0) * a == m * a + a
  {
  }

  lemma {:induction false} AcceptanceRatioBounds(a: nat, c: nat)
    requires a <= c && c > 0
    ensures 0.0 <= a as real / c as real <= 1.0
  {
    var q := a as real / c as real;
    assert q * c as real == a as real;
  }

  /**
   * metropolis(du): reject exactly when the uniform draw exceeds the Boltzmann
   * factor exp(-du), which is passed in already evaluated.
   */
  function Metropolis(draw: real, boltzmann: real): (r: bool)
    ensures r <==> draw <= boltzmann
  {
    if draw > boltzmann then false else true
  }

  /** A move that does not raise the energy (Boltzmann factor at least 1) is accepted for every draw in [0, 1). */
  lemma {:induction false} DownhillAccepted(draw: real, boltzmann: real)
    requires 0.0 <= draw < 1.0 && boltzmann >= 1.0
    ensures Metropolis(draw, boltzmann)
  {
  }

  /** The Metropolis outcome of every trial, from its uniform draw and its Boltzmann factor. */
  function Decisions(draws: seq<real>, boltzmann: seq<real>): (r: seq<bool>)
    requires |draws| == |boltzmann|
    ensures |r| == |draws|
    ensures forall k :: 0 <= k < |r| ==> (r[k] <==> Metropolis(draws[k], boltzmann[k]))
  {
    seq(|draws|, k requires 0 <= k < |draws| => Metropolis(draws[k], boltzmann[k]))
  }

  /**
   * What the model needs of the factors exp(-du): each is positive, and it is
   * at least 1 exactly for a change that does not raise the energy.
   */
  predicate BoltzmannFactors(du: seq<real>, boltzmann: seq<real>)
  {
    |du| == |boltzmann| && forall k :: 0 <= k < |du| ==> boltzmann[k] > 0.0 && (boltzmann[k] >= 1.0 <==> du[k] <= 0.0)
  }

  /** Draws of the uniform generator, in [0, 1). */
  predicate UniformDraws(draws: seq<real>)
  {
    forall k :: 0 <= k < |draws| ==> 0.0 <= draws[k] < 1.0
  }

  /** A run of trials none of which raises the energy, with uniform draws, is accepted in full. */
  lemma {:induction false} DownhillRunAccepted(du: seq<real>, draws: seq<real>, boltzmann: seq<real>, n: nat)
    requires BoltzmannFactors(du, boltzmann) && |draws| == |du| && UniformDraws(draws)
    requires n <= |du| && forall k :: 0 <= k < n ==> du[k] <= 0.0
    ensures Accepted(Decisions(draws, boltzmann), n) == n
  {
    var d := Decisions(draws, boltzmann);
    forall k | 0 <= k < n
      ensures d[k]
    {
      DownhillAccepted(draws[k], boltzmann[k]);
    }
  }

  /** A trial that raises the energy is rejected exactly when its draw exceeds its factor, so some draw in [0, 1) rejects it. */
  lemma {:induction false} UphillRejectable(du: seq<real>, draws: seq<real>, boltzmann: seq<real>, k: nat)
    requires BoltzmannFactors(du, boltzmann) && |draws| == |du| && k < |du| && du[k] > 0.0
    ensures !Decisions(draws, boltzmann)[k] <==> draws[k] > boltzmann[k]
    ensures 0.0 < boltzmann[k] < 1.0
  {
  }

  class Movebase {
    var cnt: nat
    var cntAccepted: nat
    var dusum: real
    var runfraction: real
    var useAlternateReturnEnergy: bool
    var alternateReturnEnergy: real

    /** No more acceptances than trials. */
    ghost predicate Valid()
      reads this
    {
      cntAccepted <= cnt
    }

    /** The counters and the energy sum start at zero, every call to move runs, and no alternate energy is used. */
    constructor ()
      ensures cnt == 0 && cntAccepted == 0 && dusum == 0.0
      ensures runfraction == 1.0 && !useAlternateReturnEnergy
      ensures Valid()
    {
      cnt, cntAccepted, dusum := 0, 0, 0.0;
      runfraction := 1.0;
      useAlternateReturnEnergy := false;
      alternateReturnEnergy := 0.0;
    }

    /** run(): a uniform draw below the run fraction. */
    predicate Run(draw: real)
      reads this
    {
      draw < runfraction
    }

    /** trialMove(): one more trial. */
    method TrialMove()
      modifies this
      ensures cnt == old(cnt) + 1 && cntAccepted == old(cntAccepted) && dusum == old(dusum)
      ensures runfraction == old(runfraction) && useAlternateReturnEnergy == old(useAlternateReturnEnergy)
      ensures alternateReturnEnergy == old(alternateReturnEnergy)
    {
      cnt := cnt + 1;
    }

    /** acceptMove(): one more acceptance. */
    method AcceptMove()
      modifies this
      ensures cntAccepted == old(cntAccepted) + 1 && cnt == old(cnt) && dusum == old(dusum)
      ensures runfraction == old(runfraction) && useAlternateReturnEnergy == old(useAlternateReturnEnergy)
      ensures alternateReturnEnergy == old(alternateReturnEnergy)
    {
      cntAccepted := cntAccepted + 1;
    }

    /**
     * move(n): when run() succeeds, n trials, each accepted exactly when
     * metropolis(du) holds for its draw and its Boltzmann factor; the reported
     * energy of every accepted trial goes into dusum and into the returned sum.
     */
    method Move(n: int, runDraw: real, du: seq<real>, draws: seq<real>, boltzmann: seq<real>) returns (utot: real)
      requires n <= |du| && |draws| == |du| && BoltzmannFactors(du, boltzmann)
      requires Valid()
      modifies this
      ensures Valid()
      ensures runfraction == old(runfraction) && useAlternateReturnEnergy == old(useAlternateReturnEnergy)
      ensures alternateReturnEnergy == old(alternateReturnEnergy)
      ensures var trials := if Run(runDraw) && n > 0 then n else 0;
        && cnt == old(cnt) + trials
        && cntAccepted == old(cntAccepted) + Accepted(Decisions(draws, boltzmann), trials)
        && utot == AcceptedEnergy(du, Decisions(draws, boltzmann), useAlternateReturnEnergy, alternateReturnEnergy, trials)
        && dusum == old(dusum) + utot
      ensures UniformDraws(draws) && (forall k :: 0 <= k < n ==> du[k] <= 0.0) ==>
        cntAccepted == old(cntAccepted) + (if Run(runDraw) && n > 0 then n else 0)
    {
      ghost var accept := Decisions(draws, boltzmann);
      utot := 0.0;
      if Run(runDraw) {
        var total := if n > 0 then n else 0;
        var k := 0;
        while k < total
          invariant 0 <= k <= total
          invariant runfraction == old(runfraction) && useAlternateReturnEnergy == old(useAlternateReturnEnergy)
          invariant alternateReturnEnergy == old(alternateReturnEnergy)
          invariant cnt == old(cnt) + k && cntAccepted == old(cntAccepted) + Accepted(accept, k)
          invariant utot == AcceptedEnergy(du, accept, useAlternateReturnEnergy, alternateReturnEnergy, k)
          invariant dusum == old(dusum) + utot
        {
          TrialMove();
          var d := du[k];
          if Metropolis(draws[k], boltzmann[k]) {
            AcceptMove();
            if useAlternateReturnEnergy {
              d := alternateReturnEnergy;
            }
            dusum := dusum + d;
            utot := utot + d;
          }
          k := k + 1;
        }
      }
      if UniformDraws(draws) && (forall k :: 0 <= k < n ==> du[k] <= 0.0) {
        DownhillRunAccepted(du, draws, boltzmann, if Run(runDraw) && n > 0 then n else 0);
      }
    }

    /** getAcceptance(): accepted over trials, 0 before the first trial; a fraction in [0, 1]. */
    function GetAcceptance(): (r: real)
      reads this
      ensures cnt == 0 ==> r == 0.0
      ensures cnt > 0 ==> r * cnt as real == cntAccepted as real
      ensures Valid() ==> 0.0 <= r <= 1.0
    {
      if cnt > 0 then
        var q := cntAccepted as real / cnt as real;
        assert q * cnt as real == cntAccepted as real;
        if cntAccepted <= cnt then AcceptanceRatioBounds(cntAccepted, cnt); q else q
      else 0.0
    }
  }
}
