/**
 * The energy-drift tracker: the initial system energy plus the running sum
 * of the energy changes of accepted moves, compared against a freshly
 * computed total energy.  The running average it also keeps is not part of
 * this model.
 */
module Drift {

  /** The sum of a sequence of energy changes, added in order. */
  function Sum(dus: seq<real>): real
  {
    if |dus| == 0 then 0.0 else Sum(dus[..|dus| - 1]) + dus[|dus| - 1]
  }

  /** Summing two runs of changes one after the other is summing their concatenation. */
  lemma {:induction false} SumConcat(a: seq<real>, b: seq<real>)
    ensures Sum(a + b) == Sum(a) + Sum(b)
    decreases |b|
  {
    if |b| == 0 {
      assert a + b == a;
    } else {
      var b' := b[..|b| - 1];
      assert (a + b)[..|a + b| - 1] == a + b';
      SumConcat(a, b');
    }
  }

  class EnergyDrift {
    var delta: real
    var initial: real
    var drift: real

    /** The constructor zeroes the change sum, the initial energy and the drift. */
    constructor ()
      ensures delta == 0.0 && initial == 0.0 && drift == 0.0
    {
      delta, initial, drift := 0.0, 0.0, 0.0;
    }

    /** init(u0): start from energy u0 with no changes and no drift. */
    method Init(u0: real)
      modifies this
      ensures initial == u0 && delta == 0.0 && drift == 0.0
      ensures Current() == u0
    {
      delta, drift := 0.0, 0.0;
      initial := u0;
    }

    /** current(): the initial energy plus every change so far. */
    function Current(): (r: real)
      reads this
      ensures r - initial == delta
      ensures delta == 0.0 ==> r == initial
    {
      initial + delta
    }

    /** operator+=(du): one more change; the current energy moves by exactly du. */
    method Add(du: real)
      modifies this
      ensures initial == old(initial) && drift == old(drift)
      ensures delta == old(delta) + du
      ensures Current() == old(Current()) + du
    {
      delta := delta + du;
    }

    /**
     * checkDrift(snapshot): the drift is the snapshot minus the current
     * energy, so drift + current() is the snapshot; nothing else changes.
     */
    method CheckDrift(snapshot: real) returns (r: real)
      modifies this
      ensures initial == old(initial) && delta == old(delta)
      ensures r == drift && drift == snapshot - Current()
      ensures drift + Current() == snapshot
      ensures drift == 0.0 <==> snapshot == Current()
    {
      drift := snapshot - Current();
      r := drift;
    }
  }

  /** A run of += calls: the current energy moves by the sum of the changes. */
  method AddAll(d: EnergyDrift, dus: seq<real>)
    modifies d
    ensures d.initial == old(d.initial) && d.drift == old(d.drift)
    ensures d.Current() == old(d.Current()) + Sum(dus)
  {
    var k := 0;
    while k < |dus|
      invariant 0 <= k <= |dus|
      invariant d.initial == old(d.initial) && d.drift == old(d.drift)
      invariant d.Current() == old(d.Current()) + Sum(dus[..k])
    {
      assert dus[..k + 1][..k] == dus[..k];
      d.Add(dus[k]);
      k := k + 1;
    }
    assert dus[..k] == dus;
  }

  /** After init(u0) and the changes du1..dun, current() is u0 + du1 + ... + dun, and the drift is zero. */
  method Track(d: EnergyDrift, u0: real, dus: seq<real>)
    modifies d
    ensures d.initial == u0 && d.drift == 0.0
    ensures d.Current() == u0 + Sum(dus)
  {
    d.Init(u0);
    AddAll(d, dus);
  }
}
