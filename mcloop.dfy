/**
 * The two-level Monte Carlo loop counter: an outer (macro) and an inner
 * (micro) step counter, both unsigned 32-bit, driven by the documented
 * nested loop
 *
 *     while (mc.macroCnt()) { while (mc.microCnt()) { ... } }
 *
 * The step counts come from the input file; here they are constructor
 * parameters.  The timing and the text report are left out.
 */
module McLoop {
  import opened Arith


  /** One past the largest unsigned 32-bit value. */
  const UintRange: int := 0x1_0000_0000

  /** Conversion of an int into an unsigned int, and unsigned arithmetic: modulo 2^32. */
  function U32(x: int): (r: nat)
    ensures r < UintRange
    ensures 0 <= x < UintRange ==> r == x
  {
    x % UintRange
  }

  /** macroCnt on counter c: the incremented (wrapping) counter, and whether it is still within macro. */
  function MacroStep(macro: nat, c: nat): (bool, nat)
  {
    var c' := U32(c + 1);
    (c' <= macro, c')
  }

  /** microCnt on counter c: true and c + 1 while c is below micro; otherwise false and the counter reset to 0. */
  function MicroStep(micro: nat, c: nat): (bool, nat)
  {
    if c < micro then (true, c + 1) else (false, 0)
  }

  /** The results of k successive macroCnt calls from counter c. */
  function MacroRun(macro: nat, c: nat, k: nat): (r: seq<bool>)
    ensures |r| == k
  {
    if k == 0 then [] else MacroRun(macro, c, k - 1) + [MacroStep(macro, c + k - 1).0]
  }

  /**
   * From a fresh counter, call i (counting from 0) of macroCnt returns true
   * exactly when i < macro: true macro times, then false, as long as fewer
   * than 2^32 calls are made.
   */
  lemma {:induction false} MacroRunFromZero(macro: nat, k: nat)
    requires k < UintRange
    ensures forall i :: 0 <= i < k ==> (MacroRun(macro, 0, k)[i] <==> i < macro)
  {
    if k > 0 {
      MacroRunFromZero(macro, k - 1);
      var r := MacroRun(macro, 0, k);
      assert r == MacroRun(macro, 0, k - 1) + [MacroStep(macro, k - 1).0];
      assert forall i :: 0 <= i < k - 1 ==> r[i] == MacroRun(macro, 0, k - 1)[i];
    }
  }

  /** With macro at the largest unsigned value the counter wraps to 0 and macroCnt keeps returning true. */
  lemma {:induction false} MacroWrapsAtMax()
    ensures MacroStep(UintRange - 1, UintRange - 1) == (true, 0)
  {
    assert U32(UintRange) == 0;
  }

  /** The results of k successive microCnt calls from counter c, and the counter after them. */
  function MicroRun(micro: nat, c: nat, k: nat): (r: (seq<bool>, nat))
    ensures |r.0| == k
  {
    if k == 0 then ([], c)
    else
      var prev := MicroRun(micro, c, k - 1);
      var step := MicroStep(micro, prev.1);
      (prev.0 + [step.0], step.1)
  }

  /** From counter 0, the first k <= micro calls return true and leave the counter at k. */
  lemma {:induction false} MicroRunCounts(micro: nat, k: nat)
    requires k <= micro
    ensures MicroRun(micro, 0, k).1 == k
    ensures forall i :: 0 <= i < k ==> MicroRun(micro, 0, k).0[i]
  {
    if k > 0 {
      MicroRunCounts(micro, k - 1);
      var prev := MicroRun(micro, 0, k - 1);
      assert MicroRun(micro, 0, k).0 == prev.0 + [true];
    }
  }

  /** One cycle: micro calls return true, the next one false, and the counter is back at 0. */
  lemma {:induction false} MicroCycle(micro: nat)
    ensures MicroRun(micro, 0, micro + 1).0 == seq(micro, _ => true) + [false]
    ensures MicroRun(micro, 0, micro + 1).1 == 0
  {
    MicroRunCounts(micro, micro);
    var r := MicroRun(micro, 0, micro + 1).0;
    assert r == MicroRun(micro, 0, micro).0 + [false];
    assert forall i :: 0 <= i < micro ==> r[i] == MicroRun(micro, 0, micro).0[i];
  }

  class MCLoop {
    var macro: nat
    var micro: nat
    var cntMicro: nat
    var cntMacro: nat

    /** Both counters fit an unsigned int. */
    ghost predicate Valid()
      reads this
    {
      macro < UintRange && micro < UintRange && cntMicro < UintRange && cntMacro < UintRange
    }

    /** The constructor: the two step counts as read (as unsigned) and both counters at zero. */
    constructor (macroSteps: int, microSteps: int)
      ensures macro == U32(macroSteps) && micro == U32(microSteps)
      ensures cntMicro == 0 && cntMacro == 0 && Valid()
    {
      macro := U32(macroSteps);
      micro := U32(microSteps);
      cntMicro, cntMacro := 0, 0;
    }

    /** macroCnt: one MacroStep of the outer counter. */
    method MacroCnt() returns (r: bool)
      requires Valid()
      modifies this
      ensures Valid() && macro == old(macro) && micro == old(micro) && cntMicro == old(cntMicro)
      ensures (r, cntMacro) == MacroStep(macro, old(cntMacro))
    {
      cntMacro := U32(cntMacro + 1);
      r := if cntMacro > macro then false else true;
    }

    /** microCnt: one MicroStep of the inner counter. */
    method MicroCnt() returns (r: bool)
      requires Valid()
      modifies this
      ensures Valid() && macro == old(macro) && micro == old(micro) && cntMacro == old(cntMacro)
      ensures (r, cntMicro) == MicroStep(micro, old(cntMicro))
    {
      var before := cntMicro;
      cntMicro := U32(cntMicro + 1);
      if before < micro {
        return true;
      }
      cntMicro := 0;
      return false;
    }

    /**
     * count(): the completed steps (cntMacro - 1) * micro + cntMicro in
     * unsigned arithmetic; exact once the outer counter has started and the
     * value fits.
     */
    function Count(): (r: nat)
      reads this
      ensures r < UintRange
      ensures cntMacro >= 1 && (cntMacro - 1) * micro + cntMicro < UintRange ==> r == (cntMacro - 1) * micro + cntMicro
    {
      U32((cntMacro - 1) * micro + cntMicro)
    }

    function GetMacroCnt(): (r: nat)
      reads this
      ensures r == cntMacro
    {
      cntMacro
    }
  }

  /** Before the first macroCnt the unsigned count wraps: (0 - 1) * micro is 2^32 - micro. */
  lemma {:induction false} CountBeforeStart(micro: nat)
    requires 0 < micro < UintRange
    ensures U32((0 - 1) * micro + 0) == UintRange - micro
  {
    var m: int := micro;
    assert (0 - 1) * m + 0 == -m;
    assert -m == UintRange * -1 + (UintRange - m);
  }

  /**
   * The inner loop of the documented usage, from a reset micro counter:
   * each pass records count(), and the loop ends with the counter reset.
   */
  method MicroSweep(mc: MCLoop, counts: seq<nat>) returns (out: seq<nat>)
    requires mc.Valid() && mc.cntMicro == 0 && mc.cntMacro >= 1
    requires |counts| == (mc.cntMacro - 1) * mc.micro
    modifies mc
    ensures mc.Valid() && mc.macro == old(mc.macro) && mc.micro == old(mc.micro) && mc.cntMacro == old(mc.cntMacro)
    ensures mc.cntMicro == 0
    ensures |out| == |counts| + mc.micro
    ensures out[..|counts|] == counts
    ensures forall k :: |counts| <= k < |out| ==> out[k] == U32(k + 1)
  {
    out := counts;
    var go := mc.MicroCnt();
    while go
      invariant mc.Valid() && mc.macro == old(mc.macro) && mc.micro == old(mc.micro) && mc.cntMacro == old(mc.cntMacro)
      invariant go ==> 1 <= mc.cntMicro <= mc.micro && |out| == |counts| + mc.cntMicro - 1
      invariant !go ==> mc.cntMicro == 0 && |out| == |counts| + mc.micro
      invariant out[..|counts|] == counts
      invariant forall k :: |counts| <= k < |out| ==> out[k] == U32(k + 1)
      decreases if go then mc.micro + 1 - mc.cntMicro else 0
    {
      assert mc.Count() == U32(|out| + 1);
      out := out + [mc.Count()];
      go := mc.MicroCnt();
    }
  }

  /**
   * The documented nested loop on a fresh counter: the inner body runs
   * macro * micro times, and the k-th run (from 0) sees count() == k + 1
   * in unsigned arithmetic.  macro must stay below the largest unsigned
   * value, where the outer counter would wrap and the loop never end.
   */
  method NestedLoop(mc: MCLoop) returns (counts: seq<nat>)
    requires mc.Valid() && mc.cntMacro == 0 && mc.cntMicro == 0 && mc.macro < UintRange - 1
    modifies mc
    ensures mc.macro == old(mc.macro) && mc.micro == old(mc.micro)
    ensures mc.cntMacro == mc.macro + 1 && mc.cntMicro == 0
    ensures |counts| == mc.macro * mc.micro
    ensures forall k :: 0 <= k < |counts| ==> counts[k] == U32(k + 1)
  {
    counts := [];
    var more := mc.MacroCnt();
    while more
      invariant mc.Valid() && mc.macro == old(mc.macro) && mc.micro == old(mc.micro)
      invariant 1 <= mc.cntMacro <= mc.macro + 1 && mc.cntMicro == 0
      invariant more <==> mc.cntMacro <= mc.macro
      invariant |counts| == (mc.cntMacro - 1) * mc.micro
      invariant forall k :: 0 <= k < |counts| ==> counts[k] == U32(k + 1)
      decreases mc.macro + 1 - mc.cntMacro
    {
      ghost var before := counts;
      counts := MicroSweep(mc, counts);
      assert forall k :: 0 <= k < |before| ==> counts[k] == counts[..|before|][k];
      MulSucc(mc.micro, mc.cntMacro - 1);
      more := mc.MacroCnt();
    }
  }
}
