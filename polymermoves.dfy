/**
 * Which particles a crankshaft or a pivot move rotates.  Both draw two random
 * monomers of the polymer as the ends of the rotation axis, repeating the draw
 * until the axis spans an allowed number of bonds; the crankshaft then rotates
 * the monomers strictly between the two ends, and the pivot rotates the part
 * of the chain on one side of the second end, the side chosen by a coin.
 *
 * The random monomers and coins are the sequences the moves read from; the
 * rotation angle and the rotation itself are not modelled.
 */
module PolymerMoves {
  import opened Outcomes

  function Abs(x: int): nat
  {
    if x < 0 then -x else x
  }

  /** The integers lo, lo + 1, ..., hi - 1: what `for (i = lo; i < hi; i++) index.push_back(i)` collects. */
  function Interval(lo: int, hi: int): (r: seq<int>)
    ensures |r| == if hi <= lo then 0 else hi - lo
    ensures forall k :: 0 <= k < |r| ==> r[k] == lo + k
    decreases hi - lo
  {
    if hi <= lo then [] else Interval(lo, hi - 1) + [hi - 1]
  }

  lemma {:induction false} IntervalMembers(lo: int, hi: int, i: int)
    ensures i in Interval(lo, hi) <==> lo <= i < hi
  {
    var r := Interval(lo, hi);
    if lo <= i < hi {
      assert r[i - lo] == i;
    }
  }

  /** An axis d = (beg, end) spans |beg - end| - shift particles; it fits when that lies in [minlen, maxlen]. */
  predicate Fits(d: (int, int), shift: int, minlen: int, maxlen: int)
  {
    var len := Abs(d.0 - d.1) - shift;
    minlen <= len <= maxlen
  }

  /** The first draw that fits: where the do-while loop of findParticles stops. */
  function FirstFit(draws: seq<(int, int)>, shift: int, minlen: int, maxlen: int): (r: Option<nat>)
    ensures r.Some? ==> r.value < |draws| && Fits(draws[r.value], shift, minlen, maxlen)
    ensures r.Some? ==> forall k :: 0 <= k < r.value ==> !Fits(draws[k], shift, minlen, maxlen)
    ensures r.None? ==> forall k :: 0 <= k < |draws| ==> !Fits(draws[k], shift, minlen, maxlen)
  {
    if |draws| == 0 then None
    else if Fits(draws[0], shift, minlen, maxlen) then Some(0)
    else match FirstFit(draws[1..], shift, minlen, maxlen)
      case None => None
      case Some(k) => Some(k + 1)
  }

  /** The do-while loop that draws axis ends until one fits. */
  method DrawAxis(draws: seq<(int, int)>, shift: int, minlen: int, maxlen: int) returns (k: nat)
    requires FirstFit(draws, shift, minlen, maxlen).Some?
    ensures k == FirstFit(draws, shift, minlen, maxlen).value
  {
    ghost var stop := FirstFit(draws, shift, minlen, maxlen).value;
    k := 0;
    while !Fits(draws[k], shift, minlen, maxlen)
      invariant 0 <= k <= stop
      decreases stop - k
    {
      k := k + 1;
    }
    FirstFitUnique(draws, shift, minlen, maxlen, k);
  }

  lemma {:induction false} FirstFitUnique(draws: seq<(int, int)>, shift: int, minlen: int, maxlen: int, k: nat)
    requires k < |draws| && Fits(draws[k], shift, minlen, maxlen)
    requires forall m :: 0 <= m < k ==> !Fits(draws[m], shift, minlen, maxlen)
    ensures FirstFit(draws, shift, minlen, maxlen) == Some(k)
  {
  }

  /** The particles a crankshaft rotates for the axis d: those strictly between its two ends. */
  function CrankSelection(d: (int, int)): seq<int>
  {
    var lo := if d.0 > d.1 then d.1 else d.0;
    var hi := if d.0 > d.1 then d.0 else d.1;
    Interval(lo + 1, hi)
  }

  /** For an axis that fits, the crankshaft rotates between minlen and maxlen particles, none of them an end of the axis. */
  lemma {:induction false} CrankSelectionShape(d: (int, int), minlen: int, maxlen: int)
    requires Fits(d, 1, minlen, maxlen) && minlen >= 0
    ensures |CrankSelection(d)| == Abs(d.0 - d.1) - 1
    ensures minlen <= |CrankSelection(d)| <= maxlen
    ensures d.0 !in CrankSelection(d) && d.1 !in CrankSelection(d)
    ensures forall i :: i in CrankSelection(d) <==> (d.0 < i < d.1 || d.1 < i < d.0)
  {
    var lo := if d.0 > d.1 then d.1 else d.0;
    var hi := if d.0 > d.1 then d.0 else d.1;
    forall i
      ensures i in CrankSelection(d) <==> lo + 1 <= i < hi
    {
      IntervalMembers(lo + 1, hi, i);
    }
  }

  /** The side a pivot rotates for the axis end e: past e up to back when the coin is positive, else front up to before e. */
  function PivotSide(e: int, coin: real, front: int, back: int): seq<int>
  {
    if coin > 0.0 then Interval(e + 1, back + 1) else Interval(front, e)
  }

  /**
   * The outer loop of Pivot::findParticles: draw a fitting axis, flip the
   * coin, and start over while the chosen side is empty.  None when the
   * draws run out first.
   */
  function PivotSelection(draws: seq<(int, int)>, coins: seq<real>, front: int, back: int, minlen: int, maxlen: int)
    : Option<seq<int>>
    decreases |draws|
  {
    match FirstFit(draws, 0, minlen, maxlen)
    case None => None
    case Some(k) =>
      if |coins| == 0 then None
      else
        var side := PivotSide(draws[k].1, coins[0], front, back);
        if side != [] then Some(side)
        else PivotSelection(draws[k + 1..], coins[1..], front, back, minlen, maxlen)
  }

  /** A run of consecutive members of the group [front, back] that ends at back or starts at front. */
  predicate PivotShaped(s: seq<int>, front: int, back: int)
  {
    && (forall k :: 0 <= k < |s| ==> front <= s[k] <= back && s[k] == s[0] + k)
    && (s != [] ==> s[|s| - 1] == back || s[0] == front)
  }

  /** Every side of a pivot end inside the group has that shape, and leaves the pivot end itself alone. */
  lemma {:induction false} PivotSideShape(e: int, coin: real, front: int, back: int)
    requires front <= e <= back
    ensures PivotShaped(PivotSide(e, coin, front, back), front, back)
    ensures e !in PivotSide(e, coin, front, back)
  {
    var s := PivotSide(e, coin, front, back);
    assert forall j :: 0 <= j < |s| ==> s[j] != e;
  }

  /**
   * When every drawn end lies in the group [front, back], the pivot rotates a
   * non-empty run of consecutive group members that ends at back or starts at
   * front.
   */
  lemma {:induction false} PivotSelectionShape(draws: seq<(int, int)>, coins: seq<real>, front: int, back: int,
                                               minlen: int, maxlen: int)
    requires forall k :: 0 <= k < |draws| ==> front <= draws[k].1 <= back
    ensures PivotSelection(draws, coins, front, back, minlen, maxlen).Some? ==>
              var s := PivotSelection(draws, coins, front, back, minlen, maxlen).value;
              s != [] && PivotShaped(s, front, back)
    decreases |draws|
  {
    var f := FirstFit(draws, 0, minlen, maxlen);
    if f.Some? && |coins| > 0 {
      var k := f.value;
      var side := PivotSide(draws[k].1, coins[0], front, back);
      var rest := draws[k + 1..];
      assert PivotSelection(draws, coins, front, back, minlen, maxlen)
             == if side != [] then Some(side) else PivotSelection(rest, coins[1..], front, back, minlen, maxlen);
      if side != [] {
        PivotSideShape(draws[k].1, coins[0], front, back);
      } else {
        assert forall m :: 0 <= m < |rest| ==> rest[m] == draws[k + 1 + m];
        PivotSelectionShape(rest, coins[1..], front, back, minlen, maxlen);
      }
    }
  }

  /** One round of the outer loop: a fitting axis and a coin are there, and either the side is taken or the search restarts after them. */
  lemma {:induction false} PivotStep(draws: seq<(int, int)>, coins: seq<real>, front: int, back: int, minlen: int, maxlen: int)
    requires PivotSelection(draws, coins, front, back, minlen, maxlen).Some?
    ensures FirstFit(draws, 0, minlen, maxlen).Some? && |coins| > 0
    ensures var k := FirstFit(draws, 0, minlen, maxlen).value;
      var side := PivotSide(draws[k].1, coins[0], front, back);
      PivotSelection(draws, coins, front, back, minlen, maxlen)
      == if side != [] then Some(side) else PivotSelection(draws[k + 1..], coins[1..], front, back, minlen, maxlen)
  {
  }

  class CrankShaft {
    var index: seq<int>
    var minlen: int
    var maxlen: int

    /** The minimum and maximum come from the input; the source asserts minlen <= maxlen. */
    constructor (minlen0: int, maxlen0: int)
      requires minlen0 <= maxlen0
      ensures minlen == minlen0 && maxlen == maxlen0 && index == []
    {
      minlen, maxlen := minlen0, maxlen0;
      index := [];
    }

    /**
     * findParticles(): draw axes until one spans minlen..maxlen particles,
     * order its ends, and collect the particles strictly between them.
     */
    method FindParticles(draws: seq<(int, int)>) returns (ok: bool)
      requires FirstFit(draws, 1, minlen, maxlen).Some?
      modifies this
      ensures ok && minlen == old(minlen) && maxlen == old(maxlen)
      ensures index == CrankSelection(draws[FirstFit(draws, 1, minlen, maxlen).value])
      ensures minlen >= 0 ==> minlen <= |index| <= maxlen
    {
      var k := DrawAxis(draws, 1, minlen, maxlen);
      var beg, end := draws[k].0, draws[k].1;
      index := [];
      if beg > end {
        beg, end := end, beg;
      }
      var i := beg + 1;
      while i < end
        invariant beg + 1 <= i && (i <= end || (beg + 1 == i && end < i))
        invariant index == Interval(beg + 1, i)
        invariant minlen == old(minlen) && maxlen == old(maxlen)
      {
        index := index + [i];
        i := i + 1;
      }
      if minlen >= 0 {
        CrankSelectionShape(draws[k], minlen, maxlen);
      }
      ok := true;
    }
  }

  class Pivot {
    var index: seq<int>
    var minlen: int
    var maxlen: int

    /** The crankshaft constructor reads minlen and maxlen; the pivot then sets minlen to 1. */
    constructor (minlen0: int, maxlen0: int)
      requires minlen0 <= maxlen0
      ensures minlen == 1 && maxlen == maxlen0 && index == []
    {
      minlen, maxlen := 1, maxlen0;
      index := [];
    }

    /** One side of the pivot end e, collected by the source's push_back loops. */
    static method CollectSide(e: int, coin: real, front: int, back: int) returns (s: seq<int>)
      ensures s == PivotSide(e, coin, front, back)
    {
      s := [];
      var lo, hi := if coin > 0.0 then e + 1 else front, if coin > 0.0 then back + 1 else e;
      var i := lo;
      while i < hi
        invariant lo <= i && (i <= hi || (lo == i && hi < i))
        invariant s == Interval(lo, i)
      {
        s := s + [i];
        i := i + 1;
      }
    }

    /**
     * findParticles(): repeat (draw axes until one spans minlen..maxlen
     * bonds, then collect the side the coin picks) until the side is not
     * empty.  front and back are the group's bounds.
     */
    method FindParticles(draws: seq<(int, int)>, coins: seq<real>, front: int, back: int) returns (ok: bool)
      requires PivotSelection(draws, coins, front, back, minlen, maxlen).Some?
      modifies this
      ensures ok && minlen == old(minlen) && maxlen == old(maxlen)
      ensures Some(index) == PivotSelection(draws, coins, front, back, minlen, maxlen)
    {
      ghost var target := PivotSelection(draws, coins, front, back, minlen, maxlen);
      var d, c := 0, 0;
      index := [];
      while index == []
        invariant d <= |draws| && c <= |coins|
        invariant minlen == old(minlen) && maxlen == old(maxlen)
        invariant index == [] ==> PivotSelection(draws[d..], coins[c..], front, back, minlen, maxlen) == target
        invariant index != [] ==> Some(index) == target
        decreases |draws| - d, if index == [] then 1 else 0
      {
        var rest, flips := draws[d..], coins[c..];
        PivotStep(rest, flips, front, back, minlen, maxlen);
        var k := DrawAxis(rest, 0, minlen, maxlen);
        var side := CollectSide(rest[k].1, flips[0], front, back);
        index := side;
        assert rest[k + 1..] == draws[d + k + 1..] && flips[1..] == coins[c + 1..];
        d, c := d + k + 1, c + 1;
      }
      ok := true;
    }
  }
}
