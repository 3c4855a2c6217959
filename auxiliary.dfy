/**
 * Small helpers: the ordered pair, two pair-keyed containers, the boolean
 * reading of a string, and the pair visitor over a sequence.
 *
 * Elements of ordered pairs are integers; where the source orders group
 * pointers, the integers stand for the pointer values.
 */
module Auxiliary {
  import opened Outcomes

  // ---------------------------------------------------------------------
  // opair

  /** An ordered pair: first <= second always holds for pairs built by MakeOPair. */
  datatype OPair = OPair(first: int, second: int)

  /** opair(a, b): the smaller element goes first. */
  function MakeOPair(a: int, b: int): (r: OPair)
    ensures r.first <= r.second
    ensures (r.first == a && r.second == b) || (r.first == b && r.second == a)
  {
    if a > b then OPair(b, a) else OPair(a, b)
  }

  /** opair(a, b) == opair(b, a). */
  lemma {:induction false} MakeOPairSymmetric(a: int, b: int)
    ensures MakeOPair(a, b) == MakeOPair(b, a)
  {
  }

  /** Two ordered pairs are equal exactly when they are built from the same two elements in some order. */
  lemma {:induction false} MakeOPairInjective(a: int, b: int, c: int, d: int)
    ensures MakeOPair(a, b) == MakeOPair(c, d) <==> ((a == c && b == d) || (a == d && b == c))
  {
  }

  /** opair::find(i): i is one of the two elements. */
  function OPairFind(p: OPair, i: int): (r: bool)
    ensures r <==> i == p.first || i == p.second
  {
    if i != p.first then (if i != p.second then false else true) else true
  }

  lemma {:induction false} OPairFindMembers(a: int, b: int, i: int)
    ensures OPairFind(MakeOPair(a, b), i) <==> i == a || i == b
  {
  }

  /** std::pair's ordering: lexicographic on (first, second). */
  predicate PairLess(p: OPair, q: OPair)
  {
    p.first < q.first || (p.first == q.first && p.second < q.second)
  }

  lemma {:induction false} PairLessTotal(p: OPair, q: OPair)
    ensures p == q || PairLess(p, q) || PairLess(q, p)
    ensures !(PairLess(p, q) && PairLess(q, p))
  {
  }

  // ---------------------------------------------------------------------
  // str2val<bool>

  /** str2val<bool>: "yes" and "true" read as true, "no" and "false" as false, anything else as the fallback. */
  function Str2Bool(s: string, fallback: bool): (r: bool)
    ensures s == "yes" || s == "true" ==> r
    ensures s == "no" || s == "false" ==> !r
    ensures s != "yes" && s != "true" && s != "no" && s != "false" ==> r == fallback
  {
    if s == "yes" || s == "true" then true
    else if s == "no" || s == "false" then false
    else fallback
  }

  /** The fallback matters exactly when the string is none of the four words. */
  lemma {:induction false} Str2BoolFallback(s: string)
    ensures Str2Bool(s, true) != Str2Bool(s, false) <==> s !in {"yes", "true", "no", "false"}
    ensures s in {"yes", "true"} ==> Str2Bool(s, false)
    ensures s in {"no", "false"} ==> !Str2Bool(s, true)
  {
  }

  // ---------------------------------------------------------------------
  // pair_list

  /** pair_list: data stored under an ordered pair, plus a multimap holding both directions of each added pair. */
  class PairList<D> {
    var list: map<OPair, D>
    var mlist: multiset<(int, int)>

    constructor ()
      ensures list == map[] && mlist == multiset{}
    {
      list, mlist := map[], multiset{};
    }

    /** operator()(i, j) on a pair that is present; both orders reach the same entry. */
    function Get(i: int, j: int): D
      reads this
      requires MakeOPair(i, j) in list
    {
      list[MakeOPair(i, j)]
    }

    /** add(i, j, d): d under opair(i, j); (i, j) and (j, i) into mlist. */
    method Add(i: int, j: int, d: D)
      modifies this
      ensures list == old(list)[MakeOPair(i, j) := d]
      ensures mlist == old(mlist) + multiset{(i, j), (j, i)}
      ensures Get(i, j) == d && Get(j, i) == d
    {
      list := list[MakeOPair(i, j) := d];
      mlist := mlist + multiset{(i, j), (j, i)};
    }

    /** clear(): both containers empty. */
    method Clear()
      modifies this
      ensures list == map[] && mlist == multiset{}
    {
      list := map[];
      mlist := multiset{};
    }
  }

  // ---------------------------------------------------------------------
  // map_ij

  /**
   * map_ij: a map keyed by opair(i, j).  operator() is std::map's operator[],
   * which first inserts a default-constructed value when the key is missing.
   */
  class MapIJ<D> {
    var entries: map<OPair, D>
    const default: D

    constructor (d: D)
      ensures entries == map[] && default == d
    {
      entries := map[];
      default := d;
    }

    /** operator()(i, j): the value under opair(i, j), inserting the default first. */
    method At(i: int, j: int) returns (r: D)
      modifies this
      ensures MakeOPair(i, j) in old(entries) ==> entries == old(entries) && r == old(entries)[MakeOPair(i, j)]
      ensures MakeOPair(i, j) !in old(entries) ==> entries == old(entries)[MakeOPair(i, j) := default] && r == default
    {
      var key := MakeOPair(i, j);
      if key !in entries {
        entries := entries[key := default];
      }
      r := entries[key];
    }

    /** Writing v through the reference that operator()(i, j) returns. */
    method Put(i: int, j: int, v: D)
      modifies this
      ensures entries == old(entries)[MakeOPair(i, j) := v]
    {
      entries := entries[MakeOPair(i, j) := v];
    }

    /** find(i, j): the entry under opair(i, j), if any. */
    function Find(i: int, j: int): (r: Option<D>)
      reads this
      ensures r.Some? <==> MakeOPair(i, j) in entries
      ensures r.Some? ==> r.value == entries[MakeOPair(i, j)]
    {
      var key := MakeOPair(i, j);
      if key in entries then Some(entries[key]) else None
    }
  }

  /** map_ij(i, j) and map_ij(j, i) address the same entry, and find sees it from both sides. */
  lemma {:induction false} MapIJSymmetric<D>(m: MapIJ<D>, i: int, j: int)
    ensures m.Find(i, j) == m.Find(j, i)
  {
    MakeOPairSymmetric(i, j);
  }

  // ---------------------------------------------------------------------
  // for_each_pair

  /** The pairs (i, j) with i < j < n whose first index is i, in increasing j. */
  function Row(i: int, n: int): seq<(int, int)>
    decreases n - i
  {
    if n <= i + 1 then [] else Row(i, n - 1) + [(i, n - 1)]
  }

  lemma {:induction false} RowShape(i: int, n: int)
    ensures |Row(i, n)| == if n <= i + 1 then 0 else n - i - 1
    ensures forall k :: 0 <= k < |Row(i, n)| ==> Row(i, n)[k] == (i, i + 1 + k)
    decreases n - i
  {
    if n > i + 1 {
      RowShape(i, n - 1);
    }
  }

  /** All pairs whose first index is below i, row after row. */
  function RowsBefore(i: nat, n: int): seq<(int, int)>
  {
    if i == 0 then [] else RowsBefore(i - 1, n) + Row(i - 1, n)
  }

  /** The visiting order of for_each_pair over n elements. */
  function PairOrder(n: nat): seq<(int, int)>
  {
    RowsBefore(n, n)
  }

  lemma {:induction false} RowMembers(i: int, n: int)
    ensures forall p :: p in Row(i, n) <==> p.0 == i && i < p.1 < n
    decreases n - i
  {
    if n > i + 1 {
      RowMembers(i, n - 1);
    }
  }

  lemma {:induction false} RowsBeforeMembers(i: nat, n: int)
    ensures forall p :: p in RowsBefore(i, n) <==> 0 <= p.0 < i && p.0 < p.1 < n
  {
    if i > 0 {
      RowsBeforeMembers(i - 1, n);
      RowMembers(i - 1, n);
    }
  }

  predicate LexLess(p: (int, int), q: (int, int))
  {
    p.0 < q.0 || (p.0 == q.0 && p.1 < q.1)
  }

  /** Rows come one after another, each in increasing order: the whole is strictly increasing. */
  lemma {:induction false} RowsBeforeSorted(i: nat, n: int)
    ensures forall a, b :: 0 <= a < b < |RowsBefore(i, n)| ==> LexLess(RowsBefore(i, n)[a], RowsBefore(i, n)[b])
  {
    if i > 0 {
      RowsBeforeSorted(i - 1, n);
      RowsBeforeMembers(i - 1, n);
      RowShape(i - 1, n);
      var pre, row := RowsBefore(i - 1, n), Row(i - 1, n);
      var all := pre + row;
      assert all == RowsBefore(i, n);
      forall a, b | 0 <= a < b < |all|
        ensures LexLess(all[a], all[b])
      {
        if b < |pre| {
          assert all[a] == pre[a] && all[b] == pre[b];
        } else if a < |pre| {
          assert all[a] == pre[a];
          assert pre[a] in pre;
          assert all[b] == row[b - |pre|];
        } else {
          assert all[a] == row[a - |pre|] && all[b] == row[b - |pre|];
        }
      }
    }
  }

  /**
   * for_each_pair visits exactly the pairs of positions i < j, in
   * lexicographic order, strictly increasing and hence without repeats.
   */
  lemma {:induction false} PairOrderExact(n: nat)
    ensures forall p :: p in PairOrder(n) <==> 0 <= p.0 < p.1 < n
    ensures forall a, b :: 0 <= a < b < |PairOrder(n)| ==> LexLess(PairOrder(n)[a], PairOrder(n)[b])
    ensures forall a, b :: 0 <= a < b < |PairOrder(n)| ==> PairOrder(n)[a] != PairOrder(n)[b]
  {
    RowsBeforeMembers(n, n);
    RowsBeforeSorted(n, n);
  }

  /**
   * Fold over the visited pairs: x := op(x, f(s[i], s[j])) for each (i, j) of
   * ps in turn.  A pair outside s contributes nothing; the visiting order has
   * none (PairOrder).
   */
  function FoldPairs<T, R>(op: (R, R) -> R, f: (T, T) -> R, s: seq<T>, x0: R, ps: seq<(int, int)>): R
  {
    if ps == [] then x0
    else
      var last, rest := ps[|ps| - 1], FoldPairs(op, f, s, x0, ps[..|ps| - 1]);
      if 0 <= last.0 < |s| && 0 <= last.1 < |s| then op(rest, f(s[last.0], s[last.1])) else rest
  }

  lemma {:induction false} FoldPairsSnoc<T, R>(op: (R, R) -> R, f: (T, T) -> R, s: seq<T>, x0: R,
                                               ps: seq<(int, int)>, p: (int, int))
    requires 0 <= p.0 < |s| && 0 <= p.1 < |s|
    ensures FoldPairs(op, f, s, x0, ps + [p]) == op(FoldPairs(op, f, s, x0, ps), f(s[p.0], s[p.1]))
  {
    assert (ps + [p])[..|ps|] == ps;
  }

  lemma {:induction false} ConcatSnoc<T>(a: seq<T>, b: seq<T>, c: T)
    ensures a + b + [c] == a + (b + [c])
  {
  }

  /** The inner loop of for_each_pair: row i, for j = i + 1 .. n - 1, after the rows before it. */
  method VisitRow<T, R>(s: seq<T>, f: (T, T) -> R, op: (R, R) -> R, x0: R, i: nat, x: R) returns (y: R)
    requires i < |s|
    requires x == FoldPairs(op, f, s, x0, RowsBefore(i, |s|))
    ensures y == FoldPairs(op, f, s, x0, RowsBefore(i + 1, |s|))
  {
    var n := |s|;
    ghost var pre := RowsBefore(i, n);
    ghost var row: seq<(int, int)> := [];
    y := x;
    var j := i + 1;
    assert pre + row == pre;
    while j < n
      invariant i + 1 <= j <= n && row == Row(i, j)
      invariant y == FoldPairs(op, f, s, x0, pre + row)
    {
      FoldPairsSnoc(op, f, s, x0, pre + row, (i, j));
      ConcatSnoc(pre, row, (i, j));
      y := op(y, f(s[i], s[j]));
      row := row + [(i, j)];
      j := j + 1;
    }
  }

  /**
   * for_each_pair(begin, end, f, op): the nested loop over positions i < j.
   * The source leaves the accumulator uninitialised; here it starts at x0.
   */
  method ForEachPair<T, R>(s: seq<T>, f: (T, T) -> R, op: (R, R) -> R, x0: R) returns (x: R)
    ensures x == FoldPairs(op, f, s, x0, PairOrder(|s|))
  {
    x := x0;
    var i := 0;
    while i < |s|
      invariant 0 <= i <= |s|
      invariant x == FoldPairs(op, f, s, x0, RowsBefore(i, |s|))
    {
      x := VisitRow(s, f, op, x0, i, x);
      i := i + 1;
    }
  }

  // The accumulator of for_each_pair (see "Findings" in the README)

  /** std::plus<double>, the default operation of for_each_pair. */
  function Plus(a: real, b: real): real
  {
    a + b
  }

  /** Under + the start value is carried through the fold and added to the sum of the visited terms. */
  lemma {:induction false} SumCarriesStart<T>(f: (T, T) -> real, s: seq<T>, x0: real, ps: seq<(int, int)>)
    ensures FoldPairs(Plus, f, s, x0, ps) == x0 + FoldPairs(Plus, f, s, 0.0, ps)
  {
    if ps != [] {
      SumCarriesStart(f, s, x0, ps[..|ps| - 1]);
    }
  }

  /** Every term a pair sum adds is non-negative, so the sum from zero is too. */
  lemma {:induction false} SumNonNegative<T>(f: (T, T) -> real, s: seq<T>, ps: seq<(int, int)>)
    requires forall p :: p in ps ==> 0 <= p.0 < p.1 < |s|
    requires forall i, j :: 0 <= i < j < |s| ==> f(s[i], s[j]) >= 0.0
    ensures FoldPairs(Plus, f, s, 0.0, ps) >= 0.0
  {
    if ps != [] {
      var rest := ps[..|ps| - 1];
      forall p | p in rest
        ensures 0 <= p.0 < p.1 < |s|
      {
        assert p in ps;
      }
      SumNonNegative(f, s, rest);
      assert ps[|ps| - 1] in ps;
    }
  }

  /**
   * As written, `T x;` leaves a double accumulator uninitialised and the
   * first `operation(x, ...)` reads it.  Two elements 1 and 2 with f the
   * product have the one pair term 2, but an accumulator that happened to
   * hold 7 makes the result 9.
   */
  lemma {:induction false} UninitialisedAccumulatorCounterexample()
    ensures FoldPairs(Plus, (a: real, b: real) => a * b, [1.0, 2.0], 7.0, PairOrder(2)) == 9.0
    ensures FoldPairs(Plus, (a: real, b: real) => a * b, [1.0, 2.0], 0.0, PairOrder(2)) == 2.0
  {
    assert Row(0, 1) == [];
    assert Row(0, 2) == [(0, 1)];
    assert Row(1, 2) == [];
    assert RowsBefore(1, 2) == [(0, 1)];
    assert PairOrder(2) == [(0, 1)];
    assert [(0, 1)][..0] == [];
  }

  /**
   * for_each_pair with std::plus and the accumulator value-initialised to
   * 0: the sum of f over the pairs i < j,no start value carried in.  Fewer
   * than two elements give 0, non-negative terms give a non-negative sum,
   * and the as-written fold from any start x0 is x0 plus this sum.
   */
  method PairSum<T>(s: seq<T>, f: (T, T) -> real) returns (x: real)
    ensures x == FoldPairs(Plus, f, s, 0.0, PairOrder(|s|))
    ensures |s| < 2 ==> x == 0.0
    ensures (forall i, j :: 0 <= i < j < |s| ==> f(s[i], s[j]) >= 0.0) ==> x >= 0.0
    ensures forall x0 :: FoldPairs(Plus, f, s, x0, PairOrder(|s|)) == x0 + x
  {
    x := ForEachPair(s, f, Plus, 0.0);
    PairOrderExact(|s|);
    if forall i, j :: 0 <= i < j < |s| ==> f(s[i], s[j]) >= 0.0 {
      SumNonNegative(f, s, PairOrder(|s|));
    }
    forall x0: real
      ensures FoldPairs(Plus, f, s, x0, PairOrder(|s|)) == x0 + x
    {
      SumCarriesStart(f, s, x0, PairOrder(|s|));
    }
  }
}
