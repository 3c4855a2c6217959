/**
 * TranslateRotateNbody::setGroup: the molecular groups to move, and the list
 * of every unordered pair of groups whose interaction a move must
 * recompute.  Groups are identified by integers standing for their pointer
 * values; whether a group is molecular is a predicate passed in.
 */
module Nbody {
  import opened Auxiliary

  /** The members of v that are molecular, in the order of v. */
  function Molecular(v: seq<int>, molecular: int -> bool): (r: seq<int>)
    ensures forall g :: g in r <==> g in v && molecular(g)
    ensures |r| <= |v|
  {
    if v == [] then []
    else
      var rest := Molecular(v[..|v| - 1], molecular);
      assert forall g :: g in v <==> g in v[..|v| - 1] || g == v[|v| - 1];
      if molecular(v[|v| - 1]) then rest + [v[|v| - 1]] else rest
  }

  /** Every ordered pair built from an element of xs and an element of ys. */
  ghost function Pairs(xs: seq<int>, ys: seq<int>): set<OPair>
  {
    set a, b | a in xs && b in ys :: MakeOPair(a, b)
  }

  lemma {:induction false} PairsSnocLeft(xs: seq<int>, x: int, ys: seq<int>)
    ensures Pairs(xs + [x], ys) == Pairs(xs, ys) + Pairs([x], ys)
  {
    forall q | q in Pairs(xs + [x], ys)
      ensures q in Pairs(xs, ys) + Pairs([x], ys)
    {
      var a, b :| a in xs + [x] && b in ys && q == MakeOPair(a, b);
      if a == x {
        assert q in Pairs([x], ys);
      } else {
        assert a in xs;
      }
    }
    forall q | q in Pairs(xs, ys)
      ensures q in Pairs(xs + [x], ys)
    {
      var a, b :| a in xs && b in ys && q == MakeOPair(a, b);
      assert a in xs + [x];
    }
    forall q | q in Pairs([x], ys)
      ensures q in Pairs(xs + [x], ys)
    {
      var a, b :| a in [x] && b in ys && q == MakeOPair(a, b);
      assert a in xs + [x];
    }
  }

  lemma {:induction false} PairsSnocRight(x: int, ys: seq<int>, y: int)
    ensures Pairs([x], ys + [y]) == Pairs([x], ys) + {MakeOPair(x, y)}
  {
    forall q | q in Pairs([x], ys + [y])
      ensures q in Pairs([x], ys) + {MakeOPair(x, y)}
    {
      var a, b :| a in [x] && b in ys + [y] && q == MakeOPair(a, b);
      if b != y {
        assert b in ys;
      }
    }
    forall q | q in Pairs([x], ys)
      ensures q in Pairs([x], ys + [y])
    {
      var a, b :| a in [x] && b in ys && q == MakeOPair(a, b);
      assert b in ys + [y];
    }
    assert y in ys + [y];
  }

  lemma {:induction false} PairsEmptyRight(x: int)
    ensures Pairs([x], []) == {}
  {
    if q :| q in Pairs([x], []) {
      assert false;
    }
  }

  /** Strictly ascending in std::pair order: sorted, and so without repeats. */
  predicate StrictlySorted(s: seq<OPair>)
  {
    forall a, b :: 0 <= a < b < |s| ==> PairLess(s[a], s[b])
  }

  lemma {:induction false} PairLessTransitive(p: OPair, q: OPair, r: OPair)
    requires PairLess(p, q) && PairLess(q, r)
    ensures PairLess(p, r)
  {
  }

  lemma {:induction false} HasPair(s: set<OPair>)
    requires s != {}
    ensures exists q :: q in s
  {
    if forall q :: q !in s {
      assert false;
    }
  }

  /** The least pair of a non-empty set: what a std::set iteration visits first. */
  ghost function LeastPair(s: set<OPair>): (m: OPair)
    requires s != {}
    ensures m in s && forall q :: q in s ==> q == m || PairLess(m, q)
  {
    HasPair(s);
    var x :| x in s;
    if s == {x} then x
    else
      var rest := s - {x};
      assert forall q :: q in s ==> q == x || q in rest;
      var y := LeastPair(rest);
      PairLessTotal(x, y);
      if PairLess(x, y) then
        assert forall q :: q in rest ==> q == y || PairLess(y, q);
        assert forall q :: q in rest ==> PairLess(x, q) by {
          forall q | q in rest
            ensures PairLess(x, q)
          {
            if q != y {
              PairLessTransitive(x, y, q);
            }
          }
        }
        x
      else y
  }

  class TranslateRotateNbody {
    var gVec: seq<int>
    var pairlist: seq<OPair>

    constructor ()
      ensures gVec == [] && pairlist == []
    {
      gVec, pairlist := [], [];
    }

    /** The inner loop: the pairs of x with every member of v, added to l. */
    static method AddRow(l: set<OPair>, x: int, v: seq<int>) returns (l': set<OPair>)
      ensures l' == l + Pairs([x], v)
    {
      l' := l;
      PairsEmptyRight(x);
      assert v[..0] == [];
      var m := 0;
      while m < |v|
        invariant 0 <= m <= |v|
        invariant l' == l + Pairs([x], v[..m])
      {
        PairsSnocRight(x, v[..m], v[m]);
        assert v[..m + 1] == v[..m] + [v[m]];
        l' := l' + {MakeOPair(x, v[m])};
        m := m + 1;
      }
      assert v[..m] == v;
    }

    /** `for (auto i : l) pairlist.push_back(i)`: the set's elements in ascending order. */
    static method Ascending(l: set<OPair>) returns (s: seq<OPair>)
      ensures forall q :: q in s <==> q in l
      ensures StrictlySorted(s)
    {
      s := [];
      var rest := l;
      while rest != {}
        invariant rest <= l
        invariant forall q :: q in l <==> q in s || q in rest
        invariant StrictlySorted(s)
        invariant forall a, q :: 0 <= a < |s| && q in rest ==> PairLess(s[a], q)
        decreases rest
      {
        ghost var least := LeastPair(rest);
        var q :| q in rest && forall r :: r in rest ==> r == q || PairLess(q, r);
        s := s + [q];
        rest := rest - {q};
      }
    }

    /**
     * setGroup(v): gVec becomes the molecular members of v in order, and
     * pairlist every unordered pair of members of v, self-pairs included,
     * each exactly once, in ascending order.
     */
    method SetGroup(v: seq<int>, molecular: int -> bool)
      modifies this
      ensures gVec == Molecular(v, molecular)
      ensures forall q :: q in pairlist <==> exists a, b :: a in v && b in v && q == MakeOPair(a, b)
      ensures StrictlySorted(pairlist)
    {
      gVec := [];
      pairlist := [];
      var l: set<OPair> := {};
      var k := 0;
      while k < |v|
        invariant 0 <= k <= |v|
        invariant gVec == Molecular(v[..k], molecular)
        invariant l == Pairs(v[..k], v)
      {
        assert v[..k + 1] == v[..k] + [v[k]];
        assert v[..k + 1][..k] == v[..k];
        if molecular(v[k]) {
          gVec := gVec + [v[k]];
        }
        PairsSnocLeft(v[..k], v[k], v);
        l := AddRow(l, v[k], v);
        k := k + 1;
      }
      assert v[..k] == v;
      pairlist := Ascending(l);
    }
  }
}
