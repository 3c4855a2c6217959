/**
 * A continuous range of integers [front, back], stored as the half-open pair
 * begin_ .. end_ of two iterators over the integers.  Groups of particles are
 * such ranges.
 */
module Ranges {

  /** A forward iterator over the integers: it holds the current value and `++` advances it. */
  class RangeIterator {
    var i: int

    constructor (start: int)
      ensures i == start
    {
      i := start;
    }

    /** operator* */
    function Deref(): (r: int)
      reads this
      ensures r == i
    {
      i
    }

    /** Prefix ++: advance by one. */
    method Increment()
      modifies this
      ensures i == old(i) + 1
    {
      i := i + 1;
    }

    /** Postfix ++: advance by one and hand back the value before. */
    method PostIncrement() returns (before: int)
      modifies this
      ensures before == old(i) && i == old(i) + 1
    {
      before := i;
      i := i + 1;
    }

    /** operator+ and operator-: a copy moved by k, this iterator unchanged. */
    method Plus(k: int) returns (copy: RangeIterator)
      ensures fresh(copy) && copy.i == i + k
    {
      copy := new RangeIterator(i + k);
    }

    method Minus(k: int) returns (copy: RangeIterator)
      ensures fresh(copy) && copy.i == i - k
    {
      copy := new RangeIterator(i - k);
    }
  }

  class ContinuousRange {
    var begin: int
    var end: int

    /** ContinuousRange(first, size): the range first .. first + size - 1. */
    constructor (first: int, size: int)
      ensures Front() == first && Size() == size
    {
      begin := first;
      end := first + size;
    }

    /** The first value: the one the begin iterator points at. */
    function Front(): (r: int)
      reads this
      ensures r == begin
    {
      begin
    }

    /** The last value is one before end. */
    function Back(): (r: int)
      reads this
      ensures r == Front() + Size() - 1
    {
      end - 1
    }

    /** The number of values: how far end lies past begin. */
    function Size(): (n: int)
      reads this
      ensures begin + n == end
      ensures n > 0 <==> begin < end
    {
      end - begin
    }

    /** Empty exactly when end is not past begin. */
    function Empty(): (r: bool)
      reads this
      ensures r <==> Size() <= 0
      ensures r <==> Back() < Front()
    {
      if end <= begin then true else false
    }

    /** find(i): i lies between front and back, both included. */
    function Find(i: int): (r: bool)
      reads this
      ensures r <==> Front() <= i <= Back()
      ensures r ==> !Empty()
    {
      if i > Back() then false
      else if i < Front() then false
      else true
    }

    /** clear(): back to the default range, empty at 0. */
    method Clear()
      modifies this
      ensures Front() == 0 && Size() == 0 && Empty()
    {
      begin, end := 0, 0;
    }

    /** resize(n): same front, n elements. */
    method Resize(n: int)
      requires n >= 0
      modifies this
      ensures Front() == old(Front()) && Size() == n
    {
      end := begin + n;
    }

    /** setfront(f): moves the beginning only; the end stays. */
    method SetFront(f: int)
      modifies this
      ensures Front() == f && end == old(end)
    {
      begin := f;
    }

    /** setback(b): moves the end only, so that back() == b. */
    method SetBack(b: int)
      modifies this
      ensures Back() == b && Front() == old(Front())
    {
      end := b + 1;
    }

    /**
     * setrange(f, b): [f, b] when b >= 0, otherwise the empty range at f.  The
     * source asserts afterwards that the size is not negative.
     */
    method SetRange(f: int, b: int)
      requires b < 0 || f <= b + 1
      modifies this
      ensures Front() == f && Size() >= 0
      ensures b >= 0 ==> Back() == b
      ensures b < 0 ==> Empty() && Size() == 0
    {
      SetFront(f);
      if b >= 0 {
        SetBack(b);
      } else {
        SetBack(f - 1);
      }
    }

    method Begin() returns (it: RangeIterator)
      ensures fresh(it) && it.i == Front()
    {
      it := new RangeIterator(begin);
    }

    method End() returns (it: RangeIterator)
      ensures fresh(it) && it.i == Back() + 1
    {
      it := new RangeIterator(end);
    }

    /**
     * `for (auto i : r)`: walk an iterator from begin() until it equals end(),
     * collecting each dereferenced value.  The walk reaches end() only when the
     * size is not negative.
     */
    method Elements() returns (r: seq<int>)
      requires Size() >= 0
      ensures |r| == Size()
      ensures forall k :: 0 <= k < |r| ==> r[k] == Front() + k
      ensures forall i :: i in r <==> Find(i)
    {
      var it := Begin();
      var stop := End();
      r := [];
      while it.i != stop.i
        invariant Front() <= it.i <= stop.i == end
        invariant |r| == it.i - Front()
        invariant forall k :: 0 <= k < |r| ==> r[k] == Front() + k
        decreases stop.i - it.i
      {
        var v := it.Deref();
        r := r + [v];
        it.Increment();
      }
      forall i | Find(i)
        ensures i in r
      {
        assert r[i - Front()] == i;
      }
    }
  }
}
