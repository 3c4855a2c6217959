/**
 * The integer state of the ran2 generator of Numerical Recipes: two
 * multiplicative congruential generators stepped with Schrage's method,
 * shuffled through a table of 32 entries.
 *
 * All arithmetic of the generator is on 32-bit ints; the lemmas below show
 * that no intermediate value leaves that range, so unbounded integers
 * compute exactly what the source computes.  The conversion of the shuffled
 * value into a double is modelled on reals.
 */
module Ran2 {
  import opened Arith


  const IM1: int := 2147483563
  const IM2: int := 2147483399
  const IA1: int := 40014
  const IA2: int := 40692
  const IQ1: int := 53668
  const IQ2: int := 52774
  const IR1: int := 12211
  const IR2: int := 3791
  const NTAB: int := 32
  const IMM1: int := IM1 - 1
  const NDIV: int := 1 + IMM1 / NTAB

  /** One past the largest value of a 32-bit int. */
  const IntRange: int := 0x8000_0000

  /** The largest value returned, just below one. */
  const RNMX: real := 1.0 - 0.0000000000000003

  // ---------------------------------------------------------------------
  // Schrage's method

  /** a*(x mod q) - (x div q)*r, brought back into [0, m) by one addition of m. */
  function Schrage(x: int, a: int, q: int, r: int, m: int): int
    requires x >= 0 && q > 0
  {
    var k := x / q;
    var y := a * (x - k * q) - k * r;
    if y < 0 then y + m else y
  }

  /** With m == a*q + r and (x div q)*r < m the step lands in [0, m). */
  lemma {:induction false} SchrageInRange(x: int, a: int, q: int, r: int, m: int)
    requires x >= 0 && a > 0 && q > 0 && r >= 0 && m == a * q + r
    requires (x / q) * r < m
    ensures 0 <= Schrage(x, a, q, r, m) < m
  {
    var k := x / q;
    var rem := x - k * q;
    MulMono(a, rem, q - 1);
    assert a * (q - 1) == a * q - a;
    MulMono(k, 0, r);
  }

  /**
   * Schrage's identity: when m == a*q + r and (x div q)*r < m, the step
   * computes a*x mod m without forming the product a*x.
   */
  lemma {:induction false} SchrageIsMod(x: int, a: int, q: int, r: int, m: int)
    requires x >= 0 && a > 0 && q > 0 && r >= 0 && m == a * q + r
    requires (x / q) * r < m
    ensures Schrage(x, a, q, r, m) == (a * x) % m
  {
    var k := x / q;
    var rem := x - k * q;
    assert a * x == k * m + (a * rem - k * r) by {
      assert a * x == a * (k * q) + a * rem;
      assert a * (k * q) == k * (a * q);
      assert k * m == k * (a * q) + k * r;
    }
    SchrageInRange(x, a, q, r, m);
    var y := a * rem - k * r;
    if y >= 0 {
      DivUnique(a * x, m, k, y);
    } else {
      assert a * x == m * (k - 1) + (y + m);
      DivUnique(a * x, m, k - 1, y + m);
    }
  }

  /**
   * Every intermediate of a Schrage step on a non-negative 32-bit value
   * stays inside the 32-bit range, for both generators.
   */
  lemma {:induction false} SchrageFitsInt(x: int)
    requires 0 <= x < IntRange
    ensures 0 <= IA1 * (x - (x / IQ1) * IQ1) < IntRange && 0 <= (x / IQ1) * IR1 < IntRange
    ensures 0 <= IA2 * (x - (x / IQ2) * IQ2) < IntRange && 0 <= (x / IQ2) * IR2 < IntRange
  {
    MulMono(IA1, x - (x / IQ1) * IQ1, IQ1 - 1);
    MulMono(IA2, x - (x / IQ2) * IQ2, IQ2 - 1);
    MulMono(IR1, x / IQ1, 40015);
    MulMono(IR2, x / IQ2, 40692);
    MulMono(IR1, 0, x / IQ1);
    MulMono(IR2, 0, x / IQ2);
  }

  /** The first generator's step on a non-negative 32-bit idum; its result is below IM1. */
  function Step1(x: int): (r: int)
    requires 0 <= x < IntRange
    ensures 0 <= r < IM1
  {
    SchrageFitsInt(x);
    SchrageInRange(x, IA1, IQ1, IR1, IM1);
    Schrage(x, IA1, IQ1, IR1, IM1)
  }

  /** The second generator's step on idum2; its result is below IM2. */
  function Step2(x: int): (r: int)
    requires 0 <= x < IntRange
    ensures 0 <= r < IM2
  {
    SchrageFitsInt(x);
    SchrageInRange(x, IA2, IQ2, IR2, IM2);
    Schrage(x, IA2, IQ2, IR2, IM2)
  }

  /** The first generator's step is multiplication by IA1 modulo IM1. */
  lemma {:induction false} Step1IsMod(x: int)
    requires 0 <= x < IntRange
    ensures Step1(x) == (IA1 * x) % IM1
  {
    SchrageFitsInt(x);
    SchrageIsMod(x, IA1, IQ1, IR1, IM1);
  }

  /** The second generator's step is multiplication by IA2 modulo IM2. */
  lemma {:induction false} Step2IsMod(x: int)
    requires 0 <= x < IntRange
    ensures Step2(x) == (IA2 * x) % IM2
  {
    SchrageFitsInt(x);
    SchrageIsMod(x, IA2, IQ2, IR2, IM2);
  }

  /** n steps of the first generator from x; after at least one step the value is below IM1. */
  function Iter(x: int, n: nat): (r: int)
    requires 0 <= x < IntRange
    ensures 0 <= r < IntRange
    ensures n > 0 ==> r < IM1
  {
    if n == 0 then x else Step1(Iter(x, n - 1))
  }

  /** seed(s) for s <= 0 starts both generators from 1 when s == 0 and from -s otherwise. */
  function SeedStart(s: int): (x: int)
    requires -IntRange < s <= 0
    ensures 0 < x < IntRange
  {
    if s == 0 then 1 else -s
  }

  /** The shuffle table seed leaves: entry t holds the value after 40 - t steps (the last 32 of 40). */
  function SeedTable(x: int): (t: seq<int>)
    requires 0 <= x < IntRange
    ensures |t| == NTAB
    ensures forall k :: 0 <= k < NTAB ==> 0 <= t[k] < IM1
  {
    seq(NTAB, k requires 0 <= k < NTAB => Iter(x, NTAB + 8 - k))
  }

  /** The new shuffled output: iv[j] - idum2, lifted by IMM1 when below one. */
  function Shuffled(ivj: int, idum2: int): (y: int)
    requires 0 <= ivj < IM1 && 0 <= idum2 < IM2
    ensures 1 <= y <= IMM1
  {
    var y := ivj - idum2;
    if y < 1 then y + IMM1 else y
  }

  /** Any shuffled output, divided by NDIV, is a valid index of the table. */
  lemma {:induction false} TableIndexInRange(iy: int)
    requires 0 <= iy <= IMM1
    ensures 0 <= iy / NDIV < NTAB
  {
  }

  /** The double returned: iy / IM1, capped at RNMX; always strictly inside (0, 1). */
  function Output(iy: int): (x: real)
    requires 1 <= iy <= IMM1
    ensures 0.0 < x < 1.0
    ensures x <= RNMX
  {
    var temp := iy as real / IM1 as real;
    if temp > RNMX then RNMX else temp
  }

  class RandomRan2 {
    var idum: int
    var idum2: int
    var iy: int
    var iv: array<int>

    /** The state every step relies on: each value a non-negative 32-bit int, the table in range. */
    ghost predicate Valid()
      reads this, iv
    {
      && iv.Length == NTAB
      && 0 <= idum < IntRange && 0 <= idum2 < IntRange && 0 <= iy <= IMM1
      && forall k :: 0 <= k < NTAB ==> 0 <= iv[k] < IM1
    }

    /** The constructor sets idum2 = 123456789 and iy = 0 and then seeds with -13. */
    constructor ()
      ensures Valid() && fresh(iv)
      ensures idum == Iter(13, NTAB + 8) && idum2 == 13
      ensures iv[..] == SeedTable(13) && iy == iv[0]
    {
      iv := new int[NTAB];
      idum := 0;
      iy := 0;
      idum2 := 123456789;
      new;
      Seed(-13);
    }

    /**
     * seed(s): a positive s only becomes idum.  Otherwise both generators
     * start from SeedStart(s), the first is stepped NTAB + 8 times, the last
     * NTAB values fill the table from its end, and iy takes iv[0].
     */
    method Seed(s: int)
      requires -IntRange < s < IntRange
      requires iv.Length == NTAB
      modifies this, iv
      ensures iv == old(iv)
      ensures s > 0 ==> idum == s && idum2 == old(idum2) && iy == old(iy) && iv[..] == old(iv[..])
      ensures s <= 0 ==>
        var x := SeedStart(s);
        idum == Iter(x, NTAB + 8) && idum2 == x && iv[..] == SeedTable(x) && iy == iv[0]
      ensures old(Valid()) || s <= 0 ==> Valid()
    {
      idum := s;
      if idum <= 0 {
        idum := if idum == 0 then 1 else -idum;
        idum2 := idum;
        idum := FillTable(iv, idum);
        iy := iv[0];
      }
    }

    /** The loop of seed: NTAB + 8 steps from x, the last NTAB of them stored from the end of the table. */
    static method FillTable(iv: array<int>, x: int) returns (v: int)
      requires iv.Length == NTAB && 0 <= x < IntRange
      modifies iv
      ensures v == Iter(x, NTAB + 8) && iv[..] == SeedTable(x)
    {
      v := x;
      var j := NTAB + 7;
      while j >= 0
        invariant -1 <= j <= NTAB + 7
        invariant v == Iter(x, NTAB + 7 - j)
        invariant forall t :: j < t < NTAB ==> iv[t] == Iter(x, NTAB + 8 - t)
        decreases j
      {
        assert Step1(v) == Iter(x, NTAB + 8 - j);
        v := Step1(v);
        if j < NTAB {
          iv[j] := v;
        }
        j := j - 1;
      }
      ghost var table := SeedTable(x);
      assert forall t :: 0 <= t < NTAB ==> iv[t] == table[t];
      assert iv[..] == table;
    }

    /**
     * One step of _randone after its seed(idum) call: both generators
     * advance, the table entry picked by the previous output is replaced by
     * the new idum, and the old entry less idum2 becomes the output.
     */
    method Draw() returns (x: real)
      requires Valid()
      modifies this, iv
      ensures iv == old(iv) && Valid()
      ensures idum == Step1(old(idum)) && idum2 == Step2(old(idum2))
      ensures var j := old(iy) / NDIV;
        0 <= j < NTAB && iv[..] == old(iv[..])[j := idum] && iy == Shuffled(old(iv[j]), idum2)
      ensures x == Output(iy)
    {
      idum := Step1(idum);
      idum2 := Step2(idum2);
      TableIndexInRange(iy);
      var j := iy / NDIV;
      iy := Shuffled(iv[j], idum2);
      iv[j] := idum;
      x := Output(iy);
    }

    /**
     * _randone: seed(idum), which does nothing for the positive idum every
     * step leaves except after idum reaches zero, then one draw.
     */
    method RandOne() returns (x: real)
      requires Valid()
      modifies this, iv
      ensures iv == old(iv) && Valid()
      ensures 0.0 < x < 1.0
      ensures old(idum) > 0 ==>
        idum == Step1(old(idum)) && idum2 == Step2(old(idum2))
        && var j := old(iy) / NDIV;
        0 <= j < NTAB && iv[..] == old(iv[..])[j := idum] && iy == Shuffled(old(iv[j]), idum2)
    {
      Seed(idum);
      x := Draw();
    }
  }
}
