/**
 * Small facts of integer arithmetic shared by the counters, the MPI split
 * and the random number generator.
 */
module Arith {

  /** One more copy of a. */
  lemma {:induction false} MulSucc(a: int, b: int)
    ensures a * (b + 1) == a * b + a
  {
  }

  /** Multiplying by a non-negative factor keeps the order. */
  lemma {:induction false} MulMono(a: int, b: int, c: int)
    requires a >= 0 && b <= c
    ensures a * b <= a * c
  {
    assert a * c - a * b == a * (c - b);
  }

  /** The quotient and remainder of Euclidean division are the only ones. */
  lemma {:induction false} DivUnique(x: int, m: int, q: int, r: int)
    requires m > 0 && 0 <= r < m && x == m * q + r
    ensures x / m == q && x % m == r
  {
    var d := q - x / m;
    assert m * d == x % m - r;
    if d >= 1 {
      MulMono(m, 1, d);
    } else if d <= -1 {
      MulMono(m, d, -1);
    }
  }
}
