/** Facts about `d * d` over the reals.  Z3 rewrites a bare `d * d > 0.0`
    into `d != 0.0`, which loses the fact, so every lemma here names the
    product `p` or the square `s` and states what it knows about that. */
module Squares {
  lemma ProductOfPositives(a: real, b: real, p: real)
    requires p == a * b && a > 0.0 && b > 0.0
    ensures p > 0.0
  {
  }

  lemma ProductOfNegatives(a: real, b: real, p: real)
    requires p == a * b && a < 0.0 && b < 0.0
    ensures p > 0.0
  {
  }

  /** The square of a non-zero number is positive. */
  lemma SquareNonzero(d: real, s: real)
    requires s == d * d && d != 0.0
    ensures s > 0.0
  {
    if d > 0.0 {
      ProductOfPositives(d, d, s);
    } else {
      ProductOfNegatives(d, d, s);
    }
  }

  /** A square is non-negative, and zero exactly at zero. */
  lemma SquareFacts(d: real, s: real)
    requires s == d * d
    ensures s >= 0.0 && (s == 0.0 <==> d == 0.0)
  {
    if d != 0.0 {
      SquareNonzero(d, s);
    }
  }
}
