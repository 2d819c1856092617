/** Products, quotients and remainders. */
module Arithmetic {

  lemma MulDifference(a: int, b: int, d: int)
    ensures (a - b) * d == a * d - b * d
  {}

  lemma MulAtLeast(k: int, d: nat)
    requires k >= 1
    ensures k * d >= d
  {}

  lemma EuclidUnique(d: nat, q1: int, r1: int, q2: int, r2: int)
    requires 0 <= r1 < d && 0 <= r2 < d && q1 * d + r1 == q2 * d + r2
    ensures q1 == q2 && r1 == r2
  {
    MulDifference(q1, q2, d);
    MulDifference(q2, q1, d);
    if q1 > q2 { MulAtLeast(q1 - q2, d); }
    if q2 > q1 { MulAtLeast(q2 - q1, d); }
  }

  lemma DivModUnique(e: int, d: nat, q: int, r: int)
    requires 0 <= r < d && e == q * d + r
    ensures e / d == q && e % d == r
  {
    EuclidUnique(d, q, r, e / d, e % d);
  }

  lemma MultipleOf(q: int, d: nat)
    requires d > 0
    ensures (q * d) % d == 0
  {
    DivModUnique(q * d, d, q, 0);
  }

  /** Positions in `count` rows of the same width. */
  lemma RowAndColumn(at: nat, count: nat, width: nat) returns (k: nat, i: nat)
    requires at < count * width
    ensures k < count && i < width && at == k * width + i
  {
    k, i := at / width, at % width;
    assert at == k * width + i;
    MulDifference(k, count, width);
    assert k >= count ==> (k - count) * width >= 0;
  }

  lemma MultiplesApart(a: int, b: int, d: nat)
    requires d > 0 && a % d == 0 && b % d == 0 && a - d < b < a + d
    ensures a == b
  {
    var p, q := a / d, b / d;
    assert a == p * d && b == q * d;
    MulDifference(p, q, d);
    MulDifference(q, p, d);
    if p > q { MulAtLeast(p - q, d); }
    if q > p { MulAtLeast(q - p, d); }
  }
}
