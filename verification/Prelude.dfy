/** Shared vocabulary: the two result shapes every component uses, powers of two, and quotients. */
module Prelude {

  datatype Option<+T> = None | Some(value: T)

  datatype Result<+T, +E> = Ok(value: T) | Err(error: E)

  function Pow2(k: nat): (n: nat)
    ensures n > 0
  {
    if k == 0 then 1 else 2 * Pow2(k - 1)
  }

  lemma QuotientIs(m: nat, d: nat, q: nat, r: nat)
    requires r < d && m == q * d + r
    ensures m / d == q
  {
    var q1, r1 := m / d, m % d;
    assert m == q1 * d + r1;
    if q1 > q { Monotone(q + 1, q1, d, d); } else if q1 < q { Monotone(q1 + 1, q, d, d); }
  }

  lemma Monotone(a: nat, b: nat, c: nat, d: nat)
    requires a <= b && c <= d
    ensures a * c <= b * d
  {
    assert b * d == a * c + (b - a) * d + a * (d - c);
  }

}
