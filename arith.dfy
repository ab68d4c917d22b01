/** Facts about multiplication and Euclidean division on positive divisors,
    and `Math.ceil` of a quotient, that the rounding and paging proofs need. */
module Arithmetic {

  lemma MulMonotone(d: int, a: int, b: int)
    requires d > 0 && a <= b
    ensures d * a <= d * b
  {
    assert d * b - d * a == d * (b - a);
  }

  /** Euclidean division is pinned down by its bracketing. */
  lemma DivBracket(n: int, d: int, q: int)
    requires d > 0 && d * q <= n < d * (q + 1)
    ensures n / d == q
  {
    var q', r := n / d, n % d;
    assert n == d * q' + r && 0 <= r < d;
    if q' < q {
      assert d * (q' + 1) == d * q' + d;
      MulMonotone(d, q' + 1, q);
    } else if q' > q {
      assert d * (q + 1) == d * q + d;
      MulMonotone(d, q + 1, q');
    }
  }

  /** `n / d` is bracketed by multiples of `d`. */
  lemma DivIsBracketed(n: int, d: int)
    requires d > 0
    ensures d * (n / d) <= n < d * (n / d + 1)
  {
    assert n == d * (n / d) + n % d;
    assert d * (n / d + 1) == d * (n / d) + d;
  }

  /** `Math.ceil(total / limit)` for a non-zero integer limit: the least m
      with m >= total / limit, so for a negative limit m is at most 0. */
  function CeilDiv(total: nat, limit: int): (m: int)
    requires limit != 0
    ensures limit > 0 ==> total <= m * limit && (m - 1) * limit < total
    ensures limit > 0 ==> m >= 0
    ensures limit < 0 ==> m * limit <= total && (m - 1) * limit > total
    ensures limit < 0 ==> m <= 0
  {
    if limit > 0 then
      var m := (total + limit - 1) / limit;
      DivIsBracketed(total + limit - 1, limit);
      assert limit * m == m * limit;
      assert (m - 1) * limit == limit * m - limit;
      m
    else
      var q := total / -limit;
      DivIsBracketed(total, -limit);
      assert -q * limit == -limit * q;
      assert (-q - 1) * limit == -limit * q + -limit;
      -q
  }
}
