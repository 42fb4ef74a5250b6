/** Small shared definitions. */
module Common {

  /** A pointer that may be null, or a lookup that may fail. */
  datatype Option<+T> = None | Some(value: T)

  function Pow2(k: nat): (p: nat)
    ensures p > 0
  {
    if k == 0 then 1 else 2 * Pow2(k - 1)
  }

  // ---------- quotients ----------

  /** Less than k times m is what holds fewer than k whole times m. */
  lemma QuotientBelow(x: nat, k: nat, m: nat)
    requires m > 0
    ensures x < k * m <==> x / m < k
  {
    var q := x / m;
    assert x == q * m + x % m;
    if q < k {
      MulOrder(q + 1, k, m);
      assert (q + 1) * m == q * m + m;
    } else {
      MulOrder(k, q, m);
    }
  }

  lemma MulOrder(a: nat, b: nat, c: nat)
    requires a <= b
    ensures a * c <= b * c
  {}

  lemma QuotientOrder(a: nat, b: nat, m: nat)
    requires m > 0 && a <= b
    ensures a / m <= b / m
  {
    QuotientBelow(b, b / m + 1, m);
    QuotientBelow(a, b / m + 1, m);
  }

  lemma QuotientFits(x: nat, k: nat, r: nat, m: nat)
    requires m > 0 && r < m && x == k * m + r
    ensures x / m == k
  {
    QuotientBelow(x, k + 1, m);
    QuotientBelow(x, k, m);
    assert (k + 1) * m == k * m + m;
  }
}
