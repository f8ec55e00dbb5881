/** Powers of two, and division by uniqueness of quotient and remainder. */
module Arithmetic {

  function Pow2(n: nat): (p: nat)
    ensures p >= 1
  {
    if n == 0 then 1 else 2 * Pow2(n - 1)
  }

  lemma {:induction false} DivUnique(i: nat, p: nat, q: nat, m: nat)
    requires m < p && i == q * p + m
    ensures i / p == q && i % p == m
  {
    assert i == (i / p) * p + i % p;
    var d := i / p - q;
    assert d * p == m - i % p;
    assert d >= 1 ==> d * p >= p;
    assert d <= -1 ==> (-d) * p >= p;
  }

  lemma {:induction false} DivSucc(i: nat, p: nat)
    requires p >= 1
    ensures i % p + 1 < p ==> (i + 1) / p == i / p && (i + 1) % p == i % p + 1
    ensures i % p + 1 == p ==> (i + 1) / p == i / p + 1 && (i + 1) % p == 0
  {
    assert i == (i / p) * p + i % p;
    if i % p + 1 < p {
      DivUnique(i + 1, p, i / p, i % p + 1);
    } else {
      assert (i / p + 1) * p == (i / p) * p + p;
      DivUnique(i + 1, p, i / p + 1, 0);
    }
  }

  lemma {:induction false} DivNat(i: nat, p: nat)
    requires p >= 1
    ensures i / p >= 0
  {
    var q, d: int := i / p, p;
    assert q * d > -d;
  }

  lemma {:induction false} TimesTwo(h: nat, m: nat)
    ensures (2 * h) * m == h * (2 * m) && (2 * h + 1) * m == h * (2 * m) + m
  {
  }
}
