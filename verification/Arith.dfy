/** The few facts about products and quotients of variables the proofs need. */
module Arith {

  lemma {:induction false} MulLe(d: nat, p: nat, q: nat)
    requires p <= q
    ensures d * p <= d * q
    decreases q
  {
    if p == q {
    } else {
      MulLe(d, p, q - 1);
      assert d * q == d * (q - 1) + d;
    }
  }

  lemma MulGap(d: nat, p: nat, q: nat)
    ensures p < q ==> d * p + d <= d * q
    ensures p <= q ==> d * p <= d * q
  {
    if p < q {
      MulLe(d, p + 1, q);
      assert d * (p + 1) == d * p + d;
    }
  }

  lemma DivModUnique(x: nat, d: nat, q: nat, r: nat)
    requires d > 0 && x == d * q + r && r < d
    ensures x / d == q && x % d == r
  {
    assert x == d * (x / d) + x % d;
    MulGap(d, q, x / d);
    MulGap(d, x / d, q);
  }

  lemma DivMonotone(x: nat, y: nat, d: nat)
    requires d > 0 && x <= y
    ensures x / d <= y / d
  {
    assert x == d * (x / d) + x % d && y == d * (y / d) + y % d;
    MulGap(d, y / d, x / d);
  }
}
