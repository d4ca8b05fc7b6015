/** Facts about products, quotients and remainders. */
module Arithmetic {

  lemma MultipleIsLarge(d: int, k: int)
    requires d >= 0
    ensures k >= 1 ==> d * k >= d
    ensures k <= -1 ==> d * k <= -d
  {
    if k >= 1 { assert d * k == d + d * (k - 1); }
    if k <= -1 { assert d * k == -d + d * (k + 1); }
  }

  lemma SmallMultiple(d: int, k: int)
    requires d >= 0 && -d < d * k < d
    ensures k == 0
  {
    MultipleIsLarge(d, k);
  }

  lemma DivMod(q: nat, d: nat, r: nat)
    requires r < d
    ensures (q * d + r) / d == q && (q * d + r) % d == r
  {
    var x := q * d + r;
    assert x == d * (x / d) + x % d;
    assert d * (q - x / d) == x % d - r;
    SmallMultiple(d, q - x / d);
  }
}
