/** Remainders by a modulus that is not a constant. */
module Division {

  lemma Distribute(a: int, b: int, m: int)
    ensures (a - b) * m == a * m - b * m
  {
  }

  lemma MultipleIsLarge(a: int, m: nat)
    requires a >= 1
    ensures a * m >= m
  {
  }

  /** A decomposition with a small rest gives the remainder. */
  lemma RemainderIs(x: nat, m: nat, q: nat, r: nat)
    requires r < m && x == q * m + r
    ensures x % m == r
  {
    var d := x / m;
    Distribute(d, q, m);
    Distribute(q, d, m);
    if d < q { MultipleIsLarge(q - d, m); }
    if q < d { MultipleIsLarge(d - q, m); }
  }
}
