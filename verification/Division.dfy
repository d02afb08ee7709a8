/** Division by what it undoes. */
module Division {
  lemma Quotient(n: nat, d: nat, q: nat, rest: nat)
    requires d > 0 && n == q * d + rest && rest < d
    ensures n / d == q
  {
    var k := n / d;
    assert (q - k) * d == n % d - rest;
    if q > k {
      AtLeast(q - k, d);
    } else if q < k {
      AtLeast(k - q, d);
    }
  }

  lemma AtLeast(a: nat, d: nat)
    requires a >= 1
    ensures a * d >= d
  {
  }
}
