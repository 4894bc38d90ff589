/** The few facts about products and division that the proofs share. */
module Arithmetic {

  lemma MulMonotone(a: nat, b: nat, k: nat)
    requires a <= b
    ensures a * k <= b * k
  {
  }

  lemma MulAtLeast(k: int, p: nat)
    requires k >= 1
    ensures k * p >= p
  {
  }

  /** Quotient and remainder are unique. */
  lemma DivModUnique(n: nat, q: nat, r: nat, p: nat)
    requires r < p && n == q * p + r
    ensures n / p == q && n % p == r
  {
    var q', r' := n / p, n % p;
    assert n == q' * p + r';
    assert (q - q') * p == r' - r;
    assert (q' - q) * p == r - r';
    if q < q' {
      MulAtLeast(q' - q, p);
    } else if q' < q {
      MulAtLeast(q - q', p);
    }
  }

  /** Adding p adds one to the quotient and nothing to the remainder. */
  lemma DivModPlus(n: nat, p: nat)
    requires p >= 1
    ensures (n + p) / p == n / p + 1 && (n + p) % p == n % p
  {
    var q, r := n / p, n % p;
    assert n == q * p + r;
    assert (q + 1) * p == q * p + p;
    DivModUnique(n + p, q + 1, r, p);
  }

  /** Remainders add up, less p if they reach it. */
  lemma ModAdd(a: nat, b: nat, p: nat)
    requires p >= 1
    ensures (a + b) % p == if a % p + b % p < p then a % p + b % p else a % p + b % p - p
  {
    QuotientsAdd(a / p, a % p, b / p, b % p, p);
    if a % p + b % p < p {
      DivModUnique(a + b, a / p + b / p, a % p + b % p, p);
    } else {
      DivModUnique(a + b, a / p + b / p + 1, a % p + b % p - p, p);
    }
  }

  lemma QuotientsAdd(q: nat, r: nat, q': nat, r': nat, p: nat)
    ensures (q * p + r) + (q' * p + r') == (q + q') * p + (r + r') == (q + q' + 1) * p + (r + r' - p)
  {
  }
}
