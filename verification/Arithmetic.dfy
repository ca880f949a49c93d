/** Division and remainder facts that the ring and permutation proofs share. */
module Arithmetic {

  /** A product with a positive factor is at least that factor, or at most its negation, or zero. */
  lemma MulSign(n: int, k: int)
    requires n > 0
    ensures k > 0 ==> n * k >= n
    ensures k < 0 ==> n * k <= -n
  {
    if k > 0 {
      assert n * (k - 1) >= 0;
    } else if k < 0 {
      assert n * (-1 - k) >= 0;
    }
  }

  lemma CancelFactor(g: int, u: int, v: int)
    requires g > 0 && g * u == g * v
    ensures u == v
  {
    MulSign(g, u - v);
    assert g * (u - v) == g * u - g * v;
  }

  lemma ModUnique(x: int, n: int, q: int, r: int)
    requires n > 0 && x == n * q + r && 0 <= r < n
    ensures x % n == r && x / n == q
  {
    var q', r' := x / n, x % n;
    assert x == n * q' + r';
    assert n * (q' - q) == n * q' - n * q;
    MulSign(n, q' - q);
  }

  lemma QuotientIsNat(x: int, n: int)
    requires x >= 0 && n > 0
    ensures x / n >= 0 && 0 <= x % n < n
  {
    var q, r := x / n, x % n;
    assert x == n * q + r;
    MulSign(n, q);
  }

  lemma ExactQuotient(g: int, x: int, k: int)
    requires g > 0 && x == g * k
    ensures x / g == k && x % g == 0
  {
    ModUnique(x, g, k, 0);
  }

  /** Adding a multiple of the modulus changes nothing. */
  lemma ModShift(x: int, n: int, k: int)
    requires n > 0
    ensures (x + n * k) % n == x % n
  {
    ModUnique(x + n * k, n, x / n + k, x % n);
  }

  lemma ModStep(x: int, y: int, n: int, f: int)
    requires n > 0 && y == x + 1 + n * f
    ensures y % n == (x % n + 1) % n
  {
    var r := x % n;
    assert x + 1 == (r + 1) + n * (x / n);
    ModShift(x + 1, n, f);
    ModShift(r + 1, n, x / n);
  }

  lemma ModWithin(x: int, n: int)
    requires 0 <= x <= n && n > 0
    ensures x % n == if x < n then x else 0
  {
    if x < n { ModUnique(x, n, 0, x); } else { ModUnique(x, n, 1, 0); }
  }

  /** Counting on and stepping an index round the ring agree. */
  lemma ModSuccessor(k: nat, n: nat)
    requires n > 0
    ensures (k % n + 1) % n == (k + 1) % n
  {
    ModStep(k, k + 1, n, 0);
  }

  /** Within one turn of a ring, different counts use different slots. */
  lemma ModDistinct(j: nat, k: nat, n: nat)
    requires n > 0 && j < k < j + n
    ensures j % n != k % n
  {
    var d := k / n - j / n;
    assert n * d == n * (k / n) - n * (j / n);
    MulSign(n, d - 1);
    MulSign(n, d);
  }
}
