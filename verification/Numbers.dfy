/** Bytes, powers of two, and the facts about products, quotients and sizes the modules share. */
module Numbers {

  newtype Byte = x: int | 0 <= x < 256

  function Pow2(n: nat): (p: nat)
    ensures p > 0
  {
    if n == 0 then 1 else 2 * Pow2(n - 1)
  }

  lemma Product(i: nat, j: nat, n: nat)
    requires i <= j
    ensures i * n <= j * n
  {
    assert (j - i) * n >= 0;
    assert j * n == i * n + (j - i) * n;
  }

  lemma Division(x: nat, n: nat)
    requires n >= 1
    ensures x / n * n <= x < x / n * n + n && x == x / n * n + x % n && x % n < n
  {
  }

  lemma Quotient(q: nat, n: nat)
    requires n >= 1
    ensures q * n / n == q
  {
    var k := q * n / n;
    Division(q * n, n);
    if k > q {
      Product(q + 1, k, n);
    } else if k < q {
      Product(k + 1, q, n);
    }
    assert (q + 1) * n == q * n + n && (k + 1) * n == k * n + n;
  }

  lemma Smaller<T>(a: set<T>, b: set<T>)
    requires a <= b
    ensures |a| <= |b|
  {
    assert b == a + (b - a);
  }
}
