/** Quotient and remainder. */
module Remainders {

  lemma RemainderIs(x: nat, q: nat, r: nat, n: nat)
    requires n > 0 && r < n && x == q * n + r
    ensures x % n == r
  {
    var d := x / n;
    assert x == d * n + x % n;
    assert (q - d) * n == x % n - r;
    WithinOne(q - d, n);
  }

  lemma WithinOne(k: int, n: int)
    requires -n < k * n < n
    ensures k == 0
  {
    assert k >= 1 ==> k * n >= 1 * n;
    assert k <= -1 ==> k * n <= -1 * n;
  }

  lemma NextRemainder(k: nat, n: nat)
    requires n > 0
    ensures (k + 1) % n == if k % n == n - 1 then 0 else k % n + 1
  {
    var q, r := k / n, k % n;
    assert k == q * n + r;
    if r == n - 1 {
      assert k + 1 == (q + 1) * n + 0;
      RemainderIs(k + 1, q + 1, 0, n);
    } else {
      RemainderIs(k + 1, q, r + 1, n);
    }
  }
}
