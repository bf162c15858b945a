/** Lengths that are whole numbers of blocks. */
module Blocks {
  /** `n` bytes make whole blocks of `k`. */
  predicate Whole(n: nat, k: nat)
    requires 0 < k
  {
    n == 0 || (n >= k && Whole(n - k, k))
  }

  lemma {:induction false} WholeIsMultiple(n: nat, k: nat)
    requires 0 < k
    ensures Whole(n, k) <==> n % k == 0
  {
    if n >= k {
      ModMinus(n, k);
      WholeIsMultiple(n - k, k);
    } else {
      assert n == k * (n / k) + n % k;
      assert n / k == 0 || n / k >= 1;
    }
  }

  lemma ModMinus(n: nat, k: nat)
    requires 0 < k <= n
    ensures (n - k) % k == n % k
  {
    var d := n / k - (n - k) / k - 1;
    assert n == k * (n / k) + n % k && n - k == k * ((n - k) / k) + (n - k) % k;
    assert k * d == (n - k) % k - n % k;
    ProductBound(k, d);
  }

  lemma ProductBound(k: nat, d: int)
    requires 0 < k
    ensures d >= 1 ==> k * d >= k
    ensures d <= -1 ==> k * d + k <= 0
  {
  }

  lemma {:induction false} WholeSum(a: nat, b: nat, k: nat)
    requires 0 < k && Whole(a, k) && Whole(b, k)
    ensures Whole(a + b, k)
  {
    if a > 0 {
      WholeSum(a - k, b, k);
    }
  }

  lemma {:induction false} Remainder(n: nat, r: nat, k: nat)
    requires r < k && Whole(n, k)
    ensures (n + r) % k == r
  {
    if n > 0 {
      ModMinus(n + r, k);
      Remainder(n - k, r, k);
    }
  }
}
