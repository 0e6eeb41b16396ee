/** Facts about multiples and quotients. */
module Arithmetic {

  lemma {:induction false} MultiplesApart(n: nat, a: nat, b: nat)
    requires a < b
    ensures n * a + n <= n * b
    decreases b
  {
    assert n * b == n * (b - 1) + n;
    if a < b - 1 {
      MultiplesApart(n, a, b - 1);
    }
  }

  lemma QuotientUnique(value: nat, d: nat, a: nat, r: nat)
    requires d > 0 && value == d * a + r && r < d
    ensures value / d == a && value % d == r
  {
    var q := value / d;
    assert value == d * q + value % d;
    if a < q {
      MultiplesApart(d, a, q);
    } else if q < a {
      MultiplesApart(d, q, a);
    }
  }

  /** Two of n consecutive numbers never have the same remainder. */
  lemma RemaindersDiffer(i: nat, j: nat, n: nat)
    requires n > 0 && i < j < i + n
    ensures i % n != j % n
  {
    var a, b := i / n, j / n;
    assert i == n * a + i % n;
    assert j == n * b + j % n;
    if a < b {
      MultiplesApart(n, a, b);
    } else if b < a {
      MultiplesApart(n, b, a);
    }
  }
}
