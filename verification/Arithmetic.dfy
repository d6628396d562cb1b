/** Division and remainder by a variable. */
module Arithmetic {
  lemma MulMono(n: nat, x: nat, y: nat)
    requires x <= y
    ensures n * x <= n * y
  {
  }

  lemma Euclid(n: nat, d: nat)
    requires d > 0
    ensures n == d * (n / d) + n % d && n % d < d
  {
  }

  /** Shifted down and up again. */
  function Rounded(n: nat, d: nat): nat
    requires d > 0
  {
    n / d * d
  }

  /** The next multiple, where a loop in steps of `d` ends. */
  function RoundedUp(n: nat, d: nat): nat
    requires d > 0
  {
    Rounded(n + d - 1, d)
  }

  lemma Quotient(a: nat, n: nat, q: nat)
    requires n > 0 && n * q <= a < n * q + n
    ensures a / n == q && a % n == a - n * q
  {
    var p := a / n;
    assert a == n * p + a % n;
    if p < q {
      MulMono(n, p + 1, q);
      assert false;
    } else if p > q {
      MulMono(n, q + 1, p);
      assert false;
    }
  }

  lemma ModSucc(x: nat, m: nat)
    requires m > 0
    ensures (x + 1) % m == if x % m + 1 == m then 0 else x % m + 1
  {
    var q := x / m;
    assert x == m * q + x % m;
    if x % m + 1 == m {
      assert x + 1 == m * (q + 1);
      Quotient(x + 1, m, q + 1);
    } else {
      Quotient(x + 1, m, q);
    }
  }

  lemma Shift(a: nat, n: nat, k: nat)
    requires n > 0
    ensures (a + n * k) / n == a / n + k && (a + n * k) % n == a % n
  {
    var q := a / n;
    Euclid(a, n);
    assert n * (q + k) == n * q + n * k;
    Quotient(a + n * k, n, q + k);
  }

  lemma ModMod(a: nat, n: nat, k: nat)
    requires n > 0 && k > 0
    ensures n * k > 0 && a % (n * k) % n == a % n
  {
    MulPositive(n, k);
    var q, r := a / (n * k), a % (n * k);
    Euclid(a, n * k);
    Regroup(n, k, q);
    Shift(r, n, k * q);
  }

  lemma MulPositive(n: nat, k: nat)
    requires n > 0 && k > 0
    ensures n * k > 0
  {
  }

  lemma Regroup(n: nat, k: nat, q: nat)
    ensures n * k * q == n * (k * q)
  {
  }
}
