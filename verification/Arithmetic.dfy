/** Quotients and remainders by a variable divisor. */
module Arithmetic {
  lemma {:induction false} Monotone(d: nat, a: nat, b: nat)
    requires a <= b
    ensures d * a <= d * b
  {
  }

  lemma {:induction false} OneMoreTime(n: nat, d: nat)
    ensures 0 <= n * d && (n + 1) * d == n * d + d
  {
  }

  lemma {:induction false} DivideBack(n: nat, d: nat)
    requires d > 0
    ensures n == d * (n / d) + n % d && 0 <= n % d < d && n / d >= 0
  {
  }

  /** A quotient and remainder are determined by what they satisfy. */
  lemma {:induction false} DivisionIs(n: nat, d: nat, q: nat, r: nat)
    requires d > 0 && r < d && n == d * q + r
    ensures n / d == q && n % d == r
  {
    DivideBack(n, d);
    var x := n / d;
    if x < q {
      Monotone(d, x + 1, q);
    }
    if q < x {
      Monotone(d, q + 1, x);
    }
  }

  /** One more: the quotient grows exactly when the remainder comes round to zero. */
  lemma {:induction false} DivideSuccessor(n: nat, d: nat)
    requires d > 0
    ensures (n + 1) % d == 0 ==> (n + 1) / d == n / d + 1
    ensures (n + 1) % d != 0 ==> (n + 1) / d == n / d && (n + 1) % d == n % d + 1
  {
    DivideBack(n, d);
    var q, r := n / d, n % d;
    if r + 1 < d {
      DivisionIs(n + 1, d, q, r + 1);
    } else {
      assert d * (q + 1) == d * q + d;
      DivisionIs(n + 1, d, q + 1, 0);
    }
  }

  lemma {:induction false} AddMultiple(n: nat, d: nat, k: nat)
    requires d > 0
    ensures (n + d * k) % d == n % d && (n + d * k) / d == n / d + k
  {
    DivideBack(n, d);
    assert d * (n / d + k) == d * (n / d) + d * k;
    DivisionIs(n + d * k, d, n / d + k, n % d);
  }

  lemma {:induction false} SmallQuotient(n: nat, d: nat)
    requires n < d
    ensures n / d == 0 && n % d == n
  {
    DivisionIs(n, d, 0, n);
  }
}
