// Remainders by a divisor that is not a literal.
module Arith {

  function Mul(a: nat, b: nat): nat { a * b }

  lemma MulSplits(n: nat, a: nat, b: nat)
    requires a <= b
    ensures Mul(n, b) == Mul(n, a) + Mul(n, b - a) && (b > a ==> Mul(n, b - a) >= n)
  {
    assert n * b == n * a + n * (b - a);
    if b > a {
      assert n * (b - a) == n + n * (b - a - 1);
    }
  }

  lemma DivisionIsUnique(n: nat, q: nat, r: nat, q2: nat, r2: nat)
    requires Mul(n, q) + r == Mul(n, q2) + r2 && r < n && r2 < n
    ensures q == q2 && r == r2
  {
    if q < q2 {
      MulSplits(n, q, q2);
    } else {
      MulSplits(n, q2, q);
    }
    hide Mul;
  }

  lemma Division(n: nat, m: nat)
    requires n > 0
    ensures m == Mul(n, m / n) + m % n && m % n < n
    ensures m >= n ==> m / n >= 1
  {
  }

  lemma ModOf(n: nat, q: nat, r: nat)
    requires r < n
    ensures (Mul(n, q) + r) % n == r
  {
    hide Mul;
    var m := Mul(n, q) + r;
    Division(n, m);
    DivisionIsUnique(n, q, r, m / n, m % n);
  }

  /** Taking away the divisor leaves the remainder. */
  lemma ModStep(n: nat, m: nat)
    requires n > 0
    ensures m >= n ==> (m - n) % n == m % n
    ensures m < n ==> m % n == m
  {
    Division(n, m);
    if m >= n {
      var (q, r) := (m / n, m % n);
      MulSplits(n, 1, q);
      assert Mul(n, 1) == n;
      hide Mul;
      ModOf(n, q - 1, r);
    } else {
      assert Mul(n, 0) == 0;
      ModOf(n, 0, m);
    }
  }

  /** A multiple of the divisor does not change the remainder. */
  lemma {:induction false} ModSum(n: nat, a: nat, b: nat)
    requires n > 0 && a % n == 0
    ensures (a + b) % n == b % n
    decreases a
  {
    ModStep(n, a);
    if a >= n {
      ModStep(n, a + b);
      ModSum(n, a - n, b);
    }
  }

  /** A positive multiple of the divisor is at least the divisor. */
  lemma ModPositive(n: nat, m: nat)
    requires n > 0 && m % n == 0 && m > 0
    ensures m >= n && (m - n) % n == 0
  {
    ModStep(n, m);
  }
}
