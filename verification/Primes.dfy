/** Divisibility, primes and the units they provide. */
module Primes {
  import opened Residues

  ghost predicate Divides(d: int, x: int) {
    exists k: int :: Multiple(d, k, x)
  }

  ghost predicate Multiple(d: int, k: int, x: int) {
    d * k == x
  }

  ghost predicate Prime(p: nat) {
    p > 1 && forall d: nat | Divides(d, p) :: d == 1 || d == p
  }

  lemma Bezout(a: nat, b: nat) returns (g: nat, x: int, y: int)
    requires a > 0
    ensures x * a + y * b == g > 0 && Divides(g, a) && Divides(g, b)
    decreases b
  {
    if b == 0 {
      g, x, y := a, 1, 0;
      assert Multiple(a, 1, a) && Multiple(a, 0, b);
    } else {
      var r := a % b;
      var x', y';
      g, x', y' := Bezout(b, r);
      x, y := y', x' - y' * (a / b);
      assert a == b * (a / b) + r;
      BezoutStep(a, b, a / b, r, x', y');
      DividesSum(g, b, a / b, r);
    }
  }

  lemma BezoutStep(a: int, b: int, k: int, r: int, x: int, y: int)
    requires a == b * k + r
    ensures y * a + (x - y * k) * b == x * b + y * r
  {
    assert y * a == y * (b * k) + y * r;
    assert (x - y * k) * b == x * b - (y * k) * b;
    assert y * (b * k) == (y * k) * b;
  }

  lemma DividesSum(g: int, b: int, k: int, r: int)
    requires Divides(g, b) && Divides(g, r)
    ensures Divides(g, b * k + r)
  {
    var i: int :| Multiple(g, i, b);
    var j: int :| Multiple(g, j, r);
    assert g * (i * k + j) == (g * i) * k + g * j;
    assert Multiple(g, i * k + j, b * k + r);
  }

  /** Distinct primes are units modulo each other. */
  lemma PrimesAreUnits(p: nat, q: nat)
    requires Prime(p) && Prime(q) && p != q
    ensures Unit(p, q)
  {
    var g, x, y := Bezout(p, q);
    assert g == 1;
    assert x * p == 1 + (-y) * q;
    ModShift(1, -y, q);
    assert InverseOf(x, p, q);
  }

  /** Whatever a prime does not divide is a unit modulo it. */
  lemma NonzeroIsUnit(x: int, p: nat)
    requires Prime(p) && x % p != 0
    ensures Unit(x, p)
  {
    var r := x % p;
    var g, u, v := Bezout(r, p);
    var k: int :| Multiple(g, k, r);
    assert k >= 1 ==> g * k >= g;
    assert k <= 0 ==> g * k <= 0;
    assert g == 1;
    ModShift(1, -v, p);
    ModMod(x, p);
    ModMul(u, u, r, x, p);
    assert u * r == 1 + (-v) * p;
    assert InverseOf(u, x, p);
  }

  /** No number from 2 to k divides n. */
  predicate NoFactorTo(n: nat, k: nat) {
    k < 2 || (n % k != 0 && NoFactorTo(n, k - 1))
  }

  lemma {:induction false} NoFactor(n: nat, k: nat, d: nat)
    requires NoFactorTo(n, k) && 2 <= d <= k
    ensures n % d != 0
  {
    if d < k { NoFactor(n, k - 1, d); }
  }

  /** Trial division up to the square root. */
  lemma TrialDivision(p: nat, k: nat)
    requires p > 1 && NoFactorTo(p, k) && (k + 1) * (k + 1) > p
    ensures Prime(p)
  {
    forall d: nat | Divides(d, p) ensures d == 1 || d == p {
      var e: int :| Multiple(d, e, p);
      Cofactor(p, k, d, e);
    }
  }

  lemma Cofactor(p: nat, k: nat, d: nat, e: int)
    requires p > 1 && NoFactorTo(p, k) && (k + 1) * (k + 1) > p && d * e == p
    ensures d == 1 || d == p
  {
    hide NoFactorTo;
    BothPositive(d, e);
    if d > k && e > k {
      TooLarge(d, e, k);
    } else if 2 <= d <= k {
      NoFactor(p, k, d);
      NoRemainder(p, d, e);
    } else if 2 <= e <= k {
      NoFactor(p, k, e);
      NoRemainder(p, e, d);
    }
  }

  lemma NoRemainder(p: nat, d: nat, e: int)
    requires d > 0 && d * e == p
    ensures p % d == 0
  {
    DivUnique(p, d, e, 0);
  }

  lemma BothPositive(d: nat, e: int)
    requires d * e > 0
    ensures d > 0 && e > 0
  {
    assert e <= 0 ==> d * e <= 0;
  }

  lemma TooLarge(d: nat, e: nat, k: nat)
    requires d > k && e > k
    ensures d * e >= (k + 1) * (k + 1)
  {
    LeProduct(d, k + 1, e);
    LeProduct(k + 1, k + 1, d);
  }
}
