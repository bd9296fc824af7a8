/** Scalar arithmetic modulo one chain prime, in the widths the program uses. */
module CkksArith {
  import opened Residues

  newtype int64 = x: int | -0x8000_0000_0000_0000 <= x < 0x8000_0000_0000_0000

  function AddMod(a: nat, b: nat, q: nat): (r: nat)
    requires a < q && b < q && 2 * q <= U64
    ensures r == (a + b) % q
  {
    var r := W64(a + b);
    if r >= q then
      DivUnique(a + b, q, 1, a + b - q);
      r - q
    else
      ModSmall(a + b, q);
      r
  }

  function SubMod(a: nat, b: nat, q: nat): (r: nat)
    requires a < q && b < q && 2 * q <= U64
    ensures r == (a - b) % q
  {
    if a >= b then
      ModSmall(a - b, q);
      a - b
    else
      DivUnique(a - b, q, -1, a + q - b);
      W64(W64(a + q) - b)
  }

  /** The product is formed in 128 bits. */
  function MulMod(a: nat, b: nat, q: nat): (r: nat)
    requires 0 < q
    ensures r < q
    ensures r == (a * b) % q
  {
    (a * b) % q
  }

  /**
   Extended Euclid in signed 64-bit arithmetic: no step overflows, and a unit gets its inverse.
   The matrix (|r1|, |r0|; g, h) rewrites the two inputs in the current remainders.
   */
  method ModInv(a: nat, q: nat) returns (r: nat)
    requires 1 < q < 0x4000_0000_0000_0000 && a < q
    ensures r < q
    ensures Unit(a, q) ==> InverseOf(r, a, q)
  {
    var t0: int64, t1: int64 := q as int64, a as int64;
    var r0: int64, r1: int64 := 0, 1;
    ghost var x0: int, x1: int := 0, 1;
    ghost var odd := true;
    ghost var g: int, h: int := 0, 1;
    while t1 != 0
      invariant 0 <= t1 < t0
      invariant r0 as int == (if odd then -x0 else x0) && r1 as int == (if odd then x1 else -x1)
      invariant x1 * t0 as int + x0 * t1 as int == q
      invariant 0 <= x0 < q && 0 <= x1 <= q && (t1 == 0 ==> 2 * x0 <= q)
      invariant g * t0 as int + h * t1 as int == a
      invariant (r0 as int * a) % q == (t0 as int) % q
      invariant (r1 as int * a) % q == (t1 as int) % q
      decreases t1
    {
      var dv := t0 / t1;
      assert t0 as int == dv as int * t1 as int + (t0 as int) % (t1 as int);
      EuclidStep(t0 as int, t1 as int, dv as int, x0, x1, q);
      EuclidRow(t0 as int, t1 as int, dv as int, g, h, a);
      EuclidCongruence(t0 as int, t1 as int, r0 as int, r1 as int, dv as int, a, q);
      ghost var x2 := x0 + dv as int * x1;
      assert r0 as int - dv as int * r1 as int == if odd then -x2 else x2 by {
        assert dv as int * (-x1) == -(dv as int * x1);
      }
      assert -(q as int) <= dv as int * r1 as int <= q by {
        assert dv as int * (-x1) == -(dv as int * x1);
      }
      var t2 := t0 - dv * t1;
      t0, t1 := t1, t2;
      var r2 := r0 - dv * r1;
      r0, r1 := r1, r2;
      x0, x1, odd := x1, x2, !odd;
      g, h := g * dv as int + h, g;
    }
    if Unit(a, q) {
      ghost var u: int :| InverseOf(u, a, q);
      UnitForcesOne(t0 as int, x1, g, u, a, q);
    }
    if r0 < 0 {
      ModShift(r0 as int, 1, q);
      ModMul(r0 as int + q, r0 as int, a, a, q);
      r0 := r0 + q as int64;
    }
    r := r0 as nat;
  }

  lemma EuclidStep(t0: int, t1: int, dv: int, x0: int, x1: int, q: int)
    requires 0 < t1 < t0 && dv == t0 / t1 && x0 >= 0 && x1 >= 0
    requires x1 * t0 + x0 * t1 == q
    ensures dv >= 1 && 0 <= t0 - dv * t1 < t1
    ensures (x0 + dv * x1) * t1 + x1 * (t0 - dv * t1) == q
    ensures x0 + dv * x1 <= q && 0 <= dv * x1 <= q && dv * t1 <= t0
    ensures 2 * x1 <= q
  {
    var t2 := t0 - dv * t1;
    assert t2 == t0 % t1;
    Quotient(t0, t1, dv);
    var x2 := x0 + dv * x1;
    assert x2 * t1 + x1 * t2 == q by {
      assert x2 * t1 == x0 * t1 + (dv * x1) * t1;
      assert (dv * x1) * t1 == x1 * (dv * t1);
      assert x1 * t2 == x1 * t0 - x1 * (dv * t1);
    }
    Product(x1, t2, 0);
    Product(x0, t1, 0);
    Product(dv, x1, 0);
    Product(x2, t1, 1);
    Product(x1, t0, 2);
  }

  lemma Quotient(t0: int, t1: int, dv: int)
    requires 0 < t1 < t0 && dv == t0 / t1
    ensures dv >= 1
  {
    assert dv <= 0 ==> dv * t1 <= 0;
  }

  lemma Product(x: int, y: int, z: int)
    requires x >= 0 && y >= z
    ensures x * y >= x * z
  {}

  lemma EuclidRow(t0: int, t1: int, dv: int, g: int, h: int, a: int)
    requires g * t0 + h * t1 == a
    ensures (g * dv + h) * t1 + g * (t0 - dv * t1) == a
  {
    assert g * (t0 - dv * t1) == g * t0 - g * dv * t1;
  }

  lemma EuclidCongruence(t0: int, t1: int, r0: int, r1: int, dv: int, a: int, q: int)
    requires q > 0
    requires (r0 * a) % q == t0 % q && (r1 * a) % q == t1 % q
    ensures ((r0 - dv * r1) * a) % q == (t0 - dv * t1) % q
  {
    ModMul(dv, dv, r1 * a, t1, q);
    ModAdd(r0 * a, t0, dv * (r1 * a), dv * t1, q);
    assert (r0 - dv * r1) * a == r0 * a - dv * (r1 * a);
  }

  lemma UnitForcesOne(t: int, x: nat, g: int, u: int, a: int, q: int)
    requires t > 0 && q > 1 && x * t == q && g * t == a && InverseOf(u, a, q)
    ensures t == 1
  {
    var k := ModQuotient(u * a, 1, q);
    assert u * (g * t) == (u * g) * t && k * (x * t) == (k * x) * t;
    assert (u * g - k * x) * t == 1;
    var w := u * g - k * x;
    assert w >= 1 ==> w * t >= t;
    assert w <= 0 ==> w * t <= 0;
  }
}
