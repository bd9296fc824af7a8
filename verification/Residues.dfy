/** Residue arithmetic shared by the two encryption schemes and the big-number code. */
module Residues {

  const U32: int := 0x1_0000_0000
  const U64: int := 0x1_0000_0000_0000_0000

  /** Unsigned 32-bit wrap-around. */
  function W32(x: int): (r: int)
    ensures 0 <= r < U32
    ensures 0 <= x < U32 ==> r == x
  {
    x % U32
  }

  /** Unsigned 64-bit wrap-around. */
  function W64(x: int): (r: int)
    ensures 0 <= r < U64
    ensures 0 <= x < U64 ==> r == x
  {
    x % U64
  }

  /** Euclidean division is unique. */
  lemma DivUnique(x: int, m: int, q: int, r: int)
    requires m > 0 && 0 <= r < m && x == q * m + r
    ensures x / m == q && x % m == r
  {
    var d := x / m - q;
    assert x == (x / m) * m + x % m;
    assert d * m == r - x % m;
    assert d >= 1 ==> d * m >= m;
    assert d <= -1 ==> d * m <= -m;
  }

  /** Adding a multiple of the modulus changes nothing. */
  lemma ModShift(x: int, k: int, m: int)
    requires m > 0
    ensures (x + k * m) % m == x % m
  {
    assert x + k * m == (x / m + k) * m + x % m by {
      assert (x / m + k) * m == (x / m) * m + k * m;
    }
    DivUnique(x + k * m, m, x / m + k, x % m);
  }

  /** Two congruent integers differ by a multiple of the modulus. */
  lemma ModQuotient(x: int, y: int, m: int) returns (k: int)
    requires m > 0 && x % m == y % m
    ensures x == y + k * m
  {
    k := x / m - y / m;
    assert x == (x / m) * m + x % m;
    assert y == (y / m) * m + y % m;
    assert k * m == (x / m) * m - (y / m) * m;
  }

  lemma ModAdd(x: int, x': int, y: int, y': int, m: int)
    requires m > 0 && x % m == x' % m && y % m == y' % m
    ensures (x + y) % m == (x' + y') % m
    ensures (x - y) % m == (x' - y') % m
  {
    var j := ModQuotient(x, x', m);
    var k := ModQuotient(y, y', m);
    assert (j + k) * m == j * m + k * m;
    assert (j - k) * m == j * m - k * m;
    ModShift(x' + y', j + k, m);
    ModShift(x' - y', j - k, m);
  }

  lemma ModMul(x: int, x': int, y: int, y': int, m: int)
    requires m > 0 && x % m == x' % m && y % m == y' % m
    ensures (x * y) % m == (x' * y') % m
  {
    var j := ModQuotient(x, x', m);
    var k := ModQuotient(y, y', m);
    assert x * y == x' * y' + (x' * k + j * y) * m by {
      assert x * y == (x' + j * m) * y;
      assert (x' + j * m) * y == x' * y + (j * y) * m;
      assert x' * y == x' * y' + (x' * k) * m by {
        assert x' * (y' + k * m) == x' * y' + x' * (k * m);
        assert x' * (k * m) == (x' * k) * m;
      }
    }
    ModShift(x' * y', x' * k + j * y, m);
  }

  lemma ModMod(x: int, m: int)
    requires m > 0
    ensures (x % m) % m == x % m
  {
    DivUnique(x % m, m, 0, x % m);
  }

  lemma ModSmall(x: int, m: int)
    requires 0 <= x < m
    ensures x % m == x
  {
    DivUnique(x, m, 0, x);
  }

  /** A unit cancels. */
  lemma ModCancel(a: int, inv: int, x: int, y: int, m: int)
    requires m > 0
    requires (a * inv) % m == 1 % m
    requires (a * x) % m == (a * y) % m
    ensures x % m == y % m
  {
    ModMul(inv, inv, a * x, a * y, m);
    assert inv * (a * x) == (a * inv) * x;
    assert inv * (a * y) == (a * inv) * y;
    ModMul(a * inv, 1, x, x, m);
    ModMul(a * inv, 1, y, y, m);
  }

  /** u is a multiplicative inverse of a. */
  ghost predicate InverseOf(u: int, a: int, m: int)
    requires m > 0
  {
    (u * a) % m == 1 % m
  }

  ghost predicate Unit(a: int, m: int)
    requires m > 0
  {
    exists u: int :: InverseOf(u, a, m)
  }

  lemma LeProduct(w: nat, x: nat, y: nat)
    requires x <= y
    ensures 0 <= w * x <= w * y
  {}
}
