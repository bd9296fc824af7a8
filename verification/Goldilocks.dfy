/** 64- and 128-bit kernels modulo q = 2^64 - 2^32 + 1 and modulo q^2. */
module Goldilocks {
  import opened Residues

  const U128: int := 0x1_0000_0000_0000_0000_0000_0000_0000_0000
  const Q: int := 0xFFFF_FFFF_0000_0001
  const EPS: int := 0xFFFF_FFFF
  const T: int := 12289
  const DELTA: int := 1501077717423271
  const RHO: int := 7002
  const HALF: int := 0x7FFF_FFFF_8000_0000
  const Q2: int := 0xFFFF_FFFE_0000_0002_FFFF_FFFE_0000_0001

  /** The scaling factor, the remainder it leaves, and q^2. */
  lemma Constants()
    ensures U64 == Q + EPS && DELTA == Q / T && RHO == Q % T && Q == T * DELTA + RHO
    ensures HALF == Q / 2 && Q == 2 * HALF + 1 && Q2 == Q * Q && Q2 < U128
  {}

  function W128(x: int): (r: int)
    ensures 0 <= r < U128
    ensures 0 <= x < U128 ==> r == x
  {
    x % U128
  }

  /** The final two conditional subtractions. */
  function Fold(x: nat): (r: nat)
    requires x < U64
    ensures r < Q && r == x % Q
  {
    var r := if x >= Q then x - Q else x;
    if x >= Q then DivUnique(x, Q, 1, x - Q); r else ModSmall(x, Q); r
  }

  /** One step of the loop below replaces hi * 2^64 by the congruent hi * (2^32 - 1). */
  lemma FoldStep(lo: nat, hi: nat)
    requires lo < U64 && 0 < hi < U64
    ensures var t1 := W64(lo + W64(hi * U32));
            var carry := if t1 < lo then 1 else 0;
            var lo' := W64(t1 - hi);
            var borrow := if t1 < hi then 1 else 0;
            var hi' := W64(hi / U32 + carry - borrow);
            && lo' + hi' * U64 == lo + hi * EPS
            && (hi' < hi || (hi' == hi && lo' < lo))
  {
    hide W64;
    var high, low := hi / U32, hi % U32;
    ShiftSplit(hi, high, low);
    WrapUp(lo + low * U32);
    var t1 := W64(lo + low * U32);
    WrapDown(t1 - hi);
    var carry, borrow := if t1 < lo then 1 else 0, if t1 < hi then 1 else 0;
    var lo', next := W64(t1 - hi), high + carry - borrow;
    assert lo' + next * U64 == lo + hi * EPS;
    WrapUp(next);
    assert W64(next) == next;
  }

  lemma ShiftSplit(hi: nat, high: nat, low: nat)
    requires hi < U64 && high == hi / U32 && low == hi % U32
    ensures hi == high * U32 + low && low * U32 < U64 && W64(hi * U32) == low * U32
  {
    DivUnique(hi * U32, U64, high, low * U32);
  }

  /** The 128-bit product folded until its high half is gone. */
  method MulQ(a: nat, b: nat) returns (r: nat)
    requires a < U64 && b < U64
    ensures r < Q && r == (a * b) % Q
  {
    ProductFits(a, b);
    r := Reduce128(a * b);
  }

  method Reduce128(p: nat) returns (r: nat)
    requires p < U64 * U64
    ensures r < Q && r == p % Q
  {
    var lo: nat, hi: nat := p % U64, p / U64;
    assert p == lo + hi * U64 && hi < U64;
    while hi != 0
      invariant lo < U64 && hi < U64
      invariant (lo + hi * U64) % Q == p % Q
      decreases hi, lo
    {
      FoldStep(lo, hi);
      FoldCongruent(lo, hi);
      hide W64;
      var t1 := W64(lo + W64(hi * U32));
      var carry := if t1 < lo then 1 else 0;
      var rLo := W64(t1 - hi);
      var borrow := if t1 < hi then 1 else 0;
      lo := rLo;
      hi := W64(hi / U32 + carry - borrow);
    }
    r := Fold(lo);
  }

  lemma FoldCongruent(lo: nat, hi: nat)
    ensures (lo + hi * U64) % Q == (lo + hi * EPS) % Q
  {
    ModShift(lo + hi * EPS, hi, Q);
  }

  lemma ProductFits(a: nat, b: nat)
    requires a < U64 && b < U64
    ensures a * b < U64 * U64
  {
    ProductBelow(a, b, U64);
  }

  lemma ProductBelow(a: nat, b: nat, m: nat)
    requires a < m && b < m
    ensures a * b < m * m
  {
    assert a * b <= a * m;
    assert a * m < m * m;
  }

  /** The sum may wrap 2^64 once, and its compensation once more. */
  function AddQ(a: nat, b: nat): (r: nat)
    requires a < U64 && b < U64
    ensures r < Q && r == (a + b) % Q
  {
    var s := W64(a + b);
    if s < a then
      DivUnique(a + b, U64, 1, a + b - U64);
      ModShift(s + EPS, 1, Q);
      var u := W64(s + EPS);
      if u < EPS then
        DivUnique(s + EPS, U64, 1, s + EPS - U64);
        ModShift(u + EPS, 1, Q);
        Fold(W64(u + EPS))
      else
        WrapUp(s + EPS);
        Fold(u)
    else
      WrapUp(a + b);
      Fold(s)
  }

  /** A sum below 2 * 2^64 that stayed above its operand did not wrap. */
  lemma WrapUp(x: nat)
    requires x < 2 * U64
    ensures x < U64 ==> W64(x) == x
    ensures x >= U64 ==> W64(x) == x - U64
  {
    if x >= U64 { DivUnique(x, U64, 1, x - U64); }
  }

  function SubQ(a: nat, b: nat): (r: nat)
    requires a < Q && b < Q
    ensures r < Q && r == (a - b) % Q
  {
    if a >= b then
      ModSmall(a - b, Q);
      a - b
    else
      DivUnique(a - b, Q, -1, a + Q - b);
      WrapUp(a + Q);
      WrapDown(W64(a + Q) - b);
      W64(W64(a + Q) - b)
  }

  lemma WrapDown(x: int)
    requires -U64 <= x < U64
    ensures x < 0 ==> W64(x) == x + U64
    ensures x >= 0 ==> W64(x) == x
  {
    if x < 0 { DivUnique(x, U64, -1, x + U64); }
  }

  // ----- modulo q^2, in 128 bits -----

  function AddQ2(a: nat, b: nat): (r: nat)
    requires a < Q2 && b < Q2
    ensures r < Q2 && r == (a + b) % Q2
  {
    var s := W128(a + b);
    if s < a then
      DivUnique(a + b, U128, 1, a + b - U128);
      DivUnique(a + b, Q2, 1, a + b - Q2);
      W128(s + (U128 - Q2))
    else if s >= Q2 then
      DivUnique(a + b, Q2, 1, a + b - Q2);
      SumNoWrap(a, b);
      s - Q2
    else
      SumNoWrap(a, b);
      ModSmall(a + b, Q2);
      s
  }

  lemma SumNoWrap(a: nat, b: nat)
    requires a < U128 && b < U128 && W128(a + b) >= a
    ensures W128(a + b) == a + b
  {
    if a + b >= U128 { DivUnique(a + b, U128, 1, a + b - U128); }
  }

  function SubQ2(a: nat, b: nat): (r: nat)
    requires a < Q2 && b < Q2
    ensures r < Q2 && r == (a - b) % Q2
  {
    if a >= b then
      ModSmall(a - b, Q2);
      a - b
    else
      DivUnique(a - b, Q2, -1, a - b + Q2);
      DivUnique(a - b, U128, -1, a - b + U128);
      DivUnique(a - b + U128 + Q2, U128, 1, a - b + Q2);
      W128(W128(a - b) + Q2)
  }

  /** round(t * x / q) before the final reduction. */
  function Rescaled(x: nat): (r: nat)
  {
    (T * x + HALF) / Q
  }

  /** The rescale kernel: no intermediate leaves 128 bits. */
  function RescaleQ2(x: nat): (r: nat)
    requires x < Q2
    ensures r < Q && r == Rescaled(x) % Q
  {
    var hi, lo := x / U64, x % U64;
    var s64 := W128(hi * EPS + lo);
    var num := W128(T * s64);
    var r2 := W128(num + HALF) / Q;
    var total := W128(T * hi + r2);
    RescaleKernel(x, hi, lo);
    W64(total % Q)
  }

  lemma RescaleKernel(x: nat, hi: nat, lo: nat)
    requires x < Q2 && hi == x / U64 && lo == x % U64
    ensures hi * EPS + lo < U128 && T * (hi * EPS + lo) + HALF < U128
    ensures T * hi + (T * (hi * EPS + lo) + HALF) / Q == Rescaled(x) < U128
  {
    assert x == hi * U64 + lo;
    assert hi < U64;
    var s := hi * EPS + lo;
    assert x == hi * Q + s;
    var r2 := (T * s + HALF) / Q;
    assert T * s + HALF == r2 * Q + (T * s + HALF) % Q;
    assert T * x + HALF == (T * hi + r2) * Q + (T * s + HALF) % Q;
    DivUnique(T * x + HALF, Q, T * hi + r2, (T * s + HALF) % Q);
  }

  // ----- decoding one coefficient -----

  /** The representative of v in [-q/2, q/2]. */
  function Centered(v: nat): (r: int)
    requires v < Q
    ensures r % Q == v % Q
  {
    if v >= HALF then
      ModShift(v, -1, Q);
      v - Q
    else v
  }

  /** The 128-bit rounding division of the decoder, by one fold instead of a division. */
  function RoundKernel(ax: nat): (mv: nat)
    requires ax <= HALF + 1
    ensures mv == (T * ax + HALF) / Q
  {
    var tv := ax * T;
    var hi0, lo0 := tv / U64, tv % U64;
    var lo := W64(lo0 + HALF);
    var hi := if lo < HALF then hi0 + 1 else hi0;
    var extra := W64(hi * EPS);
    var rsum := W64(extra + lo);
    var mv := hi + if rsum >= Q then 1 else 0;
    RoundFold(ax, hi0, lo0);
    if rsum < extra then mv + 1 else mv
  }

  lemma RoundFold(ax: nat, hi0: nat, lo0: nat)
    requires ax <= HALF + 1 && hi0 == (ax * T) / U64 && lo0 == (ax * T) % U64
    ensures var lo := W64(lo0 + HALF);
            var hi := if lo < HALF then hi0 + 1 else hi0;
            var extra := W64(hi * EPS);
            var rsum := W64(extra + lo);
            (T * ax + HALF) / Q == hi + (if rsum >= Q then 1 else 0) + (if rsum < extra then 1 else 0)
  {
    var tv := ax * T;
    assert tv == hi0 * U64 + lo0 && hi0 < T;
    WrapUp(lo0 + HALF);
    var lo := W64(lo0 + HALF);
    var hi := if lo < HALF then hi0 + 1 else hi0;
    assert tv + HALF == hi * U64 + lo;
    var extra := hi * EPS;
    assert extra < U64 - Q + Q / 2;
    assert W64(extra) == extra;
    WrapUp(extra + lo);
    var y := extra + lo;
    assert tv + HALF == hi * Q + y;
    if y >= Q {
      DivUnique(tv + HALF, Q, hi + 1, y - Q);
    } else {
      DivUnique(tv + HALF, Q, hi, y);
    }
  }

  /** C's remainder: the sign of the dividend. */
  function RemC(x: int, m: int): int
    requires m > 0
  {
    if x >= 0 then x % m else -((-x) % m)
  }

  /** The decoded coefficient as a signed value. */
  function DecryptRound(vc: nat): (r: int)
    requires vc < Q
    ensures -(T / 2) <= r <= T / 2
    ensures r % T == Nearest(Centered(vc)) % T
  {
    var neg := vc >= HALF;
    var ax := if neg then Q - vc else vc;
    var mv: int := RoundKernel(ax);
    assert (if neg then -mv else mv) == Nearest(Centered(vc));
    CenterT(if neg then -mv else mv)
  }

  /** The remainder modulo t moved into [-t/2, t/2]; the value t/2 itself is moved twice. */
  function CenterT(x: int): (r: int)
    ensures -(T / 2) <= r <= T / 2
    ensures r % T == x % T
  {
    var mm := RemC(x, T);
    var m1 := if mm >= T / 2 then mm - T else mm;
    RemShift(x, mm);
    ModShift(mm, -1, T);
    ModShift(m1, 1, T);
    if m1 < -(T / 2) then m1 + T else m1
  }

  lemma RemShift(x: int, r: int)
    requires r == RemC(x, T)
    ensures -T < r < T && r % T == x % T
  {
    if x < 0 {
      var y := -x;
      ModQuotientSelf(y);
      ModShift(x, y / T, T);
      assert r == x + (y / T) * T;
    } else {
      ModMod(x, T);
    }
  }

  lemma ModQuotientSelf(y: nat)
    ensures y == (y / T) * T + y % T
  {}

  /** A signed 32-bit value as it is stored unsigned. */
  function Stored(x: int): (v: nat)
    ensures v < U32
  {
    W32(x)
  }

  /** The stored value read back as signed and centred. */
  function Center(v: nat): (r: int)
    requires v < U32
  {
    var s := if v >= U32 / 2 then v - U32 else v;
    if s >= T / 2 then s - T else s
  }

  /** The residue callers rebuild from a stored coefficient. */
  function Residue(v: nat): (r: int)
    requires v < U32
  {
    var c := Center(v);
    if c < 0 then c + T else c
  }

  /** Centring and lifting recovers the residue of a decoded coefficient. */
  lemma ResidueStored(x: int)
    requires -(T / 2) <= x <= T / 2
    ensures Residue(Stored(x)) == x % T
  {
    if x < 0 {
      DivUnique(x, U32, -1, x + U32);
      DivUnique(x, T, -1, x + T);
    } else {
      ModSmall(x, U32);
      ModSmall(x, T);
    }
  }

  /** A decoded coefficient is the residue up to 6144 and the residue less t above it; 6144 stands for itself. */
  lemma DecodedSign(x: int, m: int)
    requires -(T / 2) <= x <= T / 2 && x % T == m % T
    ensures x == if m % T <= T / 2 then m % T else m % T - T
    ensures x == T / 2 <==> m % T == T / 2
  {
    if x < 0 { DivUnique(x, T, -1, x + T); } else { ModSmall(x, T); }
  }

  /** The stored word is the residue itself exactly up to 6144. */
  lemma StoredIsResidue(x: int, m: int)
    requires -(T / 2) <= x <= T / 2 && x % T == m % T
    ensures Stored(x) == m % T <==> m % T <= T / 2
    ensures Stored(x) % T == m % T <==> m % T <= T / 2
  {
    DecodedSign(x, m);
    if x < 0 {
      DivUnique(x, U32, -1, x + U32);
      if Stored(x) % T == m % T {
        var k := ModQuotient(x + U32, x, T);
        assert false;
      }
    } else {
      ModSmall(x, U32);
      ModSmall(x, T);
    }
  }

  /** t * x / q rounded to the nearest integer. */
  function Nearest(x: int): (r: int)
  {
    if x >= 0 then (T * x + HALF) / Q else -((T * -x + HALF) / Q)
  }

  /** q is odd, so the nearest multiple of q is the only one within floor(q/2). */
  lemma NearestUnique(x: int, k: int)
    requires -HALF <= T * x - k * Q <= HALF
    ensures Nearest(x) == k
  {
    if x >= 0 {
      DivUnique(T * x + HALF, Q, k, T * x + HALF - k * Q);
    } else {
      assert T * -x == -(T * x) && -k * Q == -(k * Q);
      DivUnique(T * -x + HALF, Q, -k, T * -x + HALF + k * Q);
    }
  }

  /** A coefficient delta * m + e decodes to m as soon as |t * e - rho * m| stays under q/2. */
  lemma DecodeExact(v: nat, m: int, e: int)
    requires v < Q && v % Q == (DELTA * m + e) % Q
    requires -HALF <= T * e - RHO * m <= HALF
    ensures DecryptRound(v) % T == m % T
  {
    var u, c := DELTA * m + e, Centered(v);
    var j := ModQuotient(c, u, Q);
    assert T * c == (m + T * j) * Q + (T * e - RHO * m) by {
      assert T * (DELTA * m) == (Q - RHO) * m;
      assert T * (j * Q) == (T * j) * Q;
    }
    NearestUnique(c, m + T * j);
    assert T * j == j * T;
    ModShift(m, j, T);
  }
}
