/** Long division bit by bit, halving, and the binary extended Euclid. */
module BigNumMod {
  import opened Residues
  import opened Primes
  import opened BigNum

  const H: int := 0x8000_0000

  function P2(k: nat): (p: nat)
    ensures p > 0
  {
    if k == 0 then 1 else 2 * P2(k - 1)
  }

  // ----- halving -----

  /** x = (x + top * 2^256) >> 1. */
  method ShiftDown(x: array<Limb>, top: nat)
    requires x.Length == LIMBS && top <= 1
    modifies x
    ensures 2 * Value(x[..]) + old(x[0]) % 2 == old(Value(x[..])) + Top(top)
  {
    ghost var was := x[..];
    for i := 0 to LIMBS - 1
      invariant forall k | i <= k < LIMBS :: x[k] == was[k]
      invariant 2 * V(x[..], i) + was[0] % 2 == V(was, i) + (was[i] % 2) * W(i)
    {
      ghost var now := x[..];
      HalfStep(was[i], was[i + 1] % 2, W(i));
      x[i] := x[i] / 2 + (x[i + 1] % 2) * H;
      VSame(x[..], now, i);
      hide V, W;
      LimbStep(x[..], i);
      LimbStep(was, i);
    }
    ghost var now := x[..];
    HalfStep(was[7], top, W(7));
    x[7] := x[7] / 2 + top * H;
    VSame(x[..], now, 7);
    hide V, W;
    LimbStep(x[..], 7);
    LimbStep(was, 7);
    TopIs(top);
  }

  lemma HalfStep(x: Limb, low: nat, w: nat)
    requires low <= 1
    ensures x / 2 + low * H < U32
    ensures 2 * ((x / 2 + low * H) * w) + (x % 2) * w == x * w + low * (U32 * w)
  {
    var y := x / 2 + low * H;
    assert 2 * y + x % 2 == x + low * U32;
    Distribute(2 * y, x % 2, w);
    Distribute(x, low * U32, w);
    assert (2 * y) * w == 2 * (y * w);
    assert (low * U32) * w == low * (U32 * w);
  }

  method Shr1(x: array<Limb>)
    requires x.Length == LIMBS
    modifies x
    ensures Value(x[..]) == old(Value(x[..])) / 2
  {
    ShiftDown(x, 0);
  }

  /** x = (x + m) >> 1, whose carry is kept; exact for two odd numbers. */
  method AddShr1(x: array<Limb>, m: array<Limb>)
    requires x.Length == m.Length == LIMBS && x != m && x[0] % 2 == 1 && m[0] % 2 == 1
    modifies x
    ensures 2 * Value(x[..]) == old(Value(x[..])) + Value(m[..])
  {
    ghost var a, b := Value(x[..]), Value(m[..]);
    LowBit(x[..]);
    LowBit(m[..]);
    hide V, W;
    var carry := AddInto(x, x, m);
    LowBit(x[..]);
    WEven();
    ghost var c := x[0];
    ShiftDown(x, carry);
  }

  lemma WEven()
    ensures W(LIMBS) % 2 == 0
  {
    assert W(LIMBS) == U32 * W(7);
  }

  lemma {:induction false} LowBitTo(a: seq<Limb>, k: nat)
    requires 0 < k <= |a|
    ensures V(a, k) % 2 == a[0] % 2
  {
    hide V, W;
    if k > 1 {
      LowBitTo(a, k - 1);
      LimbStep(a, k - 1);
      LimbStep(a, k - 2);
      EvenStep(V(a, k - 1), a[k - 1], W(k - 2), W(k - 1));
    } else {
      OneLimb(a);
    }
  }

  lemma OneLimb(a: seq<Limb>)
    requires |a| > 0
    ensures V(a, 1) == a[0]
  {
    assert V(a, 1) == V(a, 0) + a[0] * W(0);
  }

  lemma EvenStep(v: int, x: int, w: int, w': int)
    requires w' == U32 * w
    ensures (v + x * w') % 2 == v % 2
  {
    EvenTerm(x, w);
    ModAdd(v, v, x * w', 0, 2);
  }

  lemma EvenTerm(x: int, w: int)
    ensures (x * (U32 * w)) % 2 == 0
  {
    var k := H * (x * w);
    TwiceH(x, w);
    DivUnique(x * (U32 * w), 2, k, 0);
  }

  lemma TwiceH(x: int, w: int)
    ensures x * (U32 * w) == 2 * (H * (x * w))
  {
    assert x * (U32 * w) == U32 * (x * w);
  }

  lemma LowBit(a: seq<Limb>)
    requires |a| == LIMBS
    ensures Value(a) % 2 == a[0] % 2
  {
    LowBitTo(a, LIMBS);
  }

  // ----- long division -----

  lemma DivDiv(x: nat, a: nat, b: nat)
    requires a > 0 && b > 0
    ensures a * b > 0 && x / (a * b) == (x / a) / b
  {
    var y := x / a;
    var q, r := y / b, y % b;
    assert x == y * a + x % a && y == q * b + r;
    assert y * a == q * (a * b) + r * a by {
      Distribute(q * b, r, a);
      assert (q * b) * a == q * (a * b);
    }
    LeProduct(a, r + 1, b);
    assert a * (r + 1) == r * a + a && a * b > 0;
    DivUnique(x, a * b, q, r * a + x % a);
  }

  lemma {:induction false} P2Add(i: nat, j: nat)
    ensures P2(i + j) == P2(i) * P2(j)
  {
    if i > 0 {
      P2Add(i - 1, j);
      assert 2 * (P2(i - 1) * P2(j)) == (2 * P2(i - 1)) * P2(j);
    }
  }

  lemma {:induction false} WIsP2(k: nat)
    ensures W(k) == P2(32 * k)
  {
    if k > 0 {
      WIsP2(k - 1);
      P2Add(32, 32 * (k - 1));
      P2Word();
    }
  }

  lemma P2Word()
    ensures P2(32) == U32
  {
    assert P2(8) == 256;
    P2Add(8, 8);
    P2Add(16, 16);
  }

  /** Bit b of a number, read from its limb. */
  function Bit(t: seq<Limb>, b: nat): (r: nat)
    requires b / 32 < |t|
    ensures r <= 1
  {
    (t[b / 32] / P2(b % 32)) % 2
  }

  /** The part of a number above its first k limbs. */
  function High(t: seq<Limb>, k: nat): (h: nat)
    requires k <= |t|
    decreases |t| - k
  {
    if k == |t| then 0 else t[k] + U32 * High(t, k + 1)
  }

  lemma {:induction false} HighIs(t: seq<Limb>, k: nat)
    requires k <= |t|
    ensures Value(t) == V(t, k) + High(t, k) * W(k)
    decreases |t| - k
  {
    if k < |t| {
      HighIs(t, k + 1);
      HighTerm(t[k], High(t, k + 1), W(k));
    }
  }

  lemma HighTerm(x: int, h: int, w: int)
    ensures (x + U32 * h) * w == x * w + h * (U32 * w)
  {
    Distribute(x, U32 * h, w);
    assert (U32 * h) * w == h * (U32 * w);
  }

  /** The bit test reads bit b of the value. */
  lemma BitIs(t: seq<Limb>, b: nat)
    requires b / 32 < |t|
    ensures (Value(t) / P2(b)) % 2 == Bit(t, b)
  {
    hide V, P2;
    BitIsAt(t, b / 32, b % 32);
  }

  lemma BitIsAt(t: seq<Limb>, k: nat, r: nat)
    requires k < |t| && r < 32
    ensures (Value(t) / P2(32 * k + r)) % 2 == (t[k] / P2(r)) % 2
  {
    hide V, W, P2;
    HighDiv(t, k);
    WIsP2(k);
    P2Add(32 * k, r);
    DivDiv(Value(t), W(k), P2(r));
    BitFactor(r);
    assert High(t, k) == t[k] + U32 * High(t, k + 1);
    hide High;
    BitOfHigh(t[k], High(t, k + 1), P2(r), P2(31 - r));
  }

  lemma HighDiv(t: seq<Limb>, k: nat)
    requires k <= |t|
    ensures Value(t) / W(k) == High(t, k)
  {
    hide V, W, High;
    HighIs(t, k);
    VBound(t, k);
    DivUnique(Value(t), W(k), High(t, k), V(t, k));
  }

  lemma BitFactor(r: nat)
    requires r < 32
    ensures P2(r) * (2 * P2(31 - r)) == U32
  {
    P2Word();
    P2Add(r, 32 - r);
    assert P2(32 - r) == 2 * P2(31 - r);
  }

  lemma BitOfHigh(x: Limb, h: nat, p: nat, half: nat)
    requires p > 0 && p * (2 * half) == U32
    ensures ((x + U32 * h) / p) % 2 == (x / p) % 2
  {
    var q := x / p;
    assert x == q * p + x % p;
    assert U32 * h == (2 * (half * h)) * p by { assert (p * (2 * half)) * h == (2 * (half * h)) * p; }
    Distribute(q, 2 * (half * h), p);
    DivUnique(x + U32 * h, p, q + 2 * (half * h), x % p);
  }

  /** acc = 2 * acc + bit, over nine limbs. */
  method ShiftUp(acc: array<Limb>, bit: nat)
    requires acc.Length == 9 && acc[8] == 0 && bit <= 1
    modifies acc
    ensures Value(acc[..]) == 2 * old(Value(acc[..])) + bit
  {
    hide V, W, HandedUp;
    ghost var was := acc[..];
    ShiftLimbs(acc, bit);
    ShiftedAll(was, acc[..], bit);
  }

  method ShiftLimbs(acc: array<Limb>, bit: nat)
    requires acc.Length == 9 && bit <= 1
    modifies acc
    ensures forall i | 0 <= i < 9 :: acc[i] == old((acc[i] * 2) % U32 + HandedUp(acc[..], bit, i))
  {
    ghost var was := acc[..];
    for i := 9 downto 1
      invariant forall k | 0 <= k < i :: acc[k] == was[k]
      invariant forall k | i <= k < 9 :: acc[k] == (was[k] * 2) % U32 + was[k - 1] / H
    {
      acc[i] := (acc[i] * 2) % U32 + acc[i - 1] / H;
    }
    acc[0] := (acc[0] * 2) % U32;
    acc[0] := acc[0] + bit;
  }

  lemma ShiftedAll(a: seq<Limb>, b: seq<Limb>, bit: nat)
    requires |a| == |b| == 9 && a[8] == 0 && forall i | 0 <= i < 9 :: b[i] == (a[i] * 2) % U32 + HandedUp(a, bit, i)
    ensures Value(b) == 2 * Value(a) + bit
  {
    hide V, W;
    Shifted(a, b, bit, 9);
  }

  /** What limb k - 1 hands to limb k. */
  function HandedUp(a: seq<Limb>, bit: nat, k: nat): (c: nat)
    requires k <= |a|
  {
    if k == 0 then bit else a[k - 1] / H
  }

  lemma {:induction false} Shifted(a: seq<Limb>, b: seq<Limb>, bit: nat, k: nat)
    requires |a| == |b| == 9 && k <= 9 && forall i | 0 <= i < 9 :: b[i] == (a[i] * 2) % U32 + HandedUp(a, bit, i)
    ensures V(b, k) + HandedUp(a, bit, k) * W(k) == 2 * V(a, k) + bit
  {
    if k > 0 {
      Shifted(a, b, bit, k - 1);
      ShiftTerm(a[k - 1], HandedUp(a, bit, k - 1), W(k - 1));
    }
  }

  lemma ShiftTerm(x: Limb, c: nat, w: nat)
    ensures ((x * 2) % U32 + c) * w + (x / H) * (U32 * w) == 2 * (x * w) + c * w
  {
    Carry(x * 2, w);
    assert (x * 2) / U32 == x / H;
    Distribute((x * 2) % U32, c, w);
    assert (x * 2) * w == 2 * (x * w);
  }

  function Shr(x: nat, b: nat): (r: nat) {
    if b == 0 then x else Shr(x, b - 1) / 2
  }

  lemma {:induction false} ShrIs(x: nat, b: nat)
    ensures Shr(x, b) == x / P2(b)
  {
    if b > 0 {
      ShrIs(x, b - 1);
      DivDiv(x, P2(b - 1), 2);
      assert P2(b - 1) * 2 == P2(b);
    }
  }

  /** The long division of a 512-bit number, most significant bit first. */
  method Mod(r: array<Limb>, t: array<Limb>, m: array<Limb>)
    requires r.Length == m.Length == LIMBS && t.Length == 16 && r != m && r != t && Value(m[..]) > 0
    modifies r
    ensures Value(r[..]) == Value(t[..]) % Value(m[..])
  {
    var acc := new Limb[9](_ => 0);
    ghost var q, x := Value(m[..]), Value(t[..]);
    hide V, W, P2, Bit, Shr;
    ModStart(t[..], acc[..], q);
    for b := 512 downto 0
      invariant acc[8] == 0 && Value(acc[..]) == Shr(x, b) % q
    {
      TakeBit(acc, t, m, b);
    }
    ModEnd(x);
    Copy(r, acc);
  }

  /** One bit of the dividend. */
  method TakeBit(acc: array<Limb>, t: array<Limb>, m: array<Limb>, b: nat)
    requires acc.Length == 9 && t.Length == 16 && m.Length == LIMBS && acc != m && acc != t && b < 512 && Value(m[..]) > 0
    requires acc[8] == 0 && Value(acc[..]) == Shr(Value(t[..]), b + 1) % Value(m[..])
    modifies acc
    ensures acc[8] == 0 && Value(acc[..]) == Shr(Value(t[..]), b) % Value(m[..])
  {
    hide V, W, P2, Bit, Value, Shr;
    ghost var q, hi, lo := Value(m[..]), Shr(Value(t[..]), b + 1), Shr(Value(t[..]), b);
    BitSplit(t[..], b, q);
    var bit := Bit(t[..], b);
    DoubleMod(hi, lo, Value(acc[..]), bit, q);
    ShiftUp(acc, bit);
    Reduce(acc, m);
  }

  lemma ModStart(t: seq<Limb>, acc: seq<Limb>, q: nat)
    requires |t| == 16 && |acc| == 9 && q > 0 && forall k | 0 <= k < 9 :: acc[k] == 0
    ensures Value(acc) == 0 == Shr(Value(t), 512) % q
  {
    hide V, W, P2, Shr;
    VZero(acc, 9);
    VBound(t, 16);
    WIsP2(16);
    DivUnique(Value(t), P2(512), 0, Value(t));
    ShrIs(Value(t), 512);
    ModSmall(0, q);
  }

  lemma ModEnd(x: nat)
    ensures Shr(x, 0) == x
  {}

  lemma BitSplit(t: seq<Limb>, b: nat, q: nat)
    requires |t| == 16 && b < 512
    ensures Shr(Value(t), b) == 2 * Shr(Value(t), b + 1) + Bit(t, b) && b / 32 < 16
  {
    hide P2, V;
    BitIs(t, b);
    ShrIs(Value(t), b);
    assert Shr(Value(t), b + 1) == Shr(Value(t), b) / 2;
  }

  lemma DoubleMod(hi: nat, lo: nat, acc: nat, bit: nat, q: nat)
    requires q > 0 && lo == 2 * hi + bit && acc == hi % q && bit <= 1
    ensures 2 * acc + bit < 2 * q && (2 * acc + bit) % q == lo % q
  {
    ModMod(hi, q);
    ModMul(2, 2, acc, hi, q);
    ModAdd(2 * acc, 2 * hi, bit, bit, q);
  }

  /** One conditional subtraction brings a number below 2m under m. */
  method Reduce(acc: array<Limb>, m: array<Limb>)
    requires acc.Length == 9 && m.Length == LIMBS && acc != m && Value(acc[..]) < 2 * Value(m[..])
    modifies acc
    ensures acc[8] == 0 && Value(acc[..]) == old(Value(acc[..])) % Value(m[..])
  {
    ghost var x, q := Value(acc[..]), Value(m[..]);
    VBound(m[..], LIMBS);
    VBound(acc[..], LIMBS);
    LimbStep(acc[..], 8);
    hide V, W;
    TopLimb(acc[8], W(LIMBS));
    var c := Cmp(acc, m);
    if acc[8] != 0 || c >= 0 {
      var borrow := SubInto(acc, acc, m);
      VBound(acc[..], LIMBS);
      ghost var was := acc[..];
      acc[8] := 0;
      VSame(acc[..], was, LIMBS);
      LimbStep(acc[..], 8);
      DivUnique(x, q, 1, x - q);
    } else {
      ModSmall(x, q);
    }
    assert Value(acc[..]) == V(acc[..], 9);
    ZeroTop(acc[..]);
  }

  lemma TopLimb(x: Limb, w: nat)
    ensures x == 0 ==> x * w == 0
    ensures x == 1 ==> x * w == w
    ensures x >= 2 ==> x * w >= 2 * w
  {
    if x >= 2 { LeProduct(w, 2, x); }
  }

  lemma ZeroTop(acc: seq<Limb>)
    requires |acc| == 9 && acc[8] == 0
    ensures Value(acc) == V(acc, LIMBS)
  {}

  method Copy(r: array<Limb>, a: array<Limb>)
    requires r.Length == LIMBS && a.Length == 9 && r != a && a[8] == 0
    modifies r
    ensures Value(r[..]) == Value(a[..])
  {
    for i := 0 to LIMBS
      invariant forall k | 0 <= k < i :: r[k] == a[k]
    {
      r[i] := a[i];
    }
    VSame(r[..], a[..], LIMBS);
    ZeroTop(a[..]);
  }

  /** a * b mod m. */
  method ModMulInto(r: array<Limb>, a: array<Limb>, b: array<Limb>, m: array<Limb>)
    requires r.Length == a.Length == b.Length == m.Length == LIMBS && r != m && Value(m[..]) > 0
    modifies r
    ensures Value(r[..]) == (Value(old(a[..])) * Value(old(b[..]))) % Value(m[..])
  {
    var t := new Limb[16](_ => 0);
    Mul(t, a, b);
    Mod(r, t, m);
  }
}
