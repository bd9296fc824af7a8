/** 256-bit numbers in eight 32-bit limbs, least significant first: every carry and borrow explicit. */
module BigNum {
  import opened Residues

  type Limb = x: int | 0 <= x < 0x1_0000_0000

  const LIMBS: nat := 8

  /** 2^(32k). */
  function W(k: nat): (w: nat)
    ensures w > 0
  {
    if k == 0 then 1 else U32 * W(k - 1)
  }

  /** The value of the first k limbs. */
  function V(a: seq<Limb>, k: nat): (v: nat)
    requires k <= |a|
  {
    if k == 0 then 0
    else
      TermNat(a[k - 1], k - 1);
      V(a, k - 1) + a[k - 1] * W(k - 1)
  }

  lemma TermNat(x: Limb, k: nat)
    ensures x * W(k) >= 0
  {
    LeProduct(W(k), 0, x);
  }

  function Value(a: seq<Limb>): (v: nat) { V(a, |a|) }

  lemma {:induction false} VBound(a: seq<Limb>, k: nat)
    requires k <= |a|
    ensures V(a, k) < W(k)
  {
    if k > 0 {
      VBound(a, k - 1);
      LimbBelow(a[k - 1], W(k - 1));
    }
  }

  lemma LimbBelow(x: Limb, w: nat)
    ensures x * w + w <= U32 * w
  {
    LeProduct(w, x + 1, U32);
  }

  /** The first k limbs alone decide the first k limbs' value. */
  lemma {:induction false} VSame(a: seq<Limb>, b: seq<Limb>, k: nat)
    requires k <= |a| && k <= |b| && forall i | 0 <= i < k :: a[i] == b[i]
    ensures V(a, k) == V(b, k)
  {
    if k > 0 { VSame(a, b, k - 1); }
  }

  lemma {:induction false} VSet(a: seq<Limb>, i: nat, x: Limb, k: nat)
    requires i < |a| && k <= |a|
    ensures V(a[i := x], k) == V(a, k) + if i < k then x * W(i) - a[i] * W(i) else 0
  {
    if k > 0 { VSet(a, i, x, k - 1); }
  }

  lemma {:induction false} VZero(a: seq<Limb>, k: nat)
    requires k <= |a| && forall i | 0 <= i < k :: a[i] == 0
    ensures V(a, k) == 0
  {
    if k > 0 { VZero(a, k - 1); }
  }

  // ----- adding and subtracting -----

  lemma Carry(s: int, w: nat)
    requires 0 <= s
    ensures s * w == (s % U32) * w + (s / U32) * (U32 * w)
  {
    assert s == (s / U32) * U32 + s % U32;
    Distribute((s / U32) * U32, s % U32, w);
    assert ((s / U32) * U32) * w == (s / U32) * (U32 * w);
  }

  lemma Distribute(x: int, y: int, w: int)
    ensures (x + y) * w == x * w + y * w
  {}

  /** r = a + b without the last carry, which is returned; r may be either operand. */
  method AddInto(r: array<Limb>, a: array<Limb>, b: array<Limb>) returns (carry: nat)
    requires r.Length == a.Length == b.Length == LIMBS
    modifies r
    ensures carry <= 1
    ensures Value(r[..]) + Top(carry) == Value(old(a[..])) + Value(old(b[..]))
  {
    ghost var x, y := a[..], b[..];
    carry := 0;
    for i := 0 to LIMBS
      invariant carry <= 1 && forall k | i <= k < LIMBS :: a[k] == x[k] && b[k] == y[k]
      invariant V(r[..], i) + carry * W(i) == V(x, i) + V(y, i)
    {
      var s := a[i] + b[i] + carry;
      ghost var was := r[..];
      r[i] := s % U32;
      VSame(r[..], was, i);
      AddStep(x[i], y[i], carry, s, W(i));
      hide V, W;
      LimbStep(r[..], i);
      LimbStep(x, i);
      LimbStep(y, i);
      carry := s / U32;
    }
    TopIs(carry);
  }

  /** What a last carry or borrow is worth. */
  function Top(carry: nat): (v: nat) {
    if carry == 0 then 0 else W(LIMBS)
  }

  lemma TopIs(carry: nat)
    requires carry <= 1
    ensures carry * W(LIMBS) == Top(carry)
  {}

  lemma LimbStep(a: seq<Limb>, i: nat)
    requires i < |a|
    ensures V(a, i + 1) == V(a, i) + a[i] * W(i) && W(i + 1) == U32 * W(i)
  {}

  lemma AddStep(x: Limb, y: Limb, carry: nat, s: int, w: nat)
    requires carry <= 1 && s == x + y + carry
    ensures 0 <= s / U32 <= 1 && (s % U32) * w + (s / U32) * (U32 * w) == x * w + y * w + carry * w
  {
    Carry(s, w);
    Distribute(x + y, carry, w);
    Distribute(x, y, w);
  }

  /** The borrow of one limb: bit 63 of the wrapped difference. */
  lemma Borrow(x: Limb, y: Limb, borrow: nat, w: nat)
    requires borrow <= 1
    ensures var d := W64(x - y - borrow);
            var out := if d >= U64 / 2 then 1 else 0;
            (d % U32) * w - out * (U32 * w) == x * w - y * w - borrow * w
  {
    var e := x - y - borrow;
    var d := W64(e);
    if e < 0 {
      DivUnique(e, U64, -1, e + U64);
      DivUnique(d, U32, U32 - 1, e + U32);
      Distribute(e, U32, w);
    } else {
      ModSmall(e, U32);
    }
    Distribute(x - y - borrow, borrow, w);
    Distribute(x - y, y, w);
  }

  /** r = a - b, wrapping; the last borrow is returned. r may be either operand. */
  method SubInto(r: array<Limb>, a: array<Limb>, b: array<Limb>) returns (borrow: nat)
    requires r.Length >= LIMBS && a.Length >= LIMBS && b.Length >= LIMBS
    modifies r
    ensures borrow <= 1
    ensures V(r[..], LIMBS) as int == V(old(a[..]), LIMBS) - V(old(b[..]), LIMBS) + Top(borrow)
    ensures forall k | LIMBS <= k < r.Length :: r[k] == old(r[k])
  {
    ghost var x, y := a[..], b[..];
    borrow := 0;
    for i := 0 to LIMBS
      invariant borrow <= 1 && forall k | i <= k < LIMBS :: a[k] == x[k] && b[k] == y[k]
      invariant V(r[..], i) as int == V(x, i) - V(y, i) + borrow * W(i)
      invariant forall k | LIMBS <= k < r.Length :: r[k] == old(r[k])
    {
      var d := W64(a[i] - b[i] - borrow);
      ghost var was := r[..];
      Borrow(x[i], y[i], borrow, W(i));
      r[i] := d % U32;
      VSame(r[..], was, i);
      hide V, W, W64;
      LimbStep(r[..], i);
      LimbStep(x, i);
      LimbStep(y, i);
      borrow := if d >= U64 / 2 then 1 else 0;
    }
    TopIs(borrow);
  }

  /** -1, 0 or 1. */
  method Cmp(a: array<Limb>, b: array<Limb>) returns (c: int)
    requires a.Length >= LIMBS && b.Length >= LIMBS
    ensures c == if V(a[..], LIMBS) < V(b[..], LIMBS) then -1 else if V(a[..], LIMBS) > V(b[..], LIMBS) then 1 else 0
  {
    for i := LIMBS downto 0
      invariant V(a[..], LIMBS) - V(a[..], i) == V(b[..], LIMBS) - V(b[..], i)
    {
      LimbStep(a[..], i);
      LimbStep(b[..], i);
      if a[i] != b[i] {
        VBound(a[..], i);
        VBound(b[..], i);
        Differ(a[i], b[i], W(i));
        return if a[i] < b[i] then -1 else 1;
      }
    }
    c := 0;
  }

  lemma Differ(x: Limb, y: Limb, w: nat)
    ensures x < y ==> x * w + w <= y * w
    ensures x > y ==> y * w + w <= x * w
  {
    if x < y { LeProduct(w, x + 1, y); }
    if x > y { LeProduct(w, y + 1, x); }
  }

  /** r = (a + b) mod m. */
  method AddMod(r: array<Limb>, a: array<Limb>, b: array<Limb>, m: array<Limb>)
    requires r.Length == a.Length == b.Length == m.Length == LIMBS && r != m
    requires Value(a[..]) < Value(m[..]) && Value(b[..]) < Value(m[..])
    modifies r
    ensures Value(r[..]) == (Value(old(a[..])) + Value(old(b[..]))) % Value(m[..])
  {
    ghost var x, y, q := Value(a[..]), Value(b[..]), Value(m[..]);
    VBound(m[..], LIMBS);
    hide V, W;
    var carry := AddInto(r, a, b);
    var c := Cmp(r, m);
    VBound(r[..], LIMBS);
    if carry != 0 || c >= 0 {
      var borrow := SubInto(r, r, m);
      VBound(r[..], LIMBS);
      DivUnique(x + y, q, 1, x + y - q);
    } else {
      ModSmall(x + y, q);
    }
  }

  /** r = (a - b) mod m. */
  method SubMod(r: array<Limb>, a: array<Limb>, b: array<Limb>, m: array<Limb>)
    requires r.Length == a.Length == b.Length == m.Length == LIMBS && r != m
    requires Value(a[..]) < Value(m[..]) && Value(b[..]) < Value(m[..])
    modifies r
    ensures Value(r[..]) == (Value(old(a[..])) - Value(old(b[..]))) % Value(m[..])
  {
    ghost var x: int, y: int, q: int := Value(a[..]), Value(b[..]), Value(m[..]);
    VBound(m[..], LIMBS);
    hide V, W;
    var c := Cmp(a, b);
    if c >= 0 {
      var borrow := SubInto(r, a, b);
      VBound(r[..], LIMBS);
      ModSmall(x - y, q);
    } else {
      var t := new Limb[LIMBS](_ => 0);
      var borrow := SubInto(t, b, a);
      VBound(t[..], LIMBS);
      borrow := SubInto(r, m, t);
      VBound(r[..], LIMBS);
      DivUnique(x - y, q, -1, x - y + q);
    }
  }

  // ----- multiplying -----

  /** The 512-bit product, row by row. */
  method Mul(t: array<Limb>, a: array<Limb>, b: array<Limb>)
    requires t.Length == 16 && a.Length == b.Length == LIMBS && t != a && t != b
    modifies t
    ensures Value(t[..]) == Value(a[..]) * Value(b[..])
  {
    Clear(t);
    VZero(t[..], 16);
    for i := 0 to LIMBS
      invariant forall k | i + LIMBS <= k < 16 :: t[k] == 0
      invariant Value(t[..]) == V(a[..], i) * Value(b[..])
    {
      MulRow(t, i, a[i], b);
      LimbStep(a[..], i);
      Distribute(V(a[..], i), a[i] * W(i), Value(b[..]));
    }
  }

  method Clear(t: array<Limb>)
    modifies t
    ensures forall k | 0 <= k < t.Length :: t[k] == 0
  {
    for i := 0 to t.Length
      invariant forall k | 0 <= k < i :: t[k] == 0
    {
      t[i] := 0;
    }
  }

  /** Adds x * b, shifted by i limbs; the top limb of the row was zero. */
  method MulRow(t: array<Limb>, i: nat, x: Limb, b: array<Limb>)
    requires t.Length == 16 && i < LIMBS && b.Length == LIMBS && t != b
    requires forall k | i + LIMBS <= k < 16 :: t[k] == 0
    modifies t
    ensures forall k | i + LIMBS < k < 16 :: t[k] == 0
    ensures Value(t[..]) == old(Value(t[..])) + (x * W(i)) * Value(b[..])
  {
    ghost var start := Value(t[..]);
    var carry: nat := 0;
    hide V, W;
    RowStart(b[..], x * W(i), W(i));
    for j := 0 to LIMBS
      invariant carry < U32 && forall k | i + LIMBS <= k < 16 :: t[k] == 0
      invariant Value(t[..]) + carry * W(i + j) == start + (x * W(i)) * V(b[..], j)
    {
      var cur := t[i + j] + x * b[j] + carry;
      ghost var was := t[..];
      CurFits(t[i + j], x, b[j], carry);
      MulStep(was, i, j, x, b[..], carry, cur);
      t[i + j] := cur % U32;
      assert t[..] == was[i + j := (cur % U32) as Limb];
      carry := cur / U32;
    }
    ghost var was := t[..];
    VSet(was, i + LIMBS, carry, 16);
    t[i + LIMBS] := carry;
    assert t[..] == was[i + LIMBS := carry as Limb];
  }

  lemma RowStart(b: seq<Limb>, u: int, w: nat)
    ensures V(b, 0) == 0 && u * V(b, 0) == 0 && 0 * w == 0
  {}

  /** A limb, a product of limbs and a carry fit 64 bits. */
  lemma CurFits(t: Limb, x: Limb, y: Limb, carry: nat)
    requires carry < U32
    ensures 0 <= t + x * y + carry < U64 && (t + x * y + carry) / U32 < U32
  {
    LeProduct(x, y, U32 - 1);
    LeProduct(U32 - 1, x, U32 - 1);
  }

  lemma MulStep(t: seq<Limb>, i: nat, j: nat, x: Limb, b: seq<Limb>, carry: nat, cur: nat)
    requires |t| == 16 && |b| == LIMBS && i < LIMBS && j < LIMBS && cur == t[i + j] + x * b[j] + carry
    ensures 0 <= cur % U32 < U32
    ensures Value(t[i + j := (cur % U32) as Limb]) + (cur / U32) * W(i + j + 1)
         == Value(t) + carry * W(i + j) + (x * W(i)) * (b[j] * W(j))
    ensures V(b, j + 1) == V(b, j) + b[j] * W(j)
    ensures (x * W(i)) * V(b, j + 1) == (x * W(i)) * V(b, j) + (x * W(i)) * (b[j] * W(j))
  {
    hide V, W;
    VSet(t, i + j, (cur % U32) as Limb, 16);
    LimbStep(b, j);
    WAdd(i, j);
    MulTerms(t[i + j], x, b[j], carry, cur, W(i), W(j), W(i + j));
    Distribute(V(b, j), b[j] * W(j), x * W(i));
    Commuted(x * W(i), V(b, j), b[j] * W(j));
  }

  lemma Commuted(u: int, x: int, y: int)
    ensures u * (x + y) == u * x + u * y
  {}

  /** The column's old limb, the product and the carry, split into the new limb and the new carry. */
  lemma MulTerms(old': Limb, x: Limb, y: Limb, carry: nat, cur: int, u: nat, v: nat, w: nat)
    requires cur == old' + x * y + carry && w == u * v
    ensures (cur % U32) * w + (cur / U32) * (U32 * w) == old' * w + (x * u) * (y * v) + carry * w
  {
    LeProduct(x, 0, y);
    Carry(cur, w);
    Distribute(old' + x * y, carry, w);
    Distribute(old', x * y, w);
    Regroup(x, y, u, v);
  }

  lemma {:induction false} WAdd(i: nat, j: nat)
    ensures W(i + j) == W(i) * W(j) && W(i + j + 1) == U32 * W(i + j)
  {
    if i > 0 {
      WAdd(i - 1, j);
      assert U32 * (W(i - 1) * W(j)) == (U32 * W(i - 1)) * W(j);
    }
  }

  lemma Regroup(x: int, y: int, u: int, v: int)
    ensures (x * y) * (u * v) == (x * u) * (y * v)
  {
    assert (x * y) * (u * v) == x * (y * (u * v));
    assert y * (u * v) == u * (y * v);
  }
}
