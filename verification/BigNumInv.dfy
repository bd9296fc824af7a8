/** The modular inverse by binary extended Euclid, for every odd modulus and number coprime to it. */
module BigNumInv {
  import opened Residues
  import opened Primes
  import opened BigNum
  import opened BigNumMod

  ghost predicate Coprime(u: nat, v: nat) {
    forall d: nat | Divides(d, u) && Divides(d, v) :: d == 1
  }

  /** Every divisor of u divides w. */
  ghost predicate DivisorsOf(u: nat, w: nat) {
    forall d: nat | Divides(d, u) :: Divides(d, w)
  }

  lemma DivisorsHalf(u: nat)
    requires u % 2 == 0
    ensures DivisorsOf(u / 2, u)
  {
    forall d: nat | Divides(d, u / 2) ensures Divides(d, u) {
      var k :| Multiple(d, k, u / 2);
      assert d * (2 * k) == 2 * (d * k);
      assert Multiple(d, 2 * k, u);
    }
  }

  lemma DivisorsTrans(u: nat, v: nat, w: nat)
    requires DivisorsOf(u, v) && DivisorsOf(v, w)
    ensures DivisorsOf(u, w)
  {}

  lemma DivisorsSelf(u: nat)
    ensures DivisorsOf(u, u)
  {}

  lemma CoprimeShrinks(u: nat, u': nat, v: nat, v': nat)
    requires Coprime(u, v) && DivisorsOf(u', u) && DivisorsOf(v', v)
    ensures Coprime(u', v')
  {}

  lemma CoprimeMinus(u: nat, v: nat)
    requires Coprime(u, v) && u >= v
    ensures Coprime(u - v, v) && Coprime(v, u - v)
  {
    forall d: nat | Divides(d, u - v) && Divides(d, v) ensures d == 1 {
      var i :| Multiple(d, i, u - v);
      var j :| Multiple(d, j, v);
      assert d * (i + j) == d * i + d * j;
      assert Multiple(d, i + j, u);
    }
  }

  lemma CoprimeSym(u: nat, v: nat)
    requires Coprime(u, v)
    ensures Coprime(v, u)
  {}

  /** A common value of coprime numbers is 1. */
  lemma CoprimeEqual(u: nat)
    requires Coprime(u, u)
    ensures u == 1
  {
    assert Multiple(u, 1, u);
    assert Divides(u, u);
  }

  /** Zero is coprime to nothing above 1. */
  lemma CoprimePositive(u: nat, m: nat)
    requires Coprime(u, m) && m > 1
    ensures u > 0
  {
    assert Multiple(m, 1, m);
    assert Divides(m, m);
    assert u == 0 ==> Multiple(m, 0, u);
    assert u == 0 ==> Divides(m, u);
  }

  /** x stands for u: a * x = u modulo m. */
  ghost predicate Stands(a: nat, x: nat, u: nat, m: nat) {
    m > 0 && x < m && (a * x) % m == u % m
  }

  /** Halving both sides modulo an odd number. */
  lemma HalfStands(a: nat, x: nat, u: nat, m: nat, y: nat)
    requires Stands(a, x, u, m) && u % 2 == 0 && m % 2 == 1 && m > 1
    requires 2 * y == if x % 2 == 1 then x + m else x
    ensures Stands(a, y, u / 2, m)
  {
    var half := (m + 1) / 2;
    assert 2 * half == m + 1;
    ModShift(1, 1, m);
    ModSmall(1, m);
    TwiceModulo(a, x, y, m);
    assert 2 * (u / 2) == u;
    ModCancel(2, half, a * y, u / 2, m);
  }

  lemma TwiceModulo(a: nat, x: nat, y: nat, m: nat)
    requires m > 0 && (2 * y == x || 2 * y == x + m)
    ensures (2 * (a * y)) % m == (a * x) % m
  {
    if 2 * y == x {
      assert 2 * (a * y) == a * x;
    } else {
      assert 2 * (a * y) == a * x + a * m;
      ModShift(a * x, a, m);
    }
  }

  lemma MinusStands(a: nat, x: nat, u: nat, y: nat, v: nat, m: nat, z: nat)
    requires Stands(a, x, u, m) && Stands(a, y, v, m) && u >= v && z == (x - y) % m
    ensures Stands(a, z, u - v, m)
  {
    ModAdd(a * x, u, a * y, v, m);
    assert a * (x - y) == a * x - a * y;
    ModMod(x - y, m);
    ModMul(a, a, z, x - y, m);
  }

  method IsOne(a: array<Limb>) returns (r: bool)
    requires a.Length == LIMBS
    ensures r <==> Value(a[..]) == 1
  {
    hide V, W;
    OneTail(a[..]);
    if a[0] != 1 { return false; }
    for i := 1 to LIMBS
      invariant forall k | 1 <= k < i :: a[k] == 0
    {
      if a[i] != 0 { return false; }
    }
    r := true;
  }

  lemma OneTail(a: seq<Limb>)
    requires |a| == LIMBS
    ensures Value(a) == 1 <==> a[0] == 1 && forall k | 1 <= k < LIMBS :: a[k] == 0
  {
    hide V, W;
    OneTo(a, LIMBS);
  }

  lemma {:induction false} OneTo(a: seq<Limb>, k: nat)
    requires 0 < k <= |a|
    ensures V(a, k) >= a[0]
    ensures V(a, k) == 1 <==> a[0] == 1 && forall i | 1 <= i < k :: a[i] == 0
  {
    hide V, W;
    if k == 1 {
      OneLimb(a);
    } else {
      OneTo(a, k - 1);
      LimbStep(a, k - 1);
      LimbStep(a, k - 2);
      BigTerm(a[k - 1], W(k - 2), W(k - 1));
      LowBitTo(a, k - 1);
      EvenStep(V(a, k - 1), a[k - 1], W(k - 2), W(k - 1));
    }
  }

  lemma BigTerm(x: Limb, w: nat, w': nat)
    requires w' == U32 * w && w > 0
    ensures x == 0 ==> x * w' == 0
    ensures x > 0 ==> x * w' > 1
  {
    if x > 0 { LeProduct(w', 1, x); }
  }

  /** Halves u until it is odd, keeping what x stands for. */
  method HalveOut(u: array<Limb>, x: array<Limb>, m: array<Limb>, ghost a: nat)
    requires u.Length == x.Length == m.Length == LIMBS && u != x && u != m && x != m
    requires Value(u[..]) > 0 && Value(m[..]) > 1 && Value(m[..]) % 2 == 1
    requires Stands(a, Value(x[..]), Value(u[..]), Value(m[..]))
    modifies u, x
    ensures Value(u[..]) % 2 == 1 && Value(u[..]) <= old(Value(u[..]))
    ensures old(Value(u[..])) % 2 == 1 ==> Value(u[..]) == old(Value(u[..]))
    ensures DivisorsOf(Value(u[..]), old(Value(u[..])))
    ensures Stands(a, Value(x[..]), Value(u[..]), Value(m[..]))
  {
    hide V, W, Value, Stands, DivisorsOf;
    ghost var start := Value(u[..]);
    DivisorsSelf(start);
    LowBit(u[..]);
    while u[0] % 2 == 0
      invariant Value(u[..]) % 2 == u[0] % 2 && 0 < Value(u[..]) <= start
      invariant start % 2 == 1 ==> Value(u[..]) == start
      invariant DivisorsOf(Value(u[..]), start) && Stands(a, Value(x[..]), Value(u[..]), Value(m[..]))
      decreases Value(u[..])
    {
      HalveOnce(u, x, m, a, start);
      LowBit(u[..]);
    }
  }

  method HalveOnce(u: array<Limb>, x: array<Limb>, m: array<Limb>, ghost a: nat, ghost start: nat)
    requires u.Length == x.Length == m.Length == LIMBS && u != x && u != m && x != m
    requires Value(u[..]) > 0 && Value(u[..]) % 2 == 0 && Value(m[..]) > 1 && Value(m[..]) % 2 == 1
    requires Stands(a, Value(x[..]), Value(u[..]), Value(m[..])) && DivisorsOf(Value(u[..]), start)
    modifies u, x
    ensures Value(u[..]) == old(Value(u[..])) / 2 && DivisorsOf(Value(u[..]), start)
    ensures Stands(a, Value(x[..]), Value(u[..]), Value(m[..]))
  {
    LowBit(x[..]);
    LowBit(m[..]);
    hide V, W, Value, Stands, DivisorsOf;
    ghost var u0, x0, q := Value(u[..]), Value(x[..]), Value(m[..]);
    DivisorsHalf(u0);
    DivisorsTrans(u0 / 2, u0, start);
    Shr1(u);
    if x[0] % 2 == 1 {
      AddShr1(x, m);
    } else {
      Shr1(x);
    }
    HalfStands(a, x0, u0, q, Value(x[..]));
  }

  /** The invariant of the outer loop, on values. */
  ghost predicate Euclid(a: nat, m: nat, u: nat, v: nat, x1: nat, x2: nat) {
    && m > 1 && m % 2 == 1 && u > 0 && v > 0 && (u % 2 == 1 || v % 2 == 1) && Coprime(u, v)
    && Stands(a, x1, u, m) && Stands(a, x2, v, m)
  }

  lemma EuclidStart(a: nat, m: nat)
    requires m > 1 && m % 2 == 1 && Coprime(a, m)
    ensures Euclid(a, m, a, m, 1, 0)
  {
    CoprimePositive(a, m);
    ModShift(0, 1, m);
    ModSmall(0, m);
    assert a * 1 == a && a * 0 == 0;
  }

  /** After halving, the two odd numbers differ, because one of them was odd and not 1 before. */
  lemma EuclidHalved(a: nat, m: nat, u: nat, v: nat, x1: nat, x2: nat, u': nat, v': nat, x1': nat, x2': nat)
    requires Euclid(a, m, u, v, x1, x2) && u != 1 && v != 1
    requires DivisorsOf(u', u) && DivisorsOf(v', v) && u' % 2 == 1 && v' % 2 == 1
    requires (u % 2 == 1 ==> u' == u) && (v % 2 == 1 ==> v' == v)
    requires Stands(a, x1', u', m) && Stands(a, x2', v', m)
    ensures Euclid(a, m, u', v', x1', x2') && u' != v'
  {
    CoprimeShrinks(u, u', v, v');
    if u' == v' { CoprimeEqual(u'); }
  }

  lemma EuclidMinus(a: nat, m: nat, u: nat, v: nat, x1: nat, x2: nat, z: nat)
    requires Euclid(a, m, u, v, x1, x2) && u % 2 == 1 && v % 2 == 1 && u > v && z == (x1 - x2) % m
    ensures Euclid(a, m, u - v, v, z, x2)
  {
    CoprimeMinus(u, v);
    MinusStands(a, x1, u, x2, v, m, z);
  }

  lemma EuclidSwap(a: nat, m: nat, u: nat, v: nat, x1: nat, x2: nat)
    requires Euclid(a, m, u, v, x1, x2)
    ensures Euclid(a, m, v, u, x2, x1)
  {
    CoprimeSym(u, v);
  }

  /** r = a^-1 mod m; r may be a or m itself. */
  method ModInvInto(r: array<Limb>, a: array<Limb>, m: array<Limb>)
    requires r.Length == a.Length == m.Length == LIMBS
    requires Value(m[..]) > 1 && Value(m[..]) % 2 == 1 && Coprime(Value(a[..]), Value(m[..]))
    modifies r
    ensures Value(r[..]) < old(Value(m[..])) && (old(Value(a[..])) * Value(r[..])) % old(Value(m[..])) == 1
  {
    hide V, W, Value, Coprime;
    var x := Inverse(a, m);
    CopyInto(r, x);
  }

  /** The loop on copies of a and m. */
  method Inverse(a: array<Limb>, m: array<Limb>) returns (x: array<Limb>)
    requires a.Length == m.Length == LIMBS
    requires Value(m[..]) > 1 && Value(m[..]) % 2 == 1 && Coprime(Value(a[..]), Value(m[..]))
    ensures fresh(x) && x.Length == LIMBS
    ensures Value(x[..]) < Value(m[..]) && (Value(a[..]) * Value(x[..])) % Value(m[..]) == 1
  {
    var u, v := new Limb[LIMBS](i requires 0 <= i < LIMBS reads a => a[i]), new Limb[LIMBS](i requires 0 <= i < LIMBS reads m => m[i]);
    var x1, x2 := new Limb[LIMBS](i => if i == 0 then 1 else 0), new Limb[LIMBS](_ => 0);
    assert u[..] == a[..] && v[..] == m[..];
    OneTail(x1[..]);
    VZero(x2[..], LIMBS);
    EuclidStart(Value(a[..]), Value(m[..]));
    hide V, W, Value, Euclid, Coprime;
    var oneU := IsOne(u);
    var oneV := IsOne(v);
    while !oneU && !oneV
      invariant Euclid(Value(a[..]), Value(m[..]), Value(u[..]), Value(v[..]), Value(x1[..]), Value(x2[..]))
      invariant oneU == (Value(u[..]) == 1) && oneV == (Value(v[..]) == 1)
      decreases Value(u[..]) + Value(v[..])
    {
      Round(u, v, x1, x2, a, m);
      oneU := IsOne(u);
      oneV := IsOne(v);
    }
    EuclidDone(Value(a[..]), Value(m[..]), Value(u[..]), Value(v[..]), Value(x1[..]), Value(x2[..]));
    x := if oneU then x1 else x2;
  }

  lemma EuclidDone(a: nat, m: nat, u: nat, v: nat, x1: nat, x2: nat)
    requires Euclid(a, m, u, v, x1, x2)
    ensures u == 1 ==> x1 < m && (a * x1) % m == 1
    ensures v == 1 ==> x2 < m && (a * x2) % m == 1
  {
    ModSmall(1, m);
  }

  method CopyInto(r: array<Limb>, a: array<Limb>)
    requires r.Length == a.Length == LIMBS && r != a
    modifies r
    ensures r[..] == a[..]
  {
    for i := 0 to LIMBS
      invariant forall k | 0 <= k < i :: r[k] == a[k]
    {
      r[i] := a[i];
    }
  }

  /** Halve both until odd, then subtract the smaller from the larger. */
  method Round(u: array<Limb>, v: array<Limb>, x1: array<Limb>, x2: array<Limb>, a: array<Limb>, m: array<Limb>)
    requires u.Length == v.Length == x1.Length == x2.Length == a.Length == m.Length == LIMBS
    requires u != v && u != x1 && u != x2 && v != x1 && v != x2 && x1 != x2
    requires u != a && v != a && x1 != a && x2 != a && u != m && v != m && x1 != m && x2 != m
    requires Euclid(Value(a[..]), Value(m[..]), Value(u[..]), Value(v[..]), Value(x1[..]), Value(x2[..]))
    requires Value(u[..]) != 1 && Value(v[..]) != 1
    modifies u, v, x1, x2
    ensures Euclid(Value(a[..]), Value(m[..]), Value(u[..]), Value(v[..]), Value(x1[..]), Value(x2[..]))
    ensures Value(u[..]) + Value(v[..]) < old(Value(u[..]) + Value(v[..]))
  {
    ghost var n, q := Value(a[..]), Value(m[..]);
    ghost var u0, v0, y1, y2 := Value(u[..]), Value(v[..]), Value(x1[..]), Value(x2[..]);
    EuclidParts(n, q, u0, v0, y1, y2);
    hide V, W, Value, Euclid, Stands, DivisorsOf, Coprime;
    HalveOut(u, x1, m, n);
    HalveOut(v, x2, m, n);
    EuclidHalved(n, q, u0, v0, y1, y2, Value(u[..]), Value(v[..]), Value(x1[..]), Value(x2[..]));
    Subtract(u, v, x1, x2, a, m);
  }

  lemma EuclidParts(a: nat, m: nat, u: nat, v: nat, x1: nat, x2: nat)
    requires Euclid(a, m, u, v, x1, x2)
    ensures m > 1 && m % 2 == 1 && u > 0 && v > 0 && x1 < m && x2 < m && Stands(a, x1, u, m) && Stands(a, x2, v, m)
  {}

  method Subtract(u: array<Limb>, v: array<Limb>, x1: array<Limb>, x2: array<Limb>, a: array<Limb>, m: array<Limb>)
    requires u.Length == v.Length == x1.Length == x2.Length == a.Length == m.Length == LIMBS
    requires u != v && u != x1 && u != x2 && v != x1 && v != x2 && x1 != x2
    requires u != a && v != a && x1 != a && x2 != a && u != m && v != m && x1 != m && x2 != m
    requires Euclid(Value(a[..]), Value(m[..]), Value(u[..]), Value(v[..]), Value(x1[..]), Value(x2[..]))
    requires Value(u[..]) % 2 == 1 && Value(v[..]) % 2 == 1 && Value(u[..]) != Value(v[..])
    modifies u, v, x1, x2
    ensures Euclid(Value(a[..]), Value(m[..]), Value(u[..]), Value(v[..]), Value(x1[..]), Value(x2[..]))
    ensures Value(u[..]) + Value(v[..]) < old(Value(u[..]) + Value(v[..]))
  {
    ghost var n, q := Value(a[..]), Value(m[..]);
    ghost var u0, v0, y1, y2 := Value(u[..]), Value(v[..]), Value(x1[..]), Value(x2[..]);
    EuclidParts(n, q, u0, v0, y1, y2);
    hide V, W, Euclid, Stands, Coprime;
    var c := Cmp(u, v);
    if c >= 0 {
      MinusInto(u, v);
      SubMod(x1, x1, x2, m);
      EuclidMinus(n, q, u0, v0, y1, y2, Value(x1[..]));
    } else {
      MinusInto(v, u);
      SubMod(x2, x2, x1, m);
      EuclidSwap(n, q, u0, v0, y1, y2);
      EuclidMinus(n, q, v0, u0, y2, y1, Value(x2[..]));
      EuclidSwap(n, q, v0 - u0, u0, Value(x2[..]), y1);
    }
  }

  /** u -= v, with u at least v. */
  method MinusInto(u: array<Limb>, v: array<Limb>)
    requires u.Length == v.Length == LIMBS && u != v && Value(u[..]) >= Value(v[..])
    modifies u
    ensures Value(u[..]) == old(Value(u[..])) - Value(v[..])
  {
    VBound(u[..], LIMBS);
    hide V, W;
    var borrow := SubInto(u, u, v);
    VBound(u[..], LIMBS);
  }
}
