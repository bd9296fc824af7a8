/**
 Packing n plaintext slots into one polynomial by evaluation at n roots of x^n + 1 modulo t,
 and what the packing does to sums and products.
 */
module BfvSlots {
  import opened Residues
  import opened Primes
  import opened Ring
  import opened Rows
  import opened CkksArith
  import opened Goldilocks

  function IPow(b: int, e: nat): int {
    if e == 0 then 1 else b * IPow(b, e - 1)
  }

  lemma {:induction false} IPowAdd(b: int, d: nat, e: nat)
    ensures IPow(b, d) * IPow(b, e) == IPow(b, d + e)
  {
    if d > 0 {
      IPowAdd(b, d - 1, e);
      assert b * IPow(b, d - 1) * IPow(b, e) == b * (IPow(b, d - 1) * IPow(b, e));
    }
  }

  lemma {:induction false} IPowPow(b: int, d: nat, e: nat)
    ensures d * e >= 0 && IPow(IPow(b, d), e) == IPow(b, d * e)
  {
    NatProduct(d, e);
    if e == 0 {
      assert d * e == 0;
    } else {
      NatProduct(d, e - 1);
      IPowPow(b, d, e - 1);
      IPowAdd(b, d, d * (e - 1));
      assert d + d * (e - 1) == d * e;
    }
  }

  lemma {:induction false} IPowProduct(a: int, b: int, e: nat)
    ensures IPow(a * b, e) == IPow(a, e) * IPow(b, e)
  {
    if e > 0 {
      IPowProduct(a, b, e - 1);
      Exchange(a, b, IPow(a, e - 1), IPow(b, e - 1));
    }
  }

  lemma Exchange(a: int, b: int, x: int, y: int)
    ensures (a * b) * (x * y) == (a * x) * (b * y)
  {
    assert (a * b) * (x * y) == a * (b * (x * y));
    assert b * (x * y) == x * (b * y);
  }

  lemma {:induction false} IPowMod(a: int, b: int, e: nat, t: int)
    requires t > 0 && a % t == b % t
    ensures IPow(a, e) % t == IPow(b, e) % t
  {
    if e > 0 {
      IPowMod(a, b, e - 1, t);
      ModMul(a, b, IPow(a, e - 1), IPow(b, e - 1), t);
    }
  }

  /** Square and multiply. */
  method PowMod(b: nat, e: nat, m: nat) returns (r: nat)
    requires m > 1
    ensures r < m && r == IPow(b, e) % m
  {
    hide IPow;
    r := 1;
    var x: nat, k: nat := b % m, e;
    ModMod(b, m);
    IPowMod(b % m, b, e, m);
    while k != 0
      invariant r < m && x < m
      invariant (r * IPow(x, k)) % m == IPow(b, e) % m
    {
      SquareStep(r, x, k, m);
      if k % 2 == 1 { r := r * x % m; }
      x := x * x % m;
      k := k / 2;
    }
    assert IPow(x, 0) == 1 by { NoPower(x); }
    ModSmall(r, m);
  }

  lemma NoPower(x: int)
    ensures IPow(x, 0) == 1
  {}

  lemma SquareStep(r: nat, x: nat, k: nat, m: nat)
    requires m > 0 && k > 0
    ensures var r' := if k % 2 == 1 then r * x % m else r;
            (r' * IPow(x * x % m, k / 2)) % m == (r * IPow(x, k)) % m
  {
    var h := k / 2;
    ModMod(x * x, m);
    IPowMod(x * x % m, x * x, h, m);
    IPowProduct(x, x, h);
    IPowAdd(x, h, h);
    if k % 2 == 1 {
      assert IPow(x, k) == x * IPow(x, h + h);
      ModMod(r * x, m);
      ModMul(r * x % m, r * x, IPow(x * x % m, h), IPow(x, h + h), m);
      assert (r * x) * IPow(x, h + h) == r * IPow(x, k);
    } else {
      ModMul(r, r, IPow(x * x % m, h), IPow(x, h + h), m);
    }
  }

  // ----- polynomials at a point -----

  function At(p: seq<int>, x: int): int {
    if p == [] then 0 else p[0] + x * At(p[1..], x)
  }

  lemma {:induction false} AtSnoc(p: seq<int>, c: int, x: int)
    ensures At(p + [c], x) == At(p, x) + c * IPow(x, |p|)
  {
    if p == [] {
      assert [c][1..] == [];
    } else {
      assert (p + [c])[1..] == p[1..] + [c];
      AtSnoc(p[1..], c, x);
      assert x * (At(p[1..], x) + c * IPow(x, |p| - 1)) == x * At(p[1..], x) + c * (x * IPow(x, |p| - 1));
    }
  }

  lemma {:induction false} AtLinear(a: Poly, b: Poly, c: int, x: int)
    requires |a| == |b|
    ensures At(Add(a, Scale(c, b)), x) == At(a, x) + c * At(b, x)
  {
    if a != [] {
      assert Add(a, Scale(c, b))[1..] == Add(a[1..], Scale(c, b[1..]));
      AtLinear(a[1..], b[1..], c, x);
      assert x * (At(a[1..], x) + c * At(b[1..], x)) == x * At(a[1..], x) + c * (x * At(b[1..], x));
      assert c * (b[0] + x * At(b[1..], x)) == c * b[0] + c * (x * At(b[1..], x));
    }
  }

  lemma {:induction false} AtEqv(a: Poly, b: Poly, x: int, t: int)
    requires t > 0 && Eqv(a, b, t)
    ensures At(a, x) % t == At(b, x) % t
  {
    if a != [] {
      assert Eqv(a[1..], b[1..], t);
      AtEqv(a[1..], b[1..], x, t);
      ModMul(x, x, At(a[1..], x), At(b[1..], x), t);
      ModAdd(a[0], b[0], x * At(a[1..], x), x * At(b[1..], x), t);
    }
  }

  lemma {:induction false} AtZero(n: nat, x: int)
    ensures At(Zero(n), x) == 0
  {
    if n > 0 {
      assert Zero(n)[1..] == Zero(n - 1);
      AtZero(n - 1, x);
    }
  }

  /** x is a root of X^n + 1 modulo t. */
  ghost predicate Root(x: int, n: nat, t: int)
    requires t > 0
  {
    (IPow(x, n) + 1) % t == 0
  }

  /** At a root, multiplying by the variable multiplies the value by the root. */
  lemma {:induction false} AtShift(p: Poly, x: int, t: int)
    requires |p| > 0 && t > 0 && Root(x, |p|, t)
    ensures At(Shift(p), x) % t == (x * At(p, x)) % t
  {
    var init, last := p[..|p| - 1], p[|p| - 1];
    ShiftSplits(p, x);
    RootCancels(x, At(init, x), last, IPow(x, |p| - 1), t);
  }

  lemma {:induction false} ShiftSplits(p: Poly, x: int)
    requires |p| > 0
    ensures At(p, x) == At(p[..|p| - 1], x) + p[|p| - 1] * IPow(x, |p| - 1)
    ensures At(Shift(p), x) == -p[|p| - 1] + x * At(p[..|p| - 1], x)
  {
    var init, last := p[..|p| - 1], p[|p| - 1];
    assert p == init + [last];
    AtSnoc(init, last, x);
    assert Shift(p)[0] == -last && Shift(p)[1..] == init;
  }

  lemma RootCancels(x: int, v: int, last: int, pw: int, t: int)
    requires t > 0 && (x * pw + 1) % t == 0
    ensures (-last + x * v) % t == (x * (v + last * pw)) % t
  {
    assert x * (v + last * pw) == x * v + last * (x * pw);
    assert last * (x * pw) == last * (x * pw + 1) - last;
    ModMul(last, last, x * pw + 1, 0, t);
    ModAdd(x * v - last, x * v - last, last * (x * pw + 1), last * 0, t);
  }

  /** Evaluation at a root turns the negacyclic product into a product. */
  lemma {:induction false} AtMul(a: Poly, b: Poly, x: int, t: int)
    requires |b| > 0 && t > 0 && Root(x, |b|, t)
    ensures At(Mul(a, b), x) % t == (At(a, x) * At(b, x)) % t
  {
    hide Root, Shift, Add, Scale, ShiftN;
    if a == [] {
      MulNone(b);
      AtZero(|b|, x);
    } else {
      var rest := Mul(a[1..], b);
      AtMul(a[1..], b, x, t);
      ShiftOne(rest);
      MulFirst(a, b);
      ScaleOneAdd(Shift(rest), a[0], b);
      AtLinear(Shift(rest), b, a[0], x);
      AtShift(rest, x, t);
      ModMul(x, x, At(rest, x), At(a[1..], x) * At(b, x), t);
      ModAdd(At(Shift(rest), x), x * (At(a[1..], x) * At(b, x)), a[0] * At(b, x), a[0] * At(b, x), t);
      assert (a[0] + x * At(a[1..], x)) * At(b, x) == x * (At(a[1..], x) * At(b, x)) + a[0] * At(b, x);
    }
  }

  lemma MulNone(b: Poly)
    requires |b| > 0
    ensures Mul([], b) == Zero(|b|)
  {}

  lemma MulFirst(a: Poly, b: Poly)
    requires |b| > 0 && a != []
    ensures Mul(a, b) == Add(Scale(a[0], b), ShiftN(Mul(a[1..], b), 1))
  {}

  lemma ScaleOneAdd(r: Poly, c: int, b: Poly)
    requires |r| == |b|
    ensures Add(Scale(c, b), r) == Add(r, Scale(c, b))
  {}

  // ----- the interpolation polynomial of one slot -----

  /** Coefficients p^(n-1), ..., p, 1. */
  function Down(p: int, n: nat): (r: Poly)
    ensures |r| == n
  {
    seq(n, i requires 0 <= i < n => IPow(p, n - 1 - i))
  }

  /** (p - x) * sum of p^(n-1-i) x^i == p^n - x^n */
  lemma {:induction false} Telescope(p: int, x: int, n: nat)
    ensures (p - x) * At(Down(p, n), x) == IPow(p, n) - IPow(x, n)
  {
    if n > 0 {
      assert Down(p, n)[1..] == Down(p, n - 1);
      Telescope(p, x, n - 1);
      var v := At(Down(p, n - 1), x);
      assert (p - x) * (IPow(p, n - 1) + x * v) == (p - x) * IPow(p, n - 1) + x * ((p - x) * v);
      assert (p - x) * IPow(p, n - 1) == IPow(p, n) - x * IPow(p, n - 1);
    }
  }

  lemma {:induction false} DownSelf(p: int, n: nat)
    ensures n > 0 ==> At(Down(p, n), p) == n * IPow(p, n - 1)
  {
    if n > 1 {
      assert Down(p, n)[1..] == Down(p, n - 1);
      DownSelf(p, n - 1);
      assert p * ((n - 1) * IPow(p, n - 2)) == (n - 1) * (p * IPow(p, n - 2));
    } else if n == 1 {
      assert Down(p, 1)[1..] == [];
    }
  }

  /** The evaluation points: roots of x^n + 1 whose differences are units modulo t. */
  ghost predicate Points(pts: seq<nat>, n: nat, t: nat) {
    && n > 0 && 2 < t < U32 && |pts| == n && Canonical(pts, t) && Unit(n, t)
    && (forall j | 0 <= j < n :: Root(pts[j], n, t))
    && (forall j, k | 0 <= j < n && 0 <= k < n && j != k :: Unit(pts[j] as int - pts[k] as int, t))
  }

  lemma RootIsUnit(x: int, n: nat, t: int)
    requires n > 0 && t > 1 && Root(x, n, t)
    ensures InverseOf(-IPow(x, n - 1), x, t)
  {
    assert -IPow(x, n - 1) * x == -IPow(x, n);
    ModAdd(0, 0, IPow(x, n) + 1, 0, t);
    ModAdd(1, 1, -(IPow(x, n) + 1), 0, t);
  }

  lemma UnitProductOk(a: int, u: int, b: int, v: int, t: int)
    requires t > 1 && InverseOf(u, a, t) && InverseOf(v, b, t)
    ensures InverseOf(u * v, a * b, t)
  {
    ModMul(u * a, 1, v * b, 1, t);
    assert (u * a) * (v * b) == (u * v) * (a * b);
  }

  /** Off its own point, the interpolation polynomial vanishes. */
  lemma DownElsewhere(pts: seq<nat>, n: nat, t: nat, j: nat, k: nat)
    requires Points(pts, n, t) && j < n && k < n && j != k
    ensures At(Down(pts[j], n), pts[k]) % t == 0
  {
    var p, x := pts[j], pts[k];
    var v := At(Down(p, n), x);
    Telescope(p, x, n);
    ModAdd(IPow(p, n) + 1, 0, IPow(x, n) + 1, 0, t);
    var u: int :| InverseOf(u, p - x, t);
    assert (p - x) * v == (IPow(p, n) + 1) - (IPow(x, n) + 1);
    assert (p - x) * u == u * (p - x);
    ModCancel(p - x, u, v, 0, t);
    ModSmall(0, t);
  }

  // ----- encoding and decoding -----

  /** One slot's contribution: coef * p^(n-1-i) added to every coefficient. */
  method AddSlot(buf: array<nat>, coef: nat, p: nat, top: nat, inv: nat, t: nat)
    requires 2 < t && coef < t && buf.Length > 0 && Canonical(buf[..], t) && InverseOf(inv, p, t)
    requires top < t && top == IPow(p, buf.Length - 1) % t
    modifies buf
    ensures Canonical(buf[..], t)
    ensures Eqv(buf[..], Add(old(buf[..]), Scale(coef, Down(p, buf.Length))), t)
  {
    var n := buf.Length;
    ghost var was := buf[..];
    ghost var goal := Add(was, Scale(coef, Down(p, n)));
    assert forall k | 0 <= k < n :: goal[k] == was[k] + coef * IPow(p, n - 1 - k);
    hide *;
    var pw: nat := top;
    SlotStart(p, n, top, t);
    for i := 0 to n
      invariant pw < t && PowerAt(pw, p, n - 1 - i, t)
      invariant forall k | 0 <= k < i :: buf[k] < t && buf[k] % t == goal[k] % t
      invariant forall k | i <= k < n :: buf[k] == was[k]
    {
      SlotCoef(was[i], coef, pw, p, n - 1 - i, t);
      assert goal[i] == was[i] + coef * IPow(p, n - 1 - i);
      buf[i] := (buf[i] + coef * pw % t) % t;
      DownStep(pw, p, n - 1 - i, inv, t);
      pw := pw * inv % t;
    }
    SlotDone(buf[..], goal, t);
  }

  /** pw is p^e modulo t, as long as e is an exponent. */
  ghost predicate PowerAt(pw: int, p: int, e: int, t: int)
    requires t > 0
  {
    e >= 0 ==> pw % t == IPow(p, e) % t
  }

  lemma SlotStart(p: int, n: nat, top: nat, t: nat)
    requires n > 0 && t > 0 && top == IPow(p, n - 1) % t
    ensures PowerAt(top, p, n - 1, t)
  {
    ModMod(IPow(p, n - 1), t);
  }

  lemma SlotDone(a: seq<nat>, goal: Poly, t: nat)
    requires t > 0 && |a| == |goal| && forall k | 0 <= k < |a| :: a[k] < t && a[k] % t == goal[k] % t
    ensures Canonical(a, t) && Eqv(a, goal, t)
  {}

  lemma SlotCoef(x: nat, coef: nat, pw: nat, p: int, e: nat, t: nat)
    requires t > 0 && PowerAt(pw, p, e, t)
    ensures coef * pw % t >= 0 && (x + coef * pw % t) % t < t
    ensures ((x + coef * pw % t) % t) % t == (x + coef * IPow(p, e)) % t
  {
    hide IPow;
    var exact := IPow(p, e);
    ModMod(coef * pw, t);
    ModMul(coef, coef, pw, exact, t);
    ModAdd(x, x, coef * pw % t, coef * exact, t);
    ModMod(x + coef * pw % t, t);
  }

  lemma DownStep(pw: nat, p: int, e: nat, inv: nat, t: nat)
    requires t > 1 && PowerAt(pw, p, e, t) && InverseOf(inv, p, t)
    ensures 0 <= pw * inv % t < t && PowerAt(pw * inv % t, p, e - 1, t)
  {
    NatProduct(pw, inv);
    if e > 0 {
      ModMul(pw, IPow(p, e), inv, inv, t);
      ModMod(pw * inv, t);
      DownFactor(p, IPow(p, e - 1), inv);
      ModMul(inv * p, 1, IPow(p, e - 1), IPow(p, e - 1), t);
    }
  }

  lemma DownFactor(p: int, q: int, inv: int)
    ensures (p * q) * inv == (inv * p) * q
  {}

  /** The polynomial whose value at point k is slot k. */
  ghost predicate Packs(poly: seq<nat>, slots: seq<nat>, pts: seq<nat>, t: nat, m: nat)
    requires t > 0 && |slots| == |pts| && m <= |slots|
  {
    forall k | 0 <= k < |pts| :: At(poly, pts[k]) % t == (if k < m then slots[k] else 0) % t
  }

  method Encode(slots: seq<nat>, pts: seq<nat>, n: nat, t: nat) returns (poly: seq<nat>)
    requires Points(pts, n, t) && |slots| == n
    ensures |poly| == n && Canonical(poly, t) && Packs(poly, slots, pts, t, n)
  {
    hide Points;
    PointsBasic(pts, n, t);
    var buf := new nat[n](_ => 0);
    NothingPacked(buf[..], slots, pts, n, t);
    for j := 0 to n
      invariant Canonical(buf[..], t) && Packs(buf[..], slots, pts, t, j)
    {
      hide Packs, Canonical, Unit, InverseOf, IPow;
      PointAt(pts, n, t, j);
      var pj := pts[j];
      var top := PowMod(pj, n - 1, t);
      var scale := (n % t) * top % t;
      ScaleUnit(pj, n, top, scale, t);
      var inv := ModInv(scale, t);
      var coef := (slots[j] % t) * inv % t;
      var invP := ModInv(pj, t);
      ghost var was := buf[..];
      AddSlot(buf, coef, pj, top, invP, t);
      SlotPacked(was, buf[..], slots, pts, n, t, j, scale, inv, coef);
    }
    poly := buf[..];
  }

  lemma PointsBasic(pts: seq<nat>, n: nat, t: nat)
    requires Points(pts, n, t)
    ensures n > 0 && 2 < t < U32 && |pts| == n
  {}

  lemma PointAt(pts: seq<nat>, n: nat, t: nat, j: nat)
    requires Points(pts, n, t) && j < n
    ensures pts[j] < t && Unit(pts[j], t) && Root(pts[j], n, t) && Unit(n, t)
  {
    RootIsUnit(pts[j], n, t);
  }

  lemma NothingPacked(zero: seq<nat>, slots: seq<nat>, pts: seq<nat>, n: nat, t: nat)
    requires t > 0 && |slots| == |pts| == n && |zero| == n && forall i | 0 <= i < n :: zero[i] == 0
    ensures Canonical(zero, t) && Packs(zero, slots, pts, t, 0)
  {
    assert zero == Zero(n);
    forall k | 0 <= k < n ensures At(zero, pts[k]) % t == 0 % t {
      AtZero(n, pts[k]);
    }
  }

  /** n * p^(n-1) is a unit, so its extended-Euclid inverse is one. */
  lemma ScaleUnit(p: nat, n: nat, top: nat, scale: nat, t: nat)
    requires n > 0 && t > 2 && Unit(n, t) && Root(p, n, t)
    requires top == IPow(p, n - 1) % t && scale == (n % t) * top % t
    ensures Unit(scale, t) && scale % t == (n * IPow(p, n - 1)) % t
  {
    ModMod(n, t);
    ModMod(IPow(p, n - 1), t);
    ModMul(n % t, n, top, IPow(p, n - 1), t);
    ModMod((n % t) * top, t);
    RootIsUnit(p, n, t);
    ProductUnit(n, p, IPow(p, n - 1), scale, t);
  }

  lemma ProductUnit(n: int, p: int, pw: int, scale: int, t: int)
    requires t > 1 && Unit(n, t) && InverseOf(-pw, p, t) && scale % t == (n * pw) % t
    ensures Unit(scale, t)
  {
    var u: int :| InverseOf(u, n, t);
    assert -p * pw == -pw * p;
    assert InverseOf(-p, pw, t);
    UnitProductOk(n, u, pw, -p, t);
    ModMul(u * -p, u * -p, scale, n * pw, t);
    assert InverseOf(u * -p, scale, t);
  }

  lemma SlotPacked(was: seq<nat>, now: seq<nat>, slots: seq<nat>, pts: seq<nat>, n: nat, t: nat, j: nat,
                   scale: nat, inv: nat, coef: nat)
    requires Points(pts, n, t) && j < n && |slots| == |was| == |now| == n && Packs(was, slots, pts, t, j)
    requires Eqv(now, Add(was, Scale(coef, Down(pts[j], n))), t)
    requires scale % t == (n * IPow(pts[j], n - 1)) % t && InverseOf(inv, scale, t)
    requires coef == (slots[j] % t) * inv % t
    ensures Packs(now, slots, pts, t, j + 1)
  {
    hide *;
    PointsBasic(pts, n, t);
    forall k | 0 <= k < n ensures At(now, pts[k]) % t == (if k < j + 1 then slots[k] else 0) % t {
      SlotPackedAt(was, now, slots, pts, n, t, j, scale, inv, coef, k);
    }
    AllPacked(now, slots, pts, t, j + 1);
  }

  lemma AllPacked(poly: seq<nat>, slots: seq<nat>, pts: seq<nat>, t: nat, m: nat)
    requires t > 0 && |slots| == |pts| && m <= |slots|
    requires forall k | 0 <= k < |pts| :: At(poly, pts[k]) % t == (if k < m then slots[k] else 0) % t
    ensures Packs(poly, slots, pts, t, m)
  {}

  lemma SlotPackedAt(was: seq<nat>, now: seq<nat>, slots: seq<nat>, pts: seq<nat>, n: nat, t: nat, j: nat,
                     scale: nat, inv: nat, coef: nat, k: nat)
    requires Points(pts, n, t) && j < n && k < n && |slots| == |was| == |now| == n && Packs(was, slots, pts, t, j)
    requires Eqv(now, Add(was, Scale(coef, Down(pts[j], n))), t)
    requires scale % t == (n * IPow(pts[j], n - 1)) % t && InverseOf(inv, scale, t)
    requires coef == (slots[j] % t) * inv % t
    ensures At(now, pts[k]) % t == (if k < j + 1 then slots[k] else 0) % t
  {
    PointsBasic(pts, n, t);
    assert At(was, pts[k]) % t == (if k < j then slots[k] else 0) % t;
    hide Points, InverseOf, At, Down, Packs, IPow, Eqv;
    var d := At(Down(pts[j], n), pts[k]);
    AtLinear(was, Down(pts[j], n), coef, pts[k]);
    AtEqv(now, Add(was, Scale(coef, Down(pts[j], n))), pts[k], t);
    if k == j {
      DownSelf(pts[j], n);
      OwnSlot(slots[j], d, scale, inv, coef, t);
      ModAdd(At(was, pts[k]), 0, coef * d, slots[j], t);
    } else {
      DownElsewhere(pts, n, t, j, k);
      ModSmall(0, t);
      ModMul(coef, coef, d, 0, t);
      ModAdd(At(was, pts[k]), if k < j then slots[k] else 0, coef * d, coef * 0, t);
    }
  }

  lemma OwnSlot(slot: nat, d: int, scale: nat, inv: nat, coef: nat, t: nat)
    requires t > 1 && scale % t == d % t && InverseOf(inv, scale, t) && coef == (slot % t) * inv % t
    ensures (coef * d) % t == slot % t
  {
    ModMod((slot % t) * inv, t);
    ModMul(coef, (slot % t) * inv, d, scale, t);
    assert ((slot % t) * inv) * scale == (slot % t) * (inv * scale);
    ModMod(slot, t);
    ModMul(slot % t, slot, inv * scale, 1, t);
  }

  /** Horner's rule at every point, in 64-bit words. */
  method Decode(poly: seq<nat>, pts: seq<nat>, n: nat, t: nat) returns (slots: seq<nat>)
    requires 0 < t < U32 && |poly| == |pts| == n && Canonical(pts, t) && Canonical(poly, U32)
    ensures |slots| == n && forall j | 0 <= j < n :: slots[j] == At(poly, pts[j]) % t
  {
    var buf := new nat[n](_ => 0);
    for j := 0 to n
      invariant forall k | 0 <= k < j :: buf[k] == At(poly, pts[k]) % t
    {
      var v := Horner(poly, pts[j], t);
      buf[j] := v;
    }
    slots := buf[..];
  }

  method Horner(poly: seq<nat>, x: nat, t: nat) returns (acc: nat)
    requires 0 < t < U32 && x < t && Canonical(poly, U32)
    ensures acc == At(poly, x) % t
  {
    acc := 0;
    ModSmall(0, t);
    assert poly[|poly|..] == [];
    for i := |poly| downto 0
      invariant acc == At(poly[i..], x) % t
    {
      HornerFits(acc, x, poly[i], t);
      HornerStep(poly, i, x, acc, t);
      acc := W64(acc * x + poly[i]) % t;
    }
    assert poly[0..] == poly;
  }

  lemma HornerFits(acc: nat, x: int, c: int, t: nat)
    requires acc < t < U32 && 0 <= x < t && 0 <= c < U32
    ensures 0 <= acc * x + c < U64
  {
    LeProduct(acc, x, U32 - 2);
    LeProduct(U32 - 2, acc, U32 - 2);
  }

  lemma HornerStep(p: seq<int>, i: nat, x: int, acc: int, t: nat)
    requires t > 0 && i < |p| && acc == At(p[i + 1..], x) % t
    ensures (acc * x + p[i]) % t == At(p[i..], x) % t
  {
    assert p[i..][1..] == p[i + 1..];
    var v := At(p[i + 1..], x);
    ModMod(v, t);
    ModMul(acc, v, x, x, t);
    ModAdd(acc * x, v * x, p[i], p[i], t);
  }

  // ----- what packing promises -----

  /** The quotient of p by x - r. */
  function Quotient(p: seq<int>, r: int): (q: seq<int>)
    ensures |q| == if p == [] then 0 else |p| - 1
  {
    if |p| <= 1 then [] else [At(p[1..], r)] + Quotient(p[1..], r)
  }

  lemma {:induction false} QuotientIs(p: seq<int>, r: int, x: int)
    ensures At(p, x) == (x - r) * At(Quotient(p, r), x) + At(p, r)
  {
    if |p| > 1 {
      var q := Quotient(p[1..], r);
      QuotientIs(p[1..], r, x);
      var all := Quotient(p, r);
      assert all[0] == At(p[1..], r) && all[1..] == q;
      assert At(all, x) == all[0] + x * At(all[1..], x);
      QuotientStep(p[0], x, r, At(p[1..], r), At(q, x));
    } else if |p| == 1 {
      assert p[1..] == [];
    }
  }

  lemma QuotientStep(p0: int, x: int, r: int, c: int, y: int)
    ensures (x - r) * (c + x * y) + (p0 + r * c) == p0 + x * ((x - r) * y + c)
  {
    var d := x - r;
    assert d * (c + x * y) == d * c + d * (x * y);
    assert d * (x * y) == x * (d * y);
    assert x * (d * y + c) == x * (d * y) + x * c;
    assert d * c == x * c - r * c;
  }

  /** A polynomial whose quotient and remainder vanish modulo t vanishes. */
  lemma {:induction false} QuotientZero(p: seq<int>, r: int, t: int)
    requires t > 0 && At(p, r) % t == 0 && forall i | 0 <= i < |Quotient(p, r)| :: Quotient(p, r)[i] % t == 0
    ensures forall i | 0 <= i < |p| :: p[i] % t == 0
  {
    if p != [] {
      var rest := At(p[1..], r);
      assert rest % t == 0 by {
        if |p| > 1 { assert Quotient(p, r)[0] == rest; } else { assert p[1..] == []; ModSmall(0, t); }
      }
      ModMul(r, r, rest, 0, t);
      ModAdd(At(p, r), 0, r * rest, 0, t);
      ModSmall(0, t);
      if |p| > 1 {
        assert forall i | 0 <= i < |p| - 2 :: Quotient(p[1..], r)[i] == Quotient(p, r)[i + 1];
        QuotientZero(p[1..], r, t);
        assert forall i | 1 <= i < |p| :: p[i] == p[1..][i - 1];
      }
    }
  }

  /** A polynomial with no more coefficients than it has roots with unit differences is zero modulo t. */
  lemma {:induction false} Vanishes(p: seq<int>, pts: seq<nat>, t: int)
    requires t > 0 && |p| <= |pts| && forall j | 0 <= j < |pts| :: At(p, pts[j]) % t == 0
    requires forall j, k | 0 <= j < |pts| && 0 <= k < |pts| && j != k :: Unit(pts[j] as int - pts[k] as int, t)
    ensures forall i | 0 <= i < |p| :: p[i] % t == 0
    decreases |p|
  {
    if p != [] {
      var last := |pts| - 1;
      var r, q, rest := pts[last], Quotient(p, pts[last]), pts[..last];
      hide At, Quotient, Unit;
      forall j | 0 <= j < |rest| ensures At(q, rest[j]) % t == 0 {
        assert rest[j] == pts[j];
        QuotientIs(p, r, pts[j]);
        DividedOut(pts[j] as int - r as int, At(q, pts[j]), At(p, pts[j]), At(p, r), t);
      }
      Vanishes(q, rest, t);
      QuotientZero(p, r, t);
    }
  }

  lemma DividedOut(d: int, y: int, v: int, w: int, t: int)
    requires t > 0 && Unit(d, t) && v == d * y + w && v % t == 0 && w % t == 0
    ensures y % t == 0
  {
    var u: int :| InverseOf(u, d, t);
    ModAdd(v, 0, w, 0, t);
    ModSmall(0, t);
    assert d * u == u * d && d * 0 == 0;
    ModCancel(d, u, y, 0, t);
  }

  /** A reduced polynomial is determined by its values at the points. */
  lemma DeterminedBySlots(a: seq<nat>, b: seq<nat>, pts: seq<nat>, n: nat, t: nat)
    requires Points(pts, n, t) && |a| == |b| == n && Canonical(a, t) && Canonical(b, t)
    requires forall j | 0 <= j < n :: At(a, pts[j]) % t == At(b, pts[j]) % t
    ensures a == b
  {
    hide At, Points, Canonical;
    PointsBasic(pts, n, t);
    PointsApart(pts, n, t);
    var p := Add(a, Scale(-1, b));
    forall j | 0 <= j < n ensures At(p, pts[j]) % t == 0 {
      AtLinear(a, b, -1, pts[j]);
      ModAdd(At(a, pts[j]), At(b, pts[j]), At(b, pts[j]), At(b, pts[j]), t);
      ModSmall(0, t);
    }
    Vanishes(p, pts, t);
    NoDifference(a, b, p, t);
  }

  lemma PointsApart(pts: seq<nat>, n: nat, t: nat)
    requires Points(pts, n, t)
    ensures t > 0 && |pts| == n
    ensures forall j, k | 0 <= j < |pts| && 0 <= k < |pts| && j != k :: Unit(pts[j] as int - pts[k] as int, t)
  {}

  lemma NoDifference(a: seq<nat>, b: seq<nat>, p: Poly, t: nat)
    requires t > 0 && |a| == |b| == |p| && Canonical(a, t) && Canonical(b, t)
    requires forall i | 0 <= i < |p| :: p[i] == a[i] as int - b[i] as int && p[i] % t == 0
    ensures a == b
  {
    forall i | 0 <= i < |a| ensures a[i] == b[i] {
      assert a[i] in a && b[i] in b;
      ModSmall(0, t);
      var k := ModQuotient(p[i], 0, t);
      SmallMultiple(p[i], k, t);
    }
  }

  lemma SmallMultiple(x: int, k: int, t: int)
    requires -t < x < t && x == k * t
    ensures x == 0
  {
    assert k >= 1 ==> k * t >= t;
    assert k <= -1 ==> k * t <= -t;
  }

  /**
   The two methods undo each other, whatever Encode and Decode return: `poly` encodes `slots`, `back`
   decodes it, and `again` encodes `back`. The slots come back modulo t, and the polynomial itself.
   */
  lemma RoundTrips(slots: seq<nat>, poly: seq<nat>, back: seq<nat>, again: seq<nat>, pts: seq<nat>, n: nat, t: nat)
    requires Points(pts, n, t) && |slots| == |back| == n
    requires |poly| == n && Canonical(poly, t) && Packs(poly, slots, pts, t, n)
    requires forall j | 0 <= j < n :: back[j] == At(poly, pts[j]) % t
    requires |again| == n && Canonical(again, t) && Packs(again, back, pts, t, n)
    ensures forall j | 0 <= j < n :: back[j] == slots[j] % t
    ensures again == poly
  {
    hide At, Canonical;
    forall j | 0 <= j < n ensures At(again, pts[j]) % t == At(poly, pts[j]) % t { ModMod(At(poly, pts[j]), t); }
    DeterminedBySlots(again, poly, pts, n, t);
  }

  /** Sums and negacyclic products of packed polynomials act slot by slot. */
  lemma PackedArithmetic(a: Poly, b: Poly, pts: seq<nat>, n: nat, t: nat, j: nat)
    requires Points(pts, n, t) && |a| == |b| == n && j < n
    ensures At(Red(Add(a, b), t), pts[j]) % t == (At(a, pts[j]) + At(b, pts[j])) % t
    ensures At(Red(Mul(a, b), t), pts[j]) % t == (At(a, pts[j]) * At(b, pts[j])) % t
  {
    hide Apply;
    var x := pts[j];
    EqvRed(Add(a, b), Add(a, b), t);
    EqvRed(Mul(a, b), Mul(a, b), t);
    AtEqv(Red(Add(a, b), t), Add(a, b), x, t);
    AtEqv(Red(Mul(a, b), t), Mul(a, b), x, t);
    AtLinear(a, b, 1, x);
    assert Scale(1, b) == b;
    AtMul(a, b, x, t);
  }

  // ----- which roots give points -----

  /** No even power of zeta below the 2n-th is 1. */
  ghost predicate FullOrder(zeta: int, n: nat, t: nat)
    requires t > 0
  {
    forall d: nat | 0 < d < n :: IPow(zeta, 2 * d) % t != 1
  }

  /** The odd powers of zeta modulo t. */
  ghost predicate OddPowers(pts: seq<nat>, zeta: int, n: nat, t: nat)
    requires t > 0
  {
    |pts| == n && forall j: nat | j < n :: pts[j] == OddPower(zeta, j, t)
  }

  ghost function OddPower(zeta: int, j: nat, t: nat): (r: nat)
    requires t > 0
  {
    IPow(zeta, 2 * j + 1) % t
  }

  lemma FirstOdd(zeta: nat, t: nat)
    requires zeta < t
    ensures zeta == OddPower(zeta, 0, t)
  {
    assert IPow(zeta, 1) == zeta;
    ModSmall(zeta, t);
  }

  lemma NextOdd(zeta: nat, cur: nat, j: nat, t: nat)
    requires t > 0 && cur == OddPower(zeta, j, t)
    ensures cur * (zeta * zeta % t) % t == OddPower(zeta, j + 1, t)
  {
    var c := IPow(zeta, 2 * j + 1);
    ModMod(c, t);
    ModMod(zeta * zeta, t);
    ModMul(cur, c, zeta * zeta % t, zeta * zeta, t);
    assert IPow(zeta, 2 * j + 3) == zeta * (zeta * c);
    assert zeta * (zeta * c) == c * (zeta * zeta);
  }

  /** Odd powers of a root of x^n + 1 are roots of it. */
  lemma OddRoot(zeta: int, n: nat, j: nat, t: nat)
    requires t > 0 && Root(zeta, n, t)
    ensures Root(IPow(zeta, 2 * j + 1), n, t)
  {
    hide IPow;
    var e := 2 * j + 1;
    IPowPow(zeta, e, n);
    IPowPow(zeta, n, e);
    assert e * n == n * e;
    ModAdd(IPow(zeta, n) + 1, 0, 1, 1, t);
    IPowMod(IPow(zeta, n), -1, e, t);
    SignPower(e);
    ModAdd(IPow(IPow(zeta, e), n), -1, 1, 1, t);
  }

  lemma CancelPower(x: int, y: int, n: nat, t: nat)
    requires t > 1 && n > 0 && Root(x, n, t) && y % t != 1
    ensures (x * y) % t != x % t
  {
    if (x * y) % t == x % t {
      RootIsUnit(x, n, t);
      var u := -IPow(x, n - 1);
      assert x * u == u * x && x * 1 == x;
      ModCancel(x, u, y, 1, t);
      ModSmall(1, t);
    }
  }

  lemma OddDistinct(zeta: int, n: nat, j: nat, k: nat, t: nat)
    requires t > 1 && Root(zeta, n, t) && FullOrder(zeta, n, t) && k < j < n
    ensures OddPower(zeta, j, t) != OddPower(zeta, k, t)
  {
    hide IPow;
    IPowAdd(zeta, 2 * k + 1, 2 * (j - k));
    OddRoot(zeta, n, k, t);
    CancelPower(IPow(zeta, 2 * k + 1), IPow(zeta, 2 * (j - k)), n, t);
  }

  lemma RootMod(x: int, n: nat, t: int)
    requires t > 0 && Root(x, n, t)
    ensures Root(x % t, n, t)
  {
    ModMod(x, t);
    IPowMod(x % t, x, n, t);
    ModAdd(IPow(x % t, n), IPow(x, n), 1, 1, t);
  }

  lemma DifferenceUnit(x: int, y: int, t: nat)
    requires Prime(t) && 0 <= x < t && 0 <= y < t && x != y
    ensures Unit(x - y, t)
  {
    if x > y { ModSmall(x - y, t); } else { DivUnique(x - y, t, -1, x - y + t); }
    NonzeroIsUnit(x - y, t);
  }

  /**
   For every prime modulus: the odd powers of a root of x^n + 1 are evaluation points if and only if
   no even power of it below the 2n-th is 1.
   */
  lemma RootsArePoints(pts: seq<nat>, zeta: int, n: nat, t: nat)
    requires Prime(t) && 2 < t < U32 && n > 0 && Unit(n, t) && Root(zeta, n, t) && OddPowers(pts, zeta, n, t)
    ensures Points(pts, n, t) <==> FullOrder(zeta, n, t)
  {
    hide IPow, Root, Unit;
    if FullOrder(zeta, n, t) {
      forall j: nat | j < n ensures Root(pts[j], n, t) {
        OddRoot(zeta, n, j, t);
        RootMod(IPow(zeta, 2 * j + 1), n, t);
      }
      forall j: nat, k: nat | j < n && k < n && j != k ensures Unit(pts[j] as int - pts[k] as int, t) {
        if k < j { OddDistinct(zeta, n, j, k, t); } else { OddDistinct(zeta, n, k, j, t); }
        DifferenceUnit(pts[j], pts[k], t);
      }
    } else {
      var d: nat :| 0 < d < n && IPow(zeta, 2 * d) % t == 1;
      Repeats(zeta, d, t);
      assert pts[d] as int - pts[0] as int == 0;
      ZeroNoUnit(t);
    }
  }

  lemma Repeats(zeta: int, d: nat, t: nat)
    requires t > 1 && IPow(zeta, 2 * d) % t == 1
    ensures OddPower(zeta, d, t) == OddPower(zeta, 0, t)
  {
    IPowAdd(zeta, 1, 2 * d);
    assert IPow(zeta, 1) == zeta;
    ModSmall(1, t);
    ModMul(zeta, zeta, IPow(zeta, 2 * d), 1, t);
  }

  lemma ZeroNoUnit(t: nat)
    requires t > 1
    ensures !Unit(0, t)
  {
    if Unit(0, t) {
      var u: int :| InverseOf(u, 0, t);
      ModSmall(0, t);
      ModSmall(1, t);
    }
  }

  /** For a degree that is a power of two every root will do, whatever the odd prime. */
  lemma PowerOfTwoDegree(pts: seq<nat>, zeta: int, k: nat, t: nat)
    requires Prime(t) && 2 < t < U32 && Root(zeta, PowerOfTwo(k), t) && OddPowers(pts, zeta, PowerOfTwo(k), t)
    ensures Points(pts, PowerOfTwo(k), t)
  {
    hide IPow, Points, OddPowers, PowerOfTwo, Root, Unit;
    var n := PowerOfTwo(k);
    TwoPowerPositive(k);
    TwoPowerUnit(k, t);
    forall d: nat | 0 < d < n ensures IPow(zeta, 2 * d) % t != 1 {
      NoSmallOrder(zeta, k, 2 * d, t);
    }
    RootsArePoints(pts, zeta, n, t);
  }

  lemma {:induction false} TwoPowerPositive(k: nat)
    ensures PowerOfTwo(k) > 0
  {
    if k > 0 { TwoPowerPositive(k - 1); }
  }

  lemma {:induction false} NoSmallOrder(z: int, k: nat, e: nat, t: nat)
    requires t > 2 && Root(z, PowerOfTwo(k), t) && 0 < e < 2 * PowerOfTwo(k)
    ensures IPow(z, e) % t != 1
    decreases k
  {
    hide IPow;
    var n := PowerOfTwo(k);
    if IPow(z, e) % t == 1 {
      if e % 2 == 1 {
        OddNoOrder(z, n, e, t);
      } else {
        IPowPow(z, 2, e / 2);
        IPowPow(z, 2, PowerOfTwo(k - 1));
        NoSmallOrder(IPow(z, 2), k - 1, e / 2, t);
      }
    }
  }

  lemma OddNoOrder(z: int, n: nat, e: nat, t: nat)
    requires t > 2 && Root(z, n, t) && e % 2 == 1
    ensures IPow(z, e) % t != 1
  {
    hide IPow;
    if IPow(z, e) % t == 1 {
      ModSmall(1, t);
      IPowPow(z, e, n);
      IPowPow(z, n, e);
      assert e * n == n * e;
      IPowMod(IPow(z, e), 1, n, t);
      ModAdd(IPow(z, n) + 1, 0, 1, 1, t);
      IPowMod(IPow(z, n), -1, e, t);
      SignPower(n);
      SignPower(e);
      DivUnique(-1, t, -1, t - 1);
    }
  }

  lemma {:induction false} TwoPowerUnit(k: nat, t: nat)
    requires Prime(t) && t > 2
    ensures Unit(PowerOfTwo(k), t)
  {
    if k == 0 {
      assert InverseOf(1, 1, t);
    } else {
      TwoPowerUnit(k - 1, t);
      ModSmall(2, t);
      NonzeroIsUnit(2, t);
      var u: int :| InverseOf(u, 2, t);
      var v: int :| InverseOf(v, PowerOfTwo(k - 1), t);
      UnitProductOk(2, u, PowerOfTwo(k - 1), v, t);
    }
  }

  // ----- finding the points -----

  lemma ModulusIsPrime()
    ensures Prime(T)
  {
    assert NoFactorTo(12289, 14);
    assert NoFactorTo(12289, 28);
    assert NoFactorTo(12289, 42);
    assert NoFactorTo(12289, 56);
    assert NoFactorTo(12289, 70);
    assert NoFactorTo(12289, 84);
    assert NoFactorTo(12289, 98);
    TrialDivision(T, 110);
  }

  /** Five squarings. */
  lemma Run(b: int, e: nat, x0: nat, x1: nat, x2: nat, x3: nat, x4: nat, x5: nat)
    requires IPow(b, e) % T == x0
    requires x0 * x0 % T == x1 && x1 * x1 % T == x2 && x2 * x2 % T == x3 && x3 * x3 % T == x4 && x4 * x4 % T == x5
    ensures IPow(b, 32 * e) % T == x5
  {
    hide IPow;
    Doubled(b, e, x0);
    Doubled(b, 2 * e, x1);
    Doubled(b, 4 * e, x2);
    Doubled(b, 8 * e, x3);
    Doubled(b, 16 * e, x4);
  }

  lemma Doubled(b: int, e: nat, x: nat)
    requires IPow(b, e) % T == x
    ensures IPow(b, 2 * e) % T == x * x % T
  {
    IPowAdd(b, e, e);
    ModMod(IPow(b, e), T);
    ModMul(IPow(b, e), x, IPow(b, e), x, T);
  }

  lemma SmallPowers(b: int)
    ensures IPow(b, 4) == b * b * b * b && IPow(b, 6) == b * b * b * b * b * b
    ensures IPow(b, 8) == b * b * b * b * b * b * b * b
  {
    assert IPow(b, 1) == b && IPow(b, 2) == b * b;
    IPowAdd(b, 2, 2);
    IPowAdd(b, 4, 2);
    IPowAdd(b, 4, 4);
  }

  lemma PowersOfTwo()
    ensures IPow(2, 6144) % T == 1
  {
    hide IPow;
    SmallPowers(2);
    Run(2, 6, 64, 4096, 2731, 11227, 9545, 8668);
    Run(2, 192, 8668, 11567, 5146, 10810, 12288, 1);
  }

  lemma PowersOfThree()
    ensures IPow(3, 6144) % T == 1
  {
    hide IPow;
    SmallPowers(3);
    Run(3, 6, 729, 3014, 2625, 8785, 1305, 7143);
    Run(3, 192, 7143, 10810, 12288, 1, 1, 1);
  }

  lemma PowersOfFive()
    ensures IPow(5, 6144) % T == 1
  {
    hide IPow;
    SmallPowers(5);
    Run(5, 6, 3336, 7351, 2468, 7969, 7698, 1646);
    Run(5, 192, 1646, 5736, 4043, 1479, 12288, 1);
  }

  lemma PowersOfSeven()
    ensures IPow(7, 6144) % T == 1
  {
    hide IPow;
    SmallPowers(7);
    Run(7, 6, 7048, 2166, 9447, 3091, 5728, 10643);
    Run(7, 192, 10643, 5736, 4043, 1479, 12288, 1);
  }

  lemma PowersOfEleven()
    ensures IPow(11, 6144) % T == 12288
    ensures IPow(11, 4096) % T == 6240
    ensures IPow(11, 8192) % T == 6048
  {
    hide IPow;
    SmallPowers(11);
    Run(11, 6, 1945, 10302, 3400, 8340, 12149, 7311);
    Run(11, 192, 7311, 5860, 4134, 8246, 1479, 12288);
    Run(11, 4, 2352, 1854, 8685, 11632, 1534, 5957);
    Run(11, 128, 5957, 7506, 7260, 79, 6241, 6240);
    Run(11, 8, 1854, 8685, 11632, 1534, 5957, 7506);
    Run(11, 256, 7506, 7260, 79, 6241, 6240, 6048);
  }

  /** 11 is the first number that passes the search, and its half-way power is -1. */
  lemma Generator(g: nat)
    requires 2 <= g <= 11
    ensures IPow(g, 6144) % T == if g == 11 then T - 1 else 1
    ensures g == 11 ==> IPow(g, 4096) % T != 1 && IPow(g, 8192) % T != 1
  {
    hide IPow;
    PowersOfTwo();
    PowersOfThree();
    PowersOfFive();
    PowersOfSeven();
    PowersOfEleven();
    OneTimesOne(2, 2);
    OneTimesOne(2, 3);
    OneTimesOne(2, 4);
    OneTimesOne(3, 3);
    OneTimesOne(2, 5);
  }

  lemma OneTimesOne(a: int, b: int)
    ensures IPow(a, 6144) % T == 1 && IPow(b, 6144) % T == 1 ==> IPow(a * b, 6144) % T == 1
  {
    hide IPow;
    IPowProduct(a, b, 6144);
    if IPow(a, 6144) % T == 1 && IPow(b, 6144) % T == 1 {
      ModMul(IPow(a, 6144), 1, IPow(b, 6144), 1, T);
    }
  }

  lemma {:induction false} SignPower(m: nat)
    ensures IPow(1, m) == 1 && IPow(-1, m) == if m % 2 == 1 then -1 else 1
  {
    if m > 0 { SignPower(m - 1); }
  }

  /** An exponent of 1 that divides by w, a divisor of 2048, divides by 2w. */
  lemma HalfStep(e: nat, w: nat, u: nat, m: nat) returns (m': nat)
    requires w * u == 2048 && e == w * m && IPow(11, e) % T == 1
    ensures e == (2 * w) * m'
  {
    hide IPow;
    m' := m / 2;
    IPowPow(11, e, 3 * u);
    IPowMod(IPow(11, e), 1, 3 * u, T);
    SignPower(3 * u);
    assert e * (3 * u) == 6144 * m by { assert (w * m) * (3 * u) == (w * u) * (3 * m); }
    IPowPow(11, 6144, m);
    PowersOfEleven();
    ModShift(-1, 1, T);
    IPowMod(IPow(11, 6144), -1, m, T);
    SignPower(m);
    assert m % 2 == 0;
  }

  /** 11 generates: no smaller exponent than t - 1 gives 1. */
  lemma Order(e: nat)
    requires 0 < e < T - 1
    ensures IPow(11, e) % T != 1
  {
    hide IPow;
    if IPow(11, e) % T == 1 {
      var m := HalfStep(e, 1, 2048, e);
      m := HalfStep(e, 2, 1024, m);
      m := HalfStep(e, 4, 512, m);
      m := HalfStep(e, 8, 256, m);
      m := HalfStep(e, 16, 128, m);
      m := HalfStep(e, 32, 64, m);
      m := HalfStep(e, 64, 32, m);
      m := HalfStep(e, 128, 16, m);
      m := HalfStep(e, 256, 8, m);
      m := HalfStep(e, 512, 4, m);
      m := HalfStep(e, 1024, 2, m);
      m := HalfStep(e, 2048, 1, m);
      PowersOfEleven();
    }
  }

  /** The powers of 11 the search ends with: a root of x^n + 1 whose even powers below 2n are not 1. */
  lemma SearchedRoot(n: nat, h: nat, zeta: nat)
    requires n > 0 && n * h == 6144 && zeta == IPow(11, h) % T
    ensures Root(zeta, n, T) && FullOrder(zeta, n, T)
  {
    hide IPow;
    ModMod(IPow(11, h), T);
    IPowMod(zeta, IPow(11, h), n, T);
    IPowPow(11, h, n);
    assert h * n == 6144;
    PowersOfEleven();
    ModAdd(IPow(zeta, n), T - 1, 1, 1, T);
    forall d: nat | 0 < d < n ensures IPow(zeta, 2 * d) % T != 1 {
      IPowMod(zeta, IPow(11, h), 2 * d, T);
      IPowPow(11, h, 2 * d);
      DistinctExponent(n, h, d);
      assert h * (2 * d) == 2 * d * h;
      Order(2 * d * h);
    }
  }

  lemma DistinctExponent(n: nat, h: nat, d: nat)
    requires n * h == 6144 && 0 < d < n
    ensures 0 < 2 * d * h < 12288
  {
    assert h > 0;
    assert d * h > 0;
    assert (n - d) * h > 0;
    assert (n - d) * h == n * h - d * h;
  }

  lemma DegreeUnit(n: nat, h: nat)
    requires n * h == 6144
    ensures Unit(n, T)
  {
    assert -2 * h * n == 1 + (-1) * T by { assert (-2 * h) * n == -2 * (n * h); }
    ModShift(1, -1, T);
    assert InverseOf(-2 * h, n, T);
  }

  /** The prime factors of t - 1 by trial division. */
  method Factors() returns (facs: seq<nat>)
    ensures facs == [2, 3]
  {
    var tmp: nat, d: nat := T - 1, 2;
    facs := [];
    while d * d <= tmp
      invariant (d == 2 && tmp == 12288 && facs == []) || (d == 3 && tmp == 3 && facs == [2])
      decreases 3 - d
    {
      if tmp % d == 0 {
        facs := facs + [d];
        ghost var k: nat := 12;
        while tmp % d == 0
          invariant d == 2 && k <= 12 && tmp == 3 * PowerOfTwo(k)
          decreases k
        {
          assert k > 0;
          k := k - 1;
          tmp := tmp / d;
        }
        assert k == 0;
      }
      d := d + 1;
    }
    if tmp > 1 { facs := facs + [tmp]; }
  }

  function PowerOfTwo(k: nat): (r: nat) {
    if k == 0 then 1 else 2 * PowerOfTwo(k - 1)
  }

  /** The least g none of whose (t - 1)/f-th powers is 1. */
  method PrimitiveRoot(facs: seq<nat>) returns (g: nat)
    requires facs == [2, 3]
    ensures g == 11
  {
    hide IPow;
    g := 2;
    while g < T
      invariant 2 <= g <= 11
      decreases 11 - g
    {
      Generator(g);
      var ok := true;
      var i := 0;
      while i < |facs| && ok
        invariant 0 <= i <= 2 && (ok ==> i > 0 ==> g == 11) && (g == 11 ==> ok)
        decreases 2 - i + if ok then 1 else 0
      {
        var x := PowMod(g, (T - 1) / facs[i], T);
        if x == 1 { ok := false; } else { i := i + 1; }
      }
      if ok { return; }
      g := g + 1;
    }
  }

  /** The evaluation points for every degree whose double divides t - 1. */
  method SlotRoots(n: nat) returns (r: seq<nat>, ok: bool)
    ensures ok <==> n > 0 && (T - 1) % (2 * n) == 0
    ensures ok ==> Points(r, n, T) && OddPowers(r, r[0], n, T)
  {
    hide Points, IPow;
    if n == 0 || (T - 1) % (2 * n) != 0 { return [], false; }
    var facs := Factors();
    var g := PrimitiveRoot(facs);
    var h := (T - 1) / (2 * n);
    assert n * h == 6144;
    var zeta := PowMod(g, h, T);
    var z2 := zeta * zeta % T;
    var cur := zeta;
    var pts := new nat[n](_ => 0);
    FirstOdd(zeta, T);
    for j := 0 to n
      invariant cur == OddPower(zeta, j, T)
      invariant forall k: nat | k < j :: pts[k] == OddPower(zeta, k, T)
    {
      pts[j] := cur;
      NextOdd(zeta, cur, j, T);
      cur := cur * z2 % T;
    }
    SearchedRoot(n, h, zeta);
    DegreeUnit(n, h);
    ModulusIsPrime();
    RootsArePoints(pts[..], zeta, n, T);
    r, ok := pts[..], true;
  }
}
