/**
 The noise of one multiplication. A fresh ciphertext evaluates to delta * m + e; the product of
 two of them evaluates to delta * (m * m') plus a noise whose bound is written out below, and
 that bound leaves the decoder exact.
 */
module BfvNoise {
  import opened Residues
  import opened Ring
  import opened Rows
  import opened Norms
  import opened Evaluation
  import opened Goldilocks
  import opened Bfv
  import opened BfvMult

  /** The larger of the two encryptions' noise bounds. */
  const FRESH: int := PUBLIC_NOISE
  /** Bound of t * e - rho * m for a fresh ciphertext. */
  const GAP: int := T * (FRESH + RHO)
  /** How far an evaluation at a sparse ternary secret can run beyond q. */
  const WRAPS: int := 66
  const MAX_N: nat := 32768

  /** The noise of a product of two fresh ciphertexts. */
  function ProductNoise(n: nat): int {
    n * (T * FRESH + (2 * WRAPS + 1) * GAP) + 2081
  }

  /** A message with coefficients in [0, t). */
  ghost predicate Message(m: Poly) {
    Canonical(m, T)
  }

  ghost predicate Fresh(ct: Ct, s: Poly, m: Poly, e: Poly) {
    && Valid(ct) && |ct.c| == 2 && Message(m) && Bounded(e, FRESH) && Carries(ct, s, m, e)
  }

  // ----- norms -----

  lemma {:induction false} Norm1Bounded(a: Poly, u: int)
    requires u >= 0 && Bounded(a, u)
    ensures Norm1(a) <= |a| * u
  {
    if a != [] {
      Norm1Bounded(a[1..], u);
      assert |a| * u == (|a| - 1) * u + u;
    }
  }

  lemma MulBounded(a: Poly, b: Poly, u: int, m: int)
    requires |a| == |b| > 0 && u >= 0 && m >= 0 && Bounded(a, u) && Bounded(b, m)
    ensures Bounded(Mul(a, b), |a| * (u * m))
  {
    hide Apply, Mul, Bounded, Norm1;
    Norm1Bounded(a, u);
    ApplyBounded(a, b, m);
    NatProduct(|a|, u);
    LeProduct(m, Norm1(a), |a| * u);
    assert m * (|a| * u) == |a| * (u * m);
    BoundedUp(Mul(a, b), Norm1(a) * m, |a| * (u * m));
  }

  lemma SecretTimes(s: seq<int>, b: Poly, m: int)
    requires |s| == |b| > 0 && SecretOk(s, |s|) && m >= 0 && Bounded(b, m)
    ensures Bounded(Mul(s, b), 64 * m)
  {
    ApplyBounded(s, b, m);
    LeProduct(m, Norm1(s), KEY_HW);
    BoundedUp(Mul(s, b), Norm1(s) * m, 64 * m);
  }

  // ----- a fresh ciphertext over the integers -----

  /** c0 + s*c1 is delta*m + e plus a small multiple of q. */
  lemma FreshValue(ct: Ct, s: Poly, m: Poly, e: Poly) returns (v: Poly, w: Poly, k: Poly)
    requires Fresh(ct, s, m, e) && SecretOk(s, ct.n)
    ensures |v| == |w| == |k| == |m| == |e| == |s| == ct.n && v == Eval(ct.c, s)
    ensures w == Add(Scale(DELTA, m), e) && v == Add(w, Scale(Q, k))
    ensures Bounded(k, WRAPS) && Bounded(w, Q)
  {
    hide Apply, Eval, Eqv, Diff;
    var c0, c1 := ct.c[0], ct.c[1];
    v := Eval(ct.c, s);
    w := Add(Scale(DELTA, m), e);
    k := Diff(v, w, Q);
    DiffIs(v, w, Q);
    assert ct.c == [c0, c1];
    EvalPair(c0, c1, s);
    CanonicalBounded(c1, Q);
    SecretTimes(s, c1, Q);
    MessageBounds(m, e);
    WrapBounds(c0, Mul(s, c1), v, w);
  }

  lemma CanonicalBounded(a: Poly, q: int)
    requires Canonical(a, q)
    ensures Bounded(a, q)
  {}

  lemma MessageBounds(m: Poly, e: Poly)
    requires |m| == |e| && Message(m) && Bounded(e, FRESH)
    ensures forall i | 0 <= i < |m| :: -FRESH <= Add(Scale(DELTA, m), e)[i] < Q
    ensures Bounded(Add(Scale(DELTA, m), e), Q)
  {}

  lemma WrapBounds(c0: Poly, sc1: Poly, v: Poly, w: Poly)
    requires |c0| == |sc1| == |v| == |w| && v == Add(c0, sc1)
    requires Canonical(c0, Q) && Bounded(sc1, 64 * Q) && forall i | 0 <= i < |w| :: -FRESH <= w[i] < Q
    ensures Bounded(Diff(v, w, Q), WRAPS)
  {
    forall i | 0 <= i < |v| ensures -WRAPS <= v[i] / Q - w[i] / Q <= WRAPS {
      assert -64 * Q <= v[i] < 65 * Q;
    }
  }

  // ----- the product modulo q^2 -----

  /** t * w - q * m, where w = delta * m + e. */
  function Gap(m: Poly, e: Poly): (g: Poly)
    requires |m| == |e|
    ensures |g| == |m|
  {
    Add(Scale(T, e), Scale(-RHO, m))
  }

  lemma GapIs(m: Poly, e: Poly)
    requires |m| == |e| && Message(m) && Bounded(e, FRESH)
    ensures Scale(T, Add(Scale(DELTA, m), e)) == Add(Scale(Q, m), Gap(m, e))
    ensures Bounded(Gap(m, e), GAP)
  {}

  /** x * (b + v*c) */
  lemma MulSum(x: Poly, b: Poly, c: Poly, v: int)
    requires |x| == |b| == |c| > 0
    ensures Mul(x, Add(b, Scale(v, c))) == Add(Mul(x, b), Scale(v, Mul(x, c)))
  {
    hide Apply;
    MulAdd(x, b, Scale(v, c));
    MulScale(v, x, c);
  }

  /** The terms of the product that q^2 does not absorb. */
  function Cross(m: Poly, g: Poly, k: Poly, w': Poly, g': Poly, k': Poly): (r: Poly)
    requires |m| == |g| == |k| == |w'| == |g'| == |k'| > 0
    ensures |r| == |m|
  {
    Add(Mul(m, w'), Add(Mul(g, k'), Mul(k, g')))
  }

  /**
   With t*w = q*m + g and t*w' = q*m' + g':
   t * (w + q*k) * (w' + q*k') = q * (m*w' + g*k' + k*g') + g*w' modulo q^2.
   */
  lemma ScaledProduct(m: Poly, w: Poly, g: Poly, k: Poly, m': Poly, w': Poly, g': Poly, k': Poly)
    requires |m| == |w| == |g| == |k| == |m'| == |w'| == |g'| == |k'| > 0
    requires Scale(T, w) == Add(Scale(Q, m), g) && Scale(T, w') == Add(Scale(Q, m'), g')
    ensures Eqv(Scale(T, Mul(Add(w, Scale(Q, k)), Add(w', Scale(Q, k')))),
                Add(Scale(Q, Cross(m, g, k, w', g', k')), Mul(g, w')), Q2)
  {
    hide Apply, Mul;
    var v' := Add(w', Scale(Q, k'));
    ScaledLeft(m, w, g, k, v');
    MulSum(m, w', k', Q);
    MulSum(g, w', k', Q);
    ScaledRight(k, m', w', g', k');
    var absorbed := Add(Mul(m, k'), Add(Mul(k, m'), Scale(T, Mul(k, k'))));
    Collect(Mul(m, w'), Mul(m, k'), Mul(g, w'), Mul(g, k'), Mul(k, m'), Mul(k, g'), Mul(k, k'));
    EqvShift(Add(Scale(Q, Cross(m, g, k, w', g', k')), Mul(g, w')), absorbed, Q2);
  }

  lemma ScaledLeft(m: Poly, w: Poly, g: Poly, k: Poly, v': Poly)
    requires |m| == |w| == |g| == |k| == |v'| > 0 && Scale(T, w) == Add(Scale(Q, m), g)
    ensures Scale(T, Mul(Add(w, Scale(Q, k)), v'))
         == Add(Add(Scale(Q, Mul(m, v')), Mul(g, v')), Scale(Q, Scale(T, Mul(k, v'))))
  {
    hide Apply, Mul;
    MulAdd(v', w, Scale(Q, k));
    MulScale(T, w, v');
    MulAdd(v', Scale(Q, m), g);
    MulScale(Q, m, v');
    MulScale(Q, k, v');
    ScaleAdd(T, Mul(w, v'), Scale(Q, Mul(k, v')));
    ScaleScale(T, Q, Mul(k, v'));
  }

  lemma ScaledRight(k: Poly, m': Poly, w': Poly, g': Poly, k': Poly)
    requires |k| == |m'| == |w'| == |g'| == |k'| > 0 && Scale(T, w') == Add(Scale(Q, m'), g')
    ensures Scale(T, Mul(k, Add(w', Scale(Q, k'))))
         == Add(Mul(k, g'), Scale(Q, Add(Mul(k, m'), Scale(T, Mul(k, k')))))
  {
    hide Apply, Mul;
    MulSum(k, w', k', Q);
    MulScale(T, k, w');
    MulSum(k, g', m', Q);
    assert Add(Scale(Q, m'), g') == Add(g', Scale(Q, m'));
    ScaleAdd(T, Mul(k, w'), Scale(Q, Mul(k, k')));
    ScaleScale(T, Q, Mul(k, k'));
    ScaleAdd(Q, Mul(k, m'), Scale(T, Mul(k, k')));
    AddAssoc(Mul(k, g'), Scale(Q, Mul(k, m')), Scale(Q, Scale(T, Mul(k, k'))));
  }

  /** Collecting the multiples of q^2. */
  lemma Collect(mw: Poly, mk: Poly, gw: Poly, gk: Poly, km: Poly, kg: Poly, kk: Poly)
    requires |mw| == |mk| == |gw| == |gk| == |km| == |kg| == |kk|
    ensures Add(Add(Scale(Q, Add(mw, Scale(Q, mk))), Add(gw, Scale(Q, gk))),
                Scale(Q, Add(kg, Scale(Q, Add(km, Scale(T, kk))))))
         == Add(Add(Scale(Q, Add(mw, Add(gk, kg))), gw), Scale(Q2, Add(mk, Add(km, Scale(T, kk)))))
  {
    Constants();
    forall i | 0 <= i < |mw|
      ensures (Q * (mw[i] + Q * mk[i]) + (gw[i] + Q * gk[i])) + Q * (kg[i] + Q * (km[i] + T * kk[i]))
           == (Q * (mw[i] + (gk[i] + kg[i])) + gw[i]) + Q2 * (mk[i] + (km[i] + T * kk[i]))
    {}
  }

  // ----- dividing by q -----

  /** A congruence q*x = q*y + z modulo q^2 divides by q: z is a multiple of q. */
  lemma DivideByQ(x: int, y: int, z: int, b: int)
    requires (Q * x) % Q2 == (Q * y + z) % Q2 && -b * Q <= z <= b * Q
    ensures x % Q == (y + z / Q) % Q && -b <= z / Q <= b && z == Q * (z / Q)
  {
    var j := ModQuotient(Q * x, Q * y + z, Q2);
    assert z == Q * (x - y - j * Q);
    DivUnique(z, Q, x - y - j * Q, 0);
    ModShift(x, -j, Q);
  }

  function Quotient(z: Poly): (h: Poly)
    ensures |h| == |z|
  {
    seq(|z|, i requires 0 <= i < |z| => z[i] / Q)
  }

  lemma DivideRow(x: Poly, y: Poly, z: Poly, b: int)
    requires b >= 0 && |x| == |y| == |z| && Eqv(Scale(Q, x), Add(Scale(Q, y), z), Q2) && Bounded(z, b * Q)
    ensures Eqv(x, Add(y, Quotient(z)), Q) && Bounded(Quotient(z), b)
  {
    forall i | 0 <= i < |x|
      ensures x[i] % Q == (y[i] + z[i] / Q) % Q && -b <= z[i] / Q <= b
    {
      assert Scale(Q, x)[i] == Q * x[i] && Add(Scale(Q, y), z)[i] == Q * y[i] + z[i];
      DivideByQ(x[i], y[i], z[i], b);
    }
  }

  // ----- the rounding errors of the three components -----

  lemma EvalTriple(d0: Poly, d1: Poly, d2: Poly, s: Poly)
    requires |d0| == |d1| == |d2| == |s| > 0
    ensures Eval([d0, d1, d2], s) == Add(Add(d0, Mul(s, d1)), Mul(s, Mul(s, d2)))
  {
    hide Apply, Eval;
    EvalPair(d0, d1, s);
    EvalSnoc([d0, d1], d2, s);
    assert [d0, d1] + [d2] == [d0, d1, d2];
    assert Pow(s, 2) == Mul(s, Pow(s, 1));
    PowOne(s);
    MulAssoc(s, s, d2);
  }

  function RoundOffs(xs: seq<Poly>, n: nat): (r: seq<Poly>)
    requires Sized(xs, n)
    ensures |r| == |xs| && Sized(r, n)
  {
    seq(|xs|, k requires 0 <= k < |xs| => RoundOff(xs[k]))
  }

  lemma RoundOffBounded(xs: seq<Poly>, s: Poly)
    requires |s| > 0 && SecretOk(s, |s|) && Sized(xs, |s|) && |xs| == 3
    ensures Bounded(Eval(RoundOffs(xs, |s|), s), 2081 * Q)
  {
    hide Apply, Eval, RoundOff, Mul;
    var d0, d1, d2 := RoundOff(xs[0]), RoundOff(xs[1]), RoundOff(xs[2]);
    assert RoundOffs(xs, |s|) == [d0, d1, d2];
    EvalTriple(d0, d1, d2, s);
    RoundedIs(xs[0]);
    RoundedIs(xs[1]);
    RoundedIs(xs[2]);
    SecretTimes(s, d1, HALF);
    SecretTimes(s, d2, HALF);
    SecretTimes(s, Mul(s, d2), 64 * HALF);
    AddBounded(d0, Mul(s, d1), HALF, 64 * HALF);
    AddBounded(Add(d0, Mul(s, d1)), Mul(s, Mul(s, d2)), 65 * HALF, 64 * (64 * HALF));
    BoundedUp(Eval(RoundOffs(xs, |s|), s), 65 * HALF + 64 * (64 * HALF), 2081 * Q);
  }

  /** q times the product's value is t times the product of the values, plus the rounding errors. */
  lemma TensorRounded(a: Ct, b: Ct, c: seq<Row>, s: Poly)
    requires Valid(a) && Valid(b) && a.n == b.n == |s| && |a.c| == |b.c| == 2 && |c| == 3 && IsProduct(a, b, c)
    requires SecretOk(s, |s|)
    ensures Sized(c, |s|)
    ensures var d := Eval(RoundOffs(ConvList(a.c, b.c, 2, 3, |s|), |s|), s);
            && Bounded(d, 2081 * Q)
            && Eqv(Scale(Q, Eval(c, s)), Add(Scale(T, Mul(Eval(a.c, s), Eval(b.c, s))), Scale(1, d)), Q2)
  {
    hide Apply, Eval, RoundOff, Mul, Rounded, Eqv, Conv;
    var xs := ConvList(a.c, b.c, 2, 3, |s|);
    var ds := RoundOffs(xs, |s|);
    forall k | 0 <= k < 3
      ensures |c[k]| == |s| && Eqv(Scale(Q, c[k]), Add(Scale(T, xs[k]), Scale(1, ds[k])), Q2)
    {
      RoundedIs(xs[k]);
    }
    EvalLinear(c, xs, ds, Q, T, 1, s, Q2);
    EvalTensor(a.c, b.c, 2, 3, s);
    assert a.c[..2] == a.c;
    RoundOffBounded(xs, s);
  }

  // ----- the main theorem -----

  /** What multiplying leaves besides delta * m * m'. */
  function ProductError(m: Poly, e': Poly, g: Poly, k: Poly, g': Poly, k': Poly, h: Poly): (r: Poly)
    requires |m| == |e'| == |g| == |k| == |g'| == |k'| == |h| > 0
    ensures |r| == |m|
  {
    Add(Add(Mul(m, e'), Add(Mul(g, k'), Mul(k, g'))), h)
  }

  lemma ErrorBounded(m: Poly, e': Poly, g: Poly, k: Poly, g': Poly, k': Poly, h: Poly)
    requires |m| == |e'| == |g| == |k| == |g'| == |k'| == |h| > 0
    requires Bounded(m, T) && Bounded(e', FRESH) && Bounded(g, GAP) && Bounded(g', GAP)
    requires Bounded(k, WRAPS) && Bounded(k', WRAPS) && Bounded(h, |m| * GAP + 2081)
    ensures Bounded(ProductError(m, e', g, k, g', k', h), ProductNoise(|m|))
  {
    hide Apply, Mul, Bounded;
    var n := |m|;
    MulBounded(m, e', T, FRESH);
    MulBounded(g, k', GAP, WRAPS);
    MulBounded(k, g', WRAPS, GAP);
    AddBounded(Mul(g, k'), Mul(k, g'), n * (GAP * WRAPS), n * (WRAPS * GAP));
    AddBounded(Mul(m, e'), Add(Mul(g, k'), Mul(k, g')), n * (T * FRESH), n * (GAP * WRAPS) + n * (WRAPS * GAP));
    AddBounded(Add(Mul(m, e'), Add(Mul(g, k'), Mul(k, g'))), h,
               n * (T * FRESH) + (n * (GAP * WRAPS) + n * (WRAPS * GAP)), n * GAP + 2081);
  }

  lemma CrossIs(m: Poly, g: Poly, k: Poly, m': Poly, e': Poly, g': Poly, k': Poly, h: Poly)
    requires |m| == |g| == |k| == |m'| == |e'| == |g'| == |k'| == |h| > 0
    ensures Add(Cross(m, g, k, Add(Scale(DELTA, m'), e'), g', k'), h)
         == Add(Scale(DELTA, Mul(m, m')), ProductError(m, e', g, k, g', k', h))
  {
    hide Apply, Mul;
    assert Add(Scale(DELTA, m'), e') == Add(e', Scale(DELTA, m'));
    MulSum(m, e', m', DELTA);
  }

  /** The value of a product of two fresh ciphertexts carries the product of the messages. */
  lemma ProductCarries(a: Ct, b: Ct, r: Ct, s: seq<int>, m: Poly, e: Poly, m': Poly, e': Poly) returns (err: Poly)
    requires Fresh(a, s, m, e) && Fresh(b, s, m', e') && a.n == b.n == r.n && SecretOk(s, a.n)
    requires Valid(r) && |r.c| == 3 && IsProduct(a, b, r.c)
    ensures |err| == r.n && Bounded(err, ProductNoise(r.n))
    ensures Carries(r, s, Mul(m, m'), err)
  {
    hide Apply, Mul, Eval, Eqv, Bounded, IsProduct, ProductNoise;
    var v, w, k := FreshValue(a, s, m, e);
    var v', w', k' := FreshValue(b, s, m', e');
    var g, g' := Gap(m, e), Gap(m', e');
    GapIs(m, e);
    GapIs(m', e');
    TensorRounded(a, b, r.c, s);
    var d := Eval(RoundOffs(ConvList(a.c, b.c, 2, 3, |s|), |s|), s);
    ScaledProduct(m, w, g, k, m', w', g', k');
    var cross := Cross(m, g, k, w', g', k');
    var h := Remainder(Eval(r.c, s), Mul(v, v'), cross, Mul(g, w'), d, |s|, g, w');
    err := ProductError(m, e', g, k, g', k', h);
    MessageSmall(m);
    ErrorBounded(m, e', g, k, g', k', h);
    CrossIs(m, g, k, m', e', g', k', h);
  }

  lemma MessageSmall(m: Poly)
    requires Message(m)
    ensures Bounded(m, T)
  {}

  lemma Remainder(c: Poly, vv: Poly, cross: Poly, gw: Poly, d: Poly, n: nat, g: Poly, w': Poly) returns (h: Poly)
    requires |c| == |vv| == |cross| == |gw| == |d| == |g| == |w'| == n > 0
    requires Eqv(Scale(Q, c), Add(Scale(T, vv), Scale(1, d)), Q2) && Bounded(d, 2081 * Q)
    requires Eqv(Scale(T, vv), Add(Scale(Q, cross), gw), Q2)
    requires gw == Mul(g, w') && Bounded(g, GAP) && Bounded(w', Q)
    ensures |h| == n && Bounded(h, n * GAP + 2081) && Eqv(c, Add(cross, h), Q)
  {
    hide Apply, Mul, Eqv, Bounded;
    var z := Add(gw, d);
    ScaleOne(d);
    EqvSelf(d, Q2);
    EqvAdd(Scale(T, vv), Add(Scale(Q, cross), gw), d, d, Q2);
    AddAssoc(Scale(Q, cross), gw, d);
    EqvTrans(Scale(Q, c), Add(Scale(T, vv), d), Add(Scale(Q, cross), z), Q2);
    MulBounded(g, w', GAP, Q);
    AddBounded(gw, d, n * (GAP * Q), 2081 * Q);
    assert n * (GAP * Q) + 2081 * Q == (n * GAP + 2081) * Q;
    NatProduct(n, GAP);
    h := Quotient(z);
    DivideRow(c, cross, z, n * GAP + 2081);
  }

  /** Decoding is exact while t * |e| + rho * |m| stays under q/2. */
  lemma CarriesDecodes(ct: Ct, s: Poly, m: Poly, e: Poly, mb: int, eb: int, i: nat)
    requires Valid(ct) && Carries(ct, s, m, e) && i < ct.n
    requires Bounded(m, mb) && Bounded(e, eb) && T * eb + RHO * mb <= HALF
    ensures Residue(Decoded(ct, s, i)) == m[i] % T
  {
    hide Apply, Eval, DecryptRound, Residue, Stored;
    var v := Eval(ct.c, s)[i];
    ModMod(v, Q);
    assert v % Q == (DELTA * m[i] + e[i]) % Q;
    DecodeExact(v % Q, m[i], e[i]);
    ResidueStored(DecryptRound(v % Q));
  }

  /**
   The word stored for coefficient i of a ciphertext within the noise bound is the message modulo t
   exactly when that residue is at most 6144; above it the caller has to centre and lift.
   */
  lemma StoredWord(ct: Ct, s: Poly, m: Poly, e: Poly, mb: int, eb: int, i: nat)
    requires Valid(ct) && Carries(ct, s, m, e) && i < ct.n
    requires Bounded(m, mb) && Bounded(e, eb) && T * eb + RHO * mb <= HALF
    ensures Decoded(ct, s, i) == m[i] % T <==> m[i] % T <= T / 2
    ensures Decoded(ct, s, i) == T / 2 <==> m[i] % T == T / 2
  {
    hide Apply, Eval, DecryptRound, Stored;
    var v := Eval(ct.c, s)[i];
    ModMod(v, Q);
    assert v % Q == (DELTA * m[i] + e[i]) % Q;
    DecodeExact(v % Q, m[i], e[i]);
    var x := DecryptRound(v % Q);
    StoredIsResidue(x, m[i]);
    DecodedSign(x, m[i]);
    StoredHalf(x);
  }

  lemma StoredHalf(x: int)
    requires -(T / 2) <= x <= T / 2
    ensures Stored(x) == T / 2 <==> x == T / 2
  {
    if x < 0 { DivUnique(x, U32, -1, x + U32); } else { ModSmall(x, U32); }
  }

  /** A noise-free ciphertext of the message 6145 that decrypts to the word 2^32 - 6144. */
  lemma NegativeWord() returns (ct: Ct, s: Poly, m: Poly)
    ensures Valid(ct) && |ct.c| == 2 && Carries(ct, s, m, Zero(ct.n)) && ct.n == 1 && m == [6145]
    ensures Decoded(ct, s, 0) == U32 - 6144
  {
    s, m := [0], [6145];
    ct := Ct(1, [[DELTA * 6145], [0]]);
    EvalPair([DELTA * 6145], [0], s);
    MulZero(s);
    AddZero([DELTA * 6145]);
    assert [0] == Zero(1);
    assert Eval(ct.c, s) == [DELTA * 6145];
    hide Eval;
    DecodeExact(DELTA * 6145, 6145, 0);
    hide DecryptRound;
    var x := DecryptRound(DELTA * 6145);
    DecodedSign(x, 6145);
    DivUnique(-6144, U32, -1, U32 - 6144);
    ModSmall(DELTA * 6145, Q);
  }

  /** Decryption undoes either encryption. */
  lemma FreshDecrypts(ct: Ct, s: Poly, m: Poly, e: Poly, i: nat)
    requires Fresh(ct, s, m, e) && i < ct.n
    ensures Residue(Decoded(ct, s, i)) == m[i]
  {
    hide Apply, Eval, Eqv, Decoded, Residue;
    MessageSmall(m);
    CarriesDecodes(ct, s, m, e, T, FRESH, i);
    ModSmall(m[i], T);
  }

  /** Depth one is exact: the product of two fresh ciphertexts decrypts to the product of the messages. */
  lemma ProductDecrypts(a: Ct, b: Ct, r: Ct, s: seq<int>, m: Poly, e: Poly, m': Poly, e': Poly, i: nat)
    requires Fresh(a, s, m, e) && Fresh(b, s, m', e') && a.n == b.n == r.n <= MAX_N && SecretOk(s, a.n)
    requires Valid(r) && |r.c| == 3 && IsProduct(a, b, r.c) && i < r.n
    ensures Residue(Decoded(r, s, i)) == Mul(m, m')[i] % T
  {
    hide Apply, Mul, Eval, Eqv, IsProduct, Decoded, Residue;
    var err := ProductCarries(a, b, r, s, m, e, m', e');
    var n := r.n;
    MessageSmall(m);
    MessageSmall(m');
    MulBounded(m, m', T, T);
    CarriesDecodes(r, s, Mul(m, m'), err, n * (T * T), ProductNoise(n), i);
  }

  /** On scalar messages, coefficient 0 decrypts to the product of the two scalars. */
  lemma ScalarProductDecrypts(a: Ct, b: Ct, r: Ct, s: seq<int>, x: nat, e: Poly, y: nat, e': Poly)
    requires a.n == b.n == r.n <= MAX_N && a.n > 0 && x < T && y < T
    requires Fresh(a, s, Constant(x, a.n), e) && Fresh(b, s, Constant(y, a.n), e') && SecretOk(s, a.n)
    requires Valid(r) && |r.c| == 3 && IsProduct(a, b, r.c)
    ensures Residue(Decoded(r, s, 0)) == (x * y) % T
  {
    hide Apply, Mul, Eval, Eqv, IsProduct, Decoded, Residue;
    ProductDecrypts(a, b, r, s, Constant(x, a.n), e, Constant(y, a.n), e', 0);
    ConstantProduct(x, y, a.n);
  }

  lemma ConstantProduct(x: int, y: int, n: nat)
    requires n > 0
    ensures Mul(Constant(x, n), Constant(y, n)) == Constant(x * y, n)
  {
    hide Apply;
    var one := One(n);
    MulScale(x, one, Constant(y, n));
    MulScale(y, one, one);
    MulOne(one);
    ScaleScale(x, y, one);
  }
}
