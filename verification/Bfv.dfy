/** The BFV scheme over the Goldilocks prime: keys, ciphertexts and every homomorphic operation. */
module Bfv {
  import opened Residues
  import opened Ring
  import opened Rows
  import opened Norms
  import opened Evaluation
  import opened Goldilocks

  const KEY_HW: nat := 64
  const MAX_COMP: nat := 5
  const NOISE: int := 8
  /** Noise of a public-key encryption. */
  const PUBLIC_NOISE: int := 2 * KEY_HW * NOISE + NOISE

  type Row = seq<nat>

  datatype Result<T> = Ok(value: T) | Err

  /** Two to five polynomials with coefficients below q. */
  datatype Ct = Ct(n: nat, c: seq<Row>)

  ghost predicate ColumnQ(cs: seq<Row>, n: nat) {
    Sized(cs, n) && forall i | 0 <= i < |cs| :: Canonical(cs[i], Q)
  }

  ghost predicate WellFormed(ct: Ct) {
    ct.n > 0 && |ct.c| <= MAX_COMP && ColumnQ(ct.c, ct.n)
  }

  ghost predicate Valid(ct: Ct) {
    WellFormed(ct) && 2 <= |ct.c|
  }

  ghost predicate SecretOk(s: seq<int>, n: nat) {
    |s| == n && n > 0 && Ternary(s) && Norm1(s) <= KEY_HW
  }

  // ----- polynomial kernels modulo q -----

  method AddRow(buf: array<nat>, neg: bool, mag: nat, j: nat, a: Row)
    requires j < |a| == buf.Length && mag < U64 && Canonical(a, Q) && Canonical(buf[..], Q)
    modifies buf
    ensures buf[..] == Red(Add(old(buf[..]), Scale(Signed(neg, mag), ShiftN(a, j))), Q)
  {
    hide Apply, ShiftN, Fold, AddQ, SubQ;
    var n := |a|;
    ghost var was := buf[..];
    ghost var row := Scale(Signed(neg, mag), ShiftN(a, j));
    ghost var goal := Red(Add(was, row), Q);
    RowAt(a, j, Signed(neg, mag));
    for i := 0 to n
      invariant forall k | 0 <= k < n :: buf[k] == if Source(k, j, n) < i then goal[k] else was[k]
    {
      ghost var kk := if i + j < n then i + j else i + j - n;
      TermStep(was[kk], a[i], mag, neg, i + j >= n, Q);
      assert Source(kk, j, n) == i && was[kk] in was;
      assert goal[kk] == (was[kk] + row[kk]) % Q;
      if a[i] != 0 {
        var v := MulQ(a[i], mag);
        var k := i + j;
        if k < n {
          buf[k] := if neg then SubQ(buf[k], v) else AddQ(buf[k], v);
        } else {
          buf[k - n] := if neg then AddQ(buf[k - n], v) else SubQ(buf[k - n], v);
        }
      }
      assert buf[kk] == goal[kk];
    }
    assert buf[..] == goal;
  }

  method PolyMul(a: Row, b: Row) returns (c: Row)
    requires |a| == |b| > 0 && Canonical(a, Q) && Canonical(b, Q)
    ensures c == Red(Mul(a, b), Q)
  {
    hide Apply, ShiftN;
    var n := |a|;
    var buf := new nat[n](_ => 0);
    NoRows(a, b, 1, Q);
    assert buf[..] == Zero(n);
    for i := 0 to n
      invariant buf[..] == Red(Mul(a[..i], b), Q)
    {
      RowStep(a, i, b, 1, Q);
      if a[i] != 0 {
        AddRow(buf, false, a[i], i, b);
      }
    }
    c := buf[..];
  }

  /** The sparse product with a ternary key equals the schoolbook product. */
  method PolyMulSparse(a: Row, s: seq<int>, hw: nat) returns (c: Row)
    requires |a| == |s| > 0 && Canonical(a, Q) && Ternary(s) && Norm1(s) <= hw
    ensures c == Red(Mul(s, a), Q)
  {
    hide Apply, ShiftN;
    var n := |a|;
    var buf := new nat[n](_ => 0);
    NoRows(s, a, 1, Q);
    assert buf[..] == Zero(n);
    var cnt, j := 0, 0;
    assert s[0..] == s;
    while j < n && cnt < hw
      invariant 0 <= j <= n
      invariant cnt + Norm1(s[j..]) <= hw
      invariant buf[..] == Red(Mul(s[..j], a), Q)
    {
      RowStep(s, j, a, 1, Q);
      assert s[j..][1..] == s[j + 1..];
      if s[j] != 0 {
        cnt := cnt + 1;
        AddRow(buf, s[j] < 0, 1, j, a);
      }
      j := j + 1;
    }
    NoMoreRows(s, j, a);
    c := buf[..];
  }

  method PolyAdd(a: Row, b: Row) returns (c: Row)
    requires |a| == |b| && Canonical(a, Q) && Canonical(b, Q)
    ensures c == Red(Add(a, b), Q)
  {
    var buf := new nat[|a|](_ => 0);
    for i := 0 to |a|
      invariant forall k | 0 <= k < i :: buf[k] == (a[k] + b[k]) % Q
    {
      buf[i] := AddQ(a[i], b[i]);
    }
    c := buf[..];
  }

  method PolyNeg(a: Row) returns (c: Row)
    requires Canonical(a, Q)
    ensures c == Red(Scale(-1, a), Q)
  {
    var buf := new nat[|a|](_ => 0);
    for i := 0 to |a|
      invariant forall k | 0 <= k < i :: buf[k] == (-1 * a[k]) % Q
    {
      NegCoef(a[i]);
      buf[i] := if a[i] != 0 then Q - a[i] else 0;
    }
    c := buf[..];
  }

  lemma NegCoef(x: int)
    requires 0 <= x < Q
    ensures (-1 * x) % Q == if x != 0 then Q - x else 0
  {
    if x != 0 { DivUnique(-1 * x, Q, -1, Q - x); }
  }

  // ----- encryption -----

  /** The ciphertext evaluates to delta * m + e, coefficient by coefficient modulo q. */
  ghost predicate Carries(ct: Ct, s: Poly, m: Poly, e: Poly)
    requires Valid(ct)
  {
    && |s| == |m| == |e| == ct.n
    && Eqv(Eval(ct.c, s), Add(Scale(DELTA, m), e), Q)
  }

  /** The scalar message m as a constant polynomial. */
  function Constant(m: int, n: nat): (r: Poly)
    requires n > 0
    ensures |r| == n
  {
    Scale(m, One(n))
  }

  method RandomRow(n: nat) returns (a: Row)
    ensures |a| == n && Canonical(a, Q)
  {
    var buf := new nat[n](_ => 0);
    for i := 0 to n
      invariant forall k | 0 <= k < n :: buf[k] < Q
    {
      var x: nat :| x < Q;
      buf[i] := x;
    }
    a := buf[..];
  }

  /** Noise drawn from [-8, 8], as residues. */
  method NoiseRow(n: nat) returns (r: Row, ghost e: seq<int>)
    ensures |e| == n && Bounded(e, NOISE) && r == Red(e, Q)
  {
    var noise, buf := new int[n](_ => 0), new nat[n](_ => 0);
    for i := 0 to n
      invariant forall k | 0 <= k < i :: -NOISE <= noise[k] <= NOISE && buf[k] == noise[k] % Q
    {
      var x: int :| -NOISE <= x <= NOISE;
      noise[i] := x;
      if x < 0 {
        DivUnique(x, Q, -1, x + Q);
        buf[i] := x + Q;
      } else {
        ModSmall(x, Q);
        buf[i] := x;
      }
    }
    r, e := buf[..], noise[..];
  }

  /** Up to `want` entries of a ternary vector set to a random sign, at most 100000 draws. */
  method PlaceUnits(n: nat, want: nat) returns (u: seq<int>, placed: nat)
    requires n > 0
    ensures |u| == n && Ternary(u) && Norm1(u) == placed <= want
  {
    u, placed := seq(n, _ => 0), 0;
    ZeroNorm(n);
    assert u == Zero(n);
    var guard := 0;
    while placed < want && guard < 100000
      invariant |u| == n && Ternary(u) && Norm1(u) == placed <= want
      decreases 100000 - guard
    {
      guard := guard + 1;
      var idx: nat :| idx < n;
      if u[idx] != 0 { continue; }
      var negative: bool := *;
      var sign := if negative then -1 else 1;
      PlaceNorm(u, idx, sign);
      u := u[idx := sign];
      placed := placed + 1;
    }
  }

  lemma {:induction false} ZeroNorm(n: nat)
    ensures Norm1(Zero(n)) == 0
  {
    if n > 0 {
      ZeroNorm(n - 1);
      assert Zero(n)[1..] == Zero(n - 1);
    }
  }

  lemma {:induction false} PlaceNorm(u: seq<int>, i: nat, v: int)
    requires i < |u| && u[i] == 0 && (v == 1 || v == -1)
    ensures Norm1(u[i := v]) == Norm1(u) + 1
  {
    if i == 0 {
      assert u[i := v][1..] == u[1..];
    } else {
      assert u[i := v][1..] == u[1..][i - 1 := v];
      PlaceNorm(u[1..], i - 1, v);
    }
  }

  /** A secret key: random places first, then the first free ones; every place used when n allows. */
  method SkGen(n: nat) returns (s: seq<int>)
    requires n > 0
    ensures SecretOk(s, n)
    ensures Norm1(s) < KEY_HW ==> forall i | 0 <= i < n :: s[i] != 0
  {
    var placed;
    s, placed := PlaceUnits(n, KEY_HW);
    if placed < KEY_HW {
      var i := 0;
      while i < n && placed < KEY_HW
        invariant 0 <= i <= n && |s| == n && Ternary(s) && Norm1(s) == placed <= KEY_HW
        invariant forall k | 0 <= k < i :: s[k] != 0
      {
        if s[i] == 0 {
          PlaceNorm(s, i, 1);
          s := s[i := 1];
          placed := placed + 1;
        }
        i := i + 1;
      }
    }
  }

  /** A random polynomial a and a*s + e. */
  method Sample(s: seq<int>) returns (a: Row, masked: Row, ghost e: seq<int>)
    requires SecretOk(s, |s|)
    ensures |a| == |masked| == |e| == |s| && Canonical(a, Q) && Canonical(masked, Q) && Bounded(e, NOISE)
    ensures Eqv(masked, Add(Mul(s, a), e), Q)
  {
    a := RandomRow(|s|);
    masked, e := MaskWith(a, s);
  }

  /** The sparse product with a ternary vector, plus fresh noise. */
  method MaskWith(a: Row, u: seq<int>) returns (masked: Row, ghost e: seq<int>)
    requires |a| == |u| && SecretOk(u, |u|) && Canonical(a, Q)
    ensures |masked| == |e| == |u| && Canonical(masked, Q) && Bounded(e, NOISE)
    ensures Eqv(masked, Add(Mul(u, a), e), Q)
  {
    hide Apply, Red, Eqv;
    var er;
    er, e := NoiseRow(|u|);
    masked := PolyMulSparse(a, u, KEY_HW);
    RedOk(Mul(u, a), Q);
    RedOk(e, Q);
    ghost var product := masked;
    masked := PolyAdd(masked, er);
    RedOk(Add(product, er), Q);
    EqvAdd(product, Mul(u, a), er, e, Q);
    EqvTrans(masked, Add(product, er), Add(Mul(u, a), e), Q);
  }

  /** (a*s + e + delta*m, -a): a fresh ciphertext carries its message with noise of at most 8. */
  method EncryptSym(s: seq<int>, m: nat) returns (r: Result<Ct>, ghost e: seq<int>)
    requires SecretOk(s, |s|)
    ensures r.Err? <==> m >= T
    ensures r.Ok? ==> Valid(r.value) && r.value.n == |s| && |r.value.c| == 2
    ensures r.Ok? ==> Bounded(e, NOISE) && Carries(r.value, s, Constant(m, |s|), e)
  {
    e := [];
    if m >= T { return Err, e; }
    hide Apply, Red, Eqv, Eval, Scale;
    var a, masked;
    a, masked, e := Sample(s);
    var c0 := AddAtZero(masked, m);
    var c1 := PolyNeg(a);
    RedOk(Scale(-1, a), Q);
    SymCarries(s, a, masked, e, Constant(m, |s|), c0, c1);
    r := Ok(Ct(|s|, [c0, c1]));
  }

  method AddAtZero(c: Row, m: nat) returns (r: Row)
    requires |c| > 0 && Canonical(c, Q) && m < T
    ensures |r| == |c| && Canonical(r, Q) && Eqv(r, Add(c, Scale(DELTA, Constant(m, |c|))), Q)
  {
    var dm := MulQ(DELTA, m);
    r := c[0 := AddQ(c[0], dm)];
    ModMod(DELTA * m, Q);
    ModAdd(c[0], c[0], dm, DELTA * m, Q);
    ModMod(c[0] + dm, Q);
    forall i | 0 <= i < |c| ensures r[i] % Q == (c[i] + DELTA * (m * One(|c|)[i])) % Q {}
  }

  /** Encryption of a whole plaintext polynomial. */
  method EncryptSymPoly(s: seq<int>, poly: seq<nat>) returns (ct: Ct, ghost e: seq<int>)
    requires SecretOk(s, |s|) && |poly| == |s|
    ensures Valid(ct) && ct.n == |s| && |ct.c| == 2
    ensures Bounded(e, NOISE) && Carries(ct, s, Red(poly, T), e)
  {
    hide Apply, Red, Eqv, Eval;
    var a, masked;
    a, masked, e := Sample(s);
    var c0 := AddMessage(masked, poly);
    var c1 := PolyNeg(a);
    RedOk(Scale(-1, a), Q);
    SymCarries(s, a, masked, e, Red(poly, T), c0, c1);
    ct := Ct(|s|, [c0, c1]);
  }

  method AddMessage(c: Row, poly: seq<nat>) returns (r: Row)
    requires |poly| == |c| && Canonical(c, Q)
    ensures |r| == |c| && Canonical(r, Q) && Eqv(r, Add(c, Scale(DELTA, Red(poly, T))), Q)
  {
    var buf := new nat[|c|](_ => 0);
    for i := 0 to |c|
      invariant forall k | 0 <= k < i :: buf[k] < Q && buf[k] % Q == (c[k] + DELTA * (poly[k] % T)) % Q
    {
      var dm := MulQ(DELTA, poly[i] % T);
      var x := AddQ(c[i], dm);
      MessageCoef(c[i], DELTA * (poly[i] % T), dm, x);
      buf[i] := x;
    }
    r := buf[..];
  }

  lemma MessageCoef(c: nat, d: int, dm: nat, x: nat)
    requires dm == d % Q && x == (c + dm) % Q
    ensures x % Q == (c + d) % Q
  {
    ModMod(d, Q);
    ModAdd(c, c, dm, d, Q);
    ModMod(c + dm, Q);
  }

  lemma {:induction false} SymCarries(s: Poly, a: Poly, masked: Poly, e: Poly, m: Poly, c0: Poly, c1: Poly)
    requires |s| == |a| == |masked| == |e| == |m| == |c0| == |c1| > 0
    requires Eqv(masked, Add(Mul(s, a), e), Q) && Eqv(c0, Add(masked, Scale(DELTA, m)), Q) && Eqv(c1, Scale(-1, a), Q)
    ensures Eqv(Eval([c0, c1], s), Add(Scale(DELTA, m), e), Q)
  {
    hide *;
    QPositive();
    var p, dm := Mul(s, a), Scale(DELTA, m);
    EvalPair(c0, c1, s);
    EqvSelf(dm, Q);
    EqvAdd(masked, Add(p, e), dm, dm, Q);
    EqvTrans(c0, Add(masked, dm), Add(Add(p, e), dm), Q);
    EqvSelf(s, Q);
    EqvMul(s, s, c1, Scale(-1, a), Q);
    MulScale(-1, s, a);
    EqvAdd(c0, Add(Add(p, e), dm), Mul(s, c1), Scale(-1, p), Q);
    MaskCancels(p, e, dm);
  }

  lemma MaskCancels(p: Poly, e: Poly, dm: Poly)
    requires |p| == |e| == |dm|
    ensures Add(Add(Add(p, e), dm), Scale(-1, p)) == Add(dm, e)
  {}

  // ----- the public key -----

  datatype PublicKey = PublicKey(a: Row, b: Row)

  /** b = -(a*s + e). */
  ghost predicate PublicFor(pk: PublicKey, s: seq<int>, e: seq<int>) {
    && |pk.a| == |pk.b| == |e| == |s| > 0 && Canonical(pk.a, Q) && Canonical(pk.b, Q) && Bounded(e, NOISE)
    && Eqv(pk.b, Scale(-1, Add(Mul(s, pk.a), e)), Q)
  }

  method PublicKeyOf(s: seq<int>) returns (pk: PublicKey, ghost e: seq<int>)
    requires SecretOk(s, |s|)
    ensures PublicFor(pk, s, e)
  {
    hide Apply, Red, Eqv;
    var a, masked;
    a, masked, e := Sample(s);
    var b := PolyNeg(masked);
    RedOk(Scale(-1, masked), Q);
    EqvScale(-1, -1, masked, Add(Mul(s, a), e), Q);
    EqvTrans(b, Scale(-1, masked), Scale(-1, Add(Mul(s, a), e)), Q);
    pk := PublicKey(a, b);
  }

  /** (b*u + e0 + delta*m, a*u + e1), for a random sparse ternary u. */
  method EncryptPub(pk: PublicKey, m: nat, ghost s: seq<int>, ghost e: seq<int>) returns (r: Result<Ct>, ghost err: seq<int>)
    requires SecretOk(s, |s|) && PublicFor(pk, s, e)
    ensures r.Err? <==> m >= T
    ensures r.Ok? ==> Valid(r.value) && r.value.n == |s| && |r.value.c| == 2
    ensures r.Ok? ==> Bounded(err, PUBLIC_NOISE) && Carries(r.value, s, Constant(m, |s|), err)
  {
    err := [];
    if m >= T { return Err, err; }
    hide Apply, Red, Eqv, Eval, Scale, Bounded;
    var n := |pk.a|;
    var u, placed := PlaceUnits(n, KEY_HW);
    var masked, e0 := MaskWith(pk.b, u);
    var c0 := AddAtZero(masked, m);
    var c1, e1 := MaskWith(pk.a, u);
    ghost var msg := Constant(m, n);
    PublicCarries(s, u, pk.a, pk.b, e, e0, e1, msg, masked, c0, c1);
    PublicNoise(s, u, e, e0, e1);
    err := Add(Add(Scale(-1, Mul(u, e)), e0), Mul(s, e1));
    r := Ok(Ct(n, [c0, c1]));
  }

  lemma PublicNoise(s: Poly, u: Poly, e: Poly, e0: Poly, e1: Poly)
    requires |s| == |u| == |e| == |e0| == |e1| > 0 && SecretOk(s, |s|) && SecretOk(u, |s|)
    requires Bounded(e, NOISE) && Bounded(e0, NOISE) && Bounded(e1, NOISE)
    ensures Bounded(Add(Add(Scale(-1, Mul(u, e)), e0), Mul(s, e1)), PUBLIC_NOISE)
  {
    hide Apply, Mul, Bounded;
    var b := KEY_HW * NOISE;
    ApplyBounded(u, e, NOISE);
    ApplyBounded(s, e1, NOISE);
    BoundedUp(Mul(u, e), Norm1(u) * NOISE, b);
    BoundedUp(Mul(s, e1), Norm1(s) * NOISE, b);
    ScaleBounded(-1, Mul(u, e), 1, b);
    AddBounded(Scale(-1, Mul(u, e)), e0, b, NOISE);
    AddBounded(Add(Scale(-1, Mul(u, e)), e0), Mul(s, e1), b + NOISE, b);
  }

  lemma {:induction false} PublicCarries(s: Poly, u: Poly, a: Poly, b: Poly, e: Poly, e0: Poly, e1: Poly, m: Poly,
                      masked: Poly, c0: Poly, c1: Poly)
    requires |s| == |u| == |a| == |b| == |e| == |e0| == |e1| == |m| == |masked| == |c0| == |c1| > 0
    requires Eqv(b, Scale(-1, Add(Mul(s, a), e)), Q)
    requires Eqv(masked, Add(Mul(u, b), e0), Q) && Eqv(c0, Add(masked, Scale(DELTA, m)), Q)
    requires Eqv(c1, Add(Mul(u, a), e1), Q)
    ensures Eqv(Eval([c0, c1], s), Add(Scale(DELTA, m), Add(Add(Scale(-1, Mul(u, e)), e0), Mul(s, e1))), Q)
  {
    hide *;
    QPositive();
    EvalPair(c0, c1, s);
    EqvSelf(s, Q);
    EqvMul(s, s, c1, Add(Mul(u, a), e1), Q);
    MulAdd(s, Mul(u, a), e1);
    MulLeft(s, u, a);
    var dm, ua, ue := Scale(DELTA, m), Mul(u, Mul(s, a)), Mul(u, e);
    EqvSelf(u, Q);
    EqvMul(u, u, b, Scale(-1, Add(Mul(s, a), e)), Q);
    MulScale(-1, u, Add(Mul(s, a), e));
    MulAdd(u, Mul(s, a), e);
    PublicSum(masked, Mul(u, b), e0, c0, dm, Scale(-1, Add(ua, ue)));
    var whole := Add(Add(Scale(-1, Add(ua, ue)), e0), dm);
    EqvAdd(c0, whole, Mul(s, c1), Add(ua, Mul(s, e1)), Q);
    PublicMaskCancels(ua, ue, e0, dm, Mul(s, e1));
  }

  lemma QPositive()
    ensures Q > 0
  {}

  lemma PublicMaskCancels(ua: Poly, ue: Poly, e0: Poly, dm: Poly, se: Poly)
    requires |ua| == |ue| == |e0| == |dm| == |se|
    ensures Add(Add(Add(Scale(-1, Add(ua, ue)), e0), dm), Add(ua, se))
         == Add(dm, Add(Add(Scale(-1, ue), e0), se))
  {}

  lemma PublicSum(masked: Poly, ub: Poly, e0: Poly, c0: Poly, dm: Poly, x: Poly)
    requires |masked| == |ub| == |e0| == |c0| == |dm| == |x|
    requires Eqv(masked, Add(ub, e0), Q) && Eqv(c0, Add(masked, dm), Q) && Eqv(ub, x, Q)
    ensures Eqv(c0, Add(Add(x, e0), dm), Q)
  {
    hide Eqv;
    EqvSelf(e0, Q);
    EqvSelf(dm, Q);
    EqvAdd(ub, x, e0, e0, Q);
    EqvTrans(masked, Add(ub, e0), Add(x, e0), Q);
    EqvAdd(masked, Add(x, e0), dm, dm, Q);
    EqvTrans(c0, Add(masked, dm), Add(Add(x, e0), dm), Q);
  }

  // ----- decryption -----

  method RawSecret(s: seq<int>) returns (raw: Row)
    requires Ternary(s)
    ensures raw == Red(s, Q)
  {
    var buf := new nat[|s|](_ => 0);
    for i := 0 to |s|
      invariant forall k | 0 <= k < i :: buf[k] == s[k] % Q
    {
      if s[i] < 0 {
        DivUnique(-1, Q, -1, Q - 1);
        buf[i] := Q - 1;
      } else {
        ModSmall(s[i], Q);
        buf[i] := s[i];
      }
    }
    raw := buf[..];
  }

  /** s, s^2 from the sparse square, s^3 = s^2 * s and s^4 = s^2 * s^2. */
  method SecretPowers(s: seq<int>) returns (p: seq<Row>)
    requires SecretOk(s, |s|)
    ensures |p| == 4 && forall k | 0 <= k < 4 :: |p[k]| == |s| && Canonical(p[k], Q) && Eqv(p[k], Pow(s, k + 1), Q)
  {
    hide Apply, Red, Eqv, Pow;
    var p1 := RawSecret(s);
    RedOk(s, Q);
    PowOne(s);
    PowStep(s, 2);
    var p2 := PolyMulSparse(p1, s, KEY_HW);
    EqvSelf(s, Q);
    RedMulIs(s, p1, Pow(s, 1), Pow(s, 1), Pow(s, 2), p2);
    var p3 := PolyMul(p2, p1);
    PowAdd(s, 2, 1);
    RedMulIs(p2, p1, Pow(s, 2), Pow(s, 1), Pow(s, 3), p3);
    var p4 := PolyMul(p2, p2);
    PowAdd(s, 2, 2);
    RedMulIs(p2, p2, Pow(s, 2), Pow(s, 2), Pow(s, 4), p4);
    p := [p1, p2, p3, p4];
  }

  lemma RedMulIs(a: Poly, b: Poly, x: Poly, y: Poly, z: Poly, c: Poly)
    requires |a| == |b| == |x| == |y| > 0 && Eqv(a, x, Q) && Eqv(b, y, Q) && z == Mul(x, y)
    requires c == Red(Mul(a, b), Q)
    ensures |c| == |a| && Canonical(c, Q) && Eqv(c, z, Q)
  {
    hide Apply, Eqv, Red;
    RedOk(Mul(a, b), Q);
    EqvMul(a, x, b, y, Q);
    EqvTrans(c, Mul(a, b), z, Q);
  }

  /** The sum of c[k] * s^k modulo q. */
  method DecryptV(s: seq<int>, ct: Ct) returns (v: Row)
    requires Valid(ct) && SecretOk(s, ct.n)
    ensures v == Red(Eval(ct.c, s), Q)
  {
    hide Apply, Red, Eqv, Eval, Pow;
    var p := SecretPowers(s);
    v := ct.c[0];
    DecryptFirst(ct, s);
    for k := 1 to |ct.c|
      invariant |v| == ct.n && Canonical(v, Q) && v == Red(Eval(ct.c[..k], s), Q)
    {
      var tmp := PolyMul(ct.c[k], p[k - 1]);
      RedOk(Mul(ct.c[k], p[k - 1]), Q);
      ghost var was := v;
      v := PolyAdd(v, tmp);
      DecryptStep(ct.c, k, s, p[k - 1], was, tmp, v);
    }
    assert ct.c[..|ct.c|] == ct.c;
  }

  lemma DecryptFirst(ct: Ct, s: Poly)
    requires Valid(ct) && |s| == ct.n
    ensures |ct.c[0]| == ct.n && Canonical(ct.c[0], Q) && ct.c[0] == Red(Eval(ct.c[..1], s), Q)
  {
    hide Apply, Eval;
    var c0 := ct.c[0];
    assert ct.c[..1] == [] + [c0];
    EvalNil(s);
    EvalSnoc([], c0, s);
    assert Pow(s, 0) == One(|s|);
    MulOne(c0);
    AddZero(c0);
    RedCanonical(c0, Q);
  }

  lemma DecryptStep(cs: seq<Row>, k: nat, s: Poly, p: Poly, was: Poly, tmp: Poly, v: Poly)
    requires |s| > 0 && Sized(cs, |s|) && 0 < k < |cs| && |p| == |s|
    requires Eqv(p, Pow(s, k), Q) && was == Red(Eval(cs[..k], s), Q)
    requires Eqv(tmp, Mul(cs[k], p), Q) && v == Red(Add(was, tmp), Q)
    ensures |v| == |s| && Canonical(v, Q) && v == Red(Eval(cs[..k + 1], s), Q)
  {
    hide Apply, Red, Eqv, Eval, Pow;
    var e, t := Eval(cs[..k], s), Mul(Pow(s, k), cs[k]);
    TakeSnoc(cs, k);
    EvalSnoc(cs[..k], cs[k], s);
    RedOk(e, Q);
    EqvSelf(cs[k], Q);
    EqvMul(cs[k], cs[k], p, Pow(s, k), Q);
    MulComm(cs[k], Pow(s, k));
    EqvTrans(tmp, Mul(cs[k], p), t, Q);
    EqvAdd(was, e, tmp, t, Q);
    EqvRed(Add(was, tmp), Add(e, t), Q);
    RedOk(Add(was, tmp), Q);
  }

  /** Coefficient i as the decoder stores it. */
  function Decoded(ct: Ct, s: Poly, i: nat): (v: nat)
    requires WellFormed(ct) && |s| == ct.n && i < ct.n
    ensures v < U32
  {
    Stored(DecryptRound(Red(Eval(ct.c, s), Q)[i]))
  }

  /** All coefficients decoded. */
  method DecryptPoly(s: seq<int>, ct: Ct) returns (r: Result<seq<nat>>)
    requires WellFormed(ct) && SecretOk(s, ct.n)
    ensures r.Err? <==> |ct.c| < 2
    ensures r.Ok? ==> |r.value| == ct.n && forall i | 0 <= i < ct.n :: r.value[i] == Decoded(ct, s, i)
  {
    if |ct.c| < 2 { return Err; }
    hide Eval, DecryptRound, Stored, Canonical;
    var v := DecryptV(s, ct);
    RedOk(Eval(ct.c, s), Q);
    var m := DecodeRow(v);
    r := Ok(m);
  }

  method DecodeRow(v: Row) returns (m: seq<nat>)
    requires Canonical(v, Q)
    ensures |m| == |v| && forall i | 0 <= i < |v| :: m[i] == Stored(DecryptRound(v[i]))
  {
    hide DecryptRound, Stored;
    m := [];
    for i := 0 to |v|
      invariant |m| == i && forall k | 0 <= k < i :: m[k] == Stored(DecryptRound(v[k]))
    {
      m := m + [Stored(DecryptRound(v[i]))];
    }
  }

  /** The scalar decryption reads coefficient 0. */
  method Decrypt(s: seq<int>, ct: Ct) returns (r: Result<nat>)
    requires WellFormed(ct) && SecretOk(s, ct.n)
    ensures r == if |ct.c| < 2 then Err else Ok(Decoded(ct, s, 0))
  {
    if |ct.c| < 2 { return Err; }
    hide Eval, DecryptRound, Stored;
    var v := DecryptV(s, ct);
    RedOk(Eval(ct.c, s), Q);
    r := Ok(Stored(DecryptRound(v[0])));
  }

  // ----- linear operations -----

  /** Reduced rows standing for the first |c| polynomials of a list. */
  ghost predicate RowsFor(c: seq<Row>, exact: seq<Poly>, n: nat)
    requires Sized(exact, n) && |c| <= |exact|
  {
    forall k | 0 <= k < |c| :: |c[k]| == n && Canonical(c[k], Q) && Eqv(c[k], exact[k], Q)
  }

  lemma RowsForColumn(c: seq<Row>, exact: seq<Poly>, n: nat)
    requires Sized(exact, n) && |c| <= |exact| && RowsFor(c, exact, n)
    ensures ColumnQ(c, n)
  {
    hide Canonical, Eqv;
  }

  lemma RowsForEval(c: seq<Row>, exact: seq<Poly>, s: Poly)
    requires |s| > 0 && Sized(exact, |s|) && |c| == |exact| && RowsFor(c, exact, |s|)
    ensures ColumnQ(c, |s|) && Eqv(Eval(c, s), Eval(exact, s), Q)
  {
    hide Eval, Eqv;
    EvalEqv(c, exact, s, Q);
  }

  function Padded(c: seq<Row>, m: nat, n: nat): (r: seq<Poly>)
    requires Sized(c, n)
    ensures |r| == (if m > |c| then m else |c|) && Sized(r, n)
  {
    c + Zeros(if m > |c| then m - |c| else 0, n)
  }

  /** r decrypts, under every secret, to the sum of what a and b decrypt to. */
  ghost predicate Sums(r: Ct, a: Ct, b: Ct)
    requires WellFormed(r) && WellFormed(a) && WellFormed(b) && r.n == a.n == b.n
  {
    forall s: Poly {:trigger Eval(r.c, s)} | |s| == a.n :: Eqv(Eval(r.c, s), Add(Eval(a.c, s), Eval(b.c, s)), Q)
  }

  /** The shorter ciphertext counts as padded with zero components. */
  method AddCt(a: Ct, b: Ct) returns (res: Result<Ct>)
    requires WellFormed(a) && WellFormed(b) && a.n == b.n
    ensures res.Err? <==> |a.c| < 2 || |b.c| < 2
    ensures res.Ok? ==> Valid(res.value) && res.value.n == a.n
    ensures res.Ok? ==> |res.value.c| == if |a.c| > |b.c| then |a.c| else |b.c|
    ensures res.Ok? ==> Sums(res.value, a, b)
  {
    if |a.c| < 2 || |b.c| < 2 { return Err; }
    hide IsSum, Sums;
    var comps := if |a.c| > |b.c| then |a.c| else |b.c|;
    var c := AddRows(a, b, comps);
    SumCarries(a, b, Ct(a.n, c), comps);
    res := Ok(Ct(a.n, c));
  }

  method AddRows(a: Ct, b: Ct, comps: nat) returns (c: seq<Row>)
    requires Valid(a) && Valid(b) && a.n == b.n && |a.c| <= comps && |b.c| <= comps
    ensures |c| == comps && IsSum(a, b, c, comps)
  {
    hide IsSum, Padded, Eqv, Add, ColumnQ;
    c := [];
    NoSum(a, b, comps);
    for i := 0 to comps
      invariant |c| == i && IsSum(a, b, c, comps)
    {
      var row := AddComponent(a, b, i, comps);
      SumSnoc(a, b, c, row, comps);
      c := c + [row];
    }
  }

  /** The first |c| components of a sum. */
  ghost predicate IsSum(a: Ct, b: Ct, c: seq<Row>, comps: nat)
    requires Valid(a) && Valid(b) && a.n == b.n && |a.c| <= comps && |b.c| <= comps && |c| <= comps
  {
    RowsFor(c, AddLists(Padded(a.c, comps, a.n), Padded(b.c, comps, a.n), a.n), a.n)
  }

  lemma NoSum(a: Ct, b: Ct, comps: nat)
    requires Valid(a) && Valid(b) && a.n == b.n && |a.c| <= comps && |b.c| <= comps
    ensures IsSum(a, b, [], comps)
  {}

  lemma {:induction false} SumSnoc(a: Ct, b: Ct, c: seq<Row>, row: Row, comps: nat)
    requires Valid(a) && Valid(b) && a.n == b.n && |a.c| <= comps && |b.c| <= comps && |c| < comps
    requires IsSum(a, b, c, comps) && |row| == a.n && Canonical(row, Q)
    requires Eqv(row, Add(Padded(a.c, comps, a.n)[|c|], Padded(b.c, comps, a.n)[|c|]), Q)
    ensures IsSum(a, b, c + [row], comps)
  {
    hide Padded, Canonical, Eqv, Add, ColumnQ;
  }

  method AddComponent(a: Ct, b: Ct, i: nat, comps: nat) returns (row: Row)
    requires Valid(a) && Valid(b) && a.n == b.n && i < comps && |a.c| <= comps && |b.c| <= comps
    ensures |row| == a.n && Canonical(row, Q)
    ensures Eqv(row, Add(Padded(a.c, comps, a.n)[i], Padded(b.c, comps, a.n)[i]), Q)
  {
    hide Red;
    row := seq(a.n, _ => 0);
    assert Zero(a.n) == row;
    if i < |a.c| { row := a.c[i]; }
    assert row == Padded(a.c, comps, a.n)[i];
    AddZero(row);
    if i < |b.c| {
      RedOk(Add(row, b.c[i]), Q);
      row := PolyAdd(row, b.c[i]);
    } else {
      EqvSelf(row, Q);
    }
  }

  lemma SumCarries(a: Ct, b: Ct, r: Ct, comps: nat)
    requires Valid(a) && Valid(b) && a.n == b.n == r.n && |r.c| == comps && 2 <= comps <= MAX_COMP
    requires |a.c| <= comps && |b.c| <= comps && IsSum(a, b, r.c, comps)
    ensures Valid(r) && Sums(r, a, b)
  {
    hide Eval, Eqv, Apply, IsSum, ColumnQ, Add;
    SumValid(a, b, r, comps);
    forall s: Poly | |s| == a.n ensures Eqv(Eval(r.c, s), Add(Eval(a.c, s), Eval(b.c, s)), Q) {
      SumEval(a, b, r.c, comps, s);
    }
  }

  lemma SumValid(a: Ct, b: Ct, r: Ct, comps: nat)
    requires Valid(a) && Valid(b) && a.n == b.n == r.n && |r.c| == comps && 2 <= comps <= MAX_COMP
    requires |a.c| <= comps && |b.c| <= comps && IsSum(a, b, r.c, comps)
    ensures Q > 0 && Valid(r) && a.n > 0 && Sized(a.c, a.n) && Sized(b.c, a.n) && Sized(r.c, a.n)
  {
    hide RowsFor;
    RowsForColumn(r.c, AddLists(Padded(a.c, comps, a.n), Padded(b.c, comps, a.n), a.n), a.n);
  }

  lemma SumEval(a: Ct, b: Ct, c: seq<Row>, comps: nat, s: Poly)
    requires Valid(a) && Valid(b) && a.n == b.n == |s| && Sized(c, |s|)
    requires |a.c| <= comps && |b.c| <= comps && |c| == comps && IsSum(a, b, c, comps)
    ensures Eqv(Eval(c, s), Add(Eval(a.c, s), Eval(b.c, s)), Q)
  {
    hide Eval, Eqv, Apply, RowsFor;
    var x, y := Padded(a.c, comps, |s|), Padded(b.c, comps, |s|);
    EvalPad(a.c, comps - |a.c|, s);
    EvalPad(b.c, comps - |b.c|, s);
    EvalAdd(x, y, s);
    RowsForEval(c, AddLists(x, y, |s|), s);
  }

  /** r decrypts, under every secret, to m times what a decrypts to. */
  ghost predicate Scales(r: Ct, a: Ct, m: nat)
    requires WellFormed(r) && WellFormed(a) && r.n == a.n
  {
    forall s: Poly {:trigger Eval(r.c, s)} | |s| == a.n :: Eqv(Eval(r.c, s), Scale(m, Eval(a.c, s)), Q)
  }

  method MulScalar(a: Ct, m: nat) returns (r: Result<Ct>)
    requires WellFormed(a)
    ensures r.Err? <==> |a.c| < 2 || m >= T
    ensures r.Ok? ==> Valid(r.value) && r.value.n == a.n && |r.value.c| == |a.c|
    ensures r.Ok? ==> Scales(r.value, a, m)
  {
    if |a.c| < 2 || m >= T { return Err; }
    var c := ScaleRows(a, m);
    forall s: Poly | |s| == a.n ensures Eqv(Eval(c, s), Scale(m, Eval(a.c, s)), Q) {
      ScaledEval(a.c, c, m, s);
    }
    r := Ok(Ct(a.n, c));
  }

  method ScaleRows(a: Ct, m: nat) returns (c: seq<Row>)
    requires Valid(a) && m < T
    ensures |c| == |a.c| && ColumnQ(c, a.n)
    ensures forall k | 0 <= k < |c| :: Eqv(c[k], Scale(m, a.c[k]), Q)
  {
    hide Red, Eqv;
    c := [];
    for i := 0 to |a.c|
      invariant |c| == i
      invariant forall k | 0 <= k < i :: |c[k]| == a.n && Canonical(c[k], Q) && Eqv(c[k], Scale(m, a.c[k]), Q)
    {
      var row := ScaleRow(a.c[i], m);
      RedOk(Scale(m, a.c[i]), Q);
      c := c + [row];
    }
  }

  method ScaleRow(a: Row, m: nat) returns (c: Row)
    requires Canonical(a, Q) && m < T
    ensures c == Red(Scale(m, a), Q)
  {
    var buf := new nat[|a|](_ => 0);
    for i := 0 to |a|
      invariant forall k | 0 <= k < i :: buf[k] == (m * a[k]) % Q
    {
      assert a[i] * m == m * a[i];
      var x := MulQ(a[i], m);
      buf[i] := x;
    }
    c := buf[..];
  }

  lemma {:induction false} ScaledEval(a: seq<Poly>, c: seq<Poly>, m: int, s: Poly)
    requires |s| > 0 && |a| == |c| && Sized(a, |s|) && Sized(c, |s|)
    requires forall k | 0 <= k < |a| :: Eqv(c[k], Scale(m, a[k]), Q)
    ensures Eqv(Eval(c, s), Scale(m, Eval(a, s)), Q)
  {
    hide Apply, Eqv, Eval;
    forall k | 0 <= k < |a| ensures Eqv(Scale(1, c[k]), Add(Scale(m, a[k]), Scale(0, a[k])), Q) {
      ScaleOne(c[k]);
      assert Add(Scale(m, a[k]), Scale(0, a[k])) == Scale(m, a[k]);
    }
    EvalLinear(c, a, a, 1, m, 0, s, Q);
    ScaleOne(Eval(c, s));
    assert Add(Scale(m, Eval(a, s)), Scale(0, Eval(a, s))) == Scale(m, Eval(a, s));
  }
}
