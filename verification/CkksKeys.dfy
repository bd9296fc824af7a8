/** Key generation, encryption, relinearisation and rotation: all exact on what decrypts. */
module CkksKeys {
  import opened Residues
  import opened Rows
  import opened Ring
  import opened CkksArith
  import opened CkksPoly
  import opened Evaluation
  import opened CkksScheme

  // ----- key material -----

  /** k0 = a*s + target and k1 = -a, so k0 + k1*s is the target: the keys carry no noise. */
  method GenericKeyRow(s: seq<int>, target: Row, q: nat) returns (k0: Row, k1: Row)
    requires |s| > 0 && SecretOk(s, |s|) && |target| == |s| && 1 < q && 2 * q <= U64
    ensures KeyRow(k0, k1, target, s, q)
  {
    hide Apply, Red, Eqv;
    var n := |s|;
    var a := RandomRow(n, q);
    var sa := PolyMulSparse(a, s, q, KEY_HW);
    var t := ReduceRow(target, q);
    RedOk(Mul(s, a), q);
    RedOk(target, q);
    k0 := AddPoly(sa, t, q);
    k1 := NegPoly(a, q);
    RedOk(Add(sa, t), q);
    RedOk(Scale(-1, a), q);
    MaskCancels(s, a, sa, target, t, k0, k1, q);
  }

  method ReduceRow(a: Row, q: nat) returns (r: Row)
    requires q > 0
    ensures r == Red(a, q)
  {
    var buf := new nat[|a|](_ => 0);
    for i := 0 to |a|
      invariant forall k | 0 <= k < i :: buf[k] == a[k] % q
    {
      buf[i] := a[i] % q;
    }
    r := buf[..];
  }

  lemma MaskCancels(s: Poly, a: Poly, sa: Poly, target: Poly, t: Poly, k0: Poly, k1: Poly, q: int)
    requires q > 0 && |s| == |a| == |sa| == |target| == |t| == |k0| == |k1| > 0
    requires Eqv(sa, Mul(s, a), q) && Eqv(t, target, q)
    requires Eqv(k0, Add(sa, t), q) && Eqv(k1, Scale(-1, a), q)
    ensures Eqv(Add(k0, Mul(s, k1)), target, q)
  {
    hide Apply, Eqv;
    var p := Mul(s, a);
    EqvAdd(sa, p, t, target, q);
    EqvTrans(k0, Add(sa, t), Add(p, target), q);
    EqvSelf(s, q);
    EqvMul(s, s, k1, Scale(-1, a), q);
    MulScale(-1, s, a);
    EqvAdd(k0, Add(p, target), Mul(s, k1), Scale(-1, p), q);
    assert Add(Add(p, target), Scale(-1, p)) == target;
  }

  /** One digit of a key, for the whole chain. */
  method GenericKey(s: seq<int>, chain: seq<nat>, targets: seq<Row>) returns (k0: seq<Row>, k1: seq<Row>)
    requires |s| > 0 && SecretOk(s, |s|) && ChainOk(chain) && |targets| == |chain|
    requires forall p | 0 <= p < |targets| :: |targets[p]| == |s|
    ensures |k0| == |k1| == |chain|
    ensures forall p | 0 <= p < |chain| :: KeyRow(k0[p], k1[p], targets[p], s, chain[p])
  {
    hide KeyRow;
    k0, k1 := [], [];
    for p := 0 to |chain|
      invariant |k0| == |k1| == p
      invariant forall e | 0 <= e < p :: KeyRow(k0[e], k1[e], targets[e], s, chain[e])
    {
      var r0, r1 := GenericKeyRow(s, targets[p], chain[p]);
      k0, k1 := k0 + [r0], k1 + [r1];
    }
  }

  lemma KeyRowReduced(k0: Row, k1: Row, target: Poly, s: Poly, q: nat)
    requires |target| == |s| > 0 && q > 0
    requires KeyRow(k0, k1, Red(target, q), s, q)
    ensures KeyRow(k0, k1, target, s, q)
  {
    RedOk(target, q);
    hide Apply, Red, Eqv;
    EqvTrans(Add(k0, Mul(s, k1)), Red(target, q), target, q);
  }

  /** The row i of the square of a ternary polynomial: s[i] * x^i * s, one unit at a time. */
  method UnitRow(buf: array<nat>, s: seq<int>, i: nat, q: nat)
    requires 1 < q && 2 * q <= U64 && i < |s| == buf.Length && Ternary(s) && s[i] != 0
    requires Canonical(buf[..], q)
    modifies buf
    ensures buf[..] == Red(Add(old(buf[..]), Scale(s[i], ShiftN(s, i))), q)
  {
    hide Apply, ShiftN;
    var n := |s|;
    ghost var was := buf[..];
    ghost var row := Scale(s[i], ShiftN(s, i));
    ghost var goal := Red(Add(was, row), q);
    RowAt(s, i, s[i]);
    for j := 0 to n
      invariant forall k | 0 <= k < n :: buf[k] == if Source(k, i, n) < j then goal[k] else was[k]
    {
      ghost var kk := if i + j < n then i + j else i + j - n;
      assert Source(kk, i, n) == j && was[kk] in was;
      assert goal[kk] == (was[kk] + row[kk]) % q;
      UnitTerm(s[i], s[j]);
      ModSmall(was[kk], q);
      if s[j] != 0 {
        var k := i + j;
        if k < n {
          buf[k] := if s[i] * s[j] > 0 then AddMod(buf[k], 1, q) else SubMod(buf[k], 1, q);
        } else {
          buf[k - n] := if s[i] * s[j] > 0 then SubMod(buf[k - n], 1, q) else AddMod(buf[k - n], 1, q);
        }
      }
      assert buf[kk] == goal[kk];
    }
    assert buf[..] == goal;
  }

  lemma UnitTerm(x: int, y: int)
    requires -1 <= x <= 1 && -1 <= y <= 1 && x != 0
    ensures x * y == (if y == 0 then 0 else if x * y > 0 then 1 else -1)
    ensures -x * y == -(x * y)
  {}

  method SquareRow(s: seq<int>, q: nat) returns (c: Row)
    requires |s| > 0 && 1 < q && 2 * q <= U64 && Ternary(s)
    ensures c == Red(Mul(s, s), q)
  {
    hide Apply, ShiftN;
    var n := |s|;
    var buf := new nat[n](_ => 0);
    NoRows(s, s, 1, q);
    assert buf[..] == Zero(n);
    for i := 0 to n
      invariant buf[..] == Red(Mul(s[..i], s), q)
    {
      RowStep(s, i, s, 1, q);
      if s[i] != 0 {
        UnitRow(buf, s, i, q);
      }
    }
    c := buf[..];
  }

  /** Multiplying a reduced row by a reduced scalar. */
  lemma RedScale(v: int, v': int, a: Poly, q: int)
    requires q > 0 && v % q == v' % q
    ensures Red(Scale(v, Red(a, q)), q) == Red(Scale(v', a), q)
  {
    RedOk(a, q);
    EqvScale(v, v', Red(a, q), a, q);
    EqvRed(Scale(v, Red(a, q)), Scale(v', a), q);
  }

  /** Relinearisation key: digit d decrypts to BASE^d * s^2. */
  method RkGen(s: seq<int>, chain: seq<nat>) returns (rk: SwitchKey)
    requires |s| > 0 && SecretOk(s, |s|) && ChainOk(chain)
    ensures KeyFor(rk, Mul(s, s), s, chain, |chain|)
  {
    hide Apply, KeyRow, Red, Scale;
    rk := SwitchKey([], []);
    for d := 0 to DIGITS
      invariant |rk.k0| == |rk.k1| == d
      invariant forall e | 0 <= e < d :: |rk.k0[e]| == |rk.k1[e]| == |chain| && forall p | 0 <= p < |chain| ::
        KeyRow(rk.k0[e][p], rk.k1[e][p], Scale(Power(e), Mul(s, s)), s, chain[p])
    {
      var tgt: seq<Row> := [];
      for p := 0 to |chain|
        invariant |tgt| == p
        invariant forall e | 0 <= e < p :: |tgt[e]| == |s| && tgt[e] == Red(Scale(Power(d), Mul(s, s)), chain[e])
      {
        var q := chain[p];
        var row := SquareRow(s, q);
        RedOk(Mul(s, s), q);
        if d > 0 {
          var bq := if d == 1 then BASE % q else (BASE * BASE) % q;
          ModMod(Power(d), q);
          RedScale(bq, Power(d), Mul(s, s), q);
          row := ScalePoly(row, bq, q);
        } else {
          ScaleOne(Mul(s, s));
        }
        RedOk(Scale(Power(d), Mul(s, s)), q);
        tgt := tgt + [row];
      }
      var k0, k1 := GenericKey(s, chain, tgt);
      forall p | 0 <= p < |chain| ensures KeyRow(k0[p], k1[p], Scale(Power(d), Mul(s, s)), s, chain[p]) {
        KeyRowReduced(k0[p], k1[p], Scale(Power(d), Mul(s, s)), s, chain[p]);
      }
      rk := SwitchKey(rk.k0 + [k0], rk.k1 + [k1]);
    }
  }

  /** The key with its negative coefficients brought into range. */
  method RawSecret(s: seq<int>, q: nat) returns (raw: Row)
    requires 1 < q && Ternary(s)
    ensures raw == Red(s, q)
  {
    var buf := new nat[|s|](_ => 0);
    for i := 0 to |s|
      invariant forall k | 0 <= k < i :: buf[k] == s[k] % q
    {
      if s[i] < 0 {
        DivUnique(-1, q, -1, q - 1);
        buf[i] := q - 1;
      } else {
        ModSmall(s[i], q);
        buf[i] := s[i];
      }
    }
    raw := buf[..];
  }

  /** sigma_k of the secret at every prime of the chain. */
  method SigmaSecret(s: seq<int>, k: nat, chain: seq<nat>) returns (tgt: seq<Row>)
    requires |s| > 0 && Ternary(s) && ChainOk(chain)
    ensures |tgt| == |chain|
    ensures forall p | 0 <= p < |chain| :: RowOk(tgt[p], |s|, chain[p]) && tgt[p] == Red(Sigma(s, k), chain[p])
  {
    hide Apply, Red, Eqv, Sigma;
    tgt := [];
    for p := 0 to |chain|
      invariant |tgt| == p
      invariant forall e | 0 <= e < p :: RowOk(tgt[e], |s|, chain[e]) && tgt[e] == Red(Sigma(s, k), chain[e])
    {
      var q := chain[p];
      var raw := RawSecret(s, q);
      RedOk(s, q);
      var row := Galois(raw, k, q);
      EqvSigma(raw, s, k, q);
      EqvRed(Sigma(raw, k), Sigma(s, k), q);
      RedOk(Sigma(s, k), q);
      tgt := tgt + [row];
    }
  }

  /** A key for any target, digit by digit: the target is multiplied by BASE between digits. */
  method DigitKeys(s: seq<int>, chain: seq<nat>, targets: seq<Row>, ghost target: Poly) returns (key: SwitchKey)
    requires |s| > 0 && SecretOk(s, |s|) && ChainOk(chain) && |targets| == |chain| && |target| == |s|
    requires forall p | 0 <= p < |chain| :: targets[p] == Red(target, chain[p])
    ensures KeyFor(key, target, s, chain, |chain|)
  {
    hide Apply, KeyRow, Red, Scale;
    key := SwitchKey([], []);
    var tgt := targets;
    ScaleOne(target);
    for d := 0 to DIGITS
      invariant |key.k0| == |key.k1| == d && |tgt| == |chain|
      invariant forall e | 0 <= e < d :: |key.k0[e]| == |key.k1[e]| == |chain| && forall p | 0 <= p < |chain| ::
        KeyRow(key.k0[e][p], key.k1[e][p], Scale(Power(e), target), s, chain[p])
      invariant forall p | 0 <= p < |chain| :: tgt[p] == Red(Scale(Power(if d == 0 then 0 else d - 1), target), chain[p])
    {
      if d > 0 {
        tgt := NextTargets(tgt, chain, target, d);
      }
      forall p | 0 <= p < |chain| ensures |tgt[p]| == |s| {
        RedOk(Scale(Power(d), target), chain[p]);
      }
      var k0, k1 := GenericKey(s, chain, tgt);
      forall p | 0 <= p < |chain| ensures KeyRow(k0[p], k1[p], Scale(Power(d), target), s, chain[p]) {
        KeyRowReduced(k0[p], k1[p], Scale(Power(d), target), s, chain[p]);
      }
      key := SwitchKey(key.k0 + [k0], key.k1 + [k1]);
    }
  }

  method NextTargets(tgt: seq<Row>, chain: seq<nat>, ghost target: Poly, d: nat) returns (next: seq<Row>)
    requires d > 0 && ChainOk(chain) && |tgt| == |chain|
    requires forall p | 0 <= p < |chain| :: tgt[p] == Red(Scale(Power(d - 1), target), chain[p])
    ensures |next| == |chain|
    ensures forall p | 0 <= p < |chain| :: next[p] == Red(Scale(Power(d), target), chain[p])
  {
    hide Red, Scale;
    next := [];
    for p := 0 to |chain|
      invariant |next| == p
      invariant forall e | 0 <= e < p :: next[e] == Red(Scale(Power(d), target), chain[e])
    {
      var q := chain[p];
      ModMod(BASE, q);
      RedOk(Scale(Power(d - 1), target), q);
      RedScale(BASE % q, BASE, Scale(Power(d - 1), target), q);
      ScaleScale(BASE, Power(d - 1), target);
      var row := ScalePoly(tgt[p], BASE % q, q);
      next := next + [row];
    }
  }

  /** Rotation key for x -> x^k: digit d decrypts to BASE^d * sigma_k(s). */
  method GkGenK(s: seq<int>, chain: seq<nat>, k: nat) returns (r: Result<SwitchKey>)
    requires |s| > 0 && SecretOk(s, |s|) && ChainOk(chain)
    ensures r.Err? <==> k % 2 == 0
    ensures r.Ok? ==> KeyFor(r.value, Sigma(s, k), s, chain, |chain|)
  {
    if k % 2 == 0 { return Err; }
    hide Sigma, KeyFor;
    var tgt := SigmaSecret(s, k, chain);
    var key := DigitKeys(s, chain, tgt, Sigma(s, k));
    r := Ok(key);
  }

  // ----- encryption -----

  /** One noise polynomial for the whole chain, drawn from [-8, 8]. */
  method Noise(n: nat) returns (e: seq<int>)
    ensures |e| == n && forall i | 0 <= i < n :: -8 <= e[i] <= 8
  {
    var buf := new int[n](_ => 0);
    for i := 0 to n
      invariant forall k | 0 <= k < n :: -8 <= buf[k] <= 8
    {
      var x: int :| -8 <= x <= 8;
      buf[i] := x;
    }
    e := buf[..];
  }

  method NoiseRow(e: seq<int>, q: nat) returns (r: Row)
    requires 16 < q && forall i | 0 <= i < |e| :: -8 <= e[i] <= 8
    ensures r == Red(e, q)
  {
    var buf := new nat[|e|](_ => 0);
    for i := 0 to |e|
      invariant forall k | 0 <= k < i :: buf[k] == e[k] % q
    {
      if e[i] < 0 {
        DivUnique(e[i], q, -1, e[i] + q);
        buf[i] := e[i] + q;
      } else {
        ModSmall(e[i], q);
        buf[i] := e[i];
      }
    }
    r := buf[..];
  }

  /** A fresh ciphertext decrypts to message plus noise, the same integer noise at every prime. */
  method Encrypt(s: seq<int>, poly: seq<Row>, n: nat, chain: seq<nat>) returns (ct: Ct, ghost e: seq<int>)
    requires n > 0 && SecretOk(s, n) && ChainOk(chain) && RowsOk(poly, n, chain, |chain|)
    requires forall p | 0 <= p < |chain| :: 16 < chain[p]
    ensures Valid(ct) && ct.n == n && ct.chain == chain && ct.nprimes == |chain| && |ct.c| == 2
    ensures |e| == n && forall i | 0 <= i < n :: -8 <= e[i] <= 8
    ensures forall p | 0 <= p < |chain| :: Eqv(Plain(ct, s, p), Add(poly[p], e), chain[p])
  {
    hide Apply, Red, Eqv, KeyRow, Eval;
    var noise := Noise(n);
    e := noise;
    var c0: seq<Row>, c1: seq<Row> := [], [];
    for p := 0 to |chain|
      invariant |c0| == |c1| == p
      invariant forall j | 0 <= j < p :: KeyRow(c0[j], c1[j], Add(poly[j], e), s, chain[j])
    {
      var q := chain[p];
      var er := NoiseRow(noise, q);
      RedOk(e, q);
      var t := AddPoly(poly[p], er, q);
      RedAdd(e, poly[p], q);
      AddComm(poly[p], e);
      AddComm(poly[p], er);
      var r0, r1 := GenericKeyRow(s, t, q);
      RedOk(Add(poly[p], e), q);
      assert t == Red(Add(poly[p], e), q);
      KeyRowReduced(r0, r1, Add(poly[p], e), s, q);
      c0, c1 := c0 + [r0], c1 + [r1];
    }
    ct := Ct(n, chain, |chain|, [c0, c1]);
    forall j | 0 <= j < |chain| ensures RowOk(c0[j], n, chain[j]) && RowOk(c1[j], n, chain[j]) {
      KeyRowRows(c0[j], c1[j], Add(poly[j], e), s, chain[j]);
    }
    assert RowsOk(c0, n, chain, |chain|) && RowsOk(c1, n, chain, |chain|);
    forall p | 0 <= p < |chain| ensures Eqv(Plain(ct, s, p), Add(poly[p], e), chain[p]) {
      KeyRowRows(c0[p], c1[p], Add(poly[p], e), s, chain[p]);
      assert Column(ct, p) == [c0[p], c1[p]];
      EvalPair(c0[p], c1[p], s);
    }
  }

  lemma KeyRowRows(k0: Row, k1: Row, target: Poly, s: Poly, q: nat)
    requires |target| == |s| > 0 && q > 0 && KeyRow(k0, k1, target, s, q)
    ensures RowOk(k0, |s|, q) && RowOk(k1, |s|, q) && Eqv(Add(k0, Mul(s, k1)), target, q)
  {}

  // ----- relinearisation -----

  /** Three components back to two; what decrypts at s does not change at any prime. */
  method Relin(a: Ct, rk: SwitchKey, ghost s: Poly) returns (r: Result<Ct>)
    requires Valid(a) && |s| == a.n && KeyFor(rk, Mul(s, s), s, a.chain, a.nprimes)
    requires forall p | 0 <= p < a.nprimes :: BASE <= a.chain[p]
    ensures r.Err? <==> |a.c| != 3
    ensures r.Ok? ==>
      && Valid(r.value) && Compatible(r.value, a) && r.value.nprimes == a.nprimes && |r.value.c| == 2
      && forall p | 0 <= p < a.nprimes :: Eqv(Plain(r.value, s, p), Plain(a, s, p), a.chain[p])
  {
    if |a.c| != 3 { return Err; }
    var c0, c1 := RelinRows(a, rk, s);
    r := Ok(Ct(a.n, a.chain, a.nprimes, [c0, c1]));
    MergedAll(c0, c1, a, s);
  }

  method RelinRows(a: Ct, rk: SwitchKey, ghost s: Poly) returns (c0: seq<Row>, c1: seq<Row>)
    requires Valid(a) && |a.c| == 3 && |s| == a.n && KeyFor(rk, Mul(s, s), s, a.chain, a.nprimes)
    requires forall p | 0 <= p < a.nprimes :: BASE <= a.chain[p]
    ensures |c0| == |c1| == a.nprimes && forall p | 0 <= p < a.nprimes :: Merged(c0[p], c1[p], a, p, s)
  {
    hide Apply, Eqv, KeyRow, Plain, Merged, RowsOk;
    c0, c1 := [], [];
    for p := 0 to a.nprimes
      invariant |c0| == |c1| == p
      invariant forall j | 0 <= j < p :: Merged(c0[j], c1[j], a, j, s)
    {
      ThreeRows(a, p, s);
      var r0, r1 := SwitchRow(a.c[0][p], a.c[1][p], a.c[2][p], rk, p, a.chain[p], s, Mul(s, s));
      MergedIs(r0, r1, a, p, s);
      c0, c1 := c0 + [r0], c1 + [r1];
    }
  }

  lemma MergedAll(c0: seq<Row>, c1: seq<Row>, a: Ct, s: Poly)
    requires Valid(a) && |s| == a.n && |c0| == |c1| == a.nprimes
    requires forall p | 0 <= p < a.nprimes :: Merged(c0[p], c1[p], a, p, s)
    ensures Valid(Ct(a.n, a.chain, a.nprimes, [c0, c1]))
    ensures forall p | 0 <= p < a.nprimes ::
              Eqv(Plain(Ct(a.n, a.chain, a.nprimes, [c0, c1]), s, p), Plain(a, s, p), a.chain[p])
  {
    hide Apply, Eqv, Plain, Merged;
    forall p | 0 <= p < a.nprimes
      ensures RowOk(c0[p], a.n, a.chain[p]) && RowOk(c1[p], a.n, a.chain[p])
    {
      MergedMeans(c0[p], c1[p], a, p, s);
    }
    assert RowsOk(c0, a.n, a.chain, a.nprimes) && RowsOk(c1, a.n, a.chain, a.nprimes);
    var ct := Ct(a.n, a.chain, a.nprimes, [c0, c1]);
    forall p | 0 <= p < a.nprimes ensures Eqv(Plain(ct, s, p), Plain(a, s, p), a.chain[p]) {
      MergedMeans(c0[p], c1[p], a, p, s);
      PlainTwo(ct, s, p);
    }
  }

  /** A pair that decrypts to what the ciphertext decrypts to at prime p. */
  ghost predicate Merged(r0: Row, r1: Row, a: Ct, p: nat, s: Poly)
    requires Valid(a) && p < a.nprimes && |s| == a.n
  {
    && RowOk(r0, a.n, a.chain[p]) && RowOk(r1, a.n, a.chain[p])
    && Eqv(Add(r0, Mul(s, r1)), Plain(a, s, p), a.chain[p])
  }

  lemma ThreeRows(a: Ct, p: nat, s: Poly)
    requires Valid(a) && p < a.nprimes && |s| == a.n && |a.c| == 3
    ensures |a.c[0]| == |a.c[1]| == |a.c[2]| == a.nprimes
    ensures RowOk(a.c[0][p], a.n, a.chain[p]) && RowOk(a.c[1][p], a.n, a.chain[p]) && RowOk(a.c[2][p], a.n, a.chain[p])
    ensures 1 < a.chain[p] < TOP
    ensures Plain(a, s, p) == Add(Add(a.c[0][p], Mul(s, a.c[1][p])), Mul(Mul(s, s), a.c[2][p]))
  {
    PlainThree(a, s, p);
  }

  lemma MergedIs(r0: Row, r1: Row, a: Ct, p: nat, s: Poly)
    requires Valid(a) && p < a.nprimes && |s| == a.n
    requires RowOk(r0, a.n, a.chain[p]) && RowOk(r1, a.n, a.chain[p])
    requires Eqv(Add(r0, Mul(s, r1)), Plain(a, s, p), a.chain[p])
    ensures Merged(r0, r1, a, p, s)
  {}

  lemma MergedMeans(r0: Row, r1: Row, a: Ct, p: nat, s: Poly)
    requires Valid(a) && p < a.nprimes && |s| == a.n && Merged(r0, r1, a, p, s)
    ensures RowOk(r0, a.n, a.chain[p]) && RowOk(r1, a.n, a.chain[p])
    ensures Eqv(Add(r0, Mul(s, r1)), Plain(a, s, p), a.chain[p])
  {}

  lemma PlainTwo(ct: Ct, s: Poly, p: nat)
    requires Valid(ct) && |ct.c| == 2 && p < ct.nprimes && |s| == ct.n
    ensures Plain(ct, s, p) == Add(ct.c[0][p], Mul(s, ct.c[1][p]))
  {
    hide Eval, Apply;
    assert RowOk(ct.c[0][p], ct.n, ct.chain[p]) && RowOk(ct.c[1][p], ct.n, ct.chain[p]);
    assert Column(ct, p) == [ct.c[0][p], ct.c[1][p]];
    EvalPair(ct.c[0][p], ct.c[1][p], s);
  }

  lemma PlainThree(ct: Ct, s: Poly, p: nat)
    requires Valid(ct) && |ct.c| == 3 && p < ct.nprimes && |s| == ct.n
    ensures Plain(ct, s, p) == Add(Add(ct.c[0][p], Mul(s, ct.c[1][p])), Mul(Mul(s, s), ct.c[2][p]))
  {
    hide Eval, Apply;
    var c0, c1, c2 := ct.c[0][p], ct.c[1][p], ct.c[2][p];
    assert RowOk(c0, ct.n, ct.chain[p]) && RowOk(c1, ct.n, ct.chain[p]) && RowOk(c2, ct.n, ct.chain[p]);
    assert Column(ct, p) == [c0, c1] + [c2];
    EvalSnoc([c0, c1], c2, s);
    EvalPair(c0, c1, s);
    PowStep(s, 2);
    PowOne(s);
  }

  // ----- rotation -----

  method SigmaRows(rows: seq<Row>, k: nat, n: nat, chain: seq<nat>) returns (out: seq<Row>)
    requires n > 0 && |rows| <= |chain| && ChainOk(chain) && RowsOk(rows, n, chain, |rows|)
    ensures |out| == |rows|
    ensures forall p | 0 <= p < |rows| :: out[p] == Red(Sigma(rows[p], k), chain[p])
  {
    hide Sigma, Red;
    out := [];
    for p := 0 to |rows|
      invariant |out| == p
      invariant forall e | 0 <= e < p :: out[e] == Red(Sigma(rows[e], k), chain[e])
    {
      assert RowOk(rows[p], n, chain[p]);
      var row := Galois(rows[p], k, chain[p]);
      out := out + [row];
    }
  }

  /** Key targets for component d: sigma_k(s)^d, from the one for d - 1. */
  method NextPower(prev: seq<Row>, first: seq<Row>, chain: seq<nat>, ghost t: Poly, d: nat) returns (next: seq<Row>)
    requires |t| > 0 && d > 0 && ChainOk(chain) && |prev| == |first| == |chain|
    requires forall p | 0 <= p < |chain| :: prev[p] == Red(Pow(t, d - 1), chain[p]) && first[p] == Red(t, chain[p])
    ensures |next| == |chain| && forall p | 0 <= p < |chain| :: next[p] == Red(Pow(t, d), chain[p])
  {
    hide Apply, Red, Eqv, Pow;
    next := [];
    ghost var e := Pow(t, d - 1);
    assert Pow(t, d) == Mul(t, e) by { PowStep(t, d); }
    MulComm(t, e);
    for p := 0 to |chain|
      invariant |next| == p
      invariant forall j | 0 <= j < p :: next[j] == Red(Pow(t, d), chain[j])
    {
      var q := chain[p];
      RedOk(e, q);
      RedOk(t, q);
      var row := PolyMul(prev[p], first[p], q);
      EqvMul(prev[p], e, first[p], t, q);
      EqvRed(Mul(prev[p], first[p]), Mul(e, t), q);
      next := next + [row];
    }
  }

  /** What the pair at prime p must decrypt to once d components were switched. */
  ghost predicate Switched(o0: Row, o1: Row, a: Ct, p: nat, d: nat, k: nat, s: Poly)
    requires Valid(a) && p < a.nprimes && |s| == a.n && d <= |a.c|
  {
    && RowOk(o0, a.n, a.chain[p]) && RowOk(o1, a.n, a.chain[p])
    && Eqv(Add(o0, Mul(s, o1)), Rotated(a, p, d, k, s), a.chain[p])
  }

  ghost function Rotated(a: Ct, p: nat, d: nat, k: nat, s: Poly): (r: Poly)
    requires Valid(a) && p < a.nprimes && |s| == a.n && d <= |a.c|
    ensures |r| == a.n
  {
    ColumnsOk(a, p);
    Eval(SigmaList(Column(a, p)[..d], k, a.n), Sigma(s, k))
  }

  lemma RotatedStep(a: Ct, p: nat, d: nat, k: nat, s: Poly)
    requires Valid(a) && p < a.nprimes && |s| == a.n && d < |a.c|
    ensures |a.c[d][p]| == a.n
    ensures Rotated(a, p, d + 1, k, s) == Add(Rotated(a, p, d, k, s), Mul(Pow(Sigma(s, k), d), Sigma(a.c[d][p], k)))
  {
    hide Eval, Apply, Sigma, Pow;
    ColumnsOk(a, p);
    var col := Column(a, p);
    assert col[..d + 1] == col[..d] + [col[d]];
    assert SigmaList(col[..d + 1], k, a.n) == SigmaList(col[..d], k, a.n) + [Sigma(col[d], k)];
    EvalSnoc(SigmaList(col[..d], k, a.n), Sigma(col[d], k), Sigma(s, k));
  }

  lemma SwitchedStep(o0: Row, o1: Row, r0: Row, r1: Row, sig: Row, a: Ct, p: nat, d: nat, k: nat, s: Poly)
    requires Valid(a) && p < a.nprimes && |s| == a.n && d < |a.c| && |a.c[d][p]| == a.n
    requires Switched(o0, o1, a, p, d, k, s)
    requires sig == Red(Sigma(a.c[d][p], k), a.chain[p])
    requires RowOk(r0, a.n, a.chain[p]) && RowOk(r1, a.n, a.chain[p])
    requires Eqv(Add(r0, Mul(s, r1)), Add(Add(o0, Mul(s, o1)), Mul(Pow(Sigma(s, k), d), sig)), a.chain[p])
    ensures Switched(r0, r1, a, p, d + 1, k, s)
  {
    hide Apply, Eqv, Red, Sigma, Pow, Rotated, Switched, Eval;
    RotatedStep(a, p, d, k, s);
    SwitchedPair(o0, o1, a, p, d, k, s);
    RedOk(Sigma(a.c[d][p], k), a.chain[p]);
    GrowPair(Add(r0, Mul(s, r1)), Add(o0, Mul(s, o1)), Rotated(a, p, d, k, s), Pow(Sigma(s, k), d),
             sig, Sigma(a.c[d][p], k), a.chain[p]);
    SwitchedIs(r0, r1, a, p, d + 1, k, s);
  }

  lemma GrowPair(next: Poly, pair: Poly, e: Poly, t: Poly, sig: Poly, exact: Poly, q: int)
    requires q > 0 && |pair| == |e| == |t| == |sig| == |exact| > 0
    requires Eqv(pair, e, q) && Eqv(sig, exact, q) && Eqv(next, Add(pair, Mul(t, sig)), q)
    ensures Eqv(next, Add(e, Mul(t, exact)), q)
  {
    hide Apply, Eqv;
    EqvSelf(t, q);
    EqvMul(t, t, sig, exact, q);
    EqvAdd(pair, e, Mul(t, sig), Mul(t, exact), q);
    EqvTrans(next, Add(pair, Mul(t, sig)), Add(e, Mul(t, exact)), q);
  }

  lemma SwitchedPair(o0: Row, o1: Row, a: Ct, p: nat, d: nat, k: nat, s: Poly)
    requires Valid(a) && p < a.nprimes && |s| == a.n && d <= |a.c| && Switched(o0, o1, a, p, d, k, s)
    ensures RowOk(o0, a.n, a.chain[p]) && RowOk(o1, a.n, a.chain[p]) && a.n > 0
    ensures Eqv(Add(o0, Mul(s, o1)), Rotated(a, p, d, k, s), a.chain[p])
  {}

  lemma SwitchedIs(o0: Row, o1: Row, a: Ct, p: nat, d: nat, k: nat, s: Poly)
    requires Valid(a) && p < a.nprimes && |s| == a.n && d <= |a.c|
    requires RowOk(o0, a.n, a.chain[p]) && RowOk(o1, a.n, a.chain[p])
    requires Eqv(Add(o0, Mul(s, o1)), Rotated(a, p, d, k, s), a.chain[p])
    ensures Switched(o0, o1, a, p, d, k, s)
  {}

  lemma SwitchedFirst(o0: Row, o1: Row, a: Ct, p: nat, k: nat, s: Poly)
    requires Valid(a) && p < a.nprimes && |s| == a.n && |a.c[0][p]| == a.n
    requires o0 == Red(Sigma(a.c[0][p], k), a.chain[p]) && o1 == Zero(a.n)
    ensures Switched(o0, o1, a, p, 1, k, s)
  {
    var q, x := a.chain[p], Sigma(a.c[0][p], k);
    ColumnsOk(a, p);
    RedOk(x, q);
    RotatedStep(a, p, 0, k, s);
    assert Rotated(a, p, 0, k, s) == Zero(a.n) by {
      assert SigmaList(Column(a, p)[..0], k, a.n) == [];
      EvalNil(Sigma(s, k));
    }
    assert Pow(Sigma(s, k), 0) == One(a.n);
    hide Apply, Eqv, Red, Sigma, Rotated;
    MulOne(x);
    AddZero(x);
    MulZero(s);
    AddZero(o0);
  }

  lemma SwitchedAll(o0: Row, o1: Row, a: Ct, p: nat, k: nat, s: Poly)
    requires Valid(a) && p < a.nprimes && |s| == a.n && k % 2 == 1
    requires Switched(o0, o1, a, p, |a.c|, k, s)
    ensures RowOk(o0, a.n, a.chain[p]) && RowOk(o1, a.n, a.chain[p])
    ensures Eqv(Add(o0, Mul(s, o1)), Sigma(Plain(a, s, p), k), a.chain[p])
  {
    hide Eval, Apply, Sigma;
    ColumnsOk(a, p);
    assert Column(a, p)[..|a.c|] == Column(a, p);
    SigmaEval(Column(a, p), s, k);
  }

  ghost predicate AllSwitched(o0: seq<Row>, o1: seq<Row>, a: Ct, d: nat, k: nat, s: Poly)
    requires Valid(a) && |s| == a.n && d <= |a.c|
  {
    |o0| == |o1| == a.nprimes && forall p | 0 <= p < a.nprimes :: Switched(o0[p], o1[p], a, p, d, k, s)
  }

  /** The rows of component d under x -> x^k. */
  ghost predicate SigmaOf(sig: seq<Row>, a: Ct, d: nat, k: nat)
    requires Valid(a) && d < |a.c|
  {
    |sig| == a.nprimes && forall p | 0 <= p < a.nprimes ::
      |a.c[d][p]| == a.n && sig[p] == Red(Sigma(a.c[d][p], k), a.chain[p])
  }

  /** A reduced copy of t^d at every prime. */
  ghost predicate PowersOf(tgt: seq<Row>, t: Poly, d: nat, primes: seq<nat>)
    requires |t| > 0 && ChainOk(primes)
  {
    |tgt| == |primes| && forall p | 0 <= p < |primes| :: tgt[p] == Red(Pow(t, d), primes[p])
  }

  lemma RotationStart(o0: seq<Row>, o1: seq<Row>, a: Ct, k: nat, s: Poly)
    requires Valid(a) && |s| == a.n && SigmaOf(o0, a, 0, k)
    requires |o1| == a.nprimes && forall p | 0 <= p < a.nprimes :: o1[p] == seq(a.n, _ => 0)
    ensures AllSwitched(o0, o1, a, 1, k, s)
  {
    hide Sigma, Red, Switched;
    forall p | 0 <= p < a.nprimes ensures Switched(o0[p], o1[p], a, p, 1, k, s) {
      assert o1[p] == Zero(a.n);
      SwitchedFirst(o0[p], o1[p], a, p, k, s);
    }
  }

  /** Every component is rotated, then switched from sigma_k(s)^d back to s and merged. */
  method RotateK(a: Ct, s: seq<int>, gk: SwitchKey, k: nat) returns (r: Result<Ct>)
    requires Valid(a) && SecretOk(s, a.n) && KeyFor(gk, Sigma(s, k), s, a.chain, a.nprimes)
    requires forall p | 0 <= p < a.nprimes :: BASE <= a.chain[p]
    ensures r.Err? <==> |a.c| < 2 || |a.c| > MAX_COMP || k % 2 == 0
    ensures r.Ok? ==>
      && Valid(r.value) && Compatible(r.value, a) && r.value.nprimes == a.nprimes && |r.value.c| == 2
      && forall p | 0 <= p < a.nprimes :: Eqv(Plain(r.value, s, p), Sigma(Plain(a, s, p), k), a.chain[p])
  {
    if |a.c| < 2 || |a.c| > MAX_COMP || k % 2 == 0 { return Err; }
    var o0, o1 := SwitchComponents(a, s, gk, k);
    r := Ok(Ct(a.n, a.chain, a.nprimes, [o0, o1]));
    RotatedAll(o0, o1, a, k, s);
  }

  method SwitchComponents(a: Ct, s: seq<int>, gk: SwitchKey, k: nat) returns (o0: seq<Row>, o1: seq<Row>)
    requires Valid(a) && SecretOk(s, a.n) && KeyFor(gk, Sigma(s, k), s, a.chain, a.nprimes)
    requires forall p | 0 <= p < a.nprimes :: BASE <= a.chain[p]
    ensures AllSwitched(o0, o1, a, |a.c|, k, s)
  {
    hide Apply, Sigma, Red, Eqv, KeyRow, KeyFor, Plain, Pow, Scale, Eval, RowsOk, AllSwitched, PowersOf, SigmaOf;
    var np, n, primes := a.nprimes, a.n, a.chain[..a.nprimes];
    ghost var t := Sigma(s, k);
    o0 := SigmaComponent(a, 0, k);
    o1 := seq(np, _ => seq(n, _ => 0));
    RotationStart(o0, o1, a, k, s);
    KeyForPrefix(gk, t, s, a.chain, np);
    var first := SigmaPowers(s, k, primes);
    var tgt := first;
    for d := 1 to |a.c|
      invariant AllSwitched(o0, o1, a, d, k, s)
      invariant PowersOf(tgt, t, if d == 1 then 1 else d - 1, primes)
    {
      var sig := SigmaComponent(a, d, k);
      var key;
      tgt, key := ComponentKey(tgt, first, gk, s, primes, t, d);
      o0, o1 := SwitchRows(o0, o1, sig, key, a, d, k, s);
    }
  }

  method SigmaComponent(a: Ct, d: nat, k: nat) returns (sig: seq<Row>)
    requires Valid(a) && d < |a.c|
    ensures SigmaOf(sig, a, d, k)
  {
    hide Sigma, Red;
    assert RowsOk(a.c[d], a.n, a.chain, a.nprimes);
    sig := SigmaRows(a.c[d], k, a.n, a.chain);
    forall p | 0 <= p < a.nprimes ensures |a.c[d][p]| == a.n {
      assert RowOk(a.c[d][p], a.n, a.chain[p]);
    }
  }

  method SigmaPowers(s: seq<int>, k: nat, primes: seq<nat>) returns (tgt: seq<Row>)
    requires |s| > 0 && Ternary(s) && ChainOk(primes)
    ensures PowersOf(tgt, Sigma(s, k), 1, primes)
  {
    hide Sigma, Red, Pow;
    tgt := SigmaSecret(s, k, primes);
    PowOne(Sigma(s, k));
  }

  lemma KeyForPrefix(key: SwitchKey, target: Poly, s: Poly, chain: seq<nat>, np: nat)
    requires np <= |chain| && ChainOk(chain) && KeyFor(key, target, s, chain, np)
    ensures ChainOk(chain[..np]) && KeyFor(key, target, s, chain[..np], np)
  {
    hide KeyRow, Scale;
  }

  /** The caller's key serves component 1; the others get one made for sigma_k(s)^d. */
  method ComponentKey(tgt: seq<Row>, first: seq<Row>, gk: SwitchKey, s: seq<int>, primes: seq<nat>, ghost t: Poly, d: nat)
    returns (next: seq<Row>, key: SwitchKey)
    requires |s| > 0 && SecretOk(s, |s|) && ChainOk(primes) && |t| == |s| && d > 0
    requires KeyFor(gk, t, s, primes, |primes|)
    requires PowersOf(first, t, 1, primes) && PowersOf(tgt, t, if d == 1 then 1 else d - 1, primes)
    ensures KeyFor(key, Pow(t, d), s, primes, |primes|) && PowersOf(next, t, d, primes)
  {
    hide Red, Pow, KeyFor;
    PowOne(t);
    next, key := tgt, gk;
    if d > 1 {
      next := NextPower(tgt, first, primes, t, d);
      key := DigitKeys(s, primes, next, Pow(t, d));
    }
  }

  lemma RotatedAll(o0: seq<Row>, o1: seq<Row>, a: Ct, k: nat, s: Poly)
    requires Valid(a) && |s| == a.n && k % 2 == 1 && AllSwitched(o0, o1, a, |a.c|, k, s)
    ensures Valid(Ct(a.n, a.chain, a.nprimes, [o0, o1]))
    ensures forall p | 0 <= p < a.nprimes ::
              Eqv(Plain(Ct(a.n, a.chain, a.nprimes, [o0, o1]), s, p), Sigma(Plain(a, s, p), k), a.chain[p])
  {
    hide Apply, Sigma, Eqv, Plain, Switched;
    forall p | 0 <= p < a.nprimes ensures RowOk(o0[p], a.n, a.chain[p]) && RowOk(o1[p], a.n, a.chain[p]) {
      SwitchedAll(o0[p], o1[p], a, p, k, s);
    }
    assert RowsOk(o0, a.n, a.chain, a.nprimes) && RowsOk(o1, a.n, a.chain, a.nprimes);
    var ct := Ct(a.n, a.chain, a.nprimes, [o0, o1]);
    forall p | 0 <= p < a.nprimes ensures Eqv(Plain(ct, s, p), Sigma(Plain(a, s, p), k), a.chain[p]) {
      SwitchedAll(o0[p], o1[p], a, p, k, s);
      PlainTwo(ct, s, p);
    }
  }

  method SwitchRows(o0: seq<Row>, o1: seq<Row>, sig: seq<Row>, key: SwitchKey, a: Ct, d: nat, k: nat, ghost s: Poly)
    returns (r0: seq<Row>, r1: seq<Row>)
    requires Valid(a) && |s| == a.n && d < |a.c|
    requires forall p | 0 <= p < a.nprimes :: BASE <= a.chain[p]
    requires KeyFor(key, Pow(Sigma(s, k), d), s, a.chain[..a.nprimes], a.nprimes)
    requires SigmaOf(sig, a, d, k) && AllSwitched(o0, o1, a, d, k, s)
    ensures AllSwitched(r0, r1, a, d + 1, k, s)
  {
    hide Apply, Sigma, Red, Eqv, KeyRow, Pow, Switched, Scale;
    ghost var t := Pow(Sigma(s, k), d);
    r0, r1 := [], [];
    for p := 0 to a.nprimes
      invariant |r0| == |r1| == p
      invariant forall e | 0 <= e < p :: Switched(r0[e], r1[e], a, e, d + 1, k, s)
    {
      SwitchedPair(o0[p], o1[p], a, p, d, k, s);
      RedOk(Sigma(a.c[d][p], k), a.chain[p]);
      var x0, x1 := SwitchRow(o0[p], o1[p], sig[p], key, p, a.chain[p], s, t);
      SwitchedStep(o0[p], o1[p], x0, x1, sig[p], a, p, d, k, s);
      r0, r1 := r0 + [x0], r1 + [x1];
    }
  }
}
