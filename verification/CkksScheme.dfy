/** RNS-CKKS ciphertexts, key-switch keys and the homomorphic operations on them. */
module CkksScheme {
  import opened Residues
  import opened Rows
  import opened Ring
  import opened CkksArith
  import opened CkksPoly
  import opened Evaluation

  const KEY_HW: nat := 8
  const MAX_COMP: nat := 13
  const DIGITS: nat := 3
  const BASE: nat := 0x10_0000
  const TOP: nat := 0x1000_0000_0000_0000

  datatype Result<T> = Ok(value: T) | Err

  type Row = seq<nat>

  /** comps x nprimes x n residues; the chain keeps the dropped primes as well. */
  datatype Ct = Ct(n: nat, chain: seq<nat>, nprimes: nat, c: seq<seq<Row>>)

  /** One polynomial per digit and prime; decrypts digit d to BASE^d times a target. */
  datatype SwitchKey = SwitchKey(k0: seq<seq<Row>>, k1: seq<seq<Row>>)

  ghost predicate ChainOk(chain: seq<nat>) {
    forall i | 0 <= i < |chain| :: 1 < chain[i] < TOP
  }

  ghost predicate RowOk(row: Row, n: nat, q: nat) {
    |row| == n && Canonical(row, q)
  }

  /** The components of one ciphertext at one prime. */
  ghost predicate ColumnOk(col: seq<Row>, n: nat, q: nat) {
    Sized(col, n) && forall k | 0 <= k < |col| :: Canonical(col[k], q)
  }

  ghost predicate RowsOk(rows: seq<Row>, n: nat, chain: seq<nat>, np: nat)
    requires np <= |chain|
  {
    |rows| == np && forall p | 0 <= p < np :: RowOk(rows[p], n, chain[p])
  }

  ghost predicate Valid(ct: Ct) {
    && ct.n > 0 && ct.nprimes <= |ct.chain| && ChainOk(ct.chain) && |ct.c| > 0
    && forall k | 0 <= k < |ct.c| :: RowsOk(ct.c[k], ct.n, ct.chain, ct.nprimes)
  }

  ghost predicate SecretOk(s: seq<int>, n: nat) {
    |s| == n && Ternary(s) && Norm1(s) <= KEY_HW
  }

  /** The components at prime p. */
  function Column(ct: Ct, p: nat): (r: seq<Row>)
    requires forall k | 0 <= k < |ct.c| :: p < |ct.c[k]|
    ensures |r| == |ct.c|
  {
    seq(|ct.c|, k requires 0 <= k < |ct.c| => ct.c[k][p])
  }

  /** What decryption at the secret s computes at prime p, before reduction. */
  ghost function Plain(ct: Ct, s: Poly, p: nat): (r: Poly)
    requires Valid(ct) && p < ct.nprimes && |s| == ct.n
    ensures |r| == ct.n
  {
    Eval(Column(ct, p), s)
  }

  // ----- rows -----

  method AddPoly(a: Row, b: Row, q: nat) returns (c: Row)
    requires 0 < q && 2 * q <= U64 && |a| == |b| && Canonical(a, q) && Canonical(b, q)
    ensures c == Red(Add(a, b), q)
  {
    var buf := new nat[|a|](_ => 0);
    for i := 0 to |a|
      invariant forall k | 0 <= k < i :: buf[k] == (a[k] + b[k]) % q
    {
      buf[i] := AddMod(a[i], b[i], q);
    }
    c := buf[..];
  }

  method NegPoly(a: Row, q: nat) returns (c: Row)
    requires 0 < q && Canonical(a, q)
    ensures c == Red(Scale(-1, a), q)
  {
    var buf := new nat[|a|](_ => 0);
    for i := 0 to |a|
      invariant forall k | 0 <= k < i :: buf[k] == (-1 * a[k]) % q
    {
      ghost var x: int := a[i];
      if a[i] != 0 {
        DivUnique(-1 * x, q, -1, q - x);
        buf[i] := q - a[i];
      } else {
        ModSmall(0, q);
        buf[i] := 0;
      }
    }
    c := buf[..];
  }

  method ScalePoly(a: Row, v: nat, q: nat) returns (c: Row)
    requires 0 < q && Canonical(a, q)
    ensures c == Red(Scale(v, a), q)
  {
    var buf := new nat[|a|](_ => 0);
    for i := 0 to |a|
      invariant forall k | 0 <= k < i :: buf[k] == (v * a[k]) % q
    {
      assert a[i] * v == v * a[i];
      buf[i] := MulMod(a[i], v, q);
    }
    c := buf[..];
  }

  method RandomRow(n: nat, q: nat) returns (a: Row)
    requires q > 0
    ensures RowOk(a, n, q)
  {
    var buf := new nat[n](_ => 0);
    for i := 0 to n
      invariant forall k | 0 <= k < n :: buf[k] < q
    {
      var x: nat :| x < q;
      buf[i] := x;
    }
    a := buf[..];
  }

  // ----- tensor product -----

  /** Component k at one prime, accumulated over the components of a. */
  method TensorRow(a: seq<Row>, b: seq<Row>, k: nat, n: nat, q: nat) returns (acc: Row)
    requires n > 0 && 1 < q && 2 * q <= U64
    requires ColumnOk(a, n, q) && ColumnOk(b, n, q)
    ensures acc == Red(Conv(a, b, k, |a|, n), q)
  {
    hide Apply, ShiftN, Red;
    acc := seq(n, _ => 0);
    RedZero(n, q);
    for i := 0 to |a|
      invariant acc == Red(Conv(a, b, k, i, n), q)
    {
      if 0 <= k - i < |b| {
        var tmp := PolyMul(a[i], b[k - i], q);
        RedSum(Conv(a, b, k, i, n), Mul(a[i], b[k - i]), q);
        acc := AddPoly(acc, tmp, q);
      }
    }
  }

  /** Same ring and same chain, as the library demands of two operands. */
  ghost predicate Compatible(a: Ct, b: Ct) {
    a.n == b.n && a.chain == b.chain
  }

  method Mult(a: Ct, b: Ct) returns (r: Result<Ct>)
    requires Valid(a) && Valid(b) && Compatible(a, b)
    ensures r.Err? <==> a.nprimes != b.nprimes || |a.c| + |b.c| - 1 > MAX_COMP
    ensures r.Ok? ==>
      && Valid(r.value) && Compatible(r.value, a) && r.value.nprimes == a.nprimes
      && |r.value.c| == |a.c| + |b.c| - 1
      && forall p: nat, s: Poly {:trigger Plain(r.value, s, p)} | p < a.nprimes && |s| == a.n ::
           Eqv(Plain(r.value, s, p), Mul(Plain(a, s, p), Plain(b, s, p)), a.chain[p])
  {
    if a.nprimes != b.nprimes { return Err; }
    var comps := |a.c| + |b.c| - 1;
    if comps > MAX_COMP { return Err; }
    var np := a.nprimes;
    var c: seq<seq<Row>> := [];
    for k := 0 to comps
      invariant |c| == k
      invariant forall j | 0 <= j < k :: |c[j]| == np && TensorRows(a, b, j, c[j])
    {
      hide *;
      var rows: seq<Row> := [];
      NoTensorRows(a, b, k);
      for p := 0 to np
        invariant |rows| == p && TensorRows(a, b, k, rows)
      {
        ColumnsOk(a, p);
        ColumnsOk(b, p);
        var acc := TensorRow(Column(a, p), Column(b, p), k, a.n, a.chain[p]);
        TensorRowsSnoc(a, b, k, rows, acc);
        rows := rows + [acc];
      }
      c := c + [rows];
    }
    hide Eqv, Mul, Plain;
    var ct := Ct(a.n, a.chain, np, c);
    TensorValid(a, b, ct);
    forall p: nat, s: Poly | p < np && |s| == a.n
      ensures Eqv(Plain(ct, s, p), Mul(Plain(a, s, p), Plain(b, s, p)), a.chain[p])
    {
      TensorAt(a, b, ct, p, s);
    }
    r := Ok(ct);
  }

  lemma ColumnsOk(ct: Ct, p: nat)
    requires Valid(ct) && p < ct.nprimes
    ensures ct.n > 0 && p < |ct.chain| && 1 < ct.chain[p] < TOP
    ensures ColumnOk(Column(ct, p), ct.n, ct.chain[p])
  {
    forall k | 0 <= k < |ct.c| ensures RowOk(ct.c[k][p], ct.n, ct.chain[p]) {}
  }

  /** The rows of component k, one for each of the first |rows| primes. */
  ghost predicate TensorRows(a: Ct, b: Ct, k: nat, rows: seq<Row>)
    requires Valid(a) && Valid(b) && Compatible(a, b) && a.nprimes == b.nprimes && |rows| <= a.nprimes
  {
    forall p | 0 <= p < |rows| ::
      rows[p] == Red(ConvColumns(a, b, k, p), a.chain[p])
  }

  ghost function ConvColumns(a: Ct, b: Ct, k: nat, p: nat): (r: Poly)
    requires Valid(a) && Valid(b) && Compatible(a, b) && a.nprimes == b.nprimes && p < a.nprimes
    ensures |r| == a.n
  {
    ColumnsOk(a, p);
    ColumnsOk(b, p);
    Conv(Column(a, p), Column(b, p), k, |a.c|, a.n)
  }

  lemma NoTensorRows(a: Ct, b: Ct, k: nat)
    requires Valid(a) && Valid(b) && Compatible(a, b) && a.nprimes == b.nprimes
    ensures TensorRows(a, b, k, [])
    ensures a.n > 0 && a.nprimes <= |a.chain| && a.chain == b.chain && a.n == b.n
  {}

  lemma TensorRowsSnoc(a: Ct, b: Ct, k: nat, rows: seq<Row>, acc: Row)
    requires Valid(a) && Valid(b) && Compatible(a, b) && a.nprimes == b.nprimes
    requires |rows| < a.nprimes && TensorRows(a, b, k, rows)
    requires acc == Red(ConvColumns(a, b, k, |rows|), a.chain[|rows|])
    ensures TensorRows(a, b, k, rows + [acc])
  {
    hide ConvColumns, Red;
  }

  lemma TensorValid(a: Ct, b: Ct, ct: Ct)
    requires Valid(a) && Valid(b) && Compatible(a, b) && a.nprimes == b.nprimes
    requires ct.n == a.n && ct.chain == a.chain && ct.nprimes == a.nprimes && |ct.c| > 0
    requires forall j | 0 <= j < |ct.c| :: |ct.c[j]| == a.nprimes && TensorRows(a, b, j, ct.c[j])
    ensures Valid(ct)
  {
    hide ConvColumns, Red;
    forall j, p | 0 <= j < |ct.c| && 0 <= p < a.nprimes ensures RowOk(ct.c[j][p], a.n, a.chain[p]) {
      RedOk(ConvColumns(a, b, j, p), a.chain[p]);
    }
    assert forall j | 0 <= j < |ct.c| :: RowsOk(ct.c[j], a.n, a.chain, a.nprimes);
  }

  lemma TensorAt(a: Ct, b: Ct, ct: Ct, p: nat, s: Poly)
    requires Valid(a) && Valid(b) && Compatible(a, b) && a.nprimes == b.nprimes
    requires Valid(ct) && Compatible(ct, a) && ct.nprimes == a.nprimes && |ct.c| == |a.c| + |b.c| - 1
    requires forall j | 0 <= j < |ct.c| :: |ct.c[j]| == a.nprimes && TensorRows(a, b, j, ct.c[j])
    requires p < a.nprimes && |s| == a.n
    ensures Eqv(Plain(ct, s, p), Mul(Plain(a, s, p), Plain(b, s, p)), a.chain[p])
  {
    hide Eval, Apply, Conv, Red, Eqv;
    ColumnsOk(a, p);
    ColumnsOk(b, p);
    ColumnsOk(ct, p);
    TensorPlain(Column(a, p), Column(b, p), Column(ct, p), s, a.chain[p]);
  }

  lemma TensorPlain(a: seq<Row>, b: seq<Row>, t: seq<Row>, s: Poly, q: nat)
    requires |s| > 0 && q > 1 && Sized(a, |s|) && Sized(b, |s|) && Sized(t, |s|) && |a| > 0
    requires |t| == |a| + |b| - 1
    requires forall k | 0 <= k < |t| :: t[k] == Red(Conv(a, b, k, |a|, |s|), q)
    ensures Eqv(Eval(t, s), Mul(Eval(a, s), Eval(b, s)), q)
  {
    hide Eval, Apply, Conv;
    var exact := ConvList(a, b, |a|, |t|, |s|);
    forall k | 0 <= k < |t| ensures Eqv(t[k], exact[k], q) {
      RedOk(exact[k], q);
    }
    EvalEqv(t, exact, s, q);
    EvalTensor(a, b, |a|, |t|, s);
    assert a[..|a|] == a;
  }

  // ----- key switching -----

  /** Digit d of the key decrypts to BASE^d * target, at each of the first np primes. */
  ghost predicate KeyFor(key: SwitchKey, target: Poly, s: Poly, chain: seq<nat>, np: nat)
    requires np <= |chain| && ChainOk(chain)
  {
    && |key.k0| == DIGITS && |key.k1| == DIGITS && |target| == |s| > 0
    && forall d | 0 <= d < DIGITS ::
         && |key.k0[d]| >= np && |key.k1[d]| >= np
         && forall p | 0 <= p < np :: KeyRow(key.k0[d][p], key.k1[d][p], Scale(Power(d), target), s, chain[p])
  }

  ghost predicate KeyRow(k0: Row, k1: Row, target: Poly, s: Poly, q: nat)
    requires |target| == |s| > 0 && q > 0
  {
    RowOk(k0, |s|, q) && RowOk(k1, |s|, q) && Eqv(Add(k0, Mul(s, k1)), target, q)
  }

  function Power(d: nat): (r: nat)
    ensures r > 0
  {
    if d == 0 then 1 else BASE * Power(d - 1)
  }

  function Low(c: Row, d: nat): (r: Poly)
    ensures |r| == |c|
  {
    seq(|c|, i requires 0 <= i < |c| => c[i] % Power(d))
  }

  /** One 20-bit digit of every coefficient. */
  method Digit(c: Row, d: nat) returns (dig: Row)
    requires d < DIGITS
    ensures |dig| == |c| && Canonical(dig, BASE)
    ensures Low(c, d + 1) == Add(Low(c, d), Scale(Power(d), dig))
  {
    var buf := new nat[|c|](_ => 0);
    for i := 0 to |c|
      invariant forall k | 0 <= k < i :: buf[k] == (c[k] / Power(d)) % BASE
    {
      buf[i] := (c[i] / Power(d)) % BASE;
    }
    dig := buf[..];
    forall i | 0 <= i < |c| ensures c[i] % Power(d + 1) == c[i] % Power(d) + Power(d) * dig[i] {
      DigitStep(c[i], Power(d));
    }
  }

  lemma DigitStep(x: nat, w: nat)
    requires w > 0
    ensures BASE * w > 0
    ensures x % (BASE * w) == x % w + w * ((x / w) % BASE)
  {
    DigitSplit(x, w, BASE, x / w, (x / w) / BASE, (x / w) % BASE);
  }

  lemma DigitSplit(x: nat, w: nat, b: nat, y: nat, q: nat, d: nat)
    requires w > 0 && b > 0 && y == x / w && q == y / b && d == y % b
    ensures b * w > 0
    ensures x % (b * w) == x % w + w * d
  {
    DivBack(x, w);
    DivBack(y, b);
    Distribute(w, b, q, d);
    LeProduct(w, d, b - 1);
    assert w * (b - 1) == b * w - w;
    DivUnique(x, b * w, q, w * d + x % w);
  }

  lemma DivBack(x: nat, w: nat)
    requires w > 0
    ensures x == w * (x / w) + x % w && 0 <= x % w < w
  {}

  lemma Distribute(w: nat, b: nat, q: nat, d: nat)
    requires w > 0 && b > 0
    ensures b * w > 0 && w * (b * q + d) == (b * w) * q + w * d
  {
    assert w * (b * q) == (b * w) * q;
  }

  lemma LowAll(c: Row)
    requires Canonical(c, TOP)
    ensures Low(c, DIGITS) == c && Low(c, 0) == Zero(|c|)
  {
    assert Power(1) == BASE && Power(2) == BASE * BASE && Power(3) == TOP;
    forall i | 0 <= i < |c| ensures c[i] % Power(3) == c[i] && c[i] % Power(0) == 0 {
      ModSmall(c[i], TOP);
    }
  }

  /** Adding digit * (k0, k1) to a pair adds BASE^d * digit * target to what it decrypts to. */
  lemma SwitchStep(o0: Poly, o1: Poly, dig: Poly, k0: Poly, k1: Poly, s: Poly, target: Poly, w: int, q: int)
    requires |s| == |o0| == |o1| == |dig| == |k0| == |k1| == |target| > 0 && q > 0
    requires Eqv(Add(k0, Mul(s, k1)), Scale(w, target), q)
    ensures Eqv(Add(Add(o0, Mul(dig, k0)), Mul(s, Add(o1, Mul(dig, k1)))),
                Add(Add(o0, Mul(s, o1)), Mul(target, Scale(w, dig))), q)
  {
    hide Apply, Eqv;
    MulAdd(s, o1, Mul(dig, k1));
    MulLeft(s, dig, k1);
    AddSwap(o0, Mul(dig, k0), Mul(s, o1), Mul(dig, Mul(s, k1)));
    MulAdd(dig, k0, Mul(s, k1));
    EqvSelf(dig, q);
    EqvMul(dig, dig, Add(k0, Mul(s, k1)), Scale(w, target), q);
    MulScale(w, dig, target);
    MulScale(w, target, dig);
    MulComm(dig, target);
    EqvSelf(Add(o0, Mul(s, o1)), q);
    EqvAdd(Add(o0, Mul(s, o1)), Add(o0, Mul(s, o1)), Mul(dig, Add(k0, Mul(s, k1))), Mul(dig, Scale(w, target)), q);
  }

  /** Switch c from the key `target` to the key s, adding it to the pair (o0, o1). */
  method SwitchRow(o0: Row, o1: Row, c: Row, key: SwitchKey, p: nat, q: nat, ghost s: Poly, ghost target: Poly)
    returns (r0: Row, r1: Row)
    requires |s| == |target| > 0 && 1 < q && 2 * q <= U64
    requires RowOk(o0, |s|, q) && RowOk(o1, |s|, q) && RowOk(c, |s|, q) && BASE <= q < TOP
    requires |key.k0| == DIGITS && |key.k1| == DIGITS
    requires forall d | 0 <= d < DIGITS ::
      && p < |key.k0[d]| && p < |key.k1[d]|
      && KeyRow(key.k0[d][p], key.k1[d][p], Scale(Power(d), target), s, q)
    ensures RowOk(r0, |s|, q) && RowOk(r1, |s|, q)
    ensures Eqv(Add(r0, Mul(s, r1)), Add(Add(o0, Mul(s, o1)), Mul(target, c)), q)
  {
    hide Apply, Eqv, Power, Low, Red, Canonical;
    r0, r1 := o0, o1;
    ghost var base := Add(o0, Mul(s, o1));
    assert Canonical(c, TOP) by { CanonicalUp(c, q, TOP); }
    LowAll(c);
    MulZero(target);
    AddZero(base);
    EqvSelf(base, q);
    for d := 0 to DIGITS
      invariant RowOk(r0, |s|, q) && RowOk(r1, |s|, q)
      invariant Eqv(Add(r0, Mul(s, r1)), Add(base, Mul(target, Low(c, d))), q)
    {
      assert KeyRow(key.k0[d][p], key.k1[d][p], Scale(Power(d), target), s, q);
      var dig := Digit(c, d);
      CanonicalUp(dig, BASE, q);
      ghost var k0, k1 := key.k0[d][p], key.k1[d][p];
      ghost var p0, p1 := r0, r1;
      var t0 := PolyMul(dig, key.k0[d][p], q);
      var t1 := PolyMul(dig, key.k1[d][p], q);
      RedOk(Mul(dig, k0), q);
      RedOk(Mul(dig, k1), q);
      r0 := AddPoly(r0, t0, q);
      r1 := AddPoly(r1, t1, q);
      PairStep(p0, p1, t0, t1, r0, r1, Mul(dig, k0), Mul(dig, k1), s, q);
      SwitchStep(p0, p1, dig, k0, k1, s, target, Power(d), q);
      ghost var cur, term := Add(p0, Mul(s, p1)), Scale(Power(d), dig);
      SwitchSum(base, cur, target, Low(c, d), term, q);
      EqvTrans(Add(r0, Mul(s, r1)), Add(Add(p0, Mul(dig, k0)), Mul(s, Add(p1, Mul(dig, k1)))),
               Add(cur, Mul(target, term)), q);
      EqvTrans(Add(r0, Mul(s, r1)), Add(cur, Mul(target, term)), Add(base, Mul(target, Low(c, d + 1))), q);
    }
  }

  lemma SwitchSum(base: Poly, cur: Poly, target: Poly, low: Poly, term: Poly, q: int)
    requires q > 0 && |base| == |cur| == |target| == |low| == |term| > 0
    requires Eqv(cur, Add(base, Mul(target, low)), q)
    ensures Eqv(Add(cur, Mul(target, term)), Add(base, Mul(target, Add(low, term))), q)
  {
    hide Apply, Eqv;
    var grown := Mul(target, term);
    MulAdd(target, low, term);
    AddAssoc(base, Mul(target, low), grown);
    EqvSelf(grown, q);
    EqvAdd(cur, Add(base, Mul(target, low)), grown, grown, q);
  }

  /** Reducing the two sums does not change what the pair decrypts to modulo q. */
  lemma PairStep(p0: Poly, p1: Poly, t0: Poly, t1: Poly, r0: Poly, r1: Poly, m0: Poly, m1: Poly, s: Poly, q: int)
    requires q > 0 && |s| == |p0| == |p1| == |t0| == |t1| == |m0| == |m1| > 0
    requires Eqv(t0, m0, q) && Eqv(t1, m1, q)
    requires r0 == Red(Add(p0, t0), q) && r1 == Red(Add(p1, t1), q)
    ensures Canonical(r0, q) && Canonical(r1, q) && |r0| == |s| && |r1| == |s|
    ensures Eqv(Add(r0, Mul(s, r1)), Add(Add(p0, m0), Mul(s, Add(p1, m1))), q)
  {
    RedOk(Add(p0, t0), q);
    RedOk(Add(p1, t1), q);
    hide Apply, Eqv, Red;
    EqvSelf(p0, q);
    EqvSelf(p1, q);
    EqvSelf(s, q);
    EqvAdd(p0, p0, t0, m0, q);
    EqvAdd(p1, p1, t1, m1, q);
    EqvTrans(r0, Add(p0, t0), Add(p0, m0), q);
    EqvTrans(r1, Add(p1, t1), Add(p1, m1), q);
    EqvMul(s, s, r1, Add(p1, m1), q);
    EqvAdd(r0, Add(p0, m0), Mul(s, r1), Mul(s, Add(p1, m1)), q);
  }
}
