/** Ciphertext multiplication: a tensor product modulo q^2, rescaled by t/q coefficient by coefficient. */
module BfvMult {
  import opened Residues
  import opened Ring
  import opened Rows
  import opened Evaluation
  import opened Goldilocks
  import opened Bfv

  // ----- the negacyclic convolution modulo q^2 -----

  /** Coefficient k gathers a[i] * b[j] over i + j == k and, negated, over i + j == k + n. */
  method ConvCoef(a: Row, b: Row, k: nat) returns (acc: nat)
    requires k < |a| == |b| && Canonical(a, Q) && Canonical(b, Q)
    ensures acc == Mul(a, b)[k] % Q2
  {
    hide Apply, ShiftN, AddQ2, SubQ2;
    var n := |a|;
    acc := 0;
    NoCoef(a, b, k);
    for i := 0 to n
      invariant acc == Mul(a[..i], b)[k] % Q2
    {
      var j, neg := k + n - i, true;
      if i <= k { j, neg := k - i, false; }
      assert j == Source(k, i, n);
      CoefStep(a, b, i, k);
      assert 0 <= a[i] < Q && 0 <= b[j] < Q;
      GatherStep(Mul(a[..i], b)[k], acc, a[i], b[j], neg);
      if a[i] != 0 && b[j] != 0 {
        var prod := a[i] * b[j];
        acc := if neg then SubQ2(acc, prod) else AddQ2(acc, prod);
      }
    }
    assert a[..n] == a;
  }

  lemma NoCoef(a: Row, b: Row, k: nat)
    requires k < |b|
    ensures Mul(a[..0], b)[k] == 0 && 0 % Q2 == 0
  {
    assert a[..0] == [];
    ModSmall(0, Q2);
  }

  lemma CoefStep(a: Poly, b: Poly, i: nat, k: nat)
    requires |a| == |b| && i < |a| && k < |a|
    ensures Mul(a[..i + 1], b)[k] == Mul(a[..i], b)[k] + (if k >= i then a[i] else -a[i]) * b[Source(k, i, |a|)]
  {
    hide Apply, ShiftN;
    TakeSnoc(a, i);
    ApplySnoc(a[..i], a[i], b, 1);
    RowAt(b, i, a[i]);
  }

  lemma GatherStep(x: int, acc: nat, u: int, v: int, neg: bool)
    requires 0 <= u < Q && 0 <= v < Q && acc == x % Q2
    ensures 0 <= u * v < Q2 && acc < Q2
    ensures (if neg then acc - u * v else acc + u * v) % Q2 == (x + (if neg then -u else u) * v) % Q2
    ensures u == 0 || v == 0 ==> acc == (x + (if neg then -u else u) * v) % Q2
  {
    ProductBelow(u, v, Q);
    ModMod(x, Q2);
    ModAdd(acc, x, u * v, u * v, Q2);
    assert -u * v == -(u * v);
    assert u == 0 || v == 0 ==> u * v == 0;
  }

  method ConvQ2(a: Row, b: Row) returns (c: Row)
    requires |a| == |b| > 0 && Canonical(a, Q) && Canonical(b, Q)
    ensures c == Red(Mul(a, b), Q2)
  {
    hide Apply;
    var buf := new nat[|a|](_ => 0);
    for k := 0 to |a|
      invariant forall i | 0 <= i < k :: buf[i] == Mul(a, b)[i] % Q2
    {
      var x := ConvCoef(a, b, k);
      buf[k] := x;
    }
    c := buf[..];
  }

  method AddRowQ2(a: Row, b: Row) returns (c: Row)
    requires |a| == |b| && Canonical(a, Q2) && Canonical(b, Q2)
    ensures c == Red(Add(a, b), Q2)
  {
    var buf := new nat[|a|](_ => 0);
    for i := 0 to |a|
      invariant forall k | 0 <= k < i :: buf[k] == (a[k] + b[k]) % Q2
    {
      buf[i] := AddQ2(a[i], b[i]);
    }
    c := buf[..];
  }

  // ----- tensor and rescale -----

  method TensorQ2(a: seq<Row>, b: seq<Row>, k: nat, n: nat) returns (acc: Row)
    requires n > 0 && ColumnQ(a, n) && ColumnQ(b, n)
    ensures acc == Red(Conv(a, b, k, |a|, n), Q2)
  {
    hide Apply, ShiftN, Red, Mul, Canonical;
    acc := seq(n, _ => 0);
    RedZero(n, Q2);
    for i := 0 to |a|
      invariant acc == Red(Conv(a, b, k, i, n), Q2)
    {
      if 0 <= k - i < |b| {
        var tmp := ConvQ2(a[i], b[k - i]);
        RedSum(Conv(a, b, k, i, n), Mul(a[i], b[k - i]), Q2);
        acc := AddRowQ2(acc, tmp);
      }
    }
  }

  /** Every coefficient of x, taken modulo q^2, scaled by t/q and rounded, modulo q. */
  function Rounded(x: Poly): (r: Row)
    ensures |r| == |x|
  {
    seq(|x|, i requires 0 <= i < |x| => Rescaled(x[i] % Q2) % Q)
  }

  method RescaleRow(acc: Row, ghost x: Poly) returns (c: Row)
    requires acc == Red(x, Q2)
    ensures c == Rounded(x)
  {
    hide RescaleQ2, Rescaled;
    var buf := new nat[|acc|](_ => 0);
    for i := 0 to |acc|
      invariant forall k | 0 <= k < i :: buf[k] == Rescaled(x[k] % Q2) % Q
    {
      buf[i] := RescaleQ2(acc[i]);
    }
    c := buf[..];
  }

  /** The first |c| components of the rescaled tensor product. */
  ghost predicate IsProduct(a: Ct, b: Ct, c: seq<Row>)
    requires Valid(a) && Valid(b) && a.n == b.n
  {
    forall k | 0 <= k < |c| :: c[k] == Rounded(Conv(a.c, b.c, k, |a.c|, a.n))
  }

  lemma {:induction false} ProductSnoc(a: Ct, b: Ct, c: seq<Row>, row: Row)
    requires Valid(a) && Valid(b) && a.n == b.n && IsProduct(a, b, c)
    requires row == Rounded(Conv(a.c, b.c, |c|, |a.c|, a.n))
    ensures IsProduct(a, b, c + [row])
  {
    hide Rounded, Conv, ColumnQ;
  }

  method Mult(a: Ct, b: Ct) returns (r: Result<Ct>)
    requires WellFormed(a) && WellFormed(b) && a.n == b.n
    ensures r.Err? <==> |a.c| < 2 || |b.c| < 2 || |a.c| + |b.c| - 1 > MAX_COMP
    ensures r.Ok? ==> Valid(r.value) && r.value.n == a.n && |r.value.c| == |a.c| + |b.c| - 1
    ensures r.Ok? ==> IsProduct(a, b, r.value.c)
  {
    if |a.c| < 2 || |b.c| < 2 { return Err; }
    var comps := |a.c| + |b.c| - 1;
    if comps > MAX_COMP { return Err; }
    hide Conv, Rounded, Red;
    var c: seq<Row> := [];
    for k := 0 to comps
      invariant |c| == k && IsProduct(a, b, c)
    {
      var acc := TensorQ2(a.c, b.c, k, a.n);
      var row := RescaleRow(acc, Conv(a.c, b.c, k, |a.c|, a.n));
      ProductSnoc(a, b, c, row);
      c := c + [row];
    }
    ProductValid(a, b, c);
    r := Ok(Ct(a.n, c));
  }

  lemma ProductValid(a: Ct, b: Ct, c: seq<Row>)
    requires Valid(a) && Valid(b) && a.n == b.n && IsProduct(a, b, c)
    ensures ColumnQ(c, a.n)
  {
    hide Conv, Rescaled;
    forall k | 0 <= k < |c| ensures |c[k]| == a.n && Canonical(c[k], Q) {
      var x := Conv(a.c, b.c, k, |a.c|, a.n);
      assert forall i | 0 <= i < |c[k]| :: c[k][i] == Rescaled(x[i] % Q2) % Q;
    }
  }

  // ----- what rescaling means modulo q^2 -----

  /** The rounding error of one coefficient, in units of 1/q. */
  function RoundOff(x: Poly): (r: Poly)
    ensures |r| == |x|
  {
    seq(|x|, i requires 0 <= i < |x| => Q * Rescaled(x[i] % Q2) - T * (x[i] % Q2))
  }

  /** q times the rescaled polynomial is t times the polynomial, off by at most q/2. */
  lemma RoundedIs(x: Poly)
    ensures Norms.Bounded(RoundOff(x), HALF)
    ensures Eqv(Scale(Q, Rounded(x)), Add(Scale(T, x), Scale(1, RoundOff(x))), Q2)
  {
    forall i | 0 <= i < |x|
      ensures -HALF <= RoundOff(x)[i] <= HALF
      ensures (Q * Rounded(x)[i]) % Q2 == (T * x[i] + 1 * RoundOff(x)[i]) % Q2
    {
      RescaledIs(x[i]);
    }
  }

  lemma RescaledIs(x: int)
    ensures var y := x % Q2;
            && -HALF <= Q * Rescaled(y) - T * y <= HALF
            && (Q * (Rescaled(y) % Q)) % Q2 == (T * x + (Q * Rescaled(y) - T * y)) % Q2
  {
    var y := x % Q2;
    var r := Rescaled(y);
    assert T * y + HALF == Q * r + (T * y + HALF) % Q;
    ModMod(x, Q2);
    ModMul(T, T, x, y, Q2);
    ModAdd(T * x, T * y, Q * r - T * y, Q * r - T * y, Q2);
    assert r == (r / Q) * Q + r % Q;
    assert Q * r == Q * (r % Q) + (r / Q) * Q2;
    ModShift(Q * (r % Q), r / Q, Q2);
  }
}
