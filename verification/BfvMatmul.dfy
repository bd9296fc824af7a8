/** A vector of ciphertexts times a plaintext matrix. */
module BfvMatmul {
  import opened Residues
  import opened Ring
  import opened Rows
  import opened Norms
  import opened Evaluation
  import opened Goldilocks
  import opened Bfv
  import opened BfvNoise

  /** The longest vector whose accumulated noise still decodes. */
  const MAX_VEC: nat := 7_600_000

  /** A signed entry as an unsigned scalar: t is added once, in 32 bits. */
  function Weight(v: int): (w: nat)
  {
    W32(if v < 0 then v + T else v)
  }

  /** The entries that fit are those in [-t, t); their scalars stand for them modulo t. */
  lemma WeightOk(v: int)
    requires -(U32 / 2) <= v < U32 / 2
    ensures Weight(v) < T <==> -T <= v < T
    ensures -T <= v < T ==> Weight(v) % T == v % T
  {
    var x := if v < 0 then v + T else v;
    if x < 0 { DivUnique(x, U32, -1, x + U32); } else { ModSmall(x, U32); }
    if v < 0 { ModShift(v, 1, T); }
  }

  ghost predicate Entries(ws: seq<int>) {
    forall i | 0 <= i < |ws| :: -(U32 / 2) <= ws[i] < U32 / 2
  }

  ghost predicate Fits(ws: seq<int>) {
    forall i | 0 <= i < |ws| :: -T <= ws[i] < T
  }

  ghost predicate SameRing(ins: seq<Ct>, n: nat) {
    forall i | 0 <= i < |ins| :: WellFormed(ins[i]) && ins[i].n == n
  }

  ghost predicate AllPairs(ins: seq<Ct>) {
    forall i | 0 <= i < |ins| :: 2 <= |ins[i].c|
  }

  /** The sum of the first k weighted polynomials. */
  ghost function Weighted(ws: seq<int>, ps: seq<Poly>, n: nat, k: nat): (r: Poly)
    requires k <= |ws| == |ps| && Sized(ps, n)
    ensures |r| == n
  {
    if k == 0 then Zero(n) else Add(Weighted(ws, ps, n, k - 1), Scale(Weight(ws[k - 1]), ps[k - 1]))
  }

  /** What the inputs decrypt to under s. */
  ghost function Values(ins: seq<Ct>, s: Poly): (r: seq<Poly>)
    requires |s| > 0 && SameRing(ins, |s|)
    ensures |r| == |ins| && Sized(r, |s|)
  {
    seq(|ins|, i requires 0 <= i < |ins| => Eval(ins[i].c, s))
  }

  ghost function Value(ct: Ct, s: Poly): (r: Poly)
    requires WellFormed(ct) && |s| == ct.n
    ensures |r| == |s|
  {
    Eval(ct.c, s)
  }

  /** r decrypts, under every secret, to the weighted sum of what the first k inputs decrypt to. */
  ghost predicate Combines(r: Ct, ins: seq<Ct>, ws: seq<int>, k: nat)
    requires WellFormed(r) && SameRing(ins, r.n) && k <= |ws| == |ins|
  {
    forall s: Poly {:trigger CombinesAt(r, ins, ws, k, s)} | |s| == r.n :: CombinesAt(r, ins, ws, k, s)
  }

  ghost predicate CombinesAt(r: Ct, ins: seq<Ct>, ws: seq<int>, k: nat, s: Poly)
    requires WellFormed(r) && SameRing(ins, r.n) && k <= |ws| == |ins| && |s| == r.n
  {
    Eqv(Value(r, s), Weighted(ws, Values(ins, s), r.n, k), Q)
  }

  lemma RingAt(ins: seq<Ct>, n: nat, i: nat)
    requires SameRing(ins, n) && i < |ins|
    ensures WellFormed(ins[i]) && ins[i].n == n
  {}

  lemma {:induction false} CombinesFirst(r: Ct, ins: seq<Ct>, ws: seq<int>)
    requires WellFormed(r) && SameRing(ins, r.n) && |ws| == |ins| > 0 && Scales(r, ins[0], Weight(ws[0]))
    ensures Combines(r, ins, ws, 1)
  {
    hide Eval, Eqv, WellFormed, SameRing, Weighted, Values, Weight;
    RingAt(ins, r.n, 0);
    forall s: Poly | |s| == r.n ensures CombinesAt(r, ins, ws, 1, s) {
      assert Eqv(Value(r, s), Scale(Weight(ws[0]), Value(ins[0], s)), Q);
      FirstTerm(ins, ws, s);
    }
  }

  lemma {:induction false} FirstTerm(ins: seq<Ct>, ws: seq<int>, s: Poly)
    requires |s| > 0 && SameRing(ins, |s|) && |ws| == |ins| > 0
    ensures Weighted(ws, Values(ins, s), |s|, 1) == Scale(Weight(ws[0]), Value(ins[0], s))
  {
    hide Eval, Weight;
    assert Weighted(ws, Values(ins, s), |s|, 0) == Zero(|s|);
    AddZero(Scale(Weight(ws[0]), Value(ins[0], s)));
  }

  lemma {:induction false} CombinesNext(acc: Ct, tmp: Ct, nxt: Ct, ins: seq<Ct>, ws: seq<int>, i: nat)
    requires WellFormed(acc) && WellFormed(tmp) && WellFormed(nxt) && acc.n == tmp.n == nxt.n
    requires SameRing(ins, acc.n) && |ws| == |ins| && i < |ins|
    requires Combines(acc, ins, ws, i) && Scales(tmp, ins[i], Weight(ws[i])) && Sums(nxt, acc, tmp)
    ensures Combines(nxt, ins, ws, i + 1)
  {
    hide Eval, Eqv, WellFormed, SameRing, Weighted, Values, Weight, Add, Scale;
    RingAt(ins, acc.n, i);
    forall s: Poly | |s| == nxt.n ensures CombinesAt(nxt, ins, ws, i + 1, s) {
      assert CombinesAt(acc, ins, ws, i, s);
      assert Eqv(Value(tmp, s), Scale(Weight(ws[i]), Value(ins[i], s)), Q);
      assert Eqv(Value(nxt, s), Add(Value(acc, s), Value(tmp, s)), Q);
      NextTerm(Value(acc, s), Value(tmp, s), Value(nxt, s), ins, ws, s, i);
    }
  }

  lemma {:induction false} NextTerm(acc: Poly, tmp: Poly, nxt: Poly, ins: seq<Ct>, ws: seq<int>, s: Poly, i: nat)
    requires |s| > 0 && SameRing(ins, |s|) && |ws| == |ins| && i < |ins| && |acc| == |tmp| == |nxt| == |s|
    requires Eqv(acc, Weighted(ws, Values(ins, s), |s|, i), Q)
    requires Eqv(tmp, Scale(Weight(ws[i]), Value(ins[i], s)), Q) && Eqv(nxt, Add(acc, tmp), Q)
    ensures Eqv(nxt, Weighted(ws, Values(ins, s), |s|, i + 1), Q)
  {
    hide Eval, Eqv, Add, Scale, Weight;
    var before, term := Weighted(ws, Values(ins, s), |s|, i), Scale(Weight(ws[i]), Value(ins[i], s));
    EqvAdd(acc, before, tmp, term, Q);
    EqvTrans(nxt, Add(acc, tmp), Add(before, term), Q);
  }

  // ----- the loops -----

  /** Row i, column j of a matrix stored row by row. */
  function Entry(mat: seq<int>, nvec: nat, ncol: nat, i: nat, j: nat): int
    requires |mat| == nvec * ncol && i < nvec && j < ncol
  {
    InRow(nvec, ncol, i, j);
    mat[i * ncol + j]
  }

  function Col(mat: seq<int>, nvec: nat, ncol: nat, j: nat): (r: seq<int>)
    requires |mat| == nvec * ncol && j < ncol
    ensures |r| == nvec
  {
    seq(nvec, i requires 0 <= i < nvec => Entry(mat, nvec, ncol, i, j))
  }

  /** A matrix given as rows, stored one after the other. */
  function Flat(rows: seq<seq<int>>): (mat: seq<int>) {
    if rows == [] then [] else Flat(rows[..|rows| - 1]) + rows[|rows| - 1]
  }

  ghost predicate Rectangle(rows: seq<seq<int>>, ncol: nat) {
    forall i | 0 <= i < |rows| :: |rows[i]| == ncol
  }

  lemma {:induction false} FlatSize(rows: seq<seq<int>>, ncol: nat)
    requires Rectangle(rows, ncol)
    ensures |Flat(rows)| == |rows| * ncol
  {
    if rows != [] {
      var init := rows[..|rows| - 1];
      FlatSize(init, ncol);
      OneMore(|init|, ncol);
    }
  }

  lemma OneMore(n: nat, m: nat)
    ensures n * m + m == (n + 1) * m
  {}

  /** Entry (i, j) of the stored matrix is entry j of row i. */
  lemma {:induction false} FlatAt(rows: seq<seq<int>>, ncol: nat, i: nat, j: nat)
    requires Rectangle(rows, ncol) && i < |rows| && j < ncol
    ensures |Flat(rows)| == |rows| * ncol && Entry(Flat(rows), |rows|, ncol, i, j) == rows[i][j]
  {
    var last := |rows| - 1;
    var init := rows[..last];
    FlatSize(rows, ncol);
    FlatSize(init, ncol);
    InRow(|rows|, ncol, i, j);
    if i < last {
      FlatAt(init, ncol, i, j);
      InRow(last, ncol, i, j);
    } else {
      assert Flat(rows) == Flat(init) + rows[last];
    }
  }

  /** Every entry of the matrix lies in some column. */
  lemma ColumnsFit(mat: seq<int>, nvec: nat, ncol: nat)
    requires |mat| == nvec * ncol
    ensures (forall j: nat | j < ncol :: Fits(Col(mat, nvec, ncol, j))) <==> Fits(mat)
  {
    if Fits(mat) {
      forall j: nat | j < ncol ensures Fits(Col(mat, nvec, ncol, j)) {
        forall i | 0 <= i < nvec ensures -T <= Col(mat, nvec, ncol, j)[i] < T { EntryIn(mat, nvec, ncol, i, j); }
      }
    }
    if forall j: nat | j < ncol :: Fits(Col(mat, nvec, ncol, j)) {
      forall x | 0 <= x < |mat| ensures -T <= mat[x] < T {
        var i, j := Place(nvec, ncol, x);
        assert Fits(Col(mat, nvec, ncol, j)) && Col(mat, nvec, ncol, j)[i] == Entry(mat, nvec, ncol, i, j);
      }
    }
  }

  lemma Fewer(i: nat, n: nat, m: nat)
    requires i * m < n * m
    ensures i < n
  {
    assert (n - i) * m > 0;
  }

  lemma Place(nvec: nat, ncol: nat, x: nat) returns (i: nat, j: nat)
    requires x < nvec * ncol
    ensures i < nvec && j < ncol && x == i * ncol + j
  {
    i, j := x / ncol, x % ncol;
    assert x == ncol * i + j;
    Fewer(i, nvec, ncol);
  }

  lemma ColEntries(mat: seq<int>, nvec: nat, ncol: nat, j: nat)
    requires |mat| == nvec * ncol && j < ncol && Entries(mat)
    ensures Entries(Col(mat, nvec, ncol, j))
  {
    hide Entry;
    forall i | 0 <= i < nvec ensures -(U32 / 2) <= Entry(mat, nvec, ncol, i, j) < U32 / 2 {
      EntryIn(mat, nvec, ncol, i, j);
    }
  }

  lemma EntryIn(mat: seq<int>, nvec: nat, ncol: nat, i: nat, j: nat)
    requires |mat| == nvec * ncol && i < nvec && j < ncol
    ensures Entry(mat, nvec, ncol, i, j) in mat
  {
    InRow(nvec, ncol, i, j);
  }

  lemma InRow(nvec: nat, ncol: nat, i: nat, j: nat)
    requires i < nvec && j < ncol
    ensures 0 <= i * ncol + j < nvec * ncol
  {
    assert (i + 1) * ncol <= nvec * ncol;
  }

  /** One output: the first scaled input, then one scaled input added at a time. */
  method Column(ins: seq<Ct>, ws: seq<int>, n: nat) returns (r: Result<Ct>)
    requires |ins| == |ws| > 0 && SameRing(ins, n) && AllPairs(ins) && Entries(ws)
    ensures r.Err? <==> !Fits(ws)
    ensures r.Ok? ==> Valid(r.value) && r.value.n == n && Combines(r.value, ins, ws, |ins|)
  {
    hide Scales, Sums, Combines, Weight, ColumnQ;
    WeightOk(ws[0]);
    r := MulScalar(ins[0], Weight(ws[0]));
    if r.Err? { return; }
    CombinesFirst(r.value, ins, ws);
    for i := 1 to |ins|
      invariant r.Ok? && Valid(r.value) && r.value.n == n
      invariant forall k | 0 <= k < i :: -T <= ws[k] < T
      invariant Combines(r.value, ins, ws, i)
    {
      WeightOk(ws[i]);
      var tmp := MulScalar(ins[i], Weight(ws[i]));
      if tmp.Err? { return Err; }
      var nxt := AddCt(r.value, tmp.value);
      CombinesNext(r.value, tmp.value, nxt.value, ins, ws, i);
      r := nxt;
    }
  }

  method MatmulPlain(ins: seq<Ct>, mat: seq<int>, ncol: nat, n: nat) returns (r: Result<seq<Ct>>)
    requires SameRing(ins, n) && |mat| == |ins| * ncol && Entries(mat)
    ensures r.Err? <==> ins == [] || ncol == 0 || !AllPairs(ins) || !Fits(mat)
    ensures r.Ok? ==> |r.value| == ncol && AllColumns(r.value, ins, mat, ncol, n)
  {
    if ins == [] || ncol == 0 { return Err; }
    for i := 0 to |ins|
      invariant forall k | 0 <= k < i :: 2 <= |ins[k].c|
    {
      if |ins[i].c| < 2 { return Err; }
    }
    ColumnsFit(mat, |ins|, ncol);
    r := Columns(ins, mat, ncol, n);
  }

  /** The first |out| outputs. */
  ghost predicate AllColumns(out: seq<Ct>, ins: seq<Ct>, mat: seq<int>, ncol: nat, n: nat)
    requires SameRing(ins, n) && |mat| == |ins| * ncol && |out| <= ncol
  {
    forall j: nat | j < |out| ::
      Valid(out[j]) && out[j].n == n && Combines(out[j], ins, Col(mat, |ins|, ncol, j), |ins|)
  }

  method Columns(ins: seq<Ct>, mat: seq<int>, ncol: nat, n: nat) returns (r: Result<seq<Ct>>)
    requires SameRing(ins, n) && |mat| == |ins| * ncol && Entries(mat) && ins != [] && AllPairs(ins)
    ensures r.Err? <==> exists j: nat | j < ncol :: !Fits(Col(mat, |ins|, ncol, j))
    ensures r.Ok? ==> |r.value| == ncol && AllColumns(r.value, ins, mat, ncol, n)
  {
    hide Combines, Col, Fits, Entries, SameRing;
    var out: seq<Ct> := [];
    for j := 0 to ncol
      invariant |out| == j && AllColumns(out, ins, mat, ncol, n)
      invariant forall k: nat | k < j :: Fits(Col(mat, |ins|, ncol, k))
    {
      ColEntries(mat, |ins|, ncol, j);
      var acc := Column(ins, Col(mat, |ins|, ncol, j), n);
      if acc.Err? { return Err; }
      out := out + [acc.value];
    }
    r := Ok(out);
  }

  // ----- decryption of an output -----

  /** Coefficient i of the integer combination of the first k polynomials. */
  ghost function Dot(ws: seq<int>, ms: seq<Poly>, i: nat, n: nat, k: nat): int
    requires k <= |ws| == |ms| && Sized(ms, n) && i < n
  {
    if k == 0 then 0 else Dot(ws, ms, i, n, k - 1) + ws[k - 1] * ms[k - 1][i]
  }

  ghost predicate AllBounded(ps: seq<Poly>, b: int) {
    forall k | 0 <= k < |ps| :: Bounded(ps[k], b)
  }

  lemma {:induction false} WeightedBounded(ws: seq<int>, ps: seq<Poly>, n: nat, b: nat, k: nat)
    requires k <= |ws| == |ps| && Sized(ps, n) && AllBounded(ps, b) && Fits(ws) && Entries(ws)
    ensures Bounded(Weighted(ws, ps, n, k), k * (T * b))
  {
    hide Bounded, Add, Scale, Weight;
    if k == 0 {
      ZeroBounded(n);
    } else {
      var i := k - 1;
      WeightedBounded(ws, ps, n, b, i);
      WeightOk(ws[i]);
      ScaleBounded(Weight(ws[i]), ps[i], T, b);
      AddBounded(Weighted(ws, ps, n, i), Scale(Weight(ws[i]), ps[i]), i * (T * b), T * b);
      assert i * (T * b) + T * b == k * (T * b);
    }
  }

  /** Modulo t the weights stand for the signed entries. */
  lemma {:induction false} WeightedDot(ws: seq<int>, ms: seq<Poly>, n: nat, i: nat, k: nat)
    requires k <= |ws| == |ms| && Sized(ms, n) && Fits(ws) && Entries(ws) && i < n
    ensures Weighted(ws, ms, n, k)[i] % T == Dot(ws, ms, i, n, k) % T
  {
    hide Weight;
    if k > 0 {
      var j := k - 1;
      WeightedDot(ws, ms, n, i, j);
      WeightOk(ws[j]);
      ModMul(Weight(ws[j]), ws[j], ms[j][i], ms[j][i], T);
      ModAdd(Weighted(ws, ms, n, j)[i], Dot(ws, ms, i, n, j), Weight(ws[j]) * ms[j][i], ws[j] * ms[j][i], T);
    }
  }

  /** The inputs are fresh encryptions of ms under s. */
  ghost predicate AllFresh(ins: seq<Ct>, s: Poly, ms: seq<Poly>, es: seq<Poly>) {
    && |ins| == |ms| == |es| && |s| > 0 && SameRing(ins, |s|) && Sized(ms, |s|) && Sized(es, |s|)
    && forall k | 0 <= k < |ins| :: Fresh(ins[k], s, ms[k], es[k])
  }

  lemma {:induction false} AllFreshParts(ins: seq<Ct>, s: Poly, ms: seq<Poly>, es: seq<Poly>)
    requires AllFresh(ins, s, ms, es)
    ensures AllBounded(ms, T) && AllBounded(es, FRESH) && CarriesAll(Values(ins, s), ms, es, |s|)
  {
    hide Eval, Eqv, Bounded, Message, Add, Scale;
    forall k | 0 <= k < |ins| ensures Bounded(ms[k], T) {
      MessageSmall(ms[k]);
    }
  }

  ghost predicate CarriesAll(vs: seq<Poly>, ms: seq<Poly>, es: seq<Poly>, n: nat)
    requires |vs| == |ms| == |es| && Sized(vs, n) && Sized(ms, n) && Sized(es, n)
  {
    forall k | 0 <= k < |vs| :: Eqv(vs[k], Add(Scale(DELTA, ms[k]), es[k]), Q)
  }

  lemma {:induction false} WeightedCarries(ws: seq<int>, vs: seq<Poly>, ms: seq<Poly>, es: seq<Poly>, n: nat, k: nat)
    requires k <= |ws| == |vs| == |ms| == |es| && Sized(vs, n) && Sized(ms, n) && Sized(es, n)
    requires CarriesAll(vs, ms, es, n)
    ensures Eqv(Weighted(ws, vs, n, k), Add(Scale(DELTA, Weighted(ws, ms, n, k)), Weighted(ws, es, n, k)), Q)
  {
    hide Eqv, Weight;
    if k == 0 {
      assert Add(Scale(DELTA, Zero(n)), Zero(n)) == Zero(n);
      EqvSelf(Zero(n), Q);
    } else {
      hide Add, Scale;
      var i := k - 1;
      WeightedCarries(ws, vs, ms, es, n, i);
      CarryStep(Weighted(ws, vs, n, i), Weighted(ws, ms, n, i), Weighted(ws, es, n, i),
                vs[i], ms[i], es[i], Weight(ws[i]));
    }
  }

  lemma {:induction false} CarryStep(v: Poly, m: Poly, e: Poly, v': Poly, m': Poly, e': Poly, w: int)
    requires |v| == |m| == |e| == |v'| == |m'| == |e'|
    requires Eqv(v, Add(Scale(DELTA, m), e), Q) && Eqv(v', Add(Scale(DELTA, m'), e'), Q)
    ensures Eqv(Add(v, Scale(w, v')), Add(Scale(DELTA, Add(m, Scale(w, m'))), Add(e, Scale(w, e'))), Q)
  {
    hide Eqv;
    EqvScale(w, w, v', Add(Scale(DELTA, m'), e'), Q);
    EqvAdd(v, Add(Scale(DELTA, m), e), Scale(w, v'), Scale(w, Add(Scale(DELTA, m'), e')), Q);
    CarrySum(m, e, m', e', w);
  }

  lemma {:induction false} CarrySum(m: Poly, e: Poly, m': Poly, e': Poly, w: int)
    requires |m| == |e| == |m'| == |e'|
    ensures Add(Add(Scale(DELTA, m), e), Scale(w, Add(Scale(DELTA, m'), e')))
         == Add(Scale(DELTA, Add(m, Scale(w, m'))), Add(e, Scale(w, e')))
  {
    ScaleAdd(w, Scale(DELTA, m'), e');
    ScaleScale(w, DELTA, m');
    ScaleAdd(DELTA, m, Scale(w, m'));
    AddSwap(Scale(DELTA, m), e, Scale(DELTA, Scale(w, m')), Scale(w, e'));
  }

  /** The value of an output: delta times the combined message, plus the combined noise. */
  lemma {:induction false} OutputCarries(ins: seq<Ct>, ws: seq<int>, r: Ct, s: seq<int>, ms: seq<Poly>, es: seq<Poly>)
    requires AllFresh(ins, s, ms, es) && |ws| == |ins| && Entries(ws) && Fits(ws)
    requires Valid(r) && r.n == |s| && CombinesAt(r, ins, ws, |ins|, s)
    ensures Carries(r, s, Weighted(ws, ms, r.n, |ins|), Weighted(ws, es, r.n, |ins|))
    ensures Bounded(Weighted(ws, ms, r.n, |ins|), |ins| * (T * T))
    ensures Bounded(Weighted(ws, es, r.n, |ins|), |ins| * (T * FRESH))
  {
    hide Eval, Eqv, Weighted, Bounded, ColumnQ, Fresh, Values, Add, Scale;
    var n, k := r.n, |ins|;
    AllFreshParts(ins, s, ms, es);
    WeightedCarries(ws, Values(ins, s), ms, es, n, k);
    EqvTrans(Value(r, s), Weighted(ws, Values(ins, s), n, k),
             Add(Scale(DELTA, Weighted(ws, ms, n, k)), Weighted(ws, es, n, k)), Q);
    WeightedBounded(ws, ms, n, T, k);
    WeightedBounded(ws, es, n, FRESH, k);
  }

  /** Every output over fresh inputs decrypts to the integer matrix-vector product modulo t. */
  lemma {:induction false} MatmulDecrypts(ins: seq<Ct>, ws: seq<int>, r: Ct, s: seq<int>, ms: seq<Poly>, es: seq<Poly>, i: nat)
    requires AllFresh(ins, s, ms, es) && 0 < |ins| <= MAX_VEC && |ws| == |ins| && Entries(ws) && Fits(ws)
    requires Valid(r) && r.n == |s| && Combines(r, ins, ws, |ins|) && SecretOk(s, r.n) && i < r.n
    ensures Residue(Decoded(r, s, i)) == Dot(ws, ms, i, r.n, |ins|) % T
  {
    hide Carries, Weighted, Dot, Bounded, Decoded, Residue, ColumnQ, Fresh, Values, CombinesAt, SecretOk, SameRing;
    var n, k := r.n, |ins|;
    assert CombinesAt(r, ins, ws, k, s);
    OutputCarries(ins, ws, r, s, ms, es);
    VectorFits(k);
    CarriesDecodes(r, s, Weighted(ws, ms, n, k), Weighted(ws, es, n, k), k * (T * T), k * (T * FRESH), i);
    WeightedDot(ws, ms, n, i, k);
  }

  /** Coefficient i of the first k messages combined by column j of a matrix given as rows. */
  ghost function RowsDot(rows: seq<seq<int>>, ms: seq<Poly>, j: nat, i: nat, n: nat, k: nat): int
    requires k <= |rows| == |ms| && Sized(ms, n) && i < n && forall r | 0 <= r < |rows| :: j < |rows[r]|
  {
    if k == 0 then 0 else RowsDot(rows, ms, j, i, n, k - 1) + rows[k - 1][j] * ms[k - 1][i]
  }

  lemma {:induction false} RowsDotIs(rows: seq<seq<int>>, ncol: nat, ms: seq<Poly>, j: nat, i: nat, n: nat, k: nat)
    requires k <= |rows| == |ms| && Sized(ms, n) && i < n && j < ncol && Rectangle(rows, ncol)
    ensures |Flat(rows)| == |rows| * ncol
    ensures Dot(Col(Flat(rows), |rows|, ncol, j), ms, i, n, k) == RowsDot(rows, ms, j, i, n, k)
  {
    hide Entry;
    FlatSize(rows, ncol);
    if k > 0 {
      RowsDotIs(rows, ncol, ms, j, i, n, k - 1);
      FlatAt(rows, ncol, k - 1, j);
    }
  }

  /**
   The outputs over fresh inputs and a matrix given as rows: output j decrypts to the sum over the
   rows of entry j times the message of the row's input, modulo t.
   */
  lemma MatrixDecrypts(out: seq<Ct>, ins: seq<Ct>, rows: seq<seq<int>>, ncol: nat, s: seq<int>, ms: seq<Poly>, es: seq<Poly>, j: nat, i: nat)
    requires AllFresh(ins, s, ms, es) && 0 < |ins| <= MAX_VEC && |rows| == |ins| && Rectangle(rows, ncol)
    requires |Flat(rows)| == |ins| * ncol && Entries(Flat(rows)) && Fits(Flat(rows))
    requires |out| == ncol && AllColumns(out, ins, Flat(rows), ncol, |s|) && SecretOk(s, |s|) && j < ncol && i < |s|
    ensures Residue(Decoded(out[j], s, i)) == RowsDot(rows, ms, j, i, |s|, |ins|) % T
  {
    hide Combines, Dot, Decoded, Residue, ColumnQ, Fresh, SecretOk, Entry, Entries, Fits, Col;
    ColEntries(Flat(rows), |ins|, ncol, j);
    ColumnsFit(Flat(rows), |ins|, ncol);
    MatmulDecrypts(ins, Col(Flat(rows), |ins|, ncol, j), out[j], s, ms, es, i);
    RowsDotIs(rows, ncol, ms, j, i, |s|, |ins|);
  }

  lemma VectorFits(k: nat)
    requires k <= MAX_VEC
    ensures T * (k * (T * FRESH)) + RHO * (k * (T * T)) <= HALF
  {}
}
