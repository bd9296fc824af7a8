/** Packed messages through encryption, one multiplication or addition, decryption and unpacking. */
module BfvSimd {
  import opened Residues
  import opened Ring
  import opened Rows
  import opened Norms
  import opened Evaluation
  import opened Goldilocks
  import opened Bfv
  import opened BfvMult
  import opened BfvNoise
  import opened BfvSlots

  /** The residues callers rebuild from a decrypted polynomial. */
  function Plaintext(ct: Ct, s: Poly): (r: Poly)
    requires WellFormed(ct) && |s| == ct.n
    ensures |r| == ct.n
  {
    seq(ct.n, i requires 0 <= i < ct.n => Residue(Decoded(ct, s, i)))
  }

  lemma PlaintextIs(ct: Ct, s: Poly, m: Poly)
    requires WellFormed(ct) && |s| == |m| == ct.n
    requires forall i | 0 <= i < ct.n :: Residue(Decoded(ct, s, i)) == m[i] % T
    ensures Plaintext(ct, s) == Red(m, T)
  {
    hide Decoded, Residue;
  }

  /** Slot j of the decrypted product is the product of the two slots j. */
  lemma {:induction false} SlotwiseProduct(a: Ct, b: Ct, r: Ct, s: seq<int>, m: seq<nat>, e: Poly, m': seq<nat>, e': Poly,
                                           u: seq<nat>, v: seq<nat>, pts: seq<nat>, j: nat)
    requires Fresh(a, s, m, e) && Fresh(b, s, m', e') && a.n == b.n == r.n <= MAX_N && SecretOk(s, a.n)
    requires Valid(r) && |r.c| == 3 && IsProduct(a, b, r.c)
    requires Points(pts, r.n, T) && |u| == |v| == r.n && j < r.n
    requires Packs(m, u, pts, T, r.n) && Packs(m', v, pts, T, r.n)
    ensures At(Plaintext(r, s), pts[j]) % T == (u[j] * v[j]) % T
  {
    hide Fresh, IsProduct, Points, Decoded, Residue, At, Plaintext, Apply, SecretOk, ColumnQ;
    var n := r.n;
    FreshSize(a, s, m, e);
    FreshSize(b, s, m', e');
    PointsBasic(pts, n, T);
    forall i | 0 <= i < n ensures Residue(Decoded(r, s, i)) == Mul(m, m')[i] % T {
      ProductDecrypts(a, b, r, s, m, e, m', e', i);
    }
    PlaintextIs(r, s, Mul(m, m'));
    PackedArithmetic(m, m', pts, n, T, j);
    ModMul(At(m, pts[j]), u[j], At(m', pts[j]), v[j], T);
  }

  lemma FreshSize(ct: Ct, s: Poly, m: Poly, e: Poly)
    requires Fresh(ct, s, m, e)
    ensures |s| == |m| == |e| == ct.n > 0
  {}

  /** Slot j of the decrypted sum is the sum of the two slots j. */
  lemma {:induction false} SlotwiseSum(a: Ct, b: Ct, r: Ct, s: seq<int>, m: seq<nat>, e: Poly, m': seq<nat>, e': Poly,
                                       u: seq<nat>, v: seq<nat>, pts: seq<nat>, j: nat)
    requires Fresh(a, s, m, e) && Fresh(b, s, m', e') && a.n == b.n == r.n
    requires Valid(r) && Sums(r, a, b)
    requires Points(pts, r.n, T) && |u| == |v| == r.n && j < r.n
    requires Packs(m, u, pts, T, r.n) && Packs(m', v, pts, T, r.n)
    ensures At(Plaintext(r, s), pts[j]) % T == (u[j] + v[j]) % T
  {
    hide Fresh, Sums, Points, Decoded, Residue, At, Plaintext, Apply, ColumnQ;
    var n := r.n;
    FreshSize(a, s, m, e);
    FreshSize(b, s, m', e');
    PointsBasic(pts, n, T);
    SumCarriesBoth(a, b, r, s, m, e, m', e');
    forall i | 0 <= i < n ensures Residue(Decoded(r, s, i)) == Add(m, m')[i] % T {
      CarriesDecodes(r, s, Add(m, m'), Add(e, e'), 2 * T, 2 * FRESH, i);
    }
    PlaintextIs(r, s, Add(m, m'));
    PackedArithmetic(m, m', pts, n, T, j);
    ModAdd(At(m, pts[j]), u[j], At(m', pts[j]), v[j], T);
  }

  lemma {:induction false} SumCarriesBoth(a: Ct, b: Ct, r: Ct, s: Poly, m: Poly, e: Poly, m': Poly, e': Poly)
    requires Fresh(a, s, m, e) && Fresh(b, s, m', e') && a.n == b.n == r.n && Valid(r) && Sums(r, a, b)
    ensures |m| == |m'| == |e| == |e'| == |s| == r.n
    ensures Carries(r, s, Add(m, m'), Add(e, e')) && Bounded(Add(m, m'), 2 * T) && Bounded(Add(e, e'), 2 * FRESH)
  {
    hide Eval, Eqv, Bounded, Message, Canonical;
    MessageSmall(m);
    MessageSmall(m');
    AddBounded(m, m', T, T);
    AddBounded(e, e', FRESH, FRESH);
    EqvAdd(Eval(a.c, s), Add(Scale(DELTA, m), e), Eval(b.c, s), Add(Scale(DELTA, m'), e'), Q);
    EqvTrans(Eval(r.c, s), Add(Eval(a.c, s), Eval(b.c, s)),
             Add(Add(Scale(DELTA, m), e), Add(Scale(DELTA, m'), e')), Q);
    AddSwap(Scale(DELTA, m), e, Scale(DELTA, m'), e');
    ScaleAdd(DELTA, m, m');
  }
}
