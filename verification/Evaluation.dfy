/**
 Decryption as evaluation: a ciphertext is a list of polynomials and decrypting it at the
 secret s sums c[k] * s^k. Tensoring lists multiplies their evaluations.
 */
module Evaluation {
  import opened Residues
  import opened Ring

  /** All polynomials in the list have length n. */
  ghost predicate Sized(cs: seq<Poly>, n: nat) {
    forall i | 0 <= i < |cs| :: |cs[i]| == n
  }

  /** The sum of cs[k] * s^k. */
  function Eval(cs: seq<Poly>, s: Poly): (r: Poly)
    requires |s| > 0 && Sized(cs, |s|)
    ensures |r| == |s|
  {
    if cs == [] then Zero(|s|)
    else Add(Eval(cs[..|cs| - 1], s), Mul(Pow(s, |cs| - 1), cs[|cs| - 1]))
  }

  lemma {:induction false} EvalSnoc(cs: seq<Poly>, c: Poly, s: Poly)
    requires |s| > 0 && Sized(cs, |s|) && |c| == |s|
    ensures Eval(cs + [c], s) == Add(Eval(cs, s), Mul(Pow(s, |cs|), c))
  {
    hide Apply, Pow;
    assert (cs + [c])[..|cs|] == cs;
  }

  function AddLists(a: seq<Poly>, b: seq<Poly>, n: nat): (r: seq<Poly>)
    requires |a| == |b| && Sized(a, n) && Sized(b, n)
    ensures |r| == |a| && Sized(r, n)
  {
    seq(|a|, i requires 0 <= i < |a| => Add(a[i], b[i]))
  }

  function MulList(x: Poly, a: seq<Poly>): (r: seq<Poly>)
    requires |x| > 0 && Sized(a, |x|)
    ensures |r| == |a| && Sized(r, |x|)
  {
    seq(|a|, i requires 0 <= i < |a| => Mul(x, a[i]))
  }

  function Zeros(m: nat, n: nat): (r: seq<Poly>)
    ensures |r| == m && Sized(r, n)
  {
    seq(m, _ => Zero(n))
  }

  lemma {:induction false} EvalAdd(a: seq<Poly>, b: seq<Poly>, s: Poly)
    requires |s| > 0 && |a| == |b| && Sized(a, |s|) && Sized(b, |s|)
    ensures Eval(AddLists(a, b, |s|), s) == Add(Eval(a, s), Eval(b, s))
  {
    hide Apply, Pow;
    if a == [] {
      AddZero(Zero(|s|));
    } else {
      var m := |a| - 1;
      var p := Pow(s, m);
      var a', b' := a[..m], b[..m];
      EvalAdd(a', b', s);
      assert AddLists(a, b, |s|)[..m] == AddLists(a', b', |s|);
      MulAdd(p, a[m], b[m]);
      AddSwap(Eval(a', s), Eval(b', s), Mul(p, a[m]), Mul(p, b[m]));
    }
  }

  lemma {:induction false} EvalMul(x: Poly, a: seq<Poly>, s: Poly)
    requires |x| == |s| > 0 && Sized(a, |s|)
    ensures Eval(MulList(x, a), s) == Mul(x, Eval(a, s))
  {
    hide Apply, Pow;
    if a == [] {
      MulZero(x);
    } else {
      var m := |a| - 1;
      var p := Pow(s, m);
      EvalMul(x, a[..m], s);
      assert MulList(x, a)[..m] == MulList(x, a[..m]);
      MulLeft(p, x, a[m]);
      MulAdd(x, Eval(a[..m], s), Mul(p, a[m]));
    }
  }

  /** Leading zeros multiply the value by a power of the secret. */
  lemma {:induction false} EvalZeros(m: nat, cs: seq<Poly>, s: Poly)
    requires |s| > 0 && Sized(cs, |s|)
    ensures Eval(Zeros(m, |s|) + cs, s) == Mul(Pow(s, m), Eval(cs, s))
    decreases |cs|, m
  {
    hide Apply, Pow;
    var p, n := Pow(s, m), |s|;
    if cs == [] {
      assert Zeros(m, n) + cs == Zeros(m, n);
      MulZero(p);
      if m > 0 {
        assert Zeros(m, n) == Zeros(m - 1, n) + [Zero(n)];
        assert Zeros(m - 1, n) + [] == Zeros(m - 1, n);
        EvalZeros(m - 1, cs, s);
        MulZero(Pow(s, m - 1));
        EvalSnoc(Zeros(m - 1, n), Zero(n), s);
        AddZero(Zero(n));
      }
    } else {
      var j := |cs| - 1;
      var init, last := cs[..j], cs[j];
      assert cs == init + [last];
      assert Zeros(m, n) + cs == (Zeros(m, n) + init) + [last];
      EvalZeros(m, init, s);
      EvalSnoc(Zeros(m, n) + init, last, s);
      PowAdd(s, m, j);
      MulAssoc(p, Pow(s, j), last);
      MulAdd(p, Eval(init, s), Mul(Pow(s, j), last));
    }
  }

  /** Trailing zeros change nothing. */
  lemma {:induction false} EvalPad(cs: seq<Poly>, m: nat, s: Poly)
    requires |s| > 0 && Sized(cs, |s|)
    ensures Eval(cs + Zeros(m, |s|), s) == Eval(cs, s)
  {
    hide Apply, Pow;
    var n := |s|;
    if m == 0 {
      assert cs + Zeros(0, n) == cs;
    } else {
      EvalPad(cs, m - 1, s);
      var cs' := cs + Zeros(m - 1, n);
      assert cs + Zeros(m, n) == cs' + [Zero(n)];
      EvalSnoc(cs', Zero(n), s);
      MulZero(Pow(s, |cs'|));
      AddZero(Eval(cs', s));
    }
  }

  // ----- tensor -----

  /** Component k of a tensor product, restricted to the first m components of a. */
  function Conv(a: seq<Poly>, b: seq<Poly>, k: nat, m: nat, n: nat): (r: Poly)
    requires n > 0 && m <= |a| && Sized(a, n) && Sized(b, n)
    ensures |r| == n
  {
    if m == 0 then Zero(n)
    else if 0 <= k - (m - 1) < |b| then Add(Conv(a, b, k, m - 1, n), Mul(a[m - 1], b[k - (m - 1)]))
    else Conv(a, b, k, m - 1, n)
  }

  function ConvList(a: seq<Poly>, b: seq<Poly>, m: nat, len: nat, n: nat): (r: seq<Poly>)
    requires n > 0 && m <= |a| && Sized(a, n) && Sized(b, n)
    ensures |r| == len && Sized(r, n)
  {
    seq(len, k requires 0 <= k < len => Conv(a, b, k, m, n))
  }

  /** Evaluation turns a tensor product into a ring product. */
  lemma {:induction false} EvalTensor(a: seq<Poly>, b: seq<Poly>, m: nat, len: nat, s: Poly)
    requires |s| > 0 && Sized(a, |s|) && Sized(b, |s|) && m <= |a| && |a| + |b| <= len + 1
    ensures Eval(ConvList(a, b, m, len, |s|), s) == Mul(Eval(a[..m], s), Eval(b, s))
  {
    hide Apply, Pow, Eval;
    var n := |s|;
    if m == 0 {
      assert ConvList(a, b, 0, len, n) == [] + Zeros(len, n);
      EvalPad([], len, s);
      assert a[..0] == [];
      EvalNil(s);
      MulZero(Eval(b, s));
    } else {
      var x, j := a[m - 1], m - 1;
      var window := Zeros(j, n) + MulList(x, b);
      var term := window + Zeros(len - j - |b|, n);
      assert ConvList(a, b, m, len, n) == AddLists(ConvList(a, b, j, len, n), term, n) by {
        ConvStep(a, b, m, len, n, term);
      }
      EvalTensor(a, b, j, len, s);
      EvalAdd(ConvList(a, b, j, len, n), term, s);
      EvalPad(window, len - j - |b|, s);
      EvalZeros(j, MulList(x, b), s);
      EvalMul(x, b, s);
      assert a[..m] == a[..j] + [x];
      EvalSnoc(a[..j], x, s);
      MulAssoc(Pow(s, j), x, Eval(b, s));
      MulAdd(Eval(b, s), Eval(a[..j], s), Mul(Pow(s, j), x));
    }
  }

  lemma EvalNil(s: Poly)
    requires |s| > 0
    ensures Eval([], s) == Zero(|s|)
  {}

  lemma ConvStep(a: seq<Poly>, b: seq<Poly>, m: nat, len: nat, n: nat, term: seq<Poly>)
    requires n > 0 && 0 < m <= |a| && Sized(a, n) && Sized(b, n) && |a| + |b| <= len + 1
    requires term == (Zeros(m - 1, n) + MulList(a[m - 1], b)) + Zeros(len - (m - 1) - |b|, n)
    ensures |term| == len && Sized(term, n)
    ensures ConvList(a, b, m, len, n) == AddLists(ConvList(a, b, m - 1, len, n), term, n)
  {
    hide Apply;
    forall k | 0 <= k < len
      ensures |term[k]| == n
      ensures Conv(a, b, k, m, n) == Add(Conv(a, b, k, m - 1, n), term[k])
    {
      if !(0 <= k - (m - 1) < |b|) {
        assert term[k] == Zero(n);
        AddZero(Conv(a, b, k, m - 1, n));
      }
    }
  }

  // ----- evaluation modulo a prime -----

  ghost predicate EqvLists(a: seq<Poly>, b: seq<Poly>, m: int)
    requires m > 0
  {
    |a| == |b| && forall i | 0 <= i < |a| :: Eqv(a[i], b[i], m)
  }

  lemma {:induction false} EvalEqv(a: seq<Poly>, b: seq<Poly>, s: Poly, m: int)
    requires m > 0 && |s| > 0 && Sized(a, |s|) && Sized(b, |s|) && EqvLists(a, b, m)
    ensures Eqv(Eval(a, s), Eval(b, s), m)
  {
    hide Apply, Pow, Eqv;
    EqvSelf(Zero(|s|), m);
    if a != [] {
      var j := |a| - 1;
      EvalEqv(a[..j], b[..j], s, m);
      var p := Pow(s, j);
      EqvSelf(p, m);
      EqvMul(p, p, a[j], b[j], m);
      EqvAdd(Eval(a[..j], s), Eval(b[..j], s), Mul(p, a[j]), Mul(p, b[j]), m);
    }
  }

  /** A congruence u*x = v*y + w*z between lists goes through evaluation. */
  lemma {:induction false} EvalLinear(x: seq<Poly>, y: seq<Poly>, z: seq<Poly>, u: int, v: int, w: int, s: Poly, m: int)
    requires m > 0 && |s| > 0 && |x| == |y| == |z| && Sized(x, |s|) && Sized(y, |s|) && Sized(z, |s|)
    requires forall k | 0 <= k < |x| :: Eqv(Scale(u, x[k]), Add(Scale(v, y[k]), Scale(w, z[k])), m)
    ensures Eqv(Scale(u, Eval(x, s)), Add(Scale(v, Eval(y, s)), Scale(w, Eval(z, s))), m)
  {
    hide Apply, Pow, Eqv;
    if x == [] {
      var o := Zero(|s|);
      assert Scale(u, o) == Add(Scale(v, o), Scale(w, o)) == o;
      EqvSelf(o, m);
    } else {
      var j, p := |x| - 1, Pow(s, |x| - 1);
      EvalLinear(x[..j], y[..j], z[..j], u, v, w, s, m);
      LinearStep(Eval(x[..j], s), Eval(y[..j], s), Eval(z[..j], s), p, x[j], y[j], z[j], u, v, w, m);
    }
  }

  lemma LinearStep(ex: Poly, ey: Poly, ez: Poly, p: Poly, x: Poly, y: Poly, z: Poly, u: int, v: int, w: int, m: int)
    requires m > 0 && |ex| == |ey| == |ez| == |p| == |x| == |y| == |z| > 0
    requires Eqv(Scale(u, ex), Add(Scale(v, ey), Scale(w, ez)), m)
    requires Eqv(Scale(u, x), Add(Scale(v, y), Scale(w, z)), m)
    ensures Eqv(Scale(u, Add(ex, Mul(p, x))), Add(Scale(v, Add(ey, Mul(p, y))), Scale(w, Add(ez, Mul(p, z)))), m)
  {
    hide Apply, Eqv;
    EqvSelf(p, m);
    EqvMul(p, p, Scale(u, x), Add(Scale(v, y), Scale(w, z)), m);
    MulScale(u, p, x);
    MulAdd(p, Scale(v, y), Scale(w, z));
    MulScale(v, p, y);
    MulScale(w, p, z);
    ScaleAdd(u, ex, Mul(p, x));
    ScaleAdd(v, ey, Mul(p, y));
    ScaleAdd(w, ez, Mul(p, z));
    AddSwap(Scale(v, ey), Scale(v, Mul(p, y)), Scale(w, ez), Scale(w, Mul(p, z)));
    EqvAdd(Scale(u, ex), Add(Scale(v, ey), Scale(w, ez)), Scale(u, Mul(p, x)), Add(Scale(v, Mul(p, y)), Scale(w, Mul(p, z))), m);
  }

  lemma ScaleOne(a: Poly)
    ensures Scale(1, a) == a
  {}

  lemma EqvSelf(a: Poly, m: int)
    requires m > 0
    ensures Eqv(a, a, m)
  {}

  lemma EqvTrans(a: Poly, b: Poly, c: Poly, m: int)
    requires m > 0 && Eqv(a, b, m) && Eqv(b, c, m)
    ensures Eqv(a, c, m) && Eqv(b, a, m)
  {}

  /** The substitution x -> x^k goes through evaluation. */
  lemma {:induction false} SigmaEval(cs: seq<Poly>, s: Poly, k: nat)
    requires |s| > 0 && k % 2 == 1 && Sized(cs, |s|)
    ensures Sigma(Eval(cs, s), k) == Eval(SigmaList(cs, k, |s|), Sigma(s, k))
  {
    hide Apply, Pow, Sigma;
    var n := |s|;
    if cs == [] {
      SigmaZero(n, k);
    } else {
      var j := |cs| - 1;
      var e, t := Eval(cs[..j], s), Mul(Pow(s, j), cs[j]);
      SigmaEval(cs[..j], s, k);
      assert SigmaList(cs, k, n)[..j] == SigmaList(cs[..j], k, n);
      SigmaLinear(0, e, t, k);
      SigmaMul(Pow(s, j), cs[j], k);
      SigmaPow(s, j, k);
    }
  }

  function SigmaList(cs: seq<Poly>, k: nat, n: nat): (r: seq<Poly>)
    requires n > 0 && Sized(cs, n)
    ensures |r| == |cs| && Sized(r, n)
  {
    seq(|cs|, i requires 0 <= i < |cs| => Sigma(cs[i], k))
  }

  lemma SigmaZero(n: nat, k: nat)
    requires n > 0
    ensures Sigma(Zero(n), k) == Zero(n)
  {
    ApplyZeros(n, One(n), k);
  }

  /** Two components: c0 + s * c1. */
  lemma EvalPair(c0: Poly, c1: Poly, s: Poly)
    requires |c0| == |c1| == |s| > 0
    ensures Eval([c0, c1], s) == Add(c0, Mul(s, c1))
  {
    hide Apply, Eval;
    EvalNil(s);
    EvalSnoc([], c0, s);
    EvalSnoc([c0], c1, s);
    assert [] + [c0] == [c0] && [c0] + [c1] == [c0, c1];
    assert Pow(s, 0) == One(|s|) && Pow(s, 1) == Mul(s, Pow(s, 0));
    MulOne(c0);
    MulOne(s);
    AddZero(c0);
  }
}
