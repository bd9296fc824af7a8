/**
 The ring Z[x]/(x^n + 1), polynomials as coefficient sequences of length n >= 1.
 Multiplication by x is a rotation with a sign, and a product is a Horner sum of such
 rotations. Every law below follows from one fact: a product with a fixed factor is linear
 and commutes with the rotation.
 */
module Ring {
  import opened Residues

  type Poly = seq<int>

  function Zero(n: nat): (r: Poly)
    ensures |r| == n
  {
    seq(n, _ => 0)
  }

  function One(n: nat): (r: Poly)
    requires n > 0
    ensures |r| == n
  {
    [1] + Zero(n - 1)
  }

  function Add(a: Poly, b: Poly): (r: Poly)
    requires |a| == |b|
    ensures |r| == |a|
  {
    seq(|a|, i requires 0 <= i < |a| => a[i] + b[i])
  }

  function Scale(c: int, a: Poly): (r: Poly)
    ensures |r| == |a|
  {
    seq(|a|, i requires 0 <= i < |a| => c * a[i])
  }

  /** Multiplication by x. */
  function Shift(a: Poly): (r: Poly)
    requires |a| > 0
    ensures |r| == |a|
    ensures r[0] == -a[|a| - 1]
    ensures forall i | 1 <= i < |a| :: r[i] == a[i - 1]
  {
    [-a[|a| - 1]] + a[..|a| - 1]
  }

  /** Multiplication by x^k. */
  function ShiftN(a: Poly, k: nat): (r: Poly)
    requires |a| > 0
    ensures |r| == |a|
  {
    if k == 0 then a else Shift(ShiftN(a, k - 1))
  }

  /** The sum of us[i] * x^(k*i) * b: the polynomial `us`, read in the variable x^k, times b. */
  function Apply(us: seq<int>, b: Poly, k: nat): (r: Poly)
    requires |b| > 0
    ensures |r| == |b|
  {
    if us == [] then Zero(|b|) else Add(Scale(us[0], b), ShiftN(Apply(us[1..], b, k), k))
  }

  /** The product modulo x^n + 1. */
  function Mul(a: Poly, b: Poly): (r: Poly)
    requires |b| > 0
    ensures |r| == |b|
  {
    Apply(a, b, 1)
  }

  /** The substitution x -> x^k. */
  function Sigma(a: Poly, k: nat): (r: Poly)
    requires |a| > 0
    ensures |r| == |a|
  {
    Apply(a, One(|a|), k)
  }

  function Pow(a: Poly, e: nat): (r: Poly)
    requires |a| > 0
    ensures |r| == |a|
  {
    if e == 0 then One(|a|) else Mul(a, Pow(a, e - 1))
  }

  // ----- addition -----

  lemma AddZero(a: Poly)
    ensures Add(a, Zero(|a|)) == a
    ensures Add(Zero(|a|), a) == a
  {}

  lemma AddAssoc(a: Poly, b: Poly, c: Poly)
    requires |a| == |b| == |c|
    ensures Add(Add(a, b), c) == Add(a, Add(b, c))
  {}

  lemma AddComm(a: Poly, b: Poly)
    requires |a| == |b|
    ensures Add(a, b) == Add(b, a)
  {}

  /** (a + b) + (c + d) == (a + c) + (b + d) */
  lemma AddSwap(a: Poly, b: Poly, c: Poly, d: Poly)
    requires |a| == |b| == |c| == |d|
    ensures Add(Add(a, b), Add(c, d)) == Add(Add(a, c), Add(b, d))
  {}

  lemma ScaleAdd(c: int, a: Poly, b: Poly)
    requires |a| == |b|
    ensures Scale(c, Add(a, b)) == Add(Scale(c, a), Scale(c, b))
  {
    forall i | 0 <= i < |a| ensures c * (a[i] + b[i]) == c * a[i] + c * b[i] {}
  }

  lemma ScaleScale(c: int, d: int, a: Poly)
    ensures Scale(c, Scale(d, a)) == Scale(c * d, a)
    ensures Scale(c, Scale(d, a)) == Scale(d, Scale(c, a))
  {
    forall i | 0 <= i < |a| ensures c * (d * a[i]) == (c * d) * a[i] == d * (c * a[i]) {}
  }

  lemma ScaleSum(c: int, d: int, a: Poly)
    ensures Scale(c + d, a) == Add(Scale(c, a), Scale(d, a))
  {
    forall i | 0 <= i < |a| ensures (c + d) * a[i] == c * a[i] + d * a[i] {}
  }

  // ----- rotation -----

  lemma ShiftLinear(c: int, a: Poly, b: Poly)
    requires |a| == |b| > 0
    ensures Shift(Add(a, b)) == Add(Shift(a), Shift(b))
    ensures Shift(Scale(c, a)) == Scale(c, Shift(a))
  {
    assert Shift(Scale(c, a))[0] == -(c * a[|a| - 1]) == c * (-a[|a| - 1]);
    assert Shift(Scale(c, a)) == Scale(c, Shift(a));
    assert Shift(Add(a, b)) == Add(Shift(a), Shift(b));
  }

  lemma {:induction false} ShiftNLinear(c: int, a: Poly, b: Poly, k: nat)
    requires |a| == |b| > 0
    ensures ShiftN(Add(a, b), k) == Add(ShiftN(a, k), ShiftN(b, k))
    ensures ShiftN(Scale(c, a), k) == Scale(c, ShiftN(a, k))
  {
    if k > 0 {
      ShiftNLinear(c, a, b, k - 1);
      ShiftLinear(c, ShiftN(a, k - 1), ShiftN(b, k - 1));
    }
  }

  lemma {:induction false} ShiftNAdd(a: Poly, j: nat, k: nat)
    requires |a| > 0
    ensures ShiftN(ShiftN(a, j), k) == ShiftN(a, j + k)
  {
    if k > 0 {
      ShiftNAdd(a, j, k - 1);
    }
  }

  lemma ShiftZero(n: nat, k: nat)
    requires n > 0
    ensures ShiftN(Zero(n), k) == Zero(n)
  {
    if k > 0 {
      ShiftZero(n, k - 1);
      assert Shift(Zero(n)) == Zero(n);
    }
  }

  /** x^k for k <= n, coefficient by coefficient. */
  lemma {:induction false} ShiftNAt(a: Poly, k: nat)
    requires |a| > 0 && k <= |a|
    ensures forall i | 0 <= i < |a| ::
              ShiftN(a, k)[i] == if i >= k then a[i - k] else -a[|a| + i - k]
  {
    if k > 0 {
      ShiftNAt(a, k - 1);
    }
  }

  /** x^n == -1 and x^(2n) == 1. */
  lemma ShiftWrap(a: Poly)
    requires |a| > 0
    ensures ShiftN(a, |a|) == Scale(-1, a)
    ensures ShiftN(a, 2 * |a|) == a
  {
    hide Apply, ShiftN;
    var n := |a|;
    ShiftWrapOnce(a, n);
    ShiftWrapOnce(ShiftN(a, n), n);
    ShiftNAdd(a, n, n);
    assert Scale(-1, Scale(-1, a)) == a;
  }

  lemma ShiftWrapOnce(a: Poly, n: nat)
    requires |a| == n > 0
    ensures ShiftN(a, n) == Scale(-1, a)
  {
    ShiftNAt(a, n);
  }

  // ----- products -----

  /** A product is linear in its second factor and commutes with every rotation. */
  lemma {:induction false} ApplyLinear(us: seq<int>, b: Poly, c: Poly, v: int, k: nat)
    requires |b| == |c| > 0
    ensures Apply(us, Add(b, c), k) == Add(Apply(us, b, k), Apply(us, c, k))
    ensures Apply(us, Scale(v, b), k) == Scale(v, Apply(us, b, k))
  {
    if us == [] {
      assert Apply(us, Scale(v, b), k) == Scale(v, Apply(us, b, k));
      assert Apply(us, Add(b, c), k) == Add(Apply(us, b, k), Apply(us, c, k));
    } else {
      var tb, tc := Apply(us[1..], b, k), Apply(us[1..], c, k);
      ApplyLinear(us[1..], b, c, v, k);
      ShiftNLinear(v, tb, tc, k);
      ScaleAdd(us[0], b, c);
      AddSwap(Scale(us[0], b), Scale(us[0], c), ShiftN(tb, k), ShiftN(tc, k));
      ScaleScale(us[0], v, b);
      ScaleAdd(v, Scale(us[0], b), ShiftN(tb, k));
    }
  }

  lemma {:induction false} ApplyShift(us: seq<int>, b: Poly, k: nat, j: nat)
    requires |b| > 0
    ensures Apply(us, ShiftN(b, j), k) == ShiftN(Apply(us, b, k), j)
  {
    if us == [] {
      ShiftZero(|b|, j);
    } else {
      var t := Apply(us[1..], b, k);
      ApplyShift(us[1..], b, k, j);
      ShiftNAdd(t, j, k);
      ShiftNAdd(t, k, j);
      ShiftNLinear(us[0], b, b, j);
      ShiftNLinear(0, Scale(us[0], b), ShiftN(t, k), j);
    }
  }

  lemma ApplyZero(us: seq<int>, n: nat, k: nat)
    requires n > 0
    ensures Apply(us, Zero(n), k) == Zero(n)
  {
    assert Scale(0, Zero(n)) == Zero(n);
    ApplyLinear(us, Zero(n), Zero(n), 0, k);
    assert Scale(0, Apply(us, Zero(n), k)) == Zero(n);
  }

  /** Two products, in whatever powers of x, commute as operators. */
  lemma {:induction false} ApplyCommute(us: seq<int>, j: nat, bs: seq<int>, k: nat, c: Poly)
    requires |c| > 0
    ensures Apply(us, Apply(bs, c, k), j) == Apply(bs, Apply(us, c, j), k)
  {
    if bs == [] {
      ApplyZero(us, |c|, j);
    } else {
      var t := Apply(bs[1..], c, k);
      ApplyCommute(us, j, bs[1..], k, c);
      ApplyLinear(us, Scale(bs[0], c), ShiftN(t, k), 0, j);
      ApplyLinear(us, c, c, bs[0], j);
      ApplyShift(us, t, j, k);
    }
  }

  /** A short coefficient list applied to 1 is itself, padded. */
  lemma {:induction false} ApplyOne(us: seq<int>, n: nat)
    requires 0 < n && |us| <= n
    ensures Apply(us, One(n), 1) == us + Zero(n - |us|)
  {
    if us == [] {
      assert us + Zero(n) == Zero(n);
    } else {
      ApplyOne(us[1..], n);
      ShiftOne(us[1..] + Zero(n - |us| + 1));
      PaddedStep(us, n);
    }
  }

  lemma ShiftOne(a: Poly)
    requires |a| > 0
    ensures ShiftN(a, 1) == Shift(a)
  {
    assert ShiftN(a, 0) == a;
  }

  lemma PaddedStep(us: seq<int>, n: nat)
    requires 0 < |us| <= n
    ensures Add(Scale(us[0], One(n)), Shift(us[1..] + Zero(n - |us| + 1))) == us + Zero(n - |us|)
  {
    assert forall i | 0 <= i < n :: One(n)[i] == if i == 0 then 1 else 0;
  }

  lemma MulOne(a: Poly)
    requires |a| > 0
    ensures Mul(a, One(|a|)) == a
    ensures Mul(One(|a|), a) == a
  {
    ApplyOne(a, |a|);
    assert a + Zero(0) == a;
    MulComm(a, One(|a|));
  }

  lemma MulComm(a: Poly, b: Poly)
    requires |a| == |b| > 0
    ensures Mul(a, b) == Mul(b, a)
  {
    ApplyOne(a, |a|);
    ApplyOne(b, |a|);
    assert a + Zero(0) == a && b + Zero(0) == b;
    ApplyCommute(a, 1, b, 1, One(|a|));
  }

  lemma MulAssoc(a: Poly, b: Poly, c: Poly)
    requires |a| == |b| == |c| > 0
    ensures Mul(Mul(a, b), c) == Mul(a, Mul(b, c))
  {
    MulComm(Mul(a, b), c);
    ApplyCommute(c, 1, a, 1, b);
    MulComm(c, b);
  }

  /** a * (b * c) == b * (a * c) */
  lemma MulLeft(a: Poly, b: Poly, c: Poly)
    requires |a| == |b| == |c| > 0
    ensures Mul(a, Mul(b, c)) == Mul(b, Mul(a, c))
  {
    ApplyCommute(a, 1, b, 1, c);
  }

  lemma MulAdd(a: Poly, b: Poly, c: Poly)
    requires |a| == |b| == |c| > 0
    ensures Mul(a, Add(b, c)) == Add(Mul(a, b), Mul(a, c))
    ensures Mul(Add(b, c), a) == Add(Mul(b, a), Mul(c, a))
  {
    ApplyLinear(a, b, c, 0, 1);
    MulComm(Add(b, c), a);
    MulComm(b, a);
    MulComm(c, a);
  }

  lemma MulScale(v: int, a: Poly, b: Poly)
    requires |a| == |b| > 0
    ensures Mul(a, Scale(v, b)) == Scale(v, Mul(a, b))
    ensures Mul(Scale(v, a), b) == Scale(v, Mul(a, b))
  {
    ApplyLinear(a, b, b, v, 1);
    MulComm(Scale(v, a), b);
    ApplyLinear(b, a, a, v, 1);
    MulComm(a, b);
  }

  lemma MulZero(a: Poly)
    requires |a| > 0
    ensures Mul(a, Zero(|a|)) == Zero(|a|)
    ensures Mul(Zero(|a|), a) == Zero(|a|)
  {
    ApplyZero(a, |a|, 1);
    MulComm(a, Zero(|a|));
  }

  lemma PowStep(t: Poly, d: nat)
    requires |t| > 0 && d > 0
    ensures Pow(t, d) == Mul(t, Pow(t, d - 1))
  {}

  lemma PowOne(t: Poly)
    requires |t| > 0
    ensures Pow(t, 1) == t
  {
    hide Apply;
    assert Pow(t, 1) == Mul(t, Pow(t, 0)) && Pow(t, 0) == One(|t|);
    MulOne(t);
  }

  lemma {:induction false} PowAdd(a: Poly, i: nat, j: nat)
    requires |a| > 0
    ensures Mul(Pow(a, i), Pow(a, j)) == Pow(a, i + j)
  {
    hide Apply, ShiftN;
    if i == 0 {
      MulOne(Pow(a, j));
    } else {
      var p, r := Pow(a, i - 1), Pow(a, j);
      PowAdd(a, i - 1, j);
      MulAssoc(a, p, r);
      assert Pow(a, i) == Mul(a, p);
      assert Pow(a, i + j) == Mul(a, Pow(a, i - 1 + j));
    }
  }

  /** Taking one more coefficient of the left factor adds one more rotated copy. */
  lemma {:induction false} ApplySnoc(us: seq<int>, v: int, b: Poly, k: nat)
    requires |b| > 0
    ensures Apply(us + [v], b, k) == Add(Apply(us, b, k), Scale(v, ShiftN(b, k * |us|)))
  {
    if us == [] {
      hide ShiftN;
      assert (us + [v])[1..] == [] && k * |us| == 0;
      ShiftZero(|b|, k);
      ShiftNone(b);
      AddComm(Scale(v, b), Zero(|b|));
    } else {
      hide ShiftN;
      assert (us + [v])[1..] == us[1..] + [v];
      var t, e := Apply(us[1..], b, k), k * (|us| - 1);
      ApplySnoc(us[1..], v, b, k);
      ShiftTerm(t, v, ShiftN(b, e), k);
      ShiftNAdd(b, e, k);
      assert e + k == k * |us|;
      AddAssoc(Scale(us[0], b), ShiftN(t, k), Scale(v, ShiftN(b, k * |us|)));
    }
  }

  lemma ShiftNone(a: Poly)
    requires |a| > 0
    ensures ShiftN(a, 0) == a
  {}

  lemma ShiftTerm(t: Poly, v: int, s: Poly, k: nat)
    requires |t| == |s| > 0
    ensures ShiftN(Add(t, Scale(v, s)), k) == Add(ShiftN(t, k), Scale(v, ShiftN(s, k)))
  {
    ShiftNLinear(0, t, Scale(v, s), k);
    ShiftNLinear(v, s, s, k);
  }

  // ----- the substitution x -> x^k is a ring automorphism for odd k -----

  lemma {:induction false} ShiftNOdd(a: Poly, k: nat)
    requires |a| > 0 && k % 2 == 1
    ensures ShiftN(a, k * |a|) == Scale(-1, a)
  {
    hide Apply, ShiftN;
    var n := |a|;
    ShiftWrap(a);
    if k == 1 {
      assert k * n == n;
    } else {
      var j := (k - 2) * n;
      ShiftNOdd(a, k - 2);
      ShiftNAdd(a, 2 * n, j);
      assert 2 * n + j == k * n;
    }
  }

  lemma SigmaShift(a: Poly, k: nat)
    requires |a| > 0 && k % 2 == 1
    ensures Sigma(Shift(a), k) == ShiftN(Sigma(a, k), k)
  {
    hide ShiftN;
    var n, one := |a|, One(|a|);
    var init, last := a[..n - 1], a[n - 1];
    assert a == init + [last];
    assert Shift(a) == [-last] + init;
    assert ([-last] + init)[1..] == init;
    var t, e := Apply(init, one, k), k * (n - 1);
    ApplySnoc(init, last, one, k);
    ShiftTerm(t, last, ShiftN(one, e), k);
    ShiftNAdd(one, e, k);
    assert e + k == k * n;
    ShiftNOdd(one, k);
    assert Scale(last, Scale(-1, one)) == Scale(-last, one);
    AddComm(ShiftN(t, k), Scale(-last, one));
  }

  lemma SigmaLinear(v: int, a: Poly, b: Poly, k: nat)
    requires |a| == |b| > 0
    ensures Sigma(Add(a, b), k) == Add(Sigma(a, k), Sigma(b, k))
    ensures Sigma(Scale(v, a), k) == Scale(v, Sigma(a, k))
  {
    ApplyAdd(a, b, One(|a|), k);
    ApplyScale(v, a, One(|a|), k);
  }

  lemma {:induction false} ApplyAdd(a: seq<int>, b: seq<int>, c: Poly, k: nat)
    requires |a| == |b| && |c| > 0
    ensures Apply(Add(a, b), c, k) == Add(Apply(a, c, k), Apply(b, c, k))
  {
    hide ShiftN;
    if a == [] {
      AddZero(Zero(|c|));
    } else {
      assert Add(a, b)[1..] == Add(a[1..], b[1..]);
      var ta, tb := Apply(a[1..], c, k), Apply(b[1..], c, k);
      ApplyAdd(a[1..], b[1..], c, k);
      ShiftNLinear(0, ta, tb, k);
      ScaleSum(a[0], b[0], c);
      AddSwap(Scale(a[0], c), Scale(b[0], c), ShiftN(ta, k), ShiftN(tb, k));
    }
  }

  lemma {:induction false} ApplyScale(v: int, a: seq<int>, c: Poly, k: nat)
    requires |c| > 0
    ensures Apply(Scale(v, a), c, k) == Scale(v, Apply(a, c, k))
  {
    hide ShiftN;
    if a == [] {
      assert Scale(v, Zero(|c|)) == Zero(|c|);
    } else {
      assert Scale(v, a)[1..] == Scale(v, a[1..]);
      var t := Apply(a[1..], c, k);
      ApplyScale(v, a[1..], c, k);
      ShiftNLinear(v, t, t, k);
      ScaleScale(v, a[0], c);
      ScaleAdd(v, Scale(a[0], c), ShiftN(t, k));
    }
  }

  lemma {:induction false} SigmaApply(us: seq<int>, b: Poly, k: nat)
    requires |b| > 0 && k % 2 == 1
    ensures Sigma(Apply(us, b, 1), k) == Apply(us, Sigma(b, k), k)
  {
    if us == [] {
      SigmaLinear(0, Zero(|b|), Zero(|b|), k);
      assert Scale(0, Zero(|b|)) == Zero(|b|);
      assert Scale(0, Sigma(Zero(|b|), k)) == Zero(|b|);
    } else {
      var t := Apply(us[1..], b, 1);
      SigmaApply(us[1..], b, k);
      ShiftOne(t);
      SigmaShift(t, k);
      SigmaLinear(us[0], b, b, k);
      SigmaLinear(0, Scale(us[0], b), Shift(t), k);
    }
  }

  /** For odd k the substitution respects products. */
  lemma SigmaMul(a: Poly, b: Poly, k: nat)
    requires |a| == |b| > 0 && k % 2 == 1
    ensures Sigma(Mul(a, b), k) == Mul(Sigma(a, k), Sigma(b, k))
  {
    var sb := Sigma(b, k);
    SigmaApply(a, b, k);
    MulOne(sb);
    ApplyCommute(a, k, sb, 1, One(|a|));
    MulComm(sb, Sigma(a, k));
  }

  lemma {:induction false} SigmaPow(a: Poly, e: nat, k: nat)
    requires |a| > 0 && k % 2 == 1
    ensures Sigma(Pow(a, e), k) == Pow(Sigma(a, k), e)
  {
    hide Apply, ShiftN;
    if e == 0 {
      SigmaOne(|a|, k);
    } else {
      var p := Pow(a, e - 1);
      SigmaPow(a, e - 1, k);
      SigmaMul(a, p, k);
      assert Pow(a, e) == Mul(a, p);
      assert Pow(Sigma(a, k), e) == Mul(Sigma(a, k), Sigma(p, k));
    }
  }

  lemma SigmaOne(n: nat, k: nat)
    requires n > 0
    ensures Sigma(One(n), k) == One(n)
  {
    assert One(n)[1..] == Zero(n - 1);
    ApplyZeros(n - 1, One(n), k);
    ShiftZero(n, k);
    assert Scale(1, One(n)) == One(n);
    AddZero(One(n));
  }

  lemma {:induction false} ApplyZeros(m: nat, b: Poly, k: nat)
    requires |b| > 0
    ensures Apply(Zero(m), b, k) == Zero(|b|)
  {
    if m > 0 {
      assert Zero(m)[1..] == Zero(m - 1);
      ApplyZeros(m - 1, b, k);
      ShiftZero(|b|, k);
      assert Scale(0, b) == Zero(|b|);
      AddZero(Zero(|b|));
    }
  }

  // ----- coefficients modulo m -----

  function Red(a: Poly, m: int): (r: seq<nat>)
    requires m > 0
    ensures |r| == |a|
  {
    seq(|a|, i requires 0 <= i < |a| => a[i] % m)
  }

  /** Equal modulo m, coefficient by coefficient. */
  ghost predicate Eqv(a: Poly, b: Poly, m: int)
    requires m > 0
  {
    |a| == |b| && forall i | 0 <= i < |a| :: a[i] % m == b[i] % m
  }

  lemma EqvRed(a: Poly, b: Poly, m: int)
    requires m > 0 && |a| == |b|
    ensures Eqv(a, b, m) <==> Red(a, m) == Red(b, m)
    ensures Eqv(Red(a, m), a, m)
    ensures Red(Red(a, m), m) == Red(a, m)
  {
    forall i | 0 <= i < |a| ensures (a[i] % m) % m == a[i] % m {
      ModMod(a[i], m);
    }
    if Red(a, m) == Red(b, m) {
      forall i | 0 <= i < |a| ensures a[i] % m == b[i] % m {
        assert Red(a, m)[i] == Red(b, m)[i];
      }
    }
  }

  lemma EqvAdd(a: Poly, a': Poly, b: Poly, b': Poly, m: int)
    requires m > 0 && |a| == |b| && Eqv(a, a', m) && Eqv(b, b', m)
    ensures Eqv(Add(a, b), Add(a', b'), m)
  {
    forall i | 0 <= i < |a| ensures (a[i] + b[i]) % m == (a'[i] + b'[i]) % m {
      ModAdd(a[i], a'[i], b[i], b'[i], m);
    }
  }

  lemma EqvScale(c: int, c': int, a: Poly, a': Poly, m: int)
    requires m > 0 && c % m == c' % m && Eqv(a, a', m)
    ensures Eqv(Scale(c, a), Scale(c', a'), m)
  {
    forall i | 0 <= i < |a| ensures (c * a[i]) % m == (c' * a'[i]) % m {
      ModMul(c, c', a[i], a'[i], m);
    }
  }

  /** The multiple of m that separates two equivalent polynomials. */
  function Diff(a: Poly, b: Poly, m: int): (r: Poly)
    requires m > 0 && |a| == |b|
    ensures |r| == |a|
  {
    seq(|a|, i requires 0 <= i < |a| => a[i] / m - b[i] / m)
  }

  lemma DiffIs(a: Poly, b: Poly, m: int)
    requires m > 0 && Eqv(a, b, m)
    ensures a == Add(b, Scale(m, Diff(a, b, m)))
  {
    forall i | 0 <= i < |a| ensures a[i] == b[i] + m * (a[i] / m - b[i] / m) {
      assert m * (a[i] / m - b[i] / m) == m * (a[i] / m) - m * (b[i] / m);
    }
  }

  lemma EqvShift(a: Poly, d: Poly, m: int)
    requires m > 0 && |a| == |d|
    ensures Eqv(Add(a, Scale(m, d)), a, m)
  {
    forall i | 0 <= i < |a| ensures (a[i] + m * d[i]) % m == a[i] % m {
      ModShift(a[i], d[i], m);
    }
  }

  lemma EqvMul(a: Poly, a': Poly, b: Poly, b': Poly, m: int)
    requires m > 0 && |a| == |b| > 0 && Eqv(a, a', m) && Eqv(b, b', m)
    ensures Eqv(Mul(a, b), Mul(a', b'), m)
  {
    hide Apply;
    var da, db := Diff(a, a', m), Diff(b, b', m);
    DiffIs(a, a', m);
    DiffIs(b, b', m);
    MulAdd(b, a', Scale(m, da));
    MulScale(m, da, b);
    EqvShift(Mul(a', b), Mul(da, b), m);
    MulAdd(a', b', Scale(m, db));
    MulScale(m, a', db);
    EqvShift(Mul(a', b'), Mul(a', db), m);
  }

  lemma EqvSigma(a: Poly, a': Poly, k: nat, m: int)
    requires m > 0 && |a| > 0 && Eqv(a, a', m)
    ensures Eqv(Sigma(a, k), Sigma(a', k), m)
  {
    var d := Diff(a, a', m);
    DiffIs(a, a', m);
    SigmaLinear(m, d, d, k);
    SigmaLinear(0, a', Scale(m, d), k);
    EqvShift(Sigma(a', k), Sigma(d, k), m);
  }
}
