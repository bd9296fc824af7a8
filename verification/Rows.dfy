/**
 Rows of a schoolbook product: what adding one rotated multiple of a factor to a reduced
 accumulator does, and the bookkeeping of reduced polynomials both schemes share.
 */
module Rows {
  import opened Residues
  import opened Ring

  ghost predicate Canonical(a: seq<int>, q: int) {
    forall i | 0 <= i < |a| :: 0 <= a[i] < q
  }

  predicate Ternary(s: seq<int>) {
    forall i | 0 <= i < |s| :: -1 <= s[i] <= 1
  }

  /** The 1-norm; for a ternary key, the number of non-zero coefficients. */
  function Norm1(s: seq<int>): (r: nat) {
    if s == [] then 0 else (if s[0] < 0 then -s[0] else s[0]) + Norm1(s[1..])
  }

  lemma RedCanonical(a: seq<nat>, q: int)
    requires q > 0 && Canonical(a, q)
    ensures Red(a, q) == a
  {
    forall i | 0 <= i < |a| ensures a[i] % q == a[i] {
      ModSmall(a[i], q);
    }
  }

  lemma RedAdd(a: Poly, b: Poly, q: int)
    requires q > 0 && |a| == |b|
    ensures Red(Add(Red(a, q), b), q) == Red(Add(a, b), q)
    ensures Red(Add(b, Red(a, q)), q) == Red(Add(b, a), q)
  {
    EqvRed(a, a, q);
    EqvAdd(Red(a, q), a, b, b, q);
    EqvAdd(b, b, Red(a, q), a, q);
    EqvRed(Add(Red(a, q), b), Add(a, b), q);
    EqvRed(Add(b, Red(a, q)), Add(b, a), q);
  }

  function Signed(neg: bool, mag: int): int {
    if neg then -mag else mag
  }

  /** The coefficient index of a that row j reads at position k. */
  function Source(k: nat, j: nat, n: nat): (i: nat)
    requires k < n && j < n
    ensures i < n
  {
    if k >= j then k - j else k + n - j
  }

  lemma RowAt(a: Poly, j: nat, v: int)
    requires j < |a|
    ensures forall k | 0 <= k < |a| ::
              Scale(v, ShiftN(a, j))[k] == (if k >= j then v else -v) * a[Source(k, j, |a|)]
  {
    ShiftNAt(a, j);
    forall k | 0 <= k < j ensures ShiftN(a, j)[k] * v == -v * a[Source(k, j, |a|)] {
      NegProduct(v, a[Source(k, j, |a|)]);
    }
  }

  lemma NegProduct(x: int, y: int)
    ensures -x * y == -(x * y) == x * -y == -y * x
  {}

  lemma TermStep(x: int, ai: nat, mag: nat, neg: bool, wrap: bool, q: nat)
    requires 0 < q && 0 <= x < q
    ensures var t := (if wrap then -Signed(neg, mag) else Signed(neg, mag)) * ai;
            && (if neg != wrap then x - (ai * mag) % q else x + (ai * mag) % q) % q == (x + t) % q
            && (ai == 0 ==> (x + t) % q == x)
  {
    ModMod(ai * mag, q);
    ModAdd(x, x, (ai * mag) % q, ai * mag, q);
    ModSmall(x, q);
    NegProduct(mag, ai);
  }

  /** The accumulator after one more coefficient of the left factor. */
  lemma RowStep(us: seq<int>, j: nat, b: Poly, k: nat, q: int)
    requires q > 0 && |b| > 0 && j < |us|
    ensures Red(Apply(us[..j + 1], b, k), q)
         == Red(Add(Red(Apply(us[..j], b, k), q), Scale(us[j], ShiftN(b, k * j))), q)
    ensures us[j] == 0 ==> Red(Apply(us[..j + 1], b, k), q) == Red(Apply(us[..j], b, k), q)
  {
    hide *;
    var pre := us[..j];
    TakeSnoc(us, j);
    NatProduct(k, j);
    ApplySnoc(pre, us[j], b, k);
    AccumulatorStep(Apply(pre, b, k), us[j], ShiftN(b, k * j), q);
  }

  lemma TakeSnoc<T>(s: seq<T>, j: nat)
    requires j < |s|
    ensures s[..j + 1] == s[..j] + [s[j]]
  {}

  lemma NatProduct(x: nat, y: nat)
    ensures x * y >= 0
  {}

  lemma AccumulatorStep(t: Poly, v: int, row: Poly, q: int)
    requires q > 0 && |t| == |row|
    ensures Red(Add(Red(t, q), Scale(v, row)), q) == Red(Add(t, Scale(v, row)), q)
    ensures v == 0 ==> Add(t, Scale(v, row)) == t
  {
    RedAdd(t, Scale(v, row), q);
  }

  lemma NoRows(us: seq<int>, b: Poly, k: nat, q: int)
    requires q > 0 && |b| > 0
    ensures us[..0] == [] && us[..|us|] == us
    ensures Red(Apply(us[..0], b, k), q) == Zero(|b|)
  {
    ModSmall(0, q);
    assert us[..0] == [];
  }

  lemma {:induction false} NoMoreRows(s: seq<int>, j: nat, a: Poly)
    requires |a| > 0 && j <= |s| && (j < |s| ==> Norm1(s[j..]) == 0)
    ensures Mul(s[..j], a) == Mul(s, a)
    decreases |s| - j
  {
    if j == |s| {
      assert s[..j] == s;
    } else {
      assert s[j..][1..] == s[j + 1..] && s[..j + 1] == s[..j] + [s[j]];
      assert s[j] == 0;
      ApplySnoc(s[..j], s[j], a, 1);
      assert Add(Mul(s[..j], a), Scale(0, ShiftN(a, j))) == Mul(s[..j], a);
      NoMoreRows(s, j + 1, a);
    }
  }

  lemma RedOk(a: Poly, q: int)
    requires q > 0
    ensures Canonical(Red(a, q), q) && |Red(a, q)| == |a| && Eqv(Red(a, q), a, q)
  {
    EqvRed(a, a, q);
  }

  /** Adding reduced rows reduces the sum. */
  lemma RedSum(c: Poly, t: Poly, q: int)
    requires q > 0 && |c| == |t|
    ensures Canonical(Red(c, q), q) && Canonical(Red(t, q), q) && |Red(c, q)| == |Red(t, q)| == |c|
    ensures Red(Add(Red(c, q), Red(t, q)), q) == Red(Add(c, t), q)
  {
    RedOk(c, q);
    RedOk(t, q);
    hide Red, Eqv;
    EqvAdd(Red(c, q), c, Red(t, q), t, q);
    EqvRed(Add(Red(c, q), Red(t, q)), Add(c, t), q);
  }

  lemma RedZero(n: nat, q: int)
    requires q > 1
    ensures Red(Zero(n), q) == Zero(n)
  {
    ModSmall(0, q);
  }

  lemma CanonicalUp(a: seq<int>, q: int, m: int)
    requires Canonical(a, q) && q <= m
    ensures Canonical(a, m)
  {}
}
