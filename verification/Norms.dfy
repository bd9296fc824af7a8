/** Coefficient bounds of products. */
module Norms {
  import opened Residues
  import opened Ring
  import opened Rows

  ghost predicate Bounded(a: Poly, m: int) {
    forall i | 0 <= i < |a| :: -m <= a[i] <= m
  }

  lemma {:induction false} ApplyBounded(us: seq<int>, b: Poly, m: nat)
    requires |b| > 0 && Bounded(b, m)
    ensures Bounded(Mul(us, b), Norm1(us) * m)
  {
    hide Bounded, ShiftN, Add, Scale;
    if us == [] {
      ZeroBounded(|b|);
    } else {
      var t := Mul(us[1..], b);
      var u := if us[0] < 0 then -us[0] else us[0];
      ApplyBounded(us[1..], b, m);
      ShiftOne(t);
      ScaleBounded(us[0], b, u, m);
      ShiftBounded(t, Norm1(us[1..]) * m);
      AddBounded(Scale(us[0], b), Shift(t), u * m, Norm1(us[1..]) * m);
      assert (u + Norm1(us[1..])) * m == u * m + Norm1(us[1..]) * m;
    }
  }

  lemma ZeroBounded(n: nat)
    ensures Bounded(Zero(n), 0)
  {}

  lemma ScaleBounded(v: int, b: Poly, u: int, m: int)
    requires u >= 0 && m >= 0 && -u <= v <= u && Bounded(b, m)
    ensures Bounded(Scale(v, b), u * m)
  {
    forall i | 0 <= i < |b| ensures -(u * m) <= v * b[i] <= u * m {
      ProductBounded(v, b[i], u, m);
    }
  }

  lemma ShiftBounded(a: Poly, m: int)
    requires |a| > 0 && Bounded(a, m)
    ensures Bounded(Shift(a), m)
  {}

  lemma AddBounded(a: Poly, b: Poly, x: int, y: int)
    requires |a| == |b| && Bounded(a, x) && Bounded(b, y)
    ensures Bounded(Add(a, b), x + y)
  {}

  lemma ProductBounded(x: int, y: int, u: int, m: int)
    requires u >= 0 && m >= 0 && -u <= x <= u && -m <= y <= m
    ensures -(u * m) <= x * y <= u * m
  {
    var a, b := if x < 0 then -x else x, if y < 0 then -y else y;
    LeProduct(b, a, u);
    LeProduct(u, b, m);
    assert x * y == a * b || x * y == -(a * b);
  }

  /** Every partial sum of the schoolbook product stays under the bound of the product. */
  lemma PrefixBounded(a: Poly, i: nat, b: Poly, m: nat, hw: nat)
    requires |a| == |b| > 0 && i <= |a| && Bounded(a, m) && Norm1(b) <= hw
    ensures Bounded(Mul(a[..i], b), hw * m)
  {
    hide Apply;
    var padded := a[..i] + Zero(|a| - i);
    ApplyPad(a[..i], |a| - i, b);
    MulComm(padded, b);
    assert Bounded(padded, m);
    ApplyBounded(b, padded, m);
    LeProduct(m, Norm1(b), hw);
    BoundedUp(Mul(b, padded), Norm1(b) * m, hw * m);
  }

  lemma BoundedUp(a: Poly, x: int, y: int)
    requires x <= y && Bounded(a, x)
    ensures Bounded(a, y)
  {}

  lemma {:induction false} ApplyPad(us: seq<int>, z: nat, b: Poly)
    requires |b| > 0
    ensures Mul(us + Zero(z), b) == Mul(us, b)
  {
    hide ShiftN;
    if us == [] {
      assert [] + Zero(z) == Zero(z);
      ApplyZeros(z, b, 1);
    } else {
      assert (us + Zero(z))[1..] == us[1..] + Zero(z);
      ApplyPad(us[1..], z, b);
    }
  }
}
