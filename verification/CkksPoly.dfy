/** Polynomial kernels modulo one chain prime: each loop against the ring's own operation. */
module CkksPoly {
  import opened Residues
  import opened Rows
  import opened Ring
  import opened CkksArith

  /**
   The inner loop shared by the product kernels: add the row Signed(neg, mag) * x^j * a to
   the accumulator, with the sign turned over where the degree wraps.
   */
  method AddRow(buf: array<nat>, neg: bool, mag: nat, j: nat, a: seq<nat>, q: nat)
    requires 0 < q && 2 * q <= U64 && j < |a| == buf.Length
    requires Canonical(a, q) && Canonical(buf[..], q)
    modifies buf
    ensures buf[..] == Red(Add(old(buf[..]), Scale(Signed(neg, mag), ShiftN(a, j))), q)
  {
    hide Apply, ShiftN;
    var n := |a|;
    ghost var was := buf[..];
    ghost var row := Scale(Signed(neg, mag), ShiftN(a, j));
    ghost var goal := Red(Add(was, row), q);
    RowAt(a, j, Signed(neg, mag));
    for i := 0 to n
      invariant forall k | 0 <= k < n :: buf[k] == if Source(k, j, n) < i then goal[k] else was[k]
    {
      ghost var kk := if i + j < n then i + j else i + j - n;
      TermStep(was[kk], a[i], mag, neg, i + j >= n, q);
      assert Source(kk, j, n) == i && was[kk] in was;
      assert goal[kk] == (was[kk] + row[kk]) % q;
      if a[i] != 0 {
        var v := MulMod(a[i], mag, q);
        var k := i + j;
        if k < n {
          buf[k] := if neg then SubMod(buf[k], v, q) else AddMod(buf[k], v, q);
        } else {
          buf[k - n] := if neg then AddMod(buf[k - n], v, q) else SubMod(buf[k - n], v, q);
        }
      }
      assert buf[kk] == goal[kk];
    }
    assert buf[..] == goal;
  }

  /** The textbook product modulo x^n + 1. */
  method PolyMul(a: seq<nat>, b: seq<nat>, q: nat) returns (c: seq<nat>)
    requires 0 < q && 2 * q <= U64 && |a| == |b| > 0 && Canonical(a, q) && Canonical(b, q)
    ensures c == Red(Mul(a, b), q)
  {
    hide Apply, ShiftN;
    var n := |a|;
    var buf := new nat[n](_ => 0);
    NoRows(a, b, 1, q);
    assert buf[..] == Zero(n);
    for i := 0 to n
      invariant buf[..] == Red(Mul(a[..i], b), q)
    {
      RowStep(a, i, b, 1, q);
      if a[i] != 0 {
        AddRow(buf, false, a[i], i, b, q);
      }
    }
    c := buf[..];
  }

  /** a times a signed polynomial, one row for each non-zero coefficient of the latter. */
  method PolyMulSigned(a: seq<nat>, spow: seq<int64>, q: nat) returns (c: seq<nat>)
    requires 0 < q && 2 * q <= U64 && |a| == |spow| > 0 && Canonical(a, q)
    ensures c == Red(Mul(Ints(spow), a), q)
  {
    hide Apply, ShiftN;
    var n := |a|;
    var buf := new nat[n](_ => 0);
    ghost var s := Ints(spow);
    NoRows(s, a, 1, q);
    assert buf[..] == Zero(n);
    for j := 0 to n
      invariant buf[..] == Red(Mul(s[..j], a), q)
    {
      RowStep(s, j, a, 1, q);
      var sv := spow[j];
      if sv != 0 {
        var neg := sv < 0;
        var mag := if neg then W64(-(sv as int)) else W64(sv as int);
        AddRow(buf, neg, mag, j, a, q);
      }
    }
    c := buf[..];
  }

  function Ints(a: seq<int64>): (r: Poly)
    ensures |r| == |a|
    ensures forall i | 0 <= i < |a| :: r[i] == a[i] as int
  {
    seq(|a|, i requires 0 <= i < |a| => a[i] as int)
  }

  /** a times a ternary key; the scan stops once hw non-zero key coefficients were met. */
  method PolyMulSparse(a: seq<nat>, s: seq<int>, q: nat, hw: nat) returns (c: seq<nat>)
    requires 1 < q && 2 * q <= U64 && |a| == |s| > 0 && Canonical(a, q)
    requires Ternary(s) && Norm1(s) <= hw
    ensures c == Red(Mul(s, a), q)
  {
    hide Apply, ShiftN;
    var n := |a|;
    var buf := new nat[n](_ => 0);
    NoRows(s, a, 1, q);
    assert buf[..] == Zero(n);
    var cnt, j := 0, 0;
    assert s[0..] == s;
    while j < n && cnt < hw
      invariant 0 <= j <= n
      invariant cnt + Norm1(s[j..]) <= hw
      invariant buf[..] == Red(Mul(s[..j], a), q)
    {
      RowStep(s, j, a, 1, q);
      assert s[j..][1..] == s[j + 1..];
      if s[j] != 0 {
        cnt := cnt + 1;
        AddRow(buf, s[j] < 0, 1, j, a, q);
      }
      j := j + 1;
    }
    NoMoreRows(s, j, a);
    c := buf[..];
  }

  // ----- the substitution x -> x^k -----

  lemma {:induction false} ShiftNMod(a: Poly, e: nat)
    requires |a| > 0
    ensures ShiftN(a, e) == ShiftN(a, e % (2 * |a|))
  {
    hide ShiftN;
    var m := 2 * |a|;
    if e < m {
      ModSmall(e, m);
    } else {
      ShiftNMod(a, e - m);
      ModShift(e - m, 1, m);
      ShiftNAdd(a, m, e - m);
      ShiftWrap(a);
    }
  }

  /** x^e for e < 2n is a single coefficient, negative once the degree wraps. */
  lemma MonomialAt(n: nat, e: nat)
    requires n > 0 && e < 2 * n
    ensures forall i | 0 <= i < n ::
              ShiftN(One(n), e)[i] == if i == e then 1 else if i + n == e then -1 else 0
  {
    if e < n {
      ShiftNAt(One(n), e);
    } else {
      ShiftNAdd(One(n), n, e - n);
      ShiftWrap(One(n));
      ShiftNAt(Scale(-1, One(n)), e - n);
    }
  }

  method Galois(a: seq<nat>, k: nat, q: nat) returns (out: seq<nat>)
    requires 0 < q && 2 * q <= U64 && |a| > 0 && Canonical(a, q)
    ensures out == Red(Sigma(a, k), q)
  {
    hide Apply, ShiftN;
    var n := |a|;
    var n2 := 2 * n;
    ghost var one := One(n);
    var buf := new nat[n](_ => 0);
    NoRows(a, one, k, q);
    assert buf[..] == Zero(n);
    for i := 0 to n
      invariant buf[..] == Red(Apply(a[..i], one, k), q)
    {
      var idx := ((i % n2) * (k % n2)) % n2;
      NatProduct(k, i);
      RowStep(a, i, one, k, q);
      IndexMod(i, k, n2);
      ShiftNMod(one, k * i);
      ghost var was := buf[..];
      if a[i] != 0 {
        if idx < n {
          buf[idx] := AddMod(buf[idx], a[i], q);
        } else {
          buf[idx - n] := SubMod(buf[idx - n], a[i], q);
        }
        MonomialStep(was, buf[..], a[i], idx, q);
      }
    }
    out := buf[..];
  }

  lemma IndexMod(i: nat, k: nat, n2: nat)
    requires n2 > 0
    ensures ((i % n2) * (k % n2)) % n2 == (k * i) % n2
  {
    ModMod(i, n2);
    ModMod(k, n2);
    ModMul(i % n2, i, k % n2, k, n2);
  }

  /** Adding v at index e, or subtracting it at e - n, adds v * x^e. */
  lemma MonomialStep(was: seq<nat>, now: seq<nat>, v: int, e: nat, q: int)
    requires 0 < q && |was| == |now| > 0 && e < 2 * |was| && Canonical(was, q)
    requires forall m | 0 <= m < |was| ::
               now[m] == if m == e then (was[m] + v) % q else if m + |was| == e then (was[m] - v) % q else was[m]
    ensures now == Red(Add(was, Scale(v, ShiftN(One(|was|), e))), q)
  {
    hide ShiftN;
    MonomialAt(|was|, e);
    RedCanonical(was, q);
  }
}
