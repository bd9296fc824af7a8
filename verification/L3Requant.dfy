/**
 When a block that was rounded to int8 packs to its old payload again: exactly when the largest
 magnitude of every half payload is a whole number of int8 steps and, below seven steps, no nibble
 occurs that so coarse a grid merges with a neighbour.
 */
module L3Requant {
  import opened Residues
  import opened L3Quant
  import opened L3Layout
  import opened L3Int8

  /** How many int8 steps of a row with maximum m the largest magnitude of a half payload spans. */
  function Steps(scale: real, m: real): real
    requires m > 0.0
  {
    Ratio(889.0 * scale, m)
  }

  /** Whether nibble k survives a grid of j steps: with seven steps or more every nibble does. */
  predicate Survives(j: int, k: int) {
    var a := if k < 0 then -k else k;
    match j
    case 1 => a !in {1, 2, 3, 4, 5, 6}
    case 2 => a !in {1, 2, 3, 5, 6}
    case 3 => a !in {1, 3, 4, 6}
    case 4 => a !in {1, 3, 6}
    case 5 => a !in {2, 5}
    case 6 => a != 3
    case _ => true
  }

  predicate AllZero(ks: seq<int>) {
    forall i | 0 <= i < |ks| :: ks[i] == 0
  }

  /** The condition on one half payload: its nibbles, its scale, the row maximum. */
  predicate HalfKept(ks: seq<int>, scale: real, m: real)
    requires m > 0.0
  {
    AllZero(ks)
    || (Steps(scale, m) == Steps(scale, m).Floor as real
        && forall i | 0 <= i < |ks| :: Survives(Steps(scale, m).Floor, ks[i]))
  }

  // ----- one nibble on a grid of j steps -----

  /** k sevenths of j, to the nearest whole number. */
  function Coarse(j: int, k: int): int {
    (2 * k * j + 7) / 14
  }

  lemma CoarseIs(j: int, k: int, y: real)
    requires 7.0 * y == (k * j) as real
    ensures (y + 0.5).Floor == Coarse(j, k)
  {
    var q, d := k * j, Coarse(j, k);
    assert 2 * k * j == 2 * q;
    assert 14 * d <= 2 * q + 7 < 14 * d + 14;
  }

  lemma CoarseBound(j: int, k: int)
    requires j >= 1 && -7 <= k <= 7
    ensures -j <= Coarse(j, k) <= j
    ensures k == 7 ==> Coarse(j, k) == j
    ensures k == -7 ==> Coarse(j, k) == -j
    ensures -7 <= 14 * Coarse(j, k) - 2 * (k * j) <= 7
  {
    var q := k * j;
    assert 2 * k * j == 2 * q;
    NatMul(7 - k, j);
    NatMul(k + 7, j);
    assert (7 - k) * j == 7 * j - q && (k + 7) * j == q + 7 * j;
  }

  /** Back on the old grid, a nibble is itself exactly when it survives. */
  lemma SurvivesIs(j: int, k: int, z: real)
    requires j >= 1 && -7 <= k <= 7 && z * j as real == 7.0 * Coarse(j, k) as real
    ensures Round(z) == k <==> Survives(j, k)
  {
    if j >= 7 {
      CoarseBound(j, k);
      FineGrid(j, k, Coarse(j, k), z);
    } else {
      hide Round;
      CoarseGrid(j, k, z);
    }
  }

  lemma FineGrid(j: int, k: int, q: int, z: real)
    requires j >= 7 && -7 <= 14 * q - 2 * (k * j) <= 7 && z * j as real == 7.0 * q as real
    ensures Round(z) == k
  {
    var d := z - k as real;
    var x := j as real;
    var p := 14 * q - 2 * (k * j);
    assert d * x == z * x - k as real * x;
    assert k as real * x == (k * j) as real;
    assert 2.0 * (d * x) == p as real;
    if j == 7 {
      assert p == 7 * (2 * q - 2 * k);
      assert p == 0 || p == 7 || p == -7;
      assert p == 0;
      assert d == 0.0 by { assert d * 7.0 == 0.0; }
    } else {
      GapBelow(d, x);
    }
    RoundHits(z, k);
  }

  lemma GapBelow(d: real, x: real)
    requires x >= 8.0 && -3.5 <= d * x <= 3.5
    ensures -0.5 < d < 0.5
  {
    assert d >= 0.5 ==> d * x >= 0.5 * x;
    assert d <= -0.5 ==> d * x <= -0.5 * x;
  }

  lemma RoundHits(z: real, k: int)
    requires -0.5 < z - k as real < 0.5
    ensures Round(z) == k
  {}

  lemma CoarseGrid(j: int, k: int, z: real)
    requires 1 <= j <= 6 && -7 <= k <= 7 && z * j as real == 7.0 * Coarse(j, k) as real
    ensures Round(z) == k <==> Survives(j, k)
  {
    match j
    case 1 => Grid1(k, z);
    case 2 => Grid2(k, z);
    case 3 => Grid3(k, z);
    case 4 => Grid4(k, z);
    case 5 => Grid5(k, z);
    case 6 => Grid6(k, z);
  }

  lemma Grid1(k: int, z: real)
    requires -7 <= k <= 7 && z == 7.0 * Coarse(1, k) as real
    ensures Round(z) == k <==> Survives(1, k)
  {}

  lemma Grid2(k: int, z: real)
    requires -7 <= k <= 7 && z * 2.0 == 7.0 * Coarse(2, k) as real
    ensures Round(z) == k <==> Survives(2, k)
  {}

  lemma Grid3(k: int, z: real)
    requires -7 <= k <= 7 && z * 3.0 == 7.0 * Coarse(3, k) as real
    ensures Round(z) == k <==> Survives(3, k)
  {}

  lemma Grid4(k: int, z: real)
    requires -7 <= k <= 7 && z * 4.0 == 7.0 * Coarse(4, k) as real
    ensures Round(z) == k <==> Survives(4, k)
  {}

  lemma Grid5(k: int, z: real)
    requires -7 <= k <= 7 && z * 5.0 == 7.0 * Coarse(5, k) as real
    ensures Round(z) == k <==> Survives(5, k)
  {}

  lemma Grid6(k: int, z: real)
    requires -7 <= k <= 7 && z * 6.0 == 7.0 * Coarse(6, k) as real
    ensures Round(z) == k <==> Survives(6, k)
  {}

  // ----- one half payload -----

  /** What int8 rounding makes of nibble k. */
  function Rounded(k: int, s: real, m: real): (q: int)
    requires m > 0.0
  {
    Q8(Value(k, s), Ratio(127.0, m))
  }

  /** The value read back. */
  function Reread(k: int, s: real, m: real): real
    requires m > 0.0
  {
    Value(Rounded(k, s, m), Ratio(m, 127.0))
  }

  lemma Cancel(x: real, y: real, s: real)
    requires s > 0.0 && x * s == y * s
    ensures x == y
  {
    TimesOrder(x, y, s);
  }

  lemma StepsIs(s: real, m: real)
    requires m > 0.0
    ensures Steps(s, m) * m == 889.0 * s
  {}

  /** Nibble k lies at k sevenths of the steps. */
  lemma GridPoint(k: int, s: real, m: real)
    requires m > 0.0
    ensures 7.0 * Times(Value(k, s), Ratio(127.0, m)) == k as real * Steps(s, m)
  {
    var u, x, n := Ratio(127.0, m), Steps(s, m), k as real;
    assert u * m == 127.0;
    StepsIs(s, m);
    hide Ratio, Steps;
    assert (7.0 * ((n * s) * u)) * m == 7.0 * (n * s) * (u * m);
    assert (n * x) * m == n * (x * m);
    assert 7.0 * (n * s) * 127.0 == n * (889.0 * s);
    Cancel(7.0 * ((n * s) * u), n * x, m);
  }

  /** On whole steps, rounding is to the nearest whole seventh. */
  lemma RoundedIs(k: int, s: real, m: real, j: int)
    requires m > 0.0 && -7 <= k <= 7 && 1 <= j <= 127 && Steps(s, m) == j as real
    ensures Rounded(k, s, m) == Coarse(j, k)
  {
    GridPoint(k, s, m);
    var y := Times(Value(k, s), Ratio(127.0, m));
    assert k as real * j as real == (k * j) as real;
    CoarseBound(j, k);
    hide Coarse, Value, Ratio, Times, Steps;
    CoarseIs(j, k, y);
  }

  /** A value of q steps, on the old grid. */
  lemma RereadRatio(q: int, s: real, m: real, j: int)
    requires m > 0.0 && s > 0.0 && j >= 1 && Steps(s, m) == j as real
    ensures Ratio(Value(q, Ratio(m, 127.0)), s) * j as real == 7.0 * q as real
    ensures Value(j, Ratio(m, 127.0)) == 7.0 * s
  {
    StepsIs(s, m);
    var x, n := j as real, q as real;
    var y := Value(q, Ratio(m, 127.0));
    assert y * 127.0 == n * m;
    assert Value(j, Ratio(m, 127.0)) * 127.0 == x * m;
    var z := Ratio(y, s);
    assert z * s == y;
    hide Ratio, Value, Steps;
    assert (z * x) * m == z * (x * m) == z * (889.0 * s) == 889.0 * (z * s);
    assert (7.0 * n) * m == 7.0 * (n * m);
    Cancel(z * x, 7.0 * n, m);
  }

  /** On whole steps: the largest nibble keeps its magnitude, none exceeds it, and k comes back as it survives. */
  lemma RereadIs(k: int, s: real, m: real, j: int)
    requires m > 0.0 && s > 0.0 && -7 <= k <= 7 && 1 <= j <= 127 && Steps(s, m) == j as real
    ensures Abs(Reread(k, s, m)) <= 7.0 * s
    ensures k == 7 || k == -7 ==> Abs(Reread(k, s, m)) == 7.0 * s
    ensures Quant(Reread(k, s, m), s) == k <==> Survives(j, k)
  {
    var q := Coarse(j, k);
    RoundedIs(k, s, m, j);
    RereadRatio(q, s, m, j);
    CoarseBound(j, k);
    var y := Ratio(m, 127.0);
    assert y > 0.0;
    SurvivesIs(j, k, Ratio(Value(q, y), s));
    hide Coarse, Ratio, Steps, Rounded, Quant, Round;
    StepRange(q, j, y);
    QuantIs(Value(q, y), s, k);
  }

  lemma StepRange(q: int, j: int, y: real)
    requires y > 0.0 && -j <= q <= j
    ensures Abs(Value(q, y)) <= Value(j, y)
    ensures q == j || q == -j ==> Abs(Value(q, y)) == Value(j, y)
  {
    TimesOrder(q as real, j as real, y);
    TimesOrder(-(j as real), q as real, y);
    assert Times(-(j as real), y) == -Times(j as real, y);
  }

  lemma QuantIs(x: real, s: real, k: int)
    requires s > 0.0 && -7 <= k <= 7 && Abs(x) <= 7.0 * s
    ensures Quant(x, s) == k <==> Round(Ratio(x, s)) == k
  {
    hide Ratio, Round;
    RatioBound(x, s);
    RoundWithin(Ratio(x, s));
  }

  /** The largest magnitude read back is a whole number of steps. */
  lemma WholeSteps(k: int, s: real, m: real)
    requires m > 0.0 && s > 0.0 && Abs(Reread(k, s, m)) == 7.0 * s
    ensures Steps(s, m) == Abs(Rounded(k, s, m) as real)
  {
    var q := Rounded(k, s, m) as real;
    StepsIs(s, m);
    assert Reread(k, s, m) * 127.0 == q * m;
    hide Rounded, Reread, Steps;
    if q >= 0.0 {
      SignOf(q, m);
      Cancel(Steps(s, m), q, m);
    } else {
      SignOf(-q, m);
      assert (-q) * m == -(q * m);
      Cancel(Steps(s, m), -q, m);
    }
  }

  lemma WholeFloor(x: real, q: int)
    requires 0.0 < x <= 127.0 && x == Abs(q as real)
    ensures x == x.Floor as real && 1 <= x.Floor <= 127
  {}

  lemma SignOf(q: real, m: real)
    requires q >= 0.0 && m > 0.0
    ensures q * m >= 0.0
  {}

  function NibblesOf(v: seq<real>, s: real): (ks: seq<int>)
    requires s > 0.0
    ensures |ks| == |v|
  {
    seq(|v|, i requires 0 <= i < |v| => Quant(v[i], s))
  }

  function RereadAll(ks: seq<int>, s: real, m: real): (u: seq<real>)
    requires m > 0.0
    ensures |u| == |ks|
  {
    seq(|ks|, i requires 0 <= i < |ks| => Reread(ks[i], s, m))
  }

  /** A half is packed to the same scale and nibbles. */
  ghost predicate SameHalf(u: seq<real>, v: seq<real>) {
    Scale(u) == Scale(v) && NibblesOf(u, Scale(v)) == NibblesOf(v, Scale(v))
  }

  /** The nibbles of a packed half reach 7 in magnitude unless the half is zero. */
  lemma NibbleRange(v: seq<real>)
    ensures forall i | 0 <= i < |v| :: -7 <= NibblesOf(v, Scale(v))[i] <= 7
    ensures Amax(v) > 0.0 ==> exists i :: 0 <= i < |v| && Abs(NibblesOf(v, Scale(v))[i] as real) == 7.0
    ensures Amax(v) == 0.0 ==> AllZero(NibblesOf(v, Scale(v)))
  {
    ScaleFits(v);
    var s := Scale(v);
    if Amax(v) > 0.0 {
      forall i | 0 <= i < |v| ensures -7 <= Quant(v[i], s) <= 7 && (Abs(v[i]) == Amax(v) ==> Abs(Quant(v[i], s) as real) == 7.0) {
        NibbleAt7(v[i], s, Amax(v));
      }
      var i :| 0 <= i < |v| && Abs(v[i]) == Amax(v);
      assert Abs(NibblesOf(v, s)[i] as real) == 7.0;
    } else {
      hide Quant;
      ZeroQuant();
    }
  }

  lemma NibbleAt7(x: real, s: real, a: real)
    requires s > 0.0 && a == 7.0 * s && Abs(x) <= a
    ensures -7 <= Quant(x, s) <= 7 && (Abs(x) == a ==> Abs(Quant(x, s) as real) == 7.0)
  {
    hide Ratio, Round;
    RatioBound(x, s);
    RoundWithin(Ratio(x, s));
  }

  /** The exact condition for one half. */
  lemma HalfRequant(v: seq<real>, m: real)
    requires m > 0.0 && Amax(v) <= m
    ensures var ks := NibblesOf(v, Scale(v));
            SameHalf(RereadAll(ks, Scale(v), m), v) <==> HalfKept(ks, Scale(v), m)
  {
    var s, ks := Scale(v), NibblesOf(v, Scale(v));
    NibbleRange(v);
    ScaleFits(v);
    if Amax(v) == 0.0 {
      hide Amax, Scale;
      ZeroHalf(v, m);
    } else {
      StepsBound(s, m);
      hide Quant, Steps, Reread, Amax, Scale, SameHalf, HalfKept, NibblesOf;
      if SameHalf(RereadAll(ks, s, m), v) { SameThenKept(v, m); }
      if HalfKept(ks, s, m) { KeptThenSame(v, m); }
    }
  }

  lemma StepsBound(s: real, m: real)
    requires m > 0.0 && 0.0 < 7.0 * s <= m
    ensures 0.0 < Steps(s, m) <= 127.0
  {
    StepsIs(s, m);
    var x := Steps(s, m);
    hide Steps;
    TimesOrder(x, 127.0, m);
    TimesOrder(x, 0.0, m);
  }

  lemma ZeroHalf(v: seq<real>, m: real)
    requires m > 0.0 && Amax(v) == 0.0 && Scale(v) == 1.0 && AllZero(NibblesOf(v, Scale(v)))
    ensures var ks := NibblesOf(v, Scale(v)); SameHalf(RereadAll(ks, Scale(v), m), v) && HalfKept(ks, Scale(v), m)
  {
    var ks := NibblesOf(v, 1.0);
    var u := RereadAll(ks, 1.0, m);
    RereadZero(m);
    ZeroQuant();
    hide Reread, Quant, Amax, Scale;
    assert forall i | 0 <= i < |u| :: u[i] == 0.0;
    ZeroAmax(u);
    assert NibblesOf(u, 1.0) == ks;
  }

  lemma ZeroAmax(u: seq<real>)
    requires forall i | 0 <= i < |u| :: u[i] == 0.0
    ensures Amax(u) == 0.0 && Scale(u) == 1.0
  {
    AmaxIs(u, 0.0);
  }

  lemma RereadZero(m: real)
    requires m > 0.0
    ensures Reread(0, 1.0, m) == 0.0
  {
    assert Times(0.0, Ratio(127.0, m)) == 0.0;
    assert (0.0 + 0.5).Floor == 0;
  }

  /** Repacking to the same half makes the largest magnitude whole steps, and every nibble survive. */
  lemma SameThenKept(v: seq<real>, m: real)
    requires m > 0.0 && 0.0 < Amax(v) <= m
    requires SameHalf(RereadAll(NibblesOf(v, Scale(v)), Scale(v), m), v)
    ensures HalfKept(NibblesOf(v, Scale(v)), Scale(v), m)
  {
    var s, ks := Scale(v), NibblesOf(v, Scale(v));
    var u := RereadAll(ks, s, m);
    ScaleFits(v);
    ScaleFits(u);
    NibbleRange(v);
    NibbleRange(u);
    StepsBound(s, m);
    hide Steps, Reread, Scale, Quant, NibblesOf;
    if Amax(u) == 0.0 {
      assert AllZero(ks);
    } else {
      var i :| 0 <= i < |u| && Abs(u[i]) == Amax(u);
      assert u[i] == Reread(ks[i], s, m);
      assert NibblesOf(u, s) == ks;
      WholeSteps(ks[i], s, m);
      WholeFloor(Steps(s, m), Rounded(ks[i], s, m));
      hide *;
      NibblesSurvive(u, ks, s, m, Steps(s, m).Floor);
    }
  }

  lemma NibblesSurvive(u: seq<real>, ks: seq<int>, s: real, m: real, j: int)
    requires m > 0.0 && s > 0.0 && 1 <= j <= 127 && Steps(s, m) == j as real && u == RereadAll(ks, s, m)
    requires NibblesOf(u, s) == ks && forall n | 0 <= n < |ks| :: -7 <= ks[n] <= 7
    ensures forall n | 0 <= n < |ks| :: Survives(j, ks[n])
  {
    hide Reread, Quant, Steps, Survives;
    forall n | 0 <= n < |ks| ensures Survives(j, ks[n]) {
      assert NibblesOf(u, s)[n] == ks[n];
      RereadIs(ks[n], s, m, j);
    }
  }

  lemma KeptThenSame(v: seq<real>, m: real)
    requires m > 0.0 && 0.0 < Amax(v) <= m
    requires HalfKept(NibblesOf(v, Scale(v)), Scale(v), m)
    ensures SameHalf(RereadAll(NibblesOf(v, Scale(v)), Scale(v), m), v)
  {
    var s, ks := Scale(v), NibblesOf(v, Scale(v));
    var u := RereadAll(ks, s, m);
    ScaleFits(v);
    NibbleRange(v);
    StepsBound(s, m);
    var j := Steps(s, m).Floor;
    hide Steps, Reread, Amax, Quant, Survives;
    forall n | 0 <= n < |ks| ensures Abs(u[n]) <= 7.0 * s && (Abs(ks[n] as real) == 7.0 ==> Abs(u[n]) == 7.0 * s) && Quant(u[n], s) == ks[n] {
      RereadIs(ks[n], s, m, j);
    }
    AmaxIs(u, 7.0 * s);
    assert NibblesOf(u, s) == ks;
  }

  // ----- one payload -----

  /** The nibbles of sixteen bytes. */
  function NibbleList(b: seq<Cell>): (ks: seq<int>)
    requires |b| == 16
    ensures |ks| == 32
  {
    seq(32, i requires 0 <= i < 32 => Nibble(b[i / 2], i % 2 == 1))
  }

  lemma NibbleListIs(v: seq<real>, s: real)
    requires |v| == 32 && s > 0.0
    ensures NibbleList(Nibbles(v, s)) == NibblesOf(v, s)
  {
    hide Quant, Nibble;
    forall i | 0 <= i < 32 ensures NibbleList(Nibbles(v, s))[i] == NibblesOf(v, s)[i] {
      var h := i / 2;
      ByteNibbles(Quant(v[2 * h], s), Quant(v[2 * h + 1], s));
      assert i == 2 * h || i == 2 * h + 1;
    }
  }

  /** The restoring step is the reading step, except for the one tiny scale; there only zeros stay. */
  predicate HalfStays(ks: seq<int>, scale: real, s: real, reader: real) {
    if reader == RowMax(s) then HalfKept(ks, scale, reader) else AllZero(ks)
  }

  /** The condition on a payload whose row has scale s. */
  predicate PayloadStays(p: seq<Cell>, s: real, reader: real)
    requires |p| == PAYLOAD
  {
    && HalfStays(NibbleList(p[4..20]), ScaleAt(p[0]), s, reader)
    && HalfStays(NibbleList(p[24..40]), ScaleAt(p[20]), s, reader)
  }

  /** Two rows have the same payload exactly when both halves do. */
  lemma SamePayload(u: Group, v: Group)
    requires |u| == |v| == 64
    ensures Pack64(u) == Pack64(v) <==> SameHalf(u[..32], v[..32]) && SameHalf(u[32..], v[32..])
  {
    hide Nibbles, Scale, Quant;
    Halves(u);
    Halves(v);
    NibbleListIs(u[..32], Scale(v[..32]));
    NibbleListIs(v[..32], Scale(v[..32]));
    NibbleListIs(u[32..], Scale(v[32..]));
    NibbleListIs(v[32..], Scale(v[32..]));
    if SameHalf(u[..32], v[..32]) { SameBytes(u[..32], v[..32]); }
    if SameHalf(u[32..], v[32..]) { SameBytes(u[32..], v[32..]); }
  }

  lemma SameBytes(u: seq<real>, v: seq<real>)
    requires |u| == |v| == 32 && SameHalf(u, v)
    ensures Nibbles(u, Scale(u)) == Nibbles(v, Scale(v))
  {
    hide Quant, Scale;
    forall i | 0 <= i < 32 ensures Quant(u[i], Scale(v)) == Quant(v[i], Scale(v)) {
      assert NibblesOf(u, Scale(v))[i] == NibblesOf(v, Scale(v))[i];
    }
    SameNibbles(v, u, Scale(v));
  }

  /** A half of a restored row. */
  lemma HalfAgain(v: Group, half: seq<real>, s: real, reader: real, k: nat)
    requires |v| == 64 && (k == 0 || k == 32) && half == v[k..k + 32]
    ensures RowAgain(v, s, reader)[k..k + 32]
         == seq(32, i requires 0 <= i < 32 =>
              Value(Rounded(NibblesOf(half, Scale(half))[i], Scale(half), RowMax(s)), Ratio(reader, 127.0)))
  {
    hide Quant, Scale, Value, Q8, Ratio, Dequant64, Pack64, Dequant32, Nibbles, RowMax;
    assert half == if k == 0 then v[..32] else v[32..];
    forall i | 0 <= i < 32
      ensures Dequant64(Pack64(v))[k + i] == Value(NibblesOf(half, Scale(half))[i], Scale(half))
    {
      Dequant64At(v, k + i);
      NibblesBack(half, Scale(half), i);
    }
  }

  /** The exact condition for one payload. */
  lemma PayloadRequant(v: Group, s: real, reader: real)
    requires RowFits64(v, s) && (reader == s || reader == RowMax(s))
    ensures Pack64(RowAgain(v, s, reader)) == Pack64(v) <==> PayloadStays(Pack64(v), s, reader)
  {
    var u := RowAgain(v, s, reader);
    HalfBelow(v, 0, s);
    HalfBelow(v, 32, s);
    RowMaxAtLeast(s);
    SamePayload(u, v);
    PayloadParts(v);
    hide *;
    TwoHalves(v);
    TwoHalves(u);
    HalfDecides(v, v[..32], u[..32], s, reader, 0);
    HalfDecides(v, v[32..], u[32..], s, reader, 32);
    PayloadStaysIs(v, s, reader);
  }

  lemma TwoHalves(u: Group)
    requires |u| == 64
    ensures u[0..32] == u[..32] && u[32..64] == u[32..]
  {}

  lemma PayloadStaysIs(v: Group, s: real, reader: real)
    requires |v| == 64
    ensures |Pack64(v)| == PAYLOAD
    ensures var p := Pack64(v);
            PayloadStays(p, s, reader) <==> HalfStays(NibbleList(p[4..20]), ScaleAt(p[0]), s, reader)
                                            && HalfStays(NibbleList(p[24..40]), ScaleAt(p[20]), s, reader)
  {}

  lemma RowMaxAtLeast(s: real)
    requires s >= 0.0
    ensures RowMax(s) >= s
  {}

  lemma PayloadParts(v: Group)
    requires |v| == 64
    ensures var p := Pack64(v);
            && ScaleAt(p[0]) == Scale(v[..32]) && NibbleList(p[4..20]) == NibblesOf(v[..32], Scale(v[..32]))
            && ScaleAt(p[20]) == Scale(v[32..]) && NibbleList(p[24..40]) == NibblesOf(v[32..], Scale(v[32..]))
  {
    hide Nibbles, Scale, Quant;
    Halves(v);
    NibbleListIs(v[..32], Scale(v[..32]));
    NibbleListIs(v[32..], Scale(v[32..]));
  }

  lemma HalfDecides(v: Group, half: seq<real>, u: seq<real>, s: real, reader: real, k: nat)
    requires RowFits64(v, s) && (reader == s || reader == RowMax(s)) && (k == 0 || k == 32)
    requires half == v[k..k + 32] && u == RowAgain(v, s, reader)[k..k + 32] && Amax(half) <= s <= RowMax(s)
    ensures SameHalf(u, half) <==> HalfStays(NibblesOf(half, Scale(half)), Scale(half), s, reader)
  {
    var ks, sc := NibblesOf(half, Scale(half)), Scale(half);
    HalfAgain(v, half, s, reader, k);
    if reader == RowMax(s) {
      assert u == RereadAll(ks, sc, reader) by {
        hide Scale, Quant, Rounded, Value, Ratio, RowAgain;
      }
      hide *;
      HalfRequant(half, reader);
    } else {
      forall i | 0 <= i < 32 ensures u[i] == 0.0 {
        hide Q8, Scale, Quant;
        NibbleValue(half, i);
        TinyScale(s, Value(ks[i], sc));
        ZeroValue(Ratio(reader, 127.0));
      }
      hide RowAgain;
      ZeroDecides(u, half);
    }
  }

  lemma NibbleValue(v: seq<real>, i: nat)
    requires |v| == 32 && i < 32
    ensures Abs(Value(NibblesOf(v, Scale(v))[i], Scale(v))) <= Amax(v)
  {
    hide Quant, Scale, Amax, Value;
    HalfValue(v, i);
  }

  /** A half of zeros is the same exactly as a half without a non-zero nibble. */
  lemma ZeroDecides(u: seq<real>, v: seq<real>)
    requires |u| == |v| == 32 && forall i | 0 <= i < 32 :: u[i] == 0.0
    ensures SameHalf(u, v) <==> AllZero(NibblesOf(v, Scale(v)))
  {
    ZeroAmax(u);
    ScaleFits(v);
    NibbleRange(v);
    NibbleRange(u);
    hide Quant, Scale, Amax;
    if AllZero(NibblesOf(v, Scale(v))) {
      assert Amax(v) == 0.0;
      assert NibblesOf(u, 1.0) == NibblesOf(v, 1.0);
    }
  }

  // ----- one block -----

  /** The scale of the row that payload p belongs to. */
  function ScaleOf(geo: Geo, s: Scales, p: nat): real
    requires GeoOk(geo) && p < Count(geo) && |s.k| == |s.v| == ScaleCount(geo)
  {
    PartsNumber(geo, p);
    RowIndexIn(geo, HeadOf(geo, p), TokenOf(geo, p), GroupOf(geo, p));
    var n := Owner(geo, RowIndex(geo, HeadOf(geo, p), TokenOf(geo, p), GroupOf(geo, p)));
    if AreaOf(geo, p) == 0 then s.k[n] else s.v[n]
  }

  /** The condition on a block: its bytes and its scales decide. */
  predicate BlockStays(geo: Geo, w: World, cells: seq<Cell>, s: Scales)
    requires GeoOk(geo) && |cells| == BlockBytes(geo) && |s.k| == |s.v| == ScaleCount(geo)
  {
    forall p | 0 <= p < Count(geo) ::
      PayloadStays(PayloadCells(geo, cells, p), ScaleOf(geo, s, p), Reader(w, ScaleOf(geo, s, p)))
  }

  /** Two blocks have the same bytes exactly when every payload is the same. */
  lemma SameBlock(geo: Geo, a: Content, b: Content)
    requires GeoOk(geo) && ContentOk(geo, a) && ContentOk(geo, b)
    ensures Packed(geo, a) == Packed(geo, b)
       <==> forall p | 0 <= p < Count(geo) :: Pack64(Source(geo, a, p)) == Pack64(Source(geo, b, p))
  {
    hide Source, Pack64, Count, Prefix, PayloadCells, BlockBytes, ContentOk, Packed;
    if Packed(geo, a) == Packed(geo, b) {
      forall p | 0 <= p < Count(geo) ensures Pack64(Source(geo, a, p)) == Pack64(Source(geo, b, p)) {
        PayloadIs(geo, a, p);
        PayloadIs(geo, b, p);
      }
    }
    if forall p | 0 <= p < Count(geo) :: Pack64(Source(geo, a, p)) == Pack64(Source(geo, b, p)) {
      SamePrefix(geo, a, b, Count(geo));
      PackedIs(geo, a);
      PackedIs(geo, b);
    }
  }

  lemma PackedIs(geo: Geo, c: Content)
    requires GeoOk(geo) && ContentOk(geo, c)
    ensures Packed(geo, c) == Prefix(geo, c, Count(geo))
  {
    hide Prefix, Count;
  }

  lemma {:induction false} SamePrefix(geo: Geo, a: Content, b: Content, m: nat)
    requires GeoOk(geo) && ContentOk(geo, a) && ContentOk(geo, b) && m <= Count(geo)
    requires forall p | 0 <= p < m :: Pack64(Source(geo, a, p)) == Pack64(Source(geo, b, p))
    ensures Prefix(geo, a, m) == Prefix(geo, b, m)
  {
    hide Source, Pack64, Count, ContentOk;
    if m > 0 { SamePrefix(geo, a, b, m - 1); }
  }

  /** What payload p of the restored block is packed from. */
  lemma SourceAgain(geo: Geo, w: World, o: Content, s: Scales, p: nat)
    requires GeoOk(geo) && w.ints && Fits(geo, o, s) && p < Count(geo)
    ensures var x := ScaleOf(geo, s, p);
            && RowFits64(Source(geo, o, p), x)
            && Source(geo, Back(geo, w, o, s), p) == RowAgain(Source(geo, o, p), x, Reader(w, x))
  {
    PartsNumber(geo, p);
    RowIndexIn(geo, HeadOf(geo, p), TokenOf(geo, p), GroupOf(geo, p));
    var r := RowIndex(geo, HeadOf(geo, p), TokenOf(geo, p), GroupOf(geo, p));
    BackRow(geo, w, o, s, r);
    hide Back, RowAgain, RowFits64, Owner, RowMax, RowIndex, RowCount, Count, HeadOf, TokenOf, GroupOf, AreaOf;
  }

  /** Packing a restored block again reproduces its payload if and only if the bytes and scales say so. */
  lemma BlockRequant(geo: Geo, w: World, o: Content, s: Scales)
    requires GeoOk(geo) && w.ints && Fits(geo, o, s)
    ensures Packed(geo, Back(geo, w, o, s)) == Packed(geo, o) <==> BlockStays(geo, w, Packed(geo, o), s)
  {
    hide Packed, Back, Pack64, Source, Count, RowAgain, RowFits64, ScaleOf, PayloadStays, PayloadCells, BlockBytes;
    SameBlock(geo, Back(geo, w, o, s), o);
    forall p | 0 <= p < Count(geo)
      ensures Pack64(Source(geo, Back(geo, w, o, s), p)) == Pack64(Source(geo, o, p))
         <==> PayloadStays(PayloadCells(geo, Packed(geo, o), p), ScaleOf(geo, s, p), Reader(w, ScaleOf(geo, s, p)))
    {
      SourceAgain(geo, w, o, s, p);
      PayloadIs(geo, o, p);
      PayloadRequant(Source(geo, o, p), ScaleOf(geo, s, p), Reader(w, ScaleOf(geo, s, p)));
    }
  }

  // ----- a block that changes -----

  /** 32 values 1 beside a value 10: restored they are 130/127, and their payload is another one. */
  lemma RequantDrifts(v: Group)
    requires v == seq(32, _ => 1.0) + seq(32, _ => 10.0)
    ensures HeadScale(v) == 10.0 && RowFits64(v, 10.0)
    ensures RowAgain(v, 10.0, 10.0)[0] == 130.0 / 127.0
    ensures !PayloadStays(Pack64(v), 10.0, 10.0) && Pack64(RowAgain(v, 10.0, 10.0)) != Pack64(v)
  {
    assert Abs(v[63]) == 10.0;
    AmaxIs(v, 10.0);
    var half := v[..32];
    assert half == seq(32, _ => 1.0) && v[0..32] == half;
    assert Abs(half[0]) == 1.0;
    AmaxIs(half, 1.0);
    assert Scale(half) == 1.0 / 7.0;
    OneSeventh();
    HalfAgain(v, half, 10.0, 10.0, 0);
    assert NibblesOf(half, Scale(half))[0] == 7;
    hide Quant, Scale, Amax, Pack64, Survives, RowAgain;
    PayloadParts(v);
    PayloadRequant(v, 10.0, 10.0);
  }

  lemma OneSeventh()
    ensures Quant(1.0, 1.0 / 7.0) == 7
    ensures Steps(1.0 / 7.0, 10.0) == 12.7 && (12.7).Floor == 12
    ensures Rounded(7, 1.0 / 7.0, 10.0) == 13
    ensures Value(13, Ratio(10.0, 127.0)) == 130.0 / 127.0
  {
    assert Ratio(1.0, 1.0 / 7.0) == 7.0;
    assert Value(7, 1.0 / 7.0) == 1.0;
    assert Ratio(127.0, 10.0) == 12.7;
    assert Times(1.0, 12.7) == 12.7;
  }
}
