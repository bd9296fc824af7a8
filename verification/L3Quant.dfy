/**
 The Q4 payload of 64 values and the int8 rows restored from it, over the reals. A byte of the
 file is either a plain byte or one of the four bytes a scale occupies.
 */
module L3Quant {
  datatype Cell = Byte(b: nat) | ScaleByte(scale: real, index: nat)

  const PAYLOAD: nat := 40

  function Abs(x: real): (r: real) {
    if x < 0.0 then -x else x
  }

  /** C's conversion to int: towards zero. */
  function Trunc(x: real): int {
    if x >= 0.0 then x.Floor else -(-x).Floor
  }

  /** Half away from zero. */
  function Round(x: real): int {
    Trunc(if x >= 0.0 then x + 0.5 else x - 0.5)
  }

  lemma RoundNear(x: real, k: int)
    ensures -0.5 <= Round(x) as real - x <= 0.5
    ensures k >= 0 && Abs(x) <= k as real ==> -k <= Round(x) <= k
    ensures x == k as real ==> Round(x) == k
  {}

  function Amax(v: seq<real>): (r: real)
    ensures r >= 0.0
    ensures forall i | 0 <= i < |v| :: Abs(v[i]) <= r
    ensures r > 0.0 ==> exists i :: 0 <= i < |v| && Abs(v[i]) == r
  {
    if v == [] then 0.0
    else
      var m := Amax(v[..|v| - 1]);
      if Abs(v[|v| - 1]) > m then Abs(v[|v| - 1]) else m
  }

  /** An upper bound that is attained, or zero: the largest magnitude. */
  lemma AmaxIs(v: seq<real>, m: real)
    requires forall i | 0 <= i < |v| :: Abs(v[i]) <= m
    requires m == 0.0 || exists i :: 0 <= i < |v| && Abs(v[i]) == m
    ensures Amax(v) == m || m < 0.0
  {}

  function Scale(v: seq<real>): (s: real)
    ensures s > 0.0
  {
    var s := Amax(v) / 7.0;
    if s > 0.0 then s else 1.0
  }

  function Ratio(x: real, scale: real): real
    requires scale > 0.0
  {
    x / scale
  }

  function Times(x: real, y: real): real {
    x * y
  }

  /** What q steps of a scale stand for. */
  function Value(q: int, scale: real): real {
    Times(q as real, scale)
  }

  function Quant(x: real, scale: real): (q: int)
    requires scale > 0.0
    ensures -8 <= q <= 7
  {
    var q := Round(Ratio(x, scale));
    if q > 7 then 7 else if q < -8 then -8 else q
  }

  /** Two quantised values in one byte, the even one low. */
  function Nibbles(v: seq<real>, scale: real): (r: seq<Cell>)
    requires |v| == 32 && scale > 0.0
    ensures |r| == 16
  {
    seq(16, i requires 0 <= i < 16 => Byte((Quant(v[2 * i], scale) + 8) + 16 * (Quant(v[2 * i + 1], scale) + 8)))
  }

  function ScaleBytes(s: real): (r: seq<Cell>)
    ensures |r| == 4
  {
    [ScaleByte(s, 0), ScaleByte(s, 1), ScaleByte(s, 2), ScaleByte(s, 3)]
  }

  function Pack64(v: seq<real>): (r: seq<Cell>)
    requires |v| == 64
    ensures |r| == PAYLOAD
  {
    var sa, sb := Scale(v[..32]), Scale(v[32..]);
    ScaleBytes(sa) + Nibbles(v[..32], sa) + ScaleBytes(sb) + Nibbles(v[32..], sb)
  }

  /** The scale stored at a cell; any other byte pattern is some finite float, here 0. */
  function ScaleAt(c: Cell): real {
    if c.ScaleByte? then c.scale else 0.0
  }

  function Nibble(c: Cell, high: bool): (q: int)
  {
    var b := if c.Byte? then c.b % 256 else 0;
    (if high then b / 16 else b % 16) - 8
  }

  function Dequant32(p: seq<Cell>, scale: real): (r: seq<real>)
    requires |p| == 16
    ensures |r| == 32
  {
    seq(32, i requires 0 <= i < 32 => Value(Nibble(p[i / 2], i % 2 == 1), scale))
  }

  function Dequant64(p: seq<Cell>): (r: seq<real>)
    requires |p| == PAYLOAD
    ensures |r| == 64
  {
    Dequant32(p[4..20], ScaleAt(p[0])) + Dequant32(p[24..40], ScaleAt(p[20]))
  }

  // ----- the loops -----

  /** Pack 32 values; the scale is returned for the caller to store. */
  method Pack32(v: seq<real>) returns (dst: seq<Cell>, scale: real)
    requires |v| == 32
    ensures scale == Scale(v) && dst == Nibbles(v, scale)
  {
    hide Quant;
    var amax := 0.0;
    for i := 0 to 32
      invariant amax == Amax(v[..i])
    {
      assert v[..i + 1][..i] == v[..i];
      var a := Abs(v[i]);
      if a > amax { amax := a; }
    }
    assert v[..32] == v;
    scale := amax / 7.0;
    if !(scale > 0.0) { scale := 1.0; }
    dst := [];
    for i := 0 to 16
      invariant |dst| == i && forall k | 0 <= k < i :: dst[k] == Nibbles(v, scale)[k]
    {
      var q0 := Quant(v[2 * i], scale);
      var q1 := Quant(v[2 * i + 1], scale);
      dst := dst + [Byte((q0 + 8) + 16 * (q1 + 8))];
    }
  }

  /** Pack 64 values: scale and nibbles of each half. */
  method Q4Pack64(src: seq<real>) returns (payload: seq<Cell>)
    requires |src| == 64
    ensures payload == Pack64(src)
  {
    hide Nibbles, Scale;
    var a, sa := Pack32(src[..32]);
    var b, sb := Pack32(src[32..]);
    payload := ScaleBytes(sa) + a + ScaleBytes(sb) + b;
  }

  // ----- what packing loses -----

  lemma TimesOrder(x: real, y: real, s: real)
    requires s > 0.0
    ensures Times(x, s) <= Times(y, s) <==> x <= y
    ensures Times(x, s) == Times(y, s) <==> x == y
  {
    assert x > y ==> x * s > y * s;
    assert x < y ==> x * s < y * s;
  }

  lemma TimesConstants(s: real)
    ensures Times(7.0, s) == 7.0 * s && Times(-7.0, s) == -(7.0 * s)
    ensures Times(0.5, s) == s / 2.0 && Times(-0.5, s) == -(s / 2.0)
    ensures Times(127.0, s) == 127.0 * s && Times(-127.0, s) == -(127.0 * s)
  {}

  lemma TimesMinus(x: real, y: real, s: real)
    ensures Times(x, s) - Times(y, s) == Times(x - y, s)
  {}

  lemma TimesAssoc(x: real, y: real, z: real)
    ensures Times(Times(x, y), z) == Times(x, Times(y, z))
  {
    assert (x * y) * z == x * (y * z);
  }

  lemma RatioIs(x: real, s: real)
    requires s > 0.0
    ensures Times(Ratio(x, s), s) == x
  {}

  /** A gap of at most half a step. */
  lemma TimesGap(x: real, y: real, s: real)
    requires s > 0.0 && -0.5 <= x - y <= 0.5
    ensures -(s / 2.0) <= Times(x, s) - Times(y, s) <= s / 2.0
  {
    hide Times;
    TimesMinus(x, y, s);
    TimesConstants(s);
    TimesOrder(x - y, 0.5, s);
    TimesOrder(-0.5, x - y, s);
  }

  lemma RatioBound(x: real, s: real)
    requires s > 0.0 && Abs(x) <= 7.0 * s
    ensures -7.0 <= Ratio(x, s) <= 7.0
    ensures x == 7.0 * s ==> Ratio(x, s) == 7.0
    ensures x == -(7.0 * s) ==> Ratio(x, s) == -7.0
  {
    hide Ratio, Times;
    var y := Ratio(x, s);
    RatioIs(x, s);
    TimesConstants(s);
    TimesOrder(y, 7.0, s);
    TimesOrder(-7.0, y, s);
    TimesOrder(y, -7.0, s);
  }

  /** Within [-7, 7] nothing saturates. */
  lemma RoundWithin(y: real)
    requires -7.0 <= y <= 7.0
    ensures -7 <= Round(y) <= 7 && -0.5 <= Round(y) as real - y <= 0.5
    ensures y == 7.0 ==> Round(y) == 7
    ensures y == -7.0 ==> Round(y) == -7
  {
    RoundNear(y, 7);
    RoundNear(y, -7);
  }

  lemma ValueBound(q: int, s: real)
    requires -7 <= q <= 7 && s > 0.0
    ensures -(7.0 * s) <= Value(q, s) <= 7.0 * s
    ensures q == 7 || q == -7 ==> Abs(Value(q, s)) == 7.0 * s
  {
    hide Times;
    TimesConstants(s);
    TimesOrder(q as real, 7.0, s);
    TimesOrder(-7.0, q as real, s);
  }

  lemma QuantExact(x: real, scale: real, amax: real)
    requires scale > 0.0 && Abs(x) <= amax && amax == 7.0 * scale
    ensures Abs(Value(Quant(x, scale), scale) - x) <= scale / 2.0
    ensures Abs(Value(Quant(x, scale), scale)) <= amax
    ensures Abs(x) == amax ==> Abs(Value(Quant(x, scale), scale)) == amax
  {
    hide Ratio, Times, Round;
    RatioBound(x, scale);
    RoundWithin(Ratio(x, scale));
    RatioIs(x, scale);
    TimesGap(Quant(x, scale) as real, Ratio(x, scale), scale);
    ValueBound(Quant(x, scale), scale);
  }

  /** No value saturates; when every value is zero the scale is 1 and every quantum 0. */
  lemma ScaleFits(v: seq<real>)
    ensures Amax(v) > 0.0 ==> Amax(v) == 7.0 * Scale(v)
    ensures Amax(v) == 0.0 ==> Scale(v) == 1.0 && forall i | 0 <= i < |v| :: v[i] == 0.0
  {}

  lemma ByteNibbles(q0: int, q1: int)
    requires -8 <= q0 <= 7 && -8 <= q1 <= 7
    ensures Nibble(Byte((q0 + 8) + 16 * (q1 + 8)), false) == q0
    ensures Nibble(Byte((q0 + 8) + 16 * (q1 + 8)), true) == q1
  {}

  lemma NibblesBack(v: seq<real>, scale: real, i: nat)
    requires |v| == 32 && scale > 0.0 && i < 32
    ensures Dequant32(Nibbles(v, scale), scale)[i] == Value(Quant(v[i], scale), scale)
  {
    hide Quant, Nibble, Value;
    var h := i / 2;
    ByteNibbles(Quant(v[2 * h], scale), Quant(v[2 * h + 1], scale));
    assert i == 2 * h || i == 2 * h + 1;
  }

  /** What v[i] becomes: a whole number of steps. */
  lemma HalfValue(v: seq<real>, i: nat)
    requires |v| == 32 && i < 32
    ensures var s := Scale(v);
            var w := Value(Quant(v[i], s), s);
            Abs(w - v[i]) <= s / 2.0 && Abs(w - v[i]) <= Amax(v) / 14.0 && Abs(w) <= Amax(v)
            && (Abs(v[i]) == Amax(v) ==> Abs(w) == Amax(v))
  {
    ScaleFits(v);
    assert Abs(v[i]) <= Amax(v);
    hide Quant, Amax, Scale, Value;
    if Amax(v) > 0.0 {
      QuantExact(v[i], Scale(v), Amax(v));
    } else {
      ZeroQuant();
    }
  }

  /** A dequantised value is within half a step of the original and never larger than the largest. */
  lemma HalfError(v: seq<real>, i: nat)
    requires |v| == 32 && i < 32
    ensures var w := Dequant32(Nibbles(v, Scale(v)), Scale(v))[i];
            Abs(w - v[i]) <= Scale(v) / 2.0 && Abs(w - v[i]) <= Amax(v) / 14.0 && Abs(w) <= Amax(v)
  {
    hide Quant, Amax, Scale, Dequant32, Nibbles, Value;
    NibblesBack(v, Scale(v), i);
    HalfValue(v, i);
  }

  lemma ZeroQuant()
    ensures Quant(0.0, 1.0) == 0 && Value(0, 1.0) == 0.0
  {}

  /** Unpacking keeps the scale: the largest magnitude is itself a quantum. */
  lemma HalfStable(v: seq<real>)
    requires |v| == 32
    ensures var w := Dequant32(Nibbles(v, Scale(v)), Scale(v));
            Scale(w) == Scale(v) && Nibbles(w, Scale(v)) == Nibbles(v, Scale(v))
  {
    hide *;
    var s := Scale(v);
    var w := Dequant32(Nibbles(v, s), s);
    SameMax(v, w);
    forall i | 0 <= i < 32 ensures Quant(w[i], s) == Quant(v[i], s) {
      NibblesBack(v, s, i);
      QuantAgain(v[i], s);
    }
    SameNibbles(v, w, s);
  }

  lemma SameMax(v: seq<real>, w: seq<real>)
    requires |v| == 32 && w == Dequant32(Nibbles(v, Scale(v)), Scale(v))
    ensures Amax(w) == Amax(v) && |w| == 32 && Scale(w) == Scale(v)
  {
    hide Quant, Dequant32, Nibbles, Value;
    forall i | 0 <= i < 32 ensures Abs(w[i]) <= Amax(v) && (Abs(v[i]) == Amax(v) ==> Abs(w[i]) == Amax(v)) {
      NibblesBack(v, Scale(v), i);
      HalfValue(v, i);
    }
    if Amax(v) > 0.0 {
      var i :| 0 <= i < |v| && Abs(v[i]) == Amax(v);
      assert Abs(w[i]) == Amax(v);
    }
    AmaxIs(w, Amax(v));
  }

  lemma SameNibbles(v: seq<real>, w: seq<real>, s: real)
    requires |v| == |w| == 32 && s > 0.0 && forall i | 0 <= i < 32 :: Quant(w[i], s) == Quant(v[i], s)
    ensures Nibbles(w, s) == Nibbles(v, s)
  {
    hide Quant;
  }

  lemma QuantAgain(x: real, s: real)
    requires s > 0.0
    ensures Quant(Value(Quant(x, s), s), s) == Quant(x, s)
  {
    var q := Quant(x, s);
    RatioValue(q, s);
    RoundNear(q as real, q);
  }

  lemma RatioValue(q: int, s: real)
    requires s > 0.0
    ensures Ratio(Value(q, s), s) == q as real
  {
    hide Ratio, Times;
    RatioIs(Value(q, s), s);
    TimesOrder(Ratio(Value(q, s), s), q as real, s);
  }

  // ----- the payload -----

  lemma Halves(v: seq<real>)
    requires |v| == 64
    ensures var p := Pack64(v);
            && ScaleAt(p[0]) == Scale(v[..32]) && ScaleAt(p[20]) == Scale(v[32..])
            && p[4..20] == Nibbles(v[..32], Scale(v[..32])) && p[24..40] == Nibbles(v[32..], Scale(v[32..]))
  {
    hide Nibbles, Scale;
  }

  /** Packing what was unpacked reproduces the payload, byte for byte. */
  lemma PackStable(v: seq<real>)
    requires |v| == 64
    ensures Pack64(Dequant64(Pack64(v))) == Pack64(v)
  {
    hide Nibbles, Dequant32, Scale;
    Halves(v);
    HalfStable(v[..32]);
    HalfStable(v[32..]);
    var w := Dequant64(Pack64(v));
    assert w[..32] == Dequant32(Pack64(v)[4..20], ScaleAt(Pack64(v)[0]));
    assert w[32..] == Dequant32(Pack64(v)[24..40], ScaleAt(Pack64(v)[20]));
  }

  /** Unpacking errs by at most half a step, and at most a fourteenth of any bound on the values. */
  lemma PackError(v: seq<real>, i: nat, m: real)
    requires |v| == 64 && i < 64 && forall j | 0 <= j < 64 :: Abs(v[j]) <= m
    ensures var w := Dequant64(Pack64(v))[i];
            && Abs(w - v[i]) <= (if i < 32 then Scale(v[..32]) else Scale(v[32..])) / 2.0
            && Abs(w - v[i]) <= m / 14.0 && Abs(w) <= m
  {
    hide *;
    HalfBelow(v, 0, m);
    HalfBelow(v, 32, m);
    Dequant64At(v, i);
    if i < 32 { HalfError(v[..32], i); } else { HalfError(v[32..], i - 32); }
  }

  lemma Dequant64At(v: seq<real>, i: nat)
    requires |v| == 64 && i < 64
    ensures var half := if i < 32 then v[..32] else v[32..];
            |half| == 32 && Dequant64(Pack64(v))[i] == Dequant32(Nibbles(half, Scale(half)), Scale(half))[i % 32]
  {
    hide Nibbles, Dequant32, Scale;
    Halves(v);
  }

  lemma HalfBelow(v: seq<real>, k: nat, m: real)
    requires |v| == 64 && (k == 0 || k == 32) && forall j | 0 <= j < 64 :: Abs(v[j]) <= m
    ensures m >= 0.0 && Amax(if k == 0 then v[..32] else v[32..]) <= m
  {
    hide Amax;
    assert Abs(v[0]) >= 0.0;
    AmaxBelow(if k == 0 then v[..32] else v[32..], m);
  }

  lemma AmaxBelow(v: seq<real>, m: real)
    requires m >= 0.0 && forall i | 0 <= i < |v| :: Abs(v[i]) <= m
    ensures Amax(v) <= m
  {}

  // ----- int8 rows -----

  /** The row maximum as the int8 cache keeps it. */
  function RowMax(maxk: real): (r: real)
    ensures r > 0.0
  {
    if !(maxk > 0.000001) then 1.0 else maxk
  }

  function Q8(x: real, ik: real): (q: int)
    ensures -128 <= q <= 127
  {
    var q := (Times(x, ik) + 0.5).Floor;
    if q > 127 then 127 else if q < -128 then -128 else q
  }

  function RowInts(row: seq<real>, ik: real): (q: seq<int>)
    ensures |q| == |row|
  {
    seq(|row|, i requires 0 <= i < |row| => Q8(row[i], ik))
  }

  function RowBack(q: seq<int>, sk: real): (row: seq<real>)
    ensures |row| == |q|
  {
    seq(|q|, i requires 0 <= i < |q| => Value(q[i], sk))
  }

  method Store64(row: seq<real>, ik: real, sk: real) returns (q8: seq<int>, f: seq<real>)
    requires |row| == 64
    ensures q8 == RowInts(row, ik) && f == RowBack(q8, sk)
  {
    q8, f := [], [];
    for i := 0 to 64
      invariant |q8| == |f| == i
      invariant forall k | 0 <= k < i :: q8[k] == Q8(row[k], ik) && f[k] == Value(q8[k], sk)
    {
      var q := Q8(row[i], ik);
      q8, f := q8 + [q], f + [Value(q, sk)];
    }
  }

  lemma StepBound(w: real, m: real)
    requires m > 0.0 && Abs(w) <= m
    ensures -127.0 <= Times(w, Ratio(127.0, m)) <= 127.0
    ensures Ratio(m, 127.0) == m / 127.0 && Times(Times(w, Ratio(127.0, m)), Ratio(m, 127.0)) == w
  {
    UnitSteps(m);
    RatioIs(127.0, m);
    assert Ratio(m, 127.0) == m / 127.0;
    hide Ratio, Times;
    var u, s := Ratio(127.0, m), Ratio(m, 127.0);
    TimesAssoc(w, u, s);
    TimesAssoc(w, u, m);
    TimesOne(w);
    TimesConstants(m);
    TimesOrder(Times(w, u), 127.0, m);
    TimesOrder(-127.0, Times(w, u), m);
  }

  lemma TimesOne(w: real)
    ensures Times(w, 1.0) == w && Times(w, 127.0) == 127.0 * w
  {}

  lemma UnitSteps(m: real)
    requires m > 0.0
    ensures Times(Ratio(127.0, m), Ratio(m, 127.0)) == 1.0
  {
    var u, s := 127.0 / m, m / 127.0;
    assert u * m == 127.0;
    assert u * (s * 127.0) == 127.0;
  }

  /** The int8 step never saturates on a value within the row maximum and errs by half its step. */
  lemma Q8Error(w: real, m: real)
    requires m > 0.0 && Abs(w) <= m
    ensures -127 <= Q8(w, Ratio(127.0, m)) <= 127
    ensures Abs(Value(Q8(w, Ratio(127.0, m)), Ratio(m, 127.0)) - w) <= m / 254.0
  {
    hide Ratio, Times;
    StepBound(w, m);
    var s, y := Ratio(m, 127.0), Times(w, Ratio(127.0, m));
    TimesGap((y + 0.5).Floor as real, y, s);
  }

  /** Evicting a row and restoring it to int8 errs by at most maxk * (1/14 + 1/254). */
  lemma RestoreError(v: seq<real>, i: nat, maxk: real)
    requires |v| == 64 && i < 64 && forall j | 0 <= j < 64 :: Abs(v[j]) <= RowMax(maxk)
    ensures var m := RowMax(maxk);
            var q := Q8(Dequant64(Pack64(v))[i], Ratio(127.0, m));
            -127 <= q <= 127 && Abs(Value(q, Ratio(m, 127.0)) - v[i]) <= m * (1.0 / 14.0 + 1.0 / 254.0)
  {
    hide Q8, Dequant64, Pack64, Scale, RowMax, Ratio, Value;
    var m := RowMax(maxk);
    PackError(v, i, m);
    Q8Error(Dequant64(Pack64(v))[i], m);
  }
}
