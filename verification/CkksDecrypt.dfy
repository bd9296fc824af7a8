/** Decryption with cached signed powers of the secret, in 64-bit integers. */
module CkksDecrypt {
  import opened Residues
  import opened Norms
  import opened Rows
  import opened Ring
  import opened CkksArith
  import opened CkksPoly
  import opened Evaluation
  import opened CkksScheme

  const LIMIT: int := 0x4000_0000_0000_0000

  function HwPower(e: nat): (r: nat)
    ensures r > 0
  {
    if e == 0 then 1 else KEY_HW * HwPower(e - 1)
  }

  /** The e-th power of a sparse ternary key has coefficients of at most hw^e. */
  lemma {:induction false} PowBounded(s: Poly, e: nat)
    requires |s| > 0 && SecretOk(s, |s|)
    ensures Bounded(Pow(s, e), HwPower(e))
  {
    if e > 0 {
      PowBounded(s, e - 1);
      ApplyBounded(s, Pow(s, e - 1), HwPower(e - 1));
      LeProduct(HwPower(e - 1), Norm1(s), KEY_HW);
      BoundedUp(Pow(s, e), Norm1(s) * HwPower(e - 1), HwPower(e));
    }
  }

  lemma HwPowerSmall(e: nat)
    requires e < MAX_COMP
    ensures HwPower(e) < LIMIT / KEY_HW
  {
    assert HwPower(4) == 4096;
    assert HwPower(8) == 4096 * 4096;
    assert HwPower(12) == 4096 * 4096 * 4096;
    HwPowerMono(e, 12);
  }

  lemma {:induction false} HwPowerMono(d: nat, e: nat)
    requires d <= e
    ensures HwPower(d) <= HwPower(e)
  {
    if d < e {
      HwPowerMono(d, e - 1);
    }
  }

  /** out += v * x^i * b over signed machine integers: no addition or product overflows. */
  method AddSignedRow(buf: array<int64>, v: int64, i: nat, b: seq<int64>, ghost m: nat)
    requires i < |b| == buf.Length && Ternary(Ints(b)) && -(m as int) <= v as int <= m && m < LIMIT
    requires Bounded(Add(Ints(buf[..]), Scale(v as int, ShiftN(Ints(b), i))), LIMIT)
    modifies buf
    ensures Ints(buf[..]) == Add(old(Ints(buf[..])), Scale(v as int, ShiftN(Ints(b), i)))
  {
    hide Apply, ShiftN;
    var n := |b|;
    ghost var was := Ints(buf[..]);
    ghost var row := Scale(v as int, ShiftN(Ints(b), i));
    ghost var goal := Add(was, row);
    RowAt(Ints(b), i, v as int);
    assert forall k | 0 <= k < n :: goal[k] == was[k] + row[k] && -LIMIT <= goal[k] <= LIMIT;
    assert forall j | 0 <= j < n :: -1 <= b[j] as int == Ints(b)[j] <= 1;
    hide Add, Scale, Bounded, Ints, Ternary;
    for j := 0 to n
      invariant forall k | 0 <= k < n :: buf[k] as int == if Source(k, i, n) < j then goal[k] else was[k]
    {
      ghost var kk := if i + j < n then i + j else i + j - n;
      assert Source(kk, i, n) == j;
      assert goal[kk] == was[kk] + row[kk];
      if b[j] != 0 {
        var k := i + j;
        if k < n {
          buf[k] := AddTerm(buf[k], v, b[j], false, m, row[kk]);
        } else {
          buf[k - n] := AddTerm(buf[k - n], v, b[j], true, m, row[kk]);
        }
      } else {
        NoTerm(if kk >= i then v as int else -(v as int), b[j] as int);
      }
      assert buf[kk] as int == goal[kk];
    }
    IntsAre(buf[..], goal);
  }

  /** One product and one sum, neither of which overflows. */
  method AddTerm(x: int64, v: int64, b: int64, wrap: bool, ghost m: nat, ghost d: int) returns (y: int64)
    requires -1 <= b as int <= 1 && -(m as int) <= v as int <= m && m < LIMIT
    requires d == (if wrap then -(v as int) else v as int) * b as int && -LIMIT <= x as int + d <= LIMIT
    ensures y as int == x as int + d
  {
    UnitProduct(v as int, b as int, m);
    var t := v * b;
    y := if wrap then x - t else x + t;
  }

  lemma NoTerm(v: int, b: int)
    requires b == 0
    ensures v * b == 0
  {}

  lemma IntsAre(a: seq<int64>, x: Poly)
    requires |a| == |x| && forall k | 0 <= k < |a| :: a[k] as int == x[k]
    ensures Ints(a) == x
  {}

  lemma UnitProduct(v: int, x: int, m: int)
    requires m >= 0 && -m <= v <= m && -1 <= x <= 1
    ensures -m <= v * x <= m && (x == 0 ==> v * x == 0) && -v * x == -(v * x)
  {}

  method SpowMul(a: seq<int64>, b: seq<int64>, ghost m: nat) returns (out: seq<int64>)
    requires |a| == |b| > 0 && Ternary(Ints(b)) && Norm1(Ints(b)) <= KEY_HW
    requires Bounded(Ints(a), m) && m < LIMIT / KEY_HW
    ensures Ints(out) == Mul(Ints(a), Ints(b))
  {
    hide Apply, ShiftN;
    var n := |a|;
    ghost var x, y := Ints(a), Ints(b);
    var buf := new int64[n](_ => 0);
    NoRows(x, y, 1, 2);
    ApplyNone(y);
    assert Ints(buf[..]) == Zero(n);
    for i := 0 to n
      invariant Ints(buf[..]) == Mul(x[..i], y)
    {
      TakeSnoc(x, i);
      ApplySnoc(x[..i], x[i], y, 1);
      PrefixBounded(x, i + 1, y, m, KEY_HW);
      if a[i] != 0 {
        assert Bounded(Mul(x[..i + 1], y), LIMIT);
        AddSignedRow(buf, a[i], i, b, m);
      } else {
        assert Add(Mul(x[..i], y), Scale(0, ShiftN(y, i))) == Mul(x[..i], y);
      }
    }
    assert x[..n] == x;
    out := buf[..];
  }

  lemma ApplyNone(b: Poly)
    requires |b| > 0
    ensures Mul([], b) == Zero(|b|)
  {}

  lemma IntsLength(a: seq<int64>)
    ensures |Ints(a)| == |a|
  {}

  /** Entry d holds s^d, for every d from 1. */
  ghost predicate Powers(list: seq<seq<int64>>, s: seq<int>)
    requires |s| > 0
  {
    forall d | 1 <= d < |list| :: |list[d]| == |s| && Ints(list[d]) == Pow(s, d)
  }

  lemma {:induction false} PowersSnoc(list: seq<seq<int64>>, next: seq<int64>, s: seq<int>)
    requires |s| > 0 && Powers(list, s) && |next| == |s| && Ints(next) == Pow(s, |list|)
    ensures Powers(list + [next], s)
  {
    hide Pow, Ints;
  }

  /** s, s^2, ... s^12, each from the one before. */
  method SecretPowers(s: seq<int>) returns (list: seq<seq<int64>>)
    requires |s| > 0 && SecretOk(s, |s|)
    ensures |list| == MAX_COMP && Powers(list, s)
  {
    var s1 := Widen(s);
    hide *;
    PowOne(s);
    IntsLength(s1);
    list := [[], s1];
    assert Powers(list, s) by { PowersFirst(s1, s); }
    for c := 2 to MAX_COMP
      invariant |list| == c && Powers(list, s)
    {
      PowersLast(list, s);
      var next := NextSecretPower(s, list[c - 1], s1, c);
      PowersSnoc(list, next, s);
      list := list + [next];
    }
  }

  lemma {:induction false} PowersFirst(s1: seq<int64>, s: seq<int>)
    requires |s1| == |s| > 0 && Ints(s1) == Pow(s, 1)
    ensures Powers([[], s1], s)
  {
    hide Pow, Ints;
  }

  lemma {:induction false} PowersLast(list: seq<seq<int64>>, s: seq<int>)
    requires |s| > 0 && Powers(list, s) && |list| > 1
    ensures |list[|list| - 1]| == |s| && Ints(list[|list| - 1]) == Pow(s, |list| - 1)
  {
    hide Pow, Ints;
  }

  method NextSecretPower(ghost s: seq<int>, prev: seq<int64>, s1: seq<int64>, c: nat) returns (next: seq<int64>)
    requires |s| > 0 && SecretOk(s, |s|) && 1 < c < MAX_COMP
    requires |prev| == |s1| == |s| && Ints(prev) == Pow(s, c - 1) && Ints(s1) == s
    ensures |next| == |s| && Ints(next) == Pow(s, c)
  {
    hide Apply, Pow, ShiftN;
    PowBounded(s, c - 1);
    HwPowerSmall(c - 1);
    PowNext(s, c);
    next := SpowMul(prev, s1, HwPower(c - 1));
  }

  method Widen(s: seq<int>) returns (r: seq<int64>)
    requires Ternary(s)
    ensures Ints(r) == s
  {
    r := [];
    for i := 0 to |s|
      invariant |r| == i && forall j | 0 <= j < i :: r[j] as int == s[j]
    {
      r := r + [s[i] as int64];
    }
  }

  /** The process-wide cache of the powers of the secret, indexed by ring degree only. */
  class KeyPowers {
    var n: nat
    var pow: seq<seq<int64>>
    ghost var key: seq<int>

    /** The cached list holds the powers of the key it was built for. */
    ghost predicate Valid()
      reads this
    {
      n > 0 ==>
        SecretOk(key, n) && |pow| == MAX_COMP && Powers(pow, key)
    }

    constructor ()
      ensures Valid() && n == 0
    {
      n, pow, key := 0, [], [];
    }

    /** Rebuilds the list unless its degree already matches: a hit does not compare keys. */
    method Ensure(s: seq<int>)
      requires Valid() && |s| > 0 && SecretOk(s, |s|)
      modifies this
      ensures Valid() && n == |s|
      ensures old(n) == |s| ==> key == old(key) && pow == old(pow)
      ensures old(n) != |s| ==> key == s
    {
      if n == |s| { return; }
      var list := SecretPowers(s);
      n, pow, key := |s|, list, s;
    }

    /** The sum of c[k] * s^k at every prime, with the powers the cache holds. */
    method Decrypt(s: seq<int>, ct: Ct) returns (r: Result<seq<Row>>)
      requires this.Valid() && CkksScheme.Valid(ct) && SecretOk(s, ct.n) && |ct.c| <= MAX_COMP
      modifies this
      ensures this.Valid() && n == (if r.Err? then old(n) else ct.n)
      ensures key == if r.Err? || old(n) == ct.n then old(key) else s
      ensures r.Err? <==> |ct.c| < 2
      ensures r.Ok? ==> |r.value| == ct.nprimes && forall p | 0 <= p < ct.nprimes ::
        r.value[p] == Red(Plain(ct, key, p), ct.chain[p])
    {
      if |ct.c| < 2 { return Err; }
      Ensure(s);
      var poly := DecryptColumns(ct);
      r := Ok(poly);
    }

    method DecryptColumns(ct: Ct) returns (poly: seq<Row>)
      requires this.Valid() && CkksScheme.Valid(ct) && n == ct.n && |ct.c| <= MAX_COMP
      ensures |poly| == ct.nprimes && forall p | 0 <= p < ct.nprimes ::
        poly[p] == Red(Plain(ct, key, p), ct.chain[p])
    {
      hide Apply, Pow, Eval, Red;
      poly := [];
      for p := 0 to ct.nprimes
        invariant |poly| == p
        invariant forall e | 0 <= e < p :: poly[e] == Red(Plain(ct, key, e), ct.chain[e])
      {
        ColumnsOk(ct, p);
        var row := DecryptColumn(Column(ct, p), ct.chain[p]);
        poly := poly + [row];
      }
    }

    method DecryptColumn(col: seq<Row>, q: nat) returns (acc: Row)
      requires Valid() && n > 0 && ColumnOk(col, n, q) && 1 < q && 2 * q <= U64 && 1 <= |col| <= MAX_COMP
      ensures acc == Red(Eval(col, key), q)
    {
      hide Apply, Pow, Eval, Red;
      acc := col[0];
      EvalFirst(col, key, q);
      for c := 1 to |col|
        invariant acc == Red(Eval(col[..c], key), q)
      {
        var tmp := PolyMulSigned(col[c], pow[c], q);
        ghost var e, t := Eval(col[..c], key), Mul(Pow(key, c), col[c]);
        TakeSnoc(col, c);
        EvalSnoc(col[..c], col[c], key);
        RedSum(e, t, q);
        acc := AddPoly(acc, tmp, q);
      }
      assert col[..|col|] == col;
    }
  }

  lemma PowNext(s: Poly, c: nat)
    requires |s| > 0 && c > 0
    ensures Pow(s, c) == Mul(Pow(s, c - 1), s)
  {
    hide Apply;
    MulComm(s, Pow(s, c - 1));
  }

  lemma EvalFirst(col: seq<Row>, s: Poly, q: nat)
    requires |s| > 0 && ColumnOk(col, |s|, q) && |col| > 0 && q > 0
    ensures col[0] == Red(Eval(col[..1], s), q)
  {
    hide Apply, Eval;
    assert col[..1] == [] + [col[0]];
    EvalNil(s);
    EvalSnoc([], col[0], s);
    assert Pow(s, 0) == One(|s|);
    MulOne(col[0]);
    AddZero(col[0]);
    RedCanonical(col[0], q);
  }

  /**
   A hit on the cache is right for every ciphertext exactly when the cached key is the key
   asked for: the two-component ciphertext (0, 1) already tells any two keys apart.
   */
  lemma CacheHitCorrect(cached: seq<int>, s: seq<int>, q: nat)
    requires |s| > 0 && SecretOk(s, |s|) && SecretOk(cached, |s|) && 2 < q
    ensures (forall col: seq<Poly> | Sized(col, |s|) :: Red(Eval(col, cached), q) == Red(Eval(col, s), q))
       <==> cached == s
  {
    var n := |s|;
    if forall col: seq<Poly> | Sized(col, n) :: Red(Eval(col, cached), q) == Red(Eval(col, s), q) {
      var col := [Zero(n), One(n)];
      assert Sized(col, n);
      EvalUnit(cached);
      EvalUnit(s);
      assert Red(cached, q) == Red(s, q);
      forall i | 0 <= i < n ensures cached[i] == s[i] {
        assert Red(cached, q)[i] == cached[i] % q && Red(s, q)[i] == s[i] % q;
        SmallEqual(cached[i], s[i], q);
      }
    }
  }

  lemma EvalUnit(s: Poly)
    requires |s| > 0
    ensures Eval([Zero(|s|), One(|s|)], s) == s
  {
    hide Apply, Eval;
    EvalPair(Zero(|s|), One(|s|), s);
    MulOne(s);
    AddZero(s);
  }

  lemma SmallEqual(x: int, y: int, q: int)
    requires q > 2 && -1 <= x <= 1 && -1 <= y <= 1 && x % q == y % q
    ensures x == y
  {
    var k := ModQuotient(x, y, q);
    assert k >= 1 ==> k * q >= q;
    assert k <= -1 ==> k * q <= -q;
  }
}
