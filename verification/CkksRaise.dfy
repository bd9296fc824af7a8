/** Raising a ciphertext to a longer chain by mixed-radix (Garner) reconstruction. */
module CkksRaise {
  import opened Residues
  import opened Rows
  import opened CkksArith
  import opened CkksPoly
  import opened CkksScheme
  import opened CkksRns

  /** The product of the first k primes. */
  function Prod(chain: seq<nat>, k: nat): (r: nat)
    requires k <= |chain|
  {
    if k == 0 then 1 else Prod(chain, k - 1) * chain[k - 1]
  }

  /** The integer with mixed-radix digits delta: the sum of delta[i] * (q_0 ... q_(i-1)). */
  function Mixed(delta: seq<nat>, chain: seq<nat>, k: nat): (r: nat)
    requires k <= |delta| && k <= |chain|
  {
    if k == 0 then 0 else Mixed(delta, chain, k - 1) + Prod(chain, k - 1) * delta[k - 1]
  }

  lemma {:induction false} MixedPrefix(delta: seq<nat>, other: seq<nat>, chain: seq<nat>, k: nat)
    requires k <= |delta| && k <= |other| && k <= |chain| && delta[..k] == other[..k]
    ensures Mixed(delta, chain, k) == Mixed(other, chain, k)
  {
    if k > 0 {
      assert delta[..k][..k - 1] == delta[..k - 1] && other[..k][..k - 1] == other[..k - 1];
      assert delta[k - 1] == delta[..k][k - 1] && other[k - 1] == other[..k][k - 1];
      MixedPrefix(delta, other, chain, k - 1);
    }
  }

  /** Digits below their primes give a value below the product. */
  lemma {:induction false} MixedBound(delta: seq<nat>, chain: seq<nat>, k: nat)
    requires k <= |delta| && k <= |chain| && forall i | 0 <= i < k :: delta[i] < chain[i]
    ensures Mixed(delta, chain, k) < Prod(chain, k)
  {
    if k > 0 {
      MixedBound(delta, chain, k - 1);
      var m := Prod(chain, k - 1);
      LeProduct(m, delta[k - 1], chain[k - 1] - 1);
      assert m * (chain[k - 1] - 1) == m * chain[k - 1] - m;
    }
  }

  lemma {:induction false} ProdVanishes(chain: seq<nat>, k: nat, j: nat)
    requires j < k <= |chain| && chain[j] > 0
    ensures Prod(chain, k) % chain[j] == 0
  {
    var q := chain[j];
    if k - 1 == j {
      DivUnique(Prod(chain, k), q, Prod(chain, k - 1), 0);
    } else {
      ProdVanishes(chain, k - 1, j);
      ModMul(Prod(chain, k - 1), 0, chain[k - 1], chain[k - 1], q);
      ModSmall(0, q);
    }
  }

  lemma UnitProduct(a: int, b: int, m: int)
    requires m > 0 && Unit(a, m) && Unit(b, m)
    ensures Unit(a * b, m)
  {
    var u: int :| InverseOf(u, a, m);
    var v: int :| InverseOf(v, b, m);
    ModMul(u * a, 1, v * b, 1, m);
    assert (u * a) * (v * b) == (u * v) * (a * b);
    assert InverseOf(u * v, a * b, m);
  }

  lemma {:induction false} ProdUnit(chain: seq<nat>, k: nat, j: nat)
    requires k <= j < |chain| && PairwiseUnits(chain) && chain[j] > 0
    ensures Unit(Prod(chain, k), chain[j])
  {
    if k == 0 {
      assert InverseOf(1, 1, chain[j]);
    } else {
      ProdUnit(chain, k - 1, j);
      assert Unit(chain[k - 1], chain[j]);
      UnitProduct(Prod(chain, k - 1), chain[k - 1], chain[j]);
    }
  }

  ghost predicate ResiduesAre(x: int, v: seq<nat>, chain: seq<nat>, k: nat)
    requires k <= |v| && k <= |chain| && forall i | 0 <= i < k :: chain[i] > 0
  {
    forall i | 0 <= i < k :: x % chain[i] == v[i]
  }

  /** Two integers below the product with the same residues are equal. */
  lemma {:induction false} CrtUnique(x: nat, y: nat, v: seq<nat>, chain: seq<nat>, k: nat)
    requires k <= |v| && k <= |chain| && PairwiseUnits(chain) && forall i | 0 <= i < k :: chain[i] > 0
    requires x < Prod(chain, k) && y < Prod(chain, k) && ResiduesAre(x, v, chain, k) && ResiduesAre(y, v, chain, k)
    ensures x == y
  {
    var d := CrtDivides(x, y, v, chain, k);
    DivUnique(x, Prod(chain, k), d, y);
    ModSmall(x, Prod(chain, k));
  }

  lemma {:induction false} CrtDivides(x: int, y: int, v: seq<nat>, chain: seq<nat>, k: nat) returns (d: int)
    requires k <= |v| && k <= |chain| && PairwiseUnits(chain) && forall i | 0 <= i < k :: chain[i] > 0
    requires ResiduesAre(x, v, chain, k) && ResiduesAre(y, v, chain, k)
    ensures x == y + d * Prod(chain, k)
  {
    if k == 0 {
      d := x - y;
    } else {
      var t := CrtDivides(x, y, v, chain, k - 1);
      var m, q := Prod(chain, k - 1), chain[k - 1];
      ProdUnit(chain, k - 1, k - 1);
      d := CrtStep(x, y, t, m, q);
    }
  }

  lemma CrtStep(x: int, y: int, t: int, m: int, q: int) returns (d: int)
    requires q > 0 && Unit(m, q) && x == y + t * m && x % q == y % q
    ensures x == y + d * (m * q)
  {
    var u: int :| InverseOf(u, m, q);
    ModAdd(x, y, y, y, q);
    assert m * t == t * m == x - y;
    assert m * u == u * m;
    ModCancel(m, u, t, 0, q);
    d := ModQuotient(t, 0, q);
    assert t * m == d * (m * q) by {
      assert (d * q) * m == d * (m * q);
    }
  }

  /** The product of the first i primes modulo another one. */
  method ProdMod(chain: seq<nat>, i: nat, q: nat) returns (m: nat)
    requires i <= |chain| && q > 1
    ensures m == Prod(chain, i) % q
  {
    m := 1;
    ModSmall(1, q);
    for j := 0 to i
      invariant m == Prod(chain, j) % q
    {
      ModMod(Prod(chain, j), q);
      ModMul(m, Prod(chain, j), chain[j], chain[j], q);
      m := MulMod(m, chain[j], q);
    }
  }

  /** (xmod + M * digit) mod q, the step of both phases. */
  lemma MixedStep(x: int, x': int, m: int, m': int, d: int, q: int)
    requires q > 0 && x % q == x' % q && m % q == m' % q
    ensures (x + (m * d) % q) % q == (x' + m' * d) % q
  {
    ModMod(m * d, q);
    ModMul(m, m', d, d, q);
    ModAdd(x, x', (m * d) % q, m' * d, q);
  }

  /** Phase 1 at one coefficient: the mixed-radix digits of the integer with residues v. */
  method GarnerDigits(v: seq<nat>, chain: seq<nat>) returns (delta: seq<nat>)
    requires 0 < |v| <= |chain| && ChainOk(chain) && PairwiseUnits(chain)
    requires forall i | 0 <= i < |v| :: v[i] < chain[i]
    ensures |delta| == |v| && delta[0] == v[0] && forall i | 0 <= i < |v| :: delta[i] < chain[i]
    ensures ResiduesAre(Mixed(delta, chain, |v|), v, chain, |v|)
  {
    var k := |v|;
    var xmod := FirstResidues(v, chain);
    delta := [v[0]] + seq(k - 1, _ => 0);
    MixedOne(delta, chain);
    ModSmall(v[0], chain[0]);
    hide Mixed, Prod;
    for i := 1 to k
      invariant |delta| == k && delta[0] == v[0] && forall e | 0 <= e < i :: delta[e] < chain[e]
      invariant Partials(xmod[..], delta, chain, i, i)
      invariant ResiduesAre(Mixed(delta, chain, i), v, chain, i)
    {
      var d := NextDigit(delta, v, chain, i, xmod[i]);
      delta := delta[i := d];
      Advance(xmod, delta, chain, i);
    }
  }

  method FirstResidues(v: seq<nat>, chain: seq<nat>) returns (xmod: array<nat>)
    requires 0 < |v| <= |chain| && ChainOk(chain)
    ensures fresh(xmod) && xmod.Length == |v|
    ensures forall j | 1 <= j < |v| :: xmod[j] == v[0] % chain[j]
  {
    xmod := new nat[|v|](_ => 0);
    for j := 1 to |v|
      invariant forall e | 1 <= e < j :: xmod[e] == v[0] % chain[e]
    {
      xmod[j] := v[0] % chain[j];
    }
  }

  /** The digit that makes the value right modulo prime i. */
  method NextDigit(delta: seq<nat>, v: seq<nat>, chain: seq<nat>, i: nat, x: nat) returns (d: nat)
    requires 0 < i < |v| <= |chain| && |delta| == |v| && ChainOk(chain) && PairwiseUnits(chain) && v[i] < chain[i]
    requires x == Mixed(delta, chain, i) % chain[i] && ResiduesAre(Mixed(delta, chain, i), v, chain, i)
    ensures d < chain[i] && Mixed(delta[i := d], chain, i) == Mixed(delta, chain, i)
    ensures ResiduesAre(Mixed(delta[i := d], chain, i + 1), v, chain, i + 1)
  {
    hide Mixed, ResiduesAre;
    var qi := chain[i];
    var mqi := ProdMod(chain, i, qi);
    ProdUnit(chain, i, i);
    UnitReduced(Prod(chain, i), qi);
    var inv := ModInv(mqi, qi);
    var t := W64(W64(v[i] + qi) - x) % qi;
    d := MulMod(t, inv, qi);
    GarnerStep(delta, delta[i := d], v, chain, i, x, mqi, inv, t);
  }

  /** xmod holds the value of the first i digits modulo each prime from j on. */
  ghost predicate Partials(xmod: seq<nat>, delta: seq<nat>, chain: seq<nat>, i: nat, j: nat)
    requires i <= |delta| == |xmod| <= |chain| && ChainOk(chain)
  {
    forall e | j <= e < |xmod| :: xmod[e] == Mixed(delta, chain, i) % chain[e]
  }

  /** Carry the new digit i into the running residues of the later primes. */
  method Advance(xmod: array<nat>, delta: seq<nat>, chain: seq<nat>, i: nat)
    requires i < |delta| == xmod.Length <= |chain| && ChainOk(chain)
    requires Partials(xmod[..], delta, chain, i, i + 1)
    modifies xmod
    ensures Partials(xmod[..], delta, chain, i + 1, i + 1)
  {
    for j := i + 1 to xmod.Length
      invariant forall e | j <= e < xmod.Length :: xmod[e] == Mixed(delta, chain, i) % chain[e]
      invariant forall e | i + 1 <= e < j :: xmod[e] == Mixed(delta, chain, i + 1) % chain[e]
    {
      var qj := chain[j];
      var mi := ProdMod(chain, i, qj);
      ModMod(Mixed(delta, chain, i), qj);
      ModMod(Prod(chain, i), qj);
      MixedStep(xmod[j], Mixed(delta, chain, i), mi, Prod(chain, i), delta[i], qj);
      xmod[j] := (xmod[j] + MulMod(mi, delta[i], qj)) % qj;
    }
  }

  lemma MixedOne(delta: seq<nat>, chain: seq<nat>)
    requires |delta| > 0 && |chain| > 0
    ensures Mixed(delta, chain, 1) == delta[0]
  {
    assert Mixed(delta, chain, 0) == 0 && Prod(chain, 0) == 1;
  }

  /** One more digit makes the value right modulo one more prime and keeps the earlier ones. */
  lemma GarnerStep(was: seq<nat>, now: seq<nat>, v: seq<nat>, chain: seq<nat>, i: nat, x: nat, m: nat, inv: nat, t: nat)
    requires 0 < i < |v| <= |chain| && |was| == |now| == |v| && ChainOk(chain)
    requires now == was[i := (t * inv) % chain[i]] && v[i] < chain[i]
    requires x == Mixed(was, chain, i) % chain[i] && m == Prod(chain, i) % chain[i]
    requires InverseOf(inv, m, chain[i])
    requires t == W64(W64(v[i] + chain[i]) - x) % chain[i]
    requires ResiduesAre(Mixed(was, chain, i), v, chain, i)
    ensures Mixed(now, chain, i) == Mixed(was, chain, i)
    ensures ResiduesAre(Mixed(now, chain, i + 1), v, chain, i + 1)
  {
    MixedPrefix(was, now, chain, i);
    var base, p, q := Mixed(was, chain, i), Prod(chain, i), chain[i];
    GarnerDigit(base, p, q, v[i], x, m, inv, t);
    forall j | 0 <= j < i ensures (base + p * now[i]) % chain[j] == v[j] {
      ProdVanishes(chain, i, j);
      ModSmall(0, chain[j]);
      ModMul(p, 0, now[i], now[i], chain[j]);
      ModAdd(base, base, p * now[i], 0, chain[j]);
    }
  }

  lemma GarnerDigit(base: nat, p: nat, q: nat, v: nat, x: nat, m: nat, inv: nat, t: nat)
    requires 1 < q < TOP && v < q && x == base % q && m == p % q && InverseOf(inv, m, q)
    requires t == W64(W64(v + q) - x) % q
    ensures (base + p * ((t * inv) % q)) % q == v
  {
    GapModulo(v, x, q);
    hide W64, InverseOf;
    ModMod(base, q);
    ModAdd(v, v, x, base, q);
    DigitTerm(p, q, m, inv, t, v - x);
    ModAdd(base, base, p * ((t * inv) % q), v - base, q);
    ModSmall(v, q);
  }

  /** The unsigned difference, with q added first, is the difference modulo q. */
  lemma GapModulo(v: nat, x: nat, q: nat)
    requires 1 < q < TOP && v < q && x < q
    ensures (W64(W64(v + q) - x) % q) % q == (v - x) % q
  {
    ModShift(v - x, 1, q);
    ModMod(v - x + q, q);
  }

  /** p times the digit is the difference. */
  lemma DigitTerm(p: nat, q: nat, m: nat, inv: nat, t: nat, d: int)
    requires q > 1 && m == p % q && InverseOf(inv, m, q) && t % q == d % q
    ensures (p * ((t * inv) % q)) % q == d % q
  {
    InverseReduced(inv, p, q);
    var e := t * inv;
    ModMod(e, q);
    ModMul(p, p, e % q, e, q);
    assert p * e == (inv * p) * t;
    ModMul(inv * p, 1, t, d, q);
  }

  /** Phase 2 at one coefficient: that integer modulo a new prime. */
  method NewResidue(delta: seq<nat>, chain: seq<nat>, qn: nat) returns (res: nat)
    requires 0 < |delta| <= |chain| && 1 < qn
    ensures res == Mixed(delta, chain, |delta|) % qn
  {
    res := delta[0] % qn;
    MixedOne(delta, chain);
    var m := 1;
    ModSmall(1, qn);
    assert Prod(chain, 0) == 1;
    for i := 1 to |delta|
      invariant res == Mixed(delta, chain, i) % qn
      invariant m == Prod(chain, i - 1) % qn
    {
      ModMod(Prod(chain, i - 1), qn);
      ModMul(m, Prod(chain, i - 1), chain[i - 1], chain[i - 1], qn);
      m := MulMod(m, chain[i - 1], qn);
      ModMod(Mixed(delta, chain, i), qn);
      ModMod(Prod(chain, i), qn);
      MixedStep(res, Mixed(delta, chain, i), m, Prod(chain, i), delta[i], qn);
      res := (res + MulMod(m, delta[i], qn)) % qn;
    }
  }

  /** Coefficient i of one component at the first k primes. */
  function At(rows: seq<Row>, i: nat): (v: seq<nat>)
    requires forall p | 0 <= p < |rows| :: i < |rows[p]|
    ensures |v| == |rows|
  {
    seq(|rows|, p requires 0 <= p < |rows| => rows[p][i])
  }

  /** r is x modulo q, for the integer x in range with the residues v. */
  ghost predicate Lifted(r: nat, v: seq<nat>, chain: seq<nat>, q: nat)
    requires |v| <= |chain| && q > 0 && forall i | 0 <= i < |v| :: chain[i] > 0
  {
    && (exists x: nat :: InRange(x, v, chain))
    && (forall x: nat | InRange(x, v, chain) :: r == x % q)
  }

  ghost predicate InRange(x: nat, v: seq<nat>, chain: seq<nat>)
    requires |v| <= |chain| && forall i | 0 <= i < |v| :: chain[i] > 0
  {
    x < Prod(chain, |v|) && ResiduesAre(x, v, chain, |v|)
  }

  lemma LiftedMixed(delta: seq<nat>, v: seq<nat>, chain: seq<nat>, r: nat, q: nat)
    requires 0 < |v| <= |chain| && |delta| == |v| && PairwiseUnits(chain) && q > 0
    requires forall i | 0 <= i < |v| :: chain[i] > 0 && delta[i] < chain[i]
    requires ResiduesAre(Mixed(delta, chain, |v|), v, chain, |v|)
    requires r == Mixed(delta, chain, |v|) % q
    ensures Lifted(r, v, chain, q)
  {
    var y := Mixed(delta, chain, |v|);
    MixedBound(delta, chain, |v|);
    assert InRange(y, v, chain);
    forall x: nat | InRange(x, v, chain) ensures x == y {
      CrtUnique(x, y, v, chain, |v|);
    }
  }

  /** A row of lifted coefficients, complete once it has n of them. */
  ghost predicate LiftedRow(row: Row, rows: seq<Row>, n: nat, chain: seq<nat>, q: nat)
    requires |rows| <= |chain| && q > 0 && ChainOk(chain) && RowsOk(rows, n, chain, |rows|)
  {
    |row| <= n && Canonical(row, q) && forall i | 0 <= i < |row| :: LiftedAt(row[i], rows, i, n, chain, q)
  }

  ghost predicate LiftedAt(r: nat, rows: seq<Row>, i: nat, n: nat, chain: seq<nat>, q: nat)
    requires |rows| <= |chain| && q > 0 && ChainOk(chain) && RowsOk(rows, n, chain, |rows|) && i < n
  {
    RowLengths(rows, n, chain);
    Lifted(r, At(rows, i), chain, q)
  }

  lemma RowLengths(rows: seq<Row>, n: nat, chain: seq<nat>)
    requires |rows| <= |chain| && RowsOk(rows, n, chain, |rows|)
    ensures forall p | 0 <= p < |rows| :: |rows[p]| == n
    ensures forall p, i | 0 <= p < |rows| && 0 <= i < n :: rows[p][i] < chain[p]
  {
    assert forall p | 0 <= p < |rows| :: RowOk(rows[p], n, chain[p]);
  }

  method RaiseRows(rows: seq<Row>, n: nat, chain: seq<nat>, target: nat) returns (added: seq<Row>)
    requires 0 < |rows| < target <= |chain| && ChainOk(chain) && PairwiseUnits(chain)
    requires RowsOk(rows, n, chain, |rows|)
    ensures |added| == target - |rows|
    ensures forall e | 0 <= e < |added| :: |added[e]| == n && LiftedRow(added[e], rows, n, chain, chain[|rows| + e])
  {
    hide Lifted, RowsOk, LiftedAt;
    var k := |rows|;
    RowLengths(rows, n, chain);
    added := seq(target - k, _ => []);
    for i := 0 to n
      invariant |added| == target - k
      invariant forall e | 0 <= e < |added| :: |added[e]| == i && LiftedRow(added[e], rows, n, chain, chain[k + e])
    {
      var v := At(rows, i);
      var delta := GarnerDigits(v, chain);
      for e := 0 to target - k
        invariant |added| == target - k
        invariant forall j | 0 <= j < |added| ::
          |added[j]| == (if j < e then i + 1 else i) && LiftedRow(added[j], rows, n, chain, chain[k + j])
      {
        var res := NewResidue(delta, chain, chain[k + e]);
        LiftedMixed(delta, v, chain, res, chain[k + e]);
        LiftedAtIs(res, rows, i, n, chain, chain[k + e]);
        added := added[e := added[e] + [res]];
      }
    }
  }

  lemma LiftedAtIs(r: nat, rows: seq<Row>, i: nat, n: nat, chain: seq<nat>, q: nat)
    requires |rows| <= |chain| && q > 0 && ChainOk(chain) && RowsOk(rows, n, chain, |rows|) && i < n
    requires forall p | 0 <= p < |rows| :: |rows[p]| == n
    requires Lifted(r, At(rows, i), chain, q)
    ensures LiftedAt(r, rows, i, n, chain, q)
  {
    hide Lifted;
  }

  /** One component after raising: the old rows, then a lifted row for each new prime. */
  ghost predicate Raised(out: seq<Row>, rows: seq<Row>, n: nat, chain: seq<nat>, target: nat)
    requires |rows| <= target <= |chain| && ChainOk(chain) && RowsOk(rows, n, chain, |rows|)
  {
    && |out| == target && out[..|rows|] == rows
    && forall p | |rows| <= p < target :: |out[p]| == n && LiftedRow(out[p], rows, n, chain, chain[p])
  }

  lemma RaisedRows(out: seq<Row>, rows: seq<Row>, n: nat, chain: seq<nat>, target: nat)
    requires |rows| <= target <= |chain| && ChainOk(chain) && RowsOk(rows, n, chain, |rows|)
    requires Raised(out, rows, n, chain, target)
    ensures RowsOk(out, n, chain, target)
  {
    hide Lifted;
    forall p | 0 <= p < target ensures RowOk(out[p], n, chain[p]) {
      if p < |rows| {
        assert out[p] == out[..|rows|][p];
        assert RowOk(rows[p], n, chain[p]);
      }
    }
  }

  /**
   Old rows are kept. Each new residue is X mod q_new for the unique X in [0, q_0 ... q_(k-1))
   with the given residues; dropping the new primes gives the input back.
   */
  method ModRaise(a: Ct, target: nat) returns (r: Result<Ct>)
    requires Valid(a) && PairwiseUnits(a.chain) && |a.chain| == NPRIMES && a.nprimes >= 1
    ensures r.Err? <==> target <= a.nprimes || target > NPRIMES
    ensures r.Ok? ==>
      && Valid(r.value) && r.value.nprimes == target && Truncated(r.value, a.nprimes) == a
      && forall c | 0 <= c < |a.c| :: Raised(r.value.c[c], a.c[c], a.n, a.chain, target)
  {
    if target <= a.nprimes || target > NPRIMES { return Err; }
    hide LiftedRow;
    var c: seq<seq<Row>> := [];
    for k := 0 to |a.c|
      invariant |c| == k
      invariant forall j | 0 <= j < k :: Raised(c[j], a.c[j], a.n, a.chain, target)
    {
      assert RowsOk(a.c[k], a.n, a.chain, a.nprimes);
      var added := RaiseRows(a.c[k], a.n, a.chain, target);
      var out := a.c[k] + added;
      forall p | a.nprimes <= p < target
        ensures |out[p]| == a.n && LiftedRow(out[p], a.c[k], a.n, a.chain, a.chain[p])
      {
        assert out[p] == added[p - a.nprimes];
      }
      c := c + [out];
    }
    var ct := Ct(a.n, a.chain, target, c);
    forall k | 0 <= k < |c| ensures RowsOk(c[k], a.n, a.chain, target) && c[k][..a.nprimes] == a.c[k] {
      assert RowsOk(a.c[k], a.n, a.chain, a.nprimes);
      RaisedRows(c[k], a.c[k], a.n, a.chain, target);
    }
    assert Truncated(ct, a.nprimes).c == a.c;
    r := Ok(ct);
  }

  /** Switching a raised ciphertext down again, one prime at a time, gives the ciphertext back. */
  lemma RaiseThenSwitch(a: Ct, cts: seq<Ct>)
    requires SwitchRun(cts) && Valid(a) && a.nprimes <= cts[0].nprimes == a.nprimes + |cts| - 1
    requires (forall i | 0 <= i < |cts[0].c| :: |cts[0].c[i]| == cts[0].nprimes) && Truncated(cts[0], a.nprimes) == a
    ensures cts[|cts| - 1] == a
  {
    hide Valid, Truncated;
    SwitchedDown(cts);
  }
}
