/** The prime chain, and the operations that move a ciphertext along it. */
module CkksRns {
  import opened Residues
  import opened Primes
  import opened Sets
  import opened Rows
  import opened Ring
  import opened CkksArith
  import opened CkksPoly
  import opened Evaluation
  import opened CkksScheme

  const NPRIMES: nat := 32
  const FLOOR: nat := 0x800_0000_0000_0000

  ghost predicate Descending(chain: seq<nat>) {
    forall i, j | 0 <= i < j < |chain| :: chain[j] < chain[i]
  }

  ghost predicate PairwiseUnits(chain: seq<nat>) {
    forall i, j | 0 <= i < |chain| && 0 <= j < |chain| && i != j :: chain[j] > 0 && Unit(chain[i], chain[j])
  }

  // ----- building the chain -----

  /** A candidate the search of the chain must not skip. */
  predicate Candidate(x: nat, mod: nat, isPrime: nat -> bool)
    requires mod > 0
  {
    FLOOR <= x && x % mod == 1 && isPrime(x)
  }

  /** The largest candidate up to start, or 0 when there is none. */
  method FindPrime(start: nat, mod: nat, isPrime: nat -> bool) returns (r: nat)
    requires start >= 1 && 1 < mod < FLOOR
    ensures r == 0 || (r <= start && Candidate(r, mod, isPrime))
    ensures forall x: nat | r < x <= start :: !Candidate(x, mod, isPrime)
  {
    var x := (start - 1) / mod * mod + 1;
    GridStart(start, mod);
    while x >= FLOOR
      invariant x >= 1 && x <= start && x % mod == 1
      invariant forall y: nat | x < y <= start :: !Candidate(y, mod, isPrime)
    {
      if isPrime(x) { return x; }
      forall y: nat | x - mod < y <= start ensures !Candidate(y, mod, isPrime) {
        if y < x && y % mod == 1 {
          GridGap(x, y, mod);
        }
      }
      ModShift(x, -1, mod);
      x := x - mod;
    }
    return 0;
  }

  lemma GridStart(start: nat, mod: nat)
    requires start >= 1 && mod > 1
    ensures var x := (start - 1) / mod * mod + 1;
            1 <= x <= start && x % mod == 1 && forall y: nat | x < y <= start :: y % mod != 1
  {
    var k := (start - 1) / mod;
    var x := k * mod + 1;
    assert start - 1 == k * mod + (start - 1) % mod;
    DivUnique(x, mod, k, 1);
    forall y: nat | x < y <= start ensures y % mod != 1 {
      var d := y - k * mod;
      if d == mod {
        assert (k + 1) * mod == k * mod + mod;
        DivUnique(y, mod, k + 1, 0);
      } else {
        DivUnique(y, mod, k, d);
      }
    }
  }

  lemma GridGap(x: nat, y: nat, mod: nat)
    requires mod > 1 && x % mod == 1 && x - mod < y < x
    ensures y % mod != 1
  {
    if y % mod == 1 {
      ModShift(x, -1, mod);
      ModAdd(y, 1, x - mod, 1, mod);
      ModSmall(0, mod);
      ModSmall(y - (x - mod), mod);
    }
  }

  /** A descending chain of candidates below 2^60. */
  ghost predicate CandidateChain(chain: seq<nat>, n: nat, isPrime: nat -> bool)
    requires n > 0
  {
    Descending(chain) && forall i | 0 <= i < |chain| :: chain[i] < TOP && Candidate(chain[i], 2 * n, isPrime)
  }

  /** A chain of candidates is no longer than one that holds them all. */
  lemma NoLonger(chain: seq<nat>, all: seq<nat>, n: nat, isPrime: nat -> bool)
    requires n > 0 && CandidateChain(chain, n, isPrime)
    requires forall x: nat | x < TOP && Candidate(x, 2 * n, isPrime) :: x in all
    ensures |chain| <= |all|
  {
    hide Candidate;
    assert Distinct(chain) by {
      forall i, j | 0 <= i < j < |chain| ensures chain[i] != chain[j] { assert chain[j] < chain[i]; }
    }
    DistinctSize(chain);
    var used, every := set i | 0 <= i < |chain| :: chain[i], set i | 0 <= i < |all| :: all[i];
    assert used <= every;
    SubsetSize(used, every);
    ImageSize(all);
  }

  lemma {:induction false} ImageSize(s: seq<nat>)
    ensures |set i | 0 <= i < |s| :: s[i]| <= |s|
  {
    if s != [] {
      var init, last := s[..|s| - 1], s[|s| - 1];
      ImageSize(init);
      var rest := set i | 0 <= i < |init| :: init[i];
      assert (set i | 0 <= i < |s| :: s[i]) == rest + {last} by {
        assert forall i | 0 <= i < |init| :: s[i] == init[i];
      }
    }
  }

  /** The chain holds the `count` largest candidates below 2^60, in descending order. */
  method CtxInit(n: nat, count: nat, isPrime: nat -> bool) returns (r: Result<seq<nat>>)
    requires 1 <= n < FLOOR / 2
    ensures r.Ok? <==> exists chain :: |chain| == count && CandidateChain(chain, n, isPrime)
    ensures r.Ok? ==>
      && |r.value| == count && Descending(r.value) && ChainOk(r.value)
      && (forall i | 0 <= i < count :: Candidate(r.value[i], 2 * n, isPrime))
      && forall x: nat | x < TOP && Candidate(x, 2 * n, isPrime) && (count == 0 || x >= r.value[count - 1]) ::
           count == 0 || x in r.value
  {
    var chain: seq<nat> := [];
    var start := TOP - 1;
    while |chain| < count
      invariant |chain| <= count && 1 <= start < TOP
      invariant Descending(chain) && forall i | 0 <= i < |chain| :: start < chain[i] < TOP && Candidate(chain[i], 2 * n, isPrime)
      invariant |chain| > 0 ==> start == chain[|chain| - 1] - 1
      invariant forall x: nat | start < x < TOP && Candidate(x, 2 * n, isPrime) :: x in chain
      decreases count - |chain|
    {
      var q := FindPrime(start, 2 * n, isPrime);
      if q == 0 {
        forall other | CandidateChain(other, n, isPrime) ensures |other| < count {
          NoLonger(other, chain, n, isPrime);
        }
        return Err;
      }
      forall x: nat | q - 1 < x < TOP && Candidate(x, 2 * n, isPrime) ensures x in chain + [q] {
        assert x > start ==> x in chain;
      }
      chain := chain + [q];
      start := q - 1;
    }
    r := Ok(chain);
    assert CandidateChain(chain, n, isPrime);
  }

  // ----- coprimality of the chain -----

  lemma ChainUnits(chain: seq<nat>)
    requires Descending(chain) && forall i | 0 <= i < |chain| :: Prime(chain[i])
    ensures PairwiseUnits(chain)
  {
    forall i, j | 0 <= i < |chain| && 0 <= j < |chain| && i != j ensures Unit(chain[i], chain[j]) {
      assert chain[i] != chain[j] by {
        if i < j { assert chain[j] < chain[i]; } else { assert chain[i] < chain[j]; }
      }
      PrimesAreUnits(chain[i], chain[j]);
    }
  }

  // ----- residues of one integer -----

  /** X has the residues of coefficient i of component k at the first np primes. */
  ghost predicate HasResidues(x: int, ct: Ct, k: nat, i: nat)
    requires Valid(ct) && k < |ct.c| && i < ct.n
  {
    forall p | 0 <= p < ct.nprimes :: x % ct.chain[p] == Coef(ct, k, p, i)
  }

  ghost function Coef(ct: Ct, k: nat, p: nat, i: nat): (r: nat)
    requires Valid(ct) && k < |ct.c| && p < ct.nprimes && i < ct.n
    ensures r < ct.chain[p]
  {
    assert RowOk(ct.c[k][p], ct.n, ct.chain[p]);
    ct.c[k][p][i]
  }

  // ----- dropping primes -----

  function Truncated(ct: Ct, m: nat): (r: Ct)
    requires m <= ct.nprimes && forall k | 0 <= k < |ct.c| :: |ct.c[k]| == ct.nprimes
  {
    Ct(ct.n, ct.chain, m, seq(|ct.c|, k requires 0 <= k < |ct.c| => ct.c[k][..m]))
  }

  method ModSwitch(a: Ct) returns (r: Result<Ct>)
    requires Valid(a)
    ensures r.Err? <==> a.nprimes < 1
    ensures r.Ok? ==> r.value == Truncated(a, a.nprimes - 1) && Valid(r.value)
  {
    if a.nprimes < 1 { return Err; }
    var c: seq<seq<Row>> := [];
    for k := 0 to |a.c|
      invariant |c| == k && forall j | 0 <= j < k :: c[j] == a.c[j][..a.nprimes - 1]
    {
      c := c + [a.c[k][..a.nprimes - 1]];
    }
    r := Ok(Ct(a.n, a.chain, a.nprimes - 1, c));
    assert r.value == Truncated(a, a.nprimes - 1);
    forall k | 0 <= k < |c| ensures RowsOk(c[k], a.n, a.chain, a.nprimes - 1) {
      assert RowsOk(a.c[k], a.n, a.chain, a.nprimes);
    }
  }

  /** Dropping primes one at a time is dropping them together. */
  lemma TruncatedTwice(ct: Ct, j: nat, k: nat)
    requires Valid(ct) && k <= j <= ct.nprimes
    ensures forall i | 0 <= i < |ct.c| :: |Truncated(ct, j).c[i]| == j
    ensures Truncated(Truncated(ct, j), k) == Truncated(ct, k)
  {
    forall i | 0 <= i < |ct.c| ensures ct.c[i][..j][..k] == ct.c[i][..k] {
      assert RowsOk(ct.c[i], ct.n, ct.chain, ct.nprimes);
    }
  }

  /** Each ciphertext is the one before it, switched down by one prime. */
  ghost predicate SwitchRun(cts: seq<Ct>) {
    && cts != [] && (forall k | 0 <= k < |cts| :: Valid(cts[k]))
    && forall k {:trigger cts[k]} | 0 <= k < |cts| - 1 :: cts[k].nprimes >= 1 && cts[k + 1] == Truncated(cts[k], cts[k].nprimes - 1)
  }

  /** Any number of modulus switches drop that many primes and keep every other residue. */
  lemma {:induction false} SwitchedDown(cts: seq<Ct>)
    requires SwitchRun(cts)
    ensures |cts| - 1 <= cts[0].nprimes
    ensures cts[|cts| - 1] == Truncated(cts[0], cts[0].nprimes - (|cts| - 1))
  {
    hide Valid;
    var n := |cts| - 1;
    if n == 0 {
      TruncatedNone(cts[0]);
    } else {
      var before := cts[..n];
      assert forall k | 0 <= k < n :: before[k] == cts[k];
      SwitchedDown(before);
      TruncatedTwice(cts[0], cts[0].nprimes - (n - 1), cts[0].nprimes - n);
    }
  }

  lemma TruncatedNone(ct: Ct)
    requires Valid(ct)
    ensures (forall i | 0 <= i < |ct.c| :: |ct.c[i]| == ct.nprimes) && Truncated(ct, ct.nprimes) == ct
  {
    forall i | 0 <= i < |ct.c| ensures |ct.c[i]| == ct.nprimes && ct.c[i][..ct.nprimes] == ct.c[i] {
      assert RowsOk(ct.c[i], ct.n, ct.chain, ct.nprimes);
    }
  }

  // ----- rescaling -----

  /** (xi - xL) / qL at one coefficient; the sum xi + qp - xL cannot go below zero. */
  function RescaleCoef(xi: nat, xl: nat, inv: nat, qp: nat): (r: nat)
    requires 0 < qp < TOP && xi < qp && xl < qp && inv < qp
    ensures r < qp
    ensures r == ((xi - xl) * inv) % qp
  {
    var d := W64(W64(xi + qp) - xl) % qp;
    ModShift(xi - xl, 1, qp);
    ModMod(xi - xl, qp);
    ModMul(d, xi - xl, inv, inv, qp);
    MulMod(d, inv, qp)
  }

  /** The quotient of any integer with these residues, floored, modulo the other prime. */
  lemma RescaleExact(x: int, xi: nat, xl: nat, inv: nat, qp: nat, ql: nat)
    requires 0 < qp && 0 < ql && InverseOf(inv, ql % qp, qp)
    requires x % qp == xi && x % ql == xl
    ensures ((xi - xl) * inv) % qp == (x / ql) % qp
  {
    var y := x / ql;
    assert x == ql * y + xl;
    ModMod(x, qp);
    ModAdd(xi, x, xl, xl, qp);
    ModMul(xi - xl, ql * y, inv, inv, qp);
    assert (ql * y) * inv == (inv * ql) * y;
    ModMod(ql, qp);
    ModMul(inv, inv, ql % qp, ql, qp);
    ModMul(inv * ql, 1, y, y, qp);
  }

  lemma UnitReduced(a: int, m: int)
    requires m > 0 && Unit(a, m)
    ensures Unit(a % m, m)
  {
    var u: int :| InverseOf(u, a, m);
    ModMod(a, m);
    ModMul(u, u, a % m, a, m);
    assert InverseOf(u, a % m, m);
  }

  ghost predicate TwoResidues(x: int, xi: nat, xl: nat, qp: nat, ql: nat)
    requires 0 < qp && 0 < ql
  {
    x % qp == xi && x % ql == xl
  }

  /** o is the floor of x / ql modulo qp, for every integer x with the two residues. */
  ghost predicate FloorOf(o: nat, xi: nat, xl: nat, qp: nat, ql: nat)
    requires 0 < qp && 0 < ql
  {
    forall x: int | TwoResidues(x, xi, xl, qp, ql) :: o == (x / ql) % qp
  }

  method RescaleRow(xi: Row, xl: Row, ql: nat, qp: nat) returns (out: Row)
    requires RowOk(xi, |xi|, qp) && RowOk(xl, |xi|, ql) && 1 < ql < qp < TOP && Unit(ql, qp)
    ensures RowOk(out, |xi|, qp)
    ensures forall i | 0 <= i < |xi| :: FloorOf(out[i], xi[i], xl[i], qp, ql)
    ensures Eqv(Scale(ql, out), Add(xi, Scale(-1, xl)), qp)
  {
    UnitReduced(ql, qp);
    var inv := ModInv(ql % qp, qp);
    var buf := new nat[|xi|](_ => 0);
    for i := 0 to |xi|
      invariant forall k | 0 <= k < i :: buf[k] == RescaledBy(xi[k], xl[k], inv, qp)
    {
      buf[i] := RescaleCoef(xi[i], xl[i], inv, qp);
    }
    out := buf[..];
    RescaleRowExact(xi, xl, out, inv, ql, qp);
  }

  lemma RescaleRowExact(xi: Row, xl: Row, out: Row, inv: nat, ql: nat, qp: nat)
    requires |xi| == |xl| == |out| && 0 < ql && 0 < qp && InverseOf(inv, ql % qp, qp)
    requires forall i | 0 <= i < |xi| :: out[i] == RescaledBy(xi[i], xl[i], inv, qp)
    ensures forall i | 0 <= i < |xi| :: FloorOf(out[i], xi[i], xl[i], qp, ql)
    ensures Eqv(Scale(ql, out), Add(xi, Scale(-1, xl)), qp)
  {
    forall i | 0 <= i < |xi|
      ensures FloorOf(out[i], xi[i], xl[i], qp, ql)
      ensures (ql * out[i]) % qp == (xi[i] + -1 * xl[i]) % qp
    {
      RescaleCoefExact(xi[i], xl[i], inv, ql, qp);
    }
  }

  function RescaledBy(xi: nat, xl: nat, inv: nat, qp: nat): int
    requires qp > 0
  {
    ((xi - xl) * inv) % qp
  }

  lemma RescaleCoefExact(xi: nat, xl: nat, inv: nat, ql: nat, qp: nat)
    requires 0 < ql && 0 < qp && InverseOf(inv, ql % qp, qp)
    ensures RescaledBy(xi, xl, inv, qp) >= 0 && FloorOf(RescaledBy(xi, xl, inv, qp), xi, xl, qp, ql)
    ensures (ql * RescaledBy(xi, xl, inv, qp)) % qp == (xi + -1 * xl) % qp
  {
    forall x: int | TwoResidues(x, xi, xl, qp, ql) ensures RescaledBy(xi, xl, inv, qp) == (x / ql) % qp {
      RescaleExact(x, xi, xl, inv, qp, ql);
    }
    RescaleBack(xi - xl, inv, ql, qp);
  }

  lemma RescaleBack(d: int, inv: int, ql: int, qp: int)
    requires qp > 0 && InverseOf(inv, ql % qp, qp)
    ensures (ql * ((d * inv) % qp)) % qp == d % qp
  {
    var e := d * inv;
    assert ql * e == (inv * ql) * d;
    ModMod(e, qp);
    ModMul(ql, ql, e % qp, e, qp);
    InverseReduced(inv, ql, qp);
    ModMul(inv * ql, 1, d, d, qp);
  }

  lemma InverseReduced(u: int, a: int, m: int)
    requires m > 0
    ensures InverseOf(u, a % m, m) <==> InverseOf(u, a, m)
  {
    ModMod(a, m);
    ModMul(u, u, a % m, a, m);
  }

  /** One component of a rescaled ciphertext. */
  ghost predicate Rescaled(rows: seq<Row>, was: seq<Row>, n: nat, chain: seq<nat>, np: nat)
    requires 0 < np <= |chain| && ChainOk(chain) && RowsOk(was, n, chain, np) && |rows| <= np - 1
  {
    forall p | 0 <= p < |rows| ::
      && RowOk(rows[p], n, chain[p]) && RowOk(was[p], n, chain[p]) && RowOk(was[np - 1], n, chain[np - 1])
      && (forall i | 0 <= i < n :: FloorOf(rows[p][i], was[p][i], was[np - 1][i], chain[p], chain[np - 1]))
      && Eqv(Scale(chain[np - 1], rows[p]), Add(was[p], Scale(-1, was[np - 1])), chain[p])
  }

  method RescaleRows(was: seq<Row>, n: nat, chain: seq<nat>, np: nat) returns (rows: seq<Row>)
    requires 2 <= np <= |chain| && ChainOk(chain) && RowsOk(was, n, chain, np)
    requires Descending(chain) && PairwiseUnits(chain)
    ensures |rows| == np - 1 && Rescaled(rows, was, n, chain, np)
  {
    rows := [];
    for p := 0 to np - 1
      invariant |rows| == p && Rescaled(rows, was, n, chain, np)
    {
      assert RowOk(was[p], n, chain[p]) && RowOk(was[np - 1], n, chain[np - 1]);
      assert chain[np - 1] < chain[p] && Unit(chain[np - 1], chain[p]);
      var out := RescaleRow(was[p], was[np - 1], chain[np - 1], chain[p]);
      rows := rows + [out];
    }
  }

  /**
   Every output residue is the floor of X / q_last for the integer X behind the input
   residues, and q_last times the new plaintext is the old one less the evaluation of the
   dropped residues.
   */
  method Rescale(a: Ct) returns (r: Result<Ct>)
    requires Valid(a) && Descending(a.chain) && PairwiseUnits(a.chain)
    ensures r.Err? <==> a.nprimes < 2
    ensures r.Ok? ==>
      && Valid(r.value) && Compatible(r.value, a) && r.value.nprimes == a.nprimes - 1 && |r.value.c| == |a.c|
      && (forall k: nat, p: nat, i: nat, x: int
            | k < |a.c| && p < a.nprimes - 1 && i < a.n && HasResidues(x, a, k, i) ::
            Coef(r.value, k, p, i) == (x / a.chain[a.nprimes - 1]) % a.chain[p])
      && (forall p: nat, s: Poly {:trigger Plain(r.value, s, p)} | p < a.nprimes - 1 && |s| == a.n ::
            Eqv(Scale(a.chain[a.nprimes - 1], Plain(r.value, s, p)),
                Add(Plain(a, s, p), Scale(-1, Plain(a, s, a.nprimes - 1))), a.chain[p]))
  {
    if a.nprimes < 2 { return Err; }
    hide Rescaled, Plain, Eqv;
    var c: seq<seq<Row>> := [];
    for k := 0 to |a.c|
      invariant |c| == k
      invariant forall j | 0 <= j < k :: |c[j]| == a.nprimes - 1 && Rescaled(c[j], a.c[j], a.n, a.chain, a.nprimes)
    {
      var rows := RescaleRows(a.c[k], a.n, a.chain, a.nprimes);
      c := c + [rows];
    }
    var ct := Ct(a.n, a.chain, a.nprimes - 1, c);
    RescaledValid(a, ct);
    forall k: nat, p: nat, i: nat, x: int | k < |a.c| && p < a.nprimes - 1 && i < a.n && HasResidues(x, a, k, i)
      ensures Coef(ct, k, p, i) == (x / a.chain[a.nprimes - 1]) % a.chain[p]
    {
      RescaledCoef(a, ct, k, p, i, x);
    }
    forall p: nat, s: Poly | p < a.nprimes - 1 && |s| == a.n
      ensures Eqv(Scale(a.chain[a.nprimes - 1], Plain(ct, s, p)),
                  Add(Plain(a, s, p), Scale(-1, Plain(a, s, a.nprimes - 1))), a.chain[p])
    {
      RescaledPlain(a, ct, p, s);
    }
    r := Ok(ct);
  }

  /** The ciphertext a was rescaled to ct. */
  ghost predicate RescaledCt(a: Ct, ct: Ct) {
    && Valid(a) && a.nprimes >= 2 && Compatible(ct, a) && ct.nprimes == a.nprimes - 1 && |ct.c| == |a.c|
    && forall j | 0 <= j < |a.c| :: |ct.c[j]| == a.nprimes - 1 && Rescaled(ct.c[j], a.c[j], a.n, a.chain, a.nprimes)
  }

  lemma RescaledValid(a: Ct, ct: Ct)
    requires RescaledCt(a, ct)
    ensures Valid(ct)
  {
    forall k | 0 <= k < |ct.c| ensures RowsOk(ct.c[k], ct.n, ct.chain, ct.nprimes) {
      assert Rescaled(ct.c[k], a.c[k], a.n, a.chain, a.nprimes);
    }
  }

  lemma RescaledCoef(a: Ct, ct: Ct, k: nat, p: nat, i: nat, x: int)
    requires RescaledCt(a, ct) && Valid(ct)
    requires k < |a.c| && p < a.nprimes - 1 && i < a.n && HasResidues(x, a, k, i)
    ensures Coef(ct, k, p, i) == (x / a.chain[a.nprimes - 1]) % a.chain[p]
  {
    assert Rescaled(ct.c[k], a.c[k], a.n, a.chain, a.nprimes);
    assert x % a.chain[p] == Coef(a, k, p, i);
    assert x % a.chain[a.nprimes - 1] == Coef(a, k, a.nprimes - 1, i);
    assert TwoResidues(x, a.c[k][p][i], a.c[k][a.nprimes - 1][i], a.chain[p], a.chain[a.nprimes - 1]);
  }

  lemma RescaledPlain(a: Ct, ct: Ct, p: nat, s: Poly)
    requires RescaledCt(a, ct) && Valid(ct) && p < a.nprimes - 1 && |s| == a.n
    ensures Eqv(Scale(a.chain[a.nprimes - 1], Plain(ct, s, p)),
                Add(Plain(a, s, p), Scale(-1, Plain(a, s, a.nprimes - 1))), a.chain[p])
  {
    hide Eval, Eqv;
    ColumnsOk(a, p);
    ColumnsOk(a, a.nprimes - 1);
    ColumnsOk(ct, p);
    var ql, q := a.chain[a.nprimes - 1], a.chain[p];
    var x, y, z := Column(ct, p), Column(a, p), Column(a, a.nprimes - 1);
    forall k | 0 <= k < |x| ensures Eqv(Scale(ql, x[k]), Add(Scale(1, y[k]), Scale(-1, z[k])), q) {
      assert Rescaled(ct.c[k], a.c[k], a.n, a.chain, a.nprimes);
      ScaleOne(y[k]);
    }
    EvalLinear(x, y, z, ql, 1, -1, s, q);
    ScaleOne(Eval(y, s));
  }
}
