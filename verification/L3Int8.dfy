/**
 The int8 cache beside the float one. A block in RAM holds float rows, int8 rows with a scale per
 token and head, or both; a block restored from its payload is rounded to int8 whenever int8 rows
 are kept, and then its float rows are what those int8 rows stand for.
 */
module L3Int8 {
  import opened Residues
  import opened L3Quant
  import opened L3Layout

  type Ints = seq<int>

  datatype IntRows = IntRows(k: seq<Ints>, v: seq<Ints>)

  /** The largest magnitude of every row, one per token and head. */
  datatype Scales = Scales(k: seq<real>, v: seq<real>)

  /** The rows of one block in RAM. */
  datatype Held = Floats(f: Content) | Both(f: Content, q: IntRows) | OnlyInts(q: IntRows)

  /** Which rows the cache keeps. */
  datatype World = World(floats: bool, ints: bool)

  predicate InWorld(w: World, h: Held) {
    match h
    case Floats(_) => w.floats && !w.ints
    case Both(_, _) => w.floats && w.ints
    case OnlyInts(_) => !w.floats && w.ints
  }

  /** Tokens times heads. */
  function ScaleCount(geo: Geo): (n: nat) { Nat(geo.bs, geo.nkv) }

  /** The token and head row group r belongs to. */
  function Owner(geo: Geo, r: nat): (n: nat)
    requires GeoOk(geo) && r < RowCount(geo)
    ensures n < ScaleCount(geo)
  {
    OwnerBound(r, ScaleCount(geo), Groups(geo));
    r / Groups(geo)
  }

  lemma OwnerBound(r: nat, n: nat, m: nat)
    requires m > 0 && r < Nat(n, m)
    ensures r / m < n
  {
    IxJoin(r, n, m);
  }

  /** The smallest scale the cache writes. */
  const TINY: real := 0.000001

  ghost predicate IntsOk(geo: Geo, q: seq<Ints>) {
    |q| == RowCount(geo) && forall r | 0 <= r < |q| :: |q[r]| == 64
  }

  ghost predicate HeldOk(geo: Geo, h: Held) {
    && (h.Floats? || h.Both? ==> ContentOk(geo, h.f))
    && (h.OnlyInts? || h.Both? ==> IntsOk(geo, h.q.k) && IntsOk(geo, h.q.v))
  }

  predicate Sized(geo: Geo, s: Scales) {
    |s.k| == |s.v| == ScaleCount(geo)
  }

  // ----- restoring to int8, and reading int8 -----

  function ToInts(geo: Geo, rows: seq<Group>, sc: seq<real>): (q: seq<Ints>)
    requires GeoOk(geo) && AreaOk(geo, rows) && |sc| == ScaleCount(geo)
    ensures IntsOk(geo, q)
  {
    seq(RowCount(geo), r requires 0 <= r < RowCount(geo) => RowInts(rows[r], Ratio(127.0, RowMax(sc[Owner(geo, r)]))))
  }

  /** The float rows a restore writes next to its int8 rows. */
  function FromInts(geo: Geo, q: seq<Ints>, sc: seq<real>): (rows: seq<Group>)
    requires GeoOk(geo) && IntsOk(geo, q) && |sc| == ScaleCount(geo)
    ensures AreaOk(geo, rows)
  {
    seq(RowCount(geo), r requires 0 <= r < RowCount(geo) => RowBack(q[r], Ratio(RowMax(sc[Owner(geo, r)]), 127.0)))
  }

  /** What int8 rows stand for to whoever reads them: the stored scale as it is. */
  function ReadInts(geo: Geo, q: seq<Ints>, sc: seq<real>): (rows: seq<Group>)
    requires GeoOk(geo) && IntsOk(geo, q) && |sc| == ScaleCount(geo)
    ensures AreaOk(geo, rows)
  {
    seq(RowCount(geo), r requires 0 <= r < RowCount(geo) => RowBack(q[r], Ratio(sc[Owner(geo, r)], 127.0)))
  }

  /** The rows a packing of the block would use. */
  function Means(geo: Geo, h: Held, s: Scales): (c: Content)
    requires GeoOk(geo) && HeldOk(geo, h) && Sized(geo, s)
    ensures ContentOk(geo, c)
  {
    match h
    case Floats(f) => f
    case Both(f, _) => f
    case OnlyInts(q) => Content(ReadInts(geo, q.k, s.k), ReadInts(geo, q.v, s.v))
  }

  /** A block restored from its payload. */
  function Restored(geo: Geo, w: World, cells: seq<Cell>, s: Scales): (h: Held)
    requires GeoOk(geo) && |cells| == BlockBytes(geo) && Sized(geo, s) && (w.floats || w.ints)
    ensures HeldOk(geo, h) && InWorld(w, h)
  {
    var c := Unpacked(geo, cells);
    if !w.ints then Floats(c)
    else
      var q := IntRows(ToInts(geo, c.k, s.k), ToInts(geo, c.v, s.v));
      if w.floats then Both(Content(FromInts(geo, q.k, s.k), FromInts(geo, q.v, s.v)), q) else OnlyInts(q)
  }

  /** The rows of a block that was packed and restored. */
  function Back(geo: Geo, w: World, o: Content, s: Scales): (c: Content)
    requires GeoOk(geo) && ContentOk(geo, o) && Sized(geo, s) && (w.floats || w.ints)
    ensures ContentOk(geo, c)
  {
    Means(geo, Restored(geo, w, Packed(geo, o), s), s)
  }

  // ----- the writer -----

  /** The scale the writer stores for one row of a head. */
  function HeadScale(row: seq<real>): (s: real)
    ensures s >= TINY
  {
    if Amax(row) < TINY then 1.0 else Amax(row)
  }

  /** What the writer leaves fits its scale: no value exceeds it and no int8 leaves [-127, 127]. */
  lemma WriterFits(row: seq<real>, i: nat)
    requires i < |row|
    ensures Abs(row[i]) <= HeadScale(row)
    ensures -127 <= Q8(row[i], Ratio(127.0, HeadScale(row))) <= 127
    ensures Abs(Value(Q8(row[i], Ratio(127.0, HeadScale(row))), Ratio(HeadScale(row), 127.0)) - row[i]) <= HeadScale(row) / 254.0
  {
    hide Q8, Ratio, Value;
    assert Abs(row[i]) <= Amax(row);
    Q8Error(row[i], HeadScale(row));
  }

  // ----- how far a restored block is off -----

  /** Every value is at most the scale of its row; a row never written has scale 0 and is all zero. */
  ghost predicate AreaFits(geo: Geo, rows: seq<Group>, sc: seq<real>)
    requires GeoOk(geo)
  {
    && AreaOk(geo, rows) && |sc| == ScaleCount(geo)
    && forall r: nat | r < RowCount(geo) :: RowFits64(rows[r], sc[Owner(geo, r)])
  }

  ghost predicate RowFits64(row: Group, s: real) {
    |row| == 64 && (s >= TINY || s == 0.0) && forall i | 0 <= i < 64 :: Abs(row[i]) <= s
  }

  ghost predicate Fits(geo: Geo, c: Content, s: Scales)
    requires GeoOk(geo)
  {
    AreaFits(geo, c.k, s.k) && AreaFits(geo, c.v, s.v)
  }

  ghost predicate RowNear(a: Group, b: Group, s: real) {
    |a| == |b| == 64 && forall i | 0 <= i < 64 :: Abs(a[i] - b[i]) <= RowMax(s) * (1.0 / 14.0 + 1.0 / 254.0)
  }

  ghost predicate AreaNear(geo: Geo, a: seq<Group>, b: seq<Group>, sc: seq<real>)
    requires GeoOk(geo)
  {
    && AreaOk(geo, a) && AreaOk(geo, b) && |sc| == ScaleCount(geo)
    && forall r: nat | r < RowCount(geo) :: RowNear(a[r], b[r], sc[Owner(geo, r)])
  }

  /** Every value differs by at most the row maximum times 1/14 + 1/254. */
  ghost predicate Near(geo: Geo, a: Content, b: Content, s: Scales)
    requires GeoOk(geo)
  {
    AreaNear(geo, a.k, b.k, s.k) && AreaNear(geo, a.v, b.v, s.v)
  }

  /** One packed row restored to int8 and read with step sk. */
  function RowAgain(v: Group, s: real, reader: real): (r: Group)
    requires |v| == 64
    ensures |r| == 64
  {
    RowBack(RowInts(Dequant64(Pack64(v)), Ratio(127.0, RowMax(s))), Ratio(reader, 127.0))
  }

  /**
   The writer keeps a largest magnitude of exactly TINY as the scale, the restore takes 1 in its place,
   and so such a row comes back as zeros.
   */
  lemma TinyVanishes(v: Group, reader: real)
    requires |v| == 64 && forall i | 0 <= i < 64 :: Abs(v[i]) <= TINY
    ensures Amax(v) == TINY ==> HeadScale(v) == TINY
    ensures RowMax(TINY) == 1.0 && forall i | 0 <= i < 64 :: RowAgain(v, TINY, reader)[i] == 0.0
  {
    var w := Dequant64(Pack64(v));
    hide Pack64, Dequant64;
    forall i | 0 <= i < 64 ensures RowAgain(v, TINY, reader)[i] == 0.0 {
      SmallAgain(v, i);
      TinyQ8(w[i]);
      assert RowInts(w, Ratio(127.0, 1.0))[i] == 0;
    }
  }

  lemma SmallAgain(v: Group, i: nat)
    requires |v| == 64 && i < 64 && forall i | 0 <= i < 64 :: Abs(v[i]) <= TINY
    ensures Abs(Dequant64(Pack64(v))[i]) <= TINY
  {
    PackError(v, i, TINY);
  }

  lemma TinyQ8(x: real)
    requires Abs(x) <= TINY
    ensures Q8(x, Ratio(127.0, 1.0)) == 0
  {}

  /** Read with the restoring scale, or with the stored one, it is close and fits the scale again. */
  lemma RowAgainNear(v: Group, s: real, reader: real)
    requires RowFits64(v, s) && (reader == s || reader == RowMax(s))
    ensures RowNear(RowAgain(v, s, reader), v, s) && RowFits64(RowAgain(v, s, reader), s)
  {
    var w := Dequant64(Pack64(v));
    forall i | 0 <= i < 64
      ensures var x := RowAgain(v, s, reader)[i];
              Abs(x - v[i]) <= RowMax(s) * (1.0 / 14.0 + 1.0 / 254.0) && Abs(x) <= s
    {
      assert RowAgain(v, s, reader)[i] == Value(Q8(w[i], Ratio(127.0, RowMax(s))), Ratio(reader, 127.0));
      ValueAgain(v, i, s, reader);
    }
  }

  lemma ValueAgain(v: Group, i: nat, s: real, reader: real)
    requires RowFits64(v, s) && (reader == s || reader == RowMax(s)) && i < 64
    ensures var x := Value(Q8(Dequant64(Pack64(v))[i], Ratio(127.0, RowMax(s))), Ratio(reader, 127.0));
            Abs(x - v[i]) <= RowMax(s) * (1.0 / 14.0 + 1.0 / 254.0) && Abs(x) <= s
  {
    hide Q8, Ratio, Value, Dequant64, Pack64, Scale;
    PackError(v, i, s);
    var w := Dequant64(Pack64(v))[i];
    if RowMax(s) == s {
      RestoreError(v, i, s);
      Q8Error(w, s);
      IntBound(Q8(w, Ratio(127.0, s)), s);
    } else {
      TinyScale(s, w);
      ZeroValue(Ratio(reader, 127.0));
    }
  }

  lemma IntBound(q: int, s: real)
    requires -127 <= q <= 127 && s > 0.0
    ensures Abs(Value(q, Ratio(s, 127.0))) <= s
  {
    assert Ratio(s, 127.0) == s / 127.0;
    var y := s / 127.0;
    hide Times, Ratio;
    TimesConstants(y);
    TimesOrder(q as real, 127.0, y);
    TimesOrder(-127.0, q as real, y);
  }

  /** The scales that the restore replaces, the smallest the writer leaves and that of an unwritten row: every value rounds to 0. */
  lemma TinyScale(s: real, w: real)
    requires (s >= TINY || s == 0.0) && RowMax(s) != s && Abs(w) <= s
    ensures s <= TINY && RowMax(s) == 1.0 && Q8(w, Ratio(127.0, RowMax(s))) == 0
  {
    assert Ratio(127.0, 1.0) == 127.0;
    assert Times(w, 127.0) == w * 127.0;
  }

  lemma ZeroValue(y: real)
    ensures Value(0, y) == 0.0
  {}

  // ----- from rows to blocks -----

  /** The step with which a restored block is read: the restore's own for float rows. */
  function Reader(w: World, s: real): real {
    if w.floats then RowMax(s) else s
  }

  /** With int8 rows, each row group of a restored block is its packed row, rounded. */
  lemma BackRow(geo: Geo, w: World, o: Content, s: Scales, r: nat)
    requires GeoOk(geo) && ContentOk(geo, o) && Sized(geo, s) && w.ints && r < RowCount(geo)
    ensures Back(geo, w, o, s).k[r] == RowAgain(o.k[r], s.k[Owner(geo, r)], Reader(w, s.k[Owner(geo, r)]))
    ensures Back(geo, w, o, s).v[r] == RowAgain(o.v[r], s.v[Owner(geo, r)], Reader(w, s.v[Owner(geo, r)]))
  {
    hide RowInts, RowBack, Ratio, Dequant64, Pack64, PayloadCells, Packed, Owner, RowMax, Count, BlockBytes, PayloadOfRow;
    RowOfPacked(geo, o, 0, r);
    RowOfPacked(geo, o, 1, r);
  }

  /** A row group of an unpacked block is that row group, packed and unpacked. */
  lemma RowOfPacked(geo: Geo, o: Content, area: nat, r: nat)
    requires GeoOk(geo) && ContentOk(geo, o) && r < RowCount(geo) && area < 2
    ensures UnpackedArea(geo, Packed(geo, o), area)[r] == Dequant64(Pack64(if area == 0 then o.k[r] else o.v[r]))
  {
    var p := PayloadOfRow(geo, area, r);
    RowParts(geo, r);
    hide Number, Count, BlockBytes, RowIndex, RowCount, Dequant64, Pack64, Packed, Ix, Nat, Prefix, AreaOf, HeadOf, TokenOf, GroupOf, PayloadCells;
    var t, h, g := r / Groups(geo) / geo.nkv, r / Groups(geo) % geo.nkv, r % Groups(geo);
    NumberParts(geo, area, h, t, g);
    PayloadIs(geo, o, p);
  }

  /** A block restored beside int8 rows is close to what was packed and fits the scales again. */
  lemma BackNear(geo: Geo, w: World, o: Content, s: Scales)
    requires GeoOk(geo) && w.ints && Fits(geo, o, s)
    ensures Near(geo, Back(geo, w, o, s), o, s) && Fits(geo, Back(geo, w, o, s), s)
  {
    hide Back, RowAgain, RowNear, RowFits64, Owner, RowMax;
    var c := Back(geo, w, o, s);
    forall r: nat | r < RowCount(geo)
      ensures RowNear(c.k[r], o.k[r], s.k[Owner(geo, r)]) && RowFits64(c.k[r], s.k[Owner(geo, r)])
      ensures RowNear(c.v[r], o.v[r], s.v[Owner(geo, r)]) && RowFits64(c.v[r], s.v[Owner(geo, r)])
    {
      BackRow(geo, w, o, s, r);
      var a, b := s.k[Owner(geo, r)], s.v[Owner(geo, r)];
      RowAgainNear(o.k[r], a, Reader(w, a));
      RowAgainNear(o.v[r], b, Reader(w, b));
    }
  }

  /** Without int8 rows a restored block packs to the very payload it came from. */
  lemma BackPacks(geo: Geo, w: World, o: Content, s: Scales)
    requires GeoOk(geo) && ContentOk(geo, o) && Sized(geo, s) && w.floats && !w.ints
    ensures Packed(geo, Back(geo, w, o, s)) == Packed(geo, o)
  {
    hide Packed, Unpacked;
    RepackUnpacked(geo, o);
  }
}
