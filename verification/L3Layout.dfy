/**
 The byte layout of one evicted block: a K area and a V area, each [head][token][group] of
 40-byte payloads, packed from rows that RAM keeps as [token][head][group].
 */
module L3Layout {
  import opened Residues
  import opened L3Quant

  /** 64 consecutive values of one row. */
  type Group = seq<real>

  /** The K and the V rows of one block. */
  datatype Content = Content(k: seq<Group>, v: seq<Group>)

  datatype Maybe<T> = None | Some(value: T)

  /** One layer's cached blocks; a block that was moved out of RAM is None. */
  type Layer = seq<Maybe<Content>>

  datatype Geo = Geo(nl: nat, nkv: nat, hd: nat, bs: nat, maxBlocks: nat)

  predicate GeoOk(geo: Geo) {
    geo.nl >= 1 && geo.nkv >= 1 && geo.hd >= 64 && geo.hd % 64 == 0 && geo.bs >= 1 && geo.maxBlocks >= 1
  }

  function Groups(geo: Geo): (n: nat)
    ensures GeoOk(geo) ==> n >= 1
  {
    geo.hd / 64
  }

  function PerHead(geo: Geo): (r: nat) { Nat(geo.bs, Groups(geo)) }

  function KArea(geo: Geo): (r: nat) { Nat(geo.nkv, PerHead(geo)) * PAYLOAD }

  function BlockBytes(geo: Geo): (r: nat) { 2 * KArea(geo) }

  function Nat(x: nat, y: nat): (r: nat) {
    NatMul(x, y);
    x * y
  }

  lemma NatMul(x: nat, y: nat)
    ensures x * y >= 0
  {}

  // ----- mixed-radix indices -----

  /** Digit b in radix m after a. */
  function Ix(a: nat, m: nat, b: nat): (r: nat) {
    Nat(a, m) + b
  }

  lemma IxSplit(a: nat, m: nat, b: nat)
    requires b < m
    ensures Ix(a, m, b) / m == a && Ix(a, m, b) % m == b
  {
    DivUnique(Ix(a, m, b), m, a, b);
  }

  lemma IxBound(a: nat, limit: nat, m: nat, b: nat)
    requires a < limit && b < m
    ensures Ix(a, m, b) < Nat(limit, m)
  {
    assert (a + 1) * m <= limit * m;
  }

  lemma IxJoin(x: nat, limit: nat, m: nat)
    requires m > 0 && x < Nat(limit, m)
    ensures x / m < limit && x % m < m && x == Ix(x / m, m, x % m)
  {
    var q := x / m;
    assert q >= limit ==> q * m >= limit * m;
  }

  lemma IxNext(a: nat, m: nat)
    ensures Ix(a, m, 0) == Nat(a, m) && Ix(a, m, m) == Ix(a + 1, m, 0)
  {}

  /** The number of a payload within its block. */
  function Number(geo: Geo, area: nat, h: nat, t: nat, g: nat): (p: nat) {
    Ix(Ix(Ix(area, geo.nkv, h), geo.bs, t), Groups(geo), g)
  }

  /** How many payloads a block holds. */
  function Count(geo: Geo): (r: nat) {
    Nat(Nat(Nat(2, geo.nkv), geo.bs), Groups(geo))
  }

  /** The address the program computes for a payload. */
  function Offset(geo: Geo, area: nat, h: nat, t: nat, g: nat): (off: nat) {
    (if area == 0 then 0 else KArea(geo)) + Nat(h, PerHead(geo)) * PAYLOAD + (Nat(t, Groups(geo)) + g) * PAYLOAD
  }

  lemma OffsetIs(geo: Geo, area: nat, h: nat, t: nat, g: nat)
    requires area < 2
    ensures Offset(geo, area, h, t, g) == PAYLOAD * Number(geo, area, h, t, g)
  {
    var n := Groups(geo);
    HeadOffset(if area == 1 then geo.nkv + h else h, geo.bs, t, n, g);
    if area == 1 { SumTimes(geo.nkv, h, geo.bs * n); }
    assert Nat(area, geo.nkv) == if area == 1 then geo.nkv else 0;
  }

  lemma HeadOffset(h: int, bs: int, t: int, n: int, g: int)
    ensures (h * bs + t) * n + g == h * (bs * n) + (t * n + g)
  {
    SumTimes(h * bs, t, n);
    assert (h * bs) * n == h * (bs * n);
  }

  lemma SumTimes(x: int, y: int, z: int)
    ensures (x + y) * z == x * z + y * z
  {}

  lemma CountIs(geo: Geo)
    ensures BlockBytes(geo) == PAYLOAD * Count(geo)
  {
    assert 2 * geo.nkv * geo.bs * Groups(geo) == 2 * (geo.nkv * (geo.bs * Groups(geo)));
  }

  ghost predicate InBlock(geo: Geo, area: nat, h: nat, t: nat, g: nat) {
    area < 2 && h < geo.nkv && t < geo.bs && g < Groups(geo)
  }

  /** Where payload p belongs. */
  function GroupOf(geo: Geo, p: nat): (g: nat) requires GeoOk(geo) { p % Groups(geo) }
  function TokenOf(geo: Geo, p: nat): (t: nat) requires GeoOk(geo) { p / Groups(geo) % geo.bs }
  function HeadOf(geo: Geo, p: nat): (h: nat) requires GeoOk(geo) { p / Groups(geo) / geo.bs % geo.nkv }
  function AreaOf(geo: Geo, p: nat): (a: nat) requires GeoOk(geo) { p / Groups(geo) / geo.bs / geo.nkv }

  lemma NumberParts(geo: Geo, area: nat, h: nat, t: nat, g: nat)
    requires GeoOk(geo) && InBlock(geo, area, h, t, g)
    ensures var p := Number(geo, area, h, t, g);
            p < Count(geo) && AreaOf(geo, p) == area && HeadOf(geo, p) == h && TokenOf(geo, p) == t && GroupOf(geo, p) == g
  {
    hide Ix, Nat;
    var ah := Ix(area, geo.nkv, h);
    var aht := Ix(ah, geo.bs, t);
    IxSplit(area, geo.nkv, h);
    IxSplit(ah, geo.bs, t);
    IxSplit(aht, Groups(geo), g);
    IxBound(area, 2, geo.nkv, h);
    IxBound(ah, Nat(2, geo.nkv), geo.bs, t);
    IxBound(aht, Nat(Nat(2, geo.nkv), geo.bs), Groups(geo), g);
  }

  lemma PartsNumber(geo: Geo, p: nat)
    requires GeoOk(geo) && p < Count(geo)
    ensures InBlock(geo, AreaOf(geo, p), HeadOf(geo, p), TokenOf(geo, p), GroupOf(geo, p))
    ensures Number(geo, AreaOf(geo, p), HeadOf(geo, p), TokenOf(geo, p), GroupOf(geo, p)) == p
  {
    hide Ix, Nat;
    var n := Groups(geo);
    IxJoin(p, Nat(Nat(2, geo.nkv), geo.bs), n);
    IxJoin(p / n, Nat(2, geo.nkv), geo.bs);
    IxJoin(p / n / geo.bs, 2, geo.nkv);
  }

  /** Payload addresses tile the block: every byte lies in exactly one payload. */
  lemma Tiling(geo: Geo, x: nat)
    requires GeoOk(geo) && x < BlockBytes(geo)
    ensures var p := x / PAYLOAD;
            && InBlock(geo, AreaOf(geo, p), HeadOf(geo, p), TokenOf(geo, p), GroupOf(geo, p))
            && x == Offset(geo, AreaOf(geo, p), HeadOf(geo, p), TokenOf(geo, p), GroupOf(geo, p)) + x % PAYLOAD
    ensures forall area: nat, h: nat, t: nat, g: nat
              | InBlock(geo, area, h, t, g) && Offset(geo, area, h, t, g) <= x < Offset(geo, area, h, t, g) + PAYLOAD ::
              area == AreaOf(geo, x / PAYLOAD) && h == HeadOf(geo, x / PAYLOAD)
              && t == TokenOf(geo, x / PAYLOAD) && g == GroupOf(geo, x / PAYLOAD)
  {
    hide Number, Offset, Count, AreaOf, HeadOf, TokenOf, GroupOf, BlockBytes;
    CountIs(geo);
    var p := x / PAYLOAD;
    PartsNumber(geo, p);
    OffsetIs(geo, AreaOf(geo, p), HeadOf(geo, p), TokenOf(geo, p), GroupOf(geo, p));
    forall area: nat, h: nat, t: nat, g: nat
      | InBlock(geo, area, h, t, g) && Offset(geo, area, h, t, g) <= x < Offset(geo, area, h, t, g) + PAYLOAD
      ensures area == AreaOf(geo, p) && h == HeadOf(geo, p) && t == TokenOf(geo, p) && g == GroupOf(geo, p)
    {
      OffsetIs(geo, area, h, t, g);
      NumberParts(geo, area, h, t, g);
      assert Number(geo, area, h, t, g) == p;
    }
  }

  // ----- contents -----

  ghost predicate AreaOk(geo: Geo, rows: seq<Group>) {
    |rows| == RowCount(geo) && forall r | 0 <= r < |rows| :: |rows[r]| == 64
  }

  ghost predicate ContentOk(geo: Geo, c: Content) {
    AreaOk(geo, c.k) && AreaOk(geo, c.v)
  }

  function RowCount(geo: Geo): (r: nat) {
    Nat(Nat(geo.bs, geo.nkv), Groups(geo))
  }

  /** The group of a row: token-major in RAM. */
  function RowIndex(geo: Geo, h: nat, t: nat, g: nat): (r: nat) {
    Ix(Ix(t, geo.nkv, h), Groups(geo), g)
  }

  lemma RowIndexIn(geo: Geo, h: nat, t: nat, g: nat)
    requires GeoOk(geo) && h < geo.nkv && t < geo.bs && g < Groups(geo)
    ensures var r := RowIndex(geo, h, t, g);
            r < RowCount(geo) && r / Groups(geo) / geo.nkv == t && r / Groups(geo) % geo.nkv == h && r % Groups(geo) == g
  {
    hide Ix, Nat;
    var th := Ix(t, geo.nkv, h);
    IxSplit(t, geo.nkv, h);
    IxSplit(th, Groups(geo), g);
    IxBound(t, geo.bs, geo.nkv, h);
    IxBound(th, Nat(geo.bs, geo.nkv), Groups(geo), g);
  }

  lemma RowParts(geo: Geo, r: nat)
    requires GeoOk(geo) && r < RowCount(geo)
    ensures var t, h, g := r / Groups(geo) / geo.nkv, r / Groups(geo) % geo.nkv, r % Groups(geo);
            t < geo.bs && h < geo.nkv && g < Groups(geo) && RowIndex(geo, h, t, g) == r
  {
    RowPartsAt(r, geo.bs, geo.nkv, Groups(geo), r / Groups(geo));
  }

  lemma RowPartsAt(r: nat, bs: nat, nkv: nat, n: nat, x: nat)
    requires n > 0 && nkv > 0 && r < Nat(Nat(bs, nkv), n) && x == r / n
    ensures x / nkv < bs && x % nkv < nkv && r % n < n && Ix(Ix(x / nkv, nkv, x % nkv), n, r % n) == r
  {
    hide Ix, Nat;
    IxJoin(r, Nat(bs, nkv), n);
    IxJoin(x, bs, nkv);
  }

  /** The values payload p holds. */
  function Source(geo: Geo, c: Content, p: nat): (v: Group)
    requires GeoOk(geo) && ContentOk(geo, c) && p < Count(geo)
    ensures |v| == 64
  {
    PartsNumber(geo, p);
    RowIndexIn(geo, HeadOf(geo, p), TokenOf(geo, p), GroupOf(geo, p));
    var r := RowIndex(geo, HeadOf(geo, p), TokenOf(geo, p), GroupOf(geo, p));
    if AreaOf(geo, p) == 0 then c.k[r] else c.v[r]
  }

  /** The first m payloads, one after the other. */
  function Prefix(geo: Geo, c: Content, m: nat): (r: seq<Cell>)
    requires GeoOk(geo) && ContentOk(geo, c) && m <= Count(geo)
    ensures |r| == PAYLOAD * m
  {
    if m == 0 then [] else Prefix(geo, c, m - 1) + Pack64(Source(geo, c, m - 1))
  }

  function Packed(geo: Geo, c: Content): (r: seq<Cell>)
    requires GeoOk(geo) && ContentOk(geo, c)
    ensures |r| == BlockBytes(geo)
  {
    CountIs(geo);
    Prefix(geo, c, Count(geo))
  }

  lemma {:induction false} PrefixAt(geo: Geo, c: Content, m: nat, p: nat)
    requires GeoOk(geo) && ContentOk(geo, c) && p < m <= Count(geo)
    ensures Prefix(geo, c, m)[PAYLOAD * p..PAYLOAD * p + PAYLOAD] == Pack64(Source(geo, c, p))
  {
    hide Source, Pack64, Count, ContentOk, GeoOk;
    var before := Prefix(geo, c, m - 1);
    if p < m - 1 {
      PrefixAt(geo, c, m - 1, p);
      assert Prefix(geo, c, m)[PAYLOAD * p..PAYLOAD * p + PAYLOAD] == before[PAYLOAD * p..PAYLOAD * p + PAYLOAD];
    }
  }

  /** At its address, every payload of a packed block is its 64 values, packed. */
  lemma PackedAt(geo: Geo, c: Content, area: nat, h: nat, t: nat, g: nat)
    requires GeoOk(geo) && ContentOk(geo, c) && InBlock(geo, area, h, t, g)
    ensures var off := Offset(geo, area, h, t, g);
            && off + PAYLOAD <= BlockBytes(geo) && RowIndex(geo, h, t, g) < RowCount(geo)
            && Packed(geo, c)[off..off + PAYLOAD]
               == Pack64(if area == 0 then c.k[RowIndex(geo, h, t, g)] else c.v[RowIndex(geo, h, t, g)])
  {
    hide Number, Offset, Count, AreaOf, HeadOf, TokenOf, GroupOf, BlockBytes, Prefix, RowIndex, RowCount, Pack64;
    OffsetIs(geo, area, h, t, g);
    NumberParts(geo, area, h, t, g);
    RowIndexIn(geo, h, t, g);
    CountIs(geo);
    PrefixAt(geo, c, Count(geo), Number(geo, area, h, t, g));
  }

  // ----- unpacking -----

  /** The payload that holds row group r of an area. */
  function PayloadOfRow(geo: Geo, area: nat, r: nat): (p: nat)
    requires GeoOk(geo) && area < 2 && r < RowCount(geo)
    ensures p < Count(geo)
  {
    RowParts(geo, r);
    var t, h, g := r / Groups(geo) / geo.nkv, r / Groups(geo) % geo.nkv, r % Groups(geo);
    NumberParts(geo, area, h, t, g);
    Number(geo, area, h, t, g)
  }

  function PayloadCells(geo: Geo, cells: seq<Cell>, p: nat): (r: seq<Cell>)
    requires |cells| == BlockBytes(geo) && p < Count(geo)
    ensures |r| == PAYLOAD
  {
    CountIs(geo);
    cells[PAYLOAD * p..PAYLOAD * p + PAYLOAD]
  }

  function UnpackedArea(geo: Geo, cells: seq<Cell>, area: nat): (rows: seq<Group>)
    requires GeoOk(geo) && |cells| == BlockBytes(geo) && area < 2
    ensures AreaOk(geo, rows)
  {
    seq(RowCount(geo), r requires 0 <= r < RowCount(geo) => Dequant64(PayloadCells(geo, cells, PayloadOfRow(geo, area, r))))
  }

  /** A block restored from its payload. */
  function Unpacked(geo: Geo, cells: seq<Cell>): (c: Content)
    requires GeoOk(geo) && |cells| == BlockBytes(geo)
    ensures ContentOk(geo, c)
  {
    Content(UnpackedArea(geo, cells, 0), UnpackedArea(geo, cells, 1))
  }

  lemma UnpackedSource(geo: Geo, cells: seq<Cell>, p: nat)
    requires GeoOk(geo) && |cells| == BlockBytes(geo) && p < Count(geo)
    ensures Source(geo, Unpacked(geo, cells), p) == Dequant64(PayloadCells(geo, cells, p))
  {
    hide Number, Count, AreaOf, HeadOf, TokenOf, GroupOf, BlockBytes, RowIndex, RowCount, Dequant64, PayloadCells;
    PartsNumber(geo, p);
    var area, h, t, g := AreaOf(geo, p), HeadOf(geo, p), TokenOf(geo, p), GroupOf(geo, p);
    RowIndexIn(geo, h, t, g);
    assert PayloadOfRow(geo, area, RowIndex(geo, h, t, g)) == p;
  }

  /** Restoring a block and packing it again reproduces the payload. */
  lemma RepackUnpacked(geo: Geo, c: Content)
    requires GeoOk(geo) && ContentOk(geo, c)
    ensures Packed(geo, Unpacked(geo, Packed(geo, c))) == Packed(geo, c)
  {
    hide Count, BlockBytes, Prefix, Unpacked;
    CountIs(geo);
    RepackPrefix(geo, c, Count(geo));
  }

  lemma {:induction false} RepackPrefix(geo: Geo, c: Content, m: nat)
    requires GeoOk(geo) && ContentOk(geo, c) && m <= Count(geo)
    ensures Prefix(geo, Unpacked(geo, Packed(geo, c)), m) == Prefix(geo, c, m)
  {
    hide Count, BlockBytes, Unpacked, Source, Pack64, Dequant64, ContentOk, GeoOk;
    if m > 0 {
      RepackPrefix(geo, c, m - 1);
      var cells := Packed(geo, c);
      UnpackedSource(geo, cells, m - 1);
      PayloadIs(geo, c, m - 1);
      PackStable(Source(geo, c, m - 1));
    }
  }

  lemma PayloadIs(geo: Geo, c: Content, p: nat)
    requires GeoOk(geo) && ContentOk(geo, c) && p < Count(geo)
    ensures PayloadCells(geo, Packed(geo, c), p) == Pack64(Source(geo, c, p))
  {
    hide Count, BlockBytes, Source, Pack64, Prefix;
    CountIs(geo);
    PrefixAt(geo, c, Count(geo), p);
  }

  // ----- what readers see -----

  /** All payloads of one head and token in a block's bytes. */
  function RowCells(geo: Geo, cells: seq<Cell>, area: nat, h: nat, t: nat): (r: seq<Cell>)
    requires GeoOk(geo) && |cells| == BlockBytes(geo) && area < 2 && h < geo.nkv && t < geo.bs
    ensures |r| == Groups(geo) * PAYLOAD
  {
    RowFits(geo, area, h, t);
    cells[Offset(geo, area, h, t, 0)..Offset(geo, area, h, t, 0) + Groups(geo) * PAYLOAD]
  }

  /** All payloads of one head in a block's bytes. */
  function HeadCells(geo: Geo, cells: seq<Cell>, area: nat, h: nat): (r: seq<Cell>)
    requires GeoOk(geo) && |cells| == BlockBytes(geo) && area < 2 && h < geo.nkv
    ensures |r| == PerHead(geo) * PAYLOAD
  {
    HeadFits(geo, area, h);
    cells[Offset(geo, area, h, 0, 0)..Offset(geo, area, h, 0, 0) + PerHead(geo) * PAYLOAD]
  }

  lemma RowFits(geo: Geo, area: nat, h: nat, t: nat)
    requires GeoOk(geo) && area < 2 && h < geo.nkv && t < geo.bs
    ensures Offset(geo, area, h, t, 0) + Groups(geo) * PAYLOAD <= BlockBytes(geo)
  {
    var g := Groups(geo) - 1;
    hide Number, Offset, Count, BlockBytes, Groups;
    OffsetIs(geo, area, h, t, g);
    NumberParts(geo, area, h, t, g);
    CountIs(geo);
    OffsetStep(geo, area, h, t, g);
  }

  lemma OffsetStep(geo: Geo, area: nat, h: nat, t: nat, g: nat)
    ensures Offset(geo, area, h, t, g) == Offset(geo, area, h, t, 0) + g * PAYLOAD
  {}

  lemma HeadFits(geo: Geo, area: nat, h: nat)
    requires GeoOk(geo) && area < 2 && h < geo.nkv
    ensures Offset(geo, area, h, 0, 0) + PerHead(geo) * PAYLOAD <= BlockBytes(geo)
  {
    LastToken(geo, area, h);
    RowFits(geo, area, h, geo.bs - 1);
  }

  lemma LastToken(geo: Geo, area: nat, h: nat)
    requires geo.bs >= 1
    ensures Offset(geo, area, h, geo.bs - 1, 0) + Groups(geo) * PAYLOAD == Offset(geo, area, h, 0, 0) + PerHead(geo) * PAYLOAD
  {
    assert (geo.bs - 1) * Groups(geo) + Groups(geo) == geo.bs * Groups(geo);
  }

  /** In a packed block, group g of a row is that row's group, packed. */
  lemma RowCellsAt(geo: Geo, c: Content, area: nat, h: nat, t: nat, g: nat)
    requires GeoOk(geo) && ContentOk(geo, c) && InBlock(geo, area, h, t, g)
    ensures RowIndex(geo, h, t, g) < RowCount(geo) && g * PAYLOAD + PAYLOAD <= Groups(geo) * PAYLOAD
    ensures RowCells(geo, Packed(geo, c), area, h, t)[g * PAYLOAD..g * PAYLOAD + PAYLOAD]
         == Pack64(if area == 0 then c.k[RowIndex(geo, h, t, g)] else c.v[RowIndex(geo, h, t, g)])
  {
    hide Number, Count, BlockBytes, Offset, Packed, Pack64, RowIndex, RowCount, Groups;
    PackedAt(geo, c, area, h, t, g);
    OffsetStep(geo, area, h, t, g);
    RowFits(geo, area, h, t);
    RowIndexIn(geo, h, t, g);
    SliceOfSlice(Packed(geo, c), Offset(geo, area, h, t, 0), Groups(geo) * PAYLOAD, g * PAYLOAD, PAYLOAD);
  }

  /** A head's chunk is its rows, token after token. */
  lemma HeadCellsAt(geo: Geo, cells: seq<Cell>, area: nat, h: nat, t: nat, g: nat)
    requires GeoOk(geo) && |cells| == BlockBytes(geo) && InBlock(geo, area, h, t, g)
    ensures var at := (Nat(t, Groups(geo)) + g) * PAYLOAD;
            && Number(geo, area, h, t, g) < Count(geo) && at + PAYLOAD <= PerHead(geo) * PAYLOAD
            && HeadCells(geo, cells, area, h)[at..at + PAYLOAD] == PayloadCells(geo, cells, Number(geo, area, h, t, g))
  {
    hide Number, Count, BlockBytes, Groups;
    OffsetIs(geo, area, h, t, g);
    NumberParts(geo, area, h, t, g);
    IxBound(t, geo.bs, Groups(geo), g);
    HeadFits(geo, area, h);
    SliceOfSlice(cells, Offset(geo, area, h, 0, 0), PerHead(geo) * PAYLOAD, (Nat(t, Groups(geo)) + g) * PAYLOAD, PAYLOAD);
  }

  lemma SliceOfSlice<X>(s: seq<X>, x: nat, len: nat, o: nat, m: nat)
    requires x + len <= |s| && o + m <= len
    ensures s[x..x + len][o..o + m] == s[x + o..x + o + m]
  {
    var outer := s[x..x + len];
    var inner, direct := outer[o..o + m], s[x + o..x + o + m];
    assert |inner| == |direct|;
    forall i | 0 <= i < m ensures inner[i] == direct[i] {
      assert outer[o + i] == s[x + o + i];
    }
  }
}
