/** The loops that pack a block into its byte buffer and unpack a head's chunk into rows. */
module L3Copy {
  import opened Residues
  import opened L3Quant
  import opened L3Layout
  import opened L3Int8

  /** The first p payloads of the buffer are packed. */
  ghost predicate Done(cells: seq<Cell>, geo: Geo, c: Content, p: nat)
    requires GeoOk(geo) && ContentOk(geo, c)
  {
    p <= Count(geo) && |cells| == BlockBytes(geo) && PAYLOAD * p <= |cells| && cells[..PAYLOAD * p] == Prefix(geo, c, p)
  }

  /** One row group as a packing reads it: a float row, or the int8 row times its step. */
  method SourceRow(geo: Geo, held: Held, s: Scales, area: nat, r: nat) returns (row: Group)
    requires GeoOk(geo) && HeldOk(geo, held) && Sized(geo, s) && area < 2 && r < RowCount(geo)
    ensures row == if area == 0 then Means(geo, held, s).k[r] else Means(geo, held, s).v[r]
  {
    hide RowCount, Owner, Ratio, Value;
    if held.OnlyInts? {
      var src := if area == 0 then held.q.k[r] else held.q.v[r];
      var srow := Ratio(if area == 0 then s.k[Owner(geo, r)] else s.v[Owner(geo, r)], 127.0);
      row := [];
      for i := 0 to 64
        invariant |row| == i && forall k | 0 <= k < i :: row[k] == Value(src[k], srow)
      {
        row := row + [Value(src[i], srow)];
      }
    } else {
      row := if area == 0 then held.f.k[r] else held.f.v[r];
    }
  }

  /** Area by area, head by head, token by token, each group packed at its address. */
  method PackBlock(geo: Geo, held: Held, s: Scales) returns (blk: seq<Cell>)
    requires GeoOk(geo) && HeldOk(geo, held) && Sized(geo, s)
    ensures blk == Packed(geo, Means(geo, held, s))
  {
    ghost var c := Means(geo, held, s);
    hide *;
    GeoFacts(geo, c);
    var buf := BlankCells(BlockBytes(geo));
    DoneStart(buf[..], geo, c);
    for area := 0 to 2
      invariant Done(buf[..], geo, c, Number(geo, area, 0, 0, 0))
    {
      for h := 0 to geo.nkv
        invariant Done(buf[..], geo, c, Number(geo, area, h, 0, 0))
      {
        PackHead(buf, geo, held, s, area, h);
        NextHead(geo, area, h);
      }
      NextArea(geo, area);
    }
    blk := buf[..];
    DoneAll(blk, geo, c);
  }

  method BlankCells(n: nat) returns (buf: array<Cell>)
    ensures fresh(buf) && buf.Length == n
  {
    buf := new Cell[n](_ => Byte(0));
  }

  method PackHead(buf: array<Cell>, geo: Geo, held: Held, s: Scales, area: nat, h: nat)
    requires GeoOk(geo) && HeldOk(geo, held) && Sized(geo, s) && area < 2 && h < geo.nkv
    requires Done(buf[..], geo, Means(geo, held, s), Number(geo, area, h, 0, 0))
    modifies buf
    ensures Done(buf[..], geo, Means(geo, held, s), Number(geo, area, h, geo.bs, 0))
  {
    ghost var c := Means(geo, held, s);
    hide *;
    for t := 0 to geo.bs
      invariant Done(buf[..], geo, c, Number(geo, area, h, t, 0))
    {
      for g := 0 to Groups(geo)
        invariant Done(buf[..], geo, c, Number(geo, area, h, t, g))
      {
        InBlockParts(geo, area, h, t, g);
        PackGroup(buf, geo, held, s, area, h, t, g);
        NextGroup(geo, area, h, t, g);
      }
      NextToken(geo, area, h, t);
    }
  }

  method PackGroup(buf: array<Cell>, geo: Geo, held: Held, s: Scales, area: nat, h: nat, t: nat, g: nat)
    requires GeoOk(geo) && HeldOk(geo, held) && Sized(geo, s) && InBlock(geo, area, h, t, g)
    requires Done(buf[..], geo, Means(geo, held, s), Number(geo, area, h, t, g))
    modifies buf
    ensures Done(buf[..], geo, Means(geo, held, s), Number(geo, area, h, t, g) + 1)
  {
    hide *;
    ghost var c := Means(geo, held, s);
    InBlockParts(geo, area, h, t, g);
    SourceAt(geo, c, area, h, t, g);
    var row := SourceRow(geo, held, s, area, RowIndex(geo, h, t, g));
    var payload := Q4Pack64(row);
    ghost var before := buf[..];
    DoneFits(before, geo, c, Number(geo, area, h, t, g));
    WriteCells(buf, Offset(geo, area, h, t, g), payload);
    DoneStep(before, buf[..], payload, geo, c, Number(geo, area, h, t, g));
  }

  lemma InBlockParts(geo: Geo, area: nat, h: nat, t: nat, g: nat)
    ensures InBlock(geo, area, h, t, g) <==> area < 2 && h < geo.nkv && t < geo.bs && g < Groups(geo)
  {}

  method WriteCells(buf: array<Cell>, off: nat, cells: seq<Cell>)
    requires off + |cells| <= buf.Length
    modifies buf
    ensures buf[..] == old(buf[..off]) + cells + old(buf[off + |cells|..])
  {
    for i := 0 to |cells|
      invariant buf[..] == old(buf[..off]) + cells[..i] + old(buf[off + i..])
    {
      buf[off + i] := cells[i];
      assert buf[..] == old(buf[..off]) + cells[..i + 1] + old(buf[off + i + 1..]);
    }
  }

  lemma GeoFacts(geo: Geo, c: Content)
    requires GeoOk(geo) && ContentOk(geo, c)
    ensures geo.nkv >= 1 && geo.bs >= 1 && PAYLOAD == 40
  {}

  lemma DoneStart(cells: seq<Cell>, geo: Geo, c: Content)
    requires GeoOk(geo) && ContentOk(geo, c) && |cells| == BlockBytes(geo)
    ensures Number(geo, 0, 0, 0, 0) == 0 && Done(cells, geo, c, Number(geo, 0, 0, 0, 0))
  {}

  lemma SourceAt(geo: Geo, c: Content, area: nat, h: nat, t: nat, g: nat)
    requires GeoOk(geo) && ContentOk(geo, c) && area < 2 && h < geo.nkv && t < geo.bs && g < Groups(geo)
    ensures var p := Number(geo, area, h, t, g);
            && p < Count(geo) && RowIndex(geo, h, t, g) < |c.k| == |c.v| == RowCount(geo)
            && Offset(geo, area, h, t, g) == PAYLOAD * p && PAYLOAD * p + PAYLOAD <= BlockBytes(geo)
            && Source(geo, c, p) == (if area == 0 then c.k[RowIndex(geo, h, t, g)] else c.v[RowIndex(geo, h, t, g)])
            && |Source(geo, c, p)| == 64
  {
    hide Number, Offset, Count, AreaOf, HeadOf, TokenOf, GroupOf, BlockBytes, RowIndex, RowCount;
    OffsetIs(geo, area, h, t, g);
    NumberParts(geo, area, h, t, g);
    RowIndexIn(geo, h, t, g);
    CountIs(geo);
  }

  lemma DoneFits(cells: seq<Cell>, geo: Geo, c: Content, p: nat)
    requires GeoOk(geo) && ContentOk(geo, c) && Done(cells, geo, c, p)
    ensures |cells| == BlockBytes(geo)
  {}

  lemma DoneStep(before: seq<Cell>, cells: seq<Cell>, payload: seq<Cell>, geo: Geo, c: Content, p: nat)
    requires GeoOk(geo) && ContentOk(geo, c) && p < Count(geo) && Done(before, geo, c, p)
    requires payload == Pack64(Source(geo, c, p)) && PAYLOAD * p + PAYLOAD <= |before|
    requires cells == before[..PAYLOAD * p] + payload + before[PAYLOAD * p + PAYLOAD..]
    ensures Done(cells, geo, c, p + 1)
  {
    hide Count, BlockBytes, Source, Pack64;
    assert cells[..PAYLOAD * (p + 1)] == before[..PAYLOAD * p] + payload;
  }

  lemma NextGroup(geo: Geo, area: nat, h: nat, t: nat, g: nat)
    ensures Number(geo, area, h, t, g + 1) == Number(geo, area, h, t, g) + 1
  {}

  lemma NextToken(geo: Geo, area: nat, h: nat, t: nat)
    ensures Number(geo, area, h, t, Groups(geo)) == Number(geo, area, h, t + 1, 0)
  {
    IxNext(Ix(Ix(area, geo.nkv, h), geo.bs, t), Groups(geo));
  }

  lemma NextHead(geo: Geo, area: nat, h: nat)
    ensures Number(geo, area, h, geo.bs, 0) == Number(geo, area, h + 1, 0, 0)
  {
    IxNext(Ix(area, geo.nkv, h), geo.bs);
  }

  lemma NextArea(geo: Geo, area: nat)
    ensures Number(geo, area, geo.nkv, 0, 0) == Number(geo, area + 1, 0, 0, 0)
  {
    IxNext(area, geo.nkv);
  }

  lemma DoneAll(cells: seq<Cell>, geo: Geo, c: Content)
    requires GeoOk(geo) && ContentOk(geo, c) && Done(cells, geo, c, Number(geo, 2, 0, 0, 0))
    ensures cells == Packed(geo, c)
  {
    hide Prefix, BlockBytes;
    CountIs(geo);
    assert Number(geo, 2, 0, 0, 0) == Count(geo);
  }

  // ----- unpacking -----

  /** Every row group whose payload is among the first p has been dequantised. */
  ghost predicate Filled(rows: seq<Group>, geo: Geo, cells: seq<Cell>, area: nat, p: nat)
    requires GeoOk(geo) && |cells| == BlockBytes(geo) && area < 2
  {
    && AreaOk(geo, rows)
    && forall r: nat | r < RowCount(geo) && PayloadOfRow(geo, area, r) < p ::
         rows[r] == Dequant64(PayloadCells(geo, cells, PayloadOfRow(geo, area, r)))
  }

  /** The rows of a newly mapped block. */
  method BlankRows(geo: Geo) returns (rows: seq<Group>, ints: seq<Ints>)
    ensures AreaOk(geo, rows) && IntsOk(geo, ints)
    ensures forall r | 0 <= r < RowCount(geo) :: rows[r] == seq(64, _ => 0.0) && ints[r] == seq(64, _ => 0)
  {
    rows, ints := seq(RowCount(geo), _ => seq(64, _ => 0.0)), seq(RowCount(geo), _ => seq(64, _ => 0));
  }

  /** Float and int8 rows are what dequantised rows land as; without scales only the float rows count. */
  ghost predicate Landed(geo: Geo, raw: seq<Group>, rows: seq<Group>, ints: seq<Ints>, sc: Maybe<seq<real>>)
    requires GeoOk(geo) && (sc.Some? ==> |sc.value| == ScaleCount(geo))
  {
    && AreaOk(geo, raw) && AreaOk(geo, rows) && IntsOk(geo, ints)
    && if sc.None? then rows == raw else ints == ToInts(geo, raw, sc.value) && rows == FromInts(geo, ints, sc.value)
  }

  lemma BlankLanded(geo: Geo, rows: seq<Group>, ints: seq<Ints>, sc: Maybe<seq<real>>)
    requires GeoOk(geo) && (sc.Some? ==> |sc.value| == ScaleCount(geo)) && AreaOk(geo, rows) && IntsOk(geo, ints)
    requires forall r | 0 <= r < RowCount(geo) :: rows[r] == seq(64, _ => 0.0) && ints[r] == seq(64, _ => 0)
    ensures Landed(geo, rows, rows, ints, sc)
  {
    if sc.Some? {
      forall r | 0 <= r < RowCount(geo)
        ensures ToInts(geo, rows, sc.value)[r] == ints[r] && FromInts(geo, ints, sc.value)[r] == rows[r]
      {
        var m := RowMax(sc.value[Owner(geo, r)]);
        hide Ratio, RowMax, Owner, RowCount;
        ZeroLands(rows[r], ints[r], Ratio(127.0, m), Ratio(m, 127.0));
      }
    }
  }

  lemma ZeroLands(row: Group, q: Ints, ik: real, sk: real)
    requires row == seq(64, _ => 0.0) && q == seq(64, _ => 0)
    ensures RowInts(row, ik) == q && RowBack(q, sk) == row
  {
    assert Times(0.0, ik) == 0.0 && (0.0 + 0.5).Floor == 0;
  }

  /** One dequantised row group lands. */
  method LandRow(geo: Geo, rows: seq<Group>, ints: seq<Ints>, i: nat, row: Group, sc: Maybe<seq<real>>, ghost raw: seq<Group>)
    returns (rows': seq<Group>, ints': seq<Ints>)
    requires GeoOk(geo) && (sc.Some? ==> |sc.value| == ScaleCount(geo)) && i < RowCount(geo) && |row| == 64
    requires Landed(geo, raw, rows, ints, sc)
    ensures i < |raw| && Landed(geo, raw[i := row], rows', ints', sc)
  {
    hide Ratio, RowMax, Owner, RowCount, RowInts, RowBack;
    if sc.None? {
      rows', ints' := rows[i := row], ints;
    } else {
      var maxk := RowMax(sc.value[Owner(geo, i)]);
      var q, f := Store64(row, Ratio(127.0, maxk), Ratio(maxk, 127.0));
      rows', ints' := rows[i := f], ints[i := q];
      assert ints' == ToInts(geo, raw[i := row], sc.value);
      assert rows' == FromInts(geo, ints', sc.value);
    }
  }

  lemma FillStart(rows: seq<Group>, geo: Geo, cells: seq<Cell>, area: nat)
    requires GeoOk(geo) && |cells| == BlockBytes(geo) && area < 2 && AreaOk(geo, rows)
    ensures Filled(rows, geo, cells, area, Number(geo, area, 0, 0, 0)) && geo.nkv > 0
  {
    hide Dequant64;
    forall r: nat | r < RowCount(geo) ensures PayloadOfRow(geo, area, r) >= Number(geo, area, 0, 0, 0) {
      RowParts(geo, r);
      NumberFrom(geo, area, r / Groups(geo) % geo.nkv, r / Groups(geo) / geo.nkv, r % Groups(geo));
    }
  }

  lemma NumberFrom(geo: Geo, area: nat, h: nat, t: nat, g: nat)
    ensures Number(geo, area, 0, 0, 0) <= Number(geo, area, h, t, g)
  {
    hide Ix;
    IxMono(area, area, geo.nkv, h);
    IxMono(Ix(area, geo.nkv, 0), Ix(area, geo.nkv, h), geo.bs, t);
    IxMono(Ix(Ix(area, geo.nkv, 0), geo.bs, 0), Ix(Ix(area, geo.nkv, h), geo.bs, t), Groups(geo), g);
  }

  lemma IxMono(a: nat, a': nat, m: nat, b: nat)
    requires a <= a'
    ensures Ix(a, m, 0) <= Ix(a', m, b)
  {
    LeProduct(m, a, a');
  }

  /** One head's rows, token by token and group by group. */
  method FillHead(geo: Geo, rows0: seq<Group>, ints0: seq<Ints>, chunk: seq<Cell>, area: nat, h: nat, sc: Maybe<seq<real>>,
                  ghost raw0: seq<Group>, ghost cells: seq<Cell>, ghost good: bool)
    returns (rows: seq<Group>, ints: seq<Ints>, ghost raw: seq<Group>)
    requires GeoOk(geo) && |cells| == BlockBytes(geo) && area < 2 && h < geo.nkv
    requires (sc.Some? ==> |sc.value| == ScaleCount(geo)) && Landed(geo, raw0, rows0, ints0, sc)
    requires |chunk| == PerHead(geo) * PAYLOAD
    requires good ==> chunk == HeadCells(geo, cells, area, h) && Filled(raw0, geo, cells, area, Number(geo, area, h, 0, 0))
    ensures Landed(geo, raw, rows, ints, sc)
    ensures good ==> Filled(raw, geo, cells, area, Number(geo, area, h, geo.bs, 0))
  {
    hide *;
    rows, ints, raw := rows0, ints0, raw0;
    for t := 0 to geo.bs
      invariant Landed(geo, raw, rows, ints, sc) && (good ==> Filled(raw, geo, cells, area, Number(geo, area, h, t, 0)))
    {
      for g := 0 to Groups(geo)
        invariant Landed(geo, raw, rows, ints, sc) && (good ==> Filled(raw, geo, cells, area, Number(geo, area, h, t, g)))
      {
        LandedArea(geo, raw, rows, ints, sc);
        ChunkFits(geo, raw, cells, area, h, t, g);
        var at := (Nat(t, Groups(geo)) + g) * PAYLOAD;
        var row := Dequant64(chunk[at..at + PAYLOAD]);
        if good { FillStep(raw, geo, cells, area, h, t, g); }
        rows, ints := LandRow(geo, rows, ints, RowIndex(geo, h, t, g), row, sc, raw);
        raw := raw[RowIndex(geo, h, t, g) := row];
        NextGroup(geo, area, h, t, g);
      }
      NextToken(geo, area, h, t);
    }
  }

  lemma ChunkFits(geo: Geo, rows: seq<Group>, cells: seq<Cell>, area: nat, h: nat, t: nat, g: nat)
    requires GeoOk(geo) && |cells| == BlockBytes(geo) && area < 2 && h < geo.nkv && t < geo.bs && g < Groups(geo)
    requires AreaOk(geo, rows)
    ensures var at := (Nat(t, Groups(geo)) + g) * PAYLOAD;
            && PAYLOAD == 40 && RowIndex(geo, h, t, g) < |rows| == RowCount(geo) && at >= 0 && at + PAYLOAD <= PerHead(geo) * PAYLOAD
            && Number(geo, area, h, t, g) < Count(geo)
            && HeadCells(geo, cells, area, h)[at..at + PAYLOAD] == PayloadCells(geo, cells, Number(geo, area, h, t, g))
  {
    hide Number, Count, BlockBytes, RowIndex, PayloadCells, HeadCells;
    HeadCellsAt(geo, cells, area, h, t, g);
    RowIndexIn(geo, h, t, g);
  }

  lemma LandedArea(geo: Geo, raw: seq<Group>, rows: seq<Group>, ints: seq<Ints>, sc: Maybe<seq<real>>)
    requires GeoOk(geo) && (sc.Some? ==> |sc.value| == ScaleCount(geo)) && Landed(geo, raw, rows, ints, sc)
    ensures AreaOk(geo, raw) && AreaOk(geo, rows) && IntsOk(geo, ints)
  {}

  lemma FillStep(rows: seq<Group>, geo: Geo, cells: seq<Cell>, area: nat, h: nat, t: nat, g: nat)
    requires GeoOk(geo) && |cells| == BlockBytes(geo) && area < 2 && h < geo.nkv && t < geo.bs && g < Groups(geo)
    requires Filled(rows, geo, cells, area, Number(geo, area, h, t, g)) && Number(geo, area, h, t, g) < Count(geo)
    requires RowIndex(geo, h, t, g) < |rows|
    ensures Filled(rows[RowIndex(geo, h, t, g) := Dequant64(PayloadCells(geo, cells, Number(geo, area, h, t, g)))],
                   geo, cells, area, Number(geo, area, h, t, g) + 1)
  {
    hide Number, Count, BlockBytes, RowIndex, PayloadCells, Dequant64, RowCount, PayloadOfRow;
    var i, p := RowIndex(geo, h, t, g), Number(geo, area, h, t, g);
    forall r: nat | r < RowCount(geo) ensures PayloadOfRow(geo, area, r) == p <==> r == i {
      RowOfPayload(geo, area, h, t, g, r);
    }
  }

  lemma RowOfPayload(geo: Geo, area: nat, h: nat, t: nat, g: nat, r: nat)
    requires GeoOk(geo) && area < 2 && h < geo.nkv && t < geo.bs && g < Groups(geo) && r < RowCount(geo)
    ensures PayloadOfRow(geo, area, r) == Number(geo, area, h, t, g) <==> r == RowIndex(geo, h, t, g)
  {
    RowIndexIn(geo, h, t, g);
    RowParts(geo, r);
    var t', h', g' := r / Groups(geo) / geo.nkv, r / Groups(geo) % geo.nkv, r % Groups(geo);
    assert PayloadOfRow(geo, area, r) == Number(geo, area, h', t', g');
    hide *;
    NumbersDiffer(geo, area, h, t, g, h', t', g');
  }

  lemma NumbersDiffer(geo: Geo, area: nat, h: nat, t: nat, g: nat, h': nat, t': nat, g': nat)
    requires GeoOk(geo) && area < 2 && h < geo.nkv && t < geo.bs && g < Groups(geo)
    requires h' < geo.nkv && t' < geo.bs && g' < Groups(geo)
    ensures Number(geo, area, h, t, g) == Number(geo, area, h', t', g') <==> h == h' && t == t' && g == g'
  {
    hide Number, Count, Groups;
    NumberParts(geo, area, h, t, g);
    NumberParts(geo, area, h', t', g');
  }

  lemma FillEnd(rows: seq<Group>, geo: Geo, cells: seq<Cell>, area: nat, good: bool)
    requires GeoOk(geo) && |cells| == BlockBytes(geo) && area < 2
    requires good ==> Filled(rows, geo, cells, area, Number(geo, area, geo.nkv, 0, 0))
    ensures good ==> rows == UnpackedArea(geo, cells, area)
  {
    hide BlockBytes, PayloadCells, Dequant64, RowCount;
    if good {
      forall r: nat | r < RowCount(geo) ensures PayloadOfRow(geo, area, r) < Number(geo, area, geo.nkv, 0, 0) {
        RowParts(geo, r);
        NumberTo(geo, area, r / Groups(geo) % geo.nkv, r / Groups(geo) / geo.nkv, r % Groups(geo));
      }
    }
  }

  lemma NumberTo(geo: Geo, area: nat, h: nat, t: nat, g: nat)
    requires h < geo.nkv && t < geo.bs && g < Groups(geo)
    ensures Number(geo, area, h, t, g) < Number(geo, area, geo.nkv, 0, 0)
  {
    var x := Nat(area, geo.nkv);
    hide Nat;
    IxBound(x + h, x + geo.nkv, geo.bs, t);
    IxBound(Ix(x + h, geo.bs, t), Nat(x + geo.nkv, geo.bs), Groups(geo), g);
  }

  /** What a restored area must be. */
  ghost predicate AreaRestored(geo: Geo, cells: seq<Cell>, area: nat, rows: seq<Group>, ints: seq<Ints>, sc: Maybe<seq<real>>)
    requires GeoOk(geo) && (sc.Some? ==> |sc.value| == ScaleCount(geo)) && |cells| == BlockBytes(geo) && area < 2
  {
    Landed(geo, UnpackedArea(geo, cells, area), rows, ints, sc)
  }

  lemma RestoredIs(geo: Geo, w: World, cells: seq<Cell>, s: Scales, kr: seq<Group>, ki: seq<Ints>, vr: seq<Group>, vi: seq<Ints>)
    requires GeoOk(geo) && |cells| == BlockBytes(geo) && Sized(geo, s) && (w.floats || w.ints)
    requires AreaRestored(geo, cells, 0, kr, ki, if w.ints then Some(s.k) else None)
    requires AreaRestored(geo, cells, 1, vr, vi, if w.ints then Some(s.v) else None)
    ensures Restored(geo, w, cells, s) == HeldOf(w, kr, ki, vr, vi)
  {}

  /** The rows a restore hands out. */
  function HeldOf(w: World, kr: seq<Group>, ki: seq<Ints>, vr: seq<Group>, vi: seq<Ints>): Held {
    if !w.ints then Floats(Content(kr, vr))
    else if w.floats then Both(Content(kr, vr), IntRows(ki, vi)) else OnlyInts(IntRows(ki, vi))
  }
}
