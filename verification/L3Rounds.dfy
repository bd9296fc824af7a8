/**
 The driver: rounds of prefill, eviction and decode over one KV cache. Every good payload is the
 packing of the rows it was packed from, and the current rows of its block are those rows or what
 restoring them from the payload gives, however rounds follow one another.
 */
module L3Rounds {
  import opened Residues
  import opened L3Quant
  import opened L3Layout
  import opened L3Int8
  import opened L3Requant
  import opened L3Disk
  import opened L3Evict
  import opened L3Pick
  import opened L3Store

  /** The switches a round reads. */
  datatype Options = Options(ratio: real, minSeq: nat, maxSize: nat, mirrorReuse: bool)

  /** The block capacity a size limit in MiB leaves. */
  function Capacity(full: nat, maxSize: nat, nl: nat, blockBytes: nat): (c: nat)
  {
    if maxSize == 0 || nl == 0 || blockBytes == 0 then full
    else
      var most := CapacityFor(maxSize, nl, blockBytes);
      var c := if most < full then most else full;
      if c < 1 then 1 else c
  }

  function CapacityFor(maxSize: nat, nl: nat, blockBytes: nat): (c: nat)
    requires maxSize > 0 && nl > 0 && blockBytes > 0
  {
    RowBytesPositive(nl, blockBytes);
    (maxSize * 1048576 - HEADER) / Nat(nl, blockBytes)
  }

  lemma RowBytesPositive(nl: nat, blockBytes: nat)
    requires nl > 0 && blockBytes > 0
    ensures Nat(nl, blockBytes) > 0
  {}

  // ----- the cache in RAM -----

  /**
   The blocks in RAM and the scales of their rows; and, for the proof, what those blocks stand for,
   the current rows of every block, and the rows its payload was packed from.
   */
  datatype Memory = Memory(held: seq<Ram>, scales: seq<seq<Scales>>, cache: seq<Layer>,
                           content: seq<seq<Content>>, origin: seq<seq<Content>>)

  ghost predicate Grid<X>(cfg: Geo, x: seq<seq<X>>) {
    |x| == cfg.nl && forall l | 0 <= l < cfg.nl :: |x[l]| == cfg.maxBlocks
  }

  /** Rows in RAM are the current rows. */
  ghost predicate Rows(cfg: Geo, cache: seq<Layer>, content: seq<seq<Content>>) {
    && GeoOk(cfg) && Grid(cfg, cache) && Grid(cfg, content)
    && (forall p | InTable(cfg, p) :: ContentOk(cfg, content[p.l][p.b]))
    && (forall p | InTable(cfg, p) && cache[p.l][p.b].Some? :: cache[p.l][p.b].value == content[p.l][p.b])
  }

  /** Every block in RAM keeps the rows of this cache and stands for its entry. */
  ghost predicate InRam(cfg: Geo, w: World, held: seq<Ram>, scales: seq<seq<Scales>>, cache: seq<Layer>) {
    && GeoOk(cfg) && Grid(cfg, held) && Grid(cfg, scales) && Grid(cfg, cache)
    && (forall l | 0 <= l < cfg.nl :: MeantBy(cfg, held[l], scales[l], cache[l]))
    && forall p | InTable(cfg, p) && held[p.l][p.b].Some? :: InWorld(w, held[p.l][p.b].value)
  }

  /** With int8 rows, every row is within its scale. */
  ghost predicate AllFit(cfg: Geo, w: World, content: seq<seq<Content>>, scales: seq<seq<Scales>>) {
    && GeoOk(cfg) && Grid(cfg, content) && Grid(cfg, scales)
    && (w.ints ==> forall p | InTable(cfg, p) :: Fits(cfg, content[p.l][p.b], scales[p.l][p.b]))
  }

  ghost predicate MemOk(cfg: Geo, w: World, m: Memory) {
    && (w.floats || w.ints) && Rows(cfg, m.cache, m.content) && InRam(cfg, w, m.held, m.scales, m.cache)
    && AllFit(cfg, w, m.content, m.scales) && Grid(cfg, m.origin)
  }

  predicate SameRows(a: Geo, b: Geo) {
    a.nl == b.nl && a.nkv == b.nkv && a.hd == b.hd && a.bs == b.bs
  }

  /** The blocks that lie wholly within the first x positions. */
  function WholeBlocks(x: nat, bs: nat): (n: nat) {
    if bs == 0 then 0 else x / bs
  }

  // ----- what a round keeps -----

  /** The payload is the packing of the rows recorded for it. */
  ghost predicate Faithful(d: Disk, origin: seq<seq<Content>>, p: Pos)
    requires Ok(d) && InTable(d.geo, p) && At(d, p).onDisk
  {
    && p.l < |origin| && p.b < |origin[p.l]| && ContentOk(d.geo, origin[p.l][p.b])
    && Payload(d, p) == Packed(d.geo, origin[p.l][p.b])
  }

  /** The current rows are the packed ones, or what restoring the payload gives. */
  ghost predicate AkinRows(geo: Geo, w: World, o: Content, c: Content, s: Scales)
    requires GeoOk(geo)
  {
    && Sized(geo, s) && ContentOk(geo, o) && (w.floats || w.ints)
    && (c == o || c == Back(geo, w, o, s)) && (w.ints ==> Fits(geo, o, s))
  }

  ghost predicate Akin(geo: Geo, w: World, m: Memory, p: Pos)
    requires GeoOk(geo)
  {
    && p.l < |m.origin| == |m.content| == |m.scales| && p.b < |m.origin[p.l]|
    && p.b < |m.content[p.l]| && p.b < |m.scales[p.l]|
    && AkinRows(geo, w, m.origin[p.l][p.b], m.content[p.l][p.b], m.scales[p.l][p.b])
  }

  /** A payload that tells what the block holds. */
  ghost predicate Good(d: Disk, w: World, m: Memory, p: Pos)
    requires Ok(d) && InTable(d.geo, p) && At(d, p).onDisk
  {
    Faithful(d, m.origin, p) && Akin(d.geo, w, m, p)
  }

  /** Fresh payloads below block `to` are good. */
  ghost predicate GoodTo(d: Disk, w: World, m: Memory, to: nat) {
    Ok(d) && forall p | InTable(d.geo, p) && Fresh(d, p) && p.b < to :: Good(d, w, m, p)
  }

  /** Every fresh payload is good and belongs to a block below `stable`. */
  ghost predicate AllGood(d: Disk, w: World, m: Memory, stable: nat) {
    Ok(d) && forall p | InTable(d.geo, p) && Fresh(d, p) :: p.b < stable && Good(d, w, m, p)
  }

  lemma NearSelf(geo: Geo, c: Content, s: Scales)
    requires GeoOk(geo) && Fits(geo, c, s)
    ensures Near(geo, c, c, s)
  {
    hide RowNear, Owner;
    forall r: nat | r < RowCount(geo)
      ensures RowNear(c.k[r], c.k[r], s.k[Owner(geo, r)]) && RowNear(c.v[r], c.v[r], s.v[Owner(geo, r)])
    {
      RowNearSelf(c.k[r], c.k[r], s.k[Owner(geo, r)]);
      RowNearSelf(c.v[r], c.v[r], s.v[Owner(geo, r)]);
    }
  }

  lemma RowNearSelf(a: Group, b: Group, s: real)
    requires |a| == 64 && b == a
    ensures RowNear(a, b, s)
  {
    RowMaxBound(s);
    var m := RowMax(s) * (1.0 / 14.0 + 1.0 / 254.0);
    assert forall i | 0 <= i < 64 :: Abs(a[i] - b[i]) <= m;
  }

  lemma RowMaxBound(s: real)
    ensures RowMax(s) * (1.0 / 14.0 + 1.0 / 254.0) >= 0.0
  {
    var m := RowMax(s);
    assert m > 0.0;
  }

  /**
   What a good payload says of the current rows. Without int8 rows it is their packing. With them
   the rows are within the row maximum times 1/14 + 1/254 of what was packed, and the payload is
   their packing exactly if they were never restored or the bytes and scales meet the condition.
   */
  lemma GoodMeans(geo: Geo, w: World, o: Content, c: Content, s: Scales)
    requires GeoOk(geo) && AkinRows(geo, w, o, c, s)
    ensures ContentOk(geo, c)
    ensures !w.ints ==> Packed(geo, c) == Packed(geo, o)
    ensures w.ints ==> Near(geo, c, o, s)
    ensures w.ints ==> (Packed(geo, c) == Packed(geo, o) <==> c == o || BlockStays(geo, w, Packed(geo, o), s))
  {
    hide Packed, Back, BlockStays, Near, Fits, ContentOk;
    if w.ints {
      BlockRequant(geo, w, o, s);
      BackNear(geo, w, o, s);
      NearSelf(geo, o, s);
    } else {
      BackPacks(geo, w, o, s);
    }
  }

  /** A block of the sequence is in RAM, or its payload is fresh. */
  ghost predicate Reachable(d: Disk, open: bool, cache: seq<Layer>, p: Pos)
    requires open ==> Ok(d)
    requires p.l < |cache| && p.b < |cache[p.l]|
  {
    cache[p.l][p.b].Some? || (open && InTable(d.geo, p) && Fresh(d, p))
  }

  ghost predicate AllReachable(d: Disk, open: bool, cfg: Geo, cache: seq<Layer>, n: nat) {
    (open ==> Ok(d)) && |cache| == cfg.nl && forall p: Pos | p.l < cfg.nl && p.b < n :: p.b < |cache[p.l]| && Reachable(d, open, cache, p)
  }

  ghost predicate Fitted(open: bool, geo: Geo, cfg: Geo) {
    open ==> SameRows(geo, cfg) && geo.maxBlocks <= cfg.maxBlocks
  }

  ghost predicate LastInRam(cache: seq<Layer>, n: nat) {
    forall l | 0 <= l < |cache| :: 0 < n <= |cache[l]| && cache[l][n - 1].Some?
  }

  /** No fresh payload from block `full` on. */
  ghost predicate NoneFresh(d: Disk, full: nat) {
    Shape(d) && forall p | InTable(d.geo, p) && Fresh(d, p) :: p.b < full
  }

  /** The invariant on values. */
  ghost predicate InvOf(l3: State, cfg: Geo, w: World, stable: nat, m: Memory, len: nat)
    reads l3
  {
    && l3.Valid() && MemOk(cfg, w, m) && Fitted(l3.open, l3.geo, cfg)
    && (l3.open ==> l3.Mirrored() && AllGood(l3.View(), w, m, stable))
    && BlockCount(len, cfg.bs) <= cfg.maxBlocks && stable <= WholeBlocks(len, cfg.bs)
    && AllReachable(l3.View(), l3.open, cfg, m.cache, BlockCount(len, cfg.bs))
  }

  /** A carried-on state keeps its path; a new one has the path it was opened with. */
  ghost predicate PathAfter(retain: bool, was: string, path: Maybe<string>, now: string) {
    if retain then now == was else path.Some? && now == Clipped(path.value)
  }

  /** The most blocks a layer whose file stays within the limit, but at least one and at most the full table. */
  lemma CapacityIs(full: nat, maxSize: nat, nl: nat, blockBytes: nat)
    requires full >= 1
    ensures var c, row := Capacity(full, maxSize, nl, blockBytes), Nat(nl, blockBytes);
            if maxSize == 0 || nl == 0 || blockBytes == 0 then c == full
            else (c > 1 ==> HEADER + Nat(c, row) <= maxSize * 1048576) && (c < full ==> HEADER + Nat(c + 1, row) > maxSize * 1048576)
  {
    if maxSize > 0 && nl > 0 && blockBytes > 0 {
      RowBytesPositive(nl, blockBytes);
      Fills(maxSize * 1048576 - HEADER, Nat(nl, blockBytes), Capacity(full, maxSize, nl, blockBytes));
    }
  }

  lemma Fills(x: nat, row: nat, c: nat)
    requires row > 0
    ensures c <= x / row ==> Nat(c, row) <= x
    ensures c >= x / row ==> Nat(c + 1, row) > x
  {
    assert x == row * (x / row) + x % row;
    if c <= x / row { assert c * row <= (x / row) * row; }
    if c >= x / row { assert (c + 1) * row >= (x / row + 1) * row; }
  }

  lemma CapacityFits(full: nat, maxSize: nat, nl: nat, blockBytes: nat)
    requires full >= 1
    ensures 1 <= Capacity(full, maxSize, nl, blockBytes) <= full
  {}

  class Inference {
    const l3: State
    const cfg: Geo
    const w: World
    var held: seq<Ram>
    var scales: seq<seq<Scales>>
    var seqLen: nat
    var importance: seq<real>
    ghost var cache: seq<Layer>
    ghost var content: seq<seq<Content>>
    ghost var origin: seq<seq<Content>>
    ghost var stable: nat

    /** An empty cache; nothing is known of the rows to come but that they fit the scales. */
    constructor (cfg: Geo, w: World, state: State, rows: seq<seq<Content>>, sc: seq<seq<Scales>>)
      requires GeoOk(cfg) && (w.floats || w.ints) && state.Valid() && !state.open
      requires AllFit(cfg, w, rows, sc) && forall p | InTable(cfg, p) :: Sized(cfg, sc[p.l][p.b]) && ContentOk(cfg, rows[p.l][p.b])
      ensures Inv() && l3 == state && this.cfg == cfg && this.w == w && seqLen == 0 && content == rows
    {
      hide ContentOk, Ok, Covers, Fits, Sized;
      this.l3, this.cfg, this.w := state, cfg, w;
      held := seq(cfg.nl, _ => seq(cfg.maxBlocks, _ => None));
      cache := seq(cfg.nl, _ => seq(cfg.maxBlocks, _ => None));
      scales, seqLen, importance, content, origin, stable := sc, 0, [], rows, rows, 0;
      new;
      forall l | 0 <= l < cfg.nl ensures MeantBy(cfg, held[l], scales[l], cache[l]) {
        forall b | 0 <= b < cfg.maxBlocks ensures Sized(cfg, scales[l][b]) { assert InTable(cfg, Pos(l, b)); }
      }
      assert BlockCount(0, cfg.bs) == 0 by { BlockCountIs(0, cfg.bs); NoBlocks(cfg.bs); }
    }

    ghost function Mem(): Memory
      reads this
    {
      Memory(held, scales, cache, content, origin)
    }

    ghost predicate Base()
      reads this, l3
    {
      l3.Valid() && MemOk(cfg, w, Mem()) && Fitted(l3.open, l3.geo, cfg)
    }

    /** The cache and the eviction state are in order, whatever the payloads say. */
    ghost predicate Standing()
      reads this, l3
    {
      Base() && (l3.open ==> l3.Mirrored()) && BlockCount(seqLen, cfg.bs) <= cfg.maxBlocks
    }

    /** Every block of the sequence is in RAM or has a fresh payload, and fresh payloads are good. */
    ghost predicate Inv()
      reads this, l3
    {
      InvOf(l3, cfg, w, stable, Mem(), seqLen)
    }

    /** After a prefill that reused `keep` rows the whole sequence is in RAM. */
    ghost predicate Prepared(keep: nat)
      reads this, l3
    {
      Standing() && keep < seqLen <= |importance| && AllResident(cfg, cache, BlockCount(seqLen, cfg.bs))
    }

    /** And the fresh payloads below the reused blocks are still good. */
    ghost predicate Prefilled(keep: nat)
      reads this, l3
    {
      Prepared(keep) && (l3.open ==> GoodTo(l3.View(), w, Mem(), WholeBlocks(keep, cfg.bs)))
    }

    /** Whether an incremental round carries the open state on. */
    ghost predicate Retains(incremental: bool, path: Maybe<string>, g: Geo)
      reads this, l3
    {
      incremental && l3.Matches(path, g)
    }

    /** The geometry a round opens the file with. */
    function RoundGeo(opt: Options): (g: Geo)
    {
      cfg.(maxBlocks := Capacity(cfg.maxBlocks, opt.maxSize, cfg.nl, BlockBytes(cfg)))
    }

    /** Too short to evict anything. */
    predicate Skips(opt: Options)
      reads this
    {
      opt.minSeq > 0 && seqLen < opt.minSeq
    }

    /** A round that evicts takes place: long enough, on a carried-on state or a newly opened one. */
    ghost predicate Rounds(incremental: bool, path: Maybe<string>, opt: Options, opens: bool)
      reads this, l3
    {
      !Skips(opt) && (Retains(incremental, path, RoundGeo(opt)) || (path.Some? && GeoOk(RoundGeo(opt)) && opens))
    }

    /**
     One eviction round. When it takes place, a block is out of RAM exactly if its layer's choice
     evicts it, and its payload is the one it had, if that was fresh and wholly below the reused rows
     of a carried-on state, and the packing of its rows otherwise. When it is skipped a carried-on
     state stays as it is; then the invariant holds if no fresh payload belongs to a rewritten block.
     */
    method EvictAfterPrefill(keep: nat, incremental: bool, path: Maybe<string>, opt: Options, opens: bool)
      returns (ghost ran: bool, ghost keeps: seq<seq<bool>>)
      requires Prepared(keep)
      requires FullFits(RoundGeo(opt)) && BlockCount(seqLen, cfg.bs) <= RoundGeo(opt).maxBlocks
      modifies this`held, this`cache, this`origin, this`stable, l3
      ensures Standing() && content == old(content) && scales == old(scales)
      ensures ran <==> old(Rounds(incremental, path, opt, opens))
      ensures ran ==> l3.open && l3.geo == RoundGeo(opt) && PathAfter(old(Retains(incremental, path, RoundGeo(opt))), old(l3.path), path, l3.path)
      ensures ran ==> KeepsChosen(keeps, cfg.nl, BlockCount(seqLen, cfg.bs), importance, cfg.bs, seqLen, opt.ratio)
      ensures ran ==> RoundEffect(cfg, old(Mem()), Mem(), old(l3.View()), old(Retains(incremental, path, RoundGeo(opt))), l3.View(),
                                  keeps, BlockCount(seqLen, cfg.bs), WholeBlocks(keep, cfg.bs))
      ensures ran ==> StaysMany(cache, cfg.nl, BlockCount(seqLen, cfg.bs), opt.ratio)
      ensures !ran ==> Mem() == old(Mem())
      ensures !ran ==> if old(Retains(incremental, path, RoundGeo(opt))) then l3.View() == old(l3.View()) && l3.Aside() == old(l3.Aside()) && l3.open
                       else !l3.open
      ensures old(Prefilled(keep)) && (ran || !l3.open || NoneFresh(l3.View(), WholeBlocks(keep, cfg.bs)))
              ==> Inv() && LastInRam(cache, BlockCount(seqLen, cfg.bs))
    {
      hide *;
      ghost var good, before := Prefilled(keep), l3.View();
      ran, keeps := false, [];
      PreparedParts(keep, opt);
      var retain, ok := OpenRound(incremental, path, opt, opens);
      StillPrepared(keep);
      if !ok {
        Idle(keep, good);
        return;
      }
      MarkBlocks(keep, retain, good, before);
      ghost var was, n := Mem(), BlockCount(seqLen, cfg.bs);
      MarkedResident(keep, retain, before);
      keeps := RunRound(keep, opt.ratio, retain, good, before);
      ran := true;
      MemCache();
      RoundStays(cfg, was, Mem(), before, retain, l3.View(), keeps, n, WholeBlocks(keep, cfg.bs),
                 importance, seqLen, opt.ratio);
    }

    lemma MarkedResident(keep: nat, retain: bool, before: Disk)
      requires Marked(keep, retain, before)
      ensures BlockCount(seqLen, cfg.bs) > 0 && AllResident(cfg, Mem().cache, BlockCount(seqLen, cfg.bs))
    {
      MarkedFacts(keep, retain, before);
      hide Marked;
    }

    lemma MemCache()
      ensures Mem().cache == cache
    {}

    lemma PreparedParts(keep: nat, opt: Options)
      requires Prepared(keep)
      ensures Standing() && keep < seqLen <= |importance| && AllResident(cfg, cache, BlockCount(seqLen, cfg.bs))
      ensures Prefilled(keep) && l3.open ==> GoodTo(l3.View(), w, Mem(), WholeBlocks(keep, cfg.bs))
    {
      hide Standing;
    }

    lemma StillPrepared(keep: nat)
      requires Standing() && keep < seqLen <= |importance| && AllResident(cfg, cache, BlockCount(seqLen, cfg.bs))
      ensures Prepared(keep) && Base() && (l3.open ==> l3.Mirrored())
    {
      hide Base, AllResident;
    }

    /** Carries the open state on, or closes what is left of it and opens a new file. */
    method OpenRound(incremental: bool, path: Maybe<string>, opt: Options, opens: bool) returns (retain: bool, ok: bool)
      requires Standing()
      modifies l3
      ensures Standing()
      ensures retain == old(Retains(incremental, path, RoundGeo(opt))) && ok == old(Rounds(incremental, path, opt, opens))
      ensures retain ==> l3.View() == old(l3.View()) && l3.Aside() == old(l3.Aside()) && l3.open && old(l3.open)
      ensures ok ==> l3.open && l3.geo == RoundGeo(opt) && PathAfter(retain, old(l3.path), path, l3.path)
      ensures ok && !retain ==> l3.slot == map[]
      ensures !ok && !retain ==> !l3.open
    {
      hide MemOk, Capacity, Ok, Covers, BlockBytes, HeaderCells;
      var g := RoundGeo(opt);
      retain := incremental && l3.Matches(path, g);
      ok := !(opt.minSeq > 0 && seqLen < opt.minSeq);
      var mirror: Maybe<seq<Cell>> := None;
      if !retain && (l3.mem.Some? || l3.open || l3.blocks != [] || l3.evicted > 0) {
        if opt.mirrorReuse { mirror := l3.Rewind(); } else { l3.Close(); }
      }
      if !ok { return; }
      if !retain {
        ok := l3.Init(path, g, mirror, opens);
        if ok { FreshState(opt); }
      }
    }

    lemma FreshState(opt: Options)
      requires l3.Valid() && l3.open && l3.slot == map[] && l3.memSize == 0 && l3.geo == RoundGeo(opt) && MemOk(cfg, w, Mem())
      requires BlockCount(seqLen, cfg.bs) <= cfg.maxBlocks
      ensures Standing()
    {
      NoSlots(l3.View());
      MemGrids(cfg, w, Mem());
      CapacityFits(cfg.maxBlocks, opt.maxSize, cfg.nl, BlockBytes(cfg));
      hide MemOk, Slots, BlockBytes, SlotAt;
    }

    /** Nothing was evicted: the whole sequence is in RAM. */
    ghost method Idle(keep: nat, good: bool)
      requires Prepared(keep)
      requires good && l3.open ==> GoodTo(l3.View(), w, Mem(), WholeBlocks(keep, cfg.bs))
      modifies this`stable
      ensures Standing() && Mem() == old(Mem())
      ensures good && (!l3.open || NoneFresh(l3.View(), WholeBlocks(keep, cfg.bs))) ==> Inv()
      ensures LastInRam(cache, BlockCount(seqLen, cfg.bs))
    {
      hide Good, Slots, Covers, ContentOk, MeantBy, Fits;
      stable := WholeBlocks(keep, cfg.bs);
      BlockCountIs(seqLen, cfg.bs);
      QuotientOrder(keep, seqLen, cfg.bs);
      if l3.open && good && NoneFresh(l3.View(), WholeBlocks(keep, cfg.bs)) {
        assert AllGood(l3.View(), w, Mem(), stable);
      }
    }

    /** The sequence is in RAM, no block is flagged, and only untouched blocks have fresh payloads. */
    ghost predicate Marked(keep: nat, retain: bool, before: Disk)
      reads this, l3
    {
      && Base() && l3.open && l3.Mirrored() && FullFits(l3.geo) && BlockCount(seqLen, cfg.bs) <= l3.geo.maxBlocks
      && keep < seqLen <= |importance| && AllResident(cfg, cache, BlockCount(seqLen, cfg.bs))
      && NoneFlagged(l3.View()) && Carried(before, l3.View(), retain, WholeBlocks(keep, cfg.bs))
    }

    method MarkBlocks(keep: nat, retain: bool, ghost good: bool, ghost before: Disk)
      requires Base() && l3.open && l3.Mirrored() && FullFits(l3.geo) && BlockCount(seqLen, cfg.bs) <= l3.geo.maxBlocks
      requires keep < seqLen <= |importance| && AllResident(cfg, cache, BlockCount(seqLen, cfg.bs))
      requires if retain then before == l3.View() && (good ==> GoodTo(l3.View(), w, Mem(), WholeBlocks(keep, cfg.bs))) else l3.slot == map[]
      modifies l3
      ensures Marked(keep, retain, before) && l3.geo == old(l3.geo) && l3.path == old(l3.path)
      ensures good ==> AllGood(l3.View(), w, Mem(), WholeBlocks(keep, cfg.bs))
    {
      hide Slots, SlotAt, BlockBytes, Payload, Packed, ContentOk, FullFits, Resident, Rows, Covers, AllResident, MemOk, Akin;
      ghost var d := l3.View();
      l3.ClearEvict();
      ghost var m := l3.View();
      CoversSame(d, m, l3.mem, l3.memSize);
      SameSlotsOk(d, m);
      if retain {
        l3.MarkStale(WholeBlocks(keep, cfg.bs));
        CoversSame(m, l3.View(), l3.mem, l3.memSize);
        SameSlotsOk(m, l3.View());
      } else {
        NoSlots(d);
      }
    }

    method RunRound(keep: nat, ratio: real, retain: bool, ghost good: bool, ghost before: Disk) returns (ghost keeps: seq<seq<bool>>)
      requires Marked(keep, retain, before) && (good ==> AllGood(l3.View(), w, Mem(), WholeBlocks(keep, cfg.bs)))
      modifies this`held, this`cache, this`origin, this`stable, l3
      ensures Standing() && content == old(content) && scales == old(scales)
      ensures l3.open && l3.geo == old(l3.geo) && l3.path == old(l3.path)
      ensures KeepsChosen(keeps, cfg.nl, BlockCount(seqLen, cfg.bs), importance, cfg.bs, seqLen, ratio)
      ensures RoundEffect(cfg, old(Mem()), Mem(), before, retain, l3.View(), keeps, BlockCount(seqLen, cfg.bs), WholeBlocks(keep, cfg.bs))
      ensures good ==> Inv() && LastInRam(cache, BlockCount(seqLen, cfg.bs))
    {
      ghost var n := BlockCount(seqLen, cfg.bs);
      ghost var was, d := Mem(), l3.View();
      MarkedFacts(keep, retain, before);
      hide *;
      keeps := PackCold(keep, ratio, retain, good, before);
      ghost var packed := Mem();
      FreeEvicted();
      stable := n - 1;
      RoundEnd(keep, retain, good, before, was, packed, d, keeps, n);
    }

    lemma MarkedFacts(keep: nat, retain: bool, before: Disk)
      requires Marked(keep, retain, before)
      ensures var n := BlockCount(seqLen, cfg.bs);
              0 < n <= l3.geo.maxBlocks && n - 1 <= WholeBlocks(seqLen, cfg.bs) && cfg.bs > 0 && AllResident(cfg, cache, n)
      ensures l3.open && l3.View().geo == l3.geo && Ok(l3.View())
      ensures RoundFrom(l3.View(), cache, content, BlockCount(seqLen, cfg.bs), WholeBlocks(keep, cfg.bs))
      ensures SameRows(l3.geo, cfg) && l3.geo.maxBlocks <= cfg.maxBlocks && MemOk(cfg, w, Mem())
      ensures Carried(before, l3.View(), retain, WholeBlocks(keep, cfg.bs))
      ensures BlockCount(seqLen, cfg.bs) <= cfg.maxBlocks
    {
      StableBound(seqLen, cfg.bs);
      FullBlocks(keep, seqLen, cfg.bs);
      RowsMatch(l3.geo, cfg, cache, content, BlockCount(seqLen, cfg.bs));
    }

    lemma RoundEnd(keep: nat, retain: bool, good: bool, before: Disk, was: Memory, packed: Memory, d: Disk,
                   keeps: seq<seq<bool>>, n: nat)
      requires cfg.bs > 0 && Ok(d) && d.geo == l3.geo && Carried(before, d, retain, WholeBlocks(keep, cfg.bs))
      requires RoundFrom(d, was.cache, was.content, n, WholeBlocks(keep, cfg.bs)) && n == BlockCount(seqLen, cfg.bs) <= cfg.maxBlocks
      requires Base() && l3.open && l3.Mirrored() && |keeps| == cfg.nl && 0 < n <= l3.geo.maxBlocks
      requires SameRows(l3.geo, cfg) && l3.geo.maxBlocks <= cfg.maxBlocks && MemOk(cfg, w, was)
      requires Recorded(cfg, d, was, packed, keeps, n)
      requires Decisions(d, l3.View(), keeps, n, was.cache, cfg.nl) && FlaggedHavePayloads(l3.View(), n - 1)
      requires good ==> AllGood(l3.View(), w, packed, n - 1)
      requires stable == n - 1 <= WholeBlocks(seqLen, cfg.bs) && AllResident(cfg, was.cache, n)
      requires Mem() == packed.(held := held, cache := cache)
      requires FreedTo(l3.View(), cfg, packed.held, held, n, cfg.nl, 0) && FreedTo(l3.View(), cfg, packed.cache, cache, n, cfg.nl, 0)
      ensures Standing() && RoundEffect(cfg, was, Mem(), before, retain, l3.View(), keeps, n, WholeBlocks(keep, cfg.bs))
      ensures good ==> Inv() && LastInRam(cache, n)
    {
      hide Slots, ContentOk, Covers, Good, MemOk, Carried, Decisions, RoundFrom, Recorded;
      EffectIs(cfg, was, packed, Mem(), before, retain, d, l3.View(), keeps, n, WholeBlocks(keep, cfg.bs));
      RecordedSame(cfg, d, was, packed, keeps, n);
      FreedReach(l3.View(), cfg, was.cache, cache, n);
      if good { SameGood(l3.View(), w, packed, Mem(), n - 1); }
    }

    /** Packs what goes and refreshes the mirror; nothing has left RAM yet. */
    method PackCold(keep: nat, ratio: real, retain: bool, ghost good: bool, ghost before: Disk) returns (ghost keeps: seq<seq<bool>>)
      requires Marked(keep, retain, before) && (good ==> AllGood(l3.View(), w, Mem(), WholeBlocks(keep, cfg.bs)))
      modifies l3, this`origin
      ensures Base() && l3.open && l3.Mirrored() && l3.geo == old(l3.geo) && l3.path == old(l3.path) && |keeps| == cfg.nl
      ensures KeepsChosen(keeps, cfg.nl, BlockCount(seqLen, cfg.bs), importance, cfg.bs, seqLen, ratio)
      ensures Recorded(cfg, old(l3.View()), old(Mem()), Mem(), keeps, BlockCount(seqLen, cfg.bs))
      ensures Decisions(old(l3.View()), l3.View(), keeps, BlockCount(seqLen, cfg.bs), cache, cfg.nl)
      ensures BlockCount(seqLen, cfg.bs) > 0 && FlaggedHavePayloads(l3.View(), BlockCount(seqLen, cfg.bs) - 1)
      ensures good ==> AllGood(l3.View(), w, Mem(), BlockCount(seqLen, cfg.bs) - 1)
    {
      ghost var d, was, n := l3.View(), Mem(), BlockCount(seqLen, cfg.bs);
      MarkedFacts(keep, retain, before);
      MarkedParts(keep, retain, before);
      hide *;
      var packed;
      packed, keeps := EvictAll(ratio);
      ghost var r := l3.View();
      RoundKeeps(cfg, w, d, r, keeps, n, was, WholeBlocks(keep, cfg.bs));
      RecordFits(cfg, w, was, d, keeps, n, r);
      origin := RepackedOrigin(cfg, d, was, keeps, n);
      StillBase(was, d, keeps, n);
      Remirror(packed, d);
    }

    lemma StillBase(was: Memory, d: Disk, keeps: seq<seq<bool>>, n: nat)
      requires l3.Valid() && MemOk(cfg, w, was) && Fitted(l3.open, l3.geo, cfg)
      requires Shape(d) && d.geo.nl == cfg.nl && n <= d.geo.maxBlocks && |keeps| == cfg.nl
      requires Grid(cfg, was.content) && Grid(cfg, was.origin)
      requires Mem() == was.(origin := origin) && origin == RepackedOrigin(cfg, d, was, keeps, n)
      ensures Base() && Recorded(cfg, d, was, Mem(), keeps, n)
    {
      hide Rows, InRam, AllFit, Evicts, Fresh, Ok;
    }

    lemma MarkedParts(keep: nat, retain: bool, before: Disk)
      requires Marked(keep, retain, before)
      ensures Base() && Shape(l3.View()) && l3.geo.nl == cfg.nl && FullFits(l3.geo) && seqLen <= |importance|
      ensures NoneFlagged(l3.View()) && Covers(l3.View(), l3.mem, l3.memSize) && l3.Valid() && Fitted(l3.open, l3.geo, cfg)
    {}

    /** The mirror is read again when something was packed or nothing is readable yet. */
    method Remirror(packed: nat, ghost d: Disk)
      requires Base() && l3.open && Ok(d) && Covers(d, l3.mem, l3.memSize)
      requires packed == 0 ==> SlotsKept(d, l3.View())
      modifies l3
      ensures Base() && l3.open && l3.Mirrored() && l3.View() == old(l3.View()) && l3.geo == old(l3.geo) && l3.path == old(l3.path)
    {
      hide Ok, Covers, MemOk;
      if packed > 0 || l3.memSize == 0 {
        l3.LoadToMem();
      } else {
        CoversSame(d, l3.View(), l3.mem, l3.memSize);
      }
    }

    /** Every layer in turn. */
    method EvictAll(ratio: real) returns (packed: nat, ghost keeps: seq<seq<bool>>)
      requires Base() && l3.open && FullFits(l3.geo) && BlockCount(seqLen, cfg.bs) <= l3.geo.maxBlocks
      requires seqLen <= |importance| && AllResident(cfg, cache, BlockCount(seqLen, cfg.bs))
      requires NoneFlagged(l3.View())
      modifies l3
      ensures Base() && l3.open && l3.geo == old(l3.geo) && l3.Aside() == old(l3.Aside())
      ensures Decisions(old(l3.View()), l3.View(), keeps, BlockCount(seqLen, cfg.bs), cache, cfg.nl)
      ensures KeepsChosen(keeps, cfg.nl, BlockCount(seqLen, cfg.bs), importance, cfg.bs, seqLen, ratio)
      ensures packed == 0 ==> SlotsKept(old(l3.View()), l3.View())
    {
      ghost var d := l3.View();
      ghost var n := BlockCount(seqLen, cfg.bs);
      packed, keeps := 0, [];
      AllStart();
      hide *;
      for l := 0 to cfg.nl
        invariant Base() && l3.open && l3.Aside() == old(l3.Aside()) && l3.geo == d.geo
        invariant Decisions(d, l3.View(), keeps, n, cache, l)
        invariant KeepsChosen(keeps, l, n, importance, cfg.bs, seqLen, ratio)
        invariant packed == 0 ==> SlotsKept(d, l3.View())
      {
        ghost var m := l3.View();
        LayerNow(l);
        var did;
        ghost var keep;
        did, keep := l3.EvictLayer(l, held[l], scales[l], seqLen, importance, ratio, cache[l]);
        RoundNext(d, m, l3.View(), keeps, keep, cache, l, seqLen, importance, ratio, did);
        if packed + did == 0 { SlotsTrans(d, m, l3.View()); }
        StillFitted(m.geo);
        keeps := keeps + [keep];
        packed := packed + did;
      }
    }

    lemma AllStart()
      requires Base() && l3.open && BlockCount(seqLen, cfg.bs) <= l3.geo.maxBlocks
      ensures Decisions(l3.View(), l3.View(), [], BlockCount(seqLen, cfg.bs), cache, 0) && SlotsKept(l3.View(), l3.View())
      ensures KeepsChosen([], 0, BlockCount(seqLen, cfg.bs), importance, cfg.bs, seqLen, 0.0)
      ensures l3.View().geo == l3.geo && MemOk(cfg, w, Mem()) && Fitted(l3.open, l3.geo, cfg)
      ensures forall ratio: real :: KeepsChosen([], 0, BlockCount(seqLen, cfg.bs), importance, cfg.bs, seqLen, ratio)
    {
      RoundStart(l3.View(), BlockCount(seqLen, cfg.bs), cache);
      FlagsStart(l3.View());
      hide MemOk, Slots;
    }

    lemma LayerNow(l: nat)
      requires Base() && l3.open && l < cfg.nl && FullFits(l3.geo) && BlockCount(seqLen, cfg.bs) <= l3.geo.maxBlocks
      requires seqLen <= |importance| && AllResident(cfg, cache, BlockCount(seqLen, cfg.bs))
      ensures l < |cache| == |held| == |scales| && l3.Valid() && GeoOk(l3.geo) && l < l3.geo.nl && l3.geo.bs == cfg.bs
      ensures LayerReady(l3.View(), l, cache[l], seqLen, importance) && MeantBy(l3.geo, held[l], scales[l], cache[l])
      ensures Ok(l3.View()) && l3.View().geo == l3.geo && MemOk(cfg, w, Mem()) && SameRows(l3.geo, cfg)
    {
      hide MemOk, Slots, FullFits, LayerReady;
      LayerIsReady(l3.View(), l, cfg, w, Mem(), seqLen, importance);
    }

    lemma StillFitted(geo: Geo)
      requires l3.Valid() && MemOk(cfg, w, Mem()) && l3.geo == geo && l3.open && Fitted(true, geo, cfg)
      ensures Base()
    {
      hide MemOk, Slots;
    }

    /** Drops from RAM exactly the blocks flagged this round. */
    method FreeEvicted()
      requires Base() && l3.open && BlockCount(seqLen, cfg.bs) <= l3.geo.maxBlocks
      modifies this`held, this`cache
      ensures Base() && Mem() == old(Mem()).(held := held, cache := cache)
      ensures FreedTo(l3.View(), cfg, old(held), held, BlockCount(seqLen, cfg.bs), cfg.nl, 0)
      ensures FreedTo(l3.View(), cfg, old(cache), cache, BlockCount(seqLen, cfg.bs), cfg.nl, 0)
    {
      ghost var was, d := Mem(), l3.View();
      var n := BlockCount(seqLen, cfg.bs);
      FreedStart(d, cfg, w, was, n);
      hide Slots, ContentOk, MemOk, FreedTo, SlotAt, BlockCount;
      for l := 0 to cfg.nl
        invariant FreedTo(d, cfg, was.held, held, n, l, 0) && FreedTo(d, cfg, was.cache, cache, n, l, 0)
      {
        for b := 0 to n
          invariant FreedTo(d, cfg, was.held, held, n, l, b) && FreedTo(d, cfg, was.cache, cache, n, l, b)
        {
          FreedStep(d, cfg, was.held, held, n, l, b);
          FreedStep(d, cfg, was.cache, cache, n, l, b);
          if l3.blocks[l][b].evict {
            held := held[l := held[l][b := None]];
            cache := cache[l := cache[l][b := None]];
          }
        }
        FreedRow(d, cfg, was.held, held, n, l);
        FreedRow(d, cfg, was.cache, cache, n, l);
      }
      FreedRows(d, cfg, w, was, Mem(), n);
    }

    // ----- between rounds -----

    /** An evicted block serves the packing of the rows recorded for it, which tells its current rows. */
    method ServeRow(p: Pos, head: nat, token: nat, area: nat) returns (r: Maybe<seq<Cell>>)
      requires Inv() && p.l < cfg.nl && p.b < BlockCount(seqLen, cfg.bs) && cache[p.l][p.b].None?
      requires area < 2 && head < cfg.nkv && token < cfg.bs
      ensures GeoOk(l3.geo) && l3.geo.nkv == cfg.nkv && l3.geo.bs == cfg.bs && Akin(l3.geo, w, Mem(), p)
      ensures r == Some(RowCells(l3.geo, Packed(l3.geo, origin[p.l][p.b]), area, head, token))
      ensures !w.ints ==> ContentOk(l3.geo, content[p.l][p.b])
                          && r == Some(RowCells(l3.geo, Packed(l3.geo, content[p.l][p.b]), area, head, token))
    {
      EvictedIsGood(p);
      hide Slots, Covers, RowCells, Packed, Payload, ContentOk, AkinRows;
      GoodMeans(l3.geo, w, origin[p.l][p.b], content[p.l][p.b], scales[p.l][p.b]);
      r := l3.PayloadAt(p, head, token, area);
    }

    lemma EvictedIsGood(p: Pos)
      requires Inv() && p.l < cfg.nl && p.b < BlockCount(seqLen, cfg.bs) && cache[p.l][p.b].None?
      ensures l3.Valid() && l3.open && l3.Mirrored() && SameRows(l3.geo, cfg)
      ensures p.l < l3.geo.nl && InTable(cfg, p) && InTable(l3.geo, p) && Ok(l3.View()) && Shape(l3.View())
      ensures l3.View().geo == l3.geo && Fresh(l3.View(), p) && At(l3.View(), p).onDisk
      ensures p.b < stable && Good(l3.View(), w, Mem(), p)
    {
      hide Slots, Covers, Good, ContentOk;
      assert Reachable(l3.View(), l3.open, cache, p);
    }

    /**
     What a fresh payload says of the current rows of its block. Without int8 rows it is their
     packing. With them they are close to the rows it packs, and it is their packing exactly if they
     are those rows or its bytes and the scales meet the condition of L3Requant.
     */
    lemma PayloadTells(p: Pos)
      requires Inv() && l3.open && InTable(l3.geo, p) && Ok(l3.View()) && l3.View().geo == l3.geo && Fresh(l3.View(), p)
      ensures Grid(cfg, origin) && Grid(cfg, content) && Grid(cfg, scales) && InTable(cfg, p) && GeoOk(l3.geo)
      ensures var o, c, s, y := origin[p.l][p.b], content[p.l][p.b], scales[p.l][p.b], Payload(l3.View(), p);
              && ContentOk(l3.geo, o) && ContentOk(l3.geo, c) && Sized(l3.geo, s) && y == Packed(l3.geo, o)
              && (!w.ints ==> y == Packed(l3.geo, c))
              && (w.ints ==> Near(l3.geo, c, o, s) && (y == Packed(l3.geo, c) <==> c == o || BlockStays(l3.geo, w, y, s)))
    {
      FreshIsGood(p);
      hide Slots, Covers, Packed, Payload, ContentOk, BlockStays, Near, Fits, Sized, Inv;
      GoodMeans(l3.geo, w, origin[p.l][p.b], content[p.l][p.b], scales[p.l][p.b]);
    }

    lemma FreshIsGood(p: Pos)
      requires Inv() && l3.open && InTable(l3.geo, p) && Ok(l3.View()) && l3.View().geo == l3.geo && Fresh(l3.View(), p)
      ensures Good(l3.View(), w, Mem(), p) && InTable(cfg, p) && Grid(cfg, origin) && Grid(cfg, content) && Grid(cfg, scales)
    {
      MemGrids(cfg, w, Mem());
      hide Slots, Covers, MemOk, Good, AllReachable;
    }

    /** One evicted block back in RAM, as its payload restores; the payload stays good. */
    method RestoreBlock(p: Pos)
      requires Inv() && p.l < cfg.nl && p.b < BlockCount(seqLen, cfg.bs)
      modifies this`held, this`cache, this`content
      ensures Inv() && OneRestored(cfg, w, l3.View(), l3.open, old(Mem()), Mem(), p)
    {
      hide Inv, InvOf, MemOk, Good, AllGood, AllReachable, Ok, Slots, Covers, Restored, Means, Payload, OneRestored, Sized, GeoOk, Rows;
      InCache(p);
      if held[p.l][p.b].Some? { return; }
      EvictedIsGood(p);
      ghost var was := Mem();
      PosSized(p);
      var h := l3.FillBlock(p, w, Some(scales[p.l][p.b]));
      ghost var c := Means(l3.geo, h.value, scales[p.l][p.b]);
      held := held[p.l := held[p.l][p.b := h]];
      content := content[p.l := content[p.l][p.b := c]];
      cache := cache[p.l := cache[p.l][p.b := Some(c)]];
      RestoredInv(was, p, h.value, c);
    }

    lemma InCache(p: Pos)
      requires Inv() && p.l < cfg.nl && p.b < BlockCount(seqLen, cfg.bs)
      ensures p.l < |cache| == |content| == |held| == |scales| && p.b < |cache[p.l]| && p.b < |content[p.l]|
      ensures p.b < |held[p.l]| && p.b < |scales[p.l]| && (held[p.l][p.b].Some? <==> cache[p.l][p.b].Some?)
      ensures InTable(cfg, p) && Grid(cfg, held) && Grid(cfg, content)
      ensures held[p.l][p.b].Some? ==> OneRestored(cfg, w, l3.View(), l3.open, Mem(), Mem(), p)
      ensures InvOf(l3, cfg, w, stable, Mem(), seqLen)
    {
      hide Slots, Covers, ContentOk, Good, Fits, Means;
      assert InTable(cfg, p);
    }

    lemma PosSized(p: Pos)
      requires Inv() && InTable(cfg, p) && InTable(l3.geo, p) && SameRows(l3.geo, cfg)
      ensures p.l < |scales| && p.b < |scales[p.l]| && Sized(l3.geo, scales[p.l][p.b]) && GeoOk(l3.geo) && (w.floats || w.ints)
    {
      hide Slots, Covers, ContentOk, Good, Fits, Means, AllReachable;
      assert MeantBy(cfg, held[p.l], scales[p.l], cache[p.l]);
    }

    lemma RestoredInv(was: Memory, p: Pos, h: Held, c: Content)
      requires l3.open && InvOf(l3, cfg, w, stable, was, seqLen) && InTable(cfg, p) && InTable(l3.geo, p) && Fresh(l3.View(), p)
      requires p.l < |was.scales| && p.b < |was.scales[p.l]| && Sized(l3.geo, was.scales[p.l][p.b]) && SameRows(l3.geo, cfg)
      requires GeoOk(l3.geo) && (w.floats || w.ints)
      requires h == Restored(l3.geo, w, Payload(l3.View(), p), was.scales[p.l][p.b]) && c == Means(l3.geo, h, was.scales[p.l][p.b])
      requires p.l < |was.held| == |was.cache| == |was.content| && p.b < |was.held[p.l]| && p.b < |was.cache[p.l]| && p.b < |was.content[p.l]|
      requires Mem() == Put(was, p, h, c) && was.held[p.l][p.b].None?
      ensures Inv() && OneRestored(cfg, w, l3.View(), l3.open, was, Mem(), p)
    {
      hide Slots, Covers, Packed, Payload, ContentOk, Restored, Means, AllReachable, AllGood, MemOk, Put;
      PutOk(cfg, w, l3.geo, was, p, h, c, l3.View(), stable);
      PutIs(cfg, w, l3.View(), was, p, h, c);
      PutReach(l3.View(), cfg, w, was, Mem(), p, BlockCount(seqLen, cfg.bs));
    }

    /**
     Every block of the first `prefix` positions back in RAM: each one missing is restored from its
     payload, and every other block keeps its rows.
     */
    method RestorePrefix(prefix: nat)
      requires Inv() && prefix <= seqLen
      modifies this`held, this`cache, this`content
      ensures Inv() && ResidentTo(cfg, cache, BlockCount(prefix, cfg.bs), cfg.nl, 0)
      ensures scales == old(scales) && origin == old(origin)
      ensures RestoredTo(cfg, w, l3.View(), l3.open, old(Mem()), Mem(), BlockCount(prefix, cfg.bs), cfg.nl, 0)
    {
      ghost var was, full := Mem(), BlockCount(prefix, cfg.bs);
      BlockCountMono(prefix, seqLen, cfg.bs);
      RestoreStart(cfg, w, l3.View(), l3.open, was, full);
      if prefix == 0 { NoBlocks(cfg.bs); NothingAsked(full); return; }
      if !l3.open || l3.evicted == 0 { NothingOut(full); return; }
      var n := BlockCount(prefix, cfg.bs);
      if n > l3.geo.maxBlocks { n := l3.geo.maxBlocks; }
      hide Inv, Slots, Covers, ContentOk, RestoredTo, BlockCount;
      for l := 0 to cfg.nl
        invariant Inv() && RestoredTo(cfg, w, l3.View(), l3.open, was, Mem(), full, l, 0)
      {
        for b := 0 to n
          invariant Inv() && RestoredTo(cfg, w, l3.View(), l3.open, was, Mem(), full, l, b)
        {
          ghost var m := Mem();
          RestoreBlock(Pos(l, b));
          RestoreStep(cfg, w, l3.View(), l3.open, was, m, Mem(), full, l, b);
        }
        BeyondTable(was, full, n, l);
      }
      AllBack(was, full);
    }

    lemma NothingAsked(full: nat)
      requires Inv() && full == 0
      ensures ResidentTo(cfg, cache, full, cfg.nl, 0)
      ensures RestoredTo(cfg, w, l3.View(), l3.open, Mem(), Mem(), full, cfg.nl, 0)
    {
      hide Slots, Covers, ContentOk, Good, Fits, Means;
    }

    /** Nothing was ever packed, so nothing is out of RAM. */
    lemma NothingOut(full: nat)
      requires Inv() && full <= BlockCount(seqLen, cfg.bs) && (!l3.open || l3.evicted == 0)
      ensures ResidentTo(cfg, cache, full, cfg.nl, 0)
      ensures RestoredTo(cfg, w, l3.View(), l3.open, Mem(), Mem(), full, cfg.nl, 0)
    {
      hide Covers, ContentOk, Good, Fits, Means, SlotAt, BlockBytes, BlockCount;
      forall p: Pos | p.l < cfg.nl && p.b < full ensures InTable(cfg, p) && cache[p.l][p.b].Some? {
        assert Reachable(l3.View(), l3.open, cache, p);
        assert l3.open ==> l3.slot.Keys == {};
      }
      SameHeld(cfg, w, Mem());
    }

    /** Blocks beyond the table of the file never left RAM. */
    lemma BeyondTable(was: Memory, full: nat, n: nat, l: nat)
      requires Inv() && l3.open && l < cfg.nl && full <= BlockCount(seqLen, cfg.bs)
      requires n == if full > l3.geo.maxBlocks then l3.geo.maxBlocks else full
      requires RestoredTo(cfg, w, l3.View(), l3.open, was, Mem(), full, l, n)
      ensures RestoredTo(cfg, w, l3.View(), l3.open, was, Mem(), full, l + 1, 0)
    {
      hide Slots, Covers, ContentOk, Good, Fits, Means, BlockCount;
      forall p | InTable(cfg, p) && p.l == l && n <= p.b < full ensures held[p.l][p.b].Some? {
        assert Reachable(l3.View(), l3.open, cache, p);
      }
    }

    lemma AllBack(was: Memory, full: nat)
      requires Inv() && full <= cfg.maxBlocks && RestoredTo(cfg, w, l3.View(), l3.open, was, Mem(), full, cfg.nl, 0)
      ensures ResidentTo(cfg, cache, full, cfg.nl, 0)
    {
      hide Slots, Covers, ContentOk, Good, Fits, Means;
      SameHeld(cfg, w, Mem());
    }

    /** A prefill reuses the first `keep` rows and computes the rest anew, with their scales. */
    method Prefill(keep: nat, newLen: nat, blocks: seq<seq<Held>>, sc: seq<seq<Scales>>, weights: seq<real>)
      requires Standing() && keep < newLen <= |weights| && BlockCount(newLen, cfg.bs) <= cfg.maxBlocks
      requires ResidentTo(cfg, cache, BlockCount(keep, cfg.bs), cfg.nl, 0) && NewRows(cfg, w, blocks, sc)
      modifies this`held, this`scales, this`cache, this`content, this`seqLen, this`importance
      ensures Prepared(keep) && seqLen == newLen && importance == weights
      ensures Mem() == Refilled(cfg, old(Mem()), blocks, sc, WholeBlocks(keep, cfg.bs), BlockCount(newLen, cfg.bs))
      ensures old(Inv()) ==> Prefilled(keep)
    {
      ghost var was, inv := Mem(), Inv();
      var n, full := BlockCount(newLen, cfg.bs), WholeBlocks(keep, cfg.bs);
      PrefillSizes(keep, newLen, n);
      hide *;
      RefilledOk(cfg, w, was, blocks, sc, full, n);
      if l3.open && inv { GoodBefore(full); RefilledGood(l3.View(), cfg, w, was, blocks, sc, full, n, stable); }
      held, scales := Mix(cfg, held, Somes(cfg, blocks), full, n), Mix(cfg, scales, sc, full, n);
      ghost var means := MeansAll(cfg, blocks, sc);
      cache, content := Mix(cfg, cache, Somes(cfg, means), full, n), Mix(cfg, content, means, full, n);
      seqLen, importance := newLen, weights;
      PrefillEnd(keep, was, blocks, sc, inv, n);
    }

    lemma PrefillSizes(keep: nat, newLen: nat, n: nat)
      requires Standing() && keep < newLen && n == BlockCount(newLen, cfg.bs) <= cfg.maxBlocks
      requires ResidentTo(cfg, cache, BlockCount(keep, cfg.bs), cfg.nl, 0)
      ensures l3.Valid() && Fitted(l3.open, l3.geo, cfg) && (l3.open ==> l3.Mirrored() && Ok(l3.View())) && MemOk(cfg, w, Mem())
      ensures l3.open ==> SameRows(l3.geo, cfg) && l3.geo.maxBlocks <= cfg.maxBlocks && l3.View().geo == l3.geo
      ensures ResidentTo(cfg, cache, WholeBlocks(keep, cfg.bs), cfg.nl, 0) && cfg.bs > 0 && n <= cfg.maxBlocks
      ensures Inv() ==> InvOf(l3, cfg, w, stable, Mem(), seqLen)
      ensures Grid(cfg, held) && Grid(cfg, scales) && Grid(cfg, cache) && Grid(cfg, content)
    {
      hide Slots, Covers, ContentOk, Good, Fits, Means, MeantBy;
      BlockCountIs(keep, cfg.bs);
      FloorBelow(keep, cfg.bs);
    }

    lemma GoodBefore(full: nat)
      requires InvOf(l3, cfg, w, stable, Mem(), seqLen) && l3.open
      ensures AllGood(l3.View(), w, Mem(), stable)
    {
      hide MemOk, Good;
    }

    lemma PrefillEnd(keep: nat, was: Memory, blocks: seq<seq<Held>>, sc: seq<seq<Scales>>, inv: bool, n: nat)
      requires l3.Valid() && Fitted(l3.open, l3.geo, cfg) && (l3.open ==> l3.Mirrored()) && cfg.bs > 0
      requires n == BlockCount(seqLen, cfg.bs) <= cfg.maxBlocks && keep < seqLen <= |importance|
      requires MemOk(cfg, w, was) && NewRows(cfg, w, blocks, sc)
      requires Mem() == Refilled(cfg, was, blocks, sc, WholeBlocks(keep, cfg.bs), n) && MemOk(cfg, w, Mem()) && AllResident(cfg, cache, n)
      requires inv && l3.open ==> GoodTo(l3.View(), w, Mem(), WholeBlocks(keep, cfg.bs))
      ensures Prepared(keep) && (inv ==> Prefilled(keep))
    {
      hide MemOk, Good, AllResident, NewRows;
    }

    /** The block decode writes to is in RAM: a block with a fresh payload lies wholly before it. */
    lemma AppendTarget(l: nat)
      requires Inv() && l < cfg.nl && seqLen % cfg.bs != 0
      ensures WholeBlocks(seqLen, cfg.bs) < BlockCount(seqLen, cfg.bs) && cache[l][WholeBlocks(seqLen, cfg.bs)].Some?
      ensures l < |held| && WholeBlocks(seqLen, cfg.bs) < |held[l]| && held[l][WholeBlocks(seqLen, cfg.bs)].Some?
    {
      LastPartial(seqLen, cfg.bs);
      SameHeld(cfg, w, Mem());
      hide Slots, Covers, ContentOk, Good, BlockCount;
      assert Reachable(l3.View(), l3.open, cache, Pos(l, WholeBlocks(seqLen, cfg.bs)));
      assert InTable(cfg, Pos(l, WholeBlocks(seqLen, cfg.bs)));
    }

    /** Decode appends one position in every layer, to a block in RAM. */
    method Append(blocks: seq<Held>, sc: seq<Scales>)
      requires Inv() && cfg.bs > 0 && WholeBlocks(seqLen, cfg.bs) < cfg.maxBlocks && |blocks| == |sc| == cfg.nl
      requires NewRows(cfg, w, Wide(cfg, blocks), Wide(cfg, sc))
      modifies this`held, this`scales, this`cache, this`content, this`seqLen
      ensures Inv() && seqLen == old(seqLen) + 1
      ensures Mem() == Refilled(cfg, old(Mem()), Wide(cfg, blocks), Wide(cfg, sc), WholeBlocks(old(seqLen), cfg.bs), WholeBlocks(old(seqLen), cfg.bs) + 1)
      ensures old(seqLen) % cfg.bs != 0 ==> old(forall l | 0 <= l < cfg.nl :: held[l][WholeBlocks(seqLen, cfg.bs)].Some?)
    {
      hide Inv, InvOf, MemOk, Good, AllGood, AllReachable, Ok, Slots, Covers, NewRows, Mix, Somes, MeansAll, Wide, HeldOk, Sized, Fits, Means, GeoOk;
      AppendSizes();
      if seqLen % cfg.bs != 0 {
        forall l | 0 <= l < cfg.nl ensures held[l][WholeBlocks(seqLen, cfg.bs)].Some? { AppendTarget(l); }
      }
      ghost var was := Mem();
      var b, wide, all := WholeBlocks(seqLen, cfg.bs), Wide(cfg, blocks), Wide(cfg, sc);
      NewParts(cfg, w, wide, all);
      RefilledOk(cfg, w, was, wide, all, b, b + 1);
      if l3.open { RefilledAllGood(l3.View(), cfg, w, was, wide, all, b, b + 1, stable); }
      RefilledReach(l3.View(), l3.open, cfg, w, was, wide, all, b, b + 1, BlockCount(seqLen, cfg.bs));
      held, scales := Mix(cfg, held, Somes(cfg, wide), b, b + 1), Mix(cfg, scales, all, b, b + 1);
      ghost var means := MeansAll(cfg, wide, all);
      cache, content := Mix(cfg, cache, Somes(cfg, means), b, b + 1), Mix(cfg, content, means, b, b + 1);
      seqLen := seqLen + 1;
      AppendEnd(was, wide, all, b);
    }

    lemma AppendSizes()
      requires Inv() && WholeBlocks(seqLen, cfg.bs) < cfg.maxBlocks
      ensures cfg.bs > 0 && InvOf(l3, cfg, w, stable, Mem(), seqLen) && MemOk(cfg, w, Mem()) && l3.Valid() && stable <= WholeBlocks(seqLen, cfg.bs)
      ensures Grid(cfg, held) && Grid(cfg, scales) && Grid(cfg, cache) && Grid(cfg, content)
      ensures l3.open ==> Ok(l3.View()) && SameRows(l3.geo, cfg) && l3.geo.maxBlocks <= cfg.maxBlocks && l3.View().geo == l3.geo
      ensures l3.open ==> AllGood(l3.View(), w, Mem(), stable)
      ensures AllReachable(l3.View(), l3.open, cfg, cache, BlockCount(seqLen, cfg.bs))
      ensures BlockCount(seqLen, cfg.bs) <= WholeBlocks(seqLen, cfg.bs) + 1 && BlockCount(seqLen + 1, cfg.bs) == WholeBlocks(seqLen, cfg.bs) + 1
      ensures BlockCount(seqLen, cfg.bs) >= WholeBlocks(seqLen, cfg.bs) && WholeBlocks(seqLen, cfg.bs) <= WholeBlocks(seqLen + 1, cfg.bs)
      ensures l3.open ==> l3.Mirrored()
      ensures Fitted(l3.open, l3.geo, cfg)
    {
      hide Slots, Covers, ContentOk, Good, Fits, Means, MeantBy;
      OneMore(seqLen, cfg.bs);
    }

    lemma AppendEnd(was: Memory, wide: seq<seq<Held>>, all: seq<seq<Scales>>, b: nat)
      requires l3.Valid() && Fitted(l3.open, l3.geo, cfg) && (l3.open ==> l3.Mirrored()) && cfg.bs > 0
      requires MemOk(cfg, w, was) && NewRows(cfg, w, wide, all) && MemOk(cfg, w, Mem())
      requires Mem() == Refilled(cfg, was, wide, all, b, b + 1) && BlockCount(seqLen, cfg.bs) == b + 1 <= cfg.maxBlocks
      requires stable <= b <= WholeBlocks(seqLen, cfg.bs) && (l3.open ==> AllGood(l3.View(), w, Mem(), stable))
      requires AllReachable(l3.View(), l3.open, cfg, cache, b + 1)
      ensures Inv()
    {
      hide MemOk, Good, NewRows;
    }
  }

  // ----- replacing rows -----

  function Mix<X>(cfg: Geo, a: seq<seq<X>>, b: seq<seq<X>>, full: nat, n: nat): (r: seq<seq<X>>)
    requires Grid(cfg, a) && Grid(cfg, b)
    ensures Grid(cfg, r)
  {
    seq(cfg.nl, l requires 0 <= l < cfg.nl =>
      seq(cfg.maxBlocks, c requires 0 <= c < cfg.maxBlocks => if full <= c < n then b[l][c] else a[l][c]))
  }

  function Somes<X>(cfg: Geo, a: seq<seq<X>>): (r: seq<seq<Maybe<X>>>)
    requires Grid(cfg, a)
    ensures Grid(cfg, r)
  {
    seq(cfg.nl, l requires 0 <= l < cfg.nl => seq(cfg.maxBlocks, b requires 0 <= b < cfg.maxBlocks => Some(a[l][b])))
  }

  function Wide<X>(cfg: Geo, a: seq<X>): (r: seq<seq<X>>)
    requires |a| == cfg.nl
    ensures Grid(cfg, r)
  {
    seq(cfg.nl, l requires 0 <= l < cfg.nl => seq(cfg.maxBlocks, _ => a[l]))
  }

  /** Rows as the writer leaves them: of the kept kinds, and within their scales. */
  ghost predicate NewRows(cfg: Geo, w: World, blocks: seq<seq<Held>>, sc: seq<seq<Scales>>) {
    && GeoOk(cfg) && Grid(cfg, blocks) && Grid(cfg, sc)
    && forall p | InTable(cfg, p) ::
         Sized(cfg, sc[p.l][p.b]) && HeldOk(cfg, blocks[p.l][p.b]) && InWorld(w, blocks[p.l][p.b])
         && (w.ints ==> Fits(cfg, Means(cfg, blocks[p.l][p.b], sc[p.l][p.b]), sc[p.l][p.b]))
  }

  lemma NewParts(cfg: Geo, w: World, blocks: seq<seq<Held>>, sc: seq<seq<Scales>>)
    requires NewRows(cfg, w, blocks, sc)
    ensures GeoOk(cfg) && Grid(cfg, blocks) && Grid(cfg, sc)
    ensures forall p | InTable(cfg, p) :: Sized(cfg, sc[p.l][p.b]) && HeldOk(cfg, blocks[p.l][p.b])
  {
    hide Sized, HeldOk, Fits, Means;
  }

  ghost function MeanAt(cfg: Geo, blocks: seq<seq<Held>>, sc: seq<seq<Scales>>, p: Pos): (c: Content)
    requires GeoOk(cfg) && p.l < |blocks| && p.l < |sc| && p.b < |blocks[p.l]| && p.b < |sc[p.l]|
    requires HeldOk(cfg, blocks[p.l][p.b]) && Sized(cfg, sc[p.l][p.b])
    ensures ContentOk(cfg, c)
  {
    Means(cfg, blocks[p.l][p.b], sc[p.l][p.b])
  }

  /** What new rows stand for. */
  ghost function MeansAll(cfg: Geo, blocks: seq<seq<Held>>, sc: seq<seq<Scales>>): (r: seq<seq<Content>>)
    requires GeoOk(cfg) && Grid(cfg, blocks) && Grid(cfg, sc)
    requires forall p | InTable(cfg, p) :: Sized(cfg, sc[p.l][p.b]) && HeldOk(cfg, blocks[p.l][p.b])
    ensures Grid(cfg, r)
  {
    seq(cfg.nl, l requires 0 <= l < cfg.nl =>
      seq(cfg.maxBlocks, b requires 0 <= b < cfg.maxBlocks => assert InTable(cfg, Pos(l, b)); MeanAt(cfg, blocks, sc, Pos(l, b))))
  }

  /** Blocks from `full` to n are written anew. */
  ghost function Refilled(cfg: Geo, m: Memory, blocks: seq<seq<Held>>, sc: seq<seq<Scales>>, full: nat, n: nat): (r: Memory)
    requires GeoOk(cfg) && Grid(cfg, blocks) && Grid(cfg, sc)
    requires forall p | InTable(cfg, p) :: Sized(cfg, sc[p.l][p.b]) && HeldOk(cfg, blocks[p.l][p.b])
    requires Grid(cfg, m.held) && Grid(cfg, m.scales) && Grid(cfg, m.cache) && Grid(cfg, m.content)
  {
    var means := MeansAll(cfg, blocks, sc);
    Memory(Mix(cfg, m.held, Somes(cfg, blocks), full, n), Mix(cfg, m.scales, sc, full, n),
           Mix(cfg, m.cache, Somes(cfg, means), full, n), Mix(cfg, m.content, means, full, n), m.origin)
  }

  /** One entry of refilled memory. */
  lemma RefilledAt(cfg: Geo, w: World, m: Memory, blocks: seq<seq<Held>>, sc: seq<seq<Scales>>, full: nat, n: nat, p: Pos)
    requires MemOk(cfg, w, m) && NewRows(cfg, w, blocks, sc) && InTable(cfg, p)
    ensures var r := Refilled(cfg, m, blocks, sc, full, n);
            && Grid(cfg, r.held) && Grid(cfg, r.scales) && Grid(cfg, r.cache) && Grid(cfg, r.content) && r.origin == m.origin
            && r.scales[p.l][p.b] == (if full <= p.b < n then sc[p.l][p.b] else m.scales[p.l][p.b])
            && r.held[p.l][p.b] == (if full <= p.b < n then Some(blocks[p.l][p.b]) else m.held[p.l][p.b])
            && r.cache[p.l][p.b] == (if full <= p.b < n then Some(MeanAt(cfg, blocks, sc, p)) else m.cache[p.l][p.b])
            && r.content[p.l][p.b] == (if full <= p.b < n then MeanAt(cfg, blocks, sc, p) else m.content[p.l][p.b])
  {
    hide MeanAt, HeldOk, Sized, Fits, MeantBy, ContentOk, Means;
  }

  /** Entry p of a memory is consistent on its own. */
  ghost predicate EntryOk(cfg: Geo, w: World, m: Memory, p: Pos)
    requires GeoOk(cfg) && InTable(cfg, p) && Grid(cfg, m.held) && Grid(cfg, m.scales) && Grid(cfg, m.cache) && Grid(cfg, m.content)
  {
    var h, s, r, c := m.held[p.l][p.b], m.scales[p.l][p.b], m.cache[p.l][p.b], m.content[p.l][p.b];
    && ContentOk(cfg, c) && (r.Some? ==> r.value == c) && Sized(cfg, s) && (h.Some? <==> r.Some?)
    && (h.Some? ==> HeldOk(cfg, h.value) && r.value == Means(cfg, h.value, s) && InWorld(w, h.value))
    && (w.ints ==> Fits(cfg, c, s))
  }

  lemma MemEntries(cfg: Geo, w: World, m: Memory)
    requires GeoOk(cfg) && (w.floats || w.ints)
    requires Grid(cfg, m.held) && Grid(cfg, m.scales) && Grid(cfg, m.cache) && Grid(cfg, m.content) && Grid(cfg, m.origin)
    ensures MemOk(cfg, w, m) <==> forall p | InTable(cfg, p) :: EntryOk(cfg, w, m, p)
  {
    hide HeldOk, Sized, Fits, ContentOk, Means, InWorld;
    if forall p | InTable(cfg, p) :: EntryOk(cfg, w, m, p) {
      forall l | 0 <= l < cfg.nl ensures MeantBy(cfg, m.held[l], m.scales[l], m.cache[l]) {
        forall b | 0 <= b < cfg.maxBlocks
          ensures var h, s, r := m.held[l][b], m.scales[l][b], m.cache[l][b];
                  Sized(cfg, s) && (h.Some? <==> r.Some?) && (h.Some? ==> HeldOk(cfg, h.value) && r.value == Means(cfg, h.value, s))
        {
          assert EntryOk(cfg, w, m, Pos(l, b));
        }
      }
      forall p | InTable(cfg, p)
        ensures ContentOk(cfg, m.content[p.l][p.b])
        ensures m.cache[p.l][p.b].Some? ==> m.cache[p.l][p.b].value == m.content[p.l][p.b]
        ensures m.held[p.l][p.b].Some? ==> InWorld(w, m.held[p.l][p.b].value)
        ensures w.ints ==> Fits(cfg, m.content[p.l][p.b], m.scales[p.l][p.b])
      {
        assert EntryOk(cfg, w, m, p);
      }
    }
    if MemOk(cfg, w, m) {
      forall p | InTable(cfg, p) ensures EntryOk(cfg, w, m, p) {
        assert MeantBy(cfg, m.held[p.l], m.scales[p.l], m.cache[p.l]);
      }
    }
  }

  lemma RefilledOk(cfg: Geo, w: World, m: Memory, blocks: seq<seq<Held>>, sc: seq<seq<Scales>>, full: nat, n: nat)
    requires MemOk(cfg, w, m) && NewRows(cfg, w, blocks, sc) && n <= cfg.maxBlocks
    ensures var r := Refilled(cfg, m, blocks, sc, full, n);
            MemOk(cfg, w, r) && (ResidentTo(cfg, m.cache, full, cfg.nl, 0) ==> AllResident(cfg, r.cache, n))
  {
    var r := Refilled(cfg, m, blocks, sc, full, n);
    MemEntries(cfg, w, m);
    hide HeldOk, Sized, Fits, ContentOk, Means, InWorld, MemOk, MeanAt, Refilled;
    GridsOf(cfg, w, m, blocks, sc, full, n);
    forall p | InTable(cfg, p)
      ensures EntryOk(cfg, w, r, p)
      ensures full <= p.b < n ==> r.cache[p.l][p.b].Some?
      ensures p.b < full ==> r.cache[p.l][p.b] == m.cache[p.l][p.b]
    {
      RefilledAt(cfg, w, m, blocks, sc, full, n, p);
      assert EntryOk(cfg, w, m, p);
      MeanIs(cfg, blocks, sc, p);
    }
    MemEntries(cfg, w, r);
    if ResidentTo(cfg, m.cache, full, cfg.nl, 0) {
      forall l | 0 <= l < |r.cache| ensures Resident(cfg, r.cache[l], n) {
        forall b | 0 <= b < n ensures r.cache[l][b].Some? && ContentOk(cfg, r.cache[l][b].value) {
          assert InTable(cfg, Pos(l, b)) && EntryOk(cfg, w, r, Pos(l, b));
        }
      }
    }
  }

  lemma MeanIs(cfg: Geo, blocks: seq<seq<Held>>, sc: seq<seq<Scales>>, p: Pos)
    requires GeoOk(cfg) && p.l < |blocks| && p.l < |sc| && p.b < |blocks[p.l]| && p.b < |sc[p.l]|
    requires HeldOk(cfg, blocks[p.l][p.b]) && Sized(cfg, sc[p.l][p.b])
    ensures MeanAt(cfg, blocks, sc, p) == Means(cfg, blocks[p.l][p.b], sc[p.l][p.b])
  {}

  lemma GridsOf(cfg: Geo, w: World, m: Memory, blocks: seq<seq<Held>>, sc: seq<seq<Scales>>, full: nat, n: nat)
    requires MemOk(cfg, w, m) && NewRows(cfg, w, blocks, sc)
    ensures var r := Refilled(cfg, m, blocks, sc, full, n);
            && Grid(cfg, r.held) && Grid(cfg, r.scales) && Grid(cfg, r.cache) && Grid(cfg, r.content) && Grid(cfg, r.origin)
            && Grid(cfg, m.cache) && Grid(cfg, m.held) && Grid(cfg, m.scales) && Grid(cfg, m.content)
            && GeoOk(cfg) && (w.floats || w.ints) && Grid(cfg, blocks) && Grid(cfg, sc)
            && forall p | InTable(cfg, p) :: Sized(cfg, sc[p.l][p.b]) && HeldOk(cfg, blocks[p.l][p.b]) && InWorld(w, blocks[p.l][p.b])
                  && (w.ints ==> Fits(cfg, Means(cfg, blocks[p.l][p.b], sc[p.l][p.b]), sc[p.l][p.b]))
  {
    hide HeldOk, Sized, Fits, ContentOk, Means, InWorld, MeanAt, MeantBy, MeansAll;
  }

  /** Payloads of blocks that were not rewritten are as good as before. */
  lemma RefilledGood(d: Disk, cfg: Geo, w: World, m: Memory, blocks: seq<seq<Held>>, sc: seq<seq<Scales>>, full: nat, n: nat, stable: nat)
    requires Ok(d) && SameRows(d.geo, cfg) && d.geo.maxBlocks <= cfg.maxBlocks && MemOk(cfg, w, m) && NewRows(cfg, w, blocks, sc)
    requires AllGood(d, w, m, stable)
    ensures GoodTo(d, w, Refilled(cfg, m, blocks, sc, full, n), full)
  {
    var r := Refilled(cfg, m, blocks, sc, full, n);
    hide AkinRows, Slots, Refilled, MemOk, NewRows, ContentOk, Payload, MeanAt, Sized;
    forall p | InTable(d.geo, p) && Fresh(d, p) && p.b < full ensures Good(d, w, r, p) {
      RefilledEntry(cfg, w, m, blocks, sc, full, n, p);
      assert Good(d, w, m, p);
    }
  }

  /** An entry that is not rewritten. */
  lemma RefilledEntry(cfg: Geo, w: World, m: Memory, blocks: seq<seq<Held>>, sc: seq<seq<Scales>>, full: nat, n: nat, p: Pos)
    requires MemOk(cfg, w, m) && NewRows(cfg, w, blocks, sc) && InTable(cfg, p) && !(full <= p.b < n)
    ensures var r := Refilled(cfg, m, blocks, sc, full, n);
            && r.origin == m.origin && Grid(cfg, r.scales) && Grid(cfg, r.content) && Grid(cfg, r.cache) && Grid(cfg, m.scales)
            && Grid(cfg, m.content) && Grid(cfg, m.cache)
            && r.scales[p.l][p.b] == m.scales[p.l][p.b] && r.content[p.l][p.b] == m.content[p.l][p.b]
            && r.cache[p.l][p.b] == m.cache[p.l][p.b]
  {
    hide HeldOk, Sized, Fits, ContentOk, Means, InWorld, MeanAt, MeantBy;
    RefilledAt(cfg, w, m, blocks, sc, full, n, p);
  }

  lemma RefilledAllGood(d: Disk, cfg: Geo, w: World, m: Memory, blocks: seq<seq<Held>>, sc: seq<seq<Scales>>, full: nat, n: nat, stable: nat)
    requires Ok(d) && SameRows(d.geo, cfg) && d.geo.maxBlocks <= cfg.maxBlocks && MemOk(cfg, w, m) && NewRows(cfg, w, blocks, sc)
    requires AllGood(d, w, m, stable) && stable <= full
    ensures AllGood(d, w, Refilled(cfg, m, blocks, sc, full, n), stable)
  {
    RefilledGood(d, cfg, w, m, blocks, sc, full, n, stable);
    hide Good, Slots, Refilled, MemOk, NewRows;
  }

  lemma RefilledReach(d: Disk, open: bool, cfg: Geo, w: World, m: Memory, blocks: seq<seq<Held>>, sc: seq<seq<Scales>>, b: nat, n: nat, before: nat)
    requires open ==> Ok(d)
    requires MemOk(cfg, w, m) && NewRows(cfg, w, blocks, sc) && n == b + 1 <= cfg.maxBlocks && b <= before <= n
    requires AllReachable(d, open, cfg, m.cache, before)
    ensures AllReachable(d, open, cfg, Refilled(cfg, m, blocks, sc, b, n).cache, n)
  {
    var r := Refilled(cfg, m, blocks, sc, b, n);
    hide Slots, Refilled, MemOk, NewRows, MeanAt, Sized, HeldOk;
    forall p: Pos | p.l < cfg.nl && p.b < n ensures |r.cache| == cfg.nl && p.b < |r.cache[p.l]| && Reachable(d, open, r.cache, p) {
      if p.b < b {
        assert Reachable(d, open, m.cache, p);
        RefilledEntry(cfg, w, m, blocks, sc, b, n, p);
      } else {
        RewrittenEntry(cfg, w, m, blocks, sc, b, n, p);
      }
    }
    RefilledGrid(cfg, w, m, blocks, sc, b, n);
  }

  lemma RefilledGrid(cfg: Geo, w: World, m: Memory, blocks: seq<seq<Held>>, sc: seq<seq<Scales>>, full: nat, n: nat)
    requires MemOk(cfg, w, m) && NewRows(cfg, w, blocks, sc)
    ensures |Refilled(cfg, m, blocks, sc, full, n).cache| == cfg.nl
  {
    hide HeldOk, Sized, Fits, ContentOk, Means, InWorld, MeanAt, MeantBy;
  }

  lemma RewrittenEntry(cfg: Geo, w: World, m: Memory, blocks: seq<seq<Held>>, sc: seq<seq<Scales>>, full: nat, n: nat, p: Pos)
    requires MemOk(cfg, w, m) && NewRows(cfg, w, blocks, sc) && InTable(cfg, p) && full <= p.b < n
    ensures var r := Refilled(cfg, m, blocks, sc, full, n);
            && Grid(cfg, r.cache) && Grid(cfg, r.scales) && Grid(cfg, r.content) && r.cache[p.l][p.b].Some?
            && r.scales[p.l][p.b] == sc[p.l][p.b] && r.content[p.l][p.b] == Means(cfg, blocks[p.l][p.b], sc[p.l][p.b])
  {
    hide HeldOk, Sized, Fits, ContentOk, Means, InWorld, MeantBy;
    RefilledAt(cfg, w, m, blocks, sc, full, n, p);
  }

  lemma SameHeld(cfg: Geo, w: World, m: Memory)
    requires MemOk(cfg, w, m)
    ensures forall p | InTable(cfg, p) :: m.held[p.l][p.b].Some? <==> m.cache[p.l][p.b].Some?
  {
    hide HeldOk, Sized, Fits, ContentOk, Means, InWorld;
    forall p | InTable(cfg, p) ensures m.held[p.l][p.b].Some? <==> m.cache[p.l][p.b].Some? {
      assert MeantBy(cfg, m.held[p.l], m.scales[p.l], m.cache[p.l]);
    }
  }

  lemma LastPartial(seqLen: nat, bs: nat)
    requires bs > 0 && seqLen % bs != 0
    ensures seqLen / bs < BlockCount(seqLen, bs)
  {
    var q := seqLen / bs;
    BlockCountIs(seqLen, bs);
    FewerBlocks(BlockCount(seqLen, bs), BlockCount(seqLen, bs), seqLen, seqLen, bs);
    assert BlockCount(seqLen, bs) <= q ==> BlockCount(seqLen, bs) * bs <= q * bs;
  }

  /** One position more needs at most the block it falls in. */
  lemma OneMore(seqLen: nat, bs: nat)
    requires bs > 0
    ensures BlockCount(seqLen + 1, bs) == seqLen / bs + 1 && seqLen / bs <= (seqLen + 1) / bs
    ensures BlockCount(seqLen, bs) <= seqLen / bs + 1 && (BlockCount(seqLen, bs) == seqLen / bs + 1 || BlockCount(seqLen, bs) == seqLen / bs)
  {
    var q, r := seqLen / bs, seqLen % bs;
    assert seqLen == q * bs + r;
    DivUnique(seqLen + 1 + bs - 1, bs, q + 1, r);
    assert (q + 1) * bs == q * bs + bs;
    if r == 0 {
      DivUnique(seqLen + bs - 1, bs, q, bs - 1);
    } else {
      DivUnique(seqLen + bs - 1, bs, q + 1, r - 1);
    }
    QuotientAtLeast(seqLen + 1, bs, q);
  }

  lemma QuotientOrder(x: nat, y: nat, bs: nat)
    requires bs > 0 && x <= y
    ensures x / bs <= y / bs
  {
    FloorBelow(x, bs);
    QuotientAtLeast(y, bs, x / bs);
  }

  lemma FloorBelow(x: nat, bs: nat)
    requires bs > 0
    ensures x / bs * bs <= x && x / bs <= BlockCount(x, bs)
  {
    BlockCountIs(x, bs);
    var q, n := x / bs, BlockCount(x, bs);
    assert q * bs + x % bs == x;
    assert q > n ==> q * bs >= (n + 1) * bs;
    assert (n + 1) * bs == n * bs + bs;
  }

  // ----- restoring -----

  ghost function Put(m: Memory, p: Pos, h: Held, c: Content): (r: Memory)
    requires p.l < |m.held| == |m.cache| == |m.content|
    requires p.b < |m.held[p.l]| && p.b < |m.cache[p.l]| && p.b < |m.content[p.l]|
  {
    m.(held := m.held[p.l := m.held[p.l][p.b := Some(h)]], cache := m.cache[p.l := m.cache[p.l][p.b := Some(c)]],
       content := m.content[p.l := m.content[p.l][p.b := c]])
  }

  /** Block p now holds its payload restored. */
  ghost predicate BackIn(d: Disk, open: bool, w: World, was: Memory, now: Memory, p: Pos) {
    && open && Ok(d) && InTable(d.geo, p) && Fresh(d, p) && (w.floats || w.ints)
    && p.l < |was.scales| && p.b < |was.scales[p.l]| && Sized(d.geo, was.scales[p.l][p.b])
    && p.l < |now.held| == |now.content| && p.b < |now.held[p.l]| && p.b < |now.content[p.l]|
    && now.held[p.l][p.b] == Some(Restored(d.geo, w, Payload(d, p), was.scales[p.l][p.b]))
    && now.content[p.l][p.b] == Means(d.geo, now.held[p.l][p.b].value, was.scales[p.l][p.b])
  }

  /** Block p is in RAM: as it was if it was there, and otherwise as its payload restores; the rest is as it was. */
  ghost predicate OneRestored(cfg: Geo, w: World, d: Disk, open: bool, was: Memory, now: Memory, p: Pos) {
    && InTable(cfg, p) && Grid(cfg, was.held) && Grid(cfg, now.held) && Grid(cfg, was.content) && Grid(cfg, now.content)
    && now.scales == was.scales && now.origin == was.origin
    && (forall q | InTable(cfg, q) && (q != p || was.held[p.l][p.b].Some?) ::
          now.held[q.l][q.b] == was.held[q.l][q.b] && now.content[q.l][q.b] == was.content[q.l][q.b])
    && (was.held[p.l][p.b].None? ==> BackIn(d, open, w, was, now, p))
  }

  /** The first l layers and b blocks of the next are back; blocks from `full` on and blocks in RAM are as they were. */
  ghost predicate RestoredTo(cfg: Geo, w: World, d: Disk, open: bool, was: Memory, now: Memory, full: nat, l: nat, b: nat) {
    && Grid(cfg, was.held) && Grid(cfg, now.held) && Grid(cfg, was.content) && Grid(cfg, now.content)
    && now.scales == was.scales && now.origin == was.origin
    && forall p | InTable(cfg, p) ::
         if p.b < full && (p.l < l || (p.l == l && p.b < b)) && was.held[p.l][p.b].None? then BackIn(d, open, w, was, now, p)
         else now.held[p.l][p.b] == was.held[p.l][p.b] && now.content[p.l][p.b] == was.content[p.l][p.b]
  }

  lemma RestoreStart(cfg: Geo, w: World, d: Disk, open: bool, m: Memory, full: nat)
    requires Grid(cfg, m.held) && Grid(cfg, m.content)
    ensures RestoredTo(cfg, w, d, open, m, m, full, 0, 0)
  {
    hide BackIn;
  }

  lemma RestoreStep(cfg: Geo, w: World, d: Disk, open: bool, was: Memory, m: Memory, now: Memory, full: nat, l: nat, b: nat)
    requires RestoredTo(cfg, w, d, open, was, m, full, l, b) && OneRestored(cfg, w, d, open, m, now, Pos(l, b)) && b < full
    ensures RestoredTo(cfg, w, d, open, was, now, full, l, b + 1)
  {
    hide Ok, Fresh, Restored, Means, Payload, Sized;
    forall p | InTable(cfg, p)
      ensures if p.b < full && (p.l < l || (p.l == l && p.b < b + 1)) && was.held[p.l][p.b].None? then BackIn(d, open, w, was, now, p)
              else now.held[p.l][p.b] == was.held[p.l][p.b] && now.content[p.l][p.b] == was.content[p.l][p.b]
    {
      if p != Pos(l, b) {
        assert now.held[p.l][p.b] == m.held[p.l][p.b] && now.content[p.l][p.b] == m.content[p.l][p.b];
      }
    }
  }

  lemma PutIs(cfg: Geo, w: World, d: Disk, m: Memory, p: Pos, h: Held, c: Content)
    requires MemOk(cfg, w, m) && Ok(d) && InTable(d.geo, p) && InTable(cfg, p) && Fresh(d, p)
    requires p.l < |m.scales| && p.b < |m.scales[p.l]| && Sized(d.geo, m.scales[p.l][p.b]) && m.held[p.l][p.b].None?
    requires h == Restored(d.geo, w, Payload(d, p), m.scales[p.l][p.b]) && c == Means(d.geo, h, m.scales[p.l][p.b])
    ensures OneRestored(cfg, w, d, true, m, Put(m, p, h, c), p)
  {
    hide Slots, Restored, Means, Payload, Sized, ContentOk, MeantBy, Fits;
  }

  lemma PutOk(cfg: Geo, w: World, geo: Geo, m: Memory, p: Pos, h: Held, c: Content, d: Disk, stable: nat)
    requires Ok(d) && d.geo == geo && SameRows(geo, cfg) && geo.maxBlocks <= cfg.maxBlocks && MemOk(cfg, w, m)
    requires AllGood(d, w, m, stable) && InTable(geo, p) && InTable(cfg, p) && Fresh(d, p)
    requires p.l < |m.scales| && p.b < |m.scales[p.l]| && Sized(geo, m.scales[p.l][p.b])
    requires h == Restored(geo, w, Payload(d, p), m.scales[p.l][p.b]) && c == Means(geo, h, m.scales[p.l][p.b])
    ensures MemOk(cfg, w, Put(m, p, h, c)) && AllGood(d, w, Put(m, p, h, c), stable)
  {
    MemGrids(cfg, w, m);
    assert Good(d, w, m, p);
    assert c == Back(geo, w, m.origin[p.l][p.b], m.scales[p.l][p.b]);
    hide Slots, Restored, Means, Payload, Sized, ContentOk, Fits, Packed, MemOk, Back, HeldOk, Put;
    PutFits(cfg, w, geo, m, p, h, c);
    PutGood(cfg, w, m, p, h, c, d, stable);
  }

  lemma PutFits(cfg: Geo, w: World, geo: Geo, m: Memory, p: Pos, h: Held, c: Content)
    requires GeoOk(geo) && SameRows(geo, cfg) && MemOk(cfg, w, m) && InTable(cfg, p)
    requires Grid(cfg, m.held) && Grid(cfg, m.scales) && Grid(cfg, m.cache) && Grid(cfg, m.content) && Grid(cfg, m.origin)
    requires Sized(geo, m.scales[p.l][p.b]) && HeldOk(geo, h) && InWorld(w, h) && c == Means(geo, h, m.scales[p.l][p.b])
    requires AkinRows(geo, w, m.origin[p.l][p.b], m.content[p.l][p.b], m.scales[p.l][p.b])
    requires c == Back(geo, w, m.origin[p.l][p.b], m.scales[p.l][p.b])
    ensures MemOk(cfg, w, Put(m, p, h, c))
  {
    MemGrids(cfg, w, m);
    var o, s, r := m.origin[p.l][p.b], m.scales[p.l][p.b], Put(m, p, h, c);
    MemEntries(cfg, w, m);
    hide Means, Sized, ContentOk, Fits, MemOk, Back, HeldOk;
    if w.ints { BackNear(geo, w, o, s); }
    SameMeans(geo, cfg, h, s);
    SameFits(geo, cfg, c, s);
    SameContent(geo, cfg, c);
    forall q | InTable(cfg, q) ensures EntryOk(cfg, w, r, q) { assert EntryOk(cfg, w, m, q); }
    MemEntries(cfg, w, r);
  }

  lemma PutGood(cfg: Geo, w: World, m: Memory, p: Pos, h: Held, c: Content, d: Disk, stable: nat)
    requires Ok(d) && SameRows(d.geo, cfg) && d.geo.maxBlocks <= cfg.maxBlocks && AllGood(d, w, m, stable) && InTable(d.geo, p) && InTable(cfg, p)
    requires Grid(cfg, m.held) && Grid(cfg, m.scales) && Grid(cfg, m.cache) && Grid(cfg, m.content) && Grid(cfg, m.origin)
    requires AkinRows(d.geo, w, m.origin[p.l][p.b], c, m.scales[p.l][p.b])
    ensures AllGood(d, w, Put(m, p, h, c), stable)
  {
    hide Slots, Payload, AkinRows, Faithful;
    var r := Put(m, p, h, c);
    forall q | InTable(d.geo, q) && Fresh(d, q) ensures q.b < stable && Good(d, w, r, q) {
      assert Good(d, w, m, q);
    }
  }

  lemma MemGrids(cfg: Geo, w: World, m: Memory)
    requires MemOk(cfg, w, m)
    ensures GeoOk(cfg) && (w.floats || w.ints) && Grid(cfg, m.held) && Grid(cfg, m.scales) && Grid(cfg, m.cache) && Grid(cfg, m.content) && Grid(cfg, m.origin)
  {
    hide MeantBy, Fits, ContentOk, InWorld;
  }

  lemma PutReach(d: Disk, cfg: Geo, w: World, was: Memory, now: Memory, p: Pos, n: nat)
    requires Ok(d) && n <= cfg.maxBlocks && AllReachable(d, true, cfg, was.cache, n) && InTable(cfg, p)
    requires MemOk(cfg, w, was) && MemOk(cfg, w, now)
    requires forall q | InTable(cfg, q) && q != p :: now.held[q.l][q.b] == was.held[q.l][q.b]
    requires now.held[p.l][p.b].Some?
    ensures AllReachable(d, true, cfg, now.cache, n)
  {
    SameHeld(cfg, w, was);
    SameHeld(cfg, w, now);
    MemGrids(cfg, w, was);
    MemGrids(cfg, w, now);
    hide Slots, SlotAt, MemOk;
    forall q: Pos | q.l < cfg.nl && q.b < n ensures q.b < |now.cache[q.l]| && Reachable(d, true, now.cache, q) {
      assert InTable(cfg, q) && Reachable(d, true, was.cache, q);
    }
  }

  ghost predicate ResidentTo(cfg: Geo, cache: seq<Layer>, n: nat, l: nat, b: nat) {
    && |cache| == cfg.nl && n <= cfg.maxBlocks && (forall k | 0 <= k < cfg.nl :: |cache[k]| == cfg.maxBlocks)
    && forall p | InTable(cfg, p) && p.b < n && (p.l < l || (p.l == l && p.b < b)) :: cache[p.l][p.b].Some?
  }

  lemma FewerBlocks(n: nat, m: nat, x: nat, y: nat, bs: nat)
    requires x <= y <= m * bs && (n > 0 ==> (n - 1) * bs < x)
    ensures n <= m
  {
    assert n > m ==> (n - 1) * bs >= m * bs;
  }

  lemma BlockCountMono(x: nat, y: nat, bs: nat)
    requires x <= y
    ensures BlockCount(x, bs) <= BlockCount(y, bs)
  {
    if bs > 0 {
      BlockCountIs(x, bs);
      BlockCountIs(y, bs);
      FewerBlocks(BlockCount(x, bs), BlockCount(y, bs), x, y, bs);
    }
  }

  // ----- the dimensions of rows do not depend on the capacity -----

  lemma SameContent(a: Geo, b: Geo, c: Content)
    requires SameRows(a, b)
    ensures ContentOk(a, c) <==> ContentOk(b, c)
  {}

  lemma SameMeans(a: Geo, b: Geo, h: Held, s: Scales)
    requires SameRows(a, b) && GeoOk(a) && GeoOk(b)
    ensures Sized(a, s) <==> Sized(b, s)
    ensures HeldOk(a, h) <==> HeldOk(b, h)
    ensures Sized(a, s) && HeldOk(a, h) ==> Means(a, h, s) == Means(b, h, s)
  {
    if Sized(a, s) && HeldOk(a, h) && h.OnlyInts? {
      SameRead(a, b, h.q.k, s.k);
      SameRead(a, b, h.q.v, s.v);
    }
  }

  lemma SameRead(a: Geo, b: Geo, q: seq<Ints>, sc: seq<real>)
    requires SameRows(a, b) && GeoOk(a) && GeoOk(b) && IntsOk(a, q) && IntsOk(b, q) && |sc| == ScaleCount(a) == ScaleCount(b)
    ensures ReadInts(a, q, sc) == ReadInts(b, q, sc)
  {
    hide RowBack;
  }

  lemma SameFits(a: Geo, b: Geo, c: Content, s: Scales)
    requires SameRows(a, b) && GeoOk(a) && GeoOk(b)
    ensures Fits(a, c, s) <==> Fits(b, c, s)
  {
    SameAreaFits(a, b, c.k, s.k);
    SameAreaFits(a, b, c.v, s.v);
  }

  lemma SameAreaFits(a: Geo, b: Geo, rows: seq<Group>, sc: seq<real>)
    requires SameRows(a, b) && GeoOk(a) && GeoOk(b)
    ensures AreaFits(a, rows, sc) <==> AreaFits(b, rows, sc)
  {
    hide RowFits64;
    assert RowCount(a) == RowCount(b);
    forall r: nat | r < RowCount(a) ensures Owner(a, r) == Owner(b, r) {}
  }

  lemma SameMeantBy(a: Geo, b: Geo, ram: Ram, sc: seq<Scales>, cache: Layer)
    requires SameRows(a, b) && GeoOk(a) && GeoOk(b) && MeantBy(a, ram, sc, cache)
    ensures MeantBy(b, ram, sc, cache)
  {
    hide Sized, HeldOk, Means;
    forall i | 0 <= i < |ram|
      ensures Sized(b, sc[i]) && (ram[i].Some? ==> HeldOk(b, ram[i].value) && cache[i].value == Means(b, ram[i].value, sc[i]))
    {
      SameMeans(a, b, if ram[i].Some? then ram[i].value else Floats(Content([], [])), sc[i]);
    }
  }

  // ----- the freeing sweep -----

  lemma FreedStart(d: Disk, cfg: Geo, w: World, m: Memory, n: nat)
    requires Ok(d) && SameRows(d.geo, cfg) && n <= d.geo.maxBlocks <= cfg.maxBlocks && MemOk(cfg, w, m)
    ensures FreedTo(d, cfg, m.held, m.held, n, 0, 0) && FreedTo(d, cfg, m.cache, m.cache, n, 0, 0)
  {
    hide MeantBy, Fits, ContentOk, Slots;
  }

  lemma FreedStep<X>(d: Disk, cfg: Geo, was: seq<seq<Maybe<X>>>, now: seq<seq<Maybe<X>>>, n: nat, l: nat, b: nat)
    requires Ok(d) && SameRows(d.geo, cfg) && n <= d.geo.maxBlocks <= cfg.maxBlocks && l < cfg.nl && b < n
    requires FreedTo(d, cfg, was, now, n, l, b)
    ensures l < |now| && b < |now[l]|
    ensures FreedTo(d, cfg, was, if At(d, Pos(l, b)).evict then now[l := now[l][b := None]] else now, n, l, b + 1)
  {
    hide Slots, SlotAt;
  }

  lemma FreedRow<X>(d: Disk, cfg: Geo, was: seq<seq<Maybe<X>>>, now: seq<seq<Maybe<X>>>, n: nat, l: nat)
    requires Ok(d) && SameRows(d.geo, cfg) && n <= d.geo.maxBlocks <= cfg.maxBlocks && FreedTo(d, cfg, was, now, n, l, n)
    ensures FreedTo(d, cfg, was, now, n, l + 1, 0)
  {
    hide Slots, SlotAt;
  }

  lemma FreedRows(d: Disk, cfg: Geo, w: World, was: Memory, now: Memory, n: nat)
    requires Ok(d) && SameRows(d.geo, cfg) && n <= d.geo.maxBlocks <= cfg.maxBlocks && MemOk(cfg, w, was)
    requires FreedTo(d, cfg, was.held, now.held, n, cfg.nl, 0) && FreedTo(d, cfg, was.cache, now.cache, n, cfg.nl, 0)
    requires now == was.(held := now.held, cache := now.cache)
    ensures MemOk(cfg, w, now)
  {
    MemEntries(cfg, w, was);
    MemGrids(cfg, w, was);
    hide Slots, SlotAt, ContentOk, Fits, Means, HeldOk, Sized, InWorld, MemOk;
    FreedGrid(d, cfg, was.held, now.held, n);
    FreedGrid(d, cfg, was.cache, now.cache, n);
    forall p | InTable(cfg, p) ensures EntryOk(cfg, w, now, p) { assert EntryOk(cfg, w, was, p); }
    MemEntries(cfg, w, now);
  }

  lemma FreedGrid<X>(d: Disk, cfg: Geo, was: seq<seq<Maybe<X>>>, now: seq<seq<Maybe<X>>>, n: nat)
    requires Ok(d) && SameRows(d.geo, cfg) && n <= d.geo.maxBlocks <= cfg.maxBlocks && FreedTo(d, cfg, was, now, n, cfg.nl, 0)
    ensures Grid(cfg, now)
    ensures forall p | InTable(cfg, p) :: now[p.l][p.b] == if p.b < n && At(d, p).evict then None else was[p.l][p.b]
  {
    hide Slots, SlotAt;
  }

  /** The freeing sweep drops no block without a fresh payload, and never the last one. */
  lemma FreedReach(d: Disk, cfg: Geo, was: seq<Layer>, now: seq<Layer>, n: nat)
    requires Ok(d) && SameRows(d.geo, cfg) && 0 < n <= d.geo.maxBlocks <= cfg.maxBlocks
    requires FreedTo(d, cfg, was, now, n, cfg.nl, 0) && AllResident(cfg, was, n) && FlaggedHavePayloads(d, n - 1)
    ensures AllReachable(d, true, cfg, now, n) && LastInRam(now, n)
  {
    hide Slots, SlotAt, ContentOk;
    forall p: Pos | p.l < cfg.nl && p.b < n
      ensures p.b < |now[p.l]| && Reachable(d, true, now, p) && (p.b == n - 1 ==> now[p.l][p.b].Some?)
    {
      assert InTable(cfg, p) && InTable(d.geo, p) && Resident(cfg, was[p.l], n);
    }
    forall l | 0 <= l < |now| ensures now[l][n - 1].Some? {
      assert InTable(cfg, Pos(l, n - 1));
    }
  }

  lemma NoBlocks(bs: nat)
    ensures BlockCount(0, bs) == 0
  {
    if bs > 0 { DivUnique(bs - 1, bs, 0, bs - 1); }
  }

  /** A block flagged to leave is below `to` and has a fresh payload. */
  ghost predicate FlaggedHavePayloads(d: Disk, to: nat) {
    Ok(d) && forall p | InTable(d.geo, p) && At(d, p).evict :: p.b < to && Fresh(d, p)
  }

  lemma StableBound(seqLen: nat, bs: nat)
    requires bs > 0 && seqLen > 0
    ensures BlockCount(seqLen, bs) > 0 && BlockCount(seqLen, bs) - 1 <= seqLen / bs
  {
    var n := BlockCount(seqLen, bs);
    BlockCountIs(seqLen, bs);
    assert n == 0 ==> n * bs == 0;
    QuotientAtLeast(seqLen, bs, n - 1);
  }

  lemma QuotientAtLeast(x: nat, bs: nat, k: int)
    requires bs > 0 && k * bs <= x
    ensures k <= x / bs
  {
    var q := x / bs;
    assert k > q ==> k * bs >= (q + 1) * bs;
    assert (q + 1) * bs == q * bs + bs;
  }

  /** The blocks wholly inside the reused rows come before the last block. */
  lemma FullBlocks(keep: nat, seqLen: nat, bs: nat)
    requires bs > 0 && keep < seqLen
    ensures keep / bs <= BlockCount(seqLen, bs) - 1
  {
    var n, q := BlockCount(seqLen, bs), keep / bs;
    BlockCountIs(seqLen, bs);
    assert q >= n ==> q * bs >= n * bs;
  }

  lemma RowsMatch(geo: Geo, cfg: Geo, cache: seq<Layer>, content: seq<seq<Content>>, n: nat)
    requires SameRows(geo, cfg) && geo.maxBlocks <= cfg.maxBlocks && Rows(cfg, cache, content) && AllResident(cfg, cache, n)
    ensures |cache| == |content| == geo.nl
    ensures forall p | InTable(geo, p) :: p.b < |content[p.l]| && ContentOk(geo, content[p.l][p.b])
    ensures forall p | InTable(geo, p) && p.b < n :: p.b < |cache[p.l]| && cache[p.l][p.b] == Some(content[p.l][p.b])
  {
    hide ContentOk;
    forall p | InTable(geo, p)
      ensures p.b < |content[p.l]| && ContentOk(geo, content[p.l][p.b])
      ensures p.b < n ==> p.b < |cache[p.l]| && cache[p.l][p.b] == Some(content[p.l][p.b])
    {
      assert InTable(cfg, p);
      SameContent(geo, cfg, content[p.l][p.b]);
      assert Resident(cfg, cache[p.l], n);
    }
  }

  ghost predicate AllResident(cfg: Geo, cache: seq<Layer>, n: nat) {
    forall l | 0 <= l < |cache| :: Resident(cfg, cache[l], n)
  }

  /** The first l layers and b blocks of the next have been swept. */
  ghost predicate FreedTo<X>(d: Disk, cfg: Geo, was: seq<seq<Maybe<X>>>, now: seq<seq<Maybe<X>>>, n: nat, l: nat, b: nat)
  {
    && Ok(d) && SameRows(d.geo, cfg) && n <= d.geo.maxBlocks <= cfg.maxBlocks && Grid(cfg, was) && Grid(cfg, now)
    && forall p | InTable(cfg, p) :: now[p.l][p.b] ==
         if p.b < n && (p.l < l || (p.l == l && p.b < b)) && At(d, p).evict then None else was[p.l][p.b]
  }

  lemma CoversSame(d: Disk, r: Disk, mem: Maybe<seq<Cell>>, size: nat)
    requires Ok(d) && Ok(r) && SameSlots(d, r) && Covers(d, mem, size)
    ensures Covers(r, mem, size)
  {
    hide Slots, SlotAt, BlockBytes;
  }

  lemma NoSlots(d: Disk)
    requires Ok(d) && d.slot == map[]
    ensures forall p | InTable(d.geo, p) :: !At(d, p).onDisk
  {}

  lemma LayerIsReady(d: Disk, l: nat, cfg: Geo, w: World, m: Memory, seqLen: nat, importance: seq<real>)
    requires Ok(d) && SameRows(d.geo, cfg) && d.geo.maxBlocks <= cfg.maxBlocks && MemOk(cfg, w, m) && l < cfg.nl
    requires FullFits(d.geo) && BlockCount(seqLen, cfg.bs) <= d.geo.maxBlocks && seqLen <= |importance|
    requires AllResident(cfg, m.cache, BlockCount(seqLen, cfg.bs))
    ensures l < |m.cache| == |m.held| == |m.scales|
    ensures LayerReady(d, l, m.cache[l], seqLen, importance) && MeantBy(d.geo, m.held[l], m.scales[l], m.cache[l])
  {
    SameMeantBy(cfg, d.geo, m.held[l], m.scales[l], m.cache[l]);
    hide ContentOk, FullFits, Slots, MeantBy, Fits;
    assert Resident(cfg, m.cache[l], BlockCount(seqLen, cfg.bs));
    forall b | 0 <= b < |m.cache[l]| && m.cache[l][b].Some? ensures ContentOk(d.geo, m.cache[l][b].value) {
      assert InTable(cfg, Pos(l, b));
      SameContent(d.geo, cfg, m.cache[l][b].value);
    }
    forall b | 0 <= b < BlockCount(seqLen, cfg.bs) ensures ContentOk(d.geo, m.cache[l][b].value) {
      SameContent(d.geo, cfg, m.cache[l][b].value);
    }
  }

  /** Every layer's choice of what stays. */
  ghost predicate KeepsChosen(keeps: seq<seq<bool>>, k: nat, n: nat, importance: seq<real>, bs: nat, seqLen: nat, ratio: real) {
    k == |keeps| && (n > 1 ==> forall l | 0 <= l < k :: Chosen(keeps[l], n, importance, bs, seqLen, ratio))
  }

  ghost function InRamOf(cache: Layer, n: nat): (r: set<nat>) {
    set b: nat | b < n && b < |cache| && cache[b].Some?
  }

  /** How many of the n blocks of every layer are in RAM after a round: the count of the ratio, or one more. */
  ghost predicate StaysMany(cache: seq<Layer>, nl: nat, n: nat, ratio: real) {
    && nl == |cache| && n > 0
    && forall l | 0 <= l < nl :: KeepCount(ratio, n) <= |InRamOf(cache[l], n)| <= KeepCount(ratio, n) + 1
  }

  lemma ChosenCount(keep: seq<bool>, n: nat, importance: seq<real>, bs: nat, seqLen: nat, ratio: real)
    requires n > 0 && Chosen(keep, n, importance, bs, seqLen, ratio)
    ensures |keep| == n && keep[n - 1] && KeepCount(ratio, n) <= |Staying(keep)| <= KeepCount(ratio, n) + 1
  {
    var mass: seq<real> :| |mass| == n && Masses(mass, importance, bs, seqLen) && Kept(keep, mass, KeepCount(ratio, n));
    hide KeepCount, Masses;
    StayCount(keep, mass, KeepCount(ratio, n));
  }

  /** The blocks of a layer in RAM after a round are the ones its choice keeps. */
  lemma RoundStays(cfg: Geo, was: Memory, now: Memory, before: Disk, retain: bool, r: Disk, keeps: seq<seq<bool>>, n: nat, full: nat,
                   importance: seq<real>, seqLen: nat, ratio: real)
    requires RoundEffect(cfg, was, now, before, retain, r, keeps, n, full) && n > 0
    requires AllResident(cfg, was.cache, n) && KeepsChosen(keeps, cfg.nl, n, importance, cfg.bs, seqLen, ratio)
    ensures StaysMany(now.cache, cfg.nl, n, ratio)
  {
    hide Ok, Fresh, PayloadAfter, KeepCount, Chosen, Evicts;
    forall l | 0 <= l < cfg.nl ensures KeepCount(ratio, n) <= |InRamOf(now.cache[l], n)| <= KeepCount(ratio, n) + 1 {
      forall b: nat | b < n ensures now.cache[l][b].Some? <==> !Evicts(keeps[l], n, b) {
        assert InTable(cfg, Pos(l, b));
        assert was.cache[l][b].Some?;
      }
      LayerStays(now.cache[l], keeps[l], n, importance, cfg.bs, seqLen, ratio);
    }
  }

  lemma LayerStays(cache: Layer, keep: seq<bool>, n: nat, importance: seq<real>, bs: nat, seqLen: nat, ratio: real)
    requires 0 < n <= |cache| && (n > 1 ==> Chosen(keep, n, importance, bs, seqLen, ratio))
    requires forall b: nat | b < n :: cache[b].Some? <==> !Evicts(keep, n, b)
    ensures KeepCount(ratio, n) <= |InRamOf(cache, n)| <= KeepCount(ratio, n) + 1
  {
    hide Chosen;
    if n > 1 {
      ChosenCount(keep, n, importance, bs, seqLen, ratio);
      assert InRamOf(cache, n) == Staying(keep);
    } else {
      assert InRamOf(cache, 1) == {0};
    }
  }

  /** One more layer joins the round; a layer that packs nothing leaves the slots alone. */
  lemma RoundNext(d: Disk, m: Disk, r: Disk, keeps: seq<seq<bool>>, keep: seq<bool>, cache: seq<Layer>, l: nat,
                  seqLen: nat, importance: seq<real>, ratio: real, did: nat)
    requires Ok(r) && l < d.geo.nl && l < |cache| && Decisions(d, m, keeps, BlockCount(seqLen, d.geo.bs), cache, l)
    requires LayerReady(m, l, cache[l], seqLen, importance)
    requires LayerRound(m, r, l, keep, cache[l], seqLen, importance, ratio, did)
    requires NoneFlagged(d)
    ensures Decisions(d, r, keeps + [keep], BlockCount(seqLen, d.geo.bs), cache, l + 1)
    ensures did == 0 ==> SlotsKept(m, r)
    ensures KeepsChosen(keeps, l, BlockCount(seqLen, d.geo.bs), importance, d.geo.bs, seqLen, ratio)
            ==> KeepsChosen(keeps + [keep], l + 1, BlockCount(seqLen, d.geo.bs), importance, d.geo.bs, seqLen, ratio)
  {
    hide Slots, Payload, Packed, ContentOk, LayerRun, Settled, Untouched, Repacks, FullFits, Chosen;
    var n := BlockCount(seqLen, d.geo.bs);
    if n <= 1 {
      assert forall p | InTable(d.geo, p) && p.l == l :: !At(m, p).evict by {
        forall p | InTable(d.geo, p) && p.l == l ensures !At(m, p).evict {
          StillClear(d, m, p);
        }
      }
      IdleLayer(m, l, keep, n, cache[l]);
      FlagsStart(m);
    } else {
      LayerRunSpec(m, l, keep, n, cache[l], n);
      if did == 0 { QuietLayer(m, l, keep, n, cache[l], n); }
    }
    RoundStep(d, m, r, keeps, keep, n, cache, l);
  }

  lemma SlotsTrans(d: Disk, m: Disk, r: Disk)
    requires SlotsKept(d, m) && SlotsKept(m, r)
    ensures SlotsKept(d, r)
  {
    hide Slots, SlotAt;
  }

  lemma StillClear(d: Disk, m: Disk, p: Pos)
    requires Ok(d) && Ok(m) && m.geo == d.geo && InTable(d.geo, p) && Untouched(d, m, p) && !At(d, p).evict
    ensures !At(m, p).evict
  {}

  ghost predicate NoneFlagged(d: Disk) {
    Shape(d) && forall p | InTable(d.geo, p) :: !At(d, p).evict
  }

  /** Where a round starts: the sequence in RAM and nothing flagged. */
  ghost predicate RoundFrom(d: Disk, cache: seq<Layer>, content: seq<seq<Content>>, n: nat, full: nat) {
    && Ok(d) && |cache| == |content| == d.geo.nl && 0 < n <= d.geo.maxBlocks && full <= n - 1
    && NoneFlagged(d) && (forall p | InTable(d.geo, p) && Fresh(d, p) :: p.b < full)
    && (forall p | InTable(d.geo, p) :: p.b < |content[p.l]| && ContentOk(d.geo, content[p.l][p.b]))
    && (forall p | InTable(d.geo, p) && p.b < n :: p.b < |cache[p.l]| && cache[p.l][p.b] == Some(content[p.l][p.b]))
  }

  /** The payloads recorded after a round: a block packed in it was packed from its current rows. */
  ghost function RepackedOrigin(cfg: Geo, d: Disk, m: Memory, keeps: seq<seq<bool>>, n: nat): (r: seq<seq<Content>>)
    requires Shape(d) && d.geo.nl == cfg.nl && n <= d.geo.maxBlocks && |keeps| == cfg.nl
    requires Grid(cfg, m.content) && Grid(cfg, m.origin)
    ensures Grid(cfg, r)
  {
    seq(cfg.nl, l requires 0 <= l < cfg.nl => seq(cfg.maxBlocks, b requires 0 <= b < cfg.maxBlocks =>
      if b < n && Evicts(keeps[l], n, b) && !Fresh(d, Pos(l, b)) then m.content[l][b] else m.origin[l][b]))
  }

  /** Only the records changed, and as the round says. */
  ghost predicate Recorded(cfg: Geo, d: Disk, was: Memory, now: Memory, keeps: seq<seq<bool>>, n: nat) {
    && Shape(d) && d.geo.nl == cfg.nl && n <= d.geo.maxBlocks && |keeps| == cfg.nl
    && Grid(cfg, was.content) && Grid(cfg, was.origin) && now == was.(origin := RepackedOrigin(cfg, d, was, keeps, n))
  }

  lemma RecordedSame(cfg: Geo, d: Disk, was: Memory, now: Memory, keeps: seq<seq<bool>>, n: nat)
    requires Recorded(cfg, d, was, now, keeps, n)
    ensures now.held == was.held && now.scales == was.scales && now.cache == was.cache && now.content == was.content
  {}

  /** The decisions of the first k layers. */
  ghost predicate Decisions(d: Disk, r: Disk, keeps: seq<seq<bool>>, n: nat, cache: seq<Layer>, k: nat) {
    && Ok(d) && Ok(r) && r.geo == d.geo && k == |keeps| && k <= |cache| && k <= d.geo.nl && n <= d.geo.maxBlocks
    && RoundSettled(d, r, keeps, n, cache, k)
  }

  ghost predicate SlotsKept(d: Disk, r: Disk) {
    Ok(d) && Ok(r) && SameSlots(d, r)
  }

  /** After a round a flagged block has a fresh payload, and if the fresh payloads were good they still are. */
  lemma RoundKeeps(cfg: Geo, w: World, d: Disk, r: Disk, keeps: seq<seq<bool>>, n: nat, m: Memory, full: nat)
    requires RoundFrom(d, m.cache, m.content, n, full) && Decisions(d, r, keeps, n, m.cache, cfg.nl)
    requires MemOk(cfg, w, m) && SameRows(d.geo, cfg) && d.geo.maxBlocks <= cfg.maxBlocks
    ensures FlaggedHavePayloads(r, n - 1)
    ensures forall next | Recorded(cfg, d, m, next, keeps, n) && AllGood(d, w, m, full) :: AllGood(r, w, next, n - 1)
  {
    MemGrids(cfg, w, m);
    var next := m.(origin := RepackedOrigin(cfg, d, m, keeps, n));
    hide Slots, MemOk, ContentOk, Good;
    forall p | InTable(d.geo, p)
      ensures At(r, p).evict ==> p.b < n - 1 && Fresh(r, p)
      ensures AllGood(d, w, m, full) && Fresh(r, p) ==> p.b < n - 1 && Good(r, w, next, p)
    {
      assert InTable(cfg, p);
      if p.b < n {
        assert Settled(d, r, p, Evicts(keeps[p.l], n, p.b), m.cache[p.l][p.b].value);
        if Fresh(d, p) {
          if AllGood(d, w, m, full) && Fresh(r, p) { GoodStays(d, r, w, m, next, p); }
        } else {
          if Evicts(keeps[p.l], n, p.b) { NewlyGood(cfg, w, d, r, m, next, p); }
        }
      } else {
        assert Untouched(d, r, p);
      }
    }
  }

  lemma RecordFits(cfg: Geo, w: World, m: Memory, d: Disk, keeps: seq<seq<bool>>, n: nat, r: Disk)
    requires MemOk(cfg, w, m) && Decisions(d, r, keeps, n, m.cache, cfg.nl) && SameRows(d.geo, cfg)
    ensures Shape(d) && d.geo.nl == cfg.nl && n <= d.geo.maxBlocks && |keeps| == cfg.nl
    ensures Grid(cfg, m.content) && Grid(cfg, m.origin)
  {
    MemGrids(cfg, w, m);
  }

  lemma GoodStays(d: Disk, r: Disk, w: World, m: Memory, next: Memory, p: Pos)
    requires Ok(d) && Ok(r) && r.geo == d.geo && InTable(d.geo, p) && At(d, p).onDisk && At(r, p).onDisk
    requires Payload(r, p) == Payload(d, p) && Good(d, w, m, p) && next == m.(origin := next.origin)
    requires |next.origin| == |m.origin| && (p.l < |m.origin| ==> p.b < |next.origin[p.l]|)
    requires p.l < |m.origin| && p.b < |m.origin[p.l]| ==> next.origin[p.l][p.b] == m.origin[p.l][p.b]
    ensures Good(r, w, next, p)
  {
    hide Slots, Payload, AkinRows, Packed, ContentOk;
  }

  lemma NewlyGood(cfg: Geo, w: World, d: Disk, r: Disk, m: Memory, next: Memory, p: Pos)
    requires Ok(d) && Ok(r) && r.geo == d.geo && InTable(d.geo, p) && At(r, p).onDisk && MemOk(cfg, w, m) && InTable(cfg, p)
    requires SameRows(d.geo, cfg) && ContentOk(d.geo, m.content[p.l][p.b]) && Payload(r, p) == Packed(d.geo, m.content[p.l][p.b])
    requires next == m.(origin := next.origin) && Grid(cfg, next.origin) && next.origin[p.l][p.b] == m.content[p.l][p.b]
    ensures Good(r, w, next, p)
  {
    MemEntries(cfg, w, m);
    MemGrids(cfg, w, m);
    hide Slots, Payload, Packed, ContentOk, MemOk, Fits, Sized, HeldOk, Means;
    assert EntryOk(cfg, w, m, p);
    SameMeans(d.geo, cfg, Floats(Content([], [])), m.scales[p.l][p.b]);
    SameFits(d.geo, cfg, m.content[p.l][p.b], m.scales[p.l][p.b]);
  }

  lemma SameGood(d: Disk, w: World, m: Memory, now: Memory, stable: nat)
    requires Ok(d) && AllGood(d, w, m, stable) && now == m.(held := now.held, cache := now.cache)
    ensures AllGood(d, w, now, stable)
  {
    hide Slots, Payload, Packed, AkinRows, Faithful;
    forall p | InTable(d.geo, p) && Fresh(d, p) ensures p.b < stable && Good(d, w, now, p) { assert Good(d, w, m, p); }
  }

  /** The marked state: of a carried-on file the fresh payloads below `full`, of a new file none. */
  ghost predicate Carried(before: Disk, d: Disk, retain: bool, full: nat) {
    && Ok(d) && (retain ==> Ok(before) && before.geo == d.geo)
    && forall p | InTable(d.geo, p) ::
         && (Fresh(d, p) <==> retain && p.b < full && Fresh(before, p))
         && (Fresh(d, p) ==> Payload(d, p) == Payload(before, p))
  }

  /**
   What a round does. A block is out of RAM exactly if its layer's choice evicts it; everything else
   stays. An evicted block has a fresh payload: its old one if that was carried over, and otherwise
   the packing of its rows.
   */
  ghost predicate RoundEffect(cfg: Geo, was: Memory, now: Memory, before: Disk, retain: bool, r: Disk,
                              keeps: seq<seq<bool>>, n: nat, full: nat) {
    && Ok(r) && r.geo.nl == cfg.nl == |keeps| && n <= r.geo.maxBlocks <= cfg.maxBlocks && (retain ==> Ok(before) && before.geo == r.geo)
    && Grid(cfg, was.held) && Grid(cfg, now.held) && Grid(cfg, was.cache) && Grid(cfg, now.cache)
    && Grid(cfg, was.content) && Grid(cfg, was.origin) && Grid(cfg, now.origin)
    && now.content == was.content && now.scales == was.scales
    && (forall p | InTable(cfg, p) ::
          var out := p.b < n && Evicts(keeps[p.l], n, p.b);
          && now.held[p.l][p.b] == (if out then None else was.held[p.l][p.b])
          && now.cache[p.l][p.b] == (if out then None else was.cache[p.l][p.b])
          && (out ==> InTable(r.geo, p) && Fresh(r, p) && PayloadAfter(was, now, before, retain, r, full, p)))
  }

  ghost predicate PayloadAfter(was: Memory, now: Memory, before: Disk, retain: bool, r: Disk, full: nat, p: Pos)
    requires Ok(r) && InTable(r.geo, p) && Fresh(r, p) && (retain ==> Ok(before) && before.geo == r.geo)
    requires p.l < |was.content| == |was.origin| == |now.origin|
    requires p.b < |was.content[p.l]| && p.b < |was.origin[p.l]| && p.b < |now.origin[p.l]|
  {
    if retain && p.b < full && Fresh(before, p)
    then Payload(r, p) == Payload(before, p) && now.origin[p.l][p.b] == was.origin[p.l][p.b]
    else && ContentOk(r.geo, was.content[p.l][p.b]) && Payload(r, p) == Packed(r.geo, was.content[p.l][p.b])
         && now.origin[p.l][p.b] == was.content[p.l][p.b]
  }

  lemma EffectIs(cfg: Geo, was: Memory, packed: Memory, now: Memory, before: Disk, retain: bool, d: Disk, r: Disk, keeps: seq<seq<bool>>, n: nat, full: nat)
    requires Ok(d) && Ok(r) && r.geo == d.geo && SameRows(d.geo, cfg) && n <= d.geo.maxBlocks <= cfg.maxBlocks && |keeps| == cfg.nl
    requires Carried(before, d, retain, full) && RoundFrom(d, was.cache, was.content, n, full)
    requires Decisions(d, r, keeps, n, was.cache, cfg.nl) && Recorded(cfg, d, was, packed, keeps, n)
    requires now == packed.(held := now.held, cache := now.cache)
    requires FreedTo(r, cfg, packed.held, now.held, n, cfg.nl, 0) && FreedTo(r, cfg, packed.cache, now.cache, n, cfg.nl, 0)
    ensures RoundEffect(cfg, was, now, before, retain, r, keeps, n, full)
  {
    hide Slots, Payload, Packed, ContentOk, FreedTo;
    FreedGrid(r, cfg, was.held, now.held, n);
    FreedGrid(r, cfg, was.cache, now.cache, n);
    FreedFrom(r, cfg, was.held, now.held, n);
    FreedFrom(r, cfg, was.cache, now.cache, n);
    forall p | InTable(cfg, p)
      ensures var out := p.b < n && Evicts(keeps[p.l], n, p.b);
          && now.held[p.l][p.b] == (if out then None else was.held[p.l][p.b])
          && now.cache[p.l][p.b] == (if out then None else was.cache[p.l][p.b])
          && (out ==> InTable(r.geo, p) && Fresh(r, p) && PayloadAfter(was, now, before, retain, r, full, p))
    {
      if p.b < n {
        assert InTable(d.geo, p);
        assert Settled(d, r, p, Evicts(keeps[p.l], n, p.b), was.cache[p.l][p.b].value);
      }
    }
  }

  lemma FreedFrom<X>(d: Disk, cfg: Geo, was: seq<seq<Maybe<X>>>, now: seq<seq<Maybe<X>>>, n: nat)
    requires Ok(d) && SameRows(d.geo, cfg) && n <= d.geo.maxBlocks <= cfg.maxBlocks && FreedTo(d, cfg, was, now, n, cfg.nl, 0)
    ensures Grid(cfg, was)
  {}

}
