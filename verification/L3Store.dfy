/** The eviction state: the open file, the block table, the cursor and the RAM mirror. */
module L3Store {
  import opened Residues
  import opened L3Quant
  import opened L3Layout
  import opened L3Int8
  import opened L3Copy
  import opened L3Disk
  import opened L3Pick
  import opened L3Evict
  import Bytes

  const PATH_MAX: nat := 255

  function LE(x: nat, bytes: nat): (r: seq<Cell>)
    ensures |r| == bytes
  {
    if bytes == 0 then [] else [Byte(x % 256)] + LE(x / 256, bytes - 1)
  }

  function HeaderCells(geo: Geo): (r: seq<Cell>)
    ensures |r| == HEADER
  {
    LE(MAGIC, 4) + LE(1, 4) + LE(geo.nl, 4) + LE(geo.nkv, 4) + LE(geo.hd, 4) + LE(geo.bs, 4)
    + LE(geo.maxBlocks, 4) + LE(BlockBytes(geo), 8) + LE(0, 28)
  }

  /** What a header field reads as, the first byte the least significant. */
  function FromLE(c: seq<Cell>): (v: nat) {
    if c == [] then 0 else (if c[0].Byte? then c[0].b else 0) + 256 * FromLE(c[1..])
  }

  lemma {:induction false} LEReads(x: nat, bytes: nat)
    ensures FromLE(LE(x, bytes)) == x % Bytes.Limit(bytes)
  {
    if bytes > 0 {
      LEReads(x / 256, bytes - 1);
      assert LE(x, bytes)[1..] == LE(x / 256, bytes - 1);
      Bytes.Digit(x, Bytes.Limit(bytes - 1));
    }
  }

  /** The header says what the file is and how it is laid out: four-byte fields, and the block size in eight bytes. */
  lemma HeaderReads(geo: Geo)
    ensures var h := HeaderCells(geo);
            && FromLE(h[0..4]) == MAGIC && FromLE(h[4..8]) == 1
            && FromLE(h[8..12]) == geo.nl % U32 && FromLE(h[12..16]) == geo.nkv % U32 && FromLE(h[16..20]) == geo.hd % U32
            && FromLE(h[20..24]) == geo.bs % U32 && FromLE(h[24..28]) == geo.maxBlocks % U32
            && FromLE(h[28..36]) == BlockBytes(geo) % U64
  {
    FieldsAt(geo);
    hide HeaderCells, LE, FromLE, BlockBytes;
    WordField(MAGIC);
    WordField(1);
    WordField(geo.nl);
    WordField(geo.nkv);
    WordField(geo.hd);
    WordField(geo.bs);
    WordField(geo.maxBlocks);
    LEReads(BlockBytes(geo), 8);
    Widths();
    hide *;
  }

  lemma WordField(x: nat)
    ensures FromLE(LE(x, 4)) == x % U32
    ensures x < U32 ==> FromLE(LE(x, 4)) == x
  {
    LEReads(x, 4);
    Widths();
  }

  lemma FieldsAt(geo: Geo)
    ensures var h := HeaderCells(geo);
            && h[0..4] == LE(MAGIC, 4) && h[4..8] == LE(1, 4) && h[8..12] == LE(geo.nl, 4) && h[12..16] == LE(geo.nkv, 4)
            && h[16..20] == LE(geo.hd, 4) && h[20..24] == LE(geo.bs, 4) && h[24..28] == LE(geo.maxBlocks, 4)
            && h[28..36] == LE(BlockBytes(geo), 8)
  {
    hide LE, BlockBytes;
  }

  lemma Widths()
    ensures Bytes.Limit(4) == U32 && Bytes.Limit(8) == U64
  {
    assert Bytes.Limit(2) == 0x1_0000 && Bytes.Limit(4) == 0x1_0000_0000 && Bytes.Limit(6) == 0x1_0000_0000_0000;
  }

  function Clipped(path: string): (r: string)
    ensures r <= path && |r| <= PATH_MAX && (r == path || |r| == PATH_MAX)
  {
    if |path| > PATH_MAX then path[..PATH_MAX] else path
  }

  class State {
    var open: bool
    var file: seq<Cell>
    var geo: Geo
    var blocks: seq<seq<Block>>
    var evicted: nat
    var wcursor: nat
    var mem: Maybe<seq<Cell>>
    var memSize: nat
    var path: string
    ghost var slot: map<Pos, nat>

    ghost function View(): Disk
      reads this
    {
      Disk(geo, blocks, file, wcursor, slot)
    }

    /** The mirror and the path: what evicting leaves alone. */
    ghost function Aside(): (Maybe<seq<Cell>>, nat, string)
      reads this
    {
      (mem, memSize, path)
    }

    /** While the file is open its slots are in order, and the readable mirror fits its buffer. */
    ghost predicate Valid()
      reads this
    {
      && (open ==> Ok(View()) && |slot| <= evicted)
      && memSize <= (if mem.Some? then |mem.value| else 0)
    }

    /** The readable mirror is the file's own bytes and covers every block on disk. */
    ghost predicate Mirrored()
      reads this
    {
      Valid() && open && Covers(View(), mem, memSize)
    }

    constructor ()
      ensures Valid() && !open && mem.None? && evicted == 0
    {
      open, file, geo, blocks, evicted, wcursor := false, [], Geo(0, 0, 0, 0, 0), [], 0, 0;
      mem, memSize, path, slot := None, 0, "", map[];
    }

    /** Opens an empty file for a geometry; a mirror handed back is kept, but nothing in it is readable. */
    method Init(p: Maybe<string>, g: Geo, mirror: Maybe<seq<Cell>>, opens: bool) returns (ok: bool)
      modifies this
      ensures ok <==> p.Some? && GeoOk(g) && opens
      ensures Valid() && open == ok && memSize == 0 && evicted == 0
      ensures ok ==> mem == mirror && geo == g && path == Clipped(p.value) && file == HeaderCells(g)
      ensures ok ==> slot == map[] && wcursor == HEADER && blocks == seq(g.nl, _ => seq(g.maxBlocks, _ => Free))
      ensures !ok ==> mem == None
    {
      hide Ok, HeaderCells;
      open, file, geo, blocks, evicted, wcursor := false, [], Geo(0, 0, 0, 0, 0), [], 0, 0;
      mem, memSize, path, slot := mirror, 0, "", map[];
      if p.None? || !GeoOk(g) || !opens {
        mem := None;
        return false;
      }
      open, geo, path, wcursor := true, g, Clipped(p.value), HEADER;
      blocks := seq(g.nl, _ => seq(g.maxBlocks, _ => Free));
      file := HeaderCells(g);
      ok := true;
      EmptyOk(View());
    }

    /** Closes the file and hands the mirror's buffer to the caller. */
    method Rewind() returns (mirror: Maybe<seq<Cell>>)
      modifies this
      ensures Valid() && !open && mem.None? && evicted == 0 && mirror == old(mem)
    {
      open, blocks, evicted := false, [], 0;
      mirror := mem;
      mem, memSize := None, 0;
    }

    method Close()
      modifies this
      ensures Valid() && !open && mem.None? && evicted == 0
    {
      open, blocks, evicted := false, [], 0;
      mem, memSize := None, 0;
    }

    /** Whether the open state can carry on for this path and geometry. */
    function Matches(p: Maybe<string>, g: Geo): (r: bool)
      reads this
      ensures r <==> open && mem.Some? && geo == g && p == Some(path) && path != ""
    {
      open && mem.Some? && geo == g && p.Some? && p.value != "" && path != "" && path == p.value
    }

    /** The block exists, is resident, and has a slot or room for one below 2^64. */
    ghost predicate Evictable(layer: int, block: int, cache: Layer)
      requires Valid() && |cache| >= geo.maxBlocks
      reads this
    {
      && open && 0 <= layer < geo.nl && 0 <= block < geo.maxBlocks && cache[block].Some?
      && (At(View(), Pos(layer, block)).onDisk || wcursor + BlockBytes(geo) < U64)
    }

    /**
     Packs one resident block and writes it to its slot, a new one unless it has one. The block may
     hold float rows or int8 rows with their scales; `cache` is what they stand for.
     */
    method EvictBlock(layer: int, block: int, ram: Ram, sc: seq<Scales>, ghost cache: Layer) returns (ok: bool)
      requires Valid() && |cache| >= geo.maxBlocks && (open ==> MeantBy(geo, ram, sc, cache))
      modifies this
      ensures Valid() && open == old(open) && Aside() == old(Aside())
      ensures ok <==> old(Evictable(layer, block, cache))
      ensures !ok ==> View() == old(View()) && evicted == old(evicted)
      ensures ok ==> View() == Stored(old(View()), Pos(layer, block), Packed(old(geo), cache[block].value))
      ensures ok ==> evicted == old(evicted) + 1
    {
      hide Slots, BlockBytes, SlotAt, Packed, Write, HeldOk, Means, Sized;
      if !open || layer < 0 || block < 0 || layer >= geo.nl || block >= geo.maxBlocks { return false; }
      assert |ram| == |sc| == |cache| && (ram[block].Some? <==> cache[block].Some?);
      if ram[block].None? { return false; }
      ghost var d := View();
      ghost var p := Pos(layer, block);
      var bm := blocks[layer][block];
      var base;
      if bm.onDisk {
        base := bm.off;
        SlotInFile(d, p);
      } else {
        base := wcursor;
        if wcursor > U64 - 1 - BlockBytes(geo) { return false; }
        wcursor := wcursor + BlockBytes(geo);
        slot := slot[p := |slot|];
      }
      assert HeldOk(geo, ram[block].value) && Sized(geo, sc[block]);
      var blk := PackBlock(geo, ram[block].value, sc[block]);
      file := Write(file, base, blk);
      blocks := Set(blocks, Pos(layer, block), bm.(onDisk := true, stale := false, off := base));
      evicted := evicted + 1;
      ok := true;
      assert View() == Stored(d, p, blk);
      StoredOk(d, p, blk);
    }

    method SetEvict(p: Pos, e: bool)
      requires Valid() && open && InTable(geo, p)
      modifies this
      ensures Valid() && open && Aside() == old(Aside()) && evicted == old(evicted)
      ensures View() == Flagged(old(View()), p, e)
    {
      hide Slots, BlockBytes, SlotAt, Payload;
      FlaggedOk(View(), p, e);
      blocks := Set(blocks, p, blocks[p.l][p.b].(evict := e));
    }

    /** The decision on one block; a repacked block always finds its slot. */
    method EvictStep(layer: nat, b: nat, ram: Ram, sc: seq<Scales>, n: nat, keep: seq<bool>, ghost cache: Layer, ghost d: Disk)
      returns (did: nat)
      requires Valid() && open && RunReady(d, layer, cache, n, keep) && b < n && geo == d.geo && MeantBy(geo, ram, sc, cache)
      requires View() == LayerRun(d, layer, keep, n, cache, b)
      modifies this
      ensures Valid() && open && Aside() == old(Aside())
      ensures View() == LayerRun(d, layer, keep, n, cache, b + 1)
      ensures did == if Evicts(keep, n, b) && !Fresh(d, Pos(layer, b)) then 1 else 0
    {
      hide Slots, BlockBytes, SlotAt, Payload, ContentOk, Packed, LayerRun, FullFits, Stored, MeantBy;
      ghost var p := Pos(layer, b);
      StepFacts(d, layer, keep, n, cache, b);
      ghost var before := View();
      assert At(before, p) == At(d, p);
      did := 0;
      if b >= n - 1 || keep[b] {
        SetEvict(Pos(layer, b), false);
        return;
      }
      SetEvict(Pos(layer, b), true);
      if blocks[layer][b].onDisk && !blocks[layer][b].stale { return; }
      RoomLeft(View(), p, cache[b].value);
      var ok := EvictBlock(layer, b, ram, sc, cache);
      if ok { did := 1; }
    }

    method RunLayer(layer: nat, ram: Ram, sc: seq<Scales>, n: nat, keep: seq<bool>, ghost cache: Layer) returns (packed: nat)
      requires Valid() && open && RunReady(View(), layer, cache, n, keep) && MeantBy(geo, ram, sc, cache)
      modifies this
      ensures Valid() && open && Aside() == old(Aside())
      ensures LayerDone(old(View()), View(), layer, keep, n, cache, n, packed)
    {
      ghost var d := View();
      LayerStart(d, layer, keep, n, cache);
      hide RunReady, LayerDone, Ok, MeantBy;
      packed := 0;
      for b := 0 to n
        invariant Valid() && open && Aside() == old(Aside())
        invariant LayerDone(d, View(), layer, keep, n, cache, b, packed)
      {
        LayerUnfold(d, View(), layer, keep, n, cache, b, packed);
        var did := EvictStep(layer, b, ram, sc, n, keep, cache, d);
        LayerFold(d, View(), layer, keep, n, cache, b, packed, did);
        packed := packed + did;
      }
    }

    /** One layer's round: the cold blocks leave, packed unless their payload is still good. */
    method EvictLayer(layer: nat, ram: Ram, sc: seq<Scales>, seqLen: nat, importance: seq<real>, ratio: real, ghost cache: Layer)
      returns (packed: nat, ghost keep: seq<bool>)
      requires Valid() && open && LayerReady(View(), layer, cache, seqLen, importance) && MeantBy(geo, ram, sc, cache)
      modifies this
      ensures Valid() && open && Aside() == old(Aside())
      ensures LayerRound(old(View()), View(), layer, keep, cache, seqLen, importance, ratio, packed)
    {
      ghost var d := View();
      assert d.geo == geo;
      hide *;
      packed, keep := 0, [];
      var n := BlockCount(seqLen, geo.bs);
      RoundSizes(d, layer, cache, seqLen, importance, ratio);
      if seqLen == 0 || n <= 1 { return; }
      var stay, mass := PickBlocks(n, seqLen, importance, ratio, geo.bs);
      ChosenBy(d, stay, mass, n, importance, seqLen, ratio, layer, cache);
      keep := stay;
      packed := RunLayer(layer, ram, sc, n, stay, cache);
      RoundDone(d, View(), layer, keep, cache, seqLen, importance, ratio, packed);
    }

    /** The per-round flag is cleared everywhere, the blocks beyond the sequence included. */
    method ClearEvict()
      requires Valid() && open
      modifies this
      ensures Valid() && open && Aside() == old(Aside()) && evicted == old(evicted)
      ensures Cleared(old(View()), View())
    {
      ghost var d := View();
      FlagsStart(d);
      hide Slots, SlotAt, BlockBytes, Payload;
      for l := 0 to geo.nl
        invariant Valid() && open && Aside() == old(Aside()) && evicted == old(evicted)
        invariant SameSlots(d, View()) && ClearedTo(d, View(), l, 0)
      {
        for b := 0 to geo.maxBlocks
          invariant Valid() && open && Aside() == old(Aside()) && evicted == old(evicted)
          invariant SameSlots(d, View()) && ClearedTo(d, View(), l, b)
        {
          ghost var m := View();
          SetEvict(Pos(l, b), false);
          FlaggedOk(m, Pos(l, b), false);
        }
      }
    }

    /** Blocks from `from` on may have been rewritten: a payload they have is no longer good. */
    method MarkStale(from: nat)
      requires Valid() && open
      modifies this
      ensures Valid() && open && Aside() == old(Aside()) && evicted == old(evicted)
      ensures Staled(old(View()), View(), from)
    {
      ghost var d := View();
      FlagsStart(d);
      hide Slots, SlotAt, BlockBytes, Payload;
      for l := 0 to geo.nl
        invariant Valid() && open && Aside() == old(Aside()) && evicted == old(evicted)
        invariant SameSlots(d, View()) && StaledTo(d, View(), from, l, 0)
      {
        StaleRow(from, l, d);
      }
    }

    method StaleRow(from: nat, l: nat, ghost d: Disk)
      requires Valid() && open && l < geo.nl && Ok(d) && Shape(d) && geo == d.geo
      requires SameSlots(d, View()) && StaledTo(d, View(), from, l, 0)
      modifies this
      ensures Valid() && open && Aside() == old(Aside()) && evicted == old(evicted) && geo == d.geo
      ensures SameSlots(d, View()) && StaledTo(d, View(), from, l + 1, 0)
    {
      hide Slots, SlotAt, BlockBytes, Payload;
      var b := from;
      while b < geo.maxBlocks
        invariant Valid() && open && Aside() == old(Aside()) && evicted == old(evicted)
        invariant SameSlots(d, View()) && StaledTo(d, View(), from, l, b)
      {
        if blocks[l][b].onDisk { SetStale(Pos(l, b)); }
        b := b + 1;
      }
    }

    method SetStale(p: Pos)
      requires Valid() && open && InTable(geo, p)
      modifies this
      ensures Valid() && open && Aside() == old(Aside()) && evicted == old(evicted)
      ensures SameSlots(old(View()), View())
      ensures OneStale(old(View()), View(), p)
    {
      hide Slots, SlotAt, BlockBytes, Payload;
      ghost var d := View();
      SetTable(geo, blocks, p, blocks[p.l][p.b].(stale := true));
      blocks := Set(blocks, p, blocks[p.l][p.b].(stale := true));
      SameSlotsOk(d, View());
    }

    // ----- the mirror -----

    /** The end of the highest slot on disk. */
    method Extent() returns (extent: nat)
      requires Valid() && open
      ensures extent <= |file|
      ensures forall p | InTable(geo, p) && At(View(), p).onDisk :: 0 < At(View(), p).off + BlockBytes(geo) <= extent
    {
      hide Slots, SlotAt, BlockBytes;
      extent := 0;
      ghost var d := View();
      for l := 0 to geo.nl
        invariant extent <= |file|
        invariant forall p | InTable(geo, p) && p.l < l && At(d, p).onDisk :: 0 < At(d, p).off + BlockBytes(geo) <= extent
      {
        for b := 0 to geo.maxBlocks
          invariant extent <= |file|
          invariant forall p | InTable(geo, p) && (p.l < l || (p.l == l && p.b < b)) && At(d, p).onDisk ::
                      0 < At(d, p).off + BlockBytes(geo) <= extent
        {
          if blocks[l][b].onDisk {
            SlotInFile(d, Pos(l, b));
            var end := blocks[l][b].off + BlockBytes(geo);
            if end > extent { extent := end; }
          }
        }
      }
    }

    /** Reads the file's written extent into the mirror, keeping a buffer that is large enough. */
    method LoadToMem()
      requires Valid()
      modifies this
      ensures Valid() && open == old(open) && View() == old(View()) && path == old(path) && evicted == old(evicted)
      ensures if old(open) then Mirrored() else mem == old(mem) && memSize == old(memSize)
      ensures old(mem).Some? && old(open) && |old(mem).value| >= memSize ==> mem.Some? && |mem.value| == |old(mem).value|
    {
      if !open { return; }
      var extent := Extent();
      hide Ok, BlockBytes;
      if extent == 0 {
        memSize := 0;
        return;
      }
      var buf: seq<Cell> := [];
      if mem.None? || |mem.value| < extent {
        buf := FreshBuffer(extent + extent / 4 + 4 * BlockBytes(geo));
      } else {
        buf := mem.value;
      }
      mem := Some(file[..extent] + buf[extent..]);
      memSize := extent;
      assert mem.value[..extent] == file[..extent];
    }

    /** The row a pointer into the mirror shows: no file access. */
    method PayloadAt(p: Pos, head: nat, token: nat, area: nat) returns (r: Maybe<seq<Cell>>)
      requires Valid() && open && InTable(geo, p) && area < 2 && head < geo.nkv && token < geo.bs
      ensures r == None <==> !At(View(), p).onDisk || mem.None?
                             || At(View(), p).off + Offset(geo, area, head, token, 0) + Groups(geo) * PAYLOAD > memSize
      ensures Mirrored() && At(View(), p).onDisk ==>
                r == Some(RowCells(geo, Payload(View(), p), area, head, token))
    {
      if !blocks[p.l][p.b].onDisk || mem.None? {
        if blocks[p.l][p.b].onDisk { NoMirror(View(), p, mem, memSize); }
        return None;
      }
      hide Ok, Payload, BlockBytes, Covers, Offset;
      var off := blocks[p.l][p.b].off + Offset(geo, area, head, token, 0);
      var len := Groups(geo) * PAYLOAD;
      RowSlice(View(), p, mem, memSize, area, head, token);
      if off + len > memSize { return None; }
      r := Some(mem.value[off..off + len]);
    }

    /** There is a mirror, and its readable part ends before so many bytes of the block. */
    ghost predicate Beyond(p: Pos, len: nat)
      requires Valid() && open && InTable(geo, p)
      reads this
    {
      mem.Some? && At(View(), p).off + len > memSize
    }

    /** One head's chunk of a block, from the mirror or straight from the file. */
    method FetchBlockArea(p: Pos, head: nat, area: nat) returns (r: Maybe<seq<Cell>>)
      requires Valid() && open && InTable(geo, p) && area < 2 && head < geo.nkv
      ensures r == None <==> !At(View(), p).onDisk || Beyond(p, Offset(geo, area, head, 0, 0) + PerHead(geo) * PAYLOAD)
      ensures (Mirrored() || mem.None?) && At(View(), p).onDisk ==>
                r == Some(HeadCells(geo, Payload(View(), p), area, head))
      ensures r.Some? ==> |r.value| == PerHead(geo) * PAYLOAD
    {
      if !blocks[p.l][p.b].onDisk { return None; }
      hide Ok, Payload, BlockBytes, Covers, Offset, HeadCells, PerHead, Groups, Nat, KArea, Slots;
      HeadSlice(View(), p, mem, memSize, area, head);
      var off := blocks[p.l][p.b].off + Offset(geo, area, head, 0, 0);
      var len := PerHead(geo) * PAYLOAD;
      if mem.Some? {
        if off + len > memSize { return None; }
        r := Some(mem.value[off..off + len]);
      } else {
        r := Some(file[off..off + len]);
      }
    }

    /**
     A block's rows back from its payload, head by head: float rows, int8 rows rounded with the
     stored scales, or both. Nothing to fill, or int8 rows without scales, is refused.
     */
    method FillBlock(p: Pos, w: World, s: Maybe<Scales>) returns (r: Maybe<Held>)
      requires Valid() && open && p.l < geo.nl && (s.Some? ==> Sized(geo, s.value))
      ensures r == None <==> p.b >= geo.maxBlocks || !At(View(), p).onDisk || (!w.floats && !w.ints) || (w.ints && s.None?)
                             || Beyond(p, BlockBytes(geo))
      ensures (Mirrored() || mem.None?) && InTable(geo, p) && At(View(), p).onDisk && (w.floats || w.ints) && s.Some? ==>
                r == Some(Restored(geo, w, Payload(View(), p), s.value))
    {
      if p.b >= geo.maxBlocks || !blocks[p.l][p.b].onDisk { return None; }
      if !w.floats && !w.ints { return None; }
      if w.ints && s.None? { return None; }
      ghost var good := Mirrored() || mem.None?;
      assert GeoOk(geo) && InTable(geo, p) && Shape(View());
      hide *;
      AreaScales(geo, s);
      AreasEnd(p);
      var kr, ki, k := FillArea(p, 0, if w.ints then Some(s.value.k) else None);
      if !k { return None; }
      var vr, vi, v := FillArea(p, 1, if w.ints then Some(s.value.v) else None);
      if !v { return None; }
      r := Some(HeldOf(w, kr, ki, vr, vi));
      if good && s.Some? { RestoredIs(geo, w, Payload(View(), p), s.value, kr, ki, vr, vi); }
    }

    lemma AreasEnd(p: Pos)
      requires Valid() && open && InTable(geo, p)
      ensures (1 + 1) * KArea(geo) == BlockBytes(geo)
      ensures Beyond(p, (0 + 1) * KArea(geo)) ==> Beyond(p, BlockBytes(geo))
    {
      hide Ok, KArea;
    }

    /** The next head of an area, if it can be read. */
    method FillNext(p: Pos, area: nat, h: nat, sc: Maybe<seq<real>>, rows0: seq<Group>, ints0: seq<Ints>,
                    ghost raw0: seq<Group>, ghost cells: seq<Cell>, ghost good: bool)
      returns (rows: seq<Group>, ints: seq<Ints>, ok: bool, ghost raw: seq<Group>)
      requires Valid() && open && InTable(geo, p) && At(View(), p).onDisk && area < 2 && h < geo.nkv && cells == Payload(View(), p)
      requires GeoOk(geo) && (sc.Some? ==> |sc.value| == ScaleCount(geo)) && Landed(geo, raw0, rows0, ints0, sc)
      requires |cells| == BlockBytes(geo) && (good ==> (Mirrored() || mem.None?) && Filled(raw0, geo, cells, area, Number(geo, area, h, 0, 0)))
      ensures good ==> ok
      ensures ok <==> !Beyond(p, Offset(geo, area, h, 0, 0) + PerHead(geo) * PAYLOAD)
      ensures ok ==> Landed(geo, raw, rows, ints, sc) && (good ==> Filled(raw, geo, cells, area, Number(geo, area, h + 1, 0, 0)))
    {
      hide *;
      rows, ints, ok, raw := rows0, ints0, false, raw0;
      var chunk := FetchBlockArea(p, h, area);
      if chunk.None? { return; }
      rows, ints, raw := FillHead(geo, rows0, ints0, chunk.value, area, h, sc, raw0, cells, good);
      NextHead(geo, area, h);
      ok := true;
    }

    /** The heads of an area follow each other, and the last one ends the area. */
    lemma HeadSteps(p: Pos, area: nat, h: nat)
      requires Valid() && open && InTable(geo, p) && area < 2 && h < geo.nkv
      ensures Offset(geo, area, h, 0, 0) + PerHead(geo) * PAYLOAD == Offset(geo, area, h + 1, 0, 0)
      ensures h + 1 == geo.nkv ==> Offset(geo, area, h + 1, 0, 0) == (area + 1) * KArea(geo)
      ensures Beyond(p, Offset(geo, area, h + 1, 0, 0)) ==> Beyond(p, (area + 1) * KArea(geo))
    {
      HeadEnds(geo, area, h);
      hide Ok, Offset, KArea, PerHead;
    }

    method FillArea(p: Pos, area: nat, sc: Maybe<seq<real>>) returns (rows: seq<Group>, ints: seq<Ints>, ok: bool)
      requires Valid() && open && InTable(geo, p) && At(View(), p).onDisk && area < 2
      requires GeoOk(geo) && (sc.Some? ==> |sc.value| == ScaleCount(geo))
      ensures (Mirrored() || mem.None?) ==> ok && AreaRestored(geo, Payload(View(), p), area, rows, ints, sc)
      ensures ok <==> !Beyond(p, (area + 1) * KArea(geo))
    {
      ghost var cells := Payload(View(), p);
      ghost var good := Mirrored() || mem.None?;
      hide *;
      rows, ints := BlankRows(geo);
      ghost var raw := rows;
      BlankLanded(geo, rows, ints, sc);
      FillStart(raw, geo, cells, area);
      for h := 0 to geo.nkv
        invariant Landed(geo, raw, rows, ints, sc) && (good ==> Filled(raw, geo, cells, area, Number(geo, area, h, 0, 0)))
        invariant h > 0 ==> !Beyond(p, Offset(geo, area, h, 0, 0))
      {
        HeadSteps(p, area, h);
        var got;
        rows, ints, got, raw := FillNext(p, area, h, sc, rows, ints, raw, cells, good);
        if !got { return rows, ints, false; }
      }
      FillEnd(raw, geo, cells, area, good);
      if good { AreaIs(geo, cells, area, raw, rows, ints, sc); }
      ok := true;
    }

    /** The per-token read of the decode path; it copies at most eight payloads. */
    method ReadRow(p: Pos, head: nat, token: nat, area: nat) returns (r: Maybe<seq<Cell>>)
      requires Valid() && open && InTable(geo, p) && area < 2 && head < geo.nkv && token < geo.bs
      ensures r == None <==> !At(View(), p).onDisk || Beyond(p, Offset(geo, area, head, token, 0) + Capped(Groups(geo)) * PAYLOAD)
      ensures (Mirrored() || mem.None?) && At(View(), p).onDisk ==>
                r == Some(RowCells(geo, Payload(View(), p), area, head, token)[..Capped(Groups(geo)) * PAYLOAD])
    {
      if !blocks[p.l][p.b].onDisk { return None; }
      hide Ok, Payload, BlockBytes, Covers, Offset, RowCells, PerHead, Groups, Nat, KArea, Slots;
      RowSlice(View(), p, mem, memSize, area, head, token);
      var off := blocks[p.l][p.b].off + Offset(geo, area, head, token, 0);
      var len := Capped(Groups(geo)) * PAYLOAD;
      if mem.Some? {
        if off + len > memSize { return None; }
        r := Some(mem.value[off..off + len]);
      } else {
        r := Some(file[off..off + len]);
      }
    }
  }

  /** The blocks of one layer in RAM. */
  type Ram = seq<Maybe<Held>>

  /** What the blocks of a layer stand for. */
  ghost predicate MeantBy(geo: Geo, ram: Ram, sc: seq<Scales>, cache: Layer)
    requires GeoOk(geo)
  {
    && |ram| == |sc| == |cache|
    && forall b | 0 <= b < |ram| :: Sized(geo, sc[b]) && (ram[b].Some? <==> cache[b].Some?)
         && (ram[b].Some? ==> HeldOk(geo, ram[b].value) && cache[b].value == Means(geo, ram[b].value, sc[b]))
  }

  lemma AreaScales(geo: Geo, s: Maybe<Scales>)
    requires s.Some? ==> Sized(geo, s.value)
    ensures s.Some? ==> |s.value.k| == |s.value.v| == ScaleCount(geo)
  {}

  lemma AreaIs(geo: Geo, cells: seq<Cell>, area: nat, raw: seq<Group>, rows: seq<Group>, ints: seq<Ints>, sc: Maybe<seq<real>>)
    requires GeoOk(geo) && (sc.Some? ==> |sc.value| == ScaleCount(geo)) && |cells| == BlockBytes(geo) && area < 2
    requires raw == UnpackedArea(geo, cells, area) && Landed(geo, raw, rows, ints, sc)
    ensures AreaRestored(geo, cells, area, rows, ints, sc)
  {}

  function Capped(n: nat): (r: nat)
    ensures r <= n && r <= 8 && (r == n || r == 8)
  {
    if n > 8 then 8 else n
  }

  /** Newly allocated memory holds anything. */
  method FreshBuffer(n: nat) returns (buf: seq<Cell>)
    ensures |buf| == n
  {
    buf := *;
    if |buf| != n { buf := seq(n, _ => Byte(0)); }
  }

  lemma NoMirror(d: Disk, p: Pos, mem: Maybe<seq<Cell>>, size: nat)
    requires Ok(d) && InTable(d.geo, p) && At(d, p).onDisk && mem.None?
    ensures !Covers(d, mem, size)
  {
    SlotInFile(d, p);
  }

  /** A slice of a block's bytes, wherever it is read from. */
  lemma PayloadSlice(d: Disk, p: Pos, mem: Maybe<seq<Cell>>, size: nat, o: nat, len: nat)
    requires Ok(d) && InTable(d.geo, p) && At(d, p).onDisk && o + len <= BlockBytes(d.geo)
    ensures var off := At(d, p).off + o;
            && off + len <= |d.file| && d.file[off..off + len] == Payload(d, p)[o..o + len]
            && (Covers(d, mem, size) ==>
                  off + len <= size && mem.Some? && size <= |mem.value| && mem.value[off..off + len] == Payload(d, p)[o..o + len])
  {
    hide Slots, SlotAt, BlockBytes;
    SlotInFile(d, p);
    var off := At(d, p).off;
    SliceOfSlice(d.file, off, BlockBytes(d.geo), o, len);
    if Covers(d, mem, size) {
      assert mem.value[..size][off + o..off + o + len] == mem.value[off + o..off + o + len];
      assert d.file[..size][off + o..off + o + len] == d.file[off + o..off + o + len];
    }
  }

  lemma RowSlice(d: Disk, p: Pos, mem: Maybe<seq<Cell>>, size: nat, area: nat, h: nat, t: nat)
    requires Ok(d) && InTable(d.geo, p) && At(d, p).onDisk && area < 2 && h < d.geo.nkv && t < d.geo.bs
    ensures var off, n := At(d, p).off + Offset(d.geo, area, h, t, 0), Groups(d.geo);
            && off + n * PAYLOAD <= |d.file| && Capped(n) * PAYLOAD <= n * PAYLOAD
            && d.file[off..off + Capped(n) * PAYLOAD] == RowCells(d.geo, Payload(d, p), area, h, t)[..Capped(n) * PAYLOAD]
            && (Covers(d, mem, size) ==>
                  && off + n * PAYLOAD <= size && mem.Some? && size <= |mem.value|
                  && mem.value[off..off + n * PAYLOAD] == RowCells(d.geo, Payload(d, p), area, h, t)
                  && mem.value[off..off + Capped(n) * PAYLOAD] == RowCells(d.geo, Payload(d, p), area, h, t)[..Capped(n) * PAYLOAD])
  {
    hide Slots, Payload, BlockBytes, Covers, Offset;
    RowFits(d.geo, area, h, t);
    var o, n := Offset(d.geo, area, h, t, 0), Groups(d.geo);
    PayloadSlice(d, p, mem, size, o, n * PAYLOAD);
    PayloadSlice(d, p, mem, size, o, Capped(n) * PAYLOAD);
    SliceOfSlice(Payload(d, p), o, n * PAYLOAD, 0, Capped(n) * PAYLOAD);
  }

  lemma HeadSlice(d: Disk, p: Pos, mem: Maybe<seq<Cell>>, size: nat, area: nat, h: nat)
    requires Ok(d) && InTable(d.geo, p) && At(d, p).onDisk && area < 2 && h < d.geo.nkv
    ensures var off, len := At(d, p).off + Offset(d.geo, area, h, 0, 0), PerHead(d.geo) * PAYLOAD;
            && off + len <= |d.file| && d.file[off..off + len] == HeadCells(d.geo, Payload(d, p), area, h)
            && (Covers(d, mem, size) ==>
                  && off + len <= size && mem.Some? && size <= |mem.value|
                  && mem.value[off..off + len] == HeadCells(d.geo, Payload(d, p), area, h))
  {
    hide Slots, Payload, BlockBytes, Covers, Offset;
    HeadFits(d.geo, area, h);
    PayloadSlice(d, p, mem, size, Offset(d.geo, area, h, 0, 0), PerHead(d.geo) * PAYLOAD);
  }

  lemma HeadEnds(geo: Geo, area: nat, h: nat)
    requires area < 2 && h < geo.nkv
    ensures Offset(geo, area, h, 0, 0) + PerHead(geo) * PAYLOAD == Offset(geo, area, h + 1, 0, 0) <= (area + 1) * KArea(geo)
    ensures h + 1 == geo.nkv ==> Offset(geo, area, h + 1, 0, 0) == (area + 1) * KArea(geo)
  {
    var n := PerHead(geo);
    HeadSum(h, geo.nkv, n);
    assert Nat(0, Groups(geo)) == 0;
    hide PerHead;
  }

  lemma HeadSum(h: nat, m: nat, n: nat)
    requires h < m
    ensures Nat(h, n) + n == Nat(h + 1, n) <= Nat(m, n)
  {
    TimesNext(h, n);
    TimesUp(h + 1, m, n);
  }

  lemma TimesNext(x: int, n: int)
    ensures x * n + n == (x + 1) * n
  {}

  lemma TimesUp(x: int, y: int, n: int)
    requires x <= y && n >= 0
    ensures x * n <= y * n
  {}

  /** The same slots and bytes, no block marked for eviction. */
  ghost predicate Cleared(d: Disk, r: Disk)
    requires Ok(d) && Ok(r)
  {
    SameSlots(d, r) && forall p | InTable(d.geo, p) :: At(r, p) == At(d, p).(evict := false)
  }

  ghost predicate ClearedTo(d: Disk, r: Disk, l: nat, b: nat)
    requires Ok(d) && Ok(r) && r.geo == d.geo
  {
    forall p | InTable(d.geo, p) ::
      At(r, p) == if p.l < l || (p.l == l && p.b < b) then At(d, p).(evict := false) else At(d, p)
  }

  /** The same slots and bytes, every payload from a block on marked stale. */
  ghost predicate Staled(d: Disk, r: Disk, from: nat)
    requires Ok(d) && Ok(r)
  {
    SameSlots(d, r) && forall p | InTable(d.geo, p) ::
      At(r, p) == if p.b >= from && At(d, p).onDisk then At(d, p).(stale := true) else At(d, p)
  }

  ghost predicate OneStale(d: Disk, r: Disk, p: Pos)
    requires Ok(d) && Ok(r) && r.geo == d.geo
  {
    forall q | InTable(d.geo, q) :: At(r, q) == if q == p then At(d, q).(stale := true) else At(d, q)
  }

  ghost predicate StaledTo(d: Disk, r: Disk, from: nat, l: nat, b: nat)
    requires Ok(d) && Ok(r) && r.geo == d.geo
  {
    forall p | InTable(d.geo, p) ::
      At(r, p) == if p.b >= from && At(d, p).onDisk && (p.l < l || (p.l == l && p.b < b)) then At(d, p).(stale := true) else At(d, p)
  }

  lemma FlagsStart(d: Disk)
    requires Ok(d)
    ensures SameSlots(d, d) && Shape(d)
  {}

  lemma RoundSizes(d: Disk, layer: nat, cache: Layer, seqLen: nat, importance: seq<real>, ratio: real)
    requires LayerReady(d, layer, cache, seqLen, importance)
    ensures var n := BlockCount(seqLen, d.geo.bs);
            && d.geo.bs > 0 && seqLen <= n * d.geo.bs && seqLen <= |importance|
            && (n > 0 ==> (n - 1) * d.geo.bs < seqLen) && (seqLen == 0 ==> n <= 1)
            && (n <= 1 ==> LayerRound(d, d, layer, [], cache, seqLen, importance, ratio, 0))
  {
    BlockCountIs(seqLen, d.geo.bs);
    var n := BlockCount(seqLen, d.geo.bs);
    assert seqLen == 0 && n > 0 ==> (n - 1) * d.geo.bs >= 0;
  }

  ghost predicate AllOk(geo: Geo, cache: Layer) {
    forall b | 0 <= b < |cache| && cache[b].Some? :: ContentOk(geo, cache[b].value)
  }

  ghost predicate RunReady(d: Disk, layer: nat, cache: Layer, n: nat, keep: seq<bool>) {
    && Ok(d) && layer < d.geo.nl && FullFits(d.geo) && n <= d.geo.maxBlocks <= |cache| && n == |keep|
    && Resident(d.geo, cache, n) && AllOk(d.geo, cache)
  }

  /** The side conditions of a round: a full table fits, and every block of the sequence is in RAM. */
  ghost predicate LayerReady(d: Disk, layer: nat, cache: Layer, seqLen: nat, importance: seq<real>) {
    && Ok(d) && layer < d.geo.nl && FullFits(d.geo) && BlockCount(seqLen, d.geo.bs) <= d.geo.maxBlocks <= |cache|
    && seqLen <= |importance| && Resident(d.geo, cache, BlockCount(seqLen, d.geo.bs)) && AllOk(d.geo, cache)
  }

  /** The first b decisions have been taken and `packed` blocks written. */
  ghost predicate LayerDone(d: Disk, r: Disk, layer: nat, keep: seq<bool>, n: nat, cache: Layer, b: nat, packed: nat) {
    && RunReady(d, layer, cache, n, keep) && b <= n
    && r == LayerRun(d, layer, keep, n, cache, b) && packed == Repacks(d, layer, keep, n, b)
  }

  lemma LayerStart(d: Disk, layer: nat, keep: seq<bool>, n: nat, cache: Layer)
    requires RunReady(d, layer, cache, n, keep)
    ensures LayerDone(d, d, layer, keep, n, cache, 0, 0)
  {}

  lemma LayerUnfold(d: Disk, r: Disk, layer: nat, keep: seq<bool>, n: nat, cache: Layer, b: nat, packed: nat)
    requires LayerDone(d, r, layer, keep, n, cache, b, packed)
    ensures RunReady(d, layer, cache, n, keep) && Ok(d) && layer < d.geo.nl && n <= d.geo.maxBlocks
    ensures b <= n && Resident(d.geo, cache, n) && r == LayerRun(d, layer, keep, n, cache, b) && r.geo == d.geo
    ensures Shape(d)
  {}

  lemma LayerFold(d: Disk, r: Disk, layer: nat, keep: seq<bool>, n: nat, cache: Layer, b: nat, packed: nat, did: nat)
    requires RunReady(d, layer, cache, n, keep) && b < n && packed == Repacks(d, layer, keep, n, b)
    requires r == LayerRun(d, layer, keep, n, cache, b + 1)
    requires did == if Evicts(keep, n, b) && !Fresh(d, Pos(layer, b)) then 1 else 0
    ensures LayerDone(d, r, layer, keep, n, cache, b + 1, packed + did)
  {}

  /** A layer's whole round: nothing with a single block, otherwise every decision of a chosen set. */
  ghost predicate LayerRound(d: Disk, r: Disk, layer: nat, keep: seq<bool>, cache: Layer, seqLen: nat,
                             importance: seq<real>, ratio: real, packed: nat) {
    var n := BlockCount(seqLen, d.geo.bs);
    if n <= 1 then r == d && packed == 0
    else LayerDone(d, r, layer, keep, n, cache, n, packed) && Chosen(keep, n, importance, d.geo.bs, seqLen, ratio)
  }

  lemma RoundDone(d: Disk, r: Disk, layer: nat, keep: seq<bool>, cache: Layer, seqLen: nat,
                  importance: seq<real>, ratio: real, packed: nat)
    requires BlockCount(seqLen, d.geo.bs) > 1
    requires var n := BlockCount(seqLen, d.geo.bs);
             LayerDone(d, r, layer, keep, n, cache, n, packed) && Chosen(keep, n, importance, d.geo.bs, seqLen, ratio)
    ensures LayerRound(d, r, layer, keep, cache, seqLen, importance, ratio, packed)
  {}

  /** The choice a layer makes for a given importance. */
  ghost predicate Chosen(keep: seq<bool>, n: nat, importance: seq<real>, bs: nat, seqLen: nat, ratio: real)
    requires n > 0
  {
    exists mass: seq<real> ::
      |mass| == n && Masses(mass, importance, bs, seqLen) && Kept(keep, mass, KeepCount(ratio, n))
  }

  lemma ChosenBy(d: Disk, keep: seq<bool>, mass: seq<real>, n: nat, importance: seq<real>, seqLen: nat, ratio: real,
                 layer: nat, cache: Layer)
    requires n > 0 && |mass| == n && Masses(mass, importance, d.geo.bs, seqLen) && Kept(keep, mass, KeepCount(ratio, n))
    requires n == BlockCount(seqLen, d.geo.bs) && LayerReady(d, layer, cache, seqLen, importance)
    ensures Chosen(keep, n, importance, d.geo.bs, seqLen, ratio) && RunReady(d, layer, cache, n, keep)
  {}

  lemma StepFacts(d: Disk, l: nat, keep: seq<bool>, n: nat, cache: Layer, b: nat)
    requires Ok(d) && l < d.geo.nl && b < n <= d.geo.maxBlocks && Resident(d.geo, cache, n)
    ensures var before := LayerRun(d, l, keep, n, cache, b);
            && Ok(before) && before.geo == d.geo && At(before, Pos(l, b)) == At(d, Pos(l, b))
            && cache[b].Some? && ContentOk(d.geo, cache[b].value)
            && LayerRun(d, l, keep, n, cache, b + 1) == Decided(before, Pos(l, b), Evicts(keep, n, b), cache[b].value)
  {
    hide Slots, BlockBytes, SlotAt, Payload, ContentOk, Packed;
    LayerRunSpec(d, l, keep, n, cache, b);
  }

  lemma RoomLeft(d: Disk, p: Pos, c: Content)
    requires Ok(d) && InTable(d.geo, p) && ContentOk(d.geo, c) && FullFits(d.geo)
    ensures !At(d, p).onDisk ==> d.wcursor + BlockBytes(d.geo) < U64
  {
    hide Slots, BlockBytes, SlotAt, Packed;
    var cells := Packed(d.geo, c);
    StoredOk(d, p, cells);
    StoredShape(d, p, cells);
    CursorBounded(Stored(d, p, cells));
  }

  /** The whole table's slots end below 2^64. */
  ghost predicate FullFits(geo: Geo) {
    SlotAt(geo, Nat(geo.nl, geo.maxBlocks)) < U64
  }

  function BlockCount(seqLen: nat, bs: nat): (n: nat)
  {
    if bs == 0 then 0 else (seqLen + bs - 1) / bs
  }

  lemma BlockCountIs(seqLen: nat, bs: nat)
    requires bs > 0
    ensures var n := BlockCount(seqLen, bs); seqLen <= n * bs && (n > 0 ==> (n - 1) * bs < seqLen)
  {}

  /** Every block on disk lies in the readable part of the mirror, which repeats the file. */
  ghost predicate Covers(d: Disk, mem: Maybe<seq<Cell>>, size: nat)
    requires Ok(d)
  {
    && size <= |d.file| && size <= (if mem.Some? then |mem.value| else 0)
    && (size > 0 ==> mem.value[..size] == d.file[..size])
    && forall p | InTable(d.geo, p) && At(d, p).onDisk :: At(d, p).off + BlockBytes(d.geo) <= size
  }

  lemma EmptyOk(d: Disk)
    requires GeoOk(d.geo) && d.blocks == seq(d.geo.nl, _ => seq(d.geo.maxBlocks, _ => Free))
    requires d.slot == map[] && d.wcursor == HEADER == |d.file|
    ensures Ok(d)
  {}
}
