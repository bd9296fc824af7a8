/**
 The evicted-block file as a value: block flags, a cursor allocator and the bytes. Every block
 on disk owns one slot; slots are handed out in order and never move.
 */
module L3Disk {
  import opened Residues
  import opened L3Quant
  import opened L3Layout
  import opened Sets

  const HEADER: nat := 64
  const MAGIC: nat := 0x564C_4C4D

  datatype Block = Block(onDisk: bool, stale: bool, evict: bool, off: nat)

  const Free: Block := Block(false, false, false, 0)

  datatype Pos = Pos(l: nat, b: nat)

  /** The slot map is the history of the cursor: which block received which slot. */
  datatype Disk = Disk(geo: Geo, blocks: seq<seq<Block>>, file: seq<Cell>, wcursor: nat, slot: map<Pos, nat>)

  function SlotAt(geo: Geo, i: nat): (off: nat) {
    HEADER + Nat(i, BlockBytes(geo))
  }

  predicate InTable(geo: Geo, p: Pos) {
    p.l < geo.nl && p.b < geo.maxBlocks
  }

  ghost predicate Table(geo: Geo, blocks: seq<seq<Block>>) {
    |blocks| == geo.nl && forall l | 0 <= l < |blocks| :: |blocks[l]| == geo.maxBlocks
  }

  ghost predicate Shape(d: Disk) {
    GeoOk(d.geo) && Table(d.geo, d.blocks)
  }

  function At(d: Disk, p: Pos): (b: Block)
    requires Shape(d) && InTable(d.geo, p)
  {
    d.blocks[p.l][p.b]
  }

  /** Slots are distinct, and the block on a slot records its offset. */
  ghost predicate Slots(d: Disk)
    requires Shape(d)
  {
    && (forall p | p in d.slot :: InTable(d.geo, p) && d.slot[p] < |d.slot| && At(d, p).onDisk
                                  && At(d, p).off == SlotAt(d.geo, d.slot[p]))
    && (forall p, q | p in d.slot && q in d.slot && p != q :: d.slot[p] != d.slot[q])
  }

  ghost predicate Ok(d: Disk) {
    && Shape(d) && Slots(d)
    && (forall p | InTable(d.geo, p) && At(d, p).onDisk :: p in d.slot)
    && |d.file| == d.wcursor == SlotAt(d.geo, |d.slot|)
  }

  /** The bytes a block on disk owns. */
  ghost function Payload(d: Disk, p: Pos): (r: seq<Cell>)
    requires Ok(d) && InTable(d.geo, p) && At(d, p).onDisk
    ensures |r| == BlockBytes(d.geo)
  {
    SlotInFile(d, p);
    d.file[At(d, p).off..At(d, p).off + BlockBytes(d.geo)]
  }

  lemma SlotInFile(d: Disk, p: Pos)
    requires Ok(d) && InTable(d.geo, p) && At(d, p).onDisk
    ensures HEADER <= At(d, p).off && At(d, p).off + BlockBytes(d.geo) <= |d.file|
  {
    SlotGap(d.geo, d.slot[p], |d.slot|);
  }

  lemma SlotGap(geo: Geo, i: nat, j: nat)
    requires i < j
    ensures SlotAt(geo, i) + BlockBytes(geo) <= SlotAt(geo, j)
  {
    SlotGapTimes(i, j, BlockBytes(geo));
  }

  lemma SlotGapTimes(i: nat, j: nat, w: nat)
    requires i < j
    ensures i * w + w <= j * w
  {
    assert (i + 1) * w <= j * w;
  }

  /** Different blocks own disjoint bytes. */
  lemma SlotsDisjoint(d: Disk, p: Pos, q: Pos)
    requires Ok(d) && InTable(d.geo, p) && InTable(d.geo, q) && p != q && At(d, p).onDisk && At(d, q).onDisk
    ensures At(d, p).off + BlockBytes(d.geo) <= At(d, q).off || At(d, q).off + BlockBytes(d.geo) <= At(d, p).off
  {
    if d.slot[p] < d.slot[q] { SlotGap(d.geo, d.slot[p], d.slot[q]); } else { SlotGap(d.geo, d.slot[q], d.slot[p]); }
  }

  // ----- writing a block -----

  function Write(file: seq<Cell>, base: nat, cells: seq<Cell>): (r: seq<Cell>)
    requires base <= |file|
  {
    file[..base] + cells + (if base + |cells| <= |file| then file[base + |cells|..] else [])
  }

  function Set(blocks: seq<seq<Block>>, p: Pos, b: Block): (r: seq<seq<Block>>)
    requires p.l < |blocks| && p.b < |blocks[p.l]|
  {
    blocks[p.l := blocks[p.l][p.b := b]]
  }

  lemma SetTable(geo: Geo, blocks: seq<seq<Block>>, p: Pos, b: Block)
    requires Table(geo, blocks) && InTable(geo, p)
    ensures Table(geo, Set(blocks, p, b))
    ensures forall q | InTable(geo, q) :: Set(blocks, p, b)[q.l][q.b] == if q == p then b else blocks[q.l][q.b]
  {}

  /** A block already on disk is overwritten in place; another takes the slot at the cursor. */
  ghost function Stored(d: Disk, p: Pos, cells: seq<Cell>): (r: Disk)
    requires Ok(d) && InTable(d.geo, p) && |cells| == BlockBytes(d.geo)
  {
    var bm := At(d, p);
    var base := if bm.onDisk then bm.off else d.wcursor;
    assert base <= |d.file| by { if bm.onDisk { SlotInFile(d, p); } }
    Disk(d.geo, Set(d.blocks, p, Block(true, false, bm.evict, base)), Write(d.file, base, cells),
         if bm.onDisk then d.wcursor else d.wcursor + BlockBytes(d.geo),
         if bm.onDisk then d.slot else d.slot[p := |d.slot|])
  }

  lemma StoredShape(d: Disk, p: Pos, cells: seq<Cell>)
    requires Ok(d) && InTable(d.geo, p) && |cells| == BlockBytes(d.geo)
    ensures var r := Stored(d, p, cells);
            && Shape(r) && r.geo == d.geo
            && (forall q | InTable(d.geo, q) && q != p :: At(r, q) == At(d, q))
            && At(r, p) == Block(true, false, At(d, p).evict, if At(d, p).onDisk then At(d, p).off else d.wcursor)
  {
    hide BlockBytes, SlotAt, Write;
    SetTable(d.geo, d.blocks, p, Block(true, false, At(d, p).evict, if At(d, p).onDisk then At(d, p).off else d.wcursor));
  }

  lemma StoredOk(d: Disk, p: Pos, cells: seq<Cell>)
    requires Ok(d) && InTable(d.geo, p) && |cells| == BlockBytes(d.geo)
    ensures Ok(Stored(d, p, cells))
  {
    hide BlockBytes, SlotAt;
    StoredShape(d, p, cells);
    var r := Stored(d, p, cells);
    if At(d, p).onDisk {
      SlotInFile(d, p);
    } else {
      SlotNext(d.geo, |d.slot|);
      assert |r.slot| == |d.slot| + 1;
    }
  }

  lemma SlotNext(geo: Geo, i: nat)
    ensures SlotAt(geo, i + 1) == SlotAt(geo, i) + BlockBytes(geo)
  {}

  /** The block now holds the new bytes; every other block keeps its own. */
  lemma StoredPayload(d: Disk, p: Pos, cells: seq<Cell>, q: Pos)
    requires Ok(d) && InTable(d.geo, p) && InTable(d.geo, q) && |cells| == BlockBytes(d.geo)
    requires q == p || At(d, q).onDisk
    ensures var r := Stored(d, p, cells);
            Ok(r) && At(r, q).onDisk && Payload(r, q) == if q == p then cells else Payload(d, q)
  {
    hide BlockBytes, SlotAt, Slots;
    StoredOk(d, p, cells);
    StoredShape(d, p, cells);
    var base := if At(d, p).onDisk then At(d, p).off else d.wcursor;
    if At(d, p).onDisk { SlotInFile(d, p); }
    if q != p {
      SlotInFile(d, q);
      if At(d, p).onDisk { SlotsDisjoint(d, p, q); }
      WriteElsewhere(d.file, base, cells, At(d, q).off, At(d, q).off + |cells|);
    } else {
      WriteHere(d.file, base, cells);
    }
  }

  lemma WriteHere(file: seq<Cell>, base: nat, cells: seq<Cell>)
    requires base <= |file|
    ensures base + |cells| <= |Write(file, base, cells)| && Write(file, base, cells)[base..base + |cells|] == cells
  {}

  lemma WriteElsewhere(file: seq<Cell>, base: nat, cells: seq<Cell>, x: nat, y: nat)
    requires base <= |file| && x <= y <= |file| && (y <= base || base + |cells| <= x)
    ensures |Write(file, base, cells)| >= |file| && Write(file, base, cells)[x..y] == file[x..y]
  {}

  /** The cursor never passes the table's capacity, so the allocator cannot run out of offsets. */
  lemma CursorBounded(d: Disk)
    requires Ok(d)
    ensures |d.slot| <= Nat(d.geo.nl, d.geo.maxBlocks)
    ensures d.wcursor <= SlotAt(d.geo, Nat(d.geo.nl, d.geo.maxBlocks))
  {
    var all := Positions(d.geo.nl, d.geo.maxBlocks);
    assert d.slot.Keys <= all;
    SubsetSize(d.slot.Keys, all);
    LeProduct(BlockBytes(d.geo), |d.slot|, Nat(d.geo.nl, d.geo.maxBlocks));
  }

  ghost function Positions(nl: nat, m: nat): (r: set<Pos>)
    ensures |r| == Nat(nl, m)
    ensures forall p :: p in r <==> p.l < nl && p.b < m
  {
    if nl == 0 then {}
    else
      RowSize(nl - 1, m);
      PositionsStep(nl - 1, m);
      Positions(nl - 1, m) + Row(nl - 1, m)
  }

  lemma PositionsStep(nl: nat, m: nat)
    ensures Nat(nl + 1, m) == Nat(nl, m) + m
  {}

  ghost function Row(l: nat, m: nat): (r: set<Pos>)
    ensures forall p :: p in r <==> p.l == l && p.b < m
  {
    set b: nat | b < m :: Pos(l, b)
  }

  lemma {:induction false} RowSize(l: nat, m: nat)
    ensures |Row(l, m)| == m
  {
    if m > 0 {
      RowSize(l, m - 1);
      assert Row(l, m) == Row(l, m - 1) + {Pos(l, m - 1)};
    }
  }

  // ----- flags -----

  /** The same file with other stale and evict flags. */
  ghost predicate SameSlots(d: Disk, r: Disk)
    requires Shape(d) && Shape(r)
  {
    && r.geo == d.geo && r.file == d.file && r.wcursor == d.wcursor && r.slot == d.slot
    && forall p | InTable(d.geo, p) :: At(r, p).onDisk == At(d, p).onDisk && At(r, p).off == At(d, p).off
  }

  lemma SameSlotsOk(d: Disk, r: Disk)
    requires Ok(d) && Shape(r) && SameSlots(d, r)
    ensures Ok(r)
    ensures forall p | InTable(d.geo, p) && At(d, p).onDisk :: Payload(r, p) == Payload(d, p)
  {
    hide BlockBytes, SlotAt;
  }

  // ----- the flat table -----

  /** Where the program keeps the entry of block b of layer l. */
  function FlatIndex(l: nat, m: nat, b: nat): (i: nat) {
    Ix(l, m, b)
  }

  /**
   With m blocks a layer, the entries of a sequence of n blocks of different layers are different
   entries, and all of them lie in the table: if and only if the sequence fits the layer's row.
   */
  lemma FlatRowsApart(nl: nat, m: nat, n: nat)
    requires nl >= 1 && m >= 1
    ensures (forall l: nat, b: nat | l < nl && b < n :: FlatIndex(l, m, b) < Nat(nl, m)) <==> n <= m
    ensures nl >= 2 ==>
      ((forall l: nat, b: nat, k: nat, c: nat | l < nl && k < nl && l != k && b < n && c < n :: FlatIndex(l, m, b) != FlatIndex(k, m, c))
       <==> n <= m)
  {
    if n <= m {
      forall l: nat, b: nat | l < nl && b < n ensures FlatIndex(l, m, b) < Nat(nl, m) { IxBound(l, nl, m, b); }
      forall l: nat, b: nat, k: nat, c: nat | l < nl && k < nl && l != k && b < n && c < n
        ensures FlatIndex(l, m, b) != FlatIndex(k, m, c)
      {
        IxSplit(l, m, b);
        IxSplit(k, m, c);
      }
    } else {
      FlatOverrun(nl, m);
    }
  }

  /** Block m of a layer is taken for block 0 of the next, and of the last layer it lies past the table. */
  lemma FlatOverrun(nl: nat, m: nat)
    requires nl >= 1 && m >= 1
    ensures FlatIndex(nl - 1, m, m) == Nat(nl, m)
    ensures FlatIndex(0, m, m) == FlatIndex(1, m, 0)
  {
    IxNext(nl - 1, m);
    IxNext(0, m);
    assert Ix(nl, m, 0) == Nat(nl, m);
  }
}
