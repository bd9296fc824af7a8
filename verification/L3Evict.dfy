/** What one layer's eviction does to the file and the flags, block by block. */
module L3Evict {
  import opened Residues
  import opened L3Quant
  import opened L3Layout
  import opened L3Disk

  ghost function Flagged(d: Disk, p: Pos, e: bool): (r: Disk)
    requires Shape(d) && InTable(d.geo, p)
  {
    d.(blocks := Set(d.blocks, p, At(d, p).(evict := e)))
  }

  lemma FlaggedOk(d: Disk, p: Pos, e: bool)
    requires Ok(d) && InTable(d.geo, p)
    ensures Ok(Flagged(d, p, e)) && At(Flagged(d, p, e), p) == At(d, p).(evict := e)
    ensures forall q | InTable(d.geo, q) && q != p :: Untouched(d, Flagged(d, p, e), q)
    ensures At(d, p).onDisk ==> Payload(Flagged(d, p, e), p) == Payload(d, p)
  {
    hide Slots, SlotAt, BlockBytes;
    SetTable(d.geo, d.blocks, p, At(d, p).(evict := e));
    SameSlotsOk(d, Flagged(d, p, e));
  }

  /** The block's flags and bytes are what they were. */
  ghost predicate Untouched(d: Disk, r: Disk, q: Pos)
    requires Ok(d) && Ok(r) && r.geo == d.geo && InTable(d.geo, q)
  {
    At(r, q) == At(d, q) && (At(d, q).onDisk ==> Payload(r, q) == Payload(d, q))
  }

  ghost predicate Fresh(d: Disk, p: Pos)
    requires Shape(d) && InTable(d.geo, p)
  {
    At(d, p).onDisk && !At(d, p).stale
  }

  /** The eviction flag is set, and the block is repacked unless its payload is still good. */
  ghost function Decided(d: Disk, p: Pos, e: bool, c: Content): (r: Disk)
    requires Ok(d) && InTable(d.geo, p) && (e ==> ContentOk(d.geo, c))
  {
    FlaggedOk(d, p, e);
    if e && !Fresh(d, p) then Stored(Flagged(d, p, e), p, Packed(d.geo, c)) else Flagged(d, p, e)
  }

  /** The block after its own decision: out with a good payload, or in with nothing changed. */
  ghost predicate Settled(d: Disk, r: Disk, p: Pos, e: bool, c: Content)
    requires Ok(d) && Ok(r) && r.geo == d.geo && InTable(d.geo, p) && (e ==> ContentOk(d.geo, c))
  {
    && At(r, p).evict == e
    && (At(d, p).onDisk ==> At(r, p).onDisk && At(r, p).off == At(d, p).off)
    && (e ==> Fresh(r, p) && Payload(r, p) == if Fresh(d, p) then Payload(d, p) else Packed(d.geo, c))
    && (!e ==> At(r, p) == At(d, p).(evict := false) && (At(d, p).onDisk ==> Payload(r, p) == Payload(d, p)))
  }

  lemma DecidedSpec(d: Disk, p: Pos, e: bool, c: Content)
    requires Ok(d) && InTable(d.geo, p) && (e ==> ContentOk(d.geo, c))
    ensures var r := Decided(d, p, e, c);
            && Ok(r) && r.geo == d.geo && Settled(d, r, p, e, c)
            && (forall q | InTable(d.geo, q) && q != p :: Untouched(d, r, q))
            && (At(d, p).onDisk || !e ==> r.wcursor == d.wcursor)
            && (!e || Fresh(d, p) ==> r.file == d.file && At(r, p).onDisk == At(d, p).onDisk)
  {
    hide Slots, SlotAt, BlockBytes, Packed, Payload, ContentOk;
    FlaggedOk(d, p, e);
    var f := Flagged(d, p, e);
    if e && !Fresh(d, p) {
      var cells := Packed(d.geo, c);
      StoredOk(f, p, cells);
      StoredShape(f, p, cells);
      StoredPayload(f, p, cells, p);
      forall q | InTable(d.geo, q) && q != p && At(d, q).onDisk
        ensures Payload(Stored(f, p, cells), q) == Payload(d, q)
      {
        StoredPayload(f, p, cells, q);
      }
    }
  }

  // ----- a whole layer -----

  /** Whether block b of n goes: neither the last nor kept. */
  predicate Evicts(keep: seq<bool>, n: nat, b: nat) {
    b + 1 < n && b < |keep| && !keep[b]
  }

  ghost predicate Resident(geo: Geo, cache: Layer, n: nat) {
    n <= |cache| && forall b | 0 <= b < n :: cache[b].Some? && ContentOk(geo, cache[b].value)
  }

  /** The first k decisions of a layer. */
  ghost function LayerRun(d: Disk, l: nat, keep: seq<bool>, n: nat, cache: Layer, k: nat): (r: Disk)
    requires Ok(d) && l < d.geo.nl && k <= n <= d.geo.maxBlocks && Resident(d.geo, cache, n)
    ensures Ok(r) && r.geo == d.geo
  {
    if k == 0 then d
    else
      var before := LayerRun(d, l, keep, n, cache, k - 1);
      DecidedSpec(before, Pos(l, k - 1), Evicts(keep, n, k - 1), cache[k - 1].value);
      Decided(before, Pos(l, k - 1), Evicts(keep, n, k - 1), cache[k - 1].value)
  }

  ghost predicate LayerSettled(d: Disk, r: Disk, l: nat, keep: seq<bool>, n: nat, cache: Layer, k: nat)
    requires Ok(d) && Ok(r) && r.geo == d.geo && l < d.geo.nl && k <= n <= d.geo.maxBlocks && Resident(d.geo, cache, n)
  {
    && (forall b: nat {:trigger Pos(l, b)} | b < k :: Settled(d, r, Pos(l, b), Evicts(keep, n, b), cache[b].value))
    && (forall q | InTable(d.geo, q) && !(q.l == l && q.b < k) :: Untouched(d, r, q))
  }

  lemma {:induction false} LayerRunSpec(d: Disk, l: nat, keep: seq<bool>, n: nat, cache: Layer, k: nat)
    requires Ok(d) && l < d.geo.nl && k <= n <= d.geo.maxBlocks && Resident(d.geo, cache, n)
    ensures LayerSettled(d, LayerRun(d, l, keep, n, cache, k), l, keep, n, cache, k)
  {
    hide Slots, SlotAt, BlockBytes, Packed, Payload, Ok, ContentOk, Settled, Untouched, LayerRun, Decided;
    if k == 0 {
      RunStart(d, l, keep, n, cache);
    } else {
      var before := LayerRun(d, l, keep, n, cache, k - 1);
      LayerRunSpec(d, l, keep, n, cache, k - 1);
      DecidedSpec(before, Pos(l, k - 1), Evicts(keep, n, k - 1), cache[k - 1].value);
      RunStep(d, l, keep, n, cache, k);
      var r := LayerRun(d, l, keep, n, cache, k);
      forall b: nat | b < k ensures Settled(d, r, Pos(l, b), Evicts(keep, n, b), cache[b].value) {
        if b < k - 1 {
          SettledThen(d, before, r, Pos(l, b), Evicts(keep, n, b), cache[b].value);
        } else {
          ThenSettled(d, before, r, Pos(l, b), Evicts(keep, n, b), cache[b].value);
        }
      }
      forall q | InTable(d.geo, q) && !(q.l == l && q.b < k) ensures Untouched(d, r, q) {
        UntouchedTrans(d, before, r, q);
      }
    }
  }

  lemma RunStart(d: Disk, l: nat, keep: seq<bool>, n: nat, cache: Layer)
    requires Ok(d) && l < d.geo.nl && n <= d.geo.maxBlocks && Resident(d.geo, cache, n)
    ensures LayerRun(d, l, keep, n, cache, 0) == d && forall q | InTable(d.geo, q) :: Untouched(d, d, q)
  {}

  lemma RunStep(d: Disk, l: nat, keep: seq<bool>, n: nat, cache: Layer, k: nat)
    requires Ok(d) && l < d.geo.nl && 0 < k <= n <= d.geo.maxBlocks && Resident(d.geo, cache, n)
    ensures var before := LayerRun(d, l, keep, n, cache, k - 1);
            LayerRun(d, l, keep, n, cache, k) == Decided(before, Pos(l, k - 1), Evicts(keep, n, k - 1), cache[k - 1].value)
  {}

  lemma SettledThen(d: Disk, m: Disk, r: Disk, p: Pos, e: bool, c: Content)
    requires Ok(d) && Ok(m) && Ok(r) && r.geo == m.geo == d.geo && InTable(d.geo, p) && (e ==> ContentOk(d.geo, c))
    requires Settled(d, m, p, e, c) && Untouched(m, r, p)
    ensures Settled(d, r, p, e, c)
  {
    hide Slots, Packed, Payload, BlockBytes;
  }

  lemma ThenSettled(d: Disk, m: Disk, r: Disk, p: Pos, e: bool, c: Content)
    requires Ok(d) && Ok(m) && Ok(r) && r.geo == m.geo == d.geo && InTable(d.geo, p) && (e ==> ContentOk(d.geo, c))
    requires Untouched(d, m, p) && Settled(m, r, p, e, c)
    ensures Settled(d, r, p, e, c)
  {
    hide Slots, Packed, Payload, BlockBytes;
  }

  lemma UntouchedTrans(d: Disk, m: Disk, r: Disk, p: Pos)
    requires Ok(d) && Ok(m) && Ok(r) && r.geo == m.geo == d.geo && InTable(d.geo, p)
    requires Untouched(d, m, p) && Untouched(m, r, p)
    ensures Untouched(d, r, p)
  {
    hide Slots, Payload, BlockBytes;
  }

  /** How many of the first k blocks are packed anew. */
  ghost function Repacks(d: Disk, l: nat, keep: seq<bool>, n: nat, k: nat): (r: nat)
    requires Shape(d) && l < d.geo.nl && k <= n <= d.geo.maxBlocks
  {
    if k == 0 then 0
    else Repacks(d, l, keep, n, k - 1) + if Evicts(keep, n, k - 1) && !Fresh(d, Pos(l, k - 1)) then 1 else 0
  }

  /** A layer that packs nothing leaves every slot and byte alone. */
  lemma {:induction false} QuietLayer(d: Disk, l: nat, keep: seq<bool>, n: nat, cache: Layer, k: nat)
    requires Ok(d) && l < d.geo.nl && k <= n <= d.geo.maxBlocks && Resident(d.geo, cache, n)
    requires Repacks(d, l, keep, n, k) == 0
    ensures SameSlots(d, LayerRun(d, l, keep, n, cache, k))
  {
    hide Slots, SlotAt, BlockBytes, Packed, Payload, ContentOk, Stored;
    if k > 0 {
      QuietLayer(d, l, keep, n, cache, k - 1);
      LayerRunSpec(d, l, keep, n, cache, k - 1);
      var before := LayerRun(d, l, keep, n, cache, k - 1);
      assert At(before, Pos(l, k - 1)) == At(d, Pos(l, k - 1));
      var e := Evicts(keep, n, k - 1);
      FlaggedOk(before, Pos(l, k - 1), e);
      RunStep(d, l, keep, n, cache, k);
      assert LayerRun(d, l, keep, n, cache, k) == Flagged(before, Pos(l, k - 1), e);
    }
  }

  // ----- a whole round -----

  /** The decisions of the first k layers; everything else is as it was. */
  ghost predicate RoundSettled(d: Disk, r: Disk, keeps: seq<seq<bool>>, n: nat, caches: seq<Layer>, k: nat)
    requires Ok(d) && Ok(r) && r.geo == d.geo && k <= |keeps| && k <= |caches| && k <= d.geo.nl && n <= d.geo.maxBlocks
  {
    && (forall p | InTable(d.geo, p) && p.l < k && p.b < n ::
          Resident(d.geo, caches[p.l], n) && Settled(d, r, p, Evicts(keeps[p.l], n, p.b), caches[p.l][p.b].value))
    && (forall p | InTable(d.geo, p) && !(p.l < k && p.b < n) :: Untouched(d, r, p))
  }

  lemma RoundStart(d: Disk, n: nat, caches: seq<Layer>)
    requires Ok(d) && n <= d.geo.maxBlocks
    ensures RoundSettled(d, d, [], n, caches, 0)
  {}

  lemma RoundStep(d: Disk, m: Disk, r: Disk, keeps: seq<seq<bool>>, keep: seq<bool>, n: nat, caches: seq<Layer>, k: nat)
    requires Ok(d) && Ok(m) && Ok(r) && r.geo == m.geo == d.geo && k == |keeps| < d.geo.nl && k < |caches| && n <= d.geo.maxBlocks
    requires Resident(d.geo, caches[k], n)
    requires RoundSettled(d, m, keeps, n, caches, k) && LayerSettled(m, r, k, keep, n, caches[k], n)
    ensures RoundSettled(d, r, keeps + [keep], n, caches, k + 1)
  {
    hide Ok, Settled, Untouched, ContentOk;
    var keeps' := keeps + [keep];
    forall p | InTable(d.geo, p) && p.l < k + 1 && p.b < n
      ensures Resident(d.geo, caches[p.l], n)
      ensures Settled(d, r, p, Evicts(keeps'[p.l], n, p.b), caches[p.l][p.b].value)
    {
      if p.l < k {
        SettledThen(d, m, r, p, Evicts(keeps[p.l], n, p.b), caches[p.l][p.b].value);
      } else {
        assert p == Pos(k, p.b);
        ThenSettled(d, m, r, p, Evicts(keep, n, p.b), caches[p.l][p.b].value);
      }
    }
    forall p | InTable(d.geo, p) && !(p.l < k + 1 && p.b < n) ensures Untouched(d, r, p) {
      UntouchedTrans(d, m, r, p);
    }
  }

  /** With the flags cleared, a layer with nothing to decide is settled too. */
  lemma IdleLayer(d: Disk, l: nat, keep: seq<bool>, n: nat, cache: Layer)
    requires Ok(d) && l < d.geo.nl && n <= 1 <= d.geo.maxBlocks && Resident(d.geo, cache, n)
    requires forall p | InTable(d.geo, p) && p.l == l :: !At(d, p).evict
    ensures LayerSettled(d, d, l, keep, n, cache, n)
  {
    hide Slots, SlotAt, BlockBytes, Packed, Payload;
  }
}
