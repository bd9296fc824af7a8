/**
 Why a carried-on state must not be skipped. A round that is too short leaves before it marks the
 rewritten blocks, so their payloads stay fresh. This is harmless exactly if none of them had one.
 */
module L3Skip {
  import opened Residues
  import opened L3Quant
  import opened L3Layout
  import opened L3Int8
  import opened L3Disk
  import opened L3Evict
  import opened L3Pick
  import opened L3Store
  import opened L3Rounds

  /** Every fresh payload still tells what its block holds. */
  ghost predicate StillGood(d: Disk, w: World, m: Memory) {
    Ok(d) && forall p | InTable(d.geo, p) && Fresh(d, p) :: Good(d, w, m, p)
  }

  // ----- blocks of one value -----

  function ConstRows(geo: Geo, x: real): (rows: seq<Group>) {
    seq(RowCount(geo), _ => seq(64, _ => x))
  }

  function ConstContent(geo: Geo, x: real): (c: Content) {
    Content(ConstRows(geo, x), ConstRows(geo, x))
  }

  function ConstScales(geo: Geo): (s: Scales) {
    Scales(seq(ScaleCount(geo), _ => 127.0), seq(ScaleCount(geo), _ => 127.0))
  }

  function ConstHeld(geo: Geo, w: World, x: int): (h: Held) {
    var q := IntRows(seq(RowCount(geo), _ => seq(64, _ => x)), seq(RowCount(geo), _ => seq(64, _ => x)));
    if !w.ints then Floats(ConstContent(geo, x as real))
    else if w.floats then Both(ConstContent(geo, x as real), q) else OnlyInts(q)
  }

  lemma ConstOk(geo: Geo, w: World, x: int)
    requires GeoOk(geo) && (w.floats || w.ints) && 0 <= x <= 2
    ensures HeldOk(geo, ConstHeld(geo, w, x)) && InWorld(w, ConstHeld(geo, w, x)) && Sized(geo, ConstScales(geo))
    ensures Means(geo, ConstHeld(geo, w, x), ConstScales(geo)) == ConstContent(geo, x as real)
    ensures Fits(geo, ConstContent(geo, x as real), ConstScales(geo)) && ContentOk(geo, ConstContent(geo, x as real))
  {
    hide Owner, RowCount, ScaleCount;
    ConstRead(geo, x);
  }

  lemma ConstRead(geo: Geo, x: int)
    requires GeoOk(geo)
    ensures var q: seq<Ints> := seq(RowCount(geo), _ => seq(64, _ => x));
            ReadInts(geo, q, ConstScales(geo).k) == ConstRows(geo, x as real)
  {
    var q: seq<Ints> := seq(RowCount(geo), _ => seq(64, _ => x));
    assert Ratio(127.0, 127.0) == 1.0;
    assert Value(x, 1.0) == x as real;
    hide Ratio, Value, RowCount, ScaleCount;
    forall r: nat | r < RowCount(geo) ensures ReadInts(geo, q, ConstScales(geo).k)[r] == seq(64, _ => x as real) {
      assert ConstScales(geo).k[Owner(geo, r)] == 127.0;
    }
  }

  lemma ConstDiffer(geo: Geo, x: real, y: real)
    requires GeoOk(geo) && x != y
    ensures ConstContent(geo, x) != ConstContent(geo, y)
  {
    RowsPositive(geo.bs, geo.nkv, Groups(geo));
    assert ConstRows(geo, x)[0][0] == x && ConstRows(geo, y)[0][0] == y;
  }

  lemma RowsPositive(a: nat, b: nat, c: nat)
    requires a >= 1 && b >= 1 && c >= 1
    ensures Nat(Nat(a, b), c) >= 1
  {
    assert a * b >= 1;
    assert (a * b) * c >= 1;
  }

  function Uniform<X>(geo: Geo, x: X): (r: seq<seq<X>>)
    ensures Grid(geo, r)
  {
    seq(geo.nl, _ => seq(geo.maxBlocks, _ => x))
  }

  lemma UniformRows(geo: Geo, w: World, x: int)
    requires GeoOk(geo) && (w.floats || w.ints) && 0 <= x <= 2
    ensures NewRows(geo, w, Uniform(geo, ConstHeld(geo, w, x)), Uniform(geo, ConstScales(geo)))
  {
    ConstOk(geo, w, x);
    hide HeldOk, InWorld, Sized, Fits, Means, ConstHeld, ConstScales;
  }

  // ----- the exact condition -----

  /**
   A round is skipped after blocks `full` to n were rewritten. Whatever the new rows are, every fresh
   payload still tells what its block holds: if and only if no rewritten block has a fresh payload.
   */
  lemma SkipIsHarmless(d: Disk, cfg: Geo, w: World, m: Memory, full: nat, n: nat, stable: nat)
    requires Ok(d) && SameRows(d.geo, cfg) && d.geo.maxBlocks <= cfg.maxBlocks && n <= cfg.maxBlocks
    requires MemOk(cfg, w, m) && AllGood(d, w, m, stable)
    ensures (forall next | Rewritten(cfg, w, m, next, full, n) :: StillGood(d, w, next))
       <==> forall p | InTable(d.geo, p) && Fresh(d, p) :: !(full <= p.b < n)
  {
    hide Good, MemOk, NewRows, Refilled, Slots, StillGood, AllGood, Rewritten;
    if forall p | InTable(d.geo, p) && Fresh(d, p) :: !(full <= p.b < n) {
      forall next | Rewritten(cfg, w, m, next, full, n) ensures StillGood(d, w, next) {
        Untold(d, cfg, w, m, next, full, n, stable);
      }
    } else {
      var p :| InTable(d.geo, p) && Fresh(d, p) && full <= p.b < n;
      var next := Breaks(d, cfg, w, m, full, n, stable, p);
    }
  }

  /** The memory after some prefill of blocks `full` to n. */
  ghost predicate Rewritten(cfg: Geo, w: World, m: Memory, next: Memory, full: nat, n: nat) {
    MemOk(cfg, w, m) && exists blocks, sc :: NewRows(cfg, w, blocks, sc) && next == Refilled(cfg, m, blocks, sc, full, n)
  }

  lemma Untold(d: Disk, cfg: Geo, w: World, m: Memory, next: Memory, full: nat, n: nat, stable: nat)
    requires Ok(d) && SameRows(d.geo, cfg) && d.geo.maxBlocks <= cfg.maxBlocks && n <= cfg.maxBlocks
    requires MemOk(cfg, w, m) && AllGood(d, w, m, stable) && Rewritten(cfg, w, m, next, full, n)
    requires forall p | InTable(d.geo, p) && Fresh(d, p) :: !(full <= p.b < n)
    ensures StillGood(d, w, next)
  {
    hide AkinRows, MemOk, NewRows, Refilled, Slots, ContentOk, Payload, Sized;
    forall p | InTable(d.geo, p) && Fresh(d, p) ensures Good(d, w, next, p) {
      assert Good(d, w, m, p);
      NotRewritten(cfg, w, m, next, full, n, p);
    }
  }

  lemma NotRewritten(cfg: Geo, w: World, m: Memory, next: Memory, full: nat, n: nat, p: Pos)
    requires Rewritten(cfg, w, m, next, full, n) && InTable(cfg, p) && !(full <= p.b < n)
    ensures next.origin == m.origin && Grid(cfg, next.scales) && Grid(cfg, next.content) && Grid(cfg, m.scales) && Grid(cfg, m.content)
    ensures next.scales[p.l][p.b] == m.scales[p.l][p.b] && next.content[p.l][p.b] == m.content[p.l][p.b]
  {
    hide HeldOk, Sized, Fits, ContentOk, Means, InWorld, MeanAt, MeantBy;
    var blocks, sc :| NewRows(cfg, w, blocks, sc) && next == Refilled(cfg, m, blocks, sc, full, n);
    RefilledEntry(cfg, w, m, blocks, sc, full, n, p);
  }

  /** One of three constant rewritings leaves the payload of p telling something else. */
  lemma Breaks(d: Disk, cfg: Geo, w: World, m: Memory, full: nat, n: nat, stable: nat, p: Pos) returns (next: Memory)
    requires Ok(d) && SameRows(d.geo, cfg) && d.geo.maxBlocks <= cfg.maxBlocks && n <= cfg.maxBlocks
    requires MemOk(cfg, w, m) && AllGood(d, w, m, stable) && InTable(d.geo, p) && Fresh(d, p) && full <= p.b < n
    ensures Rewritten(cfg, w, m, next, full, n) && !StillGood(d, w, next)
  {
    MemGrids(cfg, w, m);
    assert Good(d, w, m, p);
    var o, s := m.origin[p.l][p.b], ConstScales(cfg);
    hide MemOk, NewRows, Refilled, Slots, ContentOk, Payload, Back, ConstContent, ConstHeld, ConstScales, Grid;
    ConstDiffer(cfg, 0.0, 1.0);
    ConstDiffer(cfg, 0.0, 2.0);
    ConstDiffer(cfg, 1.0, 2.0);
    ConstOk(cfg, w, 0);
    SameMeans(cfg, d.geo, ConstHeld(cfg, w, 0), s);
    var b := Back(d.geo, w, o, s);
    var x := if ConstContent(cfg, 0.0) != o && ConstContent(cfg, 0.0) != b then 0
         else if ConstContent(cfg, 1.0) != o && ConstContent(cfg, 1.0) != b then 1 else 2;
    assert ConstContent(cfg, x as real) != o && ConstContent(cfg, x as real) != b;
    UniformRows(cfg, w, x);
    ConstOk(cfg, w, x);
    Rewrites(cfg, w, m, x, full, n, p);
    var r := Refilled(cfg, m, Uniform(cfg, ConstHeld(cfg, w, x)), Uniform(cfg, ConstScales(cfg)), full, n);
    next := r;
    assert r.content[p.l][p.b] == ConstContent(cfg, x as real) && r.scales[p.l][p.b] == s && r.origin[p.l][p.b] == o;
    assert !Akin(d.geo, w, r, p);
    assert !Good(d, w, r, p);
  }

  lemma Rewrites(cfg: Geo, w: World, m: Memory, x: int, full: nat, n: nat, p: Pos)
    requires MemOk(cfg, w, m) && GeoOk(cfg) && (w.floats || w.ints) && 0 <= x <= 2 && InTable(cfg, p) && full <= p.b < n
    ensures NewRows(cfg, w, Uniform(cfg, ConstHeld(cfg, w, x)), Uniform(cfg, ConstScales(cfg)))
    ensures var r := Refilled(cfg, m, Uniform(cfg, ConstHeld(cfg, w, x)), Uniform(cfg, ConstScales(cfg)), full, n);
            && Grid(cfg, r.content) && Grid(cfg, r.scales) && r.origin == m.origin
            && r.content[p.l][p.b] == ConstContent(cfg, x as real) && r.scales[p.l][p.b] == ConstScales(cfg)
  {
    UniformRows(cfg, w, x);
    ConstOk(cfg, w, x);
    var blocks, sc := Uniform(cfg, ConstHeld(cfg, w, x)), Uniform(cfg, ConstScales(cfg));
    hide MemOk, NewRows, Refilled, ConstContent, ConstHeld, ConstScales, Means, HeldOk, Sized, Fits;
    RewrittenEntry(cfg, w, m, blocks, sc, full, n, p);
    GridsOf(cfg, w, m, blocks, sc, full, n);
  }

  // ----- a run that loses rows -----

  const TINY_GEO: Geo := Geo(1, 1, 64, 1, 2)
  const FLOATS: World := World(true, false)
  /** Everything but the hottest block goes; sequences below two positions are skipped. */
  const RUN: Options := Options(1.0, 2, 0, true)
  const FIRST: Pos := Pos(0, 0)

  lemma RunGeo()
    ensures GeoOk(TINY_GEO) && BlockBytes(TINY_GEO) == 80 && FullFits(TINY_GEO) && InTable(TINY_GEO, FIRST)
    ensures BlockCount(2, 1) == 2 && BlockCount(1, 1) == 1 && BlockCount(0, 1) == 0 && WholeBlocks(0, 1) == 0 && WholeBlocks(1, 1) == 1
    ensures TINY_GEO == Geo(1, 1, 64, 1, 2) && FLOATS == World(true, false) && FIRST == Pos(0, 0) && RUN.ratio == 1.0
  {}

  /** With one hot and one cold block the first one goes. */
  lemma FirstGoes(keeps: seq<seq<bool>>)
    requires KeepsChosen(keeps, 1, 2, [0.0, 1.0], 1, 2, 1.0)
    ensures |keeps| == 1 && Evicts(keeps[0], 2, 0)
  {
    var importance := [0.0, 1.0];
    var mass: seq<real> :| |mass| == 2 && Masses(mass, importance, 1, 2) && Kept(keeps[0], mass, KeepCount(1.0, 2));
    assert BlockEnd(0, 1, 2) == 1 && BlockEnd(1, 1, 2) == 2;
    assert mass[0] == Mass(importance, 0, 1) == 0.0;
    assert mass[1] == Mass(importance, 1, 2) == 1.0;
    assert KeepCount(1.0, 2) == 1;
    assert 1 in Before(mass, 0);
    assert Rank(mass, 0) >= 1;
  }

  /** The first block's payload is fresh and packs the value x, whatever the block holds. */
  ghost predicate Served(inf: Inference, x: real)
    reads inf, inf.l3
  {
    && inf.cfg == TINY_GEO && inf.w == FLOATS && inf.l3.open && inf.l3.geo == TINY_GEO && inf.l3.path == "kv" && inf.l3.mem.Some?
    && PayloadIsOf(inf.l3.View(), x)
  }

  ghost predicate PayloadIsOf(d: Disk, x: real) {
    && Ok(d) && d.geo == TINY_GEO && Fresh(d, FIRST) && ContentOk(TINY_GEO, ConstContent(TINY_GEO, x))
    && Payload(d, FIRST) == Packed(TINY_GEO, ConstContent(TINY_GEO, x))
  }

  /** The first block is out of RAM after a round, and its payload is the one the round left. */
  lemma FirstEffect(was: Memory, now: Memory, before: Disk, retain: bool, r: Disk, keeps: seq<seq<bool>>, full: nat, x: real)
    requires RoundEffect(TINY_GEO, was, now, before, retain, r, keeps, 2, full) && |keeps| == 1 && Evicts(keeps[0], 2, 0) && r.geo == TINY_GEO
    requires if retain then full == 1 && PayloadIsOf(before, x) else was.content[0][0] == ConstContent(TINY_GEO, x)
    ensures PayloadIsOf(r, x) && now.held[0][0].None? && Grid(TINY_GEO, was.content) && now.content == was.content
  {
    hide Packed, Payload, Slots, ContentOk, Evicts, ConstContent;
    assert InTable(TINY_GEO, FIRST);
  }

  lemma MirrorThere(l3: State)
    requires l3.open && l3.Valid() && l3.Mirrored() && l3.geo == TINY_GEO && Fresh(l3.View(), FIRST)
    ensures l3.mem.Some?
  {
    NoMirror(l3.View(), FIRST, if l3.mem.Some? then None else l3.mem, l3.memSize);
  }

  lemma Standings(inf: Inference)
    requires inf.Inv()
    ensures inf.Standing()
  {
    hide MemOk, Covers, AllGood, AllReachable;
  }

  lemma Mirrors(inf: Inference)
    requires inf.Standing()
    ensures inf.l3.Valid() && (inf.l3.open ==> inf.l3.Mirrored()) && MemOk(inf.cfg, inf.w, inf.Mem())
  {
    hide MemOk, Covers;
  }

  lemma NothingToRestore(cfg: Geo, w: World, m: Memory)
    requires MemOk(cfg, w, m)
    ensures ResidentTo(cfg, m.cache, 0, cfg.nl, 0)
  {
    MemGrids(cfg, w, m);
  }

  /** A sequence of two positions: the first block is packed and leaves RAM. */
  method FirstRound(inf: Inference)
    requires inf.Inv() && inf.cfg == TINY_GEO && inf.w == FLOATS && !inf.l3.open
    modifies inf, inf.l3
    ensures inf.Inv() && inf.seqLen == 2 && Served(inf, 1.0)
  {
    hide *;
    RunGeo();
    Standings(inf);
    Mirrors(inf);
    UniformRows(TINY_GEO, FLOATS, 1);
    InfMem(inf);
    NothingToRestore(TINY_GEO, FLOATS, inf.Mem());
    ghost var was := inf.Mem();
    inf.Prefill(0, 2, Uniform(TINY_GEO, ConstHeld(TINY_GEO, FLOATS, 1)), Uniform(TINY_GEO, ConstScales(TINY_GEO)), [0.0, 1.0]);
    Rewrites(TINY_GEO, FLOATS, was, 1, 0, 2, FIRST);
    ghost var m, before := inf.Mem(), inf.l3.View();
    InfMem(inf);
    NewRun(inf);
    ghost var path0 := inf.l3.path;
    ghost var ran, keeps := inf.EvictAfterPrefill(0, true, Some("kv"), RUN, true);
    FirstGoes(keeps);
    AfterRound(inf, path0);
    ViewGeo(inf.l3);
    Standings(inf);
    Mirrors(inf);
    InfMem(inf);
    FirstEffect(m, inf.Mem(), before, false, inf.l3.View(), keeps, 0, 1.0);
    PayloadFresh(inf.l3.View(), 1.0);
    MirrorThere(inf.l3);
    ServedIs(inf, 1.0);
  }

  lemma InfMem(inf: Inference)
    ensures inf.Mem() == Memory(inf.held, inf.scales, inf.cache, inf.content, inf.origin)
  {}

  lemma ServedIs(inf: Inference, x: real)
    ensures Served(inf, x) <==>
              && inf.cfg == TINY_GEO && inf.w == FLOATS && inf.l3.open && inf.l3.geo == TINY_GEO && inf.l3.path == "kv"
              && inf.l3.mem.Some? && PayloadIsOf(inf.l3.View(), x)
  {}

  lemma PayloadFresh(d: Disk, x: real)
    requires PayloadIsOf(d, x)
    ensures Ok(d) && Shape(d) && d.geo == TINY_GEO && InTable(TINY_GEO, FIRST) && Fresh(d, FIRST)
  {
    hide Slots, Payload, Packed;
  }

  /** The settings of the run: the table fits, and a round takes place on two positions. */
  lemma NewRun(inf: Inference)
    requires inf.cfg == TINY_GEO
    ensures inf.RoundGeo(RUN) == TINY_GEO && FullFits(inf.RoundGeo(RUN))
    ensures inf.seqLen >= 2 && (!inf.l3.open || inf.Retains(true, Some("kv"), TINY_GEO)) ==> inf.Rounds(true, Some("kv"), RUN, true)
    ensures inf.seqLen == 1 ==> !inf.Rounds(true, Some("kv"), RUN, true)
    ensures !inf.l3.open ==> !inf.Retains(true, Some("kv"), TINY_GEO)
    ensures inf.l3.open && inf.l3.geo == TINY_GEO && inf.l3.path == "kv" && inf.l3.mem.Some? ==> inf.Retains(true, Some("kv"), TINY_GEO)
  {
    RunGeo();
  }

  lemma AfterRound(inf: Inference, was: string)
    ensures PathAfter(false, was, Some("kv"), inf.l3.path) ==> inf.l3.path == "kv"
  {}

  lemma ViewGeo(l3: State)
    ensures l3.View().geo == l3.geo
  {}

  // ----- the skipped round -----

  /** The first block was rewritten by a sequence too short for a round; its old payload is still fresh. */
  ghost predicate Overlooked(inf: Inference)
    reads inf, inf.l3
  {
    && Served(inf, 1.0) && inf.Standing() && inf.seqLen == 1 && ResidentTo(TINY_GEO, inf.cache, 1, 1, 0)
    && Grid(TINY_GEO, inf.content) && inf.content[0][0] == ConstContent(TINY_GEO, 2.0)
  }

  lemma OverlookedIs(inf: Inference)
    requires Served(inf, 1.0) && inf.Standing() && inf.seqLen == 1 && AllResident(TINY_GEO, inf.cache, 1) && inf.cfg == TINY_GEO
    requires Grid(TINY_GEO, inf.content) && inf.content[0][0] == ConstContent(TINY_GEO, 2.0)
    ensures Overlooked(inf)
  {
    MemGrids(inf.cfg, inf.w, inf.Mem());
    hide MemOk, Covers, Slots, ContentOk, ConstContent;
    forall p | InTable(TINY_GEO, p) && p.b < 1 ensures inf.cache[p.l][p.b].Some? {
      assert Resident(TINY_GEO, inf.cache[p.l], 1);
    }
  }

  lemma OverlookedParts(inf: Inference)
    requires Overlooked(inf)
    ensures Served(inf, 1.0) && inf.Standing() && inf.seqLen == 1 && ResidentTo(TINY_GEO, inf.cache, 1, 1, 0)
    ensures Grid(TINY_GEO, inf.content) && inf.content[0][0] == ConstContent(TINY_GEO, 2.0)
  {
    hide Served;
  }

  lemma PreparedIs(inf: Inference, keep: nat)
    requires inf.Prepared(keep)
    ensures inf.Standing() && AllResident(inf.cfg, inf.cache, BlockCount(inf.seqLen, inf.cfg.bs))
  {
    hide MemOk, Covers;
  }

  /** One new position: the first block is rewritten, and the round is skipped before anything is marked. */
  method SkippedRound(inf: Inference)
    requires inf.Inv() && inf.seqLen == 2 && Served(inf, 1.0)
    modifies inf, inf.l3
    ensures Overlooked(inf)
  {
    hide *;
    RunGeo();
    ServedIs(inf, 1.0);
    Standings(inf);
    Mirrors(inf);
    UniformRows(TINY_GEO, FLOATS, 2);
    InfMem(inf);
    NothingToRestore(TINY_GEO, FLOATS, inf.Mem());
    ghost var was := inf.Mem();
    inf.Prefill(0, 1, Uniform(TINY_GEO, ConstHeld(TINY_GEO, FLOATS, 2)), Uniform(TINY_GEO, ConstScales(TINY_GEO)), [0.0]);
    Rewrites(TINY_GEO, FLOATS, was, 2, 0, 1, FIRST);
    ghost var m := inf.Mem();
    InfMem(inf);
    NewRun(inf);
    PreparedIs(inf, 0);
    ghost var ran, keeps := inf.EvictAfterPrefill(0, true, Some("kv"), RUN, true);
    InfMem(inf);
    AsideIs(inf.l3);
    ServedIs(inf, 1.0);
    OverlookedIs(inf);
  }

  twostate lemma AsideIs(l3: State)
    ensures l3.Aside() == old(l3.Aside()) ==> l3.mem == old(l3.mem) && l3.path == old(l3.path)
    ensures l3.View() == old(l3.View()) ==> l3.geo == old(l3.geo)
  {}

  // ----- the round after it -----

  lemma PacksDiffer(geo: Geo)
    requires geo == Geo(1, 1, 64, 1, 2)
    ensures ContentOk(geo, ConstContent(geo, 1.0)) && ContentOk(geo, ConstContent(geo, 2.0))
    ensures Packed(geo, ConstContent(geo, 1.0)) != Packed(geo, ConstContent(geo, 2.0))
  {
    TinyRow(geo, 1.0);
    TinyRow(geo, 2.0);
    hide ConstContent;
    DifferentPacks(geo, ConstContent(geo, 1.0), ConstContent(geo, 2.0));
  }

  lemma DifferentPacks(geo: Geo, x: Content, y: Content)
    requires geo == Geo(1, 1, 64, 1, 2) && ContentOk(geo, x) && ContentOk(geo, y)
    requires x.k[0] == seq(64, _ => 1.0) && y.k[0] == seq(64, _ => 2.0)
    ensures Packed(geo, x) != Packed(geo, y)
  {
    hide Pack64, Packed, Number, Count;
    PackedAt(geo, x, 0, 0, 0, 0);
    PackedAt(geo, y, 0, 0, 0, 0);
    assert RowIndex(geo, 0, 0, 0) == 0;
    ScalesDiffer(x.k[0], y.k[0]);
  }

  lemma TinyRow(geo: Geo, x: real)
    requires geo == Geo(1, 1, 64, 1, 2)
    ensures ContentOk(geo, ConstContent(geo, x)) && ConstContent(geo, x).k[0] == seq(64, _ => x)
  {
    assert RowCount(geo) == 1;
    hide RowCount;
    assert ConstRows(geo, x)[0] == seq(64, _ => x);
  }

  lemma ScalesDiffer(u: Group, v: Group)
    requires u == seq(64, _ => 1.0) && v == seq(64, _ => 2.0)
    ensures Pack64(u) != Pack64(v)
  {
    assert Abs(u[..32][0]) == 1.0 && Abs(v[..32][0]) == 2.0;
    hide Nibbles;
    Halves(u);
    Halves(v);
    AmaxIs(u[..32], 1.0);
    AmaxIs(v[..32], 2.0);
    ScaleFits(u[..32]);
    ScaleFits(v[..32]);
  }

  /** The first block has left RAM, and its payload does not pack its rows. */
  ghost predicate RowsLost(inf: Inference)
    reads inf, inf.l3
  {
    && inf.seqLen == 2 && inf.l3.open && Grid(TINY_GEO, inf.held) && inf.held[0][0].None? && PayloadIsOf(inf.l3.View(), 1.0)
    && Grid(TINY_GEO, inf.content) && ContentOk(TINY_GEO, inf.content[0][0])
    && Payload(inf.l3.View(), FIRST) != Packed(TINY_GEO, inf.content[0][0])
  }

  lemma LostIs(inf: Inference)
    requires inf.seqLen == 2 && inf.l3.open && Grid(TINY_GEO, inf.held) && inf.held[0][0].None? && PayloadIsOf(inf.l3.View(), 1.0)
    requires Grid(TINY_GEO, inf.content) && inf.content[0][0] == ConstContent(TINY_GEO, 2.0)
    ensures RowsLost(inf)
  {
    hide Slots, Payload, Packed, ConstContent;
    PacksDiffer(TINY_GEO);
  }

  /** The next sequence reuses the rewritten block; its old payload passes for the packing of the new rows. */
  method LosingRound(inf: Inference)
    requires Overlooked(inf)
    modifies inf, inf.l3
    ensures RowsLost(inf)
  {
    hide *;
    RunGeo();
    OverlookedParts(inf);
    ServedIs(inf, 1.0);
    Mirrors(inf);
    UniformRows(TINY_GEO, FLOATS, 2);
    InfMem(inf);
    ghost var was := inf.Mem();
    var blocks, sc := Uniform(TINY_GEO, ConstHeld(TINY_GEO, FLOATS, 2)), Uniform(TINY_GEO, ConstScales(TINY_GEO));
    inf.Prefill(1, 2, blocks, sc, [0.0, 1.0]);
    RefilledEntry(TINY_GEO, FLOATS, was, blocks, sc, 1, 2, FIRST);
    ghost var m, before := inf.Mem(), inf.l3.View();
    InfMem(inf);
    NewRun(inf);
    ghost var ran, keeps := inf.EvictAfterPrefill(1, true, Some("kv"), RUN, true);
    FirstGoes(keeps);
    ViewGeo(inf.l3);
    InfMem(inf);
    FirstEffect(m, inf.Mem(), before, true, inf.l3.View(), keeps, 1, 1.0);
    Mirrors(inf);
    MemGrids(TINY_GEO, FLOATS, inf.Mem());
    LostIs(inf);
  }

  /** From an empty cache by real calls: skipping a round before it marks what was rewritten loses rows. */
  method SkippedRunLosesRows() returns (inf: Inference)
    ensures RowsLost(inf)
  {
    hide *;
    var state := new State();
    RunGeo();
    EmptyRows();
    inf := new Inference(TINY_GEO, FLOATS, state, Uniform(TINY_GEO, ConstContent(TINY_GEO, 0.0)), Uniform(TINY_GEO, ConstScales(TINY_GEO)));
    FirstRound(inf);
    SkippedRound(inf);
    LosingRound(inf);
  }

  lemma EmptyRows()
    ensures var rows, sc := Uniform(TINY_GEO, ConstContent(TINY_GEO, 0.0)), Uniform(TINY_GEO, ConstScales(TINY_GEO));
            && AllFit(TINY_GEO, FLOATS, rows, sc) && (FLOATS.floats || FLOATS.ints)
            && forall p | InTable(TINY_GEO, p) :: Sized(TINY_GEO, sc[p.l][p.b]) && ContentOk(TINY_GEO, rows[p.l][p.b])
  {
    ConstOk(TINY_GEO, FLOATS, 0);
    hide ContentOk, Sized, Fits, ConstContent, ConstScales;
  }
}
