/**
 Batch selection, preemption and the generation step over requests that draw their cache blocks
 from the pool. The running mask is the set of its bits.
 */
module Scheduler {
  import opened Sets
  import opened BlockPool

  const MAX_BATCH: nat := 32
  const BLOCK_SIZE: nat := 8
  const TABLE_MAX: nat := 128

  datatype Status = Waiting | Running | Preempted | Finished

  datatype Request = Request(seqLen: nat, pos: nat, table: seq<nat>, status: Status, priority: real, tokens: map<nat, nat>)

  /** How many of the first k requests have a status. */
  function CountOf(rs: seq<Request>, st: Status, k: nat): (n: nat)
    requires k <= |rs|
    ensures n <= k
  {
    if k == 0 then 0 else CountOf(rs, st, k - 1) + if rs[k - 1].status == st then 1 else 0
  }

  function RunningCount(rs: seq<Request>): (n: nat) {
    CountOf(rs, Running, |rs|)
  }

  lemma {:induction false} CountSet(rs: seq<Request>, i: nat, r: Request, st: Status, k: nat)
    requires i < |rs| && k <= |rs|
    ensures CountOf(rs[i := r], st, k)
         == CountOf(rs, st, k) + (if i < k && r.status == st then 1 else 0) - if i < k && rs[i].status == st then 1 else 0
  {
    if k > 0 { CountSet(rs, i, r, st, k - 1); }
  }

  function WithStatus(rs: seq<Request>, i: nat, st: Status): (r: seq<Request>)
    requires i < |rs|
  {
    rs[i := rs[i].(status := st)]
  }

  // ----- selecting a batch -----

  /** The waiting requests, highest priority first. */
  ghost predicate Ranked(rs: seq<Request>, order: seq<nat>) {
    && Distinct(order) && (forall i: nat :: i in order <==> i < |rs| && rs[i].status == Waiting)
    && forall a, b | 0 <= a < b < |order| :: order[a] < |rs| && order[b] < |rs| && rs[order[a]].priority >= rs[order[b]].priority
  }

  /** The waiting requests in index order. */
  method Collect(rs: seq<Request>) returns (w: array<nat>)
    ensures fresh(w) && Members(w[..], rs)
  {
    var found: seq<nat> := [];
    for i := 0 to |rs|
      invariant Distinct(found) && forall x: nat :: x in found <==> x < i && rs[x].status == Waiting
    {
      if rs[i].status == Waiting { found := found + [i]; }
    }
    w := new nat[|found|](k requires 0 <= k < |found| => found[k]);
    assert w[..] == found;
  }

  ghost predicate Members(s: seq<nat>, rs: seq<Request>) {
    Distinct(s) && forall x: nat :: x in s <==> x < |rs| && rs[x].status == Waiting
  }

  lemma MembersSwap(s: seq<nat>, rs: seq<Request>, i: nat, j: nat)
    requires Members(s, rs) && i < j < |s|
    ensures Members(s[i := s[j]][j := s[i]], rs)
  {
    var t := s[i := s[j]][j := s[i]];
    forall x: nat ensures x in t <==> x in s {
      if x in s {
        var k :| 0 <= k < |s| && s[k] == x;
        assert t[if k == i then j else if k == j then i else k] == x;
      }
    }
  }

  ghost predicate Within(s: seq<nat>, rs: seq<Request>) {
    forall a | 0 <= a < |s| :: s[a] < |rs|
  }

  /** The first i places hold the i highest priorities, in order. */
  ghost predicate Placed(s: seq<nat>, rs: seq<Request>, i: nat)
    requires Within(s, rs)
  {
    forall a, b | 0 <= a < b < |s| && a < i :: rs[s[a]].priority >= rs[s[b]].priority
  }

  /** Midway through placing rank i: nothing between i and j outranks it. */
  ghost predicate Sorting(s: seq<nat>, rs: seq<Request>, i: nat, j: nat) {
    && Members(s, rs) && Within(s, rs) && i <= |s| && Placed(s, rs, i)
    && forall b | i < b < j && b < |s| :: rs[s[i]].priority >= rs[s[b]].priority
  }

  lemma SortSwap(s: seq<nat>, rs: seq<Request>, i: nat, j: nat)
    requires Sorting(s, rs, i, j) && i < j < |s| && rs[s[i]].priority < rs[s[j]].priority
    ensures Sorting(s[i := s[j]][j := s[i]], rs, i, j + 1)
  {
    MembersSwap(s, rs, i, j);
    var t := s[i := s[j]][j := s[i]];
    hide Members;
    forall a, b | 0 <= a < b < |t| && a < i ensures rs[t[a]].priority >= rs[t[b]].priority {
      assert t[a] == s[a] && t[b] == s[if b == i then j else if b == j then i else b];
    }
  }

  lemma SortKeep(s: seq<nat>, rs: seq<Request>, i: nat, j: nat)
    requires Sorting(s, rs, i, j) && i < j < |s| && rs[s[i]].priority >= rs[s[j]].priority
    ensures Sorting(s, rs, i, j + 1)
  {}

  lemma SortRow(s: seq<nat>, rs: seq<Request>, i: nat)
    requires Sorting(s, rs, i, |s|) && i < |s|
    ensures Sorting(s, rs, i + 1, i + 2)
  {}

  /** The exchange sort of the source. */
  method SortByPriority(w: array<nat>, rs: seq<Request>)
    requires Members(w[..], rs)
    modifies w
    ensures Ranked(rs, w[..])
  {
    var n := w.Length;
    MembersWithin(w[..], rs);
    var i := 0;
    while i < n
      invariant 0 <= i <= n && Sorting(w[..], rs, i, i + 1)
    {
      PlaceRank(w, rs, i);
      SortRow(w[..], rs, i);
      i := i + 1;
    }
  }

  method PlaceRank(w: array<nat>, rs: seq<Request>, i: nat)
    requires i < w.Length && Sorting(w[..], rs, i, i + 1)
    modifies w
    ensures Sorting(w[..], rs, i, w.Length)
  {
    var j := i + 1;
    while j < w.Length
      invariant i < j <= w.Length && Sorting(w[..], rs, i, j)
    {
      assert w[i] == w[..][i] < |rs| && w[j] == w[..][j] < |rs|;
      hide Sorting;
      ghost var s := w[..];
      if rs[w[i]].priority < rs[w[j]].priority {
        SortSwap(s, rs, i, j);
        w[i], w[j] := w[j], w[i];
        assert w[..] == s[i := s[j]][j := s[i]];
      } else {
        SortKeep(s, rs, i, j);
      }
      j := j + 1;
    }
  }

  lemma MembersWithin(s: seq<nat>, rs: seq<Request>)
    requires Members(s, rs)
    ensures Within(s, rs)
  {
    forall a | 0 <= a < |s| ensures s[a] < |rs| { assert s[a] in s; }
  }

  // ----- the state -----

  /** The blocks requests own are exactly the blocks not free, each owned once. */
  ghost predicate Owned(rs: seq<Request>, flags: seq<bool>) {
    && |flags| == MAX_BLOCKS
    && (forall i, a | 0 <= i < |rs| && 0 <= a < |rs[i].table| :: rs[i].table[a] < MAX_BLOCKS && !flags[rs[i].table[a]])
    && (forall i, a, j, b | 0 <= i < |rs| && 0 <= a < |rs[i].table| && 0 <= j < |rs| && 0 <= b < |rs[j].table| ::
          rs[i].table[a] == rs[j].table[b] ==> i == j && a == b)
  }

  /** Blocks in all tables of the first k requests. */
  function Total(rs: seq<Request>, k: nat): (n: nat)
    requires k <= |rs|
  {
    if k == 0 then 0 else Total(rs, k - 1) + |rs[k - 1].table|
  }

  lemma {:induction false} TotalSet(rs: seq<Request>, i: nat, r: Request, k: nat)
    requires i < |rs| && k <= |rs|
    ensures Total(rs[i := r], k) == Total(rs, k) + if i < k then |r.table| - |rs[i].table| else 0
  {
    if k > 0 { TotalSet(rs, i, r, k - 1); }
  }

  ghost predicate Bounded(rs: seq<Request>) {
    |rs| <= MAX_BATCH && forall i | 0 <= i < |rs| :: |rs[i].table| <= TABLE_MAX
  }

  /** Only the statuses of some waiting requests changed, to running. */
  ghost predicate Admits(was: seq<Request>, now: seq<Request>) {
    && |now| == |was|
    && forall i | 0 <= i < |was| :: now[i] == was[i] || (was[i].status == Waiting && now[i] == was[i].(status := Running))
  }

  /** Whether rank k of the order is let in. */
  predicate LetIn(coins: seq<bool>, slots: nat, k: nat)
    requires k < |coins|
  {
    coins[k] || k < slots / 2
  }

  /** The requests after the first k ranks were looked at. */
  function AdmitTo(was: seq<Request>, order: seq<nat>, coins: seq<bool>, slots: nat, k: nat): (now: seq<Request>)
    requires Within(order, was) && k <= |order| && k <= |coins|
    ensures |now| == |was|
  {
    if k == 0 then was
    else
      var before := AdmitTo(was, order, coins, slots, k - 1);
      if LetIn(coins, slots, k - 1) then WithStatus(before, order[k - 1], Running) else before
  }

  ghost predicate AdmittedAt(was: seq<Request>, now: seq<Request>, order: seq<nat>, coins: seq<bool>, slots: nat, k: nat)
    requires Within(order, was) && k <= |order| && k <= |coins|
  {
    && |now| == |was|
    && (forall i | 0 <= i < k :: now[order[i]] == if LetIn(coins, slots, i) then was[order[i]].(status := Running) else was[order[i]])
    && (forall j | 0 <= j < |was| && j !in order[..k] :: now[j] == was[j])
    && RunningCount(now) <= RunningCount(was) + k
  }

  lemma {:induction false} AdmitSpec(was: seq<Request>, order: seq<nat>, coins: seq<bool>, slots: nat, k: nat)
    requires Within(order, was) && Distinct(order) && k <= |order| && k <= |coins|
    ensures AdmittedAt(was, AdmitTo(was, order, coins, slots, k), order, coins, slots, k)
  {
    hide LetIn;
    if k > 0 {
      AdmitSpec(was, order, coins, slots, k - 1);
      var before, idx := AdmitTo(was, order, coins, slots, k - 1), order[k - 1];
      assert order[..k] == order[..k - 1] + [idx];
      assert idx !in order[..k - 1] by { NotEarlier(order, k - 1); }
      CountSet(before, idx, before[idx].(status := Running), Running, |before|);
      forall i | 0 <= i < k - 1 ensures order[i] != idx {}
    }
  }

  lemma NotEarlier(order: seq<nat>, k: nat)
    requires Distinct(order) && k < |order|
    ensures order[k] !in order[..k]
  {
    forall i | 0 <= i < k ensures order[..k][i] != order[k] {}
  }

  lemma AdmitsKeeps(was: seq<Request>, now: seq<Request>, flags: seq<bool>)
    requires Admits(was, now) && Owned(was, flags) && Bounded(was)
    ensures Owned(now, flags) && Bounded(now) && Total(now, |now|) == Total(was, |was|)
  {
    SameTotal(was, now, |was|);
  }

  lemma {:induction false} SameTotal(was: seq<Request>, now: seq<Request>, k: nat)
    requires k <= |was| == |now| && forall i | 0 <= i < |was| :: |now[i].table| == |was[i].table|
    ensures Total(now, k) == Total(was, k)
  {
    if k > 0 { SameTotal(was, now, k - 1); }
  }

  /** What one selection does to the requests, for any coins. */
  ghost predicate Selected(was: seq<Request>, now: seq<Request>, order: seq<nat>, coins: seq<bool>, maxBatch: nat) {
    && Ranked(was, order) && Admits(was, now) && |order| <= |coins| && RunningCount(was) <= maxBatch
    && var slots := maxBatch - RunningCount(was);
       && (forall k | 0 <= k < |order| :: order[k] < |was| &&
             (now[order[k]].status == Running <==> k < slots && LetIn(coins, slots, k)))
       && RunningCount(now) <= maxBatch
  }

  lemma AdmitSelected(was: seq<Request>, order: seq<nat>, coins: seq<bool>, maxBatch: nat, k: nat)
    requires Ranked(was, order) && Within(order, was) && |order| <= |coins| && RunningCount(was) <= maxBatch
    requires var slots := maxBatch - RunningCount(was); k == if |order| > slots then slots else |order|
    ensures Selected(was, AdmitTo(was, order, coins, maxBatch - RunningCount(was), k), order, coins, maxBatch)
  {
    var slots := maxBatch - RunningCount(was);
    AdmitSpec(was, order, coins, slots, k);
    var now := AdmitTo(was, order, coins, slots, k);
    hide LetIn, RunningCount, AdmitTo;
    OnlyWaiting(was, now, order, coins, slots, k);
    RankStatus(was, now, order, coins, slots, k);
  }

  lemma OnlyWaiting(was: seq<Request>, now: seq<Request>, order: seq<nat>, coins: seq<bool>, slots: nat, k: nat)
    requires Ranked(was, order) && Within(order, was) && k <= |order| <= |coins| && AdmittedAt(was, now, order, coins, slots, k)
    ensures Admits(was, now)
  {
    hide LetIn, RunningCount;
    forall j | 0 <= j < |was|
      ensures now[j] == was[j] || (was[j].status == Waiting && now[j] == was[j].(status := Running))
    {
      if j in order[..k] {
        var i :| 0 <= i < k && order[i] == j;
        assert order[i] in order;
      }
    }
  }

  lemma RankStatus(was: seq<Request>, now: seq<Request>, order: seq<nat>, coins: seq<bool>, slots: nat, k: nat)
    requires Ranked(was, order) && Within(order, was) && k <= |order| <= |coins| && AdmittedAt(was, now, order, coins, slots, k)
    requires k == if |order| > slots then slots else |order|
    ensures forall i | 0 <= i < |order| :: now[order[i]].status == Running <==> i < slots && LetIn(coins, slots, i)
  {
    hide LetIn, RunningCount;
    forall i | 0 <= i < |order| ensures now[order[i]].status == Running <==> i < slots && LetIn(coins, slots, i) {
      assert order[i] in order;
      if i >= k { LaterNot(order, k, i); }
    }
  }

  lemma LaterNot(order: seq<nat>, k: nat, i: nat)
    requires Distinct(order) && k <= i < |order|
    ensures order[i] !in order[..k]
  {
    forall a | 0 <= a < k ensures order[..k][a] != order[i] {}
  }

  /** A waiting request that fewer than half the open places outrank or tie with is always admitted. */
  lemma TopHalfAdmitted(was: seq<Request>, now: seq<Request>, order: seq<nat>, coins: seq<bool>, maxBatch: nat, w: nat)
    requires Selected(was, now, order, coins, maxBatch) && w < |was| && was[w].status == Waiting
    requires |Rivals(was, w)| < (maxBatch - RunningCount(was)) / 2
    ensures now[w].status == Running
  {
    assert w in order;
    var k :| 0 <= k < |order| && order[k] == w;
    var ahead := set i | 0 <= i < k :: order[i];
    PrefixDistinct(order, k);
    forall x | x in ahead ensures x in Rivals(was, w) {
      var i :| 0 <= i < k && order[i] == x;
      assert order[i] in order && order[i] != order[k];
    }
    SubsetSize(ahead, Rivals(was, w));
  }

  /** Beyond the first half of the open places, a rank within them is admitted exactly as its coin falls. */
  lemma CoinsDecide(was: seq<Request>, now: seq<Request>, order: seq<nat>, coins: seq<bool>, maxBatch: nat, k: nat)
    requires Selected(was, now, order, coins, maxBatch) && k < |order|
    requires (maxBatch - RunningCount(was)) / 2 <= k < maxBatch - RunningCount(was)
    ensures order[k] < |now| && (now[order[k]].status == Running <==> coins[k])
  {
    hide RunningCount, Ranked;
  }

  /** The other waiting requests whose priority is not lower. */
  ghost function Rivals(rs: seq<Request>, w: nat): (r: set<nat>)
    requires w < |rs|
  {
    set x: nat | x < |rs| && x != w && rs[x].status == Waiting && rs[x].priority >= rs[w].priority
  }

  lemma PrefixDistinct(order: seq<nat>, k: nat)
    requires Distinct(order) && k <= |order|
    ensures |set i | 0 <= i < k :: order[i]| == k
  {
    var prefix := order[..k];
    assert Distinct(prefix) by {
      forall i, j | 0 <= i < j < |prefix| ensures prefix[i] != prefix[j] {
        assert order[i] != order[j];
      }
    }
    DistinctSize(prefix);
    assert (set i | 0 <= i < k :: order[i]) == set i | 0 <= i < |prefix| :: prefix[i];
  }

  class Engine {
    const pool: Pool
    const maxBatch: nat
    var requests: seq<Request>
    var mask: set<nat>

    ghost predicate Valid()
      reads this, pool, pool.freeList, pool.isFree, pool.refCount
    {
      && pool.Valid() && Holds(requests, pool.isFree[..], pool.freeCount, maxBatch)
      && forall i | i in mask :: i < |requests|
    }

    constructor (maxBatch: nat)
      requires 0 < maxBatch <= MAX_BATCH
      ensures Valid() && fresh(pool) && fresh(pool.freeList) && fresh(pool.isFree) && fresh(pool.refCount)
      ensures requests == [] && this.maxBatch == maxBatch
    {
      pool := new Pool();
      this.maxBatch, requests, mask := maxBatch, [], {};
    }

    /**
     Admits waiting requests by priority: the first half of the open places surely, the rest as the
     coins fall. The mask is rebuilt, and with anyone waiting it holds only the newly admitted.
     */
    method SelectBatch(coins: seq<bool>) returns (ghost order: seq<nat>)
      requires Valid() && |coins| >= MAX_BATCH
      modifies this
      ensures Valid() && Picked(old(requests), requests, mask, order, coins, maxBatch)
    {
      mask := {};
      ghost var was := requests;
      var w := Collect(requests);
      SortByPriority(w, requests);
      order := w[..];
      RankedFits(was, order);
      HoldsParts(was, pool.isFree[..], pool.freeCount, maxBatch);
      hide *;
      if w.Length == 0 {
        KeepRunning();
        AdmitSelected(was, order, coins, maxBatch, 0);
        NoneAdmitted(was, order, coins, maxBatch);
      } else {
        AdmitRanks(w[..], coins, was);
      }
      PickedIs(was, requests, mask, order, coins, maxBatch);
    }

    /** With nobody waiting the mask is the running set. */
    method KeepRunning()
      requires Valid()
      modifies this`mask
      ensures Valid() && forall i: nat :: i in mask <==> i < |requests| && requests[i].status == Running
    {
      mask := {};
      for i := 0 to |requests|
        invariant forall k: nat :: k in mask <==> k < i && requests[k].status == Running
      {
        if requests[i].status == Running { mask := mask + {i}; }
      }
    }

    method AdmitRanks(w: seq<nat>, coins: seq<bool>, ghost was: seq<Request>)
      requires Valid() && requests == was && mask == {} && Ranked(was, w) && Within(w, was) && |w| <= |coins| && w != []
      requires RunningCount(was) <= maxBatch
      modifies this`requests, this`mask
      ensures Valid() && Selected(was, requests, w, coins, maxBatch) && |requests| == |was|
      ensures MaskNew(mask, was, requests)
    {
      hide Holds, Owned, RunningCount, Ranked, Selected, Within, Consistent, MaskNew, MaskIs, AdmitTo, CountOf, Total, Bounded, LetIn;
      var slots := maxBatch - RunningCount(requests);
      var toSelect := if |w| > slots then slots else |w|;
      ghost var flags, free := pool.isFree[..], pool.freeCount;
      LetInRanks(w, coins, slots, toSelect);
      AdmitEnd(mask, was, w, coins, maxBatch, toSelect, flags, free);
    }

    method LetInRanks(w: seq<nat>, coins: seq<bool>, slots: nat, count: nat)
      requires mask == {} && Within(w, requests) && count <= |w| <= |coins|
      modifies this`requests, this`mask
      ensures requests == AdmitTo(old(requests), w, coins, slots, count) && MaskIs(mask, w, coins, slots, count)
    {
      ghost var was := requests;
      AdmitNone(was, w, coins, slots);
      hide *;
      for i := 0 to count
        invariant requests == AdmitTo(was, w, coins, slots, i) && MaskIs(mask, w, coins, slots, i)
      {
        MaskStep(mask, w, coins, slots, i);
        AdmitStep(was, w, coins, slots, i);
        if LetIn(coins, slots, i) {
          var idx := w[i];
          requests := WithStatus(requests, idx, Running);
          mask := mask + {idx};
        }
      }
    }

    /**
     Preempts the weakest running request of a crowded batch, or admits more to one nearly done and
     less than half full; never both.
     */
    method AdaptiveRoute(coins: seq<bool>, undefined: real) returns (ghost order: seq<nat>)
      requires Valid() && |coins| >= MAX_BATCH
      modifies this
      ensures Valid() && 0 < maxBatch
      ensures Routed(old(requests), old(mask), requests, mask, order, coins, maxBatch, undefined)
    {
      order := [];
      HoldsParts(requests, pool.isFree[..], pool.freeCount, maxBatch);
      var running := RunningCount(requests);
      var utilization := Utilization(running, maxBatch);
      var progress := Progress(requests, undefined);
      UtilizationIs(running, maxBatch);
      if utilization > 0.9 && running > maxBatch / 2 {
        var idx := FindWeakest(requests);
        if idx >= 0 && requests[idx].priority < 0.5 {
          assert Expendable(requests, idx);
          StatusKeeps(requests, idx, Preempted, pool.isFree[..], pool.freeCount, maxBatch);
          requests := WithStatus(requests, idx, Preempted);
          mask := mask - {idx};
        }
      }
      if progress > 0.8 && utilization < 0.5 {
        order := SelectBatch(coins);
      }
    }

    /** One token for one running request, with a cache block at every eighth position. */
    method Advance(r: nat, token: nat)
      requires Valid() && r < |requests| && requests[r].status == Running
      modifies this`requests, pool`freeCount, pool.isFree, pool.refCount
      ensures Valid() && |requests| == |old(requests)| && mask == old(mask)
      ensures forall i | 0 <= i < |requests| && i != r :: requests[i] == old(requests)[i]
      ensures Advanced(old(requests)[r], requests[r], token, old(pool.freeCount))
    {
      var req := requests[r];
      HoldsParts(requests, pool.isFree[..], pool.freeCount, maxBatch);
      ghost var was, flags, free := requests, pool.isFree[..], pool.freeCount;
      if req.pos < req.seqLen {
        req := req.(tokens := req.tokens[req.pos := token], pos := req.pos + 1);
        if req.pos % BLOCK_SIZE == 0 && |req.table| < TABLE_MAX {
          var block := pool.Alloc();
          if block >= 0 { req := req.(table := req.table + [block as nat]); }
        }
      }
      if req.pos >= req.seqLen { req := req.(status := Finished); }
      requests := requests[r := req];
      AdvanceKeeps(was, r, req, flags, free, pool.isFree[..], pool.freeCount, maxBatch);
    }

    /** Selects, routes, then advances exactly the running requests the mask names, one token each. */
    method Generate(coins: seq<bool>, more: seq<bool>, undefined: real, tokens: seq<nat>)
      returns (outputs: seq<nat>, ghost trace: Trace)
      requires Valid() && |coins| >= MAX_BATCH && |more| >= MAX_BATCH && |tokens| >= MAX_BATCH
      modifies this, pool`freeCount, pool.isFree, pool.refCount
      ensures Valid() && 0 < maxBatch
      ensures Generated(old(requests), requests, trace, coins, more, undefined, tokens, outputs, maxBatch)
    {
      hide Holds, Owned, Consistent, Picked, Routed, SteppedTo, Emitted, RunningCount, Progress;
      ghost var was := requests;
      var order := SelectBatch(coins);
      PickedSize(was, requests, mask, order, coins, maxBatch);
      ghost var picked, pickedMask := requests, mask;
      var again := AdaptiveRoute(more, undefined);
      RoutedSize(picked, pickedMask, requests, mask, again, more, maxBatch, undefined);
      AtMostBatch();
      trace := Trace(order, picked, pickedMask, again, requests, mask);
      outputs := AdvanceAll(tokens);
    }

    lemma AtMostBatch()
      requires Valid()
      ensures |requests| <= MAX_BATCH
    {}

    method AdvanceAll(tokens: seq<nat>) returns (outputs: seq<nat>)
      requires Valid() && |requests| <= |tokens|
      modifies this`requests, pool`freeCount, pool.isFree, pool.refCount
      ensures Valid() && |requests| == |old(requests)|
      ensures SteppedTo(old(requests), requests, mask, tokens, |requests|)
      ensures outputs == Emitted(old(requests), mask, tokens, |requests|)
    {
      ghost var routed := requests;
      var n := |requests|;
      NoSteps(routed, mask, tokens);
      hide Holds, Owned, Consistent, Advanced, Emitted, SteppedTo;
      outputs := [];
      for r := 0 to n
        invariant Valid() && n == |requests| == |routed| && SteppedTo(routed, requests, mask, tokens, r)
        invariant outputs == Emitted(routed, mask, tokens, r)
      {
        StepNext(routed, requests, mask, tokens, r);
        if r in mask && requests[r].status == Running {
          outputs := outputs + [tokens[r]];
          ghost var was, free := requests, pool.freeCount;
          Advance(r, tokens[r]);
          StepOne(routed, was, requests, mask, tokens, r, free);
        }
      }
    }

    /** A new request waits with one block of its own, when the pool has one. */
    method Submit(seqLen: nat, priority: real)
      requires Valid() && |requests| < MAX_BATCH
      modifies this`requests, pool`freeCount, pool.isFree, pool.refCount
      ensures Valid() && mask == old(mask) && Submitted(old(requests), requests)
      ensures Arrived(requests[|requests| - 1], seqLen, priority, old(pool.freeCount))
      ensures Drawn([], requests[|requests| - 1].table, old(pool.isFree[..]), old(pool.freeCount), pool.isFree[..], pool.freeCount)
    {
      ghost var was, flags, free := requests, pool.isFree[..], pool.freeCount;
      var block := pool.Alloc();
      var table: seq<nat> := if block >= 0 then [block as nat] else [];
      requests := requests + [Request(seqLen, 0, table, Waiting, priority, map[])];
      assert Arrived(requests[|requests| - 1], seqLen, priority, free);
      SubmitKeeps(was, requests[|requests| - 1], flags, free, pool.isFree[..], pool.freeCount, maxBatch);
    }
  }

  function Utilization(running: nat, maxBatch: nat): real
    requires maxBatch > 0
  {
    running as real / maxBatch as real
  }

  /** More than nine tenths of the places are taken. */
  predicate Crowded(rs: seq<Request>, maxBatch: nat) {
    10 * RunningCount(rs) > 9 * maxBatch
  }

  /** Less than half of the places are taken. */
  predicate Roomy(rs: seq<Request>, maxBatch: nat) {
    2 * RunningCount(rs) < maxBatch
  }

  lemma UtilizationIs(running: nat, maxBatch: nat)
    requires maxBatch > 0
    ensures Utilization(running, maxBatch) > 0.9 && running > maxBatch / 2 <==> 10 * running > 9 * maxBatch
    ensures Utilization(running, maxBatch) < 0.5 <==> 2 * running < maxBatch
  {
    var m := maxBatch as real;
    Quotient(running as real, m, 0.9);
    Quotient(running as real, m, 0.5);
    assert running as real > 0.9 * m <==> (10 * running) as real > (9 * maxBatch) as real;
    assert running as real < 0.5 * m <==> (2 * running) as real < maxBatch as real;
  }

  lemma Quotient(x: real, m: real, y: real)
    requires m > 0.0
    ensures x / m > y <==> x > y * m
    ensures x / m < y <==> x < y * m
  {
    var u := x / m;
    assert u * m == x;
    Scaled(u, y, m);
  }

  lemma Scaled(x: real, y: real, m: real)
    requires m > 0.0
    ensures x > y <==> x * m > y * m
    ensures x < y <==> x * m < y * m
  {
    if x > y { assert (x - y) * m > 0.0; }
    if x < y { assert (y - x) * m > 0.0; }
  }

  /** The part of a request that is done; a request without length has whatever the division gives. */
  function Done(r: Request, undefined: real): real {
    if r.seqLen == 0 then undefined else r.pos as real / r.seqLen as real
  }

  lemma DoneIs(r: Request, undefined: real)
    requires r.seqLen > 0
    ensures Done(r, undefined) * r.seqLen as real == r.pos as real
  {}

  function SumDone(rs: seq<Request>, undefined: real, k: nat): real
    requires k <= |rs|
  {
    if k == 0 then 0.0
    else SumDone(rs, undefined, k - 1)
         + if rs[k - 1].status == Running || rs[k - 1].status == Waiting then Done(rs[k - 1], undefined) else 0.0
  }

  function Progress(rs: seq<Request>, undefined: real): real {
    var active := RunningCount(rs) + CountOf(rs, Waiting, |rs|);
    if active > 0 then SumDone(rs, undefined, |rs|) / active as real else 0.0
  }

  predicate Active(r: Request) {
    r.status == Running || r.status == Waiting
  }

  /** The tokens that the active ones of the first k requests have. */
  function Passed(rs: seq<Request>, k: nat): (n: nat)
    requires k <= |rs|
  {
    if k == 0 then 0 else Passed(rs, k - 1) + if Active(rs[k - 1]) then rs[k - 1].pos else 0
  }

  predicate MostPassed(passed: nat, len: nat, active: nat) {
    5 * passed > 4 * len * active
  }

  /** Over requests of one length, nearly done means that more than four fifths of their tokens are there. */
  lemma NearlyDone(rs: seq<Request>, undefined: real, len: nat)
    requires len > 0 && forall i | 0 <= i < |rs| && Active(rs[i]) :: rs[i].seqLen == len
    ensures Progress(rs, undefined) > 0.8 <==> MostPassed(Passed(rs, |rs|), len, RunningCount(rs) + CountOf(rs, Waiting, |rs|))
  {
    var active := RunningCount(rs) + CountOf(rs, Waiting, |rs|);
    SumPassed(rs, undefined, len, |rs|);
    PassedNone(rs, |rs|);
    hide Passed, SumDone, CountOf, RunningCount, MostPassed;
    Mean(SumDone(rs, undefined, |rs|), active, len, Passed(rs, |rs|));
  }

  lemma Mean(sum: real, active: nat, len: nat, passed: nat)
    requires len > 0 && sum * len as real == passed as real && (active == 0 ==> passed == 0)
    ensures (if active > 0 then sum / active as real else 0.0) > 0.8 <==> MostPassed(passed, len, active)
  {
    if active > 0 {
      Quotient(sum, active as real, 0.8);
      Scaled(sum, 0.8 * active as real, len as real);
      assert (0.8 * active as real) * len as real == 0.8 * (len * active) as real;
    }
  }

  lemma {:induction false} SumPassed(rs: seq<Request>, undefined: real, len: nat, k: nat)
    requires len > 0 && k <= |rs| && forall i | 0 <= i < |rs| && Active(rs[i]) :: rs[i].seqLen == len
    ensures SumDone(rs, undefined, k) * len as real == Passed(rs, k) as real
  {
    hide Done;
    if k > 0 {
      SumPassed(rs, undefined, len, k - 1);
      if Active(rs[k - 1]) {
        DoneIs(rs[k - 1], undefined);
        AddShare(SumDone(rs, undefined, k - 1), Done(rs[k - 1], undefined), len as real);
      }
    }
  }

  lemma AddShare(sum: real, done: real, len: real)
    ensures (sum + done) * len == sum * len + done * len
  {}

  lemma {:induction false} PassedNone(rs: seq<Request>, k: nat)
    requires k <= |rs|
    ensures CountOf(rs, Running, k) + CountOf(rs, Waiting, k) == 0 ==> Passed(rs, k) == 0
  {
    if k > 0 { PassedNone(rs, k - 1); }
  }

  /** Whatever their lengths, progress lies between the least and the most done of the active requests. */
  lemma ProgressBetween(rs: seq<Request>, undefined: real, low: real, high: real)
    requires RunningCount(rs) + CountOf(rs, Waiting, |rs|) > 0
    requires forall i | 0 <= i < |rs| && Active(rs[i]) :: low <= Done(rs[i], undefined) <= high
    ensures low <= Progress(rs, undefined) <= high
  {
    SumBetween(rs, undefined, low, high, |rs|);
    hide SumDone, CountOf, Active, Done, Between;
    MeanBetween(SumDone(rs, undefined, |rs|), RunningCount(rs) + CountOf(rs, Waiting, |rs|), low, high);
  }

  lemma MeanBetween(sum: real, active: nat, low: real, high: real)
    requires active > 0 && Between(sum, active, low, high)
    ensures low <= sum / active as real <= high
  {
    Quotient(sum, active as real, low);
    Quotient(sum, active as real, high);
  }

  ghost predicate Between(sum: real, active: nat, low: real, high: real) {
    active as real * low <= sum <= active as real * high
  }

  lemma BetweenNext(sum: real, active: nat, done: real, low: real, high: real)
    requires Between(sum, active, low, high) && low <= done <= high
    ensures Between(sum + done, active + 1, low, high)
  {
    AddShare(active as real, 1.0, low);
    AddShare(active as real, 1.0, high);
  }

  lemma {:induction false} SumBetween(rs: seq<Request>, undefined: real, low: real, high: real, k: nat)
    requires k <= |rs| && forall i | 0 <= i < |rs| && Active(rs[i]) :: low <= Done(rs[i], undefined) <= high
    ensures Between(SumDone(rs, undefined, k), CountOf(rs, Running, k) + CountOf(rs, Waiting, k), low, high)
  {
    hide Done;
    if k > 0 {
      hide Between;
      SumBetween(rs, undefined, low, high, k - 1);
      if Active(rs[k - 1]) {
        BetweenNext(SumDone(rs, undefined, k - 1), CountOf(rs, Running, k - 1) + CountOf(rs, Waiting, k - 1),
                    Done(rs[k - 1], undefined), low, high);
      }
    }
  }

  ghost function Having(rs: seq<Request>, st: Status, k: nat): (r: set<nat>)
    requires k <= |rs|
  {
    set i: nat | i < k && rs[i].status == st
  }

  /** The count of a status is the number of requests that have it. */
  lemma {:induction false} CountIs(rs: seq<Request>, st: Status, k: nat)
    requires k <= |rs|
    ensures CountOf(rs, st, k) == |Having(rs, st, k)|
  {
    if k == 0 {
      assert Having(rs, st, 0) == {};
    } else {
      CountIs(rs, st, k - 1);
      HavingNext(rs, st, k - 1);
      hide Having;
    }
  }

  lemma HavingNext(rs: seq<Request>, st: Status, k: nat)
    requires k < |rs|
    ensures k !in Having(rs, st, k)
    ensures Having(rs, st, k + 1) == if rs[k].status == st then Having(rs, st, k) + {k} else Having(rs, st, k)
  {}

  /** A running request below 10^9 that no running request undercuts. */
  ghost predicate Weakest(rs: seq<Request>, i: nat) {
    && i < |rs| && rs[i].status == Running && rs[i].priority < 1000000000.0
    && forall j | 0 <= j < |rs| && rs[j].status == Running :: rs[i].priority <= rs[j].priority
  }

  ghost predicate Expendable(rs: seq<Request>, i: nat) {
    Weakest(rs, i) && rs[i].priority < 0.5
  }

  /** What one selection does to the requests and the mask. */
  ghost predicate Picked(was: seq<Request>, now: seq<Request>, mask: set<nat>, order: seq<nat>, coins: seq<bool>, maxBatch: nat) {
    && Selected(was, now, order, coins, maxBatch)
    && if order == [] then MaskRunning(mask, now) else MaskNew(mask, was, now)
  }

  ghost predicate MaskRunning(mask: set<nat>, rs: seq<Request>) {
    forall i: nat :: i in mask <==> i < |rs| && rs[i].status == Running
  }

  lemma PickedIs(was: seq<Request>, now: seq<Request>, mask: set<nat>, order: seq<nat>, coins: seq<bool>, maxBatch: nat)
    requires Selected(was, now, order, coins, maxBatch)
    requires if order == [] then MaskRunning(mask, now) else MaskNew(mask, was, now)
    ensures Picked(was, now, mask, order, coins, maxBatch)
  {}

  /** Preempts the weakest of a crowded batch, selects once more in a nearly finished one, or does nothing. */
  ghost predicate Routed(was: seq<Request>, wasMask: set<nat>, now: seq<Request>, mask: set<nat>, order: seq<nat>,
                         coins: seq<bool>, maxBatch: nat, undefined: real)
    requires maxBatch > 0
  {
    if Crowded(was, maxBatch) then
      if exists i: nat :: Expendable(was, i)
      then exists i: nat :: Expendable(was, i) && now == WithStatus(was, i, Preempted) && mask == wasMask - {i}
      else now == was && mask == wasMask
    else if Progress(was, undefined) > 0.8 && Roomy(was, maxBatch)
    then Picked(was, now, mask, order, coins, maxBatch)
    else now == was && mask == wasMask
  }

  lemma PickedSize(was: seq<Request>, now: seq<Request>, mask: set<nat>, order: seq<nat>, coins: seq<bool>, maxBatch: nat)
    requires Picked(was, now, mask, order, coins, maxBatch)
    ensures |now| == |was| && Admits(was, now)
  {}

  lemma RoutedSize(was: seq<Request>, wasMask: set<nat>, now: seq<Request>, mask: set<nat>, order: seq<nat>,
                   coins: seq<bool>, maxBatch: nat, undefined: real)
    requires maxBatch > 0 && Routed(was, wasMask, now, mask, order, coins, maxBatch, undefined)
    ensures |now| == |was|
  {
    hide Crowded, Roomy, Progress, Picked;
    if !Crowded(was, maxBatch) && Progress(was, undefined) > 0.8 && Roomy(was, maxBatch) {
      PickedSize(was, now, mask, order, coins, maxBatch);
    }
  }

  // ----- one generation step, and runs of them -----

  /** The two selections of a step and what they led to. */
  datatype Trace = Trace(order: seq<nat>, picked: seq<Request>, pickedMask: set<nat>, again: seq<nat>,
                         routed: seq<Request>, named: set<nat>)

  /** A batch is selected, routed, and the running requests the mask names advance. */
  ghost predicate Generated(was: seq<Request>, now: seq<Request>, t: Trace, coins: seq<bool>, more: seq<bool>,
                            undefined: real, tokens: seq<nat>, outputs: seq<nat>, maxBatch: nat)
    requires maxBatch > 0
  {
    && Picked(was, t.picked, t.pickedMask, t.order, coins, maxBatch)
    && Routed(t.picked, t.pickedMask, t.routed, t.named, t.again, more, maxBatch, undefined)
    && |t.routed| == |was| <= |tokens|
    && SteppedTo(t.routed, now, t.named, tokens, |t.routed|) && outputs == Emitted(t.routed, t.named, tokens, |t.routed|)
  }

  ghost predicate Generates(was: seq<Request>, now: seq<Request>, maxBatch: nat)
    requires maxBatch > 0
  {
    exists t: Trace, coins: seq<bool>, more: seq<bool>, undefined: real, tokens: seq<nat>, outputs: seq<nat> ::
      Generated(was, now, t, coins, more, undefined, tokens, outputs, maxBatch)
  }

  /** A new request waits, with nothing done and one block when any was free. */
  ghost predicate Arrived(r: Request, seqLen: nat, priority: real, free: nat) {
    && r.seqLen == seqLen && r.priority == priority && r.pos == 0 && r.tokens == map[] && r.status == Waiting
    && |r.table| == if free > 0 then 1 else 0
  }

  ghost predicate Submitted(was: seq<Request>, now: seq<Request>) {
    && |now| == |was| + 1 && now[..|was|] == was
    && exists seqLen: nat, priority: real, free: nat :: Arrived(now[|was|], seqLen, priority, free)
  }

  /** What a request keeps while the others come and go. */
  ghost predicate Lasting(a: Request, b: Request) {
    && b.seqLen == a.seqLen && b.priority == a.priority && a.table <= b.table
    && a.pos <= b.pos && (a.pos <= a.seqLen ==> b.pos <= b.seqLen)
    && (forall x | x in a.tokens && x < a.pos :: x in b.tokens && b.tokens[x] == a.tokens[x])
    && (a.status == Finished || a.status == Preempted ==> b == a)
    && (a.status != Waiting ==> b.status != Waiting)
    && (b.status == Waiting ==> b == a)
  }

  lemma LastingTrans(a: Request, b: Request, c: Request)
    requires Lasting(a, b) && Lasting(b, c)
    ensures Lasting(a, c)
  {}

  lemma SelectionLasting(was: seq<Request>, now: seq<Request>, i: nat)
    requires Admits(was, now) && i < |was|
    ensures i < |now| && Lasting(was[i], now[i])
  {}

  lemma RoutedLasting(was: seq<Request>, wasMask: set<nat>, now: seq<Request>, mask: set<nat>, order: seq<nat>,
                      coins: seq<bool>, maxBatch: nat, undefined: real, i: nat)
    requires maxBatch > 0 && Routed(was, wasMask, now, mask, order, coins, maxBatch, undefined) && i < |was|
    ensures i < |now| && Lasting(was[i], now[i])
  {
    hide Crowded, Roomy, Progress, Picked;
    if !Crowded(was, maxBatch) && Progress(was, undefined) > 0.8 && Roomy(was, maxBatch) {
      PickedSize(was, now, mask, order, coins, maxBatch);
      SelectionLasting(was, now, i);
    }
  }

  lemma StepLasting(routed: seq<Request>, now: seq<Request>, named: set<nat>, tokens: seq<nat>, i: nat)
    requires SteppedTo(routed, now, named, tokens, |routed|) && i < |routed|
    ensures |now| == |routed| && Lasting(routed[i], now[i])
  {}

  /** One generation step keeps what lasts of every request. */
  lemma GeneratedLasting(was: seq<Request>, now: seq<Request>, t: Trace, coins: seq<bool>, more: seq<bool>,
                         undefined: real, tokens: seq<nat>, outputs: seq<nat>, maxBatch: nat, i: nat)
    requires maxBatch > 0 && Generated(was, now, t, coins, more, undefined, tokens, outputs, maxBatch) && i < |was|
    ensures |now| == |was| && Lasting(was[i], now[i])
  {
    hide Lasting, Routed, Picked, Admits, Emitted;
    PickedSize(was, t.picked, t.pickedMask, t.order, coins, maxBatch);
    SelectionLasting(was, t.picked, i);
    RoutedLasting(t.picked, t.pickedMask, t.routed, t.named, t.again, more, maxBatch, undefined, i);
    StepLasting(t.routed, now, t.named, tokens, i);
    LastingTrans(was[i], t.picked[i], t.routed[i]);
    LastingTrans(was[i], t.routed[i], now[i]);
  }

  /** Every state follows from the one before by a generation step or a new request. */
  ghost predicate Run(states: seq<seq<Request>>, maxBatch: nat)
    requires maxBatch > 0
  {
    forall k {:trigger states[k]} | 0 <= k < |states| - 1 ::
      Generates(states[k], states[k + 1], maxBatch) || Submitted(states[k], states[k + 1])
  }

  /**
   Over every run of generation steps and arrivals, whatever the coins: a finished or preempted
   request never changes again, a running one never waits again, positions only grow and stay within
   the length, and a token once passed is never rewritten.
   */
  lemma {:induction false} RunLasting(states: seq<seq<Request>>, maxBatch: nat, i: nat)
    requires maxBatch > 0 && states != [] && Run(states, maxBatch) && i < |states[0]|
    ensures var last := states[|states| - 1]; i < |last| && Lasting(states[0][i], last[i])
  {
    hide Lasting, Generates, Submitted;
    var n := |states| - 1;
    if n > 0 {
      var before := states[..n];
      assert forall k | 0 <= k < n :: before[k] == states[k];
      RunLasting(before, maxBatch, i);
      var was, now := states[n - 1], states[n];
      NextLasting(was, now, maxBatch, i);
      LastingTrans(states[0][i], was[i], now[i]);
    } else {
      LastingSelf(states[0][i]);
    }
  }

  lemma NextLasting(was: seq<Request>, now: seq<Request>, maxBatch: nat, i: nat)
    requires maxBatch > 0 && (Generates(was, now, maxBatch) || Submitted(was, now)) && i < |was|
    ensures i < |now| && Lasting(was[i], now[i])
  {
    hide Lasting, Generated;
    if Generates(was, now, maxBatch) {
      var t: Trace, coins: seq<bool>, more: seq<bool>, undefined: real, tokens: seq<nat>, outputs: seq<nat> :|
        Generated(was, now, t, coins, more, undefined, tokens, outputs, maxBatch);
      GeneratedLasting(was, now, t, coins, more, undefined, tokens, outputs, maxBatch, i);
    } else {
      assert now[i] == now[..|was|][i];
      LastingSelf(was[i]);
    }
  }

  /** What every request of a run that starts empty has: tokens for exactly the passed positions, and blocks for them. */
  ghost predicate Sound(r: Request) {
    && r.pos <= r.seqLen && (forall x: nat :: x in r.tokens <==> x < r.pos) && |r.table| <= 1 + r.pos / BLOCK_SIZE
    && (r.status == Finished ==> r.pos == r.seqLen) && (r.status == Waiting ==> r.pos == 0)
  }

  ghost predicate AllSound(rs: seq<Request>) {
    forall i | 0 <= i < |rs| :: Sound(rs[i])
  }

  /** Only the status moved: a waiting request was admitted or a running one preempted. */
  predicate Restatused(a: Request, b: Request) {
    b == a || (a.status == Waiting && b == a.(status := Running)) || (a.status == Running && b == a.(status := Preempted))
  }

  lemma RestatusedSound(a: Request, b: Request)
    requires Sound(a) && Restatused(a, b)
    ensures Sound(b)
  {}

  lemma RoutedMoves(was: seq<Request>, wasMask: set<nat>, now: seq<Request>, mask: set<nat>, order: seq<nat>,
                    coins: seq<bool>, maxBatch: nat, undefined: real, i: nat)
    requires maxBatch > 0 && Routed(was, wasMask, now, mask, order, coins, maxBatch, undefined) && i < |was|
    ensures i < |now| && Restatused(was[i], now[i])
  {
    hide Crowded, Roomy, Progress, Picked;
    if !Crowded(was, maxBatch) && Progress(was, undefined) > 0.8 && Roomy(was, maxBatch) {
      PickedSize(was, now, mask, order, coins, maxBatch);
    }
  }

  lemma AdvancedSound(a: Request, b: Request, token: nat, free: nat)
    requires Sound(a) && a.status == Running && Advanced(a, b, token, free)
    ensures Sound(b)
  {
    if a.pos < a.seqLen { assert b.pos % BLOCK_SIZE == 0 ==> b.pos / BLOCK_SIZE == a.pos / BLOCK_SIZE + 1; }
  }

  lemma GeneratedSound(was: seq<Request>, now: seq<Request>, t: Trace, coins: seq<bool>, more: seq<bool>,
                       undefined: real, tokens: seq<nat>, outputs: seq<nat>, maxBatch: nat)
    requires maxBatch > 0 && Generated(was, now, t, coins, more, undefined, tokens, outputs, maxBatch) && AllSound(was)
    ensures AllSound(now)
  {
    hide Sound, Routed, Picked, Emitted, Advanced;
    PickedSize(was, t.picked, t.pickedMask, t.order, coins, maxBatch);
    forall i | 0 <= i < |now| ensures Sound(now[i]) {
      assert Sound(was[i]);
      RestatusedSound(was[i], t.picked[i]);
      RoutedMoves(t.picked, t.pickedMask, t.routed, t.named, t.again, more, maxBatch, undefined, i);
      RestatusedSound(t.picked[i], t.routed[i]);
      if Steps(t.routed, t.named, i) {
        var free: nat :| Advanced(t.routed[i], now[i], tokens[i], free);
        AdvancedSound(t.routed[i], now[i], tokens[i], free);
      }
    }
  }

  lemma SubmittedSound(was: seq<Request>, now: seq<Request>)
    requires Submitted(was, now) && AllSound(was)
    ensures AllSound(now)
  {
    forall i | 0 <= i < |now| ensures Sound(now[i]) {
      if i < |was| { assert now[i] == now[..|was|][i]; }
    }
  }

  /**
   Over every run from no requests: each has a token at exactly the positions it has passed, at most
   one block and one more for every eight of them, and is finished only at its length.
   */
  lemma {:induction false} RunSound(states: seq<seq<Request>>, maxBatch: nat)
    requires maxBatch > 0 && states != [] && states[0] == [] && Run(states, maxBatch)
    ensures AllSound(states[|states| - 1])
  {
    hide AllSound, Generates, Generated, Submitted;
    var n := |states| - 1;
    if n == 0 {
      NoneSound();
    } else {
      var before := states[..n];
      assert forall k | 0 <= k < n :: before[k] == states[k];
      RunSound(before, maxBatch);
      var was, now := states[n - 1], states[n];
      NextSound(was, now, maxBatch);
    }
  }

  lemma NoneSound()
    ensures AllSound([])
  {}

  lemma NextSound(was: seq<Request>, now: seq<Request>, maxBatch: nat)
    requires maxBatch > 0 && (Generates(was, now, maxBatch) || Submitted(was, now)) && AllSound(was)
    ensures AllSound(now)
  {
    hide AllSound, Generated, Submitted;
    if Generates(was, now, maxBatch) {
      var t: Trace, coins: seq<bool>, more: seq<bool>, undefined: real, tokens: seq<nat>, outputs: seq<nat> :|
        Generated(was, now, t, coins, more, undefined, tokens, outputs, maxBatch);
      GeneratedSound(was, now, t, coins, more, undefined, tokens, outputs, maxBatch);
    } else {
      SubmittedSound(was, now);
    }
  }

  lemma LastingSelf(a: Request)
    ensures Lasting(a, a)
  {}

  /** A waiting request of the top half no longer waits after the step. */
  lemma TopHalfLeavesQueue(was: seq<Request>, now: seq<Request>, t: Trace, coins: seq<bool>, more: seq<bool>,
                           undefined: real, tokens: seq<nat>, outputs: seq<nat>, maxBatch: nat, w: nat)
    requires maxBatch > 0 && Generated(was, now, t, coins, more, undefined, tokens, outputs, maxBatch)
    requires w < |was| && was[w].status == Waiting && |Rivals(was, w)| < (maxBatch - RunningCount(was)) / 2
    ensures |now| == |was| && now[w].status != Waiting
  {
    hide Routed, SteppedTo, Emitted, RunningCount, Rivals, Lasting;
    TopHalfAdmitted(was, t.picked, t.order, coins, maxBatch, w);
    RoutedLasting(t.picked, t.pickedMask, t.routed, t.named, t.again, more, maxBatch, undefined, w);
    StepLasting(t.routed, now, t.named, tokens, w);
    LastingTrans(t.picked[w], t.routed[w], now[w]);
    LastingStatus(t.picked[w], now[w]);
  }

  lemma LastingStatus(a: Request, b: Request)
    requires Lasting(a, b)
    ensures a.status != Waiting ==> b.status != Waiting
  {}

  /** The second selection of a step took place. */
  ghost predicate Again(t: Trace, maxBatch: nat, undefined: real)
    requires maxBatch > 0
  {
    !Crowded(t.picked, maxBatch) && Progress(t.picked, undefined) > 0.8 && Roomy(t.picked, maxBatch)
  }

  /**
   While anyone waits, requests that already ran stand still: one that ran before the step gets a
   token only if nobody was waiting, or nobody was left waiting for a second selection.
   */
  lemma RunningStandStill(was: seq<Request>, now: seq<Request>, t: Trace, coins: seq<bool>, more: seq<bool>,
                          undefined: real, tokens: seq<nat>, outputs: seq<nat>, maxBatch: nat, i: nat)
    requires maxBatch > 0 && Generated(was, now, t, coins, more, undefined, tokens, outputs, maxBatch)
    requires i < |was| && was[i].status == Running
    requires if Again(t, maxBatch, undefined) then t.again != [] else t.order != []
    ensures |now| == |was| && now[i].pos == was[i].pos && now[i].tokens == was[i].tokens && i !in t.named
  {
    hide Crowded, Roomy, Progress, Emitted, RunningCount, Ranked, LetIn, Stepped, Expendable;
  }

  /** The bits set so far: the ranks let in. */
  ghost predicate MaskIs(mask: set<nat>, w: seq<nat>, coins: seq<bool>, slots: nat, k: nat)
    requires k <= |w| && k <= |coins|
  {
    && (forall x: nat | x in mask :: exists i :: 0 <= i < k && w[i] == x && LetIn(coins, slots, i))
    && (forall i | 0 <= i < k && LetIn(coins, slots, i) :: w[i] in mask)
  }

  lemma MaskStep(mask: set<nat>, w: seq<nat>, coins: seq<bool>, slots: nat, k: nat)
    requires k < |w| && k < |coins| && MaskIs(mask, w, coins, slots, k)
    ensures MaskIs(if LetIn(coins, slots, k) then mask + {w[k]} else mask, w, coins, slots, k + 1)
  {
    hide LetIn;
    var next := if LetIn(coins, slots, k) then mask + {w[k]} else mask;
    forall x: nat | x in next ensures exists i :: 0 <= i < k + 1 && w[i] == x && LetIn(coins, slots, i) {
      if x in mask {
        var i :| 0 <= i < k && w[i] == x && LetIn(coins, slots, i);
      } else {
        assert w[k] == x && LetIn(coins, slots, k);
      }
    }
  }

  /** The finished mask names exactly the requests that were waiting and now run. */
  lemma MaskAll(mask: set<nat>, was: seq<Request>, now: seq<Request>, w: seq<nat>, coins: seq<bool>, maxBatch: nat, k: nat)
    requires Selected(was, now, w, coins, maxBatch)
    requires var slots := maxBatch - RunningCount(was); k == (if |w| > slots then slots else |w|) && MaskIs(mask, w, coins, slots, k)
    ensures forall i: nat :: i in mask <==> i < |now| && now[i].status == Running && was[i].status == Waiting
  {
    hide LetIn, RunningCount;
    var slots := maxBatch - RunningCount(was);
    forall x: nat ensures x in mask <==> x < |now| && now[x].status == Running && was[x].status == Waiting {
      if x in mask {
        var i :| 0 <= i < k && w[i] == x && LetIn(coins, slots, i);
        assert w[i] in w;
      }
      if x < |now| && now[x].status == Running && was[x].status == Waiting {
        assert x in w;
        var i :| 0 <= i < |w| && w[i] == x;
        assert i < slots && LetIn(coins, slots, i);
      }
    }
  }

  /** The mask names exactly the requests that were waiting and now run. */
  ghost predicate MaskNew(mask: set<nat>, was: seq<Request>, now: seq<Request>) {
    |now| == |was| && forall i: nat :: i in mask <==> i < |now| && now[i].status == Running && was[i].status == Waiting
  }

  lemma AdmitEnd(mask: set<nat>, was: seq<Request>, w: seq<nat>, coins: seq<bool>, maxBatch: nat, k: nat, flags: seq<bool>, free: nat)
    requires Holds(was, flags, free, maxBatch) && Ranked(was, w) && Within(w, was) && |w| <= |coins| && RunningCount(was) <= maxBatch
    requires var slots := maxBatch - RunningCount(was); k == (if |w| > slots then slots else |w|) && MaskIs(mask, w, coins, slots, k)
    ensures var now := AdmitTo(was, w, coins, maxBatch - RunningCount(was), k);
            && Selected(was, now, w, coins, maxBatch) && |now| == |was| && Holds(now, flags, free, maxBatch) && MaskNew(mask, was, now)
            && forall i | i in mask :: i < |now|
  {
    AdmitSelected(was, w, coins, maxBatch, k);
    var now := AdmitTo(was, w, coins, maxBatch - RunningCount(was), k);
    hide AdmitTo, LetIn, RunningCount, MaskIs, Ranked;
    AdmitsKeeps(was, now, flags);
    MaskAll(mask, was, now, w, coins, maxBatch, k);
  }

  lemma AdmitNone(was: seq<Request>, w: seq<nat>, coins: seq<bool>, slots: nat)
    requires Within(w, was)
    ensures AdmitTo(was, w, coins, slots, 0) == was && MaskIs({}, w, coins, slots, 0)
  {}

  lemma AdmitStep(was: seq<Request>, w: seq<nat>, coins: seq<bool>, slots: nat, k: nat)
    requires Within(w, was) && k < |w| && k < |coins|
    ensures w[k] < |AdmitTo(was, w, coins, slots, k)|
    ensures AdmitTo(was, w, coins, slots, k + 1)
         == (if LetIn(coins, slots, k) then WithStatus(AdmitTo(was, w, coins, slots, k), w[k], Running)
             else AdmitTo(was, w, coins, slots, k))
  {}

  lemma NoneAdmitted(was: seq<Request>, order: seq<nat>, coins: seq<bool>, maxBatch: nat)
    requires Ranked(was, order) && order == [] && Within(order, was)
    ensures forall slots: nat :: AdmitTo(was, order, coins, slots, 0) == was
  {}

  method FindWeakest(rs: seq<Request>) returns (idx: int)
    ensures idx >= 0 ==> Weakest(rs, idx)
    ensures idx < 0 <==> idx == -1
    ensures idx < 0 ==> forall j | 0 <= j < |rs| && rs[j].status == Running :: rs[j].priority >= 1000000000.0
  {
    var min := 1000000000.0;
    idx := -1;
    for i := 0 to |rs|
      invariant -1 <= idx < i
      invariant if idx >= 0 then rs[idx].status == Running && rs[idx].priority == min < 1000000000.0 else min == 1000000000.0
      invariant forall j | 0 <= j < i && rs[j].status == Running :: min <= rs[j].priority
    {
      if rs[i].status == Running && rs[i].priority < min {
        min, idx := rs[i].priority, i;
      }
    }
  }

  /** What one generation step does to a request. */
  ghost predicate Advanced(was: Request, now: Request, token: nat, free: nat) {
    && now.pos == (if was.pos < was.seqLen then was.pos + 1 else was.pos) && now.seqLen == was.seqLen
    && now.priority == was.priority
    && now.tokens == (if was.pos < was.seqLen then was.tokens[was.pos := token] else was.tokens)
    && now.status == (if now.pos >= was.seqLen then Finished else Running)
    && |now.table| == |was.table| + (if was.pos < was.seqLen && now.pos % BLOCK_SIZE == 0 && |was.table| < TABLE_MAX && free > 0 then 1 else 0)
    && was.table <= now.table
  }

  /** Whether request r is advanced in a step that routed these requests. */
  predicate Steps(routed: seq<Request>, named: set<nat>, r: nat)
    requires r < |routed|
  {
    r in named && routed[r].status == Running
  }

  ghost predicate Stepped(was: Request, now: Request, token: nat) {
    exists free: nat :: Advanced(was, now, token, free)
  }

  /** The first k requests have taken their step; the rest are as routed. */
  ghost predicate SteppedTo(routed: seq<Request>, now: seq<Request>, named: set<nat>, tokens: seq<nat>, k: nat) {
    && |now| == |routed| <= |tokens| && k <= |routed|
    && (forall r | 0 <= r < k :: if Steps(routed, named, r) then Stepped(routed[r], now[r], tokens[r]) else now[r] == routed[r])
    && forall r | k <= r < |routed| :: now[r] == routed[r]
  }

  lemma NoSteps(routed: seq<Request>, named: set<nat>, tokens: seq<nat>)
    requires |routed| <= |tokens|
    ensures SteppedTo(routed, routed, named, tokens, 0) && Emitted(routed, named, tokens, 0) == []
  {}

  lemma StepNext(routed: seq<Request>, now: seq<Request>, named: set<nat>, tokens: seq<nat>, k: nat)
    requires k < |routed| && SteppedTo(routed, now, named, tokens, k)
    ensures now[k] == routed[k] && (Steps(routed, named, k) <==> k in named && now[k].status == Running)
    ensures !Steps(routed, named, k) ==> SteppedTo(routed, now, named, tokens, k + 1)
    ensures Emitted(routed, named, tokens, k + 1)
         == Emitted(routed, named, tokens, k) + if Steps(routed, named, k) then [tokens[k]] else []
  {
    hide Stepped;
  }

  lemma StepOne(routed: seq<Request>, was: seq<Request>, now: seq<Request>, named: set<nat>, tokens: seq<nat>, k: nat, free: nat)
    requires k < |routed| && SteppedTo(routed, was, named, tokens, k) && Steps(routed, named, k)
    requires |now| == |was| && Advanced(was[k], now[k], tokens[k], free) && forall i | 0 <= i < |now| && i != k :: now[i] == was[i]
    ensures SteppedTo(routed, now, named, tokens, k + 1)
  {
    hide Advanced;
  }

  /** The tokens emitted for the first k requests. */
  function Emitted(routed: seq<Request>, named: set<nat>, tokens: seq<nat>, k: nat): (r: seq<nat>)
    requires k <= |routed| <= |tokens|
  {
    if k == 0 then [] else Emitted(routed, named, tokens, k - 1) + if Steps(routed, named, k - 1) then [tokens[k - 1]] else []
  }

  lemma StatusKeeps(rs: seq<Request>, i: nat, st: Status, flags: seq<bool>, free: nat, maxBatch: nat)
    requires Holds(rs, flags, free, maxBatch) && i < |rs| && st != Running
    ensures Holds(WithStatus(rs, i, st), flags, free, maxBatch)
  {
    TotalSet(rs, i, rs[i].(status := st), |rs|);
    CountSet(rs, i, rs[i].(status := st), Running, |rs|);
  }

  /** A block from the pool joins one table: still every block is free or owned once. */
  lemma AdvanceKeeps(rs: seq<Request>, r: nat, req: Request, flags: seq<bool>, free: nat, flags': seq<bool>, free': nat, maxBatch: nat)
    requires Holds(rs, flags, free, maxBatch) && r < |rs| && rs[r].status == Running && |req.table| <= TABLE_MAX
    requires Drawn(rs[r].table, req.table, flags, free, flags', free')
    ensures Holds(rs[r := req], flags', free', maxBatch)
  {
    TotalSet(rs, r, req, |rs|);
    CountSet(rs, r, req, Running, |rs|);
    OwnedDraw(rs, r, req, flags, free, flags', free');
  }

  /** The table is unchanged, or one free block moved to its end. */
  ghost predicate Drawn(was: seq<nat>, now: seq<nat>, flags: seq<bool>, free: nat, flags': seq<bool>, free': nat) {
    (now == was && flags' == flags && free' == free)
    || (|now| == |was| + 1 && now[..|was|] == was && now[|was|] < |flags| && flags[now[|was|]]
        && flags' == flags[now[|was|] := false] && free' == free - 1)
  }

  lemma OwnedDraw(rs: seq<Request>, r: nat, req: Request, flags: seq<bool>, free: nat, flags': seq<bool>, free': nat)
    requires Owned(rs, flags) && r < |rs| && Drawn(rs[r].table, req.table, flags, free, flags', free')
    ensures Owned(rs[r := req], flags')
  {
    var now := rs[r := req];
    var n := |rs[r].table|;
    forall i, a | 0 <= i < |now| && 0 <= a < |now[i].table|
      ensures now[i].table[a] == if i == r && a == n then req.table[n] else rs[i].table[a]
    {}
  }

  lemma SubmitKeeps(rs: seq<Request>, req: Request, flags: seq<bool>, free: nat, flags': seq<bool>, free': nat, maxBatch: nat)
    requires Holds(rs, flags, free, maxBatch) && |rs| < MAX_BATCH && req.status == Waiting && |req.table| <= TABLE_MAX
    requires Drawn([], req.table, flags, free, flags', free')
    ensures Holds(rs + [req], flags', free', maxBatch)
  {
    var blank := req.(table := []);
    var grown := rs + [blank];
    SameTotal(rs, grown[..|rs|], |rs|);
    TotalPrefix(grown, rs, |rs|);
    CountPrefix(grown, rs, Running, |rs|);
    assert grown[|rs| := req] == rs + [req];
    TotalSet(grown, |rs|, req, |grown|);
    CountSet(grown, |rs|, req, Running, |grown|);
    OwnedDraw(grown, |rs|, req, flags, free, flags', free');
  }

  lemma {:induction false} TotalPrefix(a: seq<Request>, b: seq<Request>, k: nat)
    requires k <= |a| && k <= |b| && a[..k] == b[..k]
    ensures Total(a, k) == Total(b, k)
  {
    if k > 0 {
      assert a[k - 1] == a[..k][k - 1] == b[k - 1];
      assert a[..k - 1] == a[..k][..k - 1] == b[..k - 1];
      TotalPrefix(a, b, k - 1);
    }
  }

  lemma {:induction false} CountPrefix(a: seq<Request>, b: seq<Request>, st: Status, k: nat)
    requires k <= |a| && k <= |b| && a[..k] == b[..k]
    ensures CountOf(a, st, k) == CountOf(b, st, k)
  {
    if k > 0 {
      assert a[k - 1] == a[..k][k - 1] == b[k - 1];
      assert a[..k - 1] == a[..k][..k - 1] == b[..k - 1];
      CountPrefix(a, b, st, k - 1);
    }
  }

  ghost predicate Holds(rs: seq<Request>, flags: seq<bool>, free: nat, maxBatch: nat) {
    && 0 < maxBatch <= MAX_BATCH && Bounded(rs) && Owned(rs, flags)
    && free + Total(rs, |rs|) == MAX_BLOCKS && RunningCount(rs) <= maxBatch
  }

  lemma HoldsParts(rs: seq<Request>, flags: seq<bool>, free: nat, maxBatch: nat)
    requires Holds(rs, flags, free, maxBatch)
    ensures 0 < maxBatch <= MAX_BATCH && RunningCount(rs) <= maxBatch && Bounded(rs) && Owned(rs, flags)
  {}

  lemma RankedFits(rs: seq<Request>, order: seq<nat>)
    requires Ranked(rs, order)
    ensures Within(order, rs) && |order| <= |rs|
  {
    forall a | 0 <= a < |order| ensures order[a] < |rs| { assert order[a] in order; }
    PrefixDistinct(order, |order|);
    var used := set i | 0 <= i < |order| :: order[i];
    SubsetSize(used, Below(|rs|));
  }

  // ----- no block is lost -----

  ghost function OwnedSet(rs: seq<Request>, k: nat): (r: set<nat>)
    requires k <= |rs|
    ensures forall b: nat :: b in r <==> exists i :: 0 <= i < k && b in rs[i].table
  {
    if k == 0 then {} else OwnedSet(rs, k - 1) + TableSet(rs[k - 1].table)
  }

  ghost function TableSet(table: seq<nat>): (r: set<nat>)
    ensures forall b: nat :: b in r <==> b in table
  {
    set a | 0 <= a < |table| :: table[a]
  }

  lemma {:induction false} OwnedSize(rs: seq<Request>, flags: seq<bool>, k: nat)
    requires Owned(rs, flags) && k <= |rs|
    ensures |OwnedSet(rs, k)| == Total(rs, k)
  {
    hide *;
    OwnedNone(rs);
    if k > 0 {
      OwnedSize(rs, flags, k - 1);
      TableSize(rs, flags, k - 1);
      NewTable(rs, flags, k - 1);
      OwnedMore(rs, k);
    }
  }

  lemma OwnedNone(rs: seq<Request>)
    ensures OwnedSet(rs, 0) == {} && Total(rs, 0) == 0
  {}

  lemma OwnedMore(rs: seq<Request>, k: nat)
    requires 0 < k <= |rs| && OwnedSet(rs, k - 1) !! TableSet(rs[k - 1].table)
    ensures |OwnedSet(rs, k)| == |OwnedSet(rs, k - 1)| + |TableSet(rs[k - 1].table)|
    ensures Total(rs, k) == Total(rs, k - 1) + |rs[k - 1].table|
  {}

  lemma TableSize(rs: seq<Request>, flags: seq<bool>, k: nat)
    requires Owned(rs, flags) && k < |rs|
    ensures |TableSet(rs[k].table)| == |rs[k].table|
  {
    var table := rs[k].table;
    forall a, b | 0 <= a < b < |table| ensures table[a] != table[b] {
      assert rs[k].table[a] == table[a] && rs[k].table[b] == table[b];
    }
    hide Owned;
    DistinctSize(table);
    assert TableSet(table) == set a | 0 <= a < |table| :: table[a];
  }

  lemma NewTable(rs: seq<Request>, flags: seq<bool>, k: nat)
    requires Owned(rs, flags) && k < |rs|
    ensures OwnedSet(rs, k) !! TableSet(rs[k].table)
  {
    hide Owned;
    forall b: nat | b in OwnedSet(rs, k) ensures b !in TableSet(rs[k].table) {
      var i :| 0 <= i < k && b in rs[i].table;
      OnlyOwner(rs, flags, i, k, b);
    }
  }

  lemma OnlyOwner(rs: seq<Request>, flags: seq<bool>, i: nat, j: nat, b: nat)
    requires Owned(rs, flags) && i < j < |rs| && b in rs[i].table
    ensures b !in rs[j].table
  {
    var a :| 0 <= a < |rs[i].table| && rs[i].table[a] == b;
    forall c | 0 <= c < |rs[j].table| ensures rs[j].table[c] != b {}
  }

  /** Every block is on the free list or in exactly one request's table, never both and never neither. */
  lemma NoBlockLost(rs: seq<Request>, stack: seq<nat>, flags: seq<bool>, refs: seq<int>, maxBatch: nat, b: nat)
    requires Consistent(stack, flags, refs) && Holds(rs, flags, |stack|, maxBatch) && b < MAX_BLOCKS
    ensures b in stack <==> !exists i :: 0 <= i < |rs| && b in rs[i].table
    ensures forall i, j | 0 <= i < j < |rs| && b in rs[i].table :: b !in rs[j].table
  {
    HoldsParts(rs, flags, |stack|, maxBatch);
    CountsMatch(rs, flags, |stack|, maxBatch);
    StackSet(stack, flags, refs);
    var owned, free := OwnedSet(rs, |rs|), TableSet(stack);
    hide Owned, Holds, Consistent, Total;
    forall x: nat | x in owned ensures x < MAX_BLOCKS && x !in free {
      var i :| 0 <= i < |rs| && x in rs[i].table;
      InUse(rs, flags, i, x);
    }
    Cover(owned, free, b, MAX_BLOCKS);
    forall i, j | 0 <= i < j < |rs| && b in rs[i].table ensures b !in rs[j].table {
      OnlyOwner(rs, flags, i, j, b);
    }
  }

  lemma CountsMatch(rs: seq<Request>, flags: seq<bool>, free: nat, maxBatch: nat)
    requires Holds(rs, flags, free, maxBatch)
    ensures free + |OwnedSet(rs, |rs|)| == MAX_BLOCKS
  {
    OwnedSize(rs, flags, |rs|);
  }

  lemma StackSet(stack: seq<nat>, flags: seq<bool>, refs: seq<int>)
    requires Consistent(stack, flags, refs)
    ensures |TableSet(stack)| == |stack|
    ensures forall x: nat :: x in TableSet(stack) <==> x < MAX_BLOCKS && x < |flags| && flags[x]
  {
    DistinctSize(stack);
    assert TableSet(stack) == set a | 0 <= a < |stack| :: stack[a];
  }

  /** Two disjoint sets of ids below m whose sizes add up to m. */
  lemma Cover(a: set<nat>, b: set<nat>, x: nat, m: nat)
    requires a !! b && |a| + |b| == m && x < m && forall y: nat | y in a + b :: y < m
    ensures x in a + b
  {
    if x !in a + b { SubsetSize(a + b, Below(m) - {x}); }
  }

  lemma InUse(rs: seq<Request>, flags: seq<bool>, i: nat, b: nat)
    requires Owned(rs, flags) && i < |rs| && b in rs[i].table
    ensures b < MAX_BLOCKS && !flags[b]
  {
    var a :| 0 <= a < |rs[i].table| && rs[i].table[a] == b;
  }
}
