/** Which blocks of a layer stay in RAM: the heaviest by importance, and always the last. */
module L3Pick {
  import opened L3Quant
  import opened Sets

  /** The importance a block accumulates over its positions. */
  function Mass(importance: seq<real>, from: nat, to: nat): real
    requires from <= to <= |importance|
  {
    if from == to then 0.0 else Mass(importance, from, to - 1) + importance[to - 1]
  }

  /** Masses of neighbouring ranges add up, and a single position weighs its importance. */
  lemma {:induction false} MassSplit(importance: seq<real>, from: nat, mid: nat, to: nat)
    requires from <= mid <= to <= |importance|
    ensures Mass(importance, from, to) == Mass(importance, from, mid) + Mass(importance, mid, to)
    ensures from + 1 == to ==> Mass(importance, from, to) == importance[from]
  {
    if mid < to { MassSplit(importance, from, mid, to - 1); }
  }

  /** The comparator: heavier first, ties by the smaller index. */
  predicate Beats(mass: seq<real>, x: nat, y: nat)
    requires x < |mass| && y < |mass|
  {
    mass[x] > mass[y] || (mass[x] == mass[y] && x < y)
  }

  /** How many blocks come before y. */
  ghost function Rank(mass: seq<real>, y: nat): (r: nat)
    requires y < |mass|
  {
    |Before(mass, y)|
  }

  ghost function Before(mass: seq<real>, y: nat): (r: set<nat>)
    requires y < |mass|
  {
    set x: nat | x < |mass| && Beats(mass, x, y)
  }

  ghost predicate Sorted(mass: seq<real>, order: seq<nat>) {
    && (forall i | 0 <= i < |order| :: order[i] < |mass|)
    && (forall i, j | 0 <= i < j < |order| :: Beats(mass, order[i], order[j]))
  }

  /** Sorts the blocks by the comparator. */
  method SortRanks(mass: seq<real>) returns (order: seq<nat>)
    ensures |order| == |mass| && Sorted(mass, order)
    ensures forall x: nat | x < |mass| :: x in order
  {
    order := [];
    for i := 0 to |mass|
      invariant |order| == i && Sorted(mass, order)
      invariant forall x: nat :: x in order <==> x < i
    {
      var pos := i;
      while pos > 0 && Beats(mass, i, order[pos - 1])
        invariant 0 <= pos <= i
        invariant forall k | pos <= k < i :: Beats(mass, i, order[k])
      {
        pos := pos - 1;
      }
      InsertSorted(mass, order, i, pos);
      order := order[..pos] + [i] + order[pos..];
    }
  }

  lemma InsertSorted(mass: seq<real>, order: seq<nat>, i: nat, pos: nat)
    requires Sorted(mass, order) && i < |mass| && pos <= |order| && i !in order
    requires forall k | pos <= k < |order| :: Beats(mass, i, order[k])
    requires pos > 0 ==> !Beats(mass, i, order[pos - 1])
    ensures Sorted(mass, order[..pos] + [i] + order[pos..])
    ensures forall x: nat :: x in order[..pos] + [i] + order[pos..] <==> x in order || x == i
  {
    forall k | 0 <= k < pos ensures Beats(mass, order[k], i) {
      assert order[k] in order && order[pos - 1] in order;
    }
    InsertMembers(order, i, pos);
    InsertBetween(mass, order, i, pos);
  }

  lemma InsertMembers(order: seq<nat>, i: nat, pos: nat)
    requires pos <= |order|
    ensures forall x: nat :: x in order[..pos] + [i] + order[pos..] <==> x in order || x == i
  {
    assert order == order[..pos] + order[pos..];
  }

  lemma {:induction false} InsertBetween(mass: seq<real>, order: seq<nat>, i: nat, pos: nat)
    requires Sorted(mass, order) && i < |mass| && pos <= |order|
    requires forall k | pos <= k < |order| :: Beats(mass, i, order[k])
    requires forall k | 0 <= k < pos :: Beats(mass, order[k], i)
    ensures Sorted(mass, order[..pos] + [i] + order[pos..])
  {
    hide Beats;
    var grown := order[..pos] + [i] + order[pos..];
    forall k | 0 <= k < |grown|
      ensures grown[k] == if k < pos then order[k] else if k == pos then i else order[k - 1]
    {}
  }

  lemma NotBefore(mass: seq<real>, order: seq<nat>, i: nat, k: nat)
    requires Sorted(mass, order) && i <= k < |order|
    ensures !Beats(mass, order[k], order[i])
  {
    if i < k { assert Beats(mass, order[i], order[k]); }
  }

  /** In a sorted listing of all blocks, position is rank. */
  lemma PositionIsRank(mass: seq<real>, order: seq<nat>, i: nat)
    requires |order| == |mass| && Sorted(mass, order) && i < |order|
    requires forall x: nat | x < |mass| :: x in order
    ensures Rank(mass, order[i]) == i
  {
    var prefix := set k | 0 <= k < i :: order[k];
    forall x: nat | x in Before(mass, order[i]) ensures x in prefix {
      assert x in order;
      var k :| 0 <= k < |order| && order[k] == x;
      if k >= i { NotBefore(mass, order, i, k); }
    }
    assert prefix == Before(mass, order[i]);
    PrefixSize(mass, order, i);
  }

  lemma {:induction false} PrefixSize(mass: seq<real>, order: seq<nat>, i: nat)
    requires Sorted(mass, order) && i <= |order|
    ensures |set k | 0 <= k < i :: order[k]| == i
  {
    if i > 0 {
      PrefixSize(mass, order, i - 1);
      var before := set k | 0 <= k < i - 1 :: order[k];
      assert (set k | 0 <= k < i :: order[k]) == before + {order[i - 1]};
    }
  }

  /** How many blocks stay by rank: the whole part of their share, but at least one and at most all. */
  function KeepCount(ratio: real, n: nat): (k: nat)
    requires n > 0
    ensures 1 <= k <= n
    ensures (1.0 - ratio) * n as real < 1.0 ==> k == 1
    ensures (1.0 - ratio) * n as real >= n as real ==> k == n
    ensures 1.0 <= (1.0 - ratio) * n as real < n as real ==> k as real <= (1.0 - ratio) * n as real < k as real + 1.0
  {
    var k := Trunc((1.0 - ratio) * n as real);
    var k' := if k < 1 then 1 else k;
    if k' >= n then n else k'
  }

  /** A block stays exactly when its rank is within the count or it is the last one. */
  ghost predicate Kept(keep: seq<bool>, mass: seq<real>, count: nat) {
    && |keep| == |mass| > 0
    && forall b: nat | b < |mass| :: keep[b] <==> b == |mass| - 1 || Rank(mass, b) < count
  }

  function BlockEnd(b: nat, bs: nat, seqLen: nat): nat
  {
    if (b + 1) * bs > seqLen then seqLen else (b + 1) * bs
  }

  ghost predicate Masses(mass: seq<real>, importance: seq<real>, bs: nat, seqLen: nat) {
    && seqLen <= |importance|
    && forall b: nat | b < |mass| ::
         b * bs <= BlockEnd(b, bs, seqLen) <= seqLen && mass[b] == Mass(importance, b * bs, BlockEnd(b, bs, seqLen))
  }

  ghost function Staying(keep: seq<bool>): (r: set<nat>) {
    set b: nat | b < |keep| && keep[b]
  }

  /** A listing of the first i blocks in the order of the comparator. */
  lemma {:induction false} Listed(mass: seq<real>, i: nat) returns (order: seq<nat>)
    requires i <= |mass|
    ensures |order| == i && Sorted(mass, order) && forall x: nat :: x in order <==> x < i
  {
    if i == 0 {
      order := [];
    } else {
      var before := Listed(mass, i - 1);
      var pos := Place(mass, before, i - 1, i - 1);
      InsertSorted(mass, before, i - 1, pos);
      order := before[..pos] + [i - 1] + before[pos..];
    }
  }

  /** Where block i belongs among sorted others, looking at the first m of them. */
  lemma {:induction false} Place(mass: seq<real>, order: seq<nat>, i: nat, m: nat) returns (pos: nat)
    requires Sorted(mass, order) && i < |mass| && m <= |order|
    requires forall k | m <= k < |order| :: Beats(mass, i, order[k])
    ensures pos <= |order| && (forall k | pos <= k < |order| :: Beats(mass, i, order[k]))
    ensures pos > 0 ==> !Beats(mass, i, order[pos - 1])
  {
    if m > 0 && Beats(mass, i, order[m - 1]) { pos := Place(mass, order, i, m - 1); } else { pos := m; }
  }

  /** Exactly as many blocks stay as the count says, and the last one besides when its rank is beyond it. */
  lemma StayCount(keep: seq<bool>, mass: seq<real>, count: nat)
    requires Kept(keep, mass, count) && count <= |mass|
    ensures |Staying(keep)| == count + if Rank(mass, |mass| - 1) < count then 0 else 1
  {
    var n := |mass|;
    var order := Listed(mass, n);
    var ranked := set k | 0 <= k < count :: order[k];
    PrefixSize(mass, order, count);
    forall b: nat | b < n ensures b in ranked <==> Rank(mass, b) < count {
      KeptByRank(mass, order, count, b);
      assert b in order[..count] <==> b in ranked;
    }
    assert forall b | b in ranked :: b < n;
    hide Rank, Sorted;
    assert Staying(keep) == ranked + {n - 1};
  }

  method PickBlocks(n: nat, seqLen: nat, importance: seq<real>, ratio: real, bs: nat) returns (keep: seq<bool>, ghost mass: seq<real>)
    requires bs > 0 && n > 0 && (n - 1) * bs < seqLen <= n * bs && seqLen <= |importance|
    ensures |mass| == n && Masses(mass, importance, bs, seqLen)
    ensures Kept(keep, mass, KeepCount(ratio, n))
    ensures |Staying(keep)| == KeepCount(ratio, n) + if Rank(mass, n - 1) < KeepCount(ratio, n) then 0 else 1
  {
    var m: seq<real> := BlockMasses(n, seqLen, importance, bs);
    mass := m;
    var order := SortRanks(m);
    var count := KeepCount(ratio, n);
    keep := seq(n, _ => false);
    for i := 0 to count
      invariant |keep| == n
      invariant forall b: nat | b < n :: keep[b] <==> b in order[..i]
    {
      assert order[..i + 1] == order[..i] + [order[i]];
      keep := keep[order[i] := true];
    }
    keep := keep[n - 1 := true];
    forall b: nat | b < n ensures b in order[..count] <==> Rank(m, b) < count {
      KeptByRank(m, order, count, b);
    }
    StayCount(keep, m, count);
  }

  lemma KeptByRank(mass: seq<real>, order: seq<nat>, count: nat, b: nat)
    requires |order| == |mass| && Sorted(mass, order) && count <= |order| && b < |mass|
    requires forall x: nat | x < |mass| :: x in order
    ensures b in order[..count] <==> Rank(mass, b) < count
  {
    hide Sorted, Rank;
    assert b in order;
    var k :| 0 <= k < |order| && order[k] == b;
    PositionIsRank(mass, order, k);
    if b in order[..count] {
      var j :| 0 <= j < count && order[j] == b;
      PositionIsRank(mass, order, j);
    }
  }

  method BlockMasses(n: nat, seqLen: nat, importance: seq<real>, bs: nat) returns (m: seq<real>)
    requires bs > 0 && n > 0 && (n - 1) * bs < seqLen <= n * bs && seqLen <= |importance|
    ensures |m| == n && Masses(m, importance, bs, seqLen)
  {
    m := [];
    for b := 0 to n
      invariant |m| == b && Masses(m, importance, bs, seqLen)
    {
      BlockStart(b, n, bs, seqLen);
      var p0, p1 := b * bs, b * bs + bs;
      if p1 > seqLen { p1 := seqLen; }
      var sum := 0.0;
      for t := p0 to p1
        invariant sum == Mass(importance, p0, t)
      {
        sum := sum + importance[t];
      }
      m := m + [sum];
    }
  }

  lemma BlockStart(b: nat, n: nat, bs: nat, seqLen: nat)
    requires bs > 0 && b < n && (n - 1) * bs < seqLen
    ensures 0 <= b * bs < seqLen && (b + 1) * bs == b * bs + bs
  {
    assert b * bs <= (n - 1) * bs;
  }

  /** Whatever stays by rank is heavier than whatever goes, or as heavy and earlier. */
  lemma HotterStays(keep: seq<bool>, mass: seq<real>, count: nat, x: nat, y: nat)
    requires Kept(keep, mass, count) && x < |mass| && y < |mass| && keep[x] && !keep[y] && x != |mass| - 1
    ensures mass[x] > mass[y] || (mass[x] == mass[y] && x < y)
  {
    if !Beats(mass, x, y) {
      assert Beats(mass, y, x) || x == y;
      assert Before(mass, y) <= Before(mass, x);
      SubsetSize(Before(mass, y), Before(mass, x));
    }
  }
}
