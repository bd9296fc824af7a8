/** The block allocator of the paged KV cache: a stack of free ids beside per-block flags. */
module BlockPool {
  import opened Sets

  const MAX_BLOCKS: nat := 256

  /** The stack holds exactly the free ids, each once; an id in use has one reference. */
  ghost predicate Consistent(stack: seq<nat>, flags: seq<bool>, refs: seq<int>) {
    && |flags| == |refs| == MAX_BLOCKS
    && Distinct(stack)
    && (forall b: nat :: b in stack <==> b < MAX_BLOCKS && flags[b])
    && (forall b | 0 <= b < MAX_BLOCKS :: refs[b] == if flags[b] then 0 else 1)
  }

  lemma Popped(stack: seq<nat>, flags: seq<bool>, refs: seq<int>)
    requires Consistent(stack, flags, refs) && stack != []
    ensures var id := stack[|stack| - 1];
            id < MAX_BLOCKS && flags[id] && Consistent(stack[..|stack| - 1], flags[id := false], refs[id := 1])
  {
    var id := stack[|stack| - 1];
    var rest := stack[..|stack| - 1];
    assert stack == rest + [id];
    assert id in stack;
    forall b: nat ensures b in rest <==> b in stack && b != id {}
    forall b: nat ensures b in rest <==> b < MAX_BLOCKS && flags[id := false][b] {}
  }

  lemma Pushed(stack: seq<nat>, flags: seq<bool>, refs: seq<int>, id: nat)
    requires Consistent(stack, flags, refs) && id < MAX_BLOCKS && !flags[id]
    ensures |stack| < MAX_BLOCKS && refs[id] == 1
    ensures Consistent(stack + [id], flags[id := true], refs[id := 0])
  {
    forall i | 0 <= i < |stack| ensures stack[i] < MAX_BLOCKS {
      assert stack[i] in stack;
    }
    Pigeonhole(stack, id, MAX_BLOCKS);
  }

  class Pool {
    const freeList: array<nat>
    const isFree: array<bool>
    const refCount: array<int>
    var freeCount: nat

    ghost predicate Valid()
      reads this, freeList, isFree, refCount
    {
      && freeList.Length == isFree.Length == refCount.Length == MAX_BLOCKS && freeCount <= MAX_BLOCKS
      && Consistent(freeList[..freeCount], isFree[..], refCount[..])
    }

    constructor ()
      ensures Valid() && freeCount == MAX_BLOCKS && fresh(freeList) && fresh(isFree) && fresh(refCount)
      ensures forall b | 0 <= b < MAX_BLOCKS :: isFree[b]
    {
      freeList := new nat[MAX_BLOCKS](i => i);
      isFree := new bool[MAX_BLOCKS](_ => true);
      refCount := new int[MAX_BLOCKS](_ => 0);
      freeCount := MAX_BLOCKS;
      new;
      forall b: nat ensures b in freeList[..] <==> b < MAX_BLOCKS {
        if b < MAX_BLOCKS { assert freeList[b] == b; }
      }
      assert freeList[..freeCount] == freeList[..];
    }

    /** Pops a free id; fails exactly when none is left. */
    method Alloc() returns (id: int)
      requires Valid()
      modifies this`freeCount, isFree, refCount
      ensures Valid()
      ensures id == -1 <==> old(freeCount) == 0
      ensures id == -1 ==> freeCount == 0 && isFree[..] == old(isFree[..])
      ensures id != -1 ==> 0 <= id < MAX_BLOCKS && old(isFree[id]) && freeCount == old(freeCount) - 1
      ensures id != -1 ==> isFree[..] == old(isFree[..])[id := false]
    {
      if freeCount == 0 { return -1; }
      Popped(freeList[..freeCount], isFree[..], refCount[..]);
      hide Consistent;
      ghost var stack := freeList[..freeCount];
      freeCount := freeCount - 1;
      id := freeList[freeCount];
      isFree[id] := false;
      refCount[id] := 1;
      assert freeList[..freeCount] == stack[..|stack| - 1];
    }

    /** Pushes an id back; an id out of range or already free is ignored. */
    method Release(id: int)
      requires Valid()
      modifies this`freeCount, freeList, isFree, refCount
      ensures Valid()
      ensures isFree[..] == if 0 <= id < MAX_BLOCKS then old(isFree[..])[id := true] else old(isFree[..])
      ensures freeCount == old(freeCount) + if 0 <= id < MAX_BLOCKS && !old(isFree[id]) then 1 else 0
    {
      if id < 0 || id >= MAX_BLOCKS { return; }
      if isFree[id] { return; }
      Pushed(freeList[..freeCount], isFree[..], refCount[..], id);
      hide Consistent;
      ghost var stack := freeList[..freeCount];
      refCount[id] := refCount[id] - 1;
      if refCount[id] <= 0 {
        isFree[id] := true;
        freeList[freeCount] := id;
        freeCount := freeCount + 1;
        assert freeList[..freeCount] == stack + [id as nat];
      }
    }
  }
}
