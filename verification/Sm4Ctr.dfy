/** Counter mode: a 128-bit big-endian counter, incremented byte by byte, over any block function. */
module Sm4Ctr {
  import opened Bytes
  import opened Sm4

  /** The block cipher with its keys fixed. */
  type Cipher = seq<Byte> -> seq<Byte>

  ghost predicate BlockCipher(e: Cipher) {
    forall c: seq<Byte> | |c| == BLOCK :: |e(c)| == BLOCK
  }

  /** Adds one to the last byte; a byte that wraps to zero carries into the one before it. */
  function Inc(c: seq<Byte>): (r: seq<Byte>)
    ensures |r| == |c|
  {
    if c == [] then []
    else
      var last := c[|c| - 1] + 1;
      if last != 0 then c[..|c| - 1] + [last] else Inc(c[..|c| - 1]) + [last]
  }

  function IncBy(c: seq<Byte>, k: nat): (r: seq<Byte>)
    ensures |r| == |c|
  {
    if k == 0 then c else Inc(IncBy(c, k - 1))
  }

  /** Incrementing adds one modulo 2^(8n). */
  lemma {:induction false} IncNumber(c: seq<Byte>)
    ensures Number(c) < Limit(|c|)
    ensures Number(Inc(c)) == if Number(c) + 1 == Limit(|c|) then 0 else Number(c) + 1
  {
    if c != [] {
      var init, last := c[..|c| - 1], c[|c| - 1];
      IncNumber(init);
      ByteNext(last);
      var r := Inc(c);
      assert r[..|r| - 1] == if last + 1 != 0 then init else Inc(init);
      assert r[|r| - 1] == last + 1;
    }
  }

  lemma {:induction false} IncByAdd(c: seq<Byte>, j: nat, k: nat)
    ensures IncBy(IncBy(c, j), k) == IncBy(c, j + k)
  {
    hide Inc;
    if k > 0 { IncByAdd(c, j, k - 1); }
  }

  /** The ripple from byte 15 down. */
  method IncInPlace(counter: array<Byte>)
    requires counter.Length == BLOCK
    modifies counter
    ensures counter[..] == Inc(old(counter[..]))
  {
    hide Inc;
    ghost var was := counter[..];
    var i := BLOCK;
    var going := true;
    assert was[..16] == was;
    while i > 0 && going
      invariant 0 <= i <= BLOCK && counter[..i] == was[..i]
      invariant Inc(was) == (if going then Inc(was[..i]) else was[..i]) + counter[i..]
      decreases i, going
    {
      i := i - 1;
      RippleStep(was, i);
      counter[i] := counter[i] + 1;
      assert counter[i..] == [counter[i]] + counter[i + 1..];
      if counter[i] != 0 { going := false; }
      assert counter[..i] == was[..i];
    }
    assert counter[..] == counter[..i] + counter[i..];
    IncNone(was[..i], i);
  }

  lemma IncNone(c: seq<Byte>, i: nat)
    requires |c| == i
    ensures i == 0 ==> c == [] && Inc(c) == []
  {}

  lemma RippleStep(was: seq<Byte>, i: nat)
    requires i < |was|
    ensures Inc(was[..i + 1]) == (if was[i] + 1 != 0 then was[..i] else Inc(was[..i])) + [was[i] + 1]
  {
    assert was[..i + 1][..i] == was[..i];
  }

  /** Byte i of the key stream. */
  function StreamByte(e: Cipher, c: seq<Byte>, i: nat): Byte
    requires |c| == BLOCK
  {
    var ks := e(IncBy(c, i / BLOCK));
    if i % BLOCK < |ks| then ks[i % BLOCK] else 0
  }

  function Ctr(e: Cipher, c: seq<Byte>, m: seq<Byte>): (r: seq<Byte>)
    requires |c| == BLOCK
    ensures |r| == |m|
  {
    seq(|m|, i requires 0 <= i < |m| => m[i] ^ StreamByte(e, c, i))
  }

  /** Whole blocks advance the counter; a last partial block uses it without advancing. */
  method CtrCrypt(e: Cipher, counter: array<Byte>, m: seq<Byte>) returns (out: seq<Byte>)
    requires counter.Length == BLOCK && BlockCipher(e)
    modifies counter
    ensures out == Ctr(e, old(counter[..]), m)
    ensures counter[..] == IncBy(old(counter[..]), |m| / BLOCK)
  {
    hide Inc, Ctr, IncBy, StreamByte;
    ghost var c := counter[..];
    CtrStart(e, c, m);
    out := [];
    ghost var k: nat := 0;
    while |m| - |out| >= BLOCK
      invariant |out| == BLOCK * k <= |m| && counter[..] == IncBy(c, k)
      invariant out == Ctr(e, c, m[..|out|])
      decreases |m| - |out|
    {
      var ks := e(counter[..]);
      var part := XorWith(m[|out|..|out| + BLOCK], ks);
      CtrExtend(e, c, m, k, ks, part);
      out := out + part;
      IncInPlace(counter);
      IncByNext(c, k);
      k := k + 1;
    }
    if |m| > |out| {
      var ks := e(counter[..]);
      var part := XorWith(m[|out|..], ks);
      assert m[|out|..] == m[|out|..|m|];
      CtrExtend(e, c, m, k, ks, part);
      out := out + part;
    }
    assert m[..|m|] == m;
  }

  lemma CtrStart(e: Cipher, c: seq<Byte>, m: seq<Byte>)
    requires |c| == BLOCK
    ensures IncBy(c, 0) == c && m[..0] == [] && Ctr(e, c, m[..0]) == []
  {}

  lemma IncByNext(c: seq<Byte>, k: nat)
    ensures IncBy(c, k + 1) == Inc(IncBy(c, k))
  {}

  method XorWith(m: seq<Byte>, ks: seq<Byte>) returns (r: seq<Byte>)
    requires |m| <= |ks|
    ensures |r| == |m| && forall i | 0 <= i < |m| :: r[i] == m[i] ^ ks[i]
  {
    r := [];
    for i := 0 to |m|
      invariant |r| == i && forall j | 0 <= j < i :: r[j] == m[j] ^ ks[j]
    {
      r := r + [m[i] ^ ks[i]];
    }
  }

  lemma CtrExtend(e: Cipher, c: seq<Byte>, m: seq<Byte>, k: nat, ks: seq<Byte>, part: seq<Byte>)
    requires |c| == BLOCK && |ks| == BLOCK && ks == e(IncBy(c, k)) && |part| <= BLOCK && BLOCK * k + |part| <= |m|
    requires forall i | 0 <= i < |part| :: part[i] == m[BLOCK * k + i] ^ ks[i]
    ensures Ctr(e, c, m[..BLOCK * k + |part|]) == Ctr(e, c, m[..BLOCK * k]) + part
  {
    hide Ctr, StreamByte, IncBy;
    forall i | 0 <= i < |part| ensures StreamByte(e, c, BLOCK * k + i) == ks[i] {
      StreamAt(e, c, k, i, ks);
    }
    var a, b := m[..BLOCK * k], m[BLOCK * k..BLOCK * k + |part|];
    assert a + b == m[..BLOCK * k + |part|];
    CtrAppend(e, c, a, b, ks, part);
  }

  lemma StreamAt(e: Cipher, c: seq<Byte>, k: nat, i: nat, ks: seq<Byte>)
    requires |c| == BLOCK && |ks| == BLOCK && ks == e(IncBy(c, k)) && i < BLOCK
    ensures StreamByte(e, c, BLOCK * k + i) == ks[i]
  {
    hide IncBy;
    BlockAt(k, i);
  }

  lemma CtrAppend(e: Cipher, c: seq<Byte>, a: seq<Byte>, b: seq<Byte>, ks: seq<Byte>, part: seq<Byte>)
    requires |c| == BLOCK && |b| == |part| <= |ks|
    requires forall i | 0 <= i < |part| :: part[i] == b[i] ^ ks[i] && StreamByte(e, c, |a| + i) == ks[i]
    ensures Ctr(e, c, a + b) == Ctr(e, c, a) + part
  {
    hide StreamByte;
    var whole, both := Ctr(e, c, a + b), Ctr(e, c, a) + part;
    forall i | 0 <= i < |a| + |b| ensures whole[i] == both[i] {
      if i >= |a| { assert StreamByte(e, c, |a| + (i - |a|)) == ks[i - |a|]; }
    }
  }

  lemma BlockAt(k: nat, i: nat)
    requires i < BLOCK
    ensures (BLOCK * k + i) / BLOCK == k && (BLOCK * k + i) % BLOCK == i
  {}

  /** What masks a message: block k of the stream is the cipher at the counter advanced k times. */
  lemma KeyStream(e: Cipher, c: seq<Byte>, n: nat, k: nat)
    requires |c| == BLOCK && BlockCipher(e) && BLOCK * (k + 1) <= n
    ensures Ctr(e, c, Zeros(n))[BLOCK * k..BLOCK * (k + 1)] == e(IncBy(c, k))
  {
    hide IncBy, StreamByte;
    var ks := e(IncBy(c, k));
    forall i | 0 <= i < BLOCK ensures Ctr(e, c, Zeros(n))[BLOCK * k + i] == ks[i] {
      StreamAt(e, c, k, i, ks);
      ByteZero(ks[i]);
    }
  }

  lemma ByteZero(a: Byte)
    ensures 0 ^ a == a
  {}

  /** Applying the mode twice from the same counter gives the message back. */
  lemma CtrTwice(e: Cipher, c: seq<Byte>, m: seq<Byte>)
    requires |c| == BLOCK
    ensures Ctr(e, c, Ctr(e, c, m)) == m
  {
    hide StreamByte;
    forall i | 0 <= i < |m| ensures (m[i] ^ StreamByte(e, c, i)) ^ StreamByte(e, c, i) == m[i] {
      ByteTwice(m[i], StreamByte(e, c, i));
    }
  }

  lemma ByteTwice(a: Byte, b: Byte)
    ensures (a ^ b) ^ b == a
  {}

  /** Splitting at whole blocks is one call with the counter advanced by the blocks of the first part. */
  lemma CtrSplit(e: Cipher, c: seq<Byte>, a: seq<Byte>, b: seq<Byte>)
    requires |c| == BLOCK && |a| % BLOCK == 0
    ensures Ctr(e, c, a + b) == Ctr(e, c, a) + Ctr(e, IncBy(c, |a| / BLOCK), b)
  {
    hide StreamByte, IncBy, Ctr;
    SplitBlocks(e, c, a, b, |a| / BLOCK);
  }

  lemma SplitBlocks(e: Cipher, c: seq<Byte>, a: seq<Byte>, b: seq<Byte>, k: nat)
    requires |c| == BLOCK && |a| == BLOCK * k
    ensures Ctr(e, c, a + b) == Ctr(e, c, a) + Ctr(e, IncBy(c, k), b)
  {
    hide StreamByte, IncBy, Ctr;
    var d := IncBy(c, k);
    forall i | 0 <= i < |b| ensures StreamByte(e, c, |a| + i) == StreamByte(e, d, i) {
      SplitStream(e, c, k, i);
    }
    SplitBytes(e, c, d, a, b);
  }

  lemma SplitStream(e: Cipher, c: seq<Byte>, k: nat, i: nat)
    requires |c| == BLOCK
    ensures StreamByte(e, c, BLOCK * k + i) == StreamByte(e, IncBy(c, k), i)
  {
    hide IncBy;
    SplitIndex(k, i);
    IncByAdd(c, k, i / BLOCK);
  }

  lemma SplitBytes(e: Cipher, c: seq<Byte>, d: seq<Byte>, a: seq<Byte>, b: seq<Byte>)
    requires |c| == |d| == BLOCK && forall i | 0 <= i < |b| :: StreamByte(e, c, |a| + i) == StreamByte(e, d, i)
    ensures Ctr(e, c, a + b) == Ctr(e, c, a) + Ctr(e, d, b)
  {
    hide StreamByte;
    var whole, both := Ctr(e, c, a + b), Ctr(e, c, a) + Ctr(e, d, b);
    forall i | 0 <= i < |a| + |b| ensures whole[i] == both[i] {
      if i >= |a| { assert StreamByte(e, c, |a| + (i - |a|)) == StreamByte(e, d, i - |a|); }
    }
  }

  lemma SplitIndex(k: nat, i: nat)
    ensures (BLOCK * k + i) / BLOCK == k + i / BLOCK && (BLOCK * k + i) % BLOCK == i % BLOCK
  {}
}
