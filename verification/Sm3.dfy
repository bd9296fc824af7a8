/**
 SM3 as an incremental hash, for whatever compression function, with the keyed hash and the key
 derivation built on it.
 */
module Sm3 {
  import opened Residues
  import opened Bytes

  type Compress = (seq<Word>, seq<Byte>) -> seq<Word>

  const BLOCK: nat := 64
  const DIGEST: nat := 32

  const IV: seq<Word> := [0x7380166f, 0x4914b2b9, 0x172442d7, 0xda8a0600, 0xa96f30bc, 0x163138aa, 0xe38dee4d, 0xb0fb0e4e]

  /** The compression iterated over whole blocks. */
  function Fold(f: Compress, s: seq<Word>, m: seq<Byte>): (r: seq<Word>)
    requires |m| % BLOCK == 0
  {
    if m == [] then s else f(Fold(f, s, m[..|m| - BLOCK]), m[|m| - BLOCK..])
  }

  lemma FoldSnoc(f: Compress, s: seq<Word>, m: seq<Byte>, block: seq<Byte>)
    requires |m| % BLOCK == 0 && |block| == BLOCK
    ensures |m + block| % BLOCK == 0 && Fold(f, s, m + block) == f(Fold(f, s, m), block)
  {
    assert (m + block)[..|m + block| - BLOCK] == m && (m + block)[|m + block| - BLOCK..] == block;
  }

  /** The number of zero bytes the padding needs. */
  function Gap(len: nat): (k: nat)
    ensures (len + 1 + k) % BLOCK == 56 && k < BLOCK
  {
    (119 - len % BLOCK) % BLOCK
  }

  /** The padded message: a one bit, zeros, and the length in bits. */
  function Padded(m: seq<Byte>): (r: seq<Byte>)
    ensures |r| % BLOCK == 0
  {
    PaddedLength(|m|, Gap(|m|));
    m + [0x80] + Zeros(Gap(|m|)) + BE(8 * |m|, 8)
  }

  lemma PaddedLength(len: nat, k: nat)
    requires (len + 1 + k) % BLOCK == 56
    ensures (len + 1 + k + 8) % BLOCK == 0
  {}

  /**
   What the padding is: the message, a one bit, zeros, and the length in bits read most significant
   byte first; and it is the shortest whole number of blocks with room for all that.
   */
  lemma PaddedIs(m: seq<Byte>)
    requires |m| < 0x2000_0000_0000_0000
    ensures var p := Padded(m);
            && |p| % BLOCK == 0 && |m| + 9 <= |p| < |m| + 9 + BLOCK
            && p[..|m|] == m && p[|m|] == 0x80
            && (forall i | |m| < i < |p| - 8 :: p[i] == 0)
            && Number(p[|p| - 8..]) == 8 * |m|
  {
    var p, tail := Padded(m), BE(8 * |m|, 8);
    assert p[|p| - 8..] == tail;
    Reads(8 * |m|, 8);
    EightBytes();
    ModSmall(8 * |m|, U64);
  }

  lemma EightBytes()
    ensures Limit(8) == U64
  {
    assert Limit(2) == 0x1_0000 && Limit(4) == 0x1_0000_0000 && Limit(6) == 0x1_0000_0000_0000;
  }

  /** The first eight words, big-endian; a state always has eight. */
  function Output(s: seq<Word>): (r: seq<Byte>)
    ensures |r| == DIGEST
  {
    var w := s + [0, 0, 0, 0, 0, 0, 0, 0];
    PutWord(w[0]) + PutWord(w[1]) + PutWord(w[2]) + PutWord(w[3])
    + PutWord(w[4]) + PutWord(w[5]) + PutWord(w[6]) + PutWord(w[7])
  }

  /** Read back four bytes at a time, the output is the words of the state. */
  lemma OutputReads(s: seq<Word>, i: nat)
    requires |s| == 8 && i < 8
    ensures Number(Output(s)[4 * i..4 * i + 4]) == s[i] as nat
  {
    hide PutWord;
    var w := s + [0, 0, 0, 0, 0, 0, 0, 0];
    assert w[i] == s[i];
    assert Output(s)[4 * i..4 * i + 4] == PutWord(s[i]);
    WordReads(PutWord(s[i]));
    PutGet(s[i]);
  }

  function Hash(f: Compress, m: seq<Byte>): (r: seq<Byte>)
    ensures |r| == DIGEST
  {
    Output(Fold(f, IV, Padded(m)))
  }

  /** The part of a message in whole blocks. */
  function Whole(len: nat): (k: nat)
    ensures k <= len && k % BLOCK == 0 && len - k == len % BLOCK
  {
    len - len % BLOCK
  }

  class Context {
    const f: Compress
    var s: seq<Word>
    const buf: array<Byte>
    var buflen: nat
    var n: nat
    ghost var msg: seq<Byte>

    /** The state has absorbed every whole block, the buffer holds the rest. */
    ghost predicate Valid()
      reads this, buf
    {
      && buf.Length == BLOCK && buflen == |msg| % BLOCK && buf[..buflen] == msg[Whole(|msg|)..]
      && s == Fold(f, IV, msg[..Whole(|msg|)]) && n == W64(|msg|)
    }

    constructor (f: Compress)
      ensures Valid() && msg == [] && fresh(buf) && this.f == f
    {
      this.f := f;
      s, buflen, n, msg := IV, 0, 0, [];
      buf := new Byte[BLOCK](_ => 0);
    }

    /** Absorbs more bytes: whole blocks straight from the input when the buffer is empty. */
    method Update(p: seq<Byte>)
      requires Valid()
      modifies this, buf
      ensures Valid() && msg == old(msg) + p
    {
      ghost var before := msg;
      var i := 0;
      n := W64(n + |p|);
      ghost var total := n;
      CountAdds(|before|, |p|);
      assert before + p[..0] == before;
      while i < |p|
        invariant 0 <= i <= |p| && Absorbed(before + p[..i]) && n == total
        decreases |p| - i
      {
        i := Absorb(before, p, i);
      }
      assert p[..i] == p;
      msg := before + p;
    }

    /** Valid, apart from the byte count, for these bytes. */
    ghost predicate Absorbed(m: seq<Byte>)
      reads this, buf
    {
      && buf.Length == BLOCK && buflen == |m| % BLOCK && buf[..buflen] == m[Whole(|m|)..]
      && s == Fold(f, IV, m[..Whole(|m|)])
    }

    /** One turn of the loop: a whole block, or as much as the buffer takes. */
    method Absorb(ghost before: seq<Byte>, p: seq<Byte>, i: nat) returns (j: nat)
      requires i < |p| && Absorbed(before + p[..i])
      modifies this`s, this`buflen, buf
      ensures i < j <= |p| && Absorbed(before + p[..j])
    {
      ghost var m := before + p[..i];
      if buflen == 0 && |p| - i >= BLOCK {
        j := i + BLOCK;
        WholeBlock(f, m, p[i..j]);
        assert before + p[..j] == m + p[i..j];
        s := f(s, p[i..j]);
        return;
      }
      var take := BLOCK - buflen;
      if take > |p| - i { take := |p| - i; }
      j := i + take;
      assert before + p[..j] == m + p[i..j];
      CopyBytes(p, i, take);
      buflen := buflen + take;
      Buffered(f, m, p[i..j], buf[..buflen]);
      if buflen == BLOCK {
        s := f(s, buf[..]);
        buflen := 0;
        assert buf[..] == buf[..BLOCK];
      }
    }

    method CopyBytes(p: seq<Byte>, i: nat, take: nat)
      requires buf.Length == BLOCK && buflen + take <= BLOCK && i + take <= |p|
      modifies buf
      ensures buf[..buflen + take] == old(buf[..buflen]) + p[i..i + take]
    {
      ghost var was := buf[..buflen];
      for k := 0 to take
        invariant buf[..buflen + k] == was + p[i..i + k]
      {
        buf[buflen + k] := p[i + k];
        assert buf[..buflen + k + 1] == buf[..buflen + k] + [p[i + k]];
      }
    }

    /** Pads, absorbs the length and reads the state out. */
    method Final() returns (out: seq<Byte>)
      requires Valid() && |msg| < 0x2000_0000_0000_0000
      modifies this, buf
      ensures out == Hash(f, old(msg))
    {
      hide Fold, BE, Output, Gap;
      ghost var m := msg;
      var bits := W64(n * 8);
      Update([0x80]);
      ghost var k: nat := 0;
      GapStart(|m|);
      while buflen != 56
        invariant Valid() && msg == m + [0x80] + Zeros(k) && k <= Gap(|m|)
        decreases Gap(|m|) - k
      {
        GapStep(|m|, k);
        Update([0]);
        assert m + [0x80] + Zeros(k) + [0] == m + [0x80] + Zeros(k + 1);
        k := k + 1;
      }
      GapUnique(|m|, k);
      Update(BE(bits, 8));
      assert msg == Padded(m);
      assert msg[..Whole(|msg|)] == msg;
      out := Output(s);
    }
  }

  lemma CountAdds(x: nat, y: nat)
    ensures W64(W64(x) + y) == W64(x + y)
  {
    ModMod(x, U64);
    ModAdd(x % U64, x, y, y, U64);
  }

  lemma WholeBlock(f: Compress, m: seq<Byte>, block: seq<Byte>)
    requires |m| % BLOCK == 0 && |block| == BLOCK
    ensures |m + block| % BLOCK == 0 && Whole(|m + block|) == |m + block| && Whole(|m|) == |m|
    ensures Fold(f, IV, (m + block)[..Whole(|m + block|)]) == f(Fold(f, IV, m[..Whole(|m|)]), block)
  {
    FoldSnoc(f, IV, m, block);
    assert m[..|m|] == m && (m + block)[..|m + block|] == m + block;
  }

  /** What the buffer holds after taking more bytes, full or not. */
  lemma Buffered(f: Compress, m: seq<Byte>, part: seq<Byte>, buffer: seq<Byte>)
    requires buffer == m[Whole(|m|)..] + part && |buffer| <= BLOCK && |part| > 0
    ensures |buffer| < BLOCK ==>
      |m + part| % BLOCK == |buffer| && (m + part)[Whole(|m + part|)..] == buffer
      && (m + part)[..Whole(|m + part|)] == m[..Whole(|m|)]
    ensures |buffer| == BLOCK ==>
      |m + part| % BLOCK == 0 && (m + part)[Whole(|m + part|)..] == []
      && Fold(f, IV, (m + part)[..Whole(|m + part|)]) == f(Fold(f, IV, m[..Whole(|m|)]), buffer)
  {
    var w := Whole(|m|);
    assert m + part == m[..w] + buffer;
    if |buffer| == BLOCK {
      WholeBlock(f, m[..w], buffer);
      assert m[..w][..Whole(w)] == m[..w];
    } else {
      DivUnique(|m + part|, BLOCK, w / BLOCK, |buffer|);
    }
  }

  lemma GapStart(len: nat)
    ensures (len + 1) % BLOCK == 56 <==> Gap(len) == 0
  {}

  lemma GapStep(len: nat, k: nat)
    requires k <= Gap(len) && (len + 1 + k) % BLOCK != 56
    ensures k < Gap(len)
  {}

  lemma GapUnique(len: nat, k: nat)
    requires k <= Gap(len) && (len + 1 + k) % BLOCK == 56
    ensures k == Gap(len)
  {}

  // ----- the keyed hash -----

  function Xor(key: seq<Byte>, mask: Byte): (r: seq<Byte>)
    ensures |r| == |key|
  {
    seq(|key|, i requires 0 <= i < |key| => key[i] ^ mask)
  }

  /** Masking again gives the key back, and the two pads differ in every byte. */
  lemma Pads(key: seq<Byte>)
    ensures Xor(Xor(key, 0x36), 0x36) == key && Xor(Xor(key, 0x5c), 0x5c) == key
    ensures forall i | 0 <= i < |key| :: Xor(key, 0x36)[i] ^ Xor(key, 0x5c)[i] == 0x6a
  {
    forall i | 0 <= i < |key|
      ensures (key[i] ^ 0x36) ^ 0x36 == key[i] && (key[i] ^ 0x5c) ^ 0x5c == key[i] && (key[i] ^ 0x36) ^ (key[i] ^ 0x5c) == 0x6a
    {
      ByteMasks(key[i]);
    }
  }

  lemma ByteMasks(b: Byte)
    ensures (b ^ 0x36) ^ 0x36 == b && (b ^ 0x5c) ^ 0x5c == b && (b ^ 0x36) ^ (b ^ 0x5c) == 0x6a
  {}

  /** A key brought to one block: hashed when longer, padded with zeros when shorter. */
  function BlockKey(f: Compress, key: seq<Byte>): (k: seq<Byte>)
    ensures |k| == BLOCK
  {
    var short := if |key| > BLOCK then Hash(f, key) else key;
    short + Zeros(BLOCK - |short|)
  }

  /** Section 2 of RFC 2104. */
  function Hmac(f: Compress, key: seq<Byte>, m: seq<Byte>): (r: seq<Byte>)
  {
    var k := BlockKey(f, key);
    Hash(f, Xor(k, 0x5c) + Hash(f, Xor(k, 0x36) + m))
  }

  class HmacContext {
    const f: Compress
    const ctx: Context
    const opad: seq<Byte>
    ghost const key: seq<Byte>

    /** The inner hash has absorbed the inner pad and the message. */
    ghost predicate Valid()
      reads this, ctx, ctx.buf
    {
      ctx.Valid() && ctx.f == f && |ctx.msg| >= BLOCK
      && opad == Xor(BlockKey(f, key), 0x5c) && ctx.msg[..BLOCK] == Xor(BlockKey(f, key), 0x36)
    }

    ghost function Message(): seq<Byte>
      requires Valid()
      reads this, ctx, ctx.buf
    {
      ctx.msg[BLOCK..]
    }

    constructor (f: Compress, key: seq<Byte>)
      requires |key| < 0x2000_0000_0000_0000
      ensures Valid() && Message() == [] && this.f == f && this.key == key && fresh(ctx) && fresh(ctx.buf)
    {
      var short := key;
      if |key| > BLOCK {
        var c := new Context(f);
        c.Update(key);
        assert [] + key == key;
        short := c.Final();
      }
      var k := short + Zeros(BLOCK - |short|);
      assert k == BlockKey(f, key);
      var inner := new Context(f);
      inner.Update(Xor(k, 0x36));
      this.f, this.ctx, this.opad, this.key := f, inner, Xor(k, 0x5c), key;
    }

    method Update(p: seq<Byte>)
      requires Valid()
      modifies ctx, ctx.buf
      ensures Valid() && Message() == old(Message()) + p
    {
      hide Fold, Xor, BlockKey;
      ghost var was := ctx.msg;
      ctx.Update(p);
      assert (was + p)[..BLOCK] == was[..BLOCK] && (was + p)[BLOCK..] == was[BLOCK..] + p;
    }

    method Final() returns (out: seq<Byte>)
      requires Valid() && |Message()| < 0x1fff_ffff_ffff_ff00
      modifies ctx, ctx.buf
      ensures out == Hmac(f, key, old(Message()))
    {
      ghost var m := Message();
      assert ctx.msg == Xor(BlockKey(f, key), 0x36) + m;
      var inner := ctx.Final();
      var outer := new Context(f);
      outer.Update(opad);
      outer.Update(inner);
      assert [] + opad + inner == opad + inner;
      out := outer.Final();
    }
  }

  // ----- key derivation -----

  /** Byte i of the derived key comes from the hash of the secret and a 32-bit counter. */
  function KdfByte(f: Compress, z: seq<Byte>, i: nat): Byte {
    Hash(f, z + BE(W32(i / DIGEST + 1), 4))[i % DIGEST]
  }

  function Kdf(f: Compress, z: seq<Byte>, len: nat): (r: seq<Byte>)
    ensures |r| == len
  {
    seq(len, i requires 0 <= i < len => KdfByte(f, z, i))
  }

  method DeriveKey(f: Compress, z: seq<Byte>, klen: nat) returns (out: seq<Byte>)
    requires |z| < 0x1fff_ffff_ffff_ff00
    ensures out == Kdf(f, z, klen)
  {
    var ct: nat := 1;
    out := [];
    ghost var blocks := 0;
    while |out| < klen
      invariant |out| == (if blocks * DIGEST <= klen then blocks * DIGEST else klen)
      invariant ct == W32(blocks + 1) && out == Kdf(f, z, |out|)
      decreases klen - |out|
    {
      hide Hash, KdfByte, Kdf, BE;
      var h := CounterHash(f, z, ct);
      var n := klen - |out|;
      if n > DIGEST { n := DIGEST; }
      NextBytes(f, z, blocks, h, n);
      out := out + h[..n];
      CountAdds32(blocks + 1);
      ct := W32(ct + 1);
      blocks := blocks + 1;
    }
  }

  method CounterHash(f: Compress, z: seq<Byte>, ct: nat) returns (h: seq<Byte>)
    requires |z| < 0x1fff_ffff_ffff_ff00
    ensures h == Hash(f, z + BE(ct, 4))
  {
    hide Hash, BE, Fold, Output;
    var ctx := new Context(f);
    ctx.Update(z);
    ctx.Update(BE(ct, 4));
    assert [] + z + BE(ct, 4) == z + BE(ct, 4);
    h := ctx.Final();
  }

  lemma CountAdds32(x: nat)
    ensures W32(W32(x) + 1) == W32(x + 1)
  {
    ModMod(x, U32);
    ModAdd(x % U32, x, 1, 1, U32);
  }

  lemma NextBytes(f: Compress, z: seq<Byte>, blocks: nat, h: seq<Byte>, n: nat)
    requires h == Hash(f, z + BE(W32(blocks + 1), 4)) && n <= DIGEST
    ensures Kdf(f, z, blocks * DIGEST + n) == Kdf(f, z, blocks * DIGEST) + h[..n]
  {
    hide Hash, BE;
    forall i | 0 <= i < n ensures KdfByte(f, z, blocks * DIGEST + i) == h[i] {
      DivUnique(blocks * DIGEST + i, DIGEST, blocks, i);
    }
    KdfExtends(f, z, blocks * DIGEST, h[..n]);
  }

  lemma KdfExtends(f: Compress, z: seq<Byte>, len: nat, more: seq<Byte>)
    requires forall i | 0 <= i < |more| :: KdfByte(f, z, len + i) == more[i]
    ensures Kdf(f, z, len + |more|) == Kdf(f, z, len) + more
  {
    hide KdfByte;
    forall i | len <= i < len + |more| ensures KdfByte(f, z, i) == more[i - len] {
      assert KdfByte(f, z, len + (i - len)) == more[i - len];
    }
  }

  /** A shorter key is a prefix of a longer one. */
  lemma KdfPrefix(f: Compress, z: seq<Byte>, short: nat, long: nat)
    requires short <= long
    ensures Kdf(f, z, long)[..short] == Kdf(f, z, short)
  {
    hide KdfByte;
    forall i | 0 <= i < short ensures Kdf(f, z, long)[..short][i] == Kdf(f, z, short)[i] {}
  }

  /** However a message is cut into pieces, absorbing them in turn absorbs the message. */
  function Joined(parts: seq<seq<Byte>>): (m: seq<Byte>) {
    if parts == [] then [] else Joined(parts[..|parts| - 1]) + parts[|parts| - 1]
  }

  method HashParts(f: Compress, parts: seq<seq<Byte>>) returns (out: seq<Byte>)
    requires |Joined(parts)| < 0x2000_0000_0000_0000
    ensures out == Hash(f, Joined(parts))
  {
    var c := new Context(f);
    for i := 0 to |parts|
      invariant c.Valid() && c.f == f && c.msg == Joined(parts[..i])
      invariant fresh(c) && fresh(c.buf)
    {
      assert parts[..i + 1][..i] == parts[..i];
      c.Update(parts[i]);
    }
    assert parts[..|parts|] == parts;
    out := c.Final();
  }
}
