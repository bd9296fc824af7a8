/** Bytes and 32-bit words, and numbers written most significant byte first. */
module Bytes {
  import opened Residues

  type Byte = bv8
  type Word = bv32

  function Zeros(n: nat): (r: seq<Byte>)
    ensures |r| == n
  {
    seq(n, _ => 0)
  }

  /** What bytes read as, the first one the most significant. */
  function Number(s: seq<Byte>): (v: nat) {
    if s == [] then 0 else 256 * Number(s[..|s| - 1]) + s[|s| - 1] as nat
  }

  /** 256^n. */
  function Limit(n: nat): (r: nat)
    ensures r > 0
  {
    if n == 0 then 1 else 256 * Limit(n - 1)
  }

  /** A number in so many bytes. */
  function BE(x: nat, bytes: nat): (r: seq<Byte>)
    ensures |r| == bytes
  {
    if bytes == 0 then [] else BE(x / 256, bytes - 1) + [(x % 256) as Byte]
  }

  /** Read back, the bytes give the number modulo 256^n. */
  lemma {:induction false} Reads(x: nat, bytes: nat)
    ensures Number(BE(x, bytes)) == x % Limit(bytes)
  {
    if bytes > 0 {
      Reads(x / 256, bytes - 1);
      var r := BE(x, bytes);
      assert r[..|r| - 1] == BE(x / 256, bytes - 1) && r[|r| - 1] == (x % 256) as Byte;
      ByteValue(x % 256);
      Digit(x, Limit(bytes - 1));
    }
  }

  lemma ByteValue(b: nat)
    requires b < 256
    ensures (b as Byte) as int == b
  {
    var c := ByteUpTo(b);
    ByteBack(b, c);
  }

  lemma {:induction false} ByteUpTo(b: nat) returns (c: Byte)
    requires b < 256
    ensures c as int == b
  {
    if b == 0 {
      c := 0;
    } else {
      var d := ByteUpTo(b - 1);
      ByteNext(d);
      c := d + 1;
    }
  }

  lemma ByteBack(b: nat, c: Byte)
    requires b < 256 && c as int == b
    ensures b as Byte == c
  {}

  lemma ByteNext(b: Byte)
    ensures b + 1 == 0 <==> b as nat == 255
    ensures b + 1 != 0 ==> (b + 1) as nat == b as nat + 1
  {}

  lemma Digit(x: nat, m: nat)
    requires m > 0
    ensures x % (256 * m) == 256 * (x / 256 % m) + x % 256
  {
    var q, r := x / 256, x % 256;
    assert q == m * (q / m) + q % m;
    assert x == (256 * m) * (q / m) + (256 * (q % m) + r);
    DivUnique(x, 256 * m, q / m, 256 * (q % m) + r);
  }

  /** Four bytes as a word. */
  function Join(a: Byte, b: Byte, c: Byte, d: Byte): Word {
    ((a as Word) << 24) | ((b as Word) << 16) | ((c as Word) << 8) | (d as Word)
  }

  function GetWord(b: seq<Byte>): Word
    requires |b| == 4
  {
    Join(b[0], b[1], b[2], b[3])
  }

  function PutWord(w: Word): (r: seq<Byte>)
    ensures |r| == 4
  {
    [((w >> 24) & 0xff) as Byte, ((w >> 16) & 0xff) as Byte, ((w >> 8) & 0xff) as Byte, (w & 0xff) as Byte]
  }

  lemma PutGet(w: Word)
    ensures GetWord(PutWord(w)) == w
  {}

  lemma GetPut(b: seq<Byte>)
    requires |b| == 4
    ensures PutWord(GetWord(b)) == b
  {}

  /** A word is the number its bytes read as. */
  lemma WordReads(b: seq<Byte>)
    requires |b| == 4
    ensures GetWord(b) as nat == Number(b)
  {
    JoinReads(b[0], b[1], b[2], b[3]);
    hide Join;
    FourRead(b);
  }

  lemma JoinReads(a: Byte, b: Byte, c: Byte, d: Byte)
    ensures Join(a, b, c, d) as nat == 256 * (256 * (256 * a as nat + b as nat) + c as nat) + d as nat
  {
    var x := ((a as Word) << 8) | (b as Word);
    var y := (x << 8) | (c as Word);
    JoinSteps(a, b, c, d);
    hide Join;
    ByteWord(a);
    ByteJoins(a as Word, b);
    ByteJoins(x, c);
    ByteJoins(y, d);
  }

  lemma FourRead(b: seq<Byte>)
    requires |b| == 4
    ensures Number(b) == 256 * (256 * (256 * b[0] as nat + b[1] as nat) + b[2] as nat) + b[3] as nat
  {
    assert b[..4] == b && b[..0] == [];
    NumberNext(b, 0);
    NumberNext(b, 1);
    NumberNext(b, 2);
    NumberNext(b, 3);
  }

  lemma NumberNext(b: seq<Byte>, k: nat)
    requires k < |b|
    ensures Number(b[..k + 1]) == 256 * Number(b[..k]) + b[k] as nat
  {
    assert b[..k + 1][..k] == b[..k];
  }

  lemma JoinSteps(a: Byte, b: Byte, c: Byte, d: Byte)
    ensures var x := ((a as Word) << 8) | (b as Word);
            var y := (x << 8) | (c as Word);
            Join(a, b, c, d) == (y << 8) | (d as Word) && x < 0x1_0000 && y < 0x100_0000
  {}

  lemma ByteWord(b: Byte)
    ensures (b as Word) as nat == b as nat && b as Word < 0x100
  {}

  lemma ByteJoins(w: Word, b: Byte)
    requires w < 0x100_0000
    ensures ((w << 8) | (b as Word)) as nat == 256 * w as nat + b as nat
  {
    ShiftByte(w);
    LowByte(w << 8, b);
  }

  lemma ShiftByte(w: Word)
    requires w < 0x100_0000
    ensures (w << 8) as nat == w as nat * 256 && (w << 8) & 0xff == 0
  {}

  lemma LowByte(w: Word, b: Byte)
    requires w & 0xff == 0
    ensures (w | (b as Word)) as nat == w as nat + b as nat
  {}
}
