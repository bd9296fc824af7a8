/** SM4 for whatever S-box: key schedule, block cipher, and counter mode. */
module Sm4 {
  import opened Bytes

  const ROUNDS: nat := 32
  const BLOCK: nat := 16

  const FK: seq<Word> := [0xa3b1bac6, 0x56aa3350, 0x677d9197, 0xb27022dc]

  /** Constant word i: bytes (4i + j) * 7 modulo 256. */
  function Ck(i: nat): Word
    requires i < ROUNDS
  {
    (CkByte(i, 0) << 24) | (CkByte(i, 1) << 16) | (CkByte(i, 2) << 8) | CkByte(i, 3)
  }

  function CkByte(i: nat, j: nat): Word
  {
    ((4 * i + j) * 7 % 256) as Word
  }

  type SBox = Byte -> Byte

  function Tau(box: SBox, x: Word): Word {
    Join(box(((x >> 24) & 0xff) as Byte), box(((x >> 16) & 0xff) as Byte),
         box(((x >> 8) & 0xff) as Byte), box((x & 0xff) as Byte))
  }

  function L(b: Word): Word {
    b ^ b.RotateLeft(2) ^ b.RotateLeft(10) ^ b.RotateLeft(18) ^ b.RotateLeft(24)
  }

  function LKey(b: Word): Word {
    b ^ b.RotateLeft(13) ^ b.RotateLeft(23)
  }

  function T(box: SBox, x: Word): Word { L(Tau(box, x)) }

  function TKey(box: SBox, x: Word): Word { LKey(Tau(box, x)) }

  /** The S-box is applied to each byte in its place. */
  lemma TauBytes(box: SBox, x: Word)
    ensures PutWord(Tau(box, x)) == [box(PutWord(x)[0]), box(PutWord(x)[1]), box(PutWord(x)[2]), box(PutWord(x)[3])]
  {
    GetPut([box(PutWord(x)[0]), box(PutWord(x)[1]), box(PutWord(x)[2]), box(PutWord(x)[3])]);
  }

  /** The diffusion spreads one bit to these five places, and that of the key schedule to these three. */
  lemma Diffusion()
    ensures L(1) == 0x01040405 && LKey(1) == 0x00802001
  {}

  /** With a box that changes nothing, a round mixes with the first diffusion and a round key with the second. */
  lemma PlainBox()
    ensures T(b => b, 1) == 0x01040405 && TKey(b => b, 1) == 0x00802001
  {
    PlainTau();
    Diffusion();
    hide L, LKey, Tau;
  }

  lemma PlainTau()
    ensures Tau(b => b, 1) == 1
  {}

  /** The first and the last constant, as the standard lists them. */
  lemma CkEnds()
    ensures Ck(0) == 0x00070e15 && Ck(31) == 0x646b7279
  {
    CkFirst();
    CkLast();
    hide Ck;
  }

  lemma CkFirst()
    ensures Ck(0) == 0x00070e15
  {
    CkByteIs(0, 0, 0);
    CkByteIs(0, 1, 7);
    CkByteIs(0, 2, 14);
    CkByteIs(0, 3, 21);
    hide CkByte;
  }

  lemma CkLast()
    ensures Ck(31) == 0x646b7279
  {
    CkByteIs(31, 0, 100);
    CkByteIs(31, 1, 107);
    CkByteIs(31, 2, 114);
    CkByteIs(31, 3, 121);
    hide CkByte;
  }

  lemma CkByteIs(i: nat, j: nat, v: nat)
    requires (4 * i + j) * 7 % 256 == v
    ensures CkByte(i, j) == v as Word
  {}

  // ----- the key schedule -----

  /** The schedule's words: four from the key, one more a round. */
  function KeyWords(box: SBox, mk: seq<Word>, n: nat): (k: seq<Word>)
    requires |mk| == 4 && n <= ROUNDS
    ensures |k| == n + 4
  {
    if n == 0 then [mk[0] ^ FK[0], mk[1] ^ FK[1], mk[2] ^ FK[2], mk[3] ^ FK[3]]
    else
      var k := KeyWords(box, mk, n - 1);
      k + [NextKey(box, k, n - 1)]
  }

  /** What round i adds to a word. */
  function Turn(box: SBox, a: Word, b: Word, c: Word, i: nat): Word
    requires i < ROUNDS
  {
    TKey(box, a ^ b ^ c ^ Ck(i))
  }

  /** One round of the schedule. */
  function NextKey(box: SBox, k: seq<Word>, i: nat): Word
    requires i < ROUNDS && i + 4 <= |k|
  {
    k[i] ^ Turn(box, k[i + 1], k[i + 2], k[i + 3], i)
  }

  lemma NextIs(box: SBox, k: seq<Word>, i: nat)
    requires i < ROUNDS && i + 4 <= |k|
    ensures NextKey(box, k, i) == k[i] ^ TKey(box, k[i + 1] ^ k[i + 2] ^ k[i + 3] ^ Ck(i))
  {}

  /** The four words one place before these in the schedule. */
  function Earlier(box: SBox, w: seq<Word>, i: nat): (r: seq<Word>)
    requires |w| == 4 && i < ROUNDS
    ensures |r| == 4
  {
    [w[3] ^ Turn(box, w[0], w[1], w[2], i), w[0], w[1], w[2]]
  }

  /** The schedule walked backwards from any four neighbouring words. */
  function Unwound(box: SBox, w: seq<Word>, n: nat): (r: seq<Word>)
    requires |w| == 4 && n <= ROUNDS
    ensures |r| == 4
    decreases n
  {
    if n == 0 then w else Unwound(box, Earlier(box, w, n - 1), n - 1)
  }

  /** Any four neighbouring words of the schedule give the key back. */
  lemma {:induction false} ScheduleBack(box: SBox, mk: seq<Word>, n: nat)
    requires |mk| == 4 && n <= ROUNDS
    ensures Unwound(box, KeyWords(box, mk, n)[n..], n) == KeyWords(box, mk, 0)
  {
    hide NextKey, Earlier;
    if n == 0 {
      assert KeyWords(box, mk, 0)[0..] == KeyWords(box, mk, 0);
    } else {
      ScheduleBack(box, mk, n - 1);
      EarlierIs(box, KeyWords(box, mk, n - 1), n - 1);
    }
  }

  lemma EarlierIs(box: SBox, k: seq<Word>, i: nat)
    requires i < ROUNDS && |k| == i + 4
    ensures Earlier(box, (k + [NextKey(box, k, i)])[i + 1..], i) == k[i..]
  {
    hide Turn;
    var next := NextKey(box, k, i);
    assert (k + [next])[i + 1..] == [k[i + 1], k[i + 2], k[i + 3], next];
    XorTwice(k[i], Turn(box, k[i + 1], k[i + 2], k[i + 3], i));
    assert Earlier(box, [k[i + 1], k[i + 2], k[i + 3], next], i) == [k[i], k[i + 1], k[i + 2], k[i + 3]];
    assert k[i..] == [k[i], k[i + 1], k[i + 2], k[i + 3]];
  }

  function RoundKeys(box: SBox, mk: seq<Word>): (rk: seq<Word>)
    requires |mk| == 4
    ensures |rk| == ROUNDS
  {
    KeyWords(box, mk, ROUNDS)[4..]
  }

  method ExpandKey(box: SBox, mk: seq<Word>) returns (rk: seq<Word>)
    requires |mk| == 4
    ensures rk == RoundKeys(box, mk)
  {
    hide TKey, Ck;
    var k := [mk[0] ^ FK[0], mk[1] ^ FK[1], mk[2] ^ FK[2], mk[3] ^ FK[3]];
    rk := [];
    for i := 0 to ROUNDS
      invariant k == KeyWords(box, mk, i) && rk == k[4..]
    {
      NextIs(box, k, i);
      var next := k[i] ^ TKey(box, k[i + 1] ^ k[i + 2] ^ k[i + 3] ^ Ck(i));
      hide NextKey;
      assert (k + [next])[4..] == k[4..] + [next];
      k := k + [next];
      rk := rk + [next];
    }
  }

  /** The decryption keys are the same keys in reverse. */
  method ExpandKeyDec(box: SBox, mk: seq<Word>) returns (rk: seq<Word>)
    requires |mk| == 4
    ensures rk == Reversed(RoundKeys(box, mk))
  {
    var enc := ExpandKey(box, mk);
    rk := [];
    for i := 0 to ROUNDS
      invariant |rk| == i && forall j | 0 <= j < i :: rk[j] == enc[ROUNDS - 1 - j]
    {
      rk := rk + [enc[ROUNDS - 1 - i]];
    }
  }

  function Reversed(rk: seq<Word>): (r: seq<Word>)
    ensures |r| == |rk|
  {
    seq(|rk|, i requires 0 <= i < |rk| => rk[|rk| - 1 - i])
  }

  // ----- the block cipher -----

  function Mix(box: SBox, a: Word, b: Word, c: Word, d: Word, k: Word): Word {
    a ^ T(box, b ^ c ^ d ^ k)
  }

  /** The state words after n rounds. */
  function States(box: SBox, rk: seq<Word>, x: seq<Word>, n: nat): (r: seq<Word>)
    requires |rk| == ROUNDS && |x| == 4 && n <= ROUNDS
    ensures |r| == n + 4
  {
    if n == 0 then x
    else
      var r := States(box, rk, x, n - 1);
      r + [Mix(box, r[n - 1], r[n], r[n + 1], r[n + 2], rk[n - 1])]
  }

  /** The last four words, in reverse. */
  function Crypt(box: SBox, rk: seq<Word>, x: seq<Word>): (y: seq<Word>)
    requires |rk| == ROUNDS && |x| == 4
    ensures |y| == 4
  {
    var s := States(box, rk, x, ROUNDS);
    [s[35], s[34], s[33], s[32]]
  }

  method CryptWords(box: SBox, rk: seq<Word>, x: seq<Word>) returns (y: seq<Word>)
    requires |rk| == ROUNDS && |x| == 4
    ensures y == Crypt(box, rk, x)
  {
    hide T, Mix;
    var s := x;
    for i := 0 to ROUNDS
      invariant s == States(box, rk, x, i)
    {
      MixIs(box, s[i], s[i + 1], s[i + 2], s[i + 3], rk[i]);
      s := s + [s[i] ^ T(box, s[i + 1] ^ s[i + 2] ^ s[i + 3] ^ rk[i])];
    }
    y := [s[35], s[34], s[33], s[32]];
  }

  lemma MixIs(box: SBox, a: Word, b: Word, c: Word, d: Word, k: Word)
    ensures Mix(box, a, b, c, d, k) == a ^ T(box, b ^ c ^ d ^ k)
  {}

  lemma {:induction false} StateStep(box: SBox, rk: seq<Word>, x: seq<Word>, n: nat, i: nat)
    requires |rk| == ROUNDS && |x| == 4 && i < n <= ROUNDS
    ensures var s := States(box, rk, x, n); s[i + 4] == Mix(box, s[i], s[i + 1], s[i + 2], s[i + 3], rk[i])
  {
    hide Mix;
    if i < n - 1 { StateStep(box, rk, x, n - 1, i); }
  }

  /** A round with the neighbours in reverse order undoes itself. */
  lemma MixBack(box: SBox, a: Word, b: Word, c: Word, d: Word, k: Word)
    ensures Mix(box, Mix(box, a, b, c, d, k), d, c, b, k) == a
  {
    hide T;
    assert b ^ c ^ d == d ^ c ^ b;
    XorTwice(a, T(box, b ^ c ^ d ^ k));
  }

  lemma XorTwice(a: Word, b: Word)
    ensures (a ^ b) ^ b == a
  {}

  /** Running the reversed keys from the end walks the same words backwards. */
  lemma {:induction false} Backwards(box: SBox, rk: seq<Word>, x: seq<Word>, y: seq<Word>, n: nat)
    requires |rk| == ROUNDS && |x| == 4 && n <= ROUNDS && y == Crypt(box, rk, x)
    ensures forall i | 0 <= i < n + 4 :: States(box, Reversed(rk), y, n)[i] == States(box, rk, x, ROUNDS)[35 - i]
  {
    hide Mix;
    if n > 0 {
      Backwards(box, rk, x, y, n - 1);
      var s := States(box, rk, x, ROUNDS);
      StateStep(box, rk, x, ROUNDS, 32 - n);
      MixBack(box, s[32 - n], s[33 - n], s[34 - n], s[35 - n], rk[32 - n]);
    }
  }

  /** Decryption undoes encryption, for every S-box, key and block. */
  lemma DecryptEncrypt(box: SBox, mk: seq<Word>, x: seq<Word>)
    requires |mk| == 4 && |x| == 4
    ensures Crypt(box, Reversed(RoundKeys(box, mk)), Crypt(box, RoundKeys(box, mk), x)) == x
  {
    hide KeyWords;
    CryptReversed(box, RoundKeys(box, mk), x);
  }

  lemma CryptReversed(box: SBox, rk: seq<Word>, x: seq<Word>)
    requires |rk| == ROUNDS && |x| == 4
    ensures Crypt(box, Reversed(rk), Crypt(box, rk, x)) == x
  {
    hide Mix;
    var y := Crypt(box, rk, x);
    Backwards(box, rk, x, y, ROUNDS);
    StatesStart(box, rk, x, ROUNDS);
  }

  lemma {:induction false} StatesStart(box: SBox, rk: seq<Word>, x: seq<Word>, n: nat)
    requires |rk| == ROUNDS && |x| == 4 && n <= ROUNDS
    ensures States(box, rk, x, n)[..4] == x
  {
    hide Mix;
    if n > 0 { StatesStart(box, rk, x, n - 1); }
  }

  // ----- bytes -----

  function CryptBytes(box: SBox, rk: seq<Word>, b: seq<Byte>): (r: seq<Byte>)
    requires |rk| == ROUNDS && |b| == BLOCK
    ensures |r| == BLOCK
  {
    var y := Crypt(box, rk, [GetWord(b[..4]), GetWord(b[4..8]), GetWord(b[8..12]), GetWord(b[12..])]);
    PutWord(y[0]) + PutWord(y[1]) + PutWord(y[2]) + PutWord(y[3])
  }

  /** On bytes too: the block cipher with reversed keys gives the block back. */
  lemma DecryptBytes(box: SBox, rk: seq<Word>, b: seq<Byte>)
    requires |rk| == ROUNDS && |b| == BLOCK
    ensures CryptBytes(box, Reversed(rk), CryptBytes(box, rk, b)) == b
  {
    hide Crypt, GetWord, PutWord;
    var x := [GetWord(b[..4]), GetWord(b[4..8]), GetWord(b[8..12]), GetWord(b[12..])];
    var y := Crypt(box, rk, x);
    var c := CryptBytes(box, rk, b);
    PutGet(y[0]);
    PutGet(y[1]);
    PutGet(y[2]);
    PutGet(y[3]);
    assert c[..4] == PutWord(y[0]) && c[4..8] == PutWord(y[1]) && c[8..12] == PutWord(y[2]) && c[12..] == PutWord(y[3]);
    assert [y[0], y[1], y[2], y[3]] == y;
    CryptReversed(box, rk, x);
    GetPut(b[..4]);
    GetPut(b[4..8]);
    GetPut(b[8..12]);
    GetPut(b[12..]);
    assert b == b[..4] + b[4..8] + b[8..12] + b[12..];
  }
}
