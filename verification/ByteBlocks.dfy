/** Disk blocks as bytes, and the little-endian 32-bit words inside them. */
module ByteBlocks {
  import opened Bits

  type Block = seq<bv8>

  /** A byte as the number its bits spell. */
  function Value(b: bv8): (v: nat)
    ensures v < 256
  {
    (if b & 1 != 0 then 1 else 0) + (if b & 2 != 0 then 2 else 0)
    + (if b & 4 != 0 then 4 else 0) + (if b & 8 != 0 then 8 else 0)
    + (if b & 16 != 0 then 16 else 0) + (if b & 32 != 0 then 32 else 0)
    + (if b & 64 != 0 then 64 else 0) + (if b & 128 != 0 then 128 else 0)
  }

  function Digit(w: nat, d: nat): bool
    requires d > 0
  {
    (w / d) % 2 == 1
  }

  /** The low byte of a number. */
  function ByteOf(w: nat): bv8 {
    (if Digit(w, 1) then 1 else 0) | (if Digit(w, 2) then 2 else 0)
    | (if Digit(w, 4) then 4 else 0) | (if Digit(w, 8) then 8 else 0)
    | (if Digit(w, 16) then 16 else 0) | (if Digit(w, 32) then 32 else 0)
    | (if Digit(w, 64) then 64 else 0) | (if Digit(w, 128) then 128 else 0)
  }

  lemma BitsOfByte(a: bool, b: bool, c: bool, d: bool, e: bool, f: bool, g: bool, h: bool)
    ensures var x: bv8 := (if a then 1 else 0) | (if b then 2 else 0) | (if c then 4 else 0) | (if d then 8 else 0)
              | (if e then 16 else 0) | (if f then 32 else 0) | (if g then 64 else 0) | (if h then 128 else 0);
      && (x & 1 != 0 <==> a) && (x & 2 != 0 <==> b) && (x & 4 != 0 <==> c) && (x & 8 != 0 <==> d)
      && (x & 16 != 0 <==> e) && (x & 32 != 0 <==> f) && (x & 64 != 0 <==> g) && (x & 128 != 0 <==> h)
  {
  }

  lemma Pair(w: nat)
    ensures w % 4 == (if w % 2 == 1 then 1 else 0) + (if (w / 2) % 2 == 1 then 2 else 0)
  {
    var q, a, b := w / 4, (w % 4) / 2, (w % 4) % 2;
    DivUnique(w, 2, 2 * q + a, b);
    DivUnique(2 * q + a, 2, q, a);
  }

  lemma Nibble(w: nat)
    ensures w % 16 == w % 4 + 4 * ((w / 4) % 4)
  {
    var q, a, b := w / 16, (w % 16) / 4, (w % 16) % 4;
    DivUnique(w, 4, 4 * q + a, b);
    DivUnique(4 * q + a, 4, q, a);
  }

  lemma Low(w: nat)
    ensures w % 256 == w % 16 + 16 * ((w / 16) % 16)
  {
    var q, a, b := w / 256, (w % 256) / 16, (w % 256) % 16;
    DivUnique(w, 16, 16 * q + a, b);
    DivUnique(16 * q + a, 16, q, a);
  }

  lemma Quotients(w: nat)
    ensures (w / 4) / 2 == w / 8 && (w / 16) / 2 == w / 32 && (w / 16) / 4 == w / 64 && (w / 64) / 2 == w / 128
  {
    DivDiv(w, 4, 2);
    DivDiv(w, 16, 2);
    DivDiv(w, 16, 4);
    DivDiv(w, 64, 2);
  }

  lemma DigitsOf(w: nat)
    ensures w % 256 == (if Digit(w, 1) then 1 else 0) + (if Digit(w, 2) then 2 else 0)
      + (if Digit(w, 4) then 4 else 0) + (if Digit(w, 8) then 8 else 0)
      + (if Digit(w, 16) then 16 else 0) + (if Digit(w, 32) then 32 else 0)
      + (if Digit(w, 64) then 64 else 0) + (if Digit(w, 128) then 128 else 0)
  {
    Low(w);
    Nibble(w);
    Nibble(w / 16);
    Pair(w);
    Pair(w / 4);
    Pair(w / 16);
    Pair(w / 64);
    Quotients(w);
  }

  lemma ByteValue(w: nat)
    ensures Value(ByteOf(w)) == w % 256
  {
    BitsOfByte(
      Digit(w, 1), Digit(w, 2), Digit(w, 4), Digit(w, 8), Digit(w, 16), Digit(w, 32), Digit(w, 64), Digit(w, 128));
    DigitsOf(w);
    hide Digit;
  }

  /** The word at word index `i`. */
  function Word(b: Block, i: nat): (w: nat)
    requires 4 * i + 4 <= |b|
    ensures w < WORD
  {
    Value(b[4 * i]) + 0x100 * Value(b[4 * i + 1]) + 0x1_0000 * Value(b[4 * i + 2]) + 0x100_0000 * Value(b[4 * i + 3])
  }

  function WordBytes(w: nat): (r: Block)
    ensures |r| == 4
  {
    [ByteOf(w), ByteOf(w / 0x100), ByteOf(w / 0x1_0000), ByteOf(w / 0x100_0000)]
  }

  /** `b` with `src` copied in at byte offset `o`: a kmemcpy into a buffer. */
  function Splice(b: Block, o: nat, src: Block): (r: Block)
    requires o + |src| <= |b|
    ensures |r| == |b|
    ensures forall x :: 0 <= x < |b| ==> r[x] == if o <= x < o + |src| then src[x - o] else b[x]
  {
    b[..o] + src + b[o + |src|..]
  }

  function SetWord(b: Block, i: nat, w: nat): (r: Block)
    requires 4 * i + 4 <= |b|
    ensures |r| == |b|
  {
    Splice(b, 4 * i, WordBytes(w))
  }

  lemma FourDigits(w: nat)
    requires w < WORD
    ensures w % 256 + 0x100 * ((w / 0x100) % 256) + 0x1_0000 * ((w / 0x1_0000) % 256)
            + 0x100_0000 * ((w / 0x100_0000) % 256) == w
  {
    DivDiv(w, 0x100, 0x100);
    DivDiv(w, 0x1_0000, 0x100);
  }

  lemma WordOfBytes(w: nat)
    requires w < WORD
    ensures Value(ByteOf(w)) + 0x100 * Value(ByteOf(w / 0x100))
            + 0x1_0000 * Value(ByteOf(w / 0x1_0000)) + 0x100_0000 * Value(ByteOf(w / 0x100_0000)) == w
  {
    hide ByteOf, Value;
    ByteValue(w);
    ByteValue(w / 0x100);
    ByteValue(w / 0x1_0000);
    ByteValue(w / 0x100_0000);
    FourDigits(w);
  }

  /** Writing one word changes that word to the value written and no other. */
  lemma SetWordReads(b: Block, i: nat, w: nat, j: nat)
    requires 4 * i + 4 <= |b| && 4 * j + 4 <= |b| && w < WORD
    ensures Word(SetWord(b, i, w), j) == if j == i then w else Word(b, j)
  {
    hide ByteOf, Value;
    WordOfBytes(w);
    var r := SetWord(b, i, w);
    if j == i {
      assert r[4 * i] == WordBytes(w)[0] && r[4 * i + 1] == WordBytes(w)[1];
      assert r[4 * i + 2] == WordBytes(w)[2] && r[4 * i + 3] == WordBytes(w)[3];
    }
  }

  /** The little-endian half word and word at byte offset `o`. */
  function U16(m: Block, o: nat): (r: nat)
    requires o + 2 <= |m|
    ensures r < 0x1_0000
  {
    Value(m[o]) + 0x100 * Value(m[o + 1])
  }

  function U32(m: Block, o: nat): (r: nat)
    requires o + 4 <= |m|
    ensures r < WORD
  {
    Value(m[o]) + 0x100 * Value(m[o + 1]) + 0x1_0000 * Value(m[o + 2]) + 0x100_0000 * Value(m[o + 3])
  }

  lemma U32OfBytes(m: Block, o: nat, w: nat)
    requires o + 4 <= |m| && w < WORD && m[o..o + 4] == WordBytes(w)
    ensures U32(m, o) == w
  {
    hide ByteOf, Value;
    WordOfBytes(w);
    var b := m[o..o + 4];
    assert b[0] == m[o] && b[1] == m[o + 1] && b[2] == m[o + 2] && b[3] == m[o + 3];
  }
}
