/**
 Bytes, 32-bit words and 512-byte blocks.

 A disk block is raw bytes. The kernel overlays it with 32-bit words (pointer
 tables, inodes, the allocation bitmap), most significant byte first.
*/
module Words {

  type Byte = x: int | 0 <= x < 0x100
  type Word = x: int | 0 <= x < 0x1_0000_0000

  const BLOCK_SIZE := 512
  const WORDS_PER_BLOCK := 128

  // block numbers with a fixed use in both file systems; block 0 is the volume header
  const ALLOCATION_BLOCK := 1
  const DIRECTORY_BLOCK := 2

  type Block = b: seq<Byte> | |b| == 512 witness seq(512, i => 0)
  type WordBlock = w: seq<Word> | |w| == 128 witness seq(128, i => 0)

  function ZeroBlock(): Block { seq(512, i => 0) }
  function Zeros(n: nat): seq<Byte> { seq(n, i => 0) }
  function ZeroWords(): WordBlock { seq(128, i => 0) }

  /** The word stored at byte address a. */
  function LoadWord(s: seq<Byte>, a: nat): Word
    requires a + 4 <= |s|
  {
    var b0: int, b1: int, b2: int, b3: int := s[a], s[a + 1], s[a + 2], s[a + 3];
    b0 * 0x100_0000 + b1 * 0x1_0000 + b2 * 0x100 + b3
  }

  /** An unsigned word read as a signed one. */
  function AsSigned(w: Word): int {
    if w < 0x8000_0000 then w else w - 0x1_0000_0000
  }

  /** Byte k of a word, counted from the most significant end: a shift by whole bytes, then the low byte. */
  function ByteOf(w: Word, k: nat): Byte
    requires k < 4
  {
    if k == 0 then w / 0x100 / 0x100 / 0x100
    else if k == 1 then w / 0x100 / 0x100 % 0x100
    else if k == 2 then w / 0x100 % 0x100
    else w % 0x100
  }

  /** A block seen as 128 words. */
  function Decode(b: Block): WordBlock {
    seq(128, i requires 0 <= i < 128 => LoadWord(b, 4 * i))
  }

  /** 128 words seen as a block. */
  function Encode(w: WordBlock): Block {
    seq(512, k requires 0 <= k < 512 => ByteOf(w[k / 4], k % 4))
  }

  lemma WordFromBytes(w: Word)
    ensures var b0: int, b1: int, b2: int, b3: int := ByteOf(w, 0), ByteOf(w, 1), ByteOf(w, 2), ByteOf(w, 3);
            b0 * 0x100_0000 + b1 * 0x1_0000 + b2 * 0x100 + b3 == w
  {
    var w1 := w / 0x100;
    var w2 := w1 / 0x100;
    assert w == w1 * 0x100 + w % 0x100 && w1 == w2 * 0x100 + w1 % 0x100 && w2 == w2 / 0x100 * 0x100 + w2 % 0x100;
  }

  lemma LowByte(q: int, r: int)
    requires 0 <= r < 0x100
    ensures (q * 0x100 + r) / 0x100 == q && (q * 0x100 + r) % 0x100 == r
  {
  }

  lemma BytesOfWord(a: int, b: int, c: int, d: int, w: Word)
    requires 0 <= a < 0x100 && 0 <= b < 0x100 && 0 <= c < 0x100 && 0 <= d < 0x100
    requires w == a * 0x100_0000 + b * 0x1_0000 + c * 0x100 + d
    ensures ByteOf(w, 0) == a && ByteOf(w, 1) == b && ByteOf(w, 2) == c && ByteOf(w, 3) == d
  {
    LowByte(a * 0x1_0000 + b * 0x100 + c, d);
    LowByte(a * 0x100 + b, c);
    LowByte(a, b);
  }

  lemma EncodedByte(w: WordBlock, i: nat, k: nat)
    requires i < 128 && k < 4
    ensures Encode(w)[4 * i + k] == ByteOf(w[i], k)
  {
    hide ByteOf;
    assert (4 * i + k) / 4 == i && (4 * i + k) % 4 == k;
  }

  /** Writing a word buffer to a block and reading it back gives the same words. */
  lemma DecodeEncode(w: WordBlock)
    ensures Decode(Encode(w)) == w
  {
    hide ByteOf; hide Encode;
    forall i | 0 <= i < 128
      ensures Decode(Encode(w))[i] == w[i]
    {
      WordFromBytes(w[i]);
      EncodedByte(w, i, 0);
      EncodedByte(w, i, 1);
      EncodedByte(w, i, 2);
      EncodedByte(w, i, 3);
    }
  }

  /** Reading a block as words and writing the words back gives the same bytes. */
  lemma EncodeDecode(b: Block)
    ensures Encode(Decode(b)) == b
  {
    forall k | 0 <= k < 512
      ensures Encode(Decode(b))[k] == b[k]
    {
      var i := k / 4;
      BytesOfWord(b[4 * i], b[4 * i + 1], b[4 * i + 2], b[4 * i + 3], LoadWord(b, 4 * i));
      assert k == 4 * i + k % 4;
    }
  }

  lemma DecodeZero()
    ensures Decode(ZeroBlock()) == ZeroWords()
  {
  }

  // ---------------------------------------------------------------- disks

  type Disk = seq<Block>

  /** Block x as words; zeros outside the disk. */
  function At(d: Disk, x: nat): WordBlock {
    if x < |d| then Decode(d[x]) else ZeroWords()
  }
}
