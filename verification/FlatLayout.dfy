/**
 How a FlatFS volume lies on disk, as pure definitions over the disk image.

 An inode holds the file size in word 0, seven direct pointers in words 1-7, the
 single-indirect table in word 8 and the double-indirect block in word 9. A table
 is a block of 128 pointers. Tables are numbered in file order: table 0 is the
 single-indirect block, table k + 1 is entry k of the double-indirect block, so
 logical block b >= 7 is entry (b - 7) % 128 of table (b - 7) / 128.
*/
module FlatLayout {
  import opened Words
  import opened Bitmaps

  const DIRECT := 7
  const SINDIR := 128
  const MAX_BLOCKS := DIRECT + SINDIR + SINDIR * SINDIR

  /** What a block is used for, by the file whose inode block is fid. */
  datatype Slot = Self | Data(b: nat) | Table(g: nat) | Double
  datatype Role = Role(fid: nat, slot: Slot)

  /** Who owns which block. Being a map, it gives each block at most one use. */
  type Owners = map<nat, Role>

  // ---------------------------------------------------------------- the pointer tree

  function TableBlock(ino: WordBlock, di: WordBlock, g: nat): Word
    requires g <= SINDIR
  {
    if g == 0 then ino[8] else di[g - 1]
  }

  function DirectBlock(ino: WordBlock, b: nat): Word
    requires b < DIRECT
  {
    ino[1 + b]
  }

  /** The disk block of logical block b: a fresh walk of inode and tables. */
  function Ptr(d: Disk, ino: WordBlock, di: WordBlock, b: nat): Word
    requires b < MAX_BLOCKS
  {
    if b < DIRECT then DirectBlock(ino, b)
    else At(d, TableBlock(ino, di, (b - DIRECT) / SINDIR))[(b - DIRECT) % SINDIR]
  }

  /** Number of tables a file of n blocks needs. */
  function Tables(n: nat): nat {
    if n <= DIRECT then 0 else (n - DIRECT + SINDIR - 1) / SINDIR
  }

  function DoubleCount(n: nat): nat { if n > DIRECT + SINDIR then 1 else 0 }

  /** Blocks for a file of n data blocks, without the double-indirect block. */
  function Cost(n: nat): nat { n + Tables(n) }

  function NumBlocks(size: nat): nat { (size + BLOCK_SIZE - 1) / BLOCK_SIZE }

  /** As many blocks as hold the bytes, and no more. */
  lemma NumBlocksExactly(size: nat, n: nat)
    ensures n == NumBlocks(size) <==> 512 * n >= size && (n > 0 ==> 512 * (n - 1) < size)
  {
  }

  /** As many tables of 128 entries as hold the blocks past the seventh, and no more. */
  lemma TablesExactly(n: nat, t: nat)
    ensures t == Tables(n) <==> 7 + 128 * t >= n && (t > 0 ==> 7 + 128 * (t - 1) < n)
  {
  }

  /** Where the pointer of a logical block is, word by word. */
  lemma PointerWalk(d: Disk, ino: WordBlock, b: nat)
    requires b < MAX_BLOCKS
    ensures Ptr(d, ino, At(d, ino[9]), b) ==
              if b < 7 then ino[1 + b]
              else if b < 135 then At(d, ino[8])[b - 7]
              else At(d, At(d, ino[9])[(b - 135) / 128])[(b - 135) % 128]
  {
    hide At;
    if b >= 135 {
      assert (b - 7) / 128 == (b - 135) / 128 + 1 && (b - 7) % 128 == (b - 135) % 128;
    }
  }

  /** The size word and the words from k on are the same. */
  ghost predicate SameFrom(ino0: WordBlock, ino: WordBlock, k: nat) {
    ino[0] == ino0[0] && forall j :: k <= j < WORDS_PER_BLOCK ==> ino[j] == ino0[j]
  }

  ghost predicate Holds(own: Owners, x: nat, r: Role) {
    x in own && own[x] == r
  }

  ghost predicate DataOwned(d: Disk, fid: nat, ino: WordBlock, di: WordBlock, n: nat, own: Owners)
    requires n <= MAX_BLOCKS
  {
    forall b :: 0 <= b < n ==> Holds(own, Ptr(d, ino, di, b), Role(fid, Data(b)))
  }

  ghost predicate TablesOwned(fid: nat, ino: WordBlock, di: WordBlock, n: nat, own: Owners) {
    forall g :: 0 <= g <= SINDIR && DIRECT + SINDIR * g < n ==> Holds(own, TableBlock(ino, di, g), Role(fid, Table(g)))
  }

  /** Past the end of the file the last table holds zeros. */
  ghost predicate TailZero(d: Disk, ino: WordBlock, di: WordBlock, n: nat) {
    forall b :: n <= b < MAX_BLOCKS && DIRECT <= b && DIRECT + SINDIR * ((b - DIRECT) / SINDIR) < n
      ==> Ptr(d, ino, di, b) == 0
  }

  ghost predicate DirectZero(ino: WordBlock, n: nat) {
    forall b :: n <= b < DIRECT ==> DirectBlock(ino, b) == 0
  }

  ghost predicate DoubleZero(ino: WordBlock, di: WordBlock, n: nat) {
    forall g :: 1 <= g <= SINDIR && n <= DIRECT + SINDIR * g ==> TableBlock(ino, di, g) == 0
  }

  /** The tree maps exactly n blocks; says nothing of the double-indirect block itself. */
  ghost predicate TreeCore(d: Disk, fid: nat, ino: WordBlock, di: WordBlock, n: nat, own: Owners) {
    && n <= MAX_BLOCKS
    && DataOwned(d, fid, ino, di, n, own)
    && TablesOwned(fid, ino, di, n, own)
    && TailZero(d, ino, di, n)
    && (n <= DIRECT ==> ino[8] == 0)
  }

  /** A well-formed tree of n blocks: pointer blocks are there exactly when needed, unused pointers are zero. */
  ghost predicate Tree(d: Disk, fid: nat, ino: WordBlock, n: nat, own: Owners) {
    var di := At(d, ino[9]);
    && TreeCore(d, fid, ino, di, n, own)
    && DirectZero(ino, n)
    && (if n > DIRECT + SINDIR then Holds(own, ino[9], Role(fid, Double)) && DoubleZero(ino, di, n) else ino[9] == 0)
  }

  /** The owners once a file is gone; its pointer blocks, if it has any, stay allocated but belong to nobody. */
  ghost function WithoutFile(own: Owners, fid: nat): Owners {
    map x | x in own && own[x].fid != fid :: own[x]
  }

  /** The image on disk after the two writes of a remove. */
  function RemovedDisk(d: Disk, bat: WordBlock, md: Block): Disk
    requires |d| >= 3
  {
    d[ALLOCATION_BLOCK := Encode(bat)][DIRECTORY_BLOCK := md]
  }

  // ---------------------------------------------------------------- allocation states

  /** A disk image, the bitmap, inode and double-indirect buffers in memory, and the owners. */
  datatype Image = Image(d: Disk, bat: seq<Word>, own: Owners, ino: WordBlock, di: WordBlock)

  ghost predicate Sound(m: Image, total: nat) {
    && 3 <= total <= 4096 && total <= |m.d| && |m.bat| == 128
    && (forall x :: 0 <= x < 3 ==> Bit(m.bat, x))
    && (forall x :: x in m.own ==> 3 <= x < total && Bit(m.bat, x))
  }

  /** Which of a file's pointer blocks an operation may rewrite: none, its tables, or the double-indirect block too. */
  datatype Rewrites = Nothing | TablesOnly | AllPointers

  ghost predicate MayRewrite(own: Owners, x: nat, fid: nat, rw: Rewrites) {
    x in own && own[x].fid == fid
    && ((own[x].slot.Table? && !rw.Nothing?) || (own[x].slot.Double? && rw.AllPointers?))
  }

  /**
   m1 comes from m0 by giving free blocks to file fid. The bits set are those set before and those of the
   blocks given. Blocks in use keep their contents, but for the pointer blocks of fid that rw names.
  */
  ghost predicate Grew(m0: Image, m1: Image, fid: nat, total: nat, rw: Rewrites)
    requires total <= 4096 && |m0.bat| == 128 && |m1.bat| == 128
  {
    && |m1.d| == |m0.d|
    && (forall x :: 0 <= x < 4096 && Bit(m0.bat, x) ==> Bit(m1.bat, x))
    && (forall x :: 0 <= x < 4096 && Bit(m1.bat, x) ==> Bit(m0.bat, x) || x in m1.own)
    && (forall x :: x in m0.own ==> x in m1.own && m1.own[x] == m0.own[x])
    && (forall x :: x in m1.own && x !in m0.own ==> x < total && !Bit(m0.bat, x) && m1.own[x].fid == fid)
    && (forall x :: 0 <= x < |m0.d| && (x < total ==> Bit(m0.bat, x)) && !MayRewrite(m0.own, x, fid, rw)
          ==> m1.d[x] == m0.d[x])
  }

  function MaxRewrites(a: Rewrites, b: Rewrites): Rewrites {
    if a.AllPointers? || b.AllPointers? then AllPointers
    else if a.TablesOnly? || b.TablesOnly? then TablesOnly
    else Nothing
  }

  lemma GrewTrans(m0: Image, m1: Image, m2: Image, fid: nat, total: nat, r1: Rewrites, r2: Rewrites)
    requires total <= 4096 && |m0.bat| == 128 && |m1.bat| == 128 && |m2.bat| == 128
    requires Sound(m0, total)
    requires Grew(m0, m1, fid, total, r1) && Grew(m1, m2, fid, total, r2)
    ensures Grew(m0, m2, fid, total, MaxRewrites(r1, r2))
  {
    forall x | 0 <= x < |m0.d| && (x < total ==> Bit(m0.bat, x)) && !MayRewrite(m0.own, x, fid, MaxRewrites(r1, r2))
      ensures m2.d[x] == m0.d[x]
    {
      assert !MayRewrite(m0.own, x, fid, r1) && !MayRewrite(m1.own, x, fid, r2);
    }
  }

  lemma GrewRefl(m: Image, fid: nat, total: nat, r: Rewrites)
    requires total <= 4096 && |m.bat| == 128
    ensures Grew(m, m, fid, total, r)
  {
  }

  lemma GrewWeaken(m0: Image, m1: Image, fid: nat, total: nat, r: Rewrites)
    requires total <= 4096 && |m0.bat| == 128 && |m1.bat| == 128
    requires Grew(m0, m1, fid, total, Nothing)
    ensures Grew(m0, m1, fid, total, r)
  {
  }

  /** The first n logical blocks stay where they are. */
  ghost predicate Kept(d: Disk, ino: WordBlock, di: WordBlock, d': Disk, ino': WordBlock, di': WordBlock, n: nat)
    requires n <= MAX_BLOCKS
  {
    forall b :: 0 <= b < n ==> Ptr(d', ino', di', b) == Ptr(d, ino, di, b)
  }

  /** Logical blocks n..m hold zeros. */
  ghost predicate Zeroed(d: Disk, ino: WordBlock, di: WordBlock, n: nat, m: nat)
    requires m <= MAX_BLOCKS
  {
    forall b :: n <= b < m ==> var p := Ptr(d, ino, di, b); p < |d| && d[p] == ZeroBlock()
  }
}
