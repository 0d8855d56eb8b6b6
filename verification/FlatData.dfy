/**
 Reading and writing file data block by block: the open-file view of the buffers, the
 table buffer as a cache, and how block contents make up the bytes of a file.
*/
module FlatData {
  import opened Words
  import opened Bitmaps
  import opened FlatLayout
  import opened FlatGrowth
  import opened FlatVolume
  import opened Directories

  /** The buffers describe file fid of n blocks: the inode buffer its inode, the double-indirect buffer its block. */
  ghost predicate OpenTree(d: Disk, fid: nat, ino: WordBlock, di: WordBlock, n: nat, own: Owners) {
    && TreeCore(d, fid, ino, di, n, own)
    && DirectZero(ino, n)
    && (if n > DIRECT + SINDIR
        then di == At(d, ino[9]) && Holds(own, ino[9], Role(fid, Double)) && DoubleZero(ino, di, n)
        else ino[9] == 0)
  }

  lemma OpenTreeIsTree(d: Disk, fid: nat, ino: WordBlock, di: WordBlock, n: nat, own: Owners)
    requires OpenTree(d, fid, ino, di, n, own)
    ensures Tree(d, fid, ino, n, own)
    ensures Kept(d, ino, di, d, ino, At(d, ino[9]), n)
  {
    hide Decode;
    if n <= DIRECT + SINDIR {
      DoubleIrrelevant(d, fid, ino, di, At(d, ino[9]), n, own);
    }
  }

  lemma OpenTreeData(d: Disk, fid: nat, ino: WordBlock, di: WordBlock, n: nat, own: Owners)
    requires OpenTree(d, fid, ino, di, n, own)
    ensures n <= MAX_BLOCKS && DataOwned(d, fid, ino, di, n, own)
  {
  }

  lemma TreeIsOpenTree(d: Disk, fid: nat, ino: WordBlock, di: WordBlock, n: nat, own: Owners)
    requires Tree(d, fid, ino, n, own) && (n > DIRECT + SINDIR ==> di == At(d, ino[9]))
    ensures OpenTree(d, fid, ino, di, n, own)
    ensures Kept(d, ino, At(d, ino[9]), d, ino, di, n)
  {
    hide Decode;
    if n <= DIRECT + SINDIR {
      DoubleIrrelevant(d, fid, ino, At(d, ino[9]), di, n, own);
    }
  }

  // ---------------------------------------------------------------- the table buffer as a cache

  /** The table buffer holds the table that block b needs. */
  ghost predicate Cached(d: Disk, ino: WordBlock, di: WordBlock, si: WordBlock, b: nat)
    requires b < MAX_BLOCKS
  {
    b >= DIRECT ==> si == At(d, TableBlock(ino, di, (b - DIRECT) / SINDIR))
  }

  /** Unless b is the first of its table, the table cached for b - 1 serves b. */
  lemma CacheCarries(d: Disk, ino: WordBlock, di: WordBlock, si: WordBlock, b: nat)
    requires 0 < b < MAX_BLOCKS && Cached(d, ino, di, si, b - 1) && (b - DIRECT) % SINDIR != 0
    ensures Cached(d, ino, di, si, b)
  {
    if b > DIRECT {
      assert (b - 1 - DIRECT) / SINDIR == (b - DIRECT) / SINDIR;
    }
  }

  /** What flatfs_getblock answers when it cannot read the table: its error code, taken for a block number. */
  const NO_TABLE: Word := 0xffff_fffe

  /** The table that block b is found through. */
  function TableOf(ino: WordBlock, di: WordBlock, b: nat): Word
    requires DIRECT <= b < MAX_BLOCKS
  {
    TableBlock(ino, di, (b - DIRECT) / SINDIR)
  }

  /** The table buffer after a search: flag 0 reloads it, if the table can be read. */
  function Buffered(d: Disk, ino: WordBlock, di: WordBlock, si: WordBlock, b: nat, flag: int): WordBlock
    requires b < MAX_BLOCKS
  {
    if b >= DIRECT && flag == 0 && TableOf(ino, di, b) < |d| then At(d, TableOf(ino, di, b)) else si
  }

  /** The block number a search answers. */
  function Answer(d: Disk, ino: WordBlock, di: WordBlock, si: WordBlock, b: nat, flag: int): Word
    requires b < MAX_BLOCKS
  {
    if b < DIRECT then DirectBlock(ino, b)
    else if flag == 0 && TableOf(ino, di, b) >= |d| then NO_TABLE
    else Buffered(d, ino, di, si, b, flag)[(b - DIRECT) % SINDIR]
  }

  /** The tables of an open file are on the disk. */
  lemma TableInRange(d: Disk, fid: nat, ino: WordBlock, di: WordBlock, n: nat, own: Owners, b: nat, total: nat)
    requires OpenTree(d, fid, ino, di, n, own) && Sound(VolumeImage(d, own), total) && DIRECT <= b < n
    ensures b < MAX_BLOCKS && TableOf(ino, di, b) < |d|
            && Holds(own, TableOf(ino, di, b), Role(fid, Table((b - DIRECT) / SINDIR)))
  {
    hide Ptr; hide Bit; hide Decode;
    assert Holds(own, TableBlock(ino, di, (b - DIRECT) / SINDIR), Role(fid, Table((b - DIRECT) / SINDIR)));
  }

  // ---------------------------------------------------------------- bytes

  /** A run of bytes within one block. */
  lemma BytesInBlock(d: Disk, fid: nat, b: nat, lo: nat, hi: nat)
    requires lo <= hi <= BLOCK_SIZE && BLOCK_SIZE * b + hi <= FileSize(d, fid)
    ensures FileBytes(d, fid)[BLOCK_SIZE * b + lo..BLOCK_SIZE * b + hi] == BlockOf(d, fid, b)[lo..hi]
  {
    hide BlockOf; hide FileSize;
    forall k | lo <= k < hi
      ensures FileBytes(d, fid)[BLOCK_SIZE * b + k] == BlockOf(d, fid, b)[k]
    {
      assert (BLOCK_SIZE * b + k) / BLOCK_SIZE == b && (BLOCK_SIZE * b + k) % BLOCK_SIZE == k;
    }
  }

  /** Appending one block's bytes to the bytes read so far. */
  lemma AppendRun(d: Disk, fid: nat, b: nat, lo: nat, hi: nat, offset: nat, from: nat)
    requires lo <= hi <= BLOCK_SIZE && BLOCK_SIZE * b + hi <= FileSize(d, fid) && offset + from == BLOCK_SIZE * b + lo
    ensures FileBytes(d, fid)[offset..offset + from] + BlockOf(d, fid, b)[lo..hi] ==
              FileBytes(d, fid)[offset..BLOCK_SIZE * b + hi]
  {
    hide BlockOf; hide FileSize; hide FileBytes;
    BytesInBlock(d, fid, b, lo, hi);
  }

  /** The open view finds the blocks of the file. */
  lemma OpenBlock(d: Disk, fid: nat, di: WordBlock, b: nat, own: Owners, total: nat)
    requires Sound(VolumeImage(d, own), total)
    requires OpenTree(d, fid, At(d, fid), di, NumBlocks(FileSize(d, fid)), own) && b < NumBlocks(FileSize(d, fid))
    ensures Ptr(d, At(d, fid), di, b) < total && d[Ptr(d, At(d, fid), di, b)] == BlockOf(d, fid, b)
  {
    hide Decode; hide Bit;
    var ino, n := At(d, fid), NumBlocks(FileSize(d, fid));
    OpenTreeIsTree(d, fid, ino, di, n, own);
    assert Holds(own, Ptr(d, ino, di, b), Role(fid, Data(b)));
    assert Ptr(d, ino, At(d, ino[9]), b) == Ptr(d, ino, di, b);
  }

  // ---------------------------------------------------------------- writing

  /** A block after data, placed at byte offset of the file, has been written over its part. */
  function Overlay(was: Block, b: nat, data: seq<Byte>, offset: nat): Block {
    seq(BLOCK_SIZE, o requires 0 <= o < BLOCK_SIZE =>
      if offset <= BLOCK_SIZE * b + o < offset + |data| then data[BLOCK_SIZE * b + o - offset] else was[o])
  }

  /** Sequence update: data written over s from offset on, making it longer if need be. */
  function Splice(s: seq<Byte>, offset: nat, data: seq<Byte>): seq<Byte>
    requires offset <= |s|
  {
    s[..offset] + data + (if offset + |data| < |s| then s[offset + |data|..] else [])
  }

  /** Byte by byte: data from the offset on, everywhere else what was there, and no shorter than before. */
  lemma SpliceBytes(s: seq<Byte>, offset: nat, data: seq<Byte>)
    requires offset <= |s|
    ensures var r := Splice(s, offset, data);
            && |r| == (if offset + |data| > |s| then offset + |data| else |s|)
            && forall i :: 0 <= i < |r| ==> r[i] == if offset <= i < offset + |data| then data[i - offset] else s[i]
  {
  }

  lemma SpliceReadsBack(s: seq<Byte>, offset: nat, data: seq<Byte>)
    requires offset <= |s|
    ensures |Splice(s, offset, data)| >= offset + |data| && Splice(s, offset, data)[offset..offset + |data|] == data
  {
  }

  /** The first and the last block are read first and keep their other bytes. */
  lemma PartialOverlay(was: Block, b: nat, data: seq<Byte>, offset: nat, lo: nat, hi: nat, from: nat)
    requires lo <= hi <= BLOCK_SIZE && from + (hi - lo) <= |data|
    requires BLOCK_SIZE * b + lo == offset + from
    requires lo > 0 ==> from == 0
    requires hi < BLOCK_SIZE ==> from + (hi - lo) == |data|
    requires from > 0 ==> lo == 0
    ensures was[..lo] + data[from..from + (hi - lo)] + was[hi..] == Overlay(was, b, data, offset)
  {
  }

  /** Disk d with the data blocks b1..b of the file overwritten, seen from d0. */
  ghost predicate Progress(d0: Disk, d: Disk, fid: nat, ino: WordBlock, di: WordBlock, n: nat, own: Owners,
                           b1: nat, b: nat, data: seq<Byte>, offset: nat)
    requires n <= MAX_BLOCKS
  {
    && |d| == |d0|
    && Kept(d0, ino, di, d, ino, di, n)
    && (forall c :: 0 <= c < n ==> var p := Ptr(d0, ino, di, c);
          p < |d0| && d[p] == if b1 <= c < b then Overlay(d0[p], c, data, offset) else d0[p])
    && (forall x :: 0 <= x < |d0| && !(x in own && own[x].fid == fid && own[x].slot.Data?) ==> d[x] == d0[x])
  }

  lemma ProgressStart(d: Disk, fid: nat, ino: WordBlock, di: WordBlock, n: nat, own: Owners, b1: nat, data: seq<Byte>,
                      offset: nat, total: nat)
    requires OpenTree(d, fid, ino, di, n, own) && Sound(VolumeImage(d, own), total)
    ensures Progress(d, d, fid, ino, di, n, own, b1, b1, data, offset)
  {
    hide Ptr; hide At; hide Bit;
    forall c | 0 <= c < n ensures Ptr(d, ino, di, c) < |d| {
      assert Holds(own, Ptr(d, ino, di, c), Role(fid, Data(c)));
    }
  }

  lemma DataInRange(d: Disk, fid: nat, ino: WordBlock, di: WordBlock, n: nat, own: Owners, b: nat, total: nat)
    requires OpenTree(d, fid, ino, di, n, own) && Sound(VolumeImage(d, own), total) && b < n
    ensures Ptr(d, ino, di, b) < |d|
  {
    hide Ptr; hide Bit; hide Decode;
    assert Holds(own, Ptr(d, ino, di, b), Role(fid, Data(b)));
  }

  /** Overwriting data block b: the tree stays. */
  lemma DataStep(d: Disk, p: nat, blk: Block, fid: nat, ino: WordBlock, di: WordBlock, n: nat, own: Owners, b: nat,
                 total: nat)
    requires OpenTree(d, fid, ino, di, n, own) && Sound(VolumeImage(d, own), total) && b < n
    requires p == Ptr(d, ino, di, b)
    ensures p < |d| && Holds(own, p, Role(fid, Data(b)))
    ensures var d' := d[p := blk];
            && OpenTree(d', fid, ino, di, n, own) && Sound(VolumeImage(d', own), total)
            && Kept(d, ino, di, d', ino, di, n)
  {
    hide Ptr; hide Decode; hide Bit; hide TailZero;
    assert Holds(own, p, Role(fid, Data(b)));
    var d' := d[p := blk];
    TreeCoreFrame(d, d', fid, ino, di, n, own, own);
  }

  lemma ProgressStep(d0: Disk, d: Disk, d': Disk, fid: nat, ino: WordBlock, di: WordBlock, n: nat, own: Owners,
                     b1: nat, b: nat, data: seq<Byte>, offset: nat)
    requires n <= MAX_BLOCKS && b1 <= b < n
    requires Progress(d0, d, fid, ino, di, n, own, b1, b, data, offset)
    requires DataOwned(d0, fid, ino, di, n, own)
    requires Kept(d, ino, di, d', ino, di, n)
    requires Ptr(d, ino, di, b) < |d| && d' == d[Ptr(d, ino, di, b) := Overlay(d[Ptr(d, ino, di, b)], b, data, offset)]
    ensures Progress(d0, d', fid, ino, di, n, own, b1, b + 1, data, offset)
  {
    hide Ptr; hide Overlay;
    var p := Ptr(d0, ino, di, b);
    assert Ptr(d, ino, di, b) == p;
    assert Holds(own, p, Role(fid, Data(b)));
    forall c | 0 <= c < n
      ensures var q := Ptr(d0, ino, di, c);
              q < |d0| && d'[q] == if b1 <= c < b + 1 then Overlay(d0[q], c, data, offset) else d0[q]
    {
      assert Holds(own, Ptr(d0, ino, di, c), Role(fid, Data(c)));
    }
  }

  // ---------------------------------------------------------------- from the old volume to the new

  /** Files other than fid keep their blocks, and so do header and directory. */
  ghost predicate Others(d0: Disk, own0: Owners, d: Disk, own: Owners, fid: nat)
  {
    && |d| == |d0| && |d0| > DIRECTORY_BLOCK && d[0] == d0[0] && d[DIRECTORY_BLOCK] == d0[DIRECTORY_BLOCK]
    && (forall x :: x in own0 && own0[x].fid != fid ==> x in own && own[x] == own0[x])
    && (forall x :: 0 <= x < |d0| && x in own0 && own0[x].fid != fid ==> d[x] == d0[x])
    && (forall x :: x in own ==> own[x].fid == fid || (x in own0 && own0[x] == own[x]))
  }

  /** The block a file of n blocks has at b, with zeros past its end. */
  function OldBlock(d0: Disk, fid: nat, n0: nat, b: nat): Block {
    if b < n0 then BlockOf(d0, fid, b) else ZeroBlock()
  }

  /**
   Between d0 and d, count free blocks were taken, and no other bit changed: a bit is set if it was set before or
   its block has an owner now and had none before. Owners stay.
  */
  ghost predicate Took(d0: Disk, own0: Owners, d: Disk, own: Owners, count: int, total: nat)
    requires total <= 4096
  {
    && (forall x :: 0 <= x < 4096 ==>
         (Bit(At(d, ALLOCATION_BLOCK), x) <==> Bit(At(d0, ALLOCATION_BLOCK), x) || (x in own && x !in own0)))
    && (forall x :: x in own && x !in own0 ==> 3 <= x < total && !Bit(At(d0, ALLOCATION_BLOCK), x))
    && (forall x :: x in own0 ==> x in own && own[x] == own0[x])
    && FreeCount(At(d, ALLOCATION_BLOCK), total) == FreeCount(At(d0, ALLOCATION_BLOCK), total) - count
  }

  lemma TookNothing(d: Disk, own: Owners, total: nat)
    requires Sound(VolumeImage(d, own), total)
    ensures Took(d, own, d, own, 0, total)
  {
    hide At; hide Bit;
  }

  lemma TookGrown(m0: Image, m: Image, fid: nat, count: int, total: nat, rw: Rewrites)
    requires Sound(m0, total) && Sound(m, total) && Grew(m0, m, fid, total, rw)
             && m0.bat == At(m0.d, ALLOCATION_BLOCK) && FreeCount(m.bat, total) == FreeCount(m0.bat, total) - count
    ensures Took(m0.d, m0.own, m.d[ALLOCATION_BLOCK := Encode(m.bat)], m.own, count, total)
  {
    hide Bit; hide Decode; hide Encode; hide FreeCount;
    DecodeEncode(m.bat);
    assert At(m.d[ALLOCATION_BLOCK := Encode(m.bat)], ALLOCATION_BLOCK) == m.bat;
  }

  /** Only the bitmap counts. */
  lemma TookFrame(d0: Disk, own0: Owners, d: Disk, d': Disk, own: Owners, count: int, total: nat)
    requires total <= 4096 && Took(d0, own0, d, own, count, total) && |d'| == |d| > DIRECTORY_BLOCK
             && d'[ALLOCATION_BLOCK] == d[ALLOCATION_BLOCK]
    ensures Took(d0, own0, d', own, count, total)
  {
    hide Bit; hide Decode; hide FreeCount;
    assert At(d', ALLOCATION_BLOCK) == At(d, ALLOCATION_BLOCK);
  }

  /**
   The file fid of volume (d0, own0), which has n0 blocks there, is open with n blocks:
   the old ones with their old contents, then zeros. The free blocks paid for the growth.
  */
  ghost predicate Session(d0: Disk, own0: Owners, d: Disk, own: Owners, ino: WordBlock, di: WordBlock,
                          fid: nat, n0: nat, n: nat, total: nat)
  {
    && Sound(VolumeImage(d, own), total) && Others(d0, own0, d, own, fid)
    && OpenTree(d, fid, ino, di, n, own) && Holds(own, fid, Role(fid, Self)) && n0 <= n
    && Took(d0, own0, d, own, GrowNeed(n0, n), total) && (n == n0 ==> d[ALLOCATION_BLOCK] == d0[ALLOCATION_BLOCK])
    && forall b :: 0 <= b < n ==> var p := Ptr(d, ino, di, b); p < |d| && d[p] == OldBlock(d0, fid, n0, b)
  }

  /** Opening a file without growing it. */
  lemma SessionStart(d: Disk, own: Owners, di: WordBlock, fid: nat, total: nat)
    requires Sound(VolumeImage(d, own), total) && FileOk(d, own, fid)
    requires NumBlocks(FileSize(d, fid)) > DIRECT + SINDIR ==> di == At(d, At(d, fid)[9])
    ensures Session(d, own, d, own, At(d, fid), di, fid, NumBlocks(FileSize(d, fid)), NumBlocks(FileSize(d, fid)),
              total)
  {
    hide Decode; hide Bit; hide BlockOf;
    var ino, n := At(d, fid), NumBlocks(FileSize(d, fid));
    TreeIsOpenTree(d, fid, ino, di, n, own);
    TookNothing(d, own, total);
    forall b | 0 <= b < n
      ensures var p := Ptr(d, ino, di, b); p < |d| && d[p] == OldBlock(d, fid, n, b)
    {
      OpenBlock(d, fid, di, b, own, total);
    }
  }

  /** Growth followed by the bitmap write makes a session. */
  lemma SessionGrown(d0: Disk, own0: Owners, m0: Image, mid: Image, di: WordBlock, fid: nat, n0: nat, n: nat,
                     total: nat)
    requires Sound(VolumeImage(d0, own0), total) && FileOk(d0, own0, fid) && n0 == NumBlocks(FileSize(d0, fid))
    requires m0 == Image(d0, At(d0, ALLOCATION_BLOCK), own0, At(d0, fid), At(d0, At(d0, fid)[9]))
    requires Grown(m0, mid, fid, n0, n, total, AllPointers) && DirectZero(mid.ino, n)
    requires if n > DIRECT + SINDIR then di == mid.di == At(mid.d, mid.ino[9])
                  && Holds(mid.own, mid.ino[9], Role(fid, Double)) && DoubleZero(mid.ino, mid.di, n)
             else mid.ino[9] == 0
    requires n0 < n && FreeCount(mid.bat, total) == FreeCount(m0.bat, total) - GrowNeed(n0, n)
    ensures Session(d0, own0, mid.d[ALLOCATION_BLOCK := Encode(mid.bat)], mid.own, mid.ino, di, fid, n0, n, total)
  {
    hide Decode; hide Encode; hide BlockOf;
    var d := mid.d[ALLOCATION_BLOCK := Encode(mid.bat)];
    DecodeEncode(mid.bat);
    assert At(d, ALLOCATION_BLOCK) == mid.bat;
    GrownOthers(d0, own0, m0, mid, fid, n0, n, total);
    TookGrown(m0, mid, fid, GrowNeed(n0, n), total, AllPointers);
    SessionTree(mid, fid, di, n, total);
    forall b | 0 <= b < n
      ensures var p := Ptr(d, mid.ino, di, b); p < |d| && d[p] == OldBlock(d0, fid, n0, b)
    {
      SessionGrownBlock(d0, own0, m0, mid, di, fid, n0, n, total, b);
    }
  }

  lemma GrownOthers(d0: Disk, own0: Owners, m0: Image, mid: Image, fid: nat, n0: nat, n: nat, total: nat)
    requires Sound(VolumeImage(d0, own0), total)
    requires m0.d == d0 && m0.own == own0 && m0.bat == At(d0, ALLOCATION_BLOCK)
    requires Grown(m0, mid, fid, n0, n, total, AllPointers)
    ensures Others(d0, own0, mid.d[ALLOCATION_BLOCK := Encode(mid.bat)], mid.own, fid)
  {
    hide Decode; hide Encode; hide TreeCore; hide Kept; hide Zeroed;
    assert mid.d[0] == d0[0] && mid.d[DIRECTORY_BLOCK] == d0[DIRECTORY_BLOCK];
  }

  lemma SessionTree(mid: Image, fid: nat, di: WordBlock, n: nat, total: nat)
    requires Sound(mid, total) && TreeCore(mid.d, fid, mid.ino, mid.di, n, mid.own) && DirectZero(mid.ino, n)
    requires if n > DIRECT + SINDIR then di == mid.di == At(mid.d, mid.ino[9])
                  && Holds(mid.own, mid.ino[9], Role(fid, Double)) && DoubleZero(mid.ino, mid.di, n)
             else mid.ino[9] == 0
    ensures OpenTree(mid.d[ALLOCATION_BLOCK := Encode(mid.bat)], fid, mid.ino, di, n, mid.own)
    ensures Kept(mid.d, mid.ino, mid.di, mid.d[ALLOCATION_BLOCK := Encode(mid.bat)], mid.ino, di, n)
  {
    hide Decode; hide Encode; hide Ptr; hide Bit; hide TailZero; hide DirectZero; hide DoubleZero;
    var d := mid.d[ALLOCATION_BLOCK := Encode(mid.bat)];
    TreeCoreFrame(mid.d, d, fid, mid.ino, mid.di, n, mid.own, mid.own);
    if n <= DIRECT + SINDIR {
      DoubleIrrelevant(d, fid, mid.ino, mid.di, di, n, mid.own);
    }
  }

  lemma SessionGrownBlock(d0: Disk, own0: Owners, m0: Image, mid: Image, di: WordBlock, fid: nat, n0: nat, n: nat,
                          total: nat, b: nat)
    requires Sound(VolumeImage(d0, own0), total) && FileOk(d0, own0, fid) && n0 == NumBlocks(FileSize(d0, fid)) && b < n
    requires m0 == Image(d0, At(d0, ALLOCATION_BLOCK), own0, At(d0, fid), At(d0, At(d0, fid)[9]))
    requires Grown(m0, mid, fid, n0, n, total, AllPointers)
    requires Kept(mid.d, mid.ino, mid.di, mid.d[ALLOCATION_BLOCK := Encode(mid.bat)], mid.ino, di, n)
    ensures var d := mid.d[ALLOCATION_BLOCK := Encode(mid.bat)]; var p := Ptr(d, mid.ino, di, b);
            p < |d| && d[p] == OldBlock(d0, fid, n0, b)
  {
    hide Decode; hide Encode; hide Ptr;
    var d := mid.d[ALLOCATION_BLOCK := Encode(mid.bat)];
    var p := Ptr(mid.d, mid.ino, mid.di, b);
    assert Ptr(d, mid.ino, di, b) == p;
    assert Holds(mid.own, p, Role(fid, Data(b)));
    if b < n0 {
      assert p == Ptr(d0, m0.ino, m0.di, b);
      assert Holds(own0, p, Role(fid, Data(b)));
      assert mid.d[p] == d0[p];
    }
  }

  /** Blocks taken before AllocBlocks starts: the first data block and the double-indirect block. */
  function HeadNeed(n0: nat, n: nat): nat
    requires n0 <= n && 1 <= n
  {
    (if n0 == 0 then 1 else 0) + (DoubleCount(n) - DoubleCount(if n0 == 0 then 1 else n0))
  }

  /** All blocks a file takes to grow from n0 to n. */
  function GrowNeed(n0: nat, n: nat): nat
    requires n0 <= n
  {
    CostMonotone(n0, n);
    Cost(n) - Cost(n0) + DoubleCount(n) - DoubleCount(n0)
  }

  /** After the first allocations the file has lastBlock + 1 blocks and, if b2 calls for it, a double-indirect block. */
  ghost predicate HeadDone(m0: Image, m: Image, fid: nat, n0: nat, lastBlock: nat, b2: nat, total: nat)
    requires n0 <= b2 + 1
  {
    && Grown(m0, m, fid, n0, lastBlock + 1, total, Nothing)
    && DirectZero(m.ino, lastBlock + 1) && m.ino[0] == m0.ino[0]
    && (if b2 + 1 > DIRECT + SINDIR
        then DoubleZero(m.ino, m.di, lastBlock + 1) && Holds(m.own, m.ino[9], Role(fid, Double))
        else m.ino[9] == 0)
    && FreeCount(m.bat, total) == FreeCount(m0.bat, total) - HeadNeed(n0, b2 + 1)
  }

  /**
   A growing write finds room for all of its new blocks, or is refused on the first allocations,
   which are the ones the code looks at. What running out later does is told in FlatFailures, FlatStray and FlatTail.
  */
  ghost predicate RoomFor(d: Disk, n0: nat, n: nat, total: nat)
    requires n0 <= n && 1 <= n && total <= 4096
  {
    var free := FreeCount(At(d, ALLOCATION_BLOCK), total);
    free >= GrowNeed(n0, n) || free < HeadNeed(n0, n)
  }

  lemma NeedSplits(n0: nat, n: nat)
    requires n0 <= n && 1 <= n
    ensures var k := if n0 == 0 then 1 else n0;
            GrowNeed(n0, n) == HeadNeed(n0, n) + Cost(n) - Cost(k) && Cost(k) <= Cost(n)
  {
    CostMonotone(if n0 == 0 then 1 else n0, n);
  }

  // ---------------------------------------------------------------- the end of a write

  /** The size word plays no part in the tree. */
  lemma SizeIrrelevant(d: Disk, fid: nat, ino: WordBlock, di: WordBlock, n: nat, own: Owners, size: Word)
    requires OpenTree(d, fid, ino, di, n, own)
    ensures OpenTree(d, fid, ino[0 := size], di, n, own)
    ensures Kept(d, ino, di, d, ino[0 := size], di, n)
  {
    hide At; hide Bit;
    var ino' := ino[0 := size];
    assert forall b :: 0 <= b < MAX_BLOCKS ==> Ptr(d, ino', di, b) == Ptr(d, ino, di, b);
    assert forall g :: 0 <= g <= SINDIR ==> TableBlock(ino', di, g) == TableBlock(ino, di, g);
    assert forall b :: 0 <= b < DIRECT ==> DirectBlock(ino', b) == DirectBlock(ino, b);
  }

  /** Writing the inode block leaves the tree alone. */
  lemma InodeWritten(d: Disk, fid: nat, ino: WordBlock, di: WordBlock, n: nat, own: Owners, blk: Block, total: nat)
    requires OpenTree(d, fid, ino, di, n, own) && Sound(VolumeImage(d, own), total) && Holds(own, fid, Role(fid, Self))
    ensures fid < |d|
    ensures var d' := d[fid := blk];
            && OpenTree(d', fid, ino, di, n, own) && Sound(VolumeImage(d', own), total)
            && Kept(d, ino, di, d', ino, di, n)
            && (forall b :: 0 <= b < n ==> Ptr(d, ino, di, b) < |d| && d'[Ptr(d, ino, di, b)] == d[Ptr(d, ino, di, b)])
  {
    hide Ptr; hide Decode; hide Bit; hide TailZero;
    var d' := d[fid := blk];
    TreeCoreFrame(d, d', fid, ino, di, n, own, own);
    forall b | 0 <= b < n
      ensures Ptr(d, ino, di, b) < |d| && d'[Ptr(d, ino, di, b)] == d[Ptr(d, ino, di, b)]
    {
      assert Holds(own, Ptr(d, ino, di, b), Role(fid, Data(b)));
    }
  }

  function NewSize(size: nat, offset: nat, len: nat): nat {
    if offset + len > size then offset + len else size
  }

  /** The disk once the loop is through, with the inode rewritten when the file got longer. */
  function Final(d: Disk, fid: nat, ino: WordBlock, size: nat, offset: nat, len: nat): Disk
    requires fid < |d| && offset + len < 0x1_0000_0000
  {
    if offset + len > size then d[fid := Encode(ino[0 := offset + len])] else d
  }

  lemma FinalBlocks(d0: Disk, own0: Owners, d1: Disk, d2: Disk, own: Owners, ino: WordBlock, di: WordBlock,
                    fid: nat, n0: nat, n: nat, total: nat, b1: nat, b2: nat, data: seq<Byte>, offset: nat, b: nat)
    requires Session(d0, own0, d1, own, ino, di, fid, n0, n, total) && n <= MAX_BLOCKS
    requires Progress(d1, d2, fid, ino, di, n, own, b1, b2 + 1, data, offset) && b < n
    requires 0 < |data| && b1 == offset / BLOCK_SIZE && b2 == (offset + |data| - 1) / BLOCK_SIZE
    ensures Ptr(d2, ino, di, b) < |d2|
    ensures d2[Ptr(d2, ino, di, b)] == Overlay(OldBlock(d0, fid, n0, b), b, data, offset)
  {
    hide Ptr; hide OpenTree; hide Sound; hide BlockOf; hide Others;
    var p := Ptr(d1, ino, di, b);
    assert Ptr(d2, ino, di, b) == p;
    assert d1[p] == OldBlock(d0, fid, n0, b);
    if !(b1 <= b <= b2) {
      assert Overlay(d1[p], b, data, offset) == d1[p];
    }
  }

  lemma FinalFile(d0: Disk, own0: Owners, d1: Disk, d2: Disk, own: Owners, ino: WordBlock, di: WordBlock,
                  fid: nat, n0: nat, n: nat, total: nat, b1: nat, b2: nat, data: seq<Byte>, offset: nat, size: nat)
    requires Session(d0, own0, d1, own, ino, di, fid, n0, n, total) && n <= MAX_BLOCKS
    requires Progress(d1, d2, fid, ino, di, n, own, b1, b2 + 1, data, offset)
    requires OpenTree(d2, fid, ino, di, n, own) && Sound(VolumeImage(d2, own), total)
    requires 0 < |data| && b1 == offset / BLOCK_SIZE && b2 == (offset + |data| - 1) / BLOCK_SIZE
    requires offset + |data| < 0x1_0000_0000 && size == ino[0] && n == NumBlocks(NewSize(size, offset, |data|))
    requires offset + |data| <= size ==> At(d2, fid) == ino
    ensures fid < |d2|
    ensures var d := Final(d2, fid, ino, size, offset, |data|);
            && FileOk(d, own, fid) && Sound(VolumeImage(d, own), total)
            && FileSize(d, fid) == NewSize(size, offset, |data|)
            && forall b :: 0 <= b < n ==> BlockOf(d, fid, b) == Overlay(OldBlock(d0, fid, n0, b), b, data, offset)
  {
    hide Ptr; hide Bit; hide Decode; hide Encode; hide Overlay; hide OldBlock; hide Progress; hide TreeCore;
    hide DirectZero; hide DoubleZero;
    var size' := NewSize(size, offset, |data|);
    var ino' := ino[0 := size'];
    DecodeEncode(ino');
    InodeWritten(d2, fid, ino, di, n, own, Encode(ino'), total);
    var d := Final(d2, fid, ino, size, offset, |data|);
    assert At(d, fid) == ino';
    assert OpenTree(d, fid, ino, di, n, own) && Kept(d2, ino, di, d, ino, di, n);
    SizeIrrelevant(d, fid, ino, di, n, own, size');
    OpenTreeIsTree(d, fid, ino', di, n, own);
    forall b | 0 <= b < n
      ensures BlockOf(d, fid, b) == Overlay(OldBlock(d0, fid, n0, b), b, data, offset)
    {
      FinalBlocks(d0, own0, d1, d2, own, ino, di, fid, n0, n, total, b1, b2, data, offset, b);
      assert Ptr(d, ino', At(d, ino'[9]), b) == Ptr(d, ino', di, b) == Ptr(d, ino, di, b) == Ptr(d2, ino, di, b);
    }
  }

  /** From blocks to bytes: the file now reads as the old bytes with data spliced in. */
  lemma FinalBytes(d0: Disk, d: Disk, fid: nat, data: seq<Byte>, offset: nat)
    requires offset <= FileSize(d0, fid) && FileSize(d, fid) == NewSize(FileSize(d0, fid), offset, |data|)
    requires forall b :: 0 <= b < NumBlocks(FileSize(d, fid)) ==>
               BlockOf(d, fid, b) == Overlay(OldBlock(d0, fid, NumBlocks(FileSize(d0, fid)), b), b, data, offset)
    ensures FileBytes(d, fid) == Splice(FileBytes(d0, fid), offset, data)
  {
    hide BlockOf; hide At; hide FileSize;
    var s0, s := FileBytes(d0, fid), FileBytes(d, fid);
    forall i | 0 <= i < |s|
      ensures s[i] == Splice(s0, offset, data)[i]
    {
      var b, o := i / BLOCK_SIZE, i % BLOCK_SIZE;
      assert i == BLOCK_SIZE * b + o && b < NumBlocks(|s|);
      assert s[i] == Overlay(OldBlock(d0, fid, NumBlocks(|s0|), b), b, data, offset)[o];
      if !(offset <= i < offset + |data|) {
        assert i < |s0| && b < NumBlocks(|s0|);
        assert s0[i] == BlockOf(d0, fid, b)[o];
      }
    }
  }

  // ---------------------------------------------------------------- one file changes

  /** When one file changes and the others keep their blocks, the volume stays well formed. */
  lemma VolumeOthers(d0: Disk, own0: Owners, d: Disk, own: Owners, fid: nat, total: nat)
    requires Volume(d0, own0, total) && Others(d0, own0, d, own, fid) && Sound(VolumeImage(d, own), total)
    requires FileOk(d, own, fid)
    ensures Volume(d, own, total)
    ensures forall i ::
              0 <= i < MAX_FILES && Live(d[DIRECTORY_BLOCK], i) && EntryInode(d[DIRECTORY_BLOCK], i) != fid ==>
                FileBytes(d, EntryInode(d[DIRECTORY_BLOCK], i)) == FileBytes(d0, EntryInode(d[DIRECTORY_BLOCK], i))
  {
    hide FileBytes; hide EntryInode; hide EntryName; hide FileOk; hide Decode; hide Bit; hide DirOk;
    var md := d[DIRECTORY_BLOCK];
    forall i | 0 <= i < MAX_FILES && Live(md, i) && EntryInode(md, i) != fid
      ensures FileOk(d, own, EntryInode(md, i)) && FileBytes(d, EntryInode(md, i)) == FileBytes(d0, EntryInode(md, i))
    {
      FileFrame(d0, d, EntryInode(md, i), own0, own, total);
    }
    assert OwnersClosed(own) by {
      FileIsSelf(d, own, fid);
    }
  }

  lemma FileIsSelf(d: Disk, own: Owners, fid: nat)
    requires FileOk(d, own, fid)
    ensures Holds(own, fid, Role(fid, Self))
  {
  }

  /** ... and its users see one entry changed. */
  lemma ContentsOthers(d0: Disk, own0: Owners, d: Disk, own: Owners, fid: nat, total: nat)
    requires Volume(d0, own0, total) && Others(d0, own0, d, own, fid) && Sound(VolumeImage(d, own), total)
    requires FileOk(d, own, fid) && IsFile(d0[DIRECTORY_BLOCK], fid)
    ensures Contents(d) == Contents(d0)[FileName(d0[DIRECTORY_BLOCK], fid) := FileBytes(d, fid)]
  {
    hide FileBytes; hide EntryInode; hide EntryName; hide FileOk; hide Sound; hide Others; hide Volume; hide Names;
    hide FindEntry; hide DirOk; hide Listing; hide Live; hide IsFile; hide FileName;
    VolumeOthers(d0, own0, d, own, fid, total);
    OthersDirectory(d0, own0, d, own, fid, total);
    ListingUpdate(d0[DIRECTORY_BLOCK], FilesOf(d0), FilesOf(d), fid);
  }

  lemma OthersDirectory(d0: Disk, own0: Owners, d: Disk, own: Owners, fid: nat, total: nat)
    requires Volume(d0, own0, total) && Others(d0, own0, d, own, fid)
    ensures |d| == |d0| > DIRECTORY_BLOCK && d[0] == d0[0] && d[DIRECTORY_BLOCK] == d0[DIRECTORY_BLOCK]
    ensures DirOk(d0[DIRECTORY_BLOCK])
  {
  }

  /** The volume after data was written to a file: its bytes are spliced, every other entry is as before. */
  ghost predicate Written(d0: Disk, d: Disk, fid: nat, data: seq<Byte>, offset: nat) {
    && |d0| > DIRECTORY_BLOCK && |d| > DIRECTORY_BLOCK
    && IsFile(d0[DIRECTORY_BLOCK], fid) && offset <= FileSize(d0, fid)
    && FileBytes(d, fid) == Splice(FileBytes(d0, fid), offset, data)
    && Contents(d) == Contents(d0)[FileName(d0[DIRECTORY_BLOCK], fid) := FileBytes(d, fid)]
  }

  /** What was written can be read back. */
  lemma WrittenReadsBack(d0: Disk, d: Disk, fid: nat, data: seq<Byte>, offset: nat)
    requires Written(d0, d, fid, data, offset)
    ensures offset + |data| <= FileSize(d, fid) && FileBytes(d, fid)[offset..offset + |data|] == data
  {
    hide FileBytes; hide Contents; hide IsFile; hide FileName; hide Splice; hide At;
    SpliceReadsBack(FileBytes(d0, fid), offset, data);
  }

  /** Everything together: what a write leaves behind. */
  lemma WriteDone(d0: Disk, own0: Owners, d1: Disk, d2: Disk, own: Owners, ino: WordBlock, di: WordBlock,
                  fid: nat, n0: nat, n: nat, total: nat, b1: nat, b2: nat, data: seq<Byte>, offset: nat)
    requires Volume(d0, own0, total) && IsFile(d0[DIRECTORY_BLOCK], fid) && n0 == NumBlocks(FileSize(d0, fid))
    requires Session(d0, own0, d1, own, ino, di, fid, n0, n, total) && n <= MAX_BLOCKS
    requires Progress(d1, d2, fid, ino, di, n, own, b1, b2 + 1, data, offset)
    requires OpenTree(d2, fid, ino, di, n, own) && Sound(VolumeImage(d2, own), total)
    requires 0 < |data| && b1 == offset / BLOCK_SIZE && b2 == (offset + |data| - 1) / BLOCK_SIZE
    requires offset + |data| < 0x1_0000_0000 && ino[0] == FileSize(d0, fid) && offset <= ino[0]
    requires n == if n0 > b2 + 1 then n0 else b2 + 1
    requires offset + |data| <= ino[0] ==> At(d1, fid) == ino
    ensures fid < |d2|
    ensures var d := Final(d2, fid, ino, ino[0], offset, |data|);
            && Volume(d, own, total) && d[0] == d0[0] && d[DIRECTORY_BLOCK] == d0[DIRECTORY_BLOCK]
            && Written(d0, d, fid, data, offset) && Took(d0, own0, d, own, GrowNeed(n0, n), total)
            && |d| == |d0| && (n == n0 ==> d[ALLOCATION_BLOCK] == d0[ALLOCATION_BLOCK])
            && forall x :: x in own && x !in own0 ==> own[x].fid == fid
  {
    hide Ptr; hide Bit; hide Decode; hide Encode; hide Overlay; hide OldBlock; hide TreeCore; hide DirectZero;
    hide DoubleZero; hide BlockOf; hide FileBytes; hide Splice; hide Kept; hide DirOk; hide Contents; hide IsFile;
    hide FileName; hide OpenTree; hide Live; hide EntryInode; hide FileOk; hide OwnersClosed;
    var size := ino[0];
    ProgressFid(d1, d2, fid, ino, di, n, own, b1, b2 + 1, data, offset);
    FinalFile(d0, own0, d1, d2, own, ino, di, fid, n0, n, total, b1, b2, data, offset, size);
    var d := Final(d2, fid, ino, size, offset, |data|);
    FinalBytes(d0, d, fid, data, offset);
    FinalOthers(d0, own0, d1, d2, own, ino, di, fid, n, b1, b2, data, offset, size, total);
    FinalBitmap(d1, d2, fid, ino, di, n, own, b1, b2, data, offset, size, total);
    TookFrame(d0, own0, d1, d, own, GrowNeed(n0, n), total);
    VolumeOthers(d0, own0, d, own, fid, total);
    ContentsOthers(d0, own0, d, own, fid, total);
  }

  lemma FinalBitmap(d1: Disk, d2: Disk, fid: nat, ino: WordBlock, di: WordBlock, n: nat, own: Owners, b1: nat,
                    b2: nat, data: seq<Byte>, offset: nat, size: nat, total: nat)
    requires Sound(VolumeImage(d1, own), total) && Holds(own, fid, Role(fid, Self))
    requires n <= MAX_BLOCKS && Progress(d1, d2, fid, ino, di, n, own, b1, b2 + 1, data, offset)
    requires offset + |data| < 0x1_0000_0000 && fid < |d2|
    ensures var d := Final(d2, fid, ino, size, offset, |data|);
            |d| == |d1| > DIRECTORY_BLOCK && d[ALLOCATION_BLOCK] == d1[ALLOCATION_BLOCK]
  {
    hide Ptr; hide Decode; hide Encode; hide Overlay; hide Kept; hide Bit;
  }

  lemma ProgressFid(d1: Disk, d2: Disk, fid: nat, ino: WordBlock, di: WordBlock, n: nat, own: Owners, b1: nat, b: nat,
                    data: seq<Byte>, offset: nat)
    requires n <= MAX_BLOCKS && Progress(d1, d2, fid, ino, di, n, own, b1, b, data, offset)
             && Holds(own, fid, Role(fid, Self))
    ensures At(d2, fid) == At(d1, fid)
  {
    hide Ptr; hide Decode; hide Overlay; hide Kept;
  }

  lemma FinalOthers(d0: Disk, own0: Owners, d1: Disk, d2: Disk, own: Owners, ino: WordBlock, di: WordBlock, fid: nat,
                    n: nat,
                    b1: nat, b2: nat, data: seq<Byte>, offset: nat, size: nat, total: nat)
    requires Others(d0, own0, d1, own, fid) && Sound(VolumeImage(d1, own), total) && Holds(own, fid, Role(fid, Self))
    requires n <= MAX_BLOCKS && Progress(d1, d2, fid, ino, di, n, own, b1, b2 + 1, data, offset)
    requires offset + |data| < 0x1_0000_0000 && fid < |d2|
    ensures Others(d0, own0, Final(d2, fid, ino, size, offset, |data|), own, fid)
  {
    hide Ptr; hide Decode; hide Encode; hide Overlay; hide Kept; hide Bit;
  }

  // ---------------------------------------------------------------- what a write asks and answers

  /** The number of blocks the file has after a write. */
  function WriteBlocks(d: Disk, fid: nat, len: nat, offset: nat): (n: nat)
    requires 0 < len
    ensures n >= NumBlocks(FileSize(d, fid)) && n >= 1
  {
    var n0, end := NumBlocks(FileSize(d, fid)), (offset + len - 1) / BLOCK_SIZE + 1;
    if n0 > end then n0 else end
  }

  /** The write grows the file and the first allocations already find the disk full. */
  ghost predicate WriteStalls(d: Disk, fid: nat, len: nat, offset: nat, total: nat)
    requires 0 < len && total <= 4096
  {
    var n0, n := NumBlocks(FileSize(d, fid)), WriteBlocks(d, fid, len, offset);
    n > n0 && FreeCount(At(d, ALLOCATION_BLOCK), total) < HeadNeed(n0, n)
  }

  /** A write that gets past the checks stays within the largest file. */
  ghost predicate WithinLargest(d: Disk, fileid: int, len: nat, offset: int, total: nat) {
    2 <= fileid < total && 0 <= offset && 0 < len && offset <= FileSize(d, fileid) ==>
      WriteBlocks(d, fileid, len, offset) <= MAX_BLOCKS
  }

  /** ... and finds room if it grows the file. */
  ghost predicate WriteFits(d: Disk, fileid: int, len: nat, offset: int, total: nat) {
    total <= 4096 && (2 <= fileid < total && 0 <= offset && 0 < len && offset <= FileSize(d, fileid) ==>
      var n0, n := NumBlocks(FileSize(d, fileid)), WriteBlocks(d, fileid, len, offset);
      n > n0 ==> n <= MAX_BLOCKS && RoomFor(d, n0, n, total))
  }

  lemma FitsWithin(d: Disk, own: Owners, fileid: int, len: nat, offset: int, total: nat)
    requires Volume(d, own, total) && WriteFits(d, fileid, len, offset, total)
    requires 2 <= fileid < total ==> IsFile(d[DIRECTORY_BLOCK], fileid)
    ensures WithinLargest(d, fileid, len, offset, total)
  {
    hide RoomFor; hide At; hide DirOk; hide IsFile; hide OwnersClosed; hide Bit;
    if 2 <= fileid < total && 0 <= offset && 0 < len && offset <= FileSize(d, fileid) {
      FileIsOk(d, own, total, fileid);
      DoubleLoaded(d, own, fileid, total);
    }
  }

  ghost function WriteCode(d: Disk, fileid: int, len: nat, offset: int, total: nat): int
    requires total <= 4096
  {
    if fileid < 2 || fileid > total || offset < 0 then VFS_INVALID_PARAMS
    else if len == 0 then 0
    else if fileid == total || offset > FileSize(d, fileid) || WriteStalls(d, fileid, len, offset, total) then VFS_ERROR
    else len
  }

  /** The double-indirect pointer is non-zero exactly in files that need it. */
  lemma DoubleLoaded(d: Disk, own: Owners, fid: nat, total: nat)
    requires Sound(VolumeImage(d, own), total) && FileOk(d, own, fid)
    ensures NumBlocks(FileSize(d, fid)) > DIRECT + SINDIR <==> At(d, fid)[9] > 0
    ensures NumBlocks(FileSize(d, fid)) <= MAX_BLOCKS
  {
    hide Decode; hide Ptr;
  }

  lemma SessionParts(d0: Disk, own0: Owners, d: Disk, own: Owners, ino: WordBlock, di: WordBlock, fid: nat, n0: nat,
                     n: nat, total: nat)
    requires Session(d0, own0, d, own, ino, di, fid, n0, n, total)
    ensures OpenTree(d, fid, ino, di, n, own) && Sound(VolumeImage(d, own), total) && n <= MAX_BLOCKS
  {
    hide Ptr; hide Bit; hide Decode;
  }
}
