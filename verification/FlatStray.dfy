/**
 ... and if a first single-indirect table ran out: it was not written, so the write loop goes through it as
 it is on the disk.
*/
module FlatStray {
  import opened Words
  import opened Bitmaps
  import opened FlatLayout
  import opened FlatGrowth
  import opened FlatVolume
  import opened FlatData
  import opened FlatWriting
  import opened FlatFailures
  import opened Directories

  // ---------------------------------------------------------------- a table as it is on the disk

  /** The pointer for block b in table block t. */
  function EntryOf(d: Disk, t: nat, b: nat): Word
    requires DIRECT <= b < DIRECT + SINDIR
  {
    At(d, t)[b - DIRECT]
  }

  /** The entries up to that for block b all name blocks of the disk, so that the loop gets to block b. */
  ghost predicate Reached(d: Disk, t: nat, b: nat)
    requires DIRECT <= b < DIRECT + SINDIR
  {
    forall c {:trigger EntryOf(d, t, c)} :: DIRECT <= c <= b ==> EntryOf(d, t, c) < |d|
  }

  /** An entry that names no block of the disk. */
  ghost predicate Runaway(d0: Disk, t: nat, b2: nat)
    requires b2 < DIRECT + SINDIR
  {
    exists b {:trigger EntryOf(d0, t, b)} :: DIRECT <= b <= b2 && EntryOf(d0, t, b) >= |d0|
  }

  /** The block holds the data meant for logical block b. */
  ghost predicate Carries(blk: Block, b: nat, data: seq<Byte>, offset: nat) {
    forall o :: 0 <= o < BLOCK_SIZE && offset <= BLOCK_SIZE * b + o < offset + |data| ==>
      blk[o] == data[BLOCK_SIZE * b + o - offset]
  }

  /** No block that the loop gets to has x as its entry. */
  ghost predicate Unnamed(d: Disk, t: nat, b2: nat, x: nat)
    requires b2 < DIRECT + SINDIR
  {
    forall b {:trigger EntryOf(d, t, b)} :: DIRECT <= b <= b2 && Reached(d, t, b) ==> EntryOf(d, t, b) != x
  }

  /**
   New blocks 7..b2 of file fid went wherever table block t said before the write, on disk d0. The
   write fails exactly if an entry names no block of the disk. A block named by an entry holds the
   data of the last logical block that names it; system blocks, other files and the table are as
   before unless an entry names them. Unless the write fails the file is longer and has table t.
  */
  ghost predicate Stray(d0: Disk, own: Owners, d: Disk, r: int, fid: nat, t: nat, b2: nat, data: seq<Byte>,
                        offset: nat)
    requires b2 < DIRECT + SINDIR
  {
    && |d| == |d0|
    && r == (if Runaway(d0, t, b2) then VFS_ERROR else |data|)
    && (forall b {:trigger EntryOf(d0, t, b)} ::
         DIRECT <= b <= b2 && Reached(d0, t, b) && EntryOf(d0, t, b) != fid && LastNamed(d0, t, b, b2) ==>
           Carries(d[EntryOf(d0, t, b)], b, data, offset))
    && (forall x :: 0 <= x < |d0| && (x != fid || r < 0) && Bystander(own, fid, t, x) && Unnamed(d0, t, b2, x) ==>
         d[x] == d0[x])
    && (r >= 0 ==> At(d, fid)[0] == offset + |data| && At(d, fid)[8] == t)
  }

  ghost predicate LastNamed(d: Disk, t: nat, b: nat, b2: nat)
    requires DIRECT <= b && b2 < DIRECT + SINDIR && b <= b2
  {
    forall c {:trigger EntryOf(d, t, c)} :: b < c <= b2 && Reached(d, t, c) ==> EntryOf(d, t, c) != EntryOf(d, t, b)
  }

  /** A system block, the table, or a block in use other than the file's data. */
  ghost predicate Bystander(own: Owners, fid: nat, t: nat, x: nat) {
    x < 3 || x == t || (x in own && !(own[x].fid == fid && own[x].slot.Data?))
  }

  /** The table block is one that nobody had. */
  lemma TableLeft(d0: Disk, own: Owners, m: Image, fid: nat, n0: nat, n: nat, f: nat, total: nat)
    requires Stopped(d0, own, m, fid, n0, n, f, total) && StopOf(n0, n, f) > DIRECT
    ensures var t := m.ino[8];
            && 3 <= t < total <= |d0| && total <= 4096 && |m.d| == |d0| && m.d[t] == d0[t]
            && t !in own && !Bit(At(d0, ALLOCATION_BLOCK), t)
            && forall b {:trigger DirectBlock(m.ino, b)} :: n0 <= b < DIRECT ==> DirectBlock(m.ino, b) != t
  {
    hide Decode; hide Bit; hide DirOk; hide IsFile; hide Ptr;
    FileIsOk(d0, own, total, fid);
  }

  /** The targets: direct pointers, then the entries of the table. */
  lemma TableTargets(d0: Disk, own: Owners, m: Image, fid: nat, n0: nat, n: nat, f: nat, total: nat, b: nat)
    requires Stopped(d0, own, m, fid, n0, n, f, total) && StopOf(n0, n, f) > DIRECT && b < DIRECT + SINDIR
    ensures |m.d| == |d0|
            && (b < DIRECT ==>
                  LowTarget(m.d, m.ino, b) < |d0| && !Bystander(own, fid, m.ino[8], LowTarget(m.d, m.ino, b)))
    ensures b >= DIRECT ==> LowTarget(m.d, m.ino, b) == EntryOf(d0, m.ino[8], b)
  {
    hide Volume; hide IsFile; hide RunsOut; hide Bit; hide Decode; hide RanOut; hide DirectBlock;
    TableLeft(d0, own, m, fid, n0, n, f, total);
    if b < DIRECT {
      DirectTargets(d0, own, m, fid, n0, n, f, total, b);
    }
  }

  lemma TableSteady(d0: Disk, own: Owners, m: Image, fid: nat, n0: nat, n: nat, f: nat, total: nat, di: WordBlock,
                    b1: nat, b2: nat)
    requires Stopped(d0, own, m, fid, n0, n, f, total) && StopOf(n0, n, f) > DIRECT && b1 <= n0
             && b2 + 1 == n <= DIRECT + SINDIR && b1 <= b2
    ensures Steady(m.d, m.ino, di, LowTargets(m.d, m.ino, b1, b2), b1, b2)
  {
    hide Volume; hide IsFile; hide RunsOut; hide Bit; hide At; hide RanOut; hide Steady; hide StopOf; hide CutFrom;
    TableLeft(d0, own, m, fid, n0, n, f, total);
    StopInRange(n0, n, f);
    forall c | b1 <= c < DIRECT
      ensures DirectBlock(m.ino, c) != m.ino[8]
    {
      TableTargets(d0, own, m, fid, n0, n, f, total, c);
    }
    LowSteady(m.d, m.ino, di, b1, b2);
  }

  /**
   What the loop then walks through: direct pointers that name blocks of the file, and the entries
   of the table as they were, with the table, system blocks and blocks in use intact.
  */
  ghost predicate TableWalk(d0: Disk, own: Owners, d: Disk, ino: WordBlock, fid: nat, b2: nat) {
    && |d| == |d0| && DIRECT <= b2 < DIRECT + SINDIR
    && (forall b {:trigger LowTarget(d, ino, b)} :: 0 <= b < DIRECT ==>
         LowTarget(d, ino, b) < |d0| && !Bystander(own, fid, ino[8], LowTarget(d, ino, b)))
    && (forall b {:trigger EntryOf(d0, ino[8], b)} {:trigger LowTarget(d, ino, b)} :: DIRECT <= b <= b2 ==>
         LowTarget(d, ino, b) == EntryOf(d0, ino[8], b))
    && (forall x :: 0 <= x < |d0| && Bystander(own, fid, ino[8], x) ==> d[x] == d0[x])
  }

  lemma StoppedWalk(d0: Disk, own: Owners, m: Image, fid: nat, n0: nat, n: nat, f: nat, total: nat)
    requires Stopped(d0, own, m, fid, n0, n, f, total) && StopOf(n0, n, f) > DIRECT && n <= DIRECT + SINDIR
    ensures TableWalk(d0, own, m.d, m.ino, fid, n - 1)
  {
    hide Stopped; hide StopOf; hide LowTarget; hide EntryOf; hide Bystander;
    StoppedLow(d0, own, m, fid, n0, n, f, total);
    forall b {:trigger LowTarget(m.d, m.ino, b)} | 0 <= b < n
      ensures b < DIRECT ==>
                LowTarget(m.d, m.ino, b) < |d0| && !Bystander(own, fid, m.ino[8], LowTarget(m.d, m.ino, b))
      ensures b >= DIRECT ==> LowTarget(m.d, m.ino, b) == EntryOf(d0, m.ino[8], b)
    {
      TableTargets(d0, own, m, fid, n0, n, f, total, b);
    }
    forall b {:trigger EntryOf(d0, m.ino[8], b)} | DIRECT <= b < n
      ensures LowTarget(m.d, m.ino, b) == EntryOf(d0, m.ino[8], b)
    {
      TableTargets(d0, own, m, fid, n0, n, f, total, b);
    }
    forall x | 0 <= x < |d0| && Bystander(own, fid, m.ino[8], x)
      ensures m.d[x] == d0[x]
    {
      BystanderSame(d0, own, m, fid, n0, n, f, total, x);
    }
  }

  lemma StoppedLow(d0: Disk, own: Owners, m: Image, fid: nat, n0: nat, n: nat, f: nat, total: nat)
    requires Stopped(d0, own, m, fid, n0, n, f, total) && StopOf(n0, n, f) > DIRECT
    ensures |m.d| == |d0| && DIRECT < n
  {
    hide Volume; hide IsFile; hide Bit; hide At;
    StopInRange(n0, n, f);
  }

  lemma BystanderSame(d0: Disk, own: Owners, m: Image, fid: nat, n0: nat, n: nat, f: nat, total: nat, x: nat)
    requires Stopped(d0, own, m, fid, n0, n, f, total) && StopOf(n0, n, f) > DIRECT && x < |d0|
             && Bystander(own, fid, m.ino[8], x)
    ensures |m.d| == |d0| && m.d[x] == d0[x]
  {
    hide Stopped; hide StopOf;
    TableLeft(d0, own, m, fid, n0, n, f, total);
    if x != m.ino[8] {
      StoppedSame(d0, own, m, fid, n0, n, f, total, x);
    }
  }

  /** The loop stops at the first such entry. */
  lemma TableCut(d0: Disk, own: Owners, d: Disk, ino: WordBlock, fid: nat, b1: nat, b2: nat)
    requires TableWalk(d0, own, d, ino, fid, b2) && b1 <= DIRECT
    ensures DIRECT <= CutFrom(d, ino, b1, b2 + 1)
    ensures CutFrom(d, ino, b1, b2 + 1) <= b2 <==> Runaway(d0, ino[8], b2)
    ensures forall b {:trigger Reached(d0, ino[8], b)} :: DIRECT <= b <= b2 ==>
              (Reached(d0, ino[8], b) <==> b < CutFrom(d, ino, b1, b2 + 1))
  {
    hide LowTarget; hide EntryOf; hide Bystander;
    var k, t := CutFrom(d, ino, b1, b2 + 1), ino[8];
    forall b {:trigger Reached(d0, t, b)} | DIRECT <= b <= b2
      ensures Reached(d0, t, b) <==> b < k
    {
      if b < k {
        forall c {:trigger EntryOf(d0, t, c)} | DIRECT <= c <= b
          ensures EntryOf(d0, t, c) < |d0|
        {
          assert LowTarget(d, ino, c) < |d|;
        }
      } else {
        assert EntryOf(d0, t, k) >= |d0|;
      }
    }
  }

  /** What became of the disk by the end of the loop, before the inode is written. */
  lemma StrayBlocks(d0: Disk, own: Owners, d: Disk, ino: WordBlock, fid: nat, b1: nat, b2: nat,
                    data: seq<Byte>, offset: nat, d2: Disk, r: int)
    requires TableWalk(d0, own, d, ino, fid, b2) && b1 <= DIRECT
    requires Outcome(d, LowTargets(d, ino, b1, b2), b1, data, offset, d2, r)
    ensures |d2| == |d0| && r == if Runaway(d0, ino[8], b2) then VFS_ERROR else |data|
    ensures forall b {:trigger EntryOf(d0, ino[8], b)} ::
              DIRECT <= b <= b2 && Reached(d0, ino[8], b) && LastNamed(d0, ino[8], b, b2) ==>
                EntryOf(d0, ino[8], b) < |d0| && Carries(d2[EntryOf(d0, ino[8], b)], b, data, offset)
    ensures forall x :: 0 <= x < |d0| && Bystander(own, fid, ino[8], x) && Unnamed(d0, ino[8], b2, x) ==>
              d2[x] == d0[x]
  {
    hide Pass; hide LowTarget; hide EntryOf; hide Bystander; hide Unnamed; hide Reached; hide LastNamed; hide Carries;
    hide LowTargets; hide Runaway; hide TableWalk; hide CutFrom;
    WalkLength(d0, own, d, ino, fid, b2);
    TableCut(d0, own, d, ino, fid, b1, b2);
    LowTargetsAre(d, ino, b1, b2);
    var t, k, tgt := ino[8], CutFrom(d, ino, b1, b2 + 1), LowTargets(d, ino, b1, b2);
    assert d2 == Pass(d, tgt, b1, k, data, offset);
    forall b {:trigger EntryOf(d0, t, b)} | DIRECT <= b <= b2 && Reached(d0, t, b) && LastNamed(d0, t, b, b2)
      ensures EntryOf(d0, t, b) < |d0| && Carries(d2[EntryOf(d0, t, b)], b, data, offset)
    {
      StrayEntry(d0, own, d, ino, fid, b1, b2, data, offset, tgt, k, b);
    }
    forall x | 0 <= x < |d0| && Bystander(own, fid, t, x) && Unnamed(d0, t, b2, x)
      ensures d2[x] == d0[x]
    {
      StrayFrame(d0, own, d, ino, fid, b1, b2, data, offset, tgt, k, x);
    }
  }

  lemma WalkLength(d0: Disk, own: Owners, d: Disk, ino: WordBlock, fid: nat, b2: nat)
    requires TableWalk(d0, own, d, ino, fid, b2)
    ensures |d| == |d0| && DIRECT <= b2 < DIRECT + SINDIR
  {
  }

  /** tgt are the targets of the loop from b1 on, and k the first that is not on the disk. */
  ghost predicate TargetsTo(d: Disk, ino: WordBlock, b1: nat, b2: nat, tgt: seq<Word>, k: nat) {
    && b1 <= k <= |tgt| <= b2 + 1 <= DIRECT + SINDIR && k == CutFrom(d, ino, b1, b2 + 1)
    && (forall c {:trigger tgt[c]} :: 0 <= c < |tgt| ==> tgt[c] == LowTarget(d, ino, c))
    && (forall c {:trigger tgt[c]} :: b1 <= c < k ==> tgt[c] < |d|)
  }

  lemma LowTargetsAre(d: Disk, ino: WordBlock, b1: nat, b2: nat)
    requires b1 <= b2 < DIRECT + SINDIR
    ensures var k, tgt := CutFrom(d, ino, b1, b2 + 1), LowTargets(d, ino, b1, b2);
            && |tgt| == (if k <= b2 then k + 1 else b2 + 1) && TargetsTo(d, ino, b1, b2, tgt, k)
            && (k <= b2 ==> tgt[k] >= |d|)
  {
    hide LowTarget;
  }

  lemma StrayEntry(d0: Disk, own: Owners, d: Disk, ino: WordBlock, fid: nat, b1: nat, b2: nat,
                   data: seq<Byte>, offset: nat, tgt: seq<Word>, k: nat, b: nat)
    requires TableWalk(d0, own, d, ino, fid, b2) && b1 <= DIRECT && TargetsTo(d, ino, b1, b2, tgt, k)
    requires DIRECT <= b <= b2 && Reached(d0, ino[8], b) && LastNamed(d0, ino[8], b, b2)
    ensures |d| == |d0| && EntryOf(d0, ino[8], b) < |d0|
    ensures Carries(Pass(d, tgt, b1, k, data, offset)[EntryOf(d0, ino[8], b)], b, data, offset)
  {
    hide Pass; hide Overlay; hide LowTarget; hide EntryOf; hide Reached; hide Carries; hide CutFrom; hide Bystander;
    TableCut(d0, own, d, ino, fid, b1, b2);
    assert tgt[b] == LowTarget(d, ino, b) == EntryOf(d0, ino[8], b);
    forall c | b < c < k
      ensures tgt[c] != tgt[b]
    {
      assert Reached(d0, ino[8], c);
      assert tgt[c] == LowTarget(d, ino, c) == EntryOf(d0, ino[8], c);
    }
    PassLast(d, tgt, b1, k, data, offset, b);
    OverlayCarries(Pass(d, tgt, b1, b, data, offset)[tgt[b]], b, data, offset);
  }

  lemma OverlayCarries(was: Block, b: nat, data: seq<Byte>, offset: nat)
    ensures Carries(Overlay(was, b, data, offset), b, data, offset)
  {
  }

  lemma StrayFrame(d0: Disk, own: Owners, d: Disk, ino: WordBlock, fid: nat, b1: nat, b2: nat,
                   data: seq<Byte>, offset: nat, tgt: seq<Word>, k: nat, x: nat)
    requires TableWalk(d0, own, d, ino, fid, b2) && b1 <= DIRECT && TargetsTo(d, ino, b1, b2, tgt, k)
    requires x < |d0| && Bystander(own, fid, ino[8], x) && Unnamed(d0, ino[8], b2, x)
    ensures |d| == |d0| && Pass(d, tgt, b1, k, data, offset)[x] == d0[x]
  {
    hide Pass; hide Overlay; hide LowTarget; hide EntryOf; hide Reached; hide Bystander; hide CutFrom;
    TableCut(d0, own, d, ino, fid, b1, b2);
    forall c | b1 <= c < k
      ensures tgt[c] != x
    {
      assert tgt[c] == LowTarget(d, ino, c);
      if c >= DIRECT {
        assert Reached(d0, ino[8], c);
        assert LowTarget(d, ino, c) == EntryOf(d0, ino[8], c);
      }
    }
    PassFrame(d, tgt, b1, k, data, offset, x);
  }

  /** ... and with the inode written, unless the loop failed. */
  lemma StrayDone(d0: Disk, own: Owners, d: Disk, ino: WordBlock, fid: nat, b1: nat, b2: nat,
                  data: seq<Byte>, offset: nat, d2: Disk, r: int)
    requires TableWalk(d0, own, d, ino, fid, b2) && b1 <= DIRECT
    requires Outcome(d, LowTargets(d, ino, b1, b2), b1, data, offset, d2, r)
    requires ino[0] < offset + |data| < 0x1_0000_0000 && fid < |d2|
    ensures DIRECT <= b2 < DIRECT + SINDIR
    ensures Stray(d0, own, if r < 0 then d2 else Final(d2, fid, ino, ino[0], offset, |data|), r, fid, ino[8], b2,
                  data, offset)
  {
    hide Outcome; hide EntryOf; hide Bystander; hide Unnamed; hide Reached; hide LastNamed; hide Carries;
    hide TableWalk;
    hide Encode; hide Decode; hide LowTargets; hide Runaway;
    WalkLength(d0, own, d, ino, fid, b2);
    StrayBlocks(d0, own, d, ino, fid, b1, b2, data, offset, d2, r);
    DecodeEncode(ino[0 := offset + |data|]);
  }

  /** The write went past a failing allocation into a free block that became the file's table. */
  ghost predicate WentAstray(d0: Disk, own: Owners, d: Disk, r: int, fid: nat, data: seq<Byte>, offset: nat,
                             total: nat) {
    var b2 := LastOf(|data|, offset);
    && DIRECT <= b2 < DIRECT + SINDIR && |d| == |d0|
    && exists t: nat :: 3 <= t < total <= 4096 && t != fid && !Bit(At(d0, ALLOCATION_BLOCK), t)
                        && Stray(d0, own, d, r, fid, t, b2, data, offset)
  }

  /** The last logical block of a write of len bytes. */
  function LastOf(len: nat, offset: nat): nat {
    if len == 0 then 0 else (offset + len - 1) / BLOCK_SIZE
  }

  // ---------------------------------------------------------------- what is left of the volume

  /**
   Whatever the free block held, a write that answers success leaves no volume, unless an entry it got to
   names the bitmap or the directory: the file's table is not marked allocated.
  */
  lemma NewTableBreaks(d0: Disk, own: Owners, d: Disk, r: int, fid: nat, data: seq<Byte>, offset: nat, total: nat)
    requires Volume(d0, own, total) && IsFile(d0[DIRECTORY_BLOCK], fid) && 0 < |data|
    requires WentAstray(d0, own, d, r, fid, data, offset, total) && r >= 0
    requires var t, b2 := At(d, fid)[8], LastOf(|data|, offset);
             Unnamed(d0, t, b2, ALLOCATION_BLOCK) && Unnamed(d0, t, b2, DIRECTORY_BLOCK)
    ensures forall owners :: !Volume(d, owners, total)
  {
    hide IsFile; hide Volume; hide Carries; hide Bit; hide At; hide Unnamed; hide LastNamed; hide Reached;
    hide EntryOf;
    var b2 := LastOf(|data|, offset);
    var t: nat :| 3 <= t < total <= 4096 && t != fid && !Bit(At(d0, ALLOCATION_BLOCK), t)
                  && Stray(d0, own, d, r, fid, t, b2, data, offset);
    FileIsOk(d0, own, total, fid);
    assert d[ALLOCATION_BLOCK] == d0[ALLOCATION_BLOCK] && d[DIRECTORY_BLOCK] == d0[DIRECTORY_BLOCK];
    assert NumBlocks(FileSize(d, fid)) == b2 + 1;
    SameBlock(d0, d, ALLOCATION_BLOCK);
    forall owners
      ensures !Volume(d, owners, total)
    {
      if Volume(d, owners, total) {
        TableIsMarked(d, owners, fid, total);
      }
    }
  }

  /** The table of a file with more than seven blocks is marked allocated. */
  lemma TableIsMarked(d: Disk, own: Owners, fid: nat, total: nat)
    requires Volume(d, own, total) && IsFile(d[DIRECTORY_BLOCK], fid) && NumBlocks(FileSize(d, fid)) > DIRECT
    ensures At(d, fid)[8] < total <= 4096 && Bit(At(d, ALLOCATION_BLOCK), At(d, fid)[8])
  {
    hide Decode; hide Bit; hide DirOk; hide IsFile;
    FileIsOk(d, own, total, fid);
    assert Holds(own, TableBlock(At(d, fid), At(d, At(d, fid)[9]), 0), Role(fid, Table(0)));
  }

  /** If the free blocks hold zeros, the write always succeeds, and the new blocks went to the header. */
  lemma BlankTableBreaks(d0: Disk, own: Owners, d: Disk, r: int, fid: nat, data: seq<Byte>, offset: nat, total: nat)
    requires Volume(d0, own, total) && IsFile(d0[DIRECTORY_BLOCK], fid) && 0 < |data|
    requires WentAstray(d0, own, d, r, fid, data, offset, total)
    requires forall x :: 3 <= x < total && x < 4096 && x < |d0| && !Bit(At(d0, ALLOCATION_BLOCK), x) ==>
               d0[x] == ZeroBlock()
    ensures r == |data| && 0 < |d| && Carries(d[0], LastOf(|data|, offset), data, offset)
            && forall owners :: !Volume(d, owners, total)
  {
    hide IsFile; hide Volume; hide Carries; hide Bit; hide Decode;
    var b2 := LastOf(|data|, offset);
    var t: nat :| 3 <= t < total <= 4096 && t != fid && !Bit(At(d0, ALLOCATION_BLOCK), t)
                  && Stray(d0, own, d, r, fid, t, b2, data, offset);
    VolumeTotal(d0, own, total);
    FileIsOk(d0, own, total, fid);
    DecodeZero();
    assert forall b {:trigger EntryOf(d0, t, b)} :: DIRECT <= b <= b2 ==> EntryOf(d0, t, b) == 0;
    assert EntryOf(d0, t, b2) == 0 && Reached(d0, t, b2) && LastNamed(d0, t, b2, b2);
    assert Carries(d[EntryOf(d0, t, b2)], b2, data, offset);
    NewTableBreaks(d0, own, d, r, fid, data, offset, total);
  }

  lemma VolumeTotal(d: Disk, own: Owners, total: nat)
    requires Volume(d, own, total)
    ensures total <= |d|
  {
  }
}
