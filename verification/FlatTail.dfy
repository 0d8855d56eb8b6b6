/**
 Writes that run out of blocks within the last table of the file. Its blocks, its tables and the buffers are
 then as before, and the pointers past the end are zero: the loop sends the new data to block 0.
*/
module FlatTail {
  import opened Words
  import opened Bitmaps
  import opened FlatLayout
  import opened FlatGrowth
  import opened FlatVolume
  import opened FlatData
  import opened FlatWriting
  import opened FlatFailures
  import opened FlatStray
  import opened Directories

  /** What Expand leaves then: file fid of n0 blocks, which was to get n, on the volume d0 before the write. */
  ghost predicate TailOpen(d0: Disk, own: Owners, d1: Disk, ino: WordBlock, di: WordBlock, fid: nat, n0: nat, n: nat,
                           total: nat) {
    && Volume(d0, own, total) && IsFile(d0[DIRECTORY_BLOCK], fid) && n0 == NumBlocks(FileSize(d0, fid))
    && n0 < n && InLastTable(n0, n) && LeftAlone(d0, own, d1, ino, di, fid, n0)
  }

  lemma TailTree(d0: Disk, own: Owners, d1: Disk, ino: WordBlock, di: WordBlock, fid: nat, n0: nat, n: nat, total: nat)
    requires TailOpen(d0, own, d1, ino, di, fid, n0, n, total)
    ensures OpenTree(d1, fid, ino, di, n0, own) && Sound(VolumeImage(d1, own), total) && n <= MAX_BLOCKS
    ensures Kept(d0, ino, At(d0, ino[9]), d1, ino, di, n0)
  {
    hide Decode; hide Bit; hide DirOk; hide IsFile; hide Ptr; hide TailZero; hide DirectZero; hide DoubleZero;
    FileIsOk(d0, own, total, fid);
    TreeIsOpenTree(d0, fid, ino, di, n0, own);
    TreeCoreFrame(d0, d1, fid, ino, di, n0, own, own);
    assert d1[ALLOCATION_BLOCK] == d0[ALLOCATION_BLOCK];
    assert n0 > DIRECT + SINDIR ==> d1[ino[9]] == d0[ino[9]];
  }

  /** The pointers: the file's blocks, then zeros. */
  lemma TailPtr(d0: Disk, own: Owners, d1: Disk, ino: WordBlock, di: WordBlock, fid: nat, n0: nat, n: nat, total: nat,
                b: nat)
    requires TailOpen(d0, own, d1, ino, di, fid, n0, n, total) && b < n
    ensures b < MAX_BLOCKS
    ensures var p := Ptr(d1, ino, di, b);
            if b < n0 then 3 <= p < |d1| && Holds(own, p, Role(fid, Data(b))) else p == 0
  {
    hide Volume; hide IsFile; hide Bit; hide LeftAlone; hide At; hide Ptr;
    TailTree(d0, own, d1, ino, di, fid, n0, n, total);
    InLastCost(n0, n);
    if b < n0 {
      OpenTreeData(d1, fid, ino, di, n0, own);
      assert Holds(own, Ptr(d1, ino, di, b), Role(fid, Data(b)));
    } else {
      assert (b - DIRECT) / SINDIR == (n0 - DIRECT) / SINDIR;
      assert TailZero(d1, ino, di, n0);
    }
  }

  /** The loop comes to all of them: no table is one of the targets. */
  lemma TailSteady(d0: Disk, own: Owners, d1: Disk, ino: WordBlock, di: WordBlock, fid: nat, n0: nat, n: nat,
                   total: nat, b1: nat)
    requires TailOpen(d0, own, d1, ino, di, fid, n0, n, total) && b1 < n
    ensures n <= MAX_BLOCKS && Steady(d1, ino, di, DataTargets(d1, ino, di, n), b1, n - 1)
    ensures OnDisk(d1, DataTargets(d1, ino, di, n))
  {
    hide TailOpen; hide Ptr; hide At; hide Target;
    TailTree(d0, own, d1, ino, di, fid, n0, n, total);
    var tgt := DataTargets(d1, ino, di, n);
    forall b | 0 <= b < n
      ensures tgt[b] < |d1|
    {
      TailPtr(d0, own, d1, ino, di, fid, n0, n, total, b);
    }
    forall b | b1 <= b < |tgt|
      ensures Target(d1, ino, di, tgt, b1, b)
    {
      TailTarget(d0, own, d1, ino, di, fid, n0, n, total, b1, b);
    }
  }

  lemma TailTarget(d0: Disk, own: Owners, d1: Disk, ino: WordBlock, di: WordBlock, fid: nat, n0: nat, n: nat,
                   total: nat, b1: nat, b: nat)
    requires TailOpen(d0, own, d1, ino, di, fid, n0, n, total) && b1 <= b < n <= MAX_BLOCKS
    ensures Target(d1, ino, di, DataTargets(d1, ino, di, n), b1, b)
  {
    hide TailOpen; hide At;
    if b >= DIRECT {
      TailTable(d0, own, d1, ino, di, fid, n0, n, total, b);
      var tgt := DataTargets(d1, ino, di, n);
      forall c | b1 <= c < b
        ensures tgt[c] != TableOf(ino, di, b)
      {
        TailPtr(d0, own, d1, ino, di, fid, n0, n, total, c);
      }
    }
  }

  lemma TailTable(d0: Disk, own: Owners, d1: Disk, ino: WordBlock, di: WordBlock, fid: nat, n0: nat, n: nat,
                  total: nat, b: nat)
    requires TailOpen(d0, own, d1, ino, di, fid, n0, n, total) && DIRECT <= b < n <= MAX_BLOCKS
    ensures 3 <= TableOf(ino, di, b) < |d1|
            && Holds(own, TableOf(ino, di, b), Role(fid, Table((b - DIRECT) / SINDIR)))
  {
    hide Volume; hide IsFile; hide LeftAlone; hide Bit; hide At; hide Ptr;
    TailTree(d0, own, d1, ino, di, fid, n0, n, total);
    InLastCost(n0, n);
    assert (b - DIRECT) / SINDIR <= (n0 - DIRECT) / SINDIR;
    assert Holds(own, TableBlock(ino, di, (b - DIRECT) / SINDIR), Role(fid, Table((b - DIRECT) / SINDIR)));
  }

  // ---------------------------------------------------------------- what the write leaves

  /**
   All of the data counts as written. The file has it up to its old end and is longer; what was meant for the
   blocks it did not get is in the header. Its tables, the bitmap, the directory and other files are as before.
  */
  ghost predicate WentToHeader(d0: Disk, own: Owners, d: Disk, r: int, fid: nat, data: seq<Byte>, offset: nat) {
    && 3 <= |d| == |d0| && r == |data| && offset + |data| < 0x1_0000_0000
    && At(d, fid) == At(d0, fid)[0 := offset + |data|]
    && (forall b :: 0 <= b < NumBlocks(FileSize(d0, fid)) ==>
         BlockOf(d, fid, b) == Overlay(BlockOf(d0, fid, b), b, data, offset))
    && Carries(d[0], LastOf(|data|, offset), data, offset)
    && (forall x :: 0 < x < |d0| && x != fid && Spared(own, fid, x) ==> d[x] == d0[x])
  }

  /** A system block, or one in use, but for the data of the file. */
  ghost predicate Spared(own: Owners, fid: nat, x: nat) {
    x < 3 || (x in own && !(own[x].fid == fid && own[x].slot.Data?))
  }

  /** The blocks after the loop. */
  lemma TailBlocks(d0: Disk, own: Owners, d1: Disk, ino: WordBlock, di: WordBlock, fid: nat, n0: nat, n: nat,
                   total: nat, b1: nat, data: seq<Byte>, offset: nat, d2: Disk, r: int)
    requires TailOpen(d0, own, d1, ino, di, fid, n0, n, total) && b1 == offset / BLOCK_SIZE && b1 < n <= MAX_BLOCKS
    requires Outcome(d1, DataTargets(d1, ino, di, n), b1, data, offset, d2, r)
    ensures r == |data| && 0 < |d2| == |d1| && Carries(d2[0], n - 1, data, offset)
    ensures forall x :: 0 < x < |d1| && Spared(own, fid, x) ==> d2[x] == d1[x]
    ensures forall b :: 0 <= b < n0 ==>
              var p := Ptr(d1, ino, di, b); p < |d1| && d2[p] == Overlay(d1[p], b, data, offset)
  {
    hide TailOpen; hide Ptr; hide At; hide Overlay; hide Pass; hide Carries;
    TailSteady(d0, own, d1, ino, di, fid, n0, n, total, b1);
    var tgt := DataTargets(d1, ino, di, n);
    assert d2 == Pass(d1, tgt, b1, n, data, offset);
    TailPtr(d0, own, d1, ino, di, fid, n0, n, total, n - 1);
    TailShorter(d0, own, d1, ino, di, fid, n0, n, total);
    PassLast(d1, tgt, b1, n, data, offset, n - 1);
    OverlayCarries(Pass(d1, tgt, b1, n - 1, data, offset)[0], n - 1, data, offset);
    forall x | 0 < x < |d1| && Spared(own, fid, x)
      ensures d2[x] == d1[x]
    {
      forall c | b1 <= c < n
        ensures tgt[c] != x
      {
        TailPtr(d0, own, d1, ino, di, fid, n0, n, total, c);
      }
      PassFrame(d1, tgt, b1, n, data, offset, x);
    }
    forall b | 0 <= b < n0
      ensures var p := Ptr(d1, ino, di, b); p < |d1| && d2[p] == Overlay(d1[p], b, data, offset)
    {
      TailBlock(d0, own, d1, ino, di, fid, n0, n, total, b1, data, offset, b);
    }
  }

  lemma TailShorter(d0: Disk, own: Owners, d1: Disk, ino: WordBlock, di: WordBlock, fid: nat, n0: nat, n: nat,
                    total: nat)
    requires TailOpen(d0, own, d1, ino, di, fid, n0, n, total)
    ensures n0 < n && |d1| == |d0| && 3 <= fid < |d0| && Holds(own, fid, Role(fid, Self))
  {
    hide At; hide Bit; hide DirOk; hide IsFile;
    FileIsOk(d0, own, total, fid);
  }

  lemma TailBlock(d0: Disk, own: Owners, d1: Disk, ino: WordBlock, di: WordBlock, fid: nat, n0: nat, n: nat,
                  total: nat, b1: nat, data: seq<Byte>, offset: nat, b: nat)
    requires TailOpen(d0, own, d1, ino, di, fid, n0, n, total) && b1 == offset / BLOCK_SIZE && b1 < n <= MAX_BLOCKS
    requires OnDisk(d1, DataTargets(d1, ino, di, n)) && b < n0 < n
    ensures var p := Ptr(d1, ino, di, b);
            p < |d1| && Pass(d1, DataTargets(d1, ino, di, n), b1, n, data, offset)[p] == Overlay(d1[p], b, data, offset)
  {
    hide TailOpen; hide Ptr; hide At; hide Overlay; hide Pass;
    var tgt, p := DataTargets(d1, ino, di, n), Ptr(d1, ino, di, b);
    TailPtr(d0, own, d1, ino, di, fid, n0, n, total, b);
    forall c | 0 <= c < n && c != b
      ensures tgt[c] != p
    {
      TailPtr(d0, own, d1, ino, di, fid, n0, n, total, c);
    }
    if b >= b1 {
      PassOnce(d1, tgt, b1, n, data, offset, b);
    } else {
      PassFrame(d1, tgt, b1, n, data, offset, p);
      BeforeOffset(d1[p], b, data, offset);
    }
  }

  /** ... and with the inode written. */
  lemma TailDone(d0: Disk, own: Owners, d1: Disk, ino: WordBlock, di: WordBlock, fid: nat, n0: nat, n: nat,
                 total: nat, b1: nat, data: seq<Byte>, offset: nat, d2: Disk, r: int)
    requires TailOpen(d0, own, d1, ino, di, fid, n0, n, total) && b1 == offset / BLOCK_SIZE && b1 < n <= MAX_BLOCKS
    requires 0 < |data| && n == LastOf(|data|, offset) + 1 && offset + |data| < 0x1_0000_0000
    requires Outcome(d1, DataTargets(d1, ino, di, n), b1, data, offset, d2, r)
    ensures fid < |d2| && ino[0] == FileSize(d0, fid) && r == |data|
    ensures WentToHeader(d0, own, Final(d2, fid, ino, ino[0], offset, |data|), r, fid, data, offset)
  {
    hide Ptr; hide Overlay; hide Carries; hide Outcome; hide Decode; hide Encode; hide Volume; hide IsFile;
    hide InLastTable;
    TailBlocks(d0, own, d1, ino, di, fid, n0, n, total, b1, data, offset, d2, r);
    TailShorter(d0, own, d1, ino, di, fid, n0, n, total);
    var d := Final(d2, fid, ino, ino[0], offset, |data|);
    DecodeEncode(ino[0 := offset + |data|]);
    assert At(d, fid) == ino[0 := offset + |data|];
    forall b | 0 <= b < n0
      ensures BlockOf(d, fid, b) == Overlay(BlockOf(d0, fid, b), b, data, offset)
    {
      TailBlockOf(d0, own, d1, ino, di, fid, n0, n, total, data, offset, d2, d, b);
    }
    forall x | 0 < x < |d0| && x != fid && Spared(own, fid, x)
      ensures d[x] == d0[x]
    {
    }
  }

  lemma TailBlockOf(d0: Disk, own: Owners, d1: Disk, ino: WordBlock, di: WordBlock, fid: nat, n0: nat, n: nat,
                    total: nat, data: seq<Byte>, offset: nat, d2: Disk, d: Disk, b: nat)
    requires TailOpen(d0, own, d1, ino, di, fid, n0, n, total) && b < n0 && |d2| == |d1| == |d|
    requires forall x :: 0 < x < |d1| && Spared(own, fid, x) ==> d2[x] == d1[x]
    requires var p := Ptr(d1, ino, di, b); p < |d1| && d2[p] == Overlay(d1[p], b, data, offset)
    requires forall x :: 0 <= x < |d| && x != fid ==> d[x] == d2[x]
    requires fid < |d| && offset + |data| < 0x1_0000_0000 && At(d, fid) == ino[0 := offset + |data|]
    ensures BlockOf(d, fid, b) == Overlay(BlockOf(d0, fid, b), b, data, offset)
  {
    hide Ptr; hide Overlay; hide Decode; hide Volume; hide IsFile; hide InLastTable;
    TailTree(d0, own, d1, ino, di, fid, n0, n, total);
    TailPtr(d0, own, d1, ino, di, fid, n0, n, total, b);
    TailShorter(d0, own, d1, ino, di, fid, n0, n, total);
    forall x | 0 < x < |d1| && x != fid && Spared(own, fid, x)
      ensures d[x] == d1[x]
    {
      assert d2[x] == d1[x];
    }
    SparedTree(d1, d, fid, ino, di, n0, own, At(d, fid)[0], total);
  }

  /** The file is found through the same pointers as before. */
  lemma SparedTree(d1: Disk, d: Disk, fid: nat, ino: WordBlock, di: WordBlock, n0: nat, own: Owners, size: Word,
                   total: nat)
    requires OpenTree(d1, fid, ino, di, n0, own) && Sound(VolumeImage(d1, own), total) && |d| == |d1|
             && Holds(own, fid, Role(fid, Self)) && n0 <= MAX_BLOCKS
    requires forall x :: 0 < x < |d1| && x != fid && Spared(own, fid, x) ==> d[x] == d1[x]
    ensures Kept(d1, ino, di, d, ino[0 := size], At(d, ino[9]), n0)
  {
    hide Ptr; hide Decode; hide Bit; hide TailZero; hide DirectZero; hide DoubleZero; hide DataOwned;
    TreeCoreFrame(d1, d, fid, ino, di, n0, own, own);
    SizeIrrelevant(d, fid, ino, di, n0, own, size);
    OpenTreeIsTree(d, fid, ino[0 := size], di, n0, own);
  }

  // ---------------------------------------------------------------- no volume is left

  /** The pointer of a block past the end is zero still. */
  lemma TailStillZero(d0: Disk, own: Owners, d: Disk, fid: nat, total: nat, n0: nat, b2: nat)
    requires Volume(d0, own, total) && FileOk(d0, own, fid) && n0 == NumBlocks(FileSize(d0, fid)) <= b2 < MAX_BLOCKS
             && InLastTable(n0, b2 + 1) && |d| == |d0|
    requires forall k :: 1 <= k < WORDS_PER_BLOCK ==> At(d, fid)[k] == At(d0, fid)[k]
    requires forall x :: 0 < x < |d0| && x != fid && Spared(own, fid, x) ==> d[x] == d0[x]
    ensures Ptr(d, At(d, fid), At(d, At(d, fid)[9]), b2) == 0
  {
    hide Decode; hide Bit; hide DirOk; hide IsFile; hide OwnersClosed; hide Live;
    var ino, ino' := At(d0, fid), At(d, fid);
    var di, di', g := At(d0, ino[9]), At(d, ino'[9]), (b2 - DIRECT) / SINDIR;
    assert g == (n0 - DIRECT) / SINDIR;
    assert Holds(own, TableBlock(ino, di, g), Role(fid, Table(g)));
    assert n0 > DIRECT + SINDIR ==> di' == di;
    assert Ptr(d, ino', di', b2) == Ptr(d0, ino, di, b2) == 0;
  }

  /** In a volume, no pointer of a file's data is zero. */
  lemma DataIsMarked(d: Disk, own: Owners, fid: nat, total: nat, b: nat)
    requires Volume(d, own, total) && IsFile(d[DIRECTORY_BLOCK], fid) && b < NumBlocks(FileSize(d, fid))
    ensures b < MAX_BLOCKS && Ptr(d, At(d, fid), At(d, At(d, fid)[9]), b) >= 3
  {
    hide Decode; hide Bit; hide DirOk; hide IsFile; hide Ptr;
    FileIsOk(d, own, total, fid);
    assert Holds(own, Ptr(d, At(d, fid), At(d, At(d, fid)[9]), b), Role(fid, Data(b)));
  }

  /** Growth within the last table that runs out is answered with success, and breaks the volume. */
  lemma LastTableBreaks(d0: Disk, own: Owners, d: Disk, r: int, fid: nat, data: seq<Byte>, offset: nat, total: nat)
    requires Volume(d0, own, total) && IsFile(d0[DIRECTORY_BLOCK], fid) && 0 < |data|
    requires var n0, n := NumBlocks(FileSize(d0, fid)), LastOf(|data|, offset) + 1; n0 < n && InLastTable(n0, n)
    requires WentToHeader(d0, own, d, r, fid, data, offset)
    ensures forall owners :: !Volume(d, owners, total)
  {
    hide IsFile; hide Volume; hide BlockOf; hide Carries; hide Overlay; hide At; hide InLastTable; hide Ptr;
    var n0, b2 := NumBlocks(FileSize(d0, fid)), LastOf(|data|, offset);
    FileIsOk(d0, own, total, fid);
    assert d[DIRECTORY_BLOCK] == d0[DIRECTORY_BLOCK] && NumBlocks(FileSize(d, fid)) == b2 + 1;
    forall owners
      ensures !Volume(d, owners, total)
    {
      if Volume(d, owners, total) {
        DataIsMarked(d, owners, fid, total, b2);
        TailStillZero(d0, own, d, fid, total, n0, b2);
      }
    }
  }
}
