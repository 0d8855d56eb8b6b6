/**
 Writes that find the disk full where the driver does not look. flatfs_write ignores what
 flatfs_alloc_blocks answers and goes on with the inode and table buffers that call left behind.
 This module says what the buffers hold then, for a file without a table that grows within the first 135
 blocks, and what happens if a pointer got no block.
*/
module FlatFailures {
  import opened Words
  import opened Bitmaps
  import opened FlatLayout
  import opened FlatGrowth
  import opened FlatVolume
  import opened FlatData
  import opened FlatWriting
  import opened Directories

  /** Growing file fid of volume d0 from n0 to n blocks ran out and left m. */
  ghost predicate Stopped(d0: Disk, own: Owners, m: Image, fid: nat, n0: nat, n: nat, f: nat, total: nat) {
    && Volume(d0, own, total) && IsFile(d0[DIRECTORY_BLOCK], fid) && n0 == NumBlocks(FileSize(d0, fid))
    && RunsOut(n0, n, f) && n <= MAX_BLOCKS && |m.bat| == 128 && |d0| <= NO_TABLE
    && RanOut(OldImage(d0, own, fid), m, fid, n0, TakenFor(n0, n, f), total)
  }

  /** The pointer at which it stopped: 7 for that of the single-indirect table, 8 for one in it. */
  function StopOf(n0: nat, n: nat, f: nat): nat
    requires RunsOut(n0, n, f)
  {
    StopsAt(n0, TakenFor(n0, n, f))
  }

  lemma StopInRange(n0: nat, n: nat, f: nat)
    requires RunsOut(n0, n, f)
    ensures n0 <= DIRECT && StopOf(n0, n, f) <= DIRECT + 1
    ensures StopOf(n0, n, f) <= DIRECT ==> n0 <= StopOf(n0, n, f) < n
    ensures StopOf(n0, n, f) > DIRECT ==> n > DIRECT
  {
  }

  // ---------------------------------------------------------------- what the buffers hold

  /** The direct pointers: old blocks of the file, then blocks nobody had. */
  lemma DirectTargets(d0: Disk, own: Owners, m: Image, fid: nat, n0: nat, n: nat, f: nat, total: nat, b: nat)
    requires Stopped(d0, own, m, fid, n0, n, f, total) && b < DIRECT && b < StopOf(n0, n, f)
    ensures var p := DirectBlock(m.ino, b);
            && 3 <= p < total <= |d0| && |m.d| == |d0|
            && (b < n0 ==> Holds(own, p, Role(fid, Data(b))) && p == Ptr(d0, At(d0, fid), At(d0, At(d0, fid)[9]), b))
            && (b >= n0 ==> p !in own && p < 4096 && !Bit(At(d0, ALLOCATION_BLOCK), p))
  {
    hide Decode; hide Bit; hide DirOk; hide IsFile;
    FileIsOk(d0, own, total, fid);
    if b < n0 {
      assert Holds(own, Ptr(d0, At(d0, fid), At(d0, At(d0, fid)[9]), b), Role(fid, Data(b)));
      assert DirectBlock(m.ino, b) == DirectBlock(At(d0, fid), b);
    }
  }

  /** Distinct blocks have distinct direct pointers. */
  lemma DirectDistinct(d0: Disk, own: Owners, m: Image, fid: nat, n0: nat, n: nat, f: nat, total: nat, b: nat, c: nat)
    requires Stopped(d0, own, m, fid, n0, n, f, total) && b < n0 && c != b && b < DIRECT && c < DIRECT
             && c < StopOf(n0, n, f)
    ensures DirectBlock(m.ino, b) != DirectBlock(m.ino, c)
  {
    hide RunsOut; hide Volume; hide RanOut; hide IsFile; hide StopOf;
    StopInRange(n0, n, f);
    DirectTargets(d0, own, m, fid, n0, n, f, total, b);
    DirectTargets(d0, own, m, fid, n0, n, f, total, c);
  }

  // ---------------------------------------------------------------- a pointer that got no block

  /** The loop comes to that pointer, and no further. */
  lemma CutAtStop(d0: Disk, own: Owners, m: Image, fid: nat, n0: nat, n: nat, f: nat, total: nat, b1: nat, b2: nat)
    requires Stopped(d0, own, m, fid, n0, n, f, total) && StopOf(n0, n, f) <= DIRECT && b1 <= n0 && b2 + 1 == n
    ensures n0 <= StopOf(n0, n, f) <= b2 && |m.d| == |d0| && CutFrom(m.d, m.ino, b1, LowEndOf(b2)) == StopOf(n0, n, f)
  {
    hide RunsOut; hide Volume; hide IsFile; hide At; hide Grew; hide Bit;
    StopInRange(n0, n, f);
    var k := StopOf(n0, n, f);
    StopNotOnDisk(d0, own, m, fid, n0, n, f, total);
    forall b | b1 <= b < k
      ensures LowTarget(m.d, m.ino, b) < |m.d|
    {
      DirectTargets(d0, own, m, fid, n0, n, f, total, b);
    }
  }

  lemma StopNotOnDisk(d0: Disk, own: Owners, m: Image, fid: nat, n0: nat, n: nat, f: nat, total: nat)
    requires Stopped(d0, own, m, fid, n0, n, f, total) && StopOf(n0, n, f) <= DIRECT
    ensures |m.d| == |d0| && LowTarget(m.d, m.ino, StopOf(n0, n, f)) >= |m.d|
  {
    hide At; hide Volume; hide IsFile; hide Bit;
  }

  lemma CutSteady(d0: Disk, own: Owners, m: Image, fid: nat, n0: nat, n: nat, f: nat, total: nat, di: WordBlock,
                  b1: nat, b2: nat)
    requires Stopped(d0, own, m, fid, n0, n, f, total) && StopOf(n0, n, f) <= DIRECT && b1 <= n0 && b2 + 1 == n
    ensures b1 <= DIRECT && Steady(m.d, m.ino, di, LowTargets(m.d, m.ino, b1, b2), b1, b2)
    ensures |LowTargets(m.d, m.ino, b1, b2)| == StopOf(n0, n, f) + 1
  {
    hide Volume; hide IsFile; hide RunsOut; hide RanOut; hide Steady; hide LowTarget; hide CutFrom; hide StopOf;
    CutAtStop(d0, own, m, fid, n0, n, f, total, b1, b2);
    StopInRange(n0, n, f);
    if b2 >= DIRECT + SINDIR {
      assert LowEndOf(b2) == DIRECT + SINDIR;
    }
    NoTableYet(d0, own, m, fid, n0, n, f, total, b1, b2);
    LowSteady(m.d, m.ino, di, b1, b2);
  }

  lemma NoTableYet(d0: Disk, own: Owners, m: Image, fid: nat, n0: nat, n: nat, f: nat, total: nat, b1: nat, b2: nat)
    requires Stopped(d0, own, m, fid, n0, n, f, total) && StopOf(n0, n, f) <= DIRECT
    ensures StopOf(n0, n, f) == DIRECT ==> m.ino[8] >= |m.d|
  {
    hide Volume; hide IsFile; hide At; hide Bit;
  }

  /** What the loop did to the blocks in use: the file's own are overlaid, all others as they were. */
  lemma CutBlocks(d0: Disk, own: Owners, m: Image, fid: nat, n0: nat, n: nat, f: nat, total: nat, b1: nat, b2: nat,
                  data: seq<Byte>, offset: nat, d2: Disk, r: int)
    requires Stopped(d0, own, m, fid, n0, n, f, total) && StopOf(n0, n, f) <= DIRECT && b1 <= n0 && b2 + 1 == n
             && b1 <= DIRECT
    requires Outcome(m.d, LowTargets(m.d, m.ino, b1, b2), b1, data, offset, d2, r) && b1 == offset / BLOCK_SIZE
    ensures r == VFS_ERROR && |d2| == |d0| && n0 <= DIRECT
    ensures forall b {:trigger DirectBlock(At(d0, fid), b)} :: 0 <= b < n0 ==>
              var p := DirectBlock(At(d0, fid), b); p < |d0| && d2[p] == Overlay(d0[p], b, data, offset)
    ensures forall x :: 0 <= x < |d0| && (x < 3 || x in own)
              && (forall b {:trigger DirectBlock(At(d0, fid), b)} :: 0 <= b < n0 ==> DirectBlock(At(d0, fid), b) != x)
              ==> d2[x] == d0[x]
  {
    hide Volume; hide IsFile; hide RunsOut; hide Steady; hide CutFrom; hide StopOf; hide Bit; hide At; hide Overlay;
    hide Pass;
    hide DirectBlock; hide RanOut;
    var k, tgt := StopOf(n0, n, f), LowTargets(m.d, m.ino, b1, b2);
    StopInRange(n0, n, f);
    CutAtStop(d0, own, m, fid, n0, n, f, total, b1, b2);
    CutSteady(d0, own, m, fid, n0, n, f, total, ZeroWords(), b1, b2);
    StopNotOnDisk(d0, own, m, fid, n0, n, f, total);
    assert forall b :: 0 <= b < k ==> tgt[b] == DirectBlock(m.ino, b);
    assert tgt[k] == LowTarget(m.d, m.ino, k);
    assert d2 == Pass(m.d, tgt, b1, k, data, offset);
    forall b {:trigger DirectBlock(At(d0, fid), b)} | 0 <= b < n0
      ensures var p := DirectBlock(At(d0, fid), b); p < |d0| && d2[p] == Overlay(d0[p], b, data, offset)
    {
      CutOldBlock(d0, own, m, fid, n0, n, f, total, b1, data, offset, tgt, b);
    }
    forall x | 0 <= x < |d0| && (x < 3 || x in own) && forall b {:trigger DirectBlock(At(d0, fid), b)} ::
      0 <= b < n0 ==> DirectBlock(At(d0, fid), b) != x
      ensures d2[x] == d0[x]
    {
      CutOtherBlock(d0, own, m, fid, n0, n, f, total, b1, data, offset, tgt, x);
    }
  }

  lemma StoppedSame(d0: Disk, own: Owners, m: Image, fid: nat, n0: nat, n: nat, f: nat, total: nat, x: nat)
    requires Stopped(d0, own, m, fid, n0, n, f, total) && x < |d0| && (x < 3 || x in own)
    ensures |m.d| == |d0| && m.d[x] == d0[x]
  {
    hide At; hide DirOk; hide IsFile;
  }

  lemma CutOldBlock(d0: Disk, own: Owners, m: Image, fid: nat, n0: nat, n: nat, f: nat, total: nat, b1: nat,
                    data: seq<Byte>, offset: nat, tgt: seq<Word>, b: nat)
    requires Stopped(d0, own, m, fid, n0, n, f, total) && StopOf(n0, n, f) <= DIRECT && b1 == offset / BLOCK_SIZE
             && b < n0
    requires b1 <= StopOf(n0, n, f) < |tgt| && forall c :: 0 <= c < StopOf(n0, n, f) ==>
               c < DIRECT && tgt[c] == DirectBlock(m.ino, c)
    requires forall c :: b1 <= c < StopOf(n0, n, f) ==> tgt[c] < |m.d|
    ensures |m.d| == |d0| && b < DIRECT && DirectBlock(At(d0, fid), b) == DirectBlock(m.ino, b) < |d0|
    ensures var p := DirectBlock(m.ino, b);
              Pass(m.d, tgt, b1, StopOf(n0, n, f), data, offset)[p] == Overlay(d0[p], b, data, offset)
  {
    hide Volume; hide IsFile; hide RunsOut; hide StopOf; hide Bit; hide At; hide Overlay; hide Pass; hide DirectBlock;
    hide Grew;
    StopInRange(n0, n, f);
    var k, p := StopOf(n0, n, f), DirectBlock(m.ino, b);
    DirectTargets(d0, own, m, fid, n0, n, f, total, b);
    StoppedSame(d0, own, m, fid, n0, n, f, total, p);
    forall c | 0 <= c < k && c != b
      ensures tgt[c] != p
    {
      DirectDistinct(d0, own, m, fid, n0, n, f, total, b, c);
    }
    if b >= b1 {
      PassOnce(m.d, tgt, b1, k, data, offset, b);
    } else {
      PassFrame(m.d, tgt, b1, k, data, offset, p);
      BeforeOffset(d0[p], b, data, offset);
    }
  }

  lemma BeforeOffset(was: Block, b: nat, data: seq<Byte>, offset: nat)
    requires b < offset / BLOCK_SIZE
    ensures Overlay(was, b, data, offset) == was
  {
  }

  lemma CutOtherBlock(d0: Disk, own: Owners, m: Image, fid: nat, n0: nat, n: nat, f: nat, total: nat, b1: nat,
                      data: seq<Byte>, offset: nat, tgt: seq<Word>, x: nat)
    requires Stopped(d0, own, m, fid, n0, n, f, total) && StopOf(n0, n, f) <= DIRECT && x < |d0| && (x < 3 || x in own)
    requires b1 <= StopOf(n0, n, f) < |tgt| && forall c :: 0 <= c < StopOf(n0, n, f) ==>
               c < DIRECT && tgt[c] == DirectBlock(m.ino, c)
    requires forall c :: b1 <= c < StopOf(n0, n, f) ==> tgt[c] < |m.d|
    requires forall b {:trigger DirectBlock(At(d0, fid), b)} :: 0 <= b < n0 && b < DIRECT ==>
               DirectBlock(At(d0, fid), b) != x
    ensures |m.d| == |d0| && Pass(m.d, tgt, b1, StopOf(n0, n, f), data, offset)[x] == d0[x]
  {
    hide Volume; hide IsFile; hide RunsOut; hide StopOf; hide Bit; hide At; hide Overlay; hide Pass; hide DirectBlock;
    hide Grew;
    StoppedSame(d0, own, m, fid, n0, n, f, total, x);
    forall c | b1 <= c < StopOf(n0, n, f)
      ensures tgt[c] != x
    {
      DirectTargets(d0, own, m, fid, n0, n, f, total, c);
      if c < n0 {
        assert DirectBlock(At(d0, fid), c) == DirectBlock(m.ino, c);
      }
    }
    PassFrame(m.d, tgt, b1, StopOf(n0, n, f), data, offset, x);
  }

  /** The file's blocks overlaid, the rest in use as before: a volume whose file has new bytes up to its old end. */
  lemma OverlaidVolume(d0: Disk, own: Owners, d2: Disk, fid: nat, n0: nat, total: nat, data: seq<Byte>, offset: nat)
    requires Volume(d0, own, total) && IsFile(d0[DIRECTORY_BLOCK], fid) && n0 == NumBlocks(FileSize(d0, fid)) <= DIRECT
    requires |d2| == |d0| && offset <= FileSize(d0, fid) <= offset + |data|
    requires forall b {:trigger DirectBlock(At(d0, fid), b)} :: 0 <= b < n0 ==>
               var p := DirectBlock(At(d0, fid), b); p < |d0| && d2[p] == Overlay(d0[p], b, data, offset)
    requires forall x :: 0 <= x < |d0| && (x < 3 || x in own)
               && (forall b {:trigger DirectBlock(At(d0, fid), b)} :: 0 <= b < n0 ==> DirectBlock(At(d0, fid), b) != x)
              ==> d2[x] == d0[x]
    ensures Volume(d2, own, total) && d2[0] == d0[0] && d2[DIRECTORY_BLOCK] == d0[DIRECTORY_BLOCK]
            && d2[ALLOCATION_BLOCK] == d0[ALLOCATION_BLOCK]
    ensures Written(d0, d2, fid, data[..FileSize(d0, fid) - offset], offset)
  {
    hide DirOk; hide IsFile; hide Overlay; hide FileBytes; hide Contents; hide Bit; hide Splice; hide FileName;
    hide Volume;
    hide FileOk; hide Others; hide Sound; hide BlockOf; hide DirectBlock; hide At;
    FileIsOk(d0, own, total, fid);
    OverlaidFile(d0, own, d2, fid, n0, total, data, offset);
    VolumeOthers(d0, own, d2, own, fid, total);
    ContentsOthers(d0, own, d2, own, fid, total);
    OthersDirectory(d0, own, d2, own, fid, total);
    OverlaidBytes(d0, d2, fid, n0, data, offset);
  }

  lemma OverlaidBytes(d0: Disk, d2: Disk, fid: nat, n0: nat, data: seq<Byte>, offset: nat)
    requires n0 == NumBlocks(FileSize(d0, fid)) && At(d2, fid) == At(d0, fid)
             && offset <= FileSize(d0, fid) <= offset + |data|
    requires forall b :: 0 <= b < n0 ==> BlockOf(d2, fid, b) == Overlay(BlockOf(d0, fid, b), b, data, offset)
    ensures FileBytes(d2, fid) == Splice(FileBytes(d0, fid), offset, data[..FileSize(d0, fid) - offset])
  {
    hide BlockOf; hide At;
    var s0, s := FileBytes(d0, fid), FileBytes(d2, fid);
    forall i | 0 <= i < |s|
      ensures s[i] == if i < offset then s0[i] else data[i - offset]
    {
      var b, o := i / BLOCK_SIZE, i % BLOCK_SIZE;
      assert i == BLOCK_SIZE * b + o && b < n0;
      assert s[i] == Overlay(BlockOf(d0, fid, b), b, data, offset)[o];
    }
  }

  /** The file and its surroundings, block by block. */
  lemma OverlaidFile(d0: Disk, own: Owners, d2: Disk, fid: nat, n0: nat, total: nat, data: seq<Byte>, offset: nat)
    requires Volume(d0, own, total) && FileOk(d0, own, fid) && n0 == NumBlocks(FileSize(d0, fid)) <= DIRECT
             && |d2| == |d0|
    requires forall b {:trigger DirectBlock(At(d0, fid), b)} :: 0 <= b < n0 ==>
               var p := DirectBlock(At(d0, fid), b); p < |d0| && d2[p] == Overlay(d0[p], b, data, offset)
    requires forall x :: 0 <= x < |d0| && (x < 3 || x in own)
               && (forall b {:trigger DirectBlock(At(d0, fid), b)} :: 0 <= b < n0 ==> DirectBlock(At(d0, fid), b) != x)
              ==> d2[x] == d0[x]
    ensures At(d2, fid) == At(d0, fid) && FileOk(d2, own, fid) && Sound(VolumeImage(d2, own), total)
            && Others(d0, own, d2, own, fid) && d2[ALLOCATION_BLOCK] == d0[ALLOCATION_BLOCK]
    ensures forall b :: 0 <= b < n0 ==> BlockOf(d2, fid, b) == Overlay(BlockOf(d0, fid, b), b, data, offset)
  {
    hide DirOk; hide Overlay; hide Bit; hide Decode;
    var ino := At(d0, fid);
    var di := At(d0, ino[9]);
    forall b {:trigger DirectBlock(ino, b)} | 0 <= b < n0
      ensures Holds(own, DirectBlock(ino, b), Role(fid, Data(b)))
    {
      assert Holds(own, Ptr(d0, ino, di, b), Role(fid, Data(b)));
    }
    assert d2[0] == d0[0] && d2[ALLOCATION_BLOCK] == d0[ALLOCATION_BLOCK] && d2[DIRECTORY_BLOCK] == d0[DIRECTORY_BLOCK]
           && d2[fid] == d0[fid];
    TreeCoreFrame(d0, d2, fid, ino, di, n0, own, own);
  }

  /** Of the data, what lies before the old end of the file was written. */
  ghost predicate WrittenToEnd(d0: Disk, d: Disk, fid: nat, data: seq<Byte>, offset: nat) {
    offset <= FileSize(d0, fid) <= offset + |data| && Written(d0, d, fid, data[..FileSize(d0, fid) - offset], offset)
  }

  /** So the answer is an error, the volume is well formed, and the file has the data up to its old end. */
  lemma CutShortDone(d0: Disk, own: Owners, m: Image, fid: nat, n0: nat, n: nat, f: nat, total: nat, b1: nat, b2: nat,
                     data: seq<Byte>, offset: nat, d2: Disk, r: int)
    requires Stopped(d0, own, m, fid, n0, n, f, total) && StopOf(n0, n, f) <= DIRECT && b1 <= n0 && b2 + 1 == n
             && b1 <= DIRECT
    requires Outcome(m.d, LowTargets(m.d, m.ino, b1, b2), b1, data, offset, d2, r)
    requires b1 == offset / BLOCK_SIZE && offset <= FileSize(d0, fid) <= offset + |data|
    ensures r == VFS_ERROR && Volume(d2, own, total) && d2[0] == d0[0] && d2[DIRECTORY_BLOCK] == d0[DIRECTORY_BLOCK]
            && d2[ALLOCATION_BLOCK] == d0[ALLOCATION_BLOCK]
    ensures WrittenToEnd(d0, d2, fid, data, offset)
  {
    hide RunsOut; hide RanOut; hide Volume; hide IsFile; hide Outcome; hide StopOf; hide Written; hide At;
    hide DirectBlock; hide Overlay;
    CutBlocks(d0, own, m, fid, n0, n, f, total, b1, b2, data, offset, d2, r);
    OverlaidVolume(d0, own, d2, fid, n0, total, data, offset);
  }

  /** An error that is not without effect: users see a change exactly if the data differs from the bytes it replaced. */
  lemma ErrorChangesExactly(d0: Disk, own: Owners, d2: Disk, fid: nat, data: seq<Byte>, offset: nat, total: nat)
    requires Volume(d0, own, total) && WrittenToEnd(d0, d2, fid, data, offset)
    ensures Contents(d2) == Contents(d0) <==> FileBytes(d0, fid)[offset..] == data[..FileSize(d0, fid) - offset]
  {
    hide FileBytes; hide At; hide DirOk; hide Contents; hide Splice; hide IsFile; hide FileName; hide OwnersClosed;
    hide FileOk;
    hide Sound; hide Live;
    NameOfFile(d0, fid);
    SpliceSame(FileBytes(d0, fid), offset, data[..FileSize(d0, fid) - offset]);
    MapSame(Contents(d0), FileName(d0[DIRECTORY_BLOCK], fid), FileBytes(d2, fid));
  }

  lemma SpliceSame(s: seq<Byte>, offset: nat, data: seq<Byte>)
    requires offset + |data| == |s|
    ensures Splice(s, offset, data) == s <==> s[offset..] == data
  {
    assert s == s[..offset] + s[offset..];
    assert Splice(s, offset, data)[offset..] == data;
  }

  lemma MapSame(m: map<Name, seq<Byte>>, k: Name, v: seq<Byte>)
    requires k in m
    ensures m[k := v] == m <==> v == m[k]
  {
    assert m[k := v][k] == v;
  }

  lemma NameOfFile(d: Disk, fid: nat)
    requires |d| > DIRECTORY_BLOCK && IsFile(d[DIRECTORY_BLOCK], fid) && DirOk(d[DIRECTORY_BLOCK])
    ensures FileName(d[DIRECTORY_BLOCK], fid) in Contents(d)
            && Contents(d)[FileName(d[DIRECTORY_BLOCK], fid)] == FileBytes(d, fid)
  {
    hide FileBytes; hide EntryInode; hide EntryName; hide DirOk; hide Names; hide FindEntry; hide Listing; hide Live;
    hide IsFile;
    var md, nm := d[DIRECTORY_BLOCK], FileName(d[DIRECTORY_BLOCK], fid);
    FileNameUnique(md, fid, nm);
    ListingOf(md, FilesOf(d), nm);
  }
}
