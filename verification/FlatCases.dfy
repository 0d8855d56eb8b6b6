/**
 When each of these failures happens, by the number of free blocks, and that there is no other for growth
 within the first 135 blocks or within the last table of a file.
*/
module FlatCases {
  import opened Words
  import opened Bitmaps
  import opened FlatLayout
  import opened FlatGrowth
  import opened FlatVolume
  import opened FlatData
  import opened FlatWriting
  import opened FlatFailures
  import opened FlatStray
  import opened FlatTail
  import opened Directories

  /** The free blocks do not reach to the end of the direct blocks, or not to the first table. */
  ghost predicate StopsShort(d: Disk, fileid: int, len: nat, offset: int, total: nat) {
    && total <= 4096 && |d| <= NO_TABLE && Grows(d, fileid, len, offset, total)
    && var n0, n, f := NumBlocks(FileSize(d, fileid)), LastOf(len, offset) + 1,
         FreeCount(At(d, ALLOCATION_BLOCK), total);
       RunsOut(n0, n, f) && StopOf(n0, n, f) <= DIRECT
  }

  /** They run out in a first single-indirect table, and the file is to end in it. */
  ghost predicate StopsInTable(d: Disk, fileid: int, len: nat, offset: int, total: nat) {
    && total <= 4096 && |d| <= NO_TABLE && Grows(d, fileid, len, offset, total)
    && var n0, n, f := NumBlocks(FileSize(d, fileid)), LastOf(len, offset) + 1,
         FreeCount(At(d, ALLOCATION_BLOCK), total);
       RunsOut(n0, n, f) && StopOf(n0, n, f) > DIRECT && n <= DIRECT + SINDIR
  }

  /** They run out in the last table the file has, and the file is to end in it. */
  ghost predicate StopsInLast(d: Disk, fileid: int, len: nat, offset: int, total: nat) {
    && total <= 4096 && Grows(d, fileid, len, offset, total)
    && var n0, n, f := NumBlocks(FileSize(d, fileid)), LastOf(len, offset) + 1,
         FreeCount(At(d, ALLOCATION_BLOCK), total);
       TailFails(n0, n - n0, f)
  }

  /** A write that gets past the checks and needs more blocks. */
  ghost predicate Grows(d: Disk, fileid: int, len: nat, offset: int, total: nat) {
    2 <= fileid < total && 0 <= offset && 0 < len && offset <= FileSize(d, fileid)
      && NumBlocks(FileSize(d, fileid)) <= LastOf(len, offset)
  }

  /**
   Growth that ends within the first 135 blocks, or within the last table of the file, finds room, or finds
   at once that there is none; or it stops at a pointer, in a first table, or in the last one. The last
   three exclude each other and the first two.
  */
  lemma GrowthCases(d: Disk, fileid: int, len: nat, offset: int, total: nat)
    requires total <= 4096 && |d| <= NO_TABLE && Grows(d, fileid, len, offset, total)
    requires LastOf(len, offset) < DIRECT + SINDIR
             || InLastTable(NumBlocks(FileSize(d, fileid)), LastOf(len, offset) + 1)
    requires LastOf(len, offset) < MAX_BLOCKS
    ensures WriteFits(d, fileid, len, offset, total) <==>
              !StopsShort(d, fileid, len, offset, total) && !StopsInTable(d, fileid, len, offset, total)
              && !StopsInLast(d, fileid, len, offset, total)
    ensures !(StopsShort(d, fileid, len, offset, total) && StopsInTable(d, fileid, len, offset, total))
    ensures StopsInLast(d, fileid, len, offset, total) ==> !Fails(d, fileid, len, offset, total)
  {
    hide At; hide FreeCount; hide StopsAt; hide Cost;
    var n0, n, f := NumBlocks(FileSize(d, fileid)), LastOf(len, offset) + 1, FreeCount(At(d, ALLOCATION_BLOCK), total);
    NeedSplits(n0, n);
    CostMonotone(AtLeastOne(n0), n);
    if InLastTable(n0, n) {
      InLastHead(n0, n);
    } else if n0 > DIRECT {
      BeforeTable(n0, n);
    }
  }

  /** Growth within the first 135 blocks of a file with a table is growth within its last table. */
  lemma BeforeTable(n0: nat, n: nat)
    requires DIRECT < n0 < n <= DIRECT + SINDIR
    ensures InLastTable(n0, n)
  {
  }

  /** In terms of free blocks: a file that ends within its direct blocks always stops short. */
  lemma WithinDirect(d: Disk, fileid: int, len: nat, offset: int, total: nat)
    requires total <= 4096 && |d| <= NO_TABLE && Grows(d, fileid, len, offset, total) && LastOf(len, offset) < DIRECT
    ensures var n0, n, f := NumBlocks(FileSize(d, fileid)), LastOf(len, offset) + 1, FreeCount(At(d, ALLOCATION_BLOCK),
                                      total);
            StopsShort(d, fileid, len, offset, total) <==> HeadNeed(n0, n) <= f < GrowNeed(n0, n)
  {
    hide At; hide FreeCount;
  }

  /** One that ends within its last table finds room exactly for enough data blocks, and fails in it otherwise. */
  lemma WithinLast(d: Disk, fileid: int, len: nat, offset: int, total: nat)
    requires total <= 4096 && Grows(d, fileid, len, offset, total) && LastOf(len, offset) < MAX_BLOCKS
    requires InLastTable(NumBlocks(FileSize(d, fileid)), LastOf(len, offset) + 1)
    ensures var n0, n, f := NumBlocks(FileSize(d, fileid)), LastOf(len, offset) + 1, FreeCount(At(d, ALLOCATION_BLOCK),
                                      total);
            && (WriteFits(d, fileid, len, offset, total) <==> f >= n - n0)
            && (StopsInLast(d, fileid, len, offset, total) <==> f < n - n0)
  {
    hide At; hide FreeCount; hide InLastTable; hide Cost;
    var n0, n := NumBlocks(FileSize(d, fileid)), LastOf(len, offset) + 1;
    InLastHead(n0, n);
    NeedSplits(n0, n);
  }

  /** A loop of targets after a failing allocation. */
  ghost predicate Fails(d: Disk, fileid: int, len: nat, offset: int, total: nat) {
    StopsShort(d, fileid, len, offset, total) || StopsInTable(d, fileid, len, offset, total)
  }

  /**
   What a write answers and leaves. If it finds room the volume stands, and either the data is in the file and
   just the blocks of the growth are taken, or no block in use has changed; if a pointer gets no block, the
   volume stands, with the data up to the old end; in a table that runs out, the data goes elsewhere.
  */
  ghost predicate WriteAnswers(d0: Disk, own0: Owners, d: Disk, own: Owners, r: int, fileid: int, data: seq<Byte>,
                               offset: int, total: nat)
    requires |d0| > DIRECTORY_BLOCK && total <= 4096
  {
    && (WriteFits(d0, fileid, |data|, offset, total) ==>
          && Volume(d, own, total) && d[0] == d0[0] && d[DIRECTORY_BLOCK] == d0[DIRECTORY_BLOCK]
          && r == WriteCode(d0, fileid, |data|, offset, total)
          && (r <= 0 ==> Untouched(d0, d, own0) && own == own0 && Contents(d) == Contents(d0))
          && (r > 0 ==> Written(d0, d, fileid, data, offset)
                        && WriteTook(d0, own0, d, own, fileid, |data|, offset, total)))
    && (StopsShort(d0, fileid, |data|, offset, total) ==>
          && Volume(d, own, total) && d[0] == d0[0] && d[DIRECTORY_BLOCK] == d0[DIRECTORY_BLOCK]
          && d[ALLOCATION_BLOCK] == d0[ALLOCATION_BLOCK] && own == own0
          && r == VFS_ERROR && WrittenToEnd(d0, d, fileid, data, offset))
    && (StopsInTable(d0, fileid, |data|, offset, total) ==>
          WentAstray(d0, own0, d, r, fileid, data, offset, total))
    && (StopsInLast(d0, fileid, |data|, offset, total) ==> WentToHeader(d0, own0, d, r, fileid, data, offset))
  }

  /**
   The blocks a write of len bytes takes: those of the growth, for data, tables and the double-indirect block,
   and no other; without growth the bitmap is not written.
  */
  ghost predicate WriteTook(d0: Disk, own0: Owners, d: Disk, own: Owners, fid: nat, len: nat, offset: nat, total: nat)
    requires 0 < len && total <= 4096
  {
    var n0, n := NumBlocks(FileSize(d0, fid)), WriteBlocks(d0, fid, len, offset);
    && Took(d0, own0, d, own, n - n0 + Tables(n) - Tables(n0) + DoubleCount(n) - DoubleCount(n0), total)
    && (forall x :: x in own && x !in own0 ==> own[x].fid == fid)
    && (n == n0 ==> |d| == |d0| > DIRECTORY_BLOCK && d[ALLOCATION_BLOCK] == d0[ALLOCATION_BLOCK])
  }

  /** A write that finds room, in terms of free blocks. */
  lemma FitsParts(d: Disk, fid: nat, len: nat, offset: nat, total: nat)
    requires 2 <= fid < total <= 4096 && 0 < len && offset <= FileSize(d, fid)
    ensures var n0, n, f := NumBlocks(FileSize(d, fid)), LastOf(len, offset) + 1, FreeCount(At(d, ALLOCATION_BLOCK),
                              total);
            && (WriteStalls(d, fid, len, offset, total) <==> n0 < n && f < HeadNeed(n0, n))
            && (WriteFits(d, fid, len, offset, total) && n0 < n && f >= HeadNeed(n0, n) ==> f >= GrowNeed(n0, n))
  {
    hide At; hide FreeCount; hide HeadNeed; hide GrowNeed;
  }

  /** The first allocations of a growing write find the disk full. */
  lemma AnswersRefused(d0: Disk, own0: Owners, d: Disk, own: Owners, fid: nat, data: seq<Byte>, offset: nat, total: nat)
    requires |d0| > DIRECTORY_BLOCK && 2 <= fid < total <= 4096 && 0 < |data| && offset <= FileSize(d0, fid)
    requires Volume(d, own, total) && Contents(d) == Contents(d0) && Untouched(d0, d, own0) && own == own0
             && d[0] == d0[0] && d[DIRECTORY_BLOCK] == d0[DIRECTORY_BLOCK]
    requires var n0, n := NumBlocks(FileSize(d0, fid)), LastOf(|data|, offset) + 1;
             n0 < n && FreeCount(At(d0, ALLOCATION_BLOCK), total) < HeadNeed(n0, n)
    ensures WriteAnswers(d0, own0, d, own, VFS_ERROR, fid, data, offset, total)
  {
    hide At; hide FreeCount; hide Contents; hide LowFails; hide StopsAt; hide InLastTable; hide Written;
    hide WrittenToEnd; hide WentAstray; hide WentToHeader; hide Volume; hide HeadNeed; hide WriteTook;
    var n0, n := NumBlocks(FileSize(d0, fid)), LastOf(|data|, offset) + 1;
    if InLastTable(n0, n) {
      InLastHead(n0, n);
    }
  }

  /** The write finds room, and the file has the data. */
  lemma AnswersWritten(d0: Disk, own0: Owners, d: Disk, own: Owners, fid: nat, data: seq<Byte>, offset: nat, total: nat)
    requires |d0| > DIRECTORY_BLOCK && 2 <= fid < total <= 4096 && 0 < |data| && offset <= FileSize(d0, fid)
    requires Volume(d, own, total) && d[0] == d0[0] && d[DIRECTORY_BLOCK] == d0[DIRECTORY_BLOCK]
             && Written(d0, d, fid, data, offset) && WriteTook(d0, own0, d, own, fid, |data|, offset, total)
    requires WriteFits(d0, fid, |data|, offset, total) && !WriteStalls(d0, fid, |data|, offset, total)
    ensures WriteAnswers(d0, own0, d, own, |data|, fid, data, offset, total)
  {
    hide WriteFits; hide Contents; hide StopsShort; hide StopsInTable; hide StopsInLast; hide Written; hide At;
    hide WrittenToEnd; hide WentAstray; hide WentToHeader; hide Volume; hide WriteStalls; hide WriteTook;
    FailsIsNotFits(d0, fid, |data|, offset, total);
  }

  /** The write fails in one of the three ways, or in one that nothing is said of. */
  lemma AnswersFailed(d0: Disk, own0: Owners, d: Disk, own: Owners, r: int, fid: nat, data: seq<Byte>, offset: nat,
                      total: nat)
    requires |d0| > DIRECTORY_BLOCK && total <= 4096 && !WriteFits(d0, fid, |data|, offset, total)
    requires StopsShort(d0, fid, |data|, offset, total) ==>
               r == VFS_ERROR && Volume(d, own, total) && |d| > DIRECTORY_BLOCK
                 && d[ALLOCATION_BLOCK] == d0[ALLOCATION_BLOCK] && own == own0
                 && d[0] == d0[0] && d[DIRECTORY_BLOCK] == d0[DIRECTORY_BLOCK] && WrittenToEnd(d0, d, fid, data, offset)
    requires StopsInTable(d0, fid, |data|, offset, total) ==> WentAstray(d0, own0, d, r, fid, data, offset, total)
    requires StopsInLast(d0, fid, |data|, offset, total) ==> WentToHeader(d0, own0, d, r, fid, data, offset)
    ensures WriteAnswers(d0, own0, d, own, r, fid, data, offset, total)
  {
  }

  /** A failing write is not one that finds room. */
  lemma FailsIsNotFits(d: Disk, fileid: int, len: nat, offset: int, total: nat)
    ensures Fails(d, fileid, len, offset, total) ==>
              !WriteFits(d, fileid, len, offset, total) && !StopsInLast(d, fileid, len, offset, total)
    ensures StopsInLast(d, fileid, len, offset, total) ==> !WriteFits(d, fileid, len, offset, total)
  {
    hide At; hide FreeCount; hide StopsAt; hide Cost;
    if StopsInLast(d, fileid, len, offset, total) {
      var n0, n := NumBlocks(FileSize(d, fileid)), LastOf(len, offset) + 1;
      InLastHead(n0, n);
      NeedSplits(n0, n);
    }
    if Fails(d, fileid, len, offset, total) {
      var n0, n, f := NumBlocks(FileSize(d, fileid)), LastOf(len, offset) + 1, FreeCount(At(d, ALLOCATION_BLOCK),
                                total);
      NeedSplits(n0, n);
      LowFailsFails(AtLeastOne(n0), n - AtLeastOne(n0), f - HeadNeed(n0, n));
    }
  }

  /** What Expand leaves when the allocation fails unnoticed. */
  lemma FailureStopped(d0: Disk, own: Owners, m: Image, di: WordBlock, fid: nat, len: nat, offset: nat, r: int,
                       total: nat,
                       n0: nat, n: nat, f: nat)
    requires Volume(d0, own, total) && IsFile(d0[DIRECTORY_BLOCK], fid) && Fails(d0, fid, len, offset, total)
    requires n0 == NumBlocks(FileSize(d0, fid)) && n == LastOf(len, offset) + 1 && n0 < n <= MAX_BLOCKS
    requires total <= 4096 && f == FreeCount(At(d0, ALLOCATION_BLOCK), total)
    requires Expanded(d0, own, m.d, m.bat, m.own, m.ino, di, fid, n0, n, r, total) && m.di == ZeroWords()
    ensures Stopped(d0, own, m, fid, n0, n, f, total) && r == VFS_OK && m.ino[0] == FileSize(d0, fid)
    ensures StopsShort(d0, fid, len, offset, total) ==> StopOf(n0, n, f) <= DIRECT
    ensures StopsInTable(d0, fid, len, offset, total) ==> StopOf(n0, n, f) > DIRECT && n <= DIRECT + SINDIR
  {
    hide IsFile; hide RanOut; hide At; hide Volume; hide HeadNeed; hide GrowNeed; hide LowFails; hide StopOf;
    hide Session; hide Untouched;
    hide FreeCount;
  }

  /** ... and when it ran out in the last table. */
  lemma FailureTail(d0: Disk, own: Owners, d: Disk, bits: seq<Word>, own1: Owners, ino: WordBlock, di: WordBlock,
                    fid: nat, len: nat, offset: nat, r: int, total: nat, n0: nat, n: nat)
    requires Volume(d0, own, total) && IsFile(d0[DIRECTORY_BLOCK], fid) && StopsInLast(d0, fid, len, offset, total)
    requires n0 == NumBlocks(FileSize(d0, fid)) && n == LastOf(len, offset) + 1
    requires Expanded(d0, own, d, bits, own1, ino, di, fid, n0, n, r, total)
    ensures TailOpen(d0, own, d, ino, di, fid, n0, n, total) && r == VFS_OK
  {
    hide IsFile; hide RanOut; hide At; hide Volume; hide HeadNeed; hide GrowNeed; hide LowFails; hide StopOf;
    hide Session; hide Untouched; hide FreeCount; hide LeftAlone; hide InLastTable;
    InLastHead(n0, n);
  }

  /** The targets of the loop are then those of the first 135 blocks. */
  lemma FailureSteady(d0: Disk, own: Owners, m: Image, di: WordBlock, fid: nat, len: nat, offset: nat, total: nat,
                      b1: nat)
    requires Fails(d0, fid, len, offset, total) && b1 == offset / BLOCK_SIZE && offset <= FileSize(d0, fid)
    requires Stopped(d0, own, m, fid, NumBlocks(FileSize(d0, fid)), LastOf(len, offset) + 1,
               FreeCount(At(d0, ALLOCATION_BLOCK), total), total)
    ensures b1 <= LastOf(len, offset) && b1 < DIRECT + SINDIR
    ensures Steady(m.d, m.ino, di, LowTargets(m.d, m.ino, b1, LastOf(len, offset)), b1, LastOf(len, offset))
  {
    hide IsFile; hide RanOut; hide At; hide Volume; hide HeadNeed; hide GrowNeed; hide StopsAt; hide Steady;
    hide RunsOut; hide FreeCount;
    var n0, b2, f := NumBlocks(FileSize(d0, fid)), LastOf(len, offset), FreeCount(At(d0, ALLOCATION_BLOCK), total);
    StopInRange(n0, b2 + 1, f);
    assert b1 <= n0 <= b2;
    if StopOf(n0, b2 + 1, f) <= DIRECT {
      CutSteady(d0, own, m, fid, n0, b2 + 1, f, total, di, b1, b2);
    } else {
      TableSteady(d0, own, m, fid, n0, b2 + 1, f, total, di, b1, b2);
    }
  }

  /** What the loop and the inode write then leave. */
  lemma FailureDone(d0: Disk, own: Owners, m: Image, fid: nat, data: seq<Byte>, offset: nat, total: nat, b1: nat,
                    d2: Disk, d: Disk, r: int)
    requires Fails(d0, fid, |data|, offset, total) && b1 == offset / BLOCK_SIZE && b1 < DIRECT + SINDIR
             && b1 <= LastOf(|data|, offset)
    requires Stopped(d0, own, m, fid, NumBlocks(FileSize(d0, fid)), LastOf(|data|, offset) + 1,
               FreeCount(At(d0, ALLOCATION_BLOCK), total), total)
    requires m.ino[0] == FileSize(d0, fid) && offset + |data| < 0x1_0000_0000 && fid < |d2|
    requires Outcome(m.d, LowTargets(m.d, m.ino, b1, LastOf(|data|, offset)), b1, data, offset, d2, r)
    requires d == if r < 0 then d2 else Final(d2, fid, m.ino, m.ino[0], offset, |data|)
    ensures StopsShort(d0, fid, |data|, offset, total) ==>
              r == VFS_ERROR && Volume(d, own, total) && d[0] == d0[0] && d[DIRECTORY_BLOCK] == d0[DIRECTORY_BLOCK]
                && d[ALLOCATION_BLOCK] == d0[ALLOCATION_BLOCK] && WrittenToEnd(d0, d, fid, data, offset)
    ensures StopsInTable(d0, fid, |data|, offset, total) ==> WentAstray(d0, own, d, r, fid, data, offset, total)
  {
    hide IsFile; hide RanOut; hide At; hide Volume; hide HeadNeed; hide GrowNeed; hide StopsAt; hide RunsOut;
    hide FreeCount;
    hide Outcome; hide WrittenToEnd; hide Stray; hide Final;
    var n0, b2, f := NumBlocks(FileSize(d0, fid)), LastOf(|data|, offset), FreeCount(At(d0, ALLOCATION_BLOCK), total);
    StopInRange(n0, b2 + 1, f);
    assert b1 <= n0 <= b2;
    if StopOf(n0, b2 + 1, f) <= DIRECT {
      CutShortDone(d0, own, m, fid, n0, b2 + 1, f, total, b1, b2, data, offset, d2, r);
    } else {
      StoppedWalk(d0, own, m, fid, n0, b2 + 1, f, total);
      StrayDone(d0, own, m.d, m.ino, fid, b1, b2, data, offset, d2, r);
      TableBlockLeft(d0, own, m, fid, n0, b2 + 1, f, total);
      StrayLength(d0, own, d, r, fid, m.ino[8], b2, data, offset);
    }
  }

  lemma TableBlockLeft(d0: Disk, own: Owners, m: Image, fid: nat, n0: nat, n: nat, f: nat, total: nat)
    requires Stopped(d0, own, m, fid, n0, n, f, total) && StopOf(n0, n, f) > DIRECT
    ensures 3 <= m.ino[8] < total <= 4096 && m.ino[8] != fid && !Bit(At(d0, ALLOCATION_BLOCK), m.ino[8])
  {
    hide IsFile; hide RanOut; hide At; hide StopOf; hide RunsOut; hide Bit; hide DirOk; hide Sound; hide OwnersClosed;
    hide Live;
    TableLeft(d0, own, m, fid, n0, n, f, total);
    FileIsOk(d0, own, total, fid);
    FileIsSelf(d0, own, fid);
  }

  lemma StrayLength(d0: Disk, own: Owners, d: Disk, r: int, fid: nat, t: nat, b2: nat, data: seq<Byte>,
                    offset: nat)
    requires b2 < DIRECT + SINDIR && Stray(d0, own, d, r, fid, t, b2, data, offset)
    ensures |d| == |d0|
  {
  }

  // ---------------------------------------------------------------- from the buffers to the answer

  /** The buffers when the loop begins: di is the double-indirect buffer, m holds the rest. */
  ghost predicate Ready(d0: Disk, own: Owners, m: Image, di: WordBlock, fid: nat, len: nat, offset: nat, total: nat)
    requires 0 < len && total <= 4096
  {
    var n0, n := NumBlocks(FileSize(d0, fid)), LastOf(len, offset) + 1;
    && m.ino[0] == FileSize(d0, fid) && |m.d| == |d0|
    && (WriteFits(d0, fid, len, offset, total) ==>
          && !WriteStalls(d0, fid, len, offset, total) && (offset + len <= m.ino[0] ==> At(m.d, fid) == m.ino)
          && Session(d0, own, m.d, m.own, m.ino, di, fid, n0, if n0 > n then n0 else n, total))
    && (Fails(d0, fid, len, offset, total) ==>
          Stopped(d0, own, m, fid, n0, n, FreeCount(At(d0, ALLOCATION_BLOCK), total), total))
    && (StopsInLast(d0, fid, len, offset, total) ==> TailOpen(d0, own, m.d, m.ino, di, fid, n0, n, total))
  }

  /** Something is said of the write: it finds room, or fails in one of the three ways. */
  ghost predicate Told(d: Disk, fid: nat, len: nat, offset: nat, total: nat) {
    || WriteFits(d, fid, len, offset, total) || Fails(d, fid, len, offset, total)
    || StopsInLast(d, fid, len, offset, total)
  }

  /** The targets of the loop then. */
  ghost function TargetsOf(d0: Disk, m: Image, di: WordBlock, fid: nat, len: nat, offset: nat, total: nat): seq<Word>
    requires LastOf(len, offset) < MAX_BLOCKS
  {
    var b1, b2 := offset / BLOCK_SIZE, LastOf(len, offset);
    if Fails(d0, fid, len, offset, total) && b1 <= b2 && b1 < DIRECT + SINDIR then LowTargets(m.d, m.ino, b1, b2)
    else DataTargets(m.d, m.ino, di, b2 + 1)
  }

  lemma ReadySteady(d0: Disk, own: Owners, m: Image, di: WordBlock, fid: nat, len: nat, offset: nat, total: nat)
    requires 0 < len && total <= 4096 && Ready(d0, own, m, di, fid, len, offset, total)
    requires LastOf(len, offset) < MAX_BLOCKS && offset <= FileSize(d0, fid)
    ensures Told(d0, fid, len, offset, total) ==>
              Steady(m.d, m.ino, di, TargetsOf(d0, m, di, fid, len, offset, total), offset / BLOCK_SIZE,
                     LastOf(len, offset))
  {
    hide WriteFits; hide WriteStalls; hide StopsShort; hide StopsInTable; hide StopsInLast; hide Session; hide Stopped;
    hide TailOpen; hide Steady; hide At; hide FreeCount; hide DataTargets; hide LowTargets;
    FailsIsNotFits(d0, fid, len, offset, total);
    GrowsChecked(d0, fid, len, offset, total);
    var n0, b1, b2 := NumBlocks(FileSize(d0, fid)), offset / BLOCK_SIZE, LastOf(len, offset);
    if WriteFits(d0, fid, len, offset, total) {
      var n := if n0 > b2 + 1 then n0 else b2 + 1;
      SessionParts(d0, own, m.d, m.own, m.ino, di, fid, n0, n, total);
      DataSteady(m.d, fid, m.ino, di, n, m.own, b1, b2, total);
    } else if Fails(d0, fid, len, offset, total) {
      FailureSteady(d0, own, m, di, fid, len, offset, total, b1);
    } else if StopsInLast(d0, fid, len, offset, total) {
      TailSteady(d0, own, m.d, m.ino, di, fid, n0, b2 + 1, total, b1);
    }
  }

  lemma GrowthCost(n0: nat, n: nat)
    requires n0 <= n
    ensures GrowNeed(n0, n) == n - n0 + Tables(n) - Tables(n0) + DoubleCount(n) - DoubleCount(n0)
  {
  }

  lemma ReadyDone(d0: Disk, own: Owners, m: Image, di: WordBlock, fid: nat, data: seq<Byte>, offset: nat, total: nat,
                  d2: Disk, d: Disk, r: int)
    requires Volume(d0, own, total) && IsFile(d0[DIRECTORY_BLOCK], fid) && 2 <= fid < total <= 4096
    requires 0 < |data| && Ready(d0, own, m, di, fid, |data|, offset, total)
    requires LastOf(|data|, offset) < MAX_BLOCKS && offset <= FileSize(d0, fid) && fid < |d2|
    requires Told(d0, fid, |data|, offset, total) ==>
               Outcome(m.d, TargetsOf(d0, m, di, fid, |data|, offset, total), offset / BLOCK_SIZE, data, offset, d2, r)
    requires d == if r < 0 then d2 else Final(d2, fid, m.ino, m.ino[0], offset, |data|)
    ensures WriteAnswers(d0, own, d, if WriteFits(d0, fid, |data|, offset, total) then m.own else own, r, fid, data,
              offset, total)
  {
    hide WriteFits; hide WriteStalls; hide StopsShort; hide StopsInTable; hide StopsInLast; hide Session; hide Stopped;
    hide TailOpen; hide Outcome; hide At; hide FreeCount; hide DataTargets; hide LowTargets; hide Volume; hide IsFile;
    hide Written; hide WrittenToEnd; hide WentAstray; hide WentToHeader; hide WriteAnswers; hide Final; hide Contents;
    hide Took; hide GrowNeed;
    FailsIsNotFits(d0, fid, |data|, offset, total);
    GrowsChecked(d0, fid, |data|, offset, total);
    VolumeTotal(d0, own, total);
    var n0, b1, b2 := NumBlocks(FileSize(d0, fid)), offset / BLOCK_SIZE, LastOf(|data|, offset);
    if WriteFits(d0, fid, |data|, offset, total) {
      var n := if n0 > b2 + 1 then n0 else b2 + 1;
      SessionParts(d0, own, m.d, m.own, m.ino, di, fid, n0, n, total);
      OpenOutcome(m.d, d2, fid, m.ino, di, n, m.own, b1, b2, data, offset, total, r);
      WriteDone(d0, own, m.d, d2, m.own, m.ino, di, fid, n0, n, total, b1, b2, data, offset);
      assert WriteTook(d0, own, d, m.own, fid, |data|, offset, total) by {
        GrowthCost(n0, n);
      }
      AnswersWritten(d0, own, d, m.own, fid, data, offset, total);
    } else {
      if Fails(d0, fid, |data|, offset, total) {
        FailureSteady(d0, own, m, di, fid, |data|, offset, total, b1);
        FailureDone(d0, own, m, fid, data, offset, total, b1, d2, d, r);
      } else if StopsInLast(d0, fid, |data|, offset, total) {
        TailDone(d0, own, m.d, m.ino, di, fid, n0, b2 + 1, total, b1, data, offset, d2, r);
      }
      AnswersFailed(d0, own, d, own, r, fid, data, offset, total);
    }
  }

  /** Writes that do not get past the checks do not fail this way. */
  lemma GrowsChecked(d: Disk, fileid: int, len: nat, offset: int, total: nat)
    ensures Fails(d, fileid, len, offset, total) || StopsInLast(d, fileid, len, offset, total) ==>
              2 <= fileid < total && 0 <= offset && 0 < len && offset <= FileSize(d, fileid)
              && NumBlocks(FileSize(d, fileid)) <= LastOf(len, offset)
  {
    hide RunsOut; hide StopOf; hide At;
  }
}
