/**
 The loop of a FlatFS write over whatever the buffers hold: each logical block has a target, the
 block number the table search answers, and the loop overlays the targets in order until one is
 not on the disk. For an open file the targets are its data blocks; after an allocation that ran
 out within the first 135 blocks, direct pointers and entries of the table as it is on the disk; after
 one that ran out in the last table, the file's blocks and zeros.
*/
module FlatWriting {
  import opened Words
  import opened Bitmaps
  import opened FlatLayout
  import opened FlatGrowth
  import opened FlatVolume
  import opened FlatData
  import opened Directories

  // ---------------------------------------------------------------- the loop

  /** The disk once the targets of blocks b1..b have been overlaid. */
  function Pass(d: Disk, tgt: seq<Word>, b1: nat, b: nat, data: seq<Byte>, offset: nat): (r: Disk)
    requires b1 <= b <= |tgt| && forall c :: b1 <= c < b ==> tgt[c] < |d|
    ensures |r| == |d|
  {
    if b == b1 then d
    else
      var m := Pass(d, tgt, b1, b - 1, data, offset);
      m[tgt[b - 1] := Overlay(m[tgt[b - 1]], b - 1, data, offset)]
  }

  /** Where the table of block b is loaded: at its first block, or at b1. */
  function LoadedAt(b1: nat, b: nat): nat
    requires b >= DIRECT
  {
    var first := DIRECT + SINDIR * ((b - DIRECT) / SINDIR);
    if first < b1 then b1 else first
  }

  /** The target of block b is what the search answers, and the loop does not overwrite its table before loading it. */
  ghost predicate Target(d: Disk, ino: WordBlock, di: WordBlock, tgt: seq<Word>, b1: nat, b: nat)
    requires b1 <= b < |tgt| && b < MAX_BLOCKS
  {
    if b < DIRECT then tgt[b] == DirectBlock(ino, b)
    else
      var t := TableOf(ino, di, b);
      if t < |d| then tgt[b] == At(d, t)[(b - DIRECT) % SINDIR] && forall c :: b1 <= c < LoadedAt(b1, b) ==> tgt[c] != t
      else tgt[b] == NO_TABLE && (b - DIRECT) % SINDIR == 0
  }

  /** tgt are the targets from b1 on, all blocks to b2 or up to the first that is not on the disk. */
  ghost predicate Steady(d: Disk, ino: WordBlock, di: WordBlock, tgt: seq<Word>, b1: nat, b2: nat) {
    && b1 < |tgt| <= b2 + 1 <= MAX_BLOCKS
    && (forall b {:trigger Target(d, ino, di, tgt, b1, b)} :: b1 <= b < |tgt| ==> Target(d, ino, di, tgt, b1, b))
    && (forall b :: b1 <= b < |tgt| - 1 ==> tgt[b] < |d|)
    && (|tgt| == b2 + 1 || tgt[|tgt| - 1] >= |d|)
  }

  /** What the loop leaves and answers. */
  ghost predicate Outcome(d: Disk, tgt: seq<Word>, b1: nat, data: seq<Byte>, offset: nat, d': Disk, r: int) {
    && b1 < |tgt| && (forall b :: b1 <= b < |tgt| - 1 ==> tgt[b] < |d|)
    && if tgt[|tgt| - 1] < |d| then r == |data| && d' == Pass(d, tgt, b1, |tgt|, data, offset)
       else r == VFS_ERROR && d' == Pass(d, tgt, b1, |tgt| - 1, data, offset)
  }

  /** The table buffer holds the table of block b, if that one is on the disk. */
  ghost predicate Holding(d: Disk, ino: WordBlock, di: WordBlock, si: WordBlock, b: nat)
    requires b < MAX_BLOCKS
  {
    b >= DIRECT && TableOf(ino, di, b) < |d| ==> si == At(d, TableOf(ino, di, b))
  }

  /** Blocks that are no target stay as they are. */
  lemma {:induction false} PassFrame(d: Disk, tgt: seq<Word>, b1: nat, b: nat, data: seq<Byte>, offset: nat, x: nat)
    requires b1 <= b <= |tgt| && x < |d| && forall c :: b1 <= c < b ==> tgt[c] < |d|
    requires forall c :: b1 <= c < b ==> tgt[c] != x
    ensures Pass(d, tgt, b1, b, data, offset)[x] == d[x]
  {
    hide Overlay;
    if b > b1 {
      PassFrame(d, tgt, b1, b - 1, data, offset, x);
    }
  }

  /** The search at block b of the loop answers the target, and the table buffer serves the next block. */
  lemma StepAnswer(d: Disk, ino: WordBlock, di: WordBlock, si: WordBlock, tgt: seq<Word>, b1: nat, b2: nat, b: nat,
                   data: seq<Byte>, offset: nat)
    requires Steady(d, ino, di, tgt, b1, b2) && b1 <= b < |tgt|
    requires Holding(d, ino, di, si, if b == b1 then b1 else b - 1)
    ensures var m := Pass(d, tgt, b1, b, data, offset); var flag := (b - DIRECT) % SINDIR;
            Answer(m, ino, di, si, b, flag) == tgt[b] && Holding(d, ino, di, Buffered(m, ino, di, si, b, flag), b)
  {
    hide At; hide Pass;
    assert Target(d, ino, di, tgt, b1, b);
    var m := Pass(d, tgt, b1, b, data, offset);
    if b >= DIRECT && (b - DIRECT) % SINDIR == 0 && TableOf(ino, di, b) < |d| {
      assert LoadedAt(b1, b) == b;
      PassFrame(d, tgt, b1, b, data, offset, TableOf(ino, di, b));
      SameBlock(d, m, TableOf(ino, di, b));
    } else if b > DIRECT && b > b1 && (b - DIRECT) % SINDIR != 0 {
      assert (b - 1 - DIRECT) / SINDIR == (b - DIRECT) / SINDIR;
    }
  }

  lemma SameBlock(d: Disk, d': Disk, x: nat)
    requires x < |d| == |d'| && d'[x] == d[x]
    ensures At(d', x) == At(d, x)
  {
    hide Decode;
  }

  lemma SteadyParts(d: Disk, ino: WordBlock, di: WordBlock, tgt: seq<Word>, b1: nat, b2: nat)
    ensures Steady(d, ino, di, tgt, b1, b2) ==>
              b1 < |tgt| <= b2 + 1 && (forall b :: b1 <= b < |tgt| - 1 ==> tgt[b] < |d|)
    ensures Steady(d, ino, di, tgt, b1, b2) ==> |tgt| == b2 + 1 || tgt[|tgt| - 1] >= |d|
  {
  }

  lemma PassStart(d: Disk, tgt: seq<Word>, b1: nat, data: seq<Byte>, offset: nat)
    ensures b1 <= |tgt| ==> Pass(d, tgt, b1, b1, data, offset) == d
  {
  }

  lemma PassNext(d: Disk, tgt: seq<Word>, b1: nat, b: nat, data: seq<Byte>, offset: nat)
    requires b1 <= b < |tgt| && forall c :: b1 <= c < b ==> tgt[c] < |d|
    ensures var m := Pass(d, tgt, b1, b, data, offset);
            |m| == |d| && (tgt[b] < |d| ==>
                             Pass(d, tgt, b1, b + 1, data, offset) == m[tgt[b] := Overlay(m[tgt[b]], b, data, offset)])
  {
  }

  /** The loop is through, or stopped by a target that is not on the disk. */
  lemma LoopOutcome(d: Disk, ino: WordBlock, di: WordBlock, tgt: seq<Word>, b1: nat, b2: nat, b: nat, data: seq<Byte>,
                    offset: nat)
    requires Steady(d, ino, di, tgt, b1, b2) && b1 <= b <= |tgt| && (forall c :: b1 <= c < b ==> tgt[c] < |d|)
    ensures b < |tgt| && tgt[b] >= |d| ==>
              Outcome(d, tgt, b1, data, offset, Pass(d, tgt, b1, b, data, offset), VFS_ERROR)
    ensures b == b2 + 1 ==> Outcome(d, tgt, b1, data, offset, Pass(d, tgt, b1, b, data, offset), |data|)
  {
    hide Pass; hide Target;
  }

  /** The table loaded ahead of the loop. */
  lemma FirstTable(d: Disk, ino: WordBlock, di: WordBlock, si: WordBlock, b: nat)
    requires b < MAX_BLOCKS
    ensures Holding(d, ino, di, Buffered(d, ino, di, si, b, 0), b)
  {
  }

  // ---------------------------------------------------------------- an open file

  /** Its data blocks as targets. */
  function DataTargets(d: Disk, ino: WordBlock, di: WordBlock, n: nat): (s: seq<Word>)
    requires n <= MAX_BLOCKS
  {
    hide Ptr;
    seq(n, b requires 0 <= b < n => Ptr(d, ino, di, b))
  }

  ghost predicate OnDisk(d: Disk, tgt: seq<Word>) {
    forall b :: 0 <= b < |tgt| ==> tgt[b] < |d|
  }

  lemma DataSteady(d: Disk, fid: nat, ino: WordBlock, di: WordBlock, n: nat, own: Owners, b1: nat, b2: nat, total: nat)
    requires OpenTree(d, fid, ino, di, n, own) && Sound(VolumeImage(d, own), total) && b1 <= b2 < n <= MAX_BLOCKS
    ensures Steady(d, ino, di, DataTargets(d, ino, di, b2 + 1), b1, b2)
    ensures OnDisk(d, DataTargets(d, ino, di, b2 + 1))
  {
    hide OpenTree; hide Sound; hide Ptr; hide At; hide Target;
    var tgt := DataTargets(d, ino, di, b2 + 1);
    forall b | 0 <= b <= b2
      ensures tgt[b] < |d|
    {
      DataInRange(d, fid, ino, di, n, own, b, total);
    }
    forall b | b1 <= b < |tgt|
      ensures Target(d, ino, di, tgt, b1, b)
    {
      DataTarget(d, fid, ino, di, n, own, b1, b2, b, total);
    }
  }

  lemma DataTarget(d: Disk, fid: nat, ino: WordBlock, di: WordBlock, n: nat, own: Owners, b1: nat, b2: nat, b: nat,
                   total: nat)
    requires OpenTree(d, fid, ino, di, n, own) && Sound(VolumeImage(d, own), total) && b1 <= b <= b2 < n <= MAX_BLOCKS
    ensures Target(d, ino, di, DataTargets(d, ino, di, b2 + 1), b1, b)
  {
    hide OpenTree; hide Sound; hide At;
    if b >= DIRECT {
      TableInRange(d, fid, ino, di, n, own, b, total);
      var tgt := DataTargets(d, ino, di, b2 + 1);
      forall c | b1 <= c < b
        ensures tgt[c] != TableOf(ino, di, b)
      {
        OpenTreeData(d, fid, ino, di, n, own);
        assert Holds(own, Ptr(d, ino, di, c), Role(fid, Data(c)));
      }
    }
  }

  /** The loop over an open file overwrites its data blocks and nothing else. */
  lemma {:induction false} PassProgress(d: Disk, fid: nat, ino: WordBlock, di: WordBlock, n: nat, own: Owners, b1: nat,
                                        b: nat, b2: nat,
                                        data: seq<Byte>, offset: nat, total: nat)
    requires OpenTree(d, fid, ino, di, n, own) && Sound(VolumeImage(d, own), total) && b1 <= b <= b2 + 1
             && b2 < n <= MAX_BLOCKS
    requires OnDisk(d, DataTargets(d, ino, di, b2 + 1))
    ensures var m := Pass(d, DataTargets(d, ino, di, b2 + 1), b1, b, data, offset);
            && OpenTree(m, fid, ino, di, n, own) && Sound(VolumeImage(m, own), total)
            && Progress(d, m, fid, ino, di, n, own, b1, b, data, offset)
  {
    hide OpenTree; hide Sound; hide Ptr; hide Overlay; hide At; hide Progress;
    var tgt := DataTargets(d, ino, di, b2 + 1);
    if b == b1 {
      ProgressStart(d, fid, ino, di, n, own, b1, data, offset, total);
    } else {
      PassProgress(d, fid, ino, di, n, own, b1, b - 1, b2, data, offset, total);
      var m := Pass(d, tgt, b1, b - 1, data, offset);
      OpenTreeData(d, fid, ino, di, n, own);
      ProgressPtr(d, m, fid, ino, di, n, own, b1, b - 1, data, offset, b - 1);
      DataStep(m, tgt[b - 1], Overlay(m[tgt[b - 1]], b - 1, data, offset), fid, ino, di, n, own, b - 1, total);
      ProgressStep(d, m, Pass(d, tgt, b1, b, data, offset), fid, ino, di, n, own, b1, b - 1, data, offset);
    }
  }

  lemma ProgressPtr(d: Disk, m: Disk, fid: nat, ino: WordBlock, di: WordBlock, n: nat, own: Owners, b1: nat, b: nat,
                    data: seq<Byte>, offset: nat, c: nat)
    requires n <= MAX_BLOCKS && Progress(d, m, fid, ino, di, n, own, b1, b, data, offset) && c < n
    ensures Ptr(m, ino, di, c) == Ptr(d, ino, di, c)
  {
    hide Ptr; hide Overlay;
  }

  /** So the loop writes all of the data. */
  lemma OpenOutcome(d: Disk, d': Disk, fid: nat, ino: WordBlock, di: WordBlock, n: nat, own: Owners, b1: nat, b2: nat,
                    data: seq<Byte>, offset: nat, total: nat, r: int)
    requires OpenTree(d, fid, ino, di, n, own) && Sound(VolumeImage(d, own), total) && b1 <= b2 < n <= MAX_BLOCKS
    requires Outcome(d, DataTargets(d, ino, di, b2 + 1), b1, data, offset, d', r)
    ensures r == |data| && OpenTree(d', fid, ino, di, n, own) && Sound(VolumeImage(d', own), total)
    ensures Progress(d, d', fid, ino, di, n, own, b1, b2 + 1, data, offset)
  {
    hide OpenTree; hide Sound; hide Ptr; hide Overlay; hide At; hide Progress; hide Steady;
    DataSteady(d, fid, ino, di, n, own, b1, b2, total);
    PassProgress(d, fid, ino, di, n, own, b1, b2 + 1, b2, data, offset, total);
  }

  // ---------------------------------------------------------------- running out of blocks

  /** The blocks an empty file has once its first one is taken. */
  function AtLeastOne(n0: nat): nat { if n0 == 0 then 1 else n0 }

  /**
   Growing from n0 to n blocks with f free ones gets past the first allocations and stops within the first 135
   blocks.
  */
  predicate RunsOut(n0: nat, n: nat, f: nat) {
    n0 < n && f >= HeadNeed(n0, n) && LowFails(AtLeastOne(n0), n - AtLeastOne(n0), f - HeadNeed(n0, n))
  }

  /** The blocks taken by then, without the double-indirect block. */
  function TakenFor(n0: nat, n: nat, f: nat): nat
    requires RunsOut(n0, n, f)
  {
    f - HeadNeed(n0, n) + (AtLeastOne(n0) - n0)
  }

  /** What Expand answers and leaves: a session if there is room, or what a failing allocation leaves. */
  ghost predicate Expanded(d0: Disk, own: Owners, d: Disk, bits: seq<Word>, own1: Owners, ino: WordBlock, di: WordBlock,
                           fid: nat, n0: nat, n: nat, r: int, total: nat)
    requires n0 <= n && 1 <= n && total <= 4096
  {
    var free := FreeCount(At(d0, ALLOCATION_BLOCK), total);
    && |d| == |d0| && |bits| == 128 && r == (if free >= HeadNeed(n0, n) then VFS_OK else VFS_ERROR)
    && (r == VFS_ERROR ==> Untouched(d0, d, own))
    && (r == VFS_OK ==> ino[0] == At(d0, fid)[0])
    && (free >= GrowNeed(n0, n) ==> Session(d0, own, d, own1, ino, di, fid, n0, n, total))
    && (RunsOut(n0, n, free) ==>
          RanOut(OldImage(d0, own, fid), Image(d, bits, own1, ino, ZeroWords()), fid, n0, TakenFor(n0, n, free), total))
    && (TailFails(n0, n - n0, free) ==> LeftAlone(d0, own, d, ino, di, fid, n0))
  }

  lemma ExpandedParts(d0: Disk, own: Owners, d: Disk, bits: seq<Word>, own1: Owners, ino: WordBlock, di: WordBlock,
                      fid: nat, n0: nat, n: nat, r: int, total: nat)
    requires n0 <= n && 1 <= n && total <= 4096 && Expanded(d0, own, d, bits, own1, ino, di, fid, n0, n, r, total)
    ensures |d| == |d0| && |bits| == 128 && (r == VFS_ERROR ==> Untouched(d0, d, own))
    ensures r == if FreeCount(At(d0, ALLOCATION_BLOCK), total) >= HeadNeed(n0, n) then VFS_OK else VFS_ERROR
    ensures r == VFS_OK ==> ino[0] == At(d0, fid)[0]
    ensures FreeCount(At(d0, ALLOCATION_BLOCK), total) >= GrowNeed(n0, n) ==>
              Session(d0, own, d, own1, ino, di, fid, n0, n, total)
  {
    hide At; hide FreeCount; hide Session; hide Untouched; hide HeadNeed; hide GrowNeed; hide LowFails; hide RanOut;
    hide LeftAlone; hide InLastTable;
  }

  /** Blocks in use are as before, and the buffers hold the file as it was. */
  ghost predicate LeftAlone(d0: Disk, own: Owners, d: Disk, ino: WordBlock, di: WordBlock, fid: nat, n0: nat) {
    Untouched(d0, d, own) && ino == At(d0, fid) && (n0 > DIRECT + SINDIR ==> di == At(d0, ino[9]))
  }

  lemma InLastHead(n0: nat, n: nat)
    requires n0 <= n && InLastTable(n0, n)
    ensures n0 > DIRECT && HeadNeed(n0, n) == 0
    ensures Cost(n) - Cost(n0) == n - n0
  {
    InLastCost(n0, n);
  }

  lemma TailLeftAlone(m0: Image, m: Image, di: WordBlock, fid: nat, n0: nat, total: nat)
    requires Sound(m0, total) && |m.bat| == 128 && TailKept(m0, m, di, fid, n0, total)
    requires m0.ino == At(m0.d, fid) && di == At(m0.d, m0.ino[9])
    ensures LeftAlone(m0.d, m0.own, m.d, m.ino, m.di, fid, n0)
  {
    hide Grew; hide At;
    GrewUntouched(m0, m, fid, total);
  }

  /** The file in the inode buffer, on the volume before a write. */
  ghost function OldImage(d: Disk, own: Owners, fid: nat): Image {
    Image(d, At(d, ALLOCATION_BLOCK), own, At(d, fid), ZeroWords())
  }

  lemma ExpandRanOut(m0: Image, m1: Image, m1': Image, mid: Image, m: Image, fid: nat, n0: nat, n: nat, free: nat,
                     total: nat)
    requires RunsOut(n0, n, free) && |mid.bat| == 128
    requires Sound(m0, total) && Sound(m1, total) && m1' == m1.(di := m1'.di) && m == mid.(di := m.di)
    requires Grew(m0, m1, fid, total, Nothing) && HeadFresh(m0, m1, n0, AtLeastOne(n0), total)
    requires RanOut(m1', mid, fid, AtLeastOne(n0), free - HeadNeed(n0, n), total)
    ensures RanOut(m0.(di := ZeroWords()), m, fid, n0, TakenFor(n0, n, free), total)
  {
    hide RanOut; hide Grew; hide Bit; hide FreeKept; hide Fresh; hide HeadNeed; hide Cost;
    var k := AtLeastOne(n0);
    RanOutBuffers(m1', mid, m, fid, k, free - HeadNeed(n0, n), total);
    assert RanOut(m1'.(di := m1.di), m, fid, k, free - HeadNeed(n0, n), total);
    RanOutLater(m0, m1, m, fid, n0, k, free - HeadNeed(n0, n), total);
    RanOutBuffers(m0, m, m, fid, n0, TakenFor(n0, n, free), total);
  }

  /** The first allocations find the disk full. */
  lemma ExpandRefused(d0: Disk, own: Owners, d: Disk, bits: seq<Word>, own1: Owners, ino: WordBlock, di: WordBlock,
                      fid: nat, n0: nat, n: nat, total: nat)
    requires n0 < n && total <= 4096 && |bits| == 128 && Untouched(d0, d, own)
             && FreeCount(At(d0, ALLOCATION_BLOCK), total) < HeadNeed(n0, n)
    ensures Expanded(d0, own, d, bits, own1, ino, di, fid, n0, n, VFS_ERROR, total)
  {
    hide RanOut; hide LeftAlone; hide InLastTable; hide At; hide FreeCount; hide LowFails; hide Session; hide Cost;
    NeedSplits(n0, n);
    if InLastTable(n0, n) {
      InLastHead(n0, n);
    }
  }

  /** There is room for all. */
  lemma ExpandRoom(d0: Disk, own: Owners, d: Disk, bits: seq<Word>, own1: Owners, ino: WordBlock, di: WordBlock,
                   fid: nat, n0: nat, n: nat, total: nat)
    requires n0 < n && total <= 4096 && |bits| == 128 && |d| == |d0| && ino[0] == At(d0, fid)[0]
             && FreeCount(At(d0, ALLOCATION_BLOCK), total) >= GrowNeed(n0, n)
    requires Session(d0, own, d, own1, ino, di, fid, n0, n, total)
    ensures Expanded(d0, own, d, bits, own1, ino, di, fid, n0, n, VFS_OK, total)
  {
    hide RanOut; hide LeftAlone; hide InLastTable; hide At; hide FreeCount; hide LowFails; hide Session; hide Cost;
    hide Untouched;
    var free := FreeCount(At(d0, ALLOCATION_BLOCK), total);
    NeedSplits(n0, n);
    if RunsOut(n0, n, free) {
      LowFailsFails(AtLeastOne(n0), n - AtLeastOne(n0), free - HeadNeed(n0, n));
    }
    if InLastTable(n0, n) {
      InLastHead(n0, n);
    }
  }

  /** What a failing AllocBlocks leaves. */
  lemma ExpandFailed(m0: Image, m1: Image, m1': Image, mid: Image, di: WordBlock, fid: nat, n0: nat, n: nat,
                     total: nat)
    requires n0 < n && Sound(m0, total) && m0.bat == At(m0.d, ALLOCATION_BLOCK) && m0.ino == At(m0.d, fid)
             && m0.di == At(m0.d, m0.ino[9])
    requires |mid.bat| == 128 && |mid.d| == |m0.d| && mid.ino[0] == m0.ino[0]
    requires HeadNeed(n0, n) <= FreeCount(m0.bat, total) < GrowNeed(n0, n)
    requires RunsOut(n0, n, FreeCount(m0.bat, total)) ==>
               && Sound(m1, total) && m1' == m1.(di := m1'.di)
               && Grew(m0, m1, fid, total, Nothing) && HeadFresh(m0, m1, n0, AtLeastOne(n0), total)
               && RanOut(m1', mid, fid, AtLeastOne(n0), FreeCount(m0.bat, total) - HeadNeed(n0, n), total)
    requires TailFails(n0, n - n0, FreeCount(m0.bat, total)) ==>
               TailKept(m0.(di := m1'.di), mid.(di := di), m0.di, fid, n0, total)
    ensures Expanded(m0.d, m0.own, mid.d, mid.bat, mid.own, mid.ino, di, fid, n0, n, VFS_OK, total)
  {
    hide RanOut; hide TailKept; hide LeftAlone; hide InLastTable; hide HeadFresh; hide Grew; hide At; hide FreeCount;
    hide HeadNeed; hide GrowNeed; hide LowFails; hide Session;
    var free := FreeCount(m0.bat, total);
    if RunsOut(n0, n, free) {
      ExpandRanOut(m0, m1, m1', mid, Image(mid.d, mid.bat, mid.own, mid.ino, ZeroWords()), fid, n0, n, free, total);
    }
    if TailFails(n0, n - n0, free) {
      TailLeftAlone(m0.(di := m1'.di), mid.(di := di), m0.di, fid, n0, total);
    }
  }

  /** What the search answers for a block of the first 135. */
  function LowTarget(d: Disk, ino: WordBlock, b: nat): Word
    requires b < DIRECT + SINDIR
  {
    if b < DIRECT then DirectBlock(ino, b) else if ino[8] < |d| then At(d, ino[8])[b - DIRECT] else NO_TABLE
  }

  /** The first block from b on, below end, whose target is not on the disk; end if there is none. */
  function CutFrom(d: Disk, ino: WordBlock, b: nat, end: nat): (k: nat)
    requires b <= end <= DIRECT + SINDIR
    ensures b <= k <= end && (k < end ==> LowTarget(d, ino, k) >= |d|)
    ensures forall c {:trigger LowTarget(d, ino, c)} :: b <= c < k ==> LowTarget(d, ino, c) < |d|
    decreases end - b
  {
    hide LowTarget;
    if b == end || LowTarget(d, ino, b) >= |d| then b else CutFrom(d, ino, b + 1, end)
  }

  function LowEndOf(b2: nat): nat { if b2 < DIRECT + SINDIR then b2 + 1 else DIRECT + SINDIR }

  /** The targets within the first 135 blocks, up to the first that is not on the disk. */
  function LowTargets(d: Disk, ino: WordBlock, b1: nat, b2: nat): (s: seq<Word>)
    requires b1 <= b2 && b1 < DIRECT + SINDIR
  {
    hide LowTarget;
    var k, end := CutFrom(d, ino, b1, LowEndOf(b2)), LowEndOf(b2);
    seq(if k < end then k + 1 else end, b requires 0 <= b < end => LowTarget(d, ino, b))
  }

  lemma LowSteady(d: Disk, ino: WordBlock, di: WordBlock, b1: nat, b2: nat)
    requires b1 <= b2 < MAX_BLOCKS && b1 < DIRECT + SINDIR && |d| <= NO_TABLE
    requires ino[8] < |d| && CutFrom(d, ino, b1, LowEndOf(b2)) >= DIRECT ==> forall c :: b1 <= c < DIRECT ==>
               DirectBlock(ino, c) != ino[8]
    requires ino[8] >= |d| ==> b1 <= DIRECT
    requires b2 < DIRECT + SINDIR || CutFrom(d, ino, b1, DIRECT + SINDIR) < DIRECT + SINDIR
    ensures Steady(d, ino, di, LowTargets(d, ino, b1, b2), b1, b2)
  {
    hide At; hide Target; hide DirectBlock;
    var tgt := LowTargets(d, ino, b1, b2);
    var k := CutFrom(d, ino, b1, LowEndOf(b2));
    assert forall b :: 0 <= b < |tgt| ==> tgt[b] == LowTarget(d, ino, b);
    assert b1 <= DIRECT < k ==> LowTarget(d, ino, DIRECT) < |d|;
    forall b | b1 <= b < |tgt|
      ensures Target(d, ino, di, tgt, b1, b)
    {
      LowIsTarget(d, ino, di, tgt, b1, b);
    }
    forall b | b1 <= b < |tgt| - 1
      ensures tgt[b] < |d|
    {
      assert LowTarget(d, ino, b) < |d|;
    }
  }

  lemma LowIsTarget(d: Disk, ino: WordBlock, di: WordBlock, tgt: seq<Word>, b1: nat, b: nat)
    requires b1 <= b < |tgt| <= DIRECT + SINDIR && forall c :: 0 <= c < |tgt| ==> tgt[c] == LowTarget(d, ino, c)
    requires ino[8] < |d| && b >= DIRECT ==> forall c :: b1 <= c < DIRECT ==> DirectBlock(ino, c) != ino[8]
    requires ino[8] >= |d| ==> b <= DIRECT
    ensures Target(d, ino, di, tgt, b1, b)
  {
    hide At; hide DirectBlock;
    if b >= DIRECT {
      assert (b - DIRECT) / SINDIR == 0 && (b - DIRECT) % SINDIR == b - DIRECT;
      assert TableOf(ino, di, b) == ino[8];
    }
  }

  /** The last block written to a target shows there. */
  lemma {:induction false} PassLast(d: Disk, tgt: seq<Word>, b1: nat, hi: nat, data: seq<Byte>, offset: nat, b: nat)
    requires b1 <= b < hi <= |tgt| && (forall c :: b1 <= c < hi ==> tgt[c] < |d|) && forall c :: b < c < hi ==>
               tgt[c] != tgt[b]
    ensures Pass(d, tgt, b1, hi, data, offset)[tgt[b]] ==
              Overlay(Pass(d, tgt, b1, b, data, offset)[tgt[b]], b, data, offset)
  {
    hide Overlay;
    if hi > b + 1 {
      PassLast(d, tgt, b1, hi - 1, data, offset, b);
    }
  }

  /** A target of one block only is overlaid once. */
  lemma PassOnce(d: Disk, tgt: seq<Word>, b1: nat, hi: nat, data: seq<Byte>, offset: nat, b: nat)
    requires b1 <= b < hi <= |tgt| && (forall c :: b1 <= c < hi ==> tgt[c] < |d|) && forall c ::
               b1 <= c < hi && c != b ==> tgt[c] != tgt[b]
    ensures Pass(d, tgt, b1, hi, data, offset)[tgt[b]] == Overlay(d[tgt[b]], b, data, offset)
  {
    hide Overlay; hide Pass;
    PassLast(d, tgt, b1, hi, data, offset, b);
    PassFrame(d, tgt, b1, b, data, offset, tgt[b]);
  }
}
