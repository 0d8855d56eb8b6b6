/**
 The FlatFS driver: one object per mounted volume, holding the disk and the
 in-memory buffers its methods overwrite.
*/
module FlatFileSystem {
  import opened Words
  import opened Bitmaps
  import opened FlatLayout
  import opened FlatGrowth
  import opened FlatVolume
  import opened FlatData
  import opened FlatDirectory
  import opened FlatRemoval
  import opened FlatWriting
  import opened FlatFailures
  import opened FlatStray
  import opened FlatTail
  import opened FlatCases
  import opened Directories

  class FlatFs {
    const total: nat
    const bat: Bitmap          // allocation bitmap buffer
    var disk: Disk
    var inode: WordBlock       // inode buffer
    var md: Block              // directory buffer
    var si: WordBlock          // table buffer
    var di: WordBlock          // double-indirect buffer
    ghost var own: Owners      // who owns which block

    /** Takes a disk holding a volume; owners says which file owns which block. */
    constructor (d: Disk, ghost owners: Owners)
      requires Volume(d, owners, VolumeBlocks(|d|))
      ensures Valid() && fresh(bat) && disk == d && own == owners && total == if |d| < 4096 then |d| else 4096
    {
      disk, own := d, owners;
      total := VolumeBlocks(|d|);
      inode, si, di, md := ZeroWords(), ZeroWords(), ZeroWords(), ZeroBlock();
      bat := new Bitmap(ZeroWords());
    }

    ghost predicate Valid()
      reads this, bat
    {
      |bat.words| == 128 && Volume(disk, own, total)
    }

    ghost function Img(own: Owners): Image
      reads this, bat
    {
      Image(disk, bat.words, own, inode, di)
    }

    ghost function Free(): nat
      requires total <= 4096 && |bat.words| == 128
      reads bat
    {
      FreeCount(bat.words, total)
    }

    // -------------------------------------------------------------- allocation

    /** Takes the lowest free block, or answers -1. */
    method BmAlloc() returns (r: int)
      requires total <= 4096 && |bat.words| == 128
      modifies bat
      ensures IsFirstClear(old(bat.words), total, r)
      ensures bat.words == if r == -1 then old(bat.words) else WithBit(old(bat.words), r, true)
      ensures |bat.words| == 128
      ensures r == -1 <==> old(Free()) == 0
      ensures r != -1 ==> Free() == old(Free()) - 1
    {
      FreeCountZero(bat.words, total);
      r := bat.FindnSet(total);
      if r != -1 {
        FreeCountWithBit(old(bat.words), r, true, total);
      }
    }

    /** Takes a block for the given use, without touching its contents. */
    method AllocBlock(ghost role: Role, ghost own0: Owners) returns (r: int, ghost own1: Owners)
      requires Sound(Img(own0), total)
      modifies bat
      ensures |bat.words| == 128 && Sound(Img(own1), total) && Grew(old(Img(own0)), Img(own1), role.fid, total, Nothing)
      ensures r == -1 <==> old(Free()) == 0
      ensures r == -1 ==> own1 == own0 && bat.words == old(bat.words)
      ensures r != -1 ==> 3 <= r < total && r !in own0 && own1 == own0[r := role] && Free() == old(Free()) - 1
                          && !Bit(old(bat.words), r)
    {
      r := BmAlloc();
      own1 := own0;
      if r != -1 {
        BitsWithBit(old(bat.words), r, true);
        own1 := own0[r := role];
      }
    }

    /** Takes a block for the given use and writes zeros to it. */
    method AllocZeroed(ghost role: Role, ghost own0: Owners) returns (r: int, ghost own1: Owners)
      requires Sound(Img(own0), total)
      modifies this`disk, bat
      ensures |bat.words| == 128 && Sound(Img(own1), total) && Grew(old(Img(own0)), Img(own1), role.fid, total, Nothing)
      ensures r == -1 <==> old(Free()) == 0
      ensures r == -1 ==> own1 == own0 && disk == old(disk)
      ensures r != -1 ==> 3 <= r < total && r !in own0 && own1 == own0[r := role] && !Bit(old(bat.words), r)
                          && disk == old(disk)[r := ZeroBlock()] && Free() == old(Free()) - 1
    {
      r, own1 := AllocBlock(role, own0);
      if r != -1 {
        disk := disk[r := ZeroBlock()];
      }
    }

    /** Clears the direct pointers from index `from` on. */
    method ClearDirect(from: nat)
      requires from <= DIRECT
      modifies this`inode
      ensures DirectZero(inode, from)
      ensures forall b :: 0 <= b < from ==> DirectBlock(inode, b) == DirectBlock(old(inode), b)
      ensures SameFrom(old(inode), inode, 8)
    {
      var i := from;
      while i < DIRECT
        invariant from <= i <= DIRECT
        invariant forall k :: (0 <= k < 1 + from || 1 + i <= k < WORDS_PER_BLOCK) ==> inode[k] == old(inode[k])
        invariant forall k :: 1 + from <= k < 1 + i ==> inode[k] == 0
      {
        inode := inode[1 + i := 0];
        i := i + 1;
      }
    }

    /** One step of the direct allocation: pointer i gets a fresh zeroed block, or -1. */
    method AllocDirectOne(i: nat, ghost m0: Image, ghost off: nat, ghost fid: nat, ghost own0: Owners)
      returns (ok: bool, ghost own1: Owners)
      requires off <= i < DIRECT && |bat.words| == 128 && Growing(m0, Img(own0), fid, off, i, total, Nothing)
      modifies this`disk, this`inode, bat
      ensures |bat.words| == 128 && SameFrom(old(inode), inode, 8)
      ensures Sound(Img(own1), total) && Grew(m0, Img(own1), fid, total, Nothing)
      ensures ok <==> old(Free()) > 0
      ensures ok ==>
                Growing(m0, Img(own1), fid, off, i + 1, total, Nothing)
                && Fresh(old(Img(own0)), DirectBlock(inode, i), total)
      ensures inode == old(inode)[1 + i := inode[1 + i]] && (!ok ==> DirectBlock(inode, i) == NONE)
      ensures FreeKept(old(Img(own0)), Img(own1), total) && Grew(old(Img(own0)), Img(own1), fid, total, Nothing)
    {
      hide Ptr; hide TreeCore; hide Bit; hide Kept; hide Zeroed; hide At; hide FreeCount;
      ghost var m := Img(own0);
      var r;
      r, own1 := AllocZeroed(Role(fid, Data(i)), own0);
      GrewTrans(m0, m, Img(own1), fid, total, Nothing, Nothing);
      inode := inode[1 + i := if r == -1 then NONE else r];
      ok := r != -1;
      if ok {
        GrowingDirect(m0, m, Img(own1), r, fid, off, i, total);
      }
    }

    /** Adds num direct blocks at index off and clears the direct pointers past them. */
    method AllocDirect(num: nat, off: nat, ghost fid: nat, ghost own0: Owners) returns (ok: bool, ghost own1: Owners)
      requires off < DIRECT && off + num <= DIRECT && Sound(Img(own0), total)
      requires TreeCore(disk, fid, inode, di, off, own0)
      modifies this`disk, this`inode, bat
      ensures |bat.words| == 128 && Sound(Img(own1), total) && Grew(old(Img(own0)), Img(own1), fid, total, Nothing)
      ensures ok <==> old(Free()) >= num
      ensures ok ==>
                Growing(old(Img(own0)), Img(own1), fid, off, off + num, total, Nothing) && DirectZero(inode, off + num)
      ensures SameFrom(old(inode), inode, 8)
      ensures SameDirect(old(inode), inode, off) && FreeKept(old(Img(own0)), Img(own1), total)
      ensures ok ==> FreshDirect(old(Img(own0)), inode, off, off + num, total) && TakenDirect(Img(own1), off, off + num)
      ensures !ok ==> RanOut(old(Img(own0)), Img(own1), fid, off, old(Free()), total)
    {
      hide Ptr; hide TreeCore; hide Bit; hide Grew; hide Kept; hide Zeroed; hide At; hide FreeCount; hide Fresh;
      own1 := own0;
      ghost var m0 := Img(own0);
      GrowingStart(m0, fid, off, total, Nothing);
      FreeKeptStart(m0, total);
      var i := off;
      while i < off + num
        invariant off <= i <= off + num && |bat.words| == 128
        invariant Growing(m0, Img(own1), fid, off, i, total, Nothing)
        invariant SameFrom(old(inode), inode, 8)
        invariant SameDirect(m0.ino, inode, off) && FreshDirect(m0, inode, off, i, total)
                  && FreeKept(m0, Img(own1), total)
      {
        ghost var m := Img(own1);
        ok, own1 := AllocDirectOne(i, m0, off, fid, own1);
        FreeKeptTrans(m0, m, Img(own1), fid, total);
        if !ok {
          RanOutDirect(m0, m, Img(own1), fid, off, i, old(Free()), total);
          return;
        }
        FreshDirectNext(m0, m, m.ino, inode, fid, off, i, total);
        i := i + 1;
      }
      ghost var m := Img(own1);
      ClearDirect(off + num);
      GrowingDirectTail(m0, m, inode, fid, off, off + num, total);
      DirectTaken(m0, Img(own1), fid, off, off + num, total);
      ok := true;
    }

    // -------------------------------------------------------------- one table

    /** One entry of the table buffer gets a fresh zeroed block, or -1. */
    method FillEntry(i: nat, ghost role: Role, ghost own0: Owners) returns (ok: bool, ghost own1: Owners)
      requires i < SINDIR && Sound(Img(own0), total)
      modifies this`disk, this`si, bat
      ensures |bat.words| == 128 && Sound(Img(own1), total) && Grew(old(Img(own0)), Img(own1), role.fid, total, Nothing)
      ensures ok <==> old(Free()) > 0
      ensures ok ==> Free() == old(Free()) - 1
      ensures si == old(si)[i := si[i]]
      ensures ok ==>
                si[i] < |disk| && si[i] !in own0 && own1 == own0[si[i] := role]
                && disk == old(disk)[si[i] := ZeroBlock()]
      ensures !ok ==> disk == old(disk) && own1 == own0
    {
      var r;
      r, own1 := AllocZeroed(role, own0);
      si := si[i := if r == -1 then NONE else r];
      ok := r != -1;
    }

    /** Fills entries offset..offset+num of the table buffer with fresh zeroed blocks. */
    method FillTable(todbl: int, offset: nat, num: nat, ghost fid: nat, ghost own0: Owners)
      returns (ok: bool, ghost own1: Owners)
      requires -1 <= todbl && offset + num <= SINDIR && Sound(Img(own0), total)
      modifies this`disk, this`si, bat
      ensures |bat.words| == 128 && Sound(Img(own1), total) && Grew(old(Img(own0)), Img(own1), fid, total, Nothing)
      ensures ok <==> old(Free()) >= num
      ensures ok ==> Free() == old(Free()) - num
      ensures ok ==> forall j :: offset <= j < offset + num ==>
                Holds(own1, si[j], Role(fid, Data(TableStart(todbl) + j))) && si[j] < |disk|
                  && disk[si[j]] == ZeroBlock()
      ensures ok ==> forall j :: 0 <= j < offset ==> si[j] == old(si[j])
    {
      hide Grew; hide Bit; hide FreeCount;
      own1 := own0;
      GrewRefl(Img(own0), fid, total, Nothing);
      var i := offset;
      while i < offset + num
        invariant offset <= i <= offset + num
        invariant |bat.words| == 128 && Sound(Img(own1), total) && Grew(old(Img(own0)), Img(own1), fid, total, Nothing)
        invariant Free() == old(Free()) - (i - offset)
        invariant forall j :: offset <= j < i ==>
                    Holds(own1, si[j], Role(fid, Data(TableStart(todbl) + j))) && si[j] < |disk|
                      && disk[si[j]] == ZeroBlock()
        invariant forall j :: 0 <= j < offset ==> si[j] == old(si[j])
      {
        ghost var m := Img(own1);
        ok, own1 := FillEntry(i, Role(fid, Data(TableStart(todbl) + i)), own1);
        GrewTrans(old(Img(own0)), m, Img(own1), fid, total, Nothing, Nothing);
        if !ok {
          return;
        }
        i := i + 1;
      }
      ok := true;
    }

    /** Clears the table buffer from entry `from` on. */
    method ClearTail(from: nat)
      requires from <= SINDIR
      modifies this`si
      ensures forall j :: 0 <= j < from ==> si[j] == old(si[j])
      ensures forall j :: from <= j < SINDIR ==> si[j] == 0
    {
      var i := from;
      while i < SINDIR
        invariant from <= i <= SINDIR
        invariant forall j :: (0 <= j < from || i <= j < SINDIR) ==> si[j] == old(si[j])
        invariant forall j :: from <= j < i ==> si[j] == 0
      {
        si := si[i := 0];
        i := i + 1;
      }
    }

    /** Loads the table buffer from block t, fills num entries and clears the rest. */
    method LoadAndFill(todbl: int, offset: nat, num: nat, t: nat, ghost fid: nat, ghost own0: Owners)
      returns (ok: bool, ghost own1: Owners)
      requires -1 <= todbl && offset + num <= SINDIR && Sound(Img(own0), total)
      modifies this`disk, this`si, bat
      ensures |bat.words| == 128 && Sound(Img(own1), total) && Grew(old(Img(own0)), Img(own1), fid, total, Nothing)
      ensures ok <==> old(Free()) >= num
      ensures ok ==> Free() == old(Free()) - num
      ensures ok ==> TableFilled(old(Img(own0)), Img(own1), fid, todbl, offset, num, t, si, total)
    {
      hide Ptr; hide Grew; hide Bit; hide FreeCount; hide At;
      si := At(disk, t);
      ok, own1 := FillTable(todbl, offset, num, fid, own0);
      if ok {
        ClearTail(offset + num);
      }
    }

    /** Finds the table block through its pointer, allocating it when the pointer is zero. */
    method TableFor(todbl: int, offset: nat, ghost fid: nat, ghost own0: Owners) returns (r: int, ghost own1: Owners)
      requires -1 <= todbl < SINDIR && offset < SINDIR && Sound(Img(own0), total)
      requires TreeCore(disk, fid, inode, di, TableStart(todbl) + offset, own0)
      requires todbl >= 0 ==> DoubleZero(inode, di, TableStart(todbl) + offset)
      modifies this`inode, this`di, bat
      ensures |bat.words| == 128 && Sound(Img(own1), total) && Grew(old(Img(own0)), Img(own1), fid, total, Nothing)
      ensures OnePointerSet(old(inode), old(di), inode, di, todbl)
      ensures r == -1 <==> offset == 0 && old(Free()) == 0
      ensures r != -1 ==> Free() == old(Free()) - (if offset == 0 then 1 else 0)
      ensures r != -1 ==> 0 <= r < total && TableFound(old(Img(own0)), Img(own1), fid, todbl, offset, r, total)
      ensures r != -1 && offset == 0 ==> Fresh(old(Img(own0)), r, total)
      ensures r == -1 && todbl == -1 ==> inode[8] == NONE
    {
      hide Ptr; hide At; hide FreeCount; hide Bit; hide WithBit; hide TailZero; hide DataOwned;
      own1 := own0;
      GrewRefl(Img(own0), fid, total, Nothing);
      var ind: int := if todbl >= 0 then di[todbl] else inode[8];
      assert ind == TableBlock(inode, di, todbl + 1);
      assert offset > 0 ==> Holds(own0, TableBlock(inode, di, todbl + 1), Role(fid, Table(todbl + 1)));
      if ind == 0 {
        assert offset == 0;
        r, own1 := AllocBlock(Role(fid, Table(todbl + 1)), own0);
        var w: Word := if r == -1 then NONE else r;
        if todbl >= 0 { di := di[todbl := w]; } else { inode := inode[8 := w]; }
      } else {
        r := ind;
        assert offset > 0;
      }
    }

    /**
     Adds num data blocks to one table, at entries offset.., allocating the table itself
     when its pointer is zero. Table todbl of the double-indirect block, or the
     single-indirect table when todbl is -1.
    */
    method AllocIndir(todbl: int, num: nat, offset: nat, ghost fid: nat, ghost own0: Owners)
      returns (ok: bool, ghost own1: Owners)
      requires -1 <= todbl < SINDIR && 0 < num && offset + num <= SINDIR
      requires Sound(Img(own0), total)
      requires TreeCore(disk, fid, inode, di, TableStart(todbl) + offset, own0)
      requires todbl >= 0 ==> DoubleZero(inode, di, TableStart(todbl) + offset)
      modifies this`disk, this`inode, this`si, this`di, bat
      ensures |bat.words| == 128 && Sound(Img(own1), total) && Grew(old(Img(own0)), Img(own1), fid, total, TablesOnly)
      ensures OnePointerSet(old(inode), old(di), inode, di, todbl)
      ensures ok <==> old(Free()) >= Cost(TableStart(todbl) + offset + num) - Cost(TableStart(todbl) + offset)
      ensures ok ==>
                Growing(old(Img(own0)), Img(own1), fid, TableStart(todbl) + offset, TableStart(todbl) + offset + num,
                  total, TablesOnly)
      ensures !ok ==> TableRanOut(old(Img(own0)), Img(own1), fid, todbl, offset, total)
    {
      hide Ptr; hide Encode; hide Decode; hide Grew; hide TreeCore; hide Kept; hide Zeroed; hide Bit; hide FreeCount;
      hide At; hide Cost; hide DoubleZero; hide TableFound; hide TableFilled; hide OnePointerSet; hide Fresh;
      hide TableRanOut;
      ghost var m0 := Img(own0);
      CostInTable(todbl + 1, offset, num);
      var ind;
      ind, own1 := TableFor(todbl, offset, fid, own0);
      ghost var m1 := Img(own1);
      if ind == -1 {
        GrewWeaken(m0, m1, fid, total, TablesOnly);
        NoTable(m0, m1, fid, todbl, offset, total);
        return false, own1;
      }
      ok, own1 := LoadAndFill(todbl, offset, num, ind, fid, own1);
      ghost var m2 := Img(own1);
      GrewTrans(m0, m1, m2, fid, total, Nothing, Nothing);
      if !ok {
        GrewWeaken(m0, m2, fid, total, TablesOnly);
        NoEntry(m0, m1, m2, fid, todbl, offset, ind, total);
        return;
      }
      GrowingTable(m0, m1, m2, fid, todbl, offset, num, ind, si, total);
      disk := disk[ind := Encode(si)];
    }

    // -------------------------------------------------------------- many tables

    /**
     The direct and single-indirect part of growing a file of n blocks by num; left is what
     remains for the double-indirect block.
    */
    method AllocLow(num: nat, n: nat, ghost fid: nat, ghost own0: Owners) returns (ok: bool, left: nat,
                    ghost own1: Owners)
      requires n <= DIRECT + SINDIR && Sound(Img(own0), total)
      requires TreeCore(disk, fid, inode, di, n, own0)
      modifies this`disk, this`inode, this`si, this`di, bat
      ensures |bat.words| == 128 && Sound(Img(own1), total) && Grew(old(Img(own0)), Img(own1), fid, total, TablesOnly)
      ensures ok <==> old(Free()) >= Cost(LowEnd(n + num)) - Cost(n)
      ensures ok ==> left == n + num - LowEnd(n + num)
      ensures ok ==>
                Growing(old(Img(own0)), Img(own1), fid, n, LowEnd(n + num), total, TablesOnly)
                && DirectZero(inode, LowEnd(n + num))
      ensures SameFrom(old(inode), inode, 9) && di == old(di)
      ensures !ok && n <= DIRECT ==> RanOut(old(Img(own0)), Img(own1), fid, n, old(Free()), total)
      ensures !ok && n > DIRECT ==> AsBefore(old(Img(own0)), Img(own1), fid, total)
    {
      hide Ptr; hide TreeCore; hide Kept; hide Zeroed; hide Bit; hide FreeCount; hide At; hide Cost; hide Grew;
      hide DoubleZero; hide AsBefore; hide Fresh; hide FreeKept; hide TableRanOut; hide RanOut; hide SameDirect;
      hide FreshDirect;
      hide TakenDirect;
      own1 := own0;
      ghost var m0 := Img(own0);
      LowStart(m0, fid, n, total);
      GrowingStart(m0, fid, n, total, Nothing);
      GrewRefl(m0, fid, total, Nothing);
      CostDirect(n, LowEnd(n + num));
      left := num;
      var offset := n;
      if offset < DIRECT {
        var tmp := if left < DIRECT - offset then left else DIRECT - offset;
        left := left - tmp;
        ok, own1 := AllocDirect(tmp, offset, fid, own1);
        if !ok {
          GrewWeaken(m0, Img(own1), fid, total, TablesOnly);
          return;
        }
        offset := DIRECT;
      }
      ghost var m1 := Img(own1);
      GrewWeaken(m0, m1, fid, total, TablesOnly);
      GrowingWeaken(m0, m1, fid, n, n + num - left, total);
      if left > 0 && offset < DIRECT + SINDIR {
        var tmp := if left < SINDIR + DIRECT - offset then left else SINDIR + DIRECT - offset;
        left := left - tmp;
        ok, own1 := AllocSingle(tmp, offset, m0, n, fid, own1);
        if !ok {
          return;
        }
      }
      ok := true;
    }

    /** The single-indirect part, for a file that has grown from n to offset blocks since m0. */
    method AllocSingle(num: nat, offset: nat, ghost m0: Image, ghost n: nat, ghost fid: nat, ghost own0: Owners)
      returns (ok: bool, ghost own1: Owners)
      requires 0 < num && DIRECT <= offset && offset + num <= DIRECT + SINDIR && |bat.words| == 128
      requires Growing(m0, Img(own0), fid, n, offset, total, Nothing)
      requires FreeKept(m0, Img(own0), total) && SameDirect(m0.ino, inode, n)
               && FreshDirect(m0, inode, n, DIRECT, total) && TakenDirect(Img(own0), n, DIRECT)
      requires if n <= DIRECT then offset == DIRECT else Img(own0) == m0
      modifies this`disk, this`inode, this`si, this`di, bat
      ensures |bat.words| == 128 && Sound(Img(own1), total) && Grew(m0, Img(own1), fid, total, TablesOnly)
      ensures inode == old(inode)[8 := inode[8]] && di == old(di)
      ensures ok <==> old(Free()) >= Cost(offset + num) - Cost(offset)
      ensures ok ==> Growing(m0, Img(own1), fid, n, offset + num, total, TablesOnly)
      ensures !ok && n <= DIRECT ==> RanOut(m0, Img(own1), fid, n, FreeCount(m0.bat, total), total)
      ensures !ok && n > DIRECT ==> AsBefore(m0, Img(own1), fid, total)
    {
      hide Ptr; hide TreeCore; hide Kept; hide Zeroed; hide Bit; hide FreeCount; hide At; hide Cost; hide Grew;
      hide DoubleZero; hide AsBefore; hide Fresh; hide FreeKept; hide TableRanOut; hide RanOut; hide SameDirect;
      hide FreshDirect; hide TakenDirect;
      ghost var m1 := Img(own0);
      ok, own1 := AllocIndir(-1, num, offset - DIRECT, fid, own0);
      GrewWeaken(m0, m1, fid, total, TablesOnly);
      GrewTrans(m0, m1, Img(own1), fid, total, TablesOnly, TablesOnly);
      if ok {
        GrowingWeaken(m0, m1, fid, n, offset, total);
        GrowingTrans(m0, m1, Img(own1), fid, n, offset, offset + num, total, TablesOnly, TablesOnly);
      } else {
        TailRanOut(m1, Img(own1), fid, -1, offset - DIRECT, total);
        if n <= DIRECT {
          LowRanOut(m0, m1, Img(own1), fid, n, FreeCount(m0.bat, total), total);
        }
      }
    }

    /** One table of the double-indirect block. */
    method DoubleStep(i: nat, num: nat, offset: nat, ghost m0: Image, ghost n: nat, ghost fid: nat, ghost own0: Owners)
      returns (ok: bool, ghost own1: Owners)
      requires i < SINDIR && 0 < num && offset + num <= SINDIR && |bat.words| == 128
      requires Growing(m0, Img(own0), fid, n, TableStart(i) + offset, total, AllPointers)
      requires DoubleZero(inode, di, TableStart(i) + offset) && Holds(own0, inode[9], Role(fid, Double))
      modifies this`disk, this`inode, this`si, this`di, bat
      ensures |bat.words| == 128 && Sound(Img(own1), total) && Grew(m0, Img(own1), fid, total, AllPointers)
      ensures inode == old(inode)
      ensures ok <==> old(Free()) >= Cost(TableStart(i) + offset + num) - Cost(TableStart(i) + offset)
      ensures ok ==> Growing(m0, Img(own1), fid, n, TableStart(i) + offset + num, total, AllPointers)
      ensures ok ==> DoubleZero(inode, di, TableStart(i) + offset + num) && Holds(own1, inode[9], Role(fid, Double))
      ensures !ok && offset > 0 ==> AsBefore(old(Img(own0)), Img(own1), fid, total)
    {
      hide Ptr; hide TreeCore; hide Kept; hide Zeroed; hide Bit; hide FreeCount; hide At; hide Cost; hide Grew;
      hide DoubleZero; hide Holds; hide AsBefore; hide TableRanOut;
      ghost var m := Img(own0);
      ok, own1 := AllocIndir(i, num, offset, fid, own0);
      GrewTrans(m0, m, Img(own1), fid, total, AllPointers, TablesOnly);
      if ok {
        GrowingTrans(m0, m, Img(own1), fid, n, TableStart(i) + offset, TableStart(i) + offset + num, total,
                     AllPointers, TablesOnly);
        DoubleZeroStep(m, Img(own1), fid, i, TableStart(i) + offset, num, total);
      } else {
        TailRanOut(m, Img(own1), fid, i, offset, total);
      }
    }

    /** Adds num blocks under the double-indirect block, at logical block n, one table after the other. */
    method AllocDoubles(num: nat, n: nat, ghost fid: nat, ghost own0: Owners) returns (ok: bool, ghost own1: Owners)
      requires 0 < num && DIRECT + SINDIR <= n && n + num <= MAX_BLOCKS && Sound(Img(own0), total)
      requires TreeCore(disk, fid, inode, At(disk, inode[9]), n, own0)
      requires DoubleZero(inode, At(disk, inode[9]), n) && Holds(own0, inode[9], Role(fid, Double))
      modifies this`disk, this`inode, this`si, this`di, bat
      ensures |bat.words| == 128 && Sound(Img(own1), total)
      ensures inode == old(inode)
      ensures var m0 := old(Img(own0)).(di := At(old(disk), inode[9]));
              && Grew(m0, Img(own1), fid, total, AllPointers)
              && (ok ==> Growing(m0, Img(own1), fid, n, n + num, total, AllPointers))
      ensures ok <==> old(Free()) >= Cost(n + num) - Cost(n)
      ensures ok ==>
                di == At(disk, inode[9]) && DoubleZero(inode, di, n + num) && Holds(own1, inode[9], Role(fid, Double))
      ensures TailFails(n, num, old(Free())) ==>
                AsBefore(old(Img(own0)).(di := At(old(disk), inode[9])), Img(own1), fid, total)
    {
      hide Ptr; hide TreeCore; hide Kept; hide Zeroed; hide Bit; hide FreeCount; hide At; hide Cost; hide Grew;
      hide DoubleZero; hide Holds; hide AsBefore; hide InLastTable;
      if InLastTable(n, n + num) {
        InLastCost(n, n + num);
      }
      own1 := own0;
      di := At(disk, inode[9]);
      ghost var m0 := Img(own0);
      GrowingStart(m0, fid, n, total, AllPointers);
      var i := (n - (DIRECT + SINDIR)) / SINDIR;
      var offset := (n - (DIRECT + SINDIR)) % SINDIR;
      var left := num;
      while left > 0
        invariant 0 <= left <= num && 0 <= offset < SINDIR && 0 <= i
        invariant left > 0 ==> n + num - left == TableStart(i) + offset
        invariant inode == old(inode) && |bat.words| == 128
        invariant Growing(m0, Img(own1), fid, n, n + num - left, total, AllPointers)
        invariant DoubleZero(inode, di, n + num - left) && Holds(own1, inode[9], Role(fid, Double))
        invariant InLastTable(n, n + num) && left > 0 ==>
                    left == num && Img(own1) == m0 && offset == (n - DIRECT) % SINDIR
      {
        var towrite := if left < SINDIR - offset then left else SINDIR - offset;
        CostMonotone(n + num - left + towrite, n + num);
        ok, own1 := DoubleStep(i, towrite, offset, m0, n, fid, own1);
        if !ok {
          return;
        }
        left := left - towrite;
        offset := 0;
        i := i + 1;
      }
      GrowingDouble(m0, Img(own1), fid, n, n + num, total);
      disk := disk[inode[9] := Encode(di)];
      ok := true;
    }

    /** The growing part of AllocBlocks: everything but writing the allocation bitmap. */
    method AllocTree(num: nat, n: nat, ghost fid: nat, ghost own0: Owners) returns (ok: bool, ghost own1: Owners)
      requires n + num <= MAX_BLOCKS && Sound(Img(own0), total)
      requires TreeCore(disk, fid, inode, At(disk, inode[9]), n, own0)
      requires n + num > DIRECT + SINDIR ==>
                 DoubleZero(inode, At(disk, inode[9]), n) && Holds(own0, inode[9], Role(fid, Double))
      modifies this`disk, this`inode, this`si, this`di, bat
      ensures |bat.words| == 128 && SameFrom(old(inode), inode, 9)
      ensures ok <==> old(Free()) >= Cost(n + num) - Cost(n)
      ensures var m0 := old(Img(own0)).(di := At(old(disk), old(inode[9])));
                var m1 := Img(own1).(di := At(disk, inode[9]));
              && Sound(m1, total) && Grew(m0, m1, fid, total, AllPointers)
              && (ok ==> Growing(m0, m1, fid, n, n + num, total, AllPointers))
      ensures ok ==> DirectZero(inode, n + num)
      ensures ok && n + num > DIRECT + SINDIR ==>
                DoubleZero(inode, At(disk, inode[9]), n + num) && Holds(own1, inode[9], Role(fid, Double))
      ensures ok && n + num > DIRECT + SINDIR && num > 0 ==> di == At(disk, inode[9])
      ensures LowFails(n, num, old(Free())) ==> RanOut(old(Img(own0)), Img(own1), fid, n, old(Free()), total)
      ensures TailFails(n, num, old(Free())) ==>
                TailKept(old(Img(own0)), Img(own1), At(old(disk), old(inode[9])), fid, n, total)
    {
      hide Ptr; hide TreeCore; hide Kept; hide Zeroed; hide Bit; hide FreeCount; hide At; hide Cost; hide Grew;
      hide DoubleZero; hide Holds; hide RanOut; hide InLastTable;
      if InLastTable(n, n + num) {
        InLastCost(n, n + num);
      }
      own1 := own0;
      ghost var m0 := Img(own0).(di := At(disk, inode[9]));
      GrowingStart(m0, fid, n, total, AllPointers);
      CostMonotone(n, n + num);
      var left := num;
      if n <= DIRECT + SINDIR {
        // both parts are skipped in a longer file
        DoubleIrrelevant(disk, fid, inode, At(disk, inode[9]), di, n, own0);
        ghost var m := Img(own0);
        ok, left, own1 := AllocLow(num, n, fid, own1);
        CostMonotone(LowEnd(n + num), n + num);
        GrewLow(m, Img(own1), fid, total, m0.di, At(disk, inode[9]));
        if !ok {
          return;
        }
        GrowingLow(m, Img(own1), fid, n, LowEnd(n + num), total, TablesOnly, m0.di, At(disk, inode[9]));
        GrowingAll(m0, Img(own1).(di := At(disk, inode[9])), fid, n, LowEnd(n + num), total);
        if left > 0 {
          DoubleStays(m, Img(own1), fid, n, LowEnd(n + num), total);
        }
      }
      ghost var m1 := Img(own1).(di := At(disk, inode[9]));
      if left > 0 {
        ok, own1 := AllocDoubles(left, n + num - left, fid, own1);
        GrewLow2(m0, m1, Img(own1), fid, total, At(disk, inode[9]));
        if !ok {
          if TailFails(n, num, old(Free())) {
            AsBeforeKept(old(Img(own0)), Img(own1), m0.di, fid, n, total);
          }
          return;
        }
        GrowingTrans(m0, m1, Img(own1), fid, n, n + num - left, n + num, total, AllPointers, AllPointers);
      }
      ok := true;
    }

    /**
     Adds num blocks to the file in the inode buffer, which has n so far, and writes the
     allocation bitmap. mid is the state just before the bitmap is written.
    */
    method AllocBlocks(num: nat, n: nat, ghost fid: nat, ghost own0: Owners) returns (ok: bool, ghost mid: Image)
      requires n + num <= MAX_BLOCKS && Sound(Img(own0), total)
      requires TreeCore(disk, fid, inode, At(disk, inode[9]), n, own0)
      requires n + num > DIRECT + SINDIR ==>
                 DoubleZero(inode, At(disk, inode[9]), n) && Holds(own0, inode[9], Role(fid, Double))
      modifies this`disk, this`inode, this`si, this`di, bat
      ensures |bat.words| == 128 && SameFrom(old(inode), inode, 9)
      ensures ok <==> old(Free()) >= Cost(n + num) - Cost(n)
      ensures var m0 := old(Img(own0)).(di := At(old(disk), old(inode[9])));
              && Sound(mid, total) && Grew(m0, mid, fid, total, AllPointers)
              && (ok ==> Growing(m0, mid, fid, n, n + num, total, AllPointers))
      ensures mid.bat == bat.words && mid.ino == inode && mid.di == At(mid.d, inode[9])
      ensures disk == if ok then mid.d[ALLOCATION_BLOCK := Encode(bat.words)] else mid.d
      ensures ok ==> DirectZero(inode, n + num)
      ensures ok && n + num > DIRECT + SINDIR ==>
                DoubleZero(inode, mid.di, n + num) && Holds(mid.own, inode[9], Role(fid, Double))
      ensures ok && n + num > DIRECT + SINDIR && num > 0 ==> di == mid.di
      ensures LowFails(n, num, old(Free())) ==> !ok && RanOut(old(Img(own0)), mid, fid, n, old(Free()), total)
      ensures TailFails(n, num, old(Free())) ==>
                !ok && TailKept(old(Img(own0)), mid.(di := di), At(old(disk), old(inode[9])), fid, n, total)
    {
      hide Ptr; hide TreeCore; hide Kept; hide Zeroed; hide Bit; hide FreeCount; hide At; hide Cost; hide Grew;
      hide DoubleZero; hide Holds; hide Growing; hide RanOut; hide TailKept; hide InLastTable;
      LowFailsFails(n, num, old(Free()));
      if InLastTable(n, n + num) {
        InLastCost(n, n + num);
      }
      ghost var m0 := Img(own0);
      ghost var own1;
      ok, own1 := AllocTree(num, n, fid, own0);
      mid := Img(own1).(di := At(disk, inode[9]));
      if LowFails(n, num, old(Free())) {
        RanOutBuffers(m0, Img(own1), mid, fid, n, old(Free()), total);
      }
      if ok {
        disk := disk[ALLOCATION_BLOCK := Encode(bat.words)];
      }
    }

    // -------------------------------------------------------------- data

    /** Reads a block into the bitmap buffer, which doubles as data buffer; its bytes are the answer. */
    method LoadData(x: nat) returns (data: Block)
      requires x < |disk|
      modifies bat
      ensures |bat.words| == 128 && data == disk[x]
    {
      EncodeDecode(disk[x]);
      bat.words := Decode(disk[x]);
      data := Encode(bat.words);
    }

    /** The disk block of a logical block; flag 0 reloads the table buffer, any other trusts it. */
    method GetBlock(block: nat, flag: int) returns (x: Word)
      requires block < MAX_BLOCKS
      modifies this`si
      ensures x == Answer(disk, inode, di, old(si), block, flag)
              && si == Buffered(disk, inode, di, old(si), block, flag)
      ensures (flag != 0 ==> Cached(disk, inode, di, old(si), block))
              && (block >= DIRECT ==> TableOf(inode, di, block) < |disk|) ==>
                x == Ptr(disk, inode, di, block) && Cached(disk, inode, di, si, block)
    {
      hide Decode;
      if block < DIRECT {
        return DirectBlock(inode, block);
      }
      var b := block - DIRECT;
      if b < SINDIR {
        if flag == 0 {
          if inode[8] >= |disk| {
            return NO_TABLE;
          }
          si := At(disk, inode[8]);
        }
        return si[b];
      }
      b := b - SINDIR;
      var indir := b / SINDIR;
      b := b % SINDIR;
      assert (block - DIRECT) / SINDIR == indir + 1 && (block - DIRECT) % SINDIR == b;
      if flag == 0 {
        if di[indir] >= |disk| {
          return NO_TABLE;
        }
        si := At(disk, di[indir]);
      }
      return si[b];
    }

    /** The inode and double-indirect buffers hold file fid. */
    ghost predicate Loaded(fid: nat)
      reads this
    {
      && Sound(VolumeImage(disk, own), total) && inode == At(disk, fid)
      && OpenTree(disk, fid, inode, di, NumBlocks(FileSize(disk, fid)), own)
    }

    /** One block of the read loop. */
    method ReadBlock(b: nat, b1: nat, b2: nat, bufsize: nat, offset: nat, fid: nat, read: nat, buffer: seq<Byte>)
      returns (read': nat, buffer': seq<Byte>)
      requires Loaded(fid) && |bat.words| == 128
      requires 0 < bufsize && offset + bufsize <= FileSize(disk, fid)
      requires b1 == offset / BLOCK_SIZE && b2 == (offset + bufsize - 1) / BLOCK_SIZE && b1 <= b <= b2
      requires read == if b == b1 then 0 else BLOCK_SIZE * b - offset
      requires buffer == FileBytes(disk, fid)[offset..offset + read]
      requires Cached(disk, inode, di, si, if b == b1 then b1 else b - 1)
      modifies this`si, bat
      ensures |bat.words| == 128 && Loaded(fid)
      ensures read' == if b == b2 then bufsize else BLOCK_SIZE * (b + 1) - offset
      ensures buffer' == FileBytes(disk, fid)[offset..offset + read']
      ensures Cached(disk, inode, di, si, b)
    {
      hide Ptr; hide At; hide DataOwned; hide TablesOwned; hide TailZero; hide Bit; hide DirectZero; hide DoubleZero;
      hide Cached; hide BlockOf; hide FileBytes; hide FileSize;
      assert b < NumBlocks(FileSize(disk, fid));
      if b > b1 && (b - DIRECT) % SINDIR != 0 {
        CacheCarries(disk, inode, di, si, b);
      }
      if b >= DIRECT {
        TableInRange(disk, fid, inode, di, NumBlocks(FileSize(disk, fid)), own, b, total);
      }
      var block := GetBlock(b, (b - DIRECT) % SINDIR);
      OpenBlock(disk, fid, di, b, own, total);
      var data := LoadData(block);
      var lo, hi;
      if b == b1 {
        read' := if BLOCK_SIZE - offset % BLOCK_SIZE < bufsize then BLOCK_SIZE - offset % BLOCK_SIZE else bufsize;
        lo, hi := offset % BLOCK_SIZE, offset % BLOCK_SIZE + read';
      } else if b == b2 {
        read' := bufsize;
        lo, hi := 0, bufsize - read;
      } else {
        read' := read + BLOCK_SIZE;
        lo, hi := 0, BLOCK_SIZE;
      }
      buffer' := buffer + data[lo..hi];
      AppendRun(disk, fid, b, lo, hi, offset, read);
    }

    /** Reads up to bufsize bytes at an offset; the answer is the count and the bytes, or an error code. */
    method Read(fileid: int, bufsize: nat, offset: int) returns (r: int, buffer: seq<Byte>)
      requires Valid() && (2 <= fileid < total ==> IsFile(disk[DIRECTORY_BLOCK], fileid))
      requires fileid == total ==> |disk| == total
      modifies this`inode, this`si, this`di, bat
      ensures Valid()
      ensures r == if fileid < 2 || fileid >= total then VFS_ERROR
                   else if offset < 0 || offset > FileSize(disk, fileid) then VFS_INVALID_PARAMS
                   else if bufsize < FileSize(disk, fileid) - offset then bufsize else FileSize(disk, fileid) - offset
      ensures r >= 0 ==> buffer == FileBytes(disk, fileid)[offset..offset + r]
    {
      hide Ptr; hide At; hide TreeCore; hide Bit; hide DirectZero; hide DoubleZero; hide Cached; hide BlockOf;
      hide FileBytes; hide EntryInode; hide EntryName;
      if fileid < 2 || fileid > total {
        return VFS_ERROR, [];
      }
      if fileid >= |disk| {
        return VFS_ERROR, [];
      }
      FileIsOk(disk, own, total, fileid);
      inode := At(disk, fileid);
      if offset < 0 || offset > inode[0] {
        return VFS_INVALID_PARAMS, [];
      }
      var size := if bufsize < inode[0] - offset then bufsize else inode[0] - offset;
      if size == 0 {
        return 0, [];
      }
      var b1 := offset / BLOCK_SIZE;
      var b2 := (offset + size - 1) / BLOCK_SIZE;
      if inode[9] > 0 {
        di := At(disk, inode[9]);
      }
      TreeIsOpenTree(disk, fileid, inode, di, NumBlocks(inode[0]), own);
      r, buffer := ReadLoop(b1, b2, size, offset, fileid);
    }

    method ReadLoop(b1: nat, b2: nat, size: nat, offset: nat, fid: nat) returns (r: nat, buffer: seq<Byte>)
      requires Loaded(fid) && |bat.words| == 128
      requires 0 < size && offset + size <= FileSize(disk, fid)
      requires b1 == offset / BLOCK_SIZE && b2 == (offset + size - 1) / BLOCK_SIZE
      modifies this`si, bat
      ensures |bat.words| == 128
      ensures r == size && buffer == FileBytes(disk, fid)[offset..offset + size]
    {
      hide Ptr; hide At; hide DataOwned; hide TablesOwned; hide TailZero; hide Bit; hide DirectZero; hide DoubleZero;
      hide Cached; hide BlockOf; hide FileBytes; hide FileSize;
      r, buffer := 0, [];
      assert b2 < NumBlocks(FileSize(disk, fid));
      if b1 >= DIRECT {
        TableInRange(disk, fid, inode, di, NumBlocks(FileSize(disk, fid)), own, b1, total);
      }
      var first := GetBlock(b1, 0);
      var b := b1;
      while b <= b2
        invariant b1 <= b <= b2 + 1
        invariant Loaded(fid) && |bat.words| == 128
        invariant r == if b == b1 then 0 else if b == b2 + 1 then size else BLOCK_SIZE * b - offset
        invariant r <= size && buffer == FileBytes(disk, fid)[offset..offset + r]
        invariant Cached(disk, inode, di, si, if b == b1 then b1 else b - 1)
      {
        r, buffer := ReadBlock(b, b1, b2, size, offset, fid, r, buffer);
        b := b + 1;
      }
    }

    /** One block of the write loop, wherever its number comes from; a request past the end of the disk fails. */
    method WriteBlock(b: nat, b1: nat, b2: nat, data: seq<Byte>, offset: nat, written: nat) returns (ok: bool,
                      written': nat)
      requires |bat.words| == 128 && b < MAX_BLOCKS
      requires 0 < |data| && b1 == offset / BLOCK_SIZE && b2 == (offset + |data| - 1) / BLOCK_SIZE && b1 <= b <= b2
      requires written == if b == b1 then 0 else BLOCK_SIZE * b - offset
      modifies this`disk, this`si, bat
      ensures |bat.words| == 128 && si == Buffered(old(disk), inode, di, old(si), b, (b - DIRECT) % SINDIR)
      ensures written' == if b == b2 then |data| else BLOCK_SIZE * (b + 1) - offset
      ensures var x := Answer(old(disk), inode, di, old(si), b, (b - DIRECT) % SINDIR);
              && (ok <==> x < |old(disk)|)
              && disk == if ok then old(disk)[x := Overlay(old(disk)[x], b, data, offset)] else old(disk)
    {
      hide At; hide Bit; hide Overlay; hide Decode; hide Encode; hide Answer; hide Buffered;
      var block := GetBlock(b, (b - DIRECT) % SINDIR);
      var lo, hi;
      if b == b1 {
        written' := if BLOCK_SIZE - offset % BLOCK_SIZE < |data| then BLOCK_SIZE - offset % BLOCK_SIZE else |data|;
        lo, hi := offset % BLOCK_SIZE, offset % BLOCK_SIZE + written';
      } else if b == b2 {
        written' := |data|;
        lo, hi := 0, |data| - written;
      } else {
        written' := written + BLOCK_SIZE;
        lo, hi := 0, BLOCK_SIZE;
      }
      if block >= |disk| {
        return false, written';
      }
      var buf: Block;
      if b == b1 || b == b2 {
        buf := LoadData(block);
      } else {
        buf := Encode(bat.words);    // stale bytes, all overwritten
      }
      PartialOverlay(disk[block], b, data, offset, lo, hi, written);
      buf := buf[..lo] + data[written..written + (hi - lo)] + buf[hi..];
      disk := disk[block := buf];
      ok := true;
    }

    /** The write loop; its outcome is that of the targets tgt, if these are what it meets. */
    method WriteLoop(b1: nat, b2: nat, data: seq<Byte>, offset: nat, ghost tgt: seq<Word>) returns (r: int)
      requires |bat.words| == 128 && b2 < MAX_BLOCKS
      requires 0 < |data| && b1 == offset / BLOCK_SIZE && b2 == (offset + |data| - 1) / BLOCK_SIZE
      modifies this`disk, this`si, bat
      ensures |bat.words| == 128 && |disk| == |old(disk)| && (r == |data| || r == VFS_ERROR)
      ensures Steady(old(disk), inode, di, tgt, b1, b2) ==> Outcome(old(disk), tgt, b1, data, offset, disk, r)
    {
      hide Ptr; hide At; hide Bit; hide Overlay; hide Decode; hide Encode; hide Steady; hide Answer; hide Buffered;
      hide Holding; hide Outcome; hide Pass;
      ghost var d0 := disk;
      FirstTable(disk, inode, di, si, b1);
      var first := GetBlock(b1, 0);
      ghost var steady := Steady(d0, inode, di, tgt, b1, b2);
      SteadyParts(d0, inode, di, tgt, b1, b2);
      PassStart(d0, tgt, b1, data, offset);
      var written := 0;
      var b := b1;
      while b <= b2
        invariant b1 <= b <= b2 + 1 && |bat.words| == 128 && |disk| == |d0|
        invariant written == if b == b1 then 0 else if b == b2 + 1 then |data| else BLOCK_SIZE * b - offset
        invariant steady ==> b <= |tgt| && (forall c :: b1 <= c < b ==> tgt[c] < |d0|)
        invariant steady ==> disk == Pass(d0, tgt, b1, b, data, offset)
        invariant steady ==> Holding(d0, inode, di, si, if b == b1 then b1 else b - 1)
      {
        if steady && b < |tgt| {
          StepAnswer(d0, inode, di, si, tgt, b1, b2, b, data, offset);
          PassNext(d0, tgt, b1, b, data, offset);
          LoopOutcome(d0, inode, di, tgt, b1, b2, b, data, offset);
        }
        var ok;
        ok, written := WriteBlock(b, b1, b2, data, offset, written);
        if !ok {
          return VFS_ERROR;
        }
        b := b + 1;
      }
      if steady {
        LoopOutcome(d0, inode, di, tgt, b1, b2, b, data, offset);
      }
      r := written;
    }

    // -------------------------------------------------------------- growing for a write

    /** The image of the volume with the inode buffer loaded and its double-indirect block alongside. */
    ghost function Full(own1: Owners): Image
      reads this, bat
    {
      Image(disk, bat.words, own1, inode, At(disk, inode[9]))
    }

    /** Takes a zeroed double-indirect block for the file in the inode buffer. */
    method AllocDouble(n: nat, ghost fid: nat, ghost own0: Owners) returns (r: int, ghost own1: Owners)
      requires Sound(Full(own0), total) && n <= DIRECT + SINDIR
      requires TreeCore(disk, fid, inode, At(disk, inode[9]), n, own0)
      modifies this`disk, this`inode, bat
      ensures |bat.words| == 128 && Sound(Full(own1), total)
      ensures r == -1 <==> old(Free()) == 0
      ensures r == -1 ==> disk == old(disk)
      ensures r != -1 ==> Free() == old(Free()) - 1
      ensures r != -1 ==> 0 <= r < total && inode == old(inode)[9 := r]
      ensures r != -1 && DirectZero(old(inode), n) ==> DirectZero(inode, n)
      ensures r != -1 ==> Grown(old(Full(own0)), Full(own1), fid, n, n, total, Nothing)
      ensures r != -1 ==> FreeKept(old(Full(own0)), Full(own1), total)
      ensures r != -1 ==> DoubleZero(inode, At(disk, inode[9]), n) && Holds(own1, inode[9], Role(fid, Double))
    {
      hide Ptr; hide TreeCore; hide FreeCount; hide Bit; hide At; hide Kept; hide Zeroed; hide DoubleZero;
      ghost var m := Full(own0);
      r, own1 := AllocZeroed(Role(fid, Double), own0);
      if r != -1 && DirectZero(inode, n) {
        DirectZeroNine(inode, r, n);
      }
      inode := inode[9 := if r == -1 then NONE else r];
      if r != -1 {
        GrownNewDouble(m, Full(own1), r, fid, n, total);
      }
    }

    /** Takes the first block of an empty file. */
    method AllocFirst(ghost fid: nat, ghost own0: Owners) returns (r: int, ghost own1: Owners)
      requires Sound(Full(own0), total) && inode[9] == 0 && DirectZero(inode, 0)
      requires TreeCore(disk, fid, inode, At(disk, inode[9]), 0, own0)
      modifies this`disk, this`inode, bat
      ensures |bat.words| == 128 && Sound(Full(own1), total)
      ensures r == -1 <==> old(Free()) == 0
      ensures r == -1 ==> disk == old(disk)
      ensures r != -1 ==> Free() == old(Free()) - 1
      ensures r != -1 ==> 0 <= r < total && inode == old(inode)[1 := r] && DirectZero(inode, 1)
      ensures r != -1 ==> HeadFresh(old(Full(own0)), Full(own1), 0, 1, total)
      ensures r != -1 ==> Grown(old(Full(own0)), Full(own1), fid, 0, 1, total, Nothing)
    {
      hide Ptr; hide TreeCore; hide FreeCount; hide Bit; hide Kept; hide Zeroed; hide Decode; hide DirectZero;
      ghost var m := Full(own0);
      r, own1 := AllocZeroed(Role(fid, Data(0)), own0);
      ghost var ino := inode;
      inode := inode[1 := if r == -1 then NONE else r];
      if r != -1 {
        GrowingStart(m, fid, 0, total, Nothing);
        assert At(disk, inode[9]) == m.di;
        GrowingDirect(m, m, Full(own1), r, fid, 0, 0, total);
        FirstDirectZero(ino, r);
        HeadFreshFirst(m, Full(own1), r, total);
      }
    }

    /** The first allocations of a growing write: the first block of an empty file, the double-indirect block. */
    method ExpandHead(b2: nat, lastBlock: nat, ghost n0: nat, fid: nat) returns (r: int, ghost own1: Owners)
      requires |bat.words| == 128 && bat.words == At(disk, ALLOCATION_BLOCK)
      requires Sound(VolumeImage(disk, own), total) && inode == At(disk, fid) && FileOk(disk, own, fid)
      requires n0 == NumBlocks(inode[0]) && lastBlock == (if n0 == 0 then 0 else n0 - 1) && b2 >= lastBlock
      modifies this`disk, this`inode, bat
      ensures |bat.words| == 128
      ensures r == if old(Free()) >= HeadNeed(n0, b2 + 1) then VFS_OK else VFS_ERROR
      ensures r == VFS_OK ==> HeadDone(old(Full(own)), Full(own1), fid, n0, lastBlock, b2, total)
                              && HeadFresh(old(Full(own)), Full(own1), n0, lastBlock + 1, total)
      ensures r == VFS_ERROR ==> Untouched(old(disk), disk, own)
      ensures HeadNeed(n0, b2 + 1) == 0 ==> own1 == own && Full(own1) == old(Full(own))
    {
      hide Ptr; hide TreeCore; hide FreeCount; hide Bit; hide Kept; hide Zeroed; hide At; hide DirectZero;
      hide DoubleZero; hide Grew; hide HeadFresh; hide FreeKept;
      ghost var m0 := Full(own);
      own1 := own;
      GrownStart(m0, fid, n0, total, Nothing);
      HeadFreshStart(m0, n0, total);
      if inode[0] == 0 {
        r, own1 := AllocFirst(fid, own);
        if r == -1 {
          GrewRefl(m0, fid, total, Nothing);
          GrewUntouched(m0, m0, fid, total);
          return VFS_ERROR, own;
        }
      }
      ghost var m1 := Full(own1);
      GrewUntouched(m0, m1, fid, total);
      if b2 >= DIRECT + SINDIR && lastBlock < DIRECT + SINDIR {
        r, own1 := AllocDouble(lastBlock + 1, fid, own1);
        if r == -1 {
          return VFS_ERROR, own1;
        }
        GrownTrans(m0, m1, Full(own1), fid, n0, lastBlock + 1, lastBlock + 1, total, Nothing, Nothing);
        HeadFreshDouble(m0, m1, Full(own1), n0, lastBlock + 1, r, fid, total);
      }
      r := VFS_OK;
    }

    /**
     Makes room for logical blocks up to b2 before anything is written. Only the first allocations
     report that the disk is full; what AllocBlocks answers is ignored.
    */
    method Expand(b2: nat, lastBlock: nat, ghost n0: nat, fid: nat) returns (r: int, ghost own1: Owners)
      requires |bat.words| == 128
      requires Sound(VolumeImage(disk, own), total) && inode == At(disk, fid) && FileOk(disk, own, fid)
      requires n0 == NumBlocks(inode[0]) && lastBlock == (if n0 == 0 then 0 else n0 - 1) && n0 <= b2 < MAX_BLOCKS
      modifies this`disk, this`inode, this`si, this`di, bat
      ensures |bat.words| == 128
              && Expanded(old(disk), own, disk, bat.words, own1, inode, di, fid, n0, b2 + 1, r, total)
    {
      hide Ptr; hide TreeCore; hide FreeCount; hide Bit; hide Kept; hide Zeroed; hide At; hide DirectZero;
      hide DoubleZero; hide Grew; hide Cost; hide Holds; hide Tree; hide OpenTree; hide Session; hide HeadFresh;
      hide RanOut; hide TailKept; hide LeftAlone; hide InLastTable; hide Expanded;
      bat.words := At(disk, ALLOCATION_BLOCK);
      ghost var m0 := Full(own);
      r, own1 := ExpandHead(b2, lastBlock, n0, fid);
      if r != VFS_OK {
        ExpandRefused(m0.d, own, disk, bat.words, own1, inode, di, fid, n0, b2 + 1, total);
        return;
      }
      own1 := ExpandRest(b2, lastBlock, n0, fid, m0, own1);
    }

    /** The part of Expand after the first allocations: AllocBlocks, or the bitmap if they were all. m0 is the start. */
    method ExpandRest(b2: nat, lastBlock: nat, ghost n0: nat, fid: nat, ghost m0: Image, ghost own0: Owners)
      returns (ghost own1: Owners)
      requires |bat.words| == 128 && Sound(VolumeImage(m0.d, own), total) && FileOk(m0.d, own, fid)
      requires m0 == Image(m0.d, At(m0.d, ALLOCATION_BLOCK), own, At(m0.d, fid), At(m0.d, At(m0.d, fid)[9]))
      requires n0 == NumBlocks(m0.ino[0]) && lastBlock == (if n0 == 0 then 0 else n0 - 1) && n0 <= b2 < MAX_BLOCKS
      requires HeadDone(m0, Full(own0), fid, n0, lastBlock, b2, total)
               && HeadFresh(m0, Full(own0), n0, lastBlock + 1, total)
      requires FreeCount(m0.bat, total) >= HeadNeed(n0, b2 + 1)
      requires HeadNeed(n0, b2 + 1) == 0 ==> Full(own0) == m0
      modifies this`disk, this`inode, this`si, this`di, bat
      ensures |bat.words| == 128
              && Expanded(m0.d, own, disk, bat.words, own1, inode, di, fid, n0, b2 + 1, VFS_OK, total)
    {
      hide Ptr; hide TreeCore; hide FreeCount; hide Bit; hide Kept; hide Zeroed; hide At; hide DirectZero;
      hide DoubleZero; hide Grew; hide Cost; hide Holds; hide Tree; hide OpenTree; hide Session; hide HeadFresh;
      hide RanOut; hide TailKept; hide LeftAlone; hide InLastTable; hide Expanded; hide LowFails;
      if InLastTable(n0, b2 + 1) {
        InLastHead(n0, b2 + 1);
      }
      NeedSplits(n0, b2 + 1);
      own1 := own0;
      ghost var m1 := Full(own1);
      ghost var m1' := Img(own1);
      GrewLength(m0, m1, fid, total, Nothing);
      ghost var mid := m1;
      if b2 > lastBlock {
        var ok;
        ok, mid := AllocBlocks(b2 - lastBlock, lastBlock + 1, fid, own1);
        own1 := mid.own;
        GrewLength(m1, mid, fid, total, AllPointers);
        if !ok {
          ExpandFailed(m0, m1, m1', mid, di, fid, n0, b2 + 1, total);
          return;
        }
        GrownTrans(m0, m1, mid, fid, n0, lastBlock + 1, b2 + 1, total, Nothing, AllPointers);
      } else {
        GrownWeaken(m0, m1, fid, n0, lastBlock + 1, total);
        disk := disk[ALLOCATION_BLOCK := Encode(bat.words)];
      }
      SessionGrown(m0.d, own, m0, mid, di, fid, n0, b2 + 1, total);
      ExpandRoom(m0.d, own, disk, bat.words, own1, inode, di, fid, n0, b2 + 1, total);
    }

    /** The loop and what comes after it: a longer file has its size stored. d2 is the disk in between. */
    method WriteFrom(b1: nat, b2: nat, data: seq<Byte>, offset: nat, fid: nat, ghost tgt: seq<Word>) returns (r: int,
                     ghost d2: Disk)
      requires |bat.words| == 128 && b2 < MAX_BLOCKS && fid < |disk| && offset + |data| < 0x1_0000_0000
      requires 0 < |data| && b1 == offset / BLOCK_SIZE && b2 == (offset + |data| - 1) / BLOCK_SIZE
      modifies this`disk, this`inode, this`si, bat
      ensures |bat.words| == 128 && |disk| == |d2| == |old(disk)| && (r == |data| || r == VFS_ERROR)
      ensures Steady(old(disk), old(inode), di, tgt, b1, b2) ==> Outcome(old(disk), tgt, b1, data, offset, d2, r)
      ensures disk == if r < 0 then d2 else Final(d2, fid, old(inode), old(inode)[0], offset, |data|)
    {
      hide Steady; hide Outcome; hide Encode; hide Bit;
      r := WriteLoop(b1, b2, data, offset, tgt);
      d2 := disk;
      if r < 0 {
        return;
      }
      if offset + |data| > inode[0] {
        inode := inode[0 := offset + |data|];
        disk := disk[fid := Encode(inode)];
      }
    }

    /**
     Writes data at an offset within the file or just past its end, making the file longer
     if need be. The result is the number of bytes written or an error code. Three ways of running
     out of blocks go unnoticed: with a pointer that gets no block, in a first table, and in the last one.
    */
    method Write(fileid: int, data: seq<Byte>, offset: int) returns (r: int)
      requires Valid() && (2 <= fileid < total ==> IsFile(disk[DIRECTORY_BLOCK], fileid))
      requires fileid == total ==> |disk| == total
      requires WithinLargest(disk, fileid, |data|, offset, total)
      modifies this, bat
      ensures |bat.words| == 128 && WriteAnswers(old(disk), old(own), disk, own, r, fileid, data, offset, total)
      ensures fileid < 2 || fileid > total || offset < 0 ==> r == VFS_INVALID_PARAMS && disk == old(disk)
      ensures 2 <= fileid <= total && offset >= 0 && data == [] ==> r == 0 && disk == old(disk)
      ensures 2 <= fileid == total && offset >= 0 && data != [] ==> r == VFS_ERROR && disk == old(disk)
      ensures 2 <= fileid < total && data != [] && offset > FileSize(old(disk), fileid) ==>
                r == VFS_ERROR && disk == old(disk)
    {
      hide Ptr; hide TreeCore; hide FreeCount; hide Bit; hide At; hide DirectZero; hide DoubleZero; hide OpenTree;
      hide Session; hide Progress; hide Contents; hide FileBytes; hide Splice; hide EntryInode; hide Live;
      hide FileName; hide DirOk; hide OwnersClosed; hide Sound; hide GrowNeed; hide HeadNeed;
      hide BlockOf; hide Tree; hide Encode; hide RunsOut; hide StopOf; hide WentAstray; hide WrittenToEnd;
      hide WriteFits; hide WentToHeader; hide TailFails;
      GrowsChecked(disk, fileid, |data|, offset, total);
      if fileid < 2 || fileid > total || offset < 0 {
        return VFS_INVALID_PARAMS;
      }
      if |data| == 0 {
        return 0;
      }
      VolumeTotal(disk, own, total);
      if fileid >= |disk| {
        return VFS_ERROR;
      }
      FileIsOk(disk, own, total, fileid);
      inode := At(disk, fileid);
      if offset > inode[0] {
        return VFS_ERROR;
      }
      r := WriteOpen(fileid, data, offset);
    }

    /** The part of Write after its checks. */
    method WriteOpen(fid: nat, data: seq<Byte>, offset: nat) returns (r: int)
      requires Valid() && IsFile(disk[DIRECTORY_BLOCK], fid) && FileOk(disk, own, fid) && 2 <= fid
      requires 0 < |data| && offset <= FileSize(disk, fid) && inode == At(disk, fid)
      requires WithinLargest(disk, fid, |data|, offset, total)
      modifies this, bat
      ensures |bat.words| == 128 && WriteAnswers(old(disk), old(own), disk, own, r, fid, data, offset, total)
    {
      hide Ptr; hide TreeCore; hide FreeCount; hide Bit; hide At; hide DirectZero; hide DoubleZero; hide OpenTree;
      hide Progress; hide Contents; hide FileBytes; hide Splice; hide EntryInode; hide Live; hide IsFile;
      hide FileName; hide Untouched; hide DirOk; hide OwnersClosed; hide Sound; hide GrowNeed; hide HeadNeed;
      hide BlockOf; hide Encode; hide Others; hide Written; hide Outcome; hide Steady; hide RanOut; hide Session;
      hide RunsOut; hide TakenFor; hide StopOf; hide WentAstray; hide WrittenToEnd; hide Stopped; hide FileOk;
      hide WentToHeader; hide TailOpen; hide StopsInLast; hide StopsShort; hide StopsInTable; hide Expanded;
      hide WriteAnswers; hide WriteFits; hide WriteStalls; hide TargetsOf; hide Final; hide Told;
      ghost var d0, n0 := disk, NumBlocks(inode[0]);
      var size := inode[0];
      var b1 := offset / BLOCK_SIZE;
      var b2 := (offset + |data| - 1) / BLOCK_SIZE;
      var lastBlock := if size == 0 then 0 else (size - 1) / BLOCK_SIZE;
      FileIsOk(disk, own, total, fid);
      DoubleLoaded(disk, own, fid, total);
      if inode[9] > 0 {
        di := At(disk, inode[9]);
      }
      ghost var own1 := own;
      ghost var n := if n0 > b2 + 1 then n0 else b2 + 1;
      ghost var free := FreeBlocks(d0, total);
      FitsParts(d0, fid, |data|, offset, total);
      GrowsChecked(d0, fid, |data|, offset, total);
      if b2 > lastBlock || size == 0 {
        r, own1 := Expand(b2, lastBlock, n0, fid);
        ExpandedParts(d0, own, disk, bat.words, own1, inode, di, fid, n0, b2 + 1, r, total);
        if Fails(d0, fid, |data|, offset, total) {
          FailureStopped(d0, own, Image(disk, bat.words, own1, inode, ZeroWords()), di, fid, |data|, offset, r, total,
                         n0, b2 + 1, free);
        }
        if StopsInLast(d0, fid, |data|, offset, total) {
          FailureTail(d0, own, disk, bat.words, own1, inode, di, fid, |data|, offset, r, total, n0, b2 + 1);
        }
        if r != VFS_OK {
          VolumeFrame(d0, disk, own, total);
          AnswersRefused(d0, own, disk, own, fid, data, offset, total);
          return;
        }
      } else {
        SessionStart(disk, own, di, fid, total);
      }
      ghost var m := Image(disk, bat.words, own1, inode, ZeroWords());
      assert Ready(d0, own, m, di, fid, |data|, offset, total);
      ReadySteady(d0, own, m, di, fid, |data|, offset, total);
      ghost var d2;
      r, d2 := WriteFrom(b1, b2, data, offset, fid, TargetsOf(d0, m, di, fid, |data|, offset, total));
      ReadyDone(d0, own, m, di, fid, data, offset, total, d2, disk, r);
      own := if WriteFits(d0, fid, |data|, offset, total) then own1 else own;
    }

    // -------------------------------------------------------------- directory operations

    /** The inode of a file, or an error code; for the empty name, block 0 if some entry is free. */
    method Open(filename: Name) returns (r: int)
      requires Valid() && ValidName(filename)
      modifies this`md
      ensures Valid() && disk == old(disk)
      ensures r == VFS_NOT_FOUND <==> !Found(disk[DIRECTORY_BLOCK], filename)
      ensures (r == VFS_NOT_FOUND <==> filename !in Contents(disk)) <==>
                filename != [] || !HasFreeEntry(disk[DIRECTORY_BLOCK])
      ensures r != VFS_NOT_FOUND && filename == [] ==> r == 0
      ensures r != VFS_NOT_FOUND && filename != [] ==>
                && r >= 2 && IsFile(disk[DIRECTORY_BLOCK], r)
                && FileName(disk[DIRECTORY_BLOCK], r) == filename && Contents(disk)[filename] == FileBytes(disk, r)
    {
      hide EntryInode; hide EntryName; hide FileBytes; hide FileOk; hide Bit; hide Contents; hide OwnersClosed;
      hide FindEntry; hide DirOk; hide Names;
      md := disk[DIRECTORY_BLOCK];
      var index := FindFile(md, filename);
      NoEmptyName(md);
      if index == -1 {
        return VFS_NOT_FOUND;
      }
      if filename != [] {
        OpenedEntry(disk, own, index, total);
      }
      r := EntryInode(md, index);
    }

    /** Creates a file of zeros. */
    method Create(filename: Name, size: nat) returns (r: int)
      requires Valid() && ValidName(filename) && size + BLOCK_SIZE - 1 < 0x8000_0000
      modifies this, bat
      ensures Valid() && disk[0] == old(disk[0])
      ensures r == VFS_OK || r == VFS_ERROR
      ensures r == VFS_OK <==>
                filename != [] && NumBlocks(size) <= MAX_BLOCKS && filename !in old(Contents(disk))
                && HasFreeEntry(old(disk[DIRECTORY_BLOCK]))
                   && old(FreeBlocks(disk, total)) >=
                        1 + NumBlocks(size) + Tables(NumBlocks(size)) + DoubleCount(NumBlocks(size))
      ensures r == VFS_OK ==>
                && Contents(disk) == old(Contents(disk))[filename := Zeros(size)]
                && Took(old(disk), old(own), disk, own,
                        1 + NumBlocks(size) + Tables(NumBlocks(size)) + DoubleCount(NumBlocks(size)), total)
      ensures r == VFS_ERROR ==>
                own == old(own) && Contents(disk) == old(Contents(disk)) && Untouched(old(disk), disk, old(own))
    {
      hide EntryInode; hide EntryName; hide FileBytes; hide Ptr; hide FreeCount; hide Bit; hide Contents; hide Names;
      hide At; hide FileOk; hide DirOk; hide OwnersClosed; hide FindEntry; hide Live;
      hide ValidName; hide WithEntry; hide Tables; hide DoubleCount; hide Took;
      var numblocks := (size + BLOCK_SIZE - 1) / BLOCK_SIZE;
      if numblocks > MAX_BLOCKS {
        return VFS_ERROR;
      }
      md := disk[DIRECTORY_BLOCK];
      var found, index := FindSlot(md, filename);
      if found {
        return VFS_ERROR;
      }
      if index == -1 {
        return VFS_ERROR;
      }
      r := CreateIn(index, filename, size, numblocks);
    }

    /** The part of Create after the directory search. */
    method CreateIn(index: nat, filename: Name, size: nat, numblocks: nat) returns (r: int)
      requires Valid() && ValidName(filename) && size < 0x8000_0000 && numblocks == NumBlocks(size) <= MAX_BLOCKS
      requires md == disk[DIRECTORY_BLOCK] && index < MAX_FILES && !Live(md, index) && filename != []
               && filename !in Names(md)
      modifies this, bat
      ensures Valid() && disk[0] == old(disk[0])
      ensures r == if old(FreeBlocks(disk, total)) >= CreateNeed(numblocks) then VFS_OK else VFS_ERROR
      ensures r == VFS_OK ==>
                && Contents(disk) == old(Contents(disk))[filename := Zeros(size)]
                && Took(old(disk), old(own), disk, own, CreateNeed(numblocks), total)
      ensures r == VFS_ERROR ==>
                own == old(own) && Contents(disk) == old(Contents(disk)) && Untouched(old(disk), disk, old(own))
    {
      hide EntryInode; hide EntryName; hide FileBytes; hide Ptr; hide FreeCount; hide Bit; hide Contents; hide Names;
      hide At; hide FileOk; hide DirOk; hide FindEntry; hide Live; hide SetEntryName; hide SetEntryInode;
      hide CreateNeed; hide Grew; hide TreeCore; hide Kept; hide Zeroed; hide DirectZero; hide DoubleZero; hide Cost;
      hide Encode; hide Untouched; hide Took;
      ghost var d0 := disk;
      ghost var md0 := md;
      bat.words := At(disk, ALLOCATION_BLOCK);
      ghost var m0 := Img(own);
      var ino;
      ghost var m1, mid;
      r, ino, m1, mid := CreateTree(size, numblocks);
      if r != VFS_OK {
        VolumeFrame(d0, disk, own, total);
        return;
      }
      md := SetEntryInode(SetEntryName(md, index, filename), index, ino);
      CreateDone(d0, own, m0, m1, mid, ino, index, filename, numblocks, total);
      GrewTrans(m0, m1, mid, ino, total, AllPointers, AllPointers);
      TookGrown(m0, mid, ino, CreateNeed(numblocks), total, AllPointers);
      TookFrame(d0, own, disk, CreatedDisk(mid, WithEntry(md0, index, filename, ino), inode, ino), mid.own,
                CreateNeed(numblocks), total);
      disk := disk[DIRECTORY_BLOCK := md];
      disk := disk[ino := Encode(inode)];
      own := mid.own;
    }

    /** Allocates inode, double-indirect block and all the blocks of a new file; writes the bitmap on success. */
    method CreateTree(size: nat, numblocks: nat) returns (r: int, ino: int, ghost m1: Image, ghost mid: Image)
      requires |bat.words| == 128 && Sound(Img(own), total) && OwnersClosed(own)
      requires size < 0x8000_0000 && numblocks == NumBlocks(size) <= MAX_BLOCKS
      modifies this`disk, this`inode, this`si, this`di, bat
      ensures |bat.words| == 128
      ensures r == if old(Free()) >= CreateNeed(numblocks) then VFS_OK else VFS_ERROR
      ensures r == VFS_ERROR ==> Untouched(old(disk), disk, own)
      ensures r == VFS_OK ==> 0 <= ino < total && CreateAllocated(old(Img(own)), m1, mid, ino, size, numblocks, total)
      ensures r == VFS_OK ==>
                inode == mid.ino && |mid.d| >= 3 && |mid.bat| == 128
                && disk == mid.d[ALLOCATION_BLOCK := Encode(mid.bat)]
    {
      hide Ptr; hide FreeCount; hide Bit; hide At; hide Grew; hide TreeCore; hide Kept; hide Zeroed; hide DirectZero;
      hide DoubleZero; hide Cost; hide Encode; hide Untouched; hide OwnersClosed; hide Holds;
      ghost var m0 := Img(own);
      mid := m0;
      CostMonotone(0, numblocks);
      CostZero();
      ghost var own1;
      r, ino, own1 := CreateHead(size, numblocks);
      m1 := Full(own1);
      if r != VFS_OK {
        return;
      }
      var ok;
      ok, mid := AllocBlocks(numblocks, 0, ino, own1);
      GrewTrans(m0, m1, mid, ino, total, AllPointers, AllPointers);
      CreateUntouched(m0, mid, ino, total);
      r := if ok then VFS_OK else VFS_ERROR;
    }

    /** Takes the inode block and, for a large file, the double-indirect block; sets up the inode buffer. */
    method CreateHead(size: nat, numblocks: nat) returns (r: int, ino: int, ghost own1: Owners)
      requires |bat.words| == 128 && Sound(Img(own), total) && size < 0x8000_0000
      modifies this`disk, this`inode, bat
      ensures |bat.words| == 128 && Sound(Full(own1), total)
      ensures r == if old(Free()) >= 1 + DoubleCount(numblocks) then VFS_OK else VFS_ERROR
      ensures r == VFS_ERROR ==> Untouched(old(disk), disk, own)
      ensures r == VFS_OK ==> 0 <= ino < total && ino !in own && Holds(own1, ino, Role(ino, Self))
      ensures r == VFS_OK ==> Free() == old(Free()) - 1 - DoubleCount(numblocks) && inode[0] == size
      ensures r == VFS_OK ==> Grew(old(Img(own)), Full(own1), ino, total, AllPointers)
      ensures r == VFS_OK ==> TreeCore(disk, ino, inode, At(disk, inode[9]), 0, own1)
      ensures r == VFS_OK ==> if numblocks > DIRECT + SINDIR
                then DoubleZero(inode, At(disk, inode[9]), 0) && Holds(own1, inode[9], Role(ino, Double))
                else inode[9] == 0
    {
      hide Ptr; hide FreeCount; hide Bit; hide At; hide Grew; hide TreeCore; hide Kept; hide Zeroed; hide DirectZero;
      hide DoubleZero; hide Untouched;
      ghost var m0 := Img(own);
      GrewRefl(m0, 0, total, Nothing);
      GrewUntouched(m0, m0, 0, total);
      ino, own1 := AllocInode();
      if ino == -1 {
        return VFS_ERROR, ino, own1;
      }
      inode := inode[0 := size][8 := 0][9 := 0];
      EmptyTree(disk, ino, inode, At(disk, 0), own1);
      ghost var m1 := Full(own1);
      GrewBuffers(m0, Img(own1), m1, ino, total);
      GrewWeaken(m0, m1, ino, total, AllPointers);
      r := VFS_OK;
      if numblocks > DIRECT + SINDIR {
        var dbl;
        dbl, own1 := AllocDouble(0, ino, own1);
        if dbl == -1 {
          GrewUntouched(m0, m1, ino, total);
          return VFS_ERROR, ino, own1;
        }
        GrewTrans(m0, m1, Full(own1), ino, total, Nothing, Nothing);
        GrewWeaken(m0, Full(own1), ino, total, AllPointers);
        GrewKeeps(m1, Full(own1), ino, total, Nothing, ino);
      }
    }

    /** Takes a block for a new inode. */
    method AllocInode() returns (r: int, ghost own1: Owners)
      requires Sound(Img(own), total)
      modifies bat
      ensures |bat.words| == 128 && Sound(Img(own1), total)
      ensures r == -1 <==> old(Free()) == 0
      ensures r != -1 ==> 3 <= r < total && r !in own && own1 == own[r := Role(r, Self)] && Free() == old(Free()) - 1
                          && Grew(old(Img(own)), Img(own1), r, total, Nothing)
    {
      r := BmAlloc();
      own1 := own;
      if r != -1 {
        BitsWithBit(old(bat.words), r, true);
        own1 := own[r := Role(r, Self)];
      }
    }

    /** Frees one block of the file in the bitmap buffer. */
    method FreeOne(x: nat, ghost bat0: seq<Word>, ghost freed: set<nat>)
      requires total <= 4096 && Cleared(bat0, bat.words, freed, total) && x < total && x !in freed && Bit(bat0, x)
      modifies bat
      ensures Cleared(bat0, bat.words, freed + {x}, total)
    {
      ClearedStep(bat0, bat.words, WithBit(bat.words, x, false), freed, x, total);
      bat.Set(x, false);
    }

    /**
     flatfs_remove_indir: clears the bits of all blocks a table names, if these are positions of the bitmap.
     The table block itself stays allocated.
    */
    method RemoveIndir(todbl: int) returns (fate: Fate)
      requires |bat.words| == 128 && -1 <= todbl < SINDIR && TableBlock(inode, di, todbl + 1) < |disk|
      modifies this`si, bat
      ensures var ws := At(disk, TableBlock(inode, di, todbl + 1));
              && |bat.words| == 128 && fate == ListFate(ws)
              && (fate == Done ==> BitsListed(old(bat.words), bat.words, ws))
    {
      hide At; hide Bit; hide ListFate; hide BitsListed; hide WithBit;
      si := At(disk, if todbl >= 0 then di[todbl] else inode[8]);
      assert si == At(disk, TableBlock(inode, di, todbl + 1));
      fate := ClearListed(si);
    }

    /** The loop of that, and of the direct pointers. */
    method ClearListed(ws: seq<Word>) returns (fate: Fate)
      requires |bat.words| == 128
      modifies bat
      ensures |bat.words| == 128 && fate == ListFate(ws)
      ensures fate == Done ==> BitsListed(old(bat.words), bat.words, ws)
    {
      hide Bit; hide ListFate; hide BitsListed; hide WithBit; hide FateOf;
      ghost var bat0 := bat.words;
      BitsListedStart(bat0, ws);
      NoneListed(ws);
      fate := Done;
      var i := 0;
      while i < |ws|
        invariant 0 <= i <= |ws| && |bat.words| == 128 && fate == Done == ListFate(ws[..i])
        invariant BitsListed(bat0, bat.words, ws[..i])
      {
        ghost var words := bat.words;
        ListFateNext(ws, i);
        if ws[i] > 0 {
          fate := bat.SetInt(AsSigned(ws[i]), false);
          WordFate(ws[i]);
          if fate != Done {
            return;
          }
        } else {
          WordFate(0);
        }
        WordDone(ws[i]);
        BitsListedNext(bat0, words, ws, i);
        i := i + 1;
      }
      assert ws[..i] == ws;
    }

    /**
     Frees the tables of the double-indirect block by counting the remaining blocks down. If the count misses
     zero, the next table is the zero pointer past the last one: the header block.
    */
    method RemoveDoubles(tmpblocks: Word, ghost fid: nat, ghost n: nat, ghost bat0: seq<Word>) returns (fate: Fate)
      requires tmpblocks > 0 && tmpblocks + DIRECT + SINDIR == n <= MAX_BLOCKS && total <= 4096
      requires Cleared(bat0, bat.words, {}, total)
      requires Loaded(fid) && bat0 == At(disk, ALLOCATION_BLOCK) && n == NumBlocks(FileSize(disk, fid))
      requires tmpblocks % SINDIR == 0 || MagicHeader(disk)
      modifies this`si, bat
      ensures |bat.words| == 128 && fate == if tmpblocks % SINDIR == 0 then Done else Outside
      ensures fate == Done ==> Cleared(bat0, bat.words, PtrSet(disk, inode, di, DIRECT + SINDIR, n), total)
    {
      hide Ptr; hide At; hide TreeCore; hide Bit; hide DirectZero; hide DoubleZero; hide Cleared; hide FreedApart;
      hide PtrSet; hide OpenTree; hide BitsListed; hide ListFate; hide MagicHeader; hide TableBlock;
      ghost var base := DIRECT + SINDIR;
      FileIsSmall(disk, fid, inode, di, n, own, total);
      PtrSetEmpty(disk, inode, di, base);
      ClearedBits(bat0, bat.words, {}, total);
      ghost var tables := (tmpblocks + SINDIR - 1) / SINDIR;
      var tmp, i := tmpblocks, 0;
      fate := Done;
      while tmp > 0
        invariant 0 <= i <= tables < SINDIR && Loaded(fid) && fate == Done && |bat.words| == 128
        invariant tmp as int == (tmpblocks - SINDIR * i) % 0x1_0000_0000
        invariant Cleared(bat0, bat.words, PtrSet(disk, inode, di, base, Min(base + SINDIR * i, n)), total)
        decreases tables - i
      {
        ghost var words := bat.words;
        if i < tables {
          TableFate(disk, fid, inode, di, n, own, i, total);
        } else {
          PastTheTables(disk, fid, inode, di, n, own, i, total);
        }
        fate := RemoveIndir(i);
        if fate != Done {
          return;
        }
        DoublesStep(disk, fid, inode, di, n, own, bat0, words, bat.words, i, total);
        tmp := (tmp - SINDIR) % 0x1_0000_0000;
        i := i + 1;
      }
    }

    /** Frees everything of the loaded file but its pointer blocks. */
    method RemoveBlocks(fid: nat, numblocks: nat) returns (fate: Fate)
      requires Loaded(fid) && Holds(own, fid, Role(fid, Self)) && bat.words == At(disk, ALLOCATION_BLOCK)
      requires numblocks == NumBlocks(FileSize(disk, fid)) <= MAX_BLOCKS
      requires Removable(numblocks) || MagicHeader(disk)
      modifies this`si, bat
      ensures |bat.words| == 128 && fate == if Removable(numblocks) then Done else Outside
      ensures fate == Done ==>
                Cleared(At(disk, ALLOCATION_BLOCK), bat.words, PtrSet(disk, inode, di, 0, numblocks) + {fid}, total)
    {
      hide Ptr; hide At; hide TreeCore; hide Bit; hide DirectZero; hide DoubleZero; hide Cleared; hide FreedApart;
      hide PtrSet; hide OpenTree; hide MagicHeader;
      ghost var bat0, n := bat.words, numblocks;
      ghost var low := Min(DIRECT + SINDIR, n);
      ClearedStart(bat0, total);
      PtrSetEmpty(disk, inode, di, low);
      fate := Done;
      if numblocks > DIRECT + SINDIR {
        fate := RemoveDoubles(numblocks - DIRECT - SINDIR, fid, n, bat0);
        if fate != Done {
          return;
        }
      }
      RemoveLow(fid, bat0, n);
    }

    /** Frees single-indirect and direct blocks and the inode block; the tables above are done. */
    method RemoveLow(fid: nat, ghost bat0: seq<Word>, ghost n: nat)
      requires Loaded(fid) && Holds(own, fid, Role(fid, Self)) && bat0 == At(disk, ALLOCATION_BLOCK)
      requires n == NumBlocks(FileSize(disk, fid)) <= MAX_BLOCKS
      requires Cleared(bat0, bat.words, PtrSet(disk, inode, di, Min(DIRECT + SINDIR, n), n), total)
      modifies this`si, bat
      ensures |bat.words| == 128 && Cleared(bat0, bat.words, PtrSet(disk, inode, di, 0, n) + {fid}, total)
    {
      hide Ptr; hide At; hide TreeCore; hide Bit; hide DirectZero; hide DoubleZero; hide Cleared; hide FreedApart;
      hide PtrSet; hide OpenTree; hide ListFate; hide BitsListed; hide TableBlock;
      ghost var k := Min(DIRECT, n);
      ghost var words := bat.words;
      ClearedBits(bat0, words, PtrSet(disk, inode, di, Min(DIRECT + SINDIR, n), n), total);
      SinglePresent(disk, fid, inode, di, n, own, total);
      if inode[8] > 0 {
        ghost var high := PtrSet(disk, inode, di, Min(DIRECT + SINDIR, n), n);
        PtrSetApart(disk, fid, inode, di, n, own, Min(DIRECT + SINDIR, n), n, TableStart(-1), Min(TableStart(0), n));
        TableFate(disk, fid, inode, di, n, own, -1, total);
        var fate := RemoveIndir(-1);
        TableCleared(disk, fid, inode, di, n, own, bat0, words, bat.words, high, -1, total);
        PtrSetJoin(disk, inode, di, DIRECT, Min(DIRECT + SINDIR, n), n);
        assert high + PtrSet(disk, inode, di, DIRECT, Min(DIRECT + SINDIR, n)) == PtrSet(disk, inode, di, DIRECT, n);
      }
      ghost var upper := PtrSet(disk, inode, di, k, n);
      InodeNotFreed(disk, fid, inode, di, n, own, k, n);
      OwnedBit(disk, own, fid, total);
      FreeOne(fid, bat0, upper);
      PtrSetApart(disk, fid, inode, di, n, own, k, n, 0, k);
      FreedInode(own, fid, 0, k);
      FreedJoin(own, upper, {fid}, fid, 0, k);
      words := bat.words;
      ClearedBits(bat0, words, upper + {fid}, total);
      DirectFate(disk, fid, inode, di, n, own, total);
      var fate := ClearListed(inode[1..1 + DIRECT]);
      DirectCleared(disk, fid, inode, di, n, own, bat0, words, bat.words, upper + {fid}, total);
      PtrSetJoin(disk, inode, di, 0, k, n);
      assert upper + {fid} + PtrSet(disk, inode, di, 0, k) == PtrSet(disk, inode, di, 0, n) + {fid};
    }

    /**
     Removes a file by name. With the empty name and a free entry it takes the header for an inode. Then it
     frees the header if all blocks named there are positions of the bitmap, and no volume is left; otherwise
     it does not get to the disk, and neither for a file whose countdown does not end. Where fate is not Done,
     nothing is said of the answer.
    */
    method Remove(filename: Name) returns (r: int, fate: Fate)
      requires Valid() && ValidName(filename) && MagicHeader(disk)
      requires filename == [] && HasFreeEntry(disk[DIRECTORY_BLOCK]) ==> PlainHeader(disk)
      modifies this, bat
      ensures fate == RemoveFate(old(disk), filename)
      ensures fate != Done ==> disk == old(disk)
      ensures fate == Done ==>
                && (Valid() <==> Nameable(old(disk), filename))
                && ((exists owners :: Volume(disk, owners, total)) <==> Valid())
                && RemoveAnswers(old(disk), filename, r) && RemovedFrom(old(disk), disk, filename)
                && (!Valid() ==> HeaderFreed(old(disk), disk))
                && (Valid() && r == VFS_OK ==> RemovedAs(old(disk), disk, old(own), own, filename, total))
                && (r != VFS_OK ==> disk == old(disk) && own == old(own))
    {
      hide EntryInode; hide EntryName; hide FileBytes; hide Ptr; hide FreeCount; hide Bit; hide At; hide Names;
      hide FileOk; hide DirOk; hide OwnersClosed; hide FindEntry; hide Live; hide Removable; hide HeaderFreed;
      hide HasFreeEntry; hide PlainHeader; hide Listing; hide MagicHeader; hide ListFate; hide HeaderPointers;
      hide BlocksFreed;
      md := disk[DIRECTORY_BLOCK];
      var index := FindFile(md, filename);
      NoEmptyName(md);
      if index == -1 {
        assert Contents(disk) - {filename} == Contents(disk);
        return VFS_NOT_FOUND, Done;
      }
      if filename == [] {
        assert Contents(disk) - {filename} == Contents(disk);
        FreeEntry(md, index);
        fate := RemoveNameless(index);
      } else {
        OpenedEntry(disk, own, index, total);
        fate := RemoveFound(index);
      }
      r := VFS_OK;
    }

    /**
     The empty name finds a free entry. Its inode number is that of the header, which is read as an
     inode; the header names no tables, so these are the steps left of those below.
    */
    method RemoveNameless(index: nat) returns (fate: Fate)
      requires Valid() && md == disk[DIRECTORY_BLOCK] && index < MAX_FILES && !Live(md, index) && PlainHeader(disk)
      modifies this`md, this`inode, this`disk, bat
      ensures |disk| == |old(disk)| && disk[0] == old(disk[0]) && fate == ListFate(HeaderPointers(old(disk)))
      ensures fate != Done ==> disk == old(disk)
      ensures fate == Done ==> Contents(disk) == old(Contents(disk)) && HeaderFreed(old(disk), disk)
      ensures fate == Done ==> !Valid() && forall owners :: !Volume(disk, owners, total)
    {
      hide EntryName; hide FileBytes; hide Bit; hide At; hide EntryInode; hide WithBit; hide ListFate;
      hide DirOk; hide FindEntry; hide SetEntryInode; hide ClearEntryName; hide Names; hide Listing; hide Encode;
      hide Contents; hide FileOk; hide OwnersClosed;
      ghost var d0 := disk;
      FreeEntryCleared(md, index);
      bat.words := At(disk, ALLOCATION_BLOCK);
      var fid := EntryInode(md, index);
      inode := At(disk, fid);
      BitsWithBit(bat.words, fid, false);
      bat.Set(fid, false);
      fate := ClearListed(inode[1..1 + DIRECT]);
      if fate != Done {
        return;
      }
      md := ClearEntryName(SetEntryInode(md, index, 0), index);
      FreedHeader(d0, own, bat.words, total);
      disk := disk[ALLOCATION_BLOCK := Encode(bat.words)];
      disk := disk[DIRECTORY_BLOCK := md];
      forall owners
        ensures !Volume(disk, owners, total)
      {
        HeaderFreeIsNoVolume(disk, owners, total);
      }
    }

    /** Removes the file of a directory entry. */
    method RemoveFound(index: nat) returns (fate: Fate)
      requires Valid() && md == disk[DIRECTORY_BLOCK] && index < MAX_FILES && Live(md, index) && MagicHeader(disk)
      modifies this, bat
      ensures Valid() && |disk| == |old(disk)| && disk[0] == old(disk[0])
      ensures fate == if Removable(NumBlocks(FileSize(old(disk), EntryInode(old(md), index)))) then Done else Outside
      ensures fate != Done ==> disk == old(disk)
      ensures fate == Done ==> Contents(disk) == old(Contents(disk)) - {EntryName(old(md), index)}
      ensures fate == Done ==>
                FreeBlocks(disk, total) == old(FreeBlocks(disk, total)) + 1
                  + NumBlocks(FileSize(old(disk), EntryInode(old(md), index)))
      ensures fate == Done ==> BlocksFreed(old(disk), disk, old(own), own, EntryInode(old(md), index))
    {
      hide EntryInode; hide EntryName; hide FileBytes; hide Ptr; hide Bit; hide Contents; hide At; hide DirOk;
      hide OwnersClosed; hide FindEntry; hide SetEntryInode; hide ClearEntryName; hide PtrSet; hide FreedApart;
      hide Tree; hide OpenTree; hide Removable; hide MagicHeader; hide Encode; hide Names; hide FileBlocks;
      hide BlocksFreed;
      ghost var d0 := disk;
      bat.words := At(disk, ALLOCATION_BLOCK);
      var fid := EntryInode(md, index);
      EntryIsOk(disk, own, index, total);
      inode := At(disk, fid);
      var numblocks := NumBlocks(inode[0]);
      DoubleLoaded(disk, own, fid, total);
      if numblocks > DIRECT + SINDIR && inode[9] != 0 {
        di := At(disk, inode[9]);
      }
      TreeIsOpenTree(disk, fid, inode, di, numblocks, own);
      fate := RemoveBlocks(fid, numblocks);
      if fate != Done {
        return;
      }
      ghost var freed := PtrSet(disk, inode, di, 0, numblocks) + {fid};
      RemovedSet(disk, fid, inode, di, numblocks, own);
      md := ClearEntryName(SetEntryInode(md, index, 0), index);
      FileBlocksLoaded(disk, fid, di, own);
      RemovedVolume(disk, own, bat.words, fid, index, freed, total);
      BlocksFreedFrom(d0, RemovedDisk(d0, bat.words, md), own, fid, freed, total);
      disk := disk[ALLOCATION_BLOCK := Encode(bat.words)];
      disk := disk[DIRECTORY_BLOCK := md];
      own := WithoutFile(own, fid);
    }

    /** The number of free bytes on the volume. */
    method GetFree() returns (r: nat)
      requires Valid()
      modifies bat
      ensures Valid() && r == FreeBlocks(disk, total) * BLOCK_SIZE
    {
      hide Bit; hide At; hide FileOk; hide OwnersClosed; hide DirOk; hide Live;
      bat.words := At(disk, ALLOCATION_BLOCK);
      var used, i := 0, 0;
      while i < total
        invariant bat.words == At(disk, ALLOCATION_BLOCK) && 0 <= i <= total && used == i - FreeCount(bat.words, i)
      {
        var bit := bat.Get(i);
        used := used + bit;
        i := i + 1;
      }
      r := (total - used) * BLOCK_SIZE;
    }
  }

  /** What a caller sees: the bytes just written come back, all of them, from the same offset. */
  method WriteThenRead(fs: FlatFs, fileid: int, data: seq<Byte>, offset: int) returns (r: int, back: seq<Byte>)
    requires fs.Valid() && (2 <= fileid < fs.total ==> IsFile(fs.disk[DIRECTORY_BLOCK], fileid))
    requires fileid == fs.total ==> |fs.disk| == fs.total
    requires WriteFits(fs.disk, fileid, |data|, offset, fs.total)
    modifies fs, fs.bat
    ensures fs.Valid()
    ensures r > 0 ==> back == data
  {
    hide FileBytes; hide Contents; hide IsFile; hide WriteFits; hide WriteStalls; hide Written; hide At; hide Sound;
    hide DirOk; hide FileOk; hide OwnersClosed; hide Live;
    ghost var d0 := fs.disk;
    FitsWithin(d0, fs.own, fileid, |data|, offset, fs.total);
    r := fs.Write(fileid, data, offset);
    back := [];
    if r > 0 {
      WrittenReadsBack(d0, fs.disk, fileid, data, offset);
      var n;
      n, back := fs.Read(fileid, |data|, offset);
    }
  }
}
