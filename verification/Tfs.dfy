/** The TFS driver: one object per mounted volume, with the buffers its methods overwrite. */
module TrivialFileSystem {
  import opened Words
  import opened Bitmaps
  import opened Directories
  import opened FlatLayout
  import opened TfsVolume
  import FlatData

  class Tfs {
    const total: nat
    const bat: Bitmap          // allocation bitmap buffer
    var disk: Disk
    var inode: WordBlock       // inode buffer
    var md: Block              // directory buffer
    ghost var own: Owners      // who owns which block

    /** Takes a disk holding a volume. */
    constructor (d: Disk, totalBlocks: nat, ghost owners: Owners)
      requires Volume(d, owners, totalBlocks)
      ensures Valid() && fresh(bat) && disk == d && total == totalBlocks && own == owners
    {
      disk, own, total := d, owners, totalBlocks;
      inode, md := ZeroWords(), ZeroBlock();
      bat := new Bitmap(ZeroWords());
    }

    ghost predicate Valid()
      reads this, bat
    {
      |bat.words| == 128 && Volume(disk, own, total)
    }

    // -------------------------------------------------------------- creating

    /** The lowest free block, now marked in the bitmap buffer; -1 if there is none. */
    method Take() returns (r: int)
      requires total <= 4096 && |bat.words| == 128
      modifies bat
      ensures r == -1 <==> FreeCount(old(bat.words), total) == 0
      ensures r == -1 ==> bat.words == old(bat.words)
      ensures r != -1 ==> 0 <= r < total && !Bit(old(bat.words), r) && bat.words == WithBit(old(bat.words), r, true)
      ensures r != -1 ==> FreeCount(bat.words, total) == FreeCount(old(bat.words), total) - 1
      ensures |bat.words| == 128
    {
      hide Bit; hide WithBit;
      FreeCountZero(bat.words, total);
      r := bat.FindnSet(total);
      if r != -1 {
        FreeCountWithBit(old(bat.words), r, true, total);
      }
    }

    /** Takes a free block for the inode in the bitmap buffer; -1 if there is none. */
    method TakeInode() returns (r: int, ghost own1: Owners)
      requires Accounted(bat.words, own, total)
      modifies bat
      ensures r == -1 <==> FreeCount(old(bat.words), total) == 0
      ensures r == -1 ==> bat.words == old(bat.words)
      ensures r != -1 ==>
                3 <= r < total && |bat.words| == 128 && Accounted(bat.words, own1, total)
                && SameBeyond(old(bat.words), bat.words, total)
      ensures r != -1 ==> forall ino: WordBlock :: Extends(own, own1, r, ino, 0)
      ensures r != -1 ==> FreeCount(bat.words, total) == FreeCount(old(bat.words), total) - 1
    {
      hide FreeCount; hide Bit; hide BlockPtr; hide WithBit;
      own1 := own;
      r := Take();
      if r != -1 {
        AccountedTake(old(bat.words), own, r, Role(r, Self), total);
        own1 := own[r := Role(r, Self)];
      }
    }

    /** Takes n data blocks and names them in the inode buffer; the disk is not touched. */
    method TakeData(n: nat, ghost fid: nat, ghost own0: Owners, ghost own1: Owners) returns (ok: bool,
                    ghost own2: Owners)
      requires n <= TFS_MAX_BLOCKS && Accounted(bat.words, own1, total) && Extends(own0, own1, fid, inode, 0)
      modifies this`inode, bat
      ensures ok <==> FreeCount(old(bat.words), total) >= n
      ensures |bat.words| == 128
      ensures ok ==>
                Accounted(bat.words, own2, total) && Extends(own0, own2, fid, inode, n)
                && SameBeyond(old(bat.words), bat.words, total)
      ensures ok ==> FreeCount(bat.words, total) == FreeCount(old(bat.words), total) - n
      ensures inode[0] == old(inode)[0]
    {
      hide FreeCount; hide Bit; hide BlockPtr; hide Extends; hide WithBit;
      own2 := own1;
      var i := 0;
      while i < n
        invariant 0 <= i <= n && Accounted(bat.words, own2, total) && Extends(own0, own2, fid, inode, i)
        invariant SameBeyond(old(bat.words), bat.words, total)
        invariant FreeCount(bat.words, total) == FreeCount(old(bat.words), total) - i && inode[0] == old(inode)[0]
      {
        ghost var words := bat.words;
        var x := Take();
        if x == -1 {
          inode := inode[1 + i := 0xffff_ffff];
          return false, own2;
        }
        AccountedTake(words, own2, x, Role(fid, Data(i)), total);
        SameBeyondTwice(old(bat.words), words, bat.words, total);
        ExtendsStep(own0, own2, fid, inode, i, x);
        inode := inode[1 + i := x];
        own2 := own2[x := Role(fid, Data(i))];
        i := i + 1;
      }
      ok := true;
    }

    /** Marks the rest of the blocks in the inode buffer as unused. */
    method ClearPointers(n: nat, ghost own0: Owners, ghost own1: Owners, ghost fid: nat)
      requires n <= TFS_MAX_BLOCKS && Extends(own0, own1, fid, inode, n)
      modifies this`inode
      ensures Extends(own0, own1, fid, inode, n) && inode[0] == old(inode)[0]
      ensures forall b {:trigger BlockPtr(inode, b)} :: n <= b < TFS_MAX_BLOCKS ==> BlockPtr(inode, b) == 0
    {
      var i := n;
      while i < TFS_MAX_BLOCKS
        invariant n <= i <= TFS_MAX_BLOCKS
        invariant forall k :: 0 <= k < 1 + n ==> inode[k] == old(inode)[k]
        invariant forall k :: 1 + n <= k < 1 + i ==> inode[k] == 0
      {
        inode := inode[1 + i := 0];
        i := i + 1;
      }
      assert forall b {:trigger BlockPtr(inode, b)} :: 0 <= b < n ==> BlockPtr(inode, b) == BlockPtr(old(inode), b);
    }

    /** Writes zeros to the first n data blocks of the inode buffer. */
    method ZeroData(n: nat, ghost own0: Owners, ghost own1: Owners, ghost fid: nat)
      requires n <= TFS_MAX_BLOCKS && Extends(own0, own1, fid, inode, n) && total <= |disk| && forall x :: x in own1 ==>
                 3 <= x < total
      modifies this`disk
      ensures |disk| == |old(disk)|
      ensures forall b {:trigger BlockPtr(inode, b)} :: 0 <= b < n ==>
                BlockPtr(inode, b) < |disk| && disk[BlockPtr(inode, b)] == ZeroBlock()
      ensures forall x :: 0 <= x < |disk| && (x < 3 || x in own0 || x == fid) ==> disk[x] == old(disk)[x]
    {
      hide BlockPtr;
      var i := 0;
      while i < n
        invariant 0 <= i <= n && |disk| == |old(disk)|
        invariant forall b {:trigger BlockPtr(inode, b)} :: 0 <= b < i ==>
                    BlockPtr(inode, b) < |disk| && disk[BlockPtr(inode, b)] == ZeroBlock()
        invariant forall x :: 0 <= x < |disk| && (x < 3 || x in own0 || x == fid) ==> disk[x] == old(disk)[x]
      {
        var x := BlockPtr(inode, i);
        assert Holds(own1, x, Role(fid, Data(i))) && x !in own0;
        disk := disk[x := ZeroBlock()];
        i := i + 1;
      }
    }

    /** Creates a file of zeros; an error leaves the disk as it is. */
    method Create(filename: Name, size: nat) returns (r: int)
      requires Valid() && ValidName(filename) && size + BLOCK_SIZE - 1 < 0x8000_0000
      modifies this, bat
      ensures Valid()
      ensures r == VFS_OK || r == VFS_ERROR
      ensures r == VFS_OK <==>
                filename != [] && NumBlocks(size) <= TFS_MAX_BLOCKS && filename !in old(Contents(disk))
                && HasFreeEntry(old(disk)[DIRECTORY_BLOCK]) && old(FreeBlocks(disk, total)) >= 1 + NumBlocks(size)
      ensures r == VFS_ERROR ==> disk == old(disk) && own == old(own)
      ensures r == VFS_OK ==> CreatedAs(old(disk), disk, old(own), own, filename, size, total)
    {
      hide EntryInode; hide EntryName; hide Bytes; hide FreeCount; hide Bit; hide Names; hide At; hide FileOk;
      hide FilesOk; hide OwnedByFiles; hide DirOk; hide FindEntry; hide Live; hide ValidName; hide CreatedAs;
      hide HasFreeEntry;
      var numblocks := (size + BLOCK_SIZE - 1) / BLOCK_SIZE;
      if numblocks > TFS_MAX_BLOCKS {
        return VFS_ERROR;
      }
      md := disk[DIRECTORY_BLOCK];
      var found, index := FindSlot(md, filename);
      if found {
        return VFS_ERROR;
      }
      if index == -1 {
        return VFS_ERROR;
      }
      FreeEntry(md, index);
      r := CreateIn(index, filename, size, numblocks);
    }

    /** The part of Create after the directory search. */
    method CreateIn(index: nat, filename: Name, size: nat, numblocks: nat) returns (r: int)
      requires Valid() && ValidName(filename) && size < 0x8000_0000 && numblocks == NumBlocks(size) <= TFS_MAX_BLOCKS
      requires md == disk[DIRECTORY_BLOCK] && index < MAX_FILES && !Live(md, index) && filename != []
               && filename !in Names(md)
      modifies this, bat
      ensures Valid()
      ensures r == if old(FreeBlocks(disk, total)) >= 1 + numblocks then VFS_OK else VFS_ERROR
      ensures r == VFS_ERROR ==> disk == old(disk) && own == old(own)
      ensures r == VFS_OK ==> CreatedAs(old(disk), disk, old(own), own, filename, size, total)
    {
      hide EntryInode; hide EntryName; hide Bytes; hide FreeCount; hide Bit; hide Names; hide At; hide FileOk;
      hide FilesOk; hide OwnedByFiles; hide DirOk; hide FindEntry; hide Live; hide SetEntryInode; hide SetEntryName;
      hide Extends; hide SameBeyond; hide BlockPtr; hide Encode;
      ghost var d0 := disk;
      bat.words := At(disk, ALLOCATION_BLOCK);
      var fid;
      ghost var own1;
      fid, own1 := TakeInode();
      if fid == -1 {
        return VFS_ERROR;
      }
      ghost var bat1 := bat.words;
      inode := inode[0 := size];
      var ok;
      ok, own1 := TakeData(numblocks, fid, own, own1);
      if !ok {
        return VFS_ERROR;
      }
      SameBeyondTwice(At(d0, ALLOCATION_BLOCK), bat1, bat.words, total);
      ClearPointers(numblocks, own, own1, fid);
      md := SetEntryInode(SetEntryName(md, index, filename), index, fid);
      WriteCreated(index, filename, fid, numblocks, own1);
      r := VFS_OK;
    }

    /** The writes of Create: bitmap, directory, inode, and zeros to the data blocks. */
    method WriteCreated(index: nat, filename: Name, fid: Word, numblocks: nat, ghost own1: Owners)
      requires Volume(disk, own, total) && ValidName(filename) && numblocks == NumBlocks(inode[0]) <= TFS_MAX_BLOCKS
      requires index < MAX_FILES && !Live(disk[DIRECTORY_BLOCK], index) && filename != []
               && filename !in Names(disk[DIRECTORY_BLOCK])
      requires md == WithEntry(disk[DIRECTORY_BLOCK], index, filename, fid) && 3 <= fid < total
      requires Accounted(bat.words, own1, total) && Extends(own, own1, fid, inode, numblocks)
      requires SameBeyond(At(disk, ALLOCATION_BLOCK), bat.words, total)
      requires forall b {:trigger BlockPtr(inode, b)} :: numblocks <= b < TFS_MAX_BLOCKS ==> BlockPtr(inode, b) == 0
      modifies this, bat
      ensures Valid() && CreatedAs(old(disk), disk, old(own), own, filename, old(inode)[0], total)
    {
      hide EntryInode; hide EntryName; hide Bytes; hide FreeCount; hide Bit; hide Names; hide At; hide FileOk;
      hide FilesOk; hide OwnedByFiles; hide DirOk; hide FindEntry; hide Live; hide WithEntry; hide Extends;
      hide BlockPtr; hide Encode; hide ValidName; hide Contents; hide FileOf; hide SameBeyond;
      ghost var d0 := disk;
      ghost var words := bat.words;
      NewInodeUnowned(own, own1, fid, inode, numblocks);
      disk := disk[ALLOCATION_BLOCK := Encode(bat.words)];
      disk := disk[DIRECTORY_BLOCK := md];
      disk := disk[fid := Encode(inode)];
      ghost var d1 := disk;
      HeaderWritten(d0, words, md, fid, inode, own, total);
      bat.words := ZeroWords();            // the bitmap buffer serves as the zero block
      ZeroData(numblocks, own, own1, fid);
      DataZeroed(d0, d1, disk, words, md, fid, inode, numblocks, own);
      CreatedVolume(d0, disk, words, index, filename, fid, inode, numblocks, own, own1, total);
      FreeExactly(d0, own, total);
      FreeExactly(disk, own1, total);
      ExtendsCount(own, own1, fid, inode, numblocks);
      OwnersAreFiles(d0, own, total);
      own := own1;
    }

    // -------------------------------------------------------------- opening and removing

    /** The inode of a file, or an error code; for the empty name, block 0 if some entry is free. */
    method Open(filename: Name) returns (r: int)
      requires Valid() && ValidName(filename)
      modifies this`md
      ensures Valid() && disk == old(disk)
      ensures r == VFS_NOT_FOUND <==> !Found(disk[DIRECTORY_BLOCK], filename)
      ensures (r == VFS_NOT_FOUND <==> filename !in Contents(disk)) <==> Nameable(disk, filename)
      ensures r != VFS_NOT_FOUND && filename == [] ==> r == 0
      ensures r != VFS_NOT_FOUND && filename != [] ==>
                && r >= 2 && IsFile(disk[DIRECTORY_BLOCK], r)
                && FileName(disk[DIRECTORY_BLOCK], r) == filename && Contents(disk)[filename] == Bytes(disk, r)
    {
      hide EntryInode; hide EntryName; hide Bytes; hide FileOk; hide Bit; hide At; hide OwnedByFiles; hide FindEntry;
      hide DirOk; hide Names;
      md := disk[DIRECTORY_BLOCK];
      var index := FindFile(md, filename);
      NoEmptyName(md);
      if index == -1 {
        return VFS_NOT_FOUND;
      }
      if filename != [] {
        OpenedEntry(disk, own, index, total);
      }
      r := EntryInode(md, index);
    }

    /** The i-th pointer of the inode buffer; the word after the last one is whatever lies there in memory. */
    function PointerAt(i: nat, beyond: Word): Word
      requires i <= TFS_MAX_BLOCKS
      reads this`inode
    {
      if i < TFS_MAX_BLOCKS then BlockPtr(inode, i) else beyond
    }

    /**
     Clears the bits of an inode block and of the blocks it names in the bitmap buffer, as far as these are
     positions of the bitmap. The loop reads each pointer before it looks at the bound; past tells whether it
     read beyond the inode.
    */
    method ClearBits(fid: Word, beyond: Word) returns (fate: Fate, past: bool)
      requires |bat.words| == 128 && fid < BLOCK_BITS
      modifies bat
      ensures |bat.words| == 128 && fate == ListFate(Pointers(inode))
      ensures fate == Done ==> BitsCleared(old(bat.words), bat.words, fid, inode, PointerRun(inode, 0))
      ensures past <==> fate == Done && PointerRun(inode, 0) == TFS_MAX_BLOCKS
    {
      hide Bit; hide BlockPtr; hide Named; hide BitsCleared; hide WithBit; hide ListFate; hide Pointers;
      ghost var bat0 := bat.words;
      ghost var ptrs := Pointers(inode);
      fate := bat.SetInt(AsSigned(fid), false);
      ClearedFirst(bat0, fid, inode);
      NoneListed(ptrs);
      var i := 0;
      while PointerAt(i, beyond) != 0 && i < TFS_MAX_BLOCKS
        invariant 0 <= i <= TFS_MAX_BLOCKS && i + PointerRun(inode, i) == PointerRun(inode, 0)
        invariant |bat.words| == 128 && BitsCleared(bat0, bat.words, fid, inode, i)
        invariant fate == Done == ListFate(ptrs[..i])
        decreases TFS_MAX_BLOCKS - i
      {
        ListFateNext(ptrs, i);
        ghost var words := bat.words;
        fate := bat.SetInt(AsSigned(BlockPtr(inode, i)), false);
        if fate != Done {
          return fate, false;
        }
        ClearedNext(bat0, words, fid, inode, i);
        i := i + 1;
      }
      assert ptrs[..i] == ptrs;
      past := i == TFS_MAX_BLOCKS;
    }

    /**
     Removes a file by name. With the empty name and a free entry it takes the header for an inode. Then it
     frees the header if all blocks named there are positions of the bitmap, and no volume is left; otherwise
     it does not get to the disk. Where fate is not Done, nothing is said of the answer.
    */
    method Remove(filename: Name, beyond: Word) returns (r: int, fate: Fate, past: bool)
      requires Valid() && ValidName(filename)
      modifies this, bat
      ensures fate == RemoveFate(old(disk), filename)
      ensures fate != Done ==> disk == old(disk)
      ensures fate == Done ==>
                && (Valid() <==> Nameable(old(disk), filename))
                && ((exists owners :: Volume(disk, owners, total)) <==> Valid())
                && RemoveAnswers(old(disk), filename, r) && RemovedFrom(old(disk), disk, filename)
                && (!Valid() ==> HeaderFreed(old(disk), disk, total))
                && (Valid() && r == VFS_OK ==> RemovedAs(old(disk), disk, old(own), own, filename, past, total))
                && (r == VFS_NOT_FOUND ==> disk == old(disk) && own == old(own) && !past)
    {
      hide EntryInode; hide EntryName; hide Bytes; hide FreeCount; hide Bit; hide At; hide FileOk; hide FilesOk;
      hide OwnedByFiles; hide DirOk; hide FindEntry; hide Live; hide Names; hide Listing; hide ListFate;
      hide HeaderFreed; hide HasFreeEntry; hide Pointers;
      md := disk[DIRECTORY_BLOCK];
      fate, past := Done, false;
      var index := FindFile(md, filename);
      NoEmptyName(md);
      if index == -1 {
        assert Contents(disk) - {filename} == Contents(disk);
        return VFS_NOT_FOUND, Done, false;
      }
      if filename == [] {
        assert Contents(disk) - {filename} == Contents(disk);
        FreeEntry(md, index);
        fate, past := RemoveNameless(index, beyond);
      } else {
        FileOfEntry(disk, index, filename);
        OpenedEntry(disk, own, index, total);
        past := RemoveFound(index, filename, beyond);
      }
      r := VFS_OK;
    }

    /** What remove does with the entry it found, whatever its inode block holds. */
    method RemoveEntry(index: nat, beyond: Word) returns (fate: Fate, past: bool)
      requires |disk| > DIRECTORY_BLOCK && md == disk[DIRECTORY_BLOCK] && index < MAX_FILES
               && EntryInode(md, index) < |disk| && EntryInode(md, index) < BLOCK_BITS
      modifies this`md, this`inode, this`disk, bat
      ensures |bat.words| == 128 && fate == ListFate(Pointers(At(old(disk), EntryInode(old(md), index))))
      ensures fate != Done ==> disk == old(disk)
      ensures fate == Done ==>
                var fid, ino := EntryInode(old(md), index), At(old(disk), EntryInode(old(md), index));
                && disk == RemovedDisk(old(disk), bat.words, WithoutEntry(old(md), index))
                && BitsCleared(At(old(disk), ALLOCATION_BLOCK), bat.words, fid, ino, PointerRun(ino, 0))
                && (past <==> PointerRun(ino, 0) == TFS_MAX_BLOCKS)
    {
      hide EntryInode; hide Bit; hide At; hide SetEntryInode; hide ClearEntryName; hide Encode; hide BitsCleared;
      hide ListFate; hide Pointers;
      bat.words := At(disk, ALLOCATION_BLOCK);
      inode := At(disk, EntryInode(md, index));
      fate, past := ClearBits(EntryInode(md, index), beyond);
      if fate != Done {
        return;
      }
      md := ClearEntryName(SetEntryInode(md, index, 0), index);
      disk := disk[ALLOCATION_BLOCK := Encode(bat.words)];
      disk := disk[DIRECTORY_BLOCK := md];
    }

    /** Removes the file of a directory entry. */
    method RemoveFound(index: nat, ghost filename: Name, beyond: Word) returns (past: bool)
      requires Valid() && md == disk[DIRECTORY_BLOCK] && index < MAX_FILES && Live(md, index)
               && EntryName(md, index) == filename
      modifies this, bat
      ensures Valid() && |disk| == |old(disk)| && disk[0] == old(disk[0])
      ensures Contents(disk) == old(Contents(disk)) - {filename}
      ensures own == WithoutFile(old(own), EntryInode(old(md), index))
      ensures SameBeyond(At(old(disk), ALLOCATION_BLOCK), At(disk, ALLOCATION_BLOCK), total)
      ensures past <==> NumBlocks(Size(old(disk), EntryInode(old(md), index))) == TFS_MAX_BLOCKS
    {
      hide EntryInode; hide EntryName; hide Bytes; hide FreeCount; hide Bit; hide At; hide OwnedByFiles; hide Size;
      hide DirOk; hide FindEntry; hide WithoutEntry; hide Names; hide Listing; hide Encode; hide PointerRun;
      hide ClearedUpTo; hide WithoutFile; hide SameBeyond; hide BitsCleared; hide FileOk; hide Accounted;
      hide ListFate; hide Pointers;
      ghost var d0 := disk;
      ghost var fid := EntryInode(md, index);
      assert FileOk(disk, own, fid);
      RunOfFile(disk, own, total, fid);
      FileIsOk(disk, own, total, fid);
      FileFate(disk, own, total, fid);
      ghost var n := NumBlocks(Size(d0, fid));
      var fate;
      fate, past := RemoveEntry(index, beyond);
      ClearedFile(d0, bat.words, own, total, fid, n);
      RemovedAccounts(d0, bat.words, own, fid, n, total);
      ClearedBeyond(At(d0, ALLOCATION_BLOCK), bat.words, own, fid, n, total);
      RemovedVolume(d0, own, bat.words, index, fid, total);
      own := WithoutFile(own, fid);
    }

    /** The empty name finds a free entry, whose inode number is that of the header. */
    method RemoveNameless(index: nat, beyond: Word) returns (fate: Fate, past: bool)
      requires Valid() && md == disk[DIRECTORY_BLOCK] && index < MAX_FILES && !Live(md, index)
      modifies this, bat
      ensures fate == ListFate(Pointers(At(old(disk), 0))) && |disk| == |old(disk)| && disk[0] == old(disk[0])
      ensures fate != Done ==> disk == old(disk)
      ensures fate == Done ==> Contents(disk) == old(Contents(disk)) && HeaderFreed(old(disk), disk, total)
      ensures fate == Done ==> !Valid() && forall owners :: !Volume(disk, owners, total)
    {
      hide EntryName; hide Bytes; hide FreeCount; hide Bit; hide At; hide OwnedByFiles; hide EntryInode;
      hide DirOk; hide FindEntry; hide WithoutEntry; hide Names; hide Listing; hide Encode; hide PointerRun;
      hide BitsCleared; hide FilesOk; hide Contents; hide ListFate; hide Pointers;
      ghost var d0 := disk;
      FreeEntryCleared(md, index);
      fate, past := RemoveEntry(index, beyond);
      if fate == Done {
        FreedHeader(d0, own, bat.words, total);
        forall owners
          ensures !Volume(disk, owners, total)
        {
          HeaderFreeIsNoVolume(disk, owners, total);
        }
      }
    }

    /** The number of free bytes on the volume. */
    method GetFree() returns (r: nat)
      requires Valid()
      modifies bat
      ensures Valid() && r == FreeBlocks(disk, total) * BLOCK_SIZE && r == (total - 3 - |own|) * BLOCK_SIZE
    {
      hide Bit; hide At; hide FilesOk; hide OwnedByFiles; hide DirOk; hide Live;
      FreeExactly(disk, own, total);
      bat.words := At(disk, ALLOCATION_BLOCK);
      var used, i := 0, 0;
      while i < total
        invariant bat.words == At(disk, ALLOCATION_BLOCK) && 0 <= i <= total && used == i - FreeCount(bat.words, i)
      {
        var bit := bat.Get(i);
        used := used + bit;
        i := i + 1;
      }
      r := (total - used) * BLOCK_SIZE;
    }

    // -------------------------------------------------------------- data

    /** Reads a block into the bitmap buffer, which doubles as data buffer; its bytes are the answer. */
    method LoadData(x: nat) returns (data: Block)
      requires x < |disk|
      modifies bat
      ensures |bat.words| == 128 && data == disk[x]
    {
      EncodeDecode(disk[x]);
      bat.words := Decode(disk[x]);
      data := Encode(bat.words);
    }

    /** The inode buffer holds the file. */
    ghost predicate Loaded(fid: nat)
      reads this
    {
      Volume(disk, own, total) && FileOk(disk, own, fid) && inode == At(disk, fid)
    }

    /** One block of a read. */
    method ReadBlock(b: nat, b1: nat, b2: nat, bufsize: nat, offset: nat, fid: nat, read: nat, buffer: seq<Byte>)
      returns (read': nat, buffer': seq<Byte>)
      requires 0 < bufsize && offset + bufsize <= Size(disk, fid)
      requires b1 == offset / BLOCK_SIZE && b2 == (offset + bufsize - 1) / BLOCK_SIZE && b1 <= b <= b2
      requires read == if b == b1 then 0 else BLOCK_SIZE * b - offset
      requires ReadSoFar(disk, fid, offset, read, buffer) && Loaded(fid)
      modifies bat
      ensures |bat.words| == 128
      ensures read' == if b == b2 then bufsize else BLOCK_SIZE * (b + 1) - offset
      ensures ReadSoFar(disk, fid, offset, read', buffer')
    {
      hide Bit; hide At; hide BlockPtr; hide FileBlock; hide Bytes; hide Size; hide FilesOk; hide OwnedByFiles;
      hide DirOk; hide FileOk; hide Accounted; hide Decode; hide Encode;
      assert b < NumBlocks(Size(disk, fid));
      SizeOf(disk, fid, inode);
      DataBlock(disk, own, total, fid, b);
      var data := LoadData(BlockPtr(inode, b));
      var lo, hi;
      if b == b1 {
        read' := if BLOCK_SIZE - offset % BLOCK_SIZE < bufsize then BLOCK_SIZE - offset % BLOCK_SIZE else bufsize;
        lo, hi := offset % BLOCK_SIZE, offset % BLOCK_SIZE + read';
      } else if b == b2 {
        read' := bufsize;
        lo, hi := 0, bufsize - read;
      } else {
        read' := read + BLOCK_SIZE;
        lo, hi := 0, BLOCK_SIZE;
      }
      buffer' := buffer + data[lo..hi];
      AppendRun(disk, fid, b, lo, hi, offset, read);
    }

    /** Reads up to bufsize bytes at an offset; the answer is the count and the bytes, or an error code. */
    method Read(fileid: int, bufsize: nat, offset: int) returns (r: int, buffer: seq<Byte>)
      requires Valid() && (2 <= fileid < total ==> IsFile(disk[DIRECTORY_BLOCK], fileid))
      requires fileid == total ==> |disk| == total
      modifies this`inode, bat
      ensures Valid()
      ensures r == if fileid < 2 || fileid >= total || offset < 0 || offset > Size(disk, fileid) then VFS_ERROR
                   else if bufsize < Size(disk, fileid) - offset then bufsize else Size(disk, fileid) - offset
      ensures r >= 0 ==> ReadSoFar(disk, fileid, offset, r, buffer)
    {
      hide Bit; hide Bytes; hide FilesOk; hide OwnedByFiles; hide DirOk; hide FileOk; hide Accounted; hide IsFile;
      hide At; hide BlockPtr;
      if fileid < 2 || fileid > total {
        return VFS_ERROR, [];
      }
      if fileid >= |disk| {
        return VFS_ERROR, [];
      }
      FileIsOk(disk, own, total, fileid);
      inode := At(disk, fileid);
      if offset < 0 || offset > inode[0] {
        return VFS_ERROR, [];
      }
      var size := if bufsize < inode[0] - offset then bufsize else inode[0] - offset;
      if size == 0 {
        return 0, [];
      }
      var b1 := offset / BLOCK_SIZE;
      var b2 := (offset + size - 1) / BLOCK_SIZE;
      r, buffer := 0, [];
      var b := b1;
      while b <= b2
        invariant b1 <= b <= b2 + 1 && Loaded(fileid) && |bat.words| == 128
        invariant r == if b == b1 then 0 else if b == b2 + 1 then size else BLOCK_SIZE * b - offset
        invariant r <= size && ReadSoFar(disk, fileid, offset, r, buffer)
      {
        r, buffer := ReadBlock(b, b1, b2, size, offset, fileid, r, buffer);
        b := b + 1;
      }
    }

    /** One block of a write: a block written in part is read first. */
    method WriteBlock(b: nat, b1: nat, b2: nat, data: seq<Byte>, offset: nat, written: nat, ghost fid: nat,
                      ghost d0: Disk)
      returns (written': nat)
      requires 0 < |data| && offset + |data| <= Size(d0, fid) && |bat.words| == 128
      requires b1 == offset / BLOCK_SIZE && b2 == (offset + |data| - 1) / BLOCK_SIZE && b1 <= b <= b2
      requires written == if b == b1 then 0 else BLOCK_SIZE * b - offset
      requires Progress(d0, disk, fid, own, b1, b, data, offset) && inode == At(d0, fid)
      requires Volume(d0, own, total) && FileOk(d0, own, fid)
      modifies this`disk, bat
      ensures |bat.words| == 128 && Progress(d0, disk, fid, own, b1, b + 1, data, offset)
      ensures written' == if b == b2 then |data| else BLOCK_SIZE * (b + 1) - offset
    {
      hide Bit; hide At; hide BlockPtr; hide FileBlock; hide Size; hide FilesOk; hide OwnedByFiles; hide DirOk;
      hide FileOk; hide Accounted; hide Decode; hide Encode; hide FlatData.Overlay; hide Progress;
      assert b < NumBlocks(Size(d0, fid));
      SizeOf(d0, fid, inode);
      DataBlock(d0, own, total, fid, b);
      ProgressLength(d0, disk, fid, own, b1, b, data, offset);
      var block := BlockPtr(inode, b);
      ProgressStep(d0, disk, fid, own, total, b1, b, data, offset, block);
      var lo, hi;
      if b == b1 {
        written' := if BLOCK_SIZE - offset % BLOCK_SIZE < |data| then BLOCK_SIZE - offset % BLOCK_SIZE else |data|;
        lo, hi := offset % BLOCK_SIZE, offset % BLOCK_SIZE + written';
      } else if b == b2 {
        written' := |data|;
        lo, hi := 0, |data| - written;
      } else {
        written' := written + BLOCK_SIZE;
        lo, hi := 0, BLOCK_SIZE;
      }
      var buf: Block;
      if hi - lo < BLOCK_SIZE {
        buf := LoadData(block);
      } else {
        buf := Encode(bat.words);    // stale bytes, all overwritten
      }
      FlatData.PartialOverlay(disk[block], b, data, offset, lo, hi, written);
      buf := buf[..lo] + data[written..written + (hi - lo)] + buf[hi..];
      disk := disk[block := buf];
    }

    /**
     Writes data at an offset, as far as the file goes: a file does not grow. The number of bytes written, or
     an error code.
    */
    method Write(fileid: int, data: seq<Byte>, offset: int) returns (r: int)
      requires Valid() && (2 <= fileid < total ==> IsFile(disk[DIRECTORY_BLOCK], fileid))
      requires fileid == total ==> |disk| == total
      modifies this`disk, this`inode, bat
      ensures Valid() && own == old(own)
      ensures r == if fileid < 2 || fileid >= total || offset < 0 || offset > Size(old(disk), fileid) then VFS_ERROR
                   else if |data| < Size(old(disk), fileid) - offset then |data| else Size(old(disk), fileid) - offset
      ensures r <= 0 ==> disk == old(disk)
      ensures r > 0 ==> WrittenPart(old(disk), disk, fileid, data, r, offset)
    {
      hide Bit; hide Bytes; hide FilesOk; hide OwnedByFiles; hide DirOk; hide FileOk; hide Accounted; hide IsFile;
      hide At; hide Written; hide Progress;
      if fileid < 2 || fileid > total {
        return VFS_ERROR;
      }
      if fileid >= |disk| {
        return VFS_ERROR;
      }
      FileIsOk(disk, own, total, fileid);
      inode := At(disk, fileid);
      if offset < 0 || offset > inode[0] {
        return VFS_ERROR;
      }
      var datasize := if |data| < inode[0] - offset then |data| else inode[0] - offset;
      if datasize == 0 {
        return 0;
      }
      ghost var d0 := disk;
      r := WriteLoop(fileid, data[..datasize], offset);
      WrittenByLoop(d0, disk, fileid, own, total, data[..datasize], offset);
    }

    method WriteLoop(ghost fid: nat, data: seq<Byte>, offset: nat) returns (r: nat)
      requires Volume(disk, own, total) && FileOk(disk, own, fid) && inode == At(disk, fid) && |bat.words| == 128
      requires 0 < |data| && offset + |data| <= Size(disk, fid)
      modifies this`disk, bat
      ensures |bat.words| == 128 && r == |data|
      ensures Progress(old(disk), disk, fid, own, offset / BLOCK_SIZE, (offset + |data| - 1) / BLOCK_SIZE + 1, data,
                offset)
    {
      hide Bit; hide FilesOk; hide OwnedByFiles; hide DirOk; hide FileOk; hide Accounted; hide At; hide Progress;
      ghost var d0 := disk;
      var b1 := offset / BLOCK_SIZE;
      var b2 := (offset + |data| - 1) / BLOCK_SIZE;
      r := 0;
      var b := b1;
      ProgressStart(disk, fid, own, b1, data, offset);
      while b <= b2
        invariant b1 <= b <= b2 + 1 && |bat.words| == 128
        invariant r == if b == b1 then 0 else if b == b2 + 1 then |data| else BLOCK_SIZE * b - offset
        invariant Progress(d0, disk, fid, own, b1, b, data, offset)
      {
        r := WriteBlock(b, b1, b2, data, offset, r, fid, d0);
        b := b + 1;
      }
    }
  }

  /** Creating a file and removing it again leaves the bitmap word for word, and the files, as they were. */
  method CreateThenRemove(fs: Tfs, filename: Name, size: nat, beyond: Word) returns (r: int)
    requires fs.Valid() && ValidName(filename) && size + BLOCK_SIZE - 1 < 0x8000_0000
    modifies fs, fs.bat
    ensures fs.Valid()
    ensures r == VFS_OK ==> At(fs.disk, ALLOCATION_BLOCK) == At(old(fs.disk), ALLOCATION_BLOCK)
    ensures r == VFS_OK ==> Contents(fs.disk) == old(Contents(fs.disk)) && fs.own == old(fs.own)
    ensures r != VFS_OK ==> fs.disk == old(fs.disk)
  {
    hide Volume; hide At; hide Contents; hide CreatedAs; hide RemovedAs; hide RemovedFrom; hide HeaderFreed;
    hide HasFreeEntry; hide FreeBlocks; hide DirOk; hide FindEntry; hide SameBeyond;
    ghost var d0, own0 := fs.disk, fs.own;
    r := fs.Create(filename, size);
    if r == VFS_OK {
      ghost var d1, own1 := fs.disk, fs.own;
      CreatedIsFound(d0, d1, own0, own1, filename, size, fs.total);
      var removed, fate, past := fs.Remove(filename, beyond);
      CreatedThenRemoved(d0, d1, fs.disk, own0, own1, fs.own, filename, size, past, fs.total);
    }
  }

  /** What a caller sees: the bytes just written come back from the same offset. */
  method WriteThenRead(fs: Tfs, fileid: int, data: seq<Byte>, offset: int) returns (r: int, back: seq<Byte>)
    requires fs.Valid() && (2 <= fileid < fs.total ==> IsFile(fs.disk[DIRECTORY_BLOCK], fileid))
    requires fileid == fs.total ==> |fs.disk| == fs.total
    modifies fs, fs.bat
    ensures fs.Valid()
    ensures r > 0 ==> r <= |data| && back == data[..r]
  {
    hide Bit; hide FilesOk; hide OwnedByFiles; hide DirOk; hide Accounted; hide At; hide Bytes; hide Contents;
    hide IsFile;
    ghost var d0 := fs.disk;
    r := fs.Write(fileid, data, offset);
    back := [];
    if r > 0 {
      WrittenReadsBack(d0, fs.disk, fileid, data[..r], offset);
      var n;
      n, back := fs.Read(fileid, r, offset);
    }
  }
}
