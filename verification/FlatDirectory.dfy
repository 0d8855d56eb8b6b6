/**
 Creating and removing FlatFS files: what the directory, the bitmap and the other files
 look like once the last block is written.
*/
module FlatDirectory {
  import opened Words
  import opened Bitmaps
  import opened FlatLayout
  import opened FlatGrowth
  import opened FlatVolume
  import opened FlatData
  import opened Directories

  /** All blocks a new file of n data blocks takes: inode, data, tables, double-indirect block. */
  function CreateNeed(n: nat): nat { 1 + Cost(n) + DoubleCount(n) }

  /** No block belongs to a file number that is still free. */
  lemma FreshFile(own: Owners, fid: nat, x: nat)
    requires OwnersClosed(own) && fid !in own && x in own
    ensures own[x].fid != fid
  {
  }

  lemma CreateUntouched(m0: Image, m: Image, fid: nat, total: nat)
    requires Sound(m0, total) && |m.bat| == 128 && Grew(m0, m, fid, total, AllPointers)
    requires OwnersClosed(m0.own) && fid !in m0.own
    ensures Untouched(m0.d, m.d, m0.own)
  {
    forall x | 0 <= x < |m0.d| && (x < 3 || x in m0.own)
      ensures m.d[x] == m0.d[x]
    {
      if x in m0.own {
        FreshFile(m0.own, fid, x);
      }
    }
  }

  /** The image on disk after the last two writes of a create. */
  function CreatedDisk(mid: Image, md: Block, ino: WordBlock, fid: nat): Disk
    requires fid < |mid.d| && 3 <= |mid.d| && |mid.bat| == 128
  {
    mid.d[ALLOCATION_BLOCK := Encode(mid.bat)][DIRECTORY_BLOCK := md][fid := Encode(ino)]
  }

  /** The new file: well formed, the right size, all zeros. */
  lemma CreatedFile(m1: Image, mid: Image, md: Block, fid: nat, n: nat, total: nat)
    requires Grown(m1, mid, fid, 0, n, total, AllPointers) && DirectZero(mid.ino, n) && n == NumBlocks(mid.ino[0])
    requires mid.di == At(mid.d, mid.ino[9]) && Holds(mid.own, fid, Role(fid, Self))
    requires if n > DIRECT + SINDIR then Holds(mid.own, mid.ino[9], Role(fid, Double)) && DoubleZero(mid.ino, mid.di, n)
             else mid.ino[9] == 0
    ensures fid < |mid.d|
    ensures var d := CreatedDisk(mid, md, mid.ino, fid);
            && FileOk(d, mid.own, fid) && Sound(VolumeImage(d, mid.own), total)
               && FileBytes(d, fid) == Zeros(mid.ino[0])
  {
    hide Ptr; hide Bit; hide Decode; hide Encode; hide TreeCore; hide DirectZero; hide DoubleZero; hide FileBytes;
    var ino, di := mid.ino, mid.di;
    var d1 := mid.d[ALLOCATION_BLOCK := Encode(mid.bat)];
    DecodeEncode(mid.bat);
    DecodeEncode(ino);
    assert At(d1, ALLOCATION_BLOCK) == mid.bat;
    SessionTree(mid, fid, di, n, total);
    ZeroedAfterBat(mid, fid, n, total);
    var d2 := d1[DIRECTORY_BLOCK := md];
    SystemWritten(d1, fid, ino, di, n, mid.own, md, total);
    InodeWritten(d2, fid, ino, di, n, mid.own, Encode(ino), total);
    var d := d2[fid := Encode(ino)];
    assert d == CreatedDisk(mid, md, ino, fid) && At(d, fid) == ino;
    OpenTreeIsTree(d, fid, ino, di, n, mid.own);
    forall b | 0 <= b < n
      ensures BlockOf(d, fid, b) == ZeroBlock()
    {
      assert Ptr(d, ino, At(d, ino[9]), b) == Ptr(d, ino, di, b) == Ptr(d2, ino, di, b) == Ptr(d1, ino, di, b);
    }
    ZeroBlocksZeroBytes(d, fid);
  }

  lemma ZeroedAfterBat(mid: Image, fid: nat, n: nat, total: nat)
    requires Sound(mid, total) && TreeCore(mid.d, fid, mid.ino, mid.di, n, mid.own)
             && Zeroed(mid.d, mid.ino, mid.di, 0, n)
    requires Kept(mid.d, mid.ino, mid.di, mid.d[ALLOCATION_BLOCK := Encode(mid.bat)], mid.ino, mid.di, n)
    ensures var d := mid.d[ALLOCATION_BLOCK := Encode(mid.bat)];
            forall b :: 0 <= b < n ==> Ptr(d, mid.ino, mid.di, b) < |d| && d[Ptr(d, mid.ino, mid.di, b)] == ZeroBlock()
  {
    hide Ptr; hide Bit; hide Encode;
    var d := mid.d[ALLOCATION_BLOCK := Encode(mid.bat)];
    forall b | 0 <= b < n
      ensures Ptr(d, mid.ino, mid.di, b) < |d| && d[Ptr(d, mid.ino, mid.di, b)] == ZeroBlock()
    {
      assert Holds(mid.own, Ptr(mid.d, mid.ino, mid.di, b), Role(fid, Data(b)));
      assert Ptr(d, mid.ino, mid.di, b) == Ptr(mid.d, mid.ino, mid.di, b);
    }
  }

  lemma ZeroBlocksZeroBytes(d: Disk, fid: nat)
    requires forall b :: 0 <= b < NumBlocks(FileSize(d, fid)) ==> BlockOf(d, fid, b) == ZeroBlock()
    ensures FileBytes(d, fid) == Zeros(FileSize(d, fid))
  {
    hide BlockOf; hide FileSize;
    forall i | 0 <= i < FileSize(d, fid)
      ensures FileBytes(d, fid)[i] == 0
    {
      assert i / BLOCK_SIZE < NumBlocks(FileSize(d, fid));
    }
  }

  /** Writing the directory block leaves the tree alone. */
  lemma SystemWritten(d: Disk, fid: nat, ino: WordBlock, di: WordBlock, n: nat, own: Owners, md: Block, total: nat)
    requires OpenTree(d, fid, ino, di, n, own) && Sound(VolumeImage(d, own), total)
    ensures var d' := d[DIRECTORY_BLOCK := md];
            && OpenTree(d', fid, ino, di, n, own) && Sound(VolumeImage(d', own), total)
            && Kept(d, ino, di, d', ino, di, n)
            && (forall b :: 0 <= b < n ==> Ptr(d, ino, di, b) < |d| && d'[Ptr(d, ino, di, b)] == d[Ptr(d, ino, di, b)])
  {
    hide Ptr; hide Decode; hide Bit; hide TailZero;
    var d' := d[DIRECTORY_BLOCK := md];
    TreeCoreFrame(d, d', fid, ino, di, n, own, own);
    forall b | 0 <= b < n
      ensures Ptr(d, ino, di, b) < |d| && d'[Ptr(d, ino, di, b)] == d[Ptr(d, ino, di, b)]
    {
      assert Holds(own, Ptr(d, ino, di, b), Role(fid, Data(b)));
    }
  }

  /** Files of the old volume that keep all their blocks, in any new one. */
  lemma KeptFiles(d0: Disk, own0: Owners, d: Disk, own: Owners, total: nat)
    requires Volume(d0, own0, total) && |d| == |d0|
    requires forall x :: x in own0 ==> x in own && own[x] == own0[x] && d[x] == d0[x]
    ensures forall i :: 0 <= i < MAX_FILES && Live(d0[DIRECTORY_BLOCK], i) ==>
              FileOk(d, own, EntryInode(d0[DIRECTORY_BLOCK], i))
              && FileBytes(d, EntryInode(d0[DIRECTORY_BLOCK], i)) == FileBytes(d0, EntryInode(d0[DIRECTORY_BLOCK], i))
  {
    hide FileBytes; hide EntryInode; hide EntryName; hide FileOk; hide Decode; hide Bit; hide DirOk;
    forall i | 0 <= i < MAX_FILES && Live(d0[DIRECTORY_BLOCK], i)
      ensures FileOk(d, own, EntryInode(d0[DIRECTORY_BLOCK], i))
      ensures FileBytes(d, EntryInode(d0[DIRECTORY_BLOCK], i)) == FileBytes(d0, EntryInode(d0[DIRECTORY_BLOCK], i))
    {
      FileFrame(d0, d, EntryInode(d0[DIRECTORY_BLOCK], i), own0, own, total);
    }
  }

  lemma CreatedVolume(d0: Disk, own0: Owners, d: Disk, own: Owners, fid: nat, i: nat, nm: Name, total: nat)
    requires Volume(d0, own0, total) && |d| == |d0| && Sound(VolumeImage(d, own), total)
    requires i < MAX_FILES && !Live(d0[DIRECTORY_BLOCK], i) && nm != [] && ValidName(nm)
             && nm !in Names(d0[DIRECTORY_BLOCK])
    requires fid !in own0 && 0 < fid < 0x1_0000_0000 && d[DIRECTORY_BLOCK] == WithEntry(d0[DIRECTORY_BLOCK], i, nm, fid)
    requires forall x :: x in own0 ==> x in own && own[x] == own0[x] && d[x] == d0[x]
    requires forall x :: x in own && x !in own0 ==> own[x].fid == fid
    requires FileOk(d, own, fid)
    ensures Volume(d, own, total)
  {
    hide FileBytes; hide EntryInode; hide EntryName; hide FileOk; hide Decode; hide Bit; hide WithEntry; hide DirOk;
    hide Names; hide Tree;
    var md, md' := d0[DIRECTORY_BLOCK], d[DIRECTORY_BLOCK];
    LiveInodesOwned(d0, own0, total);
    WithEntryOk(md, i, nm, fid);
    KeptFiles(d0, own0, d, own, total);
    FileIsSelf(d, own, fid);
    forall j | 0 <= j < MAX_FILES && Live(md', j)
      ensures FileOk(d, own, EntryInode(md', j))
    {
      WithEntryReads(md, i, nm, fid, j);
    }
  }

  lemma LiveInodesOwned(d: Disk, own: Owners, total: nat)
    requires Volume(d, own, total)
    ensures DirOk(d[DIRECTORY_BLOCK])
    ensures forall j :: 0 <= j < MAX_FILES && Live(d[DIRECTORY_BLOCK], j) ==> EntryInode(d[DIRECTORY_BLOCK], j) in own
  {
    hide Tree; hide EntryInode; hide EntryName;
  }

  lemma CreatedContents(d0: Disk, own0: Owners, d: Disk, own: Owners, fid: nat, i: nat, nm: Name, total: nat)
    requires Volume(d0, own0, total) && Volume(d, own, total) && |d| == |d0|
    requires i < MAX_FILES && !Live(d0[DIRECTORY_BLOCK], i) && nm != [] && ValidName(nm)
             && nm !in Names(d0[DIRECTORY_BLOCK])
    requires fid !in own0 && 0 < fid < 0x1_0000_0000 && d[DIRECTORY_BLOCK] == WithEntry(d0[DIRECTORY_BLOCK], i, nm, fid)
    requires forall x :: x in own0 ==> x in own && own[x] == own0[x] && d[x] == d0[x]
    ensures Contents(d) == Contents(d0)[nm := FileBytes(d, fid)]
  {
    hide FileBytes; hide EntryInode; hide EntryName; hide FileOk; hide WithEntry; hide DirOk; hide Names;
    hide Listing; hide Live; hide Decode; hide Bit; hide OwnersClosed;
    LiveInodesOwned(d0, own0, total);
    KeptFiles(d0, own0, d, own, total);
    ListingAdd(d0[DIRECTORY_BLOCK], FilesOf(d0), FilesOf(d), i, nm, fid);
  }

  lemma CreateDone(d0: Disk, own0: Owners, m0: Image, m1: Image, mid: Image, fid: nat, i: nat, nm: Name, n: nat,
                   total: nat)
    requires Volume(d0, own0, total) && m0.d == d0 && m0.own == own0 && Sound(m0, total) && fid !in own0 && fid < total
    requires Sound(m1, total) && Grew(m0, m1, fid, total, AllPointers) && Holds(m1.own, fid, Role(fid, Self))
    requires Grown(m1, mid, fid, 0, n, total, AllPointers) && DirectZero(mid.ino, n) && n == NumBlocks(mid.ino[0])
    requires mid.di == At(mid.d, mid.ino[9])
    requires if n > DIRECT + SINDIR then Holds(mid.own, mid.ino[9], Role(fid, Double)) && DoubleZero(mid.ino, mid.di, n)
             else mid.ino[9] == 0
    requires i < MAX_FILES && !Live(d0[DIRECTORY_BLOCK], i) && nm != [] && ValidName(nm)
             && nm !in Names(d0[DIRECTORY_BLOCK])
    ensures fid < |mid.d| && 3 <= |mid.d|
    ensures var d := CreatedDisk(mid, WithEntry(d0[DIRECTORY_BLOCK], i, nm, fid), mid.ino, fid);
            && Volume(d, mid.own, total) && Contents(d) == Contents(d0)[nm := Zeros(mid.ino[0])]
            && At(d, ALLOCATION_BLOCK) == mid.bat && |d| > 0 && d[0] == d0[0]
  {
    hide Ptr; hide Bit; hide Decode; hide TreeCore; hide Kept; hide Zeroed; hide DirectZero; hide DoubleZero;
    hide FileBytes; hide EntryInode; hide FileOk; hide DirOk; hide Names; hide Contents; hide WithEntry;
    hide OwnersClosed; hide Live; hide At; hide CreatedDisk;
    var md := WithEntry(d0[DIRECTORY_BLOCK], i, nm, fid);
    CreatedFile(m1, mid, md, fid, n, total);
    var d := CreatedDisk(mid, md, mid.ino, fid);
    CreatedKept(d0, own0, m0, m1, mid, md, fid, n, total);
    CreatedVolume(d0, own0, d, mid.own, fid, i, nm, total);
    CreatedContents(d0, own0, d, mid.own, fid, i, nm, total);
  }

  lemma CreatedKept(d0: Disk, own0: Owners, m0: Image, m1: Image, mid: Image, md: Block, fid: nat, n: nat, total: nat)
    requires Volume(d0, own0, total) && m0.d == d0 && m0.own == own0 && Sound(m0, total) && fid !in own0
             && 3 <= fid < total
    requires Sound(m1, total) && Grew(m0, m1, fid, total, AllPointers)
    requires Grown(m1, mid, fid, 0, n, total, AllPointers)
    ensures fid < |mid.d| && 3 <= |mid.d|
    ensures var d := CreatedDisk(mid, md, mid.ino, fid);
            && |d| == |d0| && d[0] == d0[0] && d[DIRECTORY_BLOCK] == md && At(d, ALLOCATION_BLOCK) == mid.bat
            && (forall x :: x in own0 ==> x in mid.own && mid.own[x] == own0[x] && d[x] == d0[x])
            && (forall x :: x in mid.own && x !in own0 ==> mid.own[x].fid == fid)
  {
    hide Ptr; hide Decode; hide Encode; hide Bit; hide TreeCore; hide Kept; hide Zeroed; hide FileOk; hide DirOk;
    hide Live; hide EntryInode;
    GrewTrans(m0, m1, mid, fid, total, AllPointers, AllPointers);
    CreateUntouched(m0, mid, fid, total);
    DecodeEncode(mid.bat);
  }

  function FreeBlocks(d: Disk, total: nat): nat
    requires total <= 4096
  {
    FreeCount(At(d, ALLOCATION_BLOCK), total)
  }

  /** Inode block and all other blocks of a new file are allocated; m1 is the state before its data blocks. */
  ghost predicate CreateAllocated(m0: Image, m1: Image, mid: Image, fid: nat, size: nat, n: nat, total: nat) {
    && fid !in m0.own && fid < total && Sound(m1, total) && Sound(m0, total) && Grew(m0, m1, fid, total, AllPointers)
    && Holds(m1.own, fid, Role(fid, Self))
    && Grown(m1, mid, fid, 0, n, total, AllPointers) && DirectZero(mid.ino, n) && mid.ino[0] == size
    && mid.di == At(mid.d, mid.ino[9])
    && (if n > DIRECT + SINDIR then Holds(mid.own, mid.ino[9], Role(fid, Double)) && DoubleZero(mid.ino, mid.di, n)
        else mid.ino[9] == 0)
    && FreeCount(mid.bat, total) == FreeCount(m0.bat, total) - CreateNeed(n)
  }

  lemma EmptyTree(d: Disk, fid: nat, ino: WordBlock, di: WordBlock, own: Owners)
    requires ino[8] == 0
    ensures TreeCore(d, fid, ino, di, 0, own)
  {
  }

  lemma GrewBuffers(m0: Image, m: Image, m': Image, fid: nat, total: nat)
    requires Sound(m0, total) && Sound(m, total) && Grew(m0, m, fid, total, Nothing)
    requires m'.d == m.d && m'.bat == m.bat && m'.own == m.own
    ensures Sound(m', total) && Grew(m0, m', fid, total, Nothing)
  {
  }

  lemma OpenedEntry(d: Disk, own: Owners, i: nat, total: nat)
    requires Volume(d, own, total) && i < MAX_FILES && EntryName(d[DIRECTORY_BLOCK], i) != []
    ensures Live(d[DIRECTORY_BLOCK], i)
    ensures var md := d[DIRECTORY_BLOCK]; var fid := EntryInode(md, i);
            && fid >= 3 && IsFile(md, fid) && FileName(md, fid) == EntryName(md, i)
            && EntryName(md, i) in Contents(d) && Contents(d)[EntryName(md, i)] == FileBytes(d, fid)
  {
    hide EntryInode; hide EntryName; hide FileBytes; hide Tree; hide Listing; hide Bit; hide Decode; hide FindEntry;
    var md := d[DIRECTORY_BLOCK];
    assert Live(md, i);
    ListingAt(md, FilesOf(d), i);
    assert IsFile(md, EntryInode(md, i));
    FileIsOk(d, own, total, EntryInode(md, i));
    assert EntryName(md, i) in Names(md);
    FileNameUnique(md, EntryInode(md, i), EntryName(md, i));
    var k := NameIndex(md, EntryName(md, i));
    assert k == i;
  }
}
