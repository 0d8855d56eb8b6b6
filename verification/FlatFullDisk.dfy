/**
 One full disk: thirteen blocks, all in use, holding one file of eight blocks. Writing one byte at the
 end of that file is answered with success, and the byte is in the header of the volume.
*/
module FlatFullDisk {
  import opened Words
  import opened Bitmaps
  import opened FlatLayout
  import opened FlatGrowth
  import opened FlatVolume
  import opened FlatData
  import opened FlatWriting
  import opened FlatFailures
  import opened FlatStray
  import opened FlatTail
  import opened FlatCases
  import opened FlatFileSystem
  import opened Directories

  const FILE := 3

  function AllSet(): WordBlock {
    seq(128, i => 0xffff_ffff)
  }

  /** Blocks 4 to 10 are direct, 12 is the table. */
  function FileInode(): WordBlock {
    ZeroWords()[0 := 8 * BLOCK_SIZE][1 := 4][2 := 5][3 := 6][4 := 7][5 := 8][6 := 9][7 := 10][8 := 12]
  }

  function FileTable(): WordBlock {
    ZeroWords()[0 := 11]
  }

  function Root(): Block {
    WithEntry(ZeroBlock(), 0, [97], FILE)
  }

  function FullDisk(): Disk {
    [ZeroBlock(), Encode(AllSet()), Root(), Encode(FileInode())]
    + seq(8, i => ZeroBlock()) + [Encode(FileTable())]
  }

  function RoleOf(x: nat): Role
    requires x >= 3
  {
    Role(FILE, if x == 3 then Self else if x == 12 then Table(0) else Data(x - 4))
  }

  ghost function FullOwners(): Owners {
    map x | 3 <= x < 13 :: RoleOf(x)
  }

  lemma DiskParts()
    ensures |FullDisk()| == 13 && At(FullDisk(), ALLOCATION_BLOCK) == AllSet() && At(FullDisk(), FILE) == FileInode()
    ensures At(FullDisk(), 12) == FileTable() && FullDisk()[DIRECTORY_BLOCK] == Root()
    ensures At(FullDisk(), 0) == ZeroWords()
  {
    hide Encode; hide Decode; hide AllSet; hide FileInode; hide FileTable; hide Root;
    DecodeEncode(AllSet());
    DecodeEncode(FileInode());
    DecodeEncode(FileTable());
    DecodeZero();
  }

  lemma AllBitsSet(x: nat)
    requires x < 4096
    ensures Bit(AllSet(), x)
  {
    Pow32();
    FullWord(32, x % 32);
  }

  lemma {:induction false} NothingFree(l: nat)
    requires l <= 4096
    ensures FreeCount(AllSet(), l) == 0
  {
    hide Bit;
    if l > 0 {
      NothingFree(l - 1);
      AllBitsSet(l - 1);
    }
  }

  /** The empty directory is well formed. */
  lemma EmptyDirectory()
    ensures DirOk(ZeroBlock()) && Names(ZeroBlock()) == {}
    ensures forall i :: 0 <= i < MAX_FILES ==> !Live(ZeroBlock(), i)
  {
    forall i | 0 <= i < MAX_FILES
      ensures !Live(ZeroBlock(), i) && EntryName(ZeroBlock(), i) == []
    {
    }
  }

  /** The directory names the file, and nothing else. */
  lemma RootEntries()
    ensures DirOk(Root()) && IsFile(Root(), FILE)
    ensures forall i :: 0 <= i < MAX_FILES && Live(Root(), i) ==> EntryInode(Root(), i) == FILE
  {
    hide EntryInode; hide EntryName; hide WithEntry; hide DirOk; hide Names;
    EmptyDirectory();
    WithEntryOk(ZeroBlock(), 0, [97], FILE);
    forall i | 0 <= i < MAX_FILES && Live(Root(), i)
      ensures EntryInode(Root(), i) == FILE
    {
      WithEntryReads(ZeroBlock(), 0, [97], FILE, i);
      EmptyEntry(i);
    }
    WithEntryReads(ZeroBlock(), 0, [97], FILE, 0);
    assert Live(Root(), 0);
  }

  lemma EmptyEntry(i: nat)
    requires i < MAX_FILES
    ensures EntryInode(ZeroBlock(), i) == 0
  {
  }

  lemma FileTree()
    ensures FileOk(FullDisk(), FullOwners(), FILE)
  {
    hide At; hide FullDisk;
    DiskParts();
    var d, own, ino := FullDisk(), FullOwners(), FileInode();
    var di := At(d, ino[9]);
    assert ino[9] == 0 && ino[8] == 12 && di == ZeroWords();
    forall b | 0 <= b < 8
      ensures Holds(own, Ptr(d, ino, di, b), Role(FILE, Data(b)))
    {
      assert b < DIRECT ==> DirectBlock(ino, b) == 4 + b;
    }
    forall b | 8 <= b < MAX_BLOCKS && DIRECT + SINDIR * ((b - DIRECT) / SINDIR) < 8
      ensures Ptr(d, ino, di, b) == 0
    {
      assert (b - DIRECT) / SINDIR == 0;
    }
    assert TreeCore(d, FILE, ino, di, 8, own);
  }

  lemma FullVolume()
    ensures Volume(FullDisk(), FullOwners(), 13) && IsFile(FullDisk()[DIRECTORY_BLOCK], FILE)
  {
    hide At; hide FullDisk; hide Bit; hide FileOk; hide DirOk; hide EntryInode; hide Root; hide IsFile; hide AllSet;
    DiskParts();
    RootEntries();
    FileTree();
    forall x | 0 <= x < 13
      ensures Bit(AllSet(), x)
    {
      AllBitsSet(x);
    }
    assert Holds(FullOwners(), FILE, Role(FILE, Self));
  }

  /** The write of one byte at the end of the file runs out of blocks in the table. */
  lemma FullDiskFails()
    ensures StopsInLast(FullDisk(), FILE, 1, 8 * BLOCK_SIZE, 13)
    ensures WithinLargest(FullDisk(), FILE, 1, 8 * BLOCK_SIZE, 13)
  {
    hide At; hide FullDisk; hide FreeCount; hide AllSet;
    DiskParts();
    NothingFree(13);
    assert FileInode()[0] == 8 * BLOCK_SIZE;
    WithinLast(FullDisk(), FILE, 1, 8 * BLOCK_SIZE, 13);
  }

  /** So a write that answers success leaves the byte in the header, and no well-formed volume. */
  method WriteOnFullDisk(x: Byte) returns (fs: FlatFs, r: int)
    ensures fresh(fs) && r == 1 && |fs.disk| == 13 && fs.disk[0][0] == x
    ensures forall owners :: !Volume(fs.disk, owners, 13)
  {
    hide At; hide FullDisk; hide FreeCount; hide AllSet; hide Volume; hide StopsInLast; hide WithinLargest;
    hide IsFile;
    hide FullOwners; hide WriteFits; hide StopsShort; hide StopsInTable; hide WentAstray; hide WrittenToEnd;
    hide Written; hide Contents; hide WentToHeader;
    DiskParts();
    FullVolume();
    FullDiskFails();
    fs := new FlatFs(FullDisk(), FullOwners());
    assert fs.total == 13;
    r := fs.Write(FILE, [x], 8 * BLOCK_SIZE);
    assert FileInode()[0] == 8 * BLOCK_SIZE;
    LastTableBreaks(FullDisk(), FullOwners(), fs.disk, r, FILE, [x], 8 * BLOCK_SIZE, 13);
    assert BLOCK_SIZE * 8 + 0 == 8 * BLOCK_SIZE;
    HeaderCarries(FullDisk(), FullOwners(), fs.disk, r, FILE, x);
  }

  lemma HeaderCarries(d0: Disk, own: Owners, d: Disk, r: int, fid: nat, x: Byte)
    requires WentToHeader(d0, own, d, r, fid, [x], 8 * BLOCK_SIZE)
    ensures r == 1 && |d| == |d0| > 0 && d[0][0] == x
  {
    hide At; hide BlockOf; hide Overlay; hide Spared; hide Carries;
    assert LastOf(1, 8 * BLOCK_SIZE) == 8;
    CarriesFirst(d[0], x);
  }

  lemma CarriesFirst(blk: Block, x: Byte)
    requires Carries(blk, 8, [x], 8 * BLOCK_SIZE)
    ensures blk[0] == x
  {
    assert BLOCK_SIZE * 8 + 0 == 8 * BLOCK_SIZE;
  }
}
