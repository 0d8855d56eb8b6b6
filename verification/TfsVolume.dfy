/**
 A TFS volume as a map from names to bytes. An inode is the file size and 127 block
 pointers; there are no pointer blocks, so the allocated blocks are exactly the system
 blocks and the inode and data blocks of the files in the directory.
*/
module TfsVolume {
  import opened Words
  import opened Bitmaps
  import opened Directories
  import opened FlatLayout
  import FlatData
  import PagePools

  const TFS_MAX_BLOCKS := 127

  // ---------------------------------------------------------------- files

  function BlockPtr(ino: WordBlock, b: nat): Word
    requires b < TFS_MAX_BLOCKS
  {
    ino[1 + b]
  }

  function Size(d: Disk, fid: nat): nat { At(d, fid)[0] }

  /** Logical block b of file fid. */
  function FileBlock(d: Disk, fid: nat, b: nat): Block {
    if b < TFS_MAX_BLOCKS && BlockPtr(At(d, fid), b) < |d| then d[BlockPtr(At(d, fid), b)] else ZeroBlock()
  }

  function ByteAt(d: Disk, fid: nat, i: nat): Byte { FileBlock(d, fid, i / BLOCK_SIZE)[i % BLOCK_SIZE] }

  function Bytes(d: Disk, fid: nat): (s: seq<Byte>)
    ensures |s| == Size(d, fid)
  {
    hide ByteAt; hide At;
    seq(Size(d, fid), i requires 0 <= i < Size(d, fid) => ByteAt(d, fid, i))
  }

  /** The first n pointers name the file's data blocks, the others are zero. */
  ghost predicate InodeOk(ino: WordBlock, fid: nat, n: nat, own: Owners) {
    && n <= TFS_MAX_BLOCKS
    && (forall b {:trigger BlockPtr(ino, b)} :: 0 <= b < n ==> Holds(own, BlockPtr(ino, b), Role(fid, Data(b))))
    && (forall b {:trigger BlockPtr(ino, b)} :: n <= b < TFS_MAX_BLOCKS ==> BlockPtr(ino, b) == 0)
  }

  ghost predicate FileOk(d: Disk, own: Owners, fid: nat) {
    Holds(own, fid, Role(fid, Self)) && InodeOk(At(d, fid), fid, NumBlocks(Size(d, fid)), own)
  }

  // ---------------------------------------------------------------- the volume

  /** A bit is set exactly for the system blocks and the owned blocks. */
  ghost predicate Accounted(bat: seq<Word>, own: Owners, total: nat) {
    && 3 <= total <= 4096 && |bat| == 128
    && (forall x :: 0 <= x < total ==> (Bit(bat, x) <==> x < 3 || x in own))
    && (forall x :: x in own ==> 3 <= x < total)
  }

  /** x is the inode block or one of the data blocks of file fid. */
  ghost predicate PartOf(d: Disk, fid: nat, slot: Slot, x: nat) {
    match slot
    case Self => x == fid
    case Data(b) => b < NumBlocks(Size(d, fid)) && b < TFS_MAX_BLOCKS && BlockPtr(At(d, fid), b) == x
    case _ => false
  }

  /** Every owned block is part of a file in the directory. */
  ghost predicate OwnedByFiles(d: Disk, own: Owners)
    requires |d| > DIRECTORY_BLOCK
  {
    forall x :: x in own ==> IsFile(d[DIRECTORY_BLOCK], own[x].fid) && PartOf(d, own[x].fid, own[x].slot, x)
  }

  ghost predicate FilesOk(d: Disk, own: Owners)
    requires |d| > DIRECTORY_BLOCK
  {
    forall i :: 0 <= i < MAX_FILES && Live(d[DIRECTORY_BLOCK], i) ==> FileOk(d, own, EntryInode(d[DIRECTORY_BLOCK], i))
  }

  /** The invariant of a mounted volume between operations. */
  ghost predicate Volume(d: Disk, own: Owners, total: nat) {
    && Accounted(At(d, ALLOCATION_BLOCK), own, total) && total <= |d|
    && DirOk(d[DIRECTORY_BLOCK]) && FilesOk(d, own) && OwnedByFiles(d, own)
  }

  ghost function FilesOf(d: Disk): nat -> seq<Byte> {
    fid => Bytes(d, fid)
  }

  /** The volume seen by its users: names to bytes. */
  ghost function Contents(d: Disk): (m: map<Name, seq<Byte>>)
    requires |d| > DIRECTORY_BLOCK
    ensures m.Keys == Names(d[DIRECTORY_BLOCK])
  {
    Listing(d[DIRECTORY_BLOCK], FilesOf(d))
  }

  function FreeBlocks(d: Disk, total: nat): nat
    requires total <= 4096
  {
    FreeCount(At(d, ALLOCATION_BLOCK), total)
  }

  // ---------------------------------------------------------------- exact accounting

  /** A block is allocated exactly if it is a system block or part of some file of the directory. */
  lemma AllocatedExactly(d: Disk, own: Owners, total: nat, x: nat)
    requires Volume(d, own, total) && x < total
    ensures Bit(At(d, ALLOCATION_BLOCK), x) <==>
              x < 3 || exists fid: nat, slot: Slot :: IsFile(d[DIRECTORY_BLOCK], fid) && PartOf(d, fid, slot, x)
  {
    hide Bit; hide Decode; hide EntryInode; hide EntryName;
    if x in own {
      assert IsFile(d[DIRECTORY_BLOCK], own[x].fid) && PartOf(d, own[x].fid, own[x].slot, x);
    }
    forall fid: nat, slot: Slot | IsFile(d[DIRECTORY_BLOCK], fid) && PartOf(d, fid, slot, x)
      ensures x in own
    {
      FileIsOk(d, own, total, fid);
    }
  }

  /** The free blocks are what the system blocks and the files leave. */
  lemma FreeExactly(d: Disk, own: Owners, total: nat)
    requires Volume(d, own, total)
    ensures FreeBlocks(d, total) == total - 3 - |own|
  {
    hide Bit; hide At; hide FilesOk; hide OwnedByFiles; hide DirOk;
    PagePools.FreeCountByComplement(At(d, ALLOCATION_BLOCK), total, 3, own.Keys);
    assert |own.Keys| == |own|;
  }

  /** Blocks of a file belong to it alone. */
  lemma BlocksAreDisjoint(d: Disk, own: Owners, total: nat, f: nat, s: Slot, g: nat, t: Slot, x: nat)
    requires Volume(d, own, total) && IsFile(d[DIRECTORY_BLOCK], f) && IsFile(d[DIRECTORY_BLOCK], g)
    requires PartOf(d, f, s, x) && PartOf(d, g, t, x)
    ensures f == g && s == t && 3 <= x < total
  {
    hide Bit; hide Decode; hide EntryInode; hide EntryName;
    FileIsOk(d, own, total, f);
    FileIsOk(d, own, total, g);
  }

  lemma FileIsOk(d: Disk, own: Owners, total: nat, fid: nat)
    requires Volume(d, own, total) && IsFile(d[DIRECTORY_BLOCK], fid)
    ensures FileOk(d, own, fid) && 3 <= fid < total
  {
    hide Bit; hide Decode; hide EntryInode; hide EntryName;
  }

  // ---------------------------------------------------------------- frames

  /** A file is untouched when all its blocks are. */
  lemma FileFrame(d: Disk, d': Disk, fid: nat, own: Owners, own': Owners)
    requires FileOk(d, own, fid) && |d'| == |d| && forall x :: x in own ==> x < |d|
    requires forall x :: x in own && own[x].fid == fid ==> x in own' && own'[x] == own[x] && d'[x] == d[x]
    ensures FileOk(d', own', fid) && Bytes(d', fid) == Bytes(d, fid) && Size(d', fid) == Size(d, fid)
    ensures At(d', fid) == At(d, fid)
  {
    hide Decode; hide ByteAt;
    var ino := At(d, fid);
    assert At(d', fid) == ino;
    forall i | 0 <= i < ino[0]
      ensures ByteAt(d', fid, i) == ByteAt(d, fid, i)
    {
      ByteFrame(d, d', fid, own, i);
    }
  }

  lemma ByteFrame(d: Disk, d': Disk, fid: nat, own: Owners, i: nat)
    requires FileOk(d, own, fid) && |d'| == |d| && (forall x :: x in own ==> x < |d|) && i < Size(d, fid)
    requires forall x :: x in own && own[x].fid == fid ==> d'[x] == d[x]
    ensures ByteAt(d', fid, i) == ByteAt(d, fid, i)
  {
    hide Decode;
    var b := i / BLOCK_SIZE;
    assert b < NumBlocks(Size(d, fid));
    assert Holds(own, BlockPtr(At(d, fid), b), Role(fid, Data(b)));
  }

  // ---------------------------------------------------------------- creating

  /** own1 adds to own the inode block fid and the first n data blocks the inode names. */
  ghost predicate Extends(own: Owners, own1: Owners, fid: nat, ino: WordBlock, n: nat)
    requires n <= TFS_MAX_BLOCKS
  {
    && fid !in own && Holds(own1, fid, Role(fid, Self))
    && (forall x :: x in own ==> x in own1 && own1[x] == own[x])
    && (forall b {:trigger BlockPtr(ino, b)} :: 0 <= b < n ==>
         Holds(own1, BlockPtr(ino, b), Role(fid, Data(b))) && BlockPtr(ino, b) !in own)
    && (forall x :: x in own1 && x !in own ==>
          own1[x].fid == fid && (own1[x].slot == Self ==> x == fid)
          && (own1[x].slot != Self ==> own1[x].slot.Data? && own1[x].slot.b < n && BlockPtr(ino, own1[x].slot.b) == x))
  }

  /** One more data block. */
  lemma ExtendsStep(own: Owners, own1: Owners, fid: nat, ino: WordBlock, n: nat, x: Word)
    requires n < TFS_MAX_BLOCKS && Extends(own, own1, fid, ino, n) && x !in own1
    ensures Extends(own, own1[x := Role(fid, Data(n))], fid, ino[1 + n := x], n + 1)
  {
    var ino' := ino[1 + n := x];
    assert forall b {:trigger BlockPtr(ino', b)} :: 0 <= b < TFS_MAX_BLOCKS ==>
             BlockPtr(ino', b) == if b == n then x else BlockPtr(ino, b);
  }

  /** The disk after a create: bitmap, directory and inode written, data blocks zeroed, nothing else touched. */
  ghost predicate CreatedDisk(d: Disk, d': Disk, bat: seq<Word>, md: Block, fid: nat, ino: WordBlock, n: nat,
                              own: Owners)
    requires n <= TFS_MAX_BLOCKS
  {
    && |d'| == |d| > DIRECTORY_BLOCK && At(d', ALLOCATION_BLOCK) == bat && d'[DIRECTORY_BLOCK] == md
       && At(d', fid) == ino
    && (forall b {:trigger BlockPtr(ino, b)} :: 0 <= b < n ==>
         BlockPtr(ino, b) < |d'| && d'[BlockPtr(ino, b)] == ZeroBlock())
    && (forall x :: x in own && x < |d| ==> d'[x] == d[x])
  }

  lemma CreatedFile(d: Disk, d': Disk, bat: seq<Word>, md: Block, fid: nat, ino: WordBlock, n: nat, own: Owners,
                    own1: Owners)
    requires n <= TFS_MAX_BLOCKS && CreatedDisk(d, d', bat, md, fid, ino, n, own) && Extends(own, own1, fid, ino, n)
    requires n == NumBlocks(ino[0]) && forall b {:trigger BlockPtr(ino, b)} :: n <= b < TFS_MAX_BLOCKS ==>
               BlockPtr(ino, b) == 0
    ensures FileOk(d', own1, fid) && Bytes(d', fid) == Zeros(ino[0])
  {
    hide Decode; hide ByteAt;
    assert At(d', fid) == ino;
    forall i | 0 <= i < ino[0]
      ensures ByteAt(d', fid, i) == 0
    {
      ZeroByte(d', fid, ino, n, i);
    }
  }

  lemma ZeroByte(d: Disk, fid: nat, ino: WordBlock, n: nat, i: nat)
    requires At(d, fid) == ino && n == NumBlocks(ino[0]) <= TFS_MAX_BLOCKS && i < ino[0]
    requires forall b {:trigger BlockPtr(ino, b)} :: 0 <= b < n ==>
               BlockPtr(ino, b) < |d| && d[BlockPtr(ino, b)] == ZeroBlock()
    ensures ByteAt(d, fid, i) == 0
  {
    hide Decode; hide At;
    var b := i / BLOCK_SIZE;
    assert b < n;
    assert BlockPtr(ino, b) < |d|;
  }

  lemma CreatedVolume(d: Disk, d': Disk, bat: seq<Word>, i: nat, nm: Name, fid: Word, ino: WordBlock, n: nat,
                      own: Owners, own1: Owners, total: nat)
    requires Volume(d, own, total) && n <= TFS_MAX_BLOCKS
    requires i < MAX_FILES && !Live(d[DIRECTORY_BLOCK], i) && nm != [] && ValidName(nm)
             && nm !in Names(d[DIRECTORY_BLOCK])
    requires CreatedDisk(d, d', bat, WithEntry(d[DIRECTORY_BLOCK], i, nm, fid), fid, ino, n, own)
    requires Extends(own, own1, fid, ino, n) && Accounted(bat, own1, total)
    requires n == NumBlocks(ino[0]) && forall b {:trigger BlockPtr(ino, b)} :: n <= b < TFS_MAX_BLOCKS ==>
               BlockPtr(ino, b) == 0
    ensures Volume(d', own1, total) && Contents(d') == Contents(d)[nm := Zeros(ino[0])]
    ensures nm in Names(d'[DIRECTORY_BLOCK]) && FileOf(d', nm) == fid
  {
    hide EntryInode; hide EntryName; hide WithEntry; hide Bit; hide Decode; hide Bytes; hide Listing; hide Live;
    hide Names; hide FindEntry; hide DirOk; hide FileOk; hide InodeOk; hide OwnedByFiles; hide CreatedDisk;
    hide Extends; hide FilesOk;
    var md := d[DIRECTORY_BLOCK];
    InodesOwned(d, own, own1, total, fid, ino, n);
    WithEntryOk(md, i, nm, fid);
    CreatedParts(d, d', bat, WithEntry(md, i, nm, fid), fid, ino, n, own);
    CreatedFile(d, d', bat, WithEntry(md, i, nm, fid), fid, ino, n, own, own1);
    CreatedFiles(d, d', bat, i, nm, fid, ino, n, own, own1, total);
    CreatedOwned(d, d', bat, i, nm, fid, ino, n, own, own1, total);
    ListingAdd(md, FilesOf(d), FilesOf(d'), i, nm, fid);
    WithEntryReads(md, i, nm, fid, i);
    FileOfEntry(d', i, nm);
  }

  lemma CreatedParts(d: Disk, d': Disk, bat: seq<Word>, md: Block, fid: nat, ino: WordBlock, n: nat, own: Owners)
    requires n <= TFS_MAX_BLOCKS && CreatedDisk(d, d', bat, md, fid, ino, n, own)
    ensures |d'| == |d| > DIRECTORY_BLOCK && At(d', ALLOCATION_BLOCK) == bat && d'[DIRECTORY_BLOCK] == md
            && At(d', fid) == ino
    ensures forall x :: x in own && x < |d| ==> d'[x] == d[x]
  {
    hide Decode;
  }

  /** The inode block behind a name. */
  ghost function FileOf(d: Disk, nm: Name): nat
    requires |d| > DIRECTORY_BLOCK && nm in Names(d[DIRECTORY_BLOCK])
  {
    EntryInode(d[DIRECTORY_BLOCK], NameIndex(d[DIRECTORY_BLOCK], nm))
  }

  lemma FileOfEntry(d: Disk, i: nat, nm: Name)
    requires |d| > DIRECTORY_BLOCK && DirOk(d[DIRECTORY_BLOCK]) && i < MAX_FILES && Live(d[DIRECTORY_BLOCK], i)
             && EntryName(d[DIRECTORY_BLOCK], i) == nm
    ensures nm in Names(d[DIRECTORY_BLOCK]) && FileOf(d, nm) == EntryInode(d[DIRECTORY_BLOCK], i)
  {
    hide EntryInode; hide EntryName;
    var md := d[DIRECTORY_BLOCK];
    assert nm in Names(md);
    NameIndexLive(md, nm);
  }

  /** Inode blocks of existing files are owned, so the new one is none of them, and a system block is none. */
  lemma InodesOwned(d: Disk, own: Owners, own1: Owners, total: nat, fid: nat, ino: WordBlock, n: nat)
    requires Volume(d, own, total) && n <= TFS_MAX_BLOCKS && Extends(own, own1, fid, ino, n) && |own1| >= 0
    requires forall x :: x in own1 ==> 3 <= x < total
    ensures fid != 0
    ensures forall j :: 0 <= j < MAX_FILES && Live(d[DIRECTORY_BLOCK], j) ==> EntryInode(d[DIRECTORY_BLOCK], j) != fid
  {
    hide EntryInode; hide EntryName; hide Bit; hide Decode; hide InodeOk;
    forall j | 0 <= j < MAX_FILES && Live(d[DIRECTORY_BLOCK], j)
      ensures EntryInode(d[DIRECTORY_BLOCK], j) != fid
    {
      assert FileOk(d, own, EntryInode(d[DIRECTORY_BLOCK], j));
    }
  }

  lemma CreatedFiles(d: Disk, d': Disk, bat: seq<Word>, i: nat, nm: Name, fid: Word, ino: WordBlock, n: nat,
                     own: Owners, own1: Owners, total: nat)
    requires Volume(d, own, total) && n <= TFS_MAX_BLOCKS
    requires i < MAX_FILES && !Live(d[DIRECTORY_BLOCK], i) && ValidName(nm)
    requires CreatedDisk(d, d', bat, WithEntry(d[DIRECTORY_BLOCK], i, nm, fid), fid, ino, n, own)
    requires Extends(own, own1, fid, ino, n) && FileOk(d', own1, fid)
    ensures FilesOk(d', own1)
    ensures forall j :: 0 <= j < MAX_FILES && Live(d[DIRECTORY_BLOCK], j) ==>
              Bytes(d', EntryInode(d[DIRECTORY_BLOCK], j)) == Bytes(d, EntryInode(d[DIRECTORY_BLOCK], j))
  {
    hide EntryInode; hide EntryName; hide WithEntry; hide Bit; hide Decode; hide Bytes; hide InodeOk; hide DirOk;
    hide OwnedByFiles;
    forall j | 0 <= j < MAX_FILES && Live(d[DIRECTORY_BLOCK], j)
      ensures FileOk(d', own1, EntryInode(d[DIRECTORY_BLOCK], j))
      ensures Bytes(d', EntryInode(d[DIRECTORY_BLOCK], j)) == Bytes(d, EntryInode(d[DIRECTORY_BLOCK], j))
    {
      FileFrame(d, d', EntryInode(d[DIRECTORY_BLOCK], j), own, own1);
    }
    forall j | 0 <= j < MAX_FILES && Live(d'[DIRECTORY_BLOCK], j)
      ensures FileOk(d', own1, EntryInode(d'[DIRECTORY_BLOCK], j))
    {
      WithEntryReads(d[DIRECTORY_BLOCK], i, nm, fid, j);
    }
  }

  lemma CreatedOwned(d: Disk, d': Disk, bat: seq<Word>, i: nat, nm: Name, fid: Word, ino: WordBlock, n: nat,
                     own: Owners, own1: Owners, total: nat)
    requires Volume(d, own, total) && n <= TFS_MAX_BLOCKS && n == NumBlocks(ino[0]) && fid != 0
    requires i < MAX_FILES && !Live(d[DIRECTORY_BLOCK], i) && ValidName(nm)
    requires CreatedDisk(d, d', bat, WithEntry(d[DIRECTORY_BLOCK], i, nm, fid), fid, ino, n, own)
    requires Extends(own, own1, fid, ino, n)
    ensures OwnedByFiles(d', own1)
  {
    hide EntryInode; hide EntryName; hide WithEntry; hide Bit; hide Decode; hide InodeOk; hide DirOk; hide ValidName;
    forall x | x in own1
      ensures IsFile(d'[DIRECTORY_BLOCK], own1[x].fid) && PartOf(d', own1[x].fid, own1[x].slot, x)
    {
      if x in own {
        StillFile(d[DIRECTORY_BLOCK], i, nm, fid, own[x].fid);
        StillPart(d, d', own, total, x);
      } else {
        NewFile(d[DIRECTORY_BLOCK], i, nm, fid);
        assert At(d', fid) == ino;
      }
    }
  }

  lemma StillFile(md: Block, i: nat, nm: Name, ino: Word, f: nat)
    requires i < MAX_FILES && !Live(md, i) && ValidName(nm) && IsFile(md, f)
    ensures IsFile(WithEntry(md, i, nm, ino), f)
  {
    hide EntryInode; hide EntryName; hide WithEntry;
    var j :| 0 <= j < MAX_FILES && Live(md, j) && EntryInode(md, j) == f;
    WithEntryReads(md, i, nm, ino, j);
    assert Live(WithEntry(md, i, nm, ino), j);
  }

  lemma NewFile(md: Block, i: nat, nm: Name, ino: Word)
    requires i < MAX_FILES && ValidName(nm) && ino != 0
    ensures IsFile(WithEntry(md, i, nm, ino), ino)
  {
    hide EntryInode; hide EntryName; hide WithEntry;
    WithEntryReads(md, i, nm, ino, i);
    assert Live(WithEntry(md, i, nm, ino), i);
  }

  /** A part of a file stays one when the file's inode block is untouched. */
  lemma StillPart(d: Disk, d': Disk, own: Owners, total: nat, x: nat)
    requires Volume(d, own, total) && x in own && |d'| == |d|
    requires forall y :: y in own && own[y].fid == own[x].fid ==> d'[y] == d[y]
    ensures PartOf(d', own[x].fid, own[x].slot, x)
  {
    hide Bit; hide Decode; hide EntryInode; hide EntryName; hide InodeOk;
    FileIsOk(d, own, total, own[x].fid);
  }

  // ---------------------------------------------------------------- removing

  /** Of file fid, the inode bit and those of the first n data blocks have been cleared in bat0, giving bat. */
  ghost predicate ClearedUpTo(bat0: seq<Word>, bat: seq<Word>, own: Owners, fid: nat, n: nat) {
    && |bat0| == 128 && |bat| == 128
    && forall x :: 0 <= x < 4096 ==>
         (Bit(bat, x) <==>
           Bit(bat0, x) && !(x in own && own[x].fid == fid && (own[x].slot.Data? ==> own[x].slot.b < n)))
  }

  /** How many pointers of the inode from the i-th on come before a zero one. */
  function PointerRun(ino: WordBlock, i: nat): (n: nat)
    requires i <= TFS_MAX_BLOCKS
    ensures i + n <= TFS_MAX_BLOCKS && (i + n < TFS_MAX_BLOCKS ==> BlockPtr(ino, i + n) == 0)
    ensures forall b {:trigger BlockPtr(ino, b)} :: i <= b < i + n ==> BlockPtr(ino, b) != 0
    decreases TFS_MAX_BLOCKS - i
  {
    if i == TFS_MAX_BLOCKS || BlockPtr(ino, i) == 0 then 0 else 1 + PointerRun(ino, i + 1)
  }

  /** One of the first n pointers is x. */
  predicate Named(ino: WordBlock, n: nat, x: nat)
    requires n <= TFS_MAX_BLOCKS
  {
    exists b {:trigger BlockPtr(ino, b)} :: 0 <= b < n && BlockPtr(ino, b) == x
  }

  /** The bit of block fid and those of the first n pointers of the inode have been cleared in bat0, giving bat. */
  ghost predicate BitsCleared(bat0: seq<Word>, bat: seq<Word>, fid: nat, ino: WordBlock, n: nat)
    requires n <= TFS_MAX_BLOCKS
  {
    && |bat0| == 128 && |bat| == 128
    && forall x :: 0 <= x < 4096 ==> (Bit(bat, x) <==> Bit(bat0, x) && x != fid && !Named(ino, n, x))
  }

  /** The pointers of the inode before the first zero one. */
  function Pointers(ino: WordBlock): (s: seq<Word>)
    ensures |s| == PointerRun(ino, 0)
            && forall b {:trigger BlockPtr(ino, b)} :: 0 <= b < |s| ==> s[b] == BlockPtr(ino, b)
  {
    ino[1..1 + PointerRun(ino, 0)]
  }

  lemma ClearedFirst(bat: seq<Word>, fid: nat, ino: WordBlock)
    requires |bat| == 128 && fid < BLOCK_BITS
    ensures BitsCleared(bat, WithBit(bat, fid, false), fid, ino, 0)
  {
    hide Bit; hide BlockPtr; hide WithBit;
    BitsWithBit(bat, fid, false);
  }

  lemma NamedNext(ino: WordBlock, n: nat, x: nat)
    requires n < TFS_MAX_BLOCKS
    ensures Named(ino, n + 1, x) <==> Named(ino, n, x) || x == BlockPtr(ino, n)
  {
    hide BlockPtr;
    if x == BlockPtr(ino, n) {
      assert Named(ino, n + 1, x);
    }
  }

  lemma ClearedNext(bat0: seq<Word>, bat: seq<Word>, fid: nat, ino: WordBlock, n: nat)
    requires n < TFS_MAX_BLOCKS && BitsCleared(bat0, bat, fid, ino, n) && BlockPtr(ino, n) < BLOCK_BITS
    ensures BitsCleared(bat0, WithBit(bat, BlockPtr(ino, n), false), fid, ino, n + 1)
  {
    hide Bit; hide Named; hide BlockPtr; hide WithBit;
    BitsWithBit(bat, BlockPtr(ino, n), false);
    forall x | 0 <= x < 4096
      ensures Named(ino, n + 1, x) <==> Named(ino, n, x) || x == BlockPtr(ino, n)
    {
      NamedNext(ino, n, x);
    }
  }

  /** The pointers of a file before the first zero one are those of its data blocks. */
  lemma RunOfFile(d: Disk, own: Owners, total: nat, fid: nat)
    requires Volume(d, own, total) && FileOk(d, own, fid)
    ensures PointerRun(At(d, fid), 0) == NumBlocks(Size(d, fid)) <= TFS_MAX_BLOCKS
  {
    hide BlockPtr; hide At; hide FileOk; hide FilesOk; hide OwnedByFiles; hide DirOk;
    var n := PointerRun(At(d, fid), 0);
    PointerPresent(d, own, total, fid, 0);
    if n < TFS_MAX_BLOCKS {
      PointerPresent(d, own, total, fid, n);
    }
    if n > 0 {
      PointerPresent(d, own, total, fid, n - 1);
    }
  }

  /** All blocks an inode names are positions of the bitmap. */
  lemma FileFate(d: Disk, own: Owners, total: nat, fid: nat)
    requires Volume(d, own, total) && FileOk(d, own, fid)
    ensures fid < BLOCK_BITS && ListFate(Pointers(At(d, fid))) == Done
  {
    hide BlockPtr; hide At; hide FilesOk; hide OwnedByFiles; hide DirOk; hide ListFate; hide Bit;
    RunOfFile(d, own, total, fid);
    var s := Pointers(At(d, fid));
    ListFateExactly(s);
    forall b | 0 <= b < |s|
      ensures s[b] < BLOCK_BITS
    {
      DataBlock(d, own, total, fid, b);
      assert s[b] == BlockPtr(At(d, fid), b);
    }
  }

  /** Clearing what the inode of a file names clears that file's bits. */
  lemma ClearedFile(d: Disk, bat: seq<Word>, own: Owners, total: nat, fid: nat, n: nat)
    requires Volume(d, own, total) && FileOk(d, own, fid) && n == NumBlocks(Size(d, fid)) <= TFS_MAX_BLOCKS
    requires BitsCleared(At(d, ALLOCATION_BLOCK), bat, fid, At(d, fid), n)
    ensures ClearedUpTo(At(d, ALLOCATION_BLOCK), bat, own, fid, n)
  {
    hide Bit; hide At; hide FilesOk; hide DirOk; hide BlockPtr; hide IsFile; hide ClearedUpTo;
    forall x | 0 <= x < 4096
      ensures x in own && own[x].fid == fid && (own[x].slot.Data? ==> own[x].slot.b < n) <==>
                x == fid || Named(At(d, fid), n, x)
    {
      NamedOrSelf(d, own, fid, n, x);
    }
    BitsClearedUpTo(At(d, ALLOCATION_BLOCK), bat, own, fid, At(d, fid), n);
  }

  lemma BitsClearedUpTo(bat0: seq<Word>, bat: seq<Word>, own: Owners, fid: nat, ino: WordBlock, n: nat)
    requires n <= TFS_MAX_BLOCKS && BitsCleared(bat0, bat, fid, ino, n)
    requires forall x :: 0 <= x < 4096 ==>
               (x in own && own[x].fid == fid && (own[x].slot.Data? ==> own[x].slot.b < n) <==>
                 x == fid || Named(ino, n, x))
    ensures ClearedUpTo(bat0, bat, own, fid, n)
  {
    hide Bit; hide Named;
  }

  lemma NamedOrSelf(d: Disk, own: Owners, fid: nat, n: nat, x: nat)
    requires |d| > DIRECTORY_BLOCK && OwnedByFiles(d, own)
    requires FileOk(d, own, fid) && n == NumBlocks(Size(d, fid)) <= TFS_MAX_BLOCKS
    ensures x in own && own[x].fid == fid && (own[x].slot.Data? ==> own[x].slot.b < n) <==>
              x == fid || Named(At(d, fid), n, x)
  {
    hide At; hide IsFile; hide BlockPtr;
    if x in own && own[x].fid == fid {
      assert PartOf(d, fid, own[x].slot, x);
      if own[x].slot.Data? {
        assert BlockPtr(At(d, fid), own[x].slot.b) == x;
      }
    }
    if Named(At(d, fid), n, x) {
      var b :| 0 <= b < n && BlockPtr(At(d, fid), b) == x;
      assert Holds(own, BlockPtr(At(d, fid), b), Role(fid, Data(b)));
    }
  }

  /** Pointers are non-zero exactly up to the end of the file. */
  lemma PointerPresent(d: Disk, own: Owners, total: nat, fid: nat, b: nat)
    requires Volume(d, own, total) && FileOk(d, own, fid) && b < TFS_MAX_BLOCKS
    ensures BlockPtr(At(d, fid), b) != 0 <==> b < NumBlocks(Size(d, fid))
    ensures NumBlocks(Size(d, fid)) <= TFS_MAX_BLOCKS
  {
    hide Bit; hide Decode; hide EntryInode; hide EntryName;
    if b < NumBlocks(Size(d, fid)) {
      assert Holds(own, BlockPtr(At(d, fid), b), Role(fid, Data(b)));
    }
  }

  lemma RemovedAccounts(d: Disk, bat: seq<Word>, own: Owners, fid: nat, n: nat, total: nat)
    requires Volume(d, own, total) && FileOk(d, own, fid) && n == NumBlocks(Size(d, fid))
    requires ClearedUpTo(At(d, ALLOCATION_BLOCK), bat, own, fid, n)
    ensures Accounted(bat, WithoutFile(own, fid), total)
  {
    hide Bit; hide Decode; hide EntryInode; hide EntryName; hide InodeOk;
    assert forall x :: x in own ==> PartOf(d, own[x].fid, own[x].slot, x);
  }

  /**
   Removing the empty name where an entry is free: the header is taken for an inode, so bit 0 is
   cleared and with it those of the header's words up to a zero one. The files stay as they are.
  */
  ghost predicate HeaderFreed(d: Disk, d': Disk, total: nat) {
    && |d'| == |d| > DIRECTORY_BLOCK
    && (forall x :: 0 <= x < |d| && x != ALLOCATION_BLOCK ==> d'[x] == d[x]) && Contents(d') == Contents(d)
    && BitsCleared(At(d, ALLOCATION_BLOCK), At(d', ALLOCATION_BLOCK), 0, At(d, 0), PointerRun(At(d, 0), 0))
    && !Bit(At(d', ALLOCATION_BLOCK), 0)
  }

  /**
   A name for which open and remove are those of the map from names to bytes: any but the empty one while an
   entry is free.
  */
  ghost predicate Nameable(d: Disk, nm: Name) {
    |d| > DIRECTORY_BLOCK && (nm != [] || !HasFreeEntry(d[DIRECTORY_BLOCK]))
  }

  /** How far remove gets: only the header, taken for an inode, can name what is no block. */
  ghost function RemoveFate(d: Disk, nm: Name): Fate {
    if Nameable(d, nm) then Done else ListFate(Pointers(At(d, 0)))
  }

  /** The header is freed exactly if the blocks it names, up to the first zero word, are positions of the bitmap. */
  lemma HeaderFreedExactly(d: Disk)
    ensures RemoveFate(d, []) == Done <==> Nameable(d, []) || forall b {:trigger BlockPtr(At(d, 0), b)} ::
              0 <= b < PointerRun(At(d, 0), 0) ==> BlockPtr(At(d, 0), b) < BLOCK_BITS
  {
    hide ListFate; hide Nameable; hide At; hide BlockPtr;
    var s := Pointers(At(d, 0));
    ListFateExactly(s);
    forall b {:trigger BlockPtr(At(d, 0), b)} {:trigger s[b]} | 0 <= b < |s|
      ensures s[b] == BlockPtr(At(d, 0), b)
    {
    }
  }

  /** The header holds a volume name: the first of the bytes after the magic number is not zero. */
  predicate NamedVolume(d: Disk) {
    |d| > 0 && d[0][4] != 0
  }

  /**
   On such a volume, as every mounted one is, removing the empty name never frees the header: it writes outside
   the bitmap, or the kernel stops.
  */
  lemma NamedVolumeFate(d: Disk, nm: Name)
    requires NamedVolume(d) && !Nameable(d, nm)
    ensures RemoveFate(d, nm) == if d[0][4] < 0x80 then Outside else Halts
  {
    hide ListFate; hide Nameable;
    var ino := At(d, 0);
    HeaderWord(d);
    var s := Pointers(ino);
    assert s[0] == BlockPtr(ino, 0);
    ListFateExactly(s);
    assert FirstBad(s, 0);
    forall i
      ensures FirstBad(s, i) <==> i == 0
    {
    }
  }

  lemma HeaderWord(d: Disk)
    requires NamedVolume(d)
    ensures BlockPtr(At(d, 0), 0) >= 0x100_0000 && (BlockPtr(At(d, 0), 0) < 0x8000_0000 <==> d[0][4] < 0x80)
    ensures PointerRun(At(d, 0), 0) > 0
  {
    assert BlockPtr(At(d, 0), 0) == LoadWord(d[0], 4);
  }

  /** Whether remove finds the name, and so whether that is as the map has it. */
  ghost predicate RemoveAnswers(d: Disk, nm: Name, r: int) {
    && |d| > DIRECTORY_BLOCK && r == (if Found(d[DIRECTORY_BLOCK], nm) then VFS_OK else VFS_NOT_FOUND)
    && ((r == VFS_OK <==> nm in Contents(d)) <==> Nameable(d, nm))
  }

  ghost predicate RemovedFrom(d: Disk, d': Disk, nm: Name) {
    |d'| == |d| > DIRECTORY_BLOCK && d'[0] == d[0] && Contents(d') == Contents(d) - {nm}
  }

  /** The file is gone with its blocks; past tells whether the loop read beyond the inode, as it does for 127 blocks. */
  ghost predicate RemovedAs(d: Disk, d': Disk, own: Owners, own': Owners, nm: Name, past: bool, total: nat) {
    && |d| > DIRECTORY_BLOCK && nm in Contents(d) && own' == WithoutFile(own, FileOf(d, nm))
    && SameBeyond(At(d, ALLOCATION_BLOCK), At(d', ALLOCATION_BLOCK), total)
    && (past <==> NumBlocks(|Contents(d)[nm]|) == TFS_MAX_BLOCKS)
  }

  lemma FreedHeader(d: Disk, own: Owners, bat: WordBlock, total: nat)
    requires Volume(d, own, total) && BitsCleared(At(d, ALLOCATION_BLOCK), bat, 0, At(d, 0), PointerRun(At(d, 0), 0))
    ensures HeaderFreed(d, RemovedDisk(d, bat, d[DIRECTORY_BLOCK]), total)
  {
    hide Bit; hide Decode; hide Encode; hide Bytes; hide BlockPtr; hide PointerRun; hide EntryInode; hide EntryName;
    hide Listing; hide Named; hide OwnedByFiles;
    var d' := RemovedDisk(d, bat, d[DIRECTORY_BLOCK]);
    DecodeEncode(bat);
    forall j | 0 <= j < MAX_FILES && Live(d[DIRECTORY_BLOCK], j)
      ensures Bytes(d', EntryInode(d[DIRECTORY_BLOCK], j)) == Bytes(d, EntryInode(d[DIRECTORY_BLOCK], j))
    {
      FileFrame(d, d', EntryInode(d[DIRECTORY_BLOCK], j), own, own);
    }
    ListingSame(d[DIRECTORY_BLOCK], FilesOf(d), FilesOf(d'));
  }

  /** With the header's bit clear a system block counts as free: no volume is like that. */
  lemma HeaderFreeIsNoVolume(d: Disk, own: Owners, total: nat)
    requires |d| > DIRECTORY_BLOCK && !Bit(At(d, ALLOCATION_BLOCK), 0)
    ensures !Volume(d, own, total)
  {
    hide Bit; hide Decode;
  }

  lemma RemovedParts(d: Disk, bat: WordBlock, md: Block)
    requires |d| >= 3
    ensures var d' := RemovedDisk(d, bat, md);
            && |d'| == |d| && At(d', ALLOCATION_BLOCK) == bat && d'[DIRECTORY_BLOCK] == md
            && forall x :: 3 <= x < |d| ==> d'[x] == d[x]
  {
    hide Encode; hide Decode;
    DecodeEncode(bat);
  }

  /** Directory entry i names inode block fid. */
  predicate EntryIs(d: Disk, i: nat, fid: nat) {
    |d| > DIRECTORY_BLOCK && i < MAX_FILES && Live(d[DIRECTORY_BLOCK], i) && EntryInode(d[DIRECTORY_BLOCK], i) == fid
  }

  /** The directory lost entry i; the blocks after it are as they were. */
  ghost predicate EntryGone(d: Disk, d': Disk, i: nat) {
    && |d'| == |d| > DIRECTORY_BLOCK && i < MAX_FILES
    && d'[DIRECTORY_BLOCK] == WithoutEntry(d[DIRECTORY_BLOCK], i) && forall x :: 3 <= x < |d| ==> d'[x] == d[x]
  }

  /** The volume without the file of entry i. */
  ghost predicate Removed(d: Disk, d': Disk, own: Owners, bat: WordBlock, i: nat, fid: nat, total: nat) {
    && |d| > DIRECTORY_BLOCK && |d'| > DIRECTORY_BLOCK && i < MAX_FILES
    && Volume(d', WithoutFile(own, fid), total) && At(d', ALLOCATION_BLOCK) == bat
    && Contents(d') == Contents(d) - {EntryName(d[DIRECTORY_BLOCK], i)}
  }

  lemma RemovedVolume(d: Disk, own: Owners, bat: WordBlock, i: nat, fid: nat, total: nat)
    requires EntryIs(d, i, fid) && Volume(d, own, total)
    requires Accounted(bat, WithoutFile(own, fid), total)
    ensures Removed(d, RemovedDisk(d, bat, WithoutEntry(d[DIRECTORY_BLOCK], i)), own, bat, i, fid, total)
  {
    hide EntryInode; hide EntryName; hide WithoutEntry; hide Bit; hide At; hide Bytes; hide Listing; hide Live;
    hide Names; hide FindEntry; hide DirOk; hide OwnedByFiles; hide RemovedDisk; hide WithoutFile; hide FilesOk;
    var md := d[DIRECTORY_BLOCK];
    var d' := RemovedDisk(d, bat, WithoutEntry(md, i));
    RemovedParts(d, bat, WithoutEntry(md, i));
    WithoutEntryOk(md, i);
    RemovedFiles(d, own, d', i, fid, total);
    RemovedOwned(d, own, d', i, fid, total);
    ListingRemove(md, FilesOf(d), FilesOf(d'), i);
  }

  /** Files other than the one of entry i read as before. */
  ghost predicate SameBytes(d: Disk, d': Disk, i: nat) {
    |d| > DIRECTORY_BLOCK && forall j :: 0 <= j < MAX_FILES && j != i && Live(d[DIRECTORY_BLOCK], j) ==>
      Bytes(d', EntryInode(d[DIRECTORY_BLOCK], j)) == Bytes(d, EntryInode(d[DIRECTORY_BLOCK], j))
  }

  lemma RemovedFiles(d: Disk, own: Owners, d': Disk, i: nat, fid: nat, total: nat)
    requires EntryIs(d, i, fid) && Volume(d, own, total)
    requires EntryGone(d, d', i)
    ensures FilesOk(d', WithoutFile(own, fid))
    ensures SameBytes(d, d', i)
  {
    hide EntryInode; hide EntryName; hide WithoutEntry; hide Bit; hide Decode; hide Bytes; hide FileOk;
    hide OwnedByFiles;
    var md := d[DIRECTORY_BLOCK];
    forall j | 0 <= j < MAX_FILES && j != i && Live(md, j)
      ensures FileOk(d', WithoutFile(own, fid), EntryInode(md, j))
      ensures Bytes(d', EntryInode(md, j)) == Bytes(d, EntryInode(md, j))
    {
      FileFrame(d, d', EntryInode(md, j), own, WithoutFile(own, fid));
    }
    forall j | 0 <= j < MAX_FILES && Live(d'[DIRECTORY_BLOCK], j)
      ensures FileOk(d', WithoutFile(own, fid), EntryInode(d'[DIRECTORY_BLOCK], j))
    {
      WithoutEntryReads(md, i, j);
    }
  }

  lemma RemovedOwned(d: Disk, own: Owners, d': Disk, i: nat, fid: nat, total: nat)
    requires EntryIs(d, i, fid) && Volume(d, own, total)
    requires EntryGone(d, d', i)
    ensures OwnedByFiles(d', WithoutFile(own, fid))
  {
    hide EntryInode; hide EntryName; hide WithoutEntry; hide Bit; hide Decode; hide InodeOk; hide DirOk; hide FilesOk;
    forall x | x in WithoutFile(own, fid)
      ensures IsFile(d'[DIRECTORY_BLOCK], own[x].fid) && PartOf(d', own[x].fid, own[x].slot, x)
    {
      KeptFile(d[DIRECTORY_BLOCK], i, own[x].fid);
      StillPart(d, d', own, total, x);
    }
  }

  lemma KeptFile(md: Block, i: nat, f: nat)
    requires i < MAX_FILES && IsFile(md, f) && f != EntryInode(md, i)
    ensures IsFile(WithoutEntry(md, i), f)
  {
    hide EntryInode; hide EntryName; hide WithoutEntry;
    var j :| 0 <= j < MAX_FILES && Live(md, j) && EntryInode(md, j) == f;
    WithoutEntryReads(md, i, j);
    assert Live(WithoutEntry(md, i), j);
  }

  // ---------------------------------------------------------------- equal bits, equal words

  lemma {:induction false} SameBitsSameWord(v: nat, w: nat, n: nat)
    requires v < Pow2(n) && w < Pow2(n) && forall j :: 0 <= j < n ==> (WordBit(v, j) <==> WordBit(w, j))
    ensures v == w
  {
    if n > 0 {
      assert WordBit(v, 0) <==> WordBit(w, 0);
      forall j | 0 <= j < n - 1
        ensures WordBit(v / 2, j) <==> WordBit(w / 2, j)
      {
        assert WordBit(v, j + 1) <==> WordBit(w, j + 1);
      }
      SameBitsSameWord(v / 2, w / 2, n - 1);
    }
  }

  lemma SameBitsSameWords(v: seq<Word>, w: seq<Word>)
    requires |v| == 128 && |w| == 128 && forall x :: 0 <= x < 4096 ==> (Bit(v, x) <==> Bit(w, x))
    ensures v == w
  {
    hide WordBit;
    Pow32();
    forall i | 0 <= i < 128
      ensures v[i] == w[i]
    {
      forall j | 0 <= j < 32
        ensures WordBit(v[i], j) <==> WordBit(w[i], j)
      {
        assert (32 * i + j) / 32 == i && (32 * i + j) % 32 == j;
        assert Bit(v, 32 * i + j) <==> Bit(w, 32 * i + j);
      }
      SameBitsSameWord(v[i], w[i], 32);
    }
  }

  /** Only bits of the volume's blocks changed. */
  ghost predicate SameBeyond(v: seq<Word>, w: seq<Word>, total: nat) {
    |v| == 128 && |w| == 128 && forall x :: total <= x < 4096 ==> (Bit(v, x) <==> Bit(w, x))
  }

  /** Creating a file and removing it again restores the bitmap, word for word. */
  lemma BitmapRestored(bat: seq<Word>, bat2: seq<Word>, own: Owners, own1: Owners, fid: nat, ino: WordBlock, n: nat,
                       total: nat)
    requires Accounted(bat, own, total) && Accounted(bat2, WithoutFile(own1, fid), total)
             && SameBeyond(bat, bat2, total)
    requires n <= TFS_MAX_BLOCKS && Extends(own, own1, fid, ino, n) && forall x :: x in own ==> own[x].fid in own
    ensures bat2 == bat && WithoutFile(own1, fid) == own
  {
    hide Bit;
    assert forall x :: x in own ==> own[x].fid != fid;
    assert WithoutFile(own1, fid) == own;
    SameBitsSameWords(bat, bat2);
  }

  lemma OwnersAreFiles(d: Disk, own: Owners, total: nat)
    requires Volume(d, own, total)
    ensures forall x :: x in own ==> own[x].fid in own
  {
    hide Bit; hide Decode; hide EntryInode; hide EntryName; hide InodeOk; hide PartOf;
    forall x | x in own
      ensures own[x].fid in own
    {
      FileIsOk(d, own, total, own[x].fid);
    }
  }

  // ---------------------------------------------------------------- reading and writing data

  /** A run of bytes within one block, appended to the bytes before it. */
  lemma AppendRun(d: Disk, fid: nat, b: nat, lo: nat, hi: nat, offset: nat, from: nat)
    requires lo <= hi <= BLOCK_SIZE && BLOCK_SIZE * b + hi <= Size(d, fid) && offset + from == BLOCK_SIZE * b + lo
    ensures Bytes(d, fid)[offset..offset + from] + FileBlock(d, fid, b)[lo..hi] ==
              Bytes(d, fid)[offset..BLOCK_SIZE * b + hi]
  {
    hide FileBlock; hide Size;
    var s := Bytes(d, fid);
    forall k | lo <= k < hi
      ensures s[BLOCK_SIZE * b + k] == FileBlock(d, fid, b)[k]
    {
      assert (BLOCK_SIZE * b + k) / BLOCK_SIZE == b && (BLOCK_SIZE * b + k) % BLOCK_SIZE == k;
    }
  }

  lemma DataBlock(d: Disk, own: Owners, total: nat, fid: nat, b: nat)
    requires Volume(d, own, total) && FileOk(d, own, fid) && b < NumBlocks(Size(d, fid))
    ensures b < TFS_MAX_BLOCKS && BlockPtr(At(d, fid), b) < total
            && Holds(own, BlockPtr(At(d, fid), b), Role(fid, Data(b)))
    ensures d[BlockPtr(At(d, fid), b)] == FileBlock(d, fid, b)
  {
    hide Bit; hide Decode; hide EntryInode; hide EntryName;
    assert Holds(own, BlockPtr(At(d, fid), b), Role(fid, Data(b)));
  }

  /** Disk d is d0 with data blocks b1..b of the file overwritten. */
  ghost predicate Progress(d0: Disk, d: Disk, fid: nat, own: Owners, b1: nat, b: nat, data: seq<Byte>, offset: nat) {
    && |d| == |d0|
    && (forall x :: 0 <= x < |d0| && !(x in own && own[x].fid == fid && own[x].slot.Data?) ==> d[x] == d0[x])
    && (forall x :: 0 <= x < |d0| && x in own && own[x].fid == fid && own[x].slot.Data? ==>
          d[x] == if b1 <= own[x].slot.b < b then FlatData.Overlay(d0[x], own[x].slot.b, data, offset) else d0[x])
  }

  lemma ProgressStep(d0: Disk, d: Disk, fid: nat, own: Owners, total: nat, b1: nat, b: nat, data: seq<Byte>,
                     offset: nat, p: nat)
    requires Volume(d0, own, total) && Progress(d0, d, fid, own, b1, b, data, offset) && b1 <= b
    requires Holds(own, p, Role(fid, Data(b))) && p < |d0|
    ensures Progress(d0, d[p := FlatData.Overlay(d[p], b, data, offset)], fid, own, b1, b + 1, data, offset)
    ensures d[p] == d0[p]
  {
    hide Bit; hide Decode; hide EntryInode; hide EntryName; hide FilesOk; hide FlatData.Overlay; hide DirOk;
    assert forall x :: x in own ==> PartOf(d0, own[x].fid, own[x].slot, x);
  }

  /** Data writes leave system blocks, inodes and other files alone. */
  lemma ProgressVolume(d0: Disk, d: Disk, fid: nat, own: Owners, total: nat, b1: nat, b: nat, data: seq<Byte>,
                       offset: nat)
    requires Volume(d0, own, total) && IsFile(d0[DIRECTORY_BLOCK], fid)
             && Progress(d0, d, fid, own, b1, b, data, offset)
    ensures Volume(d, own, total) && d[DIRECTORY_BLOCK] == d0[DIRECTORY_BLOCK] && At(d, fid) == At(d0, fid)
    ensures d[0] == d0[0] && d[ALLOCATION_BLOCK] == d0[ALLOCATION_BLOCK]
    ensures Contents(d) == Contents(d0)[FileName(d0[DIRECTORY_BLOCK], fid) := Bytes(d, fid)]
  {
    hide Bit; hide Decode; hide EntryInode; hide EntryName; hide FlatData.Overlay; hide DirOk; hide Bytes;
    hide InodeOk; hide Names; hide FileName; hide Listing; hide FindEntry;
    var md := d0[DIRECTORY_BLOCK];
    assert At(d, ALLOCATION_BLOCK) == At(d0, ALLOCATION_BLOCK) && d[DIRECTORY_BLOCK] == md;
    forall j | 0 <= j < MAX_FILES && Live(md, j)
      ensures FileOk(d, own, EntryInode(md, j))
      ensures EntryInode(md, j) != fid ==> Bytes(d, EntryInode(md, j)) == Bytes(d0, EntryInode(md, j))
    {
      if EntryInode(md, j) != fid {
        FileFrame(d0, d, EntryInode(md, j), own, own);
      } else {
        FileIsOk(d0, own, total, fid);
        assert At(d, fid) == At(d0, fid);
      }
    }
    FileIsOk(d0, own, total, fid);
    ProgressOwned(d0, d, fid, own, total, b1, b, data, offset);
    ListingUpdate(md, FilesOf(d0), FilesOf(d), fid);
  }

  lemma ProgressOwned(d0: Disk, d: Disk, fid: nat, own: Owners, total: nat, b1: nat, b: nat, data: seq<Byte>,
                      offset: nat)
    requires Volume(d0, own, total) && IsFile(d0[DIRECTORY_BLOCK], fid)
             && Progress(d0, d, fid, own, b1, b, data, offset)
    requires d[DIRECTORY_BLOCK] == d0[DIRECTORY_BLOCK]
    ensures OwnedByFiles(d, own)
  {
    hide Bit; hide Decode; hide EntryInode; hide EntryName; hide FlatData.Overlay; hide DirOk; hide InodeOk;
    hide FilesOk;
    forall x | x in own
      ensures PartOf(d, own[x].fid, own[x].slot, x)
    {
      FileIsOk(d0, own, total, own[x].fid);
      assert At(d, own[x].fid) == At(d0, own[x].fid);
    }
  }

  /** From blocks to bytes: the file reads as the old bytes with data spliced in. */
  lemma ProgressBytes(d0: Disk, d: Disk, fid: nat, own: Owners, total: nat, b1: nat, b2: nat, data: seq<Byte>,
                      offset: nat)
    requires Volume(d0, own, total) && FileOk(d0, own, fid) && At(d, fid) == At(d0, fid)
    requires Progress(d0, d, fid, own, b1, b2 + 1, data, offset)
    requires 0 < |data| && b1 == offset / BLOCK_SIZE && b2 == (offset + |data| - 1) / BLOCK_SIZE
             && offset + |data| <= Size(d0, fid)
    ensures Bytes(d, fid) == FlatData.Splice(Bytes(d0, fid), offset, data)
  {
    hide Bit; hide Decode; hide EntryInode; hide EntryName; hide At; hide Volume; hide FileOk;
    var s0, s := Bytes(d0, fid), Bytes(d, fid);
    forall i | 0 <= i < |s|
      ensures s[i] == FlatData.Splice(s0, offset, data)[i]
    {
      ProgressByte(d0, d, fid, own, total, b1, b2, data, offset, i);
    }
  }

  lemma ProgressByte(d0: Disk, d: Disk, fid: nat, own: Owners, total: nat, b1: nat, b2: nat, data: seq<Byte>,
                     offset: nat, i: nat)
    requires Volume(d0, own, total) && FileOk(d0, own, fid) && At(d, fid) == At(d0, fid)
    requires Progress(d0, d, fid, own, b1, b2 + 1, data, offset) && i < Size(d0, fid)
    requires 0 < |data| && b1 == offset / BLOCK_SIZE && b2 == (offset + |data| - 1) / BLOCK_SIZE
             && offset + |data| <= Size(d0, fid)
    ensures ByteAt(d, fid, i) == if offset <= i < offset + |data| then data[i - offset] else ByteAt(d0, fid, i)
  {
    hide Bit; hide Decode; hide EntryInode; hide EntryName; hide Volume; hide FileOk; hide At;
    var b, o := i / BLOCK_SIZE, i % BLOCK_SIZE;
    assert i == BLOCK_SIZE * b + o && b < NumBlocks(Size(d0, fid));
    DataBlock(d0, own, total, fid, b);
    OwnedInRange(d0, own, total);
    if !(b1 <= b <= b2) {
      assert !(offset <= i < offset + |data|);
    }
  }

  lemma OwnedInRange(d: Disk, own: Owners, total: nat)
    requires Volume(d, own, total)
    ensures total <= |d| && forall x :: x in own ==> x < total
  {
    hide Bit; hide Decode;
  }

  // ---------------------------------------------------------------- what the operations leave behind

  /** The volume with a new file of zeros, one inode and the data blocks taken from the free blocks. */
  ghost predicate CreatedAs(d0: Disk, d: Disk, own0: Owners, own: Owners, nm: Name, size: nat, total: nat) {
    && |d0| > DIRECTORY_BLOCK && |d| > DIRECTORY_BLOCK && total <= 4096 && NumBlocks(size) <= TFS_MAX_BLOCKS
    && d[0] == d0[0]
    && Contents(d) == Contents(d0)[nm := Zeros(size)] && nm in Names(d[DIRECTORY_BLOCK])
    && FreeBlocks(d, total) == FreeBlocks(d0, total) - 1 - NumBlocks(size)
    && Extends(own0, own, FileOf(d, nm), At(d, FileOf(d, nm)), NumBlocks(size))
    && SameBeyond(At(d0, ALLOCATION_BLOCK), At(d, ALLOCATION_BLOCK), total)
    && Accounted(At(d0, ALLOCATION_BLOCK), own0, total) && forall x :: x in own0 ==> own0[x].fid in own0
  }

  lemma CreatedIsFound(d0: Disk, d: Disk, own0: Owners, own: Owners, nm: Name, size: nat, total: nat)
    requires CreatedAs(d0, d, own0, own, nm, size, total)
    ensures |d| > DIRECTORY_BLOCK && Found(d[DIRECTORY_BLOCK], nm)
  {
    hide Contents; hide Extends; hide SameBeyond; hide Accounted; hide FreeBlocks; hide FileOf; hide Names;
  }

  /** A create and the remove of the same name cancel. */
  lemma CreatedThenRemoved(d0: Disk, d1: Disk, d2: Disk, own0: Owners, own1: Owners, own2: Owners, nm: Name, size: nat,
                           past: bool, total: nat)
    requires CreatedAs(d0, d1, own0, own1, nm, size, total) && nm !in Contents(d0)
    requires RemovedFrom(d1, d2, nm) && RemovedAs(d1, d2, own1, own2, nm, past, total) && Volume(d2, own2, total)
    ensures At(d2, ALLOCATION_BLOCK) == At(d0, ALLOCATION_BLOCK) && Contents(d2) == Contents(d0) && own2 == own0
  {
    hide Bit; hide FilesOk; hide OwnedByFiles; hide DirOk; hide Accounted; hide At; hide Bytes; hide Names;
    hide Listing; hide Extends; hide FileOf; hide FreeCount; hide WithoutFile; hide SameBeyond; hide Zeros;
    SameBeyondTwice(At(d0, ALLOCATION_BLOCK), At(d1, ALLOCATION_BLOCK), At(d2, ALLOCATION_BLOCK), total);
    var fid := FileOf(d1, nm);
    BitmapRestored(At(d0, ALLOCATION_BLOCK), At(d2, ALLOCATION_BLOCK), own0, own1, fid, At(d1, fid), NumBlocks(size),
                   total);
  }

  lemma SameBeyondTwice(a: seq<Word>, b: seq<Word>, c: seq<Word>, total: nat)
    requires SameBeyond(a, b, total) && SameBeyond(b, c, total)
    ensures SameBeyond(a, c, total)
  {
    hide Bit;
  }

  lemma NewInodeUnowned(own: Owners, own1: Owners, fid: nat, ino: WordBlock, n: nat)
    requires n <= TFS_MAX_BLOCKS && Extends(own, own1, fid, ino, n)
    ensures fid !in own
  {
  }

  /** Bitmap, directory and inode are written. */
  lemma HeaderWritten(d: Disk, bat: seq<Word>, md: Block, fid: nat, ino: WordBlock, own: Owners, total: nat)
    requires |bat| == 128 && 3 <= fid < total <= |d| && fid !in own && forall x :: x in own ==> 3 <= x
    ensures var d1: Disk := d[ALLOCATION_BLOCK := Encode(bat)][DIRECTORY_BLOCK := md][fid := Encode(ino)];
            && At(d1, ALLOCATION_BLOCK) == bat && d1[DIRECTORY_BLOCK] == md && At(d1, fid) == ino
            && forall x :: x in own && x < |d| ==> d1[x] == d[x]
  {
    hide Encode; hide Decode;
    DecodeEncode(bat);
    DecodeEncode(ino);
  }

  lemma DataZeroed(d0: Disk, d1: Disk, d: Disk, bat: seq<Word>, md: Block, fid: nat, ino: WordBlock, n: nat,
                   own: Owners)
    requires n <= TFS_MAX_BLOCKS && |d| == |d1| == |d0| > DIRECTORY_BLOCK && 3 <= fid < |d|
    requires At(d1, ALLOCATION_BLOCK) == bat && d1[DIRECTORY_BLOCK] == md && At(d1, fid) == ino
    requires forall x :: x in own && x < |d| ==> d1[x] == d0[x]
    requires forall b {:trigger BlockPtr(ino, b)} :: 0 <= b < n ==>
               BlockPtr(ino, b) < |d| && d[BlockPtr(ino, b)] == ZeroBlock()
    requires forall x :: 0 <= x < |d| && (x < 3 || x in own || x == fid) ==> d[x] == d1[x]
    ensures CreatedDisk(d0, d, bat, md, fid, ino, n, own)
  {
    hide Decode;
    assert d[ALLOCATION_BLOCK] == d1[ALLOCATION_BLOCK] && d[fid] == d1[fid];
  }

  /** A new file takes one block and one for each data block. */
  lemma {:induction false} ExtendsCount(own: Owners, own1: Owners, fid: nat, ino: WordBlock, n: nat)
    requires n <= TFS_MAX_BLOCKS && Extends(own, own1, fid, ino, n)
    ensures |own1| == |own| + 1 + n
  {
    var a, b := own.Keys, DataSet(ino, n);
    DataSetSize(own, own1, fid, ino, n);
    assert own1.Keys == a + {fid} + b by {
      forall x | x in own1 && x !in own && x != fid
        ensures x in b
      {
        assert BlockPtr(ino, own1[x].slot.b) == x;
      }
    }
    assert fid !in b;
    assert |a + {fid} + b| == |a| + 1 + |b|;
    assert |own1.Keys| == |own1| && |own.Keys| == |own|;
  }

  ghost function DataSet(ino: WordBlock, n: nat): set<nat>
    requires n <= TFS_MAX_BLOCKS
  {
    set b | 0 <= b < n :: BlockPtr(ino, b) as nat
  }

  lemma {:induction false} DataSetSize(own: Owners, own1: Owners, fid: nat, ino: WordBlock, n: nat)
    requires n <= TFS_MAX_BLOCKS
    requires forall b {:trigger BlockPtr(ino, b)} :: 0 <= b < n ==>
               Holds(own1, BlockPtr(ino, b), Role(fid, Data(b))) && BlockPtr(ino, b) !in own
    ensures |DataSet(ino, n)| == n
    ensures forall x :: x in DataSet(ino, n) ==> x !in own && x in own1 && own1[x].slot.Data? && own1[x].slot.b < n
  {
    hide BlockPtr;
    if n == 0 {
      assert DataSet(ino, 0) == {};
    } else {
      DataSetSize(own, own1, fid, ino, n - 1);
      var p: nat := BlockPtr(ino, n - 1);
      assert Holds(own1, BlockPtr(ino, n - 1), Role(fid, Data(n - 1)));
      assert DataSet(ino, n) == DataSet(ino, n - 1) + {p} by {
        forall x | x in DataSet(ino, n)
          ensures x in DataSet(ino, n - 1) + {p}
        {
          var b :| 0 <= b < n && x == BlockPtr(ino, b);
          assert b == n - 1 || x in DataSet(ino, n - 1);
        }
      }
    }
  }

  lemma ClearedBeyond(bat0: seq<Word>, bat: seq<Word>, own: Owners, fid: nat, n: nat, total: nat)
    requires ClearedUpTo(bat0, bat, own, fid, n) && Accounted(bat0, own, total)
    ensures SameBeyond(bat0, bat, total)
  {
    hide Bit;
  }

  lemma OpenedEntry(d: Disk, own: Owners, i: nat, total: nat)
    requires Volume(d, own, total) && i < MAX_FILES && Live(d[DIRECTORY_BLOCK], i)
    ensures var md := d[DIRECTORY_BLOCK]; var fid := EntryInode(md, i);
            && 3 <= fid && IsFile(md, fid) && FileName(md, fid) == EntryName(md, i)
            && EntryName(md, i) in Contents(d) && Contents(d)[EntryName(md, i)] == Bytes(d, fid)
  {
    hide EntryInode; hide EntryName; hide Bytes; hide Bit; hide Decode; hide InodeOk; hide OwnedByFiles;
    hide Listing; hide Names; hide FindEntry;
    var md := d[DIRECTORY_BLOCK];
    ListingAt(md, FilesOf(d), i);
    FileNameUnique(md, EntryInode(md, i), EntryName(md, i));
    FileOfEntry(d, i, EntryName(md, i));
    assert FileOk(d, own, EntryInode(md, i));
  }

  lemma SizeOf(d: Disk, fid: nat, ino: WordBlock)
    requires ino == At(d, fid)
    ensures Size(d, fid) == ino[0]
  {
  }

  lemma ProgressStart(d: Disk, fid: nat, own: Owners, b1: nat, data: seq<Byte>, offset: nat)
    ensures Progress(d, d, fid, own, b1, b1, data, offset)
  {
  }

  lemma ProgressLength(d0: Disk, d: Disk, fid: nat, own: Owners, b1: nat, b: nat, data: seq<Byte>, offset: nat)
    requires Progress(d0, d, fid, own, b1, b, data, offset)
    ensures |d| == |d0|
  {
  }

  /** The volume after data was written to a file: its bytes are spliced, all else is as before. */
  ghost predicate Written(d0: Disk, d: Disk, fid: nat, data: seq<Byte>, offset: nat) {
    && |d0| > DIRECTORY_BLOCK && |d| > DIRECTORY_BLOCK
    && d[0] == d0[0] && d[ALLOCATION_BLOCK] == d0[ALLOCATION_BLOCK]
    && IsFile(d0[DIRECTORY_BLOCK], fid) && d[DIRECTORY_BLOCK] == d0[DIRECTORY_BLOCK] && offset + |data| <= Size(d0, fid)
    && Bytes(d, fid) == FlatData.Splice(Bytes(d0, fid), offset, data)
    && Contents(d) == Contents(d0)[FileName(d0[DIRECTORY_BLOCK], fid) := Bytes(d, fid)]
  }

  /** ... the first r bytes of data. */
  ghost predicate WrittenPart(d0: Disk, d: Disk, fid: nat, data: seq<Byte>, r: int, offset: int) {
    0 <= r <= |data| && 0 <= offset && Written(d0, d, fid, data[..r], offset)
  }

  /** buffer holds the n bytes of the file from offset on. */
  ghost predicate ReadSoFar(d: Disk, fid: nat, offset: int, n: int, buffer: seq<Byte>) {
    0 <= offset && 0 <= n && offset + n <= Size(d, fid) && buffer == Bytes(d, fid)[offset..offset + n]
  }

  /** Everything together: what the write loop leaves behind. */
  lemma WrittenByLoop(d0: Disk, d: Disk, fid: nat, own: Owners, total: nat, data: seq<Byte>, offset: nat)
    requires |d0| > DIRECTORY_BLOCK && IsFile(d0[DIRECTORY_BLOCK], fid) && 0 < |data|
             && offset + |data| <= Size(d0, fid)
    requires Volume(d0, own, total)
    requires Progress(d0, d, fid, own, offset / BLOCK_SIZE, (offset + |data| - 1) / BLOCK_SIZE + 1, data, offset)
    ensures Volume(d, own, total) && Written(d0, d, fid, data, offset)
  {
    hide Bit; hide At; hide Bytes; hide FilesOk; hide OwnedByFiles; hide DirOk; hide FileOk; hide Accounted;
    hide IsFile; hide Progress; hide FlatData.Splice; hide Contents; hide FileName; hide Size;
    FileIsOk(d0, own, total, fid);
    ProgressVolume(d0, d, fid, own, total, offset / BLOCK_SIZE, (offset + |data| - 1) / BLOCK_SIZE + 1, data, offset);
    ProgressBytes(d0, d, fid, own, total, offset / BLOCK_SIZE, (offset + |data| - 1) / BLOCK_SIZE, data, offset);
  }

  /** What was written can be read back. */
  lemma WrittenReadsBack(d0: Disk, d: Disk, fid: nat, data: seq<Byte>, offset: nat)
    requires Written(d0, d, fid, data, offset)
    ensures offset + |data| <= Size(d, fid) && Bytes(d, fid)[offset..offset + |data|] == data
  {
    hide Bytes; hide Contents; hide IsFile; hide FileName; hide FlatData.Splice; hide At;
    FlatData.SpliceReadsBack(Bytes(d0, fid), offset, data);
  }

  /** Marking a free block in the bitmap accounts for one more owned block. */
  lemma AccountedTake(bat: seq<Word>, own: Owners, r: nat, role: Role, total: nat)
    requires Accounted(bat, own, total) && r < total && !Bit(bat, r)
    ensures Accounted(WithBit(bat, r, true), own[r := role], total) && SameBeyond(bat, WithBit(bat, r, true), total)
    ensures 3 <= r && r !in own
  {
    hide Bit; hide WithBit;
    BitsWithBit(bat, r, true);
  }

  /** An empty directory and a bitmap with the three system blocks taken: a volume without files. */
  lemma FormattedVolume(d: Disk, total: nat)
    requires 3 <= total <= 4096 && total <= |d| && d[DIRECTORY_BLOCK] == ZeroBlock()
    requires forall x :: 0 <= x < total ==> (Bit(At(d, ALLOCATION_BLOCK), x) <==> x < 3)
    ensures Volume(d, map[], total) && Contents(d) == map[]
  {
    hide FileOk; hide Decode; hide Bit; hide Listing;
    var md := d[DIRECTORY_BLOCK];
    forall i | 0 <= i < MAX_FILES
      ensures !Live(md, i) && EntryName(md, i) == []
    {
    }
    assert Names(md) == {};
    assert Contents(d).Keys == {};
  }
}
