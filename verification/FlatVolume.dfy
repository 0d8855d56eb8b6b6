/**
 A FlatFS volume as a map from names to bytes, decoded from the disk image: the
 directory block names inodes, an inode and its tables locate the data.
*/
module FlatVolume {
  import opened Words
  import opened Bitmaps
  import opened FlatLayout
  import opened FlatGrowth
  import opened Directories

  // ---------------------------------------------------------------- files

  /** The block holding logical block b of file fid. */
  function BlockOf(d: Disk, fid: nat, b: nat): Block {
    var ino := At(d, fid);
    if b < MAX_BLOCKS && Ptr(d, ino, At(d, ino[9]), b) < |d| then d[Ptr(d, ino, At(d, ino[9]), b)] else ZeroBlock()
  }

  function FileSize(d: Disk, fid: nat): nat { At(d, fid)[0] }

  function FileByte(d: Disk, fid: nat, i: nat): Byte { BlockOf(d, fid, i / BLOCK_SIZE)[i % BLOCK_SIZE] }

  /** The contents of the file whose inode block is fid. */
  function FileBytes(d: Disk, fid: nat): (s: seq<Byte>)
    ensures |s| == FileSize(d, fid)
  {
    hide FileByte; hide At;
    seq(FileSize(d, fid), i requires 0 <= i < FileSize(d, fid) => FileByte(d, fid, i))
  }

  ghost predicate FileOk(d: Disk, own: Owners, fid: nat) {
    Holds(own, fid, Role(fid, Self)) && Tree(d, fid, At(d, fid), NumBlocks(FileSize(d, fid)), own)
  }

  ghost function VolumeImage(d: Disk, own: Owners): Image {
    Image(d, At(d, ALLOCATION_BLOCK), own, ZeroWords(), ZeroWords())
  }

  /** The bitmap covers 4096 blocks; a larger disk is used only up to there. */
  function VolumeBlocks(diskBlocks: nat): nat {
    if diskBlocks < 8 * BLOCK_SIZE then diskBlocks else 8 * BLOCK_SIZE
  }

  /** Only existing files own blocks. */
  ghost predicate OwnersClosed(own: Owners) {
    forall x :: x in own ==> Holds(own, own[x].fid, Role(own[x].fid, Self))
  }

  /** The invariant of a mounted volume between operations. */
  ghost predicate Volume(d: Disk, own: Owners, total: nat) {
    && Sound(VolumeImage(d, own), total)
    && OwnersClosed(own)
    && DirOk(d[DIRECTORY_BLOCK])
    && forall i :: 0 <= i < MAX_FILES && Live(d[DIRECTORY_BLOCK], i) ==>
         FileOk(d, own, EntryInode(d[DIRECTORY_BLOCK], i))
  }

  ghost function FilesOf(d: Disk): nat -> seq<Byte> {
    fid => FileBytes(d, fid)
  }

  /** The volume seen by its users: names to bytes. */
  ghost function Contents(d: Disk): (m: map<Name, seq<Byte>>)
    requires |d| > DIRECTORY_BLOCK
    ensures m.Keys == Names(d[DIRECTORY_BLOCK])
  {
    Listing(d[DIRECTORY_BLOCK], FilesOf(d))
  }

  // ---------------------------------------------------------------- frames

  /** A file is untouched when all its blocks are. */
  lemma FileFrame(d: Disk, d': Disk, fid: nat, own: Owners, own': Owners, total: nat)
    requires Sound(VolumeImage(d, own), total) && |d'| == |d| && FileOk(d, own, fid)
    requires forall x :: x in own && own[x].fid == fid ==> x in own' && own'[x] == own[x] && d'[x] == d[x]
    ensures FileOk(d', own', fid) && FileBytes(d', fid) == FileBytes(d, fid)
  {
    hide Decode; hide Bit;
    var ino := At(d, fid);
    assert At(d', fid) == ino;
    var di, di', n := At(d, ino[9]), At(d', ino[9]), NumBlocks(ino[0]);
    assert n > DIRECT + SINDIR ==> di' == di;
    if n <= DIRECT + SINDIR {
      DoubleIrrelevant(d, fid, ino, di, di', n, own);
    }
    TreeCoreFrame(d, d', fid, ino, di', n, own, own');
    forall i | 0 <= i < ino[0]
      ensures BlockOf(d', fid, i / BLOCK_SIZE) == BlockOf(d, fid, i / BLOCK_SIZE)
    {
      var b := i / BLOCK_SIZE;
      assert b < n;
      assert Holds(own, Ptr(d, ino, di, b), Role(fid, Data(b)));
      assert Ptr(d', ino, di', b) == Ptr(d, ino, di, b);
    }
  }

  lemma FileIsOk(d: Disk, own: Owners, total: nat, fid: nat)
    requires Volume(d, own, total) && IsFile(d[DIRECTORY_BLOCK], fid)
    ensures FileOk(d, own, fid) && 3 <= fid < total <= |d| && total <= 4096
  {
  }

  /** System blocks and owned blocks have the same contents. */
  ghost predicate Untouched(d: Disk, d': Disk, own: Owners) {
    && |d'| == |d|
    && forall x :: 0 <= x < |d| && (x < 3 || x in own) ==> d'[x] == d[x]
  }

  lemma GrewUntouched(m0: Image, m: Image, fid: nat, total: nat)
    requires Sound(m0, total) && |m.bat| == 128 && Grew(m0, m, fid, total, Nothing)
    ensures Untouched(m0.d, m.d, m0.own)
  {
  }

  /** Writing only blocks that nobody owns, outside bitmap and directory, changes nothing a user can see. */
  lemma VolumeFrame(d: Disk, d': Disk, own: Owners, total: nat)
    requires Volume(d, own, total) && Untouched(d, d', own)
    ensures Volume(d', own, total) && Contents(d') == Contents(d)
            && d'[0] == d[0] && d'[DIRECTORY_BLOCK] == d[DIRECTORY_BLOCK]
  {
    hide FileBytes; hide EntryInode; hide EntryName; hide FileOk; hide Decode; hide Bit; hide Listing;
    forall i | 0 <= i < MAX_FILES && Live(d[DIRECTORY_BLOCK], i)
      ensures var fid := EntryInode(d[DIRECTORY_BLOCK], i);
              FileOk(d', own, fid) && FileBytes(d', fid) == FileBytes(d, fid)
    {
      FileFrame(d, d', EntryInode(d[DIRECTORY_BLOCK], i), own, own, total);
    }
    ListingSame(d[DIRECTORY_BLOCK], FilesOf(d), FilesOf(d'));
  }
}
