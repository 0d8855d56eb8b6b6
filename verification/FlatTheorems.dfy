/**
 What the volume invariant means: no block is used twice, every block in use is
 allocated, and a freshly formatted disk satisfies it.
*/
module FlatTheorems {
  import opened Words
  import opened Bitmaps
  import opened FlatLayout
  import opened FlatGrowth
  import opened Directories
  import opened FlatVolume
  import opened FlatData

  /** The uses file fid of n blocks has for blocks. */
  ghost predicate HasSlot(n: nat, s: Slot) {
    match s
    case Self => true
    case Data(b) => b < n
    case Table(g) => DIRECT + SINDIR * g < n
    case Double => n > DIRECT + SINDIR
  }

  /** Where it has them, by a walk from the inode. */
  ghost function SlotBlock(d: Disk, fid: nat, s: Slot): nat {
    var ino := At(d, fid);
    match s
    case Self => fid
    case Data(b) => if b < MAX_BLOCKS then Ptr(d, ino, At(d, ino[9]), b) else 0
    case Table(g) => if g <= SINDIR then TableBlock(ino, At(d, ino[9]), g) else 0
    case Double => ino[9]
  }

  lemma SlotHeld(d: Disk, own: Owners, fid: nat, s: Slot, total: nat)
    requires FileOk(d, own, fid) && Sound(VolumeImage(d, own), total) && HasSlot(NumBlocks(FileSize(d, fid)), s)
    ensures Holds(own, SlotBlock(d, fid, s), Role(fid, s))
  {
    hide Decode; hide Bit;
    var ino := At(d, fid);
    var n, di := NumBlocks(ino[0]), At(d, ino[9]);
    match s
    case Self =>
    case Data(b) =>
      assert Holds(own, Ptr(d, ino, di, b), Role(fid, Data(b)));
    case Table(g) =>
      assert DIRECT + SINDIR * g < MAX_BLOCKS;
      assert Holds(own, TableBlock(ino, di, g), Role(fid, Table(g)));
    case Double =>
  }

  /**
   In a well-formed volume the inode, data, table and double-indirect blocks of all files are
   pairwise distinct, lie outside the system blocks and are marked allocated on disk.
  */
  lemma BlocksAreDisjoint(d: Disk, own: Owners, total: nat, f: nat, s: Slot, g: nat, t: Slot)
    requires Volume(d, own, total)
    requires IsFile(d[DIRECTORY_BLOCK], f) && HasSlot(NumBlocks(FileSize(d, f)), s)
    requires IsFile(d[DIRECTORY_BLOCK], g) && HasSlot(NumBlocks(FileSize(d, g)), t)
    ensures SlotBlock(d, f, s) == SlotBlock(d, g, t) <==> f == g && s == t
    ensures 3 <= SlotBlock(d, f, s) < total && Bit(At(d, ALLOCATION_BLOCK), SlotBlock(d, f, s))
  {
    hide Tree; hide SlotBlock; hide EntryInode; hide DirOk; hide FileSize; hide Decode; hide Bit; hide HasSlot;
    FileIsOk(d, own, total, f);
    FileIsOk(d, own, total, g);
    SlotHeld(d, own, f, s, total);
    SlotHeld(d, own, g, t, total);
  }

  /** An empty directory and a bitmap with the three system blocks taken: a volume without files. */
  lemma FormattedVolume(d: Disk)
    requires 3 <= |d| && d[DIRECTORY_BLOCK] == ZeroBlock()
    requires forall x :: 0 <= x < 3 ==> Bit(At(d, ALLOCATION_BLOCK), x)
    ensures Volume(d, map[], VolumeBlocks(|d|)) && Contents(d) == map[]
  {
    hide FileOk; hide Decode; hide Bit; hide Listing;
    var md := d[DIRECTORY_BLOCK];
    forall i | 0 <= i < MAX_FILES
      ensures !Live(md, i) && EntryName(md, i) == []
    {
    }
    assert Names(md) == {};
    assert Contents(d).Keys == {};
  }
}
