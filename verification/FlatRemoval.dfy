/**
 Removing a FlatFS file: the bits cleared in the bitmap are exactly those of its inode
 and data blocks, and the rest of the volume is as before.
*/
module FlatRemoval {
  import opened Words
  import opened Bitmaps
  import opened FlatLayout
  import opened FlatGrowth
  import opened FlatVolume
  import opened FlatData
  import opened FlatDirectory
  import opened Directories

  /** The blocks of logical blocks lo..hi. */
  ghost function PtrSet(d: Disk, ino: WordBlock, di: WordBlock, lo: nat, hi: nat): set<nat>
    requires hi <= MAX_BLOCKS
  {
    set b | lo <= b < hi :: Ptr(d, ino, di, b) as nat
  }

  lemma PtrSetStep(d: Disk, ino: WordBlock, di: WordBlock, lo: nat, hi: nat)
    requires lo <= hi < MAX_BLOCKS
    ensures PtrSet(d, ino, di, lo, hi + 1) == PtrSet(d, ino, di, lo, hi) + {Ptr(d, ino, di, hi) as nat}
  {
    hide Ptr;
    var s, s' := PtrSet(d, ino, di, lo, hi), PtrSet(d, ino, di, lo, hi + 1);
    forall x | x in s'
      ensures x in s + {Ptr(d, ino, di, hi) as nat}
    {
      var b :| lo <= b < hi + 1 && x == Ptr(d, ino, di, b);
      assert b == hi || x in s;
    }
  }

  lemma PtrSetJoin(d: Disk, ino: WordBlock, di: WordBlock, lo: nat, mid: nat, hi: nat)
    requires lo <= mid <= hi <= MAX_BLOCKS
    ensures PtrSet(d, ino, di, lo, hi) == PtrSet(d, ino, di, lo, mid) + PtrSet(d, ino, di, mid, hi)
  {
    hide Ptr;
    forall x | x in PtrSet(d, ino, di, lo, hi)
      ensures x in PtrSet(d, ino, di, lo, mid) + PtrSet(d, ino, di, mid, hi)
    {
      var b :| lo <= b < hi && x == Ptr(d, ino, di, b);
      assert if b < mid then x in PtrSet(d, ino, di, lo, mid) else x in PtrSet(d, ino, di, mid, hi);
    }
  }

  /** The bits of freed have been cleared in bat0, giving bat; nothing else changed. */
  ghost predicate Cleared(bat0: seq<Word>, bat: seq<Word>, freed: set<nat>, total: nat)
    requires total <= 4096
  {
    && |bat0| == 128 && |bat| == 128
    && (forall x :: 0 <= x < 4096 ==> (Bit(bat, x) <==> Bit(bat0, x) && x !in freed))
    && FreeCount(bat, total) == FreeCount(bat0, total) + |freed|
  }

  lemma ClearedStep(bat0: seq<Word>, bat: seq<Word>, bat': seq<Word>, freed: set<nat>, x: nat, total: nat)
    requires total <= 4096 && Cleared(bat0, bat, freed, total) && x < total && x !in freed && Bit(bat0, x)
    requires bat' == WithBit(bat, x, false)
    ensures Cleared(bat0, bat', freed + {x}, total)
  {
    BitsWithBit(bat, x, false);
    FreeCountWithBit(bat, x, false, total);
  }

  lemma ClearedStart(bat: seq<Word>, total: nat)
    requires total <= 4096 && |bat| == 128
    ensures Cleared(bat, bat, {}, total)
  {
  }

  /** Everything freed so far belongs to the file, as inode block or as one of its data blocks outside lo..hi. */
  ghost predicate FreedApart(own: Owners, freed: set<nat>, fid: nat, lo: nat, hi: nat) {
    forall x :: x in freed ==>
      x in own && own[x].fid == fid
      && (own[x].slot.Self? || (own[x].slot.Data? && !(lo <= own[x].slot.b < hi)))
  }

  lemma RemovedSound(d: Disk, own: Owners, bat: WordBlock, md: Block, fid: nat, freed: set<nat>, total: nat)
    requires Volume(d, own, total) && Cleared(At(d, ALLOCATION_BLOCK), bat, freed, total)
             && FreedApart(own, freed, fid, 0, 0)
    ensures var d' := RemovedDisk(d, bat, md);
            && Sound(VolumeImage(d', WithoutFile(own, fid)), total) && OwnersClosed(WithoutFile(own, fid))
            && At(d', ALLOCATION_BLOCK) == bat
  {
    hide Decode; hide Encode; hide Bit; hide FreeCount; hide FileOk; hide DirOk;
    DecodeEncode(bat);
    var d' := RemovedDisk(d, bat, md);
    assert At(d', ALLOCATION_BLOCK) == bat;
  }

  /** Files other than the one removed, in the new volume. */
  lemma RemovedKept(d: Disk, own: Owners, d': Disk, fid: nat, i: nat, total: nat)
    requires Volume(d, own, total) && i < MAX_FILES && Live(d[DIRECTORY_BLOCK], i)
             && EntryInode(d[DIRECTORY_BLOCK], i) == fid
    requires |d'| == |d| && forall x :: 3 <= x < |d| ==> d'[x] == d[x]
    ensures forall j :: 0 <= j < MAX_FILES && j != i && Live(d[DIRECTORY_BLOCK], j) ==>
              FileOk(d', WithoutFile(own, fid), EntryInode(d[DIRECTORY_BLOCK], j))
              && FileBytes(d', EntryInode(d[DIRECTORY_BLOCK], j)) == FileBytes(d, EntryInode(d[DIRECTORY_BLOCK], j))
  {
    hide FileBytes; hide EntryInode; hide EntryName; hide FileOk; hide Decode; hide Bit;
    forall j | 0 <= j < MAX_FILES && j != i && Live(d[DIRECTORY_BLOCK], j)
      ensures FileOk(d', WithoutFile(own, fid), EntryInode(d[DIRECTORY_BLOCK], j))
      ensures FileBytes(d', EntryInode(d[DIRECTORY_BLOCK], j)) == FileBytes(d, EntryInode(d[DIRECTORY_BLOCK], j))
    {
      FileFrame(d, d', EntryInode(d[DIRECTORY_BLOCK], j), own, WithoutFile(own, fid), total);
    }
  }

  lemma RemovedVolume(d: Disk, own: Owners, bat: WordBlock, fid: nat, i: nat, freed: set<nat>, total: nat)
    requires Volume(d, own, total) && i < MAX_FILES && Live(d[DIRECTORY_BLOCK], i)
             && EntryInode(d[DIRECTORY_BLOCK], i) == fid
    requires Cleared(At(d, ALLOCATION_BLOCK), bat, freed, total) && FreedApart(own, freed, fid, 0, 0)
    ensures var d' := RemovedDisk(d, bat, WithoutEntry(d[DIRECTORY_BLOCK], i));
            && Volume(d', WithoutFile(own, fid), total) && At(d', ALLOCATION_BLOCK) == bat
            && Contents(d') == Contents(d) - {EntryName(d[DIRECTORY_BLOCK], i)}
  {
    hide FileBytes; hide EntryInode; hide EntryName; hide FileOk; hide Encode; hide Decode; hide Bit; hide FreeCount;
    hide WithoutEntry; hide Names; hide DirOk; hide Live; hide Listing; hide Cleared; hide WithoutFile;
    hide FindEntry;
    var md := d[DIRECTORY_BLOCK];
    RemovedSound(d, own, bat, WithoutEntry(md, i), fid, freed, total);
    var d' := RemovedDisk(d, bat, WithoutEntry(md, i));
    RemovedKept(d, own, d', fid, i, total);
    WithoutEntryOk(md, i);
    forall j | 0 <= j < MAX_FILES && Live(d'[DIRECTORY_BLOCK], j)
      ensures FileOk(d', WithoutFile(own, fid), EntryInode(d'[DIRECTORY_BLOCK], j))
    {
      WithoutEntryReads(md, i, j);
    }
    ListingRemove(md, FilesOf(d), FilesOf(d'), i);
  }

  /**
   The countdown of the removal loop, in 32-bit unsigned arithmetic: subtracting 128 at a
   time from t reaches zero exactly when t is a multiple of 128.
  */
  lemma CountdownReachesZero(t: nat)
    requires t < 0x1_0000_0000
    ensures (exists k: nat :: (t - SINDIR * k) % 0x1_0000_0000 == 0) <==> t % SINDIR == 0
  {
    if t % SINDIR == 0 {
      assert (t - SINDIR * (t / SINDIR)) % 0x1_0000_0000 == 0;
    }
    forall k: nat | (t - SINDIR * k) % 0x1_0000_0000 == 0
      ensures t % SINDIR == 0
    {
      var q := (t - SINDIR * k) / 0x1_0000_0000;
      assert t == SINDIR * (k + q * 0x200_0000);
    }
  }

  /** Files whose removal ends: those without double-indirect blocks, or with whole tables of them only. */
  predicate Removable(n: nat) {
    n <= DIRECT + SINDIR || (n - (DIRECT + SINDIR)) % SINDIR == 0
  }

  /** They are the files that skip the countdown or whose countdown meets zero. */
  lemma RemovableExactly(n: nat)
    requires n <= MAX_BLOCKS
    ensures Removable(n) <==> n <= DIRECT + SINDIR || exists k: nat ::
              (n - (DIRECT + SINDIR) - SINDIR * k) % 0x1_0000_0000 == 0
  {
    if n > DIRECT + SINDIR {
      CountdownReachesZero(n - (DIRECT + SINDIR));
    }
  }

  // ---------------------------------------------------------------- the empty name

  /** What the header names when read as an inode: the magic number is the size, words 1 to 7 are direct pointers. */
  function HeaderPointers(d: Disk): seq<Word> {
    At(d, 0)[1..1 + DIRECT]
  }

  /** The header names no tables when read as an inode: a formatted volume has zeros after its name. */
  predicate PlainHeader(d: Disk) {
    At(d, 0)[8] == 0 && At(d, 0)[9] == 0
  }

  /**
   Removing the empty name where an entry is free: the header is taken for an inode, and all blocks its words
   1 to 7 name are positions of the bitmap. Bit 0 is cleared and with it theirs. The files stay as they are.
  */
  ghost predicate HeaderFreed(d: Disk, d': Disk) {
    && |d'| == |d| > DIRECTORY_BLOCK
    && (forall x :: 0 <= x < |d| && x != ALLOCATION_BLOCK ==> d'[x] == d[x]) && Contents(d') == Contents(d)
    && (forall x :: 0 <= x < 4096 ==>
          (Bit(At(d', ALLOCATION_BLOCK), x) <==>
            Bit(At(d, ALLOCATION_BLOCK), x) && x != 0 && x !in HeaderPointers(d)))
    && !Bit(At(d', ALLOCATION_BLOCK), 0)
  }

  lemma FreedHeader(d: Disk, own: Owners, bat: WordBlock, total: nat)
    requires Volume(d, own, total)
    requires forall x :: 0 <= x < 4096 ==>
               (Bit(bat, x) <==> Bit(At(d, ALLOCATION_BLOCK), x) && x != 0 && x !in HeaderPointers(d))
    ensures HeaderFreed(d, RemovedDisk(d, bat, d[DIRECTORY_BLOCK]))
  {
    hide Bit; hide Decode; hide Encode; hide FileBytes; hide FileOk; hide HeaderPointers; hide EntryInode;
    hide EntryName; hide Listing;
    var d' := RemovedDisk(d, bat, d[DIRECTORY_BLOCK]);
    DecodeEncode(bat);
    forall j | 0 <= j < MAX_FILES && Live(d[DIRECTORY_BLOCK], j)
      ensures FileBytes(d', EntryInode(d[DIRECTORY_BLOCK], j)) == FileBytes(d, EntryInode(d[DIRECTORY_BLOCK], j))
    {
      FileFrame(d, d', EntryInode(d[DIRECTORY_BLOCK], j), own, own, total);
    }
    ListingSame(d[DIRECTORY_BLOCK], FilesOf(d), FilesOf(d'));
  }

  /**
   A name for which open and remove are those of the map from names to bytes: any but the empty one while an
   entry is free.
  */
  ghost predicate Nameable(d: Disk, nm: Name) {
    |d| > DIRECTORY_BLOCK && (nm != [] || !HasFreeEntry(d[DIRECTORY_BLOCK]))
  }

  /** Whether remove finds the name, and so whether that is as the map has it. */
  ghost predicate RemoveAnswers(d: Disk, nm: Name, r: int) {
    && |d| > DIRECTORY_BLOCK && r == (if Found(d[DIRECTORY_BLOCK], nm) then VFS_OK else VFS_NOT_FOUND)
    && ((r == VFS_OK <==> nm in Contents(d)) <==> Nameable(d, nm))
  }

  ghost predicate RemovedFrom(d: Disk, d': Disk, nm: Name) {
    |d'| == |d| > DIRECTORY_BLOCK && d'[0] == d[0] && Contents(d') == Contents(d) - {nm}
  }

  /** The inode block of a file and the blocks of its data. */
  ghost function FileBlocks(d: Disk, fid: nat): set<nat>
    requires NumBlocks(FileSize(d, fid)) <= MAX_BLOCKS
  {
    PtrSet(d, At(d, fid), At(d, At(d, fid)[9]), 0, NumBlocks(FileSize(d, fid))) + {fid}
  }

  /** These are free again, one block for the inode and one for each data block, and no other bit has changed. */
  ghost predicate RemovedAs(d: Disk, d': Disk, own: Owners, own': Owners, nm: Name, total: nat) {
    && |d| > DIRECTORY_BLOCK && nm in Contents(d) && total <= 4096
    && FreeBlocks(d', total) == FreeBlocks(d, total) + 1 + NumBlocks(|Contents(d)[nm]|)
    && exists fid :: IsFile(d[DIRECTORY_BLOCK], fid) && FileName(d[DIRECTORY_BLOCK], fid) == nm
                     && BlocksFreed(d, d', own, own', fid)
  }

  ghost predicate BlocksFreed(d: Disk, d': Disk, own: Owners, own': Owners, fid: nat) {
    && own' == WithoutFile(own, fid) && NumBlocks(FileSize(d, fid)) <= MAX_BLOCKS
    && forall x :: 0 <= x < 4096 ==>
         (Bit(At(d', ALLOCATION_BLOCK), x) <==> Bit(At(d, ALLOCATION_BLOCK), x) && x !in FileBlocks(d, fid))
  }

  /** With the double-indirect block loaded, the blocks of the file are found through the buffers. */
  lemma FileBlocksLoaded(d: Disk, fid: nat, di: WordBlock, own: Owners)
    requires FileOk(d, own, fid) && (NumBlocks(FileSize(d, fid)) > DIRECT + SINDIR ==> di == At(d, At(d, fid)[9]))
    ensures NumBlocks(FileSize(d, fid)) <= MAX_BLOCKS
    ensures FileBlocks(d, fid) == PtrSet(d, At(d, fid), di, 0, NumBlocks(FileSize(d, fid))) + {fid}
  {
    hide Decode; hide Ptr; hide DataOwned; hide TailZero;
    var ino, n := At(d, fid), NumBlocks(FileSize(d, fid));
    TreeIsOpenTree(d, fid, ino, di, n, own);
    assert forall b :: 0 <= b < n ==> Ptr(d, ino, di, b) == Ptr(d, ino, At(d, ino[9]), b);
  }

  lemma BlocksFreedFrom(d: Disk, d': Disk, own: Owners, fid: nat, freed: set<nat>, total: nat)
    requires total <= 4096 && NumBlocks(FileSize(d, fid)) <= MAX_BLOCKS && freed == FileBlocks(d, fid)
    requires Cleared(At(d, ALLOCATION_BLOCK), At(d', ALLOCATION_BLOCK), freed, total)
    ensures BlocksFreed(d, d', own, WithoutFile(own, fid), fid)
  {
    hide Bit; hide At; hide FileBlocks;
  }

  /** How far remove gets. */
  ghost function RemoveFate(d: Disk, nm: Name): Fate
    requires |d| > DIRECTORY_BLOCK
  {
    if nm == [] && HasFreeEntry(d[DIRECTORY_BLOCK]) then ListFate(HeaderPointers(d))
    else if nm in Contents(d) && !Removable(NumBlocks(|Contents(d)[nm]|)) then Outside
    else Done
  }

  /** The header is freed exactly if the blocks its words 1 to 7 name are positions of the bitmap. */
  lemma HeaderFreedExactly(d: Disk)
    requires |d| > DIRECTORY_BLOCK && DirOk(d[DIRECTORY_BLOCK])
    ensures RemoveFate(d, []) == Done <==> !HasFreeEntry(d[DIRECTORY_BLOCK]) || forall k {:trigger At(d, 0)[k]} ::
              1 <= k <= DIRECT ==> At(d, 0)[k] < BLOCK_BITS
  {
    hide ListFate; hide DirOk; hide HasFreeEntry; hide At; hide Contents; hide Removable;
    NoEmptyName(d[DIRECTORY_BLOCK]);
    var s := HeaderPointers(d);
    ListFateExactly(s);
    assert forall b :: 0 <= b < DIRECT ==> s[b] == At(d, 0)[1 + b];
    forall k {:trigger At(d, 0)[k]} | 1 <= k <= DIRECT
      ensures At(d, 0)[k] == s[k - 1]
    {
    }
  }

  /** The header holds a volume name: the first of the bytes after the magic number is not zero. */
  predicate NamedVolume(d: Disk) {
    |d| > 0 && d[0][4] != 0
  }

  /**
   On such a volume, as every mounted one is, removing the empty name never frees the header: it writes outside
   the bitmap, or the kernel stops.
  */
  lemma NamedVolumeFate(d: Disk, nm: Name)
    requires NamedVolume(d) && |d| > DIRECTORY_BLOCK && !Nameable(d, nm)
    ensures RemoveFate(d, nm) == if d[0][4] < 0x80 then Outside else Halts
  {
    hide ListFate; hide HasFreeEntry; hide Contents; hide Removable;
    HeaderWord(d);
    var s := HeaderPointers(d);
    ListFateExactly(s);
    assert FirstBad(s, 0);
    forall i
      ensures FirstBad(s, i) <==> i == 0
    {
    }
  }

  lemma HeaderWord(d: Disk)
    requires NamedVolume(d)
    ensures HeaderPointers(d)[0] >= 0x100_0000 && (HeaderPointers(d)[0] < 0x8000_0000 <==> d[0][4] < 0x80)
  {
    assert HeaderPointers(d)[0] == LoadWord(d[0], 4);
  }

  const FLATFS_MAGIC := 0x00BA_B5E2

  /** The header of a mounted volume. */
  predicate MagicHeader(d: Disk) {
    At(d, 0)[0] == FLATFS_MAGIC
  }

  /** Taken for a table, such a header names a position outside the bitmap first. */
  lemma HeaderAsTable(d: Disk)
    requires MagicHeader(d)
    ensures ListFate(At(d, 0)) == Outside
  {
    hide ListFate; hide At;
    var s := At(d, 0);
    ListFateExactly(s);
    assert FirstBad(s, 0);
  }

  /** With the header's bit clear a system block counts as free: no volume is like that. */
  lemma HeaderFreeIsNoVolume(d: Disk, own: Owners, total: nat)
    requires |d| > DIRECTORY_BLOCK && !Bit(At(d, ALLOCATION_BLOCK), 0)
    ensures !Volume(d, own, total)
  {
    hide Bit; hide Decode;
  }

  // ---------------------------------------------------------------- what a remove frees

  /** What is freed of the file: its logical blocks lo..hi are apart from lo2..hi2. */
  lemma PtrSetApart(d: Disk, fid: nat, ino: WordBlock, di: WordBlock, n: nat, own: Owners, lo: nat, hi: nat, lo2: nat,
                    hi2: nat)
    requires OpenTree(d, fid, ino, di, n, own) && hi <= n <= MAX_BLOCKS && (hi <= lo2 || hi2 <= lo)
    ensures FreedApart(own, PtrSet(d, ino, di, lo, hi), fid, lo2, hi2)
  {
    hide Ptr;
    forall x | x in PtrSet(d, ino, di, lo, hi)
      ensures x in own && own[x].fid == fid && own[x].slot.Data? && !(lo2 <= own[x].slot.b < hi2)
    {
      var b :| lo <= b < hi && x == Ptr(d, ino, di, b);
      assert Holds(own, Ptr(d, ino, di, b), Role(fid, Data(b)));
    }
  }

  lemma FreedJoin(own: Owners, s: set<nat>, t: set<nat>, fid: nat, lo: nat, hi: nat)
    requires FreedApart(own, s, fid, lo, hi) && FreedApart(own, t, fid, lo, hi)
    ensures FreedApart(own, s + t, fid, lo, hi)
  {
  }

  lemma FreedInode(own: Owners, fid: nat, lo: nat, hi: nat)
    requires Holds(own, fid, Role(fid, Self))
    ensures FreedApart(own, {fid}, fid, lo, hi)
  {
  }

  /** Logical blocks are distinct, so a run of them is as large as it is long. */
  lemma {:induction false} PtrSetSize(d: Disk, fid: nat, ino: WordBlock, di: WordBlock, n: nat, own: Owners, hi: nat)
    requires OpenTree(d, fid, ino, di, n, own) && hi <= n <= MAX_BLOCKS
    ensures |PtrSet(d, ino, di, 0, hi)| == hi
  {
    hide Ptr; hide TailZero; hide TablesOwned; hide DirectZero; hide DoubleZero; hide At;
    if hi == 0 {
      assert PtrSet(d, ino, di, 0, 0) == {};
    } else {
      PtrSetSize(d, fid, ino, di, n, own, hi - 1);
      PtrSetStep(d, ino, di, 0, hi - 1);
      PtrSetFresh(d, fid, ino, di, n, own, 0, hi - 1, {});
    }
  }

  /** The next block is not among those freed already. */
  lemma PtrSetFresh(d: Disk, fid: nat, ino: WordBlock, di: WordBlock, n: nat, own: Owners, lo: nat, b: nat,
                    freed: set<nat>)
    requires OpenTree(d, fid, ino, di, n, own) && lo <= b < n <= MAX_BLOCKS && FreedApart(own, freed, fid, b, b + 1)
    ensures Ptr(d, ino, di, b) as nat !in freed + PtrSet(d, ino, di, lo, b)
    ensures Holds(own, Ptr(d, ino, di, b), Role(fid, Data(b)))
  {
    hide Ptr; hide TailZero; hide TablesOwned; hide DirectZero; hide DoubleZero; hide At;
    var p := Ptr(d, ino, di, b);
    assert Holds(own, p, Role(fid, Data(b)));
  }

  /** Entries of a present table: those of the file's blocks are positive, those past its end zero. */
  lemma TableEntry(d: Disk, fid: nat, ino: WordBlock, di: WordBlock, n: nat, own: Owners, todbl: int, i: nat,
                   total: nat)
    requires OpenTree(d, fid, ino, di, n, own) && Sound(VolumeImage(d, own), total)
    requires -1 <= todbl < SINDIR && TableStart(todbl) < n <= MAX_BLOCKS && i < SINDIR
    ensures var b := TableStart(todbl) + i;
            && b < MAX_BLOCKS
            && At(d, TableBlock(ino, di, todbl + 1))[i] == Ptr(d, ino, di, b)
            && (Ptr(d, ino, di, b) > 0 <==> b < n)
  {
    hide Bit; hide Decode;
    var b := TableStart(todbl) + i;
    assert (b - DIRECT) / SINDIR == todbl + 1 && (b - DIRECT) % SINDIR == i;
    if b < n {
      assert Holds(own, Ptr(d, ino, di, b), Role(fid, Data(b)));
    }
  }

  /** Clearing the blocks the direct pointers name frees the direct blocks of the file. */
  lemma DirectCleared(d: Disk, fid: nat, ino: WordBlock, di: WordBlock, n: nat, own: Owners, bat0: seq<Word>,
                      bat: seq<Word>,
                      bat': seq<Word>, freed: set<nat>, total: nat)
    requires OpenTree(d, fid, ino, di, n, own) && Sound(VolumeImage(d, own), total) && n <= MAX_BLOCKS
    requires bat0 == At(d, ALLOCATION_BLOCK) && Cleared(bat0, bat, freed, total)
             && FreedApart(own, freed, fid, 0, Min(DIRECT, n))
    requires BitsListed(bat, bat', ino[1..1 + DIRECT])
    ensures Cleared(bat0, bat', freed + PtrSet(d, ino, di, 0, Min(DIRECT, n)), total)
  {
    hide Ptr; hide At; hide Bit; hide OpenTree; hide FreedApart; hide PtrSet; hide FreeCount;
    var s := PtrSet(d, ino, di, 0, Min(DIRECT, n));
    forall x: nat
      ensures x > 0 && x in ino[1..1 + DIRECT] <==> x in s
    {
      DirectNamed(d, fid, ino, di, n, own, x, total);
    }
    forall x | x in freed + s
      ensures 3 <= x < total && Bit(bat0, x)
    {
      FreedInRange(d, fid, ino, di, n, own, freed, 0, Min(DIRECT, n), x);
      OwnedBit(d, own, x, total);
    }
    ClearedCount(bat0, bat', freed + s, total);
  }

  lemma FreedInRange(d: Disk, fid: nat, ino: WordBlock, di: WordBlock, n: nat, own: Owners, freed: set<nat>, lo: nat,
                     hi: nat, x: nat)
    requires OpenTree(d, fid, ino, di, n, own) && hi <= n <= MAX_BLOCKS && FreedApart(own, freed, fid, lo, hi)
    requires x in freed + PtrSet(d, ino, di, lo, hi)
    ensures x in own
  {
    hide Ptr; hide OpenTree;
    PtrSetApart(d, fid, ino, di, n, own, lo, hi, 0, 0);
  }

  lemma DirectNamed(d: Disk, fid: nat, ino: WordBlock, di: WordBlock, n: nat, own: Owners, x: nat, total: nat)
    requires OpenTree(d, fid, ino, di, n, own) && Sound(VolumeImage(d, own), total) && n <= MAX_BLOCKS
    ensures x > 0 && x in ino[1..1 + DIRECT] <==> x in PtrSet(d, ino, di, 0, Min(DIRECT, n))
  {
    hide Ptr; hide OpenTree; hide Sound;
    var s := ino[1..1 + DIRECT];
    forall b | 0 <= b < DIRECT
      ensures s[b] == DirectBlock(ino, b) == Ptr(d, ino, di, b) && (s[b] > 0 <==> b < n)
    {
      DirectEntry(d, fid, ino, di, n, own, b, total);
    }
    if x > 0 && x in s {
      var b :| 0 <= b < DIRECT && s[b] == x;
      assert x == Ptr(d, ino, di, b);
    }
    if x in PtrSet(d, ino, di, 0, Min(DIRECT, n)) {
      var b :| 0 <= b < Min(DIRECT, n) && x == Ptr(d, ino, di, b);
      assert s[b] == x;
    }
  }

  /** The count of free blocks, from the bits alone. */
  lemma ClearedCount(bat0: seq<Word>, bat: seq<Word>, freed: set<nat>, total: nat)
    requires total <= 4096 && |bat0| == 128 && |bat| == 128
    requires forall x :: 0 <= x < 4096 ==> (Bit(bat, x) <==> Bit(bat0, x) && x !in freed)
    requires forall x :: x in freed ==> 0 <= x < total && Bit(bat0, x)
    ensures Cleared(bat0, bat, freed, total)
  {
    hide Bit;
    ClearedCountBelow(bat0, bat, freed, total, total);
    assert freed == set x | x in freed && x < total;
  }

  lemma {:induction false} ClearedCountBelow(bat0: seq<Word>, bat: seq<Word>, freed: set<nat>, total: nat, l: nat)
    requires l <= total <= 4096 && |bat0| == 128 && |bat| == 128
    requires forall x :: 0 <= x < 4096 ==> (Bit(bat, x) <==> Bit(bat0, x) && x !in freed)
    requires forall x :: x in freed ==> 0 <= x < total && Bit(bat0, x)
    ensures FreeCount(bat, l) == FreeCount(bat0, l) + |set x | x in freed && x < l|
  {
    hide Bit;
    var s := set x | x in freed && x < l;
    if l == 0 {
      assert s == {};
    } else {
      var s' := set x | x in freed && x < l - 1;
      ClearedCountBelow(bat0, bat, freed, total, l - 1);
      assert s == if l - 1 in freed then s' + {l - 1} else s';
    }
  }

  lemma ClearedBits(bat0: seq<Word>, bat: seq<Word>, freed: set<nat>, total: nat)
    requires total <= 4096 && Cleared(bat0, bat, freed, total)
    ensures |bat| == 128
  {
  }

  lemma DirectEntry(d: Disk, fid: nat, ino: WordBlock, di: WordBlock, n: nat, own: Owners, b: nat, total: nat)
    requires OpenTree(d, fid, ino, di, n, own) && Sound(VolumeImage(d, own), total) && b < DIRECT
    ensures DirectBlock(ino, b) == Ptr(d, ino, di, b) && (DirectBlock(ino, b) > 0 <==> b < n)
  {
    hide Bit; hide Decode;
    if b < n {
      assert Holds(own, Ptr(d, ino, di, b), Role(fid, Data(b)));
    }
  }

  /** Clearing the blocks a table of the file names frees the data blocks found through it. */
  lemma TableCleared(d: Disk, fid: nat, ino: WordBlock, di: WordBlock, n: nat, own: Owners, bat0: seq<Word>,
                     bat: seq<Word>, bat': seq<Word>, freed: set<nat>, todbl: int, total: nat)
    requires OpenTree(d, fid, ino, di, n, own) && Sound(VolumeImage(d, own), total)
    requires -1 <= todbl < SINDIR && TableStart(todbl) < n <= MAX_BLOCKS
    requires bat0 == At(d, ALLOCATION_BLOCK) && Cleared(bat0, bat, freed, total)
             && FreedApart(own, freed, fid, TableStart(todbl), TableEnd(todbl, n))
    requires BitsListed(bat, bat', At(d, TableBlock(ino, di, todbl + 1)))
    ensures Cleared(bat0, bat', freed + PtrSet(d, ino, di, TableStart(todbl), TableEnd(todbl, n)), total)
  {
    hide Ptr; hide At; hide Bit; hide OpenTree; hide FreedApart; hide PtrSet; hide FreeCount; hide TableBlock;
    var s := PtrSet(d, ino, di, TableStart(todbl), TableEnd(todbl, n));
    var si := At(d, TableBlock(ino, di, todbl + 1));
    forall x: nat
      ensures x > 0 && x in si <==> x in s
    {
      TableNamed(d, fid, ino, di, n, own, todbl, x, total);
    }
    forall x | x in freed + s
      ensures 3 <= x < total && Bit(bat0, x)
    {
      FreedInRange(d, fid, ino, di, n, own, freed, TableStart(todbl), TableEnd(todbl, n), x);
      OwnedBit(d, own, x, total);
    }
    ClearedCount(bat0, bat', freed + s, total);
  }

  lemma TableNamed(d: Disk, fid: nat, ino: WordBlock, di: WordBlock, n: nat, own: Owners, todbl: int, x: nat,
                   total: nat)
    requires OpenTree(d, fid, ino, di, n, own) && Sound(VolumeImage(d, own), total)
    requires -1 <= todbl < SINDIR && TableStart(todbl) < n <= MAX_BLOCKS
    ensures x > 0 && x in At(d, TableBlock(ino, di, todbl + 1)) <==>
              x in PtrSet(d, ino, di, TableStart(todbl), TableEnd(todbl, n))
  {
    hide Ptr; hide OpenTree; hide Sound; hide TableBlock; hide At;
    var si, base := At(d, TableBlock(ino, di, todbl + 1)), TableStart(todbl);
    forall i | 0 <= i < SINDIR
      ensures base + i < MAX_BLOCKS && si[i] == Ptr(d, ino, di, base + i) && (si[i] > 0 <==> base + i < n)
    {
      TableEntry(d, fid, ino, di, n, own, todbl, i, total);
    }
    if x > 0 && x in si {
      var i :| 0 <= i < SINDIR && si[i] == x;
      assert x == Ptr(d, ino, di, base + i);
    }
    if x in PtrSet(d, ino, di, base, TableEnd(todbl, n)) {
      var b :| base <= b < TableEnd(todbl, n) && x == Ptr(d, ino, di, b);
      assert si[b - base] == x;
    }
  }

  /** The table's entries are positions of the bitmap. */
  lemma TableFate(d: Disk, fid: nat, ino: WordBlock, di: WordBlock, n: nat, own: Owners, todbl: int, total: nat)
    requires OpenTree(d, fid, ino, di, n, own) && Sound(VolumeImage(d, own), total)
    requires -1 <= todbl < SINDIR && TableStart(todbl) < n <= MAX_BLOCKS
    ensures TableBlock(ino, di, todbl + 1) < |d| && ListFate(At(d, TableBlock(ino, di, todbl + 1))) == Done
  {
    hide Ptr; hide OpenTree; hide Sound; hide TableBlock; hide At; hide ListFate;
    var si, base := At(d, TableBlock(ino, di, todbl + 1)), TableStart(todbl);
    assert (base - DIRECT) / SINDIR == todbl + 1;
    TableInRange(d, fid, ino, di, n, own, base, total);
    ListFateExactly(si);
    forall i | 0 <= i < SINDIR
      ensures si[i] < BLOCK_BITS
    {
      TableEntry(d, fid, ino, di, n, own, todbl, i, total);
      if base + i < n {
        DataBelow(d, fid, ino, di, n, own, base + i, total);
      }
    }
  }

  lemma DataBelow(d: Disk, fid: nat, ino: WordBlock, di: WordBlock, n: nat, own: Owners, b: nat, total: nat)
    requires OpenTree(d, fid, ino, di, n, own) && Sound(VolumeImage(d, own), total) && b < n <= MAX_BLOCKS
    ensures 3 <= Ptr(d, ino, di, b) < total <= 4096
  {
    hide Ptr; hide Bit; hide Decode;
    assert Holds(own, Ptr(d, ino, di, b), Role(fid, Data(b)));
  }

  /** So are the direct pointers. */
  lemma DirectFate(d: Disk, fid: nat, ino: WordBlock, di: WordBlock, n: nat, own: Owners, total: nat)
    requires OpenTree(d, fid, ino, di, n, own) && Sound(VolumeImage(d, own), total) && n <= MAX_BLOCKS
    ensures ListFate(ino[1..1 + DIRECT]) == Done
  {
    hide Ptr; hide OpenTree; hide Sound; hide ListFate;
    var s := ino[1..1 + DIRECT];
    ListFateExactly(s);
    forall b | 0 <= b < DIRECT
      ensures s[b] < BLOCK_BITS
    {
      assert s[b] == DirectBlock(ino, b);
      DirectEntry(d, fid, ino, di, n, own, b, total);
      if b < n {
        DataBelow(d, fid, ino, di, n, own, b, total);
      }
    }
  }

  /** The pointer past the last table is zero: the next table would be the header. */
  lemma PastTheTables(d: Disk, fid: nat, ino: WordBlock, di: WordBlock, n: nat, own: Owners, i: nat, total: nat)
    requires OpenTree(d, fid, ino, di, n, own) && Sound(VolumeImage(d, own), total) && i < SINDIR
    requires DIRECT + SINDIR < n <= TableStart(i) && MagicHeader(d)
    ensures TableBlock(ino, di, i + 1) == 0 && 0 < |d| && ListFate(At(d, 0)) == Outside
  {
    hide ListFate; hide At; hide Bit; hide MagicHeader; hide TreeCore;
    HeaderAsTable(d);
    assert n <= DIRECT + SINDIR * (i + 1);
  }

  /** One more table is freed. */
  lemma DoublesStep(d: Disk, fid: nat, ino: WordBlock, di: WordBlock, n: nat, own: Owners, bat0: seq<Word>,
                    bat: seq<Word>, bat': seq<Word>, i: nat, total: nat)
    requires OpenTree(d, fid, ino, di, n, own) && Sound(VolumeImage(d, own), total)
    requires i < SINDIR && TableStart(i) < n <= MAX_BLOCKS && bat0 == At(d, ALLOCATION_BLOCK)
    requires Cleared(bat0, bat, PtrSet(d, ino, di, DIRECT + SINDIR, TableStart(i)), total)
    requires BitsListed(bat, bat', At(d, TableBlock(ino, di, i + 1)))
    ensures Cleared(bat0, bat', PtrSet(d, ino, di, DIRECT + SINDIR, TableEnd(i, n)), total)
  {
    hide Ptr; hide At; hide Bit; hide Cleared; hide FreedApart; hide PtrSet; hide OpenTree; hide Sound; hide BitsListed;
    hide TableBlock;
    var base := DIRECT + SINDIR;
    PtrSetApart(d, fid, ino, di, n, own, base, TableStart(i), TableStart(i), TableEnd(i, n));
    TableCleared(d, fid, ino, di, n, own, bat0, bat, bat', PtrSet(d, ino, di, base, TableStart(i)), i, total);
    PtrSetJoin(d, ino, di, base, TableStart(i), TableEnd(i, n));
  }

  /** A file has fewer blocks than the bitmap has bits, so its tables leave room in the double-indirect block. */
  lemma FileIsSmall(d: Disk, fid: nat, ino: WordBlock, di: WordBlock, n: nat, own: Owners, total: nat)
    requires OpenTree(d, fid, ino, di, n, own) && Sound(VolumeImage(d, own), total) && n <= MAX_BLOCKS
    ensures n < 4096
  {
    hide Ptr; hide OpenTree; hide Sound; hide PtrSet;
    PtrSetSize(d, fid, ino, di, n, own, n);
    if n > 0 {
      DataBelow(d, fid, ino, di, n, own, 0, total);
      forall x | x in PtrSet(d, ino, di, 0, n)
        ensures x in Interval(3, total)
      {
        PtrSetBelow(d, fid, ino, di, n, own, x, total);
      }
      SubsetSize(PtrSet(d, ino, di, 0, n), Interval(3, total));
    }
  }

  lemma PtrSetBelow(d: Disk, fid: nat, ino: WordBlock, di: WordBlock, n: nat, own: Owners, x: nat, total: nat)
    requires OpenTree(d, fid, ino, di, n, own) && Sound(VolumeImage(d, own), total) && n <= MAX_BLOCKS
    requires x in PtrSet(d, ino, di, 0, n)
    ensures 3 <= x < total
  {
    hide Ptr; hide OpenTree; hide Sound;
    var b :| 0 <= b < n && x == Ptr(d, ino, di, b);
    DataBelow(d, fid, ino, di, n, own, b, total);
  }

  function Interval(lo: nat, hi: nat): (s: set<nat>)
    requires lo <= hi
    ensures |s| == hi - lo && forall x: nat :: x in s <==> lo <= x < hi
  {
    if lo == hi then {} else Interval(lo, hi - 1) + {hi - 1}
  }

  lemma SubsetSize(a: set<nat>, b: set<nat>)
    requires a <= b
    ensures |a| <= |b|
  {
    assert b == a + (b - a);
    assert |b| == |a| + |b - a|;
  }

  /** The bits of the nonzero words of a list have been cleared in bat, giving bat'. */
  ghost predicate BitsListed(bat: seq<Word>, bat': seq<Word>, ws: seq<Word>) {
    && |bat| == 128 && |bat'| == 128
    && forall x :: 0 <= x < 4096 ==> (Bit(bat', x) <==> Bit(bat, x) && !(x > 0 && x in ws))
  }

  lemma BitsListedStart(bat: seq<Word>, ws: seq<Word>)
    requires |bat| == 128
    ensures BitsListed(bat, bat, ws[..0])
  {
  }

  lemma BitsListedNext(bat: seq<Word>, words: seq<Word>, ws: seq<Word>, i: nat)
    requires i < |ws| && BitsListed(bat, words, ws[..i]) && ws[i] < BLOCK_BITS
    ensures BitsListed(bat, if ws[i] > 0 then WithBit(words, ws[i], false) else words, ws[..i + 1])
  {
    hide Bit; hide WithBit;
    BitsWithBit(words, ws[i], false);
    assert ws[..i + 1] == ws[..i] + [ws[i]];
  }

  lemma SinglePresent(d: Disk, fid: nat, ino: WordBlock, di: WordBlock, n: nat, own: Owners, total: nat)
    requires OpenTree(d, fid, ino, di, n, own) && Sound(VolumeImage(d, own), total)
    ensures ino[8] > 0 <==> n > DIRECT
  {
    hide Bit; hide Decode; hide Ptr;
    if n > DIRECT {
      assert Holds(own, TableBlock(ino, di, 0), Role(fid, Table(0)));
    }
  }

  function Min(a: nat, b: nat): nat { if a < b then a else b }

  /** The end of table todbl in a file of n blocks. */
  function TableEnd(todbl: int, n: nat): nat
    requires -1 <= todbl
  {
    Min(TableStart(todbl + 1), n)
  }

  lemma PtrSetEmpty(d: Disk, ino: WordBlock, di: WordBlock, lo: nat)
    requires lo <= MAX_BLOCKS
    ensures PtrSet(d, ino, di, lo, lo) == {}
  {
  }

  lemma OwnedBit(d: Disk, own: Owners, x: nat, total: nat)
    requires Sound(VolumeImage(d, own), total) && x in own
    ensures 3 <= x < total && Bit(At(d, ALLOCATION_BLOCK), x)
  {
    hide Bit; hide Decode;
  }

  lemma InodeNotFreed(d: Disk, fid: nat, ino: WordBlock, di: WordBlock, n: nat, own: Owners, lo: nat, hi: nat)
    requires OpenTree(d, fid, ino, di, n, own) && hi <= n <= MAX_BLOCKS && Holds(own, fid, Role(fid, Self))
    ensures fid !in PtrSet(d, ino, di, lo, hi)
  {
    hide Ptr; hide TailZero; hide TablesOwned; hide DirectZero; hide DoubleZero; hide At;
    forall b | lo <= b < hi
      ensures Ptr(d, ino, di, b) != fid
    {
      assert Holds(own, Ptr(d, ino, di, b), Role(fid, Data(b)));
    }
  }

  /** The set of blocks a remove frees: the file's own, one for the inode and one for each data block. */
  lemma RemovedSet(d: Disk, fid: nat, ino: WordBlock, di: WordBlock, n: nat, own: Owners)
    requires OpenTree(d, fid, ino, di, n, own) && n <= MAX_BLOCKS && Holds(own, fid, Role(fid, Self))
    ensures FreedApart(own, PtrSet(d, ino, di, 0, n) + {fid}, fid, 0, 0)
    ensures |PtrSet(d, ino, di, 0, n) + {fid}| == n + 1
  {
    hide Ptr; hide OpenTree; hide FreedApart; hide PtrSet;
    PtrSetApart(d, fid, ino, di, n, own, 0, n, 0, 0);
    FreedInode(own, fid, 0, 0);
    FreedJoin(own, PtrSet(d, ino, di, 0, n), {fid}, fid, 0, 0);
    PtrSetSize(d, fid, ino, di, n, own, n);
    InodeNotFreed(d, fid, ino, di, n, own, 0, n);
  }

  lemma EntryIsOk(d: Disk, own: Owners, i: nat, total: nat)
    requires Volume(d, own, total) && i < MAX_FILES && Live(d[DIRECTORY_BLOCK], i)
    ensures FileOk(d, own, EntryInode(d[DIRECTORY_BLOCK], i)) && 3 <= EntryInode(d[DIRECTORY_BLOCK], i) < total
  {
    hide Tree; hide EntryName; hide EntryInode;
  }
}
