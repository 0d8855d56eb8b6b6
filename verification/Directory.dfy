/**
 The directory block shared by both file systems: 25 entries of an inode number and a
 name of up to 15 characters, and the map from names to files that it defines.
*/
module Directories {
  import opened Words
  import opened CStrings

  const VFS_OK := 0
  const VFS_ERROR := -2
  const VFS_INVALID_PARAMS := -3
  const VFS_NOT_FOUND := -5

  const MAX_FILES := 25

  type Name = seq<Byte>

  const ENTRY_SIZE := 20
  const NAME_MAX := 16

  // ---------------------------------------------------------------- the directory block

  /** A C string that fits an entry; the empty one, which no file has, may be asked for too. */
  predicate ValidName(nm: Name) {
    |nm| < NAME_MAX && forall k :: 0 <= k < |nm| ==> nm[k] != 0
  }

  function EntryInode(md: Block, i: nat): Word
    requires i < MAX_FILES
  {
    LoadWord(md, ENTRY_SIZE * i)
  }

  function EntryName(md: Block, i: nat): Name
    requires i < MAX_FILES
  {
    CString(md[ENTRY_SIZE * i + 4..ENTRY_SIZE * i + ENTRY_SIZE])
  }

  function SetEntryInode(md: Block, i: nat, w: Word): Block
    requires i < MAX_FILES
  {
    var a := ENTRY_SIZE * i;
    md[a := ByteOf(w, 0)][a + 1 := ByteOf(w, 1)][a + 2 := ByteOf(w, 2)][a + 3 := ByteOf(w, 3)]
  }

  /** stringcopy of a name into an entry: the bytes, one terminating zero; what follows is left alone. */
  function SetEntryName(md: Block, i: nat, nm: Name): Block
    requires i < MAX_FILES && |nm| < NAME_MAX
  {
    var a := ENTRY_SIZE * i + 4;
    md[..a] + nm + [0] + md[a + |nm| + 1..]
  }

  function ClearEntryName(md: Block, i: nat): Block
    requires i < MAX_FILES
  {
    md[ENTRY_SIZE * i + 4 := 0]
  }

  predicate Live(md: Block, i: nat)
    requires i < MAX_FILES
  {
    EntryInode(md, i) != 0
  }

  /** The same as a copy into the 16 bytes of the entry's name. */
  lemma SetEntryNameCopies(md: Block, i: nat, nm: Name)
    requires i < MAX_FILES && |nm| < NAME_MAX
    ensures var a := ENTRY_SIZE * i + 4;
            SetEntryName(md, i, nm) == md[..a] + Copied(md[a..a + NAME_MAX], nm, NAME_MAX) + md[a + NAME_MAX..]
  {
    var a := ENTRY_SIZE * i + 4;
    assert md[a + |nm| + 1..] == md[a..a + NAME_MAX][|nm| + 1..] + md[a + NAME_MAX..];
  }

  lemma SetEntryNameReads(md: Block, i: nat, nm: Name, j: nat)
    requires i < MAX_FILES && j < MAX_FILES && ValidName(nm)
    ensures EntryName(SetEntryName(md, i, nm), j) == if j == i then nm else EntryName(md, j)
    ensures EntryInode(SetEntryName(md, i, nm), j) == EntryInode(md, j)
  {
    var md' := SetEntryName(md, i, nm);
    var a := ENTRY_SIZE * i + 4;
    if j == i {
      var rest := md'[a + |nm| + 1..a + NAME_MAX];
      assert md'[a..a + NAME_MAX] == nm + [0] + rest;
      CStringOf(nm, rest);
    } else {
      var b := ENTRY_SIZE * j + 4;
      assert md'[b..b + NAME_MAX] == md[b..b + NAME_MAX];
    }
  }

  lemma SetEntryInodeReads(md: Block, i: nat, w: Word, j: nat)
    requires i < MAX_FILES && j < MAX_FILES
    ensures EntryInode(SetEntryInode(md, i, w), j) == if j == i then w else EntryInode(md, j)
    ensures EntryName(SetEntryInode(md, i, w), j) == EntryName(md, j)
  {
    WordFromBytes(w);
    var md' := SetEntryInode(md, i, w);
    var b := ENTRY_SIZE * j + 4;
    assert md'[b..b + NAME_MAX] == md[b..b + NAME_MAX];
  }

  lemma ClearEntryNameReads(md: Block, i: nat, j: nat)
    requires i < MAX_FILES && j < MAX_FILES
    ensures EntryName(ClearEntryName(md, i), j) == if j == i then [] else EntryName(md, j)
    ensures EntryInode(ClearEntryName(md, i), j) == EntryInode(md, j)
  {
    var md' := ClearEntryName(md, i);
    var b := ENTRY_SIZE * j + 4;
    if j != i {
      assert md'[b..b + NAME_MAX] == md[b..b + NAME_MAX];
    }
  }

  /** Free entries have no name; live ones have distinct names and distinct inodes. */
  ghost predicate DirOk(md: Block) {
    && (forall i :: 0 <= i < MAX_FILES ==> (Live(md, i) <==> EntryName(md, i) != []))
    && (forall i :: 0 <= i < MAX_FILES ==> |EntryName(md, i)| < NAME_MAX)
    && (forall i, j :: 0 <= i < j < MAX_FILES && Live(md, i) ==> EntryName(md, i) != EntryName(md, j))
    && (forall i, j :: 0 <= i < j < MAX_FILES && Live(md, i) ==> EntryInode(md, i) != EntryInode(md, j))
  }

  /** The first entry from i on with this name, -1 when there is none. */
  function FindEntry(md: Block, nm: Name, i: nat): (r: int)
    requires i <= MAX_FILES
    ensures r == -1 || i <= r < MAX_FILES
    ensures r == -1 ==> forall k :: i <= k < MAX_FILES ==> EntryName(md, k) != nm
    ensures r != -1 ==> EntryName(md, r) == nm
    decreases MAX_FILES - i
  {
    if i == MAX_FILES then -1
    else if EntryName(md, i) == nm then i
    else FindEntry(md, nm, i + 1)
  }

  ghost predicate IsFile(md: Block, fid: nat) {
    exists i :: 0 <= i < MAX_FILES && Live(md, i) && EntryInode(md, i) == fid
  }

  ghost function Names(md: Block): set<Name> {
    set i | 0 <= i < MAX_FILES && Live(md, i) :: EntryName(md, i)
  }

  ghost function NameIndex(md: Block, nm: Name): (i: nat)
    requires nm in Names(md)
    ensures i < MAX_FILES && EntryName(md, i) == nm
  {
    FindEntry(md, nm, 0)
  }

  lemma NameIndexLive(md: Block, nm: Name)
    requires DirOk(md) && nm in Names(md)
    ensures Live(md, NameIndex(md, nm))
  {
    hide EntryInode; hide EntryName;
    var i :| 0 <= i < MAX_FILES && Live(md, i) && EntryName(md, i) == nm;
    assert EntryName(md, NameIndex(md, nm)) != [];
  }

  ghost predicate HasFreeEntry(md: Block) {
    exists i :: 0 <= i < MAX_FILES && !Live(md, i)
  }

  lemma FreeEntry(md: Block, i: nat)
    requires i < MAX_FILES && !Live(md, i)
    ensures HasFreeEntry(md)
  {
    hide EntryInode;
  }

  // ---------------------------------------------------------------- searching

  /** A search for the name ends at some entry: a file has it, or it is empty and matches an entry that is free. */
  ghost predicate Found(md: Block, nm: Name) {
    nm in Names(md) || (nm == [] && HasFreeEntry(md))
  }

  lemma FoundAt(md: Block, nm: Name, i: nat)
    requires DirOk(md) && i < MAX_FILES && EntryName(md, i) == nm
    ensures Found(md, nm) && (Live(md, i) <==> nm != [])
  {
    hide EntryInode; hide EntryName;
  }

  lemma FoundNowhere(md: Block, nm: Name)
    requires DirOk(md) && forall i :: 0 <= i < MAX_FILES ==> EntryName(md, i) != nm
    ensures !Found(md, nm)
  {
    hide EntryInode; hide EntryName;
    assert forall i :: 0 <= i < MAX_FILES && !Live(md, i) ==> EntryName(md, i) == [];
  }

  /** The search by name ends at an entry exactly if a file has the name, or it is empty and some entry is free. */
  lemma FindEntryExactly(md: Block, nm: Name)
    requires DirOk(md)
    ensures FindEntry(md, nm, 0) != -1 <==> nm in Names(md) || (nm == [] && HasFreeEntry(md))
  {
    hide EntryInode; hide EntryName; hide DirOk; hide HasFreeEntry; hide Names;
    var i := FindEntry(md, nm, 0);
    if i == -1 {
      FoundNowhere(md, nm);
    } else {
      FoundAt(md, nm, i);
    }
  }

  /** No file has the empty name. */
  lemma NoEmptyName(md: Block)
    requires DirOk(md)
    ensures [] !in Names(md)
  {
    hide EntryInode; hide EntryName;
  }

  /**
   Freeing an entry that is free changes nothing: its inode number and the first byte of its name are zero
   already.
  */
  lemma FreeEntryCleared(md: Block, i: nat)
    requires DirOk(md) && i < MAX_FILES && !Live(md, i)
    ensures WithoutEntry(md, i) == md
  {
    var a := ENTRY_SIZE * i;
    assert EntryName(md, i) == [];
    assert md[a + 4..a + ENTRY_SIZE][0] == md[a + 4] == 0;
  }

  /** Looks for the name, and for the last free entry on the way. */
  method FindSlot(md: Block, filename: Name) returns (found: bool, index: int)
    requires DirOk(md)
    ensures found <==> Found(md, filename)
    ensures filename != [] ==> (found <==> filename in Names(md))
    ensures !found && index == -1 ==> !HasFreeEntry(md)
    ensures !found && index != -1 ==> 0 <= index < MAX_FILES && !Live(md, index)
    ensures !found && index != -1 ==> forall k :: index < k < MAX_FILES ==> Live(md, k)
  {
    hide EntryInode; hide EntryName;
    found, index := false, -1;
    var i := 0;
    while i < MAX_FILES
      invariant 0 <= i <= MAX_FILES
      invariant forall k :: 0 <= k < i ==> EntryName(md, k) != filename
      invariant index == -1 ==> forall k :: 0 <= k < i ==> Live(md, k)
      invariant index != -1 ==> 0 <= index < MAX_FILES && !Live(md, index) && forall k :: index < k < i ==> Live(md, k)
    {
      if EntryName(md, i) == filename {
        FoundAt(md, filename, i);
        return true, index;
      }
      if EntryInode(md, i) == 0 {
        index := i;
      }
      i := i + 1;
    }
    FoundNowhere(md, filename);
  }

  /** The entry with this name, -1 if there is none; the empty name finds an entry that is free. */
  method FindFile(md: Block, filename: Name) returns (index: int)
    requires DirOk(md)
    ensures index == -1 <==> !Found(md, filename)
    ensures index != -1 ==>
              0 <= index < MAX_FILES && EntryName(md, index) == filename && (Live(md, index) <==> filename != [])
  {
    hide EntryInode; hide EntryName;
    index := -1;
    var i := 0;
    while i < MAX_FILES
      invariant 0 <= i <= MAX_FILES
      invariant forall k :: 0 <= k < i ==> EntryName(md, k) != filename
    {
      if EntryName(md, i) == filename {
        FoundAt(md, filename, i);
        return i;
      }
      i := i + 1;
    }
    FoundNowhere(md, filename);
  }

  /** The name of the live file whose inode block is fid. */
  ghost function FileName(md: Block, fid: nat): (nm: Name)
    requires IsFile(md, fid)
    ensures nm in Names(md)
  {
    var i :| 0 <= i < MAX_FILES && Live(md, i) && EntryInode(md, i) == fid;
    EntryName(md, i)
  }

  lemma FileNameUnique(md: Block, fid: nat, nm: Name)
    requires DirOk(md) && IsFile(md, fid) && nm in Names(md)
    ensures nm == FileName(md, fid) <==> EntryInode(md, NameIndex(md, nm)) == fid
  {
    hide EntryInode; hide EntryName;
    NameIndexLive(md, nm);
    NameIndexLive(md, FileName(md, fid));
    var i :| 0 <= i < MAX_FILES && Live(md, i) && EntryInode(md, i) == fid && EntryName(md, i) == FileName(md, fid);
    var k := NameIndex(md, nm);
    assert k == i <==> EntryInode(md, k) == EntryInode(md, i);
    assert k == i <==> EntryName(md, k) == EntryName(md, i);
  }

  /** The directory with a new entry. */
  function WithEntry(md: Block, i: nat, nm: Name, ino: Word): Block
    requires i < MAX_FILES && |nm| < NAME_MAX
  {
    SetEntryInode(SetEntryName(md, i, nm), i, ino)
  }

  lemma WithEntryReads(md: Block, i: nat, nm: Name, ino: Word, j: nat)
    requires i < MAX_FILES && j < MAX_FILES && ValidName(nm)
    ensures EntryName(WithEntry(md, i, nm, ino), j) == if j == i then nm else EntryName(md, j)
    ensures EntryInode(WithEntry(md, i, nm, ino), j) == if j == i then ino else EntryInode(md, j)
  {
    hide EntryName; hide EntryInode; hide SetEntryInode; hide SetEntryName;
    SetEntryNameReads(md, i, nm, j);
    SetEntryInodeReads(SetEntryName(md, i, nm), i, ino, j);
  }

  lemma WithEntryOk(md: Block, i: nat, nm: Name, ino: Word)
    requires DirOk(md) && i < MAX_FILES && !Live(md, i) && nm != [] && ValidName(nm) && nm !in Names(md) && ino != 0
    requires forall j :: 0 <= j < MAX_FILES && Live(md, j) ==> EntryInode(md, j) != ino
    ensures DirOk(WithEntry(md, i, nm, ino))
    ensures Names(WithEntry(md, i, nm, ino)) == Names(md) + {nm}
    ensures forall j :: 0 <= j < MAX_FILES && Live(WithEntry(md, i, nm, ino), j) && j != i ==> Live(md, j)
    ensures Live(WithEntry(md, i, nm, ino), i)
    ensures forall j :: 0 <= j < MAX_FILES && Live(md, j) ==> j != i && Live(WithEntry(md, i, nm, ino), j)
  {
    hide EntryName; hide EntryInode; hide SetEntryInode; hide SetEntryName; hide WithEntry;
    var md' := WithEntry(md, i, nm, ino);
    forall j | 0 <= j < MAX_FILES
      ensures EntryName(md', j) == if j == i then nm else EntryName(md, j)
      ensures EntryInode(md', j) == if j == i then ino else EntryInode(md, j)
    {
      WithEntryReads(md, i, nm, ino, j);
    }
    forall j | 0 <= j < MAX_FILES && Live(md, j)
      ensures EntryName(md, j) != nm
    {
      assert EntryName(md, j) in Names(md);
    }
    forall x ensures x in Names(md') <==> x in Names(md) + {nm} {
      if x in Names(md) {
        var j :| 0 <= j < MAX_FILES && Live(md, j) && EntryName(md, j) == x;
        assert Live(md', j) && EntryName(md', j) == x;
      }
      if x == nm {
        assert Live(md', i) && EntryName(md', i) == nm;
      }
    }
  }

  /** Directory entry i is freed. */
  function WithoutEntry(md: Block, i: nat): Block
    requires i < MAX_FILES
  {
    ClearEntryName(SetEntryInode(md, i, 0), i)
  }

  lemma WithoutEntryReads(md: Block, i: nat, j: nat)
    requires i < MAX_FILES && j < MAX_FILES
    ensures EntryName(WithoutEntry(md, i), j) == if j == i then [] else EntryName(md, j)
    ensures EntryInode(WithoutEntry(md, i), j) == if j == i then 0 else EntryInode(md, j)
  {
    hide EntryName; hide EntryInode; hide SetEntryInode; hide ClearEntryName;
    SetEntryInodeReads(md, i, 0, j);
    ClearEntryNameReads(SetEntryInode(md, i, 0), i, j);
  }

  lemma WithoutEntryOk(md: Block, i: nat)
    requires DirOk(md) && i < MAX_FILES && Live(md, i)
    ensures DirOk(WithoutEntry(md, i))
    ensures Names(WithoutEntry(md, i)) == Names(md) - {EntryName(md, i)}
    ensures !Live(WithoutEntry(md, i), i)
    ensures forall j :: 0 <= j < MAX_FILES && j != i ==> (Live(WithoutEntry(md, i), j) <==> Live(md, j))
  {
    hide EntryName; hide EntryInode; hide SetEntryInode; hide ClearEntryName; hide WithoutEntry;
    var md' := WithoutEntry(md, i);
    forall j | 0 <= j < MAX_FILES
      ensures EntryName(md', j) == if j == i then [] else EntryName(md, j)
      ensures EntryInode(md', j) == if j == i then 0 else EntryInode(md, j)
    {
      WithoutEntryReads(md, i, j);
    }
    forall x ensures x in Names(md') <==> x in Names(md) - {EntryName(md, i)} {
      if x in Names(md) - {EntryName(md, i)} {
        var j :| 0 <= j < MAX_FILES && Live(md, j) && EntryName(md, j) == x;
        assert Live(md', j) && EntryName(md', j) == x;
      }
      if x in Names(md') {
        var j :| 0 <= j < MAX_FILES && Live(md', j) && EntryName(md', j) == x;
        assert Live(md, j) && EntryName(md, j) == x && j != i;
      }
    }
  }

  // ---------------------------------------------------------------- what the directory lists

  /** The files by name, where f gives the contents behind an inode number. */
  ghost function Listing(md: Block, f: nat -> seq<Byte>): (m: map<Name, seq<Byte>>)
    ensures m.Keys == Names(md)
  {
    map nm | nm in Names(md) :: Listed(md, f, nm)
  }

  ghost function Listed(md: Block, f: nat -> seq<Byte>, nm: Name): seq<Byte>
    requires nm in Names(md)
  {
    f(EntryInode(md, NameIndex(md, nm)))
  }

  lemma ListingOf(md: Block, f: nat -> seq<Byte>, nm: Name)
    requires nm in Names(md)
    ensures nm in Listing(md, f) && Listing(md, f)[nm] == f(EntryInode(md, NameIndex(md, nm)))
  {
    hide Names;
  }

  /** What the listing says, entry by entry. */
  lemma ListingAt(md: Block, f: nat -> seq<Byte>, i: nat)
    requires DirOk(md) && i < MAX_FILES && Live(md, i)
    ensures EntryName(md, i) in Listing(md, f)
    ensures Listing(md, f)[EntryName(md, i)] == f(EntryInode(md, i))
  {
    hide EntryInode; hide EntryName; hide Listing;
    var nm := EntryName(md, i);
    assert nm in Names(md);
    ListingOf(md, f, nm);
    var k := NameIndex(md, nm);
    assert k == i;
  }

  lemma ListingSame(md: Block, f: nat -> seq<Byte>, g: nat -> seq<Byte>)
    requires DirOk(md)
    requires forall i :: 0 <= i < MAX_FILES && Live(md, i) ==> g(EntryInode(md, i)) == f(EntryInode(md, i))
    ensures Listing(md, g) == Listing(md, f)
  {
    hide EntryInode; hide EntryName; hide Listing; hide DirOk; hide Live; hide Names; hide FindEntry;
    forall nm | nm in Listing(md, f)
      ensures nm in Listing(md, g) && Listing(md, g)[nm] == Listing(md, f)[nm]
    {
      NameIndexLive(md, nm);
      ListingOf(md, f, nm);
      ListingOf(md, g, nm);
    }
  }

  /** One file changes its contents. */
  lemma ListingUpdate(md: Block, f: nat -> seq<Byte>, g: nat -> seq<Byte>, fid: nat)
    requires DirOk(md) && IsFile(md, fid)
    requires forall i :: 0 <= i < MAX_FILES && Live(md, i) && EntryInode(md, i) != fid ==>
               g(EntryInode(md, i)) == f(EntryInode(md, i))
    ensures Listing(md, g) == Listing(md, f)[FileName(md, fid) := g(fid)]
  {
    hide EntryInode; hide EntryName; hide Listing; hide DirOk; hide Live; hide Names; hide FindEntry; hide IsFile;
    hide FileName;
    forall nm | nm in Names(md)
      ensures Listing(md, g)[nm] == if nm == FileName(md, fid) then g(fid) else Listing(md, f)[nm]
    {
      NameIndexLive(md, nm);
      FileNameUnique(md, fid, nm);
      ListingOf(md, f, nm);
      ListingOf(md, g, nm);
    }
    assert Listing(md, f)[FileName(md, fid) := g(fid)].Keys == Names(md) + {FileName(md, fid)};
  }

  /** An entry is added. */
  lemma ListingAdd(md: Block, f: nat -> seq<Byte>, g: nat -> seq<Byte>, i: nat, nm: Name, ino: Word)
    requires DirOk(md) && i < MAX_FILES && !Live(md, i) && nm != [] && ValidName(nm) && nm !in Names(md) && ino != 0
    requires forall j :: 0 <= j < MAX_FILES && Live(md, j) ==> EntryInode(md, j) != ino
    requires forall j :: 0 <= j < MAX_FILES && Live(md, j) ==> g(EntryInode(md, j)) == f(EntryInode(md, j))
    ensures Listing(WithEntry(md, i, nm, ino), g) == Listing(md, f)[nm := g(ino)]
  {
    hide EntryInode; hide EntryName; hide WithEntry; hide DirOk; hide Names; hide Listing; hide Live;
    var md' := WithEntry(md, i, nm, ino);
    WithEntryOk(md, i, nm, ino);
    forall x | x in Names(md')
      ensures Listing(md', g)[x] == if x == nm then g(ino) else Listing(md, f)[x]
    {
      AddedName(md, f, g, i, nm, ino, x);
    }
    assert Listing(md, f)[nm := g(ino)].Keys == Names(md) + {nm};
  }

  lemma AddedName(md: Block, f: nat -> seq<Byte>, g: nat -> seq<Byte>, i: nat, nm: Name, ino: Word, x: Name)
    requires DirOk(md) && i < MAX_FILES && !Live(md, i) && nm != [] && ValidName(nm) && nm !in Names(md) && ino != 0
    requires forall j :: 0 <= j < MAX_FILES && Live(md, j) ==> EntryInode(md, j) != ino
    requires forall j :: 0 <= j < MAX_FILES && Live(md, j) ==> g(EntryInode(md, j)) == f(EntryInode(md, j))
    requires x in Names(WithEntry(md, i, nm, ino))
    ensures Listing(WithEntry(md, i, nm, ino), g)[x] == if x == nm then g(ino)
              else if x in Listing(md, f) then Listing(md, f)[x] else []
  {
    hide EntryInode; hide EntryName; hide WithEntry; hide Names; hide Listing; hide FindEntry;
    var md' := WithEntry(md, i, nm, ino);
    WithEntryOk(md, i, nm, ino);
    NameIndexLive(md', x);
    var k := NameIndex(md', x);
    ListingAt(md', g, k);
    WithEntryReads(md, i, nm, ino, k);
    WithEntryReads(md, i, nm, ino, i);
    if k != i {
      ListingAt(md, f, k);
    }
  }

  /** An entry is removed. */
  lemma ListingRemove(md: Block, f: nat -> seq<Byte>, g: nat -> seq<Byte>, i: nat)
    requires DirOk(md) && i < MAX_FILES && Live(md, i)
    requires forall j :: 0 <= j < MAX_FILES && j != i && Live(md, j) ==> g(EntryInode(md, j)) == f(EntryInode(md, j))
    ensures Listing(WithoutEntry(md, i), g) == Listing(md, f) - {EntryName(md, i)}
  {
    hide EntryInode; hide EntryName; hide WithoutEntry; hide DirOk; hide Names; hide Listing; hide Live;
    var md' := WithoutEntry(md, i);
    WithoutEntryOk(md, i);
    forall x | x in Names(md')
      ensures Listing(md', g)[x] == Listing(md, f)[x]
    {
      RemovedName(md, f, g, i, x);
    }
    assert Listing(md', g).Keys == (Listing(md, f) - {EntryName(md, i)}).Keys;
  }

  lemma RemovedName(md: Block, f: nat -> seq<Byte>, g: nat -> seq<Byte>, i: nat, x: Name)
    requires DirOk(md) && i < MAX_FILES && Live(md, i) && x in Names(WithoutEntry(md, i))
    requires forall j :: 0 <= j < MAX_FILES && j != i && Live(md, j) ==> g(EntryInode(md, j)) == f(EntryInode(md, j))
    ensures x in Listing(md, f) && Listing(WithoutEntry(md, i), g)[x] == Listing(md, f)[x]
  {
    hide EntryInode; hide EntryName; hide WithoutEntry; hide Names; hide Listing; hide FindEntry;
    var md' := WithoutEntry(md, i);
    WithoutEntryOk(md, i);
    NameIndexLive(md', x);
    var k := NameIndex(md', x);
    ListingAt(md', g, k);
    WithoutEntryReads(md, i, k);
    ListingAt(md, f, k);
  }
}
