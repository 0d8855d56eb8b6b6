/** The mount table and the open file table of the virtual filesystem. */
module VfsTables {
  const MAX_FILESYSTEMS := 8
  const MAX_OPEN_FILES := 512
  const NAME_LENGTH := 16

  const VFS_OK := 0
  const VFS_ERROR := -2
  const VFS_NOT_FOUND := -5
  const VFS_NO_SUCH_FS := -6
  const VFS_LIMIT := -7
  const VFS_IN_USE := -8

  /** A mounted filesystem driver instance; 0 stands for NULL. */
  type Fs = nat

  /** A row keeps its mountpoint name after the filesystem is unmounted. */
  datatype Row = Row(name: string, fs: Fs)

  // ---------------------------------------------------------------- lookups

  /** The first row with the given name, used or not; |rows| if there is none. */
  function RowOf(rows: seq<Row>, name: string): (r: nat)
    ensures r <= |rows| && (r < |rows| ==> rows[r].name == name)
    ensures forall i :: 0 <= i < r ==> rows[i].name != name
  {
    if rows == [] || rows[0].name == name then 0 else 1 + RowOf(rows[1..], name)
  }

  function FreeRow(rows: seq<Row>): (r: nat)
    ensures r <= |rows| && (r < |rows| ==> rows[r].fs == 0)
    ensures forall i :: 0 <= i < r ==> rows[i].fs != 0
  {
    if rows == [] || rows[0].fs == 0 then 0 else 1 + FreeRow(rows[1..])
  }

  function FreeFile(files: seq<Fs>): (r: nat)
    ensures r <= |files| && (r < |files| ==> files[r] == 0)
    ensures forall i :: 0 <= i < r ==> files[i] != 0
  {
    if files == [] || files[0] == 0 then 0 else 1 + FreeFile(files[1..])
  }

  /** The filesystem found under a name, NULL if the row is not in use or does not exist. */
  function Lookup(rows: seq<Row>, name: string): Fs {
    var r := RowOf(rows, name);
    if r < |rows| then rows[r].fs else 0
  }

  // ---------------------------------------------------------------- the critical sections as functions

  function MountCode(rows: seq<Row>, name: string): int {
    if FreeRow(rows) == |rows| then VFS_LIMIT
    else if RowOf(rows, name) < |rows| then VFS_ERROR
    else VFS_OK
  }

  /** A row has room for 15 characters of the name. */
  function Stored(name: string): string {
    if |name| < NAME_LENGTH then name else name[..NAME_LENGTH - 1]
  }

  function MountRows(rows: seq<Row>, fs: Fs, name: string): (r: seq<Row>)
    ensures |r| == |rows|
  {
    if MountCode(rows, name) == VFS_OK then rows[FreeRow(rows) := Row(Stored(name), fs)] else rows
  }

  /** The row vfs_unmount works on, |rows| if it finds nothing mounted under the name. */
  function UnmountTarget(rows: seq<Row>, name: string): (r: nat)
    ensures r <= |rows| && (r < |rows| ==> rows[r].fs != 0)
  {
    var r := RowOf(rows, name);
    if r < |rows| && rows[r].fs != 0 then r else |rows|
  }

  function Cleared(rows: seq<Row>): (r: seq<Row>)
    ensures |r| == |rows| && forall i :: 0 <= i < |rows| ==> r[i] == Row(rows[i].name, 0)
  {
    seq(|rows|, i requires 0 <= i < |rows| => Row(rows[i].name, 0))
  }

  // ---------------------------------------------------------------- what the tables keep

  ghost predicate Mounted(rows: seq<Row>, fs: Fs) {
    exists i :: 0 <= i < |rows| && rows[i].fs == fs
  }

  /** No filesystem is mounted twice. */
  ghost predicate MountsOk(rows: seq<Row>) {
    forall i, j :: 0 <= i < j < |rows| && rows[i].fs == rows[j].fs ==> rows[i].fs == 0
  }

  /** No name is in two rows, and what is mounted has one. */
  ghost predicate NamesOk(rows: seq<Row>) {
    && (forall i, j :: 0 <= i < j < |rows| && rows[i].name == rows[j].name ==> rows[i].name == "")
    && (forall i :: 0 <= i < |rows| && rows[i].fs != 0 ==> rows[i].name != "")
    && (forall i :: 0 <= i < |rows| ==> |rows[i].name| < NAME_LENGTH)
  }

  /** Mounting a new filesystem adds just that one. */
  lemma MountAddsOne(rows: seq<Row>, fs: Fs, name: string)
    requires MountsOk(rows) && fs != 0 && !Mounted(rows, fs)
    ensures MountsOk(MountRows(rows, fs, name))
    ensures forall g: Fs :: g != 0 ==>
              (Mounted(MountRows(rows, fs, name), g) <==>
                Mounted(rows, g) || (g == fs && MountCode(rows, name) == VFS_OK))
  {
    if MountCode(rows, name) == VFS_OK {
      var r := FreeRow(rows);
      var m := MountRows(rows, fs, name);
      assert m[r].fs == fs;
      forall g: Fs | g != 0 && Mounted(rows, g)
        ensures Mounted(m, g)
      {
        var i :| 0 <= i < |rows| && rows[i].fs == g;
        assert m[i].fs == g;
      }
    }
  }

  /** Names stay unique exactly if no other row bears the stored name; the code compares the whole one. */
  lemma NamesStayUnique(rows: seq<Row>, fs: Fs, name: string)
    requires NamesOk(rows) && name != "" && fs != 0 && MountCode(rows, name) == VFS_OK
    ensures NamesOk(MountRows(rows, fs, name)) <==> RowOf(rows, Stored(name)) in {|rows|, FreeRow(rows)}
    ensures |name| < NAME_LENGTH ==> NamesOk(MountRows(rows, fs, name))
  {
    hide RowOf; hide FreeRow;
    var r, m, c := FreeRow(rows), MountRows(rows, fs, name), RowOf(rows, Stored(name));
    assert m[r] == Row(Stored(name), fs);
    if c < |rows| && c != r {
      assert m[c].name == m[r].name != "";
    } else {
      forall i | 0 <= i < |rows| && i != r
        ensures rows[i].name != Stored(name)
      {
      }
    }
  }

  lemma LongNameNotStored(rows: seq<Row>, name: string)
    requires NamesOk(rows) && |name| >= NAME_LENGTH
    ensures RowOf(rows, name) == |rows|
  {
    hide RowOf;
  }

  /** A new mount is found under its name exactly if the name was stored whole. */
  lemma MountIsFound(rows: seq<Row>, fs: Fs, name: string)
    requires NamesOk(rows) && fs != 0 && MountCode(rows, name) == VFS_OK
    ensures Lookup(MountRows(rows, fs, name), name) == fs <==> |name| < NAME_LENGTH
  {
    hide RowOf; hide FreeRow;
    var m, r := MountRows(rows, fs, name), FreeRow(rows);
    assert m[r] == Row(Stored(name), fs);
  }

  /** So a longer name can be mounted again at once, and two rows then bear the same stored name. */
  lemma LongNameMountsTwice(rows: seq<Row>, fs: Fs, gs: Fs, name: string)
    requires NamesOk(rows) && fs != 0 && gs != 0 && |name| >= NAME_LENGTH
    requires FreeRow(rows) < |rows| && FreeRow(MountRows(rows, fs, name)) < |rows|
    ensures MountCode(rows, name) == VFS_OK && MountCode(MountRows(rows, fs, name), name) == VFS_OK
    ensures !NamesOk(MountRows(MountRows(rows, fs, name), gs, name))
  {
    hide RowOf; hide FreeRow;
    LongNameNotStored(rows, name);
    var m, r := MountRows(rows, fs, name), FreeRow(rows);
    assert m[r] == Row(Stored(name), fs);
    var m2, q := MountRows(m, gs, name), FreeRow(m);
    assert m2[q] == Row(Stored(name), gs) && q != r && m2[r] == m[r];
  }

  /** What is mounted is found under its name, until it is unmounted. */
  lemma MountedIsFound(rows: seq<Row>, i: nat)
    requires NamesOk(rows) && i < |rows| && rows[i].fs != 0
    ensures Lookup(rows, rows[i].name) == rows[i].fs
  {
    assert RowOf(rows, rows[i].name) <= i;
  }

  lemma LookupIsMounted(rows: seq<Row>, name: string)
    ensures Lookup(rows, name) != 0 ==> Mounted(rows, Lookup(rows, name))
  {
  }

  lemma UnmountKeepsRows(rows: seq<Row>, r: nat)
    requires MountsOk(rows) && r < |rows| && rows[r].fs != 0
    ensures MountsOk(rows[r := Row(rows[r].name, 0)]) && (NamesOk(rows) ==> NamesOk(rows[r := Row(rows[r].name, 0)]))
    ensures forall g: Fs :: g != 0 ==>
              (Mounted(rows[r := Row(rows[r].name, 0)], g) <==> Mounted(rows, g) && g != rows[r].fs)
  {
    var u := rows[r := Row(rows[r].name, 0)];
    forall g: Fs | g != 0 && Mounted(rows, g) && g != rows[r].fs
      ensures Mounted(u, g)
    {
      var i :| 0 <= i < |rows| && rows[i].fs == g;
      assert u[i].fs == g;
    }
  }

  /**
   mount succeeds exactly if a row is free and no row bears the name. The second part is about
   all rows: one whose filesystem was unmounted still counts.
  */
  lemma MountSucceedsExactly(rows: seq<Row>, name: string)
    ensures MountCode(rows, name) == VFS_OK <==>
              (exists i :: 0 <= i < |rows| && rows[i].fs == 0) && forall i :: 0 <= i < |rows| ==> rows[i].name != name
  {
  }

  /** What a mount answers and does to the rows. */
  ghost predicate MountedAs(rows: seq<Row>, rows': seq<Row>, fs: Fs, name: string, code: int) {
    if forall i :: 0 <= i < |rows| ==> rows[i].fs != 0 then code == VFS_LIMIT && rows' == rows
    else if exists i :: 0 <= i < |rows| && rows[i].name == name then code == VFS_ERROR && rows' == rows
    else
      && code == VFS_OK
      && exists r :: 0 <= r < |rows| && rows[r].fs == 0 && (forall i :: 0 <= i < r ==> rows[i].fs != 0)
                     && rows' == rows[r := Row(if |name| < 16 then name else name[..15], fs)]
  }

  lemma MountOutcome(rows: seq<Row>, fs: Fs, name: string)
    ensures MountedAs(rows, MountRows(rows, fs, name), fs, name, MountCode(rows, name))
  {
    hide RowOf; hide FreeRow;
    var r := FreeRow(rows);
    if MountCode(rows, name) == VFS_OK {
      assert rows[r].fs == 0;
      assert MountRows(rows, fs, name) == rows[r := Row(if |name| < 16 then name else name[..15], fs)];
    }
  }

  /** So a name that was unmounted cannot be mounted again, although it is not in use. */
  lemma RemountRefused(rows: seq<Row>, name: string, fs: Fs)
    requires UnmountTarget(rows, name) < |rows|
    ensures var r := UnmountTarget(rows, name);
            var u := rows[r := Row(rows[r].name, 0)];
            && Lookup(u, name) == 0 && MountCode(u, name) == VFS_ERROR && MountRows(u, fs, name) == u
  {
    var r := UnmountTarget(rows, name);
    var u := rows[r := Row(rows[r].name, 0)];
    assert u[r].name == name && u[r].fs == 0;
    assert RowOf(u, name) == r;
  }

  /** The tables themselves, with the searches the kernel does on them. */
  class Tables {
    var rows: seq<Row>
    var files: seq<Fs>

    ghost predicate Valid()
      reads this
    {
      |rows| == MAX_FILESYSTEMS && |files| == MAX_OPEN_FILES
    }

    /** vfs_init. */
    constructor ()
      ensures Valid() && MountsOk(rows) && NamesOk(rows) && forall i :: 0 <= i < MAX_OPEN_FILES ==> files[i] == 0
      ensures forall i :: 0 <= i < MAX_FILESYSTEMS ==> rows[i].fs == 0
    {
      rows := seq(MAX_FILESYSTEMS, i => Row("", 0));
      files := seq(MAX_OPEN_FILES, i => 0);
    }

    /**
     vfs_mount between taking and releasing the table: VFS_LIMIT if no row is free, VFS_ERROR if one is but the
     name is in some row; otherwise the first free row takes the filesystem, under the name cut to 15 characters.
    */
    method Mount(fs: Fs, name: string) returns (code: int)
      requires Valid()
      modifies this`rows
      ensures Valid() && code == MountCode(old(rows), name) && rows == MountRows(old(rows), fs, name)
      ensures MountedAs(old(rows), rows, fs, name, code)
    {
      MountOutcome(rows, fs, name);
      var i := 0;
      while i < MAX_FILESYSTEMS
        invariant 0 <= i <= MAX_FILESYSTEMS && Valid() && rows == old(rows)
        invariant forall j :: 0 <= j < i ==> rows[j].fs != 0
      {
        if rows[i].fs == 0 {
          break;
        }
        i := i + 1;
      }
      var row := i;
      if row >= MAX_FILESYSTEMS {
        return VFS_LIMIT;
      }
      i := 0;
      while i < MAX_FILESYSTEMS
        invariant 0 <= i <= MAX_FILESYSTEMS && Valid() && rows == old(rows)
        invariant forall j :: 0 <= j < i ==> rows[j].name != name
      {
        if rows[i].name == name {
          return VFS_ERROR;
        }
        i := i + 1;
      }
      rows := rows[row := Row(Stored(name), fs)];
      return VFS_OK;
    }

    /** The row something is mounted on under the name, or -1. */
    method FindMounted(name: string) returns (row: int)
      requires Valid()
      ensures row == if UnmountTarget(rows, name) < |rows| then UnmountTarget(rows, name) else -1
      ensures row == -1 || (0 <= row < |rows| && rows[row].name == name && rows[row].fs != 0
                            && forall i :: 0 <= i < row ==> rows[i].name != name)
      ensures row == -1 ==> forall i :: 0 <= i < |rows| && rows[i].name == name && rows[i].fs != 0 ==>
                exists j :: 0 <= j < i && rows[j].name == name && rows[j].fs == 0
    {
      var i := 0;
      while i < MAX_FILESYSTEMS
        invariant 0 <= i <= MAX_FILESYSTEMS
        invariant forall j :: 0 <= j < i ==> rows[j].name != name
      {
        if rows[i].name == name {
          return if rows[i].fs == 0 then -1 else i;
        }
        i := i + 1;
      }
      return -1;
    }

    /** Unmounts row if no open file refers to its filesystem. */
    method Unmount(row: nat) returns (code: int)
      requires Valid() && row < MAX_FILESYSTEMS && rows[row].fs != 0
      modifies this`rows
      ensures Valid() && code == if old(rows)[row].fs in files then VFS_IN_USE else VFS_OK
      ensures rows == if code == VFS_OK then old(rows)[row := Row(old(rows)[row].name, 0)] else old(rows)
    {
      var i := 0;
      while i < MAX_OPEN_FILES
        invariant 0 <= i <= MAX_OPEN_FILES && rows == old(rows)
        invariant forall j :: 0 <= j < i ==> files[j] != rows[row].fs
      {
        if files[i] == rows[row].fs {
          return VFS_IN_USE;
        }
        i := i + 1;
      }
      rows := rows[row := Row(rows[row].name, 0)];
      return VFS_OK;
    }

    /** Reserves an open file entry for a file on the named filesystem. */
    method Reserve(name: string) returns (file: int)
      requires Valid()
      modifies this`files
      ensures Valid()
      ensures file == if FreeFile(old(files)) == MAX_OPEN_FILES then VFS_LIMIT
                      else if Lookup(rows, name) == 0 then VFS_NO_SUCH_FS else FreeFile(old(files))
      ensures files == if file < 0 then old(files) else old(files)[file := Lookup(rows, name)]
    {
      var i := 0;
      while i < MAX_OPEN_FILES
        invariant 0 <= i <= MAX_OPEN_FILES && Valid() && files == old(files)
        invariant forall j :: 0 <= j < i ==> files[j] != 0
      {
        if files[i] == 0 {
          break;
        }
        i := i + 1;
      }
      if i >= MAX_OPEN_FILES {
        return VFS_LIMIT;
      }
      var row := FindMounted(name);
      if row < 0 {
        return VFS_NO_SUCH_FS;
      }
      files := files[i := rows[row].fs];
      return i;
    }

    /** vfs_deinit once all operations are over. */
    method UnmountAll()
      requires Valid()
      modifies this`rows
      ensures Valid() && rows == Cleared(old(rows))
    {
      var row := 0;
      while row < MAX_FILESYSTEMS
        invariant 0 <= row <= MAX_FILESYSTEMS && Valid()
        invariant forall i :: 0 <= i < MAX_FILESYSTEMS ==>
                    rows[i] == if i < row then Row(old(rows)[i].name, 0) else old(rows)[i]
      {
        if rows[row].fs != 0 {
          rows := rows[row := Row(rows[row].name, 0)];
        }
        row := row + 1;
      }
    }
  }

  // ---------------------------------------------------------------- counting operations

  /** Whether operations may begin, how many are in progress, and the count of the shutdown's semaphore. */
  datatype Gate = Gate(usable: bool, ops: int, unmountSem: int)

  /** vfs_start_op lets an operation in unless the system is shutting down. */
  function Entered(g: Gate): Gate {
    if g.usable then g.(ops := g.ops + 1) else g
  }

  /** vfs_end_op; the last operation to leave after the shutdown began signals it. */
  function Left(g: Gate): Gate {
    g.(ops := g.ops - 1, unmountSem := if !g.usable && g.ops == 1 then g.unmountSem + 1 else g.unmountSem)
  }
}
