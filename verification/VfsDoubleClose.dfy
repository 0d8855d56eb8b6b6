/**
 A file closed twice. Nothing ties a file number to the thread that opened it: once another open
 has reserved the entry again, the second close takes it from that open, and an unmount is accepted.
*/
module VfsDoubleClose {
  import opened VfsTables
  import opened VfsProtocol
  import opened VfsRaces
  import opened VfsRuns

  lemma MountRun(s: Vfs, m: Vfs, t: nat, fs: Fs, name: string) returns (s': Vfs)
    requires Leads(s, m) && Quiet(m) && t < |m.pcs| && m.pcs[t] == Idle && Proper(m, Mount(fs, name))
    ensures Leads(s, s') && s' == m.(rows := MountRows(m.rows, fs, name), seen := m.seen + {fs})
  {
    hide MountRows; hide Leads;
    s' := CallBegins(s, m, t, Mount(fs, name));
    s' := Then(s, s', t, Go(true));
    s' := Then(s, s', t, Go(true));
    s' := CallEnds(s, s', t, -1);
    assert s'.pcs == m.pcs;
  }

  /** An open up to where it calls the driver. */
  lemma OpenRun(s: Vfs, m: Vfs, t: nat, name: string) returns (s': Vfs)
    requires Leads(s, m) && Quiet(m) && t < |m.pcs| && m.pcs[t] == Idle
    requires FreeFile(m.files) < |m.files| && Lookup(m.rows, name) != 0
    ensures var f, fs := FreeFile(m.files), Lookup(m.rows, name);
            Leads(s, s') && s' == To(m, t, Driver(f, fs)).(files := m.files[f := fs], ops := m.ops + 1)
  {
    hide FreeFile; hide Lookup; hide Leads;
    s' := CallBegins(s, m, t, Open(name));
    s' := Then(s, s', t, Go(true));
    s' := Then(s, s', t, Go(true));
    s' := Then(s, s', t, Go(true));
    assert s'.pcs == m.pcs[t := Driver(FreeFile(m.files), Lookup(m.rows, name))];
  }

  lemma CloseRun(s: Vfs, m: Vfs, t: nat, f: nat) returns (s': Vfs)
    requires Leads(s, m) && Quiet(m) && t < |m.pcs| && m.pcs[t] == Idle && IsOpen(m, f)
    ensures Leads(s, s') && s' == m.(files := m.files[f := 0])
  {
    hide Leads;
    s' := CallBegins(s, m, t, Close(f));
    s' := Then(s, s', t, Go(true));
    s' := Then(s, s', t, Go(true));
    s' := CallEnds(s, s', t, -1);
    assert s'.pcs == m.pcs;
  }

  lemma UnmountRun(s: Vfs, m: Vfs, t: nat, name: string) returns (s': Vfs)
    requires Leads(s, m) && Quiet(m) && t < |m.pcs| && m.pcs[t] == Idle
    requires Lookup(m.rows, name) != 0 && Lookup(m.rows, name) !in m.files
    ensures var r := RowOf(m.rows, name);
            && r < |m.rows| && Leads(s, s')
            && s' == m.(rows := m.rows[r := Row(m.rows[r].name, 0)], gone := m.gone + {Lookup(m.rows, name)})
  {
    hide RowOf; hide Leads;
    s' := CallBegins(s, m, t, Unmount(name));
    s' := Then(s, s', t, Go(true));
    s' := Then(s, s', t, Go(true));
    s' := Then(s, s', t, Go(true));
    s' := CallEnds(s, s', t, -1);
    assert s'.pcs == m.pcs;
  }

  // ---------------------------------------------------------------- the run

  /**
   One thread closes f; the open of another finds entry f free and reserves it; the first closes
   f once more and unmounts. No step is refused, no assertion fails, and the open then calls the
   driver of a filesystem that is no longer mounted.
  */
  lemma ClosedTwice(s: Vfs, m: Vfs, a: nat, b: nat, f: nat, name: string) returns (s': Vfs)
    requires Leads(s, m) && Quiet(m) && MountsOk(m.rows) && a != b && a < |m.pcs| && b < |m.pcs|
             && m.pcs[a] == m.pcs[b] == Idle
    requires IsOpen(m, f) && Lookup(m.rows, name) == m.files[f] && m.files[f] !in m.files[f := 0]
    requires FreeFile(m.files[f := 0]) == f
    ensures Leads(s, s') && Quiet(s') && Shape(s') && b < |s'.pcs|
    ensures Calls(s', b) == m.files[f] && !Mounted(s'.rows, Calls(s', b))
  {
    hide FreeFile; hide RowOf;
    var fs := m.files[f];
    s' := CloseRun(s, m, a, f);
    s' := OpenRun(s, s', b, name);
    s' := CloseRun(s, s', a, f);
    assert s'.files == m.files[f := 0];
    s' := UnmountRun(s, s', a, name);
    UnmountKeepsRows(m.rows, RowOf(m.rows, name));
    assert s'.pcs[b] == Driver(f, fs);
  }

  /** It begins at the start: one thread mounts and opens a file, and then the calls above. */
  lemma DriverCalledUnmounted(n: nat, fs: Fs, name: string) returns (s': Vfs)
    requires n >= 2 && fs != 0 && name != "" && |name| < NAME_LENGTH
    ensures Leads(Start(n), s') && Shape(s') && !s'.panicked && 1 < |s'.pcs| && !CallsMounted(s')
    ensures Calls(s', 1) == fs && !Mounted(s'.rows, fs)
  {
    var s := Start(n);
    Stays(s);
    StartTables(n, fs, name);
    s' := MountRun(s, s, 0, fs, name);
    s' := OpenRun(s, s', 0, name);
    s' := Then(s, s', 0, Go(true));
    s' := CallEnds(s, s', 0, 0);
    s' := ClosedTwice(s, s', 0, 1, 0, name);
  }

  lemma StartTables(n: nat, fs: Fs, name: string)
    requires n >= 2 && fs != 0 && name != "" && |name| < NAME_LENGTH
    ensures var s := Start(n); var rows := MountRows(s.rows, fs, name);
            && Quiet(s) && Proper(s, Mount(fs, name)) && s.pcs[0] == s.pcs[1] == Idle
            && Lookup(rows, name) == fs && MountsOk(rows)
            && FreeFile(s.files) == 0 && FreeFile(s.files[0 := fs][0 := 0]) == 0 && fs !in s.files[0 := fs][0 := 0]
  {
    var s := Start(n);
    MountIsFound(s.rows, fs, name);
    MountAddsOne(s.rows, fs, name);
  }
}
