/**
 Calls against unmounting. An open, read or write takes the filesystem from its entry and then
 calls the driver with no table held. When that filesystem can be gone by then, exactly, and a
 run in which it is.
*/
module VfsRaces {
  import opened VfsTables
  import opened VfsProtocol

  // ---------------------------------------------------------------- events of interest

  /** The step clears entry f: a close of it, or an open that gives up the entry it reserved. */
  predicate Releases(s: Vfs, e: Event, f: nat) {
    && e.t < |s.pcs| && e.act.Go? && f < |s.files|
    && (s.pcs[e.t] == Undoing(f) || (s.pcs[e.t].HasFiles? && s.pcs[e.t].op == Close(f) && s.files[f] != 0))
  }

  /** The step is an unmount of fs that is accepted. */
  predicate Unmounts(s: Vfs, e: Event, fs: Fs) {
    && e.t < |s.pcs| && e.act.Go? && s.pcs[e.t].HasBoth? && s.pcs[e.t].op.Unmount?
    && s.pcs[e.t].row < |s.rows| && s.rows[s.pcs[e.t].row].fs == fs && fs !in s.files
  }

  /** The thread is on its way to the driver of fs, which it found in entry f. */
  predicate Heads(p: Pc, f: nat, fs: Fs) {
    p == Driver(f, fs) || p == Using(f, fs)
  }

  // ---------------------------------------------------------------- one step

  /** While some call is in progress the mount table loses fs exactly to an accepted unmount. */
  lemma LostExactly(s: Vfs, e: Event, u: nat, fs: Fs)
    requires Inv(s) && Enabled(s, e.t, e.act) && u < |s.pcs| && Counted(s.pcs[u]) && u != e.t && fs != 0
    requires Mounted(s.rows, fs)
    ensures !Mounted(Apply(s, e.t, e.act).rows, fs) <==> Unmounts(s, e, fs)
  {
    hide LocksOk; hide ShutdownOk; hide LocalsOk; hide PlansOk; hide FilesOk; hide RowOf; hide FreeRow; hide FreeFile;
    hide Mounted; hide MountRows; hide Cleared; hide Lookup;
    At(s, u);
    At(s, e.t);
    var p := s.pcs[e.t];
    if e.act.Go? && p.HasTable? && p.op.Mount? {
      NewIsNotMounted(s, e.t);
      MountAddsOne(s.rows, p.op.fs, p.op.name);
    }
    if e.act.Go? && p.HasBoth? && p.op.Unmount? && s.rows[p.row].fs !in s.files {
      UnmountKeepsRows(s.rows, p.row);
    }
  }

  lemma NewIsNotMounted(s: Vfs, t: nat)
    requires Inv(s) && t < |s.pcs| && s.pcs[t].HasTable? && s.pcs[t].op.Mount?
    ensures s.pcs[t].op.fs != 0 && !Mounted(s.rows, s.pcs[t].op.fs)
  {
    hide LocksOk; hide ShutdownOk; hide LocalsOk; hide GoneOk; hide FilesOk; hide Mounted;
    assert PlanOk(s.pcs[t], s.rows) && Carried(s.pcs[t]) == s.pcs[t].op.fs;
    assert New(Carried(s.pcs[t]), s);
  }

  /** What was unmounted stays so. */
  lemma GoneStays(s: Vfs, e: Event, fs: Fs)
    requires Inv(s) && Enabled(s, e.t, e.act) && fs in s.gone
    ensures fs in Apply(s, e.t, e.act).gone && !Mounted(Apply(s, e.t, e.act).rows, fs)
  {
    InvStep(s, e.t, e.act);
    GoneGrows(s, e);
    GoneNotMounted(Apply(s, e.t, e.act), fs);
  }

  lemma GoneGrows(s: Vfs, e: Event)
    requires Inv(s) && Enabled(s, e.t, e.act)
    ensures s.gone <= Apply(s, e.t, e.act).gone
  {
    hide Apply; hide Enabled; hide Inv;
    StepKept(s, e.t, e.act);
  }

  lemma GoneNotMounted(s: Vfs, fs: Fs)
    requires Inv(s) && fs in s.gone
    ensures !Mounted(s.rows, fs)
  {
    hide LocksOk; hide ShutdownOk; hide LocalsOk; hide PlansOk; hide FilesOk; hide Mounted;
  }

  /** An entry in use changes only by being released. */
  lemma EntryStep(s: Vfs, e: Event, f: nat)
    requires Enabled(s, e.t, e.act) && f < MAX_OPEN_FILES && s.files[f] != 0 && !Releases(s, e, f)
    ensures |Apply(s, e.t, e.act).files| == MAX_OPEN_FILES && Apply(s, e.t, e.act).files[f] == s.files[f]
  {
    hide WithTable; hide Enter; hide Leave; hide FirstLock; hide HaltStep; hide CanGo; hide Lookup;
  }

  lemma OthersStay(s: Vfs, e: Event, u: nat)
    requires Inv(s) && Enabled(s, e.t, e.act) && u < |s.pcs|
    ensures |Apply(s, e.t, e.act).pcs| == |s.pcs| && (u != e.t ==> Apply(s, e.t, e.act).pcs[u] == s.pcs[u])
  {
    hide Apply; hide Enabled; hide Inv;
    StepKept(s, e.t, e.act);
  }

  // ---------------------------------------------------------------- one call against the others

  /** Between the reading of entry f and the driver call, entry f was released and later fs unmounted. */
  ghost predicate Overtaken(ss: seq<Vfs>, es: seq<Event>, f: nat, fs: Fs)
    requires |ss| == |es| + 1
  {
    exists m, k :: 0 <= m < k < |es| && Releases(ss[m], es[m], f) && Unmounts(ss[k], es[k], fs)
  }

  /** The steps so far keep the invariant, and the call waiting to reach its driver. */
  lemma {:induction false} CallWaits(ss: seq<Vfs>, es: seq<Event>, u: nat)
    requires Path(ss, es) && Inv(ss[0]) && u < |ss[0].pcs|
    requires forall i {:trigger es[i]} :: 0 <= i < |es| ==> es[i].t != u
    ensures Inv(ss[|es|]) && u < |ss[|es|].pcs| && ss[|es|].pcs[u] == ss[0].pcs[u]
  {
    hide Apply; hide Enabled; hide Inv;
    if es != [] {
      PathPrefix(ss, es);
      CallWaits(ss[..|es|], es[..|es| - 1], u);
      assert es[|es| - 1].t != u;
      OthersStay(ss[|es| - 1], es[|es| - 1], u);
      InvStep(ss[|es| - 1], es[|es| - 1].t, es[|es| - 1].act);
    }
  }

  /** An entry that no longer holds fs was released on the way. */
  lemma {:induction false} EntryReleased(ss: seq<Vfs>, es: seq<Event>, f: nat, fs: Fs) returns (m: nat)
    requires Path(ss, es) && Inv(ss[0]) && f < MAX_OPEN_FILES && fs != 0
    requires |ss[0].files| == MAX_OPEN_FILES && ss[0].files[f] == fs && fs !in ss[|es|].files
    ensures m < |es| && Releases(ss[m], es[m], f)
  {
    hide Apply; hide Enabled; hide Inv; hide Releases;
    m := 0;
    if es != [] {
      assert es[0] in es;
      if !Releases(ss[0], es[0], f) {
        PathTail(ss, es);
        InvShape(ss[0]);
        EntryStep(ss[0], es[0], f);
        InvStep(ss[0], es[0].t, es[0].act);
        m := EntryReleased(ss[1..], es[1..], f, fs);
        m := m + 1;
      }
    }
  }

  lemma InvShape(s: Vfs)
    requires Inv(s)
    ensures Shape(s)
  {
  }

  lemma PathTail(ss: seq<Vfs>, es: seq<Event>)
    requires Path(ss, es) && es != []
    ensures Path(ss[1..], es[1..])
    ensures Enabled(ss[0], es[0].t, es[0].act) && ss[1] == Apply(ss[0], es[0].t, es[0].act)
  {
    hide Apply; hide Enabled;
    assert es[0] in es;
    forall i | 0 <= i < |es[1..]|
      ensures Enabled(ss[1..][i], es[1..][i].t, es[1..][i].act)
              && ss[1..][i + 1] == Apply(ss[1..][i], es[1..][i].t, es[1..][i].act)
    {
      assert es[1..][i] == es[i + 1];
    }
  }

  /**
   A call that has found fs in entry f reaches its driver after fs was unmounted exactly if, in
   between, some other call released that entry and an unmount of fs was then accepted.
  */
  lemma {:induction false} DriverFindsUnmounted(ss: seq<Vfs>, es: seq<Event>, u: nat, f: nat, fs: Fs)
    requires Path(ss, es) && Inv(ss[0]) && u < |ss[0].pcs| && Heads(ss[0].pcs[u], f, fs)
    requires f < MAX_OPEN_FILES && f < |ss[0].files| && ss[0].files[f] == fs
    requires forall i {:trigger es[i]} :: 0 <= i < |es| ==> es[i].t != u
    ensures fs != 0 && Inv(ss[|es|]) && u < |ss[|es|].pcs| && ss[|es|].pcs[u] == ss[0].pcs[u]
    ensures !Mounted(ss[|es|].rows, fs) <==> Overtaken(ss, es, f, fs)
  {
    hide Apply; hide Enabled; hide Inv; hide Mounted; hide Releases; hide Unmounts;
    HeadsKnown(ss[0], u, f, fs);
    if es == [] {
      StillOpen(ss[0], u, f, fs);
    } else {
      var n := |es| - 1;
      PathPrefix(ss, es);
      DriverFindsUnmounted(ss[..|es|], es[..n], u, f, fs);
      CallWaits(ss, es, u);
      assert es[n].t != u;
      if Mounted(ss[n].rows, fs) {
        LostExactly(ss[n], es[n], u, fs);
        if Unmounts(ss[n], es[n], fs) {
          UnmountedNotOpen(ss[n], es[n], fs);
          ReleasedBefore(ss, es, n, f, fs);
        }
      } else {
        HeadsKnown(ss[n], u, f, fs);
        GoneStays(ss[n], es[n], fs);
        OvertakenLonger(ss, es, f, fs);
      }
    }
  }

  lemma UnmountedNotOpen(s: Vfs, e: Event, fs: Fs)
    requires Unmounts(s, e, fs)
    ensures fs !in s.files
  {
  }

  lemma OvertakenLonger(ss: seq<Vfs>, es: seq<Event>, f: nat, fs: Fs)
    requires |ss| == |es| + 1 && es != [] && Overtaken(ss[..|es|], es[..|es| - 1], f, fs)
    ensures Overtaken(ss, es, f, fs)
  {
    hide Releases; hide Unmounts;
    var q, r := ss[..|es|], es[..|es| - 1];
    var m, k :| 0 <= m < k < |r| && Releases(q[m], r[m], f) && Unmounts(q[k], r[k], fs);
    assert Releases(ss[m], es[m], f) && Unmounts(ss[k], es[k], fs);
  }

  lemma ReleasedBefore(ss: seq<Vfs>, es: seq<Event>, n: nat, f: nat, fs: Fs)
    requires Path(ss, es) && n + 1 == |es| && Inv(ss[0]) && f < MAX_OPEN_FILES && fs != 0
    requires f < |ss[0].files| && ss[0].files[f] == fs && Unmounts(ss[n], es[n], fs)
    ensures Overtaken(ss, es, f, fs)
  {
    hide Apply; hide Enabled; hide Inv; hide Releases;
    PathPrefix(ss, es);
    InvShape(ss[0]);
    var m := EntryReleased(ss[..|es|], es[..n], f, fs);
    assert Releases(ss[m], es[m], f) && m < n;
  }

  lemma HeadsKnown(s: Vfs, u: nat, f: nat, fs: Fs)
    requires Inv(s) && u < |s.pcs| && Heads(s.pcs[u], f, fs)
    ensures fs != 0 && Counted(s.pcs[u]) && (!Mounted(s.rows, fs) ==> fs in s.gone)
  {
    hide Mounted; hide LocksOk; hide ShutdownOk; hide GoneOk; hide PlansOk; hide FilesOk;
    assert Known(s, s.pcs[u]);
  }

  /** An entry that still holds the filesystem of a call keeps it mounted. */
  lemma StillOpen(s: Vfs, u: nat, f: nat, fs: Fs)
    requires Inv(s) && u < |s.pcs| && Heads(s.pcs[u], f, fs) && f < |s.files| && s.files[f] == fs
    ensures Mounted(s.rows, fs)
  {
    hide Mounted; hide LocksOk; hide ShutdownOk; hide GoneOk; hide PlansOk; hide FilesOk; hide LocalsOk;
    HeadsKnown(s, u, f, fs);
    At(s, u);
    OpenIsMounted(s, f);
  }

  // ---------------------------------------------------------------- whole runs

  /** Every driver call of the run goes to a mounted filesystem. */
  ghost predicate DriversMounted(ss: seq<Vfs>) {
    forall i :: 0 <= i < |ss| ==> CallsMounted(ss[i])
  }

  ghost predicate CallsMounted(s: Vfs) {
    Shape(s) && forall t {:trigger s.pcs[t]} :: 0 <= t < |s.pcs| && Calls(s, t) != 0 ==> Mounted(s.rows, Calls(s, t))
  }

  /** No unmount is accepted while an open, read or write is on its way to the driver of that filesystem. */
  ghost predicate NoneOvertaken(ss: seq<Vfs>, es: seq<Event>)
    requires |ss| == |es| + 1
  {
    forall k {:trigger es[k]} :: 0 <= k < |es| ==> LetsThrough(ss[k], es[k])
  }

  ghost predicate LetsThrough(s: Vfs, e: Event) {
    forall u {:trigger s.pcs[u]} :: 0 <= u < |s.pcs| && Local(s.pcs[u]) != 0 ==> !Unmounts(s, e, Local(s.pcs[u]))
  }

  /** A step keeps all calls on mounted filesystems exactly if it unmounts none that a call is on its way to. */
  lemma CallsStep(s: Vfs, e: Event)
    requires Inv(s) && Enabled(s, e.t, e.act) && CallsMounted(s)
    ensures CallsMounted(Apply(s, e.t, e.act)) <==> LetsThrough(s, e)
  {
    hide Inv; hide Apply; hide Enabled; hide Unmounts; hide Mounted; hide LetsThrough;
    var s' := Apply(s, e.t, e.act);
    InvStep(s, e.t, e.act);
    InvShape(s');
    if LetsThrough(s, e) {
      forall t | 0 <= t < |s'.pcs| && Calls(s', t) != 0
        ensures Mounted(s'.rows, Calls(s', t))
      {
        CallsStepOne(s, e, t);
      }
    } else {
      var u := SomeOvertaken(s, e);
      HeadsAt(s, u);
      UnmounterBusy(s, e, u);
      LostExactly(s, e, u, Local(s.pcs[u]));
      OthersStay(s, e, u);
      assert Calls(s', u) == Local(s.pcs[u]);
    }
  }

  lemma SomeOvertaken(s: Vfs, e: Event) returns (u: nat)
    requires !LetsThrough(s, e)
    ensures u < |s.pcs| && Local(s.pcs[u]) != 0 && Unmounts(s, e, Local(s.pcs[u]))
  {
    hide Unmounts; hide Local;
    u :| 0 <= u < |s.pcs| && Local(s.pcs[u]) != 0 && Unmounts(s, e, Local(s.pcs[u]));
  }

  lemma UnmounterBusy(s: Vfs, e: Event, u: nat)
    requires u < |s.pcs| && Local(s.pcs[u]) != 0 && Unmounts(s, e, Local(s.pcs[u]))
    ensures e.t != u
  {
  }

  lemma HeadsAt(s: Vfs, u: nat)
    requires CallsMounted(s) && u < |s.pcs| && Local(s.pcs[u]) != 0
    ensures Counted(s.pcs[u]) && Mounted(s.rows, Local(s.pcs[u])) && Heads(s.pcs[u], s.pcs[u].file, s.pcs[u].fs)
  {
    hide Mounted;
    assert Calls(s, u) == Local(s.pcs[u]);
  }

  lemma CallsStepOne(s: Vfs, e: Event, t: nat)
    requires Inv(s) && Enabled(s, e.t, e.act) && CallsMounted(s) && LetsThrough(s, e)
    requires Inv(Apply(s, e.t, e.act)) && Shape(Apply(s, e.t, e.act)) && t < |Apply(s, e.t, e.act).pcs|
             && Calls(Apply(s, e.t, e.act), t) != 0
    ensures Mounted(Apply(s, e.t, e.act).rows, Calls(Apply(s, e.t, e.act), t))
  {
    hide Inv; hide Apply; hide Enabled; hide Mounted; hide Unmounts;
    var s' := Apply(s, e.t, e.act);
    DriversAreMounted(s', t);
    if Headed(s'.pcs[t]) {
      EnabledThread(s, e);
      OthersStay(s, e, e.t);
      if t == e.t {
        NewCall(s, e, t);
      } else {
        OthersStay(s, e, t);
        assert Local(s.pcs[t]) == Calls(s', t);
        HeadsAt(s, t);
        LostExactly(s, e, t, Local(s.pcs[t]));
      }
    }
  }

  lemma EnabledThread(s: Vfs, e: Event)
    requires Enabled(s, e.t, e.act)
    ensures e.t < |s.pcs|
  {
  }

  /** A call that has just found its filesystem found a mounted one. */
  lemma NewCall(s: Vfs, e: Event, t: nat)
    requires Inv(s) && Enabled(s, e.t, e.act) && t == e.t && CallsMounted(s)
    requires t < |Apply(s, e.t, e.act).pcs|
    requires Headed(Apply(s, e.t, e.act).pcs[t])
    ensures Mounted(Apply(s, e.t, e.act).rows, Apply(s, e.t, e.act).pcs[t].fs)
  {
    hide Inv; hide Apply; hide Enabled; hide Lookup; hide Mounted; hide CallsMounted;
    NewCallFrom(s, e, t);
    var p := s.pcs[t];
    if p.Begun? {
      BegunIsOpen(s, t);
    } else {
      LookupIsMounted(s.rows, p.op.name);
    }
  }

  lemma BegunIsOpen(s: Vfs, t: nat)
    requires Inv(s) && t < |s.pcs| && s.pcs[t].Begun? && s.pcs[t].op.Access? && IsOpen(s, s.pcs[t].op.file)
    ensures Mounted(s.rows, s.files[s.pcs[t].op.file])
  {
    hide LocksOk; hide ShutdownOk; hide LocalsOk; hide GoneOk; hide PlansOk; hide FilesOk; hide Mounted;
    At(s, t);
    OpenIsMounted(s, s.pcs[t].op.file);
  }

  /** It read an entry in use, or reserved one under the mount table. */
  lemma NewCallFrom(s: Vfs, e: Event, t: nat)
    requires Enabled(s, e.t, e.act) && t == e.t && t < |Apply(s, e.t, e.act).pcs|
    requires Headed(Apply(s, e.t, e.act).pcs[t])
    ensures Apply(s, e.t, e.act).rows == s.rows && t < |s.pcs|
    ensures var p := s.pcs[t]; var q := Apply(s, e.t, e.act).pcs[t];
            || (p.Begun? && p.op.Access? && IsOpen(s, p.op.file) && q.fs == s.files[p.op.file])
            || (p.HasBoth? && p.op.Open? && q.fs == Lookup(s.rows, p.op.name) != 0)
  {
    hide FirstLock; hide WithBoth; hide Enter; hide Leave; hide HaltStep; hide WithTable; hide WithFiles; hide CanGo;
    var p := s.pcs[t];
    assert PcShape(p);
    if e.act.Go? && p.Begun? {
      BegunCalls(s, t, p.op);
    } else if e.act.Go? && p.HasBoth? {
      ReservingCalls(s, t, p.op, p.row);
    }
  }

  lemma BegunCalls(s: Vfs, t: nat, op: Op)
    requires t < |s.pcs| && s.pcs[t] == Begun(op)
    ensures var s' := FirstLock(s, t, op);
            && s'.rows == s.rows && |s'.pcs| == |s.pcs|
            && (Headed(s'.pcs[t]) ==> op.Access? && IsOpen(s, op.file) && s'.pcs[t].fs == s.files[op.file])
  {
  }

  lemma ReservingCalls(s: Vfs, t: nat, op: Op, row: nat)
    requires Shape(s) && t < |s.pcs| && ((op.Unmount? && row < MAX_FILESYSTEMS) || op.Open?)
    ensures var s' := WithBoth(s, t, op, row);
            && |s'.pcs| == |s.pcs|
            && (Headed(s'.pcs[t]) ==> op.Open? && s'.rows == s.rows && s'.pcs[t].fs == Lookup(s.rows, op.name) != 0)
  {
    hide Lookup;
  }

  lemma CallsStart(n: nat)
    ensures CallsMounted(Start(n))
  {
    var s := Start(n);
    InvStart(n);
    forall t | 0 <= t < |s.pcs|
      ensures Calls(s, t) == 0
    {
      assert s.pcs[t] == Idle;
    }
  }

  /**
   Over any run, all driver calls go to mounted filesystems exactly if no unmount is accepted
   while a call is on its way to that filesystem.
  */
  lemma {:induction false} DriversMountedExactly(ss: seq<Vfs>, es: seq<Event>, n: nat)
    requires Path(ss, es) && ss[0] == Start(n)
    ensures DriversMounted(ss) <==> NoneOvertaken(ss, es)
  {
    hide Apply; hide Enabled; hide Inv; hide Start; hide CallsMounted; hide LetsThrough;
    if es == [] {
      CallsStart(n);
    } else {
      var q, r := ss[..|es|], es[..|es| - 1];
      PathPrefix(ss, es);
      DriversMountedExactly(q, r, n);
      Reachable(q, r, n);
      assert forall i :: 0 <= i < |r| ==> r[i] == es[i] && q[i] == ss[i];
      if DriversMounted(q) {
        assert CallsMounted(q[|r|]);
        CallsStep(ss[|r|], es[|r|]);
        RunsLonger(ss, es);
      } else {
        RunsLonger(ss, es);
      }
    }
  }

  lemma RunsLonger(ss: seq<Vfs>, es: seq<Event>)
    requires |ss| == |es| + 1 && es != []
    ensures DriversMounted(ss) <==> DriversMounted(ss[..|es|]) && CallsMounted(ss[|es|])
    ensures NoneOvertaken(ss, es) <==>
              NoneOvertaken(ss[..|es|], es[..|es| - 1]) && LetsThrough(ss[|es| - 1], es[|es| - 1])
  {
    hide CallsMounted; hide LetsThrough;
    var q, r := ss[..|es|], es[..|es| - 1];
    assert forall i :: 0 <= i < |q| ==> q[i] == ss[i];
    assert forall i :: 0 <= i < |r| ==> r[i] == es[i];
    if NoneOvertaken(ss, es) {
      forall k | 0 <= k < |r|
        ensures LetsThrough(q[k], r[k])
      {
        assert LetsThrough(ss[k], es[k]);
      }
      assert es[|r|] in es;
    }
  }
}
