/**
 Several shutdowns at once. Any process may halt the machine, so more than one thread can be in
 vfs_deinit; the end of the last operation gives one signal, however many of them wait for it.
*/
module VfsShutdown {
  import opened VfsTables
  import opened VfsProtocol
  import opened VfsRaces
  import opened VfsRuns

  ghost predicate SomeWaits(s: Vfs) {
    exists t :: 0 <= t < |s.pcs| && s.pcs[t].HaltWait?
  }

  lemma {:induction false} WaiterCounts(pcs: seq<Pc>, t: nat)
    requires t < |pcs| && pcs[t].HaltWait?
    ensures Waiters(pcs) > 0
  {
    if t > 0 {
      WaiterCounts(pcs[1..], t - 1);
    }
  }

  lemma {:induction false} SomeWaiter(pcs: seq<Pc>) returns (t: nat)
    requires Waiters(pcs) > 0
    ensures t < |pcs| && pcs[t].HaltWait?
  {
    if pcs[0].HaltWait? {
      t := 0;
    } else {
      t := SomeWaiter(pcs[1..]);
      t := t + 1;
    }
  }

  lemma WaitersAreSome(s: Vfs)
    ensures Waiters(s.pcs) > 0 <==> SomeWaits(s)
  {
    if Waiters(s.pcs) > 0 {
      var t := SomeWaiter(s.pcs);
    } else if SomeWaits(s) {
      var t :| 0 <= t < |s.pcs| && s.pcs[t].HaltWait?;
      WaiterCounts(s.pcs, t);
    }
  }

  // ---------------------------------------------------------------- stuck

  /** Once stuck, a thread stays where it is, and takes no step. */
  lemma {:induction false} StuckForever(ss: seq<Vfs>, es: seq<Event>, t: nat)
    requires Path(ss, es) && Inv(ss[0]) && Stuck(ss[0], t)
    ensures Stuck(ss[|es|], t) && forall i :: 0 <= i < |es| ==> es[i].t != t
  {
    hide Apply; hide Enabled; hide Inv; hide Stuck;
    if es != [] {
      var k := |es| - 1;
      PathPrefix(ss, es);
      StuckForever(ss[..|es|], es[..k], t);
      InvRun(ss[..|es|], es[..k]);
      StuckStays(ss[k], es[k].t, es[k].act, t);
      forall i | 0 <= i < |es|
        ensures es[i].t != t
      {
        if i < k {
          assert es[..k][i] == es[i];
        }
      }
    }
  }

  lemma StuckStays(s: Vfs, u: nat, a: Act, t: nat)
    requires Inv(s) && Enabled(s, u, a) && Stuck(s, t)
    ensures u != t && Stuck(Apply(s, u, a), t)
  {
    hide Inv; hide Apply; hide Enabled;
    NotItsTurn(s, u, a, t);
    OthersStay(s, Event(u, a), t);
    AfterTheLast(s, u, a);
  }

  lemma NotItsTurn(s: Vfs, u: nat, a: Act, t: nat)
    requires Enabled(s, u, a) && Stuck(s, t)
    ensures u != t
  {
    hide Shape;
  }

  /** After the last operation, no step gives a signal or delays a shutdown. */
  lemma AfterTheLast(s: Vfs, u: nat, a: Act)
    requires Inv(s) && Enabled(s, u, a) && !s.usable && s.ops == 0
    ensures var s' := Apply(s, u, a);
            !s'.usable && s'.ops == 0 && s'.delayed == s.delayed && 0 <= s'.unmountSem <= s.unmountSem
  {
    hide LocksOk; hide LocalsOk; hide GoneOk; hide PlansOk; hide FilesOk; hide RowOf; hide FreeRow; hide FreeFile;
    hide Cleared; hide MountedSet;
    NoOperationBegins(s, u, a);
    At(s, u);
  }

  /** Which threads are stuck, when no operation is left: those waiting, unless the signal is still to be taken. */
  lemma StuckExactly(s: Vfs)
    requires Inv(s) && !s.usable && s.ops == 0
    ensures (exists t :: Stuck(s, t)) <==> s.delayed >= 2 && s.unmountSem == 0
  {
    hide LocksOk; hide LocalsOk; hide GoneOk; hide PlansOk; hide FilesOk;
    WaitersAreSome(s);
    SignalledOnce(s);
    if SomeWaits(s) && s.unmountSem == 0 {
      var t :| 0 <= t < |s.pcs| && s.pcs[t].HaltWait?;
      assert Stuck(s, t);
    }
  }

  // ---------------------------------------------------------------- waiting for ever

  /** Whatever the threads do from s on, some shutdown still waits. */
  ghost predicate WaitsForEver(s: Vfs) {
    forall ss, es :: Path(ss, es) && ss[0] == s ==> SomeWaits(ss[|es|])
  }

  lemma {:induction false} DelayedOverRun(ss: seq<Vfs>, es: seq<Event>)
    requires Path(ss, es) && Inv(ss[0]) && !ss[0].usable && ss[0].ops == 0
    ensures var s := ss[|es|]; Inv(s) && !s.usable && s.ops == 0 && s.delayed == ss[0].delayed
  {
    hide Apply; hide Enabled; hide Inv;
    if es != [] {
      var k := |es| - 1;
      PathPrefix(ss, es);
      DelayedOverRun(ss[..|es|], es[..k]);
      InvStep(ss[k], es[k].t, es[k].act);
      AfterTheLast(ss[k], es[k].t, es[k].act);
    }
  }

  /** When no operation is left, a shutdown waits for ever exactly if two or more were delayed. */
  lemma WaitsForEverExactly(s: Vfs)
    requires Inv(s) && !s.usable && s.ops == 0 && !s.panicked
    ensures WaitsForEver(s) <==> s.delayed >= 2
  {
    hide Apply; hide Inv; hide Enabled; hide SomeWaits;
    if s.delayed >= 2 {
      forall ss, es | Path(ss, es) && ss[0] == s
        ensures SomeWaits(ss[|es|])
      {
        DelayedOverRun(ss, es);
        SignalledOnce(ss[|es|]);
        SemSign(ss[|es|]);
        WaitersAreSome(ss[|es|]);
      }
    } else {
      var s' := OneIsServed(s);
      var ss, es :| Path(ss, es) && ss[0] == s && ss[|es|] == s';
      assert !SomeWaits(ss[|es|]);
    }
  }

  lemma SemSign(s: Vfs)
    requires Inv(s)
    ensures Shape(s) && 0 <= s.unmountSem <= s.signals
  {
  }

  /** The only shutdown that was delayed takes the signal, if it has not done so. */
  lemma OneIsServed(s: Vfs) returns (s': Vfs)
    requires Inv(s) && !s.usable && s.ops == 0 && s.delayed <= 1 && !s.panicked
    ensures Leads(s, s') && !SomeWaits(s')
  {
    hide Apply; hide Inv; hide Enabled; hide SomeWaits;
    Stays(s);
    s' := s;
    SignalledOnce(s);
    SemSign(s);
    WaitersAreSome(s);
    if SomeWaits(s) {
      var t := SomeWaiter(s.pcs);
      Served(s, t);
      s' := Then(s, s, t, Go(true));
      WaitersAreSome(s');
    }
  }

  lemma Served(s: Vfs, t: nat)
    requires Shape(s) && t < |s.pcs| && s.pcs[t].HaltWait? && s.unmountSem > 0 && !s.panicked
    ensures Enabled(s, t, Go(true)) && Waiters(Apply(s, t, Go(true)).pcs) == Waiters(s.pcs) - 1
  {
    WaitersUpdate(s.pcs, t, HaltResume);
  }

  /** The last operation, when a shutdown has begun. */
  predicate LastOperation(s: Vfs, t: nat) {
    t < |s.pcs| && s.pcs[t].Leaving? && s.ops == 1 && !s.usable
  }

  /**
   Its end gives one signal, with every delayed shutdown waiting for it: a shutdown waits for ever
   exactly if another one is waiting when the last operation ends.
  */
  lemma OneSignalForAll(s: Vfs, t: nat)
    requires Inv(s) && Enabled(s, t, Go(true)) && LastOperation(s, t)
    ensures var s' := Apply(s, t, Go(true));
            && s.unmountSem == 0 && s'.unmountSem == 1 && s'.ops == 0
            && Waiters(s'.pcs) == Waiters(s.pcs) >= 1
            && (WaitsForEver(s') <==> Waiters(s.pcs) >= 2)
  {
    hide WaitsForEver; hide Inv; hide Apply; hide Waiters;
    var s' := Apply(s, t, Go(true));
    InvStep(s, t, Go(true));
    LastLeaves(s, t);
    WaitsForEverExactly(s');
  }

  lemma LastLeaves(s: Vfs, t: nat)
    requires Inv(s) && Enabled(s, t, Go(true)) && LastOperation(s, t)
    ensures var s' := Apply(s, t, Go(true));
            && s.unmountSem == 0 && s'.unmountSem == 1 && s'.ops == 0 && !s'.usable && !s'.panicked
            && s'.delayed == s.delayed == Waiters(s.pcs) >= 1 && Waiters(s'.pcs) == Waiters(s.pcs)
  {
    hide LocksOk; hide LocalsOk; hide GoneOk; hide PlansOk; hide FilesOk;
    WaitersUpdate(s.pcs, t, Idle);
  }

  // ---------------------------------------------------------------- what a shutdown leaves

  /** Once a shutdown has come to its end no row holds a filesystem. */
  ghost predicate Unmounted(s: Vfs) {
    s.down ==> forall i :: 0 <= i < |s.rows| ==> s.rows[i].fs == 0
  }

  lemma UnmountedStep(s: Vfs, e: Event)
    requires Inv(s) && Enabled(s, e.t, e.act) && Unmounted(s)
    ensures Unmounted(Apply(s, e.t, e.act))
  {
    hide LocksOk; hide LocalsOk; hide GoneOk; hide PlansOk; hide FilesOk; hide RowOf; hide FreeRow; hide FreeFile;
    hide MountedSet; hide MountRows; hide Lookup; hide UnmountTarget; hide ShutdownOk;
    At(s, e.t);
  }

  /** ... and none is mounted again: over any run, when a thread has done its shutdown nothing is mounted. */
  lemma {:induction false} ShutdownUnmountsAll(ss: seq<Vfs>, es: seq<Event>, n: nat, t: nat)
    requires Path(ss, es) && ss[0] == Start(n) && t < |ss[|es|].pcs| && ss[|es|].pcs[t] == Halted
    ensures forall fs: Fs :: fs != 0 ==> !Mounted(ss[|es|].rows, fs)
  {
    hide Apply; hide Enabled; hide Inv;
    UnmountedRun(ss, es, n);
    HaltedIsDown(ss[|es|], t);
  }

  lemma {:induction false} UnmountedRun(ss: seq<Vfs>, es: seq<Event>, n: nat)
    requires Path(ss, es) && ss[0] == Start(n)
    ensures Inv(ss[|es|]) && Unmounted(ss[|es|])
  {
    hide Apply; hide Enabled; hide Inv; hide Unmounted;
    if es == [] {
      InvStart(n);
      NotDown(ss[0]);
    } else {
      var k := |es| - 1;
      PathPrefix(ss, es);
      UnmountedRun(ss[..|es|], es[..k], n);
      InvStep(ss[k], es[k].t, es[k].act);
      UnmountedStep(ss[k], es[k]);
    }
  }

  lemma NotDown(s: Vfs)
    requires !s.down
    ensures Unmounted(s)
  {
  }

  lemma HaltedIsDown(s: Vfs, t: nat)
    requires Inv(s) && t < |s.pcs| && s.pcs[t] == Halted
    ensures s.down
  {
  }

  // ---------------------------------------------------------------- the run

  /** Two threads call vfs_deinit during an operation of a third; it ends, and only the first of the two is woken. */
  lemma TwoShutdowns(name: string) returns (s: Vfs)
    ensures Leads(Start(3), s) && !s.panicked && s.pcs == [Idle, Halted, HaltWait] && Stuck(s, 2)
  {
    hide Cleared; hide MountedSet; hide Apply; hide Enabled; hide Shape; hide Stuck; hide Leads;
    var s0 := Start(3);
    assert Shape(s0) by {
      InvStart(3);
      SemSign(s0);
    }
    Stays(s0);
    s := CallBegins(s0, s0, 0, OnVolume(name));
    s := ShutdownWaits(s0, s, 1);
    s := ShutdownWaits(s0, s, 2);
    s := OperationEnds(s0, s, 0, name);
    s := ShutdownEnds(s0, s, 1);
    assert s.pcs == [Idle, Halted, HaltWait];
    TheOtherIsStuck(s);
  }

  lemma TheOtherIsStuck(s: Vfs)
    requires s.pcs == [Idle, Halted, HaltWait] && !s.usable && s.ops == 0 && s.unmountSem == 0
    ensures Stuck(s, 2)
  {
  }

  /** A shutdown goes on. */
  lemma ThenHalt(s: Vfs, m: Vfs, t: nat) returns (s': Vfs)
    requires Leads(s, m) && Shape(m) && !m.panicked && t < |m.pcs| && Halts(m.pcs[t]) && CanGo(m, m.pcs[t])
    ensures Leads(s, s') && Shape(s') && s' == HaltStep(m, t)
  {
    hide Cleared; hide MountedSet; hide Leads;
    s' := Then(s, m, t, Go(true));
  }

  /** A shutdown finds an operation in progress. */
  lemma ShutdownWaits(s: Vfs, m: Vfs, t: nat) returns (s': Vfs)
    requires Leads(s, m) && Shape(m) && !m.panicked && m.opSem == -1 && t < |m.pcs| && m.pcs[t] == Idle && m.ops > 0
    ensures Leads(s, s') && Shape(s')
    ensures s' == To(m, t, HaltWait).(usable := false, delayed := m.delayed + 1)
  {
    s' := Then(s, m, t, BeginHalt);
    s' := ThenHalt(s, s', t);
    s' := ThenHalt(s, s', t);
    assert s'.pcs == m.pcs[t := HaltWait];
  }

  /** The last operation ends, and gives the signal. */
  lemma OperationEnds(s: Vfs, m: Vfs, t: nat, name: string) returns (s': Vfs)
    requires Leads(s, m) && Shape(m) && !m.panicked && m.opSem == -1 && m.tableSem == -1
    requires t < |m.pcs| && m.pcs[t] == Begun(OnVolume(name)) && !m.usable && m.ops == 1
    ensures Leads(s, s') && Shape(s')
    ensures s' == To(m, t, Idle).(ops := 0, unmountSem := m.unmountSem + 1, signals := m.signals + 1)
  {
    s' := VolumeCall(s, m, t, name);
    s' := Then(s, s', t, Go(true));
    s' := Then(s, s', t, Go(true));
    assert s'.pcs == m.pcs[t := Idle];
  }

  lemma VolumeCall(s: Vfs, m: Vfs, t: nat, name: string) returns (s': Vfs)
    requires Leads(s, m) && Shape(m) && !m.panicked && m.tableSem == -1
    requires t < |m.pcs| && m.pcs[t] == Begun(OnVolume(name))
    ensures Leads(s, s') && Shape(s') && s' == To(m, t, Ending(-1))
  {
    s' := Then(s, m, t, Go(true));
    s' := Then(s, s', t, Go(true));
    assert s'.pcs == m.pcs[t := Ending(-1)];
  }

  /** A shutdown that was signalled comes to its end. */
  lemma ShutdownEnds(s: Vfs, m: Vfs, t: nat) returns (s': Vfs)
    requires Leads(s, m) && Shape(m) && !m.panicked && m.opSem == -1 && m.tableSem == -1 && m.fileSem == -1
    requires t < |m.pcs| && m.pcs[t] == HaltWait && m.unmountSem > 0
    ensures Leads(s, s')
    ensures s' == To(m, t, Halted).(unmountSem := m.unmountSem - 1, rows := Cleared(m.rows),
                                    gone := m.gone + MountedSet(m.rows), down := true)
  {
    hide Cleared; hide MountedSet; hide Shape; hide Leads;
    s' := SignalTaken(s, m, t);
    s' := TablesTaken(s, s', t);
    s' := ThenHalt(s, s', t);
    assert s'.pcs == m.pcs[t := Halted];
  }

  lemma SignalTaken(s: Vfs, m: Vfs, t: nat) returns (s': Vfs)
    requires Leads(s, m) && Shape(m) && !m.panicked && m.opSem == -1
    requires t < |m.pcs| && m.pcs[t] == HaltWait && m.unmountSem > 0
    ensures Leads(s, s') && Shape(s') && s' == To(m, t, HaltIdle).(unmountSem := m.unmountSem - 1, opSem := t)
  {
    hide Cleared; hide MountedSet; hide Shape; hide Leads;
    s' := ThenHalt(s, m, t);
    s' := ThenHalt(s, s', t);
    assert s'.pcs == m.pcs[t := HaltIdle];
  }

  lemma TablesTaken(s: Vfs, m: Vfs, t: nat) returns (s': Vfs)
    requires Leads(s, m) && Shape(m) && !m.panicked && m.tableSem == -1 && m.fileSem == -1
    requires t < |m.pcs| && m.pcs[t] == HaltIdle
    ensures Leads(s, s') && Shape(s') && s' == To(m, t, HaltBoth).(tableSem := t, fileSem := t)
  {
    hide Cleared; hide MountedSet; hide Shape; hide Leads;
    s' := ThenHalt(s, m, t);
    s' := ThenHalt(s, s', t);
    assert s'.pcs == m.pcs[t := HaltBoth];
  }
}
