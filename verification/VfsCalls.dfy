/**
 Single calls among the steps of all other threads: which step of a call has an effect, what that effect is,
 that it has no other, and when the kernel stops.
*/
module VfsCalls {
  import opened VfsTables
  import opened VfsProtocol
  import opened VfsRaces
  import opened VfsRuns

  // ---------------------------------------------------------------- the deciding step

  /** A call of op on its way to the step that decides it. */
  predicate Undecided(p: Pc, op: Op) {
    || p == Starting(op) || p == Entering(op) || p == Begun(op) || p == HasTable(op) || p == HasFiles(op)
    || (p.HasBoth? && p.op == op)
  }

  /** A call that is decided: an open, read or write at its driver, or on its way out. */
  predicate Decided(p: Pc) {
    || p.Driver? || p.Using? || p.Moving? || p.Moved? || p.Undo? || p.Undoing? || p.Ending? || p.Leaving?
  }

  /** The step of thread u that decides its call. */
  predicate Decides(s: Vfs, e: Event, u: nat)
    requires Shape(s)
  {
    && e.t == u && e.act.Go? && u < |s.pcs|
    && match s.pcs[u]
       case HasTable(op) => op.Mount? || op.OnVolume? || (op.Unmount? && UnmountTarget(s.rows, op.name) == |s.rows|)
       case HasBoth(op, row) => true
       case HasFiles(op) => true
       case Begun(op) => op.Access?
       case _ => false
  }

  /** A call that comes too late to be let in. */
  predicate Refused(s: Vfs, e: Event, u: nat) {
    e.t == u && e.act.Go? && u < |s.pcs| && s.pcs[u].Entering? && !s.usable
  }

  ghost predicate SameTables(s: Vfs, s': Vfs) {
    s'.rows == s.rows && s'.files == s.files && s'.gone == s.gone
  }

  /** Entry f of the open files is in use. */
  predicate InUse(s: Vfs, f: int) {
    0 <= f < |s.files| && s.files[f] != 0
  }

  /** What the deciding step of a call does, where q is where its thread goes. */
  ghost predicate Effect(s: Vfs, s': Vfs, op: Op, q: Pc) {
    match op
    case Mount(fs, name) =>
      s'.rows == MountRows(s.rows, fs, name) && s'.files == s.files && s'.gone == s.gone && q == Ending(-1)
    case Unmount(name) =>
      var r, fs := RowOf(s.rows, name), Lookup(s.rows, name);
      && q == Ending(-1) && s'.files == s.files
      && (if fs == 0 || fs in s.files then SameTables(s, s')
          else r < |s.rows| && s'.rows == s.rows[r := Row(s.rows[r].name, 0)] && s'.gone == s.gone + {fs})
    case Open(name) =>
      var f, fs := FreeFile(s.files), Lookup(s.rows, name);
      if f < |s.files| && fs != 0
      then q == Driver(f, fs) && s'.files == s.files[f := fs] && s'.rows == s.rows && s'.gone == s.gone
      else q == Ending(-1) && SameTables(s, s')
    case Close(f) =>
      InUse(s, f) && q == Ending(-1) && s'.files == s.files[f := 0] && s'.rows == s.rows && s'.gone == s.gone
    case Seek(f) => InUse(s, f) && q == Ending(f) && SameTables(s, s')
    case Access(f) => InUse(s, f) && q == Using(f, s.files[f]) && SameTables(s, s')
    case OnVolume(name) => q == Ending(-1) && SameTables(s, s')
  }

  /** That step has this effect, unless the kernel stops because the file number is not that of an entry in use. */
  lemma DecidingStep(s: Vfs, u: nat, op: Op, ok: bool)
    requires Inv(s) && Enabled(s, u, Go(ok)) && Undecided(s.pcs[u], op) && Decides(s, Event(u, Go(ok)), u)
    ensures var s' := Apply(s, u, Go(ok));
            && u < |s'.pcs| && (s'.panicked <==> OnFile(op) && !InUse(s, op.file))
            && (!s'.panicked ==> Effect(s, s', op, s'.pcs[u]) && Decided(s'.pcs[u]))
  {
    hide Inv; hide Apply; hide Effect; hide Undecided; hide CanGo;
    match s.pcs[u] {
      case HasTable(o) => DecidesAtTable(s, u, op, ok);
      case HasBoth(o, row) => DecidesAtBoth(s, u, op, ok);
      case _ => DecidesOnFile(s, u, op, ok);
    }
  }

  lemma DecidesAtTable(s: Vfs, u: nat, op: Op, ok: bool)
    requires Inv(s) && Enabled(s, u, Go(ok)) && Undecided(s.pcs[u], op) && Decides(s, Event(u, Go(ok)), u)
             && s.pcs[u].HasTable?
    ensures var s' := Apply(s, u, Go(ok));
            u < |s'.pcs| && !s'.panicked && !OnFile(op) && Effect(s, s', op, s'.pcs[u]) && Decided(s'.pcs[u])
  {
    hide LocksOk; hide ShutdownOk; hide LocalsOk; hide GoneOk; hide PlansOk; hide FilesOk; hide RowOf; hide FreeRow;
    hide FreeFile; hide MountRows;
    hide WithBoth; hide WithFiles; hide Enter; hide Leave; hide FirstLock; hide Release; hide HaltStep;
    At(s, u);
  }

  lemma DecidesAtBoth(s: Vfs, u: nat, op: Op, ok: bool)
    requires Inv(s) && Enabled(s, u, Go(ok)) && Undecided(s.pcs[u], op) && s.pcs[u].HasBoth?
    ensures var s' := Apply(s, u, Go(ok));
            u < |s'.pcs| && !s'.panicked && !OnFile(op) && Effect(s, s', op, s'.pcs[u]) && Decided(s'.pcs[u])
  {
    hide LocksOk; hide ShutdownOk; hide LocalsOk; hide GoneOk; hide PlansOk; hide FilesOk; hide RowOf; hide FreeRow;
    hide FreeFile; hide MountRows;
    hide WithTable; hide WithFiles; hide Enter; hide Leave; hide FirstLock; hide Release; hide HaltStep;
    At(s, u);
  }

  lemma DecidesOnFile(s: Vfs, u: nat, op: Op, ok: bool)
    requires Inv(s) && Enabled(s, u, Go(ok)) && Undecided(s.pcs[u], op) && Decides(s, Event(u, Go(ok)), u)
             && !s.pcs[u].HasTable? && !s.pcs[u].HasBoth?
    ensures var s' := Apply(s, u, Go(ok));
            && u < |s'.pcs| && OnFile(op) && (s'.panicked <==> !InUse(s, op.file))
            && (!s'.panicked ==> Effect(s, s', op, s'.pcs[u]) && Decided(s'.pcs[u]))
  {
    hide LocksOk; hide ShutdownOk; hide LocalsOk; hide GoneOk; hide PlansOk; hide FilesOk; hide RowOf; hide FreeRow;
    hide FreeFile; hide MountRows;
    hide WithTable; hide WithBoth; hide Enter; hide Leave; hide HaltStep;
    At(s, u);
  }

  /** No other step of the call has any, before it ... */
  lemma EarlierStep(s: Vfs, u: nat, op: Op, ok: bool)
    requires Inv(s) && Enabled(s, u, Go(ok)) && Undecided(s.pcs[u], op) && !Decides(s, Event(u, Go(ok)), u)
    ensures var s' := Apply(s, u, Go(ok));
            && u < |s'.pcs| && !s'.panicked && SameTables(s, s')
            && (if Refused(s, Event(u, Go(ok)), u) then s'.pcs[u] == Idle else Undecided(s'.pcs[u], op))
  {
    hide LocksOk; hide ShutdownOk; hide LocalsOk; hide GoneOk; hide PlansOk; hide FilesOk; hide RowOf; hide FreeRow;
    hide FreeFile; hide MountRows;
    At(s, u);
  }

  /** ... and after it only an open whose driver has answered no, which gives its entry up. */
  lemma LaterStep(s: Vfs, u: nat, ok: bool)
    requires Inv(s) && Enabled(s, u, Go(ok)) && Decided(s.pcs[u])
    ensures var s' := Apply(s, u, Go(ok));
            && u < |s'.pcs| && !s'.panicked && (Decided(s'.pcs[u]) || s'.pcs[u] == Idle)
            && s'.rows == s.rows && s'.gone == s.gone
            && s'.files == (if s.pcs[u].Undoing? && s.pcs[u].file < |s.files| then s.files[s.pcs[u].file := 0]
                            else s.files)
  {
    hide LocksOk; hide ShutdownOk; hide LocalsOk; hide GoneOk; hide PlansOk; hide FilesOk; hide RowOf; hide FreeRow;
    hide FreeFile; hide MountRows; hide WithTable; hide WithBoth; hide Enter; hide FirstLock; hide WithFiles;
    At(s, u);
  }

  // ---------------------------------------------------------------- when the kernel stops

  /** The step verifies a file number whose entry is not in use. */
  predicate Faults(s: Vfs, e: Event) {
    && e.t < |s.pcs| && e.act.Go?
    && var p := s.pcs[e.t];
       (p.HasFiles? || (p.Begun? && p.op.Access?)) && OnFile(p.op) && !InUse(s, p.op.file)
  }

  /** The kernel stops at such a step, and at no other. */
  lemma PanicsExactly(s: Vfs, e: Event)
    requires Inv(s) && Enabled(s, e.t, e.act)
    ensures Apply(s, e.t, e.act).panicked <==> Faults(s, e)
  {
    hide Inv; hide CanGo; hide GoOn; hide Faults;
    if e.act.Go? {
      GoPanicsExactly(s, e.t, e.act.ok);
    } else {
      assert !Faults(s, e) by { NotGoing(s, e); }
    }
  }

  lemma NotGoing(s: Vfs, e: Event)
    requires !e.act.Go?
    ensures !Faults(s, e)
  {
  }

  lemma GoPanicsExactly(s: Vfs, t: nat, ok: bool)
    requires Inv(s) && Enabled(s, t, Go(ok))
    ensures GoOn(s, t, ok).panicked <==> Faults(s, Event(t, Go(ok)))
  {
    hide LocksOk; hide ShutdownOk; hide LocalsOk; hide GoneOk; hide PlansOk; hide FilesOk; hide RowOf; hide FreeRow;
    hide FreeFile; hide MountRows; hide Cleared; hide MountedSet; hide Lookup; hide UnmountTarget;
    At(s, t);
  }

  // ---------------------------------------------------------------- a whole call

  /** How many steps of a run decide a call of thread u. */
  ghost function Decisions(ss: seq<Vfs>, es: seq<Event>, u: nat): nat
    requires Path(ss, es)
    decreases |es|
  {
    if es == [] then 0
    else
      hide Apply; hide Enabled;
      PathPrefix(ss, es);
      LastShape(ss, es);
      Decisions(ss[..|es|], es[..|es| - 1], u) + if Decides(ss[|es| - 1], es[|es| - 1], u) then 1 else 0
  }

  /** ... and how many turn one away. */
  ghost function Refusals(ss: seq<Vfs>, es: seq<Event>, u: nat): nat
    requires Path(ss, es)
    decreases |es|
  {
    if es == [] then 0
    else
      hide Apply; hide Enabled;
      PathPrefix(ss, es);
      Refusals(ss[..|es|], es[..|es| - 1], u) + if Refused(ss[|es| - 1], es[|es| - 1], u) then 1 else 0
  }

  lemma LastShape(ss: seq<Vfs>, es: seq<Event>)
    requires Path(ss, es) && es != []
    ensures Shape(ss[|es| - 1])
  {
    hide Apply;
    PathPrefix(ss, es);
  }

  /** What of its course a call has behind it, by where it is. */
  ghost predicate OnCourse(p: Pc, op: Op, decisions: nat, refusals: nat) {
    || (Undecided(p, op) && decisions == 0 && refusals == 0)
    || (Decided(p) && decisions == 1 && refusals == 0)
    || (p == Idle && decisions + refusals == 1)
  }

  lemma CourseStep(s: Vfs, e: Event, u: nat, op: Op, d: nat, r: nat)
    requires Inv(s) && Enabled(s, e.t, e.act) && u < |s.pcs| && (e.t == u ==> e.act.Go?)
             && !Apply(s, e.t, e.act).panicked
    requires OnCourse(s.pcs[u], op, d, r)
    ensures u < |Apply(s, e.t, e.act).pcs|
    ensures OnCourse(Apply(s, e.t, e.act).pcs[u], op, d + (if Decides(s, e, u) then 1 else 0),
                     r + (if Refused(s, e, u) then 1 else 0))
  {
    hide Inv; hide Apply; hide Enabled; hide Undecided; hide Decided; hide Decides; hide Refused; hide Effect;
    NotStopped(s, e);
    if e.t != u {
      OthersStay(s, e, u);
      NotIts(s, e, u);
    } else {
      ItsKinds(s, u, op, e.act.ok);
      if Undecided(s.pcs[u], op) {
        if Decides(s, e, u) {
          DecidingStep(s, u, op, e.act.ok);
        } else {
          EarlierStep(s, u, op, e.act.ok);
        }
      } else {
        LaterStep(s, u, e.act.ok);
      }
    }
  }

  lemma NotIts(s: Vfs, e: Event, u: nat)
    requires Shape(s) && e.t != u
    ensures !Decides(s, e, u) && !Refused(s, e, u)
  {
  }

  lemma ItsKinds(s: Vfs, u: nat, op: Op, ok: bool)
    requires Inv(s) && Enabled(s, u, Go(ok))
    ensures s.pcs[u] != Idle && (Decided(s.pcs[u]) ==> !Undecided(s.pcs[u], op))
    ensures Decided(s.pcs[u]) ==> !Decides(s, Event(u, Go(ok)), u)
    ensures Decides(s, Event(u, Go(ok)), u) || Decided(s.pcs[u]) ==> !Refused(s, Event(u, Go(ok)), u)
  {
    hide LocksOk; hide ShutdownOk; hide LocalsOk; hide GoneOk; hide PlansOk; hide FilesOk;
  }

  /**
   Whatever the other threads do: a call that has begun is decided by at most one step of its thread, and once
   it is over by exactly one, unless it came too late to be let in.
  */
  lemma {:induction false} DecidedOnce(ss: seq<Vfs>, es: seq<Event>, u: nat, op: Op)
    requires Path(ss, es) && Inv(ss[0]) && u < |ss[0].pcs| && ss[0].pcs[u] == Starting(op) && !ss[|es|].panicked
    requires forall i {:trigger es[i]} :: 0 <= i < |es| && es[i].t == u ==> es[i].act.Go?
    ensures Inv(ss[|es|]) && u < |ss[|es|].pcs|
    ensures OnCourse(ss[|es|].pcs[u], op, Decisions(ss, es, u), Refusals(ss, es, u))
  {
    hide Apply; hide Enabled; hide Inv; hide Decides; hide Refused;
    if es != [] {
      var k := |es| - 1;
      PathPrefix(ss, es);
      assert es[k] in es;
      NotStopped(ss[k], es[k]);
      DecidedOnce(ss[..|es|], es[..k], u, op);
      LastShape(ss, es);
      InvStep(ss[k], es[k].t, es[k].act);
      CourseStep(ss[k], es[k], u, op, Decisions(ss[..|es|], es[..k], u), Refusals(ss[..|es|], es[..k], u));
    }
  }

  lemma NotStopped(s: Vfs, e: Event)
    requires Enabled(s, e.t, e.act)
    ensures !s.panicked && Shape(s)
  {
  }

  // ---------------------------------------------------------------- the driver's answer to an open

  /** The step reserves entry f for an open. */
  predicate Reserves(s: Vfs, e: Event, f: nat) {
    && e.t < |s.pcs| && e.act.Go? && s.pcs[e.t].HasBoth? && s.pcs[e.t].op.Open?
    && f == FreeFile(s.files) < |s.files| && Lookup(s.rows, s.pcs[e.t].op.name) != 0
  }

  /** An entry that is free is taken only by an open that reserves it. */
  lemma FreeEntryStep(s: Vfs, e: Event, f: nat)
    requires Enabled(s, e.t, e.act) && f < MAX_OPEN_FILES && s.files[f] == 0 && !Reserves(s, e, f)
    ensures |Apply(s, e.t, e.act).files| == MAX_OPEN_FILES && Apply(s, e.t, e.act).files[f] == 0
  {
    hide WithTable; hide Enter; hide Leave; hide FirstLock; hide HaltStep; hide CanGo; hide Lookup;
    hide GoOn; hide Reserves;
    if e.act.Go? {
      FreeEntryGo(s, e.t, e.act.ok, f);
    }
  }

  lemma FreeEntryGo(s: Vfs, t: nat, ok: bool, f: nat)
    requires Shape(s) && t < |s.pcs| && CanGo(s, s.pcs[t]) && f < MAX_OPEN_FILES && s.files[f] == 0
             && !Reserves(s, Event(t, Go(ok)), f)
    ensures |GoOn(s, t, ok).files| == MAX_OPEN_FILES && GoOn(s, t, ok).files[f] == 0
  {
    hide WithTable; hide Enter; hide Leave; hide FirstLock; hide HaltStep; hide CanGo; hide Lookup; hide Shape;
    assert |s.files| == MAX_OPEN_FILES && PcShape(s.pcs[t]) by {
      ShapeAt(s, t);
    }
  }

  lemma ShapeAt(s: Vfs, t: nat)
    requires Shape(s) && t < |s.pcs|
    ensures |s.files| == MAX_OPEN_FILES && PcShape(s.pcs[t])
  {
  }

  /** What becomes of an open whose driver says yes: it goes out with its handle. */
  predicate Granting(p: Pc, f: nat) {
    p == Ending(f) || p == Leaving(f) || p == Idle
  }

  /** ... and no: it gives its entry up and goes out with none. */
  predicate Denying(p: Pc, f: nat) {
    p == Undo(f) || p == Undoing(f) || GoneOut(p)
  }

  predicate GoneOut(p: Pc) {
    p == Ending(-1) || p == Leaving(-1) || p == Idle
  }

  lemma AnswerStep(s: Vfs, u: nat, f: nat, fs: Fs, ok: bool)
    requires Inv(s) && Enabled(s, u, Go(ok)) && s.pcs[u] == Driver(f, fs)
    ensures var s' := Apply(s, u, Go(ok));
            u < |s'.pcs| && s'.pcs[u] == (if ok then Ending(f) else Undo(f)) && s'.files == s.files
  {
    hide LocksOk; hide ShutdownOk; hide LocalsOk; hide GoneOk; hide PlansOk; hide FilesOk; hide HaltStep;
    hide WithTable; hide WithBoth; hide Enter; hide FirstLock; hide WithFiles; hide Leave; hide Release;
  }

  lemma GrantingStep(s: Vfs, e: Event, u: nat, f: nat)
    requires Inv(s) && Enabled(s, e.t, e.act) && u < |s.pcs| && Granting(s.pcs[u], f) && (e.t == u ==> e.act.Go?)
    ensures u < |Apply(s, e.t, e.act).pcs| && Granting(Apply(s, e.t, e.act).pcs[u], f)
  {
    hide LocksOk; hide ShutdownOk; hide LocalsOk; hide GoneOk; hide PlansOk; hide FilesOk; hide HaltStep;
    hide WithTable; hide WithBoth; hide Enter; hide FirstLock; hide WithFiles; hide Release;
    if e.t != u {
      hide Apply; hide Enabled;
      OthersStay(s, e, u);
    }
  }

  lemma DenyingStep(s: Vfs, e: Event, u: nat, f: nat)
    requires Inv(s) && Enabled(s, e.t, e.act) && u < |s.pcs| && Denying(s.pcs[u], f) && (e.t == u ==> e.act.Go?)
    ensures var s' := Apply(s, e.t, e.act);
            && u < |s'.pcs| && Denying(s'.pcs[u], f)
            && (GoneOut(s'.pcs[u]) <==> GoneOut(s.pcs[u]) || (e.t == u && s.pcs[u] == Undoing(f)))
            && (e.t == u && s.pcs[u] == Undoing(f) ==> f < |s'.files| && s'.files[f] == 0)
  {
    hide LocksOk; hide ShutdownOk; hide LocalsOk; hide GoneOk; hide PlansOk; hide FilesOk; hide HaltStep;
    hide WithTable; hide WithBoth; hide Enter; hide FirstLock; hide WithFiles;
    if e.t != u {
      hide Apply; hide Enabled;
      OthersStay(s, e, u);
    }
  }

  /** Over steps of other threads a thread stays where it is. */
  lemma {:induction false} Waits(ss: seq<Vfs>, es: seq<Event>, u: nat)
    requires Path(ss, es) && Inv(ss[0]) && u < |ss[0].pcs|
    requires forall i {:trigger es[i]} :: 0 <= i < |es| ==> es[i].t != u
    ensures Inv(ss[|es|]) && u < |ss[|es|].pcs| && ss[|es|].pcs[u] == ss[0].pcs[u]
  {
    hide Apply; hide Enabled; hide Inv;
    if es != [] {
      var k := |es| - 1;
      PathPrefix(ss, es);
      assert es[k] in es;
      Waits(ss[..|es|], es[..k], u);
      OthersStay(ss[k], es[k], u);
      InvStep(ss[k], es[k].t, es[k].act);
    }
  }

  /** An entry in use stays as it is until it is released ... */
  lemma {:induction false} EntryKept(ss: seq<Vfs>, es: seq<Event>, f: nat)
    requires Path(ss, es) && |ss[0].files| == MAX_OPEN_FILES && f < MAX_OPEN_FILES && ss[0].files[f] != 0
    requires forall i {:trigger es[i]} :: 0 <= i < |es| ==> !Releases(ss[i], es[i], f)
    ensures |ss[|es|].files| == MAX_OPEN_FILES && ss[|es|].files[f] == ss[0].files[f]
  {
    hide Apply; hide Enabled; hide Releases;
    if es != [] {
      var k := |es| - 1;
      PathPrefix(ss, es);
      assert !Releases(ss[k], es[k], f);
      EntryKept(ss[..|es|], es[..k], f);
      EntryStep(ss[k], es[k], f);
    }
  }

  /** ... and a free one free until it is reserved. */
  lemma {:induction false} EntryFree(ss: seq<Vfs>, es: seq<Event>, f: nat)
    requires Path(ss, es) && |ss[0].files| == MAX_OPEN_FILES && f < MAX_OPEN_FILES && ss[0].files[f] == 0
    requires forall i {:trigger es[i]} :: 0 <= i < |es| ==> !Reserves(ss[i], es[i], f)
    ensures |ss[|es|].files| == MAX_OPEN_FILES && ss[|es|].files[f] == 0
  {
    hide Apply; hide Enabled; hide Reserves;
    if es != [] {
      var k := |es| - 1;
      PathPrefix(ss, es);
      assert !Reserves(ss[k], es[k], f);
      EntryFree(ss[..|es|], es[..k], f);
      FreeEntryStep(ss[k], es[k], f);
    }
  }

  lemma {:induction false} GrantingRun(ss: seq<Vfs>, es: seq<Event>, u: nat, f: nat)
    requires Path(ss, es) && Inv(ss[0]) && u < |ss[0].pcs| && Granting(ss[0].pcs[u], f)
    requires forall i {:trigger es[i]} :: 0 <= i < |es| && es[i].t == u ==> es[i].act.Go?
    ensures Inv(ss[|es|]) && u < |ss[|es|].pcs| && Granting(ss[|es|].pcs[u], f)
  {
    hide Apply; hide Enabled; hide Inv; hide Granting;
    if es != [] {
      var k := |es| - 1;
      PathPrefix(ss, es);
      assert es[k] in es;
      GrantingRun(ss[..|es|], es[..k], u, f);
      InvStep(ss[k], es[k].t, es[k].act);
      GrantingStep(ss[k], es[k], u, f);
    }
  }

  /** j is the step at which the entry was given up, once the call is on its way out. */
  lemma {:induction false} DenyingRun(ss: seq<Vfs>, es: seq<Event>, u: nat, f: nat) returns (j: nat)
    requires Path(ss, es) && Inv(ss[0]) && u < |ss[0].pcs| && ss[0].pcs[u] == Undo(f)
    requires forall i {:trigger es[i]} :: 0 <= i < |es| && es[i].t == u ==> es[i].act.Go?
    ensures Inv(ss[|es|]) && u < |ss[|es|].pcs| && Denying(ss[|es|].pcs[u], f)
    ensures GoneOut(ss[|es|].pcs[u]) ==>
              j < |es| && GivesUp(ss[j], es[j], u, f) && f < |ss[j + 1].files| && ss[j + 1].files[f] == 0
  {
    hide Apply; hide Enabled; hide Inv; hide Denying; hide GoneOut;
    j := 0;
    UndoDenies(f);
    if es != [] {
      var k := |es| - 1;
      PathPrefix(ss, es);
      assert es[k] in es;
      j := DenyingRun(ss[..|es|], es[..k], u, f);
      InvStep(ss[k], es[k].t, es[k].act);
      DenyingStep(ss[k], es[k], u, f);
      if !GoneOut(ss[k].pcs[u]) {
        j := k;
      } else {
        assert ss[..|es|][j] == ss[j] && es[..k][j] == es[j] && ss[..|es|][j + 1] == ss[j + 1];
      }
    }
  }

  lemma UndoDenies(f: nat)
    ensures Denying(Undo(f), f) && !GoneOut(Undo(f))
  {
  }

  /** The step at which an open gives entry f up. */
  predicate GivesUp(s: Vfs, e: Event, u: nat, f: nat) {
    e.t == u && u < |s.pcs| && s.pcs[u] == Undoing(f)
  }

  lemma ReserveStep(s: Vfs, e: Event, f: nat)
    requires Inv(s) && Enabled(s, e.t, e.act) && Reserves(s, e, f)
    ensures var s', fs := Apply(s, e.t, e.act), Lookup(s.rows, s.pcs[e.t].op.name);
            && fs != 0 && f < MAX_OPEN_FILES == |s'.files| && s'.files[f] == fs
            && e.t < |s'.pcs| && s'.pcs[e.t] == Driver(f, fs)
  {
    hide LocksOk; hide ShutdownOk; hide LocalsOk; hide GoneOk; hide PlansOk; hide FilesOk; hide HaltStep; hide RowOf;
    hide WithTable; hide Enter; hide FirstLock; hide WithFiles; hide Leave; hide Release;
  }

  /**
   An open, from the step that reserves entry f to its end, with any steps of other threads: at step k the driver
   of the filesystem found answers. If it says yes the call goes out with handle f, which names that
   filesystem unless another call has released it. If it says no the call goes out with none, and at some step
   j it has cleared the entry, which was its own still unless another call had released it, and which then
   stays free until another open reserves it.
  */
  lemma OpenAnswered(ss: seq<Vfs>, es: seq<Event>, u: nat, f: nat, k: nat, ok: bool) returns (j: nat)
    requires Path(ss, es) && Inv(ss[0]) && 0 < k < |es| && es[0].t == u && Reserves(ss[0], es[0], f)
    requires es[k] == Event(u, Go(ok)) && forall i {:trigger es[i]} :: 0 < i < k ==> es[i].t != u
    requires forall i {:trigger es[i]} :: k < i < |es| && es[i].t == u ==> es[i].act.Go?
    ensures u < |ss[0].pcs| && ss[0].pcs[u].HasBoth? && ss[0].pcs[u].op.Open?
    ensures var fs, s := Lookup(ss[0].rows, ss[0].pcs[u].op.name), ss[|es|];
            && u < |ss[k].pcs| && ss[k].pcs[u] == Driver(f, fs) && u < |s.pcs| && f < |s.files|
            && (ok ==> Granting(s.pcs[u], f) && (Unreleased(ss, es, f, 1, |es|) ==> s.files[f] == fs))
            && (!ok ==> Denying(s.pcs[u], f))
            && (!ok && GoneOut(s.pcs[u]) ==>
                  && k < j < |es| && GivesUp(ss[j], es[j], u, f) && f < |ss[j].files| && f < |ss[j + 1].files|
                  && (Unreleased(ss, es, f, 1, j) ==> ss[j].files[f] == fs) && ss[j + 1].files[f] == 0
                  && (Unreserved(ss, es, f, j + 1, |es|) ==> s.files[f] == 0))
  {
    hide Apply; hide Enabled; hide Inv; hide Reserves; hide Releases; hide Granting; hide Denying; hide GoneOut;
    hide Unreleased; hide Unreserved;
    var fs := Driven(ss, es, u, f, k);
    j := 0;
    if ok {
      AnsweredYes(ss, es, u, f, k, fs);
    } else {
      j := AnsweredNo(ss, es, u, f, k, fs);
    }
  }

  lemma AnsweredYes(ss: seq<Vfs>, es: seq<Event>, u: nat, f: nat, k: nat, fs: Fs)
    requires Path(ss, es) && Inv(ss[0]) && 0 < k < |es| && Inv(ss[k]) && es[k] == Event(u, Go(true)) && fs != 0
    requires f < MAX_OPEN_FILES == |ss[1].files| && ss[1].files[f] == fs
    requires u < |ss[k].pcs| && ss[k].pcs[u] == Driver(f, fs)
    requires forall i {:trigger es[i]} :: k < i < |es| && es[i].t == u ==> es[i].act.Go?
    ensures u < |ss[|es|].pcs| && Granting(ss[|es|].pcs[u], f)
    ensures f < |ss[|es|].files| && (Unreleased(ss, es, f, 1, |es|) ==> ss[|es|].files[f] == fs)
  {
    hide Apply; hide Enabled; hide Inv; hide Granting; hide Unreleased;
    assert es[k] in es;
    AnswerStep(ss[k], u, f, fs, true);
    InvStep(ss[k], u, Go(true));
    TailPath(ss, es, k + 1);
    var q, r := ss[k + 1..], es[k + 1..];
    assert forall i {:trigger r[i]} :: 0 <= i < |r| ==> r[i] == es[k + 1 + i];
    EndingGrants(f);
    GrantingRun(q, r, u, f);
    EntryUntil(ss, es, f, |es|);
  }

  lemma AnsweredNo(ss: seq<Vfs>, es: seq<Event>, u: nat, f: nat, k: nat, fs: Fs) returns (j: nat)
    requires Path(ss, es) && Inv(ss[0]) && 0 < k < |es| && Inv(ss[k]) && es[k] == Event(u, Go(false)) && fs != 0
    requires f < MAX_OPEN_FILES == |ss[1].files| && ss[1].files[f] == fs
    requires u < |ss[k].pcs| && ss[k].pcs[u] == Driver(f, fs)
    requires forall i {:trigger es[i]} :: k < i < |es| && es[i].t == u ==> es[i].act.Go?
    ensures u < |ss[|es|].pcs| && Denying(ss[|es|].pcs[u], f) && f < |ss[|es|].files|
    ensures GoneOut(ss[|es|].pcs[u]) ==>
              && k < j < |es| && GivesUp(ss[j], es[j], u, f) && f < |ss[j].files| && f < |ss[j + 1].files|
              && (Unreleased(ss, es, f, 1, j) ==> ss[j].files[f] == fs) && ss[j + 1].files[f] == 0
              && (Unreserved(ss, es, f, j + 1, |es|) ==> ss[|es|].files[f] == 0)
  {
    hide Apply; hide Enabled; hide Inv; hide Denying; hide GoneOut; hide Unreleased; hide Unreserved; hide GivesUp;
    assert es[k] in es;
    AnswerStep(ss[k], u, f, fs, false);
    InvStep(ss[k], u, Go(false));
    TailPath(ss, es, k + 1);
    var q, r := ss[k + 1..], es[k + 1..];
    assert forall i {:trigger r[i]} :: 0 <= i < |r| ==> r[i] == es[k + 1 + i];
    var i := DenyingRun(q, r, u, f);
    j := k + 1 + i;
    FilesLength(ss[|es|]);
    if GoneOut(ss[|es|].pcs[u]) {
      assert ss[j] == q[i] && es[j] == r[i] && ss[j + 1] == q[i + 1];
      InvAt(ss, es, j);
      InvAt(ss, es, j + 1);
      FilesLength(ss[j + 1]);
      EntryUntil(ss, es, f, j);
      EntrySince(ss, es, f, j + 1);
    }
  }

  /** No step from lo to hi releases entry f. */
  ghost predicate Unreleased(ss: seq<Vfs>, es: seq<Event>, f: nat, lo: nat, hi: nat)
    requires hi <= |es| < |ss|
  {
    forall i {:trigger es[i]} :: lo <= i < hi ==> !Releases(ss[i], es[i], f)
  }

  /** ... or reserves it. */
  ghost predicate Unreserved(ss: seq<Vfs>, es: seq<Event>, f: nat, lo: nat, hi: nat)
    requires hi <= |es| < |ss|
  {
    forall i {:trigger es[i]} :: lo <= i < hi ==> !Reserves(ss[i], es[i], f)
  }

  lemma EndingGrants(f: nat)
    ensures Granting(Ending(f), f)
  {
  }

  lemma FilesLength(s: Vfs)
    requires Inv(s)
    ensures |s.files| == MAX_OPEN_FILES
  {
  }

  /** From the reservation to the driver. */
  lemma Driven(ss: seq<Vfs>, es: seq<Event>, u: nat, f: nat, k: nat) returns (fs: Fs)
    requires Path(ss, es) && Inv(ss[0]) && 0 < k < |es| && es[0].t == u && Reserves(ss[0], es[0], f)
    requires forall i {:trigger es[i]} :: 0 < i < k ==> es[i].t != u
    ensures u < |ss[0].pcs| && ss[0].pcs[u].HasBoth? && ss[0].pcs[u].op.Open?
            && fs == Lookup(ss[0].rows, ss[0].pcs[u].op.name) != 0
    ensures Inv(ss[1]) && f < MAX_OPEN_FILES == |ss[1].files| && ss[1].files[f] == fs
    ensures Inv(ss[k]) && u < |ss[k].pcs| && ss[k].pcs[u] == Driver(f, fs)
  {
    hide Apply; hide Enabled; hide Inv;
    assert es[0] in es;
    fs := Lookup(ss[0].rows, ss[0].pcs[u].op.name);
    ReserveStep(ss[0], es[0], f);
    InvStep(ss[0], es[0].t, es[0].act);
    HeadPath(ss, es, k);
    TailPath(ss[..k + 1], es[..k], 1);
    var q, r := ss[..k + 1][1..], es[..k][1..];
    assert forall i {:trigger r[i]} :: 0 <= i < |r| ==> r[i] == es[i + 1];
    Waits(q, r, u);
  }

  lemma EntryUntil(ss: seq<Vfs>, es: seq<Event>, f: nat, hi: nat)
    requires Path(ss, es) && 0 < hi <= |es| && |ss[1].files| == MAX_OPEN_FILES && f < MAX_OPEN_FILES
             && ss[1].files[f] != 0 && Inv(ss[hi])
    ensures f < |ss[hi].files| && (Unreleased(ss, es, f, 1, hi) ==> ss[hi].files[f] == ss[1].files[f])
  {
    hide Apply; hide Enabled; hide Inv; hide Releases;
    FilesLength(ss[hi]);
    if Unreleased(ss, es, f, 1, hi) {
      HeadPath(ss, es, hi);
      TailPath(ss[..hi + 1], es[..hi], 1);
      var q, r := ss[..hi + 1][1..], es[..hi][1..];
      assert forall i {:trigger r[i]} :: 0 <= i < |r| ==> r[i] == es[i + 1] && q[i] == ss[i + 1];
      EntryKept(q, r, f);
    }
  }

  lemma EntrySince(ss: seq<Vfs>, es: seq<Event>, f: nat, lo: nat)
    requires Path(ss, es) && lo <= |es| && |ss[lo].files| == MAX_OPEN_FILES && f < MAX_OPEN_FILES
             && ss[lo].files[f] == 0 && Inv(ss[|es|])
    ensures f < |ss[|es|].files| && (Unreserved(ss, es, f, lo, |es|) ==> ss[|es|].files[f] == 0)
  {
    hide Apply; hide Enabled; hide Inv; hide Reserves;
    FilesLength(ss[|es|]);
    if Unreserved(ss, es, f, lo, |es|) {
      TailPath(ss, es, lo);
      var q, r := ss[lo..], es[lo..];
      assert forall i {:trigger r[i]} :: 0 <= i < |r| ==> r[i] == es[lo + i] && q[i] == ss[lo + i];
      EntryFree(q, r, f);
    }
  }

  // ---------------------------------------------------------------- the driver's answer to a read or write

  /** A read or write that moved bytes, on its way to the open files and out. */
  predicate Advancing(p: Pc, f: nat) {
    p == Moving(f) || p == Moved(f) || Granting(p, f)
  }

  /** It takes the open files to move the seek position. */
  predicate MovesOn(s: Vfs, e: Event, u: nat, f: nat) {
    e.t == u && u < |s.pcs| && s.pcs[u] == Moving(f) && s.fileSem < 0
  }

  lemma AccessStep(s: Vfs, u: nat, f: nat, fs: Fs, ok: bool)
    requires Inv(s) && Enabled(s, u, Go(ok)) && s.pcs[u] == Using(f, fs)
    ensures var s' := Apply(s, u, Go(ok));
            u < |s'.pcs| && s'.pcs[u] == (if ok then Moving(f) else Ending(f)) && s'.files == s.files
  {
    hide LocksOk; hide ShutdownOk; hide LocalsOk; hide GoneOk; hide PlansOk; hide FilesOk; hide HaltStep;
    hide WithTable; hide WithBoth; hide Enter; hide FirstLock; hide WithFiles; hide Leave; hide Release;
  }

  lemma AdvancingStep(s: Vfs, e: Event, u: nat, f: nat)
    requires Inv(s) && Enabled(s, e.t, e.act) && u < |s.pcs| && Advancing(s.pcs[u], f) && (e.t == u ==> e.act.Go?)
    ensures var s' := Apply(s, e.t, e.act);
            && u < |s'.pcs| && Advancing(s'.pcs[u], f)
            && (s'.pcs[u] == Moving(f) <==> s.pcs[u] == Moving(f) && e.t != u)
            && (s.pcs[u] == Moving(f) && e.t == u ==> MovesOn(s, e, u, f))
  {
    hide LocksOk; hide ShutdownOk; hide LocalsOk; hide GoneOk; hide PlansOk; hide FilesOk; hide HaltStep;
    hide WithTable; hide WithBoth; hide Enter; hide FirstLock; hide WithFiles; hide Release;
    if e.t != u {
      hide Apply; hide Enabled;
      OthersStay(s, e, u);
    }
  }

  lemma {:induction false} AdvancingRun(ss: seq<Vfs>, es: seq<Event>, u: nat, f: nat) returns (j: nat)
    requires Path(ss, es) && Inv(ss[0]) && u < |ss[0].pcs| && ss[0].pcs[u] == Moving(f)
    requires forall i {:trigger es[i]} :: 0 <= i < |es| && es[i].t == u ==> es[i].act.Go?
    ensures Inv(ss[|es|]) && u < |ss[|es|].pcs| && Advancing(ss[|es|].pcs[u], f)
    ensures ss[|es|].pcs[u] != Moving(f) ==> j < |es| && MovesOn(ss[j], es[j], u, f)
  {
    hide Apply; hide Enabled; hide Inv; hide Granting; hide MovesOn;
    j := 0;
    if es != [] {
      var k := |es| - 1;
      PathPrefix(ss, es);
      assert es[k] in es;
      j := AdvancingRun(ss[..|es|], es[..k], u, f);
      InvStep(ss[k], es[k].t, es[k].act);
      AdvancingStep(ss[k], es[k], u, f);
      if ss[k].pcs[u] == Moving(f) {
        j := k;
      } else {
        assert ss[..|es|][j] == ss[j] && es[..k][j] == es[j];
      }
    }
  }

  /**
   A read or write from its driver on: either way it hands its file back, and if bytes were moved it has taken
   the open files, when nobody held them, by the time it goes out.
  */
  lemma AccessAnswered(ss: seq<Vfs>, es: seq<Event>, u: nat, f: nat, fs: Fs, ok: bool) returns (j: nat)
    requires Path(ss, es) && Inv(ss[0]) && es != [] && es[0] == Event(u, Go(ok))
    requires u < |ss[0].pcs| && ss[0].pcs[u] == Using(f, fs)
    requires forall i {:trigger es[i]} :: 0 <= i < |es| && es[i].t == u ==> es[i].act.Go?
    ensures u < |ss[|es|].pcs| && Advancing(ss[|es|].pcs[u], f) && (!ok ==> Granting(ss[|es|].pcs[u], f))
    ensures ok && Granting(ss[|es|].pcs[u], f) ==> 0 < j < |es| && MovesOn(ss[j], es[j], u, f)
  {
    hide Apply; hide Enabled; hide Inv; hide MovesOn;
    assert es[0] in es;
    AccessStep(ss[0], u, f, fs, ok);
    InvStep(ss[0], u, Go(ok));
    TailPath(ss, es, 1);
    var q, r := ss[1..], es[1..];
    assert forall i {:trigger r[i]} :: 0 <= i < |r| ==> r[i] == es[1 + i];
    j := 0;
    if ok {
      var i := AdvancingRun(q, r, u, f);
      j := i + 1;
      if ss[|es|].pcs[u] != Moving(f) {
        assert ss[j] == q[i] && es[j] == r[i];
      }
    } else {
      EndingGrants(f);
      GrantingRun(q, r, u, f);
    }
  }
}
