/**
 Callers that own their files: each passes only a handle it got from open and has not closed,
 and uses a handle in one call at a time. Then no call finds its entry empty and every driver
 call goes to a mounted filesystem.
*/
module VfsOwners {
  import opened VfsTables
  import opened VfsProtocol
  import opened VfsRaces

  /** The file a thread is in charge of, -1 if none. */
  function SlotOf(p: Pc): (r: int)
    ensures Headed(p) ==> r == p.file
  {
    match p
    case Starting(op) => OpSlot(op)
    case Entering(op) => OpSlot(op)
    case Begun(op) => OpSlot(op)
    case HasTable(op) => OpSlot(op)
    case HasBoth(op, row) => OpSlot(op)
    case HasFiles(op) => OpSlot(op)
    case Driver(f, fs) => f
    case Using(f, fs) => f
    case Moving(f) => f
    case Moved(f) => f
    case Undo(f) => f
    case Undoing(f) => f
    case Ending(f) => f
    case Leaving(f) => f
    case _ => -1
  }

  function OpSlot(op: Op): int {
    if OnFile(op) then op.file else -1
  }

  /** The files a call takes from the handles its caller has. */
  function Files(f: int): set<int> {
    if f >= 0 then {f} else {}
  }

  /** The handles callers have, after a step: a call takes its own along and hands it back, open adds one. */
  function HandlesAfter(hs: set<int>, s: Vfs, e: Event): set<int>
    requires e.t < |s.pcs|
  {
    match e.act
    case Begin(op) => hs - Files(OpSlot(op))
    case BeginHalt => hs
    case Go(ok) =>
      match s.pcs[e.t]
      case Entering(op) => if s.usable then hs else hs + Files(OpSlot(op))
      case Leaving(f) => hs + Files(f)
      case _ => hs
  }

  /** The caller owns the file it passes. */
  predicate Allowed(hs: set<int>, e: Event) {
    e.act.Begin? && OnFile(e.act.op) ==> e.act.op.file in hs
  }

  /**
   Every file that a caller or a call is in charge of is open and has one owner; a call's filesystem is that
   of its entry.
  */
  ghost predicate OwnersOk(s: Vfs, hs: set<int>) {
    && (forall h :: h in hs ==> IsOpen(s, h))
    && (forall t {:trigger s.pcs[t]} :: 0 <= t < |s.pcs| ==> SlotOk(s, s.pcs[t]) && SlotOf(s.pcs[t]) !in hs)
    && (forall t, u {:trigger s.pcs[t], s.pcs[u]} :: 0 <= t < u < |s.pcs| && SlotOf(s.pcs[t]) >= 0 ==>
         SlotOf(s.pcs[t]) != SlotOf(s.pcs[u]))
  }

  predicate SlotOk(s: Vfs, p: Pc) {
    && (SlotOf(p) == -1 || IsOpen(s, SlotOf(p)))
    && ((p.Starting? || p.Entering? || p.Begun? || p.HasFiles?) && OnFile(p.op) ==> p.op.file >= 0)
    && (Headed(p) ==> p.file < |s.files| && s.files[p.file] == p.fs)
  }

  /**
   What a step does to the file its thread is in charge of: nothing, or it is taken over, handed back,
   reserved or given up.
  */
  predicate SlotMoves(s: Vfs, s': Vfs, hs: set<int>, hs': set<int>, p: Pc, q: Pc) {
    var a, b := SlotOf(p), SlotOf(q);
    && |s'.files| == |s.files|
    && (|| (b == a && hs' == hs && s'.files == s.files)
        || (a == -1 && b in hs && hs' == hs - {b} && s'.files == s.files)
        || (b == -1 && a >= 0 && hs' == hs + {a} && s'.files == s.files)
        || (a == -1 && 0 <= b < |s.files| && s.files[b] == 0 && s'.files[b] != 0 && hs' == hs
             && s'.files == s.files[b := s'.files[b]])
        || (b == -1 && 0 <= a < |s.files| && hs' == hs && s'.files == s.files[a := 0]))
  }

  lemma OwnersFrom(s: Vfs, s': Vfs, hs: set<int>, hs': set<int>, t: nat, q: Pc)
    requires OwnersOk(s, hs) && Moves(s, s', t, q) && SlotMoves(s, s', hs, hs', s.pcs[t], q) && SlotOk(s', q)
    ensures OwnersOk(s', hs')
  {
    hide SlotOf;
  }

  /** With its file open, no step panics, and the thread's file moves as it should. */
  lemma StepMoves(s: Vfs, hs: set<int>, e: Event)
    requires Enabled(s, e.t, e.act) && Allowed(hs, e) && OwnersOk(s, hs)
    requires e.t < |Apply(s, e.t, e.act).pcs|
    ensures !Apply(s, e.t, e.act).panicked
    ensures SlotMoves(s, Apply(s, e.t, e.act), hs, HandlesAfter(hs, s, e), s.pcs[e.t], Apply(s, e.t, e.act).pcs[e.t])
    ensures SlotOk(Apply(s, e.t, e.act), Apply(s, e.t, e.act).pcs[e.t])
  {
    hide OwnersOk;
    var p := s.pcs[e.t];
    assert PcShape(p);
    OwnerAt(s, hs, e.t);
    match e.act {
      case Begin(op) => BeginMoves(s, hs, e, op);
      case BeginHalt =>
      case Go(ok) =>
        match p {
          case Entering(op) => EnterMoves(s, hs, e, op);
          case HasTable(op) => TableMoves(s, hs, e, op);
          case HasBoth(op, row) => BothMoves(s, hs, e, op, row);
          case HasFiles(op) => FilesMove(s, hs, e, op);
          case Begun(op) => BegunMoves(s, hs, e, op);
          case _ => if Halts(p) { HaltMoves(s, hs, e); } else { OtherMoves(s, hs, e); }
        }
    }
  }

  lemma OwnerAt(s: Vfs, hs: set<int>, t: nat)
    requires OwnersOk(s, hs) && t < |s.pcs|
    ensures SlotOk(s, s.pcs[t]) && SlotOf(s.pcs[t]) !in hs && forall h :: h in hs ==> IsOpen(s, h)
  {
    hide SlotOf;
  }

  /** The step of thread e.t does to the files and handles what it should. */
  predicate Behaves(s: Vfs, hs: set<int>, e: Event)
    requires Enabled(s, e.t, e.act)
  {
    var s' := Apply(s, e.t, e.act);
    && e.t < |s'.pcs| && !s'.panicked
    && SlotMoves(s, s', hs, HandlesAfter(hs, s, e), s.pcs[e.t], s'.pcs[e.t]) && SlotOk(s', s'.pcs[e.t])
  }

  lemma BeginMoves(s: Vfs, hs: set<int>, e: Event, op: Op)
    requires Enabled(s, e.t, e.act) && e.act == Begin(op) && Allowed(hs, e) && forall h :: h in hs ==> IsOpen(s, h)
    ensures Behaves(s, hs, e)
  {
    assert !OnFile(op) ==> hs - Files(OpSlot(op)) == hs;
  }

  lemma EnterMoves(s: Vfs, hs: set<int>, e: Event, op: Op)
    requires Enabled(s, e.t, e.act) && e.act.Go? && s.pcs[e.t] == Entering(op) && SlotOk(s, s.pcs[e.t])
    ensures Behaves(s, hs, e)
  {
    assert !OnFile(op) ==> hs + Files(OpSlot(op)) == hs;
  }

  lemma TableMoves(s: Vfs, hs: set<int>, e: Event, op: Op)
    requires Enabled(s, e.t, e.act) && e.act.Go? && s.pcs[e.t] == HasTable(op) && PcShape(s.pcs[e.t])
    ensures Behaves(s, hs, e)
  {
    hide MountRows; hide RowOf;
  }

  lemma BothMoves(s: Vfs, hs: set<int>, e: Event, op: Op, row: nat)
    requires Enabled(s, e.t, e.act) && e.act.Go? && s.pcs[e.t] == HasBoth(op, row) && PcShape(s.pcs[e.t])
    ensures Behaves(s, hs, e)
  {
    hide Lookup; hide FreeFile;
  }

  lemma FilesMove(s: Vfs, hs: set<int>, e: Event, op: Op)
    requires Enabled(s, e.t, e.act) && e.act.Go? && s.pcs[e.t] == HasFiles(op) && PcShape(s.pcs[e.t])
             && SlotOk(s, s.pcs[e.t])
    ensures Behaves(s, hs, e)
  {
  }

  lemma BegunMoves(s: Vfs, hs: set<int>, e: Event, op: Op)
    requires Enabled(s, e.t, e.act) && e.act.Go? && s.pcs[e.t] == Begun(op) && SlotOk(s, s.pcs[e.t])
    ensures Behaves(s, hs, e)
  {
    hide WithTable; hide WithBoth; hide WithFiles; hide HaltStep; hide Release; hide Enter; hide Leave;
  }

  lemma HaltMoves(s: Vfs, hs: set<int>, e: Event)
    requires Enabled(s, e.t, e.act) && e.act.Go? && Halts(s.pcs[e.t])
    ensures Behaves(s, hs, e)
  {
    hide GoOn; hide Shape; hide CanGo; hide HaltStep;
    assert Halts(s.pcs[e.t]);
    HaltGoes(s, e.t, e.act.ok);
  }

  /** A shutdown touches no open file, and fails no assertion. */
  lemma HaltGoes(s: Vfs, t: nat, ok: bool)
    requires Shape(s) && t < |s.pcs| && Halts(s.pcs[t]) && CanGo(s, s.pcs[t])
    ensures var s' := GoOn(s, t, ok);
            s'.files == s.files && s'.panicked == s.panicked && t < |s'.pcs| && Halts(s'.pcs[t])
  {
    hide Cleared; hide MountedSet; hide Shape;
  }

  /** On the way to a driver, back from it, or at the end. */
  lemma OtherMoves(s: Vfs, hs: set<int>, e: Event)
    requires Enabled(s, e.t, e.act) && e.act.Go? && SlotOk(s, s.pcs[e.t])
    requires var p := s.pcs[e.t];
             PcShape(p) && !p.Entering? && !p.Begun? && !p.HasTable? && !p.HasBoth? && !p.HasFiles? && !Halts(p)
    ensures Behaves(s, hs, e)
  {
    hide WithTable; hide WithBoth; hide WithFiles; hide HaltStep; hide Enter; hide FirstLock; hide Release; hide Leave;
    hide Behaves; hide SlotOk;
    match s.pcs[e.t] {
      case Undoing(f) => GivesUp(s, hs, e);
      case Leaving(f) => Leaves(s, hs, e);
      case _ => PlainMoves(s, hs, e);
    }
  }

  lemma GivesUp(s: Vfs, hs: set<int>, e: Event)
    requires Enabled(s, e.t, e.act) && e.act.Go? && SlotOk(s, s.pcs[e.t]) && s.pcs[e.t].Undoing? && PcShape(s.pcs[e.t])
    ensures Behaves(s, hs, e)
  {
    hide WithTable; hide WithBoth; hide WithFiles; hide HaltStep; hide Enter; hide FirstLock; hide Leave;
  }

  lemma Leaves(s: Vfs, hs: set<int>, e: Event)
    requires Enabled(s, e.t, e.act) && e.act.Go? && SlotOk(s, s.pcs[e.t]) && s.pcs[e.t].Leaving?
    ensures Behaves(s, hs, e)
  {
    hide WithTable; hide WithBoth; hide WithFiles; hide HaltStep; hide Enter; hide FirstLock; hide Release;
    assert hs + Files(-1) == hs;
  }

  lemma PlainMoves(s: Vfs, hs: set<int>, e: Event)
    requires Enabled(s, e.t, e.act) && e.act.Go? && SlotOk(s, s.pcs[e.t])
    requires var p := s.pcs[e.t];
             p.Starting? || p.Driver? || p.Using? || p.Moving? || p.Moved? || p.Undo? || p.Ending?
    ensures Behaves(s, hs, e)
  {
    hide WithTable; hide WithBoth; hide WithFiles; hide HaltStep; hide Enter; hide FirstLock; hide Release; hide Leave;
    hide Shape; hide CanGo;
  }

  // ---------------------------------------------------------------- whole runs

  /** The handles along a run in which every caller owns the files it passes. */
  ghost predicate Owned(ss: seq<Vfs>, es: seq<Event>, hss: seq<set<int>>) {
    && Path(ss, es) && |hss| == |ss| && hss[0] == {}
    && forall i {:trigger es[i]} :: 0 <= i < |es| ==> OwnedStep(ss[i], es[i], hss[i], hss[i + 1])
  }

  ghost predicate OwnedStep(s: Vfs, e: Event, hs: set<int>, hs': set<int>) {
    Allowed(hs, e) && e.t < |s.pcs| && hs' == HandlesAfter(hs, s, e)
  }

  lemma OwnedPrefix(ss: seq<Vfs>, es: seq<Event>, hss: seq<set<int>>)
    requires Owned(ss, es, hss) && es != []
    ensures Owned(ss[..|es|], es[..|es| - 1], hss[..|es|])
    ensures OwnedStep(ss[|es| - 1], es[|es| - 1], hss[|es| - 1], hss[|es|])
  {
    hide Apply; hide Enabled; hide OwnedStep;
    PathPrefix(ss, es);
    assert es[|es| - 1] in es;
    forall i | 0 <= i < |es| - 1
      ensures OwnedStep(ss[i], es[i], hss[i], hss[i + 1])
    {
      assert es[i] in es;
    }
  }

  lemma OwnersStart(n: nat)
    ensures OwnersOk(Start(n), {}) && !Start(n).panicked
  {
    var s := Start(n);
    assert forall t :: 0 <= t < n ==> s.pcs[t] == Idle;
  }

  /** Callers that own their files never make the kernel panic, and all driver calls go to mounted filesystems. */
  lemma {:induction false} OwnersAreSafe(ss: seq<Vfs>, es: seq<Event>, hss: seq<set<int>>, n: nat)
    requires Owned(ss, es, hss) && ss[0] == Start(n)
    ensures OwnersOk(ss[|es|], hss[|es|]) && !ss[|es|].panicked && CallsMounted(ss[|es|])
  {
    hide Apply; hide Enabled; hide Inv; hide Start; hide CallsMounted; hide OwnersOk;
    Reachable(ss, es, n);
    if es == [] {
      OwnersStart(n);
    } else {
      var k := |es| - 1;
      OwnedPrefix(ss, es, hss);
      PathPrefix(ss, es);
      OwnersAreSafe(ss[..|es|], es[..k], hss[..|es|], n);
      Reachable(ss[..|es|], es[..k], n);
      OwnersStep(ss[k], es[k], hss[k]);
    }
    OwnedCallsMounted(ss[|es|], hss[|es|]);
  }

  lemma OwnersStep(s: Vfs, e: Event, hs: set<int>)
    requires Inv(s) && Enabled(s, e.t, e.act) && Allowed(hs, e) && OwnersOk(s, hs) && e.t < |s.pcs|
    ensures OwnersOk(Apply(s, e.t, e.act), HandlesAfter(hs, s, e)) && !Apply(s, e.t, e.act).panicked
  {
    hide Apply; hide Enabled; hide Inv; hide OwnersOk; hide HandlesAfter; hide SlotMoves; hide SlotOk; hide Allowed;
    var s' := Apply(s, e.t, e.act);
    StepKept(s, e.t, e.act);
    assert Moves(s, s', e.t, s'.pcs[e.t]);
    StepMoves(s, hs, e);
    OwnersFrom(s, s', hs, HandlesAfter(hs, s, e), e.t, s'.pcs[e.t]);
  }

  lemma OwnedCallsMounted(s: Vfs, hs: set<int>)
    requires Inv(s) && OwnersOk(s, hs)
    ensures CallsMounted(s)
  {
    hide Inv; hide OwnersOk; hide Mounted; hide Calls;
    InvShape(s);
    forall t | 0 <= t < |s.pcs| && Calls(s, t) != 0
      ensures Mounted(s.rows, Calls(s, t))
    {
      OwnerAt(s, hs, t);
      DriversAreMounted(s, t);
      if Headed(s.pcs[t]) {
        StillOpen(s, t, s.pcs[t].file, s.pcs[t].fs);
        HeadedCalls(s, t);
      }
    }
  }

  lemma HeadedCalls(s: Vfs, t: nat)
    requires Shape(s) && t < |s.pcs| && Headed(s.pcs[t])
    ensures Calls(s, t) == s.pcs[t].fs
  {
  }
}
