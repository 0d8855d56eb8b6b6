/**
 Operations, unmounting and shutdown of the virtual filesystem by any number of threads.
 A step is what one thread does from one semaphore operation to the next; a driver call starts
 with one, on the lock of its filesystem. Callers may pass any file number, owned or not.
*/
module VfsProtocol {
  import opened VfsTables

  /** The calls of the interface; those on a whole volume (create, remove, getfree, ...) are one kind. */
  datatype Op =
    | Mount(fs: Fs, name: string)
    | Unmount(name: string)
    | Open(name: string)
    | Close(file: int)
    | Seek(file: int)
    | Access(file: int)             // read or write
    | OnVolume(name: string)

  /** Where a thread stands. */
  datatype Pc =
    | Idle
    | Starting(op: Op)                // about to take the operation lock
    | Entering(op: Op)                // holds it, about to count itself in
    | Begun(op: Op)                   // counted; about to take its first table, or to access a file
    | HasTable(op: Op)                // holds the mount table
    | HasBoth(op: Op, row: nat)       // holds the mount table and the open files; row is Unmount's
    | HasFiles(op: Op)                // Close or Seek, holding the open files
    | Driver(file: nat, fs: Fs)       // Open: entry reserved, about to call the driver
    | Using(file: nat, fs: Fs)        // Access: entry read, about to call the driver
    | Moving(file: nat)               // Access: about to take the open files to move the seek position
    | Moved(file: nat)                // ... and holds them
    | Undo(file: nat)                 // Open failed: about to take the open files
    | Undoing(file: nat)              // ... and holds them
    | Ending(result: int)             // about to take the operation lock; the file its caller has open, -1 if none
    | Leaving(result: int)            // holds it, about to count itself out
    | Halt                            // vfs_deinit: about to take the operation lock
    | Halting                         // holds it
    | HaltWait                        // waits for the operations to end
    | HaltResume                      // woken, about to take the operation lock
    | HaltIdle                        // holds it; no operation is left
    | HaltTable                       // ... and the mount table
    | HaltBoth                        // ... and the open files
    | Halted

  /**
   Threads, tables, counters, and who holds each binary semaphore (-1: nobody). seen are the
   filesystems ever passed to mount, gone those unmounted, signals how often a waiting shutdown
   was signalled, delayed how many shutdowns had to wait, down whether one has come to its end;
   panicked: a kernel assertion failed.
  */
  datatype Vfs = Vfs(pcs: seq<Pc>, rows: seq<Row>, files: seq<Fs>, usable: bool, ops: int,
                     opSem: int, tableSem: int, fileSem: int, unmountSem: int,
                     seen: set<Fs>, gone: set<Fs>, signals: nat, delayed: nat, down: bool, panicked: bool)

  /**
   What a thread may do: begin a call, begin a shutdown, or go on; ok is the driver's answer
   to open, or whether a read or write moved any bytes.
  */
  datatype Act = Begin(op: Op) | BeginHalt | Go(ok: bool)

  predicate Shape(s: Vfs) {
    && |s.rows| == MAX_FILESYSTEMS && |s.files| == MAX_OPEN_FILES
    && (forall t {:trigger s.pcs[t]} :: 0 <= t < |s.pcs| ==> PcShape(s.pcs[t]))
  }

  predicate OnFile(op: Op) {
    op.Close? || op.Seek? || op.Access?
  }

  predicate PcShape(p: Pc) {
    && (p.Driver? || p.Using? || p.Moving? || p.Moved? || p.Undo? || p.Undoing? ==> p.file < MAX_OPEN_FILES)
    && (p.HasTable? ==> !OnFile(p.op))
    && (p.HasBoth? ==> (p.op.Unmount? && p.row < MAX_FILESYSTEMS) || p.op.Open?)
    && (p.HasFiles? ==> p.op.Close? || p.op.Seek?)
  }

  // ---------------------------------------------------------------- steps

  /** What the interface asks: a filesystem is mounted once, under a name. Of file numbers it asks nothing. */
  predicate Proper(s: Vfs, op: Op) {
    op.Mount? ==> op.fs != 0 && op.fs !in s.seen && op.name != ""
  }

  predicate Enabled(s: Vfs, t: nat, a: Act) {
    && Shape(s) && t < |s.pcs| && !s.panicked
    && match a
       case Begin(op) => s.pcs[t] == Idle && Proper(s, op)
       case BeginHalt => s.pcs[t] == Idle
       case Go(ok) => CanGo(s, s.pcs[t])
  }

  /** The semaphore the next step needs, if any, is free. */
  predicate CanGo(s: Vfs, p: Pc)
    requires Shape(s)
  {
    match p
    case Idle => false
    case Starting(op) => s.opSem < 0
    case Begun(op) => if op.Access? then true else if OnFile(op) then s.fileSem < 0 else s.tableSem < 0
    case HasTable(op) =>
      if op.Unmount? then UnmountTarget(s.rows, op.name) == |s.rows| || s.fileSem < 0
      else if op.Open? then s.fileSem < 0
      else true
    case Moving(f) => s.fileSem < 0
    case Undo(f) => s.fileSem < 0
    case Ending(f) => s.opSem < 0
    case Halt => s.opSem < 0
    case HaltWait => s.unmountSem > 0
    case HaltResume => s.opSem < 0
    case HaltIdle => s.tableSem < 0
    case HaltTable => s.fileSem < 0
    case Halted => false
    case _ => true
  }

  /** On its way to a driver, with no table held. */
  predicate Headed(p: Pc) {
    p.Driver? || p.Using?
  }

  /** Thread t goes to p. */
  function To(s: Vfs, t: nat, p: Pc): Vfs
    requires t < |s.pcs|
  {
    s.(pcs := s.pcs[t := p])
  }

  /** vfs_verify_open passes: the number is one of the table and its entry is in use. */
  predicate IsOpen(s: Vfs, f: int) {
    0 <= f < |s.files| && s.files[f] != 0
  }

  /** ... otherwise the kernel stops. */
  function Panic(s: Vfs): Vfs {
    s.(panicked := true)
  }

  /** vfs_start_op, under the operation lock. */
  function Enter(s: Vfs, t: nat, op: Op): (r: Vfs)
    requires t < |s.pcs|
    ensures r.files == s.files
    ensures t < |r.pcs| && (Headed(r.pcs[t]) ==> r.pcs[t] == s.pcs[t])
  {
    if s.usable then To(s, t, Begun(op)).(ops := s.ops + 1, opSem := -1)
    else To(s, t, Idle).(opSem := -1)
  }

  /** vfs_end_op, under the operation lock. */
  function Leave(s: Vfs, t: nat): (r: Vfs)
    requires t < |s.pcs|
    ensures r.files == s.files
    ensures t < |r.pcs| && (Headed(r.pcs[t]) ==> r.pcs[t] == s.pcs[t])
  {
    var last := !s.usable && s.ops - 1 == 0;
    To(s, t, Idle).(ops := s.ops - 1, opSem := -1,
      unmountSem := if last then s.unmountSem + 1 else s.unmountSem,
      signals := if last then s.signals + 1 else s.signals)
  }

  function FirstLock(s: Vfs, t: nat, op: Op): (r: Vfs)
    requires t < |s.pcs|
    ensures r.files == s.files
  {
    if op.Access? then if IsOpen(s, op.file) then To(s, t, Using(op.file, s.files[op.file])) else Panic(s)
    else if OnFile(op) then To(s, t, HasFiles(op)).(fileSem := t)
    else To(s, t, HasTable(op)).(tableSem := t)
  }

  /** A call that holds the mount table. */
  function WithTable(s: Vfs, t: nat, op: Op): (r: Vfs)
    requires Shape(s) && t < |s.pcs| && !OnFile(op)
    ensures r.files == s.files
    ensures t < |r.pcs| && !Headed(r.pcs[t])
  {
    match op
    case Mount(fs, name) => To(s, t, Ending(-1)).(tableSem := -1, rows := MountRows(s.rows, fs, name))
    case Unmount(name) =>
      var r := UnmountTarget(s.rows, name);
      if r == |s.rows| then To(s, t, Ending(-1)).(tableSem := -1) else To(s, t, HasBoth(op, r)).(fileSem := t)
    case Open(name) => To(s, t, HasBoth(op, 0)).(fileSem := t)
    case OnVolume(name) => To(s, t, Ending(-1)).(tableSem := -1)
  }

  /** A call that holds the mount table and the open files. */
  function WithBoth(s: Vfs, t: nat, op: Op, row: nat): Vfs
    requires Shape(s) && t < |s.pcs| && ((op.Unmount? && row < MAX_FILESYSTEMS) || op.Open?)
  {
    var r := To(s, t, Ending(-1)).(tableSem := -1, fileSem := -1);
    if op.Unmount? then
      if s.rows[row].fs in s.files then r
      else r.(rows := s.rows[row := Row(s.rows[row].name, 0)], gone := s.gone + {s.rows[row].fs})
    else
      var f := FreeFile(s.files);
      if f == |s.files| || Lookup(s.rows, op.name) == 0 then r
      else To(r, t, Driver(f, Lookup(s.rows, op.name))).(files := s.files[f := Lookup(s.rows, op.name)])
  }

  /** The entry of a file is given up. */
  function Release(s: Vfs, t: nat, f: nat): Vfs
    requires Shape(s) && t < |s.pcs| && f < MAX_OPEN_FILES
  {
    To(s, t, Ending(-1)).(fileSem := -1, files := s.files[f := 0])
  }

  /** Close or Seek, holding the open files. */
  function WithFiles(s: Vfs, t: nat, op: Op): (r: Vfs)
    requires Shape(s) && t < |s.pcs| && (op.Close? || op.Seek?)
    ensures t < |r.pcs| && (Headed(r.pcs[t]) ==> r.pcs[t] == s.pcs[t])
  {
    if !IsOpen(s, op.file) then Panic(s)
    else if op.Close? then Release(s, t, op.file)
    else To(s, t, Ending(op.file)).(fileSem := -1)
  }

  function MountedSet(rows: seq<Row>): set<Fs> {
    set i | 0 <= i < |rows| && rows[i].fs != 0 :: rows[i].fs
  }

  /** vfs_deinit. */
  function HaltStep(s: Vfs, t: nat): (r: Vfs)
    requires t < |s.pcs|
    ensures r.files == s.files
    ensures t < |r.pcs| && (Headed(r.pcs[t]) ==> r.pcs[t] == s.pcs[t])
  {
    match s.pcs[t]
    case Halt => To(s, t, Halting).(opSem := t)
    case Halting =>
      if s.ops > 0 then To(s, t, HaltWait).(opSem := -1, usable := false, delayed := s.delayed + 1)
      else To(s, t, HaltIdle).(usable := false)
    case HaltWait => To(s, t, HaltResume).(unmountSem := s.unmountSem - 1)
    case HaltResume => To(s, t, HaltIdle).(opSem := t)
    case HaltIdle => To(s, t, HaltTable).(tableSem := t)
    case HaltTable => To(s, t, HaltBoth).(fileSem := t)
    case HaltBoth =>
      To(s, t, Halted).(opSem := -1, tableSem := -1, fileSem := -1,
        rows := Cleared(s.rows), gone := s.gone + MountedSet(s.rows), down := true)
    case _ => s
  }

  function GoOn(s: Vfs, t: nat, ok: bool): Vfs
    requires Shape(s) && t < |s.pcs| && CanGo(s, s.pcs[t])
  {
    match s.pcs[t]
    case Starting(op) => To(s, t, Entering(op)).(opSem := t)
    case Entering(op) => Enter(s, t, op)
    case Begun(op) => FirstLock(s, t, op)
    case HasTable(op) => assert PcShape(s.pcs[t]); WithTable(s, t, op)
    case HasBoth(op, row) => assert PcShape(s.pcs[t]); WithBoth(s, t, op, row)
    case HasFiles(op) => assert PcShape(s.pcs[t]); WithFiles(s, t, op)
    case Driver(f, fs) => To(s, t, if ok then Ending(f) else Undo(f))
    case Using(f, fs) => To(s, t, if ok then Moving(f) else Ending(f))
    case Moving(f) => To(s, t, Moved(f)).(fileSem := t)
    case Moved(f) => To(s, t, Ending(f)).(fileSem := -1)
    case Undo(f) => To(s, t, Undoing(f)).(fileSem := t)
    case Undoing(f) => assert PcShape(s.pcs[t]); Release(s, t, f)
    case Ending(f) => To(s, t, Leaving(f)).(opSem := t)
    case Leaving(f) => Leave(s, t)
    case _ => HaltStep(s, t)
  }

  function Apply(s: Vfs, t: nat, a: Act): Vfs
    requires Enabled(s, t, a)
  {
    match a
    case Begin(op) => To(s, t, Starting(op)).(seen := if op.Mount? then s.seen + {op.fs} else s.seen)
    case BeginHalt => To(s, t, Halt)
    case Go(ok) => GoOn(s, t, ok)
  }

  // ---------------------------------------------------------------- the invariant

  predicate HoldsOp(p: Pc) {
    p.Entering? || p.Leaving? || p.Halting? || p.HaltIdle? || p.HaltTable? || p.HaltBoth?
  }

  predicate HoldsTable(p: Pc) {
    p.HasTable? || p.HasBoth? || p.HaltTable? || p.HaltBoth?
  }

  predicate HoldsFiles(p: Pc) {
    p.HasBoth? || p.HasFiles? || p.Moved? || p.Undoing? || p.HaltBoth?
  }

  /** Each binary semaphore is held by the threads that are where it is held: by at most one. */
  ghost predicate LocksOk(s: Vfs) {
    && (forall t {:trigger s.pcs[t]} :: 0 <= t < |s.pcs| ==>
          && (HoldsOp(s.pcs[t]) <==> s.opSem == t)
          && (HoldsTable(s.pcs[t]) <==> s.tableSem == t)
          && (HoldsFiles(s.pcs[t]) <==> s.fileSem == t))
    && -1 <= s.opSem < |s.pcs| && -1 <= s.tableSem < |s.pcs| && -1 <= s.fileSem < |s.pcs|
  }

  /** In an operation: between vfs_start_op and vfs_end_op. */
  predicate Counted(p: Pc) {
    || p.Begun? || p.HasTable? || p.HasBoth? || p.HasFiles? || p.Driver? || p.Using?
    || p.Moving? || p.Moved? || p.Undo? || p.Undoing? || p.Ending? || p.Leaving?
  }

  function Count(pcs: seq<Pc>): nat {
    if pcs == [] then 0 else (if Counted(pcs[0]) then 1 else 0) + Count(pcs[1..])
  }

  predicate Halts(p: Pc) {
    p.Halt? || p.Halting? || p.HaltWait? || p.HaltResume? || p.HaltIdle? || p.HaltTable? || p.HaltBoth? || p.Halted?
  }

  /** In a shutdown that has made the system unusable. */
  predicate Shutting(p: Pc) {
    p.HaltWait? || PastWait(p)
  }

  /** ... and waits for no operation any more. */
  predicate PastWait(p: Pc) {
    p.HaltResume? || p.HaltIdle? || p.HaltTable? || p.HaltBoth? || p.Halted?
  }

  /** The shutdowns that wait for the operations to end. */
  function Waiters(pcs: seq<Pc>): nat {
    if pcs == [] then 0 else (if pcs[0].HaltWait? then 1 else 0) + Waiters(pcs[1..])
  }

  /** What the place of a thread in a shutdown means for the counters. */
  predicate HaltOk(p: Pc, usable: bool, ops: int, delayed: nat, down: bool) {
    && (Shutting(p) ==> !usable) && (p.HaltWait? ==> delayed > 0)
    && (PastWait(p) ==> ops == 0) && (p.Halted? ==> down)
  }

  /** One signal is given, when the last of the operations that delayed a shutdown ends. */
  predicate GaugesOk(usable: bool, ops: int, signals: nat, unmountSem: int, delayed: nat, down: bool) {
    && (usable ==> signals == 0 && delayed == 0 && !down)
    && (!usable ==> signals == if delayed > 0 && ops == 0 then 1 else 0)
    && (!usable && ops > 0 ==> delayed > 0)
    && 0 <= unmountSem <= signals && (down ==> ops == 0)
  }

  /**
   vfs_ops is the number of operations in progress; a shutdown goes on only when none is left. Every
   shutdown that was delayed still waits, but for one once it has taken the signal.
  */
  ghost predicate ShutdownOk(s: Vfs) {
    && s.ops == Count(s.pcs)
    && (forall t {:trigger s.pcs[t]} :: 0 <= t < |s.pcs| ==> HaltOk(s.pcs[t], s.usable, s.ops, s.delayed, s.down))
    && GaugesOk(s.usable, s.ops, s.signals, s.unmountSem, s.delayed, s.down)
    && Waiters(s.pcs) + s.signals == s.delayed + s.unmountSem
  }

  /** The filesystem a thread is about to mount, 0 if none. */
  function Carried(p: Pc): Fs {
    if (p.Starting? || p.Entering? || p.Begun? || p.HasTable?) && p.op.Mount? then p.op.fs else 0
  }

  predicate NamedMount(p: Pc) {
    (p.Starting? || p.Entering? || p.Begun? || p.HasTable?) && p.op.Mount? ==> p.op.fs != 0
  }

  /** What a thread knows of the mount table while it mounts or unmounts; the row is that of its name still. */
  predicate PlanOk(p: Pc, rows: seq<Row>) {
    && NamedMount(p)
    && (p.HasBoth? && p.op.Unmount? ==> p.row < |rows| && p.row == UnmountTarget(rows, p.op.name))
  }

  /** A filesystem about to be mounted is neither mounted nor unmounted yet. */
  ghost predicate New(fs: Fs, s: Vfs) {
    fs in s.seen && fs !in s.gone && !Mounted(s.rows, fs)
  }

  /** A filesystem is unmounted once, and then not mounted again. */
  ghost predicate GoneOk(s: Vfs) {
    && MountsOk(s.rows)
    && (forall fs: Fs :: fs in s.gone ==> fs != 0 && fs in s.seen && !Mounted(s.rows, fs))
    && (forall i :: 0 <= i < |s.rows| && s.rows[i].fs != 0 ==> s.rows[i].fs in s.seen)
  }

  ghost predicate PlansOk(s: Vfs) {
    && (forall t {:trigger s.pcs[t]} :: 0 <= t < |s.pcs| ==>
          PlanOk(s.pcs[t], s.rows) && (Carried(s.pcs[t]) != 0 ==> New(Carried(s.pcs[t]), s)))
    && (forall t, u {:trigger s.pcs[t], s.pcs[u]} :: 0 <= t < u < |s.pcs| && Carried(s.pcs[t]) != 0 ==>
         Carried(s.pcs[t]) != Carried(s.pcs[u]))
  }

  /** Until a shutdown is done, open files refer to mounted filesystems. */
  ghost predicate FilesOk(s: Vfs) {
    !s.down ==> forall i :: 0 <= i < |s.files| && s.files[i] != 0 ==> Mounted(s.rows, s.files[i])
  }

  /** The filesystem a call is about to pass to its driver, kept from when it read or reserved its entry; 0 if none. */
  function Local(p: Pc): Fs {
    if Headed(p) then p.fs else 0
  }

  /** It is mounted, or was unmounted since. */
  ghost predicate Known(s: Vfs, p: Pc) {
    (Headed(p) ==> p.fs != 0) && (Local(p) != 0 && !Mounted(s.rows, Local(p)) ==> Local(p) in s.gone)
  }

  ghost predicate LocalsOk(s: Vfs) {
    forall t {:trigger s.pcs[t]} :: 0 <= t < |s.pcs| ==> Known(s, s.pcs[t])
  }

  ghost predicate Inv(s: Vfs) {
    Shape(s) && LocksOk(s) && ShutdownOk(s) && GoneOk(s) && PlansOk(s) && FilesOk(s) && LocalsOk(s)
  }

  // ---------------------------------------------------------------- every step keeps the invariant

  lemma {:induction false} CountUpdate(pcs: seq<Pc>, t: nat, p: Pc)
    requires t < |pcs|
    ensures Count(pcs[t := p]) == Count(pcs) - (if Counted(pcs[t]) then 1 else 0) + (if Counted(p) then 1 else 0)
  {
    if t == 0 {
      assert pcs[t := p][1..] == pcs[1..];
    } else {
      CountUpdate(pcs[1..], t - 1, p);
      assert pcs[t := p][1..] == pcs[1..][t - 1 := p];
    }
  }

  lemma {:induction false} WaitersUpdate(pcs: seq<Pc>, t: nat, p: Pc)
    requires t < |pcs|
    ensures Waiters(pcs[t := p]) == Waiters(pcs) - (if pcs[t].HaltWait? then 1 else 0) + (if p.HaltWait? then 1 else 0)
  {
    if t == 0 {
      assert pcs[t := p][1..] == pcs[1..];
    } else {
      WaitersUpdate(pcs[1..], t - 1, p);
      assert pcs[t := p][1..] == pcs[1..][t - 1 := p];
    }
  }

  lemma {:induction false} CountPositive(pcs: seq<Pc>, t: nat)
    requires t < |pcs| && Counted(pcs[t])
    ensures Count(pcs) > 0
  {
    if t > 0 {
      CountPositive(pcs[1..], t - 1);
    }
  }

  // ---------------------------------------------------------------- one thread moves

  /** Thread t goes from p to q, and no other thread moves. */
  predicate Moves(s: Vfs, s': Vfs, t: nat, q: Pc) {
    t < |s.pcs| && s'.pcs == s.pcs[t := q]
  }

  /** What happens to a semaphore when thread t holds it before or not, and afterwards or not. */
  predicate LockMoves(holder: int, holder': int, t: nat, before: bool, after: bool) {
    && holder' == (if after then t else if before then -1 else holder)
    && (after && !before ==> holder < 0)
  }

  lemma LocksFrom(s: Vfs, s': Vfs, t: nat, q: Pc)
    requires LocksOk(s) && Moves(s, s', t, q)
    requires LockMoves(s.opSem, s'.opSem, t, HoldsOp(s.pcs[t]), HoldsOp(q))
    requires LockMoves(s.tableSem, s'.tableSem, t, HoldsTable(s.pcs[t]), HoldsTable(q))
    requires LockMoves(s.fileSem, s'.fileSem, t, HoldsFiles(s.pcs[t]), HoldsFiles(q))
    ensures LocksOk(s')
  {
    hide HoldsOp; hide HoldsTable; hide HoldsFiles;
  }

  /** What a step does to the shutdowns: the counters follow the thread, and never go back. */
  predicate ShutdownMoves(s: Vfs, s': Vfs, t: nat, p: Pc, q: Pc) {
    && s'.ops == s.ops - (if Counted(p) then 1 else 0) + (if Counted(q) then 1 else 0)
    && HaltOk(q, s'.usable, s'.ops, s'.delayed, s'.down)
    && GaugesOk(s'.usable, s'.ops, s'.signals, s'.unmountSem, s'.delayed, s'.down)
    && (!s.usable ==> !s'.usable && (s.ops == 0 ==> s'.ops == 0)) && s.delayed <= s'.delayed && (s.down ==> s'.down)
    && (if q.HaltWait? then 1 else 0) - (if p.HaltWait? then 1 else 0) + s'.signals - s.signals
       == s'.delayed - s.delayed + s'.unmountSem - s.unmountSem
  }

  lemma ShutdownFrom(s: Vfs, s': Vfs, t: nat, q: Pc)
    requires ShutdownOk(s) && Moves(s, s', t, q) && ShutdownMoves(s, s', t, s.pcs[t], q)
    ensures ShutdownOk(s')
  {
    hide GaugesOk; hide Counted;
    CountUpdate(s.pcs, t, q);
    WaitersUpdate(s.pcs, t, q);
  }

  lemma MountsSame(s: Vfs, s': Vfs, t: nat, q: Pc)
    requires GoneOk(s) && PlansOk(s) && Moves(s, s', t, q) && s'.rows == s.rows && s'.gone == s.gone
             && s.seen <= s'.seen
    requires Carried(q) == 0 || Carried(q) == Carried(s.pcs[t]) || (Carried(q) !in s.seen && Carried(q) in s'.seen)
    requires PlanOk(q, s.rows)
    ensures GoneOk(s') && PlansOk(s')
  {
    hide Carried; hide PlanOk; hide MountsOk; hide Mounted;
    if Carried(q) != 0 && Carried(q) !in s.seen {
      Unseen(s, Carried(q));
    }
  }

  lemma Unseen(s: Vfs, fs: Fs)
    requires GoneOk(s) && fs !in s.seen && fs != 0
    ensures fs !in s.gone && !Mounted(s.rows, fs)
  {
  }

  lemma MountsMount(s: Vfs, s': Vfs, t: nat, q: Pc, fs: Fs, name: string)
    requires LocksOk(s) && GoneOk(s) && PlansOk(s) && Moves(s, s', t, q) && s'.gone == s.gone && s.seen == s'.seen
    requires s.pcs[t] == HasTable(Op.Mount(fs, name)) && s'.rows == MountRows(s.rows, fs, name) && q == Ending(-1)
    ensures GoneOk(s') && PlansOk(s')
    ensures forall g: Fs :: g != 0 && Mounted(s.rows, g) ==> Mounted(s'.rows, g)
  {
    hide MountsOk; hide Mounted; hide RowOf; hide MountRows; hide MountCode;
    assert Carried(s.pcs[t]) == fs && PlanOk(s.pcs[t], s.rows) && New(fs, s);
    MountAddsOne(s.rows, fs, name);
    MountRowSeen(s, s', fs, name);
    forall u | 0 <= u < |s'.pcs|
      ensures PlanOk(s'.pcs[u], s'.rows) && (Carried(s'.pcs[u]) != 0 ==> New(Carried(s'.pcs[u]), s'))
    {
      if u != t {
        assert Carried(s.pcs[u]) != 0 ==> Carried(s.pcs[u]) != fs;
        assert PlanOk(s.pcs[u], s.rows);
        assert HoldsTable(s.pcs[t]) && !HoldsTable(s.pcs[u]);
        PlanWithoutTable(s.pcs[u], s.rows, s'.rows);
      }
    }
  }

  lemma PlanWithoutTable(p: Pc, rows: seq<Row>, rows': seq<Row>)
    requires PlanOk(p, rows) && !HoldsTable(p)
    ensures PlanOk(p, rows')
  {
  }

  lemma MountRowSeen(s: Vfs, s': Vfs, fs: Fs, name: string)
    requires GoneOk(s) && fs in s.seen && s'.seen == s.seen && s'.rows == MountRows(s.rows, fs, name)
    ensures forall i :: 0 <= i < |s'.rows| && s'.rows[i].fs != 0 ==> s'.rows[i].fs in s'.seen
  {
    hide MountsOk; hide Mounted;
  }

  lemma MountsUnmount(s: Vfs, s': Vfs, t: nat, q: Pc, row: nat)
    requires LocksOk(s) && GoneOk(s) && PlansOk(s) && Moves(s, s', t, q) && s.seen == s'.seen && row < |s.rows|
             && s.rows[row].fs != 0
    requires HoldsTable(s.pcs[t]) && s'.rows == s.rows[row := Row(s.rows[row].name, 0)] && q == Ending(-1)
    requires s'.gone == s.gone + {s.rows[row].fs}
    ensures GoneOk(s') && PlansOk(s')
    ensures forall g: Fs :: g != 0 && g != s.rows[row].fs && Mounted(s.rows, g) ==> Mounted(s'.rows, g)
  {
    hide MountsOk; hide Mounted;
    UnmountKeepsRows(s.rows, row);
    RowIsMounted(s.rows, row);
    forall u | 0 <= u < |s'.pcs|
      ensures PlanOk(s'.pcs[u], s'.rows) && (Carried(s'.pcs[u]) != 0 ==> New(Carried(s'.pcs[u]), s'))
    {
      if u != t {
        assert PlanOk(s.pcs[u], s.rows);
        assert Carried(s.pcs[u]) != 0 ==> New(Carried(s.pcs[u]), s);
        assert !HoldsTable(s.pcs[u]);
      }
    }
  }

  lemma RowIsMounted(rows: seq<Row>, i: nat)
    requires i < |rows|
    ensures Mounted(rows, rows[i].fs)
  {
  }

  lemma MountsHalt(s: Vfs, s': Vfs, t: nat, q: Pc)
    requires LocksOk(s) && GoneOk(s) && PlansOk(s) && Moves(s, s', t, q) && s.seen == s'.seen
    requires HoldsTable(s.pcs[t]) && s'.rows == Cleared(s.rows) && q == Halted
    requires s'.gone == s.gone + MountedSet(s.rows)
    ensures GoneOk(s') && PlansOk(s')
    ensures forall fs: Fs :: fs != 0 && Mounted(s.rows, fs) ==> fs in s'.gone
  {
    forall u | 0 <= u < |s'.pcs|
      ensures PlanOk(s'.pcs[u], s'.rows) && (Carried(s'.pcs[u]) != 0 ==> New(Carried(s'.pcs[u]), s'))
    {
      if u != t {
        assert PlanOk(s.pcs[u], s.rows);
        assert Carried(s.pcs[u]) != 0 ==> New(Carried(s.pcs[u]), s);
        assert !HoldsTable(s.pcs[u]);
      }
    }
  }

  // ---------------------------------------------------------------- each kind of step

  /** Everything the invariant needs of a step of thread t to q. */
  ghost predicate Kept(s: Vfs, s': Vfs, t: nat, q: Pc)
    requires Shape(s)
  {
    && Moves(s, s', t, q) && Shape(s')
    && LockMoves(s.opSem, s'.opSem, t, HoldsOp(s.pcs[t]), HoldsOp(q))
    && LockMoves(s.tableSem, s'.tableSem, t, HoldsTable(s.pcs[t]), HoldsTable(q))
    && LockMoves(s.fileSem, s'.fileSem, t, HoldsFiles(s.pcs[t]), HoldsFiles(q))
    && ShutdownMoves(s, s', t, s.pcs[t], q)
    && GoneOk(s') && PlansOk(s') && FilesOk(s') && LocalsMove(s, s', q)
  }

  /** What a call about to use a driver holds stays known: what is unmounted is recorded. */
  ghost predicate LocalsMove(s: Vfs, s': Vfs, q: Pc) {
    && s.gone <= s'.gone && (forall fs: Fs :: fs != 0 && Mounted(s.rows, fs) && !Mounted(s'.rows, fs) ==> fs in s'.gone)
    && Known(s', q)
  }

  lemma LocalsFrom(s: Vfs, s': Vfs, t: nat, q: Pc)
    requires LocalsOk(s) && Moves(s, s', t, q) && LocalsMove(s, s', q)
    ensures LocalsOk(s')
  {
    hide Mounted; hide Local;
  }

  lemma LocalsMoved(s: Vfs, s': Vfs, q: Pc)
    requires s.gone <= s'.gone && forall fs: Fs :: fs != 0 && Mounted(s.rows, fs) && !Mounted(s'.rows, fs) ==>
               fs in s'.gone
    requires !Headed(q)
    ensures LocalsMove(s, s', q)
  {
  }

  lemma LocalsSame(s: Vfs, s': Vfs, t: nat, q: Pc)
    requires LocalsOk(s) && t < |s.pcs| && s'.rows == s.rows && s.gone <= s'.gone
    requires Local(q) == 0 || Local(q) == Local(s.pcs[t]) || Mounted(s.rows, Local(q))
    requires q == s.pcs[t] || (Headed(q) ==> q.fs != 0)
    ensures LocalsMove(s, s', q)
  {
    hide Mounted;
    assert Known(s, s.pcs[t]);
  }

  lemma InvFrom(s: Vfs, s': Vfs, t: nat, q: Pc)
    requires Inv(s) && Kept(s, s', t, q)
    ensures Inv(s')
  {
    hide Shape; hide GoneOk; hide PlansOk; hide FilesOk; hide HoldsOp; hide HoldsTable; hide HoldsFiles;
    hide ShutdownMoves; hide LockMoves; hide Moves;
    hide LocalsOk; hide LocalsMove;
    LocksFrom(s, s', t, q);
    LocalsFrom(s, s', t, q);
    ShutdownFrom(s, s', t, q);
  }

  /** What the invariant says of thread t. */
  lemma At(s: Vfs, t: nat)
    requires Inv(s) && t < |s.pcs|
    ensures (HoldsOp(s.pcs[t]) <==> s.opSem == t) && (HoldsTable(s.pcs[t]) <==> s.tableSem == t)
              && (HoldsFiles(s.pcs[t]) <==> s.fileSem == t)
    ensures PcShape(s.pcs[t]) && PlanOk(s.pcs[t], s.rows)
    ensures HaltOk(s.pcs[t], s.usable, s.ops, s.delayed, s.down)
    ensures GaugesOk(s.usable, s.ops, s.signals, s.unmountSem, s.delayed, s.down)
    ensures Counted(s.pcs[t]) ==> s.ops > 0 && !s.down
    ensures s.ops >= 0
  {
    hide GoneOk; hide FilesOk; hide Carried; hide New;
    if Counted(s.pcs[t]) {
      CountPositive(s.pcs, t);
    }
  }

  lemma FilesSame(s: Vfs, s': Vfs, t: nat, q: Pc)
    requires FilesOk(s) && Moves(s, s', t, q) && s'.rows == s.rows && |s.files| == MAX_OPEN_FILES
    requires |s'.files| == |s.files| && forall i :: 0 <= i < |s.files| ==> s'.files[i] == s.files[i] || s'.files[i] == 0
    requires s.down ==> s'.down
    ensures FilesOk(s')
  {
    hide Mounted;
  }

  /** A panic leaves everything where it is. */
  lemma PanicKept(s: Vfs, t: nat)
    requires Inv(s) && t < |s.pcs|
    ensures Kept(s, Panic(s), t, s.pcs[t])
  {
    hide LocksOk; hide ShutdownOk; hide LocalsOk; hide GoneOk; hide PlansOk; hide FilesOk;
    At(s, t);
    var s' := Panic(s);
    MountsSame(s, s', t, s.pcs[t]);
    LocalsSame(s, s', t, s.pcs[t]);
    FilesSame(s, s', t, s.pcs[t]);
  }

  lemma BeginKept(s: Vfs, t: nat, op: Op)
    requires Inv(s) && Enabled(s, t, Begin(op))
    ensures Kept(s, Apply(s, t, Begin(op)), t, Starting(op))
  {
    hide LocksOk; hide ShutdownOk; hide LocalsOk; hide GoneOk; hide PlansOk; hide FilesOk; hide RowOf; hide FreeRow;
    hide FreeFile;
    At(s, t);
    MountsSame(s, Apply(s, t, Begin(op)), t, Starting(op));
    LocalsSame(s, Apply(s, t, Begin(op)), t, Starting(op));
    FilesSame(s, Apply(s, t, Begin(op)), t, Starting(op));
  }

  lemma BeginHaltKept(s: Vfs, t: nat)
    requires Inv(s) && Enabled(s, t, BeginHalt)
    ensures Kept(s, Apply(s, t, BeginHalt), t, Halt)
  {
    hide LocksOk; hide ShutdownOk; hide LocalsOk; hide GoneOk; hide PlansOk; hide FilesOk; hide RowOf; hide FreeRow;
    hide FreeFile;
    At(s, t);
    MountsSame(s, Apply(s, t, BeginHalt), t, Halt);
    LocalsSame(s, Apply(s, t, BeginHalt), t, Halt);
    FilesSame(s, Apply(s, t, BeginHalt), t, Halt);
  }

  lemma EnterKept(s: Vfs, t: nat, op: Op)
    requires Inv(s) && t < |s.pcs| && s.pcs[t] == Entering(op)
    ensures Kept(s, Enter(s, t, op), t, if s.usable then Begun(op) else Idle)
  {
    hide LocksOk; hide ShutdownOk; hide LocalsOk; hide GoneOk; hide PlansOk; hide FilesOk; hide RowOf; hide FreeRow;
    hide FreeFile;
    At(s, t);
    var s' := Enter(s, t, op);
    MountsSame(s, s', t, s'.pcs[t]);
    LocalsSame(s, s', t, s'.pcs[t]);
    FilesSame(s, s', t, s'.pcs[t]);
  }

  lemma LeaveKept(s: Vfs, t: nat, f: int)
    requires Inv(s) && t < |s.pcs| && s.pcs[t] == Leaving(f)
    ensures Kept(s, Leave(s, t), t, Idle)
  {
    hide LocksOk; hide ShutdownOk; hide LocalsOk; hide GoneOk; hide PlansOk; hide FilesOk; hide RowOf; hide FreeRow;
    hide FreeFile;
    At(s, t);
    var s' := Leave(s, t);
    MountsSame(s, s', t, Idle);
    LocalsSame(s, s', t, Idle);
    FilesSame(s, s', t, Idle);
  }

  lemma FirstLockKept(s: Vfs, t: nat, op: Op)
    requires Inv(s) && Enabled(s, t, Go(true)) && s.pcs[t] == Begun(op)
    ensures t < |FirstLock(s, t, op).pcs| && Kept(s, FirstLock(s, t, op), t, FirstLock(s, t, op).pcs[t])
  {
    hide LocksOk; hide ShutdownOk; hide LocalsOk; hide GoneOk; hide PlansOk; hide FilesOk; hide RowOf; hide FreeRow;
    hide FreeFile; hide Kept;
    At(s, t);
    if op.Access? {
      if IsOpen(s, op.file) {
        ReadEntryKept(s, t, op);
      } else {
        PanicKept(s, t);
      }
    } else {
      TakeLockKept(s, t, op);
    }
  }

  lemma TakeLockKept(s: Vfs, t: nat, op: Op)
    requires Inv(s) && Enabled(s, t, Go(true)) && s.pcs[t] == Begun(op) && !op.Access?
    ensures Kept(s, FirstLock(s, t, op), t, FirstLock(s, t, op).pcs[t])
  {
    hide LocksOk; hide ShutdownOk; hide LocalsOk; hide GoneOk; hide PlansOk; hide FilesOk; hide RowOf; hide FreeRow;
    hide FreeFile;
    At(s, t);
    var s' := FirstLock(s, t, op);
    MountsSame(s, s', t, s'.pcs[t]);
    LocalsSame(s, s', t, s'.pcs[t]);
    FilesSame(s, s', t, s'.pcs[t]);
  }

  /** A read or write keeps the filesystem it finds in its entry. */
  lemma ReadEntryKept(s: Vfs, t: nat, op: Op)
    requires Inv(s) && t < |s.pcs| && s.pcs[t] == Begun(op) && op.Access? && IsOpen(s, op.file)
    ensures Kept(s, FirstLock(s, t, op), t, Using(op.file, s.files[op.file]))
  {
    hide LocksOk; hide ShutdownOk; hide LocalsOk; hide GoneOk; hide PlansOk; hide FilesOk; hide Mounted;
    At(s, t);
    var s' := FirstLock(s, t, op);
    OpenIsMounted(s, op.file);
    MountsSame(s, s', t, s'.pcs[t]);
    LocalsSame(s, s', t, s'.pcs[t]);
    FilesSame(s, s', t, s'.pcs[t]);
  }

  lemma OpenIsMounted(s: Vfs, f: nat)
    requires FilesOk(s) && !s.down && IsOpen(s, f)
    ensures Mounted(s.rows, s.files[f])
  {
    hide Mounted;
  }

  lemma MountKept(s: Vfs, t: nat, op: Op)
    requires Inv(s) && t < |s.pcs| && s.pcs[t] == HasTable(op) && op.Mount?
    ensures Kept(s, WithTable(s, t, op), t, Ending(-1))
  {
    hide LocksOk; hide ShutdownOk; hide LocalsOk; hide GoneOk; hide PlansOk; hide FilesOk; hide RowOf; hide FreeRow;
    hide FreeFile; hide MountRows;
    At(s, t);
    var s' := WithTable(s, t, op);
    MountsMount(s, s', t, Ending(-1), op.fs, op.name);
    LocalsMoved(s, s', Ending(-1));
    FilesMore(s, s', t, Ending(-1));
  }

  /** Files keep referring to mounted filesystems when none of theirs is unmounted. */
  lemma FilesMore(s: Vfs, s': Vfs, t: nat, q: Pc)
    requires FilesOk(s) && Moves(s, s', t, q) && s'.files == s.files
    requires forall i :: 0 <= i < |s.files| && s.files[i] != 0 && Mounted(s.rows, s.files[i]) ==>
               Mounted(s'.rows, s.files[i])
    requires s.down ==> s'.down
    ensures FilesOk(s')
  {
    hide Mounted;
  }

  lemma TableKept(s: Vfs, t: nat, op: Op)
    requires Inv(s) && Enabled(s, t, Go(true)) && s.pcs[t] == HasTable(op) && !op.Mount?
    ensures !OnFile(op) && Kept(s, WithTable(s, t, op), t, WithTable(s, t, op).pcs[t])
  {
    hide LocksOk; hide ShutdownOk; hide LocalsOk; hide GoneOk; hide PlansOk; hide FilesOk; hide RowOf; hide FreeRow;
    hide FreeFile;
    At(s, t);
    var s' := WithTable(s, t, op);
    MountsSame(s, s', t, s'.pcs[t]);
    LocalsSame(s, s', t, s'.pcs[t]);
    FilesSame(s, s', t, s'.pcs[t]);
  }

  lemma UnmountKept(s: Vfs, t: nat, op: Op, row: nat)
    requires Inv(s) && t < |s.pcs| && s.pcs[t] == HasBoth(op, row) && op.Unmount?
    ensures row < MAX_FILESYSTEMS && Kept(s, WithBoth(s, t, op, row), t, Ending(-1))
  {
    hide LocksOk; hide ShutdownOk; hide LocalsOk; hide GoneOk; hide PlansOk; hide FilesOk; hide RowOf; hide FreeRow;
    hide FreeFile;
    At(s, t);
    var s' := WithBoth(s, t, op, row);
    if s.rows[row].fs in s.files {
      MountsSame(s, s', t, Ending(-1));
      LocalsSame(s, s', t, Ending(-1));
      FilesSame(s, s', t, Ending(-1));
    } else {
      MountsUnmount(s, s', t, Ending(-1), row);
      LocalsMoved(s, s', Ending(-1));
      NotInFiles(s.files, s.rows[row].fs);
      FilesMore(s, s', t, Ending(-1));
    }
  }

  lemma NotInFiles(files: seq<Fs>, fs: Fs)
    requires fs !in files
    ensures forall i :: 0 <= i < |files| ==> files[i] != fs
  {
  }

  lemma OpenKept(s: Vfs, t: nat, op: Op, row: nat)
    requires Inv(s) && t < |s.pcs| && s.pcs[t] == HasBoth(op, row) && op.Open?
    ensures Kept(s, WithBoth(s, t, op, row), t, WithBoth(s, t, op, row).pcs[t])
  {
    hide LocksOk; hide ShutdownOk; hide LocalsOk; hide GoneOk; hide PlansOk; hide FilesOk; hide RowOf; hide FreeRow;
    hide FreeFile; hide Lookup;
    At(s, t);
    var s' := WithBoth(s, t, op, row);
    LookupIsMounted(s.rows, op.name);
    MountsSame(s, s', t, s'.pcs[t]);
    LocalsSame(s, s', t, s'.pcs[t]);
    if s'.pcs[t].Driver? {
      FilesReserved(s, s', t, s'.pcs[t], s'.pcs[t].file, Lookup(s.rows, op.name));
    } else {
      FilesSame(s, s', t, s'.pcs[t]);
    }
  }

  lemma FilesReserved(s: Vfs, s': Vfs, t: nat, q: Pc, f: nat, fs: Fs)
    requires FilesOk(s) && Moves(s, s', t, q) && s'.rows == s.rows && f < |s.files| && s'.files == s.files[f := fs]
             && Mounted(s.rows, fs)
    requires s.down ==> s'.down
    ensures FilesOk(s')
  {
    hide Mounted;
  }

  /** Close and Seek with the open files held, and Open giving its entry up. */
  lemma WithFilesKept(s: Vfs, t: nat, op: Op)
    requires Inv(s) && t < |s.pcs| && s.pcs[t] == HasFiles(op)
    ensures (op.Close? || op.Seek?) && t < |WithFiles(s, t, op).pcs|
            && Kept(s, WithFiles(s, t, op), t, WithFiles(s, t, op).pcs[t])
  {
    hide LocksOk; hide ShutdownOk; hide LocalsOk; hide GoneOk; hide PlansOk; hide FilesOk; hide RowOf; hide FreeRow;
    hide FreeFile; hide Kept;
    At(s, t);
    if !IsOpen(s, op.file) {
      PanicKept(s, t);
    } else if op.Close? {
      ReleaseKept(s, t, op.file);
    } else {
      LetFilesGo(s, t, op.file);
    }
  }

  lemma LetFilesGo(s: Vfs, t: nat, f: nat)
    requires Inv(s) && t < |s.pcs| && ((s.pcs[t].HasFiles? && s.pcs[t].op == Seek(f)) || s.pcs[t] == Moved(f))
    ensures Kept(s, To(s, t, Ending(f)).(fileSem := -1), t, Ending(f))
  {
    hide LocksOk; hide ShutdownOk; hide LocalsOk; hide GoneOk; hide PlansOk; hide FilesOk;
    At(s, t);
    var s' := To(s, t, Ending(f)).(fileSem := -1);
    MountsSame(s, s', t, Ending(f));
    LocalsSame(s, s', t, Ending(f));
    FilesSame(s, s', t, Ending(f));
  }

  lemma ReleaseKept(s: Vfs, t: nat, f: nat)
    requires Inv(s) && t < |s.pcs| && ((s.pcs[t].HasFiles? && s.pcs[t].op == Close(f)) || s.pcs[t] == Undoing(f))
             && f < MAX_OPEN_FILES
    ensures Kept(s, Release(s, t, f), t, Ending(-1))
  {
    hide LocksOk; hide ShutdownOk; hide LocalsOk; hide GoneOk; hide PlansOk; hide FilesOk; hide RowOf; hide FreeRow;
    hide FreeFile;
    At(s, t);
    var s' := Release(s, t, f);
    MountsSame(s, s', t, Ending(-1));
    LocalsSame(s, s', t, Ending(-1));
    FilesSame(s, s', t, Ending(-1));
  }

  /** The steps that only move the thread or take a semaphore. */
  lemma PlainKept(s: Vfs, t: nat, ok: bool)
    requires Inv(s) && Enabled(s, t, Go(ok))
    requires s.pcs[t].Starting? || s.pcs[t].Driver? || s.pcs[t].Using? || s.pcs[t].Moving? || s.pcs[t].Undo?
               || s.pcs[t].Ending?
    ensures Kept(s, GoOn(s, t, ok), t, GoOn(s, t, ok).pcs[t])
  {
    hide LocksOk; hide ShutdownOk; hide LocalsOk; hide GoneOk; hide PlansOk; hide FilesOk; hide RowOf; hide FreeRow;
    hide FreeFile;
    hide WithTable; hide WithBoth; hide Leave; hide Enter; hide Release; hide HaltStep; hide FirstLock;
    At(s, t);
    var s' := GoOn(s, t, ok);
    MountsSame(s, s', t, s'.pcs[t]);
    LocalsSame(s, s', t, s'.pcs[t]);
    FilesSame(s, s', t, s'.pcs[t]);
  }

  lemma HaltKept(s: Vfs, t: nat)
    requires Inv(s) && Enabled(s, t, Go(true)) && Halts(s.pcs[t])
    ensures Kept(s, HaltStep(s, t), t, HaltStep(s, t).pcs[t])
  {
    hide Inv; hide Kept; hide HaltStep;
    if s.pcs[t].HaltBoth? {
      UnmountsAllKept(s, t);
    } else {
      ShutdownKept(s, t);
    }
  }

  lemma UnmountsAllKept(s: Vfs, t: nat)
    requires Inv(s) && t < |s.pcs| && s.pcs[t].HaltBoth?
    ensures Kept(s, HaltStep(s, t), t, HaltStep(s, t).pcs[t])
  {
    hide LocksOk; hide ShutdownOk; hide LocalsOk; hide GoneOk; hide PlansOk; hide FilesOk; hide RowOf; hide FreeRow;
    hide FreeFile; hide Cleared; hide MountedSet;
    At(s, t);
    var s' := HaltStep(s, t);
    MountsHalt(s, s', t, Halted);
    LocalsMoved(s, s', Halted);
    HaltedFiles(s');
  }

  lemma ShutdownKept(s: Vfs, t: nat)
    requires Inv(s) && Enabled(s, t, Go(true)) && Halts(s.pcs[t]) && !s.pcs[t].HaltBoth?
    ensures Kept(s, HaltStep(s, t), t, HaltStep(s, t).pcs[t])
  {
    hide LocksOk; hide ShutdownOk; hide LocalsOk; hide GoneOk; hide PlansOk; hide FilesOk; hide RowOf; hide FreeRow;
    hide FreeFile; hide Cleared; hide MountedSet;
    At(s, t);
    var s' := HaltStep(s, t);
    MountsSame(s, s', t, s'.pcs[t]);
    LocalsSame(s, s', t, s'.pcs[t]);
    FilesSame(s, s', t, s'.pcs[t]);
  }

  lemma HaltedFiles(s: Vfs)
    requires s.down
    ensures FilesOk(s)
  {
  }

  lemma StepKept(s: Vfs, t: nat, a: Act)
    requires Inv(s) && Enabled(s, t, a)
    ensures t < |Apply(s, t, a).pcs| && Kept(s, Apply(s, t, a), t, Apply(s, t, a).pcs[t])
  {
    hide LocksOk; hide ShutdownOk; hide LocalsOk; hide GoneOk; hide PlansOk; hide FilesOk; hide Kept; hide CanGo;
    hide GoOn;
    match a {
      case Begin(op) => BeginKept(s, t, op);
      case BeginHalt => BeginHaltKept(s, t);
      case Go(ok) => GoKept(s, t, ok);
    }
  }

  /** Every step of every thread keeps the invariant. */
  lemma InvStep(s: Vfs, t: nat, a: Act)
    requires Inv(s) && Enabled(s, t, a)
    ensures Inv(Apply(s, t, a))
  {
    hide Inv; hide Kept; hide Apply; hide Enabled;
    StepKept(s, t, a);
    InvFrom(s, Apply(s, t, a), t, Apply(s, t, a).pcs[t]);
  }

  lemma GoKept(s: Vfs, t: nat, ok: bool)
    requires Inv(s) && Enabled(s, t, Go(ok))
    ensures t < |GoOn(s, t, ok).pcs| && Kept(s, GoOn(s, t, ok), t, GoOn(s, t, ok).pcs[t])
  {
    hide LocksOk; hide ShutdownOk; hide LocalsOk; hide GoneOk; hide PlansOk; hide FilesOk; hide GoOn; hide Kept;
    match s.pcs[t] {
      case HasTable(op) => TableSectionKept(s, t, ok);
      case HasBoth(op, row) => BothSectionKept(s, t, ok);
      case HasFiles(op) => FilesSectionKept(s, t, ok);
      case Moved(f) => FilesSectionKept(s, t, ok);
      case Undoing(f) => FilesSectionKept(s, t, ok);
      case _ => OtherKept(s, t, ok);
    }
  }

  lemma TableSectionKept(s: Vfs, t: nat, ok: bool)
    requires Inv(s) && Enabled(s, t, Go(ok)) && s.pcs[t].HasTable?
    ensures t < |GoOn(s, t, ok).pcs| && Kept(s, GoOn(s, t, ok), t, GoOn(s, t, ok).pcs[t])
  {
    hide LocksOk; hide ShutdownOk; hide LocalsOk; hide GoneOk; hide PlansOk; hide FilesOk; hide LockMoves;
    hide ShutdownMoves;
    At(s, t);
    var op := s.pcs[t].op;
    if op.Mount? {
      MountKept(s, t, op);
    } else {
      TableKept(s, t, op);
    }
  }

  lemma BothSectionKept(s: Vfs, t: nat, ok: bool)
    requires Inv(s) && Enabled(s, t, Go(ok)) && s.pcs[t].HasBoth?
    ensures t < |GoOn(s, t, ok).pcs| && Kept(s, GoOn(s, t, ok), t, GoOn(s, t, ok).pcs[t])
  {
    hide LocksOk; hide ShutdownOk; hide LocalsOk; hide GoneOk; hide PlansOk; hide FilesOk; hide LockMoves;
    hide ShutdownMoves;
    At(s, t);
    if s.pcs[t].op.Unmount? {
      UnmountKept(s, t, s.pcs[t].op, s.pcs[t].row);
    } else {
      OpenKept(s, t, s.pcs[t].op, s.pcs[t].row);
    }
  }

  lemma FilesSectionKept(s: Vfs, t: nat, ok: bool)
    requires Inv(s) && Enabled(s, t, Go(ok)) && (s.pcs[t].HasFiles? || s.pcs[t].Moved? || s.pcs[t].Undoing?)
    ensures t < |GoOn(s, t, ok).pcs| && Kept(s, GoOn(s, t, ok), t, GoOn(s, t, ok).pcs[t])
  {
    hide LocksOk; hide ShutdownOk; hide LocalsOk; hide GoneOk; hide PlansOk; hide FilesOk; hide LockMoves;
    hide ShutdownMoves;
    At(s, t);
    match s.pcs[t] {
      case HasFiles(op) => WithFilesKept(s, t, op);
      case Moved(f) => LetFilesGo(s, t, f);
      case Undoing(f) => ReleaseKept(s, t, f);
    }
  }

  lemma OtherKept(s: Vfs, t: nat, ok: bool)
    requires Inv(s) && Enabled(s, t, Go(ok))
    requires !s.pcs[t].HasTable? && !s.pcs[t].HasBoth? && !s.pcs[t].HasFiles? && !s.pcs[t].Moved? && !s.pcs[t].Undoing?
    ensures t < |GoOn(s, t, ok).pcs| && Kept(s, GoOn(s, t, ok), t, GoOn(s, t, ok).pcs[t])
  {
    hide LocksOk; hide ShutdownOk; hide LocalsOk; hide GoneOk; hide PlansOk; hide FilesOk; hide LockMoves;
    hide ShutdownMoves;
    match s.pcs[t] {
      case Entering(op) => EnterKept(s, t, op);
      case Begun(op) => FirstLockKept(s, t, op);
      case Leaving(f) => LeaveKept(s, t, f);
      case Starting(op) => PlainKept(s, t, ok);
      case Driver(f, fs) => PlainKept(s, t, ok);
      case Using(f, fs) => PlainKept(s, t, ok);
      case Moving(f) => PlainKept(s, t, ok);
      case Undo(f) => PlainKept(s, t, ok);
      case Ending(f) => PlainKept(s, t, ok);
      case _ => HaltKept(s, t);
    }
  }

  // ---------------------------------------------------------------- runs

  datatype Event = Event(t: nat, act: Act)

  ghost predicate Path(ss: seq<Vfs>, es: seq<Event>) {
    && |ss| == |es| + 1
    && forall i {:trigger es[i]} :: 0 <= i < |es| ==>
         Enabled(ss[i], es[i].t, es[i].act) && ss[i + 1] == Apply(ss[i], es[i].t, es[i].act)
  }

  /** After vfs_init, with n threads. */
  function Start(n: nat): Vfs {
    Vfs(seq(n, t => Idle), seq(MAX_FILESYSTEMS, i => Row("", 0)), seq(MAX_OPEN_FILES, i => 0), true, 0,
        -1, -1, -1, 0, {}, {}, 0, 0, false, false)
  }

  lemma {:induction false} CountIdle(pcs: seq<Pc>)
    requires forall t :: 0 <= t < |pcs| ==> pcs[t] == Idle
    ensures Count(pcs) == 0 && Waiters(pcs) == 0
  {
    if pcs != [] {
      CountIdle(pcs[1..]);
    }
  }

  lemma InvStart(n: nat)
    ensures Inv(Start(n))
  {
    CountIdle(Start(n).pcs);
  }

  lemma PathPrefix(ss: seq<Vfs>, es: seq<Event>)
    requires Path(ss, es) && es != []
    ensures Path(ss[..|es|], es[..|es| - 1])
    ensures var e := es[|es| - 1]; Enabled(ss[|es| - 1], e.t, e.act) && ss[|es|] == Apply(ss[|es| - 1], e.t, e.act)
  {
    hide Apply; hide Enabled;
    assert es[|es| - 1] in es;
    forall i | 0 <= i < |es| - 1
      ensures Enabled(ss[i], es[i].t, es[i].act) && ss[i + 1] == Apply(ss[i], es[i].t, es[i].act)
    {
      assert es[i] in es;
    }
  }

  /** The invariant holds in every reachable state, whatever the interleaving. */
  lemma {:induction false} Reachable(ss: seq<Vfs>, es: seq<Event>, n: nat)
    requires Path(ss, es) && ss[0] == Start(n)
    ensures Inv(ss[|es|])
  {
    hide Apply; hide Enabled; hide Inv; hide Start;
    if es == [] {
      InvStart(n);
    } else {
      PathPrefix(ss, es);
      Reachable(ss[..|es|], es[..|es| - 1], n);
      InvStep(ss[|es| - 1], es[|es| - 1].t, es[|es| - 1].act);
    }
  }

  // ---------------------------------------------------------------- what follows from it

  /** The filesystem whose driver the next step of thread t calls, 0 if it calls none. */
  function Calls(s: Vfs, t: nat): Fs
    requires Shape(s) && t < |s.pcs|
  {
    match s.pcs[t]
    case HasTable(op) => if op.OnVolume? then Lookup(s.rows, op.name) else 0
    case HasBoth(op, row) =>
      assert PcShape(s.pcs[t]);
      if op.Unmount? && s.rows[row].fs !in s.files then s.rows[row].fs else 0
    case HasFiles(op) => if op.Close? && IsOpen(s, op.file) then s.files[op.file] else 0
    case Driver(f, fs) => fs
    case Using(f, fs) => fs
    case _ => 0
  }

  /**
   Calls made while a table is held go to a mounted filesystem. The others, to open, read and
   write, go to one that is mounted or was unmounted since the call read its entry.
  */
  lemma DriversAreMounted(s: Vfs, t: nat)
    requires Inv(s) && t < |s.pcs| && Calls(s, t) != 0
    ensures !Headed(s.pcs[t]) ==> Mounted(s.rows, Calls(s, t))
    ensures Mounted(s.rows, Calls(s, t)) <==> Calls(s, t) !in s.gone
  {
    hide RowOf; hide Mounted;
    At(s, t);
    assert Known(s, s.pcs[t]);
    match s.pcs[t] {
      case HasTable(op) => LookupIsMounted(s.rows, op.name);
      case HasBoth(op, row) => RowIsMounted(s.rows, row);
      case HasFiles(op) => OpenIsMounted(s, op.file);
      case _ =>
    }
  }

  /** Before any shutdown, an open file never refers to an unmounted filesystem. */
  lemma OpenFilesAreMounted(s: Vfs, f: nat)
    requires Inv(s) && s.usable && f < MAX_OPEN_FILES && s.files[f] != 0
    ensures Mounted(s.rows, s.files[f]) && s.files[f] !in s.gone
  {
    hide Mounted;
  }

  /** vfs_ops counts the operations in progress, and is 0 whenever a shutdown goes on to unmount. */
  lemma ShutdownFindsNoOperation(s: Vfs)
    requires Inv(s)
    ensures s.ops == Count(s.pcs)
    ensures forall t {:trigger s.pcs[t]} :: 0 <= t < |s.pcs| && PastWait(s.pcs[t]) ==> s.ops == 0 && !s.usable
  {
  }

  /** The counters as the kernel keeps them. */
  function GateOf(s: Vfs): Gate {
    Gate(s.usable, s.ops, s.unmountSem)
  }

  /**
   The protocol's steps through vfs_start_op and vfs_end_op change the counters as those
   functions do, and no operation ends that was not counted: the kernel's assertion vfs_ops >= 0 holds.
  */
  lemma CountersFollowTheKernel(s: Vfs, t: nat)
    requires Inv(s) && t < |s.pcs|
    ensures s.pcs[t].Entering? ==> GateOf(Enter(s, t, s.pcs[t].op)) == Entered(GateOf(s))
    ensures s.pcs[t].Entering? ==> (Enter(s, t, s.pcs[t].op).pcs[t] == Begun(s.pcs[t].op) <==> s.usable)
    ensures s.pcs[t].Leaving? ==> s.ops > 0 && GateOf(Leave(s, t)) == Left(GateOf(s))
  {
    hide LocksOk; hide LocalsOk; hide GoneOk; hide PlansOk; hide FilesOk; hide ShutdownOk;
    At(s, t);
  }

  /** Once the filesystem is unusable, no operation begins: the count never rises again. */
  lemma NoOperationBegins(s: Vfs, t: nat, a: Act)
    requires Inv(s) && Enabled(s, t, a) && !s.usable
    ensures !Apply(s, t, a).usable && Apply(s, t, a).ops <= s.ops
  {
    hide LocksOk; hide LocalsOk; hide GoneOk; hide PlansOk; hide FilesOk; hide RowOf; hide FreeRow; hide FreeFile;
    At(s, t);
  }

  /** ... over any run. */
  lemma {:induction false} CountNeverRises(ss: seq<Vfs>, es: seq<Event>)
    requires Path(ss, es) && Inv(ss[0]) && !ss[0].usable
    ensures Inv(ss[|es|]) && !ss[|es|].usable && ss[|es|].ops <= ss[0].ops
  {
    hide Apply; hide Enabled; hide Inv;
    if es != [] {
      PathPrefix(ss, es);
      CountNeverRises(ss[..|es|], es[..|es| - 1]);
      InvStep(ss[|es| - 1], es[|es| - 1].t, es[|es| - 1].act);
      NoOperationBegins(ss[|es| - 1], es[|es| - 1].t, es[|es| - 1].act);
    }
  }

  /** However many shutdowns wait, one signal is given if operations delayed any of them, and none otherwise. */
  lemma SignalledOnce(s: Vfs)
    requires Inv(s) && !s.usable
    ensures s.signals <= 1
    ensures s.ops == 0 ==> (s.signals == 1 <==> s.delayed > 0)
    ensures Waiters(s.pcs) == s.delayed - (s.signals - s.unmountSem)
  {
  }

  // ---------------------------------------------------------------- progress

  lemma {:induction false} SomeCounted(pcs: seq<Pc>) returns (t: nat)
    requires Count(pcs) > 0
    ensures t < |pcs| && Counted(pcs[t])
  {
    if Counted(pcs[0]) {
      t := 0;
    } else {
      t := SomeCounted(pcs[1..]);
      t := t + 1;
    }
  }

  /** The one to move when thread t is in an operation: t itself, or the end of the chain of semaphore holders. */
  lemma ProgressFrom(s: Vfs, t: nat) returns (u: nat)
    requires Inv(s) && t < |s.pcs| && s.pcs[t] != Idle && !s.pcs[t].Halted? && !s.pcs[t].HaltWait?
    ensures u < |s.pcs| && CanGo(s, s.pcs[u])
  {
    hide ShutdownOk; hide LocalsOk; hide GoneOk; hide PlansOk; hide FilesOk; hide RowOf; hide FreeRow; hide FreeFile;

    u := t;
    if !CanGo(s, s.pcs[u]) && s.opSem >= 0 {
      u := s.opSem;
    }
    if !CanGo(s, s.pcs[u]) && s.tableSem >= 0 {
      u := s.tableSem;
    }
    if !CanGo(s, s.pcs[u]) && s.fileSem >= 0 {
      u := s.fileSem;
    }
  }

  /** A shutdown that waits for a signal that was given already, to another. */
  predicate Stuck(s: Vfs, t: nat) {
    t < |s.pcs| && s.pcs[t].HaltWait? && !s.usable && s.ops == 0 && s.unmountSem == 0
  }

  /** While any call or any shutdown but the stuck ones is in progress, some thread can go on. */
  lemma Progress(s: Vfs, t: nat) returns (u: nat)
    requires Inv(s) && !s.panicked && t < |s.pcs| && s.pcs[t] != Idle && !s.pcs[t].Halted? && !Stuck(s, t)
    ensures Enabled(s, u, Go(true))
  {
    hide LocksOk; hide LocalsOk; hide GoneOk; hide PlansOk; hide FilesOk; hide CanGo;
    At(s, t);
    if s.pcs[t].HaltWait? {
      if s.unmountSem > 0 {
        u := t;
        WaiterGoes(s, t);
      } else {
        var c := SomeCounted(s.pcs);
        u := ProgressFrom(s, c);
      }
    } else {
      u := ProgressFrom(s, t);
    }
  }

  lemma WaiterGoes(s: Vfs, t: nat)
    requires Shape(s) && t < |s.pcs| && s.pcs[t].HaltWait? && s.unmountSem > 0
    ensures CanGo(s, s.pcs[t])
  {
  }
}
