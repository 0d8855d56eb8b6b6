/**
 Counting semaphores on the sleep queue. The system part counts over whole runs; the class
 is the semaphore table of the kernel and refines its steps.
*/
module Semaphores {
  import opened Cyclic
  import opened Words
  import opened ThreadSystem
  import opened ThreadTheorems
  import opened ThreadKernel

  const MAX_SEMAPHORES := 128

  /** Bytes of a semaphore table row: lock, value, creator. */
  const SEMAPHORE_SIZE := 12

  /** Threads and semaphore values; the table lies at address base. */
  datatype SemSys = SemSys(sys: Sys, base: Word, values: seq<int>)

  datatype SemEvent = P(cpu: nat, k: nat) | V(k: nat) | Other(e: Event)

  /** The address of semaphore k, which its waiters sleep on. */
  function Address(base: Word, k: nat): int {
    base + SEMAPHORE_SIZE * k
  }

  predicate SemShape(s: SemSys) {
    Shape(s.sys) && |s.values| == MAX_SEMAPHORES && 0 < s.base
      && s.base + SEMAPHORE_SIZE * MAX_SEMAPHORES < 0x1_0000_0000
  }

  predicate IsAddress(base: Word, res: Word) {
    exists k: nat :: k < MAX_SEMAPHORES && res == Address(base, k)
  }

  /** Semaphores are waited for and woken only through P and V. */
  predicate Foreign(base: Word, e: Event) {
    (e.SleepAdd? || e.Unlink?) ==> !IsAddress(base, e.res)
  }

  ghost predicate SemEnabled(s: SemSys, e: SemEvent) {
    && SemShape(s)
    && match e
       case P(cpu, k) => k < MAX_SEMAPHORES && cpu < MAX_CPUS && Awake(s.sys, cpu)
         && (s.values[k] <= 0 ==> s.sys.rousing < 0)
       case V(k) => k < MAX_SEMAPHORES && (s.values[k] < 0 ==> s.sys.rousing < 0)
       case Other(e) => Enabled(s.sys, e) && Foreign(s.base, e)
  }

  /** P lowers the value and queues the caller if it falls below 0; V raises it and takes a waiter if it was. */
  ghost function SemApply(s: SemSys, e: SemEvent): SemSys
    requires SemEnabled(s, e)
  {
    match e
    case P(cpu, k) =>
      s.(values := s.values[k := s.values[k] - 1],
         sys := if s.values[k] - 1 < 0 then Apply(s.sys, SleepAdd(cpu, Address(s.base, k))) else s.sys)
    case V(k) =>
      s.(values := s.values[k := s.values[k] + 1],
         sys := if s.values[k] + 1 <= 0 then Apply(s.sys, Unlink(Address(s.base, k))) else s.sys)
    case Other(e) => s.(sys := Apply(s.sys, e))
  }

  /** The threads waiting for semaphore k, earliest first. */
  function WaitingFor(s: SemSys, k: nat): seq<nat>
    requires SemShape(s) && k < MAX_SEMAPHORES
  {
    Waiting(s.sys, Address(s.base, k))
  }

  function Deficit(value: int): nat {
    if value < 0 then -value else 0
  }

  /** A semaphore has as many waiters as its value is below 0. */
  ghost predicate SemInv(s: SemSys) {
    && SemShape(s) && Inv(s.sys)
    && forall k {:trigger s.values[k]} :: 0 <= k < MAX_SEMAPHORES ==> |WaitingFor(s, k)| == Deficit(s.values[k])
  }

  lemma AddressesDiffer(base: Word, k: nat, j: nat)
    ensures Address(base, k) == Address(base, j) <==> k == j
  {
  }

  lemma StepP(s: SemSys, cpu: nat, k: nat, j: nat)
    requires SemInv(s) && SemEnabled(s, P(cpu, k)) && j < MAX_SEMAPHORES
    ensures Inv(SemApply(s, P(cpu, k)).sys)
    ensures WaitingFor(SemApply(s, P(cpu, k)), j) ==
            WaitingFor(s, j) + if j == k && s.values[k] <= 0 then [s.sys.current[cpu]] else []
  {
    hide Inv; hide Apply; hide Waiting;
    if s.values[k] <= 0 {
      InvStep(s.sys, SleepAdd(cpu, Address(s.base, k)));
      AddressesDiffer(s.base, k, j);
      AddEnqueues(s.sys, cpu, Address(s.base, k), Address(s.base, j));
    }
  }

  lemma StepV(s: SemSys, k: nat, j: nat)
    requires SemInv(s) && SemEnabled(s, V(k)) && j < MAX_SEMAPHORES
    ensures Inv(SemApply(s, V(k)).sys)
    ensures s.values[k] < 0 ==> WaitingFor(s, k) != [] && SemApply(s, V(k)).sys.rousing == WaitingFor(s, k)[0]
    ensures WaitingFor(SemApply(s, V(k)), j) == if j == k
              && s.values[k] < 0 then WaitingFor(s, k)[1..] else WaitingFor(s, j)
  {
    hide Inv; hide Apply; hide Waiting;
    if s.values[k] < 0 {
      assert |WaitingFor(s, k)| == Deficit(s.values[k]);
      InvStep(s.sys, Unlink(Address(s.base, k)));
      AddressesDiffer(s.base, k, j);
      UnlinkDequeues(s.sys, Address(s.base, k), Address(s.base, j));
    }
  }

  lemma StepOther(s: SemSys, e: Event, j: nat)
    requires SemInv(s) && SemEnabled(s, Other(e)) && j < MAX_SEMAPHORES
    ensures Inv(SemApply(s, Other(e)).sys)
    ensures WaitingFor(SemApply(s, Other(e)), j) == WaitingFor(s, j)
  {
    hide Inv; hide Waiting; hide Apply;
    InvStep(s.sys, e);
    assert e.SleepAdd? || e.Unlink? ==> e.res != Address(s.base, j);
    match e {
      case SleepAdd(cpu, r) => AddEnqueues(s.sys, cpu, r, Address(s.base, j));
      case Unlink(r) => UnlinkDequeues(s.sys, r, Address(s.base, j));
      case _ => OthersKeepQueues(s.sys, e, Address(s.base, j));
    }
  }

  /** Every step keeps the invariant. */
  lemma SemInvStep(s: SemSys, e: SemEvent)
    requires SemInv(s) && SemEnabled(s, e)
    ensures SemInv(SemApply(s, e))
  {
    hide Inv; hide Waiting; hide Apply; hide Foreign;
    var s' := SemApply(s, e);
    StepQueues(s, e, 0);
    forall j | 0 <= j < MAX_SEMAPHORES
      ensures |WaitingFor(s', j)| == Deficit(s'.values[j])
    {
      assert |WaitingFor(s, j)| == Deficit(s.values[j]);
      StepQueues(s, e, j);
    }
  }

  /** What a step does to the queue of semaphore j. */
  lemma StepQueues(s: SemSys, e: SemEvent, j: nat)
    requires SemInv(s) && SemEnabled(s, e) && j < MAX_SEMAPHORES
    ensures SemShape(SemApply(s, e)) && Inv(SemApply(s, e).sys)
    ensures WaitingFor(SemApply(s, e), j) ==
            if e == V(j) && s.values[j] < 0 && WaitingFor(s, j) != [] then WaitingFor(s, j)[1..]
            else WaitingFor(s, j) + if e.P? && e.k == j && s.values[j] <= 0 then [s.sys.current[e.cpu]] else []
  {
    hide Inv; hide Waiting; hide Apply; hide Foreign;
    match e {
      case P(cpu, k) => StepP(s, cpu, k, j);
      case V(k) => StepV(s, k, j);
      case Other(o) => StepOther(s, o, j);
    }
    InvShape(SemApply(s, e).sys);
  }

  // ---------------------------------------------------------------- whole runs

  ghost predicate SemPath(ss: seq<SemSys>, es: seq<SemEvent>) {
    && |ss| == |es| + 1
    && forall i {:trigger es[i]} :: 0 <= i < |es| ==> SemEnabled(ss[i], es[i]) && ss[i + 1] == SemApply(ss[i], es[i])
  }

  lemma SemPathPrefix(ss: seq<SemSys>, es: seq<SemEvent>)
    requires SemPath(ss, es) && es != []
    ensures SemPath(ss[..|es|], es[..|es| - 1])
    ensures SemEnabled(ss[|es| - 1], es[|es| - 1]) && ss[|es|] == SemApply(ss[|es| - 1], es[|es| - 1])
  {
    hide SemApply; hide SemEnabled;
    assert es[|es| - 1] in es;
    forall i | 0 <= i < |es| - 1
      ensures SemEnabled(ss[i], es[i]) && ss[i + 1] == SemApply(ss[i], es[i])
    {
      assert es[i] in es;
    }
  }

  function Ps(es: seq<SemEvent>, k: nat): nat {
    if es == [] then 0 else Ps(es[..|es| - 1], k) + if es[|es| - 1].P? && es[|es| - 1].k == k then 1 else 0
  }

  function Vs(es: seq<SemEvent>, k: nat): nat {
    if es == [] then 0 else Vs(es[..|es| - 1], k) + if es[|es| - 1] == V(k) then 1 else 0
  }

  /** P calls let through: those that found a value above 0 and those a V has woken. */
  ghost function Granted(ss: seq<SemSys>, es: seq<SemEvent>, k: nat): nat
    requires SemPath(ss, es) && k < MAX_SEMAPHORES
    decreases |es|
  {
    if es == [] then 0
    else
      hide SemApply;
      SemPathPrefix(ss, es);
      var s, e := ss[|es| - 1], es[|es| - 1];
      Granted(ss[..|es|], es[..|es| - 1], k)
      + if (e.P? && e.k == k && s.values[k] > 0) || (e == V(k) && s.values[k] < 0) then 1 else 0
  }

  /** The value is the initial value plus V calls minus P calls, and the waiters are those it lacks. */
  lemma {:induction false} ValueCounts(ss: seq<SemSys>, es: seq<SemEvent>, k: nat)
    requires SemPath(ss, es) && SemInv(ss[0]) && k < MAX_SEMAPHORES
    ensures SemInv(ss[|es|])
    ensures ss[|es|].values[k] == ss[0].values[k] + Vs(es, k) - Ps(es, k)
    ensures |WaitingFor(ss[|es|], k)| == Deficit(ss[0].values[k] + Vs(es, k) - Ps(es, k))
  {
    hide Inv; hide Waiting; hide Apply; hide Foreign;
    if es != [] {
      SemPathPrefix(ss, es);
      ValueCounts(ss[..|es|], es[..|es| - 1], k);
      SemInvStep(ss[|es| - 1], es[|es| - 1]);
    }
    assert |WaitingFor(ss[|es|], k)| == Deficit(ss[|es|].values[k]);
  }

  /** Of P calls, exactly min(P calls, initial value + V calls) are let through. */
  lemma {:induction false} GrantedCounts(ss: seq<SemSys>, es: seq<SemEvent>, k: nat)
    requires SemPath(ss, es) && SemInv(ss[0]) && k < MAX_SEMAPHORES && ss[0].values[k] >= 0
    ensures var p, v := Ps(es, k), ss[0].values[k] + Vs(es, k);
            Granted(ss, es, k) == if p <= v then p else v
  {
    hide Inv; hide Waiting; hide Apply; hide Foreign; hide SemApply; hide SemEnabled;
    if es != [] {
      SemPathPrefix(ss, es);
      GrantedCounts(ss[..|es|], es[..|es| - 1], k);
      ValueCounts(ss[..|es|], es[..|es| - 1], k);
    }
  }

  /** With initial value 1, P calls let through exceed V calls by at most one. */
  lemma GrantsExceedByOne(ss: seq<SemSys>, es: seq<SemEvent>, k: nat)
    requires SemPath(ss, es) && SemInv(ss[0]) && k < MAX_SEMAPHORES && ss[0].values[k] == 1
    ensures Granted(ss, es, k) <= Vs(es, k) + 1
    ensures Granted(ss, es, k) == Vs(es, k) + 1 <==> ss[|es|].values[k] <= 0
  {
    hide Inv; hide Granted; hide WaitingFor; hide SemApply; hide SemEnabled;
    GrantedCounts(ss, es, k);
    ValueCounts(ss, es, k);
  }

  // ---------------------------------------------------------------- mutual exclusion

  /** The threads between a P that let them through and their V, after one more step; caller is who calls V. */
  ghost function InsideAfter(s: SemSys, e: SemEvent, k: nat, caller: nat, inside: set<nat>): set<nat>
    requires SemEnabled(s, e) && k < MAX_SEMAPHORES
  {
    hide Foreign; hide Inv; hide Waiting;
    match e
    case P(cpu, j) => if j == k && s.values[k] > 0 then inside + {s.sys.current[cpu]} else inside
    case V(j) =>
      if j != k then inside
      else inside - {caller} + if s.values[k] < 0 && WaitingFor(s, k) != [] then {WaitingFor(s, k)[0]} else {}
    case Other(o) => inside
  }

  /** insides follows the run from nobody inside, and V is called by threads that are inside only. */
  ghost predicate Disciplined(ss: seq<SemSys>, es: seq<SemEvent>, k: nat, callers: seq<nat>, insides: seq<set<nat>>)
    requires k < MAX_SEMAPHORES
  {
    && SemPath(ss, es) && |callers| == |es| && |insides| == |ss| && insides[0] == {}
    && forall i {:trigger es[i]} :: 0 <= i < |es| ==>
         DisciplinedStep(ss[i], es[i], k, callers[i], insides[i], insides[i + 1])
  }

  ghost predicate DisciplinedStep(s: SemSys, e: SemEvent, k: nat, caller: nat, inside: set<nat>, inside': set<nat>)
    requires k < MAX_SEMAPHORES
  {
    SemEnabled(s, e) && (e == V(k) ==> caller in inside) && inside' == InsideAfter(s, e, k, caller, inside)
  }

  /** The value is 1 and nobody is inside, or it is at most 0 and one thread is. */
  ghost predicate OneInside(value: int, inside: set<nat>) {
    if value > 0 then value == 1 && inside == {} else exists t :: inside == {t}
  }

  lemma OneInsideStep(s: SemSys, e: SemEvent, k: nat, caller: nat, inside: set<nat>, inside': set<nat>)
    requires SemInv(s) && k < MAX_SEMAPHORES && DisciplinedStep(s, e, k, caller, inside, inside')
             && OneInside(s.values[k], inside)
    ensures OneInside(SemApply(s, e).values[k], inside')
  {
    hide Inv; hide Waiting; hide Apply; hide Foreign; hide Enabled; hide WaitingFor;
    WaitersBelowZero(s, k);
    match e {
      case P(cpu, j) =>
        if j == k && s.values[k] > 0 {
          assert inside' == {s.sys.current[cpu]};
        }
      case V(j) =>
        if j == k {
          assert inside == {caller};
          if s.values[k] < 0 {
            assert inside' == {WaitingFor(s, k)[0]};
          } else {
            assert inside' == {};
          }
        }
      case Other(o) =>
    }
  }

  /**
   A semaphore created with value 1, on which threads call V only after their own P let them
   through, lets one thread in at a time, over any run; nobody is inside exactly when its value is 1.
  */
  lemma {:induction false} MutualExclusion(ss: seq<SemSys>, es: seq<SemEvent>, k: nat, callers: seq<nat>,
                                           insides: seq<set<nat>>)
    requires k < MAX_SEMAPHORES && Disciplined(ss, es, k, callers, insides) && SemInv(ss[0]) && ss[0].values[k] == 1
    ensures SemInv(ss[|es|])
    ensures |insides[|es|]| <= 1 && (insides[|es|] == {} <==> ss[|es|].values[k] == 1)
              && OneInside(ss[|es|].values[k], insides[|es|])
  {
    hide SemApply; hide SemEnabled; hide SemInv; hide DisciplinedStep; hide OneInside;
    if es == [] {
      OneInsideStart();
    } else {
      var n := |es| - 1;
      SemPathPrefix(ss, es);
      DisciplinedPrefix(ss, es, k, callers, insides);
      MutualExclusion(ss[..|es|], es[..n], k, callers[..n], insides[..|es|]);
      SemInvStep(ss[n], es[n]);
      OneInsideStep(ss[n], es[n], k, callers[n], insides[n], insides[n + 1]);
    }
    AtLeastShape(ss[|es|]);
    OneInsideSize(ss[|es|].values[k], insides[|es|]);
  }

  lemma AtLeastShape(s: SemSys)
    requires SemInv(s)
    ensures SemShape(s)
  {
  }

  lemma OneInsideStart()
    ensures OneInside(1, {})
  {
  }

  lemma OneInsideSize(value: int, inside: set<nat>)
    requires OneInside(value, inside)
    ensures |inside| <= 1 && (inside == {} <==> value == 1)
  {
  }

  lemma DisciplinedPrefix(ss: seq<SemSys>, es: seq<SemEvent>, k: nat, callers: seq<nat>, insides: seq<set<nat>>)
    requires k < MAX_SEMAPHORES && Disciplined(ss, es, k, callers, insides) && es != []
    ensures var n := |es| - 1;
            && Disciplined(ss[..|es|], es[..n], k, callers[..n], insides[..|es|])
            && DisciplinedStep(ss[n], es[n], k, callers[n], insides[n], insides[n + 1])
  {
    hide SemApply; hide SemEnabled; hide DisciplinedStep;
    var n := |es| - 1;
    SemPathPrefix(ss, es);
    assert es[n] in es;
    forall i | 0 <= i < n
      ensures DisciplinedStep(ss[i], es[i], k, callers[i], insides[i], insides[i + 1])
    {
      assert es[i] in es;
    }
  }

  // ---------------------------------------------------------------- order of service

  /** Waiters are served in order: the one at position j is woken by exactly the (j + 1)-th V from now. */
  lemma {:induction false} ServedInOrder(ss: seq<SemSys>, es: seq<SemEvent>, k: nat, j: nat)
    requires SemPath(ss, es) && SemInv(ss[0]) && k < MAX_SEMAPHORES && j < |WaitingFor(ss[0], k)| && Vs(es, k) <= j
    ensures SemInv(ss[|es|])
    ensures j - Vs(es, k) < |WaitingFor(ss[|es|], k)|
            && WaitingFor(ss[|es|], k)[j - Vs(es, k)] == WaitingFor(ss[0], k)[j]
  {
    hide Inv; hide Waiting; hide Apply; hide Foreign; hide SemApply; hide SemEnabled; hide WaitingFor;
    if es != [] {
      SemPathPrefix(ss, es);
      ServedInOrder(ss[..|es|], es[..|es| - 1], k, j);
      SemInvStep(ss[|es| - 1], es[|es| - 1]);
      StepQueues(ss[|es| - 1], es[|es| - 1], k);
      WaitersBelowZero(ss[|es| - 1], k);
    }
  }

  lemma WaitersBelowZero(s: SemSys, k: nat)
    requires SemInv(s) && k < MAX_SEMAPHORES
    ensures |WaitingFor(s, k)| == Deficit(s.values[k])
  {
    hide Inv; hide Waiting;
  }

  lemma InitOk(s: SemSys, k: nat, value: nat)
    requires SemInv(s) && k < MAX_SEMAPHORES && WaitingFor(s, k) == []
    ensures SemInv(s.(values := s.values[k := value]))
  {
    hide Inv; hide Waiting;
    var s' := s.(values := s.values[k := value]);
    forall j | 0 <= j < MAX_SEMAPHORES
      ensures |WaitingFor(s', j)| == Deficit(s'.values[j])
    {
      WaitersBelowZero(s, j);
    }
  }

  /** A V that takes a waiter goes on to make it ready. */
  lemma RouseAfterV(s: SemSys, k: nat)
    requires SemInv(s) && SemEnabled(s, V(k)) && s.values[k] < 0
    ensures SemEnabled(SemApply(s, V(k)), Other(Rouse)) && SemInv(SemApply(SemApply(s, V(k)), Other(Rouse)))
    ensures SemApply(SemApply(s, V(k)), Other(Rouse)).sys == WakeOne(s.sys, Address(s.base, k))
  {
    hide ReadyOk; hide ChainsOk; hide StatesOk; hide CpusOk; hide Waiting; hide Apply;
    SemInvStep(s, V(k));
    WaitersBelowZero(s, k);
    WakeOneOk(s.sys, Address(s.base, k));
    SemInvStep(SemApply(s, V(k)), Other(Rouse));
  }

  // ---------------------------------------------------------------- the table

  class SemaphoreTable {
    const kernel: Kernel
    const base: Word
    var values: seq<int>
    var creators: seq<int>
    var nextSem: nat

    ghost function St(): SemSys
      reads this, kernel
    {
      SemSys(kernel.St(), base, values)
    }

    ghost predicate Valid()
      reads this, kernel
    {
      kernel.Valid() && SemInv(St()) && |creators| == MAX_SEMAPHORES && nextSem < MAX_SEMAPHORES
    }

    /** semaphore_init: no row is in use. */
    constructor (kernel: Kernel, base: Word)
      requires kernel.Valid() && kernel.St() == Start() && 0 < base
               && base + SEMAPHORE_SIZE * MAX_SEMAPHORES < 0x1_0000_0000
      ensures Valid() && this.kernel == kernel && this.base == base && nextSem == 0
      ensures forall k :: 0 <= k < MAX_SEMAPHORES ==> creators[k] == -1
    {
      this.kernel, this.base := kernel, base;
      values := seq(MAX_SEMAPHORES, k => 0);
      creators := seq(MAX_SEMAPHORES, k => -1);
      nextSem := 0;
    }

    /** The first unused row from nextSem on, in cyclic order, and where the next search starts. */
    method FindUnused() returns (id: int, next: nat)
      requires |creators| == MAX_SEMAPHORES && nextSem < MAX_SEMAPHORES
      ensures id == -1 || 0 <= id < MAX_SEMAPHORES
      ensures id == -1 ==> next == nextSem && forall t :: 0 <= t < MAX_SEMAPHORES ==> creators[t] != -1
      ensures id >= 0 ==> creators[id] == -1 && next == (id + 1) % MAX_SEMAPHORES
      ensures id >= 0 ==>
                forall t: nat :: t < MAX_SEMAPHORES ==>
                  (t - nextSem) % 128 < (id - nextSem) % 128 ==> creators[t] != -1
    {
      next := nextSem;
      WalkRound(nextSem, 0, MAX_SEMAPHORES);
      var i := 0;
      while i < MAX_SEMAPHORES
        invariant 0 <= i <= MAX_SEMAPHORES && next == RowAt(nextSem, i, MAX_SEMAPHORES)
        invariant forall t: nat :: t < MAX_SEMAPHORES && Distance(nextSem, t, MAX_SEMAPHORES) < i ==> creators[t] != -1
      {
        WalkRound(nextSem, i, MAX_SEMAPHORES);
        var candidate := next;
        next := (next + 1) % MAX_SEMAPHORES;
        if creators[candidate] == -1 {
          return candidate, next;
        }
        i := i + 1;
      }
      id := -1;
    }

    /** Takes an unused row for a semaphore with the given value; -1 if all are in use. */
    method Create(value: nat, creator: nat) returns (id: int)
      requires Valid()
      requires forall k :: 0 <= k < MAX_SEMAPHORES && creators[k] == -1 ==> WaitingFor(St(), k) == []
      modifies this
      ensures Valid() && (id == -1 || 0 <= id < MAX_SEMAPHORES)
      ensures id == -1 <==> forall k :: 0 <= k < MAX_SEMAPHORES ==> old(creators)[k] != -1
      ensures id == -1 ==> St() == old(St()) && creators == old(creators) && nextSem == old(nextSem)
      ensures id >= 0 ==> St() == old(St()).(values := old(values)[id := value])
      ensures id >= 0 ==>
                old(creators)[id] == -1 && creators == old(creators)[id := creator]
                && nextSem == (id + 1) % MAX_SEMAPHORES
      ensures id >= 0 ==>
                forall k: nat :: k < MAX_SEMAPHORES ==>
                  (k - old(nextSem)) % 128 < (id - old(nextSem)) % 128 ==> old(creators)[k] != -1
    {
      hide Inv; hide Waiting; hide Distance;
      var next;
      id, next := FindUnused();
      nextSem := next;
      if id >= 0 {
        creators := creators[id := creator];
        InitOk(St(), id, value);
        values := values[id := value];
      }
    }

    /** Lowers semaphore k; if its value falls below 0, the caller waits for it from its next switch on. */
    method SemP(cpu: nat, k: nat)
      requires Valid() && SemEnabled(St(), P(cpu, k))
      modifies this, kernel
      ensures Valid() && St() == SemApply(old(St()), P(cpu, k))
      ensures creators == old(creators) && nextSem == old(nextSem)
    {
      hide Inv; hide Waiting; hide ListsOk;
      SemInvStep(St(), P(cpu, k));
      values := values[k := values[k] - 1];
      if values[k] < 0 {
        kernel.SleepqAdd(cpu, Address(base, k));
      }
    }

    /** Raises semaphore k and wakes the first waiter if there is one. */
    method SemV(k: nat)
      requires Valid() && SemEnabled(St(), V(k))
      modifies this, kernel
      ensures Valid() && creators == old(creators) && nextSem == old(nextSem)
      ensures old(values[k]) >= 0 ==> St() == SemApply(old(St()), V(k))
      ensures old(values[k]) < 0 ==>
                SemEnabled(SemApply(old(St()), V(k)), Other(Rouse))
                && St() == SemApply(SemApply(old(St()), V(k)), Other(Rouse))
    {
      hide Inv; hide Waiting; hide ListsOk; hide Apply;
      ghost var s := St();
      SemInvStep(s, V(k));
      StepV(s, k, k);
      if values[k] < 0 {
        RouseAfterV(s, k);
      }
      values := values[k := values[k] + 1];
      if values[k] <= 0 {
        kernel.SleepqWake(Address(base, k));
      }
    }
  }
}
