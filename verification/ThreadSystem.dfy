/**
 Threads, the ready list and the sleep queue as a transition system: one step is one
 region the kernel runs under the thread table lock or the sleep queue lock, on any CPU.
*/
module ThreadSystem {
  import opened Words

  const MAX_THREADS := 32
  const MAX_CPUS := 4
  const IDLE_THREAD_TID := 0
  const SLEEPQ_HASHTABLE_SIZE := 127

  datatype ThreadState = Free | Running | Ready | Sleeping | NonReady | Dying

  /** A thread table row; sleepsOn is the resource waited for, 0 for none. */
  datatype Thread = Thread(state: ThreadState, sleepsOn: Word)

  /**
   All threads, the ready list, the hashed sleep chains, the thread each CPU runs, and the
   thread a waker has taken off its chain but not yet made ready (-1 for none).
  */
  datatype Sys = Sys(th: seq<Thread>, ready: seq<nat>, chains: seq<seq<nat>>, current: seq<nat>, rousing: int)

  datatype Event =
    | Schedule(cpu: nat)
    | SleepAdd(cpu: nat, res: Word)
    | Unlink(res: Word)
    | Rouse
    | Create(tid: nat)
    | Run(tid: nat)
    | Finish(cpu: nat)

  function Hash(res: Word): nat {
    res % SLEEPQ_HASHTABLE_SIZE
  }

  // ---------------------------------------------------------------- steps

  /** Position in l of the first thread waiting for res; |l| if there is none. */
  function FirstMatch(th: seq<Thread>, l: seq<nat>, res: Word): (i: nat)
    ensures i <= |l|
    ensures i < |l| ==> Waits(th, l[i], res)
    ensures forall j :: 0 <= j < i ==> !Waits(th, l[j], res)
  {
    if l == [] || Waits(th, l[0], res) then 0 else 1 + FirstMatch(th, l[1..], res)
  }

  predicate Waits(th: seq<Thread>, t: nat, res: Word) {
    t < |th| && th[t].sleepsOn == res
  }

  function Without(l: seq<nat>, i: nat): (r: seq<nat>)
    requires i < |l|
    ensures |r| == |l| - 1
  {
    l[..i] + l[i + 1..]
  }

  function SetState(th: seq<Thread>, t: nat, state: ThreadState): seq<Thread>
    requires t < |th|
  {
    th[t := th[t].(state := state)]
  }

  function SetSleepsOn(th: seq<Thread>, t: nat, res: Word): seq<Thread>
    requires t < |th|
  {
    th[t := th[t].(sleepsOn := res)]
  }

  predicate Shape(s: Sys) {
    && |s.th| == MAX_THREADS && |s.chains| == SLEEPQ_HASHTABLE_SIZE && |s.current| == MAX_CPUS
    && (forall c :: 0 <= c < MAX_CPUS ==> s.current[c] < MAX_THREADS)
    && (forall i :: 0 <= i < |s.ready| ==> 0 < s.ready[i] < MAX_THREADS)
    && (forall h, i :: 0 <= h < SLEEPQ_HASHTABLE_SIZE && 0 <= i < |s.chains[h]| ==> 0 < s.chains[h][i] < MAX_THREADS)
    && s.rousing < MAX_THREADS
  }

  /** The thread a CPU runs is put away: freed, put to sleep, or queued again. */
  function SwitchOut(s: Sys, cpu: nat): (r: Sys)
    requires Shape(s) && cpu < MAX_CPUS
    ensures Shape(r)
  {
    var t := s.current[cpu];
    if s.th[t].state == Dying then s.(th := SetState(s.th, t, Free))
    else if s.th[t].sleepsOn != 0 then s.(th := SetState(s.th, t, Sleeping))
    else s.(th := SetState(s.th, t, Ready), ready := if t != IDLE_THREAD_TID then s.ready + [t] else s.ready)
  }

  /** The first ready thread runs on a CPU, or the idle thread. */
  function SwitchIn(s: Sys, cpu: nat): (r: Sys)
    requires Shape(s) && cpu < MAX_CPUS
    ensures Shape(r)
  {
    var t := if s.ready == [] then IDLE_THREAD_TID else s.ready[0];
    s.(th := SetState(s.th, t, Running), ready := if s.ready == [] then [] else s.ready[1..],
       current := s.current[cpu := t])
  }

  /** May the event happen now; for calls this includes what their comments ask of the caller. */
  predicate Enabled(s: Sys, e: Event) {
    && Shape(s)
    && match e
       case Schedule(cpu) => cpu < MAX_CPUS
       case SleepAdd(cpu, res) => cpu < MAX_CPUS && Awake(s, cpu) && res != 0 && s.rousing < 0
       case Unlink(res) => s.rousing < 0 && res != 0
       case Rouse => s.rousing >= 0
       case Create(t) => 0 < t < MAX_THREADS && s.th[t].state == Free
       case Run(t) => 0 < t < MAX_THREADS && s.th[t].state == NonReady
       case Finish(cpu) => cpu < MAX_CPUS && Awake(s, cpu)
  }

  /** The CPU runs a thread other than idle that is neither waiting nor dying. */
  predicate Awake(s: Sys, cpu: nat)
    requires Shape(s) && cpu < MAX_CPUS
  {
    s.current[cpu] != IDLE_THREAD_TID && s.th[s.current[cpu]] == Thread(Running, 0)
  }

  function Apply(s: Sys, e: Event): (r: Sys)
    requires Enabled(s, e)
  {
    match e
    case Schedule(cpu) => SwitchIn(SwitchOut(s, cpu), cpu)
    case SleepAdd(cpu, res) =>
      s.(th := SetSleepsOn(s.th, s.current[cpu], res),
         chains := s.chains[Hash(res) := s.chains[Hash(res)] + [s.current[cpu]]])
    case Unlink(res) =>
      var l := s.chains[Hash(res)];
      var i := FirstMatch(s.th, l, res);
      if i < |l| then s.(chains := s.chains[Hash(res) := Without(l, i)], rousing := l[i]) else s
    case Rouse =>
      var t := s.rousing;
      if s.th[t].state == Sleeping then
        s.(th := s.th[t := Thread(Ready, 0)], ready := s.ready + [t], rousing := -1)
      else s.(th := SetSleepsOn(s.th, t, 0), rousing := -1)
    case Create(t) => s.(th := s.th[t := Thread(NonReady, 0)])
    case Run(t) => s.(th := SetState(s.th, t, Ready), ready := s.ready + [t])
    case Finish(cpu) => s.(th := SetState(s.th, s.current[cpu], Dying))
  }

  /** As after thread_table_init, sleepq_init and scheduler_init. */
  function Start(): Sys {
    Sys(seq(MAX_THREADS, t => Thread(if t == 0 then Ready else Free, 0)), [],
        seq(SLEEPQ_HASHTABLE_SIZE, h => []), seq(MAX_CPUS, c => 0), -1)
  }

  // ---------------------------------------------------------------- the invariant

  ghost predicate Distinct(l: seq<nat>) {
    forall i, j :: 0 <= i < j < |l| ==> l[i] != l[j]
  }

  /** A thread other than idle is on the ready list exactly when it is Ready, and then once. */
  ghost predicate ReadyOk(s: Sys)
    requires Shape(s)
  {
    && Distinct(s.ready)
    && forall t: nat {:trigger t in s.ready} {:trigger s.th[t]} :: 0 < t < MAX_THREADS ==>
         (t in s.ready <==> s.th[t].state == Ready)
  }

  /** A thread waits on the chain its resource hashes to, and then once, unless it is being woken. */
  ghost predicate ChainsOk(s: Sys)
    requires Shape(s)
  {
    && (forall h :: 0 <= h < SLEEPQ_HASHTABLE_SIZE ==> Distinct(s.chains[h]))
    && forall h, t: nat {:trigger t in s.chains[h]} :: 0 <= h < SLEEPQ_HASHTABLE_SIZE && 0 < t < MAX_THREADS ==>
         (t in s.chains[h] <==> s.th[t].sleepsOn != 0 && Hash(s.th[t].sleepsOn) == h && t != s.rousing)
  }

  /** Only a running or sleeping thread waits for something, a sleeping one always does. */
  ghost predicate StatesOk(s: Sys)
    requires Shape(s)
  {
    && (forall t {:trigger s.th[t]} :: 0 < t < MAX_THREADS ==> StateOk(s.th[t]))
    && s.th[0].sleepsOn == 0 && s.th[0].state in {Ready, Running}
    && (s.rousing >= 0 ==> s.rousing > 0 && s.th[s.rousing].sleepsOn != 0)
  }

  predicate StateOk(row: Thread) {
    && (row.sleepsOn != 0 ==> row.state == Running || row.state == Sleeping)
    && (row.state == Sleeping ==> row.sleepsOn != 0)
  }

  /** A thread other than idle runs, or is about to end, exactly if one CPU runs it. */
  ghost predicate CpusOk(s: Sys)
    requires Shape(s)
  {
    && (forall c :: 0 <= c < MAX_CPUS && s.current[c] != 0 ==> s.th[s.current[c]].state in {Running, Dying})
    && (forall c, d :: 0 <= c < d < MAX_CPUS && s.current[c] == s.current[d] ==> s.current[c] == 0)
    && (forall t {:trigger s.th[t]} :: 0 < t < MAX_THREADS && s.th[t].state in {Running, Dying} ==> t in s.current)
  }

  ghost predicate Inv(s: Sys) {
    Shape(s) && ReadyOk(s) && ChainsOk(s) && StatesOk(s) && CpusOk(s)
  }

  lemma InvStart()
    ensures Inv(Start())
  {
  }

  // ---------------------------------------------------------------- lists

  lemma DistinctAppend(l: seq<nat>, t: nat)
    requires Distinct(l) && t !in l
    ensures Distinct(l + [t]) && forall x :: x in l + [t] <==> x in l || x == t
  {
  }

  lemma DistinctWithout(l: seq<nat>, i: nat)
    requires Distinct(l) && i < |l|
    ensures Distinct(Without(l, i)) && forall x :: x in Without(l, i) <==> x in l && x != l[i]
  {
    var r := Without(l, i);
    forall x | x in l && x != l[i]
      ensures x in r
    {
      var k :| 0 <= k < |l| && l[k] == x;
      assert r[if k < i then k else k - 1] == x;
    }
    forall x | x in r
      ensures x in l && x != l[i]
    {
      var k :| 0 <= k < |r| && r[k] == x;
      assert r[k] == l[if k < i then k else k + 1];
    }
  }

  // ---------------------------------------------------------------- every step keeps the invariant

  /** Putting the current thread away leaves only the CPU table to be mended. */
  lemma InvSwitchOut(s: Sys, cpu: nat)
    requires Inv(s) && cpu < MAX_CPUS
    ensures Shape(SwitchOut(s, cpu)) && ReadyOk(SwitchOut(s, cpu)) && ChainsOk(SwitchOut(s, cpu))
            && StatesOk(SwitchOut(s, cpu))
    ensures forall c :: 0 <= c < MAX_CPUS && c != cpu && s.current[c] != 0 ==>
              SwitchOut(s, cpu).th[s.current[c]] == s.th[s.current[c]]
    ensures forall t {:trigger SwitchOut(s, cpu).th[t]} ::
              0 < t < MAX_THREADS && SwitchOut(s, cpu).th[t].state in {Running, Dying} ==>
              t != s.current[cpu] && SwitchOut(s, cpu).th[t] == s.th[t]
  {
    hide ReadyOk; hide ChainsOk; hide StatesOk; hide Distinct;
    SwitchOutReady(s, cpu);
    SwitchOutChains(s, cpu);
    SwitchOutStates(s, cpu);
  }

  lemma SwitchOutReady(s: Sys, cpu: nat)
    requires Inv(s) && cpu < MAX_CPUS
    ensures ReadyOk(SwitchOut(s, cpu))
  {
    hide ChainsOk;
    var t := s.current[cpu];
    if t != 0 && s.th[t] == Thread(Running, 0) {
      DistinctAppend(s.ready, t);
    }
  }

  lemma SwitchOutChains(s: Sys, cpu: nat)
    requires Inv(s) && cpu < MAX_CPUS
    ensures ChainsOk(SwitchOut(s, cpu))
  {
    hide ReadyOk; hide CpusOk; hide StatesOk; hide Distinct;
  }

  lemma SwitchOutStates(s: Sys, cpu: nat)
    requires Inv(s) && cpu < MAX_CPUS
    ensures StatesOk(SwitchOut(s, cpu))
  {
    hide ReadyOk; hide ChainsOk;
  }

  lemma InvSwitchIn(s: Sys, cpu: nat)
    requires Shape(s) && ReadyOk(s) && ChainsOk(s) && StatesOk(s) && cpu < MAX_CPUS
    requires forall c :: 0 <= c < MAX_CPUS && c != cpu && s.current[c] != 0 ==>
               s.th[s.current[c]].state in {Running, Dying}
    requires forall c, d :: 0 <= c < d < MAX_CPUS && s.current[c] == s.current[d] ==> s.current[c] == 0
    requires forall t {:trigger s.th[t]} :: 0 < t < MAX_THREADS && s.th[t].state in {Running, Dying} ==>
               t != s.current[cpu] && t in s.current
    ensures Inv(SwitchIn(s, cpu))
  {
    hide Distinct; hide ChainsOk;
    SwitchInCpus(s, cpu);
    var r := SwitchIn(s, cpu);
    if s.ready != [] {
      DistinctWithout(s.ready, 0);
      assert Without(s.ready, 0) == s.ready[1..];
    }
    SwitchInChains(s, cpu);
  }

  lemma SwitchInChains(s: Sys, cpu: nat)
    requires Shape(s) && ChainsOk(s) && cpu < MAX_CPUS
    ensures ChainsOk(SwitchIn(s, cpu))
  {
    hide Distinct;
  }

  lemma SwitchInCpus(s: Sys, cpu: nat)
    requires Shape(s) && ReadyOk(s) && cpu < MAX_CPUS
    requires forall c :: 0 <= c < MAX_CPUS && c != cpu && s.current[c] != 0 ==>
               s.th[s.current[c]].state in {Running, Dying}
    requires forall c, d :: 0 <= c < d < MAX_CPUS && s.current[c] == s.current[d] ==> s.current[c] == 0
    requires forall t {:trigger s.th[t]} :: 0 < t < MAX_THREADS && s.th[t].state in {Running, Dying} ==>
               t != s.current[cpu] && t in s.current
    ensures CpusOk(SwitchIn(s, cpu))
  {
    hide Distinct;
    var r := SwitchIn(s, cpu);
    assert s.ready != [] ==> s.ready[0] in s.ready;
    forall t | 0 < t < MAX_THREADS && r.th[t].state in {Running, Dying}
      ensures t in r.current
    {
      if t != r.current[cpu] {
        var c :| 0 <= c < MAX_CPUS && s.current[c] == t;
        assert r.current[c] == t;
      } else {
        assert r.current[cpu] == t;
      }
    }
  }

  lemma InvSleepAdd(s: Sys, cpu: nat, res: Word)
    requires Inv(s) && Enabled(s, SleepAdd(cpu, res))
    ensures Inv(Apply(s, SleepAdd(cpu, res)))
  {
    var t := s.current[cpu];
    DistinctAppend(s.chains[Hash(res)], t);
  }

  lemma InvUnlink(s: Sys, res: Word)
    requires Inv(s) && Enabled(s, Unlink(res))
    ensures Inv(Apply(s, Unlink(res)))
  {
    var l := s.chains[Hash(res)];
    var i := FirstMatch(s.th, l, res);
    if i < |l| {
      DistinctWithout(l, i);
      assert l[i] in l;
    }
  }

  lemma InvRouse(s: Sys)
    requires Inv(s) && Enabled(s, Rouse)
    ensures Inv(Apply(s, Rouse))
  {
    if s.th[s.rousing].state == Sleeping {
      DistinctAppend(s.ready, s.rousing);
    }
  }

  lemma InvRun(s: Sys, t: nat)
    requires Inv(s) && Enabled(s, Run(t))
    ensures Inv(Apply(s, Run(t)))
  {
    DistinctAppend(s.ready, t);
  }

  lemma InvCreate(s: Sys, t: nat)
    requires Inv(s) && Enabled(s, Create(t))
    ensures Inv(Apply(s, Create(t)))
  {
  }

  lemma InvFinish(s: Sys, cpu: nat)
    requires Inv(s) && Enabled(s, Finish(cpu))
    ensures Inv(Apply(s, Finish(cpu)))
  {
  }

  lemma InvStep(s: Sys, e: Event)
    requires Inv(s) && Enabled(s, e)
    ensures Inv(Apply(s, e))
  {
    hide ReadyOk; hide ChainsOk; hide StatesOk; hide CpusOk;
    match e {
      case Schedule(cpu) => InvSchedule(s, cpu);
      case SleepAdd(cpu, res) => InvSleepAdd(s, cpu, res);
      case Unlink(res) => InvUnlink(s, res);
      case Rouse => InvRouse(s);
      case Create(t) => InvCreate(s, t);
      case Run(t) => InvRun(s, t);
      case Finish(cpu) => InvFinish(s, cpu);
    }
  }

  lemma InvSchedule(s: Sys, cpu: nat)
    requires Inv(s) && Enabled(s, Schedule(cpu))
    ensures Inv(Apply(s, Schedule(cpu)))
  {
    InvSwitchOut(s, cpu);
    InvSwitchIn(SwitchOut(s, cpu), cpu);
  }
}
