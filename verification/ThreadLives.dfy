/** The life of a thread over whole runs: from the creation that takes its row to the switch that frees it. */
module ThreadLives {
  import opened Words
  import opened ThreadSystem
  import opened ThreadTheorems

  // ---------------------------------------------------------------- no thread

  /** Row t is free, and t is on no list and no CPU. */
  ghost predicate Gone(s: Sys, t: nat) {
    && Shape(s) && t < MAX_THREADS && s.th[t].state == Free && t !in s.ready && t !in s.current && s.rousing != t
    && forall h :: 0 <= h < SLEEPQ_HASHTABLE_SIZE ==> t !in s.chains[h]
  }

  lemma FreeIsGone(s: Sys, t: nat)
    requires Inv(s) && 0 < t < MAX_THREADS && s.th[t].state == Free
    ensures Gone(s, t)
  {
  }

  /** Only a creation takes a free row. */
  lemma GoneStays(s: Sys, e: Event, t: nat)
    requires Inv(s) && Enabled(s, e) && 0 < t < MAX_THREADS && s.th[t].state == Free && e != Create(t)
    ensures Inv(Apply(s, e)) && Apply(s, e).th[t].state == Free
  {
    hide Distinct; hide ReadyOk; hide ChainsOk; hide StatesOk; hide CpusOk; hide SwitchIn; hide SwitchOut;
    InvStep(s, e);
    FreeIsGone(s, t);
    if e.Schedule? {
      SwitchSpares(s, e.cpu, t);
    } else {
      OtherSpares(s, e, t);
    }
  }

  /** A switch spares a thread that is neither ready nor current there. */
  lemma SwitchSpares(s: Sys, cpu: nat, t: nat)
    requires Inv(s) && cpu < MAX_CPUS && 0 < t < MAX_THREADS && t != s.current[cpu] && t !in s.ready
    ensures var s' := SwitchIn(SwitchOut(s, cpu), cpu);
            s'.th[t] == s.th[t] && s'.current == s.current[cpu := s'.current[cpu]] && s'.current[cpu] != t
  {
    hide Distinct; hide ReadyOk; hide ChainsOk; hide StatesOk; hide CpusOk;
    assert s.ready != [] ==> s.ready[0] in s.ready;
  }

  /** The other steps change rows only as their names say. */
  lemma OtherSpares(s: Sys, e: Event, t: nat)
    requires Inv(s) && Enabled(s, e) && 0 < t < MAX_THREADS && !e.Schedule?
    ensures var s' := Apply(s, e);
            && s'.current == s.current
            && (e != Create(t) && e != Run(t) && !(e.Rouse? && s.rousing == t) && !Finishes(s, e, t) ==>
                  s'.th[t].state == s.th[t].state)
            && (s.th[t].state in {Free, NonReady, Dying} && e != Create(t) && e != Run(t) ==> s'.th[t] == s.th[t])
  {
    hide Distinct; hide ReadyOk; hide ChainsOk; hide SwitchIn; hide SwitchOut;
  }

  /** Until then the thread is on no list, and no switch chooses it. */
  lemma {:induction false} GoneUntilCreated(ss: seq<Sys>, es: seq<Event>, t: nat)
    requires Path(ss, es) && Inv(ss[0]) && 0 < t < MAX_THREADS && Gone(ss[0], t)
    requires forall i :: 0 <= i < |es| ==> es[i] != Create(t)
    ensures Inv(ss[|es|]) && Gone(ss[|es|], t)
  {
    hide Apply; hide Enabled; hide Inv; hide Gone;
    assert ss[0].th[t].state == Free by { GoneParts(ss[0], t); }
    if es != [] {
      PathPrefix(ss, es);
      GoneUntilCreated(ss[..|es|], es[..|es| - 1], t);
      GoneParts(ss[|es| - 1], t);
      GoneStays(ss[|es| - 1], es[|es| - 1], t);
      FreeIsGone(ss[|es|], t);
    }
  }

  lemma GoneParts(s: Sys, t: nat)
    requires Gone(s, t)
    ensures Shape(s) && t < MAX_THREADS && s.th[t].state == Free
  {
  }

  // ---------------------------------------------------------------- the end

  /** CPU c runs thread t, which has called thread_finish. */
  ghost predicate Ending(s: Sys, c: nat, t: nat) {
    && Shape(s) && c < MAX_CPUS && 0 < t < MAX_THREADS && s.current[c] == t && s.th[t].state == Dying
    && forall d :: 0 <= d < MAX_CPUS && s.current[d] == t ==> d == c
  }

  lemma FinishEnds(s: Sys, c: nat)
    requires Inv(s) && Enabled(s, Finish(c))
    ensures Inv(Apply(s, Finish(c))) && Ending(Apply(s, Finish(c)), c, s.current[c])
  {
    InvStep(s, Finish(c));
  }

  lemma EndingStays(s: Sys, e: Event, c: nat, t: nat)
    requires Inv(s) && Enabled(s, e) && Ending(s, c, t) && e != Schedule(c)
    ensures Inv(Apply(s, e)) && Ending(Apply(s, e), c, t)
  {
    hide Distinct; hide ChainsOk; hide StatesOk; hide SwitchIn; hide SwitchOut;
    InvStep(s, e);
    if e.Schedule? {
      SwitchSpares(s, e.cpu, t);
    } else {
      OtherSpares(s, e, t);
    }
  }

  lemma EndingSwitched(s: Sys, c: nat, t: nat)
    requires Inv(s) && Ending(s, c, t)
    ensures Inv(Apply(s, Schedule(c))) && Gone(Apply(s, Schedule(c)), t)
  {
    hide Distinct; hide ChainsOk;
    InvStep(s, Schedule(c));
    assert s.ready != [] ==> s.ready[0] in s.ready;
    FreeIsGone(Apply(s, Schedule(c)), t);
  }

  /** Until its CPU switches, the ending thread stays there, and no other CPU chooses it. */
  lemma {:induction false} EndsWhereItRan(ss: seq<Sys>, es: seq<Event>, c: nat, t: nat)
    requires Path(ss, es) && Inv(ss[0]) && Ending(ss[0], c, t)
    requires forall i :: 0 <= i < |es| ==> es[i] != Schedule(c)
    ensures Inv(ss[|es|]) && Ending(ss[|es|], c, t)
  {
    hide Apply; hide Enabled; hide Inv; hide Ending;
    if es != [] {
      PathPrefix(ss, es);
      EndsWhereItRan(ss[..|es|], es[..|es| - 1], c, t);
      EndingStays(ss[|es| - 1], es[|es| - 1], c, t);
    }
  }

  lemma TailPath(ss: seq<Sys>, es: seq<Event>, k: nat)
    requires Path(ss, es) && k <= |es|
    ensures Path(ss[k..], es[k..]) && ss[k..][0] == ss[k] && ss[k..][|es| - k] == ss[|es|]
  {
    hide Apply; hide Enabled;
    var q, r := ss[k..], es[k..];
    forall i {:trigger r[i]} | 0 <= i < |r|
      ensures Enabled(q[i], r[i]) && q[i + 1] == Apply(q[i], r[i])
    {
      assert r[i] == es[k + i];
    }
  }

  lemma HeadPath(ss: seq<Sys>, es: seq<Event>, k: nat)
    requires Path(ss, es) && k <= |es|
    ensures Path(ss[..k + 1], es[..k])
  {
    hide Apply; hide Enabled;
    var q, r := ss[..k + 1], es[..k];
    forall i {:trigger r[i]} | 0 <= i < |r|
      ensures Enabled(q[i], r[i]) && q[i + 1] == Apply(q[i], r[i])
    {
      assert r[i] == es[i];
    }
  }

  /**
   The whole story of a thread's end: it finishes on CPU c, which switches next at step k. Up to that step it
   is current there and nowhere else; from then on its row is free and it is on no list and no CPU, at least
   until a creation takes the row.
  */
  lemma FinishedIsFreed(ss: seq<Sys>, es: seq<Event>, c: nat, t: nat, k: nat)
    requires Path(ss, es) && Inv(ss[0]) && 0 < k < |es| && es[0] == Finish(c) && es[k] == Schedule(c)
    requires Shape(ss[0]) && c < MAX_CPUS && t == ss[0].current[c]
    requires forall i :: 0 < i < k ==> es[i] != Schedule(c)
    requires forall i :: k < i < |es| ==> es[i] != Create(t)
    ensures Gone(ss[k + 1], t) && Gone(ss[|es|], t) && Inv(ss[|es|])
    ensures Ending(ss[k], c, t)
  {
    hide Apply; hide Enabled; hide Inv; hide Gone; hide Ending;
    assert es[0] in es && es[k] in es;
    FinishEnds(ss[0], c);
    HeadPath(ss, es, k);
    TailPath(ss[..k + 1], es[..k], 1);
    AfterFinish(ss, es, c, k);
    EndsWhereItRan(ss[..k + 1][1..], es[..k][1..], c, t);
    EndingSwitched(ss[k], c, t);
    EndingThread(ss[k], c, t);
    TailPath(ss, es, k + 1);
    GoneUntilCreated(ss[k + 1..], es[k + 1..], t);
  }

  lemma AfterFinish(ss: seq<Sys>, es: seq<Event>, c: nat, k: nat)
    requires Path(ss, es) && 0 < k < |es| && forall i :: 0 < i < k ==> es[i] != Schedule(c)
    ensures forall i :: 0 <= i < |es[..k][1..]| ==> es[..k][1..][i] != Schedule(c)
  {
  }

  lemma EndingThread(s: Sys, c: nat, t: nat)
    requires Ending(s, c, t)
    ensures 0 < t < MAX_THREADS
  {
  }

  // ---------------------------------------------------------------- in between

  /** The row of t is taken, and t has not called thread_finish. */
  predicate Living(s: Sys, t: nat) {
    t < |s.th| && s.th[t].state != Free && s.th[t].state != Dying
  }

  /** At this step t ends. */
  predicate Finishes(s: Sys, e: Event, t: nat) {
    e.Finish? && e.cpu < |s.current| && s.current[e.cpu] == t
  }

  lemma LivingStays(s: Sys, e: Event, t: nat)
    requires Inv(s) && Enabled(s, e) && 0 < t < MAX_THREADS && Living(s, t) && !Finishes(s, e, t)
    ensures Inv(Apply(s, e)) && Living(Apply(s, e), t)
  {
    hide Distinct; hide ReadyOk; hide ChainsOk; hide StatesOk; hide CpusOk; hide SwitchIn; hide SwitchOut;
    InvStep(s, e);
    if e.Schedule? {
      SwitchKeepsAlive(s, e.cpu, t);
    } else {
      OtherSpares(s, e, t);
    }
  }

  lemma SwitchKeepsAlive(s: Sys, cpu: nat, t: nat)
    requires Inv(s) && cpu < MAX_CPUS && 0 < t < MAX_THREADS && Living(s, t)
    ensures Living(SwitchIn(SwitchOut(s, cpu), cpu), t)
  {
    hide Distinct; hide ReadyOk; hide ChainsOk; hide StatesOk; hide CpusOk;
  }

  /** A created thread keeps its row, so that no creation is given it again, until it finishes. */
  lemma {:induction false} CreatedKeepsRow(ss: seq<Sys>, es: seq<Event>, t: nat)
    requires Path(ss, es) && Inv(ss[0]) && es != [] && es[0] == Create(t)
    requires forall i :: 0 <= i < |es| ==> !Finishes(ss[i], es[i], t)
    ensures Inv(ss[|es|]) && Living(ss[|es|], t) && !Enabled(ss[|es|], Create(t))
  {
    hide Apply; hide Enabled; hide Inv; hide Finishes;
    PathPrefix(ss, es);
    var n := |es| - 1;
    assert !Finishes(ss[n], es[n], t);
    if n == 0 {
      CreateLives(ss[0], t);
      assert es[0] in es;
    } else {
      CreatedKeepsRow(ss[..|es|], es[..n], t);
      CreatedIsThread(ss[0], t, es, ss);
      LivingStays(ss[n], es[n], t);
    }
    LivingTaken(ss[|es|], t);
  }

  lemma CreatedIsThread(s: Sys, t: nat, es: seq<Event>, ss: seq<Sys>)
    requires Path(ss, es) && es != [] && es[0] == Create(t)
    ensures 0 < t < MAX_THREADS
  {
    assert es[0] in es;
    assert Enabled(ss[0], es[0]);
  }

  lemma CreateLives(s: Sys, t: nat)
    requires Inv(s) && Enabled(s, Create(t))
    ensures Inv(Apply(s, Create(t))) && Living(Apply(s, Create(t)), t)
            && Apply(s, Create(t)).th[t] == Thread(NonReady, 0)
  {
    InvStep(s, Create(t));
  }

  lemma LivingTaken(s: Sys, t: nat)
    requires Living(s, t)
    ensures !Enabled(s, Create(t))
  {
  }

  /** Until it is run, a created thread is on no list and no CPU. */
  lemma {:induction false} CreatedWaitsForRun(ss: seq<Sys>, es: seq<Event>, t: nat)
    requires Path(ss, es) && Inv(ss[0]) && es != [] && es[0] == Create(t)
    requires forall i :: 0 <= i < |es| ==> es[i] != Run(t)
    ensures Inv(ss[|es|]) && |ss[|es|].th| == MAX_THREADS && t < MAX_THREADS && ss[|es|].th[t] == Thread(NonReady, 0)
    ensures var s := ss[|es|]; t !in s.ready && t !in s.current && forall h :: 0 <= h < |s.chains| ==> t !in s.chains[h]
  {
    hide Apply; hide Enabled; hide Inv;
    PathPrefix(ss, es);
    CreatedIsThread(ss[0], t, es, ss);
    var n := |es| - 1;
    if n == 0 {
      CreateLives(ss[0], t);
      assert es[0] in es;
    } else {
      CreatedWaitsForRun(ss[..|es|], es[..n], t);
      InvShape(ss[n]);
      WaitsStill(ss[n], es[n], t);
    }
    InvShape(ss[|es|]);
    NotRunYet(ss[|es|], t);
  }

  lemma WaitsStill(s: Sys, e: Event, t: nat)
    requires Inv(s) && Shape(s) && Enabled(s, e) && 0 < t < MAX_THREADS && s.th[t] == Thread(NonReady, 0) && e != Run(t)
    ensures Inv(Apply(s, e)) && Apply(s, e).th[t] == Thread(NonReady, 0)
  {
    hide Distinct; hide ReadyOk; hide ChainsOk; hide StatesOk; hide CpusOk; hide SwitchIn; hide SwitchOut;
    InvStep(s, e);
    NotRunYet(s, t);
    if e.Schedule? {
      SwitchSpares(s, e.cpu, t);
    } else {
      OtherSpares(s, e, t);
    }
  }

  lemma NotRunYet(s: Sys, t: nat)
    requires Inv(s) && 0 < t < MAX_THREADS && s.th[t].state == NonReady
    ensures t !in s.ready && t !in s.current && forall h :: 0 <= h < |s.chains| ==> t !in s.chains[h]
  {
  }

  /** Once run, it is chosen by the switch that comes after one for each thread that was ready before. */
  lemma RunIsChosen(ss: seq<Sys>, es: seq<Event>, t: nat, cpu: nat)
    requires Path(ss, es) && Inv(ss[0]) && |es| >= 2 && es[0] == Run(t)
    requires es[|es| - 1] == Schedule(cpu) && Schedules(es[1..]) == |ss[0].ready| + 1
    ensures cpu < MAX_CPUS && cpu < |ss[|es|].current| && ss[|es|].current[cpu] == t
  {
    hide Apply; hide Enabled; hide Inv;
    assert es[0] in es;
    RunQueues(ss[0], t);
    TailPath(ss, es, 1);
    RoundRobin(ss[1..], es[1..], |ss[0].ready|, cpu);
  }

  lemma RunQueues(s: Sys, t: nat)
    requires Inv(s) && Enabled(s, Run(t))
    ensures Inv(Apply(s, Run(t))) && Apply(s, Run(t)).ready == s.ready + [t]
  {
    InvStep(s, Run(t));
  }
}
