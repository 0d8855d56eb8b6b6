/**
 Wakeups over whole runs, with steps of other CPUs between the two halves of a wake and between
 one wake and the next: none is lost, and the woken enter the ready list in the order they waited.
*/
module ThreadWakeups {
  import opened Words
  import opened ThreadSystem
  import opened ThreadTheorems

  // ---------------------------------------------------------------- the ready list as a queue

  /** Thread t joins the ready list, woken for res; 0 if it was not woken. */
  datatype Entry = Entry(t: nat, res: Word)

  /** Who joins the ready list at a step. */
  function Joins(s: Sys, e: Event): seq<Entry>
    requires Enabled(s, e)
  {
    match e
    case Schedule(cpu) =>
      var t := s.current[cpu];
      if t != IDLE_THREAD_TID && s.th[t].state != Dying && s.th[t].sleepsOn == 0 then [Entry(t, 0)] else []
    case Rouse => if s.th[s.rousing].state == Sleeping then [Entry(s.rousing, s.th[s.rousing].sleepsOn)] else []
    case Run(t) => [Entry(t, 0)]
    case _ => []
  }

  function Threads(q: seq<Entry>): (r: seq<nat>)
    ensures |r| == |q| && forall i :: 0 <= i < |q| ==> r[i] == q[i].t
  {
    seq(|q|, i requires 0 <= i < |q| => q[i].t)
  }

  /** How many leave it: a switch takes the first, if there is one. */
  function Leaves(s: Sys, e: Event): nat
    requires Enabled(s, e)
  {
    if e.Schedule? && s.ready + Threads(Joins(s, e)) != [] then 1 else 0
  }

  lemma ReadyQueueStep(s: Sys, e: Event)
    requires Enabled(s, e)
    ensures Leaves(s, e) <= |s.ready + Threads(Joins(s, e))|
    ensures Apply(s, e).ready == (s.ready + Threads(Joins(s, e)))[Leaves(s, e)..]
  {
  }

  /** All who joined over a run, in order. */
  ghost function Joined(ss: seq<Sys>, es: seq<Event>): seq<Entry>
    requires Path(ss, es)
    decreases |es|
  {
    if es == [] then []
    else
      hide Apply; hide Enabled;
      PathPrefix(ss, es);
      Joined(ss[..|es|], es[..|es| - 1]) + Joins(ss[|es| - 1], es[|es| - 1])
  }

  ghost function Left(ss: seq<Sys>, es: seq<Event>): nat
    requires Path(ss, es)
    decreases |es|
  {
    if es == [] then 0
    else
      hide Apply; hide Enabled;
      PathPrefix(ss, es);
      Left(ss[..|es|], es[..|es| - 1]) + Leaves(ss[|es| - 1], es[|es| - 1])
  }

  /** The ready list is what was there and who joined, in that order, without those the switches took from the front. */
  lemma {:induction false} ReadyIsQueue(ss: seq<Sys>, es: seq<Event>)
    requires Path(ss, es)
    ensures Left(ss, es) <= |ss[0].ready + Threads(Joined(ss, es))|
    ensures ss[|es|].ready == (ss[0].ready + Threads(Joined(ss, es)))[Left(ss, es)..]
  {
    hide Apply; hide Enabled; hide Joins; hide Leaves;
    if es != [] {
      PathPrefix(ss, es);
      var q, r := ss[..|es|], es[..|es| - 1];
      var s, e := ss[|es| - 1], es[|es| - 1];
      ReadyIsQueue(q, r);
      ReadyQueueStep(s, e);
      assert Threads(Joined(ss, es)) == Threads(Joined(q, r)) + Threads(Joins(s, e));
      DropTwice(ss[0].ready + Threads(Joined(q, r)), Threads(Joins(s, e)), Left(q, r), Leaves(s, e));
      assert ss[0].ready + Threads(Joined(ss, es)) == ss[0].ready + Threads(Joined(q, r)) + Threads(Joins(s, e));
    }
  }

  lemma DropTwice(a: seq<nat>, b: seq<nat>, k: nat, n: nat)
    requires k <= |a| && n <= |a[k..] + b|
    ensures k + n <= |a + b| && (a[k..] + b)[n..] == (a + b)[k + n..]
  {
  }

  // ---------------------------------------------------------------- waking all, in order

  /** Those that joined because they were woken for res. */
  function WokenFor(q: seq<Entry>, res: Word): seq<nat> {
    if q == [] then []
    else WokenFor(q[..|q| - 1], res) + if q[|q| - 1].res == res then [q[|q| - 1].t] else []
  }

  lemma WokenForOne(q: seq<Entry>, j: seq<Entry>, res: Word)
    requires |j| <= 1
    ensures WokenFor(q + j, res) == WokenFor(q, res) + if j != [] && j[0].res == res then [j[0].t] else []
  {
    if j == [] {
      assert q + j == q;
    } else {
      assert (q + j)[..|q + j| - 1] == q;
    }
  }

  /** The elements of l that are in a, in order. */
  ghost function Keep(l: seq<nat>, a: set<nat>): seq<nat> {
    if l == [] then [] else Keep(l[..|l| - 1], a) + if l[|l| - 1] in a then [l[|l| - 1]] else []
  }

  lemma {:induction false} KeepSame(l: seq<nat>, a: set<nat>, x: nat)
    requires x !in l
    ensures Keep(l, a + {x}) == Keep(l, a)
  {
    if l != [] {
      KeepSame(l[..|l| - 1], a, x);
    }
  }

  /** A waker has taken a waiter of res and not yet made it ready. */
  predicate Pending(s: Sys, res: Word) {
    0 <= s.rousing < |s.th| && s.th[s.rousing].sleepsOn == res
  }

  /** Of the waiters w, those through with being woken once n are taken. */
  function Done(s: Sys, w: seq<nat>, n: nat, res: Word): seq<nat>
    requires n <= |w|
  {
    if Pending(s, res) && n > 0 then w[..n - 1] else w[..n]
  }

  /**
   n of the waiters w are taken; of those that are through, a joined the ready list, all that slept at the
   start among them.
  */
  ghost predicate SweptTo(s0: Sys, s: Sys, w: seq<nat>, n: nat, q: seq<nat>, a: set<nat>, res: Word) {
    && Shape(s) && Shape(s0) && n <= |w| && Waiting(s, res) == w[n..]
       && (forall i :: 0 <= i < |w| ==> w[i] < MAX_THREADS)
    && (Pending(s, res) ==> n > 0 && s.rousing == w[n - 1])
    && var d := Done(s, w, n, res);
       && q == Keep(d, a) && (forall t :: t in a ==> t in d)
       && (forall i :: 0 <= i < |d| && s0.th[w[i]].state == Sleeping ==> w[i] in a)
       && (forall i :: |d| <= i < |w| && s0.th[w[i]].state == Sleeping ==> s.th[w[i]] == Thread(Sleeping, res))
  }

  /** A sleeper stays one until it is roused, and so does the waiter a waker holds. */
  lemma SleeperStays(s: Sys, e: Event, t: nat)
    requires Inv(s) && Enabled(s, e) && t < MAX_THREADS && Inv(Apply(s, e)) && !(e.Rouse? && t == s.rousing)
    ensures s.th[t].state == Sleeping ==> Apply(s, e).th[t] == s.th[t]
    ensures t == s.rousing ==> Apply(s, e).rousing == t && Apply(s, e).th[t].sleepsOn == s.th[t].sleepsOn
  {
    hide Distinct; hide ChainsOk; hide SwitchIn; hide SwitchOut; hide ReadyOk;
    if e.Schedule? {
      SwitchKeepsSleeper(s, e.cpu, t);
    }
  }

  lemma SwitchKeepsSleeper(s: Sys, cpu: nat, t: nat)
    requires Inv(s) && cpu < MAX_CPUS && t < MAX_THREADS
    ensures var s' := SwitchIn(SwitchOut(s, cpu), cpu);
            && (s.th[t].state == Sleeping ==> s'.th[t] == s.th[t])
            && s'.rousing == s.rousing && s'.th[t].sleepsOn == s.th[t].sleepsOn
  {
    hide Distinct; hide ChainsOk;
    assert s.ready != [] ==> s.ready[0] in s.ready;
  }

  /** A step other than one of the sleep queue for res. */
  lemma SweptOther(s0: Sys, s: Sys, e: Event, w: seq<nat>, n: nat, q: seq<nat>, a: set<nat>, res: Word)
    requires Inv(s) && Enabled(s, e) && Inv(Apply(s, e)) && res != 0 && SweptTo(s0, s, w, n, q, a, res)
    requires e != Unlink(res) && !(e.Rouse? && Pending(s, res)) && Waiting(Apply(s, e), res) == Waiting(s, res)
    ensures SweptTo(s0, Apply(s, e), w, n, q, a, res)
  {
    hide Waiting; hide Keep; hide Apply; hide Enabled; hide ReadyOk; hide ChainsOk; hide StatesOk; hide CpusOk;
    PendingSame(s, e, res);
    forall i | |Done(s, w, n, res)| <= i < |w| && s0.th[w[i]].state == Sleeping
      ensures Apply(s, e).th[w[i]] == Thread(Sleeping, res)
    {
      SleeperStays(s, e, w[i]);
    }
  }

  lemma PendingSame(s: Sys, e: Event, res: Word)
    requires Inv(s) && Enabled(s, e) && Inv(Apply(s, e)) && res != 0
    requires e != Unlink(res) && !(e.Rouse? && Pending(s, res))
    ensures Pending(Apply(s, e), res) <==> Pending(s, res)
    ensures Pending(s, res) ==> Apply(s, e).rousing == s.rousing
  {
    hide ReadyOk; hide ChainsOk; hide SwitchIn; hide SwitchOut;
    if e.Schedule? {
      SwitchKeepsSleeper(s, e.cpu, if s.rousing >= 0 then s.rousing else 0);
    }
  }

  /** The next waiter is taken. */
  lemma SweptUnlink(s0: Sys, s: Sys, w: seq<nat>, n: nat, q: seq<nat>, a: set<nat>, res: Word)
    requires Inv(s) && Enabled(s, Unlink(res)) && Inv(Apply(s, Unlink(res))) && SweptTo(s0, s, w, n, q, a, res)
    ensures SweptTo(s0, Apply(s, Unlink(res)), w, if n < |w| then n + 1 else n, q, a, res)
  {
    hide Waiting; hide Keep; hide Inv;
    UnlinkDequeues(s, res, res);
    if n < |w| {
      assert w[n..][0] == w[n] && w[n..][1..] == w[n + 1..];
      FirstWaits(s, res);
    }
  }

  lemma FirstWaits(s: Sys, res: Word)
    requires Inv(s) && Waiting(s, res) != [] && res != 0
    ensures Waiting(s, res)[0] < MAX_THREADS && s.th[Waiting(s, res)[0]].sleepsOn == res
  {
    hide ReadyOk; hide ChainsOk; hide StatesOk; hide CpusOk;
    InMatching(s.th, s.chains[Hash(res)], Waiting(s, res)[0], res);
  }

  lemma KeepNext(d: seq<nat>, t: nat, a: set<nat>)
    requires t !in d
    ensures Keep(d + [t], a + {t}) == Keep(d, a) + [t]
    ensures t !in a ==> Keep(d + [t], a) == Keep(d, a)
  {
    assert (d + [t])[..|d + [t]| - 1] == d;
    KeepSame(d, a, t);
  }

  lemma RouseEnds(s: Sys)
    requires Inv(s) && Enabled(s, Rouse)
    ensures Apply(s, Rouse).rousing < 0
  {
  }

  /** The waiter that was taken is made ready, if it slept. */
  lemma SweptRouse(s0: Sys, s: Sys, w: seq<nat>, n: nat, q: seq<nat>, a: set<nat>, res: Word) returns (a': set<nat>)
    requires Inv(s) && Enabled(s, Rouse) && Inv(Apply(s, Rouse)) && SweptTo(s0, s, w, n, q, a, res) && Pending(s, res)
             && Distinct(w) && res != 0
    ensures SweptTo(s0, Apply(s, Rouse), w, n, q + if s.th[s.rousing].state == Sleeping then [s.rousing]
              else [], a', res)
  {
    hide Waiting; hide ReadyOk; hide ChainsOk; hide StatesOk; hide CpusOk; hide Keep; hide Apply; hide Enabled;
    OthersKeepQueues(s, Rouse, res);
    RouseEnds(s);
    var t, d := s.rousing, w[..n - 1];
    assert w[..n] == d + [t] && t !in d;
    a' := if s.th[t].state == Sleeping then a + {t} else a;
    KeepNext(d, t, a);
    forall i | n <= i < |w| && s0.th[w[i]].state == Sleeping
      ensures Apply(s, Rouse).th[w[i]] == Thread(Sleeping, res)
    {
      SleeperStays(s, Rouse, w[i]);
    }
  }

  /**
   While nobody goes to sleep on res, the threads woken for it join the ready list in the order
   they waited: they are those of a, and every one that slept at the start is among them. Steps of
   any CPU may come in between.
  */
  lemma {:induction false} SweptInOrder(ss: seq<Sys>, es: seq<Event>, res: Word) returns (n: nat, a: set<nat>)
    requires Path(ss, es) && Inv(ss[0]) && res != 0 && ss[0].rousing < 0
    requires forall i {:trigger es[i]} :: 0 <= i < |es| ==> !(es[i].SleepAdd? && es[i].res == res)
    ensures Inv(ss[0]) && n == if Unlinks(es, res) < |Waiting(ss[0], res)| then Unlinks(es, res)
              else |Waiting(ss[0], res)|
    ensures SweptTo(ss[0], ss[|es|], Waiting(ss[0], res), n, WokenFor(Joined(ss, es), res), a, res)
    ensures Inv(ss[|es|])
  {
    hide Apply; hide Enabled; hide Inv; hide Waiting; hide SweptTo; hide Joins; hide WokenFor;
    InvShape(ss[0]);
    if es == [] {
      n, a := 0, {};
      SweptStart(ss[0], res);
    } else {
      var k := |es| - 1;
      PathPrefix(ss, es);
      n, a := SweptInOrder(ss[..|es|], es[..k], res);
      InvStep(ss[k], es[k]);
      JoinsOne(ss[k], es[k], res);
      assert Joined(ss, es) == Joined(ss[..|es|], es[..k]) + Joins(ss[k], es[k]);
      WokenForOne(Joined(ss[..|es|], es[..k]), Joins(ss[k], es[k]), res);
      n, a := SweptStep(ss[0], ss[k], es[k], Waiting(ss[0], res), n, WokenFor(Joined(ss[..|es|], es[..k]), res), a,
                        res);
    }
  }

  /**
   A sweep that is through, whatever came in between: nobody of the first waiters waits any more,
   and the ready list is the old one followed by all who joined, less those the switches took from
   its front; among those who joined, the waiters that were woken asleep come in the order they waited.
  */
  lemma SweepOverRun(ss: seq<Sys>, es: seq<Event>, res: Word) returns (a: set<nat>)
    requires Path(ss, es) && Inv(ss[0]) && res != 0 && ss[0].rousing < 0 && ss[|es|].rousing < 0
    requires forall i {:trigger es[i]} :: 0 <= i < |es| ==> !(es[i].SleepAdd? && es[i].res == res)
    requires Shape(ss[0]) && Unlinks(es, res) >= |Waiting(ss[0], res)|
    ensures Inv(ss[|es|]) && Waiting(ss[|es|], res) == []
    ensures Left(ss, es) <= |ss[0].ready + Threads(Joined(ss, es))|
    ensures ss[|es|].ready == (ss[0].ready + Threads(Joined(ss, es)))[Left(ss, es)..]
    ensures WokenFor(Joined(ss, es), res) == Keep(Waiting(ss[0], res), a)
    ensures forall t :: t in Waiting(ss[0], res) && t < MAX_THREADS && ss[0].th[t].state == Sleeping ==> t in a
  {
    hide Apply; hide Enabled; hide Inv; hide Waiting; hide Keep; hide WokenFor; hide Joined; hide Left;
    var n;
    n, a := SweptInOrder(ss, es, res);
    ReadyIsQueue(ss, es);
    var w := Waiting(ss[0], res);
    assert w[..n] == w && w[n..] == [];
    forall t | t in w && t < MAX_THREADS && ss[0].th[t].state == Sleeping
      ensures t in a
    {
      var i :| 0 <= i < |w| && w[i] == t;
    }
  }

  lemma SweptStart(s: Sys, res: Word)
    requires Inv(s) && s.rousing < 0 && res != 0
    ensures SweptTo(s, s, Waiting(s, res), 0, WokenFor([], res), {}, res)
  {
    hide ReadyOk; hide ChainsOk; hide StatesOk; hide CpusOk;
    var w := Waiting(s, res);
    forall i | 0 <= i < |w|
      ensures w[i] < MAX_THREADS && s.th[w[i]].sleepsOn == res
    {
      InMatching(s.th, s.chains[Hash(res)], w[i], res);
    }
  }

  lemma JoinsOne(s: Sys, e: Event, res: Word)
    requires Enabled(s, e) && res != 0
    ensures |Joins(s, e)| <= 1
    ensures (if Joins(s, e) != [] && Joins(s, e)[0].res == res then [Joins(s, e)[0].t] else []) ==
            if e.Rouse? && Pending(s, res) && s.th[s.rousing].state == Sleeping then [s.rousing] else []
  {
  }

  lemma SweptStep(s0: Sys, s: Sys, e: Event, w: seq<nat>, n: nat, q: seq<nat>, a: set<nat>, res: Word)
    returns (n': nat, a': set<nat>)
    requires Inv(s0) && res != 0 && w == Waiting(s0, res)
    requires Inv(s) && Enabled(s, e) && Inv(Apply(s, e)) && SweptTo(s0, s, w, n, q, a, res)
             && !(e.SleepAdd? && e.res == res)
    ensures n' == if e == Unlink(res) && n < |w| then n + 1 else n
    ensures SweptTo(s0, Apply(s, e), w, n', q + if e.Rouse? && Pending(s, res)
              && s.th[s.rousing].state == Sleeping then [s.rousing] else [], a', res)
  {
    hide Apply; hide Enabled; hide Inv; hide Waiting; hide SweptTo;
    n', a' := n, a;
    assert q + [] == q;
    if e == Unlink(res) {
      SweptUnlink(s0, s, w, n, q, a, res);
      n' := if n < |w| then n + 1 else n;
    } else if e.Rouse? && Pending(s, res) {
      WaitingDistinct(s0, res);
      a' := SweptRouse(s0, s, w, n, q, a, res);
    } else {
      WakeStep(s, e, res);
      SweptOther(s0, s, e, w, n, q, a, res);
    }
  }

  // ---------------------------------------------------------------- no lost wakeup

  lemma PathPart(ss: seq<Sys>, es: seq<Event>, i: nat, j: nat)
    requires Path(ss, es) && i <= j <= |es|
    ensures Path(ss[i..j + 1], es[i..j])
  {
    hide Apply; hide Enabled;
    var q, r := ss[i..j + 1], es[i..j];
    forall k | 0 <= k < |r|
      ensures Enabled(q[k], r[k]) && q[k + 1] == Apply(q[k], r[k])
    {
      assert r[k] == es[i + k];
    }
  }

  /** From being taken until being roused a waiter stays with its waker. */
  lemma {:induction false} HeldUntilRouse(ss: seq<Sys>, es: seq<Event>, t: nat)
    requires Path(ss, es) && Inv(ss[0]) && t < MAX_THREADS && ss[0].rousing == t
    requires forall i {:trigger es[i]} :: 0 <= i < |es| ==> !es[i].Rouse?
    ensures Inv(ss[|es|]) && ss[|es|].rousing == t
  {
    hide Apply; hide Enabled; hide Inv;
    if es != [] {
      PathPrefix(ss, es);
      HeldUntilRouse(ss[..|es|], es[..|es| - 1], t);
      InvStep(ss[|es| - 1], es[|es| - 1]);
      SleeperStays(ss[|es| - 1], es[|es| - 1], t);
    }
  }

  /**
   A waiter that is woken runs again. From the moment it is taken off its queue, with any steps in
   between: when it is roused it either sleeps, and joins the ready list at its end, or still runs
   on a CPU, and after that CPU's next switch it is on the ready list or runs on, unless it has
   itself gone to sleep again or ended.
  */
  lemma NoWakeupIsLost(ss: seq<Sys>, es: seq<Event>, res: Word, m: nat) returns (c: nat)
    requires Path(ss, es) && Inv(ss[0]) && res != 0 && 1 <= m < |es|
    requires es[0] == Unlink(res) && Waiting(ss[0], res) != [] && es[m] == Rouse && forall i :: 1 <= i < m ==>
               !es[i].Rouse?
    ensures Inv(ss[0]) && Shape(ss[m]) && ss[m].rousing == Waiting(ss[0], res)[0] < MAX_THREADS
    ensures var t := Waiting(ss[0], res)[0];
            && (ss[m].th[t].state == Sleeping ==> t !in ss[m].ready && ss[m + 1].ready == ss[m].ready + [t])
            && (ss[m].th[t].state != Sleeping ==> ss[m].th[t].state == Running && c < MAX_CPUS && ss[m].current[c] == t)
            && (ss[m].th[t].state != Sleeping ==>
                  forall n :: m < n < |es| && NextSwitch(es, m, n, c) ==> BackOn(ss[n + 1], t, c))
  {
    hide Apply; hide Enabled; hide Inv; hide Waiting; hide NotOn; hide BackOn;
    InvShape(ss[0]);
    var t := Waiting(ss[0], res)[0];
    assert es[0] == Unlink(res) && es[m] == Rouse;
    InvStep(ss[0], es[0]);
    UnlinkDequeues(ss[0], res, res);
    FirstWaits(ss[0], res);
    PathPart(ss, es, 1, m);
    forall i | 0 <= i < |es[1..m]|
      ensures !es[1..m][i].Rouse?
    {
      assert es[1..m][i] == es[i + 1];
    }
    HeldUntilRouse(ss[1..m + 1], es[1..m], t);
    InvShape(ss[m]);
    c := 0;
    if ss[m].th[t].state == Sleeping {
      WokenSleeper(ss[m]);
    } else {
      c := RousedRuns(ss[m]);
      forall n | m < n < |es| && NextSwitch(es, m, n, c)
        ensures BackOn(ss[n + 1], t, c)
      {
        PathPart(ss, es, m, n + 1);
        SwitchAfterRouse(ss[m..n + 2], es[m..n + 1], c);
      }
    }
  }

  /** Step n is a switch of CPU c, whose thread does nothing between step m and then. */
  ghost predicate NextSwitch(es: seq<Event>, m: nat, n: nat, c: nat)
    requires n < |es|
  {
    es[n] == Schedule(c) && forall i :: m < i < n ==> NotOn(es[i], c)
  }

  /** Ready, or running on CPU c. */
  predicate BackOn(s: Sys, t: nat, c: nat) {
    t in s.ready || (c < |s.current| && s.current[c] == t)
  }

  lemma SwitchAfterRouse(ss: seq<Sys>, es: seq<Event>, c: nat)
    requires Path(ss, es) && Inv(ss[0]) && c < MAX_CPUS && |es| >= 2
    requires es[0] == Rouse && ss[0].current[c] == ss[0].rousing && ss[0].th[ss[0].rousing].state == Running
    requires forall i :: 1 <= i < |es| - 1 ==> NotOn(es[i], c)
    requires es[|es| - 1] == Schedule(c)
    ensures BackOn(ss[|es|], ss[0].rousing, c)
  {
    hide Apply; hide Enabled; hide Inv; hide NotOn;
    WokenBeforeSwitch(ss, es, c);
    InvShape(ss[|es|]);
  }

  /** A waiter that is being woken and does not sleep runs on some CPU. */
  lemma RousedRuns(s: Sys) returns (c: nat)
    requires Inv(s) && s.rousing >= 0 && s.th[s.rousing].state != Sleeping
    ensures c < MAX_CPUS && s.current[c] == s.rousing && s.th[s.rousing].state == Running
  {
    hide ReadyOk; hide ChainsOk;
    assert s.rousing in s.current;
    c :| 0 <= c < MAX_CPUS && s.current[c] == s.rousing;
  }
}
