/** What holds of every run of the thread system: the sleep queue as queues, wakeups, turns. */
module ThreadTheorems {
  import opened Words
  import opened ThreadSystem

  /** A run: each state follows from the one before by an event that may happen there. */
  ghost predicate Path(ss: seq<Sys>, es: seq<Event>) {
    && |ss| == |es| + 1
    && forall i {:trigger es[i]} :: 0 <= i < |es| ==> Enabled(ss[i], es[i]) && ss[i + 1] == Apply(ss[i], es[i])
  }

  lemma PathPrefix(ss: seq<Sys>, es: seq<Event>)
    requires Path(ss, es) && es != []
    ensures Path(ss[..|es|], es[..|es| - 1])
    ensures Enabled(ss[|es| - 1], es[|es| - 1]) && ss[|es|] == Apply(ss[|es| - 1], es[|es| - 1])
  {
    hide Apply; hide Enabled;
    assert es[|es| - 1] in es;
    forall i | 0 <= i < |es| - 1
      ensures Enabled(ss[i], es[i]) && ss[i + 1] == Apply(ss[i], es[i])
    {
      assert es[i] in es;
    }
  }

  /** The invariant holds in every reachable state. */
  lemma {:induction false} InvAlways(ss: seq<Sys>, es: seq<Event>)
    requires Path(ss, es) && Inv(ss[0])
    ensures Inv(ss[|es|])
  {
    hide Apply; hide Enabled; hide Inv;
    if es != [] {
      PathPrefix(ss, es);
      InvAlways(ss[..|es|], es[..|es| - 1]);
      InvStep(ss[|es| - 1], es[|es| - 1]);
    }
  }

  lemma Reachable(ss: seq<Sys>, es: seq<Event>)
    requires Path(ss, es) && ss[0] == Start()
    ensures Inv(ss[|es|])
  {
    hide Apply; hide Enabled; hide Inv;
    InvStart();
    InvAlways(ss, es);
  }

  // ---------------------------------------------------------------- sharing the link field

  /** The ready list and the chains share no thread, and no chain shares one with another. */
  lemma ListsAreDisjoint(s: Sys, t: nat, h: nat, g: nat)
    requires Inv(s) && h < SLEEPQ_HASHTABLE_SIZE && g < SLEEPQ_HASHTABLE_SIZE
    ensures !(t in s.ready && t in s.chains[h])
    ensures t in s.chains[h] && t in s.chains[g] ==> h == g
  {
  }

  // ---------------------------------------------------------------- the sleep queue as queues

  /** The threads of l that wait for res, in order. */
  function Matching(th: seq<Thread>, l: seq<nat>, res: Word): (r: seq<nat>)
    ensures |r| <= |l|
  {
    if l == [] then []
    else (if Waits(th, l[0], res) then [l[0]] else []) + Matching(th, l[1..], res)
  }

  /** The queue of threads waiting for res: what the hashed chains stand for. */
  function Waiting(s: Sys, res: Word): seq<nat>
    requires Shape(s)
  {
    Matching(s.th, s.chains[Hash(res)], res)
  }

  lemma {:induction false} MatchingAppend(th: seq<Thread>, l: seq<nat>, t: nat, res: Word)
    ensures Matching(th, l + [t], res) == Matching(th, l, res) + if Waits(th, t, res) then [t] else []
  {
    if l == [] {
      assert [] + [t] == [t] && [t][1..] == [];
    } else {
      MatchingAppend(th, l[1..], t, res);
      assert (l + [t])[1..] == l[1..] + [t];
    }
  }

  lemma {:induction false} MatchingSame(th: seq<Thread>, th': seq<Thread>, l: seq<nat>, res: Word)
    requires forall i :: 0 <= i < |l| ==> (Waits(th, l[i], res) <==> Waits(th', l[i], res))
    ensures Matching(th, l, res) == Matching(th', l, res)
  {
    if l != [] {
      assert Waits(th, l[0], res) <==> Waits(th', l[0], res);
      forall i | 0 <= i < |l[1..]|
        ensures Waits(th, l[1..][i], res) <==> Waits(th', l[1..][i], res)
      {
        assert l[1..][i] == l[i + 1];
      }
      MatchingSame(th, th', l[1..], res);
    }
  }

  lemma MatchingCons(th: seq<Thread>, x: nat, l: seq<nat>, res: Word)
    ensures Matching(th, [x] + l, res) == (if Waits(th, x, res) then [x] else []) + Matching(th, l, res)
  {
    assert ([x] + l)[1..] == l;
  }

  lemma WithoutCons(l: seq<nat>, i: nat)
    requires i < |l|
    ensures Without(l, i) == if i == 0 then l[1..] else [l[0]] + Without(l[1..], i - 1)
  {
  }

  lemma MatchingHead(th: seq<Thread>, l: seq<nat>, res: Word)
    requires l != []
    ensures Matching(th, l, res) == (if Waits(th, l[0], res) then [l[0]] else []) + Matching(th, l[1..], res)
  {
  }

  lemma {:induction false} MatchingWithoutAt(th: seq<Thread>, l: seq<nat>, i: nat, res: Word)
    requires i < |l| && Waits(th, l[i], res) && forall j :: 0 <= j < i ==> !Waits(th, l[j], res)
    ensures Matching(th, l, res) == [l[i]] + Matching(th, Without(l, i), res)
  {
    hide Without; hide Waits; hide Matching;
    WithoutCons(l, i);
    MatchingHead(th, l, res);
    if i > 0 {
      assert !Waits(th, l[0], res);
      var t := l[1..];
      forall j | 0 <= j < i - 1
        ensures !Waits(th, t[j], res)
      {
        assert t[j] == l[j + 1];
      }
      MatchingWithoutAt(th, t, i - 1, res);
      MatchingCons(th, l[0], Without(t, i - 1), res);
    }
  }

  /** Taking out the first match takes the first of the queue. */
  lemma MatchingWithoutFirst(th: seq<Thread>, l: seq<nat>, res: Word)
    requires FirstMatch(th, l, res) < |l|
    ensures Matching(th, l, res) == [l[FirstMatch(th, l, res)]] + Matching(th, Without(l, FirstMatch(th, l, res)), res)
  {
    hide Without; hide Waits; hide Matching;
    MatchingWithoutAt(th, l, FirstMatch(th, l, res), res);
  }

  /** Taking out a thread that waits for something else changes nothing. */
  lemma {:induction false} MatchingWithoutOther(th: seq<Thread>, l: seq<nat>, i: nat, res: Word)
    requires i < |l| && !Waits(th, l[i], res)
    ensures Matching(th, Without(l, i), res) == Matching(th, l, res)
  {
    hide Without; hide Waits;
    WithoutCons(l, i);
    if i > 0 {
      MatchingWithoutOther(th, l[1..], i - 1, res);
      MatchingCons(th, l[0], Without(l[1..], i - 1), res);
    }
  }

  lemma {:induction false} NoMatch(th: seq<Thread>, l: seq<nat>, res: Word)
    ensures Matching(th, l, res) == [] <==> FirstMatch(th, l, res) == |l|
  {
    if l != [] {
      NoMatch(th, l[1..], res);
    }
  }

  /** sleepq_add appends the caller to the queue of its resource and leaves all other queues. */
  lemma AddEnqueues(s: Sys, cpu: nat, res: Word, r: Word)
    requires Inv(s) && Enabled(s, SleepAdd(cpu, res)) && r != 0 && Inv(Apply(s, SleepAdd(cpu, res)))
    ensures Waiting(Apply(s, SleepAdd(cpu, res)), r) == Waiting(s, r) + if r == res then [s.current[cpu]] else []
  {
    hide ReadyOk; hide CpusOk;
    var s' := Apply(s, SleepAdd(cpu, res));
    var l := s.chains[Hash(r)];
    var t := s.current[cpu];
    assert t !in l;
    MatchingSame(s.th, s'.th, l, r);
    if Hash(r) == Hash(res) {
      MatchingAppend(s'.th, l, t, r);
    }
  }

  /** sleepq_wake takes the first of the queue of its resource, if any, and leaves all other queues. */
  lemma UnlinkDequeues(s: Sys, res: Word, r: Word)
    requires Inv(s) && Enabled(s, Unlink(res)) && r != 0 && Inv(Apply(s, Unlink(res)))
    ensures var s' := Apply(s, Unlink(res));
            && (Waiting(s, res) == [] ==> s' == s)
            && (Waiting(s, res) != [] ==> s'.rousing == Waiting(s, res)[0] && Waiting(s', res) == Waiting(s, res)[1..])
            && (r != res ==> Waiting(s', r) == Waiting(s, r))
  {
    hide ReadyOk; hide CpusOk; hide ChainsOk; hide StatesOk;
    var l := s.chains[Hash(res)];
    NoMatch(s.th, l, res);
    if FirstMatch(s.th, l, res) < |l| {
      MatchingWithoutFirst(s.th, l, res);
      if r != res && Hash(r) == Hash(res) {
        MatchingWithoutOther(s.th, l, FirstMatch(s.th, l, res), r);
      }
    }
  }

  /** No other step changes any queue. */
  lemma OthersKeepQueues(s: Sys, e: Event, r: Word)
    requires Inv(s) && Enabled(s, e) && !e.SleepAdd? && !e.Unlink? && r != 0 && Inv(Apply(s, e))
    ensures Waiting(Apply(s, e), r) == Waiting(s, r)
  {
    hide ReadyOk; hide CpusOk; hide Matching;
    var s' := Apply(s, e);
    var l := s.chains[Hash(r)];
    forall i | 0 <= i < |l|
      ensures Waits(s.th, l[i], r) <==> Waits(s'.th, l[i], r)
    {
      assert l[i] in l;
    }
    MatchingSame(s.th, s'.th, l, r);
  }

  // ---------------------------------------------------------------- no lost and no doubled wakeup

  /** A thread put to sleep is in the queue of its resource, or a waker is about to make it ready. */
  lemma SleeperIsFound(s: Sys, t: nat)
    requires Inv(s) && t < MAX_THREADS && s.th[t].state == Sleeping
    ensures s.th[t].sleepsOn != 0 && (t == s.rousing || t in Waiting(s, s.th[t].sleepsOn))
  {
    var r := s.th[t].sleepsOn;
    if t != s.rousing {
      assert t in s.chains[Hash(r)];
      InMatching(s.th, s.chains[Hash(r)], t, r);
    }
  }

  lemma {:induction false} InMatching(th: seq<Thread>, l: seq<nat>, t: nat, res: Word)
    ensures t in Matching(th, l, res) <==> t in l && Waits(th, t, res)
  {
    if l != [] {
      InMatching(th, l[1..], t, res);
      assert t in l <==> t == l[0] || t in l[1..];
    }
  }

  /** A thread that sleeps when it is woken is queued to run, at the end and once. */
  lemma WokenSleeper(s: Sys)
    requires Inv(s) && Enabled(s, Rouse) && s.th[s.rousing].state == Sleeping
    ensures s.rousing !in s.ready && Apply(s, Rouse).ready == s.ready + [s.rousing]
    ensures Inv(Apply(s, Rouse))
  {
    InvRouse(s);
  }

  /** CPU c's thread neither changes nor acts. */
  predicate NotOn(e: Event, c: nat) {
    e != Schedule(c) && e != Finish(c) && !(e.SleepAdd? && e.cpu == c)
  }

  lemma AwakeStays(s: Sys, e: Event, c: nat)
    requires Inv(s) && Enabled(s, e) && c < MAX_CPUS && Awake(s, c) && NotOn(e, c)
    ensures Inv(Apply(s, e)) && Apply(s, e).current[c] == s.current[c] && Awake(Apply(s, e), c)
  {
    InvStep(s, e);
  }

  /** A thread woken before it was switched out keeps running until its CPU switches, whatever else happens. */
  lemma {:induction false} AwakeUntilSwitch(ss: seq<Sys>, es: seq<Event>, c: nat)
    requires Path(ss, es) && Inv(ss[0]) && c < MAX_CPUS && Awake(ss[0], c)
    requires forall i :: 0 <= i < |es| ==> NotOn(es[i], c)
    ensures Inv(ss[|es|]) && ss[|es|].current[c] == ss[0].current[c] && Awake(ss[|es|], c)
  {
    hide Apply; hide Enabled; hide Inv; hide NotOn;
    if es != [] {
      PathPrefix(ss, es);
      AwakeUntilSwitch(ss[..|es|], es[..|es| - 1], c);
      AwakeStays(ss[|es| - 1], es[|es| - 1], c);
    }
  }

  /** ... and is then queued to run exactly once, or runs on. */
  lemma SwitchedOutAwake(s: Sys, c: nat)
    requires Inv(s) && c < MAX_CPUS && Awake(s, c)
    ensures var s' := Apply(s, Schedule(c));
            && Inv(s')
            && (if s.ready == [] then s'.current[c] == s.current[c] && s'.ready == []
                else s'.ready == s.ready[1..] + [s.current[c]] && s'.current[c] == s.ready[0])
  {
    InvStep(s, Schedule(c));
  }

  /**
   The whole story of a wakeup that comes before the sleeper's CPU switches: es is the waker's
   last step, then anything but steps of that CPU's thread, then the switch.
  */
  lemma WokenBeforeSwitch(ss: seq<Sys>, es: seq<Event>, c: nat)
    requires Path(ss, es) && Inv(ss[0]) && c < MAX_CPUS && |es| >= 2
    requires es[0] == Rouse && ss[0].current[c] == ss[0].rousing && ss[0].th[ss[0].rousing].state == Running
    requires forall i :: 1 <= i < |es| - 1 ==> NotOn(es[i], c)
    requires es[|es| - 1] == Schedule(c)
    ensures Inv(ss[|es|])
    ensures ss[0].current[c] in ss[|es|].ready || ss[|es|].current[c] == ss[0].current[c]
  {
    hide Inv; hide NotOn;
    var n := |es| - 1;
    assert es[0] == Rouse && es[n] == Schedule(c);
    InvStep(ss[0], es[0]);
    MidPath(ss, es);
    RouseAwakes(ss[0], c);
    AwakeUntilSwitch(ss[1..|es|], es[1..n], c);
    SwitchedOutAwake(ss[n], c);
  }

  lemma RouseAwakes(s: Sys, c: nat)
    requires Inv(s) && Enabled(s, Rouse) && c < MAX_CPUS && s.current[c] == s.rousing
             && s.th[s.rousing].state == Running
    ensures Awake(Apply(s, Rouse), c) && Apply(s, Rouse).current == s.current
  {
  }

  lemma MidPath(ss: seq<Sys>, es: seq<Event>)
    requires Path(ss, es) && |es| >= 2
    ensures Path(ss[1..|es|], es[1..|es| - 1])
  {
    hide Apply; hide Enabled;
    var r, q := es[1..|es| - 1], ss[1..|es|];
    forall i | 0 <= i < |r|
      ensures Enabled(q[i], r[i]) && q[i + 1] == Apply(q[i], r[i])
    {
      assert r[i] == es[i + 1];
    }
  }

  // ---------------------------------------------------------------- waking all

  /** Events of the sleep queue that concern res. */
  function Unlinks(es: seq<Event>, res: Word): nat {
    if es == [] then 0 else Unlinks(es[..|es| - 1], res) + if es[|es| - 1] == Unlink(res) then 1 else 0
  }

  /** While nobody goes to sleep on res, n wakes take exactly the first n waiters, whatever runs in between. */
  lemma {:induction false} WakesInOrder(ss: seq<Sys>, es: seq<Event>, res: Word)
    requires Path(ss, es) && Inv(ss[0]) && res != 0
    requires forall i {:trigger es[i]} :: 0 <= i < |es| ==> !(es[i].SleepAdd? && es[i].res == res)
    ensures Inv(ss[|es|])
    ensures var n, w := Unlinks(es, res), Waiting(ss[0], res);
            Waiting(ss[|es|], res) == if n <= |w| then w[n..] else []
  {
    hide Apply; hide Enabled; hide Inv; hide Waiting;
    if es != [] {
      PathPrefix(ss, es);
      WakesInOrder(ss[..|es|], es[..|es| - 1], res);
      InvStep(ss[|es| - 1], es[|es| - 1]);
      WakeStep(ss[|es| - 1], es[|es| - 1], res);
    }
  }

  lemma WakeStep(s: Sys, e: Event, res: Word)
    requires Inv(s) && Enabled(s, e) && res != 0 && Inv(Apply(s, e)) && !(e.SleepAdd? && e.res == res)
    ensures Waiting(Apply(s, e), res) ==
            if e == Unlink(res) && Waiting(s, res) != [] then Waiting(s, res)[1..] else Waiting(s, res)
  {
    hide Apply; hide Enabled; hide Inv; hide Waiting;
    match e {
      case SleepAdd(cpu, r) => AddEnqueues(s, cpu, r, res);
      case Unlink(r) => UnlinkDequeues(s, r, res);
      case _ => OthersKeepQueues(s, e, res);
    }
  }

  /** sleepq_wake: unlink a waiter and rouse it, if there is one. */
  ghost function WakeOne(s: Sys, res: Word): (r: Sys)
    requires Inv(s) && s.rousing < 0 && res != 0
    ensures Inv(r) && r.rousing < 0
    ensures Waiting(s, res) != [] ==> Waiting(r, res) == Waiting(s, res)[1..]
    ensures Waiting(s, res) == [] ==> r == s
  {
    hide Inv; hide Waiting; hide Apply;
    WakeOneOk(s, res);
    if Waiting(s, res) == [] then s else Apply(Apply(s, Unlink(res)), Rouse)
  }

  lemma WakeOneOk(s: Sys, res: Word)
    requires Inv(s) && s.rousing < 0 && res != 0
    ensures Enabled(s, Unlink(res)) && Inv(Apply(s, Unlink(res)))
    ensures Waiting(s, res) != [] ==>
              var s1 := Apply(s, Unlink(res));
              && Enabled(s1, Rouse) && Inv(Apply(s1, Rouse)) && Apply(s1, Rouse).rousing < 0
              && Waiting(Apply(s1, Rouse), res) == Waiting(s, res)[1..]
              && s1.rousing == Waiting(s, res)[0] && s1.th == s.th && s1.ready == s.ready
  {
    hide ReadyOk; hide ChainsOk; hide StatesOk; hide CpusOk; hide Waiting;
    var s1 := Apply(s, Unlink(res));
    InvStep(s, Unlink(res));
    UnlinkDequeues(s, res, res);
    if Waiting(s, res) != [] {
      UnlinkRousing(s, res);
      InvStep(s1, Rouse);
      OthersKeepQueues(s1, Rouse, res);
    }
  }

  lemma UnlinkRousing(s: Sys, res: Word)
    requires Inv(s) && s.rousing < 0 && res != 0 && Waiting(s, res) != []
    ensures Enabled(s, Unlink(res)) && Apply(s, Unlink(res)).rousing >= 0
  {
    hide ReadyOk; hide ChainsOk; hide StatesOk; hide CpusOk;
    NoMatch(s.th, s.chains[Hash(res)], res);
  }

  /** sleepq_wake_all: wakes one after another until nobody waits. */
  ghost function Sweep(s: Sys, res: Word): (r: Sys)
    requires Inv(s) && s.rousing < 0 && res != 0
    ensures Inv(r) && r.rousing < 0
    decreases |Waiting(s, res)|
  {
    hide Inv; hide Waiting; hide Apply;
    if Waiting(s, res) == [] then s else Sweep(WakeOne(s, res), res)
  }

  /** Of a queue, the threads that were already switched out, in order. */
  function Sleepers(th: seq<Thread>, l: seq<nat>): seq<nat> {
    if l == [] then []
    else (if l[0] < |th| && th[l[0]].state == Sleeping then [l[0]] else []) + Sleepers(th, l[1..])
  }

  lemma {:induction false} SleepersSame(th: seq<Thread>, th': seq<Thread>, l: seq<nat>)
    requires |th| == |th'| && forall i :: 0 <= i < |l| && l[i] < |th| ==> th[l[i]].state == th'[l[i]].state
    ensures Sleepers(th, l) == Sleepers(th', l)
  {
    if l != [] {
      forall i | 0 <= i < |l[1..]| && l[1..][i] < |th|
        ensures th[l[1..][i]].state == th'[l[1..][i]].state
      {
        assert l[1..][i] == l[i + 1];
      }
      SleepersSame(th, th', l[1..]);
    }
  }

  lemma {:induction false} MatchingDistinct(th: seq<Thread>, l: seq<nat>, res: Word)
    requires Distinct(l)
    ensures Distinct(Matching(th, l, res))
  {
    if l != [] {
      assert Distinct(l[1..]);
      MatchingDistinct(th, l[1..], res);
      InMatching(th, l[1..], l[0], res);
      assert l[0] !in l[1..];
    }
  }

  lemma WakeOneEffect(s: Sys, res: Word, r: Word)
    requires Inv(s) && s.rousing < 0 && res != 0 && r != 0 && Waiting(s, res) != []
    ensures r != res ==> Waiting(WakeOne(s, res), r) == Waiting(s, r)
    ensures WakeOne(s, res).ready == s.ready + Sleepers(s.th, Waiting(s, res)[..1])
    ensures |WakeOne(s, res).th| == |s.th|
    ensures Sleepers(WakeOne(s, res).th, Waiting(s, res)[1..]) == Sleepers(s.th, Waiting(s, res)[1..])
  {
    hide ReadyOk; hide ChainsOk; hide StatesOk; hide CpusOk; hide Waiting;
    WakeOneOk(s, res);
    var s1 := Apply(s, Unlink(res));
    UnlinkDequeues(s, res, r);
    OthersKeepQueues(s1, Rouse, r);
    var w := Waiting(s, res);
    WaitingDistinct(s, res);
    assert w[..1] == [w[0]] && w[..1][1..] == [];
    SleepersSame(WakeOne(s, res).th, s.th, w[1..]);
  }

  lemma WaitingDistinct(s: Sys, res: Word)
    requires Inv(s)
    ensures Distinct(Waiting(s, res))
  {
    hide ReadyOk; hide StatesOk; hide CpusOk;
    MatchingDistinct(s.th, s.chains[Hash(res)], res);
  }

  lemma {:induction false} SleepersSplit(th: seq<Thread>, l: seq<nat>)
    requires l != []
    ensures Sleepers(th, l) == Sleepers(th, l[..1]) + Sleepers(th, l[1..])
  {
    assert l[..1] == [l[0]] && l[..1][1..] == [];
  }

  /**
   sleepq_wake_all ends with nobody waiting for res, all other queues as they were, and the
   waiters that were asleep appended to the ready list in the order they had waited.
  */
  lemma {:induction false} SweepEffect(s: Sys, res: Word, r: Word)
    requires Inv(s) && s.rousing < 0 && res != 0 && r != 0
    ensures Waiting(Sweep(s, res), res) == []
    ensures r != res ==> Waiting(Sweep(s, res), r) == Waiting(s, r)
    ensures Sweep(s, res).ready == s.ready + Sleepers(s.th, Waiting(s, res))
    decreases |Waiting(s, res)|
  {
    hide ReadyOk; hide ChainsOk; hide StatesOk; hide CpusOk; hide Waiting; hide Apply; hide WakeOne; hide Sleepers;
    if Waiting(s, res) != [] {
      WakeOneEffect(s, res, r);
      SweepEffect(WakeOne(s, res), res, r);
      SleepersSplit(s.th, Waiting(s, res));
    } else {
      NoSleepers(s.th, Waiting(s, res));
    }
  }

  lemma NoSleepers(th: seq<Thread>, l: seq<nat>)
    requires l == []
    ensures Sleepers(th, l) == []
  {
  }

  // ---------------------------------------------------------------- turns

  function Schedules(es: seq<Event>): nat {
    if es == [] then 0 else Schedules(es[..|es| - 1]) + if es[|es| - 1].Schedule? then 1 else 0
  }

  lemma ReadyStep(s: Sys, e: Event, k: nat)
    requires Enabled(s, e) && k < |s.ready| && (e.Schedule? ==> k > 0) && Shape(Apply(s, e))
    ensures var j := if e.Schedule? then k - 1 else k; j < |Apply(s, e).ready| && Apply(s, e).ready[j] == s.ready[k]
  {
  }

  /** Each switch brings a ready thread one place forward; nothing else moves it. */
  lemma {:induction false} TurnComes(ss: seq<Sys>, es: seq<Event>, k: nat)
    requires Path(ss, es) && Inv(ss[0]) && k < |ss[0].ready| && Schedules(es) <= k
    ensures Inv(ss[|es|])
    ensures k - Schedules(es) < |ss[|es|].ready| && ss[|es|].ready[k - Schedules(es)] == ss[0].ready[k]
  {
    hide Apply; hide Enabled; hide Inv;
    if es != [] {
      PathPrefix(ss, es);
      TurnComes(ss[..|es|], es[..|es| - 1], k);
      InvStep(ss[|es| - 1], es[|es| - 1]);
      InvShape(ss[|es|]);
      ReadyStep(ss[|es| - 1], es[|es| - 1], k - Schedules(es[..|es| - 1]));
    }
  }

  lemma InvShape(s: Sys)
    requires Inv(s)
    ensures Shape(s)
  {
  }

  /** A thread at position k of the ready list is chosen by exactly the (k + 1)-th switch from now. */
  lemma RoundRobin(ss: seq<Sys>, es: seq<Event>, k: nat, cpu: nat)
    requires Path(ss, es) && Inv(ss[0]) && k < |ss[0].ready| && es != []
    requires es[|es| - 1] == Schedule(cpu) && Schedules(es) == k + 1
    ensures cpu < MAX_CPUS && cpu < |ss[|es|].current| && ss[|es|].current[cpu] == ss[0].ready[k]
  {
    hide Inv; hide Apply; hide Enabled;
    PathPrefix(ss, es);
    TurnComes(ss[..|es|], es[..|es| - 1], k);
    SwitchTakesFirst(ss[|es| - 1], cpu);
  }

  lemma SwitchTakesFirst(s: Sys, cpu: nat)
    requires Enabled(s, Schedule(cpu)) && s.ready != []
    ensures cpu < MAX_CPUS && cpu < |Apply(s, Schedule(cpu)).current|
            && Apply(s, Schedule(cpu)).current[cpu] == s.ready[0]
  {
  }

  /** The idle thread is chosen exactly when no other thread could run. */
  lemma IdleOnlyIfNoneReady(s: Sys, cpu: nat)
    requires Inv(s) && cpu < MAX_CPUS
    ensures Inv(Apply(s, Schedule(cpu)))
    ensures Apply(s, Schedule(cpu)).current[cpu] == IDLE_THREAD_TID <==> s.ready == [] && !Awake(s, cpu)
  {
    InvStep(s, Schedule(cpu));
  }
}
