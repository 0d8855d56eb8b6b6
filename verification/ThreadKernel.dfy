/**
 The scheduler and the sleep queue over the thread table. The ready list and all sleep chains
 run through one next column; every method is one or two locked regions of the kernel and
 refines the steps of ThreadSystem.
*/
module ThreadKernel {
  import opened Cyclic
  import opened Words
  import opened ThreadSystem
  import opened ThreadTheorems

  // ---------------------------------------------------------------- linked lists

  /** What follows position i of a list: the next thread, or -1. */
  function After(l: seq<nat>, i: int): int {
    if -1 <= i < |l| - 1 then l[i + 1] else -1
  }

  /** Starting at first, the next column runs through l. */
  ghost predicate Links(next: seq<int>, first: int, l: seq<nat>) {
    && first == After(l, -1)
    && forall i :: 0 <= i < |l| ==> l[i] < |next| && next[l[i]] == After(l, i)
  }

  ghost predicate AllLinks(next: seq<int>, hashtable: seq<int>, chains: seq<seq<nat>>) {
    && |hashtable| == |chains|
    && forall h :: 0 <= h < |chains| ==> Links(next, hashtable[h], chains[h])
  }

  lemma LinksFrame(next: seq<int>, x: nat, v: int, first: int, l: seq<nat>)
    requires Links(next, first, l) && x < |next| && x !in l
    ensures Links(next[x := v], first, l)
  {
  }

  lemma AllLinksFrame(next: seq<int>, x: nat, v: int, hashtable: seq<int>, chains: seq<seq<nat>>)
    requires AllLinks(next, hashtable, chains) && x < |next| && OffChains(x, chains)
    ensures AllLinks(next[x := v], hashtable, chains)
  {
    hide Links;
    forall h | 0 <= h < |chains|
      ensures Links(next[x := v], hashtable[h], chains[h])
    {
      LinksFrame(next, x, v, hashtable[h], chains[h]);
    }
  }

  ghost predicate OffChains(t: nat, chains: seq<seq<nat>>) {
    forall h {:trigger chains[h]} :: 0 <= h < |chains| ==> t !in chains[h]
  }

  lemma LinksAppend(next: seq<int>, first: int, l: seq<nat>, t: nat)
    requires Links(next, first, l) && l != [] && t !in l && Distinct(l) && t < |next|
    ensures l[|l| - 1] < |next|
    ensures Links(next[l[|l| - 1] := t][t := -1], first, l + [t])
    ensures next[t] == -1 ==> Links(next[l[|l| - 1] := t], first, l + [t])
  {
  }

  function Skip(j: int, i: int): int {
    if j < i then j else j + 1
  }

  lemma WithoutAt(l: seq<nat>, i: nat, j: int)
    requires i < |l| && -1 <= j < |l| - 1
    ensures j >= 0 ==> Without(l, i)[j] == l[Skip(j, i)]
    ensures After(Without(l, i), j) == if j == i - 1 then After(l, i) else After(l, Skip(j, i))
  {
  }

  /** Unlinking position i: what pointed there points past it. */
  lemma LinksWithout(next: seq<int>, first: int, l: seq<nat>, i: nat)
    requires Links(next, first, l) && i < |l| && Distinct(l)
    ensures l[i] < |next| && next[l[i]] == After(l, i)
    ensures i == 0 ==> Links(next, After(l, 0), Without(l, 0))
    ensures i > 0 ==> l[i - 1] < |next| && Links(next[l[i - 1] := After(l, i)], first, Without(l, i))
  {
    hide After; hide Without;
    var r := Without(l, i);
    var n := if i == 0 then next else next[l[i - 1] := After(l, i)];
    WithoutAt(l, i, -1);
    forall j | 0 <= j < |r|
      ensures r[j] < |n| && n[r[j]] == After(r, j)
    {
      WithoutAt(l, i, j);
      assert l[Skip(j, i)] < |next| && next[l[Skip(j, i)]] == After(l, Skip(j, i));
    }
  }

  /** The last thread of a list, -1 if there is none. */
  function Last(l: seq<nat>): int {
    if l == [] then -1 else l[|l| - 1]
  }

  /** Both ends of the ready list and the heads of the chains agree with the next column. */
  ghost predicate ListsOk(next: seq<int>, head: int, tail: int, hashtable: seq<int>, ready: seq<nat>,
                          chains: seq<seq<nat>>) {
    && |next| == MAX_THREADS && |chains| == SLEEPQ_HASHTABLE_SIZE
    && Links(next, head, ready) && tail == Last(ready) && AllLinks(next, hashtable, chains)
  }

  // ---------------------------------------------------------------- what the invariant gives each region

  lemma NoLists(s: Sys, t: nat)
    requires Inv(s) && t < MAX_THREADS && s.th[t].state != Ready && (s.th[t].sleepsOn == 0 || t == s.rousing)
    ensures OffChains(t, s.chains) && t !in s.ready
  {
    forall h | 0 <= h < |s.chains|
      ensures t !in s.chains[h]
    {
      assert 0 < t ==> !(t in s.chains[h]);
    }
  }

  lemma ReadyOffChains(s: Sys, t: nat)
    requires Inv(s) && t in s.ready
    ensures OffChains(t, s.chains) && t < MAX_THREADS
  {
    forall h | 0 <= h < |s.chains|
      ensures t !in s.chains[h]
    {
      ListsAreDisjoint(s, t, h, h);
    }
  }

  lemma OneLink(next: seq<int>, t: nat)
    requires t < |next| && next[t] == -1
    ensures Links(next, t, [t])
  {
  }

  lemma OffLists(s: Sys, t: nat)
    requires Inv(s) && t < MAX_THREADS && s.th[t].state != Ready && (s.th[t].sleepsOn == 0 || t == s.rousing)
    ensures OffChains(t, s.chains) && t !in s.ready
    ensures Distinct(s.ready) && (s.ready != [] ==> OffChains(s.ready[|s.ready| - 1], s.chains))
  {
    hide OffChains; hide ChainsOk; hide CpusOk;
    NoLists(s, t);
    if s.ready != [] {
      ReadyOffChains(s, s.ready[|s.ready| - 1]);
    }
  }

  lemma RunOffLists(s: Sys, t: nat)
    requires Inv(s) && Enabled(s, Run(t))
    ensures OffChains(t, s.chains) && t !in s.ready
    ensures Distinct(s.ready) && (s.ready != [] ==> OffChains(s.ready[|s.ready| - 1], s.chains))
  {
    hide ReadyOk; hide ChainsOk; hide CpusOk; hide OffChains;
    OffLists(s, t);
  }

  lemma CurrentOffLists(s: Sys, cpu: nat)
    requires Inv(s) && cpu < MAX_CPUS && s.current[cpu] != 0
    requires s.th[s.current[cpu]].state != Dying && s.th[s.current[cpu]].sleepsOn == 0
    ensures OffChains(s.current[cpu], s.chains) && s.current[cpu] !in s.ready
    ensures Distinct(s.ready) && (s.ready != [] ==> OffChains(s.ready[|s.ready| - 1], s.chains))
  {
    OffLists(s, s.current[cpu]);
  }

  lemma FirstIsReady(s: Sys, cpu: nat)
    requires Inv(s) && cpu < MAX_CPUS
    ensures var r := SwitchOut(s, cpu);
            Distinct(r.ready) && forall i :: 0 <= i < |r.ready| ==> r.th[r.ready[i]].state == Ready
  {
    InvSwitchOut(s, cpu);
    var r := SwitchOut(s, cpu);
    forall i | 0 <= i < |r.ready|
      ensures r.th[r.ready[i]].state == Ready
    {
      assert r.ready[i] in r.ready;
    }
  }

  lemma ListsFrame(next: seq<int>, head: int, tail: int, hashtable: seq<int>, ready: seq<nat>, chains: seq<seq<nat>>,
                   x: nat, v: int)
    requires ListsOk(next, head, tail, hashtable, ready, chains) && x < MAX_THREADS && x !in ready
             && OffChains(x, chains)
    ensures x < |next| && ListsOk(next[x := v], head, tail, hashtable, ready, chains)
  {
    hide Links; hide AllLinks; hide OffChains;
    LinksFrame(next, x, v, head, ready);
    AllLinksFrame(next, x, v, hashtable, chains);
  }

  lemma AwakeOffLists(s: Sys, cpu: nat)
    requires Inv(s) && cpu < MAX_CPUS && Awake(s, cpu)
    ensures OffChains(s.current[cpu], s.chains) && s.current[cpu] !in s.ready && s.current[cpu] < MAX_THREADS
  {
    hide OffChains; hide ReadyOk; hide ChainsOk; hide CpusOk; hide StatesOk;
    NoLists(s, s.current[cpu]);
  }

  lemma OffChain(t: nat, chains: seq<seq<nat>>, h: nat)
    requires OffChains(t, chains) && h < |chains|
    ensures t !in chains[h]
  {
  }

  lemma ChainOk(s: Sys, h: nat)
    requires Inv(s) && h < SLEEPQ_HASHTABLE_SIZE
    ensures Distinct(s.chains[h]) && forall i :: 0 <= i < |s.chains[h]| ==> 0 < s.chains[h][i] < MAX_THREADS
  {
  }

  lemma ChainLinks(next: seq<int>, head: int, tail: int, hashtable: seq<int>, ready: seq<nat>, chains: seq<seq<nat>>,
                   h: nat)
    requires ListsOk(next, head, tail, hashtable, ready, chains) && h < SLEEPQ_HASHTABLE_SIZE
    ensures h < |hashtable| && h < |chains| && Links(next, hashtable[h], chains[h]) && |next| == MAX_THREADS
  {
    hide Links;
  }

  lemma EmptyChain(next: seq<int>, first: int, l: seq<nat>)
    requires Links(next, first, l) && first <= 0 && forall i :: 0 <= i < |l| ==> l[i] > 0
    ensures l == []
  {
  }

  lemma FirstOfChain(next: seq<int>, head: int, tail: int, hashtable: seq<int>, ready: seq<nat>, chains: seq<seq<nat>>,
                     h: nat, t: nat)
    requires ListsOk(next, head, tail, hashtable, ready, chains) && h < SLEEPQ_HASHTABLE_SIZE && chains[h] == []
    requires t < MAX_THREADS && next[t] == -1
    ensures h < |hashtable| && ListsOk(next, head, tail, hashtable[h := t], ready, chains[h := chains[h] + [t]])
  {
    hide Links;
    OneLink(next, t);
    assert chains[h] + [t] == [t];
  }

  /** What a list's links are changed to when one list changes: the other lists do not notice. */
  lemma ChainChanged(next: seq<int>, head: int, tail: int, hashtable: seq<int>, ready: seq<nat>, chains: seq<seq<nat>>,
                     h: nat, x: nat, v: int, l: seq<nat>)
    requires ListsOk(next, head, tail, hashtable, ready, chains) && h < SLEEPQ_HASHTABLE_SIZE
    requires x < MAX_THREADS && x !in ready && OffOthers(x, chains, h)
    requires h < |hashtable| && Links(next[x := v], hashtable[h], l)
    ensures ListsOk(next[x := v], head, tail, hashtable, ready, chains[h := l])
  {
    hide Links;
    LinksFrame(next, x, v, head, ready);
    forall g | 0 <= g < |chains|
      ensures Links(next[x := v], hashtable[g], chains[h := l][g])
    {
      if g != h {
        LinksFrame(next, x, v, hashtable[g], chains[g]);
      }
    }
  }

  ghost predicate OffOthers(t: nat, chains: seq<seq<nat>>, h: nat) {
    forall g {:trigger chains[g]} :: 0 <= g < |chains| && g != h ==> t !in chains[g]
  }

  lemma MemberOffOthers(s: Sys, h: nat, i: nat)
    requires Inv(s) && h < SLEEPQ_HASHTABLE_SIZE && i < |s.chains[h]|
    ensures OffOthers(s.chains[h][i], s.chains, h) && s.chains[h][i] !in s.ready && 0 < s.chains[h][i] < MAX_THREADS
  {
    hide Inv;
    InvShape(s);
    var t := s.chains[h][i];
    assert t in s.chains[h];
    ListsAreDisjoint(s, t, h, h);
    forall g | 0 <= g < |s.chains| && g != h
      ensures t !in s.chains[g]
    {
      ListsAreDisjoint(s, t, h, g);
    }
  }

  /** A walk along list l stands at position i, with prev the thread before (-1 at the start). */
  ghost predicate Walked(next: seq<int>, l: seq<nat>, i: nat, prev: int, first: int) {
    && i <= |l| && prev == (if i == 0 then -1 else l[i - 1]) && first == After(l, i - 1)
    && (forall j :: 0 <= j < |l| ==> 0 < l[j] < |next| && next[l[j]] == After(l, j))
  }

  lemma WalkStart(next: seq<int>, first: int, l: seq<nat>)
    requires Links(next, first, l) && forall i :: 0 <= i < |l| ==> l[i] > 0
    ensures Walked(next, l, 0, -1, first)
  {
    hide After;
  }

  lemma WalkedAt(next: seq<int>, l: seq<nat>, i: nat, prev: int, first: int)
    requires Walked(next, l, i, prev, first)
    ensures first > 0 <==> i < |l|
    ensures i < |l| ==> first == l[i] && l[i] < |next|
    ensures i > 0 <==> prev > 0
  {
  }

  lemma WalkedOn(next: seq<int>, l: seq<nat>, i: nat)
    requires i < |l| && (forall j :: 0 <= j < |l| ==> 0 < l[j] < |next| && next[l[j]] == After(l, j))
    ensures l[i] < |next| && Walked(next, l, i + 1, l[i], next[l[i]])
  {
    hide After;
  }

  /** After unlinking position i the walk goes on from the thread that followed. */
  lemma StillWalked(next: seq<int>, l: seq<nat>, i: nat, prev: int, first: int)
    requires Walked(next, l, i, prev, first) && i < |l| && Distinct(l)
    ensures first == l[i] && next[first] == After(l, i)
    ensures i == 0 ==> Walked(next, Without(l, i), i, prev, next[first])
    ensures i > 0 ==> prev == l[i - 1] && Walked(next[prev := next[first]], Without(l, i), i, prev, next[first])
  {
    hide After; hide Without;
    var r := Without(l, i);
    var n := if i == 0 then next else next[l[i - 1] := After(l, i)];
    AtPosition(l, i - 1);
    WithoutAt(l, i, i - 1);
    if i > 0 {
      WithoutAt(l, i, i - 1);
    }
    forall j | 0 <= j < |r|
      ensures 0 < r[j] < |n| && n[r[j]] == After(r, j)
    {
      WithoutAt(l, i, j);
      assert l[Skip(j, i)] < |next| && next[l[Skip(j, i)]] == After(l, Skip(j, i));
    }
  }

  lemma AtPosition(l: seq<nat>, i: int)
    requires -1 <= i < |l| - 1
    ensures After(l, i) == l[i + 1]
  {
  }

  lemma HeadChanged(next: seq<int>, head: int, tail: int, hashtable: seq<int>, ready: seq<nat>, chains: seq<seq<nat>>,
                    h: nat, first: int, l: seq<nat>)
    requires ListsOk(next, head, tail, hashtable, ready, chains) && h < SLEEPQ_HASHTABLE_SIZE && Links(next, first, l)
    ensures h < |hashtable| && ListsOk(next, head, tail, hashtable[h := first], ready, chains[h := l])
  {
    hide Links;
  }

  lemma RousingOffLists(s: Sys)
    requires Inv(s) && s.rousing >= 0
    ensures 0 < s.rousing < MAX_THREADS && Enabled(s, Rouse)
    ensures OffChains(s.rousing, s.chains) && s.rousing !in s.ready
    ensures Distinct(s.ready) && (s.ready != [] ==> OffChains(s.ready[|s.ready| - 1], s.chains))
  {
    hide OffChains; hide ReadyOk; hide ChainsOk; hide CpusOk;
    OffLists(s, s.rousing);
  }

  ghost predicate NoneBefore(th: seq<Thread>, l: seq<nat>, i: nat, res: Word) {
    i <= |l| && forall j :: 0 <= j < i ==> !Waits(th, l[j], res)
  }

  lemma WalkedLength(next: seq<int>, l: seq<nat>, i: nat, prev: int, first: int)
    requires Walked(next, l, i, prev, first)
    ensures i <= |l|
  {
  }

  lemma WalkedLink(next: seq<int>, l: seq<nat>, i: nat, prev: int, first: int)
    requires Walked(next, l, i, prev, first) && i < |l|
    ensures 0 < first < |next| && first == l[i]
  {
  }

  /** The position of a walk does not depend on links outside the list. */
  lemma WalkKept(next: seq<int>, next': seq<int>, head: int, l: seq<nat>, i: nat, prev: int, first: int)
    requires Walked(next, l, i, prev, first) && Links(next', head, l) && |next'| == |next|
    ensures Walked(next', l, i, prev, first)
  {
    hide After;
  }

  lemma WaiterExists(s: Sys, res: Word)
    requires Inv(s) && FirstMatch(s.th, s.chains[Hash(res)], res) < |s.chains[Hash(res)]|
    ensures Waiting(s, res) != []
  {
    hide ReadyOk; hide ChainsOk; hide StatesOk; hide CpusOk;
    NoMatch(s.th, s.chains[Hash(res)], res);
  }

  lemma SweepEnds(s: Sys, res: Word, i: nat)
    requires Inv(s) && s.rousing < 0 && res != 0
    requires NoneBefore(s.th, s.chains[Hash(res)], i, res) && i == |s.chains[Hash(res)]|
    ensures Sweep(s, res) == s
  {
    hide ReadyOk; hide ChainsOk; hide StatesOk; hide CpusOk;
    var l := s.chains[Hash(res)];
    NoMatch(s.th, l, res);
    assert FirstMatch(s.th, l, res) == |l|;
  }

  /** Waking the thread at position i leaves the threads before it as they were. */
  lemma NoneBeforeStill(s: Sys, s': Sys, h: nat, i: nat, res: Word)
    requires Inv(s) && res != 0 && h == Hash(res) && i < |s.chains[h]| && i == FirstMatch(s.th, s.chains[h], res)
             && s.rousing < 0
    requires Enabled(Apply(s, Unlink(res)), Rouse) && s' == Apply(Apply(s, Unlink(res)), Rouse)
    ensures |s'.chains| == SLEEPQ_HASHTABLE_SIZE && NoneBefore(s'.th, s'.chains[h], i, res)
  {
    hide ReadyOk; hide StatesOk; hide CpusOk; hide FirstMatch;
    var l := s.chains[h];
    ChainOk(s, h);
    forall j | 0 <= j < i
      ensures !Waits(s'.th, s'.chains[h][j], res)
    {
      assert s'.chains[h][j] == l[j] && !Waits(s.th, l[j], res);
    }
  }

  /** Thread row t comes before row u when counting from row n upwards and around. */
  predicate CyclicBefore(n: nat, t: nat, u: nat) {
    (t - n) % 32 < (u - n) % 32
  }

  ghost predicate NoneFree(th: seq<Thread>) {
    forall t {:trigger th[t]} :: 0 < t < |th| ==> th[t].state != Free
  }

  /** No row before row tid, counting from n, is free. */
  ghost predicate FreeComesFirst(th: seq<Thread>, n: nat, tid: nat) {
    forall t: nat {:trigger th[t]} :: 0 < t < |th| && CyclicBefore(n, t, tid) ==> th[t].state != Free
  }

  lemma FreeOffLists(s: Sys, t: nat)
    requires Inv(s) && Enabled(s, Create(t))
    ensures OffChains(t, s.chains) && t !in s.ready
  {
    hide OffChains; hide ReadyOk; hide ChainsOk; hide CpusOk;
    NoLists(s, t);
  }

  class Kernel {
    var threads: seq<Thread>
    var next: seq<int>
    var readyHead: int
    var readyTail: int
    var hashtable: seq<int>
    var current: seq<nat>
    var nextTid: nat
    ghost var ready: seq<nat>
    ghost var chains: seq<seq<nat>>
    ghost var rousing: int

    ghost function St(): Sys
      reads this
    {
      Sys(threads, ready, chains, current, rousing)
    }

    ghost predicate Valid()
      reads this
    {
      ListsOk(next, readyHead, readyTail, hashtable, ready, chains) && Inv(St()) && nextTid < MAX_THREADS
    }

    /** thread_table_init, scheduler_init and sleepq_init. */
    constructor ()
      ensures Valid() && St() == Start() && nextTid == 0
      ensures threads == seq(32, t => Thread(if t == 0 then Ready else Free, 0)) && current == [0, 0, 0, 0]
      ensures ready == [] && rousing == -1 && forall h :: 0 <= h < |hashtable| ==> hashtable[h] == -1
    {
      threads := Start().th;
      next := seq(MAX_THREADS, t => -1);
      readyHead, readyTail := -1, -1;
      hashtable := seq(SLEEPQ_HASHTABLE_SIZE, h => -1);
      current := Start().current;
      nextTid := 0;
      ready, chains, rousing := [], Start().chains, -1;
      new;
      InvStart();
    }

    /** Appends t to the ready list. */
    method AddToReadyList(t: nat)
      requires ListsOk(next, readyHead, readyTail, hashtable, ready, chains) && 0 < t < MAX_THREADS && t !in ready
               && OffChains(t, chains)
      requires Distinct(ready) && (ready != [] ==> OffChains(ready[|ready| - 1], chains))
      modifies this`next, this`readyHead, this`readyTail, this`ready
      ensures ListsOk(next, readyHead, readyTail, hashtable, ready, chains) && ready == old(ready) + [t]
    {
      hide Links; hide AllLinks; hide OffChains;
      assert t != IDLE_THREAD_TID;
      if readyTail < 0 {
        readyHead := t;
        readyTail := t;
        AllLinksFrame(next, t, -1, hashtable, chains);
        next := next[t := -1];
        OneLink(next, t);
        assert ready + [t] == [t];
      } else {
        LinksAppend(next, readyHead, ready, t);
        AllLinksFrame(next, readyTail, t, hashtable, chains);
        next := next[readyTail := t];
        AllLinksFrame(next, t, -1, hashtable, chains);
        next := next[t := -1];
        readyTail := t;
      }
      ready := ready + [t];
    }

    /** Takes the first thread off the ready list; the idle thread if there is none. */
    method RemoveFirstReady() returns (t: nat)
      requires ListsOk(next, readyHead, readyTail, hashtable, ready, chains) && Distinct(ready)
               && |threads| == MAX_THREADS
      requires forall i :: 0 <= i < |ready| ==> 0 < ready[i] < MAX_THREADS && threads[ready[i]].state == Ready
      modifies this`readyHead, this`readyTail, this`ready
      ensures ListsOk(next, readyHead, readyTail, hashtable, ready, chains)
              && t == (if old(ready) == [] then IDLE_THREAD_TID else old(ready)[0])
      ensures ready == if old(ready) == [] then [] else old(ready)[1..]
    {
      hide AllLinks;
      var first := readyHead;
      assert first != IDLE_THREAD_TID;
      if first >= 0 {
        assert threads[first].state == Ready;
        LinksWithout(next, readyHead, ready, 0);
        if readyTail == first {
          readyTail := -1;
        }
        readyHead := next[readyHead];
        ready := Without(ready, 0);
      }
      t := if first < 0 then IDLE_THREAD_TID else first;
    }

    /** Puts the thread a CPU runs away. */
    method PutAway(cpu: nat)
      requires Valid() && cpu < MAX_CPUS
      modifies this`threads, this`next, this`readyHead, this`readyTail, this`ready
      ensures ListsOk(next, readyHead, readyTail, hashtable, ready, chains) && St() == SwitchOut(old(St()), cpu)
    {
      hide ListsOk; hide ReadyOk; hide ChainsOk; hide StatesOk; hide CpusOk; hide Distinct; hide OffChains;
      var t := current[cpu];
      if threads[t].state == Dying {
        threads := SetState(threads, t, Free);
      } else if threads[t].sleepsOn != 0 {
        threads := SetState(threads, t, Sleeping);
      } else {
        if t != IDLE_THREAD_TID {
          CurrentOffLists(St(), cpu);
          AddToReadyList(t);
        }
        threads := SetState(threads, t, Ready);
      }
    }

    /** Switches threads on a CPU. */
    method Schedule(cpu: nat)
      requires Valid() && cpu < MAX_CPUS
      modifies this
      ensures Valid() && St() == Apply(old(St()), Event.Schedule(cpu)) && nextTid == old(nextTid)
    {
      hide ListsOk; hide ReadyOk; hide ChainsOk; hide StatesOk; hide CpusOk; hide Distinct; hide OffChains;
      hide SwitchOut;
      InvStep(St(), Event.Schedule(cpu));
      FirstIsReady(St(), cpu);
      PutAway(cpu);
      var t := RemoveFirstReady();
      threads := SetState(threads, t, Running);
      current := current[cpu := t];
    }

    /** Queues a thread that was created and not run yet. */
    method AddReady(t: nat)
      requires Valid() && Enabled(St(), Run(t))
      modifies this
      ensures Valid() && St() == Apply(old(St()), Run(t)) && nextTid == old(nextTid)
    {
      hide ListsOk; hide ReadyOk; hide ChainsOk; hide StatesOk; hide CpusOk; hide Distinct; hide OffChains;
      InvStep(St(), Run(t));
      RunOffLists(St(), t);
      AddToReadyList(t);
      threads := SetState(threads, t, Ready);
    }

    /** Ends the thread a CPU runs; its row is freed at the next switch. */
    method ThreadFinish(cpu: nat)
      requires Valid() && Enabled(St(), Finish(cpu))
      modifies this
      ensures Valid() && St() == Apply(old(St()), Finish(cpu)) && nextTid == old(nextTid)
    {
      InvStep(St(), Finish(cpu));
      threads := SetState(threads, current[cpu], Dying);
    }

    /** Puts the current thread of a CPU at the end of the chain for res. */
    method SleepqAdd(cpu: nat, res: Word)
      requires Valid() && Enabled(St(), SleepAdd(cpu, res))
      modifies this
      ensures Valid() && St() == Apply(old(St()), SleepAdd(cpu, res)) && nextTid == old(nextTid)
    {
      hide ListsOk; hide ReadyOk; hide ChainsOk; hide StatesOk; hide CpusOk; hide Distinct; hide OffChains;
      hide Links; hide After;
      ghost var s := St();
      InvStep(s, SleepAdd(cpu, res));
      var hash := Hash(res);
      var tid := current[cpu];
      AwakeOffLists(s, cpu);
      ListsFrame(next, readyHead, readyTail, hashtable, ready, chains, tid, -1);
      next := next[tid := -1];
      threads := SetSleepsOn(threads, tid, res);
      assert tid != IDLE_THREAD_TID;
      ghost var l := chains[hash];
      ChainOk(s, hash);
      ChainLinks(next, readyHead, readyTail, hashtable, ready, chains, hash);
      if hashtable[hash] <= 0 {
        EmptyChain(next, hashtable[hash], l);
        FirstOfChain(next, readyHead, readyTail, hashtable, ready, chains, hash, tid);
        hashtable := hashtable[hash := tid];
      } else {
        var prev := EndOfChain(next, hashtable[hash], l);
        OffChain(tid, chains, hash);
        LinksAppend(next, hashtable[hash], l, tid);
        MemberOffOthers(s, hash, |l| - 1);
        ChainChanged(next, readyHead, readyTail, hashtable, ready, chains, hash, prev, tid, l + [tid]);
        next := next[prev := tid];
      }
      chains := chains[hash := chains[hash] + [tid]];
    }

    /** The last thread of a non-empty list. */
    method EndOfChain(next: seq<int>, first: int, ghost l: seq<nat>) returns (prev: nat)
      requires Links(next, first, l) && first > 0 && forall i :: 0 <= i < |l| ==> l[i] > 0
      ensures l != [] && prev == l[|l| - 1]
    {
      prev := first;
      ghost var i := 0;
      while next[prev] > 0
        invariant 0 <= i < |l| && prev == l[i]
        decreases |l| - i
      {
        prev := next[prev];
        i := i + 1;
      }
    }

    /** From list position from on, the first thread waiting for res. */
    method FindWaiter(ghost l: seq<nat>, ghost from: nat, prev0: int, first0: int, res: Word)
      returns (prev: int, first: int, ghost i: nat)
      requires |next| == MAX_THREADS && |threads| == MAX_THREADS && Walked(next, l, from, prev0, first0)
      ensures from <= i && Walked(next, l, i, prev, first)
      ensures forall j :: from <= j < i ==> !Waits(threads, l[j], res)
      ensures i < |l| ==> Waits(threads, l[i], res)
    {
      hide After;
      prev, first, i := prev0, first0, from;
      WalkedAt(next, l, i, prev, first);
      while first > 0 && threads[first].sleepsOn != res
        invariant from <= i && Walked(next, l, i, prev, first)
        invariant first > 0 <==> i < |l|
        invariant i < |l| ==> first == l[i] && l[i] < MAX_THREADS
        invariant forall j :: from <= j < i ==> !Waits(threads, l[j], res)
        decreases |l| - i
      {
        prev := first;
        first := next[first];
        WalkedOn(next, l, i);
        i := i + 1;
        WalkedAt(next, l, i, prev, first);
      }
    }

    /** Takes thread first, the earliest on chain hash that waits for res, off that chain. */
    method UnlinkAt(hash: nat, res: Word, prev: int, first: nat, ghost i: nat)
      requires Valid() && rousing < 0 && res != 0 && hash == Hash(res)
      requires Walked(next, chains[hash], i, prev, first) && i < |chains[hash]|
               && i == FirstMatch(threads, chains[hash], res)
      modifies this
      ensures Valid() && St() == Apply(old(St()), Unlink(res)) && nextTid == old(nextTid)
      ensures rousing == first && first > 0 && threads == old(threads)
      ensures |chains| == SLEEPQ_HASHTABLE_SIZE && chains[hash] == Without(old(chains)[hash], i)
      ensures first < |old(next)| && Walked(next, chains[hash], i, prev, old(next)[first])
    {
      hide ListsOk; hide ReadyOk; hide ChainsOk; hide StatesOk; hide CpusOk; hide Distinct; hide OffChains;
      hide Links; hide After;
      ghost var s := St();
      ghost var l := chains[hash];
      InvStep(s, Unlink(res));
      ChainOk(s, hash);
      ChainLinks(next, readyHead, readyTail, hashtable, ready, chains, hash);
      LinksWithout(next, hashtable[hash], l, i);
      StillWalked(next, l, i, prev, first);
      if prev <= 0 {
        HeadChanged(next, readyHead, readyTail, hashtable, ready, chains, hash, After(l, 0), Without(l, 0));
        hashtable := hashtable[hash := next[first]];
      } else {
        MemberOffOthers(s, hash, i - 1);
        ChainChanged(next, readyHead, readyTail, hashtable, ready, chains, hash, prev, After(l, i), Without(l, i));
        next := next[prev := next[first]];
      }
      chains := chains[hash := Without(l, i)];
      rousing := first;
    }

    /** Ends the wait of the unlinked thread; if it was already switched out, it is queued to run. */
    method RouseThread(first: nat)
      requires Valid() && rousing == first
      modifies this
      ensures Valid() && Enabled(old(St()), Rouse) && St() == Apply(old(St()), Rouse) && nextTid == old(nextTid)
      ensures chains == old(chains) && hashtable == old(hashtable)
    {
      hide ListsOk; hide ReadyOk; hide ChainsOk; hide StatesOk; hide CpusOk; hide Distinct; hide OffChains;
      hide Links; hide After;
      ghost var s := St();
      InvStep(s, Rouse);
      RousingOffLists(s);
      threads := SetSleepsOn(threads, first, 0);
      ListsFrame(next, readyHead, readyTail, hashtable, ready, chains, first, -1);
      next := next[first := -1];
      if threads[first].state == Sleeping {
        threads := SetState(threads, first, Ready);
        assert threads == s.th[first := Thread(Ready, 0)];
        AddToReadyList(first);
      }
      rousing := -1;
    }

    /** Wakes the first thread that waits for res. */
    method SleepqWake(res: Word)
      requires Valid() && rousing < 0 && res != 0
      modifies this
      ensures Valid() && St() == WakeOne(old(St()), res) && nextTid == old(nextTid)
    {
      hide ListsOk; hide ReadyOk; hide ChainsOk; hide StatesOk; hide CpusOk; hide Distinct; hide OffChains;
      hide Links; hide After;
      var hash := Hash(res);
      ChainOk(St(), hash);
      ChainLinks(next, readyHead, readyTail, hashtable, ready, chains, hash);
      WalkStart(next, hashtable[hash], chains[hash]);
      NoMatch(threads, chains[hash], res);
      WakeOneOk(St(), res);
      var prev, first, i := FindWaiter(chains[hash], 0, -1, hashtable[hash], res);
      WalkedAt(next, chains[hash], i, prev, first);
      if first > 0 {
        UnlinkAt(hash, res, prev, first, i);
        RouseThread(first);
      }
    }

    /** Wakes every thread that waits for res. */
    method SleepqWakeAll(res: Word)
      requires Valid() && rousing < 0 && res != 0
      modifies this
      ensures Valid() && St() == Sweep(old(St()), res) && nextTid == old(nextTid)
    {
      hide ListsOk; hide ReadyOk; hide ChainsOk; hide StatesOk; hide CpusOk; hide Distinct; hide OffChains;
      hide Links; hide After; hide Walked;
      hide Sweep; hide WakeOne; hide Waiting; hide FirstMatch; hide Waits;
      var hash := Hash(res);
      ChainOk(St(), hash);
      ChainLinks(next, readyHead, readyTail, hashtable, ready, chains, hash);
      WalkStart(next, hashtable[hash], chains[hash]);
      var prev, first := -1, hashtable[hash];
      ghost var i := 0;
      while first > 0
        invariant Valid() && rousing < 0 && Sweep(St(), res) == Sweep(old(St()), res) && nextTid == old(nextTid)
        invariant Walked(next, chains[hash], i, prev, first)
        invariant NoneBefore(threads, chains[hash], i, res)
        decreases |chains[hash]| - i
      {
        WalkedAt(next, chains[hash], i, prev, first);
        prev, first, i := NextWaiter(hash, i, prev, first, res);
        WalkedAt(next, chains[hash], i, prev, first);
        if first > 0 {
          first := WakeAt(hash, res, prev, first, i);
        }
      }
      WalkedAt(next, chains[hash], i, prev, first);
      WalkedLength(next, chains[hash], i, prev, first);
      SweepEnds(St(), res, i);
    }

    /** The walk of SleepqWakeAll up to the next thread that waits for res. */
    method NextWaiter(hash: nat, ghost from: nat, prev0: int, first0: int, res: Word) returns (prev: int, first: int,
                      ghost i: nat)
      requires Valid() && hash < SLEEPQ_HASHTABLE_SIZE && Walked(next, chains[hash], from, prev0, first0)
      requires NoneBefore(threads, chains[hash], from, res)
      ensures from <= i && Walked(next, chains[hash], i, prev, first) && NoneBefore(threads, chains[hash], i, res)
      ensures i < |chains[hash]| ==> i == FirstMatch(threads, chains[hash], res)
    {
      hide ListsOk; hide ReadyOk; hide ChainsOk; hide StatesOk; hide CpusOk; hide Links; hide After; hide Walked;
      ChainLinks(next, readyHead, readyTail, hashtable, ready, chains, hash);
      prev, first, i := FindWaiter(chains[hash], from, prev0, first0, res);
      WalkedLength(next, chains[hash], i, prev, first);
    }

    /** Wakes the thread the walk stands at; what follows it on the chain. */
    method WakeAt(hash: nat, res: Word, prev: int, wake: nat, ghost i: nat) returns (first: int)
      requires Valid() && rousing < 0 && res != 0 && hash == Hash(res)
      requires Walked(next, chains[hash], i, prev, wake) && i < |chains[hash]|
               && i == FirstMatch(threads, chains[hash], res)
      modifies this
      ensures Valid() && rousing < 0 && Sweep(St(), res) == Sweep(old(St()), res) && nextTid == old(nextTid)
      ensures |chains| == SLEEPQ_HASHTABLE_SIZE && |chains[hash]| == |old(chains)[hash]| - 1
      ensures Walked(next, chains[hash], i, prev, first)
      ensures NoneBefore(threads, chains[hash], i, res)
    {
      hide ListsOk; hide ReadyOk; hide ChainsOk; hide StatesOk; hide CpusOk; hide Distinct; hide OffChains;
      hide Links; hide After; hide Walked;
      hide Waits; hide FirstMatch; hide Matching; hide Waiting;
      ghost var s := St();
      ghost var l := chains[hash];
      WalkedLink(next, l, i, prev, wake);
      WakeOneOk(s, res);
      WaiterExists(s, res);
      first := next[wake];
      UnlinkAt(hash, res, prev, wake, i);
      ghost var n1 := next;
      ChainLinks(next, readyHead, readyTail, hashtable, ready, chains, hash);
      RouseThread(wake);
      ChainLinks(next, readyHead, readyTail, hashtable, ready, chains, hash);
      ChainOk(St(), hash);
      WalkKept(n1, next, hashtable[hash], chains[hash], i, prev, first);
      NoneBeforeStill(s, St(), hash, i, res);
    }

    /** The first free row from nextTid on, in cyclic order; -1 if there is none. */
    method FindFreeRow() returns (tid: int)
      requires |threads| == MAX_THREADS && nextTid < MAX_THREADS
      ensures tid == -1 || 0 < tid < MAX_THREADS
      ensures tid < 0 ==> NoneFree(threads)
      ensures tid > 0 ==> threads[tid].state == Free && FreeComesFirst(threads, nextTid, tid)
    {
      WalkRound(nextTid, 0, MAX_THREADS);
      var i := 0;
      tid := -1;
      while i < MAX_THREADS
        invariant 0 <= i <= MAX_THREADS && tid == -1
        invariant forall t {:trigger threads[t]} :: 0 < t < MAX_THREADS && Distance(nextTid, t, MAX_THREADS) < i ==>
                    threads[t].state != Free
      {
        var t := (i + nextTid) % MAX_THREADS;
        WalkRound(nextTid, i, MAX_THREADS);
        assert t == RowAt(nextTid, i, MAX_THREADS);
        if t != IDLE_THREAD_TID && threads[t].state == Free {
          tid := t;
          break;
        }
        i := i + 1;
      }
    }

    /** Reserves a free row for a new thread; -1 if the table is full. */
    method ThreadCreate() returns (tid: int)
      requires Valid()
      modifies this
      ensures Valid()
      ensures tid < 0 <==> NoneFree(old(threads))
      ensures tid < 0 ==> St() == old(St()) && nextTid == old(nextTid)
      ensures tid >= 0 ==>
                Enabled(old(St()), Create(tid)) && St() == Apply(old(St()), Create(tid))
                && nextTid == (tid + 1) % MAX_THREADS
      ensures tid >= 0 ==> FreeComesFirst(old(threads), old(nextTid), tid)
    {
      hide ListsOk; hide ReadyOk; hide ChainsOk; hide StatesOk; hide CpusOk; hide Distinct; hide OffChains;
      hide FreeComesFirst;
      tid := FindFreeRow();
      if tid >= 0 {
        Reserve(tid);
      }
    }

    /** Gives row tid its initial contents. */
    method Reserve(tid: nat)
      requires Valid() && Enabled(St(), Create(tid))
      modifies this
      ensures Valid() && St() == Apply(old(St()), Create(tid)) && nextTid == (tid + 1) % MAX_THREADS
    {
      hide ListsOk; hide ReadyOk; hide ChainsOk; hide StatesOk; hide CpusOk; hide Distinct; hide OffChains; hide Links;
      InvStep(St(), Create(tid));
      FreeOffLists(St(), tid);
      nextTid := (tid + 1) % MAX_THREADS;
      threads := threads[tid := Thread(NonReady, 0)];
      ListsFrame(next, readyHead, readyTail, hashtable, ready, chains, tid, -1);
      next := next[tid := -1];
    }
  }
}
