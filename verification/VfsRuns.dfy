/** Runs of the virtual filesystem: parts of them, and runs put together step by step. */
module VfsRuns {
  import opened VfsTables
  import opened VfsProtocol

  /** Some run leads from s to s'. */
  ghost predicate Leads(s: Vfs, s': Vfs) {
    exists ss, es :: Path(ss, es) && ss[0] == s && ss[|es|] == s'
  }

  lemma Stays(s: Vfs)
    ensures Leads(s, s)
  {
    assert Path([s], []);
  }

  /** A run goes on by one step. */
  lemma Then(s: Vfs, m: Vfs, t: nat, a: Act) returns (s': Vfs)
    requires Leads(s, m) && Enabled(m, t, a)
    ensures Leads(s, s') && s' == Apply(m, t, a)
  {
    hide Apply; hide Enabled;
    s' := Apply(m, t, a);
    var ss, es :| Path(ss, es) && ss[0] == s && ss[|es|] == m;
    var e := Event(t, a);
    var ss', es' := ss + [s'], es + [e];
    assert ss'[|es'|] == s' && ss'[0] == s;
    forall i {:trigger es'[i]} | 0 <= i < |es'|
      ensures Enabled(ss'[i], es'[i].t, es'[i].act) && ss'[i + 1] == Apply(ss'[i], es'[i].t, es'[i].act)
    {
      if i < |es| {
        assert es'[i] == es[i];
      }
    }
  }

  lemma {:induction false} InvRun(ss: seq<Vfs>, es: seq<Event>)
    requires Path(ss, es) && Inv(ss[0])
    ensures Inv(ss[|es|])
  {
    hide Apply; hide Enabled; hide Inv;
    if es != [] {
      PathPrefix(ss, es);
      InvRun(ss[..|es|], es[..|es| - 1]);
      InvStep(ss[|es| - 1], es[|es| - 1].t, es[|es| - 1].act);
    }
  }

  lemma InvAt(ss: seq<Vfs>, es: seq<Event>, k: nat)
    requires Path(ss, es) && Inv(ss[0]) && k <= |es|
    ensures Inv(ss[k])
  {
    hide Apply; hide Enabled; hide Inv;
    HeadPath(ss, es, k);
    InvRun(ss[..k + 1], es[..k]);
  }

  lemma TailPath(ss: seq<Vfs>, es: seq<Event>, k: nat)
    requires Path(ss, es) && k <= |es|
    ensures Path(ss[k..], es[k..]) && ss[k..][0] == ss[k] && ss[k..][|es| - k] == ss[|es|]
  {
    hide Apply; hide Enabled;
    var q, r := ss[k..], es[k..];
    forall i {:trigger r[i]} | 0 <= i < |r|
      ensures Enabled(q[i], r[i].t, r[i].act) && q[i + 1] == Apply(q[i], r[i].t, r[i].act)
    {
      assert r[i] == es[k + i];
    }
  }

  lemma HeadPath(ss: seq<Vfs>, es: seq<Event>, k: nat)
    requires Path(ss, es) && k <= |es|
    ensures Path(ss[..k + 1], es[..k]) && ss[..k + 1][k] == ss[k]
  {
    hide Apply; hide Enabled;
    var q, r := ss[..k + 1], es[..k];
    forall i {:trigger r[i]} | 0 <= i < |r|
      ensures Enabled(q[i], r[i].t, r[i].act) && q[i + 1] == Apply(q[i], r[i].t, r[i].act)
    {
      assert r[i] == es[i];
    }
  }

  /** No semaphore is held and the system is neither stopped nor shutting down. */
  predicate Quiet(s: Vfs) {
    Shape(s) && s.usable && !s.panicked && s.opSem == -1 && s.tableSem == -1 && s.fileSem == -1
  }

  /** A call is let in. */
  lemma CallBegins(s: Vfs, m: Vfs, t: nat, op: Op) returns (s': Vfs)
    requires Leads(s, m) && Quiet(m) && t < |m.pcs| && m.pcs[t] == Idle && Proper(m, op)
    ensures Leads(s, s') && Shape(s')
    ensures s' == To(m, t, Begun(op)).(ops := m.ops + 1, seen := if op.Mount? then m.seen + {op.fs} else m.seen)
  {
    s' := Then(s, m, t, Begin(op));
    s' := Then(s, s', t, Go(true));
    s' := Then(s, s', t, Go(true));
    assert s'.pcs == m.pcs[t := Begun(op)];
  }

  /** A call that is over is let out. */
  lemma CallEnds(s: Vfs, m: Vfs, t: nat, f: int) returns (s': Vfs)
    requires Leads(s, m) && Quiet(m) && t < |m.pcs| && m.pcs[t] == Ending(f)
    ensures Leads(s, s') && s' == To(m, t, Idle).(ops := m.ops - 1)
  {
    s' := Then(s, m, t, Go(true));
    s' := Then(s, s', t, Go(true));
    assert s'.pcs == m.pcs[t := Idle];
  }
}
