/**
  Two things that a run can lead to.  A graph that was skipped without ever being
  switched away from is not marked `switched`, so a later CHILD_UP can bring it
  back while its teardown is still on its way.  And an object can be resolved for
  one graph to an inode of another.
*/
module GraphRevival {
  import opened Common
  import opened GraphModel
  import opened GraphLock
  import opened GraphWinds
  import opened GraphRuns
  import opened GraphTheorems

  ghost predicate Reachable(s: Fs) {
    exists run, moves :: IsRun(run, moves) && run[|run| - 1] == s
  }

  lemma ReachStep(s: Fs, t: nat, a: Action)
    requires Reachable(s) && Enabled(s, t, a)
    ensures Reachable(Apply(s, t, a))
  {
    var run, moves :| IsRun(run, moves) && run[|run| - 1] == s;
    var run', moves' := run + [Apply(s, t, a)], moves + [Move(t, a)];
    forall k | 0 <= k < |moves'|
      ensures Joined(run'[k], moves'[k], run'[k + 1])
    {
      if k < |moves| {
        assert Joined(run[k], moves[k], run[k + 1]);
      }
    }
    assert IsRun(run', moves');
  }

  /** The state after an idle thread has run a whole CHILD_UP section for `g` on a free mutex. */
  function AfterChildUp(s: Fs, u: nat, g: Graph): Fs
    requires u < |s.threads|
  {
    var sl := s.slots;
    if g in sl.switched || sl.active == Some(g) || sl.next == Some(g) then s
    else
      s.(slots := AddWind(sl, g, 1).(next := Some(g), arrivals := sl.arrivals + 1),
         threads := s.threads[u := s.threads[u].(pc :=
           if sl.next.Some? then Waiting(Release(sl.next.value)) else Idle)])
  }

  lemma ChildUp(s: Fs, u: nat, g: Graph)
    requires Reachable(s) && u < |s.threads| && s.threads[u].pc.Idle? && s.lock.mutex.None?
    ensures Reachable(AfterChildUp(s, u, g))
  {
    var s1 := Apply(s, u, CallSetup(g));
    ReachStep(s, u, CallSetup(g));
    var s2 := Apply(s1, u, Proceed(Ok));
    ReachStep(s1, u, Proceed(Ok));
    var s3 := Apply(s2, u, Proceed(Ok));
    ReachStep(s2, u, Proceed(Ok));
    assert s3.lock == s.lock;
    assert s3.threads == AfterChildUp(s, u, g).threads;
    assert s3 == AfterChildUp(s, u, g);
  }

  /**
    While thread `t` is about to tear `g` down, a CHILD_UP for `g` in another
    thread puts `g` back into the next slot exactly when `g` was never switched
    away from.
  */
  lemma RevivedIffNeverSwitched(s: Fs, t: nat, u: nat, g: Graph)
    requires Reachable(s) && t < |s.threads| && u < |s.threads| && t != u
    requires s.threads[t].pc.Decide? && s.threads[t].pc.g == g && Winds(s.slots, g) == 0
    requires s.threads[u].pc.Idle? && s.lock.mutex.None?
    ensures var s' := AfterChildUp(s, u, g);
            && Reachable(s') && s'.threads[t] == s.threads[t]
            && (s'.slots.next == Some(g) <==> g !in s.slots.switched)
  {
    ChildUp(s, u, g);
    var run, moves :| IsRun(run, moves) && run[|run| - 1] == s;
    RunInv(run, moves, |run| - 1);
    ZeroIsFree(s, g);
  }

  /** The state after thread `t`, waiting to release `g`, has run that section on a free lock. */
  lemma ReleaseNow(s: Fs, t: nat, g: Graph) returns (s': Fs)
    requires Reachable(s) && t < |s.threads| && s.threads[t].pc == Waiting(Release(g))
    requires s.lock == Lock(true, false, None) && Winds(s.slots, g) == 1
    ensures Reachable(s') && s'.lock == s.lock
    ensures s'.threads == s.threads[t := s.threads[t].(pc := Decide(g, 0, s.slots.active))]
    ensures Winds(s'.slots, g) == 0 && s'.slots.switched == s.slots.switched
    ensures s'.slots.active == s.slots.active && s'.slots.next == s.slots.next
  {
    var s1 := Apply(s, t, Proceed(Ok));
    ReachStep(s, t, Proceed(Ok));
    s' := Apply(s1, t, Proceed(Ok));
    ReachStep(s1, t, Proceed(Ok));
  }

  lemma InitNow(s: Fs, t: nat) returns (s': Fs)
    requires Reachable(s) && t < |s.threads| && s.threads[t].pc.Idle? && s.lock == Lock(false, false, None)
    ensures Reachable(s') && s' == s.(lock := Lock(true, false, None))
  {
    var s1 := Apply(s, t, CallInitDone);
    ReachStep(s, t, CallInitDone);
    var s2 := Apply(s1, t, Proceed(Ok));
    ReachStep(s1, t, Proceed(Ok));
    s' := Apply(s2, t, Proceed(Ok));
    ReachStep(s2, t, Proceed(Ok));
    assert s'.threads == s.threads;
  }

  /** Such a state is reachable: graph 1 is announced, skipped for 2, and announced again. */
  lemma TornDownWhileNext() returns (s: Fs)
    ensures Reachable(s) && |s.threads| == 2
    ensures s.threads[0].pc == Decide(1, 0, None) && s.slots.next == Some(1)
  {
    hide Reachable, IsRun;
    var s0 := Begun();
    ChildUp(s0, 0, 1);
    var s1 := InitNow(AfterChildUp(s0, 0, 1), 0);
    ChildUp(s1, 0, 2);
    var s2 := ReleaseNow(AfterChildUp(s1, 0, 2), 0, 1);
    ChildUp(s2, 1, 1);
    s := AfterChildUp(s2, 1, 1);
  }

  // ----- an object resolved to another graph -----

  /** The state halfway through an undisturbed switch of thread `u` to `g`: the root has been looked up. */
  lemma LookedUp(s: Fs, u: nat, g: Graph) returns (s': Fs, sw: Switch)
    requires Reachable(s) && u < |s.threads| && s.threads[u].pc.Idle? && s.lock == Lock(true, false, None)
    requires s.slots.next == Some(g)
    ensures sw.graph == g && sw.newCwd.None? && sw.pos == 0
    ensures Reachable(s') && s' == s.(lock := Lock(true, false, Some(u)),
                                      threads := s.threads[u := s.threads[u].(pc := AfterLookup(sw))])
  {
    hide Reachable;
    var s1 := Apply(s, u, CallActiveSubvol);
    ReachStep(s, u, CallActiveSubvol);
    var s2 := Apply(s1, u, Proceed(Ok));
    ReachStep(s1, u, Proceed(Ok));
    var s3 := Apply(s2, u, Proceed(Ok));
    ReachStep(s2, u, Proceed(Ok));
    s' := Apply(s3, u, Proceed(Ok));
    ReachStep(s3, u, Proceed(Ok));
    sw := s'.threads[u].pc.sw;
  }

  /** The rest of the switch, with no cwd and no open files. */
  lemma Switched(s: Fs, u: nat, sw: Switch) returns (s': Fs)
    requires Reachable(s) && u < |s.threads| && s.threads[u].pc == AfterLookup(sw)
    requires s.lock == Lock(true, false, Some(u)) && s.slots.next == Some(sw.graph) && s.slots.previous.None?
    requires s.cwd.None? && s.files.openfds == [] && sw.newCwd.None? && sw.pos == 0
    ensures Reachable(s') && s'.lock == Lock(true, false, None) && s'.files == s.files && s'.cwd == s.cwd
    ensures s'.slots.active == Some(sw.graph) && s'.slots.next.None? && s'.slots.previous.None?
    ensures |s'.threads| == |s.threads| && s'.threads == s.threads[u := s'.threads[u]]
    ensures s'.threads[u].held == s.threads[u].held + multiset{sw.graph}
    ensures s.slots.active.None? ==> s'.threads[u].pc.Idle? && s'.slots.switched == s.slots.switched
  {
    hide Reachable;
    var s1 := Apply(s, u, Proceed(Ok));
    ReachStep(s, u, Proceed(Ok));
    assert s1.threads[u].pc == WalkFds(sw);
    var s2 := Apply(s1, u, Proceed(Ok));
    ReachStep(s1, u, Proceed(Ok));
    assert s2.threads[u].pc == Install(sw);
    var s3 := Apply(s2, u, Proceed(Ok));
    ReachStep(s2, u, Proceed(Ok));
    assert s3.threads[u].pc == Tail(Some(sw.graph), Some(sw));
    s' := Apply(s3, u, Proceed(Ok));
    ReachStep(s3, u, Proceed(Ok));
  }

  /** Thread `t` resolves an object of another graph for a graph that is no longer active. */
  lemma Resolved(s: Fs, t: nat, g: Graph, handle: Inode) returns (s': Fs)
    requires Reachable(s) && t < |s.threads| && s.threads[t].pc.Idle? && s.lock == Lock(true, false, None)
    requires g in s.threads[t].held && handle.graph != g && s.slots.active.Some?
    ensures Reachable(s') && |s'.threads| == |s.threads|
    ensures s'.threads[t].pc == Leave(GotInode(g, handle, Inode(s.slots.active.value, handle.gfid)))
  {
    hide Reachable;
    var s1 := Apply(s, t, CallResolveObject(g, handle));
    ReachStep(s, t, CallResolveObject(g, handle));
    var s2 := Apply(s1, t, Proceed(Ok));
    ReachStep(s1, t, Proceed(Ok));
    var s3 := Apply(s2, t, Proceed(Ok));
    ReachStep(s2, t, Proceed(Ok));
    assert s3.threads[t].pc == Dropped(RefreshObject(g, handle, s.slots.active.value));
    s' := Apply(s3, t, Proceed(Ok));
    ReachStep(s3, t, Proceed(Ok));
  }

  /**
    Thread 0 holds graph 1 when thread 1 switches to graph 2; an object found there is then resolved for graph 1, and
    the inode handed out lies in graph 2.
  */
  lemma ResolvedElsewhere() returns (s: Fs)
    ensures Reachable(s) && |s.threads| == 2
    ensures s.threads[0].pc == Leave(GotInode(1, Inode(2, 7), Inode(2, 7)))
  {
    hide Reachable, IsRun;
    var s0 := Begun();
    ChildUp(s0, 0, 1);
    var s1 := InitNow(AfterChildUp(s0, 0, 1), 0);
    var s2, sw := LookedUp(s1, 0, 1);
    var s3 := Switched(s2, 0, sw);
    ChildUp(s3, 1, 2);
    var s4, sw' := LookedUp(AfterChildUp(s3, 1, 2), 1, 2);
    var s5 := Switched(s4, 1, sw');
    s := Resolved(s5, 0, 1, Inode(2, 7));
  }

  /** Two idle threads at the start. */
  lemma Begun() returns (s: Fs)
    ensures Reachable(s) && s.lock == Lock(false, false, None)
    ensures s.slots == Slots(None, None, None, map[], {}, 0, map[])
    ensures s.files == Files([], [], [], []) && s.cwd.None?
    ensures s.threads == [Thread(Idle, multiset{}, multiset{}), Thread(Idle, multiset{}, multiset{})]
  {
    var idle := Thread(Idle, multiset{}, multiset{});
    s := Fs(Lock(false, false, None), Slots(None, None, None, map[], {}, 0, map[]), Files([], [], [], []), None,
            [idle, idle]);
    assert IsRun([s], []);
  }
}
