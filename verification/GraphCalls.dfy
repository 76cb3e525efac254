/**
  What a call hands back, from the moment the thread makes it, through its section, to the moment it leaves the section,
  whatever the other threads do meanwhile.
*/
module GraphCalls {
  import opened Common
  import opened GraphModel
  import opened GraphLock
  import opened GraphFiles
  import opened GraphSwitch
  import opened GraphRuns
  import opened GraphTheorems

  /** The thread is in a section, with or without the mutex. */
  predicate Inside(pc: Pc) {
    Owns(pc) || pc.Dropped?
  }

  /** Thread `t` makes the call `a` at step `j`, enters the section it needs at `e` and leaves it at `x`. */
  ghost predicate Called(run: seq<Fs>, moves: seq<Move>, t: nat, a: Action, j: nat, e: nat, x: nat) {
    && IsRun(run, moves) && j < e < x < |run| && !a.Proceed? && moves[j] == Move(t, a)
    && (forall i :: 0 <= i < |run| ==> t < |run[i].threads|)
    && (forall i :: j < i < e ==> run[i].threads[t].pc.Waiting?)
    && (forall i :: e <= i < x ==> Inside(run[i].threads[t].pc))
    && !Inside(run[x].threads[t].pc)
  }

  /** What the section hands over when the thread leaves it. */
  function Handed(pc: Pc): Out {
    if pc.Leave? then pc.out else Nothing
  }

  // ----- from the call to the section -----

  lemma {:induction false} Waits(run: seq<Fs>, moves: seq<Move>, t: nat, a: Action, j: nat, e: nat, x: nat, m: nat)
    requires Called(run, moves, t, a, j, e, x) && j < m <= e
    ensures m < e ==> run[m].threads[t] == run[j + 1].threads[t]
    ensures m == e ==> run[j + 1].threads[t].pc.Waiting? &&
                       run[m].threads[t] == run[j + 1].threads[t].(pc := Locked(run[j + 1].threads[t].pc.sec))
  {
    assert Joined(run[m - 1], moves[m - 1], run[m]);
    if m > j + 1 {
      Waits(run, moves, t, a, j, e, x, m - 1);
    }
  }

  // ----- steps of other threads -----

  /** What the section of thread `t` works on is as it was. */
  predicate Untouched(s: Fs, s': Fs) {
    && s'.slots == s.slots && s'.cwd == s.cwd && s'.files.openfds == s.files.openfds
    && s'.lock.init == s.lock.init
  }

  lemma BeginQuiet(s: Fs, th: Thread, a: Action)
    requires !a.Proceed? && th.pc.Idle? && CanCall(s, th, a)
    ensures var e := Begin(s, th, a);
            e.slots == s.slots && e.cwd == s.cwd && e.files.openfds == s.files.openfds && e.lock == s.lock
  {
  }

  /** Nobody else changes anything of the kind while `t` holds the mutex. */
  lemma OwnedQuiet(s: Fs, t: nat, u: nat, a: Action)
    requires LockInv(s) && t < |s.threads| && u != t && Owns(s.threads[t].pc) && Enabled(s, u, a)
    ensures Untouched(s, Apply(s, u, a)) && Apply(s, u, a).threads[t] == s.threads[t]
  {
    hide Begin, RunLocked, RunDropped, RunSwitch;
    if !a.Proceed? {
      BeginQuiet(s, s.threads[u], a);
    }
  }

  /** While `t` is between `glfs_lock` and `glfs_unlock`, nobody else changes the cwd, openfds or these slots. */
  lemma SectionQuiet(s: Fs, t: nat, u: nat, a: Action)
    requires LockInv(s) && t < |s.threads| && u != t && InSection(s.threads[t].pc) && Enabled(s, u, a)
    ensures var s' := Apply(s, u, a);
            && s'.threads[t] == s.threads[t] && s'.cwd == s.cwd && s'.files.openfds == s.files.openfds
            && s'.slots.active == s.slots.active && s'.slots.previous == s.slots.previous
  {
    StepOutside(s, u, a);
    hide StepEffect;
  }

  // ----- sections that never drop the mutex -----

  predicate Brief(sec: Section) {
    sec.Release? || sec.Setup? || sec.Init? || sec.Bind? || sec.Destroy?
  }

  lemma BriefLeaves(s: Fs, t: nat, outcome: Outcome)
    requires Enabled(s, t, Proceed(outcome)) && s.threads[t].pc.Locked? && Brief(s.threads[t].pc.sec)
    ensures !Inside(Apply(s, t, Proceed(outcome)).threads[t].pc)
  {
    hide Without;
  }

  /** Such a section finds the state as it was at its start. */
  lemma {:induction false} BriefTracked(run: seq<Fs>, moves: seq<Move>, t: nat, a: Action,
                                        j: nat, e: nat, x: nat, m: nat)
    requires Called(run, moves, t, a, j, e, x) && e <= m < x
    requires run[e].threads[t].pc.Locked? && Brief(run[e].threads[t].pc.sec)
    ensures Untouched(run[e], run[m]) && run[m].threads[t] == run[e].threads[t]
  {
    hide Inv, Apply, Enabled, Initial;
    if m > e {
      BriefTracked(run, moves, t, a, j, e, x, m - 1);
      RunInv(run, moves, m - 1);
      NotYet(run, moves, t, a, j, e, x, m);
    }
  }

  lemma NotYet(run: seq<Fs>, moves: seq<Move>, t: nat, a: Action, j: nat, e: nat, x: nat, m: nat)
    requires Called(run, moves, t, a, j, e, x) && e < m < x && Inv(run[m - 1])
    requires run[m - 1].threads[t].pc.Locked? && Brief(run[m - 1].threads[t].pc.sec)
    ensures Untouched(run[m - 1], run[m]) && run[m].threads[t] == run[m - 1].threads[t]
  {
    hide StepEffect;
    assert Joined(run[m - 1], moves[m - 1], run[m]);
    if moves[m - 1].thread == t {
      BriefLeaves(run[m - 1], t, moves[m - 1].action.outcome);
      assert false;
    } else {
      OwnedQuiet(run[m - 1], t, moves[m - 1].thread, moves[m - 1].action);
    }
  }

  /** Its one step, taken in a state that has not changed since it got the mutex. */
  lemma BriefSection(run: seq<Fs>, moves: seq<Move>, t: nat, a: Action, j: nat, e: nat, x: nat)
    returns (s: Fs, outcome: Outcome)
    requires Called(run, moves, t, a, j, e, x)
    requires run[j + 1].threads[t].pc.Waiting? ==> Brief(run[j + 1].threads[t].pc.sec)
    ensures s == run[x - 1] && moves[x - 1] == Move(t, Proceed(outcome))
    ensures Enabled(s, t, Proceed(outcome)) && run[x] == Apply(s, t, Proceed(outcome))
    ensures Untouched(run[e], s)
    ensures run[j + 1].threads[t].pc.Waiting?
    ensures s.threads[t] == run[j + 1].threads[t].(pc := Locked(run[j + 1].threads[t].pc.sec))
  {
    hide StepEffect;
    Waits(run, moves, t, a, j, e, x, e);
    BriefTracked(run, moves, t, a, j, e, x, x - 1);
    assert Joined(run[x - 1], moves[x - 1], run[x]);
    s, outcome := run[x - 1], moves[x - 1].action.outcome;
  }

  /** The first step of a call. */
  lemma Starts(run: seq<Fs>, moves: seq<Move>, t: nat, a: Action, j: nat, e: nat, x: nat)
    requires Called(run, moves, t, a, j, e, x)
    ensures Enabled(run[j], t, a) && run[j + 1] == Apply(run[j], t, a)
  {
    assert Joined(run[j], moves[j], run[j + 1]);
  }

  /**
    A bound glfd joins the list of open files, with what it was opened as; until
    then the list does not change.
  */
  lemma OpenBinds(run: seq<Fs>, moves: seq<Move>, t: nat, a: Action, j: nat, e: nat, x: nat)
    requires Called(run, moves, t, a, j, e, x) && ((a.CallOpen? && a.success) || a.CallDup?)
    ensures var i := |run[j].files.glfds|;
            && run[x].files.openfds == run[e].files.openfds + [i]
            && i < |run[x].files.glfds| && run[x].threads[t].pc.Idle?
            && var glfd := run[x].files.glfds[i];
               && (a.CallOpen? ==> glfd.gfid == a.inode.gfid && glfd.dir == a.dir && glfd.flags == a.flags)
               && (a.CallDup? ==> a.fd < |run[j].files.fds|)
               && (a.CallDup? ==>
                     var fd := run[j].files.fds[a.fd];
                     glfd.gfid == fd.inode.gfid && glfd.dir == fd.dir && glfd.flags == fd.flags)
  {
    Starts(run, moves, t, a, j, e, x);
    OriginKept(run, moves, j + 1, x);
    var s, outcome := BriefSection(run, moves, t, a, j, e, x);
  }

  lemma {:induction false} WithoutSplits(xs: seq<nat>, x: nat) returns (before: seq<nat>, after: seq<nat>)
    requires Distinct(xs)
    ensures xs == before + (if x in xs then [x] else []) + after
    ensures Without(xs, x) == before + after
  {
    if xs == [] {
      before, after := [], [];
    } else if xs[0] == x {
      before, after := [], xs[1..];
      WithoutNone(xs[1..], x);
    } else {
      before, after := WithoutSplits(xs[1..], x);
      before := [xs[0]] + before;
      assert xs == [xs[0]] + xs[1..];
    }
  }

  lemma {:induction false} WithoutNone(xs: seq<nat>, x: nat)
    requires x !in xs
    ensures Without(xs, x) == xs
  {
    if xs != [] {
      WithoutNone(xs[1..], x);
    }
  }

  /** A closed glfd, or one whose open failed, is in the list no more; the others keep their order. */
  lemma CloseUnlinks(run: seq<Fs>, moves: seq<Move>, t: nat, a: Action, j: nat, e: nat, x: nat)
    returns (i: nat, before: seq<nat>, after: seq<nat>)
    requires Called(run, moves, t, a, j, e, x) && (a.CallClose? || (a.CallOpen? && !a.success))
    ensures i == if a.CallClose? then a.glfd else |run[j].files.glfds|
    ensures run[e].files.openfds == before + (if i in run[e].files.openfds then [i] else []) + after
    ensures run[x].files.openfds == before + after && i !in run[x].files.openfds
    ensures run[x].threads[t].pc == DestroyTail(i)
  {
    i := if a.CallClose? then a.glfd else |run[j].files.glfds|;
    before, after := CloseSplits(run, moves, e, i);
    Starts(run, moves, t, a, j, e, x);
    var s, outcome := BriefSection(run, moves, t, a, j, e, x);
  }

  lemma CloseSplits(run: seq<Fs>, moves: seq<Move>, e: nat, i: nat) returns (before: seq<nat>, after: seq<nat>)
    requires IsRun(run, moves) && e < |run|
    ensures run[e].files.openfds == before + (if i in run[e].files.openfds then [i] else []) + after
    ensures Without(run[e].files.openfds, i) == before + after
  {
    RunInv(run, moves, e);
    before, after := WithoutSplits(run[e].files.openfds, i);
  }

  /** Back in the caller, the glfd has given up its fd. */
  lemma {:induction false} CloseFrees(run: seq<Fs>, moves: seq<Move>, t: nat, i: nat, x: nat, y: nat)
    requires IsRun(run, moves) && x < y < |run|
    requires forall m :: x <= m <= y ==> t < |run[m].threads|
    requires run[x].threads[t].pc == DestroyTail(i)
    requires (forall m :: x <= m < y ==> !run[m].threads[t].pc.Idle?) && run[y].threads[t].pc.Idle?
    ensures i < |run[y].files.glfds| && run[y].files.glfds[i].fd.None?
    decreases y - x
  {
    hide Initial;
    assert Joined(run[x], moves[x], run[x + 1]);
    if x + 1 < y {
      FreesLater(run, moves, t, i, x);
      CloseFrees(run, moves, t, i, x + 1, y);
    }
  }

  lemma FreesLater(run: seq<Fs>, moves: seq<Move>, t: nat, i: nat, x: nat)
    requires IsRun(run, moves) && x + 1 < |run| && t < |run[x].threads| && t < |run[x + 1].threads|
    requires run[x].threads[t].pc == DestroyTail(i) && !run[x + 1].threads[t].pc.Idle?
    ensures run[x + 1].threads[t].pc == DestroyTail(i)
  {
    assert Joined(run[x], moves[x], run[x + 1]);
  }

  /** A graph that comes up takes the next slot and a count, unless it is refused. */
  lemma SetupInstalls(run: seq<Fs>, moves: seq<Move>, t: nat, g: Graph, j: nat, e: nat, x: nat)
    requires Called(run, moves, t, CallSetup(g), j, e, x)
    ensures moves[x - 1].thread == t && moves[x - 1].action.Proceed?
    ensures var sl, sl' := run[e].slots, run[x].slots;
            if g in sl.switched || sl.active == Some(g) || sl.next == Some(g) || !moves[x - 1].action.outcome.Ok?
            then sl' == sl && run[x].threads[t].pc.Idle?
            else
              && sl'.next == Some(g) && sl'.active == sl.active && sl'.previous == sl.previous
              && sl'.switched == sl.switched && sl'.arrivals == sl.arrivals + 1
              && Winds(sl', g) == Winds(sl, g) + 1 && (forall h: Graph :: h != g ==> Winds(sl', h) == Winds(sl, h))
              && run[x].threads[t].pc == (if sl.next.Some? then Waiting(Release(sl.next.value)) else Idle)
  {
    Starts(run, moves, t, CallSetup(g), j, e, x);
    var s, outcome := BriefSection(run, moves, t, CallSetup(g), j, e, x);
  }

  /** Giving a graph back takes it from the thread's operations and takes one from its count, and from no other. */
  lemma DoneReleases(run: seq<Fs>, moves: seq<Move>, t: nat, g: Graph, j: nat, e: nat, x: nat)
    requires Called(run, moves, t, CallSubvolDone(g), j, e, x)
    ensures g in run[j].threads[t].held && run[x].threads[t].held == run[j].threads[t].held - multiset{g}
    ensures var sl, sl' := run[e].slots, run[x].slots;
            && Winds(sl', g) == Winds(sl, g) - 1 && (forall h: Graph :: h != g ==> Winds(sl', h) == Winds(sl, h))
            && sl'.active == sl.active && sl'.next == sl.next && sl'.switched == sl.switched
            && run[x].threads[t].pc == Decide(g, Winds(sl', g), sl'.active)
            && Decided(sl', g) == Decided(sl, g) + (if Winds(sl', g) == 0 then 1 else 0)
  {
    Starts(run, moves, t, CallSubvolDone(g), j, e, x);
    var s, outcome := BriefSection(run, moves, t, CallSubvolDone(g), j, e, x);
  }

  /** The end of the initialisation opens the lock that every other section waits for. */
  lemma InitOpens(run: seq<Fs>, moves: seq<Move>, t: nat, j: nat, e: nat, x: nat)
    requires Called(run, moves, t, CallInitDone, j, e, x)
    ensures run[x].lock.init && run[x].threads[t].pc.Idle? && run[x].slots == run[e].slots
  {
    Starts(run, moves, t, CallInitDone, j, e, x);
    var s, outcome := BriefSection(run, moves, t, CallInitDone, j, e, x);
  }
}
