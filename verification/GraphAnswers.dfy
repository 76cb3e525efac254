/** What the sections that drop the mutex on the way hand back. */
module GraphAnswers {
  import opened Common
  import opened GraphModel
  import opened GraphLock
  import opened GraphWinds
  import opened GraphFiles
  import opened GraphSwitch
  import opened GraphRuns
  import opened GraphTheorems
  import opened GraphCalls

  /** The call `a` brings back failed: the first lookup, or the refresh of a cwd that lies elsewhere. */
  predicate SwitchRefused(s: Fs, pc: Pc, a: Action) {
    && a.Proceed? && !a.outcome.Ok?
    && match pc
       case Dropped(LookupRoot(_)) => true
       case Dropped(RefreshCwd(sw)) => s.cwd.Some? && s.cwd.value.graph != sw.graph
       case _ => false
  }

  /** Somewhere in steps `e` to `m` thread `t` had such a failure. */
  ghost predicate RefusedIn(run: seq<Fs>, moves: seq<Move>, t: nat, e: nat, m: nat)
    requires |run| == |moves| + 1 && m <= |moves|
    requires forall i :: 0 <= i < |run| ==> t < |run[i].threads|
  {
    exists i :: e <= i < m && moves[i].thread == t && SwitchRefused(run[i], run[i].threads[t].pc, moves[i].action)
  }

  /** The graph that `glfs_active_subvol` is after: the next one if there is one, else the active one. */
  function Wanted(sl: Slots): Option<Graph> {
    if sl.next.Some? then sl.next else sl.active
  }

  /** How far the section that was entered in state `s0` has come. */
  predicate ActiveTrack(s0: Fs, s: Fs, t: nat, refused: bool)
    requires t < |s0.threads| && t < |s.threads|
  {
    var pc := s.threads[t].pc;
    && s.threads[t].held == s0.threads[t].held
    && if pc == Locked(Active) then s.slots == s0.slots && !refused
       else if pc.Tail? then
         && pc.ret == (if refused then None else Wanted(s0.slots))
         && (pc.done.Some? ==> s0.slots.next == Some(pc.done.value.graph))
         && (s0.slots.next.None? ==> s.slots == s0.slots && !refused)
         && (if refused || s0.slots.next.None? then s.slots.previous == s0.slots.previous
             else s.slots.previous == s0.slots.active)
       else
         && !refused && SwitchOf(pc).Some? && s0.slots.next == Some(SwitchOf(pc).value.graph)
         && (BeforeInstall(pc) ==> s.slots.active == s0.slots.active && s.slots.previous == s0.slots.previous)
         && (AfterInstall(pc) ==> s.slots.previous == s0.slots.active)
  }

  /** How the section ends. */
  ghost predicate ActiveEnd(s0: Fs, s: Fs, s': Fs, t: nat, refused: bool)
    requires t < |s0.threads| && t < |s'.threads|
  {
    var got := if refused then None else Wanted(s0.slots);
    && (if got.None? then s'.threads[t].held == s0.threads[t].held
        else && s'.threads[t].held == s0.threads[t].held + multiset{got.value}
             && Winds(s'.slots, got.value) == Winds(s.slots, got.value) + 1)
    && (forall g: Graph :: got != Some(g) ==> Winds(s'.slots, g) == Winds(s.slots, g))
    && (s0.slots.next.None? ==> !refused && s.slots == s0.slots)
    && (!refused && s0.slots.next.Some? && s0.slots.active.Some? ==>
          && s0.slots.active.value in s'.slots.switched
          && s'.threads[t].pc == Waiting(Release(s0.slots.active.value)))
  }

  lemma ActiveLocked(s0: Fs, s: Fs, t: nat, outcome: Outcome)
    requires Enabled(s, t, Proceed(outcome)) && t < |s0.threads|
    requires ActiveTrack(s0, s, t, false) && s.threads[t].pc == Locked(Active)
    ensures ActiveTrack(s0, Apply(s, t, Proceed(outcome)), t, false)
  {
  }

  lemma ActiveDropped(s0: Fs, s: Fs, t: nat, outcome: Outcome)
    requires Enabled(s, t, Proceed(outcome)) && t < |s0.threads|
    requires ActiveTrack(s0, s, t, false) && s.threads[t].pc.Dropped?
    ensures var s' := Apply(s, t, Proceed(outcome));
            && Inside(s'.threads[t].pc)
            && ActiveTrack(s0, s', t, SwitchRefused(s, s.threads[t].pc, Proceed(outcome)))
  {
    hide MigrateFd;
  }

  lemma ActiveWalks(s0: Fs, s: Fs, t: nat, outcome: Outcome)
    requires Enabled(s, t, Proceed(outcome)) && t < |s0.threads|
    requires ActiveTrack(s0, s, t, false) && Switching(s.threads[t].pc) && !s.threads[t].pc.Tail?
    ensures ActiveTrack(s0, Apply(s, t, Proceed(outcome)), t, false)
  {
    hide SetFd, Unref;
  }

  lemma ActiveTail(s0: Fs, s: Fs, t: nat, outcome: Outcome, refused: bool)
    requires Enabled(s, t, Proceed(outcome)) && t < |s0.threads|
    requires ActiveTrack(s0, s, t, refused) && s.threads[t].pc.Tail?
    ensures var s' := Apply(s, t, Proceed(outcome)); !Inside(s'.threads[t].pc) && ActiveEnd(s0, s, s', t, refused)
  {
  }

  lemma ActiveOther(s0: Fs, s: Fs, t: nat, u: nat, a: Action, refused: bool)
    requires LockInv(s) && Enabled(s, u, a) && t < |s0.threads| && t < |s.threads| && u != t
    requires ActiveTrack(s0, s, t, refused)
    ensures ActiveTrack(s0, Apply(s, u, a), t, refused)
  {
    hide StepEffect;
    assert InSection(s.threads[t].pc);
    SectionQuiet(s, t, u, a);
    if Owns(s.threads[t].pc) {
      OwnedQuiet(s, t, u, a);
    }
  }

  lemma ActiveStep(s0: Fs, s: Fs, t: nat, m: Move, s': Fs, refused: bool)
    requires LockInv(s) && Joined(s, m, s') && t < |s0.threads| && t < |s.threads|
    requires ActiveTrack(s0, s, t, refused)
    ensures t < |s'.threads|
    ensures var refused' := refused || (m.thread == t && SwitchRefused(s, s.threads[t].pc, m.action));
            if Inside(s'.threads[t].pc) then ActiveTrack(s0, s', t, refused')
            else refused' == refused && ActiveEnd(s0, s, s', t, refused)
  {
    hide StepEffect, LockInv, ActiveEnd;
    if m.thread != t {
      ActiveOther(s0, s, t, m.thread, m.action, refused);
    } else if s.threads[t].pc.Tail? {
      ActiveTail(s0, s, t, m.action.outcome, refused);
    } else if s.threads[t].pc.Locked? {
      ActiveLocked(s0, s, t, m.action.outcome);
    } else if s.threads[t].pc.Dropped? {
      ActiveDropped(s0, s, t, m.action.outcome);
    } else {
      ActiveWalks(s0, s, t, m.action.outcome);
    }
  }

  lemma {:induction false} ActiveTracked(run: seq<Fs>, moves: seq<Move>, t: nat, j: nat, e: nat, x: nat, m: nat)
    requires Called(run, moves, t, CallActiveSubvol, j, e, x) && e <= m < x && run[e].threads[t].pc == Locked(Active)
    ensures ActiveTrack(run[e], run[m], t, RefusedIn(run, moves, t, e, m))
  {
    hide ActiveTrack, ActiveEnd, Inv, Initial, Apply, Enabled;
    if m == e {
      ActiveStart(run[e], t);
      assert !RefusedIn(run, moves, t, e, e);
    } else {
      ActiveTracked(run, moves, t, j, e, x, m - 1);
      RunInv(run, moves, m - 1);
      assert Joined(run[m - 1], moves[m - 1], run[m]);
      LockOf(run[m - 1]);
      ActiveStep(run[e], run[m - 1], t, moves[m - 1], run[m], RefusedIn(run, moves, t, e, m - 1));
      RefusedNext(run, moves, t, e, m - 1);
      hide RefusedIn;
    }
  }

  lemma ActiveStart(s: Fs, t: nat)
    requires t < |s.threads| && s.threads[t].pc == Locked(Active)
    ensures ActiveTrack(s, s, t, false)
  {
  }

  lemma LockOf(s: Fs)
    requires Inv(s)
    ensures LockInv(s)
  {
  }

  lemma RefusedNext(run: seq<Fs>, moves: seq<Move>, t: nat, e: nat, m: nat)
    requires |run| == |moves| + 1 && e <= m < |moves|
    requires forall i :: 0 <= i < |run| ==> t < |run[i].threads|
    ensures RefusedIn(run, moves, t, e, m + 1) <==>
      RefusedIn(run, moves, t, e, m)
      || (moves[m].thread == t && SwitchRefused(run[m], run[m].threads[t].pc, moves[m].action))
  {
    hide SwitchRefused;
  }

  /**
    A call of `glfs_active_subvol` leaves its section with the graph it is after, the next one or else the active one,
    held once more and counted once more; with nothing only if there is no such graph, or the first lookup or the
    refresh of the cwd failed; and after a switch the displaced graph is marked and about to be released.
  */
  lemma ActiveAnswers(run: seq<Fs>, moves: seq<Move>, t: nat, j: nat, e: nat, x: nat)
    requires Called(run, moves, t, CallActiveSubvol, j, e, x)
    ensures var sl, sl', th, th' := run[e].slots, run[x].slots, run[j].threads[t], run[x].threads[t];
            var got := if RefusedIn(run, moves, t, e, x) then None else if sl.next.Some? then sl.next else sl.active;
            && (got.None? ==> th'.held == th.held)
            && (got.Some? ==> th'.held == th.held + multiset{got.value}
                              && Winds(sl', got.value) == Winds(run[x - 1].slots, got.value) + 1)
            && (forall g: Graph :: got != Some(g) ==> Winds(sl', g) == Winds(run[x - 1].slots, g))
            && (sl.next.None? ==> got == sl.active && run[x - 1].slots == sl)
            && (sl.next.Some? && got.Some? && sl.active.Some? ==>
                  sl.active.value in sl'.switched && th'.pc == Waiting(Release(sl.active.value)))
  {
    Starts(run, moves, t, CallActiveSubvol, j, e, x);
    Waits(run, moves, t, CallActiveSubvol, j, e, x, e);
    hide StepEffect, Inv, Initial;
    ActiveTracked(run, moves, t, j, e, x, x - 1);
    RunInv(run, moves, x - 1);
    LockOf(run[x - 1]);
    assert Joined(run[x - 1], moves[x - 1], run[x]);
    ActiveStep(run[e], run[x - 1], t, moves[x - 1], run[x], RefusedIn(run, moves, t, e, x - 1));
    RefusedNext(run, moves, t, e, x - 1);
  }

  // ----- the current directory and objects -----

  /** The call `a` brings back, made with the mutex dropped, failed. */
  predicate CallFailed(pc: Pc, a: Action) {
    pc.Dropped? && a.Proceed? && !a.outcome.Ok?
  }

  ghost predicate FailedIn(run: seq<Fs>, moves: seq<Move>, t: nat, e: nat, m: nat)
    requires |run| == |moves| + 1 && m <= |moves|
    requires forall i :: 0 <= i < |run| ==> t < |run[i].threads|
  {
    exists i :: e <= i < m && moves[i].thread == t && CallFailed(run[i].threads[t].pc, moves[i].action)
  }

  lemma FailedNext(run: seq<Fs>, moves: seq<Move>, t: nat, e: nat, m: nat)
    requires |run| == |moves| + 1 && e <= m < |moves|
    requires forall i :: 0 <= i < |run| ==> t < |run[i].threads|
    ensures FailedIn(run, moves, t, e, m + 1) <==>
      FailedIn(run, moves, t, e, m) || (moves[m].thread == t && CallFailed(run[m].threads[t].pc, moves[m].action))
  {
    hide CallFailed;
  }

  predicate Refreshing(sec: Section) {
    sec.GetCwd? || sec.SetCwd? || sec.ResolveObject?
  }

  /** What the section entered in state `s0` will hand over. */
  function Reply(sec: Section, s0: Fs, failed: bool): Out {
    match sec
    case GetCwd =>
      if s0.cwd.None? || s0.slots.active.None? || failed then Nothing
      else GotCwd(Inode(s0.slots.active.value, s0.cwd.value.gfid))
    case ResolveObject(g, handle) =>
      if handle.graph == g then GotInode(g, handle, handle)
      else if s0.slots.active.None? || (failed && s0.slots.active.value != handle.graph) then Nothing
      else GotInode(g, handle, Inode(s0.slots.active.value, handle.gfid))
    case _ => Nothing
  }

  /** The cwd it will leave behind. */
  function CwdAfter(sec: Section, s0: Fs, failed: bool): Option<Inode> {
    if sec.SetCwd? && s0.slots.active.Some? && !failed then Some(Inode(s0.slots.active.value, sec.inode.gfid))
    else s0.cwd
  }

  predicate RefreshTrack(sec: Section, s0: Fs, s: Fs, t: nat, failed: bool)
    requires t < |s0.threads| && t < |s.threads|
  {
    var th, active := s.threads[t], s0.slots.active;
    && th.held == s0.threads[t].held && th.fds == s0.threads[t].fds && s.slots.active == active
    && match th.pc
       case Locked(sec') => sec' == sec && !failed && s.cwd == s0.cwd
       case Dropped(job) =>
         && !failed && s.cwd == s0.cwd
         && (match job
             case RefreshForGet(target) =>
               sec.GetCwd? && active == Some(target) && s.cwd.Some? && s.cwd.value.graph != target
             case RefreshForSet(target, inode) =>
               sec == SetCwd(inode) && active == Some(target) && inode.graph != target
             case RefreshObject(g, handle, target) =>
               sec == ResolveObject(g, handle) && active == Some(target) && handle.graph != g
             case _ => false)
       case Leave(out) => out == Reply(sec, s0, failed) && s.cwd == CwdAfter(sec, s0, failed)
       case _ => false
  }

  predicate RefreshEnd(sec: Section, s0: Fs, s: Fs, s': Fs, t: nat, failed: bool)
    requires t < |s0.threads| && t < |s.threads| && t < |s'.threads|
  {
    && s'.threads[t] == s0.threads[t].(pc := Idle)
    && Handed(s.threads[t].pc) == Reply(sec, s0, failed) && s'.cwd == CwdAfter(sec, s0, failed)
  }

  lemma RefreshLocked(sec: Section, s0: Fs, s: Fs, t: nat, outcome: Outcome)
    requires Refreshing(sec) && Enabled(s, t, Proceed(outcome)) && t < |s0.threads|
    requires RefreshTrack(sec, s0, s, t, false) && s.threads[t].pc.Locked?
    ensures var s' := Apply(s, t, Proceed(outcome));
            if Inside(s'.threads[t].pc) then RefreshTrack(sec, s0, s', t, false)
            else RefreshEnd(sec, s0, s, s', t, false)
  {
  }

  lemma RefreshDropped(sec: Section, s0: Fs, s: Fs, t: nat, outcome: Outcome)
    requires Refreshing(sec) && Enabled(s, t, Proceed(outcome)) && t < |s0.threads|
    requires RefreshTrack(sec, s0, s, t, false) && s.threads[t].pc.Dropped?
    ensures var s' := Apply(s, t, Proceed(outcome));
            Inside(s'.threads[t].pc) && RefreshTrack(sec, s0, s', t, !outcome.Ok?)
  {
  }

  lemma RefreshLeaves(sec: Section, s0: Fs, s: Fs, t: nat, outcome: Outcome, failed: bool)
    requires Refreshing(sec) && Enabled(s, t, Proceed(outcome)) && t < |s0.threads|
    requires RefreshTrack(sec, s0, s, t, failed) && s.threads[t].pc.Leave?
    ensures var s' := Apply(s, t, Proceed(outcome));
            !Inside(s'.threads[t].pc) && RefreshEnd(sec, s0, s, s', t, failed)
  {
  }

  lemma RefreshOther(sec: Section, s0: Fs, s: Fs, t: nat, u: nat, a: Action, failed: bool)
    requires Refreshing(sec) && LockInv(s) && Enabled(s, u, a) && t < |s0.threads| && t < |s.threads| && u != t
    requires RefreshTrack(sec, s0, s, t, failed)
    ensures RefreshTrack(sec, s0, Apply(s, u, a), t, failed)
  {
    hide StepEffect;
    assert InSection(s.threads[t].pc);
    SectionQuiet(s, t, u, a);
  }

  lemma RefreshStep(sec: Section, s0: Fs, s: Fs, t: nat, m: Move, s': Fs, failed: bool)
    requires Refreshing(sec) && LockInv(s) && Joined(s, m, s') && t < |s0.threads| && t < |s.threads|
    requires RefreshTrack(sec, s0, s, t, failed)
    ensures t < |s'.threads|
    ensures var failed' := failed || (m.thread == t && CallFailed(s.threads[t].pc, m.action));
            if Inside(s'.threads[t].pc) then RefreshTrack(sec, s0, s', t, failed')
            else failed' == failed && RefreshEnd(sec, s0, s, s', t, failed)
  {
    hide StepEffect, LockInv, RefreshEnd;
    if m.thread != t {
      RefreshOther(sec, s0, s, t, m.thread, m.action, failed);
    } else if s.threads[t].pc.Locked? {
      RefreshLocked(sec, s0, s, t, m.action.outcome);
    } else if s.threads[t].pc.Dropped? {
      RefreshDropped(sec, s0, s, t, m.action.outcome);
    } else {
      RefreshLeaves(sec, s0, s, t, m.action.outcome, failed);
    }
  }

  lemma {:induction false} RefreshTracked(sec: Section, run: seq<Fs>, moves: seq<Move>, t: nat, a: Action,
                                          j: nat, e: nat, x: nat, m: nat)
    requires Called(run, moves, t, a, j, e, x) && e <= m < x
    requires Refreshing(sec) && run[e].threads[t].pc == Locked(sec)
    ensures RefreshTrack(sec, run[e], run[m], t, FailedIn(run, moves, t, e, m))
  {
    hide RefreshEnd, Inv, Initial, Apply, Enabled;
    if m == e {
      assert !FailedIn(run, moves, t, e, e);
    } else {
      hide RefreshTrack;
      RefreshTracked(sec, run, moves, t, a, j, e, x, m - 1);
      RunInv(run, moves, m - 1);
      assert Joined(run[m - 1], moves[m - 1], run[m]);
      LockOf(run[m - 1]);
      RefreshStep(sec, run[e], run[m - 1], t, moves[m - 1], run[m], FailedIn(run, moves, t, e, m - 1));
      FailedNext(run, moves, t, e, m - 1);
      hide FailedIn;
    }
  }

  lemma DefinedAt(run: seq<Fs>, moves: seq<Move>, k: nat, t: nat)
    requires IsRun(run, moves) && k < |run| && t < |run[k].threads|
    ensures Defined(run[k], run[k].threads[t].pc)
  {
    hide Inv, Initial, Joined;
    RunInv(run, moves, k);
    AlwaysDefined(run[k], t);
  }

  lemma RefreshSection(sec: Section, run: seq<Fs>, moves: seq<Move>, t: nat, a: Action, j: nat, e: nat, x: nat)
    requires Called(run, moves, t, a, j, e, x)
    requires Refreshing(sec) && run[j + 1].threads[t] == run[j].threads[t].(pc := Waiting(sec))
    ensures RefreshEnd(sec, run[e], run[x - 1], run[x], t, FailedIn(run, moves, t, e, x))
    ensures run[e].threads[t] == run[j].threads[t].(pc := Locked(sec)) && Defined(run[e], Locked(sec))
  {
    hide StepEffect, Inv, Initial, RefreshEnd, RefreshTrack;
    Waits(run, moves, t, a, j, e, x, e);
    DefinedAt(run, moves, e, t);
    RefreshTracked(sec, run, moves, t, a, j, e, x, x - 1);
    RunInv(run, moves, x - 1);
    LockOf(run[x - 1]);
    assert Joined(run[x - 1], moves[x - 1], run[x]);
    RefreshStep(sec, run[e], run[x - 1], t, moves[x - 1], run[x], FailedIn(run, moves, t, e, x - 1));
    FailedNext(run, moves, t, e, x - 1);
    hide FailedIn;
  }

  /**
    `glfs_cwd_get` hands out the cwd as an inode of the active graph; nothing only if there is no cwd, or its refresh
    failed.  The cwd itself stays.
  */
  lemma GetCwdAnswers(run: seq<Fs>, moves: seq<Move>, t: nat, j: nat, e: nat, x: nat)
    requires Called(run, moves, t, CallGetCwd, j, e, x)
    ensures run[e].cwd.Some? ==> run[e].slots.active.Some?
    ensures Handed(run[x - 1].threads[t].pc) ==
            if run[e].cwd.None? || FailedIn(run, moves, t, e, x) then Nothing
            else GotCwd(Inode(run[e].slots.active.value, run[e].cwd.value.gfid))
    ensures run[x].cwd == run[e].cwd && run[x].threads[t] == run[j].threads[t]
  {
    Starts(run, moves, t, CallGetCwd, j, e, x);
    RefreshSection(GetCwd, run, moves, t, CallGetCwd, j, e, x);
  }

  /** `glfs_cwd_set` leaves that inode as the cwd, in the active graph; or the cwd as it was, if the refresh failed. */
  lemma SetCwdAnswers(run: seq<Fs>, moves: seq<Move>, t: nat, inode: Inode, j: nat, e: nat, x: nat)
    requires Called(run, moves, t, CallSetCwd(inode), j, e, x)
    ensures run[e].slots.active.Some?
    ensures run[x].cwd == if FailedIn(run, moves, t, e, x) then run[e].cwd
                          else Some(Inode(run[e].slots.active.value, inode.gfid))
    ensures run[x].threads[t] == run[j].threads[t]
  {
    Starts(run, moves, t, CallSetCwd(inode), j, e, x);
    RefreshSection(SetCwd(inode), run, moves, t, CallSetCwd(inode), j, e, x);
  }

  /**
    `glfs_resolve_inode` hands out the object's own inode if it lies in the wanted graph, else that object in the active
    graph; nothing only if it lies in neither and the refresh failed.
  */
  lemma ResolveObjectAnswers(run: seq<Fs>, moves: seq<Move>, t: nat, g: Graph, handle: Inode, j: nat, e: nat, x: nat)
    requires Called(run, moves, t, CallResolveObject(g, handle), j, e, x)
    ensures run[e].slots.active.Some?
    ensures var active, out := run[e].slots.active.value, Handed(run[x - 1].threads[t].pc);
            if handle.graph == g then out == GotInode(g, handle, handle)
            else if FailedIn(run, moves, t, e, x) && handle.graph != active then out == Nothing
            else out == GotInode(g, handle, Inode(active, handle.gfid))
    ensures run[x].cwd == run[e].cwd && run[x].threads[t] == run[j].threads[t]
  {
    Starts(run, moves, t, CallResolveObject(g, handle), j, e, x);
    RefreshSection(ResolveObject(g, handle), run, moves, t, CallResolveObject(g, handle), j, e, x);
  }
}
