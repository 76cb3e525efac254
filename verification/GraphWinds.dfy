/** Reference conservation for graphs: what `winds` counts, in every interleaving. */
module GraphWinds {
  import opened Common
  import opened GraphModel
  import opened GraphLock

  // ----- the slots -----

  /** A thread between capturing the next graph and swapping the slots. */
  predicate BeforeInstall(pc: Pc) {
    || pc.AfterLookup? || pc.WalkFds? || pc.AfterOpen? || pc.Install?
    || (pc.Dropped? && (pc.job.LookupRoot? || pc.job.RefreshCwd? || pc.job.MigrateOpen?))
  }

  /** A thread that has swapped the slots and not yet left the section. */
  predicate AfterInstall(pc: Pc) {
    || pc.InstallCwd? || (pc.Dropped? && pc.job.RefreshAgain?) || (pc.Tail? && pc.done.Some?)
  }

  /** Program points of operations that are only entered while holding a graph. */
  predicate NeedsGraph(pc: Pc) {
    (pc.Waiting? || pc.Locked?) && (pc.sec.SetCwd? || pc.sec.ResolveObject?)
  }

  ghost predicate ThreadSlots(s: Fs, th: Thread) {
    && (BeforeInstall(th.pc) ==> s.slots.next.Some?)
    && (AfterInstall(th.pc) ==> s.slots.active.Some?)
    && (th.pc.Tail? && th.pc.ret.Some? ==> s.slots.active.Some?)
    && (th.held != multiset{} ==> s.slots.active.Some?)
    && (NeedsGraph(th.pc) ==> th.held != multiset{})
    && (th.pc.Dropped? && th.pc.job.RefreshForSet? ==> s.slots.active.Some?)
    && (th.pc.Dropped? && th.pc.job.RefreshForGet? ==> s.cwd.Some?)
  }

  ghost predicate SlotInv(s: Fs) {
    && (s.slots.previous.Some? ==> exists t :: 0 <= t < |s.threads| && AfterInstall(s.threads[t].pc))
    && (s.slots.active.Some? ==> s.slots.active != s.slots.next)
    && (s.cwd.Some? ==> s.slots.active.Some?)
    && (forall t :: 0 <= t < |s.threads| ==> ThreadSlots(s, s.threads[t]))
  }

  /** How a step can change the slots. */
  predicate SlotMove(s: Fs, pc: Pc, e: Effect) {
    var sl, sl' := s.slots, e.slots;
    && (s.cwd.Some? ==> e.cwd.Some?)
    && (|| (sl'.active == sl.active && sl'.next == sl.next && sl'.previous == sl.previous
        && (AfterInstall(e.thread.pc) <==> AfterInstall(pc)) && (e.cwd.Some? ==> s.cwd.Some? || sl.active.Some?))
    || (pc.Install? && sl'.active == sl.next && sl'.next.None? && sl'.previous == sl.active
        && AfterInstall(e.thread.pc) && e.cwd == s.cwd)
    || (pc.Tail? && sl'.active == sl.active && sl'.next == sl.next && sl'.previous.None? && e.cwd == s.cwd)
    || (pc.Locked? && pc.sec.Setup? && sl'.active == sl.active && sl'.previous == sl.previous
        && sl'.next.Some? && sl.active != sl'.next && e.cwd == s.cwd
        && !AfterInstall(pc) && !AfterInstall(e.thread.pc)))
  }

  lemma BeginSlotMoves(s: Fs, th: Thread, a: Action)
    requires !a.Proceed? && th.pc.Idle? && CanCall(s, th, a) && ThreadSlots(s, th)
    ensures var e := Begin(s, th, a); SlotMove(s, th.pc, e)
  {
  }

  lemma LockedSlotMoves(s: Fs, th: Thread, outcome: Outcome)
    requires th.pc.Locked? && Defined(s, th.pc) && ThreadSlots(s, th)
    ensures var e := RunLocked(s, th, th.pc.sec, outcome); SlotMove(s, th.pc, e)
  {
  }

  lemma DroppedSlotMoves(s: Fs, t: nat, th: Thread, outcome: Outcome)
    requires th.pc.Dropped? && Defined(s, th.pc) && ThreadSlots(s, th)
    ensures var e := RunDropped(s, t, th, th.pc.job, outcome); SlotMove(s, th.pc, e)
  {
  }

  lemma SwitchSlotMoves(s: Fs, th: Thread)
    requires Switching(th.pc) && Defined(s, th.pc) && ThreadSlots(s, th)
    ensures var e := RunSwitch(s, th); SlotMove(s, th.pc, e)
  {
  }

  lemma StepSlotMoves(s: Fs, t: nat, a: Action)
    requires Enabled(s, t, a) && ThreadSlots(s, s.threads[t])
    ensures var e := StepEffect(s, t, a); SlotMove(s, s.threads[t].pc, e)
  {
    hide Begin, RunLocked, RunDropped, RunSwitch;
    var th := s.threads[t];
    if !a.Proceed? {
      BeginSlotMoves(s, th, a);
    } else if th.pc.Locked? {
      LockedSlotMoves(s, th, a.outcome);
    } else if th.pc.Dropped? {
      DroppedSlotMoves(s, t, th, a.outcome);
    } else if Switching(th.pc) {
      SwitchSlotMoves(s, th);
    }
  }

  lemma BeginKeeps(s: Fs, th: Thread, a: Action)
    requires !a.Proceed? && th.pc.Idle? && CanCall(s, th, a)
    ensures var e := Begin(s, th, a);
            && e.slots == s.slots && e.cwd == s.cwd && (e.thread.pc.Idle? || e.thread.pc.Waiting?)
            && (e.thread.held != multiset{} ==> th.held != multiset{})
            && (NeedsGraph(e.thread.pc) ==> e.thread.held == th.held != multiset{})
  {
    hide Ref, Unref, Total, HasFd;
  }

  lemma BeginThreadSlots(s: Fs, th: Thread, a: Action)
    requires !a.Proceed? && th.pc.Idle? && CanCall(s, th, a) && ThreadSlots(s, th)
    ensures var e := Begin(s, th, a); ThreadSlots(s.(slots := e.slots, cwd := e.cwd), e.thread)
  {
    hide Begin, CanCall;
    BeginKeeps(s, th, a);
  }

  lemma LockedThreadSlots(s: Fs, th: Thread, outcome: Outcome)
    requires th.pc.Locked? && Defined(s, th.pc) && ThreadSlots(s, th)
    ensures var e := RunLocked(s, th, th.pc.sec, outcome); ThreadSlots(s.(slots := e.slots, cwd := e.cwd), e.thread)
  {
  }

  lemma DroppedThreadSlots(s: Fs, t: nat, th: Thread, outcome: Outcome)
    requires th.pc.Dropped? && Defined(s, th.pc) && ThreadSlots(s, th)
    ensures var e := RunDropped(s, t, th, th.pc.job, outcome); ThreadSlots(s.(slots := e.slots, cwd := e.cwd), e.thread)
  {
  }

  lemma TailThreadSlots(s: Fs, th: Thread)
    requires th.pc.Tail? && ThreadSlots(s, th)
    ensures var e := RunTail(s, th, th.pc.ret); ThreadSlots(s.(slots := e.slots, cwd := e.cwd), e.thread)
  {
    hide Total;
  }

  lemma SwitchThreadSlots(s: Fs, th: Thread)
    requires Switching(th.pc) && Defined(s, th.pc) && ThreadSlots(s, th)
    ensures var e := RunSwitch(s, th); ThreadSlots(s.(slots := e.slots, cwd := e.cwd), e.thread)
  {
    hide Unref, SetFd, RunTail, Total;
    if th.pc.Tail? {
      TailThreadSlots(s, th);
    }
  }

  lemma StepThreadSlots(s: Fs, t: nat, a: Action)
    requires Enabled(s, t, a) && ThreadSlots(s, s.threads[t])
    ensures var e := StepEffect(s, t, a); ThreadSlots(s.(slots := e.slots, cwd := e.cwd), e.thread)
  {
    hide Begin, RunLocked, RunDropped, RunSwitch;
    var th := s.threads[t];
    if !a.Proceed? {
      BeginThreadSlots(s, th, a);
    } else if th.pc.Locked? {
      LockedThreadSlots(s, th, a.outcome);
    } else if th.pc.Dropped? {
      DroppedThreadSlots(s, t, th, a.outcome);
    } else if Switching(th.pc) {
      SwitchThreadSlots(s, th);
    }
  }

  lemma OtherThreadSlots(s: Fs, t: nat, u: nat, e: Effect)
    requires LockInv(s) && SlotInv(s) && t < |s.threads| && u < |s.threads| && u != t
    requires SlotMove(s, s.threads[t].pc, e)
    ensures ThreadSlots(s.(slots := e.slots, cwd := e.cwd), s.threads[u])
  {
    assert ThreadSlots(s, s.threads[u]);
    if BeforeInstall(s.threads[u].pc) {
      assert InSection(s.threads[u].pc) && !InSection(s.threads[t].pc);
    }
  }

  lemma PreviousOwned(s: Fs, t: nat, a: Action)
    requires SlotInv(s) && Enabled(s, t, a)
    requires SlotMove(s, s.threads[t].pc, StepEffect(s, t, a)) && Apply(s, t, a).slots.previous.Some?
    ensures var s' := Apply(s, t, a); exists u :: 0 <= u < |s'.threads| && AfterInstall(s'.threads[u].pc)
  {
    hide StepEffect, ThreadSlots;
    var s' := Apply(s, t, a);
    if AfterInstall(s'.threads[t].pc) {
    } else {
      var u :| 0 <= u < |s.threads| && AfterInstall(s.threads[u].pc);
      assert AfterInstall(s'.threads[u].pc);
    }
  }

  lemma SlotStep(s: Fs, t: nat, a: Action)
    requires LockInv(s) && SlotInv(s) && Enabled(s, t, a)
    ensures SlotInv(Apply(s, t, a))
  {
    StepSlotMoves(s, t, a);
    StepThreadSlots(s, t, a);
    var s', e := Apply(s, t, a), StepEffect(s, t, a);
    hide StepEffect, LockInv;
    if s'.slots.previous.Some? {
      PreviousOwned(s, t, a);
    }
    var frame := s.(slots := e.slots, cwd := e.cwd);
    forall u | 0 <= u < |s'.threads|
      ensures ThreadSlots(s', s'.threads[u])
    {
      if u != t {
        OtherThreadSlots(s, t, u, e);
      }
      SameSlots(frame, s', s'.threads[u]);
    }
  }

  lemma SameSlots(s: Fs, s': Fs, th: Thread)
    requires ThreadSlots(s, th) && s'.slots == s.slots && s'.cwd == s.cwd
    ensures ThreadSlots(s', th)
  {
  }

  // ----- the counts -----

  /** The reference a thread has taken over and will give back by `glfs_subvol_done`. */
  function PcRefs(pc: Pc, g: Graph): nat {
    if pc == Waiting(Release(g)) || pc == Locked(Release(g)) then 1 else 0
  }

  function ThreadRefs(th: Thread, g: Graph): nat {
    th.held[g] + PcRefs(th.pc, g)
  }

  function RefsOn(g: Graph): Thread -> nat {
    th => ThreadRefs(th, g)
  }

  function SlotRefs(sl: Slots, g: Graph): nat {
    (if sl.active == Some(g) then 1 else 0) + (if sl.next == Some(g) then 1 else 0)
    + (if sl.previous == Some(g) then 1 else 0)
  }

  /** `winds` counts the slots naming the graph, the operations holding it and the pending releases. */
  ghost predicate WindsInv(s: Fs) {
    forall g: Graph :: Winds(s.slots, g) == SlotRefs(s.slots, g) + Total(s.threads, RefsOn(g))
  }

  /** A step moves `winds` exactly as it moves the references. */
  predicate Balanced(sl: Slots, th: Thread, sl': Slots, th': Thread, g: Graph) {
    Winds(sl', g) - SlotRefs(sl', g) - ThreadRefs(th', g) == Winds(sl, g) - SlotRefs(sl, g) - ThreadRefs(th, g)
  }

  lemma BeginBalanced(s: Fs, th: Thread, a: Action, g: Graph)
    requires !a.Proceed? && th.pc.Idle? && CanCall(s, th, a)
    ensures var e := Begin(s, th, a); Balanced(s.slots, th, e.slots, e.thread, g)
  {
  }

  lemma LockedBalanced(s: Fs, th: Thread, outcome: Outcome, g: Graph)
    requires th.pc.Locked? && Defined(s, th.pc)
    ensures var e := RunLocked(s, th, th.pc.sec, outcome); Balanced(s.slots, th, e.slots, e.thread, g)
  {
  }

  lemma DroppedBalanced(s: Fs, t: nat, th: Thread, outcome: Outcome, g: Graph)
    requires th.pc.Dropped? && Defined(s, th.pc)
    ensures var e := RunDropped(s, t, th, th.pc.job, outcome); Balanced(s.slots, th, e.slots, e.thread, g)
  {
  }

  lemma TailBalanced(s: Fs, th: Thread, g: Graph)
    requires th.pc.Tail?
    ensures var e := RunTail(s, th, th.pc.ret); Balanced(s.slots, th, e.slots, e.thread, g)
  {
    hide Total;
  }

  lemma SwitchBalanced(s: Fs, th: Thread, g: Graph)
    requires Switching(th.pc) && Defined(s, th.pc) && (th.pc.Install? ==> s.slots.previous.None?)
    ensures var e := RunSwitch(s, th); Balanced(s.slots, th, e.slots, e.thread, g)
  {
    hide Unref, SetFd, RunTail, Total;
    if th.pc.Tail? {
      TailBalanced(s, th, g);
    }
  }

  lemma StepBalanced(s: Fs, t: nat, a: Action, g: Graph)
    requires Enabled(s, t, a) && (s.threads[t].pc.Install? ==> s.slots.previous.None?)
    ensures var e := StepEffect(s, t, a); Balanced(s.slots, s.threads[t], e.slots, e.thread, g)
  {
    hide Begin, RunLocked, RunDropped, RunSwitch;
    var th := s.threads[t];
    if !a.Proceed? {
      BeginBalanced(s, th, a, g);
    } else if th.pc.Locked? {
      LockedBalanced(s, th, a.outcome, g);
    } else if th.pc.Dropped? {
      DroppedBalanced(s, t, th, a.outcome, g);
    } else if Switching(th.pc) {
      SwitchBalanced(s, th, g);
    }
  }

  lemma WindsStep(s: Fs, t: nat, a: Action)
    requires LockInv(s) && SlotInv(s) && WindsInv(s) && Enabled(s, t, a)
    ensures WindsInv(Apply(s, t, a))
  {
    hide StepEffect;
    var s' := Apply(s, t, a);
    forall g: Graph
      ensures Winds(s'.slots, g) == SlotRefs(s'.slots, g) + Total(s'.threads, RefsOn(g))
    {
      StepBalanced(s, t, a, g);
      TotalUpdate(s.threads, t, s'.threads[t], RefsOn(g));
    }
  }
}
