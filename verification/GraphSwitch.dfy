/** What a switch in progress has established so far, whatever the other threads do meanwhile. */
module GraphSwitch {
  import opened Common
  import opened GraphModel
  import opened GraphLock
  import opened GraphWinds
  import opened GraphFiles

  /** The switch a thread is carrying out, from the capture to the end of the section. */
  function SwitchOf(pc: Pc): Option<Switch> {
    match pc
    case Dropped(LookupRoot(sw)) => Some(sw)
    case Dropped(RefreshCwd(sw)) => Some(sw)
    case Dropped(MigrateOpen(sw)) => Some(sw)
    case Dropped(RefreshAgain(sw, _)) => Some(sw)
    case AfterLookup(sw) => Some(sw)
    case WalkFds(sw) => Some(sw)
    case AfterOpen(sw, _) => Some(sw)
    case Install(sw) => Some(sw)
    case InstallCwd(sw) => Some(sw)
    case Tail(_, done) => done
    case _ => None
  }

  /** A glfd the walk is done with. */
  predicate Settled(fi: Files, i: nat, sw: Switch) {
    && HasFd(fi, i)
    && var inode := fi.fds[FdOf(fi, i)].inode;
       inode.gfid == NULL_GFID || inode.graph == sw.graph || i in sw.failed
  }

  /** The walk has gone through the list as it was at the capture, one by one, up to `pos`. */
  predicate Walked(fi: Files, sw: Switch) {
    && sw.fds0 == fi.openfds
    && sw.pos <= |fi.openfds| && sw.visited == fi.openfds[..sw.pos]
    && forall k :: 0 <= k < sw.pos ==> Settled(fi, fi.openfds[k], sw)
  }

  predicate NewCwdOk(sw: Switch) {
    sw.newCwd == if sw.cwd0.Some? then Some(Inode(sw.graph, sw.cwd0.value.gfid)) else None
  }

  /** How the cwd stands when the section ends. */
  predicate CwdSettled(s: Fs, sw: Switch) {
    if sw.cwd0.None? then s.cwd.None?
    else
      && s.cwd.Some? && s.cwd.value.gfid == sw.cwd0.value.gfid
      && (s.slots.active == Some(s.cwd.value.graph) || (s.slots.active != Some(sw.graph) && s.cwd == sw.cwd0))
  }

  predicate PhaseOk(s: Fs, pc: Pc, sw: Switch) {
    && Walked(s.files, sw)
    && sw.arrivals0 <= s.slots.arrivals
    && (BeforeInstall(pc) ==>
          && s.cwd == sw.cwd0
          && (s.slots.arrivals == sw.arrivals0 ==> s.slots.next == Some(sw.graph)))
    && (AfterInstall(pc) ==>
          && sw.pos == |s.files.openfds| && NewCwdOk(sw)
          && (s.slots.arrivals == sw.arrivals0 ==> s.slots.active == Some(sw.graph)))
    && match pc
       case Dropped(LookupRoot(_)) => sw.pos == 0 && sw.newCwd.None?
       case AfterLookup(_) => sw.pos == 0 && sw.newCwd.None?
       case Dropped(RefreshCwd(_)) => sw.pos == 0 && s.cwd.Some?
       case Dropped(MigrateOpen(_)) => NewCwdOk(sw) && sw.pos < |s.files.openfds|
       case WalkFds(_) => NewCwdOk(sw)
       case AfterOpen(_, _) => NewCwdOk(sw) && sw.pos < |s.files.openfds|
       case Install(_) => NewCwdOk(sw) && sw.pos == |s.files.openfds|
       case InstallCwd(_) => s.cwd == sw.cwd0 && sw.cwd0.Some?
       case Dropped(RefreshAgain(_, target)) =>
         s.cwd == sw.cwd0 && sw.cwd0.Some? && s.slots.active == Some(target) && target != sw.graph
       case Tail(ret, _) => ret == Some(sw.graph) && CwdSettled(s, sw)
       case _ => true
  }

  ghost predicate SwitchInv(s: Fs) {
    forall t :: 0 <= t < |s.threads| && SwitchOf(s.threads[t].pc).Some? ==>
      PhaseOk(s, s.threads[t].pc, SwitchOf(s.threads[t].pc).value)
  }

  // ----- steps of other threads -----

  /** What a step taken outside every `glfs_lock` section leaves alone. */
  ghost predicate OutsideMove(s: Fs, pc: Pc, e: Effect) {
    && e.files.openfds == s.files.openfds && |s.files.glfds| <= |e.files.glfds|
    && (forall i :: 0 <= i < |s.files.glfds| && pc != DestroyTail(i) ==> e.files.glfds[i] == s.files.glfds[i])
    && e.cwd == s.cwd && e.slots.active == s.slots.active && e.slots.previous == s.slots.previous
    && (|| (e.slots.next == s.slots.next && e.slots.arrivals == s.slots.arrivals)
        || (e.slots.next.Some? && e.slots.arrivals == s.slots.arrivals + 1
            && (s.slots.next.Some? ==> e.thread.pc == Waiting(Release(s.slots.next.value)))))
  }

  lemma BeginOutside(s: Fs, th: Thread, a: Action)
    requires !a.Proceed? && th.pc.Idle? && CanCall(s, th, a)
    ensures OutsideMove(s, th.pc, Begin(s, th, a))
  {
  }

  lemma StepOutside(s: Fs, t: nat, a: Action)
    requires Enabled(s, t, a) && !InSection(s.threads[t].pc)
    ensures OutsideMove(s, s.threads[t].pc, StepEffect(s, t, a))
  {
    hide Begin, RunDropped, RunSwitch;
    if !a.Proceed? {
      BeginOutside(s, s.threads[t], a);
    }
  }

  lemma OtherSwitch(s: Fs, t: nat, u: nat, s': Fs)
    requires FilesInv(s) && SwitchInv(s)
    requires t < |s.threads| && u < |s.threads| && u != t && !InSection(s.threads[t].pc)
    requires |s'.threads| == |s.threads| && s'.threads[u] == s.threads[u]
    requires SwitchOf(s.threads[u].pc).Some?
    requires FilesMove(s.files, s.threads[t].pc, s'.files, s'.threads[t].pc)
    requires OutsideMove(s, s.threads[t].pc, Effect(s'.lock, s'.slots, s'.files, s'.cwd, s'.threads[t]))
    ensures PhaseOk(s', s'.threads[u].pc, SwitchOf(s'.threads[u].pc).value)
  {
    var sw := SwitchOf(s.threads[u].pc).value;
    assert Walked(s'.files, sw) by {
      forall k | 0 <= k < sw.pos
        ensures Settled(s'.files, s'.files.openfds[k], sw)
      {
        var i := s.files.openfds[k];
        assert i in s.files.openfds && Settled(s.files, i, sw);
        assert s'.files.glfds[i] == s.files.glfds[i];
      }
    }
  }

  // ----- steps of the switching thread -----

  lemma LockedPhase(s: Fs, th: Thread, outcome: Outcome)
    requires th.pc.Locked? && Defined(s, th.pc)
    ensures var e := RunLocked(s, th, th.pc.sec, outcome);
            SwitchOf(e.thread.pc).Some? ==>
              PhaseOk(Fs(e.lock, e.slots, e.files, e.cwd, s.threads), e.thread.pc, SwitchOf(e.thread.pc).value)
  {
  }

  lemma MigrateWalked(fi: Files, sw: Switch, g: Graph, f: nat, outcome: Outcome)
    requires Walked(fi, sw) && f < |fi.fds|
    ensures Walked(MigrateFd(fi, g, f, outcome).files, sw)
  {
    var fi' := MigrateFd(fi, g, f, outcome).files;
    forall k | 0 <= k < sw.pos
      ensures Settled(fi', fi'.openfds[k], sw)
    {
      assert Settled(fi, fi.openfds[k], sw);
    }
  }

  lemma DroppedPhase(s: Fs, t: nat, th: Thread, outcome: Outcome)
    requires th.pc.Dropped? && Defined(s, th.pc)
    requires SwitchOf(th.pc).Some? ==> PhaseOk(s, th.pc, SwitchOf(th.pc).value)
    ensures var e := RunDropped(s, t, th, th.pc.job, outcome);
            SwitchOf(e.thread.pc).Some? ==>
              PhaseOk(Fs(e.lock, e.slots, e.files, e.cwd, s.threads), e.thread.pc, SwitchOf(e.thread.pc).value)
  {
    hide MigrateFd;
    if th.pc.job.MigrateOpen? {
      var sw := th.pc.job.sw;
      var f := FdOf(s.files, s.files.openfds[sw.pos]);
      MigrateWalked(s.files, sw, sw.graph, f, outcome);
      MigrateLists(s.files, sw.graph, f, outcome);
    }
  }

  lemma MigrateLists(fi: Files, g: Graph, f: nat, outcome: Outcome)
    requires f < |fi.fds|
    ensures MigrateFd(fi, g, f, outcome).files.openfds == fi.openfds
  {
  }

  /** One more glfd is settled when the walk takes it over. */
  lemma TakenWalked(s: Fs, th: Thread, sw: Switch, f: Option<nat>)
    requires th.pc == AfterOpen(sw, f) && Defined(s, th.pc) && FilesOk(s.files) && PcFiles(s.files, th.pc)
    requires Walked(s.files, sw)
    ensures var e := RunAfterOpen(s, th, sw, f); e.thread.pc.WalkFds? && Walked(e.files, e.thread.pc.sw)
  {
    var e := RunAfterOpen(s, th, sw, f);
    var sw' := e.thread.pc.sw;
    assert sw'.visited == s.files.openfds[..sw'.pos];
    forall k | 0 <= k < sw'.pos
      ensures Settled(e.files, e.files.openfds[k], sw')
    {
      if k < sw.pos {
        assert Settled(s.files, s.files.openfds[k], sw);
        assert s.files.openfds[k] != s.files.openfds[sw.pos];
      }
    }
  }

  lemma SwitchPhase(s: Fs, th: Thread)
    requires Switching(th.pc) && Defined(s, th.pc) && FilesOk(s.files) && PcFiles(s.files, th.pc)
    requires SwitchOf(th.pc).Some? ==> PhaseOk(s, th.pc, SwitchOf(th.pc).value)
    ensures var e := RunSwitch(s, th);
            SwitchOf(e.thread.pc).Some? ==>
              PhaseOk(Fs(e.lock, e.slots, e.files, e.cwd, s.threads), e.thread.pc, SwitchOf(e.thread.pc).value)
  {
    hide FilesOk, PcFiles;
    if th.pc.AfterOpen? {
      TakenWalked(s, th, th.pc.sw, th.pc.fd);
    } else if th.pc.WalkFds? && th.pc.sw.pos < |s.files.openfds| {
      var sw := th.pc.sw;
      assert s.files.openfds[..sw.pos + 1] == s.files.openfds[..sw.pos] + [s.files.openfds[sw.pos]];
    }
  }

  lemma StepPhase(s: Fs, t: nat, a: Action)
    requires Enabled(s, t, a) && FilesInv(s) && SwitchInv(s)
    ensures var e := StepEffect(s, t, a);
            SwitchOf(e.thread.pc).Some? ==>
              PhaseOk(Fs(e.lock, e.slots, e.files, e.cwd, s.threads), e.thread.pc, SwitchOf(e.thread.pc).value)
  {
    hide RunLocked, RunDropped, RunSwitch, PhaseOk, FilesOk, PcFiles;
    var th := s.threads[t];
    if a.Proceed? && th.pc.Locked? {
      LockedPhase(s, th, a.outcome);
    } else if a.Proceed? && th.pc.Dropped? {
      DroppedPhase(s, t, th, a.outcome);
    } else if a.Proceed? && Switching(th.pc) {
      SwitchPhase(s, th);
    }
  }

  lemma SwitchOther(s: Fs, t: nat, u: nat, a: Action)
    requires LockInv(s) && FilesInv(s) && SwitchInv(s) && Enabled(s, t, a)
    requires u < |s.threads| && u != t && SwitchOf(s.threads[u].pc).Some?
    ensures PhaseOk(Apply(s, t, a), s.threads[u].pc, SwitchOf(s.threads[u].pc).value)
  {
    StepFiles(s, t, a);
    hide StepEffect, FilesOk, PcFiles, FilesMove;
    assert InSection(s.threads[u].pc);
    StepOutside(s, t, a);
    OtherSwitch(s, t, u, Apply(s, t, a));
  }

  lemma SwitchStep(s: Fs, t: nat, a: Action)
    requires LockInv(s) && FilesInv(s) && SwitchInv(s) && Enabled(s, t, a)
    ensures SwitchInv(Apply(s, t, a))
  {
    StepPhase(s, t, a);
    hide StepEffect, FilesInv, LockInv, PhaseOk;
    var s' := Apply(s, t, a);
    forall u | 0 <= u < |s'.threads| && SwitchOf(s'.threads[u].pc).Some?
      ensures PhaseOk(s', s'.threads[u].pc, SwitchOf(s'.threads[u].pc).value)
    {
      if u == t {
        SameThreads(Fs(s'.lock, s'.slots, s'.files, s'.cwd, s.threads), s', s'.threads[t].pc);
      } else {
        SwitchOther(s, t, u, a);
      }
    }
  }

  lemma SameThreads(s: Fs, s': Fs, pc: Pc)
    requires SwitchOf(pc).Some? && PhaseOk(s, pc, SwitchOf(pc).value) && s' == s.(threads := s'.threads)
    ensures PhaseOk(s', pc, SwitchOf(pc).value)
  {
  }

  // ----- the captured graph -----

  predicate Pending(pc: Pc, g: Graph) {
    pc == Waiting(Release(g)) || pc == Locked(Release(g))
  }

  /** A thread is going to release `g`. */
  ghost predicate SomePending(ths: seq<Thread>, g: Graph) {
    exists u :: 0 <= u < |ths| && Pending(ths[u].pc, g)
  }

  /** The captured graph is still in its slot, or the release that would drop it is waiting for the lock. */
  ghost predicate CaptureOk(s: Fs, pc: Pc) {
    && (BeforeInstall(pc) ==>
          s.slots.next == Some(SwitchOf(pc).value.graph) || SomePending(s.threads, SwitchOf(pc).value.graph))
    && (AfterInstall(pc) ==>
          s.slots.active == Some(SwitchOf(pc).value.graph) || SomePending(s.threads, SwitchOf(pc).value.graph))
  }

  ghost predicate CaptureInv(s: Fs) {
    forall t :: 0 <= t < |s.threads| ==> CaptureOk(s, s.threads[t].pc)
  }

  /** How a step of the switching thread moves its own switch. */
  predicate OwnMove(s: Fs, pc: Pc, e: Effect) {
    && (BeforeInstall(e.thread.pc) ==>
          && e.slots.next == s.slots.next
          && ((BeforeInstall(pc) && SwitchOf(e.thread.pc).value.graph == SwitchOf(pc).value.graph)
              || e.slots.next == Some(SwitchOf(e.thread.pc).value.graph)))
    && (AfterInstall(e.thread.pc) ==>
          && SwitchOf(pc).Some? && SwitchOf(e.thread.pc).value.graph == SwitchOf(pc).value.graph
          && ((AfterInstall(pc) && e.slots.active == s.slots.active)
              || (BeforeInstall(pc) && e.slots.active == s.slots.next)))
  }

  lemma BeginOwn(s: Fs, th: Thread, a: Action)
    requires !a.Proceed? && th.pc.Idle? && CanCall(s, th, a)
    ensures OwnMove(s, th.pc, Begin(s, th, a))
  {
    hide Ref, Unref;
  }

  lemma RestOwn(s: Fs, t: nat, th: Thread, outcome: Outcome)
    requires !Switching(th.pc) && !th.pc.Locked? && !th.pc.Dropped? && !th.pc.Idle?
    requires LockReady(s.lock, t, th.pc) && Defined(s, th.pc)
    ensures OwnMove(s, th.pc, Continue(s, t, th, outcome))
  {
    hide RunLocked, RunDropped, RunSwitch, Ref, Unref, SetFd;
  }

  lemma LockedOwn(s: Fs, th: Thread, outcome: Outcome)
    requires th.pc.Locked? && Defined(s, th.pc)
    ensures OwnMove(s, th.pc, RunLocked(s, th, th.pc.sec, outcome))
  {
  }

  lemma DroppedOwn(s: Fs, t: nat, th: Thread, outcome: Outcome)
    requires th.pc.Dropped? && Defined(s, th.pc)
    ensures OwnMove(s, th.pc, RunDropped(s, t, th, th.pc.job, outcome))
  {
  }

  lemma SwitchOwn(s: Fs, th: Thread)
    requires Switching(th.pc) && Defined(s, th.pc)
    ensures OwnMove(s, th.pc, RunSwitch(s, th))
  {
  }

  lemma StepOwn(s: Fs, t: nat, a: Action)
    requires Enabled(s, t, a)
    ensures OwnMove(s, s.threads[t].pc, StepEffect(s, t, a))
  {
    hide Begin, RunLocked, RunDropped, RunSwitch, OwnMove;
    var th := s.threads[t];
    if !a.Proceed? {
      BeginOwn(s, th, a);
    } else if th.pc.Locked? {
      LockedOwn(s, th, a.outcome);
    } else if th.pc.Dropped? {
      DroppedOwn(s, t, th, a.outcome);
    } else if Switching(th.pc) {
      SwitchOwn(s, th);
    } else {
      RestOwn(s, t, th, a.outcome);
    }
  }

  /** Only the holder of a `glfs_lock` section can finish a release. */
  lemma PendingStays(s: Fs, t: nat, a: Action, g: Graph)
    requires Enabled(s, t, a) && SomePending(s.threads, g) && s.threads[t].pc != Locked(Release(g))
    ensures SomePending(Apply(s, t, a).threads, g)
  {
    var u :| 0 <= u < |s.threads| && Pending(s.threads[u].pc, g);
    assert Pending(Apply(s, t, a).threads[u].pc, g);
  }

  /** A pending release of a graph that a thread is switching to cannot go through. */
  lemma PendingKept(s: Fs, t: nat, u: nat, a: Action)
    requires LockInv(s) && Enabled(s, t, a) && u < |s.threads|
    requires BeforeInstall(s.threads[u].pc) || AfterInstall(s.threads[u].pc)
    requires SomePending(s.threads, SwitchOf(s.threads[u].pc).value.graph)
    ensures SomePending(Apply(s, t, a).threads, SwitchOf(s.threads[u].pc).value.graph)
  {
    hide StepEffect;
    assert InSection(s.threads[u].pc) && (u != t ==> !InSection(s.threads[t].pc));
    PendingStays(s, t, a, SwitchOf(s.threads[u].pc).value.graph);
  }

  lemma CaptureOwn(s: Fs, t: nat, a: Action)
    requires LockInv(s) && CaptureInv(s) && Enabled(s, t, a)
    ensures var s' := Apply(s, t, a); CaptureOk(s', s'.threads[t].pc)
  {
    StepOwn(s, t, a);
    var pc := s.threads[t].pc;
    if BeforeInstall(pc) || AfterInstall(pc) {
      if SomePending(s.threads, SwitchOf(pc).value.graph) {
        PendingKept(s, t, t, a);
      }
    }
    hide StepEffect, LockInv, SomePending;
    assert CaptureOk(s, pc);
  }

  lemma CaptureOther(s: Fs, t: nat, u: nat, a: Action)
    requires LockInv(s) && CaptureInv(s) && Enabled(s, t, a) && u < |s.threads| && u != t
    ensures var s' := Apply(s, t, a); CaptureOk(s', s'.threads[u].pc)
  {
    hide StepEffect;
    var s', pc := Apply(s, t, a), s.threads[u].pc;
    if BeforeInstall(pc) || AfterInstall(pc) {
      var g := SwitchOf(pc).value.graph;
      assert InSection(pc) && !InSection(s.threads[t].pc) && CaptureOk(s, pc);
      if SomePending(s.threads, g) {
        PendingKept(s, t, u, a);
      }
      StepOutside(s, t, a);
      if s'.slots.next != s.slots.next && s.slots.next == Some(g) {
        assert Pending(s'.threads[t].pc, g);
      }
    }
  }

  lemma CaptureStep(s: Fs, t: nat, a: Action)
    requires LockInv(s) && CaptureInv(s) && Enabled(s, t, a)
    ensures CaptureInv(Apply(s, t, a))
  {
    forall u | 0 <= u < |s.threads|
      ensures CaptureOk(Apply(s, t, a), Apply(s, t, a).threads[u].pc)
    {
      hide StepEffect, CaptureOk;
      if u == t {
        CaptureOwn(s, t, a);
      } else {
        CaptureOther(s, t, u, a);
      }
    }
  }

  /** A graph being switched to is referenced throughout, so no release can bring its count to 0. */
  lemma CapturedAlive(s: Fs, t: nat)
    requires WindsInv(s) && CaptureInv(s) && t < |s.threads|
    requires BeforeInstall(s.threads[t].pc) || AfterInstall(s.threads[t].pc)
    ensures Winds(s.slots, SwitchOf(s.threads[t].pc).value.graph) >= 1
  {
    var g := SwitchOf(s.threads[t].pc).value.graph;
    if SomePending(s.threads, g) {
      var u :| 0 <= u < |s.threads| && Pending(s.threads[u].pc, g);
      TotalAtLeast(s.threads, u, RefsOn(g));
    }
    assert Winds(s.slots, g) == SlotRefs(s.slots, g) + Total(s.threads, RefsOn(g));
  }
}
