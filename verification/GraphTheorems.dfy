/** The main results about graph switching, for every run of any number of threads. */
module GraphTheorems {
  import opened Common
  import opened GraphModel
  import opened GraphLock
  import opened GraphWinds
  import opened GraphFds
  import opened GraphFiles
  import opened GraphSwitch
  import opened GraphRuns

  // ----- counting -----

  /** `winds` is the slots naming a graph, plus the operations holding it, plus the pending releases. */
  lemma WindsConserved(run: seq<Fs>, moves: seq<Move>, k: nat, g: Graph)
    requires IsRun(run, moves) && k < |run|
    ensures Winds(run[k].slots, g) == SlotRefs(run[k].slots, g) + Total(run[k].threads, RefsOn(g))
  {
    RunInv(run, moves, k);
  }

  /** An fd's count is the glfds on it plus the references handed out; a live glfd keeps its fd alive. */
  lemma FdRefsConserved(run: seq<Fs>, moves: seq<Move>, k: nat)
    requires IsRun(run, moves) && k < |run|
    ensures forall f: nat ::
      Refs(run[k].files, f) == Total(run[k].files.glfds, UsesOf(f)) + Total(run[k].threads, HoldsOf(f))
    ensures forall i :: 0 <= i < |run[k].files.glfds| && run[k].files.glfds[i].fd.Some? ==>
      HasFd(run[k].files, i) && run[k].files.fds[FdOf(run[k].files, i)].refs >= 1
  {
    RunInv(run, moves, k);
    forall i | 0 <= i < |run[k].files.glfds| && run[k].files.glfds[i].fd.Some?
      ensures HasFd(run[k].files, i) && run[k].files.fds[FdOf(run[k].files, i)].refs >= 1
    {
      LiveFd(run[k], i);
    }
  }

  // ----- exclusion -----

  /** Two threads are never inside `glfs_lock` sections at once, although the mutex is dropped there. */
  lemma OneInside(run: seq<Fs>, moves: seq<Move>, k: nat, t: nat, u: nat)
    requires IsRun(run, moves) && k < |run| && t < |run[k].threads| && u < |run[k].threads|
    requires InSection(run[k].threads[t].pc) && InSection(run[k].threads[u].pc)
    ensures t == u
  {
    RunInv(run, moves, k);
  }

  /** While a thread is inside a section, nobody else changes the open files, the cwd or the active graph. */
  lemma SectionIsStable(run: seq<Fs>, moves: seq<Move>, k: nat, t: nat)
    requires IsRun(run, moves) && k < |moves| && t < |run[k].threads|
    requires InSection(run[k].threads[t].pc) && moves[k].thread != t
    ensures run[k + 1].files.openfds == run[k].files.openfds
    ensures run[k + 1].cwd == run[k].cwd && run[k + 1].slots.active == run[k].slots.active
    ensures forall i :: i in run[k].files.openfds ==>
      HasFd(run[k].files, i) && HasFd(run[k + 1].files, i) && FdOf(run[k + 1].files, i) == FdOf(run[k].files, i)
  {
    RunInv(run, moves, k);
    RunInv(run, moves, k + 1);
    assert Joined(run[k], moves[k], run[k + 1]);
    var u := moves[k].thread;
    assert !InSection(run[k].threads[u].pc);
    StepOutside(run[k], u, moves[k].action);
    hide StepEffect;
    forall i | i in run[k].files.openfds
      ensures HasFd(run[k].files, i) && HasFd(run[k + 1].files, i) && FdOf(run[k + 1].files, i) == FdOf(run[k].files, i)
    {
      assert PcFiles(run[k].files, run[k].threads[u].pc);
      assert run[k + 1].files.glfds[i] == run[k].files.glfds[i];
    }
  }

  // ----- teardown -----

  /** No slot names `g`, no operation holds it, no release of it is pending and no switch leads to it. */
  ghost predicate Unreferenced(s: Fs, g: Graph) {
    && SlotRefs(s.slots, g) == 0
    && (forall u :: 0 <= u < |s.threads| ==> ThreadRefs(s.threads[u], g) == 0)
    && (forall u :: 0 <= u < |s.threads| && SwitchOf(s.threads[u].pc).Some? ==>
          SwitchOf(s.threads[u].pc).value.graph != g)
  }

  lemma ZeroIsUnreferenced(s: Fs, g: Graph)
    requires Inv(s) && Winds(s.slots, g) <= 0
    ensures Unreferenced(s, g)
  {
    ZeroIsFree(s, g);
    forall u | 0 <= u < |s.threads| && SwitchOf(s.threads[u].pc).Some?
      ensures SwitchOf(s.threads[u].pc).value.graph != g
    {
      CapturedAlive(s, u);
    }
  }

  /**
    The release that takes a graph's count to 0 happens when no slot names the
    graph, no operation holds it and no other release is pending.
  */
  lemma TeardownIsSafe(run: seq<Fs>, moves: seq<Move>, k: nat, g: Graph)
    requires IsRun(run, moves) && k < |moves|
    requires Decided(run[k + 1].slots, g) != Decided(run[k].slots, g)
    ensures Decided(run[k + 1].slots, g) == Decided(run[k].slots, g) + 1
    ensures Winds(run[k + 1].slots, g) == 0 && Unreferenced(run[k + 1], g)
  {
    hide Inv;
    RunInv(run, moves, k + 1);
    assert Joined(run[k], moves[k], run[k + 1]);
    StepDecides(run[k], moves[k].thread, moves[k].action);
    hide StepEffect;
    ZeroIsUnreferenced(run[k + 1], g);
  }

  /** The assertion before PARENT_DOWN never fails. */
  lemma AssertionHolds(run: seq<Fs>, moves: seq<Move>, k: nat, t: nat)
    requires IsRun(run, moves) && k < |run| && t < |run[k].threads|
    requires run[k].threads[t].pc.Decide? && run[k].threads[t].pc.ref == 0
    ensures run[k].threads[t].pc.seen != Some(run[k].threads[t].pc.g)
  {
    RunInv(run, moves, k);
  }

  /** The graph whose count the end of the section will raise. */
  function Captured(pc: Pc): Option<Graph> {
    if pc.Tail? then pc.ret
    else if SwitchOf(pc).Some? then Some(SwitchOf(pc).value.graph)
    else None
  }

  /** Switched away from, in no slot, and not being switched to. */
  ghost predicate Retired(s: Fs, g: Graph) {
    && g in s.slots.switched && SlotRefs(s.slots, g) == 0
    && forall t :: 0 <= t < |s.threads| ==> Captured(s.threads[t].pc) != Some(g)
  }

  function Alive(sl: Slots, g: Graph): nat {
    if Winds(sl, g) > 0 then 1 else 0
  }

  predicate RetireMove(sl: Slots, sl': Slots, pc': Pc, g: Graph) {
    && g in sl'.switched && SlotRefs(sl', g) == 0 && Captured(pc') != Some(g)
    && Winds(sl', g) <= Winds(sl, g)
    && Decided(sl', g) + Alive(sl', g) <= Decided(sl, g) + Alive(sl, g)
  }

  lemma BeginRetired(s: Fs, th: Thread, a: Action, g: Graph)
    requires !a.Proceed? && th.pc.Idle? && CanCall(s, th, a)
    requires g in s.slots.switched && SlotRefs(s.slots, g) == 0
    ensures var e := Begin(s, th, a); RetireMove(s.slots, e.slots, e.thread.pc, g)
  {
  }

  lemma LockedRetired(s: Fs, th: Thread, outcome: Outcome, g: Graph)
    requires th.pc.Locked? && Defined(s, th.pc) && g in s.slots.switched && SlotRefs(s.slots, g) == 0
    requires th.pc == Locked(Release(g)) ==> Winds(s.slots, g) > 0
    ensures var e := RunLocked(s, th, th.pc.sec, outcome); RetireMove(s.slots, e.slots, e.thread.pc, g)
  {
  }

  lemma DroppedRetired(s: Fs, t: nat, th: Thread, outcome: Outcome, g: Graph)
    requires th.pc.Dropped? && Defined(s, th.pc)
    requires g in s.slots.switched && SlotRefs(s.slots, g) == 0 && Captured(th.pc) != Some(g)
    ensures var e := RunDropped(s, t, th, th.pc.job, outcome); RetireMove(s.slots, e.slots, e.thread.pc, g)
  {
  }

  lemma SwitchRetired(s: Fs, th: Thread, g: Graph)
    requires Switching(th.pc) && Defined(s, th.pc)
    requires g in s.slots.switched && SlotRefs(s.slots, g) == 0 && Captured(th.pc) != Some(g)
    ensures var e := RunSwitch(s, th); RetireMove(s.slots, e.slots, e.thread.pc, g)
  {
  }

  lemma StepRetired(s: Fs, t: nat, a: Action, g: Graph)
    requires Inv(s) && Enabled(s, t, a) && Retired(s, g)
    ensures var e := StepEffect(s, t, a); RetireMove(s.slots, e.slots, e.thread.pc, g)
  {
    hide Begin, RunLocked, RunDropped, RunSwitch, FilesInv, SwitchInv, CaptureInv, RetireMove;
    var th := s.threads[t];
    if !a.Proceed? {
      BeginRetired(s, th, a, g);
    } else if th.pc.Locked? {
      if th.pc == Locked(Release(g)) {
        TotalAtLeast(s.threads, t, RefsOn(g));
      }
      LockedRetired(s, th, a.outcome, g);
    } else if th.pc.Dropped? {
      DroppedRetired(s, t, th, a.outcome, g);
    } else if Switching(th.pc) {
      SwitchRetired(s, th, g);
    } else {
      RestRetired(s, t, th, a.outcome, g);
    }
  }

  lemma RestRetired(s: Fs, t: nat, th: Thread, outcome: Outcome, g: Graph)
    requires !Switching(th.pc) && !th.pc.Locked? && !th.pc.Dropped? && !th.pc.Idle?
    requires LockReady(s.lock, t, th.pc) && Defined(s, th.pc)
    requires g in s.slots.switched && SlotRefs(s.slots, g) == 0 && Captured(th.pc) != Some(g)
    ensures var e := Continue(s, t, th, outcome); RetireMove(s.slots, e.slots, e.thread.pc, g)
  {
    hide RunLocked, RunDropped, RunSwitch;
  }

  lemma RetiredStep(s: Fs, t: nat, a: Action, g: Graph)
    requires Inv(s) && Enabled(s, t, a) && Retired(s, g)
    ensures var s' := Apply(s, t, a);
            && Retired(s', g) && Winds(s'.slots, g) <= Winds(s.slots, g)
            && Decided(s'.slots, g) + Alive(s'.slots, g) <= Decided(s.slots, g) + Alive(s.slots, g)
  {
    StepRetired(s, t, a, g);
    hide StepEffect, Inv, Enabled;
  }

  /** A retired graph stays retired, its count never rises and it is torn down at most once more. */
  lemma {:induction false} RetiredForGood(run: seq<Fs>, moves: seq<Move>, j: nat, k: nat, g: Graph)
    requires IsRun(run, moves) && j <= k < |run| && Retired(run[j], g)
    ensures Retired(run[k], g) && Winds(run[k].slots, g) <= Winds(run[j].slots, g)
    ensures Decided(run[k].slots, g) <= Decided(run[j].slots, g) + 1
    ensures Decided(run[k].slots, g) + Alive(run[k].slots, g) <= Decided(run[j].slots, g) + Alive(run[j].slots, g)
    decreases k - j
  {
    hide Inv, Retired, Apply, Enabled, Initial;
    if j < k {
      RetiredForGood(run, moves, j, k - 1, g);
      RunInv(run, moves, k - 1);
      assert Joined(run[k - 1], moves[k - 1], run[k]);
      RetiredStep(run[k - 1], moves[k - 1].thread, moves[k - 1].action, g);
    }
  }

  // ----- a completed switch -----

  /**
    When the section of a successful switch ends: the walk has visited every
    bound glfd exactly once; each is in the captured graph, has no gfid yet, or
    failed to migrate; and the cwd has kept its gfid and lies in the active graph
    unless a newer graph took the slot and refused it.
  */
  lemma SwitchCompletes(run: seq<Fs>, moves: seq<Move>, k: nat, t: nat)
    requires IsRun(run, moves) && k < |run| && t < |run[k].threads|
    requires run[k].threads[t].pc.Tail? && run[k].threads[t].pc.done.Some?
    ensures var s, sw := run[k], run[k].threads[t].pc.done.value;
            && run[k].threads[t].pc.ret == Some(sw.graph)
            && sw.visited == s.files.openfds == sw.fds0 && Distinct(sw.visited)
            && (forall i :: i in s.files.openfds ==>
                  && HasFd(s.files, i)
                  && var inode := s.files.fds[FdOf(s.files, i)].inode;
                     inode.gfid == NULL_GFID || inode.graph == sw.graph || i in sw.failed)
            && CwdSettled(s, sw)
            && (s.slots.arrivals == sw.arrivals0 ==>
                  && s.slots.active == Some(sw.graph)
                  && s.cwd == (if sw.cwd0.Some? then Some(Inode(sw.graph, sw.cwd0.value.gfid)) else None))
  {
    RunInv(run, moves, k);
    var s, sw := run[k], run[k].threads[t].pc.done.value;
    assert PhaseOk(s, s.threads[t].pc, sw);
    forall i | i in s.files.openfds
      ensures Settled(s.files, i, sw)
    {
      var n :| 0 <= n < |s.files.openfds| && s.files.openfds[n] == i;
      assert Settled(s.files, s.files.openfds[n], sw);
    }
  }

  /** From the capture to the end of the section the graph being switched to cannot lose its last reference. */
  lemma CapturedStaysAlive(run: seq<Fs>, moves: seq<Move>, k: nat, t: nat)
    requires IsRun(run, moves) && k < |run| && t < |run[k].threads|
    requires BeforeInstall(run[k].threads[t].pc) || AfterInstall(run[k].threads[t].pc)
    ensures Winds(run[k].slots, SwitchOf(run[k].threads[t].pc).value.graph) >= 1
  {
    RunInv(run, moves, k);
    CapturedAlive(run[k], t);
  }

  // ----- fds over a chain of graphs -----

  lemma StepGrows(s: Fs, t: nat, a: Action)
    requires Inv(s) && Enabled(s, t, a)
    ensures Grows(s.files, Apply(s, t, a).files)
  {
    StepFiles(s, t, a);
    hide StepEffect;
  }

  /** What a glfd was opened as, and what an fd is, never changes. */
  lemma {:induction false} OriginKept(run: seq<Fs>, moves: seq<Move>, j: nat, k: nat)
    requires IsRun(run, moves) && j <= k < |run|
    ensures Grows(run[j].files, run[k].files)
    decreases k - j
  {
    hide Inv, Grows, Apply, Enabled, Initial;
    GrowsSelf(run[k].files);
    if j < k {
      OriginKept(run, moves, j, k - 1);
      RunInv(run, moves, k - 1);
      assert Joined(run[k - 1], moves[k - 1], run[k]);
      StepGrows(run[k - 1], moves[k - 1].thread, moves[k - 1].action);
      GrowsTransitive(run[j].files, run[k - 1].files, run[k].files);
    }
  }

  /**
    An fd handed out by `glfs_resolve_fd` is in the requested graph, with the
    gfid and the flags the glfd had when it was created, however many graphs
    came and went in between.
  */
  lemma ResolvedFd(run: seq<Fs>, moves: seq<Move>, j: nat, k: nat, t: nat)
    requires IsRun(run, moves) && j <= k < |run| && t < |run[k].threads|
    requires run[k].threads[t].pc.Leave? && run[k].threads[t].pc.out.GotFd?
    requires run[k].threads[t].pc.out.glfd < |run[j].files.glfds|
    ensures var out, glfd := run[k].threads[t].pc.out, run[j].files.glfds[run[k].threads[t].pc.out.glfd];
            && out.fd < |run[k].files.fds|
            && run[k].files.fds[out.fd].inode == Inode(out.g, glfd.gfid)
            && run[k].files.fds[out.fd].flags == glfd.flags && run[k].files.fds[out.fd].dir == glfd.dir
            && run[k].files.fds[out.fd].refs >= 1
  {
    RunInv(run, moves, k);
    OriginKept(run, moves, j, k);
    assert PcFiles(run[k].files, run[k].threads[t].pc);
    LiveHold(run[k], t, run[k].threads[t].pc.out.fd);
  }

  /** No open sent during a migration carries O_TRUNC, O_EXCL or O_CREAT; nothing else is dropped. */
  lemma ReopensAreSafe(run: seq<Fs>, moves: seq<Move>, k: nat, n: nat)
    requires IsRun(run, moves) && k < |run| && n < |run[k].files.reopens|
    ensures var r := run[k].files.reopens[n];
            r.flags !! CREATION_FLAGS && (!r.dir ==> r.flags == r.glfdFlags - CREATION_FLAGS)
  {
    RunInv(run, moves, k);
    assert ReopenOk(run[k].files.reopens[n]);
  }

  /** The inode handed out for an object lies in the requested graph exactly when that graph is active
      or the object was there already. */
  lemma ResolvedObject(run: seq<Fs>, moves: seq<Move>, k: nat, t: nat)
    requires IsRun(run, moves) && k < |run| && t < |run[k].threads|
    requires run[k].threads[t].pc.Leave? && run[k].threads[t].pc.out.GotInode?
    ensures var out := run[k].threads[t].pc.out;
            && out.inode.gfid == out.handle.gfid
            && (out.inode.graph == out.g <==> out.handle.graph == out.g || run[k].slots.active == Some(out.g))
  {
    RunInv(run, moves, k);
    assert InodeOk(run[k], run[k].threads[t].pc);
  }

  // ----- progress -----

  /** No step of a thread inside the library ever follows a bad pointer or index. */
  lemma AlwaysDefined(s: Fs, t: nat)
    requires Inv(s) && t < |s.threads|
    ensures Defined(s, s.threads[t].pc)
  {
    var pc := s.threads[t].pc;
    assert PcFiles(s.files, pc) && ThreadSlots(s, s.threads[t]) && InodeOk(s, pc);
    if SwitchOf(pc).Some? {
      assert PhaseOk(s, pc, SwitchOf(pc).value);
    }
  }

  /** A thread whose next step does not have to wait: the mutex owner, the one inside a drop, or any. */
  ghost function Runnable(s: Fs, t: nat): (u: nat)
    requires LockInv(s) && s.lock.init && t < |s.threads| && !s.threads[t].pc.Idle?
    ensures u < |s.threads| && !s.threads[u].pc.Idle? && LockReady(s.lock, u, s.threads[u].pc)
  {
    if s.lock.mutex.Some? then s.lock.mutex.value
    else if s.lock.migrating then
      var u: nat :| u < |s.threads| && s.threads[u].pc.Dropped?;
      u
    else t
  }

  /**
    Once initialised the library never deadlocks on its mutex and its flag: if any thread is inside it, the next step
    of some thread does not have to wait for either.
  */
  lemma NoDeadlock(run: seq<Fs>, moves: seq<Move>, k: nat, t: nat)
    requires IsRun(run, moves) && k < |run| && run[k].lock.init
    requires t < |run[k].threads| && !run[k].threads[t].pc.Idle?
    ensures exists u: nat :: Enabled(run[k], u, Proceed(Ok))
  {
    RunInv(run, moves, k);
    var s := run[k];
    var u := Runnable(s, t);
    AlwaysDefined(s, u);
    assert Enabled(s, u, Proceed(Ok));
  }
}
