/** Reference conservation for fds: every glfd owns one reference on its current fd. */
module GraphFds {
  import opened Common
  import opened GraphModel

  function Refs(fi: Files, f: nat): int {
    if f < |fi.fds| then fi.fds[f].refs else 0
  }

  function GlfdUses(glfd: Glfd, f: nat): nat {
    if glfd.fd == Some(f) then 1 else 0
  }

  function UsesOf(f: nat): Glfd -> nat {
    glfd => GlfdUses(glfd, f)
  }

  /** The reference a thread keeps in a local variable of the library. */
  function PcHolds(pc: Pc, f: nat): nat {
    match pc
    case AfterOpen(_, fd) => if fd == Some(f) then 1 else 0
    case AfterMigrate(_, _, fd) => if fd == Some(f) then 1 else 0
    case Leave(GotFd(_, _, fd)) => if fd == f then 1 else 0
    case _ => 0
  }

  function ThreadHolds(th: Thread, f: nat): nat {
    th.fds[f] + PcHolds(th.pc, f)
  }

  function HoldsOf(f: nat): Thread -> nat {
    th => ThreadHolds(th, f)
  }

  /** An fd's count is the number of glfds on it plus the references handed to threads. */
  ghost predicate FdRefsInv(s: Fs) {
    forall f: nat :: Refs(s.files, f) == Total(s.files.glfds, UsesOf(f)) + Total(s.threads, HoldsOf(f))
  }

  ghost function Surplus(fi: Files, th: Thread, f: nat): int {
    Refs(fi, f) - Total(fi.glfds, UsesOf(f)) - ThreadHolds(th, f)
  }

  /** A glfd that exists keeps its fd alive, and only fds that exist are referenced. */
  lemma LiveFd(s: Fs, i: nat)
    requires FdRefsInv(s) && i < |s.files.glfds| && s.files.glfds[i].fd.Some?
    ensures HasFd(s.files, i) && s.files.fds[FdOf(s.files, i)].refs >= 1
  {
    var f := s.files.glfds[i].fd.value;
    TotalAtLeast(s.files.glfds, i, UsesOf(f));
    assert Refs(s.files, f) >= 1;
  }

  lemma LiveHold(s: Fs, t: nat, f: nat)
    requires FdRefsInv(s) && t < |s.threads| && ThreadHolds(s.threads[t], f) > 0
    ensures f < |s.files.fds| && s.files.fds[f].refs >= 1
  {
    TotalAtLeast(s.threads, t, HoldsOf(f));
    assert Refs(s.files, f) >= 1;
  }

  /** Moving a glfd from one fd to another moves one use. */
  lemma SetFdUses(fi: Files, i: nat, fd: Option<nat>, f: nat)
    requires i < |fi.glfds|
    ensures Total(SetFd(fi, i, fd).glfds, UsesOf(f)) + GlfdUses(fi.glfds[i], f)
            == Total(fi.glfds, UsesOf(f)) + (if fd == Some(f) then 1 else 0)
  {
    TotalUpdate(fi.glfds, i, fi.glfds[i].(fd := fd), UsesOf(f));
  }

  lemma BeginSurplus(s: Fs, th: Thread, a: Action, f: nat)
    requires !a.Proceed? && th.pc.Idle? && CanCall(s, th, a)
    ensures var e := Begin(s, th, a); Surplus(e.files, e.thread, f) == Surplus(s.files, th, f)
  {
    var e := Begin(s, th, a);
    if a.CallOpen? || a.CallDup? {
      assert e.files.glfds == s.files.glfds + [e.files.glfds[|s.files.glfds|]];
      TotalAppend(s.files.glfds, e.files.glfds[|s.files.glfds|], UsesOf(f));
    }
  }

  lemma LockedSurplus(s: Fs, th: Thread, outcome: Outcome, f: nat)
    requires th.pc.Locked? && Defined(s, th.pc)
    ensures var e := RunLocked(s, th, th.pc.sec, outcome);
            Surplus(e.files, e.thread, f) == Surplus(s.files, th, f)
  {
  }

  lemma DroppedSurplus(s: Fs, t: nat, th: Thread, outcome: Outcome, f: nat)
    requires th.pc.Dropped? && Defined(s, th.pc)
    ensures var e := RunDropped(s, t, th, th.pc.job, outcome);
            Surplus(e.files, e.thread, f) == Surplus(s.files, th, f)
  {
  }

  lemma SwitchSurplus(s: Fs, th: Thread, f: nat)
    requires Switching(th.pc) && Defined(s, th.pc)
    ensures var e := RunSwitch(s, th); Surplus(e.files, e.thread, f) == Surplus(s.files, th, f)
  {
    if th.pc.AfterOpen? && th.pc.fd.Some? {
      var i := s.files.openfds[th.pc.sw.pos];
      SetFdUses(Unref(s.files, FdOf(s.files, i)), i, th.pc.fd, f);
    }
  }

  lemma AfterMigrateSurplus(s: Fs, th: Thread, f: nat)
    requires th.pc.AfterMigrate? && Defined(s, th.pc)
    ensures var e := RunAfterMigrate(s, th, th.pc.g, th.pc.glfd, th.pc.fd);
            Surplus(e.files, e.thread, f) == Surplus(s.files, th, f)
  {
    if th.pc.fd.Some? && s.slots.active == Some(th.pc.g) {
      var fi := Ref(Unref(s.files, FdOf(s.files, th.pc.glfd)), th.pc.fd.value);
      SetFdUses(fi, th.pc.glfd, th.pc.fd, f);
    }
  }

  lemma DestroyTailSurplus(s: Fs, th: Thread, f: nat)
    requires th.pc.DestroyTail? && Defined(s, th.pc)
    ensures var e := RunDestroyTail(s, th, th.pc.glfd);
            Surplus(e.files, e.thread, f) == Surplus(s.files, th, f)
  {
    SetFdUses(Unref(s.files, FdOf(s.files, th.pc.glfd)), th.pc.glfd, None, f);
  }

  lemma RestSurplus(s: Fs, t: nat, th: Thread, outcome: Outcome, f: nat)
    requires !Switching(th.pc) && !th.pc.Locked? && !th.pc.Dropped?
    requires !th.pc.Idle? && LockReady(s.lock, t, th.pc) && Defined(s, th.pc)
    ensures var e := Continue(s, t, th, outcome);
            Surplus(e.files, e.thread, f) == Surplus(s.files, th, f)
  {
    hide RunLocked, RunDropped, RunSwitch, RunAfterMigrate, RunDestroyTail;
    if th.pc.AfterMigrate? {
      AfterMigrateSurplus(s, th, f);
    } else if th.pc.DestroyTail? {
      DestroyTailSurplus(s, th, f);
    }
  }

  lemma StepSurplus(s: Fs, t: nat, a: Action, f: nat)
    requires Enabled(s, t, a)
    ensures var e := StepEffect(s, t, a); Surplus(e.files, e.thread, f) == Surplus(s.files, s.threads[t], f)
  {
    hide Begin, RunLocked, RunDropped, RunSwitch;
    var th := s.threads[t];
    if !a.Proceed? {
      BeginSurplus(s, th, a, f);
    } else if th.pc.Locked? {
      LockedSurplus(s, th, a.outcome, f);
    } else if th.pc.Dropped? {
      DroppedSurplus(s, t, th, a.outcome, f);
    } else if Switching(th.pc) {
      SwitchSurplus(s, th, f);
    } else {
      RestSurplus(s, t, th, a.outcome, f);
    }
  }

  lemma FdRefsStep(s: Fs, t: nat, a: Action)
    requires FdRefsInv(s) && Enabled(s, t, a)
    ensures FdRefsInv(Apply(s, t, a))
  {
    hide StepEffect;
    var s' := Apply(s, t, a);
    forall f: nat
      ensures Refs(s'.files, f) == Total(s'.files.glfds, UsesOf(f)) + Total(s'.threads, HoldsOf(f))
    {
      StepSurplus(s, t, a, f);
      TotalUpdate(s.threads, t, s'.threads[t], HoldsOf(f));
    }
  }
}
