/** What every glfd, every fd and the openfds list look like in all reachable states. */
module GraphFiles {
  import opened Common
  import opened GraphModel
  import opened GraphLock

  /** fd `f` is in graph `g` and is what glfd `i` was opened as. */
  predicate FdMatches(fi: Files, f: nat, i: nat, g: Graph) {
    && f < |fi.fds| && i < |fi.glfds|
    && fi.fds[f].inode == Inode(g, fi.glfds[i].gfid)
    && fi.fds[f].dir == fi.glfds[i].dir && fi.fds[f].flags == fi.glfds[i].flags
  }

  /** No open during a migration creates, truncates or demands exclusive creation. */
  predicate ReopenOk(r: Reopen) {
    r.flags !! CREATION_FLAGS && r.flags <= r.glfdFlags && (!r.dir ==> r.glfdFlags <= r.flags + CREATION_FLAGS)
  }

  ghost predicate FilesOk(fi: Files) {
    && (forall i :: 0 <= i < |fi.glfds| && fi.glfds[i].fd.Some? ==>
          HasFd(fi, i) && FdMatches(fi, FdOf(fi, i), i, fi.fds[FdOf(fi, i)].inode.graph))
    && (forall i :: i in fi.openfds ==> HasFd(fi, i))
    && Distinct(fi.openfds)
    && (forall k :: 0 <= k < |fi.reopens| ==> ReopenOk(fi.reopens[k]))
  }

  /** What a thread's program point promises about the glfds and fds it mentions. */
  ghost predicate PcFiles(fi: Files, pc: Pc) {
    && (OwnedGlfd(pc).Some? ==> HasFd(fi, OwnedGlfd(pc).value))
    && (pc.DestroyTail? ==> pc.glfd !in fi.openfds)
    && ((pc.Waiting? || pc.Locked?) && pc.sec.Bind? ==> pc.sec.glfd !in fi.openfds)
    && (UsedGlfd(pc).Some? ==> UsedGlfd(pc).value in fi.openfds)
    && (pc.AfterMigrate? && pc.fd.Some? ==> FdMatches(fi, pc.fd.value, pc.glfd, pc.g))
    && (pc.Leave? && pc.out.GotFd? ==> FdMatches(fi, pc.out.fd, pc.out.glfd, pc.out.g))
    && (pc.AfterOpen? ==> pc.sw.pos < |fi.openfds|)
    && (pc.AfterOpen? && pc.fd.Some? ==> FdMatches(fi, pc.fd.value, fi.openfds[pc.sw.pos], pc.sw.graph))
  }

  ghost predicate FilesInv(s: Fs) {
    && FilesOk(s.files)
    && (forall t :: 0 <= t < |s.threads| ==> PcFiles(s.files, s.threads[t].pc))
    && (forall t, u | 0 <= t < |s.threads| && 0 <= u < |s.threads| ::
          OwnedGlfd(s.threads[t].pc).Some? && OwnedGlfd(s.threads[u].pc) == OwnedGlfd(s.threads[t].pc) ==> t == u)
    && (forall t :: 0 <= t < |s.threads| && UsedGlfd(s.threads[t].pc).Some? ==>
          !BeingClosed(s.threads, UsedGlfd(s.threads[t].pc).value))
  }

  /** glfds and fds are only added; what they were opened as never changes. */
  ghost predicate Grows(fi: Files, fi': Files) {
    && |fi.glfds| <= |fi'.glfds| && |fi.fds| <= |fi'.fds|
    && (forall i :: 0 <= i < |fi.glfds| ==>
          fi'.glfds[i].gfid == fi.glfds[i].gfid && fi'.glfds[i].dir == fi.glfds[i].dir
          && fi'.glfds[i].flags == fi.glfds[i].flags)
    && (forall f :: 0 <= f < |fi.fds| ==>
          fi'.fds[f].inode == fi.fds[f].inode && fi'.fds[f].dir == fi.fds[f].dir
          && fi'.fds[f].flags == fi.fds[f].flags)
  }

  lemma GrowsSelf(a: Files)
    ensures Grows(a, a)
  {
  }

  lemma GrowsTransitive(a: Files, b: Files, c: Files)
    requires Grows(a, b) && Grows(b, c)
    ensures Grows(a, c)
  {
  }

  /** How a step may touch the files, given where its thread was and is. */
  ghost predicate FilesMove(fi: Files, pc: Pc, fi': Files, pc': Pc) {
    && Grows(fi, fi')
    && (forall i :: 0 <= i < |fi.glfds| && fi.glfds[i].fd.Some? && pc != DestroyTail(i) ==> fi'.glfds[i].fd.Some?)
    && (|| fi'.openfds == fi.openfds
        || (pc.Locked? && pc.sec.Bind? && fi'.openfds == fi.openfds + [pc.sec.glfd])
        || (pc.Locked? && pc.sec.Destroy? && fi'.openfds == Without(fi.openfds, pc.sec.glfd)))
    && (OwnedGlfd(pc').Some? ==>
          OwnedGlfd(pc') == OwnedGlfd(pc) || OwnedGlfd(pc').value >= |fi.glfds| || pc.Idle?)
    && (UsedGlfd(pc').Some? ==> UsedGlfd(pc') == UsedGlfd(pc) || pc.Idle?)
  }

  ghost predicate StepOk(fi: Files, pc: Pc, e: Effect) {
    FilesMove(fi, pc, e.files, e.thread.pc) && FilesOk(e.files) && PcFiles(e.files, e.thread.pc)
  }

  /** The operations on the files that keep every glfd on its fd. */
  ghost predicate SameGlfds(fi: Files, fi': Files) {
    FilesOk(fi') && Grows(fi, fi') && fi'.glfds == fi.glfds && fi'.openfds == fi.openfds && |fi'.fds| == |fi.fds|
  }

  lemma CountingFiles(fi: Files, f: nat)
    requires FilesOk(fi) && f < |fi.fds|
    ensures SameGlfds(fi, Ref(fi, f)) && SameGlfds(fi, Unref(fi, f))
  {
  }

  lemma SetFdFiles(fi: Files, i: nat, fd: Option<nat>)
    requires FilesOk(fi) && i < |fi.glfds|
    requires if fd.Some? then fd.value < |fi.fds| && FdMatches(fi, fd.value, i, fi.fds[fd.value].inode.graph)
             else i !in fi.openfds
    ensures var fi' := SetFd(fi, i, fd);
            && FilesOk(fi') && Grows(fi, fi') && fi'.fds == fi.fds && fi'.openfds == fi.openfds
            && (forall j :: 0 <= j < |fi.glfds| && j != i ==> fi'.glfds[j] == fi.glfds[j])
            && fi'.glfds[i].fd == fd
  {
  }

  lemma NewGlfdFiles(s: Fs, th: Thread, fi: Files, f: nat, bind: bool)
    requires FilesOk(s.files) && FilesOk(fi) && f < |fi.fds| && th.pc.Idle?
    requires Grows(s.files, fi) && fi.glfds == s.files.glfds && fi.openfds == s.files.openfds
    ensures StepOk(s.files, th.pc, NewGlfd(s, th, fi, f, bind))
  {
    var e := NewGlfd(s, th, fi, f, bind);
    assert forall i :: 0 <= i < |fi.glfds| ==> e.files.glfds[i] == fi.glfds[i];
  }

  lemma BeginOpenFiles(s: Fs, th: Thread, a: Action)
    requires (a.CallOpen? || a.CallDup? || a.CallPutFd?) && th.pc.Idle? && CanCall(s, th, a) && FilesOk(s.files)
    ensures StepOk(s.files, th.pc, Begin(s, th, a))
  {
    hide NewGlfd, Ref, Unref, Grows, FilesOk;
    match a
    case CallOpen(inode, dir, flags, success) =>
      var fi := s.files.(fds := s.files.fds + [Fd(inode, dir, flags, 1)]);
      AddedFd(s.files, fi, Fd(inode, dir, flags, 1));
      NewGlfdFiles(s, th, fi, |s.files.fds|, success);
    case CallDup(f) =>
      CountingFiles(s.files, f);
      NewGlfdFiles(s, th, Ref(s.files, f), f, true);
    case CallPutFd(f) => CountingFiles(s.files, f);
  }

  lemma BeginFiles(s: Fs, th: Thread, a: Action)
    requires !a.Proceed? && th.pc.Idle? && CanCall(s, th, a) && FilesOk(s.files)
    ensures StepOk(s.files, th.pc, Begin(s, th, a))
  {
    if a.CallOpen? || a.CallDup? || a.CallPutFd? {
      hide Begin, CanCall;
      BeginOpenFiles(s, th, a);
    } else {
      hide Grows, FilesOk;
      GrowsSelf(s.files);
      OpenHaveFds(s.files);
    }
  }

  lemma OpenHaveFds(fi: Files)
    requires FilesOk(fi)
    ensures forall i :: i in fi.openfds ==> HasFd(fi, i)
    ensures forall i :: 0 <= i < |fi.glfds| && fi.glfds[i].fd.Some? ==> HasFd(fi, i)
  {
  }

  lemma AddedFd(fi: Files, fi': Files, fd: Fd)
    requires FilesOk(fi) && fi' == fi.(fds := fi.fds + [fd])
    ensures FilesOk(fi') && Grows(fi, fi')
  {
  }

  lemma FilesData(fi: Files, i: nat)
    requires FilesOk(fi) && HasFd(fi, i)
    ensures FdMatches(fi, FdOf(fi, i), i, fi.fds[FdOf(fi, i)].inode.graph)
  {
  }

  lemma ListFiles(fi: Files, i: nat)
    requires FilesOk(fi) && HasFd(fi, i)
    ensures FilesOk(fi.(openfds := Without(fi.openfds, i))) && Grows(fi, fi.(openfds := Without(fi.openfds, i)))
    ensures i !in fi.openfds ==>
              FilesOk(fi.(openfds := fi.openfds + [i])) && Grows(fi, fi.(openfds := fi.openfds + [i]))
  {
  }

  lemma ResolveFiles(s: Fs, th: Thread, outcome: Outcome)
    requires th.pc.Locked? && th.pc.sec.ResolveFd?
    requires Defined(s, th.pc) && FilesOk(s.files) && PcFiles(s.files, th.pc)
    ensures StepOk(s.files, th.pc, RunLocked(s, th, th.pc.sec, outcome))
  {
    hide Ref, FilesOk, Grows;
    GrowsSelf(s.files);
    var f := FdOf(s.files, th.pc.sec.glfd);
    CountingFiles(s.files, f);
    FilesData(s.files, th.pc.sec.glfd);
    MatchKept(s.files, Ref(s.files, f), f, th.pc.sec.glfd, s.files.fds[f].inode.graph);
  }

  lemma BindFiles(s: Fs, th: Thread, outcome: Outcome)
    requires th.pc.Locked? && (th.pc.sec.Bind? || th.pc.sec.Destroy?)
    requires Defined(s, th.pc) && FilesOk(s.files) && PcFiles(s.files, th.pc)
    ensures StepOk(s.files, th.pc, RunLocked(s, th, th.pc.sec, outcome))
  {
    hide Without, FilesOk, Grows;
    ListFiles(s.files, th.pc.sec.glfd);
  }

  lemma LockedFiles(s: Fs, th: Thread, outcome: Outcome)
    requires th.pc.Locked? && Defined(s, th.pc) && FilesOk(s.files) && PcFiles(s.files, th.pc)
    ensures StepOk(s.files, th.pc, RunLocked(s, th, th.pc.sec, outcome))
  {
    hide RunLocked, StepOk, FilesOk, PcFiles;
    if th.pc.sec.ResolveFd? {
      ResolveFiles(s, th, outcome);
    } else if th.pc.sec.Bind? || th.pc.sec.Destroy? {
      BindFiles(s, th, outcome);
    } else {
      UntouchedFiles(s, th, outcome);
    }
  }

  lemma UntouchedFiles(s: Fs, th: Thread, outcome: Outcome)
    requires th.pc.Locked? && !th.pc.sec.ResolveFd? && !th.pc.sec.Bind? && !th.pc.sec.Destroy?
    requires Defined(s, th.pc) && FilesOk(s.files) && PcFiles(s.files, th.pc)
    ensures StepOk(s.files, th.pc, RunLocked(s, th, th.pc.sec, outcome))
  {
    hide FilesOk, Grows, Winds, AddWind;
    GrowsSelf(s.files);
  }

  lemma MigrateFiles(fi: Files, g: Graph, i: nat, outcome: Outcome)
    requires FilesOk(fi) && HasFd(fi, i)
    ensures var m := MigrateFd(fi, g, FdOf(fi, i), outcome);
            && FilesOk(m.files) && Grows(fi, m.files)
            && m.files.openfds == fi.openfds && m.files.glfds == fi.glfds
            && (m.fd.Some? ==> FdMatches(m.files, m.fd.value, i, g))
  {
  }

  lemma DroppedFiles(s: Fs, t: nat, th: Thread, outcome: Outcome)
    requires th.pc.Dropped? && Defined(s, th.pc) && FilesOk(s.files) && PcFiles(s.files, th.pc)
    ensures StepOk(s.files, th.pc, RunDropped(s, t, th, th.pc.job, outcome))
  {
    hide MigrateFd, FilesOk, Grows;
    GrowsSelf(s.files);
    if th.pc.job.MigrateOpen? {
      MigrateFiles(s.files, th.pc.job.sw.graph, s.files.openfds[th.pc.job.sw.pos], outcome);
    } else if th.pc.job.MigrateOne? {
      MigrateFiles(s.files, th.pc.job.g, th.pc.job.glfd, outcome);
    }
  }

  lemma SwitchFiles(s: Fs, th: Thread)
    requires Switching(th.pc) && Defined(s, th.pc) && FilesOk(s.files) && PcFiles(s.files, th.pc)
    ensures StepOk(s.files, th.pc, RunSwitch(s, th))
  {
    hide Unref, SetFd, Grows;
    GrowsSelf(s.files);
    if th.pc.AfterOpen? && th.pc.fd.Some? {
      var i := s.files.openfds[th.pc.sw.pos];
      CountingFiles(s.files, FdOf(s.files, i));
      var fi := Unref(s.files, FdOf(s.files, i));
      MatchKept(s.files, fi, th.pc.fd.value, i, th.pc.sw.graph);
      SetFdFiles(fi, i, th.pc.fd);
      GrowsTransitive(s.files, fi, SetFd(fi, i, th.pc.fd));
    }
  }

  lemma AfterMigrateFiles(s: Fs, th: Thread)
    requires th.pc.AfterMigrate? && Defined(s, th.pc) && FilesOk(s.files) && PcFiles(s.files, th.pc)
    ensures StepOk(s.files, th.pc, RunAfterMigrate(s, th, th.pc.g, th.pc.glfd, th.pc.fd))
  {
    hide Ref, Unref, SetFd, FilesOk, Grows;
    GrowsSelf(s.files);
    if th.pc.fd.Some? && s.slots.active == Some(th.pc.g) {
      var i, f := th.pc.glfd, th.pc.fd.value;
      CountingFiles(s.files, FdOf(s.files, i));
      var fi := Unref(s.files, FdOf(s.files, i));
      CountingFiles(fi, f);
      var fi' := Ref(fi, f);
      GrowsTransitive(s.files, fi, fi');
      MatchKept(s.files, fi', f, i, th.pc.g);
      SetFdFiles(fi', i, th.pc.fd);
      var fi'' := SetFd(fi', i, th.pc.fd);
      GrowsTransitive(s.files, fi', fi'');
      MatchKept(s.files, fi'', f, i, th.pc.g);
    }
  }

  lemma DestroyTailFiles(s: Fs, th: Thread)
    requires th.pc.DestroyTail? && Defined(s, th.pc) && FilesOk(s.files) && PcFiles(s.files, th.pc)
    ensures StepOk(s.files, th.pc, RunDestroyTail(s, th, th.pc.glfd))
  {
    hide Unref, SetFd, FilesOk, Grows;
    var i := th.pc.glfd;
    var fi := Unref(s.files, FdOf(s.files, i));
    CountingFiles(s.files, FdOf(s.files, i));
    SetFdFiles(fi, i, None);
    GrowsTransitive(s.files, fi, SetFd(fi, i, None));
  }

  /** An fd stays what it is. */
  lemma MatchKept(fi: Files, fi': Files, f: nat, i: nat, g: Graph)
    requires Grows(fi, fi') && FdMatches(fi, f, i, g)
    ensures FdMatches(fi', f, i, g)
  {
  }

  lemma RestFiles(s: Fs, t: nat, th: Thread, outcome: Outcome)
    requires !Switching(th.pc) && !th.pc.Locked? && !th.pc.Dropped?
    requires !th.pc.Idle? && LockReady(s.lock, t, th.pc) && Defined(s, th.pc)
    requires FilesOk(s.files) && PcFiles(s.files, th.pc)
    ensures StepOk(s.files, th.pc, Continue(s, t, th, outcome))
  {
    hide RunLocked, RunDropped, RunSwitch, RunAfterMigrate, RunDestroyTail, FilesOk, Grows;
    GrowsSelf(s.files);
    if th.pc.AfterMigrate? {
      AfterMigrateFiles(s, th);
    } else if th.pc.DestroyTail? {
      DestroyTailFiles(s, th);
    }
  }

  lemma StepFiles(s: Fs, t: nat, a: Action)
    requires Enabled(s, t, a) && FilesOk(s.files) && PcFiles(s.files, s.threads[t].pc)
    ensures StepOk(s.files, s.threads[t].pc, StepEffect(s, t, a))
  {
    hide Begin, RunLocked, RunDropped, RunSwitch, StepOk, FilesOk, PcFiles;
    var th := s.threads[t];
    if !a.Proceed? {
      BeginFiles(s, th, a);
    } else if th.pc.Locked? {
      LockedFiles(s, th, a.outcome);
    } else if th.pc.Dropped? {
      DroppedFiles(s, t, th, a.outcome);
    } else if Switching(th.pc) {
      SwitchFiles(s, th);
    } else {
      RestFiles(s, t, th, a.outcome);
    }
  }

  /** What a step leaves of another thread's claims. */
  lemma OtherFiles(s: Fs, t: nat, u: nat, fi': Files, pc': Pc)
    requires LockInv(s) && FilesInv(s) && t < |s.threads| && u < |s.threads| && u != t
    requires FilesOk(fi') && FilesMove(s.files, s.threads[t].pc, fi', pc')
    requires s.threads[t].pc.Locked? ==> s.lock.mutex == Some(t)
    ensures PcFiles(fi', s.threads[u].pc)
  {
    hide FilesOk;
    OpenHaveFds(fi');
    OpenHaveFds(s.files);
    var fi, pc, pcu := s.files, s.threads[t].pc, s.threads[u].pc;
    if fi'.openfds != fi.openfds {
      assert InSection(pc) && !InSection(pcu);
    }
    if OwnedGlfd(pcu).Some? {
      assert OwnedGlfd(pc) != OwnedGlfd(pcu);
    }
    if UsedGlfd(pcu).Some? {
      assert !BeingClosed(s.threads, UsedGlfd(pcu).value);
      assert OwnedGlfd(pc) != UsedGlfd(pcu);
    }
  }

  /** The glfds that threads own or use stay apart. */
  lemma ApartFiles(s: Fs, t: nat, a: Action)
    requires FilesInv(s) && Enabled(s, t, a)
    requires StepOk(s.files, s.threads[t].pc, StepEffect(s, t, a))
    ensures var s' := Apply(s, t, a); forall u | 0 <= u < |s'.threads| && u != t ::
      && (OwnedGlfd(s'.threads[t].pc).Some? ==> OwnedGlfd(s'.threads[t].pc) != OwnedGlfd(s'.threads[u].pc))
      && (OwnedGlfd(s'.threads[t].pc).Some? ==> OwnedGlfd(s'.threads[t].pc) != UsedGlfd(s'.threads[u].pc))
      && (UsedGlfd(s'.threads[t].pc).Some? ==> UsedGlfd(s'.threads[t].pc) != OwnedGlfd(s'.threads[u].pc))
  {
    hide Continue;
    var s', pc := Apply(s, t, a), s.threads[t].pc;
    var pc' := s'.threads[t].pc;
    forall u | 0 <= u < |s'.threads| && u != t
      ensures OwnedGlfd(pc').Some? ==> OwnedGlfd(pc') != OwnedGlfd(s.threads[u].pc)
                                       && OwnedGlfd(pc') != UsedGlfd(s.threads[u].pc)
      ensures UsedGlfd(pc').Some? ==> UsedGlfd(pc') != OwnedGlfd(s.threads[u].pc)
    {
      if OwnedGlfd(pc').Some? && UsedGlfd(s.threads[u].pc).Some? {
        assert !BeingClosed(s.threads, UsedGlfd(s.threads[u].pc).value);
      }
      if UsedGlfd(pc').Some? && UsedGlfd(pc') == UsedGlfd(pc) {
        assert !BeingClosed(s.threads, UsedGlfd(pc).value);
      }
    }
  }

  lemma FilesStep(s: Fs, t: nat, a: Action)
    requires LockInv(s) && FilesInv(s) && Enabled(s, t, a)
    ensures FilesInv(Apply(s, t, a))
  {
    StepFiles(s, t, a);
    ApartFiles(s, t, a);
    hide StepEffect, FilesOk, PcFiles, FilesMove;
    var s' := Apply(s, t, a);
    forall u | 0 <= u < |s'.threads|
      ensures PcFiles(s'.files, s'.threads[u].pc)
    {
      if u != t {
        OtherFiles(s, t, u, s'.files, s'.threads[t].pc);
      }
    }
    forall u | 0 <= u < |s'.threads| && UsedGlfd(s'.threads[u].pc).Some?
      ensures !BeingClosed(s'.threads, UsedGlfd(s'.threads[u].pc).value)
    {
      if u != t {
        assert !BeingClosed(s.threads, UsedGlfd(s.threads[u].pc).value);
      }
    }
  }
}
