/** Which migrations of open files succeed, and what `glfs_resolve_fd` hands back. */
module GraphMigrations {
  import opened Common
  import opened GraphModel
  import opened GraphLock
  import opened GraphWinds
  import opened GraphFiles
  import opened GraphSwitch
  import opened GraphRuns
  import opened GraphTheorems
  import opened GraphCalls
  import opened GraphAnswers

  // ----- the walk over the open files -----

  /** The migration of `i` that ends with `a` got an error from the graph it was going to. */
  predicate MigrationLost(s: Fs, pc: Pc, a: Action, i: nat) {
    && a.Proceed? && !a.outcome.Ok? && pc.Dropped? && pc.job.MigrateOpen?
    && pc.job.sw.pos < |s.files.openfds| && s.files.openfds[pc.job.sw.pos] == i
    && HasFd(s.files, i) && s.files.fds[FdOf(s.files, i)].inode.graph != pc.job.sw.graph
  }

  ghost predicate LostIn(run: seq<Fs>, moves: seq<Move>, t: nat, i: nat, e: nat, m: nat)
    requires |run| == |moves| + 1 && m <= |moves|
    requires forall k :: 0 <= k < |run| ==> t < |run[k].threads|
  {
    exists k :: e <= k < m && moves[k].thread == t && MigrationLost(run[k], run[k].threads[t].pc, moves[k].action, i)
  }

  lemma LostNext(run: seq<Fs>, moves: seq<Move>, t: nat, i: nat, e: nat, m: nat)
    requires |run| == |moves| + 1 && e <= m < |moves|
    requires forall k :: 0 <= k < |run| ==> t < |run[k].threads|
    ensures LostIn(run, moves, t, i, e, m + 1) <==>
      LostIn(run, moves, t, i, e, m)
      || (moves[m].thread == t && MigrationLost(run[m], run[m].threads[t].pc, moves[m].action, i))
  {
    hide MigrationLost;
  }

  predicate LostTrack(s: Fs, t: nat, i: nat, lost: bool)
    requires t < |s.threads|
  {
    var pc := s.threads[t].pc;
    match pc
    case Locked(sec) => sec.Active? && !lost
    case AfterOpen(sw, f) =>
      lost <==> i in sw.failed || (f.None? && sw.pos < |s.files.openfds| && s.files.openfds[sw.pos] == i)
    case Tail(_, done) => done.Some? ==> (lost <==> i in done.value.failed)
    case _ => SwitchOf(pc).Some? && (lost <==> i in SwitchOf(pc).value.failed)
  }

  lemma LostDropped(s: Fs, t: nat, i: nat, outcome: Outcome, lost: bool)
    requires Enabled(s, t, Proceed(outcome)) && LostTrack(s, t, i, lost) && s.threads[t].pc.Dropped?
    ensures LostTrack(Apply(s, t, Proceed(outcome)), t, i,
                      lost || MigrationLost(s, s.threads[t].pc, Proceed(outcome), i))
  {
  }

  lemma LostWalks(s: Fs, t: nat, i: nat, outcome: Outcome, lost: bool)
    requires Enabled(s, t, Proceed(outcome)) && LostTrack(s, t, i, lost) && !s.threads[t].pc.Dropped?
    ensures var s' := Apply(s, t, Proceed(outcome)); Inside(s'.threads[t].pc) ==> LostTrack(s', t, i, lost)
  {
  }

  lemma LostStep(s: Fs, t: nat, m: Move, s': Fs, i: nat, lost: bool)
    requires LockInv(s) && Joined(s, m, s') && t < |s.threads| && LostTrack(s, t, i, lost)
    ensures t < |s'.threads|
    ensures Inside(s'.threads[t].pc) ==>
      LostTrack(s', t, i, lost || (m.thread == t && MigrationLost(s, s.threads[t].pc, m.action, i)))
  {
    hide StepEffect, LockInv;
    if m.thread != t {
      assert InSection(s.threads[t].pc);
      SectionQuiet(s, t, m.thread, m.action);
    } else if s.threads[t].pc.Dropped? {
      LostDropped(s, t, i, m.action.outcome, lost);
    } else {
      LostWalks(s, t, i, m.action.outcome, lost);
    }
  }

  lemma {:induction false} LostTracked(run: seq<Fs>, moves: seq<Move>, t: nat, j: nat, e: nat, x: nat, m: nat, i: nat)
    requires Called(run, moves, t, CallActiveSubvol, j, e, x) && e <= m < x && run[e].threads[t].pc == Locked(Active)
    ensures LostTrack(run[m], t, i, LostIn(run, moves, t, i, e, m))
  {
    hide Inv, Initial, Apply, Enabled;
    if m == e {
      assert !LostIn(run, moves, t, i, e, e);
    } else {
      hide LostTrack;
      LostTracked(run, moves, t, j, e, x, m - 1, i);
      RunInv(run, moves, m - 1);
      assert Joined(run[m - 1], moves[m - 1], run[m]);
      LockOf(run[m - 1]);
      LostStep(run[m - 1], t, moves[m - 1], run[m], i, LostIn(run, moves, t, i, e, m - 1));
      LostNext(run, moves, t, i, e, m - 1);
      hide LostIn;
    }
  }

  /** A glfd is recorded as not migrated exactly when its migration got an error. */
  lemma FailedMeansLost(run: seq<Fs>, moves: seq<Move>, t: nat, j: nat, e: nat, x: nat, m: nat, i: nat)
    requires Called(run, moves, t, CallActiveSubvol, j, e, x) && e <= m < x
    requires run[m].threads[t].pc.Tail? && run[m].threads[t].pc.done.Some?
    ensures i in run[m].threads[t].pc.done.value.failed <==> LostIn(run, moves, t, i, e, m)
  {
    Starts(run, moves, t, CallActiveSubvol, j, e, x);
    Waits(run, moves, t, CallActiveSubvol, j, e, x, e);
    hide StepEffect, LostIn;
    LostTracked(run, moves, t, j, e, x, m, i);
  }

  /** After a switch every open file whose migration got no error is in the new graph, unless it has no gfid yet. */
  lemma SwitchMigrates(run: seq<Fs>, moves: seq<Move>, t: nat, j: nat, e: nat, x: nat, m: nat, i: nat)
    requires Called(run, moves, t, CallActiveSubvol, j, e, x) && e <= m < x
    requires run[m].threads[t].pc.Tail? && run[m].threads[t].pc.done.Some?
    requires i in run[m].files.openfds && !LostIn(run, moves, t, i, e, m)
    ensures HasFd(run[m].files, i) && run[e].slots.next.Some?
    ensures var inode := run[m].files.fds[FdOf(run[m].files, i)].inode;
            inode.gfid == NULL_GFID || inode.graph == run[e].slots.next.value
  {
    FailedMeansLost(run, moves, t, j, e, x, m, i);
    hide LostIn;
    SwitchCompletes(run, moves, m, t);
    CaptureIsNext(run, moves, t, j, e, x, m);
  }

  lemma CaptureIsNext(run: seq<Fs>, moves: seq<Move>, t: nat, j: nat, e: nat, x: nat, m: nat)
    requires Called(run, moves, t, CallActiveSubvol, j, e, x) && e <= m < x
    requires run[m].threads[t].pc.Tail? && run[m].threads[t].pc.done.Some?
    ensures run[e].slots.next == Some(run[m].threads[t].pc.done.value.graph)
  {
    Starts(run, moves, t, CallActiveSubvol, j, e, x);
    Waits(run, moves, t, CallActiveSubvol, j, e, x, e);
    hide StepEffect, RefusedIn;
    ActiveTracked(run, moves, t, j, e, x, m);
  }

  // ----- the cwd when a newer graph took the slot -----

  /** The newer graph that took the slot meanwhile did not know the cwd. */
  predicate CwdRefused(pc: Pc, a: Action) {
    pc.Dropped? && pc.job.RefreshAgain? && a.Proceed? && !a.outcome.Ok?
  }

  ghost predicate CwdRefusedIn(run: seq<Fs>, moves: seq<Move>, t: nat, e: nat, m: nat)
    requires |run| == |moves| + 1 && m <= |moves|
    requires forall k :: 0 <= k < |run| ==> t < |run[k].threads|
  {
    exists k :: e <= k < m && moves[k].thread == t && CwdRefused(run[k].threads[t].pc, moves[k].action)
  }

  lemma CwdRefusedNext(run: seq<Fs>, moves: seq<Move>, t: nat, e: nat, m: nat)
    requires |run| == |moves| + 1 && e <= m < |moves|
    requires forall k :: 0 <= k < |run| ==> t < |run[k].threads|
    ensures CwdRefusedIn(run, moves, t, e, m + 1) <==>
      CwdRefusedIn(run, moves, t, e, m)
      || (moves[m].thread == t && CwdRefused(run[m].threads[t].pc, moves[m].action))
  {
    hide CwdRefused;
  }

  predicate CwdTrack(s: Fs, t: nat, refused: bool)
    requires t < |s.threads|
  {
    var pc := s.threads[t].pc;
    match pc
    case Locked(sec) => sec.Active?
    case Dropped(RefreshAgain(_, target)) => s.slots.active == Some(target)
    case Tail(_, done) =>
      done.Some? && done.value.newCwd.Some? && !refused ==> s.cwd.Some? && s.slots.active == Some(s.cwd.value.graph)
    case _ => SwitchOf(pc).Some?
  }

  lemma CwdDropped(s: Fs, t: nat, outcome: Outcome, refused: bool)
    requires Enabled(s, t, Proceed(outcome)) && CwdTrack(s, t, refused) && s.threads[t].pc.Dropped?
    ensures CwdTrack(Apply(s, t, Proceed(outcome)), t, refused || CwdRefused(s.threads[t].pc, Proceed(outcome)))
  {
    hide MigrateFd;
  }

  lemma CwdWalks(s: Fs, t: nat, outcome: Outcome, refused: bool)
    requires Enabled(s, t, Proceed(outcome)) && CwdTrack(s, t, refused) && !s.threads[t].pc.Dropped?
    ensures var s' := Apply(s, t, Proceed(outcome)); Inside(s'.threads[t].pc) ==> CwdTrack(s', t, refused)
  {
    hide SetFd, Unref;
  }

  lemma CwdStep(s: Fs, t: nat, m: Move, s': Fs, refused: bool)
    requires LockInv(s) && Joined(s, m, s') && t < |s.threads| && CwdTrack(s, t, refused)
    ensures t < |s'.threads|
    ensures Inside(s'.threads[t].pc) ==>
      CwdTrack(s', t, refused || (m.thread == t && CwdRefused(s.threads[t].pc, m.action)))
  {
    hide StepEffect, LockInv;
    if m.thread != t {
      assert InSection(s.threads[t].pc);
      SectionQuiet(s, t, m.thread, m.action);
    } else if s.threads[t].pc.Dropped? {
      CwdDropped(s, t, m.action.outcome, refused);
    } else {
      CwdWalks(s, t, m.action.outcome, refused);
    }
  }

  lemma {:induction false} CwdTracked(run: seq<Fs>, moves: seq<Move>, t: nat, j: nat, e: nat, x: nat, m: nat)
    requires Called(run, moves, t, CallActiveSubvol, j, e, x) && e <= m < x && run[e].threads[t].pc == Locked(Active)
    ensures CwdTrack(run[m], t, CwdRefusedIn(run, moves, t, e, m))
  {
    hide Inv, Initial, Apply, Enabled;
    if m > e {
      hide CwdTrack;
      CwdTracked(run, moves, t, j, e, x, m - 1);
      RunInv(run, moves, m - 1);
      assert Joined(run[m - 1], moves[m - 1], run[m]);
      LockOf(run[m - 1]);
      CwdStep(run[m - 1], t, moves[m - 1], run[m], CwdRefusedIn(run, moves, t, e, m - 1));
      CwdRefusedNext(run, moves, t, e, m - 1);
      hide CwdRefusedIn;
    }
  }

  /** After a switch the cwd has kept its gfid, and lies in the active graph unless that graph refused it. */
  lemma SwitchMovesCwd(run: seq<Fs>, moves: seq<Move>, t: nat, j: nat, e: nat, x: nat, m: nat)
    requires Called(run, moves, t, CallActiveSubvol, j, e, x) && e <= m < x
    requires run[m].threads[t].pc.Tail? && run[m].threads[t].pc.done.Some?
    requires run[m].cwd.Some? && !CwdRefusedIn(run, moves, t, e, m)
    ensures run[m].slots.active == Some(run[m].cwd.value.graph)
    ensures var cwd0 := run[m].threads[t].pc.done.value.cwd0; cwd0.Some? && cwd0.value.gfid == run[m].cwd.value.gfid
  {
    Starts(run, moves, t, CallActiveSubvol, j, e, x);
    Waits(run, moves, t, CallActiveSubvol, j, e, x, e);
    hide StepEffect, CwdRefusedIn, Initial, Joined;
    CwdTracked(run, moves, t, j, e, x, m);
    CwdCarried(run, moves, t, m);
  }

  lemma CwdCarried(run: seq<Fs>, moves: seq<Move>, t: nat, m: nat)
    requires IsRun(run, moves) && m < |run| && t < |run[m].threads|
    requires run[m].threads[t].pc.Tail? && run[m].threads[t].pc.done.Some? && run[m].cwd.Some?
    ensures var sw := run[m].threads[t].pc.done.value;
            sw.cwd0.Some? && sw.newCwd.Some? && sw.cwd0.value.gfid == run[m].cwd.value.gfid
  {
    RunInv(run, moves, m);
    assert PhaseOk(run[m], run[m].threads[t].pc, run[m].threads[t].pc.done.value);
  }

  // ----- an open file for one graph -----

  predicate FdTrack(s0: Fs, s: Fs, t: nat, g: Graph, i: nat, failed: bool)
    requires t < |s0.threads| && t < |s.threads|
  {
    var th, fi := s.threads[t], s.files;
    && th.held == s0.threads[t].held && th.fds == s0.threads[t].fds
    && s.slots.active == s0.slots.active && fi.openfds == s0.files.openfds && i in fi.openfds
    && match th.pc
       case Locked(sec) => sec == ResolveFd(g, i) && !failed
       case Dropped(job) =>
         job == MigrateOne(g, i) && !failed && HasFd(fi, i) && fi.fds[FdOf(fi, i)].inode.graph != g
       case AfterMigrate(g', i', f) => g' == g && i' == i && (f.None? <==> failed)
       case Leave(out) =>
         if failed then out == Nothing
         else out.GotFd? && out.g == g && out.glfd == i
              && (s.slots.active == Some(g) ==> HasFd(fi, i) && FdOf(fi, i) == out.fd)
       case _ => false
  }

  predicate FdEnd(s0: Fs, s: Fs, s': Fs, t: nat, g: Graph, i: nat, failed: bool)
    requires t < |s0.threads| && t < |s.threads| && t < |s'.threads|
  {
    var out := Handed(s.threads[t].pc);
    && s'.threads[t].pc.Idle? && s'.threads[t].held == s0.threads[t].held && s'.files == s.files
    && (failed ==> out == Nothing && s'.threads[t].fds == s0.threads[t].fds)
    && (!failed ==> && s.threads[t].pc.Leave? && out.GotFd? && out.g == g && out.glfd == i
                    && s'.threads[t].fds == s0.threads[t].fds + multiset{out.fd}
                    && (s0.slots.active == Some(g) ==> HasFd(s'.files, i) && FdOf(s'.files, i) == out.fd))
  }

  lemma FdLocked(s0: Fs, s: Fs, t: nat, g: Graph, i: nat, outcome: Outcome)
    requires Enabled(s, t, Proceed(outcome)) && t < |s0.threads|
    requires FdTrack(s0, s, t, g, i, false) && s.threads[t].pc.Locked?
    ensures var s' := Apply(s, t, Proceed(outcome)); Inside(s'.threads[t].pc) && FdTrack(s0, s', t, g, i, false)
  {
  }

  lemma FdDropped(s0: Fs, s: Fs, t: nat, g: Graph, i: nat, outcome: Outcome)
    requires Enabled(s, t, Proceed(outcome)) && t < |s0.threads|
    requires FdTrack(s0, s, t, g, i, false) && s.threads[t].pc.Dropped?
    ensures var s' := Apply(s, t, Proceed(outcome));
            Inside(s'.threads[t].pc) && FdTrack(s0, s', t, g, i, !outcome.Ok?)
  {
  }

  lemma FdMigrated(s0: Fs, s: Fs, t: nat, g: Graph, i: nat, outcome: Outcome, failed: bool)
    requires Enabled(s, t, Proceed(outcome)) && t < |s0.threads|
    requires FdTrack(s0, s, t, g, i, failed) && s.threads[t].pc.AfterMigrate?
    ensures var s' := Apply(s, t, Proceed(outcome)); Inside(s'.threads[t].pc) && FdTrack(s0, s', t, g, i, failed)
  {
  }

  lemma FdLeaves(s0: Fs, s: Fs, t: nat, g: Graph, i: nat, outcome: Outcome, failed: bool)
    requires Enabled(s, t, Proceed(outcome)) && t < |s0.threads|
    requires FdTrack(s0, s, t, g, i, failed) && s.threads[t].pc.Leave?
    ensures var s' := Apply(s, t, Proceed(outcome));
            !Inside(s'.threads[t].pc) && FdEnd(s0, s, s', t, g, i, failed)
  {
  }

  lemma FdOther(run: seq<Fs>, moves: seq<Move>, k: nat, s0: Fs, t: nat, g: Graph, i: nat, failed: bool)
    requires IsRun(run, moves) && k < |moves| && moves[k].thread != t
    requires t < |s0.threads| && t < |run[k].threads| && t < |run[k + 1].threads|
    requires FdTrack(s0, run[k], t, g, i, failed)
    ensures FdTrack(s0, run[k + 1], t, g, i, failed)
  {
    hide Inv, Initial, StepEffect;
    assert InSection(run[k].threads[t].pc);
    SectionIsStable(run, moves, k, t);
    OriginKept(run, moves, k, k + 1);
    assert Joined(run[k], moves[k], run[k + 1]);
  }

  lemma FdStep(run: seq<Fs>, moves: seq<Move>, k: nat, s0: Fs, t: nat, g: Graph, i: nat, failed: bool)
    requires IsRun(run, moves) && k < |moves|
    requires t < |s0.threads| && t < |run[k].threads| && t < |run[k + 1].threads|
    requires FdTrack(s0, run[k], t, g, i, failed)
    ensures var failed' := failed || (moves[k].thread == t && CallFailed(run[k].threads[t].pc, moves[k].action));
            if Inside(run[k + 1].threads[t].pc) then FdTrack(s0, run[k + 1], t, g, i, failed')
            else failed' == failed && FdEnd(s0, run[k], run[k + 1], t, g, i, failed)
  {
    hide StepEffect, Initial, FdEnd;
    assert Joined(run[k], moves[k], run[k + 1]);
    if moves[k].thread != t {
      FdOther(run, moves, k, s0, t, g, i, failed);
    } else if run[k].threads[t].pc.Locked? {
      FdLocked(s0, run[k], t, g, i, moves[k].action.outcome);
    } else if run[k].threads[t].pc.Dropped? {
      FdDropped(s0, run[k], t, g, i, moves[k].action.outcome);
    } else if run[k].threads[t].pc.AfterMigrate? {
      FdMigrated(s0, run[k], t, g, i, moves[k].action.outcome, failed);
    } else {
      FdLeaves(s0, run[k], t, g, i, moves[k].action.outcome, failed);
    }
  }

  lemma {:induction false} FdTracked(run: seq<Fs>, moves: seq<Move>, t: nat, g: Graph, i: nat,
                                     j: nat, e: nat, x: nat, m: nat)
    requires Called(run, moves, t, CallResolveFd(g, i), j, e, x) && e <= m < x
    requires run[e].threads[t].pc == Locked(ResolveFd(g, i)) && i in run[e].files.openfds
    ensures FdTrack(run[e], run[m], t, g, i, FailedIn(run, moves, t, e, m))
  {
    hide Inv, Initial, FdEnd, Joined;
    if m == e {
      assert !FailedIn(run, moves, t, e, e);
    } else {
      hide FdTrack;
      FdTracked(run, moves, t, g, i, j, e, x, m - 1);
      FdStep(run, moves, m - 1, run[e], t, g, i, FailedIn(run, moves, t, e, m - 1));
      FailedNext(run, moves, t, e, m - 1);
      hide FailedIn;
    }
  }

  lemma FdEntered(run: seq<Fs>, moves: seq<Move>, t: nat, g: Graph, i: nat, j: nat, e: nat, x: nat)
    requires Called(run, moves, t, CallResolveFd(g, i), j, e, x)
    ensures run[e].threads[t] == run[j].threads[t].(pc := Locked(ResolveFd(g, i)))
    ensures i in run[e].files.openfds && i < |run[j].files.glfds|
  {
    Starts(run, moves, t, CallResolveFd(g, i), j, e, x);
    hide Inv, Initial, Joined;
    Waits(run, moves, t, CallResolveFd(g, i), j, e, x, e);
    hide StepEffect;
    RunInv(run, moves, j);
    OpenIsThere(run[j], i);
    RunInv(run, moves, e);
    UsedIsOpen(run[e], t, i);
  }

  lemma OpenIsThere(s: Fs, i: nat)
    requires Inv(s) && i in s.files.openfds
    ensures i < |s.files.glfds|
  {
  }

  lemma UsedIsOpen(s: Fs, t: nat, i: nat)
    requires Inv(s) && t < |s.threads| && UsedGlfd(s.threads[t].pc) == Some(i)
    ensures i in s.files.openfds
  {
    assert PcFiles(s.files, s.threads[t].pc);
  }

  /**
    `glfs_resolve_fd` hands the thread an fd of the wanted graph, open on what the glfd was opened on and as it was
    opened; nothing only if a call to that graph failed.  For the active graph the glfd is on that fd from then on.
  */
  lemma ResolveFdAnswers(run: seq<Fs>, moves: seq<Move>, t: nat, g: Graph, i: nat, j: nat, e: nat, x: nat)
    requires Called(run, moves, t, CallResolveFd(g, i), j, e, x)
    ensures i < |run[j].files.glfds|
    ensures var th, th', fi := run[j].threads[t], run[x].threads[t], run[x].files;
            var out, glfd := Handed(run[x - 1].threads[t].pc), run[j].files.glfds[i];
            && th'.held == th.held
            && (FailedIn(run, moves, t, e, x) ==> out == Nothing && th'.fds == th.fds)
            && (!FailedIn(run, moves, t, e, x) ==>
                  && out.GotFd? && th'.fds == th.fds + multiset{out.fd} && out.fd < |fi.fds|
                  && fi.fds[out.fd].inode == Inode(g, glfd.gfid)
                  && fi.fds[out.fd].dir == glfd.dir && fi.fds[out.fd].flags == glfd.flags
                  && (run[e].slots.active == Some(g) ==> HasFd(fi, i) && FdOf(fi, i) == out.fd))
  {
    hide Inv, Initial, StepEffect, FdTrack, Joined;
    FdEntered(run, moves, t, g, i, j, e, x);
    FdTracked(run, moves, t, g, i, j, e, x, x - 1);
    FdStep(run, moves, x - 1, run[e], t, g, i, FailedIn(run, moves, t, e, x - 1));
    FailedNext(run, moves, t, e, x - 1);
    hide FailedIn;
    if Handed(run[x - 1].threads[t].pc).GotFd? {
      ResolvedFd(run, moves, j, x - 1, t);
    }
  }
}
