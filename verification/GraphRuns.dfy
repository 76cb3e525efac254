/** The invariants together, and what they mean for whole runs. */
module GraphRuns {
  import opened Common
  import opened GraphModel
  import opened GraphLock
  import opened GraphWinds
  import opened GraphFds
  import opened GraphFiles
  import opened GraphSwitch

  /** What the inode-valued calls hand out, relative to the active graph. */
  predicate InodeOk(s: Fs, pc: Pc) {
    match pc
    case Dropped(RefreshObject(g, handle, target)) => s.slots.active == Some(target) && handle.graph != g
    case Dropped(RefreshForGet(target)) => s.slots.active == Some(target) && s.cwd.Some?
    case Dropped(RefreshForSet(target, _)) => s.slots.active == Some(target)
    case Leave(GotInode(g, handle, inode)) =>
      && inode.gfid == handle.gfid
      && (if handle.graph == g then inode == handle else s.slots.active == Some(inode.graph))
    case Leave(GotCwd(cwd)) =>
      s.slots.active == Some(cwd.graph) && s.cwd.Some? && cwd.gfid == s.cwd.value.gfid
    case _ => true
  }

  ghost predicate InodeInv(s: Fs) {
    forall t :: 0 <= t < |s.threads| ==> InodeOk(s, s.threads[t].pc)
  }

  /** The assertion before PARENT_DOWN. */
  ghost predicate DecideInv(s: Fs) {
    forall t :: 0 <= t < |s.threads| ==>
      match s.threads[t].pc
      case Decide(g, ref, seen) => ref >= 0 && (ref == 0 ==> seen != Some(g))
      case _ => true
  }

  ghost predicate Inv(s: Fs) {
    && LockInv(s) && SlotInv(s) && WindsInv(s) && FdRefsInv(s)
    && FilesInv(s) && SwitchInv(s) && CaptureInv(s) && InodeInv(s) && DecideInv(s)
  }

  lemma LockedInode(s: Fs, th: Thread, outcome: Outcome)
    requires th.pc.Locked? && Defined(s, th.pc)
    ensures var e := RunLocked(s, th, th.pc.sec, outcome);
            InodeOk(s.(slots := e.slots, cwd := e.cwd), e.thread.pc)
  {
  }

  lemma DroppedInode(s: Fs, t: nat, th: Thread, outcome: Outcome)
    requires th.pc.Dropped? && Defined(s, th.pc) && InodeOk(s, th.pc)
    ensures var e := RunDropped(s, t, th, th.pc.job, outcome);
            InodeOk(s.(slots := e.slots, cwd := e.cwd), e.thread.pc)
  {
  }

  lemma SwitchInode(s: Fs, th: Thread)
    requires Switching(th.pc) && Defined(s, th.pc)
    ensures var e := RunSwitch(s, th); InodeOk(s.(slots := e.slots, cwd := e.cwd), e.thread.pc)
  {
  }

  lemma InodeStep(s: Fs, t: nat, a: Action)
    requires LockInv(s) && InodeInv(s) && Enabled(s, t, a)
    ensures InodeInv(Apply(s, t, a))
  {
    var th, s' := s.threads[t], Apply(s, t, a);
    forall u | 0 <= u < |s'.threads|
      ensures InodeOk(s', s'.threads[u].pc)
    {
      hide RunLocked, RunDropped, RunSwitch;
      if u == t {
        if a.Proceed? && th.pc.Locked? {
          LockedInode(s, th, a.outcome);
        } else if a.Proceed? && th.pc.Dropped? {
          DroppedInode(s, t, th, a.outcome);
        } else if a.Proceed? && Switching(th.pc) {
          SwitchInode(s, th);
        }
      } else if InSection(s.threads[u].pc) {
        assert !InSection(th.pc);
        StepOutside(s, t, a);
      }
    }
  }

  /** A release that reaches 0 finds no slot, no holder and no other pending release. */
  lemma ZeroIsFree(s: Fs, g: Graph)
    requires WindsInv(s) && Winds(s.slots, g) <= 0
    ensures SlotRefs(s.slots, g) == 0
    ensures forall u :: 0 <= u < |s.threads| ==> ThreadRefs(s.threads[u], g) == 0
  {
    assert Winds(s.slots, g) == SlotRefs(s.slots, g) + Total(s.threads, RefsOn(g));
    forall u | 0 <= u < |s.threads|
      ensures ThreadRefs(s.threads[u], g) == 0
    {
      TotalAtLeast(s.threads, u, RefsOn(g));
    }
  }

  predicate DecideMove(s: Fs, pc: Pc, e: Effect) {
    && (e.thread.pc.Decide? ==>
          && pc == Locked(Release(e.thread.pc.g))
          && e.thread.pc.ref == Winds(e.slots, e.thread.pc.g) && e.thread.pc.seen == e.slots.active)
    && (e.slots.decided != s.slots.decided ==>
          && pc.Locked? && pc.sec.Release? && Winds(e.slots, pc.sec.g) == 0
          && e.slots.decided == s.slots.decided[pc.sec.g := Decided(s.slots, pc.sec.g) + 1]
          && e.thread.pc == Decide(pc.sec.g, 0, e.slots.active))
  }

  lemma BeginDecides(s: Fs, th: Thread, a: Action)
    requires !a.Proceed? && th.pc.Idle? && CanCall(s, th, a)
    ensures DecideMove(s, th.pc, Begin(s, th, a))
  {
  }

  lemma LockedDecides(s: Fs, th: Thread, outcome: Outcome)
    requires th.pc.Locked? && Defined(s, th.pc)
    ensures DecideMove(s, th.pc, RunLocked(s, th, th.pc.sec, outcome))
  {
  }

  lemma DroppedDecides(s: Fs, t: nat, th: Thread, outcome: Outcome)
    requires th.pc.Dropped? && Defined(s, th.pc)
    ensures DecideMove(s, th.pc, RunDropped(s, t, th, th.pc.job, outcome))
  {
  }

  lemma StepDecides(s: Fs, t: nat, a: Action)
    requires Enabled(s, t, a)
    ensures DecideMove(s, s.threads[t].pc, StepEffect(s, t, a))
  {
    hide Begin, RunLocked, RunDropped;
    var th := s.threads[t];
    if !a.Proceed? {
      BeginDecides(s, th, a);
    } else if th.pc.Locked? {
      LockedDecides(s, th, a.outcome);
    } else if th.pc.Dropped? {
      DroppedDecides(s, t, th, a.outcome);
    }
  }

  lemma DecideStep(s: Fs, t: nat, a: Action)
    requires DecideInv(s) && Enabled(s, t, a) && WindsInv(Apply(s, t, a))
    ensures DecideInv(Apply(s, t, a))
  {
    StepDecides(s, t, a);
    hide StepEffect;
    var s' := Apply(s, t, a);
    if s'.threads[t].pc.Decide? {
      var g := s'.threads[t].pc.g;
      assert Winds(s'.slots, g) == SlotRefs(s'.slots, g) + Total(s'.threads, RefsOn(g));
    }
  }

  lemma InitialInv(s: Fs)
    requires Initial(s)
    ensures Inv(s)
  {
    forall g: Graph
      ensures Total(s.threads, RefsOn(g)) == 0 && Total(s.threads, HoldsOf(g)) == 0
    {
      TotalZero(s.threads, RefsOn(g));
      TotalZero(s.threads, HoldsOf(g));
    }
  }

  lemma StepInv(s: Fs, t: nat, a: Action)
    requires Inv(s) && Enabled(s, t, a)
    ensures Inv(Apply(s, t, a))
  {
    LockStep(s, t, a);
    SlotStep(s, t, a);
    WindsStep(s, t, a);
    FdRefsStep(s, t, a);
    FilesStep(s, t, a);
    SwitchStep(s, t, a);
    CaptureStep(s, t, a);
    InodeStep(s, t, a);
    DecideStep(s, t, a);
  }

  /** Every state of every run satisfies the invariants. */
  lemma {:induction false} RunInv(run: seq<Fs>, moves: seq<Move>, k: nat)
    requires IsRun(run, moves) && k < |run|
    ensures Inv(run[k])
  {
    hide Inv, Initial;
    if k == 0 {
      InitialInv(run[0]);
    } else {
      RunInv(run, moves, k - 1);
      assert Joined(run[k - 1], moves[k - 1], run[k]);
      StepInv(run[k - 1], moves[k - 1].thread, moves[k - 1].action);
    }
  }
}
