/** The lock discipline: `glfs_lock` sections exclude each other even while the mutex is dropped. */
module GraphLock {
  import opened Common
  import opened GraphModel

  ghost predicate MutexInv(s: Fs) {
    && (s.lock.mutex.Some? ==> s.lock.mutex.value < |s.threads|)
    && (forall t :: 0 <= t < |s.threads| ==> (Owns(s.threads[t].pc) <==> s.lock.mutex == Some(t)))
  }

  /** migration_in_progress is set exactly while some thread is inside a drop. */
  ghost predicate FlagInv(s: Fs) {
    s.lock.migrating <==> exists t :: 0 <= t < |s.threads| && s.threads[t].pc.Dropped?
  }

  ghost predicate Exclusive(s: Fs) {
    forall t, u | 0 <= t < |s.threads| && 0 <= u < |s.threads| ::
      InSection(s.threads[t].pc) && InSection(s.threads[u].pc) ==> t == u
  }

  ghost predicate LockInv(s: Fs) {
    MutexInv(s) && FlagInv(s) && Exclusive(s)
  }

  /** The six ways a step can move the mutex and the flag; only the end of the initialisation changes `init`. */
  predicate LockMove(lock: Lock, pc: Pc, t: nat, lock': Lock, pc': Pc) {
    && (if pc == Locked(Init) then lock'.init else lock'.init == lock.init)
    && MutexMove(lock, pc, t, lock', pc')
  }

  predicate MutexMove(lock: Lock, pc: Pc, t: nat, lock': Lock, pc': Pc) {
    || (!Owns(pc) && !pc.Dropped? && !Owns(pc') && !pc'.Dropped?        // outside
        && lock'.mutex == lock.mutex && lock'.migrating == lock.migrating)
    || (pc.Waiting? && pc' == Locked(pc.sec) && lock.mutex.None?        // lock
        && lock' == lock.(mutex := Some(t)) && (InSection(pc') ==> !lock.migrating))
    || (Owns(pc) && Owns(pc') && (InSection(pc) <==> InSection(pc')) && lock' == lock)   // inside
    || (Owns(pc) && InSection(pc) && pc'.Dropped?                       // drop
        && lock'.mutex.None? && lock'.migrating)
    || (pc.Dropped? && Owns(pc') && InSection(pc') && lock.mutex.None?  // retake
        && lock'.mutex == Some(t) && !lock'.migrating)
    || (Owns(pc) && !Owns(pc') && !pc'.Dropped?                         // unlock
        && lock'.mutex.None? && lock'.migrating == lock.migrating)
  }

  lemma BeginMoves(s: Fs, t: nat, th: Thread, a: Action)
    requires !a.Proceed? && th.pc.Idle? && CanCall(s, th, a)
    ensures var e := Begin(s, th, a); LockMove(s.lock, th.pc, t, e.lock, e.thread.pc)
  {
  }

  lemma LockedMoves(s: Fs, t: nat, th: Thread, outcome: Outcome)
    requires th.pc.Locked? && Defined(s, th.pc)
    ensures var e := RunLocked(s, th, th.pc.sec, outcome); LockMove(s.lock, th.pc, t, e.lock, e.thread.pc)
  {
  }

  lemma DroppedMoves(s: Fs, t: nat, th: Thread, outcome: Outcome)
    requires th.pc.Dropped? && LockReady(s.lock, t, th.pc) && Defined(s, th.pc)
    ensures var e := RunDropped(s, t, th, th.pc.job, outcome); LockMove(s.lock, th.pc, t, e.lock, e.thread.pc)
  {
  }

  lemma SwitchMoves(s: Fs, t: nat, th: Thread)
    requires Switching(th.pc) && LockReady(s.lock, t, th.pc) && Defined(s, th.pc)
    ensures var e := RunSwitch(s, th); LockMove(s.lock, th.pc, t, e.lock, e.thread.pc)
  {
  }

  lemma StepMoves(s: Fs, t: nat, a: Action)
    requires Enabled(s, t, a)
    ensures var e := StepEffect(s, t, a); LockMove(s.lock, s.threads[t].pc, t, e.lock, e.thread.pc)
  {
    hide Begin, RunLocked, RunDropped, RunSwitch;
    var th := s.threads[t];
    if !a.Proceed? {
      BeginMoves(s, t, th, a);
    } else if th.pc.Locked? {
      LockedMoves(s, t, th, a.outcome);
    } else if th.pc.Dropped? {
      DroppedMoves(s, t, th, a.outcome);
    } else if Switching(th.pc) {
      SwitchMoves(s, t, th);
    }
  }

  lemma LockStep(s: Fs, t: nat, a: Action)
    requires LockInv(s) && Enabled(s, t, a)
    ensures LockInv(Apply(s, t, a))
  {
    hide StepEffect;
    StepMoves(s, t, a);
    var s' := Apply(s, t, a);
    if s'.lock.migrating && !s'.threads[t].pc.Dropped? {
      var u :| 0 <= u < |s.threads| && s.threads[u].pc.Dropped?;
      assert s'.threads[u].pc.Dropped?;
    }
  }
}
