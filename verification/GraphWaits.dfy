/**
  Waiting in `glfs_lock`: a thread that finds the library not initialised, or a
  migration in progress, sleeps on the condition variable until somebody
  broadcasts.
*/
module GraphWaits {
  import opened Common
  import opened GraphModel
  import opened GraphLock
  import opened GraphRuns
  import opened GraphTheorems

  /** The state with the threads asleep; `callback` says that init_cbk is set. */
  datatype Waits = Waits(fs: Fs, asleep: set<nat>, callback: bool)

  datatype WaitMove = Sleep(thread: nat) | Run(thread: nat, action: Action)

  /** The condition of the two wait loops of `glfs_lock`. */
  predicate MustWait(lock: Lock) {
    !lock.init || lock.migrating
  }

  predicate Entering(pc: Pc) {
    pc.Waiting? && !Raw(pc.sec)
  }

  predicate CanMove(w: Waits, m: WaitMove) {
    && m.thread !in w.asleep
    && match m {
         case Sleep(t) =>
           t < |w.fs.threads| && Entering(w.fs.threads[t].pc) && w.fs.lock.mutex.None? && MustWait(w.fs.lock)
         case Run(t, a) => Enabled(w.fs, t, a)
       }
  }

  /** The end of a drop broadcasts; so does the end of the initialisation, unless there is a callback. */
  predicate Broadcasts(w: Waits, pc: Pc) {
    pc.Dropped? || (pc == Locked(Init) && !w.callback)
  }

  function Moved(w: Waits, m: WaitMove): Waits
    requires CanMove(w, m)
  {
    match m
    case Sleep(t) => w.(asleep := w.asleep + {t})
    case Run(t, a) =>
      Waits(Apply(w.fs, t, a), if Broadcasts(w, w.fs.threads[t].pc) then {} else w.asleep, w.callback)
  }

  ghost predicate MovedTo(w: Waits, m: WaitMove, w': Waits) {
    CanMove(w, m) && w' == Moved(w, m)
  }

  ghost predicate IsWaitRun(run: seq<Waits>, moves: seq<WaitMove>) {
    && |run| == |moves| + 1
    && Initial(run[0].fs) && run[0].asleep == {}
    && forall k :: 0 <= k < |moves| ==> MovedTo(run[k], moves[k], run[k + 1])
  }

  // ----- who sleeps, sleeps for a reason -----

  /** Sleepers wait to enter; without a callback, what they wait for is still to come. */
  ghost predicate SleepInv(w: Waits) {
    forall t :: t in w.asleep ==>
      t < |w.fs.threads| && Entering(w.fs.threads[t].pc) && (!w.callback ==> MustWait(w.fs.lock))
  }

  lemma SleepStep(w: Waits, m: WaitMove)
    requires SleepInv(w) && CanMove(w, m)
    ensures SleepInv(Moved(w, m)) && Moved(w, m).callback == w.callback
  {
    if m.Run? {
      StepMoves(w.fs, m.thread, m.action);
      hide StepEffect, Enabled;
    }
  }

  lemma {:induction false} WaitRunInv(run: seq<Waits>, moves: seq<WaitMove>, k: nat)
    requires IsWaitRun(run, moves) && k < |run|
    ensures Inv(run[k].fs) && SleepInv(run[k]) && run[k].callback == run[0].callback
    decreases k
  {
    hide Inv, Initial, SleepInv, Apply;
    if k == 0 {
      InitialInv(run[0].fs);
      NobodySleeps(run[0]);
    } else {
      WaitRunInv(run, moves, k - 1);
      assert MovedTo(run[k - 1], moves[k - 1], run[k]);
      SleepStep(run[k - 1], moves[k - 1]);
      if moves[k - 1].Run? {
        StepInv(run[k - 1].fs, moves[k - 1].thread, moves[k - 1].action);
      }
    }
  }

  lemma NobodySleeps(w: Waits)
    requires w.asleep == {}
    ensures SleepInv(w)
  {
  }

  // ----- progress -----

  /** Once the library is initialised, some thread that is awake can go on, if any thread is inside. */
  ghost predicate CanGoOn(w: Waits) {
    w.fs.lock.init && (exists t :: 0 <= t < |w.fs.threads| && !w.fs.threads[t].pc.Idle?) ==>
      exists u: nat :: u !in w.asleep && Enabled(w.fs, u, Proceed(Ok))
  }

  lemma AwakeGoesOn(w: Waits)
    requires Inv(w.fs) && SleepInv(w) && !w.callback
    ensures CanGoOn(w)
  {
    if w.fs.lock.init {
      if t :| 0 <= t < |w.fs.threads| && !w.fs.threads[t].pc.Idle? {
        var u := Runnable(w.fs, t);
        AlwaysDefined(w.fs, u);
        assert u !in w.asleep && Enabled(w.fs, u, Proceed(Ok));
      }
    }
  }

  /** No run ever gets stuck. */
  ghost predicate NeverStuck(callback: bool) {
    forall run: seq<Waits>, moves: seq<WaitMove>, k: nat ::
      IsWaitRun(run, moves) && k < |run| && run[0].callback == callback ==> CanGoOn(run[k])
  }

  /** Thread 0 falls asleep before thread 1 ends the initialisation without a broadcast. */
  lemma StuckRun()
    ensures !NeverStuck(true)
  {
    var idle := Thread(Idle, multiset{}, multiset{});
    var slots, files := Slots(None, None, None, map[], {}, 0, map[]), Files([], [], [], []);
    var waiting := idle.(pc := Waiting(GetCwd));
    var fs0 := Fs(Lock(false, false, None), slots, files, None, [idle, idle]);
    var fs1 := fs0.(threads := [waiting, idle]);
    var fs2 := fs0.(threads := [waiting, idle.(pc := Waiting(Init))]);
    var fs3 := fs0.(lock := Lock(false, false, Some(1)), threads := [waiting, idle.(pc := Locked(Init))]);
    var fs4 := fs0.(lock := Lock(true, false, None), threads := [waiting, idle]);
    var run := [Waits(fs0, {}, true), Waits(fs1, {}, true), Waits(fs1, {0}, true), Waits(fs2, {0}, true),
                Waits(fs3, {0}, true), Waits(fs4, {0}, true)];
    var moves := [Run(0, CallGetCwd), Sleep(0), Run(1, CallInitDone), Run(1, Proceed(Ok)), Run(1, Proceed(Ok))];
    assert Apply(fs0, 0, CallGetCwd) == fs1 by { assert [idle, idle][0 := waiting] == fs1.threads; }
    assert Apply(fs1, 1, CallInitDone) == fs2 by { assert fs1.threads[1 := fs2.threads[1]] == fs2.threads; }
    assert Apply(fs2, 1, Proceed(Ok)) == fs3 by { assert fs2.threads[1 := fs3.threads[1]] == fs3.threads; }
    assert Apply(fs3, 1, Proceed(Ok)) == fs4 by { assert fs3.threads[1 := fs4.threads[1]] == fs4.threads; }
    hide Apply;
    assert MovedTo(run[0], moves[0], run[1]);
    assert MovedTo(run[1], moves[1], run[2]);
    assert MovedTo(run[2], moves[2], run[3]);
    assert MovedTo(run[3], moves[3], run[4]);
    assert MovedTo(run[4], moves[4], run[5]);
    assert IsWaitRun(run, moves);
    assert !fs4.threads[0].pc.Idle? && !CanGoOn(run[5]);
  }

  /** With the broadcasts as they are, no run gets stuck exactly when no callback was given for the initialisation. */
  lemma NeverStuckIffNoCallback(callback: bool)
    ensures NeverStuck(callback) <==> !callback
  {
    hide CanGoOn;
    if callback {
      StuckRun();
    } else {
      forall run: seq<Waits>, moves: seq<WaitMove>, k: nat |
        IsWaitRun(run, moves) && k < |run| && run[0].callback == callback
        ensures CanGoOn(run[k])
      {
        WaitRunInv(run, moves, k);
        AwakeGoesOn(run[k]);
      }
    }
  }
}
