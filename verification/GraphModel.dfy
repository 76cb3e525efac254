/**
  The client side of a volume-graph switch, as a system of interleaved steps.

  `Fs` is `struct glfs` together with the graphs it refers to, the open files
  and the threads that run inside the library.  A step of a thread runs from one
  operation on `fs->mutex` to the next.  Calls that leave the process (lookup,
  open, fsync, ...) happen while the mutex is dropped; what they answer is part
  of the action.
*/
module GraphModel {
  import opened Common

  type Graph = nat
  type Gfid = nat

  const NULL_GFID: Gfid := 0

  datatype Inode = Inode(graph: Graph, gfid: Gfid)

  datatype OpenFlag = Trunc | Excl | Creat | Other(bit: nat)

  const CREATION_FLAGS: set<OpenFlag> := {Trunc, Excl, Creat}

  /** fd_t: `refs` is its reference count. */
  datatype Fd = Fd(inode: Inode, dir: bool, flags: set<OpenFlag>, refs: int)

  /** glfs_fd: the current fd_t (None once freed) and what it was opened as. */
  datatype Glfd = Glfd(fd: Option<nat>, gfid: Gfid, dir: bool, flags: set<OpenFlag>)

  /** An open or opendir sent to a new graph. */
  datatype Reopen = Reopen(glfdFlags: set<OpenFlag>, dir: bool, flags: set<OpenFlag>)

  /**
    Locals of `__glfs_active_subvol`: the captured graph, the refreshed cwd and
    the place in the walk over openfds.  The other fields record history: the
    glfds visited so far and those whose migration failed, and the cwd and the
    number of arrived graphs at the time of capture.
  */
  datatype Switch = Switch(graph: Graph, newCwd: Option<Inode>, pos: nat,
                           visited: seq<nat>, failed: set<nat>,
                           cwd0: Option<Inode>, fds0: seq<nat>, arrivals0: nat)

  /** The critical sections: those of `glfs_lock`, and the two raw ones. */
  datatype Section =
    | Active
    | Release(g: Graph)
    | Setup(g: Graph)
    | Init
    | ResolveFd(g: Graph, glfd: nat)
    | GetCwd
    | SetCwd(inode: Inode)
    | ResolveObject(g: Graph, handle: Inode)
    | Bind(glfd: nat)
    | Destroy(glfd: nat)

  /** Work done inside a section while the mutex is dropped. */
  datatype Job =
    | LookupRoot(sw: Switch)
    | RefreshCwd(sw: Switch)
    | MigrateOpen(sw: Switch)
    | RefreshAgain(sw: Switch, target: Graph)
    | MigrateOne(g: Graph, glfd: nat)
    | RefreshForGet(target: Graph)
    | RefreshForSet(target: Graph, inode: Inode)
    | RefreshObject(g: Graph, handle: Inode, target: Graph)

  /** What a section hands to its caller. */
  datatype Out =
    | Nothing
    | GotFd(g: Graph, glfd: nat, fd: nat)
    | GotCwd(cwd: Inode)
    | GotInode(g: Graph, handle: Inode, inode: Inode)

  datatype Pc =
    | Idle
    | Waiting(sec: Section)
    | Locked(sec: Section)
    | Dropped(job: Job)
    | AfterLookup(sw: Switch)
    | WalkFds(sw: Switch)
    | AfterOpen(sw: Switch, fd: Option<nat>)
    | Install(sw: Switch)
    | InstallCwd(sw: Switch)
    | Tail(ret: Option<Graph>, done: Option<Switch>)
    | AfterMigrate(g: Graph, glfd: nat, fd: Option<nat>)
    | Leave(out: Out)
    | Decide(g: Graph, ref: int, seen: Option<Graph>)
    | DestroyTail(glfd: nat)

  /** A thread with the graphs its operations hold and the fds it has been given. */
  datatype Thread = Thread(pc: Pc, held: multiset<Graph>, fds: multiset<nat>)

  /** init, migration_in_progress and the owner of the mutex. */
  datatype Lock = Lock(init: bool, migrating: bool, mutex: Option<nat>)

  /**
    The graph slots, and per graph `winds` and `switched`.  `arrivals` counts the
    accepted graphs and `decided` the teardown decisions taken per graph.
  */
  datatype Slots = Slots(active: Option<Graph>, next: Option<Graph>, previous: Option<Graph>,
                         winds: map<Graph, int>, switched: set<Graph>,
                         arrivals: nat, decided: map<Graph, nat>)

  /** The openfds list, all glfds and fds, and the opens sent during migration. */
  datatype Files = Files(openfds: seq<nat>, glfds: seq<Glfd>, fds: seq<Fd>, reopens: seq<Reopen>)

  /** struct glfs and the threads that use it. */
  datatype Fs = Fs(lock: Lock, slots: Slots, files: Files, cwd: Option<Inode>, threads: seq<Thread>)

  datatype Outcome = Ok | Fail | FailAfterOpen

  datatype Action =
    | CallActiveSubvol
    | CallSubvolDone(g: Graph)
    | CallSetup(g: Graph)
    | CallInitDone
    | CallOpen(inode: Inode, dir: bool, flags: set<OpenFlag>, success: bool)
    | CallDup(fd: nat)
    | CallClose(glfd: nat)
    | CallResolveFd(g: Graph, glfd: nat)
    | CallPutFd(fd: nat)
    | CallGetCwd
    | CallSetCwd(inode: Inode)
    | CallResolveObject(g: Graph, handle: Inode)
    | Proceed(outcome: Outcome)

  function Winds(sl: Slots, g: Graph): int {
    if g in sl.winds then sl.winds[g] else 0
  }

  function Decided(sl: Slots, g: Graph): nat {
    if g in sl.decided then sl.decided[g] else 0
  }

  function AddWind(sl: Slots, g: Graph, d: int): Slots {
    sl.(winds := sl.winds[g := Winds(sl, g) + d])
  }

  predicate HasFd(fi: Files, glfd: nat) {
    glfd < |fi.glfds| && fi.glfds[glfd].fd.Some? && fi.glfds[glfd].fd.value < |fi.fds|
  }

  function FdOf(fi: Files, glfd: nat): (f: nat)
    requires HasFd(fi, glfd)
  {
    fi.glfds[glfd].fd.value
  }

  function Ref(fi: Files, f: nat): Files
    requires f < |fi.fds|
  {
    fi.(fds := fi.fds[f := fi.fds[f].(refs := fi.fds[f].refs + 1)])
  }

  function Unref(fi: Files, f: nat): Files
    requires f < |fi.fds|
  {
    fi.(fds := fi.fds[f := fi.fds[f].(refs := fi.fds[f].refs - 1)])
  }

  function SetFd(fi: Files, glfd: nat, f: Option<nat>): Files
    requires glfd < |fi.glfds|
  {
    fi.(glfds := fi.glfds[glfd := fi.glfds[glfd].(fd := f)])
  }

  /** graph_setup and init_done come bottom-up and take the bare mutex. */
  predicate Raw(sec: Section) {
    sec.Setup? || sec.Init?
  }

  /** The program points at which a thread holds the mutex. */
  predicate Owns(pc: Pc) {
    !(pc.Idle? || pc.Waiting? || pc.Dropped? || pc.Decide? || pc.DestroyTail?)
  }

  /** The program points between a `glfs_lock` and the matching `glfs_unlock`. */
  predicate InSection(pc: Pc) {
    pc.Dropped? || (Owns(pc) && !(pc.Locked? && Raw(pc.sec)))
  }

  /** The glfd a thread is about to bind, unlink or free. */
  function OwnedGlfd(pc: Pc): Option<nat> {
    match pc
    case Waiting(Bind(i)) => Some(i)
    case Waiting(Destroy(i)) => Some(i)
    case Locked(Bind(i)) => Some(i)
    case Locked(Destroy(i)) => Some(i)
    case DestroyTail(i) => Some(i)
    case _ => None
  }

  /** The glfd a thread is resolving to an fd. */
  function UsedGlfd(pc: Pc): Option<nat> {
    match pc
    case Waiting(ResolveFd(_, i)) => Some(i)
    case Locked(ResolveFd(_, i)) => Some(i)
    case Dropped(MigrateOne(_, i)) => Some(i)
    case AfterMigrate(_, i, _) => Some(i)
    case _ => None
  }

  predicate BeingClosed(ths: seq<Thread>, glfd: nat) {
    exists u :: 0 <= u < |ths| && OwnedGlfd(ths[u].pc) == Some(glfd)
  }

  predicate BeingUsed(ths: seq<Thread>, glfd: nat) {
    exists u :: 0 <= u < |ths| && UsedGlfd(ths[u].pc) == Some(glfd)
  }

  // ----- calls that run while the mutex is dropped -----

  /** glfs_refresh_inode_safe: a lookup by gfid that succeeds links that gfid in the target's table. */
  function Refresh(target: Graph, inode: Inode, outcome: Outcome): Option<Inode> {
    if inode.graph == target then Some(inode)
    else if outcome.Ok? then Some(Inode(target, inode.gfid))
    else None
  }

  datatype Migrated = Migrated(files: Files, fd: Option<nat>)

  /** glfs_migrate_fd_safe; `Fail` stops before the open, `FailAfterOpen` after it. */
  function MigrateFd(fi: Files, target: Graph, f: nat, outcome: Outcome): Migrated
    requires f < |fi.fds|
  {
    var fd := fi.fds[f];
    var reopen := Reopen(fd.flags, fd.dir, if fd.dir then {} else fd.flags - CREATION_FLAGS);
    if fd.inode.graph == target then
      Migrated(Ref(fi, f), Some(f))
    else if outcome.Fail? then
      Migrated(fi, None)
    else if outcome.FailAfterOpen? then
      Migrated(fi.(reopens := fi.reopens + [reopen]), None)
    else
      var newfd := Fd(Inode(target, fd.inode.gfid), fd.dir, fd.flags, 1);
      Migrated(fi.(fds := fi.fds + [newfd], reopens := fi.reopens + [reopen]), Some(|fi.fds|))
  }

  // ----- what a thread needs for its next step -----

  /** What the library asks of its callers. */
  predicate CanCall(s: Fs, th: Thread, a: Action) {
    match a
    case CallSubvolDone(g) => g in th.held
    case CallOpen(inode, _, _, _) => inode.graph in th.held
    case CallDup(f) => f in th.fds && f < |s.files.fds|
    case CallPutFd(f) => f in th.fds && f < |s.files.fds|
    case CallClose(i) => i in s.files.openfds && !BeingClosed(s.threads, i) && !BeingUsed(s.threads, i)
    case CallResolveFd(g, i) => g in th.held && i in s.files.openfds && !BeingClosed(s.threads, i)
    case CallSetCwd(_) => th.held != multiset{}
    case CallResolveObject(g, _) => g in th.held
    case _ => true
  }

  predicate LockReady(lock: Lock, t: nat, pc: Pc) {
    && (Owns(pc) ==> lock.mutex == Some(t))
    && (pc.Dropped? ==> lock.mutex.None?)
    && (pc.Waiting? ==> lock.mutex.None? && (Raw(pc.sec) || (lock.init && !lock.migrating)))
  }

  /** The pointers the next step follows are valid. */
  predicate Defined(s: Fs, pc: Pc) {
    match pc
    case Locked(ResolveFd(_, i)) => HasFd(s.files, i)
    case Locked(GetCwd) => s.cwd.Some? ==> s.slots.active.Some?
    case Locked(SetCwd(_)) => s.slots.active.Some?
    case Locked(ResolveObject(_, _)) => s.slots.active.Some?
    case Dropped(RefreshCwd(_)) => s.cwd.Some?
    case Dropped(MigrateOpen(sw)) => sw.pos < |s.files.openfds| && HasFd(s.files, s.files.openfds[sw.pos])
    case Dropped(RefreshAgain(sw, _)) => sw.newCwd.Some?
    case Dropped(MigrateOne(_, i)) => HasFd(s.files, i)
    case Dropped(RefreshForGet(_)) => s.cwd.Some?
    case WalkFds(sw) => sw.pos < |s.files.openfds| ==> HasFd(s.files, s.files.openfds[sw.pos])
    case AfterOpen(sw, f) =>
      && sw.pos < |s.files.openfds| && HasFd(s.files, s.files.openfds[sw.pos])
    case InstallCwd(sw) => s.slots.active.Some? && sw.newCwd.Some?
    case AfterMigrate(_, i, f) => HasFd(s.files, i) && (f.Some? ==> f.value < |s.files.fds|)
    case DestroyTail(i) => HasFd(s.files, i)
    case _ => true
  }

  predicate Enabled(s: Fs, t: nat, a: Action) {
    && t < |s.threads|
    && var pc := s.threads[t].pc;
       if a.Proceed? then !pc.Idle? && LockReady(s.lock, t, pc) && Defined(s, pc)
       else pc.Idle? && CanCall(s, s.threads[t], a)
  }

  // ----- the steps -----

  /** The effect of a step: the shared state and the stepping thread after it. */
  datatype Effect = Effect(lock: Lock, slots: Slots, files: Files, cwd: Option<Inode>, thread: Thread)

  function Stay(s: Fs, th: Thread, pc: Pc): Effect {
    Effect(s.lock, s.slots, s.files, s.cwd, th.(pc := pc))
  }

  /** migration_in_progress = 1; unlock. */
  function Drop(s: Fs, th: Thread, job: Job): Effect {
    Stay(s, th, Dropped(job)).(lock := s.lock.(migrating := true, mutex := None))
  }

  /** lock; migration_in_progress = 0. */
  function Retake(s: Fs, t: nat, th: Thread, pc: Pc): Effect {
    Stay(s, th, pc).(lock := s.lock.(migrating := false, mutex := Some(t)))
  }

  function Unlock(s: Fs, th: Thread, pc: Pc): Effect {
    Stay(s, th, pc).(lock := s.lock.(mutex := None))
  }

  function NewGlfd(s: Fs, th: Thread, files: Files, f: nat, bind: bool): Effect
    requires f < |files.fds|
  {
    var i, fd := |files.glfds|, files.fds[f];
    Stay(s, th, Waiting(if bind then Bind(i) else Destroy(i)))
    .(files := files.(glfds := files.glfds + [Glfd(Some(f), fd.inode.gfid, fd.dir, fd.flags)]))
  }

  /** An idle thread enters the library. */
  function Begin(s: Fs, th: Thread, a: Action): Effect
    requires !a.Proceed? && th.pc.Idle? && CanCall(s, th, a)
  {
    match a
    case CallActiveSubvol => Stay(s, th, Waiting(Active))
    case CallSubvolDone(g) => Stay(s, th.(held := th.held - multiset{g}), Waiting(Release(g)))
    case CallSetup(g) => Stay(s, th, Waiting(Setup(g)))
    case CallInitDone => Stay(s, th, Waiting(Init))
    case CallOpen(inode, dir, flags, success) =>
      NewGlfd(s, th, s.files.(fds := s.files.fds + [Fd(inode, dir, flags, 1)]), |s.files.fds|, success)
    case CallDup(f) => NewGlfd(s, th, Ref(s.files, f), f, true)
    case CallClose(i) => Stay(s, th, Waiting(Destroy(i)))
    case CallResolveFd(g, i) => Stay(s, th, Waiting(ResolveFd(g, i)))
    case CallPutFd(f) => Stay(s, th.(fds := th.fds - multiset{f}), Idle).(files := Unref(s.files, f))
    case CallGetCwd => Stay(s, th, Waiting(GetCwd))
    case CallSetCwd(inode) => Stay(s, th, Waiting(SetCwd(inode)))
    case CallResolveObject(g, handle) => Stay(s, th, Waiting(ResolveObject(g, handle)))
  }

  /** The part of a section between `glfs_lock` and the first drop or the unlock. */
  function RunLocked(s: Fs, th: Thread, sec: Section, outcome: Outcome): Effect
    requires Defined(s, Locked(sec))
  {
    match sec
    case Active =>
      if s.slots.next.None? then Stay(s, th, Tail(s.slots.active, None))
      else Drop(s, th, LookupRoot(Switch(s.slots.next.value, None, 0, [], {}, s.cwd,
                                         s.files.openfds, s.slots.arrivals)))
    case Release(g) =>
      var sl := AddWind(s.slots, g, -1);
      var ref := Winds(sl, g);
      Unlock(s, th, Decide(g, ref, sl.active))
      .(slots := if ref == 0 then sl.(decided := sl.decided[g := Decided(sl, g) + 1]) else sl)
    case Setup(g) =>
      var sl := s.slots;
      if g in sl.switched || sl.active == Some(g) || sl.next == Some(g) || !outcome.Ok? then
        Unlock(s, th, Idle)
      else
        Unlock(s, th, if sl.next.Some? then Waiting(Release(sl.next.value)) else Idle)
        .(slots := AddWind(sl, g, 1).(next := Some(g), arrivals := sl.arrivals + 1))
    case Init => Stay(s, th, Idle).(lock := s.lock.(init := true, mutex := None))
    case ResolveFd(g, i) =>
      var f := FdOf(s.files, i);
      if s.files.fds[f].inode.graph == g
      then Stay(s, th, Leave(GotFd(g, i, f))).(files := Ref(s.files, f))
      else Drop(s, th, MigrateOne(g, i))
    case GetCwd =>
      if s.cwd.None? then Unlock(s, th, Idle)
      else if s.slots.active == Some(s.cwd.value.graph) then Stay(s, th, Leave(GotCwd(s.cwd.value)))
      else Drop(s, th, RefreshForGet(s.slots.active.value))
    case SetCwd(inode) =>
      if s.slots.active == Some(inode.graph) then Unlock(s, th, Idle).(cwd := Some(inode))
      else Drop(s, th, RefreshForSet(s.slots.active.value, inode))
    case ResolveObject(g, handle) =>
      if handle.graph == g then Stay(s, th, Leave(GotInode(g, handle, handle)))
      else Drop(s, th, RefreshObject(g, handle, s.slots.active.value))
    case Bind(i) =>
      Unlock(s, th, Idle).(files := s.files.(openfds := s.files.openfds + [i]))
    case Destroy(i) =>
      Unlock(s, th, DestroyTail(i)).(files := s.files.(openfds := Without(s.files.openfds, i)))
  }

  /** list_del_init: unlinks the element, or nothing if it is not linked. */
  function Without(xs: seq<nat>, x: nat): (ys: seq<nat>)
    ensures x !in ys
    ensures forall y :: y != x ==> (y in ys <==> y in xs)
    ensures Distinct(xs) ==> Distinct(ys)
    decreases |xs|
  {
    if xs == [] then []
    else if xs[0] == x then Without(xs[1..], x)
    else
      var rest := Without(xs[1..], x);
      assert forall y :: y in xs <==> y == xs[0] || y in xs[1..];
      assert Distinct(xs) ==> xs[0] !in xs[1..] && Distinct(xs[1..]);
      [xs[0]] + rest
  }

  predicate Distinct(xs: seq<nat>) {
    forall i, j :: 0 <= i < j < |xs| ==> xs[i] != xs[j]
  }

  /** The call made while the mutex was dropped returns, and the mutex is taken back. */
  function RunDropped(s: Fs, t: nat, th: Thread, job: Job, outcome: Outcome): Effect
    requires Defined(s, Dropped(job))
  {
    match job
    case LookupRoot(sw) =>
      Retake(s, t, th, if outcome.Ok? then AfterLookup(sw) else Tail(None, None))
    case RefreshCwd(sw) =>
      var r := Refresh(sw.graph, s.cwd.value, outcome);
      Retake(s, t, th, if r.Some? then WalkFds(sw.(newCwd := r)) else Tail(None, None))
    case MigrateOpen(sw) =>
      var m := MigrateFd(s.files, sw.graph, FdOf(s.files, s.files.openfds[sw.pos]), outcome);
      Retake(s, t, th, AfterOpen(sw, m.fd)).(files := m.files)
    case RefreshAgain(sw, target) =>
      var r := Refresh(target, sw.newCwd.value, outcome);
      Retake(s, t, th, Tail(Some(sw.graph), Some(sw))).(cwd := if r.Some? then r else s.cwd)
    case MigrateOne(g, i) =>
      var m := MigrateFd(s.files, g, FdOf(s.files, i), outcome);
      Retake(s, t, th, AfterMigrate(g, i, m.fd)).(files := m.files)
    case RefreshForGet(target) =>
      var r := Refresh(target, s.cwd.value, outcome);
      Retake(s, t, th, Leave(if r.Some? then GotCwd(r.value) else Nothing))
    case RefreshForSet(target, inode) =>
      var r := Refresh(target, inode, outcome);
      Retake(s, t, th, Leave(Nothing)).(cwd := if r.Some? then r else s.cwd)
    case RefreshObject(g, handle, target) =>
      var r := Refresh(target, handle, outcome);
      Retake(s, t, th, Leave(if r.Some? then GotInode(g, handle, r.value) else Nothing))
  }

  /** One turn of the loop in `__glfs_migrate_openfds`, up to the migration itself. */
  function RunWalk(s: Fs, th: Thread, sw: Switch): Effect
    requires Defined(s, WalkFds(sw))
  {
    if sw.pos >= |s.files.openfds| then Stay(s, th, Install(sw))
    else
      var i := s.files.openfds[sw.pos];
      if s.files.fds[FdOf(s.files, i)].inode.gfid == NULL_GFID
      then Stay(s, th, WalkFds(sw.(pos := sw.pos + 1, visited := sw.visited + [i])))
      else Drop(s, th, MigrateOpen(sw))
  }

  /** The rest of the turn: the glfd takes over the migrated fd, if there is one. */
  function RunAfterOpen(s: Fs, th: Thread, sw: Switch, f: Option<nat>): Effect
    requires Defined(s, AfterOpen(sw, f))
  {
    var i := s.files.openfds[sw.pos];
    var sw' := sw.(pos := sw.pos + 1, visited := sw.visited + [i]);
    if f.Some?
    then Stay(s, th, WalkFds(sw')).(files := SetFd(Unref(s.files, FdOf(s.files, i)), i, f))
    else Stay(s, th, WalkFds(sw'.(failed := sw.failed + {i})))
  }

  /** The slots are swapped; the next slot is read again, not the captured graph. */
  function RunInstall(s: Fs, th: Thread, sw: Switch): Effect {
    Stay(s, th, if sw.newCwd.Some? then InstallCwd(sw) else Tail(Some(sw.graph), Some(sw)))
    .(slots := s.slots.(previous := s.slots.active, active := s.slots.next, next := None))
  }

  function RunInstallCwd(s: Fs, th: Thread, sw: Switch): Effect
    requires Defined(s, InstallCwd(sw))
  {
    if s.slots.active == Some(sw.newCwd.value.graph)
    then Stay(s, th, Tail(Some(sw.graph), Some(sw))).(cwd := sw.newCwd)
    else Drop(s, th, RefreshAgain(sw, s.slots.active.value))
  }

  /** The end of `priv_glfs_active_subvol`'s section. */
  function RunTail(s: Fs, th: Thread, ret: Option<Graph>): Effect {
    var sl := if ret.Some? then AddWind(s.slots, ret.value, 1) else s.slots;
    var th' := if ret.Some? then th.(held := th.held + multiset{ret.value}) else th;
    if sl.previous.Some?
    then Unlock(s, th', Waiting(Release(sl.previous.value)))
         .(slots := sl.(previous := None, switched := sl.switched + {sl.previous.value}))
    else Unlock(s, th', Idle).(slots := sl)
  }

  /** The rest of `__glfs_resolve_fd` after a migration. */
  function RunAfterMigrate(s: Fs, th: Thread, g: Graph, i: nat, f: Option<nat>): Effect
    requires Defined(s, AfterMigrate(g, i, f))
  {
    if f.None? then Stay(s, th, Leave(Nothing))
    else
      Stay(s, th, Leave(GotFd(g, i, f.value)))
      .(files := if s.slots.active == Some(g)
                 then SetFd(Ref(Unref(s.files, FdOf(s.files, i)), f.value), i, f)
                 else s.files)
  }

  function RunLeave(s: Fs, th: Thread, out: Out): Effect {
    Unlock(s, if out.GotFd? then th.(fds := th.fds + multiset{out.fd}) else th, Idle)
  }

  function RunDestroyTail(s: Fs, th: Thread, i: nat): Effect
    requires Defined(s, DestroyTail(i))
  {
    Stay(s, th, Idle).(files := SetFd(Unref(s.files, FdOf(s.files, i)), i, None))
  }

  predicate Switching(pc: Pc) {
    pc.AfterLookup? || pc.WalkFds? || pc.AfterOpen? || pc.Install? || pc.InstallCwd? || pc.Tail?
  }

  /** A step of `__glfs_active_subvol` or its caller that starts with the mutex held. */
  function RunSwitch(s: Fs, th: Thread): Effect
    requires Switching(th.pc) && Defined(s, th.pc)
  {
    match th.pc
    case AfterLookup(sw) =>
      if s.cwd.Some? then Drop(s, th, RefreshCwd(sw)) else Stay(s, th, WalkFds(sw))
    case WalkFds(sw) => RunWalk(s, th, sw)
    case AfterOpen(sw, f) => RunAfterOpen(s, th, sw, f)
    case Install(sw) => RunInstall(s, th, sw)
    case InstallCwd(sw) => RunInstallCwd(s, th, sw)
    case Tail(ret, _) => RunTail(s, th, ret)
  }

  /** One step of a thread that is inside the library. */
  function Continue(s: Fs, t: nat, th: Thread, outcome: Outcome): Effect
    requires !th.pc.Idle? && LockReady(s.lock, t, th.pc) && Defined(s, th.pc)
  {
    if Switching(th.pc) then RunSwitch(s, th)
    else
      match th.pc
      case Waiting(sec) => Stay(s, th, Locked(sec)).(lock := s.lock.(mutex := Some(t)))
      case Locked(sec) => RunLocked(s, th, sec, outcome)
      case Dropped(job) => RunDropped(s, t, th, job, outcome)
      case AfterMigrate(g, i, f) => RunAfterMigrate(s, th, g, i, f)
      case Leave(out) => RunLeave(s, th, out)
      case Decide(_, _, _) => Stay(s, th, Idle)
      case DestroyTail(i) => RunDestroyTail(s, th, i)
  }

  function StepEffect(s: Fs, t: nat, a: Action): Effect
    requires Enabled(s, t, a)
  {
    if a.Proceed? then Continue(s, t, s.threads[t], a.outcome) else Begin(s, s.threads[t], a)
  }

  function Apply(s: Fs, t: nat, a: Action): Fs
    requires Enabled(s, t, a)
  {
    var e := StepEffect(s, t, a);
    Fs(e.lock, e.slots, e.files, e.cwd, s.threads[t := e.thread])
  }

  // ----- runs -----

  ghost predicate Initial(s: Fs) {
    && s.lock == Lock(false, false, None)
    && s.slots == Slots(None, None, None, map[], {}, 0, map[])
    && s.files == Files([], [], [], [])
    && s.cwd.None?
    && (forall t :: 0 <= t < |s.threads| ==> s.threads[t] == Thread(Idle, multiset{}, multiset{}))
  }

  datatype Move = Move(thread: nat, action: Action)

  ghost predicate Joined(s: Fs, m: Move, s': Fs) {
    Enabled(s, m.thread, m.action) && s' == Apply(s, m.thread, m.action)
  }

  /** `run` is a sequence of states joined by moves of any threads in any order. */
  ghost predicate IsRun(run: seq<Fs>, moves: seq<Move>) {
    && |run| == |moves| + 1
    && Initial(run[0])
    && forall k :: 0 <= k < |moves| ==> Joined(run[k], moves[k], run[k + 1])
  }
}
