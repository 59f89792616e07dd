/**
 Wrappers, daemons and stop commands around one lock file and one state file. The lock is a flock: it belongs to an open
 file description, which a wrapper shares with the daemon it spawns. LOCK_UN through any descriptor of it unlocks, while
 closing a descriptor unlocks only if it was the last one. Any process may die at any time.
 */
module DaemonLock {
  import opened Common

  // ---- The lock file ----

  /** flock(LOCK_EX | LOCK_NB) through a description succeeds if the lock is free or held through that description. */
  predicate CanLock(locked: Option<nat>, ofd: nat) { locked == None || locked == Some(ofd) }

  /** LOCK_UN. */
  function Unlock(locked: Option<nat>, ofd: nat): Option<nat> { if locked == Some(ofd) then None else locked }

  /** Closing a descriptor; shared says whether others of the same description are open. */
  function Close(locked: Option<nat>, ofd: nat, shared: bool): Option<nat> {
    if shared then locked else Unlock(locked, ofd)
  }

  /** The lock and the number of open descriptors of each description. */
  class LockFile {
    var locked: Option<nat>
    var open: seq<nat>

    constructor ()
      ensures locked == None && open == []
    {
      locked, open := None, [];
    }
  }

  /** A FileLock of one process; descriptor is its file, None once it is closed or dropped. */
  class FileLock {
    const path: LockFile
    var descriptor: Option<nat>

    constructor (path: LockFile, descriptor: Option<nat>)
      ensures this.path == path && this.descriptor == descriptor
    {
      this.path, this.descriptor := path, descriptor;
    }

    predicate Valid()
      reads this, path
    {
      descriptor.Some? ==> descriptor.value < |path.open| && path.open[descriptor.value] > 0
    }

    /** TryAcquireLock: a new description of the file, closed again if the lock is held. */
    static method TryAcquire(path: LockFile) returns (lock: FileLock?)
      modifies path
      ensures lock == null <==> old(path.locked) != None
      ensures lock == null ==> path.locked == old(path.locked) && path.open == old(path.open) + [0]
      ensures lock != null ==>
                && fresh(lock) && lock.path == path && lock.Valid() && lock.descriptor == Some(|old(path.open)|)
                && path.locked == lock.descriptor && path.open == old(path.open) + [1]
    {
      var ofd := |path.open|;
      path.open := path.open + [1];
      if path.locked != None {
        path.open := path.open[ofd := 0];
        return null;
      }
      path.locked := Some(ofd);
      lock := new FileLock(path, Some(ofd));
    }

    /** AdoptLockFile on an inherited descriptor; it is closed if the lock is held through another description. */
    static method Adopt(path: LockFile, ofd: nat) returns (lock: FileLock?)
      requires ofd < |path.open| && path.open[ofd] > 0
      modifies path
      ensures lock != null <==> CanLock(old(path.locked), ofd)
      ensures lock != null ==> fresh(lock) && lock.path == path && lock.descriptor == Some(ofd) && lock.Valid()
      ensures path.locked == if lock != null then Some(ofd) else old(path.locked)
      ensures path.open == if lock != null then old(path.open) else old(path.open)[ofd := old(path.open)[ofd] - 1]
    {
      if path.locked != None && path.locked != Some(ofd) {
        path.open := path.open[ofd := path.open[ofd] - 1];
        return null;
      }
      path.locked := Some(ofd);
      lock := new FileLock(path, Some(ofd));
    }

    /** Close unlocks for everyone who shares the description; a second call does nothing. */
    method CloseLock()
      requires Valid()
      modifies this, path
      ensures descriptor == None
      ensures old(descriptor).None? ==> path.locked == old(path.locked) && path.open == old(path.open)
      ensures old(descriptor).Some? ==>
                var d := old(descriptor).value;
                path.locked == Unlock(old(path.locked), d) && path.open == old(path.open)[d := old(path.open)[d] - 1]
    {
      if descriptor.Some? {
        var d := descriptor.value;
        descriptor := None;
        if path.locked == Some(d) {
          path.locked := None;
        }
        path.open := path.open[d := path.open[d] - 1];
      }
    }

    /** DropReference only closes the descriptor. */
    method DropReference()
      requires Valid()
      modifies this, path
      ensures descriptor == None
      ensures old(descriptor).None? ==> path.locked == old(path.locked) && path.open == old(path.open)
      ensures old(descriptor).Some? ==>
                var d := old(descriptor).value;
                && path.open == old(path.open)[d := old(path.open)[d] - 1]
                && path.locked == Close(old(path.locked), d, old(path.open)[d] > 1)
    {
      if descriptor.Some? {
        var d := descriptor.value;
        descriptor := None;
        path.open := path.open[d := path.open[d] - 1];
        if path.open[d] == 0 && path.locked == Some(d) {
          path.locked := None;
        }
      }
    }
  }

  // ---- The processes ----

  /** The state file: which instance published it, and its process ID. Instances are numbered like processes. */
  datatype State = State(instance: nat, pid: nat)

  datatype WrapperStep =
    | Polling                         // Ensure's loop
    | Locked(ofd: nat)                // startUnderLock
    | Cleared(ofd: nat)               // after Store.Remove
    | Awaiting(ofd: nat, child: nat)  // waitForChild
    | Killing(ofd: nat, child: nat)   // it failed: stopChild
    | Stopped(ofd: nat, child: nat)   // stopChild has returned, Close is next
    | Done

  /** Withdrawn: after the removal of its state, which may have failed. */
  datatype DaemonStep = Born | Owning | Published | Withdrawn

  /** Tried: after the removal, which may have failed. */
  datatype StopStep =
    | Looking
    | Expecting(expected: State)
    | Holding(ofd: nat, expected: State)
    | Checked(ofd: nat, expected: State)
    | Tried(ofd: nat)
    | Over

  datatype Process =
    | Wrapper(w: WrapperStep)
    | Daemon(ofd: nat, pid: nat, d: DaemonStep)
    | Stopper(s: StopStep)
    | Dead

  /** The description that a process has open. */
  function OfdOf(p: Process): Option<nat> {
    match p
    case Wrapper(w) => if w.Polling? || w.Done? then None else Some(w.ofd)
    case Daemon(ofd, _, _) => Some(ofd)
    case Stopper(s) => if s.Looking? || s.Expecting? || s.Over? then None else Some(s.ofd)
    case Dead => None
  }

  /**
   nextOfd numbers the next open file description. killsInTime: a child that stopChild kills is dead when it returns.
   */
  datatype System = System(
    killsInTime: bool, processes: map<nat, Process>, locked: Option<nat>, state: Option<State>, nextOfd: nat)

  function Initial(killsInTime: bool): System { System(killsInTime, map[], None, None, 0) }

  datatype Action =
    | NewWrapper(p: nat)
    | NewStop(p: nat)
    | Serve(p: nat, pid: nat)            // serve without a wrapper, once it has the lock
    | WrapperLocks(p: nat)
    | WrapperClears(p: nat)
    | WrapperSpawns(p: nat, child: nat, pid: nat)
    | WrapperHandsOver(p: nat)
    | WrapperFails(p: nat)
    | WrapperKills(p: nat)
    | WrapperKillTimesOut(p: nat)
    | WrapperUnlocks(p: nat)             // the deferred Close of startUnderLock
    | DaemonAdopts(p: nat)
    | DaemonSaves(p: nat)
    | DaemonRemoves(p: nat)
    | DaemonRemoveFails(p: nat)
    | DaemonUnlocks(p: nat)
    | StopLoads(p: nat)
    | StopLocks(p: nat)
    | StopChecks(p: nat)
    | StopRemoves(p: nat)
    | StopRemoveFails(p: nat)
    | StopUnlocks(p: nat)
    | Die(p: nat)

  predicate IsWrapper(y: System, p: nat) { p in y.processes && y.processes[p].Wrapper? }

  predicate IsDaemon(y: System, p: nat) { p in y.processes && y.processes[p].Daemon? }

  predicate IsStop(y: System, p: nat) { p in y.processes && y.processes[p].Stopper? }

  predicate MayWithdraw(y: System, p: nat) {
    IsDaemon(y, p) && (y.processes[p].d.Owning? || y.processes[p].d.Published?)
  }

  predicate Enabled(y: System, a: Action) {
    match a
    case NewWrapper(p) => p !in y.processes
    case NewStop(p) => p !in y.processes
    case Serve(p, _) => p !in y.processes && y.locked == None
    case WrapperLocks(p) => IsWrapper(y, p) && y.processes[p].w.Polling? && y.locked == None
    case WrapperClears(p) => IsWrapper(y, p) && y.processes[p].w.Locked?
    case WrapperSpawns(p, child, _) => IsWrapper(y, p) && y.processes[p].w.Cleared? && child !in y.processes
    case WrapperHandsOver(p) => IsWrapper(y, p) && y.processes[p].w.Awaiting?
    case WrapperFails(p) => IsWrapper(y, p) && y.processes[p].w.Awaiting?
    case WrapperKills(p) => IsWrapper(y, p) && y.processes[p].w.Killing? && y.processes[p].w.child in y.processes
    case WrapperKillTimesOut(p) => IsWrapper(y, p) && y.processes[p].w.Killing? && !y.killsInTime
    case WrapperUnlocks(p) =>
      IsWrapper(y, p) && (y.processes[p].w.Locked? || y.processes[p].w.Cleared? || y.processes[p].w.Stopped?)
    case DaemonAdopts(p) => IsDaemon(y, p) && y.processes[p].d.Born? && CanLock(y.locked, y.processes[p].ofd)
    case DaemonSaves(p) => IsDaemon(y, p) && y.processes[p].d.Owning?
    case DaemonRemoves(p) => MayWithdraw(y, p)
    case DaemonRemoveFails(p) => MayWithdraw(y, p)
    case DaemonUnlocks(p) => IsDaemon(y, p) && y.processes[p].d.Withdrawn?
    case StopLoads(p) => IsStop(y, p) && y.processes[p].s.Looking? && y.state.Some?
    case StopLocks(p) => IsStop(y, p) && y.processes[p].s.Expecting? && y.locked == None
    case StopChecks(p) => IsStop(y, p) && y.processes[p].s.Holding? && y.state == Some(y.processes[p].s.expected)
    case StopRemoves(p) => IsStop(y, p) && y.processes[p].s.Checked?
    case StopRemoveFails(p) => IsStop(y, p) && y.processes[p].s.Checked?
    case StopUnlocks(p) => IsStop(y, p) && (y.processes[p].s.Holding? || y.processes[p].s.Tried?)
    case Die(p) => p in y.processes
  }

  predicate Shared(processes: map<nat, Process>, ofd: nat) {
    exists q :: q in processes && OfdOf(processes[q]) == Some(ofd)
  }

  function Becomes(y: System, p: nat, process: Process): System { y.(processes := y.processes[p := process]) }

  /** A process goes on without its descriptor. */
  function Closes(y: System, p: nat, process: Process): System
    requires p in y.processes && OfdOf(process) == None
  {
    var after := y.processes[p := process];
    match OfdOf(y.processes[p])
    case None => y.(processes := after)
    case Some(ofd) => y.(processes := after, locked := Close(y.locked, ofd, Shared(after, ofd)))
  }

  /** A process unlocks and closes its descriptor. */
  function Unlocks(y: System, p: nat, process: Process): System
    requires p in y.processes && OfdOf(y.processes[p]).Some?
  {
    y.(processes := y.processes[p := process], locked := Unlock(y.locked, OfdOf(y.processes[p]).value))
  }

  function Locks(y: System, p: nat, process: Process): System {
    y.(processes := y.processes[p := process], locked := Some(y.nextOfd), nextOfd := y.nextOfd + 1)
  }

  function Step(y: System, a: Action): System
    requires Enabled(y, a)
  {
    match a
    case NewWrapper(p) => Becomes(y, p, Wrapper(Polling))
    case NewStop(p) => Becomes(y, p, Stopper(Looking))
    case Serve(p, pid) => Locks(y, p, Daemon(y.nextOfd, pid, Owning))
    case WrapperLocks(p) => Locks(y, p, Wrapper(Locked(y.nextOfd)))
    case WrapperClears(p) => Becomes(y, p, Wrapper(Cleared(y.processes[p].w.ofd))).(state := None)
    case WrapperSpawns(p, child, pid) =>
      var ofd := y.processes[p].w.ofd;
      y.(processes := y.processes[p := Wrapper(Awaiting(ofd, child))][child := Daemon(ofd, pid, Born)])
    case WrapperHandsOver(p) => Closes(y, p, Wrapper(Done))
    case WrapperFails(p) => Becomes(y, p, Wrapper(Killing(y.processes[p].w.ofd, y.processes[p].w.child)))
    case WrapperKills(p) =>
      var w := y.processes[p].w;
      Becomes(Closes(y, w.child, Dead), p, Wrapper(Stopped(w.ofd, w.child)))
    case WrapperKillTimesOut(p) => Becomes(y, p, Wrapper(Stopped(y.processes[p].w.ofd, y.processes[p].w.child)))
    case WrapperUnlocks(p) => Unlocks(y, p, Wrapper(Done))
    case DaemonAdopts(p) => Becomes(y, p, y.processes[p].(d := Owning)).(locked := Some(y.processes[p].ofd))
    case DaemonSaves(p) => Becomes(y, p, y.processes[p].(d := Published)).(state := Some(State(p, y.processes[p].pid)))
    case DaemonRemoves(p) => Becomes(y, p, y.processes[p].(d := Withdrawn)).(state := None)
    case DaemonRemoveFails(p) => Becomes(y, p, y.processes[p].(d := Withdrawn))
    case DaemonUnlocks(p) => Unlocks(y, p, Dead)
    case StopLoads(p) => Becomes(y, p, Stopper(Expecting(y.state.value)))
    case StopLocks(p) => Locks(y, p, Stopper(Holding(y.nextOfd, y.processes[p].s.expected)))
    case StopChecks(p) => Becomes(y, p, Stopper(Checked(y.processes[p].s.ofd, y.processes[p].s.expected)))
    case StopRemoves(p) => Becomes(y, p, Stopper(Tried(y.processes[p].s.ofd))).(state := None)
    case StopRemoveFails(p) => Becomes(y, p, Stopper(Tried(y.processes[p].s.ofd)))
    case StopUnlocks(p) => Unlocks(y, p, Stopper(Over))
    case Die(p) => Closes(y, p, Dead)
  }

  function After(killsInTime: bool, run: seq<Action>): Option<System> {
    if run == [] then Some(Initial(killsInTime))
    else
      match After(killsInTime, run[..|run| - 1])
      case None => None
      case Some(y) => if Enabled(y, run[|run| - 1]) then Some(Step(y, run[|run| - 1])) else None
  }

  // ---- What every run keeps ----

  predicate MustHoldLock(p: Process) {
    match p
    case Wrapper(w) => w.Locked? || w.Cleared?
    case Daemon(_, _, d) => !d.Born?
    case Stopper(s) => s.Holding? || s.Checked? || s.Tried?
    case Dead => false
  }

  function ChildOf(p: Process): Option<nat> {
    if p.Wrapper? && (p.w.Awaiting? || p.w.Killing? || p.w.Stopped?) then Some(p.w.child) else None
  }

  /** Whoever must hold the lock holds it. */
  predicate LockKept(y: System) {
    forall p :: p in y.processes && MustHoldLock(y.processes[p]) ==> y.locked == OfdOf(y.processes[p])
  }

  predicate OfdsBounded(y: System) {
    && (forall p :: p in y.processes && OfdOf(y.processes[p]).Some? ==> OfdOf(y.processes[p]).value < y.nextOfd)
    && (y.locked.Some? ==> y.locked.value < y.nextOfd)
  }

  /** A description is shared by a wrapper and its child only. */
  predicate OnlyChildrenShare(processes: map<nat, Process>) {
    forall p, q ::
      p in processes && q in processes && p != q
      && OfdOf(processes[p]).Some? && OfdOf(processes[p]) == OfdOf(processes[q]) ==>
      ChildOf(processes[p]) == Some(q) || ChildOf(processes[q]) == Some(p)
  }

  /** A child is a daemon with its parent's description, or dead; a wrapper that is about to unlock has a dead one. */
  predicate ChildrenKept(processes: map<nat, Process>) {
    forall p :: p in processes && ChildOf(processes[p]).Some? ==>
      var child := ChildOf(processes[p]).value;
      && child in processes && child != p
      && (processes[child].Dead? || (processes[child].Daemon? && OfdOf(processes[child]) == OfdOf(processes[p])))
      && (processes[p].w.Stopped? ==> processes[child].Dead?)
  }

  predicate OfdsKept(y: System) { OfdsBounded(y) && OnlyChildrenShare(y.processes) && ChildrenKept(y.processes) }

  /** A daemon whose state may be in the state file: it published, and has not removed it for sure. */
  predicate MayBeNamed(p: Process) { p.Daemon? && (p.d.Published? || p.d.Withdrawn?) }

  predicate PublishedAs(p: Process, pid: nat) { MayBeNamed(p) && p.pid == pid }

  /** What is published belongs to the daemon that published it, or is left over from a dead one. */
  predicate StateKept(y: System) {
    && (y.state.Some? ==>
          var s := y.state.value;
          && s.instance in y.processes
          && (y.processes[s.instance].Dead? || PublishedAs(y.processes[s.instance], s.pid)))
    && (forall p :: p in y.processes && y.processes[p].Daemon? && y.processes[p].d.Published? ==>
      y.state == Some(State(p, y.processes[p].pid)))
    && (forall p :: p in y.processes && y.processes[p].Stopper? && y.processes[p].s.Checked? ==>
      y.state == Some(y.processes[p].s.expected))
  }

  /** Whoever owns the lock is alone with it: another process that must hold it is the same one. */
  lemma OneHolder(y: System, p: nat, q: nat)
    requires LockKept(y) && OfdsKept(y)
    requires p in y.processes && q in y.processes && MustHoldLock(y.processes[p]) && MustHoldLock(y.processes[q])
    ensures p == q
  {
  }

  // ---- The shapes of steps ----

  predicate SameKind(p: Process, q: Process) {
    p.Wrapper? == q.Wrapper? && p.Daemon? == q.Daemon? && p.Stopper? == q.Stopper? && p.Dead? == q.Dead?
  }

  /**
   A process goes on with the same descriptor and child, and may lock the description again; or it is new and has none.
   */
  lemma OfdsAdvance(y: System, p: nat, process: Process, after: System)
    requires OfdsKept(y) && after.processes == y.processes[p := process] && after.nextOfd == y.nextOfd
    requires if p in y.processes then
               SameKind(process, y.processes[p]) && OfdOf(process) == OfdOf(y.processes[p])
                 && ChildOf(process) == ChildOf(y.processes[p])
             else OfdOf(process) == None && ChildOf(process) == None
    requires process.Wrapper? && process.w.Stopped? ==>
               process.w.child in y.processes && y.processes[process.w.child].Dead?
    requires after.locked == y.locked || (after.locked == OfdOf(process) && after.locked.Some?)
    ensures OfdsKept(after)
  {
  }

  /** A process loses its descriptor; a daemon is dead then. */
  lemma OfdsLeave(y: System, p: nat, process: Process, after: System)
    requires OfdsKept(y) && p in y.processes && after.processes == y.processes[p := process]
               && after.nextOfd == y.nextOfd
    requires OfdOf(process) == None && ChildOf(process) == None && (y.processes[p].Daemon? || y.processes[p].Dead? ==>
               process.Dead?)
    requires after.locked == y.locked || after.locked == None
    ensures OfdsKept(after)
  {
  }

  /** A process that had no descriptor locks a new description. */
  lemma OfdsLock(y: System, p: nat, process: Process)
    requires OfdsKept(y) && (p in y.processes ==> OfdOf(y.processes[p]) == None && !y.processes[p].Dead?)
    requires OfdOf(process) == Some(y.nextOfd) && ChildOf(process) == None
    ensures OfdsKept(Locks(y, p, process))
  {
  }

  lemma ShareSpawn(y: System, p: nat, child: nat, pid: nat)
    requires OfdsKept(y) && Enabled(y, WrapperSpawns(p, child, pid))
    ensures OnlyChildrenShare(Step(y, WrapperSpawns(p, child, pid)).processes)
  {
    hide OfdsBounded;
    assert forall q :: q in y.processes && q != p ==> OfdOf(y.processes[q]) != OfdOf(y.processes[p]);
  }

  lemma OfdsSpawn(y: System, p: nat, child: nat, pid: nat)
    requires OfdsKept(y) && Enabled(y, WrapperSpawns(p, child, pid))
    ensures OfdsKept(Step(y, WrapperSpawns(p, child, pid)))
  {
    ShareSpawn(y, p, child, pid);
    hide OnlyChildrenShare;
  }

  lemma OfdsKill(y: System, p: nat)
    requires OfdsKept(y) && Enabled(y, WrapperKills(p))
    ensures OfdsKept(Step(y, WrapperKills(p)))
  {
    var w := y.processes[p].w;
    var dead := Closes(y, w.child, Dead);
    assert ChildOf(y.processes[p]) == Some(w.child);
    OfdsLeave(y, w.child, Dead, dead);
    OfdsAdvance(dead, p, Wrapper(Stopped(w.ofd, w.child)), Step(y, WrapperKills(p)));
  }

  lemma OfdsStep(y: System, a: Action)
    requires y.killsInTime && OfdsKept(y) && Enabled(y, a)
    ensures OfdsKept(Step(y, a))
  {
    hide OfdsKept, Shared;
    var after := Step(y, a);
    match a
    case WrapperKills(p) => OfdsKill(y, p);
    case WrapperSpawns(p, child, pid) => OfdsSpawn(y, p, child, pid);
    case Serve(p, pid) => OfdsLock(y, p, after.processes[p]);
    case WrapperLocks(p) => OfdsLock(y, p, after.processes[p]);
    case StopLocks(p) => OfdsLock(y, p, after.processes[p]);
    case WrapperHandsOver(p) => OfdsLeave(y, p, after.processes[p], after);
    case WrapperUnlocks(p) => OfdsLeave(y, p, after.processes[p], after);
    case DaemonUnlocks(p) => OfdsLeave(y, p, after.processes[p], after);
    case StopUnlocks(p) => OfdsLeave(y, p, after.processes[p], after);
    case Die(p) => OfdsLeave(y, p, after.processes[p], after);
    case WrapperKillTimesOut(_) =>
    case _ => OfdsAdvance(y, a.p, after.processes[a.p], after);
  }

  predicate NobodyElseHolds(y: System, p: nat) {
    forall q :: q in y.processes && q != p ==> !MustHoldLock(y.processes[q])
  }

  /** A step of p that changes the lock only when nobody else holds it. */
  lemma LockAdvance(y: System, p: nat, process: Process, after: System)
    requires LockKept(y) && after.processes == y.processes[p := process]
    requires MustHoldLock(process) ==>
               || after.locked == OfdOf(process)
               || (&& after.locked == y.locked && p in y.processes
                   && MustHoldLock(y.processes[p]) && OfdOf(y.processes[p]) == OfdOf(process))
    requires after.locked == y.locked || NobodyElseHolds(y, p)
    ensures LockKept(after)
  {
  }

  lemma FreeLock(y: System, p: nat)
    requires LockKept(y) && y.locked == None
    ensures NobodyElseHolds(y, p)
  {
  }

  /** Unlocking through the description of p hurts nobody, if p has no living child that owns it. */
  lemma UnlockHurtsNone(y: System, p: nat)
    requires LockKept(y) && OfdsKept(y) && p in y.processes && OfdOf(y.processes[p]).Some?
    requires ChildOf(y.processes[p]).Some? ==> y.processes[p].w.Stopped?
    ensures Unlock(y.locked, OfdOf(y.processes[p]).value) == y.locked || NobodyElseHolds(y, p)
  {
    hide OfdsBounded;
    if y.locked == OfdOf(y.processes[p]) {
      forall q | q in y.processes && q != p
        ensures !MustHoldLock(y.processes[q])
      {
        if OfdOf(y.processes[q]) == OfdOf(y.processes[p]) {
          assert ChildOf(y.processes[p]) == Some(q) || ChildOf(y.processes[q]) == Some(p);
        }
      }
    }
  }

  /** Closing a descriptor unlocks only when no one else has the description. */
  lemma CloseHurtsNone(y: System, p: nat, process: Process)
    requires LockKept(y) && p in y.processes && OfdOf(process) == None
    ensures Closes(y, p, process).locked == y.locked || NobodyElseHolds(y, p)
  {
    var after := Closes(y, p, process);
    if after.locked != y.locked {
      forall q | q in y.processes && q != p
        ensures !MustHoldLock(y.processes[q])
      {
        assert after.processes[q] == y.processes[q];
      }
    }
  }

  lemma LockSpawn(y: System, p: nat, child: nat, pid: nat)
    requires LockKept(y) && Enabled(y, WrapperSpawns(p, child, pid))
    ensures LockKept(Step(y, WrapperSpawns(p, child, pid)))
  {
  }

  lemma LockKill(y: System, p: nat)
    requires LockKept(y) && Enabled(y, WrapperKills(p))
    ensures LockKept(Step(y, WrapperKills(p)))
  {
    hide LockKept, Shared;
    var w := y.processes[p].w;
    CloseHurtsNone(y, w.child, Dead);
    var dead := Closes(y, w.child, Dead);
    LockAdvance(y, w.child, Dead, dead);
    LockAdvance(dead, p, Wrapper(Stopped(w.ofd, w.child)), Step(y, WrapperKills(p)));
  }

  lemma LockStep(y: System, a: Action)
    requires y.killsInTime && LockKept(y) && OfdsKept(y) && Enabled(y, a)
    ensures LockKept(Step(y, a))
  {
    hide LockKept, OfdsKept, Shared, NobodyElseHolds;
    if a.WrapperKills? {
      LockKill(y, a.p);
    } else if a.WrapperSpawns? {
      LockSpawn(y, a.p, a.child, a.pid);
    } else if !a.WrapperKillTimesOut? {
      var after := Step(y, a);
      if y.locked == None {
        FreeLock(y, a.p);
      }
      if a.p in y.processes {
        if OfdOf(y.processes[a.p]).Some? && (ChildOf(y.processes[a.p]).Some? ==> y.processes[a.p].w.Stopped?) {
          UnlockHurtsNone(y, a.p);
        }
        if OfdOf(after.processes[a.p]).None? {
          CloseHurtsNone(y, a.p, after.processes[a.p]);
        }
      }
      LockAdvance(y, a.p, after.processes[a.p], after);
    }
  }

  predicate Publishes(p: Process) { p.Daemon? && p.d.Published? }

  predicate HasChecked(p: Process) { p.Stopper? && p.s.Checked? }

  lemma StateSame(y: System, p: nat, process: Process, after: System)
    requires StateKept(y) && after.state == y.state && after.processes == y.processes[p := process]
    requires p in y.processes && y.processes[p].Dead? ==> process.Dead?
    requires p in y.processes && MayBeNamed(y.processes[p]) ==>
               process.Dead? || PublishedAs(process, y.processes[p].pid)
    requires !Publishes(process) && (HasChecked(process) ==> y.state == Some(process.s.expected))
    ensures StateKept(after)
  {
  }

  /** Whoever writes the state file holds the lock, so nobody else has published or checked what is in it. */
  lemma StateWritten(y: System, p: nat, process: Process, after: System)
    requires LockKept(y) && OfdsKept(y) && StateKept(y)
    requires p in y.processes && MustHoldLock(y.processes[p]) && after.processes == y.processes[p := process]
    requires !HasChecked(process)
    requires if Publishes(process) then after.state == Some(State(p, process.pid)) else after.state == None
    ensures StateKept(after)
  {
    hide LockKept, OfdsKept;
    forall q | q in y.processes && q != p
      ensures !Publishes(y.processes[q]) && !HasChecked(y.processes[q])
    {
      if MustHoldLock(y.processes[q]) {
        OneHolder(y, p, q);
      }
    }
  }

  lemma StateSpawn(y: System, p: nat, child: nat, pid: nat)
    requires StateKept(y) && Enabled(y, WrapperSpawns(p, child, pid))
    ensures StateKept(Step(y, WrapperSpawns(p, child, pid)))
  {
    var one := y.(processes := y.processes[p := Wrapper(Awaiting(y.processes[p].w.ofd, child))]);
    StateSame(y, p, one.processes[p], one);
    StateSame(one, child, Daemon(y.processes[p].w.ofd, pid, Born), Step(y, WrapperSpawns(p, child, pid)));
  }

  lemma StateKill(y: System, p: nat)
    requires StateKept(y) && ChildrenKept(y.processes) && Enabled(y, WrapperKills(p))
    ensures StateKept(Step(y, WrapperKills(p)))
  {
    hide StateKept, Shared;
    var w := y.processes[p].w;
    assert ChildOf(y.processes[p]) == Some(w.child);
    var dead := Closes(y, w.child, Dead);
    StateSame(y, w.child, Dead, dead);
    StateSame(dead, p, Wrapper(Stopped(w.ofd, w.child)), Step(y, WrapperKills(p)));
  }

  lemma StateStep(y: System, a: Action)
    requires y.killsInTime && LockKept(y) && OfdsKept(y) && StateKept(y) && Enabled(y, a)
    ensures StateKept(Step(y, a))
  {
    hide StateKept, LockKept, Shared, OnlyChildrenShare, ChildrenKept, OfdsBounded;
    if a.WrapperKills? {
      StateKill(y, a.p);
    } else if a.WrapperSpawns? {
      StateSpawn(y, a.p, a.child, a.pid);
    } else if Writes(a) && !a.DaemonRemoveFails? && !a.StopRemoveFails? {
      StateWritten(y, a.p, Step(y, a).processes[a.p], Step(y, a));
    } else if !a.WrapperKillTimesOut? {
      StateSame(y, a.p, Step(y, a).processes[a.p], Step(y, a));
    }
  }

  ghost predicate Kept(y: System) { y.killsInTime && LockKept(y) && OfdsKept(y) && StateKept(y) }

  lemma {:induction false} KeptAlways(run: seq<Action>)
    requires After(true, run).Some?
    ensures Kept(After(true, run).value)
  {
    hide LockKept, OfdsKept, StateKept, Step, Enabled;
    if run == [] {
      KeptInitially();
    } else {
      KeptAlways(run[..|run| - 1]);
      var y, a := After(true, run[..|run| - 1]).value, run[|run| - 1];
      OfdsStep(y, a);
      LockStep(y, a);
      StateStep(y, a);
      SameAssumption(y, a);
    }
  }

  lemma KeptInitially()
    ensures Kept(Initial(true))
  {
  }

  lemma SameAssumption(y: System, a: Action)
    requires Enabled(y, a)
    ensures Step(y, a).killsInTime == y.killsInTime
  {
    hide Shared;
  }

  // ---- What this means ----

  /** The steps that save or remove the state file, or try to. */
  predicate Writes(a: Action) {
    || a.WrapperClears? || a.DaemonSaves? || a.DaemonRemoves? || a.DaemonRemoveFails?
    || a.StopRemoves? || a.StopRemoveFails?
  }

  /** The lock is held through a description that this process has open. */
  predicate HoldsLock(y: System, p: nat) {
    p in y.processes && OfdOf(y.processes[p]).Some? && y.locked == OfdOf(y.processes[p])
  }

  predicate Owns(y: System, p: nat) { p in y.processes && y.processes[p].Daemon? && !y.processes[p].d.Born? }

  lemma WriterHolds(y: System, a: Action)
    requires Enabled(y, a) && Writes(a)
    ensures a.p in y.processes && MustHoldLock(y.processes[a.p]) && OfdOf(y.processes[a.p]).Some?
  {
  }

  /**
   Every save and removal happens while holding the lock, and no other process that is past taking the lock is about to
   write.
   */
  lemma WritesUnderLock(run: seq<Action>, a: Action)
    requires After(true, run).Some? && Enabled(After(true, run).value, a) && Writes(a)
    ensures var y := After(true, run).value;
            && HoldsLock(y, a.p)
            && forall b :: Enabled(y, b) && Writes(b) ==> b.p == a.p
  {
    KeptAlways(run);
    hide After, StateKept, OfdsKept, Shared, Enabled, Writes, MustHoldLock, OfdOf;
    var y := After(true, run).value;
    WriterHolds(y, a);
    forall b | Enabled(y, b) && Writes(b)
      ensures b.p == a.p
    {
      WriterHolds(y, b);
      OneHolder(y, a.p, b.p);
    }
  }

  /** At most one daemon owns the state file, and while one does no wrapper removes anything. */
  lemma OneOwner(run: seq<Action>, p: nat, q: nat)
    requires After(true, run).Some? && Owns(After(true, run).value, p)
    ensures Owns(After(true, run).value, q) ==> p == q
    ensures !Enabled(After(true, run).value, WrapperClears(q))
  {
    KeptAlways(run);
    hide After, StateKept, OfdsKept, Shared;
    var y := After(true, run).value;
    if q in y.processes && MustHoldLock(y.processes[q]) {
      OneHolder(y, p, q);
    }
  }

  /** A stop command removes exactly the state it was started for: the daemon that published it, and none since. */
  lemma StopRemovesItsOwn(run: seq<Action>, p: nat)
    requires After(true, run).Some? && Enabled(After(true, run).value, StopRemoves(p))
    ensures var y := After(true, run).value;
            && y.state == Some(y.processes[p].s.expected)
            && y.state.value.instance in y.processes && y.processes[y.state.value.instance].Dead?
  {
    KeptAlways(run);
    hide After, OfdsKept, Shared;
    var y := After(true, run).value;
    if Owns(y, y.state.value.instance) {
      OneHolder(y, p, y.state.value.instance);
    }
  }

  /** What a daemon has published stays until it removes it itself or dies. */
  lemma PublishedStays(run: seq<Action>, p: nat, a: Action)
    requires After(true, run).Some? && Enabled(After(true, run).value, a)
    requires var y := After(true, run).value; p in y.processes && Publishes(y.processes[p])
    ensures var y := After(true, run).value;
            && y.state == Some(State(p, y.processes[p].pid))
            && (Step(y, a).state != y.state ==> a == DaemonRemoves(p))
  {
    KeptAlways(run);
    hide After, OfdsKept, Shared;
    var y := After(true, run).value;
    if Writes(a) {
      OneHolder(y, p, a.p);
    }
  }

  /** A lock that is held is held through a description that some process has open. */
  predicate HeldBySome(y: System) { y.locked.Some? ==> Shared(y.processes, y.locked.value) }

  lemma HeldAdvance(y: System, p: nat, process: Process, after: System)
    requires HeldBySome(y) && after.processes == y.processes[p := process]
    requires || after.locked == None || after.locked == OfdOf(process)
             || (&& after.locked == y.locked
                 && (p in y.processes && OfdOf(y.processes[p]).Some? ==> OfdOf(process) == OfdOf(y.processes[p])))
    ensures HeldBySome(after)
  {
    if after.locked.Some? {
      if after.locked == OfdOf(process) {
        assert p in after.processes;
      } else {
        var q :| q in y.processes && OfdOf(y.processes[q]) == y.locked;
        assert q in after.processes && OfdOf(after.processes[q]) == y.locked;
      }
    }
  }

  lemma HeldUnlock(y: System, p: nat, process: Process)
    requires HeldBySome(y) && p in y.processes && OfdOf(y.processes[p]).Some?
    ensures HeldBySome(Unlocks(y, p, process))
  {
    var after := Unlocks(y, p, process);
    if after.locked.Some? {
      var q :| q in y.processes && OfdOf(y.processes[q]) == y.locked;
      assert q != p && after.processes[q] == y.processes[q];
    }
  }

  lemma HeldClose(y: System, p: nat, process: Process)
    requires HeldBySome(y) && p in y.processes && OfdOf(process) == None
    ensures HeldBySome(Closes(y, p, process))
  {
    var after := Closes(y, p, process);
    if after.locked.Some? {
      var q :| q in y.processes && OfdOf(y.processes[q]) == y.locked;
      if q != p {
        assert after.processes[q] == y.processes[q];
      }
    }
  }

  lemma HeldSpawn(y: System, p: nat, child: nat, pid: nat)
    requires HeldBySome(y) && Enabled(y, WrapperSpawns(p, child, pid))
    ensures HeldBySome(Step(y, WrapperSpawns(p, child, pid)))
  {
    var ofd := y.processes[p].w.ofd;
    var between := Becomes(y, p, Wrapper(Awaiting(ofd, child)));
    HeldAdvance(y, p, Wrapper(Awaiting(ofd, child)), between);
    HeldAdvance(between, child, Daemon(ofd, pid, Born), Step(y, WrapperSpawns(p, child, pid)));
  }

  lemma HeldStep(y: System, a: Action)
    requires HeldBySome(y) && Enabled(y, a)
    ensures HeldBySome(Step(y, a))
  {
    hide HeldBySome, Closes, Unlocks, Close, Shared;
    match a
    case WrapperSpawns(p, child, pid) => HeldSpawn(y, p, child, pid);
    case WrapperHandsOver(p) => HeldClose(y, p, Wrapper(Done));
    case WrapperKills(p) => HeldKill(y, p);
    case WrapperUnlocks(p) => HeldUnlock(y, p, Wrapper(Done));
    case DaemonUnlocks(p) => HeldUnlock(y, p, Dead);
    case StopUnlocks(p) => HeldUnlock(y, p, Stopper(Over));
    case Die(p) => HeldClose(y, p, Dead);
    case _ => HeldAdvance(y, a.p, Step(y, a).processes[a.p], Step(y, a));
  }

  lemma HeldKill(y: System, p: nat)
    requires HeldBySome(y) && Enabled(y, WrapperKills(p))
    ensures HeldBySome(Step(y, WrapperKills(p)))
  {
    hide HeldBySome, Closes;
    var w := y.processes[p].w;
    HeldClose(y, w.child, Dead);
    KilledFirst(y, p);
    HeldAdvance(Closes(y, w.child, Dead), p, Wrapper(Stopped(w.ofd, w.child)), Step(y, WrapperKills(p)));
  }

  lemma KilledFirst(y: System, p: nat)
    requires Enabled(y, WrapperKills(p))
    ensures var w := y.processes[p].w; Closes(y, w.child, Dead).processes == y.processes[w.child := Dead]
  {
  }

  /** However processes die and kills come late, the lock is never left held when nobody has its description open. */
  lemma {:induction false} NeverLeftHeld(killsInTime: bool, run: seq<Action>)
    requires After(killsInTime, run).Some?
    ensures HeldBySome(After(killsInTime, run).value)
    ensures var y := After(killsInTime, run).value;
            (forall p :: p in y.processes ==> OfdOf(y.processes[p]) == None) ==> y.locked == None
  {
    hide Step, Enabled;
    if run != [] {
      NeverLeftHeld(killsInTime, run[..|run| - 1]);
      HeldStep(After(killsInTime, run[..|run| - 1]).value, run[|run| - 1]);
    }
  }

  lemma AfterOne(killsInTime: bool, run: seq<Action>, y: System, a: Action)
    requires After(killsInTime, run) == Some(y) && Enabled(y, a)
    ensures After(killsInTime, run + [a]) == Some(Step(y, a))
  {
    assert (run + [a])[..|run|] == run;
  }

  /** A wrapper 0 whose kill of its child 1 times out, up to where the child owns the lock. */
  lemma WrapperLosesPatience(pid: nat) returns (run: seq<Action>, y: System)
    ensures After(false, run) == Some(y)
    ensures y == System(false, map[0 := Wrapper(Stopped(0, 1)), 1 := Daemon(0, pid, Owning)], Some(0), None, 1)
  {
    hide After, Shared;
    run, y := [], Initial(false);
    assert After(false, run) == Some(y) by { EmptyRun(); }
    for n := 0 to 7
      invariant After(false, run) == Some(y)
      invariant n == 0 ==> y == Initial(false)
      invariant n == 1 ==> y == System(false, map[0 := Wrapper(Polling)], None, None, 0)
      invariant n == 2 ==> y == System(false, map[0 := Wrapper(Locked(0))], Some(0), None, 1)
      invariant n == 3 ==> y == System(false, map[0 := Wrapper(Cleared(0))], Some(0), None, 1)
      invariant n == 4 ==>
                  y == System(false, map[0 := Wrapper(Awaiting(0, 1)), 1 := Daemon(0, pid, Born)], Some(0), None, 1)
      invariant n == 5 ==>
                  y == System(false, map[0 := Wrapper(Awaiting(0, 1)), 1 := Daemon(0, pid, Owning)], Some(0), None, 1)
      invariant n == 6 ==>
                  y == System(false, map[0 := Wrapper(Killing(0, 1)), 1 := Daemon(0, pid, Owning)], Some(0), None, 1)
      invariant n == 7 ==>
                  y == System(false, map[0 := Wrapper(Stopped(0, 1)), 1 := Daemon(0, pid, Owning)], Some(0), None, 1)
    {
      var a := if n == 0 then NewWrapper(0) else if n == 1 then WrapperLocks(0) else if n == 2 then WrapperClears(0)
               else if n == 3 then WrapperSpawns(0, 1, pid) else if n == 4 then DaemonAdopts(1)
               else if n == 5 then WrapperFails(0) else WrapperKillTimesOut(0);
      AfterOne(false, run, y, a);
      run, y := run + [a], Step(y, a);
    }
  }

  lemma EmptyRun()
    ensures After(false, []) == Some(Initial(false))
  {
  }

  /**
   The assumption is needed: a child that outlives its kill removes the state of another instance, without the lock.
   The wrapper 0 unlocks although its child 1 still lives, and 2 then starts to serve.
   */
  lemma LateChildRemovesAnothersState(pid: nat, other: nat) returns (run: seq<Action>)
    ensures After(false, run).Some?
    ensures var y := After(false, run).value;
            && y.state == Some(State(2, other)) && Enabled(y, DaemonRemoves(1)) && !HoldsLock(y, 1)
            && Step(y, DaemonRemoves(1)).state == None
  {
    hide After, Shared;
    var y;
    run, y := WrapperLosesPatience(pid);
    AfterOne(false, run, y, WrapperUnlocks(0));
    run, y := run + [WrapperUnlocks(0)], Step(y, WrapperUnlocks(0));
    AfterOne(false, run, y, Serve(2, other));
    run, y := run + [Serve(2, other)], Step(y, Serve(2, other));
    AfterOne(false, run, y, DaemonSaves(2));
    run := run + [DaemonSaves(2)];
  }
}
