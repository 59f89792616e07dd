/** The monitor that ends an idle daemon: leases of running requests, the time of the last activity, and one waiter. */
module IdleMonitor {
  import opened Common

  // ---- The monitor ----

  /** What Begin returns: a function that ends the lease when it is first called. */
  class Lease {
    var ended: bool

    constructor ()
      ensures !ended
    {
      ended := false;
    }
  }

  /**
   Each method runs alone here. In the code others may run after it has unlocked and before its token is in the channel:
   that is taken apart in the steps below.
   */
  class Monitor {
    const timeout: nat
    var active: nat
    var lastActivity: nat
    var wake: bool  // the wake channel, of capacity 1: whether it holds a token
    ghost var leases: set<Lease>  // the leases begun and not ended

    constructor (timeout: nat, now: nat)
      requires timeout > 0
      ensures Valid() && this.timeout == timeout && lastActivity == now && !wake && leases == {}
    {
      this.timeout, active, lastActivity, wake, leases := timeout, 0, now, false, {};
    }

    ghost predicate Valid()
      reads this, leases
    {
      active == |leases| && forall l :: l in leases ==> !l.ended
    }

    method Begin(now: nat) returns (lease: Lease)
      requires Valid()
      modifies this
      ensures Valid() && fresh(lease) && leases == old(leases) + {lease}
      ensures lastActivity == now && wake
    {
      lease := new Lease();
      active, lastActivity := active + 1, now;
      leases := leases + {lease};
      wake := true;
    }

    /** Ends a lease of this monitor; every call but the first does nothing. */
    method End(lease: Lease, now: nat)
      requires Valid() && (lease in leases || lease.ended)
      modifies this, lease
      ensures Valid() && lease.ended && leases == old(leases) - {lease}
      ensures if old(lease.ended) then unchanged(this) else lastActivity == now && wake && active == old(active) - 1
    {
      if !lease.ended {
        lease.ended := true;
        if active > 0 {
          active := active - 1;
        }
        lastActivity := now;
        leases := leases - {lease};
        wake := true;
      }
    }

    method Touch(now: nat)
      requires Valid()
      modifies this
      ensures Valid() && leases == old(leases) && lastActivity == now && wake
    {
      lastActivity, wake := now, true;
    }
  }

  // ---- The waiter ----

  /**
   Wait: it checks under the lock; then it sleeps, with a timer only if no lease was open. Returned tells when and what
   the monitor looked like at that instant.
   */
  datatype Waiter = Checking | Sleeping(timer: Option<nat>) | Returned(at: nat) | Cancelled

  /** owed: how many threads have changed the monitor and unlocked it, but not yet put their token into the channel. */
  datatype System = System(
    timeout: nat, now: nat, active: nat, lastActivity: nat, wake: bool, owed: nat, waiter: Waiter)

  /** Begin, End and Touch are the critical sections; Signal is what each of these threads does next. */
  datatype Action = Tick(later: nat) | Begin | End | Touch | Signal | Check | Woken | TimerFires | Cancel

  predicate Enabled(y: System, a: Action) {
    match a
    case Tick(later) => y.now <= later
    case Begin => true
    case End => y.active > 0
    case Touch => true
    case Signal => y.owed > 0
    case Check => y.waiter.Checking?
    case Woken => y.waiter.Sleeping? && y.wake
    case TimerFires => y.waiter.Sleeping? && y.waiter.timer.Some? && y.waiter.timer.value <= y.now
    case Cancel => y.waiter.Sleeping?
  }

  predicate Idle(y: System) { y.active == 0 && y.now - y.lastActivity >= y.timeout }

  function Changed(y: System, active: nat): System { y.(active := active, lastActivity := y.now, owed := y.owed + 1) }

  /** The timer of a waiter that checks now. */
  function RightTimer(y: System): Option<nat> { if y.active > 0 then None else Some(y.lastActivity + y.timeout) }

  function Step(y: System, a: Action): System
    requires Enabled(y, a)
  {
    match a
    case Tick(later) => y.(now := later)
    case Begin => Changed(y, y.active + 1)
    case End => Changed(y, y.active - 1)
    case Touch => Changed(y, y.active)
    case Signal => y.(owed := y.owed - 1, wake := true)
    case Check => y.(waiter := if Idle(y) then Returned(y.now) else Sleeping(RightTimer(y)))
    case Woken => y.(wake := false, waiter := Checking)
    case TimerFires => y.(waiter := Checking)
    case Cancel => y.(waiter := Cancelled)
  }

  function After(timeout: nat, start: nat, run: seq<Action>): Option<System> {
    if run == [] then Some(System(timeout, start, 0, start, false, 0, Checking))
    else
      match After(timeout, start, run[..|run| - 1])
      case None => None
      case Some(y) => if Enabled(y, run[|run| - 1]) then Some(Step(y, run[|run| - 1])) else None
  }

  /** With no token in the channel and none on its way, what the sleeping waiter saw is still so. */
  predicate Current(y: System) {
    && y.lastActivity <= y.now
    && (y.waiter.Sleeping? && !y.wake && y.owed == 0 ==> y.waiter.timer == RightTimer(y))
  }

  lemma {:induction false} CurrentAlways(timeout: nat, start: nat, run: seq<Action>)
    requires After(timeout, start, run).Some?
    ensures Current(After(timeout, start, run).value) && After(timeout, start, run).value.timeout == timeout
  {
    if run != [] {
      CurrentAlways(timeout, start, run[..|run| - 1]);
    }
  }

  /** The leases that were begun and have not ended, by the steps of a run. */
  function OpenLeases(run: seq<Action>): int {
    if run == [] then 0
    else OpenLeases(run[..|run| - 1]) + (match run[|run| - 1] case Begin => 1 case End => -1 case _ => 0)
  }

  /** What the clock shows after a run. */
  function Clock(start: nat, run: seq<Action>): nat {
    if run == [] then start
    else match run[|run| - 1] case Tick(later) => later case _ => Clock(start, run[..|run| - 1])
  }

  /** What it showed when a lease was last begun or ended, or the monitor touched. */
  function LastActive(start: nat, run: seq<Action>): nat {
    if run == [] then start
    else
      var a := run[|run| - 1];
      if a.Begin? || a.End? || a.Touch? then Clock(start, run) else LastActive(start, run[..|run| - 1])
  }

  lemma {:induction false} ToldByRun(timeout: nat, start: nat, run: seq<Action>)
    requires After(timeout, start, run).Some?
    ensures var y := After(timeout, start, run).value;
            && y.active == OpenLeases(run) && y.now == Clock(start, run) && y.lastActivity == LastActive(start, run)
            && y.timeout == timeout
  {
    if run != [] {
      ToldByRun(timeout, start, run[..|run| - 1]);
    }
  }

  /** Wait succeeds only at an instant at which no lease is open and the timeout has passed since the last activity. */
  lemma ReturnsOnlyWhenIdle(timeout: nat, start: nat, run: seq<Action>, a: Action)
    requires After(timeout, start, run).Some? && Enabled(After(timeout, start, run).value, a)
    requires !After(timeout, start, run).value.waiter.Returned?
               && Step(After(timeout, start, run).value, a).waiter.Returned?
    ensures var y := After(timeout, start, run).value;
            a == Check && y.active == 0 && y.now >= y.lastActivity + timeout && Step(y, a).waiter.at == y.now
    ensures OpenLeases(run) == 0 && Clock(start, run) >= LastActive(start, run) + timeout
  {
    CurrentAlways(timeout, start, run);
    ToldByRun(timeout, start, run);
  }

  /** What lets a sleeping waiter of an idle daemon go on; only Signal is a step of another thread. */
  function WayOn(y: System): seq<Action> {
    if y.wake then [Woken] else if y.owed > 0 then [Signal, Woken] else [TimerFires]
  }

  function Steps(y: System, actions: seq<Action>): Option<System>
    decreases |actions|
  {
    if actions == [] then Some(y)
    else if Enabled(y, actions[0]) then Steps(Step(y, actions[0]), actions[1..])
    else None
  }

  /**
   No lost wake-up: once the daemon is idle, a sleeping waiter finds a token, or a token is due, or its timer has run
   out. Unless something else happens first, it then checks and returns.
   */
  lemma IdleWakesWaiter(timeout: nat, start: nat, run: seq<Action>)
    requires After(timeout, start, run).Some?
    requires var y := After(timeout, start, run).value; y.waiter.Sleeping? && Idle(y)
    ensures var y := After(timeout, start, run).value;
            Steps(y, WayOn(y) + [Check]).Some? && Steps(y, WayOn(y) + [Check]).value.waiter == Returned(y.now)
  {
    CurrentAlways(timeout, start, run);
    hide After;
    var y := After(timeout, start, run).value;
    var on := WayOn(y);
    StepsOne(y, on + [Check]);
    if |on| == 1 {
      assert (on + [Check])[1..] == [Check];
    } else {
      assert (on + [Check])[1..] == [Woken, Check];
      StepsOne(Step(y, Signal), [Woken, Check]);
      assert [Woken, Check][1..] == [Check];
    }
    StepsOne(Step(y, on[0]), if |on| == 1 then [Check] else [Woken, Check]);
  }

  lemma StepsOne(y: System, actions: seq<Action>)
    requires actions != [] && Enabled(y, actions[0])
    ensures Steps(y, actions) == Steps(Step(y, actions[0]), actions[1..])
    ensures |actions| == 1 ==> Steps(y, actions) == Some(Step(y, actions[0]))
  {
    if |actions| == 1 {
      assert actions[1..] == [];
    }
  }

  /** A waiter that sleeps with no token in the channel and none on its way has the right timer, or rightly none. */
  lemma SleepsRightly(timeout: nat, start: nat, run: seq<Action>)
    requires After(timeout, start, run).Some?
    requires var y := After(timeout, start, run).value; y.waiter.Sleeping? && !y.wake && y.owed == 0
    ensures var y := After(timeout, start, run).value;
            if y.active > 0 then y.waiter.timer == None else y.waiter.timer == Some(y.lastActivity + timeout)
  {
    CurrentAlways(timeout, start, run);
  }

  /** While a token is on its way it may have the wrong one: the last lease is over, and it waits without a timer. */
  lemma SleepsUntilSignal(timeout: nat, start: nat) returns (run: seq<Action>)
    ensures After(timeout, start, run).Some?
    ensures var y := After(timeout, start, run).value;
            && Idle(y) && y.waiter == Sleeping(None) && y.owed == 1
            && !Enabled(y, Woken) && !Enabled(y, TimerFires)
  {
    hide After;
    var y := System(timeout, start, 0, start, false, 0, Checking);
    EmptyRun(timeout, start);
    run := [];
    var steps := [Begin, Signal, Check, Woken, Check, End, Tick(start + timeout)];
    for n := 0 to |steps|
      invariant After(timeout, start, run) == Some(y)
      invariant y.timeout == timeout && y.lastActivity == start && y.now == if n < 7 then start else start + timeout
      invariant y.active == if 0 < n < 6 then 1 else 0
      invariant y.owed == if n == 1 || n > 5 then 1 else 0
      invariant y.wake == (n == 2 || n == 3)
      invariant y.waiter == if n < 3 || n == 4 then Checking else Sleeping(None)
    {
      AfterOne(timeout, start, run, y, steps[n]);
      run, y := run + [steps[n]], Step(y, steps[n]);
    }
  }

  lemma EmptyRun(timeout: nat, start: nat)
    ensures After(timeout, start, []) == Some(System(timeout, start, 0, start, false, 0, Checking))
  {
  }

  lemma AfterOne(timeout: nat, start: nat, run: seq<Action>, y: System, a: Action)
    requires After(timeout, start, run) == Some(y) && Enabled(y, a)
    ensures After(timeout, start, run + [a]) == Some(Step(y, a))
  {
    assert (run + [a])[..|run|] == run;
  }
}
