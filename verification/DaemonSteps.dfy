/**
 What the code of wrappers, daemons and stop commands does under the lock, played as steps of DaemonLock: in whatever
 way the steps of other processes come in between, each next step of the code can happen.
 */
module DaemonSteps {
  import opened Common
  import opened DaemonLock
  import DaemonManager
  import DaemonService

  // ---- The order of the steps of one process ----

  /** The steps that process p has taken itself, in order. */
  function Own(run: seq<Action>, p: nat): seq<Action> {
    if run == [] then []
    else
      var rest, a := Own(run[..|run| - 1], p), run[|run| - 1];
      if a.p == p && !a.Die? then rest + [a] else rest
  }

  lemma OwnSnoc(run: seq<Action>, a: Action, p: nat)
    ensures Own(run + [a], p) == if a.p == p && !a.Die? then Own(run, p) + [a] else Own(run, p)
  {
    assert (run + [a])[..|run|] == run;
  }

  /** What a process is after its last own step, unless it died since. */
  predicate Stands(process: Process, last: Action) {
    match last
    case NewWrapper(_) => process == Wrapper(Polling)
    case WrapperLocks(_) => process.Wrapper? && process.w.Locked?
    case WrapperClears(_) => process.Wrapper? && process.w.Cleared?
    case WrapperSpawns(_, child, _) => process.Wrapper? && process.w.Awaiting? && process.w.child == child
    case WrapperFails(_) => process.Wrapper? && process.w.Killing?
    case WrapperKills(_) => process.Wrapper? && process.w.Stopped?
    case WrapperKillTimesOut(_) => process.Wrapper? && process.w.Stopped?
    case WrapperHandsOver(_) => process == Wrapper(DaemonLock.Done)
    case WrapperUnlocks(_) => process == Wrapper(DaemonLock.Done)
    case Serve(_, _) => process.Daemon? && process.d.Owning?
    case DaemonAdopts(_) => process.Daemon? && process.d.Owning?
    case DaemonSaves(_) => process.Daemon? && process.d.Published?
    case DaemonRemoves(_) => process.Daemon? && process.d.Withdrawn?
    case DaemonRemoveFails(_) => process.Daemon? && process.d.Withdrawn?
    case NewStop(_) => process == Stopper(Looking)
    case StopLoads(_) => process.Stopper? && process.s.Expecting?
    case StopLocks(_) => process.Stopper? && process.s.Holding?
    case StopChecks(_) => process.Stopper? && process.s.Checked?
    case StopRemoves(_) => process.Stopper? && process.s.Tried?
    case StopRemoveFails(_) => process.Stopper? && process.s.Tried?
    case StopUnlocks(_) => process == Stopper(Over)
    case DaemonUnlocks(_) => process.Dead?
    case Die(_) => process.Dead?
  }

  /** Which own step can come right after which. */
  predicate MayFollow(last: Action, a: Action) {
    match a
    case WrapperLocks(_) => last.NewWrapper?
    case WrapperClears(_) => last.WrapperLocks?
    case WrapperSpawns(_, _, _) => last.WrapperClears?
    case WrapperHandsOver(_) => last.WrapperSpawns?
    case WrapperFails(_) => last.WrapperSpawns?
    case WrapperKills(_) => last.WrapperFails?
    case WrapperKillTimesOut(_) => last.WrapperFails?
    case WrapperUnlocks(_) =>
      last.WrapperLocks? || last.WrapperClears? || last.WrapperKills? || last.WrapperKillTimesOut?
    case DaemonSaves(_) => last.Serve? || last.DaemonAdopts?
    case DaemonRemoves(_) => last.Serve? || last.DaemonAdopts? || last.DaemonSaves?
    case DaemonRemoveFails(_) => last.Serve? || last.DaemonAdopts? || last.DaemonSaves?
    case DaemonUnlocks(_) => last.DaemonRemoves? || last.DaemonRemoveFails?
    case StopLoads(_) => last.NewStop?
    case StopLocks(_) => last.StopLoads?
    case StopChecks(_) => last.StopLocks?
    case StopRemoves(_) => last.StopChecks?
    case StopRemoveFails(_) => last.StopChecks?
    case StopUnlocks(_) => last.StopLocks? || last.StopRemoves? || last.StopRemoveFails?
    case _ => false
  }

  /** What a step asks of the world beyond its own process. */
  predicate WorldAllows(y: System, a: Action) {
    match a
    case WrapperLocks(_) => y.locked == None
    case WrapperSpawns(_, child, _) => child !in y.processes
    case WrapperKillTimesOut(_) => !y.killsInTime
    case StopLoads(_) => y.state.Some?
    case StopLocks(_) => y.locked == None
    case StopChecks(p) => IsStop(y, p) && y.processes[p].s.Holding? ==> y.state == Some(y.processes[p].s.expected)
    case _ => true
  }

  predicate Alive(y: System, p: nat) { p in y.processes && !y.processes[p].Dead? }

  /** Children of wrappers are known, and so is everything a process has started. */
  predicate StartedKnown(y: System, own: seq<Action>) {
    forall a :: a in own && a.WrapperSpawns? ==> a.child in y.processes
  }

  predicate ChildrenKnown(y: System) {
    forall p :: p in y.processes && ChildOf(y.processes[p]).Some? ==> ChildOf(y.processes[p]).value in y.processes
  }

  lemma ProcessesStay(y: System, a: Action)
    requires Enabled(y, a)
    ensures y.processes.Keys <= Step(y, a).processes.Keys
  {
    hide Shared;
  }

  lemma ChildrenStep(y: System, a: Action)
    requires Enabled(y, a) && ChildrenKnown(y)
    ensures ChildrenKnown(Step(y, a))
  {
    hide Shared;
  }

  lemma StepKnown(y: System, a: Action)
    requires Enabled(y, a)
    ensures a.p in Step(y, a).processes && (a.WrapperSpawns? ==> a.child in Step(y, a).processes)
  {
    hide Shared;
  }

  lemma NothingStarted(killsInTime: bool)
    ensures Initial(killsInTime).processes == map[] && ChildrenKnown(Initial(killsInTime))
  {
  }

  /** A step of a process itself, and one of another. */
  lemma OwnStep(y: System, a: Action, p: nat)
    requires Enabled(y, a) && Alive(Step(y, a), p)
    ensures p in y.processes ==> Alive(y, p)
    ensures a.p == p ==> !a.Die? && Stands(Step(y, a).processes[p], a)
    ensures a.p != p && p in y.processes ==> Step(y, a).processes[p] == y.processes[p]
    ensures a.p != p && p !in y.processes ==> Step(y, a).processes[p].Daemon? && Step(y, a).processes[p].d.Born?
  {
    hide Shared;
  }

  /** The last own step tells what a living process is. */
  lemma {:induction false} StandsAlways(killsInTime: bool, run: seq<Action>, p: nat)
    requires After(killsInTime, run).Some?
    ensures var y, own := After(killsInTime, run).value, Own(run, p);
            && ChildrenKnown(y) && StartedKnown(y, own)
            && (p !in y.processes ==> own == [])
            && (Alive(y, p) && own != [] ==> Stands(y.processes[p], own[|own| - 1]))
            && (Alive(y, p) && own == [] ==> y.processes[p].Daemon? && y.processes[p].d.Born?)
            && y.killsInTime == killsInTime
  {
    hide Step, Enabled, Stands, ChildrenKnown;
    if run == [] {
      NothingStarted(killsInTime);
    } else {
      var before, a := run[..|run| - 1], run[|run| - 1];
      var y := After(killsInTime, before).value;
      StandsAlways(killsInTime, before, p);
      ProcessesStay(y, a);
      ChildrenStep(y, a);
      SameAssumption(y, a);
      StepKnown(y, a);
      if Alive(Step(y, a), p) {
        OwnStep(y, a, p);
      }
    }
  }

  /**
   Exactly when a living process that has taken a step can take another: it may follow its last one, and the world
   allows it. What other processes did in between does not matter otherwise.
   */
  lemma NextStep(killsInTime: bool, run: seq<Action>, a: Action)
    requires After(killsInTime, run).Some? && Alive(After(killsInTime, run).value, a.p)
    requires Own(run, a.p) != [] && !a.Die?
    ensures var y, own := After(killsInTime, run).value, Own(run, a.p);
            Enabled(y, a) <==> MayFollow(own[|own| - 1], a) && WorldAllows(y, a)
  {
    hide After, Own, Shared, StartedKnown;
    StandsAlways(killsInTime, run, a.p);
  }

  // ---- Scripts ----

  /** Each step may follow the one before. */
  predicate Script(steps: seq<Action>) {
    forall i :: 0 < i < |steps| ==> MayFollow(steps[i - 1], steps[i])
  }

  /** A process in the middle of a script can go on, if the world allows it. */
  lemma ScriptPlays(killsInTime: bool, run: seq<Action>, p: nat, steps: seq<Action>, n: nat)
    requires After(killsInTime, run).Some? && Alive(After(killsInTime, run).value, p)
    requires Script(steps) && 0 < n < |steps| && Own(run, p) == steps[..n] && steps[n].p == p && !steps[n].Die?
    requires WorldAllows(After(killsInTime, run).value, steps[n])
    ensures Enabled(After(killsInTime, run).value, steps[n])
    ensures Own(run + [steps[n]], p) == steps[..n + 1]
  {
    hide After, WorldAllows;
    NextStep(killsInTime, run, steps[n]);
    OwnSnoc(run, steps[n], p);
    assert steps[..n + 1] == steps[..n] + [steps[n]];
  }

  // ---- The wrapper ----

  /** What an effect of startUnderLock is in DaemonLock; timely says whether a kill works in time. */
  function WrapperSteps(e: DaemonManager.Effect, p: nat, child: nat, timely: bool): seq<Action> {
    match e
    case Clears => [WrapperClears(p)]
    case Spawns(pid) => [WrapperSpawns(p, child, pid)]
    case Stops => [WrapperFails(p), if timely then WrapperKills(p) else WrapperKillTimesOut(p)]
    case Unlocks => [WrapperUnlocks(p)]
    case Drops => [WrapperHandsOver(p)]
  }

  /** A child that is stopped after the handover simply dies, so that is no step of the wrapper. */
  function WrapperScript(effects: seq<DaemonManager.Effect>, p: nat, child: nat, timely: bool): seq<Action> {
    if effects == [] then [NewWrapper(p), WrapperLocks(p)]
    else
      var rest, e := effects[..|effects| - 1], effects[|effects| - 1];
      WrapperScript(rest, p, child, timely)
      + if e == DaemonManager.Stops && DaemonManager.Drops in rest then [] else WrapperSteps(e, p, child, timely)
  }

  lemma WrapperSnoc(effects: seq<DaemonManager.Effect>, e: DaemonManager.Effect, p: nat, child: nat, timely: bool)
    ensures WrapperScript(effects + [e], p, child, timely) ==
            WrapperScript(effects, p, child, timely)
            + if e == DaemonManager.Stops && DaemonManager.Drops in effects then []
              else WrapperSteps(e, p, child, timely)
    ensures WrapperScript([], p, child, timely) == [NewWrapper(p), WrapperLocks(p)]
  {
    assert (effects + [e])[..|effects|] == effects;
  }

  /** The steps up to the start of the child. */
  function WrapperStart(p: nat, child: nat, pid: nat): seq<Action> {
    [NewWrapper(p), WrapperLocks(p), WrapperClears(p), WrapperSpawns(p, child, pid)]
  }

  lemma WrapperStarts(p: nat, child: nat, timely: bool, pid: nat)
    ensures WrapperScript([DaemonManager.Unlocks], p, child, timely) ==
            [NewWrapper(p), WrapperLocks(p), WrapperUnlocks(p)]
    ensures WrapperScript([DaemonManager.Clears, DaemonManager.Unlocks], p, child, timely) ==
            [NewWrapper(p), WrapperLocks(p), WrapperClears(p), WrapperUnlocks(p)]
    ensures WrapperScript([DaemonManager.Clears, DaemonManager.Spawns(pid)], p, child, timely) ==
            WrapperStart(p, child, pid)
  {
    hide WrapperScript;
    var clears := [DaemonManager.Clears];
    WrapperSnoc([], DaemonManager.Unlocks, p, child, timely);
    WrapperSnoc([], DaemonManager.Clears, p, child, timely);
    WrapperSnoc(clears, DaemonManager.Unlocks, p, child, timely);
    WrapperSnoc(clears, DaemonManager.Spawns(pid), p, child, timely);
    assert [] + clears == clears && [] + [DaemonManager.Unlocks] == [DaemonManager.Unlocks];
    assert clears + [DaemonManager.Unlocks] == [DaemonManager.Clears, DaemonManager.Unlocks];
    assert clears + [DaemonManager.Spawns(pid)] == [DaemonManager.Clears, DaemonManager.Spawns(pid)];
  }

  /** The steps of the orders with a child. */
  lemma WrapperGoesOn(effects: seq<DaemonManager.Effect>, p: nat, child: nat, timely: bool)
    requires DaemonManager.StartOrder(effects) && |effects| > 2
    ensures WrapperScript(effects, p, child, timely) ==
            WrapperStart(p, child, effects[1].pid)
            + if DaemonManager.Drops in effects then [WrapperHandsOver(p)]
              else [WrapperFails(p), if timely then WrapperKills(p) else WrapperKillTimesOut(p), WrapperUnlocks(p)]
  {
    hide WrapperScript, WrapperStart;
    var two, e := [effects[0], effects[1]], effects[2];
    WrapperStarts(p, child, timely, effects[1].pid);
    WrapperSnoc(two, e, p, child, timely);
    assert effects == two + effects[2..] && e == effects[2..][0];
    if |effects| == 3 {
      assert effects == two + [e];
    } else {
      WrapperSnoc(two + [e], effects[3], p, child, timely);
      assert effects == two + [e] + [effects[3]] && effects[3] == effects[2..][1];
    }
  }

  lemma WrapperScripts(effects: seq<DaemonManager.Effect>, p: nat, child: nat, timely: bool)
    requires DaemonManager.StartOrder(effects)
    ensures var steps := WrapperScript(effects, p, child, timely);
            && Script(steps) && |steps| > 2
            && (forall k :: 1 < k < |steps| ==>
                 && steps[k].p == p && !steps[k].Die? && !steps[k].WrapperLocks? && !steps[k].StopLoads?
                 && !steps[k].StopLocks? && !steps[k].StopChecks?
                 && (steps[k].WrapperSpawns? ==> steps[k].child == child)
                 && (steps[k].WrapperKillTimesOut? ==> !timely))
            && (steps[|steps| - 1] == WrapperUnlocks(p) || steps[|steps| - 1] == WrapperHandsOver(p))
            && (DaemonManager.Drops in effects ==> exists a :: a in steps && a.WrapperSpawns? && a.child == child)
  {
    hide WrapperScript;
    if |effects| > 2 {
      WrapperGoesOn(effects, p, child, timely);
      assert WrapperScript(effects, p, child, timely)[3] == WrapperSpawns(p, child, effects[1].pid);
    } else {
      WrapperStarts(p, child, timely, 0);
    }
  }

  /**
   Whatever startUnderLock does, its next step can happen, however the steps of others came in between. A child is a new
   process, and a kill may come too late only where that is not ruled out.
   */
  lemma WrapperPlays(killsInTime: bool, run: seq<Action>, p: nat, child: nat, timely: bool,
                     effects: seq<DaemonManager.Effect>, n: nat)
    requires DaemonManager.StartOrder(effects) && (timely || !killsInTime)
    requires After(killsInTime, run).Some? && Alive(After(killsInTime, run).value, p)
    requires 2 <= n <= |WrapperScript(effects, p, child, timely)|
    requires Own(run, p) == WrapperScript(effects, p, child, timely)[..n]
    requires n < |WrapperScript(effects, p, child, timely)|
               && WrapperScript(effects, p, child, timely)[n].WrapperSpawns? ==>
               child !in After(killsInTime, run).value.processes
    ensures var y, steps := After(killsInTime, run).value, WrapperScript(effects, p, child, timely);
            if n < |steps| then Enabled(y, steps[n]) else y.processes[p] == Wrapper(DaemonLock.Done)
    ensures DaemonManager.Drops in effects && n == |WrapperScript(effects, p, child, timely)| ==>
              Enabled(After(killsInTime, run).value, Die(child))
  {
    hide After, WrapperScript, Own, Script;
    WrapperScripts(effects, p, child, timely);
    StandsAlways(killsInTime, run, p);
    var steps := WrapperScript(effects, p, child, timely);
    if n < |steps| {
      ScriptPlays(killsInTime, run, p, steps, n);
    } else {
      assert steps[..n] == steps;
    }
  }

  // ---- The daemon ----

  function ServiceSteps(e: DaemonService.Effect, p: nat): seq<Action> {
    match e
    case Saves(_) => [DaemonSaves(p)]
    case Removes(done) => [if done then DaemonRemoves(p) else DaemonRemoveFails(p)]
    case Unlocks => [DaemonUnlocks(p)]
    case _ => []
  }

  /** first is the step with which the daemon came to own the lock. */
  function ServiceScript(first: Action, effects: seq<DaemonService.Effect>): seq<Action> {
    if effects == [] then [first]
    else ServiceScript(first, effects[..|effects| - 1]) + ServiceSteps(effects[|effects| - 1], first.p)
  }

  lemma ServiceSnoc(first: Action, effects: seq<DaemonService.Effect>, e: DaemonService.Effect)
    ensures ServiceScript(first, effects + [e]) == ServiceScript(first, effects) + ServiceSteps(e, first.p)
    ensures ServiceScript(first, []) == [first]
  {
    assert (effects + [e])[..|effects|] == effects;
  }

  lemma ServiceScriptIs(first: Action, effects: seq<DaemonService.Effect>, state: DaemonService.State)
    requires DaemonService.ServiceOrder(effects, state)
    ensures var removes := if effects[|effects| - 2].done then DaemonRemoves(first.p) else DaemonRemoveFails(first.p);
            ServiceScript(first, effects) ==
            [first] + (if |effects| == 3 then [DaemonSaves(first.p)] else []) + [removes, DaemonUnlocks(first.p)]
  {
    hide ServiceScript;
    var e0, e1 := effects[0], effects[1];
    ServiceSnoc(first, [], e0);
    ServiceSnoc(first, [e0], e1);
    assert [] + [e0] == [e0] && [e0] + [e1] == [e0, e1];
    if |effects| == 3 {
      ServiceSnoc(first, [e0, e1], effects[2]);
      assert [e0, e1] + [effects[2]] == effects;
    } else {
      assert [e0, e1] == effects;
    }
  }

  lemma ServiceScripts(first: Action, effects: seq<DaemonService.Effect>, state: DaemonService.State)
    requires DaemonService.ServiceOrder(effects, state) && (first.Serve? || first.DaemonAdopts?)
    ensures var steps := ServiceScript(first, effects);
            && Script(steps) && |steps| == |effects| + 1
            && forall k :: 0 < k < |steps| ==>
                 steps[k].p == first.p && (steps[k].DaemonSaves? || steps[k].DaemonRemoves?
                                           || steps[k].DaemonRemoveFails? || steps[k].DaemonUnlocks?)
  {
    hide ServiceScript;
    ServiceScriptIs(first, effects, state);
  }

  /**
   Whatever RunService does once it has the lock, its next step can happen for as long as the daemon lives, however the
   steps of others came in between.
   */
  lemma ServicePlays(killsInTime: bool, run: seq<Action>, first: Action, effects: seq<DaemonService.Effect>,
                     state: DaemonService.State, n: nat)
    requires DaemonService.ServiceOrder(effects, state) && (first.Serve? || first.DaemonAdopts?)
    requires After(killsInTime, run).Some? && Alive(After(killsInTime, run).value, first.p)
    requires 0 < n < |ServiceScript(first, effects)| && Own(run, first.p) == ServiceScript(first, effects)[..n]
    ensures Enabled(After(killsInTime, run).value, ServiceScript(first, effects)[n])
  {
    hide After, ServiceScript, Own, Script, DaemonService.ServiceOrder;
    ServiceScripts(first, effects, state);
    ScriptPlays(killsInTime, run, first.p, ServiceScript(first, effects), n);
  }

  // ---- The stop command ----

  /** The check under the lock comes with the removal that follows it. */
  function RemovalSteps(e: DaemonService.Effect, p: nat): seq<Action> {
    match e
    case Locks => [StopLocks(p)]
    case Removes(done) => [StopChecks(p), if done then StopRemoves(p) else StopRemoveFails(p)]
    case Unlocks => [StopUnlocks(p)]
    case _ => []
  }

  function RemovalScript(effects: seq<DaemonService.Effect>, p: nat): seq<Action> {
    if effects == [] then [NewStop(p), StopLoads(p)]
    else RemovalScript(effects[..|effects| - 1], p) + RemovalSteps(effects[|effects| - 1], p)
  }

  lemma RemovalSnoc(effects: seq<DaemonService.Effect>, e: DaemonService.Effect, p: nat)
    ensures RemovalScript(effects + [e], p) == RemovalScript(effects, p) + RemovalSteps(e, p)
    ensures RemovalScript([], p) == [NewStop(p), StopLoads(p)]
  {
    assert (effects + [e])[..|effects|] == effects;
  }

  lemma RemovalScriptIs(effects: seq<DaemonService.Effect>, p: nat)
    requires DaemonService.RemovalOrder(effects)
    ensures RemovalScript(effects, p) ==
            if effects == [] then [NewStop(p), StopLoads(p)]
            else if |effects| == 2 then [NewStop(p), StopLoads(p), StopLocks(p), StopUnlocks(p)]
            else
              var removes := if effects[1].done then StopRemoves(p) else StopRemoveFails(p);
              [NewStop(p), StopLoads(p), StopLocks(p), StopChecks(p), removes, StopUnlocks(p)]
  {
    hide RemovalScript;
    RemovalSnoc([], DaemonService.Locks, p);
    assert [] + [DaemonService.Locks] == [DaemonService.Locks];
    if effects != [] {
      var e0, e1 := effects[0], effects[1];
      RemovalSnoc([e0], e1, p);
      assert [e0] + [e1] == [e0, e1];
      if |effects| == 3 {
        RemovalSnoc([e0, e1], effects[2], p);
        assert [e0, e1] + [effects[2]] == effects;
      } else {
        assert [e0, e1] == effects;
      }
    }
  }

  lemma RemovalScripts(effects: seq<DaemonService.Effect>, p: nat)
    requires DaemonService.RemovalOrder(effects)
    ensures var steps := RemovalScript(effects, p);
            Script(steps) && |steps| >= 2 && forall k :: 0 <= k < |steps| ==> steps[k].p == p && !steps[k].Die?
  {
    hide RemovalScript;
    RemovalScriptIs(effects, p);
  }

  /**
   Whatever removeDaemonStateIfOwned does, its next step can happen if the lock was free where it takes it and the state
   was the expected one where it removes it.
   */
  lemma RemovalPlays(killsInTime: bool, run: seq<Action>, p: nat, effects: seq<DaemonService.Effect>, n: nat)
    requires DaemonService.RemovalOrder(effects)
    requires After(killsInTime, run).Some? && Alive(After(killsInTime, run).value, p)
    requires 2 <= n < |RemovalScript(effects, p)| && Own(run, p) == RemovalScript(effects, p)[..n]
    requires WorldAllows(After(killsInTime, run).value, RemovalScript(effects, p)[n])
    ensures Enabled(After(killsInTime, run).value, RemovalScript(effects, p)[n])
  {
    hide After, RemovalScript, Own, Script, DaemonService.RemovalOrder, WorldAllows;
    RemovalScripts(effects, p);
    ScriptPlays(killsInTime, run, p, RemovalScript(effects, p), n);
  }

  // ---- What a daemon leaves behind ----

  /** The daemon has withdrawn or is dead, and the state file does not name it. */
  predicate Gone(y: System, p: nat) {
    && p in y.processes
    && (y.processes[p].Dead? || (y.processes[p].Daemon? && y.processes[p].d.Withdrawn?))
    && (y.state.Some? ==> y.state.value.instance != p)
  }

  lemma GoneStep(y: System, a: Action, p: nat)
    requires Enabled(y, a) && (Gone(y, p) || a == DaemonRemoves(p))
    ensures Gone(Step(y, a), p)
  {
    hide Shared;
  }

  /** Once a daemon has removed its state, as RunService does before it returns without an error, no state names it. */
  lemma {:induction false} WithdrawnForGood(killsInTime: bool, run: seq<Action>, p: nat)
    requires After(killsInTime, run).Some? && DaemonRemoves(p) in run
    ensures Gone(After(killsInTime, run).value, p)
  {
    hide Gone, Step, Enabled;
    var before, a := run[..|run| - 1], run[|run| - 1];
    if DaemonRemoves(p) in before {
      WithdrawnForGood(killsInTime, before, p);
    }
    GoneStep(After(killsInTime, before).value, a, p);
  }
}
