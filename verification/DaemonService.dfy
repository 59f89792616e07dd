/** The order of effects when a daemon serves and when a stop command ends one. */
module DaemonService {
  import opened Common

  datatype State = State(instance: string, pid: nat)

  /** What daemons and stop commands do: DaemonSteps plays it in DaemonLock. A removal may fail. */
  datatype Effect = Saves(state: State) | Removes(done: bool) | Locks | Unlocks | Signals(pid: nat)

  // ---- Serving ----

  /**
   How far RunService gets before its first error, if there is one, and how serving ends. saved: the state file holds
   the new state, although saving may have reported an error after that.
   */
  datatype Service = Service(
    optionsValid: bool, prepared: bool, listens: bool, saved: bool, saveFails: bool, endsWell: bool, removes: bool)

  /** The state is saved once at most; then the removal and the unlock come last, in this order. */
  predicate ServiceOrder(effects: seq<Effect>, state: State) {
    || (|effects| == 2 && effects[0].Removes? && effects[1] == Unlocks)
    || (|effects| == 3 && effects[0] == Saves(state) && effects[1].Removes? && effects[2] == Unlocks)
  }

  /** RunService with its deferred removal and unlock. */
  method RunService(world: Service, state: State) returns (ok: bool, effects: seq<Effect>)
    ensures if world.optionsValid then ServiceOrder(effects, state) else !ok && effects == []
    ensures |effects| == 3 <==> world.optionsValid && world.prepared && world.listens && world.saved
    ensures effects != [] ==> effects[|effects| - 2] == Removes(world.removes)
    ensures ok <==> |effects| == 3 && !world.saveFails && world.endsWell && world.removes
  {
    effects := [];
    if !world.optionsValid {
      return false, effects;
    }
    var deferred := [Removes(world.removes), Unlocks];
    if !world.prepared || !world.listens {
      return false, effects + deferred;
    }
    if world.saved {
      effects := effects + [Saves(state)];
    }
    ok := world.saved && !world.saveFails && world.endsWell && world.removes;
    effects := effects + deferred;
  }

  // ---- Stopping ----

  datatype Loaded = Missing | Invalid | Found(state: State)

  datatype LockTry = Taken | Held | LockFails

  /** What removeDaemonStateIfOwned meets: the lock, the state under the lock, and whether removing works. */
  datatype Removal = Removal(lock: LockTry, loaded: Loaded, removes: bool)

  predicate SameDaemon(a: State, b: State) { a.instance == b.instance && a.pid == b.pid }

  /** What it meets is the expected state, and it has the lock. */
  predicate Owned(world: Removal, expected: State) {
    world.lock.Taken? && world.loaded.Found? && SameDaemon(world.loaded.state, expected)
  }

  /** Removal comes under the lock, and every lock is unlocked at the end. */
  predicate RemovalOrder(effects: seq<Effect>) {
    || effects == []
    || effects == [Locks, Unlocks]
    || (|effects| == 3 && effects[0] == Locks && effects[1].Removes? && effects[2] == Unlocks)
  }

  /** It removes the state only under the lock and only if it is the expected one, and tells when it did. */
  method RemoveIfOwned(world: Removal, expected: State) returns (r: Result<bool>, effects: seq<Effect>)
    ensures RemovalOrder(effects) && (effects == [] <==> !world.lock.Taken?)
    ensures |effects| == 3 <==> Owned(world, expected)
    ensures |effects| == 3 ==> effects[1] == Removes(world.removes)
    ensures r == Ok(true) <==> Owned(world, expected) && world.removes
    ensures r.Ok? <==> world.lock.Held? || (world.lock.Taken? && !world.loaded.Invalid?
                                            && (Owned(world, expected) ==> world.removes))
    ensures r == Ok(false) <==>
              || world.lock.Held?
              || (world.lock.Taken? && (world.loaded.Missing? || (world.loaded.Found? && !Owned(world, expected))))
  {
    effects := [];
    if world.lock.Held? {
      return Ok(false), effects;
    }
    if world.lock.LockFails? {
      return Error, effects;
    }
    effects := effects + [Locks];
    if world.loaded.Missing? {
      return Ok(false), effects + [Unlocks];
    }
    if world.loaded.Invalid? {
      return Error, effects + [Unlocks];
    }
    if world.loaded.state.instance != expected.instance || world.loaded.state.pid != expected.pid {
      return Ok(false), effects + [Unlocks];
    }
    effects := effects + [Removes(world.removes)];
    effects := effects + [Unlocks];
    r := if world.removes then Ok(true) else Error;
  }

  /** One look of the wait loop, and whether the deadline or a cancellation comes before the next. */
  datatype Look = Look(loaded: Loaded, alive: bool, removal: Removal, timeIsUp: bool)

  datatype Stop = Stop(first: Loaded, alive: bool, removal: Removal, healthy: bool, signalled: bool, looks: seq<Look>)

  /** Some look finds the expected state and its process dead. */
  predicate SeenDead(looks: seq<Look>, expected: State) {
    exists i :: 0 <= i < |looks| &&
      !looks[i].alive && looks[i].loaded.Found? && SameDaemon(looks[i].loaded.state, expected)
  }

  /** Some look finds no state, or that of another daemon. */
  predicate SeenGone(looks: seq<Look>, expected: State) {
    exists i :: 0 <= i < |looks| &&
      (looks[i].loaded.Missing? || (looks[i].loaded.Found? && !SameDaemon(looks[i].loaded.state, expected)))
  }

  /** Still the expected state of a living process, and time left. */
  predicate StillThere(look: Look, expected: State) {
    && look.loaded.Found? && look.loaded.state.instance == expected.instance && look.loaded.state.pid == expected.pid
    && look.alive && !look.timeIsUp
  }

  /** The first i looks did not end the wait. */
  predicate Waits(looks: seq<Look>, expected: State, i: nat)
    requires i <= |looks|
  {
    forall j :: 0 <= j < i ==> StillThere(looks[j], expected)
  }

  /** What removeDaemonStateIfOwned does there, and whether it reports no error. */
  predicate RemovalIs(world: Removal, expected: State, effects: seq<Effect>, ok: bool) {
    && effects == (if !world.lock.Taken? then [] else if !Owned(world, expected) then [Locks, Unlocks]
                   else [Locks, Removes(world.removes), Unlocks])
    && (ok <==>
          || world.lock.Held?
          || (world.lock.Taken? && !world.loaded.Invalid? && (Owned(world, expected) ==> world.removes)))
  }

  /** How a look that ends the wait ends it, after the signal. */
  predicate LookDecides(look: Look, expected: State, effects: seq<Effect>, ok: bool) {
    if look.loaded.Missing? || (look.loaded.Found? && !SameDaemon(look.loaded.state, expected)) then ok && effects == []
    else if look.loaded.Found? && !look.alive then RemovalIs(look.removal, expected, effects, ok)
    else !ok && effects == []
  }

  /**
   runStop: it signals at most once, and only a process whose state it loaded and whose health check passed. The first
   look that does not find the state still there decides. So it reports success only if there was no state, or the
   expected one was gone, replaced, or left by a process that is no more; state is removed only for such a process.
   looks that go on without an end are cut off as a failure.
   */
  method RunStop(world: Stop) returns (ok: bool, effects: seq<Effect>)
    ensures world.first.Missing? ==> ok && effects == []
    ensures world.first.Found? && !world.alive ==> RemovalIs(world.removal, world.first.state, effects, ok)
    ensures world.first.Found? && world.alive && !world.healthy ==> !ok && effects == []
    ensures world.first.Found? && world.alive && world.healthy ==>
              && effects != [] && effects[0] == Signals(world.first.state.pid)
              && (!world.signalled || Waits(world.looks, world.first.state, |world.looks|) ==> !ok && |effects| == 1)
              && forall i :: 0 <= i < |world.looks| && world.signalled && Waits(world.looks, world.first.state, i)
                             && !StillThere(world.looks[i], world.first.state) ==>
                   LookDecides(world.looks[i], world.first.state, effects[1..], ok)
    ensures RemovalOrder(effects) || (effects != [] && effects[0].Signals? && RemovalOrder(effects[1..]))
    ensures effects != [] && effects[0].Signals? ==>
              world.first.Found? && world.alive && world.healthy && effects[0].pid == world.first.state.pid
    ensures forall e :: e in effects && e.Removes? ==>
              world.first.Found? && (!world.alive || SeenDead(world.looks, world.first.state))
    ensures ok && world.first.Found? ==>
              || !world.alive || SeenDead(world.looks, world.first.state) || SeenGone(world.looks, world.first.state)
    ensures world.first.Invalid? ==> !ok && effects == []
  {
    effects := [];
    if world.first.Missing? {
      return true, effects;
    }
    if world.first.Invalid? {
      return false, effects;
    }
    var expected := world.first.state;
    if !world.alive {
      var r, more := RemoveIfOwned(world.removal, expected);
      return r.Ok?, more;
    }
    if !world.healthy {
      return false, effects;
    }
    effects := effects + [Signals(expected.pid)];
    if !world.signalled {
      return false, effects;
    }
    for i := 0 to |world.looks|
      invariant effects == [Signals(expected.pid)] && Waits(world.looks, expected, i)
    {
      var look := world.looks[i];
      if look.loaded.Missing? {
        return true, effects;
      }
      if look.loaded.Invalid? {
        return false, effects;
      }
      if !SameDaemon(look.loaded.state, expected) {
        return true, effects;
      }
      if !look.alive {
        var r, more := RemoveIfOwned(look.removal, expected);
        assert (effects + more)[1..] == more;
        return r.Ok?, effects + more;
      }
      if look.timeIsUp {
        return false, effects;
      }
    }
    ok := false;
  }
}
