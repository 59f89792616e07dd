/** The wrapper's side of starting a daemon: the polling loop, and what it does under the lock, in which order. */
module DaemonManager {
  import opened Common

  datatype State = State(instance: string, pid: nat, version: string)

  // ---- Under the lock ----

  /** What the outside world answers while the lock is held; healthy is what healthyState finds first. */
  datatype UnderLock = UnderLock(
    healthy: Option<State>, removes: bool, starts: Option<nat>,
    becomesHealthy: Option<State>, drops: bool, detaches: bool)

  /** What startUnderLock does: DaemonSteps plays it in DaemonLock. Drops closes the descriptor without unlocking. */
  datatype Effect = Clears | Spawns(pid: nat) | Stops | Unlocks | Drops

  predicate Compatible(expected: string, s: State) { expected == "" || s.version == expected }

  /**
   A started child is stopped before the lock is unlocked, and the lock is not unlocked once it was handed over.
   */
  predicate StartOrder(effects: seq<Effect>) {
    || effects == [Unlocks]
    || effects == [Clears, Unlocks]
    || (&& |effects| > 2 && effects[0] == Clears && effects[1].Spawns?
        && (effects[2..] == [Stops, Unlocks] || effects[2..] == [Drops] || effects[2..] == [Drops, Stops]))
  }

  /** A compatible daemon turns out to be there already. */
  predicate FindsOne(expected: string, world: UnderLock) {
    world.healthy.Some? && (expected == "" || world.healthy.value.version == expected)
  }

  /** The stale state is cleared, a child starts, becomes healthy as a compatible daemon, and is left to itself. */
  predicate StartsOne(expected: string, world: UnderLock) {
    && world.healthy.None? && world.removes && world.starts.Some? && world.starts.value >= 1
    && world.becomesHealthy.Some? && world.becomesHealthy.value.pid == world.starts.value
    && (expected == "" || world.becomesHealthy.value.version == expected)
    && world.drops && world.detaches
  }

  /** startUnderLock with its deferred unlock. */
  method StartUnderLock(expected: string, world: UnderLock) returns (r: Result<State>, effects: seq<Effect>)
    ensures r == if FindsOne(expected, world) then Ok(world.healthy.value)
                 else if StartsOne(expected, world) then Ok(world.becomesHealthy.value)
                 else Error
    ensures r.Ok? ==> Compatible(expected, r.value)
    ensures StartOrder(effects)
    ensures r.Ok? && effects != [Unlocks] ==> effects == [Clears, Spawns(r.value.pid), Drops]
    ensures Clears in effects <==> world.healthy.None? && world.removes
    ensures |effects| > 2 <==> Clears in effects && world.starts.Some? && world.starts.value >= 1
    ensures |effects| > 2 ==> effects[1] == Spawns(world.starts.value)
    ensures Stops in effects <==> |effects| > 2 && !StartsOne(expected, world)
    ensures Drops in effects <==>
              && |effects| > 2 && world.becomesHealthy.Some? && world.becomesHealthy.value.pid == world.starts.value
              && Compatible(expected, world.becomesHealthy.value)
  {
    effects := [];
    if world.healthy.Some? {
      effects := effects + [Unlocks];
      r := if Compatible(expected, world.healthy.value) then Ok(world.healthy.value) else Error;
      return;
    }
    if !world.removes {
      effects := effects + [Unlocks];
      return Error, effects;
    }
    effects := effects + [Clears];
    if world.starts.None? || world.starts.value < 1 {
      effects := effects + [Unlocks];
      return Error, effects;
    }
    var pid := world.starts.value;
    effects := effects + [Spawns(pid)];
    // waitForChild takes a healthy state only from this child, with a compatible version
    var state := world.becomesHealthy;
    if state.None? || state.value.pid != pid || !Compatible(expected, state.value) {
      effects := effects + [Stops] + [Unlocks];
      assert effects == [Clears, Spawns(pid), Stops, Unlocks];
      return Error, effects;
    }
    // DropReference forgets the descriptor even when closing it fails, so the deferred Close does nothing then
    effects := effects + [Drops];
    if !world.drops || !world.detaches {
      effects := effects + [Stops];
      assert effects == [Clears, Spawns(pid), Drops, Stops];
      return Error, effects;
    }
    assert effects == [Clears, Spawns(pid), Drops];
    r := Ok(state.value);
  }

  // ---- The polling loop ----

  /** What one round of Ensure finds. */
  datatype Round =
    | Healthy(state: State, shutdownTaken: bool, timedOut: bool)
    | LockTaken(world: UnderLock)
    | LockHeld(timedOut: bool)
    | LockFails

  /** The round met a healthy, incompatible daemon of this instance. */
  predicate Met(expected: string, round: Round, instance: string) {
    round.Healthy? && round.state.instance == instance && !Compatible(expected, round.state)
  }

  /** Two requests in a row are for different instances. */
  predicate NoRepeats(requests: seq<string>) { forall i :: 0 < i < |requests| ==> requests[i] != requests[i - 1] }

  /** The instances of the incompatible daemons met, one after the other, each for as long as it was met in a row. */
  function Asked(expected: string, rounds: seq<Round>): (requests: seq<string>)
    ensures NoRepeats(requests)
    ensures forall k :: 0 <= k < |requests| ==> exists i :: 0 <= i < |rounds| && Met(expected, rounds[i], requests[k])
  {
    if rounds == [] then []
    else
      var rest, last := Asked(expected, rounds[..|rounds| - 1]), rounds[|rounds| - 1];
      if !last.Healthy? || Compatible(expected, last.state) then rest
      else
        assert Met(expected, last, last.state.instance);
        if LastOf(rest) == last.state.instance then rest else rest + [last.state.instance]
  }

  function LastOf(requests: seq<string>): string { if requests == [] then "" else requests[|requests| - 1] }

  /** Ensure goes on after round i: it met an incompatible daemon it could ask or had asked, or the lock was held. */
  predicate GoesOn(expected: string, rounds: seq<Round>, i: nat)
    requires i < |rounds|
  {
    match rounds[i]
    case Healthy(state, shutdownTaken, timedOut) =>
      && !Compatible(expected, state) && !timedOut
      && (shutdownTaken || LastOf(Asked(expected, rounds[..i])) == state.instance)
    case LockHeld(timedOut) => !timedOut
    case LockTaken(_) => false
    case LockFails => false
  }

  /** What a round that Ensure does not go on after leads to. */
  function Decision(expected: string, round: Round): Result<State> {
    match round
    case Healthy(state, _, _) => if expected == "" || state.version == expected then Ok(state) else Error
    case LockTaken(world) =>
      if FindsOne(expected, world) then Ok(world.healthy.value)
      else if StartsOne(expected, world) then Ok(world.becomesHealthy.value)
      else Error
    case _ => Error
  }

  /** The first i rounds did not decide. */
  predicate Undecided(expected: string, rounds: seq<Round>, i: nat)
    requires i <= |rounds|
  {
    forall j :: 0 <= j < i ==> GoesOn(expected, rounds, j)
  }

  lemma AskedStep(expected: string, rounds: seq<Round>, i: nat)
    requires i < |rounds|
    ensures var before, after := Asked(expected, rounds[..i]), Asked(expected, rounds[..i + 1]);
            if rounds[i].Healthy? && !Compatible(expected, rounds[i].state)
               && LastOf(before) != rounds[i].state.instance
            then after == before + [rounds[i].state.instance]
            else after == before
    ensures forall k :: 0 <= k < |Asked(expected, rounds[..i])| ==>
              exists j :: 0 <= j < |rounds| && Met(expected, rounds[j], Asked(expected, rounds[..i])[k])
  {
    hide Compatible, NoRepeats;
    assert rounds[..i + 1][..i] == rounds[..i];
    forall k | 0 <= k < |Asked(expected, rounds[..i])|
      ensures exists j :: 0 <= j < |rounds| && Met(expected, rounds[j], Asked(expected, rounds[..i])[k])
    {
      var j :| 0 <= j < i && Met(expected, rounds[..i][j], Asked(expected, rounds[..i])[k]);
      assert Met(expected, rounds[j], Asked(expected, rounds[..i])[k]);
    }
  }

  /** Only one round decides. */
  lemma Decided(expected: string, rounds: seq<Round>, i: nat)
    requires i < |rounds| && Undecided(expected, rounds, i) && !GoesOn(expected, rounds, i)
    ensures !Undecided(expected, rounds, |rounds|)
    ensures forall k :: 0 <= k < |rounds| && Undecided(expected, rounds, k) && !GoesOn(expected, rounds, k) ==> k == i
  {
    hide GoesOn;
  }

  /**
   Ensure: the first round that it does not go on after decides. It returns the state of the compatible daemon found or
   started in that round, and asks an incompatible daemon to shut down once for as long as it meets the same instance.
   Instances are never empty; rounds that go on without an end are cut off as a failure.
   */
  method Ensure(expected: string, rounds: seq<Round>) returns (r: Result<State>, requests: seq<string>, started: nat)
    requires forall i :: 0 <= i < |rounds| && rounds[i].Healthy? ==> rounds[i].state.instance != ""
    ensures Undecided(expected, rounds, |rounds|) ==>
              r == Error && started == 0 && requests == Asked(expected, rounds)
    ensures forall i :: 0 <= i < |rounds| && Undecided(expected, rounds, i) && !GoesOn(expected, rounds, i) ==>
              && r == Decision(expected, rounds[i]) && requests == Asked(expected, rounds[..i + 1])
              && started == if rounds[i].LockTaken? then 1 else 0
    ensures r.Ok? ==> Compatible(expected, r.value)
    ensures NoRepeats(requests) && started <= 1
    ensures forall k :: 0 <= k < |requests| ==>
              exists i :: 0 <= i < |rounds| && Met(expected, rounds[i], requests[k])
  {
    hide Asked, Undecided, NoRepeats, StartsOne, FindsOne;
    requests, started := [], 0;
    var replacementRequestedFor := "";
    NothingAsked(expected, rounds);
    for i := 0 to |rounds|
      invariant Undecided(expected, rounds, i) && requests == Asked(expected, rounds[..i]) && started == 0
      invariant replacementRequestedFor == LastOf(requests)
      invariant forall k :: 0 <= k < |requests| ==>
                  exists j :: 0 <= j < |rounds| && Met(expected, rounds[j], requests[k])
    {
      AskedStep(expected, rounds, i);
      if !GoesOn(expected, rounds, i) {
        Decided(expected, rounds, i);
      } else {
        UndecidedMore(expected, rounds, i);
      }
      match rounds[i]
      case Healthy(state, shutdownTaken, timedOut) =>
        if Compatible(expected, state) {
          return Ok(state), requests, started;
        }
        if replacementRequestedFor != state.instance {
          requests := requests + [state.instance];
          assert Met(expected, rounds[i], requests[|requests| - 1]);
          if !shutdownTaken {
            return Error, requests, started;
          }
          replacementRequestedFor := state.instance;
        }
        if timedOut {
          return Error, requests, started;
        }
      case LockTaken(world) =>
        var effects;
        started := 1;
        r, effects := StartUnderLock(expected, world);
        return;
      case LockHeld(timedOut) =>
        if timedOut {
          return Error, requests, started;
        }
      case LockFails => return Error, requests, started;
    }
    assert rounds[..|rounds|] == rounds;
    NoneDecides(expected, rounds);
    r := Error;
  }

  lemma NothingAsked(expected: string, rounds: seq<Round>)
    ensures Asked(expected, rounds[..0]) == [] && Undecided(expected, rounds, 0)
  {
  }

  lemma NoneDecides(expected: string, rounds: seq<Round>)
    requires Undecided(expected, rounds, |rounds|)
    ensures forall i :: 0 <= i < |rounds| ==> GoesOn(expected, rounds, i)
  {
    hide GoesOn;
  }

  lemma UndecidedMore(expected: string, rounds: seq<Round>, i: nat)
    requires i < |rounds| && Undecided(expected, rounds, i) && GoesOn(expected, rounds, i)
    ensures Undecided(expected, rounds, i + 1)
  {
    hide GoesOn;
  }
}
