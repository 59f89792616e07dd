/**
 Runs of any number of threads over the conversations: each takes hold of a conversation, waits for its lock, reads the
 window of past turns, commits at most one turn, unlocks and lets go, while unheld conversations may be dropped.
 */
module ConversationRuns {
  import opened Common
  import opened Conversations

  /** One conversation object: its bounded window of turns, and the thread that has locked it. */
  datatype Object = Object(window: seq<Turn>, owner: Option<nat>)

  datatype Thread =
    | Idle
    | Queued(id: string, o: nat)
    | Inside(id: string, o: nat, base: seq<Turn>, committed: bool)
    | Unlocked(id: string, o: nat)

  /** A turn that a thread committed, and the past turns that its requests were built from. */
  datatype Commit = Commit(o: nat, base: seq<Turn>, turn: Turn)

  datatype System = System(
    mapped: map<string, nat>, objects: seq<Object>, threads: map<nat, Thread>, commits: seq<Commit>)

  const INITIAL := System(map[], [], map[], [])

  datatype Action =
    | Arrive(t: nat)
    | Acquire(t: nat, id: string, dropped: set<string>)
    | Lock(t: nat)
    | Commits(t: nat, turn: Turn)
    | Unlock(t: nat)
    | Release(t: nat, dropped: set<string>)

  /** Only conversations that no thread holds are dropped: see Conversations.Evicted and ConversationRegistry.Valid. */
  predicate Unheld(y: System, id: string) {
    forall t :: t in y.threads && !y.threads[t].Idle? ==> y.threads[t].id != id
  }

  predicate Enabled(y: System, a: Action) {
    match a
    case Arrive(t) => t !in y.threads
    case Acquire(t, id, dropped) => t in y.threads && y.threads[t].Idle? && forall d :: d in dropped ==>
      d != id && Unheld(y, d)
    case Lock(t) =>
      && t in y.threads && y.threads[t].Queued? && y.threads[t].o < |y.objects|
      && y.objects[y.threads[t].o].owner == None
    case Commits(t, _) =>
      t in y.threads && y.threads[t].Inside? && !y.threads[t].committed && y.threads[t].o < |y.objects|
    case Unlock(t) => t in y.threads && y.threads[t].Inside? && y.threads[t].o < |y.objects|
    case Release(t, dropped) =>
      && t in y.threads && y.threads[t].Unlocked?
      && forall d :: d in dropped ==> Unheld(y.(threads := y.threads[t := Idle]), d)
  }

  function Step(y: System, a: Action, maxTurns: nat): System
    requires Enabled(y, a)
  {
    match a
    case Arrive(t) => y.(threads := y.threads[t := Idle])
    case Acquire(t, id, dropped) =>
      var found := id in y.mapped;
      var o := if found then y.mapped[id] else |y.objects|;
      y.(mapped := y.mapped[id := o] - dropped, objects := if found then y.objects else y.objects + [Object([], None)],
         threads := y.threads[t := Queued(id, o)])
    case Lock(t) =>
      var o := y.threads[t].o;
      y.(objects := y.objects[o := y.objects[o].(owner := Some(t))],
         threads := y.threads[t := Inside(y.threads[t].id, o, y.objects[o].window, false)])
    case Commits(t, turn) =>
      var o := y.threads[t].o;
      y.(objects := y.objects[o := y.objects[o].(window := Last(y.objects[o].window + [turn], maxTurns))],
         threads := y.threads[t := y.threads[t].(committed := true)],
         commits := y.commits + [Commit(o, y.threads[t].base, turn)])
    case Unlock(t) =>
      var o := y.threads[t].o;
      y.(objects := y.objects[o := y.objects[o].(owner := None)],
         threads := y.threads[t := Unlocked(y.threads[t].id, o)])
    case Release(t, dropped) => y.(mapped := y.mapped - dropped, threads := y.threads[t := Idle])
  }

  function After(run: seq<Action>, maxTurns: nat): Option<System> {
    if run == [] then Some(INITIAL)
    else
      match After(run[..|run| - 1], maxTurns)
      case None => None
      case Some(y) => if Enabled(y, run[|run| - 1]) then Some(Step(y, run[|run| - 1], maxTurns)) else None
  }

  /** The unbounded log of a conversation object: every turn committed to it, in order. */
  function LogOf(commits: seq<Commit>, o: nat): seq<Turn> {
    if commits == [] then []
    else
      var rest, c := LogOf(commits[..|commits| - 1], o), commits[|commits| - 1];
      if c.o == o then rest + [c.turn] else rest
  }

  // ---- Holding ----

  /** A thread that holds a conversation holds the one that its ID leads to. */
  predicate HoldsMapped(y: System) {
    && (forall id :: id in y.mapped ==> y.mapped[id] < |y.objects|)
    && (forall t :: t in y.threads && !y.threads[t].Idle? ==>
      y.threads[t].id in y.mapped && y.mapped[y.threads[t].id] == y.threads[t].o)
  }

  lemma HoldsStep(y: System, a: Action, maxTurns: nat)
    requires HoldsMapped(y) && Enabled(y, a)
    ensures HoldsMapped(Step(y, a, maxTurns))
  {
    if a.Acquire? {
      assert forall t :: t in y.threads && !y.threads[t].Idle? ==> y.threads[t].id !in a.dropped;
    }
    if a.Release? {
      var after := y.(threads := y.threads[a.t := Idle]);
      assert forall t :: t in after.threads && !after.threads[t].Idle? ==> after.threads[t].id !in a.dropped;
    }
  }

  // ---- Commit order ----

  /** The lock is owned by the one thread inside, and what that thread has read is still the window. */
  predicate Exclusive(y: System) {
    && (forall t :: t in y.threads && y.threads[t].Inside? ==>
          && y.threads[t].o < |y.objects| && y.objects[y.threads[t].o].owner == Some(t)
          && (!y.threads[t].committed ==> y.threads[t].base == y.objects[y.threads[t].o].window))
  }

  lemma ExclusiveStep(y: System, a: Action, maxTurns: nat)
    requires Exclusive(y) && Enabled(y, a)
    ensures Exclusive(Step(y, a, maxTurns))
  {
  }

  /** The windows refine the unbounded logs, and every commit was based on the last turns before it. */
  ghost predicate Serial(objects: seq<Object>, commits: seq<Commit>, maxTurns: nat) {
    && (forall o: nat :: o < |objects| ==> objects[o].window == Last(LogOf(commits, o), maxTurns))
    && (forall o: nat :: o >= |objects| ==> LogOf(commits, o) == [])
    && (forall i :: 0 <= i < |commits| ==> commits[i].base == Last(LogOf(commits[..i], commits[i].o), maxTurns))
  }

  lemma LogSnoc(commits: seq<Commit>, c: Commit, o: nat)
    ensures LogOf(commits + [c], o) == if c.o == o then LogOf(commits, o) + [c.turn] else LogOf(commits, o)
  {
    assert (commits + [c])[..|commits|] == commits;
  }

  lemma SerialCommit(objects: seq<Object>, commits: seq<Commit>, o: nat, turn: Turn, maxTurns: nat)
    requires Serial(objects, commits, maxTurns) && o < |objects|
    ensures var c := Commit(o, objects[o].window, turn);
            var window := Last(objects[o].window + [turn], maxTurns);
            Serial(objects[o := objects[o].(window := window)], commits + [c], maxTurns)
  {
    hide LogOf, Last;
    var c := Commit(o, objects[o].window, turn);
    var after := objects[o := objects[o].(window := Last(objects[o].window + [turn], maxTurns))];
    forall k: nat | k < |after|
      ensures after[k].window == Last(LogOf(commits + [c], k), maxTurns)
    {
      LogSnoc(commits, c, k);
      LastSnoc(LogOf(commits, k), turn, maxTurns);
    }
    forall k: nat | k >= |after|
      ensures LogOf(commits + [c], k) == []
    {
      LogSnoc(commits, c, k);
    }
    forall i | 0 <= i <= |commits|
      ensures (commits + [c])[..i] == commits[..i]
    {
    }
  }

  lemma SerialStep(y: System, a: Action, maxTurns: nat)
    requires Exclusive(y) && Serial(y.objects, y.commits, maxTurns) && Enabled(y, a)
    ensures Serial(Step(y, a, maxTurns).objects, Step(y, a, maxTurns).commits, maxTurns)
  {
    hide LogOf;
    if a.Commits? {
      SerialCommit(y.objects, y.commits, y.threads[a.t].o, a.turn, maxTurns);
    }
  }

  lemma {:induction false} KeptAlways(run: seq<Action>, maxTurns: nat)
    requires After(run, maxTurns).Some?
    ensures var y := After(run, maxTurns).value;
            HoldsMapped(y) && Exclusive(y) && Serial(y.objects, y.commits, maxTurns)
  {
    if run != [] {
      hide HoldsMapped, Exclusive, Serial, Step, Enabled;
      KeptAlways(run[..|run| - 1], maxTurns);
      var y := After(run[..|run| - 1], maxTurns).value;
      HoldsStep(y, run[|run| - 1], maxTurns);
      ExclusiveStep(y, run[|run| - 1], maxTurns);
      SerialStep(y, run[|run| - 1], maxTurns);
    }
  }

  /**
   Concurrent runs on a conversation are serialisable: each turn was built on the last maxTurns turns of the commits
   before it, and what a thread reads now are the last of all commits so far.
   */
  lemma Serialisable(run: seq<Action>, maxTurns: nat, i: nat, t: nat)
    requires After(run, maxTurns).Some?
    ensures var y := After(run, maxTurns).value;
            && (i < |y.commits| ==> y.commits[i].base == Last(LogOf(y.commits[..i], y.commits[i].o), maxTurns))
            && (t in y.threads && y.threads[t].Inside? && !y.threads[t].committed ==>
                  y.threads[t].base == Last(LogOf(y.commits, y.threads[t].o), maxTurns))
  {
    KeptAlways(run, maxTurns);
  }

  /** Steps of other threads leave a thread that is inside as it is, and the conversation it has locked. */
  lemma {:induction false} OthersLeave(run: seq<Action>, more: seq<Action>, maxTurns: nat, t: nat)
    requires After(run + more, maxTurns).Some? && forall a :: a in more ==> a.t != t
    requires After(run, maxTurns).Some? ==>
               t in After(run, maxTurns).value.threads && After(run, maxTurns).value.threads[t].Inside?
    ensures After(run, maxTurns).Some?
    ensures var y, z := After(run, maxTurns).value, After(run + more, maxTurns).value;
            && t in z.threads && z.threads[t] == y.threads[t]
            && y.threads[t].o < |y.objects| && y.threads[t].o < |z.objects|
            && z.objects[y.threads[t].o] == y.objects[y.threads[t].o]
            && LogOf(z.commits, y.threads[t].o) == LogOf(y.commits, y.threads[t].o)
    decreases |more|
  {
    hide Step, Enabled, HoldsMapped, Serial, LogOf;
    if more == [] {
      assert run + more == run;
      KeptAlways(run, maxTurns);
    } else {
      var n := |more| - 1;
      var before := run + more[..n];
      assert (run + more)[..|run + more| - 1] == before;
      OthersLeave(run, more[..n], maxTurns, t);
      KeptAlways(before, maxTurns);
      OtherLeaves(After(before, maxTurns).value, more[n], maxTurns, t);
    }
  }

  lemma OtherLeaves(y: System, a: Action, maxTurns: nat, t: nat)
    requires Exclusive(y) && Enabled(y, a) && a.t != t && t in y.threads && y.threads[t].Inside?
    ensures var z, o := Step(y, a, maxTurns), y.threads[t].o;
            && t in z.threads && z.threads[t] == y.threads[t]
            && o < |y.objects| && o < |z.objects| && z.objects[o] == y.objects[o]
            && LogOf(z.commits, o) == LogOf(y.commits, o)
  {
    hide LogOf;
    if a.Commits? {
      LogSnoc(y.commits, Commit(y.threads[a.t].o, y.threads[a.t].base, a.turn), y.threads[t].o);
    }
  }

  /** Two runs that overlap on a conversation ID hold the same object, and are never inside it together. */
  lemma OverlappingRunsShare(run: seq<Action>, maxTurns: nat, t: nat, u: nat)
    requires After(run, maxTurns).Some?
    requires var y := After(run, maxTurns).value; t in y.threads && u in y.threads && t != u
    requires var y := After(run, maxTurns).value;
             !y.threads[t].Idle? && !y.threads[u].Idle? && y.threads[t].id == y.threads[u].id
    ensures var y := After(run, maxTurns).value;
            y.threads[t].o == y.threads[u].o && !(y.threads[t].Inside? && y.threads[u].Inside?)
  {
    KeptAlways(run, maxTurns);
  }
}
