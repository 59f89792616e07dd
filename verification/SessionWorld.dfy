/**
 All sessions of one server at once. They share the counter of message IDs, their exec IDs are random and assumed
 distinct, and a detached tool result is assigned to the session it matches.
 */
module SessionWorld {
  import opened Common
  import opened SessionModel
  import opened SessionProtocol
  import opened SessionIdentity
  import SessionRuns

  datatype World = World(issued: nat, sessions: map<nat, System>)

  datatype Deed = Create(n: nat) | Act(n: nat, action: Action)

  function NewSession(issued: nat): System { INITIAL.(ids := IDs(issued, {}, {})) }

  /** The exec ID that an action may use, if it makes one. */
  function NewExec(a: Action): Option<string> {
    match a
    case DoOpen(_, _, _, execID, _) => Some(execID)
    case DoApply(_, execID) => Some(execID)
    case Ask(execID) => Some(execID)
    case _ => None
  }

  ghost predicate Enabled(w: World, d: Deed) {
    match d
    case Create(n) => n !in w.sessions
    case Act(n, a) =>
      && n in w.sessions && SessionProtocol.Enabled(w.sessions[n], a) && !a.AllocateElsewhere?
      && (NewExec(a).Some? ==> forall k :: k in w.sessions ==> NewExec(a).value !in w.sessions[k].ids.execs)
  }

  function Counted(y: System, issued: nat): System { y.(ids := y.ids.(issued := issued)) }

  ghost function Step(w: World, d: Deed): World
    requires Enabled(w, d)
  {
    match d
    case Create(n) => w.(sessions := w.sessions[n := NewSession(w.issued)])
    case Act(n, a) =>
      var y := SessionProtocol.Step(w.sessions[n], a);
      World(y.ids.issued, map k | k in w.sessions :: if k == n then y else Counted(w.sessions[k], y.ids.issued))
  }

  ghost function After(run: seq<Deed>): Option<World> {
    if run == [] then Some(World(0, map[]))
    else
      match After(run[..|run| - 1])
      case None => None
      case Some(w) => if Enabled(w, run[|run| - 1]) then Some(Step(w, run[|run| - 1])) else None
  }

  predicate Apart(a: IDs, b: IDs) { a.own !! b.own && a.execs !! b.execs }

  ghost predicate Kept(w: World) {
    && w.issued < 0x1_0000_0000
    && (forall n :: n in w.sessions ==> w.sessions[n].ids.issued == w.issued && SessionRuns.Kept(w.sessions[n]))
    && (forall n, k :: n in w.sessions && k in w.sessions && n != k ==> Apart(w.sessions[n].ids, w.sessions[k].ids))
  }

  lemma NewSessionKept(issued: nat)
    requires issued < 0x1_0000_0000
    ensures SessionRuns.Kept(NewSession(issued))
  {
  }

  lemma CountedKept(y: System, issued: nat)
    requires SessionRuns.Kept(y) && (issued == y.ids.issued || issued == y.ids.issued + 1 < 0x1_0000_0000)
    ensures SessionRuns.Kept(Counted(y, issued))
  {
    hide SessionRuns.Kept;
    if issued != y.ids.issued {
      SessionRuns.KeptStep(y, AllocateElsewhere);
    } else {
      assert Counted(y, issued) == y;
    }
  }

  /** A step makes at most one message ID, the next one, and at most one exec ID, the one given to it. */
  lemma StepMakes(y: System, a: Action)
    requires SessionProtocol.Enabled(y, a) && !a.AllocateElsewhere? && y.ids.issued < 0x1_0000_0000
    ensures var made := SessionProtocol.Step(y, a).ids;
            || made == y.ids
            || (NewExec(a).Some? && made == Made(y.ids, NewExec(a).value) && made.issued < 0x1_0000_0000)
  {
    hide Apply, Open, OpenedTool, SessionProtocol.Sent, Received;
  }

  lemma OwnBelow(y: System)
    requires SessionRuns.Kept(y)
    ensures forall m :: m in y.ids.own ==> 1 <= m <= y.ids.issued
    ensures y.ids.issued < 0x1_0000_0000
  {
    hide DeliveryKept, PendingIssued, Coherent;
  }

  lemma ActKept(w: World, n: nat, a: Action)
    requires Kept(w) && Enabled(w, Act(n, a))
    ensures Kept(Step(w, Act(n, a)))
  {
    hide SessionRuns.Kept, SessionProtocol.Step, SessionProtocol.Enabled, NewExec;
    var y := w.sessions[n];
    SessionRuns.KeptStep(y, a);
    StepMakes(y, a);
    var issued := SessionProtocol.Step(y, a).ids.issued;
    OwnBelow(y);
    forall k | k in w.sessions
      ensures SessionRuns.Kept(Counted(w.sessions[k], issued))
      ensures forall m :: m in w.sessions[k].ids.own ==> 1 <= m <= w.issued
    {
      CountedKept(w.sessions[k], issued);
      OwnBelow(w.sessions[k]);
    }
  }

  lemma {:induction false} KeptAlways(run: seq<Deed>)
    requires After(run).Some?
    ensures Kept(After(run).value)
  {
    hide SessionRuns.Kept, SessionProtocol.Step, SessionProtocol.Enabled;
    if run != [] {
      KeptAlways(run[..|run| - 1]);
      var w := After(run[..|run| - 1]).value;
      match run[|run| - 1]
      case Create(n) => NewSessionKept(w.issued);
      case Act(n, a) => ActKept(w, n, a);
    }
  }

  /** What a result that matches a session names is among the IDs of that session. */
  lemma MatchNamesOwn(y: System, id: Identity)
    requires SessionRuns.Kept(y) && Matches(y.session, id)
    ensures if id.execID != "" then id.execID in y.ids.execs else id.messageID in y.ids.own
  {
    hide DeliveryKept, SessionProtocol.CallsKept, Coherent;
  }

  /** Sessions stay, and what they have made stays theirs. */
  predicate Grows(before: World, after: World) {
    forall n :: n in before.sessions ==>
      && n in after.sessions
      && before.sessions[n].ids.own <= after.sessions[n].ids.own
      && before.sessions[n].ids.execs <= after.sessions[n].ids.execs
  }

  lemma GrowsStep(w: World, d: Deed)
    requires Kept(w) && Enabled(w, d)
    ensures Grows(w, Step(w, d))
  {
    hide SessionRuns.Kept, SessionProtocol.Step, SessionProtocol.Enabled, NewExec;
    if d.Act? {
      OwnBelow(w.sessions[d.n]);
      StepMakes(w.sessions[d.n], d.action);
    }
  }

  lemma {:induction false} GrowsAlways(run: seq<Deed>, more: seq<Deed>)
    requires After(run + more).Some?
    ensures After(run).Some? && Grows(After(run).value, After(run + more).value)
    decreases |more|
  {
    hide Step, Enabled, Kept;
    if more == [] {
      assert run + more == run;
    } else {
      var n := |more| - 1;
      assert (run + more)[..|run + more| - 1] == run + more[..n];
      GrowsAlways(run, more[..n]);
      KeptAlways(run + more[..n]);
      GrowsStep(After(run + more[..n]).value, more[n]);
    }
  }

  /**
   A detached result is held against one session after another, while all of them go on. Whatever happens between two
   of these tests, it does not match two sessions.
   */
  lemma DetachedMatchesOne(run: seq<Deed>, more: seq<Deed>, id: Identity, n: nat, k: nat)
    requires After(run).Some? && n in After(run).value.sessions
    requires After(run + more).Some? && k in After(run + more).value.sessions
    requires Matches(After(run).value.sessions[n].session, id)
    requires Matches(After(run + more).value.sessions[k].session, id)
    ensures n == k
  {
    hide SessionRuns.Kept, After, Matches;
    KeptAlways(run);
    KeptAlways(run + more);
    GrowsAlways(run, more);
    MatchNamesOwn(After(run).value.sessions[n], id);
    MatchNamesOwn(After(run + more).value.sessions[k], id);
  }

  datatype Assignment = To(n: nat) | Nowhere | Ambiguous

  /** The loop of applyDetachedToolResult over the sessions it collected. */
  method Assign(matches: seq<bool>) returns (r: Assignment)
    ensures r.To? <==>
              exists n :: 0 <= n < |matches| && matches[n] && forall k :: 0 <= k < |matches| && matches[k] ==> k == n
    ensures r.To? ==> r.n < |matches| && matches[r.n]
    ensures r.Nowhere? <==> forall n :: 0 <= n < |matches| ==> !matches[n]
  {
    var matched: Option<nat> := None;
    for i := 0 to |matches|
      invariant matched.None? ==> forall n :: 0 <= n < i ==> !matches[n]
      invariant matched.Some? ==>
                  && matched.value < i && matches[matched.value]
                  && forall k :: 0 <= k < i && matches[k] ==> k == matched.value
    {
      if matches[i] {
        if matched.Some? {
          return Ambiguous;
        }
        matched := Some(i);
      }
    }
    r := if matched.Some? then To(matched.value) else Nowhere;
  }
}
