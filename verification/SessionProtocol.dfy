/**
 All runs of one session: any number of threads call its critical sections in any order, hand results on after
 unlocking, and race with the thread that asks the client for its MCP tools, with its timer and with cancellation.
 */
module SessionProtocol {
  import opened Common
  import opened ShellOutput
  import opened SessionModel

  /**
   How many message IDs were handed out so far, to this session or another; those, and the exec IDs, of this session.
   */
  datatype IDs = IDs(issued: nat, own: set<nat>, execs: set<string>)

  /** What was taken for a call before its result: the output of a shell, and the read that an Edit went on from. */
  datatype Taken = Taken(heard: seq<Delta>, read: Option<Bytes>)

  const NOTHING_TAKEN := Taken([], None)

  /** History: every call ever opened, and what was taken for it. */
  datatype Calls = Calls(asked: map<nat, ToolRequest>, taken: map<nat, Taken>)

  /** A result on its way into the channel of a call: taken out of the session, not yet sent. */
  datatype Delivery = Delivery(tool: nat, result: ToolResult)

  /** The result channels of the calls, and what has been taken out of them. */
  datatype Channels = Channels(
    inFlight: seq<Delivery>, buffers: map<nat, seq<ToolResult>>, received: map<nat, seq<ToolResult>>)

  /** The thread in enrichRunWithMCP. Late: the timer fired, but the query was no longer there to be cleared. */
  datatype Asker =
    | Idle
    | Waiting(d: Discovery)
    | Late(d: Discovery)
    | Answered(d: Discovery, outcome: StateOutcome)
    | Failed(asked: Option<Discovery>, timedOut: bool)

  /** accepted: what applyToolResult has ever taken for the query; inFlight: taken, but not yet sent to the asker. */
  datatype Inquiry = Inquiry(
    asker: Asker, accepted: seq<StateOutcome>, inFlight: seq<StateOutcome>, buffer: seq<StateOutcome>)

  /** cancelOwed: finish has unlocked and is about to cancel the context. next numbers the next call. */
  datatype System = System(
    session: Session, cancelled: bool, cancelOwed: bool, ids: IDs, next: nat,
    calls: Calls, channels: Channels, inquiry: Inquiry)

  const INITIAL := System(FRESH, false, false, IDs(0, {}, {}), 0, Calls(map[], map[]),
                          Channels([], map[], map[]), Inquiry(Idle, [], [], []))

  datatype Action =
    | DoStart(run: RunRequest)
    | DoPublish(payload: Bytes)
    | DoOpen(callID: string, name: ToolName, arguments: Arguments, execID: string, encodes: bool)
    | DoApply(result: ExecMessage, execID: string)
    | DoFinish(payload: Bytes, code: string, message: string, now: nat)
    | Cancel
    | AllocateElsewhere
    | Send(i: nat)
    | GiveUp(i: nat)
    | Receive(tool: nat)
    | Ask(execID: string)
    | SendState(i: nat)
    | GiveUpState(i: nat)
    | TakeState
    | Timer
    | AskerCancelled

  const CHANNEL_CAPACITY := 1

  predicate Unused(ids: IDs, execID: string) {
    execID != "" && execID !in ids.execs && ids.issued + 1 < 0x1_0000_0000
  }

  predicate Asks(q: Inquiry) { q.asker.Waiting? || q.asker.Late? }

  /** The client has MCP tools that the run does not name. */
  predicate LacksTools(run: RunRequest) { run.toolsPresent && run.tools == [] }

  /** When an action can happen. A send waits for room in the channel; giving up needs a cancelled context. */
  predicate Enabled(y: System, a: Action) {
    match a
    case DoStart(_) => true
    case DoPublish(_) => true
    case DoFinish(_, _, _, _) => true
    case DoOpen(_, _, _, execID, _) => y.session.run.Some? && Unused(y.ids, execID)
    case DoApply(_, execID) => Unused(y.ids, execID)
    case Cancel => y.session.run.Some?
    case AllocateElsewhere => y.ids.issued + 1 < 0x1_0000_0000
    case Send(i) => CanSend(y.channels, i)
    case GiveUp(i) => i < |y.channels.inFlight| && y.cancelled
    case Receive(t) => CanReceive(y.channels, t)
    case Ask(execID) =>
      y.inquiry.asker.Idle? && y.session.run.Some? && LacksTools(y.session.run.value) && Unused(y.ids, execID)
    case SendState(i) => i < |y.inquiry.inFlight| && |y.inquiry.buffer| < CHANNEL_CAPACITY
    case GiveUpState(i) => i < |y.inquiry.inFlight| && y.cancelled
    case TakeState => Asks(y.inquiry) && y.inquiry.buffer != []
    case Timer => y.inquiry.asker.Waiting?
    case AskerCancelled => Asks(y.inquiry) && y.cancelled
  }

  predicate CanSend(c: Channels, i: nat) {
    i < |c.inFlight| && c.inFlight[i].tool in c.buffers && |c.buffers[c.inFlight[i].tool]| < CHANNEL_CAPACITY
  }

  predicate CanReceive(c: Channels, t: nat) {
    t in c.buffers && t in c.received && c.buffers[t] != []
  }

  function Without<T>(s: seq<T>, i: nat): seq<T>
    requires i < |s|
  {
    s[..i] + s[i + 1..]
  }

  function Sent(c: Channels, i: nat): Channels
    requires CanSend(c, i)
  {
    var d := c.inFlight[i];
    c.(inFlight := Without(c.inFlight, i), buffers := c.buffers[d.tool := c.buffers[d.tool] + [d.result]])
  }

  function Received(c: Channels, t: nat): Channels
    requires CanReceive(c, t)
  {
    c.(buffers := c.buffers[t := c.buffers[t][1..]], received := c.received[t := c.received[t] + [c.buffers[t][0]]])
  }

  function Made(ids: IDs, execID: string): IDs { IDs(ids.issued + 1, ids.own + {ids.issued + 1}, ids.execs + {execID}) }

  /** What opening a call leaves behind, after its critical section. */
  function AfterOpen(y: System, execID: string, request: ToolRequest, after: (Session, bool)): System {
    var t := y.next;
    var y1 := y.(session := after.0, ids := Made(y.ids, execID), next := t + 1);
    if !after.1 then y1
    else y1.(calls := Calls(y.calls.asked[t := request], y.calls.taken[t := NOTHING_TAKEN]),
             channels := y.channels.(buffers := y.channels.buffers[t := []], received := y.channels.received[t := []]))
  }

  function TakenFor(calls: Calls, t: nat): Taken { if t in calls.taken then calls.taken[t] else NOTHING_TAKEN }

  function HeardMore(taken: Taken, delta: Delta): Taken { taken.(heard := taken.heard + [delta]) }

  function Take(calls: Calls, t: nat, taken: Taken): Calls { calls.(taken := calls.taken[t := taken]) }

  /** What a client result leaves behind, after its critical section. */
  function AfterApply(y: System, execID: string, after: (Session, Applied)): System {
    var y1 := y.(session := after.0);
    match after.1
    case Refused => y1
    case Absorbed => y1
    case Heard(t, delta) => y1.(calls := Take(y.calls, t, HeardMore(TakenFor(y.calls, t), delta)))
    case Redirected(t, read) =>
      y1.(ids := Made(y.ids, execID), calls := Take(y.calls, t, TakenFor(y.calls, t).(read := Some(read))))
    case Delivers(t, result) => y1.(channels := y.channels.(inFlight := y.channels.inFlight + [Delivery(t, result)]))
    case DeliversState(state) =>
      y1.(inquiry := y.inquiry.(accepted := y.inquiry.accepted + [state], inFlight := y.inquiry.inFlight + [state]))
  }

  function AfterAsk(y: System, execID: string): System
    requires Unused(y.ids, execID)
  {
    var (s, ok) := BeginDiscovery(y.session, y.ids.issued + 1, execID);
    if !ok then y.(inquiry := y.inquiry.(asker := Failed(None, false)))
    else y.(session := s, ids := Made(y.ids, execID),
            inquiry := y.inquiry.(asker := Waiting(Discovery(y.ids.issued + 1, execID))))
  }

  ghost function Step(y: System, a: Action): System
    requires Enabled(y, a)
  {
    match a
    case DoStart(run) => y.(session := Start(y.session, run).0)
    case DoPublish(payload) => y.(session := Publish(y.session, payload, y.cancelled).0)
    case DoOpen(callID, name, arguments, execID, encodes) =>
      var o := Opening(y.next, callID, name, arguments);
      AfterOpen(y, execID, OpenedTool(o, y.ids.issued + 1, execID).request,
                Open(y.session, o, y.ids.issued + 1, execID, encodes))
    case DoApply(m, execID) => AfterApply(y, execID, Apply(y.session, m, y.ids.issued + 1, execID))
    case DoFinish(payload, code, message, now) =>
      y.(session := Finish(y.session, payload, code, message, now),
         cancelOwed := y.cancelOwed || (!y.session.Done() && y.session.run.Some?))
    case Cancel => y.(cancelled := true, cancelOwed := false)
    case AllocateElsewhere => y.(ids := y.ids.(issued := y.ids.issued + 1))
    case Send(i) => y.(channels := Sent(y.channels, i))
    case GiveUp(i) => y.(channels := y.channels.(inFlight := Without(y.channels.inFlight, i)))
    case Receive(t) => y.(channels := Received(y.channels, t))
    case Ask(execID) => AfterAsk(y, execID)
    case SendState(i) =>
      y.(inquiry := y.inquiry.(inFlight := Without(y.inquiry.inFlight, i),
                               buffer := y.inquiry.buffer + [y.inquiry.inFlight[i]]))
    case GiveUpState(i) => y.(inquiry := y.inquiry.(inFlight := Without(y.inquiry.inFlight, i)))
    case TakeState =>
      var outcome := y.inquiry.buffer[0];
      y.(inquiry := y.inquiry.(buffer := y.inquiry.buffer[1..], asker := Answered(y.inquiry.asker.d, outcome)),
         session := if outcome.StateOk? then y.session.(discovered := outcome.tools) else y.session)
    case Timer =>
      var d := y.inquiry.asker.d;
      var (s, cleared) := ClearDiscovery(y.session, d);
      y.(session := s, inquiry := y.inquiry.(asker := if cleared then Failed(Some(d), true) else Late(d)))
    case AskerCancelled =>
      var d := y.inquiry.asker.d;
      y.(session := if y.inquiry.asker.Waiting? then ClearDiscovery(y.session, d).0 else y.session,
         inquiry := y.inquiry.(asker := Failed(Some(d), false)))
  }

  // ---- Runs ----

  /** The state after a run, if every action of it could happen. */
  ghost function After(run: seq<Action>): Option<System> {
    if run == [] then Some(INITIAL)
    else
      match After(run[..|run| - 1])
      case None => None
      case Some(y) => if Enabled(y, run[|run| - 1]) then Some(Step(y, run[|run| - 1])) else None
  }

  // ---- Where the result of a call is ----

  ghost predicate CallsKept(pending: map<nat, Pending>, calls: Calls) {
    && calls.taken.Keys == calls.asked.Keys
    && (forall t :: t in pending ==> t in calls.asked && pending[t].request == calls.asked[t])
    && (forall t :: t in pending && KindOf(pending[t].request.name).ShellTool? ==>
      pending[t].capture == AbsorbAll(calls.taken[t].heard))
  }

  /** The result of call t: it carries the ID of the call, and a shell report says what was heard of the shell. */
  predicate ResultOf(calls: Calls, t: nat, result: ToolResult) {
    && t in calls.asked && t in calls.taken
    && result.callID == calls.asked[t].callID
    && match result.content
       case ShellReport(_, stdout, stderr, truncated) =>
         Capture(stdout, stderr, truncated) == AbsorbAll(calls.taken[t].heard)
       case _ => true
  }

  /** Nothing is in the channel of a call, or has ever been taken from it. */
  predicate Untouched(c: Channels, t: nat) {
    t in c.buffers && t in c.received && c.buffers[t] == [] && c.received[t] == []
  }

  /** A channel has seen at most one result, and it was the one of its call. */
  predicate SingleResult(calls: Calls, c: Channels, t: nat) {
    && t in c.buffers && t in c.received
    && |c.buffers[t]| + |c.received[t]| <= 1
    && (forall r :: r in c.buffers[t] ==> ResultOf(calls, t, r))
    && (forall r :: r in c.received[t] ==> ResultOf(calls, t, r))
  }

  /** Wherever the result of a call is, it is nowhere else. */
  ghost predicate ResultsKept(pending: set<nat>, calls: Calls, c: Channels) {
    && c.buffers.Keys == calls.asked.Keys
    && (forall t :: t in pending ==> Untouched(c, t))
    && (forall i :: 0 <= i < |c.inFlight| ==>
          && ResultOf(calls, c.inFlight[i].tool, c.inFlight[i].result)
          && c.inFlight[i].tool !in pending && Untouched(c, c.inFlight[i].tool))
    && (forall i, j :: 0 <= i < j < |c.inFlight| ==> c.inFlight[i].tool != c.inFlight[j].tool)
    && (forall t :: t in calls.asked ==> SingleResult(calls, c, t))
  }

  lemma ResultsCleared(pending: set<nat>, calls: Calls, c: Channels)
    requires ResultsKept(pending, calls, c)
    ensures ResultsKept({}, calls, c)
  {
  }

  lemma ResultsSent(pending: set<nat>, calls: Calls, c: Channels, i: nat)
    requires ResultsKept(pending, calls, c) && CanSend(c, i)
    ensures ResultsKept(pending, calls, Sent(c, i))
  {
  }

  lemma ResultsDropped(pending: set<nat>, calls: Calls, c: Channels, i: nat)
    requires ResultsKept(pending, calls, c) && i < |c.inFlight|
    ensures ResultsKept(pending, calls, c.(inFlight := Without(c.inFlight, i)))
  {
  }

  lemma ResultsReceived(pending: set<nat>, calls: Calls, c: Channels, t: nat)
    requires ResultsKept(pending, calls, c) && CanReceive(c, t)
    ensures ResultsKept(pending, calls, Received(c, t))
  {
    assert SingleResult(calls, c, t);
  }

  lemma ResultsOpened(pending: set<nat>, calls: Calls, c: Channels, t: nat, request: ToolRequest)
    requires ResultsKept(pending, calls, c) && pending <= calls.asked.Keys && t !in calls.asked
    ensures ResultsKept(pending + {t}, Calls(calls.asked[t := request], calls.taken[t := NOTHING_TAKEN]),
                        c.(buffers := c.buffers[t := []], received := c.received[t := []]))
  {
    var calls' := Calls(calls.asked[t := request], calls.taken[t := NOTHING_TAKEN]);
    assert forall u, r :: ResultOf(calls, u, r) ==> ResultOf(calls', u, r);
  }

  lemma ResultsTaken(pending: set<nat>, calls: Calls, c: Channels, t: nat, taken: Taken)
    requires ResultsKept(pending, calls, c) && t in pending
    ensures ResultsKept(pending, Take(calls, t, taken), c)
  {
    var calls' := Take(calls, t, taken);
    assert forall u, r :: u != t && ResultOf(calls, u, r) ==> ResultOf(calls', u, r);
  }

  lemma ResultsDelivered(pending: set<nat>, calls: Calls, c: Channels, t: nat, result: ToolResult)
    requires ResultsKept(pending, calls, c) && t in pending && ResultOf(calls, t, result)
    ensures ResultsKept(pending - {t}, calls, c.(inFlight := c.inFlight + [Delivery(t, result)]))
  {
  }

  ghost predicate DeliveryKept(y: System) {
    && (forall t :: t in y.calls.asked ==> t < y.next)
    && CallsKept(y.session.pending, y.calls)
    && ResultsKept(y.session.pending.Keys, y.calls, y.channels)
  }

  lemma CallsChanged(pending: map<nat, Pending>, calls: Calls, t: nat, p: Pending, taken: Taken)
    requires CallsKept(pending, calls) && t in pending && p.request == pending[t].request
    requires KindOf(p.request.name).ShellTool? ==> p.capture == AbsorbAll(taken.heard)
    ensures CallsKept(pending[t := p], Take(calls, t, taken))
  {
  }

  lemma CallsRemoved(pending: map<nat, Pending>, calls: Calls, t: nat)
    requires CallsKept(pending, calls)
    ensures CallsKept(pending - {t}, calls)
  {
  }

  lemma CallsApplied(y: System, execID: string, m: ExecMessage, messageID: MessageID, e: Effect,
                     after: (Session, Applied))
    requires CallsKept(y.session.pending, y.calls) && HasEffect(y.session, m, messageID, execID, e, after)
    ensures CallsKept(after.0.pending, AfterApply(y, execID, after).calls)
  {
    hide CallsKept, Accept, Loses, Kept, WriteContents, WriteRequest, IdentityMatches, Absorb, AbsorbAll;
    match e
    case TakesOutput(t, delta) =>
      var taken := CallsAt(y.session.pending, y.calls, t);
      AbsorbSnoc(taken.heard, delta);
      CallsChanged(y.session.pending, y.calls, t, after.0.pending[t], HeardMore(taken, delta));
    case MovesToWrite(t, read) =>
      var taken := CallsAt(y.session.pending, y.calls, t);
      CallsChanged(y.session.pending, y.calls, t, after.0.pending[t], taken.(read := Some(read)));
    case Ends(t, _, _, _) => CallsRemoved(y.session.pending, y.calls, t);
    case _ =>
  }

  lemma AbsorbSnoc(ds: seq<Delta>, d: Delta)
    ensures AbsorbAll(ds + [d]) == Absorb(AbsorbAll(ds), d)
  {
    assert (ds + [d])[..|ds|] == ds;
  }

  lemma CallsAt(pending: map<nat, Pending>, calls: Calls, t: nat) returns (taken: Taken)
    requires CallsKept(pending, calls) && t in pending
    ensures t in calls.taken && taken == TakenFor(calls, t)
    ensures KindOf(pending[t].request.name).ShellTool? ==> pending[t].capture == AbsorbAll(taken.heard)
  {
    taken := calls.taken[t];
  }

  lemma ResultsApplied(y: System, execID: string, m: ExecMessage, messageID: MessageID, e: Effect,
                       after: (Session, Applied))
    requires CallsKept(y.session.pending, y.calls) && ResultsKept(y.session.pending.Keys, y.calls, y.channels)
    requires HasEffect(y.session, m, messageID, execID, e, after)
    ensures ResultsKept(after.0.pending.Keys, AfterApply(y, execID, after).calls, AfterApply(y, execID, after).channels)
  {
    hide ResultsKept, Kept, Absorb, AbsorbAll, WriteContents, DecodesAsEdit;
    match e
    case TakesOutput(t, delta) =>
      ResultsTaken(y.session.pending.Keys, y.calls, y.channels, t, HeardMore(TakenFor(y.calls, t), delta));
      assert after.0.pending.Keys == y.session.pending.Keys;
    case Ends(t, content, isError, exit) =>
      ResultsDelivered(y.session.pending.Keys, y.calls, y.channels, t, after.1.result);
    case MovesToWrite(t, read) =>
      ResultsTaken(y.session.pending.Keys, y.calls, y.channels, t, TakenFor(y.calls, t).(read := Some(read)));
      assert after.0.pending.Keys == y.session.pending.Keys;
    case _ =>
  }

  lemma DeliveryApplied(y: System, execID: string, m: ExecMessage, messageID: MessageID, e: Effect,
                        after: (Session, Applied))
    requires DeliveryKept(y) && HasEffect(y.session, m, messageID, execID, e, after)
    ensures DeliveryKept(AfterApply(y, execID, after))
  {
    hide ResultsKept, CallsKept, HasEffect;
    CallsApplied(y, execID, m, messageID, e, after);
    ResultsApplied(y, execID, m, messageID, e, after);
  }

  lemma DeliveryOpened(y: System, execID: string, o: Opening, messageID: MessageID, encodes: bool)
    requires DeliveryKept(y) && o.tool == y.next
    ensures DeliveryKept(AfterOpen(y, execID, OpenedTool(o, messageID, execID).request,
                                   Open(y.session, o, messageID, execID, encodes)))
  {
    hide ResultsKept;
    ResultsOpened(y.session.pending.Keys, y.calls, y.channels, o.tool, OpenedTool(o, messageID, execID).request);
    if CanOpen(y.session, o, encodes) {
      assert Open(y.session, o, messageID, execID, encodes).0.pending.Keys == y.session.pending.Keys + {o.tool};
    }
  }

  lemma DeliveryFinished(y: System, payload: Bytes, code: string, message: string, now: nat)
    requires DeliveryKept(y)
    ensures DeliveryKept(Step(y, DoFinish(payload, code, message, now)))
  {
    hide ResultsKept;
    ResultsCleared(y.session.pending.Keys, y.calls, y.channels);
    assert Finish(y.session, payload, code, message, now).pending.Keys ==
           if y.session.Done() then y.session.pending.Keys else {};
  }

  lemma DeliveryStep(y: System, a: Action)
    requires DeliveryKept(y) && Enabled(y, a)
    ensures DeliveryKept(Step(y, a))
  {
    hide ResultsKept, CallsKept, HasEffect, DecodesAsEdit, Apply, Open, AfterOpen, AfterApply, OpenedTool, Sent;
    hide Received;
    match a
    case DoOpen(callID, name, arguments, execID, encodes) =>
      DeliveryOpened(y, execID, Opening(y.next, callID, name, arguments), y.ids.issued + 1, encodes);
    case DoApply(m, execID) =>
      var e := ApplyHasEffect(y.session, m, y.ids.issued + 1, execID);
      DeliveryApplied(y, execID, m, y.ids.issued + 1, e, Apply(y.session, m, y.ids.issued + 1, execID));
    case DoFinish(payload, code, message, now) => DeliveryFinished(y, payload, code, message, now);
    case Send(i) => ResultsSent(y.session.pending.Keys, y.calls, y.channels, i);
    case GiveUp(i) => ResultsDropped(y.session.pending.Keys, y.calls, y.channels, i);
    case Receive(t) => ResultsReceived(y.session.pending.Keys, y.calls, y.channels, t);
    case _ =>
  }
}
