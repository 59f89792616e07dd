/** Where things in a session come from: its calls, their results, and the rest of its log, told by the run. */
module SessionHistory {
  import opened Common
  import opened ShellOutput
  import opened SessionModel
  import opened SessionProtocol
  import opened SessionAsked
  import opened SessionIdentity
  import opened SessionInquiry
  import opened SessionLog
  import SessionRuns

  // ---- Calls ----

  /** A call can be opened: its arguments fit a built-in tool, or its name is that of a tool of the run. */
  predicate Opens(s: Session, name: ToolName, arguments: Arguments, encodes: bool) {
    && !s.Done() && encodes
    && (name == Edit ==> arguments.EditArgs? && arguments.edit.oldString != [])
    && (name.Named? || name == McpCall ==>
          exists tool :: tool in (if s.run.Some? then s.run.value.tools else []) + s.discovered
                         && Named(tool.name) == name)
  }

  lemma {:induction false} ToolFound(tools: seq<McpTool>, name: ToolName)
    ensures FindTool(tools, name).Some? <==> exists tool :: tool in tools && Named(tool.name) == name
  {
    if tools != [] {
      ToolFound(tools[1..], name);
      assert tools == [tools[0]] + tools[1..];
    }
  }

  /** A call is opened exactly if it can be; then it is pending and the client is asked for just what was asked for. */
  lemma OpensExactly(y: System, a: Action)
    requires SessionRuns.Reachable(y) && Enabled(y, a) && a.DoOpen?
    ensures var t, after := y.next, Step(y, a);
            && t !in y.calls.asked
            && (t in after.calls.asked <==> Opens(y.session, a.name, a.arguments, a.encodes))
            && if t in after.calls.asked then
                 var request := ToolRequest(y.ids.issued + 1, a.execID, a.callID, a.name, a.arguments);
                 var transport := if a.name.Named? || a.name == McpCall then request.(name := McpCall) else request;
                 && after.calls.asked[t] == request
                 && t in after.session.pending && after.session.pending[t].request == request
                 && after.session.pending[t].transport == transport
                 && after.session.events == y.session.events + [Dispatch(t, transport), Started(t, a.callID)]
               else after.session == y.session
  {
    hide SessionRuns.Reachable, LogKept, IDsKept, Inquires, FindTool;
    SessionRuns.ReachableKept(y);
    ToolFound(EffectiveTools(y.session), a.name);
  }

  lemma AskedFrom(y: System, a: Action, t: nat)
    requires Enabled(y, a) && t in Step(y, a).calls.asked
    ensures || (t in y.calls.asked && Step(y, a).calls.asked[t] == y.calls.asked[t])
            || (&& a.DoOpen? && t == y.next
                && Step(y, a).calls.asked[t] == ToolRequest(y.ids.issued + 1, a.execID, a.callID, a.name, a.arguments))
  {
    hide Apply, Open, Received, SessionProtocol.Sent;
  }

  /** What a call asks for is what it was opened for. */
  lemma {:induction false} OpenedFor(run: seq<Action>, t: nat) returns (i: nat)
    requires After(run).Some? && t in After(run).value.calls.asked
    ensures i < |run| && run[i].DoOpen? && After(run[..i]).Some? && Enabled(After(run[..i]).value, run[i])
    ensures var y, request := After(run[..i]).value, After(run).value.calls.asked[t];
            && t == y.next && request.messageID == y.ids.issued + 1 && request.execID == run[i].execID
            && request.callID == run[i].callID && request.name == run[i].name && request.arguments == run[i].arguments
  {
    hide Step, Enabled;
    if run == [] {
      assert false;
    } else {
      var before, a := run[..|run| - 1], run[|run| - 1];
      AskedFrom(After(before).value, a, t);
      if t in After(before).value.calls.asked
         && After(before).value.calls.asked[t] == After(run).value.calls.asked[t] {
        i := OpenedFor(before, t);
        assert run[..i] == before[..i];
      } else {
        i := |run| - 1;
      }
    }
  }

  // ---- Results ----

  /** The result is on its way to the channel of the call, in it, or taken out of it. */
  predicate Held(c: Channels, t: nat, r: ToolResult) {
    || Delivery(t, r) in c.inFlight
    || (t in c.buffers && r in c.buffers[t])
    || (t in c.received && r in c.received[t])
  }

  /** A client result, applied to this call while it is pending, says that this is its outcome. */
  predicate SaidOf(y: System, a: Action, t: nat, r: ToolResult) {
    && a.DoApply? && t in y.session.pending && Says(y.session.pending[t], a.result, r.content, r.isError)
    && r.callID == y.session.pending[t].request.callID
  }

  lemma DeliveredSaid(s: Session, m: ExecMessage, messageID: MessageID, execID: string, t: nat, r: ToolResult)
    requires Apply(s, m, messageID, execID).1 == Delivers(t, r)
    ensures t in s.pending && Says(s.pending[t], m, r.content, r.isError) && r.callID == s.pending[t].request.callID
  {
    hide Apply, Says, WriteContents, Kept, Absorb;
    var e := ApplyHasEffect(s, m, messageID, execID);
  }

  lemma HeldFrom(y: System, a: Action, t: nat, r: ToolResult)
    requires Enabled(y, a) && Held(Step(y, a).channels, t, r)
    ensures Held(y.channels, t, r) || SaidOf(y, a, t, r)
  {
    hide Apply, Open, OpenedTool, Says;
    if a.DoApply? && Apply(y.session, a.result, y.ids.issued + 1, a.execID).1 == Delivers(t, r) {
      DeliveredSaid(y.session, a.result, y.ids.issued + 1, a.execID, t, r);
    }
  }

  /** Every result holds what a client result, applied to this call while it was pending, said its outcome was. */
  lemma {:induction false} ResultWasSaid(run: seq<Action>, t: nat, r: ToolResult) returns (i: nat)
    requires After(run).Some? && Held(After(run).value.channels, t, r)
    ensures i < |run| && After(run[..i]).Some? && SaidOf(After(run[..i]).value, run[i], t, r)
  {
    hide Step, Enabled, SaidOf;
    if run == [] {
      assert false;
    } else {
      var before, a := run[..|run| - 1], run[|run| - 1];
      var y := After(before).value;
      HeldFrom(y, a, t, r);
      if Held(y.channels, t, r) {
        i := ResultWasSaid(before, t, r);
        assert run[..i] == before[..i];
      } else {
        i := |run| - 1;
      }
    }
  }

  /** Nothing but giving up in a cancelled session takes a result out of the world. */
  lemma HeldOn(y: System, a: Action, t: nat, r: ToolResult)
    requires DeliveryKept(y) && y.channels.received.Keys == y.channels.buffers.Keys
    requires Enabled(y, a) && !a.GiveUp? && Held(y.channels, t, r)
    ensures Held(Step(y, a).channels, t, r)
  {
    hide Apply, Open, OpenedTool, CallsKept, SingleResult, ResultOf;
    match a
    case Send(i) => SentOn(y.channels, i, t, r);
    case Receive(u) => ReceivedOn(y.channels, u, t, r);
    case DoOpen(_, _, _, _, _) =>
      assert y.next !in y.calls.asked;
    case _ =>
  }

  /** Each call has both: its channel, and the record of what was taken out of it. */
  lemma ChannelsStep(y: System, a: Action)
    requires Enabled(y, a) && y.channels.received.Keys == y.channels.buffers.Keys
    ensures Step(y, a).channels.received.Keys == Step(y, a).channels.buffers.Keys
  {
    hide Apply, Open, OpenedTool;
  }

  lemma SentOn(c: Channels, i: nat, t: nat, r: ToolResult)
    requires CanSend(c, i) && Held(c, t, r)
    ensures Held(SessionProtocol.Sent(c, i), t, r)
  {
    if Delivery(t, r) in c.inFlight && c.inFlight[i] != Delivery(t, r) {
      var k :| 0 <= k < |c.inFlight| && c.inFlight[k] == Delivery(t, r);
      assert Without(c.inFlight, i)[if k < i then k else k - 1] == Delivery(t, r);
    }
  }

  lemma ReceivedOn(c: Channels, u: nat, t: nat, r: ToolResult)
    requires CanReceive(c, u) && Held(c, t, r)
    ensures Held(Received(c, u), t, r)
  {
    if u == t && r in c.buffers[t] {
      assert c.buffers[t] == [c.buffers[t][0]] + c.buffers[t][1..];
    }
  }

  ghost predicate HasResult(c: Channels, t: nat) { exists r :: Held(c, t, r) }

  /** Every call whose completion is logged has its result on the way to its channel, in it or taken out of it. */
  ghost predicate ResultsThere(y: System) {
    && y.channels.received.Keys == y.channels.buffers.Keys
    && (y.cancelled || forall e :: e in y.session.events && e.Completed? ==> HasResult(y.channels, e.tool))
  }

  /** A completion is logged only together with a result that is handed on. */
  lemma CompletedDelivers(s: Session, m: ExecMessage, messageID: MessageID, execID: string, e: Event)
    requires e in Apply(s, m, messageID, execID).0.events && e !in s.events && e.Completed?
    ensures Apply(s, m, messageID, execID).1.Delivers? && Apply(s, m, messageID, execID).1.tool == e.tool
  {
    hide Apply, Says, Kept, Absorb, WriteContents;
    var effect := ApplyHasEffect(s, m, messageID, execID);
  }

  lemma NewCompletion(y: System, a: Action, e: Event)
    requires Enabled(y, a) && e in Step(y, a).session.events && e !in y.session.events && e.Completed?
    ensures HasResult(Step(y, a).channels, e.tool)
  {
    hide Apply, OpenedTool, CanOpen, Received, SessionProtocol.Sent;
    if a.DoApply? {
      CompletedDelivers(y.session, a.result, y.ids.issued + 1, a.execID, e);
      var r := Apply(y.session, a.result, y.ids.issued + 1, a.execID).1.result;
      assert Held(Step(y, a).channels, e.tool, r);
    }
  }

  lemma ResultsStep(y: System, a: Action)
    requires ResultsThere(y) && DeliveryKept(y) && Enabled(y, a)
    ensures ResultsThere(Step(y, a))
  {
    hide DeliveryKept, Held, Step;
    ChannelsStep(y, a);
    if !Step(y, a).cancelled {
      NotCancelled(y, a);
      forall e | e in Step(y, a).session.events && e.Completed? ensures HasResult(Step(y, a).channels, e.tool) {
        if e in y.session.events {
          var r :| Held(y.channels, e.tool, r);
          HeldOn(y, a, e.tool, r);
        } else {
          NewCompletion(y, a, e);
        }
      }
    }
  }

  lemma NotCancelled(y: System, a: Action)
    requires Enabled(y, a) && !Step(y, a).cancelled
    ensures !y.cancelled && !a.GiveUp?
  {
    hide Apply, Open, OpenedTool, Received, SessionProtocol.Sent;
  }

  /** No result is lost: as long as a session is not cancelled, every completed call has its result. */
  lemma {:induction false} NoResultLost(run: seq<Action>)
    requires After(run).Some?
    ensures ResultsThere(After(run).value)
  {
    hide Step, Enabled, DeliveryKept;
    if run != [] {
      var front := run[..|run| - 1];
      NoResultLost(front);
      assert SessionRuns.Reachable(After(front).value);
      SessionRuns.ReachableKept(After(front).value);
      ResultsStep(After(front).value, run[|run| - 1]);
    }
  }

  // ---- The MCP query ----

  lemma AcceptedFrom(y: System, a: Action)
    requires Enabled(y, a)
    ensures Step(y, a).inquiry.accepted != y.inquiry.accepted ==>
              && a.DoApply? && AnswersQuery(y.session, a.result.identity) && a.result.state.Some?
              && Step(y, a).inquiry.accepted == y.inquiry.accepted + [a.result.state.value]
  {
    hide Apply, Open, OpenedTool, Received, SessionProtocol.Sent, WriteContents, Kept, Absorb;
    if a.DoApply? {
      var e := ApplyHasEffect(y.session, a.result, y.ids.issued + 1, a.execID);
    }
  }

  /** What was accepted for the query is what a client result said that named the query while it was pending. */
  lemma {:induction false} StateWasSent(run: seq<Action>, k: nat) returns (i: nat)
    requires After(run).Some? && k < |After(run).value.inquiry.accepted|
    ensures i < |run| && run[i].DoApply? && After(run[..i]).Some?
    ensures var s := After(run[..i]).value.session;
            && AnswersQuery(s, run[i].result.identity)
            && run[i].result.state == Some(After(run).value.inquiry.accepted[k])
  {
    hide Step, Enabled;
    if run == [] {
      assert false;
    } else {
      var before, a := run[..|run| - 1], run[|run| - 1];
      var y := After(before).value;
      AcceptedFrom(y, a);
      if k < |y.inquiry.accepted| {
        i := StateWasSent(before, k);
        assert run[..i] == before[..i];
      } else {
        i := |run| - 1;
      }
    }
  }

  /** A result answers the pending query exactly if it carries one of its IDs at least, and no other. */
  lemma QueryNamed(s: Session, id: Identity)
    ensures AnswersQuery(s, id) <==>
              && s.discovery.Some? && SessionRuns.Names(id, s.discovery.value.messageID, s.discovery.value.execID)
  {
  }

  /** The call a result leads to has its exec ID, if any call has, and else its message ID. */
  lemma LookupExactly(pending: map<nat, Pending>, id: Identity, t: nat)
    requires DistinctIDs(pending)
    ensures Lookup(pending, id) == Some(t) <==>
              && t in pending
              && if id.execID != "" && exists u :: u in pending && pending[u].transport.execID == id.execID then
                   pending[t].transport.execID == id.execID
                 else id.messageID != 0 && pending[t].transport.messageID == id.messageID
  {
    if u :| u in pending && pending[u].transport.execID == id.execID {
      assert UnderExec(pending, u, id.execID);
    }
    assert UnderExec(pending, t, id.execID) <==> t in pending && pending[t].transport.execID == id.execID;
    assert UnderMessage(pending, t, id.messageID) <==> t in pending && pending[t].transport.messageID == id.messageID;
  }

  /**
   The test for detached results passes a result exactly if it carries one of the IDs of the query or of a pending call
   at least, and no other.
   */
  lemma DetachedNamed(s: Session, id: Identity)
    requires DistinctIDs(s.pending)
    ensures Matches(s, id) <==>
              && !s.Done()
              && (|| (&& s.discovery.Some?
                      && SessionRuns.Names(id, s.discovery.value.messageID, s.discovery.value.execID))
                  || exists t :: t in s.pending && SessionRuns.Names(id, s.pending[t].transport.messageID,
                                                                     s.pending[t].transport.execID))
  {
    QueryNamed(s, id);
    forall t | t in s.pending && SessionRuns.Names(id, s.pending[t].transport.messageID, s.pending[t].transport.execID)
      ensures UnderExec(s.pending, t, id.execID) || id.execID == ""
      ensures UnderMessage(s.pending, t, id.messageID) || id.messageID == 0
    {
    }
  }

  predicate QueryLogged(y: System) {
    var d := AskedBy(y.inquiry.asker);
    d.Some? ==> StateQuery(d.value.messageID, d.value.execID) in y.session.events
  }

  lemma QueryStep(y: System, a: Action)
    requires QueryLogged(y) && Enabled(y, a)
    ensures QueryLogged(Step(y, a))
  {
    hide Apply, Open, Received, SessionProtocol.Sent;
    SessionRuns.EvolvesStep(y, a);
  }

  /** The IDs of the query, of which an answer has to carry one, are those that the client was sent. */
  lemma {:induction false} QueryWasSent(run: seq<Action>)
    requires After(run).Some?
    ensures QueryLogged(After(run).value)
  {
    hide Step, Enabled;
    if run != [] {
      QueryWasSent(run[..|run| - 1]);
      QueryStep(After(run[..|run| - 1]).value, run[|run| - 1]);
    }
  }

  /** Tools are discovered only by an answer, and only for a run that lacks them. */
  predicate ToolsKept(y: System) {
    && y.session.discovered == (match y.inquiry.asker case Answered(_, StateOk(tools)) => tools case _ => [])
    && (!y.inquiry.asker.Idle? ==> y.session.run.Some? && LacksTools(y.session.run.value))
  }

  lemma ToolsStep(y: System, a: Action)
    requires ToolsKept(y) && Enabled(y, a)
    ensures ToolsKept(Step(y, a))
  {
    hide Apply, Received, SessionProtocol.Sent;
    SetOnce(y, a);
    match a
    case DoApply(m, execID) => ApplyDiscoversNothing(y.session, m, y.ids.issued + 1, execID);
    case DoOpen(callID, name, arguments, execID, encodes) =>
      OpenFrame(y.session, Opening(y.next, callID, name, arguments), y.ids.issued + 1, execID, encodes);
    case _ =>
  }

  lemma ApplyDiscoversNothing(s: Session, m: ExecMessage, messageID: MessageID, execID: string)
    ensures Apply(s, m, messageID, execID).0.discovered == s.discovered
  {
    hide Apply, Says, Kept, Absorb, WriteContents;
    var e := ApplyHasEffect(s, m, messageID, execID);
  }

  /** What enrichRunWithMCP returns, once it does without an error. */
  function Enriched(y: System): Option<RunRequest> {
    if y.session.run.None? then None
    else if !LacksTools(y.session.run.value) then y.session.run
    else
      match y.inquiry.asker
      case Answered(_, StateOk(tools)) => Some(y.session.run.value.(tools := tools))
      case _ => None
  }

  /** The tools of the run that is executed are just those whose calls the session opens. */
  lemma ToolsOffered(run: seq<Action>)
    requires After(run).Some? && Enriched(After(run).value).Some?
    ensures var y := After(run).value;
            Enriched(y) == Some(y.session.run.value.(tools := EffectiveTools(y.session)))
  {
    var s := After(run).value.session;
    ToolsAlways(run);
    assert s.run.value.tools + [] == s.run.value.tools && [] + s.discovered == s.discovered;
  }

  lemma {:induction false} ToolsAlways(run: seq<Action>)
    requires After(run).Some?
    ensures ToolsKept(After(run).value)
  {
    hide Step, Enabled;
    if run != [] {
      ToolsAlways(run[..|run| - 1]);
      ToolsStep(After(run[..|run| - 1]).value, run[|run| - 1]);
    }
  }

  // ---- Start and end ----

  /** The run is set by the first start before the end, and the end by the first finish; no other step does either. */
  lemma SetOnce(y: System, a: Action)
    requires Enabled(y, a)
    ensures var s, after := y.session, Step(y, a).session;
            && after.run == (if a.DoStart? && s.run.None? && !s.Done() then Some(a.run) else s.run)
            && after.ending ==
               (if a.DoFinish? && s.ending.None? then Some(Ending(a.code, a.message, a.now)) else s.ending)
            && (after.Done() && !s.Done() ==> after.pending == map[] && after.discovery == None)
  {
    hide HasEffect, Apply, CanOpen, OpenedTool, Received, SessionProtocol.Sent, Says, WriteContents, Kept, Absorb;
    if a.DoApply? {
      var e := ApplyHasEffect(y.session, a.result, y.ids.issued + 1, a.execID);
      EffectSetsNothing(y.session, a.result, y.ids.issued + 1, a.execID, e);
    }
  }

  lemma EffectSetsNothing(s: Session, m: ExecMessage, messageID: MessageID, execID: string, e: Effect)
    requires HasEffect(s, m, messageID, execID, e, Apply(s, m, messageID, execID))
    ensures Apply(s, m, messageID, execID).0.run == s.run && Apply(s, m, messageID, execID).0.ending == s.ending
  {
    hide Apply, Says, WriteContents, Kept, Absorb;
  }

  // ---- The log beyond the calls ----

  predicate OfNoCall(e: Event) { e.Update? || e.StateQuery? || e.Closing? }

  /** The entries of the log that concern no call, in order. */
  function Beyond(events: seq<Event>): seq<Event> {
    if events == [] then []
    else
      var rest, e := Beyond(events[..|events| - 1]), events[|events| - 1];
      if OfNoCall(e) then rest + [e] else rest
  }

  lemma BeyondSnoc(events: seq<Event>, e: Event)
    ensures Beyond(events + [e]) == if OfNoCall(e) then Beyond(events) + [e] else Beyond(events)
  {
    assert (events + [e])[..|events|] == events;
  }

  lemma BeyondTwo(events: seq<Event>, e: Event, f: Event)
    requires !OfNoCall(e) && !OfNoCall(f)
    ensures Beyond(events + [e, f]) == Beyond(events)
  {
    BeyondSnoc(events, e);
    BeyondSnoc(events + [e], f);
    assert events + [e, f] == events + [e] + [f];
  }

  /** What an action adds to it: a published update, the query, or the closing of the session. */
  function Adds(y: System, a: Action): seq<Event> {
    match a
    case DoPublish(payload) => if y.session.Done() || y.cancelled then [] else [Update(payload)]
    case Ask(execID) =>
      if y.session.Done() || y.session.discovery.Some? || y.ids.issued + 1 >= 0x1_0000_0000 then []
      else [StateQuery(y.ids.issued + 1, execID)]
    case DoFinish(payload, _, _, _) => if y.session.Done() || payload == [] then [] else [Closing(payload)]
    case _ => []
  }

  lemma BeyondEffect(s: Session, m: ExecMessage, messageID: MessageID, execID: string, e: Effect,
                     after: (Session, Applied))
    requires HasEffect(s, m, messageID, execID, e, after)
    ensures Beyond(after.0.events) == Beyond(s.events)
  {
    hide Beyond, Says, WriteContents, Kept, Absorb;
    match e
    case Note(t, piece) => BeyondSnoc(s.events, Progress(t, piece));
    case TakesOutput(t, delta) => BeyondSnoc(s.events, Progress(t, Chunk(Kept(s.pending[t].capture, delta))));
    case MovesToWrite(t, _) => BeyondSnoc(s.events, Dispatch(t, after.0.pending[t].transport));
    case Ends(t, _, _, exit) =>
      var events := if exit.Some? then s.events + [Progress(t, ShellExit(exit.value))] else s.events;
      if exit.Some? {
        BeyondSnoc(s.events, Progress(t, ShellExit(exit.value)));
      }
      BeyondSnoc(events, Completed(t, s.pending[t].request.callID));
    case _ =>
  }

  lemma AppliedSession(y: System, execID: string, after: (Session, Applied))
    ensures AfterApply(y, execID, after).session == after.0
  {
  }

  lemma BeyondStep(y: System, a: Action)
    requires Enabled(y, a)
    ensures Beyond(Step(y, a).session.events) == Beyond(y.session.events) + Adds(y, a)
  {
    hide Beyond, HasEffect, Apply, CanOpen, OpenedTool, Received, SessionProtocol.Sent, AfterApply;
    match a
    case DoPublish(payload) => BeyondSnoc(y.session.events, Update(payload));
    case DoFinish(payload, _, _, _) => BeyondSnoc(y.session.events, Closing(payload));
    case Ask(execID) => BeyondSnoc(y.session.events, StateQuery(y.ids.issued + 1, execID));
    case DoApply(m, execID) =>
      var e := ApplyHasEffect(y.session, m, y.ids.issued + 1, execID);
      BeyondEffect(y.session, m, y.ids.issued + 1, execID, e, Apply(y.session, m, y.ids.issued + 1, execID));
      AppliedSession(y, execID, Apply(y.session, m, y.ids.issued + 1, execID));
    case DoOpen(callID, name, arguments, execID, encodes) =>
      var p := OpenedTool(Opening(y.next, callID, name, arguments), y.ids.issued + 1, execID);
      BeyondTwo(y.session.events, Dispatch(y.next, p.transport), Started(y.next, callID));
    case _ =>
  }

  ghost function AllAdded(run: seq<Action>): seq<Event> {
    if run == [] || After(run[..|run| - 1]).None? then []
    else AllAdded(run[..|run| - 1]) + Adds(After(run[..|run| - 1]).value, run[|run| - 1])
  }

  /** Beyond the calls, the log holds just what was published, asked and said in closing, in that order. */
  lemma {:induction false} LogBeyondCalls(run: seq<Action>)
    requires After(run).Some?
    ensures Beyond(After(run).value.session.events) == AllAdded(run)
  {
    hide Step, Enabled, Adds;
    if run != [] {
      LogBeyondCalls(run[..|run| - 1]);
      BeyondStep(After(run[..|run| - 1]).value, run[|run| - 1]);
    }
  }
}
