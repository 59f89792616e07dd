/**
 What the event log says about one call. Every frame a client reads comes from this log, so this is what a client
 sees of a call: at most one Write per Edit, shell output once and in order, and one completion.
 */
module SessionLog {
  import opened Common
  import opened ShellOutput
  import opened SessionModel
  import opened SessionProtocol

  predicate Concerns(e: Event, t: nat) {
    match e
    case Dispatch(u, _) => u == t
    case Started(u, _) => u == t
    case Progress(u, _) => u == t
    case Completed(u, _) => u == t
    case _ => false
  }

  /** The entries about call t, in order. */
  function About(events: seq<Event>, t: nat): seq<Event> {
    if events == [] then []
    else
      var e := events[|events| - 1];
      if Concerns(e, t) then About(events[..|events| - 1], t) + [e] else About(events[..|events| - 1], t)
  }

  lemma AboutSnoc(events: seq<Event>, e: Event, t: nat)
    ensures About(events + [e], t) == if Concerns(e, t) then About(events, t) + [e] else About(events, t)
  {
    assert (events + [e])[..|events|] == events;
  }

  /** The text of the output chunks among some entries. */
  function Streamed(body: seq<Event>): (Bytes, Bytes) {
    if body == [] then ([], [])
    else
      var (stdout, stderr) := Streamed(body[..|body| - 1]);
      match body[|body| - 1]
      case Progress(_, Chunk(OnStdout(data))) => (stdout + data, stderr)
      case Progress(_, Chunk(OnStderr(data))) => (stdout, stderr + data)
      case _ => (stdout, stderr)
  }

  lemma StreamedSnoc(body: seq<Event>, e: Event)
    ensures Streamed(body + [e]) ==
            match e
            case Progress(_, Chunk(OnStdout(data))) => (Streamed(body).0 + data, Streamed(body).1)
            case Progress(_, Chunk(OnStderr(data))) => (Streamed(body).0, Streamed(body).1 + data)
            case _ => Streamed(body)
  {
    assert (body + [e])[..|body|] == body;
  }

  /** The request a call is first dispatched with. */
  function FirstTransport(request: ToolRequest): ToolRequest {
    if KindOf(request.name).DynamicTool? then request.(name := McpCall) else request
  }

  /** The Write of an Edit: its contents are the edited text of what was read, through the JSON encoder. */
  predicate WriteOf(edit: ToolRequest, read: Bytes, write: ToolRequest) {
    && DecodesAsEdit(edit.arguments)
    && WriteContents(edit.arguments.edit, read).Some?
    && write == WriteRequest(edit, WriteContents(edit.arguments.edit, read).value, write.messageID, write.execID)
  }

  /** What happens between the start of a call and its completion. */
  predicate Body(t: nat, request: ToolRequest, taken: Taken, body: seq<Event>) {
    match KindOf(request.name)
    case EditTool =>
      if taken.read.None? then body == []
      else |body| == 1 && body[0].Dispatch? && body[0].tool == t && WriteOf(request, taken.read.value, body[0].request)
    case ShellTool =>
      && (forall e :: e in body ==> e.Progress?)
      && Streamed(body) == (AbsorbAll(taken.heard).stdout, AbsorbAll(taken.heard).stderr)
    case _ => body == []
  }

  predicate EndsWith(body: seq<Event>, end: Event) { body != [] && body[|body| - 1] == end }

  function Front(body: seq<Event>): seq<Event>
    requires body != []
  {
    body[..|body| - 1]
  }

  /** The entries about a call: its dispatch and start, its body, and its completion once it is no longer open. */
  predicate CallLog(t: nat, request: ToolRequest, taken: Taken, open: Option<Pending>, done: bool, log: seq<Event>)
  {
    && |log| >= 2 && log[..2] == [Dispatch(t, FirstTransport(request)), Started(t, request.callID)]
    && match open
       case Some(p) =>
         && Body(t, request, taken, log[2..])
         && (KindOf(request.name).EditTool? ==>
           if p.phase == ReadPhase then log[2..] == [] else log[2..] == [Dispatch(t, p.transport)])
       case None =>
         || (EndsWith(log[2..], Completed(t, request.callID)) && Body(t, request, taken, Front(log[2..])))
         || (done && Body(t, request, taken, log[2..]))
  }

  function PendingOf(s: Session, t: nat): Option<Pending> {
    if t in s.pending then Some(s.pending[t]) else None
  }

  ghost predicate LogKept(s: Session, calls: Calls) {
    forall t: nat ::
      if t in calls.asked && t in calls.taken then
        CallLog(t, calls.asked[t], calls.taken[t], PendingOf(s, t), s.Done(), About(s.events, t))
      else About(s.events, t) == []
  }

  // ---- One call, one step ----

  lemma RestSnoc(log: seq<Event>, e: Event)
    requires |log| >= 2
    ensures (log + [e])[..2] == log[..2] && (log + [e])[2..] == log[2..] + [e]
  {
  }

  lemma CallProgress(t: nat, request: ToolRequest, taken: Taken, p: Pending, done: bool, log: seq<Event>,
                     piece: ShellPiece)
    requires CallLog(t, request, taken, Some(p), done, log) && KindOf(request.name).ShellTool? && !piece.Chunk?
    ensures CallLog(t, request, taken, Some(p), done, log + [Progress(t, piece)])
  {
    RestSnoc(log, Progress(t, piece));
    StreamedSnoc(log[2..], Progress(t, piece));
  }

  lemma CallOutput(t: nat, request: ToolRequest, taken: Taken, p: Pending, done: bool, log: seq<Event>, delta: Delta)
    requires CallLog(t, request, taken, Some(p), done, log) && KindOf(request.name).ShellTool?
               && p.capture == AbsorbAll(taken.heard)
    ensures var kept, q := Kept(p.capture, delta), p.(capture := Absorb(p.capture, delta));
            CallLog(t, request, HeardMore(taken, delta), Some(q), done,
                    if kept.data == [] then log else log + [Progress(t, Chunk(kept))])
  {
    hide Accept, Loses;
    var kept := Kept(p.capture, delta);
    assert (taken.heard + [delta])[..|taken.heard|] == taken.heard;
    if kept.data == [] {
      assert p.capture.stdout + [] == p.capture.stdout && p.capture.stderr + [] == p.capture.stderr;
    } else {
      RestSnoc(log, Progress(t, Chunk(kept)));
      StreamedSnoc(log[2..], Progress(t, Chunk(kept)));
    }
  }

  lemma CallMoves(t: nat, request: ToolRequest, taken: Taken, p: Pending, done: bool, log: seq<Event>, read: Bytes,
                  write: ToolRequest)
    requires CallLog(t, request, taken, Some(p), done, log) && KindOf(request.name).EditTool? && p.phase == ReadPhase
    requires DecodesAsEdit(request.arguments) && WriteContents(request.arguments.edit, read).Some?
    requires var contents := WriteContents(request.arguments.edit, read).value;
             write == WriteRequest(request, contents, write.messageID, write.execID)
    ensures CallLog(t, request, taken.(read := Some(read)), Some(p.(transport := write, phase := WritePhase)), done,
                    log + [Dispatch(t, write)])
  {
    RestSnoc(log, Dispatch(t, write));
    assert WriteOf(request, read, write);
  }

  lemma CallEnds(t: nat, request: ToolRequest, taken: Taken, p: Pending, done: bool, log: seq<Event>)
    requires CallLog(t, request, taken, Some(p), done, log)
    ensures CallLog(t, request, taken, None, done, log + [Completed(t, request.callID)])
  {
    RestSnoc(log, Completed(t, request.callID));
    assert Front(log[2..] + [Completed(t, request.callID)]) == log[2..];
  }

  lemma CallCut(t: nat, request: ToolRequest, taken: Taken, open: Option<Pending>, log: seq<Event>)
    requires CallLog(t, request, taken, open, false, log)
    ensures CallLog(t, request, taken, None, true, log)
  {
  }

  lemma CallOpens(t: nat, p: Pending)
    requires p.phase == if KindOf(p.request.name).EditTool? then ReadPhase else NoPhase
    ensures CallLog(t, p.request, NOTHING_TAKEN, Some(p), false,
                    [Dispatch(t, FirstTransport(p.request)), Started(t, p.request.callID)])
  {
    var log := [Dispatch(t, FirstTransport(p.request)), Started(t, p.request.callID)];
    assert log[2..] == [];
  }

  // ---- The whole log, one step ----

  /** A step that concerns call t alone. */
  lemma LogChanged(s: Session, after: Session, calls: Calls, t: nat, taken: Taken)
    requires LogKept(s, calls) && t in calls.asked && t in calls.taken && s.Done() == after.Done()
    requires forall u: nat :: u != t ==>
               PendingOf(s, u) == PendingOf(after, u) && About(s.events, u) == About(after.events, u)
    requires CallLog(t, calls.asked[t], taken, PendingOf(after, t), after.Done(), About(after.events, t))
    ensures LogKept(after, Take(calls, t, taken))
  {
    hide CallLog;
  }

  lemma AboutOthers(events: seq<Event>, e: Event, t: nat)
    requires Concerns(e, t)
    ensures About(events + [e], t) == About(events, t) + [e]
    ensures forall u: nat :: u != t ==> About(events + [e], u) == About(events, u)
  {
    forall u: nat { AboutSnoc(events, e, u); }
  }

  lemma LogEffect(y: System, execID: string, m: ExecMessage, messageID: MessageID, e: Effect, after: (Session, Applied))
    requires !y.session.Done() && CallsKept(y.session.pending, y.calls) && LogKept(y.session, y.calls)
    requires HasEffect(y.session, m, messageID, execID, e, after)
    ensures LogKept(after.0, AfterApply(y, execID, after).calls)
  {
    hide CallLog, LogKept, Accept, Loses, About, WriteContents;
    var s, calls := y.session, y.calls;
    match e
    case Nothing => assert AfterApply(y, execID, after).calls == calls;
    case AnswersDiscovery(_) =>
      LogSame(s, after.0, calls);
    case Note(t, piece) =>
      LogAt(s, calls, t);
      CallProgress(t, calls.asked[t], calls.taken[t], s.pending[t], false, About(s.events, t), piece);
      AboutOthers(s.events, Progress(t, piece), t);
      LogChanged(s, after.0, calls, t, calls.taken[t]);
      assert Take(calls, t, calls.taken[t]) == calls;
    case TakesOutput(t, delta) =>
      LogAt(s, calls, t);
      CallOutput(t, calls.asked[t], calls.taken[t], s.pending[t], false, About(s.events, t), delta);
      AboutOthers(s.events, Progress(t, Chunk(Kept(s.pending[t].capture, delta))), t);
      LogChanged(s, after.0, calls, t, HeardMore(calls.taken[t], delta));
    case MovesToWrite(t, read) =>
      LogAt(s, calls, t);
      var write := after.0.pending[t].transport;
      CallMoves(t, calls.asked[t], calls.taken[t], s.pending[t], false, About(s.events, t), read, write);
      AboutOthers(s.events, Dispatch(t, write), t);
      LogChanged(s, after.0, calls, t, calls.taken[t].(read := Some(read)));
    case Ends(t, content, isError, exit) => LogEnds(s, calls, t, content, isError, exit);
  }

  lemma LogEnds(s: Session, calls: Calls, t: nat, content: Content, isError: bool, exit: Option<nat>)
    requires !s.Done() && CallsKept(s.pending, calls) && LogKept(s, calls) && t in s.pending
    requires exit.Some? ==> KindOf(s.pending[t].request.name).ShellTool?
    ensures var s1 := s.(events := if exit.Some? then s.events + [Progress(t, ShellExit(exit.value))] else s.events);
            LogKept(Complete(s1, t, content, isError).0, calls)
  {
    hide CallLog, LogKept, About;
    LogAt(s, calls, t);
    var events := if exit.Some? then s.events + [Progress(t, ShellExit(exit.value))] else s.events;
    if exit.Some? {
      CallProgress(t, calls.asked[t], calls.taken[t], s.pending[t], false, About(s.events, t), ShellExit(exit.value));
      AboutOthers(s.events, Progress(t, ShellExit(exit.value)), t);
    }
    CallEnds(t, calls.asked[t], calls.taken[t], s.pending[t], false, About(events, t));
    AboutOthers(events, Completed(t, calls.asked[t].callID), t);
    LogChanged(s, Complete(s.(events := events), t, content, isError).0, calls, t, calls.taken[t]);
    assert Take(calls, t, calls.taken[t]) == calls;
  }

  lemma LogAt(s: Session, calls: Calls, t: nat)
    requires LogKept(s, calls) && t in calls.asked && t in calls.taken
    ensures CallLog(t, calls.asked[t], calls.taken[t], PendingOf(s, t), s.Done(), About(s.events, t))
  {
    hide CallLog;
  }

  lemma LogSame(s: Session, after: Session, calls: Calls)
    requires LogKept(s, calls) && s.pending == after.pending && s.events == after.events && s.Done() == after.Done()
    ensures LogKept(after, calls)
  {
    hide CallLog;
  }

  /** An entry about no call. */
  lemma LogUnrelated(s: Session, after: Session, calls: Calls, e: Event)
    requires LogKept(s, calls) && s.pending == after.pending && s.Done() == after.Done()
    requires after.events == s.events + [e] && (e.Update? || e.StateQuery? || e.Closing?)
    ensures LogKept(after, calls)
  {
    hide CallLog;
    forall t: nat { AboutSnoc(s.events, e, t); }
  }

  lemma LogFinish(s: Session, calls: Calls, payload: Bytes, code: string, message: string, now: nat)
    requires LogKept(s, calls)
    ensures LogKept(Finish(s, payload, code, message, now), calls)
  {
    hide CallLog;
    if !s.Done() {
      var cut := s.(ending := Some(Ending(code, message, now)), pending := map[], discovery := None);
      forall t: nat | t in calls.asked && t in calls.taken {
        CallCut(t, calls.asked[t], calls.taken[t], PendingOf(s, t), About(s.events, t));
      }
      if payload != [] {
        LogUnrelated(cut, Finish(s, payload, code, message, now), calls, Closing(payload));
      }
    }
  }

  lemma AboutTwo(events: seq<Event>, e: Event, f: Event, t: nat)
    requires Concerns(e, t) && Concerns(f, t) && About(events, t) == []
    ensures About(events + [e, f], t) == [e, f]
    ensures forall u: nat :: u != t ==> About(events + [e, f], u) == About(events, u)
  {
    AboutOthers(events, e, t);
    AboutOthers(events + [e], f, t);
    assert events + [e, f] == events + [e] + [f];
  }

  lemma LogAdded(s: Session, calls: Calls, t: nat, p: Pending)
    requires LogKept(s, calls) && t !in calls.asked && !s.Done()
    requires p.phase == if KindOf(p.request.name).EditTool? then ReadPhase else NoPhase
    ensures var opening := [Dispatch(t, FirstTransport(p.request)), Started(t, p.request.callID)];
            LogKept(s.(pending := s.pending[t := p], events := s.events + opening),
                    Calls(calls.asked[t := p.request], calls.taken[t := NOTHING_TAKEN]))
  {
    hide CallLog, About;
    CallOpens(t, p);
    var dispatch, started := Dispatch(t, FirstTransport(p.request)), Started(t, p.request.callID);
    AboutTwo(s.events, dispatch, started, t);
  }

  lemma LogOpened(s: Session, calls: Calls, o: Opening, messageID: MessageID, execID: string, encodes: bool)
    requires LogKept(s, calls) && o.tool !in calls.asked && CanOpen(s, o, encodes)
    ensures LogKept(Open(s, o, messageID, execID, encodes).0,
                    Calls(calls.asked[o.tool := OpenedTool(o, messageID, execID).request],
                          calls.taken[o.tool := NOTHING_TAKEN]))
  {
    hide LogKept;
    LogAdded(s, calls, o.tool, OpenedTool(o, messageID, execID));
  }

  lemma LogStep(y: System, a: Action)
    requires DeliveryKept(y) && LogKept(y.session, y.calls) && Enabled(y, a)
    ensures LogKept(Step(y, a).session, Step(y, a).calls)
  {
    hide LogKept, ResultsKept, CallsKept, HasEffect, Apply, Open, OpenedTool, CanOpen, SessionProtocol.Sent, Received;
    var s, after := y.session, Step(y, a).session;
    match a
    case DoOpen(callID, name, arguments, execID, encodes) =>
      var o := Opening(y.next, callID, name, arguments);
      if CanOpen(s, o, encodes) {
        LogOpened(s, y.calls, o, y.ids.issued + 1, execID, encodes);
      }
      OpenSucceeds(s, o, y.ids.issued + 1, execID, encodes);
    case DoApply(m, execID) =>
      var e := ApplyHasEffect(s, m, y.ids.issued + 1, execID);
      if s.Done() {
        ApplyDone(s, m, y.ids.issued + 1, execID);
      } else {
        LogEffect(y, execID, m, y.ids.issued + 1, e, Apply(s, m, y.ids.issued + 1, execID));
      }
    case DoFinish(payload, code, message, now) => LogFinish(s, y.calls, payload, code, message, now);
    case DoPublish(payload) =>
      if after != s {
        LogUnrelated(s, after, y.calls, Update(payload));
      }
    case Ask(execID) =>
      if after != s {
        LogUnrelated(s, after, y.calls, StateQuery(y.ids.issued + 1, execID));
      }
    case _ => LogSame(s, after, y.calls);
  }

  lemma OpenSucceeds(s: Session, o: Opening, messageID: MessageID, execID: string, encodes: bool)
    ensures Open(s, o, messageID, execID, encodes).1 == CanOpen(s, o, encodes)
    ensures !CanOpen(s, o, encodes) ==> Open(s, o, messageID, execID, encodes).0 == s
  {
  }
}
