/**
 The session object: the fields of agentSession, with its two indexes of pending tools. The indexes hold
 references to the pendingTool objects, which the methods update in place. Each method is one critical section;
 View is the session value of module SessionModel that the object stands for.
 */
module SessionObject {
  import opened Common
  import opened ShellOutput
  import opened SessionModel

  class AgentSession {
    var run: Option<RunRequest>
    var ending: Option<Ending>
    var events: seq<Event>
    var tools: map<nat, Pending>  // the pendingTool objects; the indexes hold references to them
    var pendingByMessage: map<MessageID, nat>
    var pendingByExec: map<string, nat>
    var discovery: Option<Discovery>
    var discovered: seq<McpTool>
    var notify: bool  // the notify channel, of capacity 1: whether it holds a token

    constructor ()
      ensures Valid() && View() == FRESH && !notify
    {
      run, ending, events, notify := None, None, [], false;
      tools, pendingByMessage, pendingByExec, discovery, discovered := map[], map[], map[], None, [];
    }

    /** Both indexes refer to the same objects, each under its current transport IDs. */
    ghost predicate Valid()
      reads this
    {
      && (forall t :: t in tools ==>
            && tools[t].transport.execID in pendingByExec && pendingByExec[tools[t].transport.execID] == t
            && tools[t].transport.messageID in pendingByMessage && pendingByMessage[tools[t].transport.messageID] == t)
      && (forall e :: e in pendingByExec ==> pendingByExec[e] in tools && tools[pendingByExec[e]].transport.execID == e)
      && (forall m :: m in pendingByMessage ==>
            pendingByMessage[m] in tools && tools[pendingByMessage[m]].transport.messageID == m)
    }

    ghost function View(): Session
      reads this
    {
      Session(run, ending, events, tools, discovery, discovered)
    }

    /** The indexes find the calls that the session value finds by search. */
    lemma IndexesSearch(messageID: MessageID, execID: string)
      requires Valid()
      ensures ByExec(tools, execID) == if execID in pendingByExec then Some(pendingByExec[execID]) else None
      ensures ByMessage(tools, messageID) ==
              if messageID in pendingByMessage then Some(pendingByMessage[messageID]) else None
    {
      if execID in pendingByExec {
        assert UnderExec(tools, pendingByExec[execID], execID);
      }
      if messageID in pendingByMessage {
        assert UnderMessage(tools, pendingByMessage[messageID], messageID);
      }
    }

    method Start(request: RunRequest) returns (outcome: StartOutcome)
      requires Valid()
      modifies this`run, this`notify
      ensures Valid() && (View(), outcome) == SessionModel.Start(old(View()), request)
      ensures notify == (old(notify) || Signals(old(View()), View()))
    {
      if run.Some? {
        outcome := if run.value == request then Repeated else Conflict;
      } else if ending.Some? {
        outcome := TooLate;
      } else {
        run := Some(request);
        notify := true;
        outcome := Begun;
      }
    }

    method Publish(payload: Bytes, cancelled: bool) returns (ok: bool)
      requires Valid()
      modifies this`events, this`notify
      ensures Valid() && (View(), ok) == SessionModel.Publish(old(View()), payload, cancelled)
      ensures notify == (old(notify) || Signals(old(View()), View()))
    {
      ok := ending.None? && !cancelled;
      if ok {
        events, notify := events + [Update(payload)], true;
      }
    }

    method Finish(payload: Bytes, errorCode: string, errorMessage: string, now: nat)
      requires Valid()
      modifies this
      ensures Valid() && View() == SessionModel.Finish(old(View()), payload, errorCode, errorMessage, now)
      ensures notify == (old(notify) || Signals(old(View()), View()))
    {
      if ending.Some? {
        return;
      }
      if payload != [] {
        events := events + [Closing(payload)];
      }
      ending := Some(Ending(errorCode, errorMessage, now));
      pendingByMessage, pendingByExec, tools, discovery := map[], map[], map[], None;
      notify := true;
    }

    /** Enters a call into both indexes, under its transport IDs. */
    method File(t: nat, pending: Pending)
      requires Valid() && FreshFor(View(), pending.transport.messageID, pending.transport.execID) && t !in tools
      modifies this`tools, this`pendingByMessage, this`pendingByExec
      ensures Valid() && tools == old(tools)[t := pending]
    {
      tools := tools[t := pending];
      pendingByMessage := pendingByMessage[pending.transport.messageID := t];
      pendingByExec := pendingByExec[pending.transport.execID := t];
    }

    method OpenTool(o: Opening, messageID: MessageID, execID: string, encodes: bool) returns (ok: bool)
      requires Valid() && FreshFor(View(), messageID, execID) && o.tool !in tools
      modifies this
      ensures Valid() && (View(), ok) == SessionModel.Open(old(View()), o, messageID, execID, encodes)
      ensures notify == (old(notify) || Signals(old(View()), View()))
    {
      if ending.Some? {
        return false;
      }
      var request := ToolRequest(messageID, execID, o.callID, o.name, o.arguments);
      var transport := request;
      var phase := NoPhase;
      match KindOf(o.name) {
        case EditTool =>
          if !DecodesAsEdit(o.arguments) {
            return false;
          }
          phase := ReadPhase;
        case DynamicTool =>
          var definition := FindTool((if run.Some? then run.value.tools else []) + discovered, o.name);
          if definition.None? {
            return false;
          }
          transport := transport.(name := McpCall);
        case _ =>
      }
      if !encodes {
        return false;
      }
      File(o.tool, Pending(request, transport, EMPTY, phase));
      events, notify := events + [Dispatch(o.tool, transport), Event.Started(o.tool, o.callID)], true;
      ok := true;
    }

    method Find(id: Identity) returns (found: Option<nat>)
      requires Valid()
      ensures found == Lookup(tools, id)
    {
      IndexesSearch(id.messageID, id.execID);
      found := None;
      if id.execID != "" && id.execID in pendingByExec {
        found := Some(pendingByExec[id.execID]);
      }
      if found.None? && id.messageID != 0 && id.messageID in pendingByMessage {
        found := Some(pendingByMessage[id.messageID]);
      }
    }

    method MatchesToolResult(id: Identity) returns (matches: bool)
      requires Valid()
      ensures matches <==> SessionModel.Matches(View(), id)
    {
      if ending.Some? {
        return false;
      }
      if discovery.Some? && IdentityMatches(id, discovery.value.messageID, discovery.value.execID) {
        return true;
      }
      IndexesSearch(id.messageID, id.execID);
      if id.execID != "" {
        return id.execID in pendingByExec
               && (id.messageID == 0 || tools[pendingByExec[id.execID]].transport.messageID == id.messageID);
      }
      return id.messageID != 0 && id.messageID in pendingByMessage;
    }

    /** The common end of a call: it leaves both indexes and its completion is logged. */
    method CompleteCall(t: nat, content: Content, isError: bool) returns (applied: Applied)
      requires Valid() && t in tools
      modifies this`tools, this`pendingByMessage, this`pendingByExec, this`events, this`notify
      ensures Valid() && (View(), applied) == Complete(old(View()), t, content, isError)
      ensures notify == (old(notify) || Signals(old(View()), View()))
    {
      var pending := tools[t];
      pendingByMessage := pendingByMessage - {pending.transport.messageID};
      pendingByExec := pendingByExec - {pending.transport.execID};
      tools := tools - {t};
      events, notify := events + [Completed(t, pending.request.callID)], true;
      applied := Delivers(t, ToolResult(pending.request.callID, content, isError));
    }

    method ApplyPlainResult(t: nat, m: ExecMessage) returns (applied: Applied)
      requires Valid() && t in tools
      modifies this`tools, this`pendingByMessage, this`pendingByExec, this`events, this`notify
      ensures Valid() && (View(), applied) == ApplyPlain(old(View()), t, m)
      ensures notify == (old(notify) || Signals(old(View()), View()))
    {
      var pending := tools[t];
      if !AcceptsIdentity(m.identity, pending.transport) || pending.transport.name !in m.plain || !m.encodes {
        return Refused;
      }
      var result := m.plain[pending.transport.name];
      applied := CompleteCall(t, Text(result.content), result.isError);
    }

    method ApplyEditReadResult(t: nat, m: ExecMessage, messageID: MessageID, execID: string) returns (applied: Applied)
      requires Valid() && FreshFor(View(), messageID, execID) && t in tools
      modifies this`tools, this`pendingByMessage, this`pendingByExec, this`events, this`notify
      ensures Valid() && (View(), applied) == ApplyEditRead(old(View()), t, m, messageID, execID)
      ensures notify == (old(notify) || Signals(old(View()), View()))
    {
      hide WriteContents;
      var request := tools[t].request;
      if m.read.None? {
        return Refused;
      }
      match m.read.value
      case ReadFailed(detail) =>
        if !m.encodes {
          return Refused;
        }
        applied := CompleteCall(t, EditUnreadable(detail), true);
      case ReadOk(content) =>
        if !DecodesAsEdit(request.arguments) {
          return Refused;
        }
        var contents := WriteContents(request.arguments.edit, content);
        if contents.None? {
          if !m.encodes {
            return Refused;
          }
          applied := CompleteCall(t, EditInapplicable, true);
          return;
        }
        var write := WriteRequest(request, contents.value, messageID, execID);
        Rekey(t, write);
        events, notify := events + [Dispatch(t, write)], true;
        applied := Redirected(t, content);
    }

    /** The Edit moves from its Read to its Write: the same object is filed under new transport IDs. */
    method Rekey(t: nat, write: ToolRequest)
      requires Valid() && FreshFor(View(), write.messageID, write.execID) && t in tools
      modifies this`tools, this`pendingByMessage, this`pendingByExec
      ensures Valid() && tools == old(tools)[t := old(tools)[t].(transport := write, phase := WritePhase)]
    {
      pendingByMessage := pendingByMessage - {tools[t].transport.messageID};
      pendingByExec := pendingByExec - {tools[t].transport.execID};
      tools := tools[t := tools[t].(transport := write, phase := WritePhase)];
      pendingByMessage := pendingByMessage[write.messageID := t];
      pendingByExec := pendingByExec[write.execID := t];
    }

    method ApplyShellResult(t: nat, m: ExecMessage) returns (applied: Applied)
      requires Valid() && t in tools
      modifies this`tools, this`pendingByMessage, this`pendingByExec, this`events, this`notify
      ensures Valid() && (View(), applied) == ApplyShell(old(View()), t, m)
      ensures notify == (old(notify) || Signals(old(View()), View()))
    {
      hide Accept, Loses, AcceptsIdentity, Absorb, Kept;
      var pending := tools[t];
      if !AcceptsIdentity(m.identity, pending.transport) || m.shell.None? {
        return Refused;
      }
      match m.shell.value
      case Output(delta) =>
        AbsorbOutput(t, delta);
        applied := Heard(t, delta);
      case Launched =>
        events, notify := events + [Progress(t, ShellStart)], true;
        applied := Absorbed;
      case Exited(code) =>
        events, notify := events + [Progress(t, ShellExit(code))], true;
        if !m.encodes {
          return Refused;
        }
        var c := pending.capture;
        applied := CompleteCall(t, ShellReport(code, c.stdout, c.stderr, c.truncated), code != 0);
      case Ended(text, isError) =>
        if !m.encodes {
          return Refused;
        }
        applied := CompleteCall(t, Text(text), isError);
    }

    /** Appends a shell delta to the stream it belongs to, and publishes what was kept of it. */
    method AbsorbOutput(t: nat, delta: Delta)
      requires Valid() && t in tools
      modifies this`tools, this`events, this`notify
      ensures Valid() && tools == old(tools)[t := old(tools)[t].(capture := Absorb(old(tools)[t].capture, delta))]
      ensures var kept := Kept(old(tools)[t].capture, delta);
              if kept.data == [] then events == old(events) && notify == old(notify)
              else events == old(events) + [Progress(t, Chunk(kept))] && notify
    {
      var c, kept := AbsorbDelta(tools[t].capture, delta);
      tools := tools[t := tools[t].(capture := c)];
      if kept.data != [] {
        events, notify := events + [Progress(t, Chunk(kept))], true;
      }
    }

    method ApplyFound(t: nat, m: ExecMessage, messageID: MessageID, execID: string) returns (applied: Applied)
      requires Valid() && FreshFor(View(), messageID, execID) && t in tools
      modifies this`tools, this`pendingByMessage, this`pendingByExec, this`events, this`notify
      ensures Valid() && (View(), applied) == ApplyTo(old(View()), t, m, messageID, execID)
      ensures notify == (old(notify) || Signals(old(View()), View()))
    {
      var pending := tools[t];
      match KindOf(pending.request.name)
      case ReadTool =>
        if m.read.None? || !m.encodes {
          return Refused;
        }
        match m.read.value {
          case ReadOk(content) => applied := CompleteCall(t, Text(content), false);
          case ReadFailed(detail) => applied := CompleteCall(t, ReadFailure(detail), true);
        }
      case EditTool =>
        match pending.phase {
          case ReadPhase => applied := ApplyEditReadResult(t, m, messageID, execID);
          case WritePhase => applied := ApplyPlainResult(t, m);
          case NoPhase => applied := Refused;
        }
      case ShellTool => applied := ApplyShellResult(t, m);
      case FileTool => applied := ApplyPlainResult(t, m);
      case DynamicTool =>
        if pending.transport.name != McpCall {
          return Refused;
        }
        applied := ApplyPlainResult(t, m);
    }

    /** Everything applyToolResult does under the lock. Sending the result on happens after unlocking. */
    method ApplyToolResult(m: ExecMessage, messageID: MessageID, execID: string) returns (applied: Applied)
      requires Valid() && FreshFor(View(), messageID, execID)
      modifies this
      ensures Valid() && (View(), applied) == SessionModel.Apply(old(View()), m, messageID, execID)
      ensures notify == (old(notify) || Signals(old(View()), View()))
    {
      if m.identity == Identity(0, "") || ending.Some? {
        return Refused;
      }
      if discovery.Some? && IdentityMatches(m.identity, discovery.value.messageID, discovery.value.execID) {
        if m.state.None? {
          return Refused;
        }
        discovery := None;
        return DeliversState(m.state.value);
      }
      var found := Find(m.identity);
      if found.None? {
        return Refused;
      }
      applied := ApplyFound(found.value, m, messageID, execID);
    }

    method BeginMcpDiscovery(messageID: MessageID, execID: string) returns (ok: bool)
      requires Valid()
      modifies this`discovery, this`events, this`notify
      ensures Valid() && (View(), ok) == BeginDiscovery(old(View()), messageID, execID)
      ensures notify == (old(notify) || Signals(old(View()), View()))
    {
      if ending.Some? || discovery.Some? {
        return false;
      }
      discovery := Some(Discovery(messageID, execID));
      events, notify := events + [StateQuery(messageID, execID)], true;
      ok := true;
    }

    method ClearMcpDiscovery(d: Discovery) returns (cleared: bool)
      requires Valid()
      modifies this`discovery
      ensures Valid() && (View(), cleared) == ClearDiscovery(old(View()), d)
      ensures notify == (old(notify) || Signals(old(View()), View()))
    {
      if discovery != Some(d) {
        return false;
      }
      discovery := None;
      cleared := true;
    }

    /** The events from a cursor on, with the terminal state as of the same instant. */
    method Snapshot(cursor: nat) returns (unseen: seq<Event>, terminal: Option<Ending>)
      requires Valid()
      ensures terminal == ending
      ensures cursor <= |events| ==> events[..cursor] + unseen == events
      ensures cursor > |events| ==> unseen == []
    {
      unseen := if cursor < |events| then events[cursor..] else [];
      terminal := ending;
    }
  }
}
