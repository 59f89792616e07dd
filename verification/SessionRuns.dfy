/** What holds in every run of a session, whatever the threads do and however their steps interleave. */
module SessionRuns {
  import opened Common
  import opened ShellOutput
  import opened SessionModel
  import opened SessionProtocol
  import opened SessionAsked
  import opened SessionIdentity
  import opened SessionInquiry
  import opened SessionLog
  import Utf8

  ghost predicate Kept(y: System) {
    DeliveryKept(y) && LogKept(y.session, y.calls) && IDsKept(y.session, y.ids) && Inquires(y) && AskedKept(y)
  }

  lemma KeptInitially()
    ensures Kept(INITIAL)
  {
  }

  lemma KeptStep(y: System, a: Action)
    requires Kept(y) && Enabled(y, a)
    ensures Kept(Step(y, a))
  {
    hide DeliveryKept, LogKept, IDsKept, Inquires, AskedKept, Step;
    AskedStep(y, a);
    DeliveryStep(y, a);
    LogStep(y, a);
    IDsStep(y, a);
    InquiryStep(y, a);
  }

  lemma {:induction false} KeptAlways(run: seq<Action>)
    requires After(run).Some?
    ensures Kept(After(run).value)
  {
    hide Kept, Step;
    if run == [] {
      KeptInitially();
    } else {
      KeptAlways(run[..|run| - 1]);
      KeptStep(After(run[..|run| - 1]).value, run[|run| - 1]);
    }
  }

  ghost predicate Reachable(y: System) { exists run :: After(run) == Some(y) }

  lemma ReachableKept(y: System)
    requires Reachable(y)
    ensures Kept(y)
  {
    hide Kept, Step;
    var run :| After(run) == Some(y);
    KeptAlways(run);
  }

  // ---- At most one result, with its own call ID ----

  /** How many results of call t are on their way to its channel. */
  function Underway(inFlight: seq<Delivery>, t: nat): nat {
    if inFlight == [] then 0
    else Underway(inFlight[..|inFlight| - 1], t) + if inFlight[|inFlight| - 1].tool == t then 1 else 0
  }

  lemma {:induction false} UnderwayOnce(inFlight: seq<Delivery>, t: nat)
    requires forall i, j :: 0 <= i < j < |inFlight| ==> inFlight[i].tool != inFlight[j].tool
    ensures Underway(inFlight, t) <= 1
    ensures Underway(inFlight, t) == 1 ==> exists i :: 0 <= i < |inFlight| && inFlight[i].tool == t
  {
    if inFlight != [] {
      UnderwayOnce(inFlight[..|inFlight| - 1], t);
    }
  }

  /**
   A call gets at most one result, wherever it is, and gets none while it is pending; the result carries the ID of its
   call, and that of a shell command reports the output taken for it.
   */
  lemma OneResult(y: System, t: nat)
    requires Reachable(y) && t in y.calls.asked
    ensures t in y.channels.buffers && t in y.channels.received && t in y.calls.taken
    ensures Underway(y.channels.inFlight, t) + |y.channels.buffers[t]| + |y.channels.received[t]| <= 1
    ensures t in y.session.pending ==>
              Underway(y.channels.inFlight, t) == 0 && y.channels.buffers[t] == [] && y.channels.received[t] == []
    ensures forall r :: r in y.channels.buffers[t] || r in y.channels.received[t] ==>
              && r.callID == y.calls.asked[t].callID
              && (r.content.ShellReport? ==>
                    Capture(r.content.stdout, r.content.stderr, r.content.truncated) ==
                    AbsorbAll(y.calls.taken[t].heard))
  {
    hide Reachable, LogKept, IDsKept, Inquires;
    ReachableKept(y);
    UnderwayOnce(y.channels.inFlight, t);
    assert SingleResult(y.calls, y.channels, t);
  }

  /** Whoever hands a result on finds room for it: the send never waits. */
  lemma SendNeverBlocks(y: System, i: nat)
    requires Reachable(y) && i < |y.channels.inFlight|
    ensures Enabled(y, Send(i))
  {
    hide Reachable, LogKept, IDsKept, Inquires, CallsKept;
    ReachableKept(y);
    assert Untouched(y.channels, y.channels.inFlight[i].tool);
  }

  // ---- Started once, ended for good, replayed exactly ----

  /** How a session may change: its log grows, its run is fixed once set, and after its end nothing changes any more. */
  predicate Evolves(s: Session, after: Session) {
    && s.events <= after.events
    && (s.run.Some? ==> after.run == s.run)
    && (s.Done() ==>
          && after.ending == s.ending && after.events == s.events
          && after.run == s.run && after.pending == s.pending)
  }

  lemma EvolvesEffect(s: Session, m: ExecMessage, messageID: MessageID, execID: string, e: Effect,
                      after: (Session, Applied))
    requires !s.Done() && HasEffect(s, m, messageID, execID, e, after)
    ensures Evolves(s, after.0)
  {
    hide Accept, Loses, Kept, WriteContents;
  }

  lemma EvolvesStep(y: System, a: Action)
    requires Enabled(y, a)
    ensures Evolves(y.session, Step(y, a).session)
  {
    hide HasEffect, Apply, SessionProtocol.Sent, Received, OpenedTool;
    match a
    case DoApply(m, execID) =>
      var e := ApplyHasEffect(y.session, m, y.ids.issued + 1, execID);
      if y.session.Done() {
        ApplyDone(y.session, m, y.ids.issued + 1, execID);
      } else {
        EvolvesEffect(y.session, m, y.ids.issued + 1, execID, e, Apply(y.session, m, y.ids.issued + 1, execID));
      }
    case _ =>
  }

  /** Later states of a run evolve from earlier ones; so what a client has read of the log stays what it was. */
  lemma {:induction false} EvolvesAlways(run: seq<Action>, more: seq<Action>)
    requires After(run + more).Some?
    ensures After(run).Some? && Evolves(After(run).value.session, After(run + more).value.session)
    decreases |more|
  {
    hide Step;
    if more == [] {
      assert run + more == run;
    } else {
      var n := |more| - 1;
      assert (run + more)[..|run + more| - 1] == run + more[..n];
      EvolvesAlways(run, more[..n]);
      EvolvesStep(After(run + more[..n]).value, more[n]);
    }
  }

  lemma PrefixEvolves(run: seq<Action>, n: nat)
    requires After(run).Some? && n <= |run|
    ensures After(run[..n]).Some? && Evolves(After(run[..n]).value.session, After(run).value.session)
  {
    hide After, Evolves;
    assert run[..n] + run[n..] == run;
    EvolvesAlways(run[..n], run[n..]);
  }

  lemma PrefixStep(run: seq<Action>, i: nat)
    requires After(run).Some? && i < |run|
    ensures After(run[..i]).Some? && Enabled(After(run[..i]).value, run[i])
    ensures After(run[..i + 1]) == Some(Step(After(run[..i]).value, run[i]))
  {
    hide Step, Evolves;
    PrefixEvolves(run, i + 1);
    assert run[..i + 1][..i] == run[..i];
  }

  lemma StartSets(y: System, request: RunRequest)
    ensures Start(y.session, request).1 == Begun ==> y.session.run.None?
    ensures Start(y.session, request).1 == Begun ==> Step(y, DoStart(request)).session.run.Some?
  {
  }

  /** Of all attempts to start a session, one begins the run at most. */
  lemma StartsOnce(run: seq<Action>, i: nat, j: nat, first: RunRequest, second: RunRequest)
    requires After(run).Some? && i < j < |run| && run[i] == DoStart(first) && run[j] == DoStart(second)
    ensures After(run[..i]).Some? && After(run[..j]).Some?
    ensures Start(After(run[..i]).value.session, first).1 == Begun ==>
              Start(After(run[..j]).value.session, second).1 != Begun
  {
    hide After, Step, Start, Enabled;
    PrefixStep(run, i);
    PrefixEvolves(run, j);
    PrefixEvolves(run[..j], i + 1);
    assert run[..j][..i + 1] == run[..i + 1];
    StartSets(After(run[..i]).value, first);
    StartSets(After(run[..j]).value, second);
  }

  // ---- What the log says of a call ----

  lemma CallLogs(y: System, t: nat)
    requires Reachable(y) && t in y.calls.asked
    ensures t in y.calls.taken
    ensures var s := y.session;
            CallLog(t, y.calls.asked[t], y.calls.taken[t], PendingOf(s, t), s.Done(), About(s.events, t))
  {
    hide Reachable, CallLog, IDsKept, Inquires;
    ReachableKept(y);
    assert SingleResult(y.calls, y.channels, t);
    LogAt(y.session, y.calls, t);
  }

  /**
   The log of a call is its dispatch, its start, a body and a completion. Until the session ends the call is pending
   just as long as its completion is missing.
   */
  lemma LogOfCall(y: System, t: nat)
    requires Reachable(y) && t in y.calls.asked
    ensures t in y.calls.taken && |About(y.session.events, t)| >= 2
    ensures var request, log := y.calls.asked[t], About(y.session.events, t);
            && log[0] == Dispatch(t, FirstTransport(request)) && log[1] == Started(t, request.callID)
            && var rest := log[2..]; var finished := EndsWith(rest, Completed(t, request.callID));
            && Body(t, request, y.calls.taken[t], if finished then Front(rest) else rest)
            && (!y.session.Done() ==> (finished <==> t !in y.session.pending))
  {
    hide Reachable, CallLog, About;
    CallLogs(y, t);
    var s := y.session;
    BodyUnfinished(t, y.calls.asked[t], y.calls.taken[t], PendingOf(s, t), s.Done(), About(s.events, t));
  }

  lemma BodyUnfinished(t: nat, request: ToolRequest, taken: Taken, open: Option<Pending>, done: bool, log: seq<Event>)
    requires CallLog(t, request, taken, open, done, log)
    ensures |log| >= 2 && log[0] == Dispatch(t, FirstTransport(request)) && log[1] == Started(t, request.callID)
    ensures var finished, rest := EndsWith(log[2..], Completed(t, request.callID)), log[2..];
            && Body(t, request, taken, if finished then Front(rest) else rest)
            && (open.Some? ==> !finished) && (open.None? && !done ==> finished)
  {
    var rest := log[2..];
    assert log[0] == log[..2][0] && log[1] == log[..2][1];
    if Body(t, request, taken, rest) && rest != [] {
      assert rest[|rest| - 1] in rest;
      assert !rest[|rest| - 1].Completed?;
    }
  }

  /**
   An Edit dispatches at most one Write, right after its start and only once a read was taken for it; the Write asks for
   the edited text of that read. ReadWasSent says where that read comes from.
   */
  lemma EditTransaction(y: System, t: nat)
    requires Reachable(y) && t in y.calls.asked && y.calls.asked[t].name == Edit
    ensures t in y.calls.taken
    ensures var log, read := About(y.session.events, t), y.calls.taken[t].read;
            && (read.Some? <==> |log| > 2 && log[2].Dispatch?)
            && (forall i :: 1 < i < |log| && log[i].Dispatch? ==>
                  i == 2 && read.Some? && WriteOf(y.calls.asked[t], read.value, log[i].request))
            && (t in y.session.pending && y.session.pending[t].phase == ReadPhase ==> |log| == 2)
            && (t in y.session.pending && y.session.pending[t].phase != ReadPhase ==>
                  |log| == 3 && log[2] == Dispatch(t, y.session.pending[t].transport))
  {
    hide Reachable, About, WriteOf;
    CallLogs(y, t);
    var log := About(y.session.events, t);
    assert |log| > 2 ==> log[2] == log[2..][0];
    forall i | 1 < i < |log| && log[i].Dispatch?
      ensures i == 2 && y.calls.taken[t].read.Some?
      ensures WriteOf(y.calls.asked[t], y.calls.taken[t].read.value, log[i].request)
    {
      assert log[i] == log[2..][i - 2];
    }
  }

  lemma ReadStep(y: System, a: Action, t: nat)
    requires Enabled(y, a) && TakenFor(Step(y, a).calls, t).read.Some?
    ensures var read := TakenFor(Step(y, a).calls, t).read;
            || TakenFor(y.calls, t).read == read
            || (&& a.DoApply? && a.result.read == Some(ReadOk(read.value))
                && Apply(y.session, a.result, y.ids.issued + 1, a.execID).1 == Redirected(t, read.value))
  {
    hide HasEffect, Apply, Open, OpenedTool, SessionProtocol.Sent, Received;
    if a.DoApply? {
      var e := ApplyHasEffect(y.session, a.result, y.ids.issued + 1, a.execID);
      RedirectedByRead(y.session, a.result, y.ids.issued + 1, a.execID, e);
    }
  }

  lemma RedirectedByRead(s: Session, m: ExecMessage, messageID: MessageID, execID: string, e: Effect)
    requires HasEffect(s, m, messageID, execID, e, Apply(s, m, messageID, execID))
    ensures var applied := Apply(s, m, messageID, execID).1;
            applied.Redirected? ==> m.read == Some(ReadOk(applied.read))
  {
    hide Apply, WriteContents, Kept, Accept, Loses;
  }

  /** The read that an Edit went on from is the content a client sent in a result that was taken for this Edit. */
  lemma {:induction false} ReadWasSent(run: seq<Action>, t: nat) returns (i: nat)
    requires After(run).Some? && TakenFor(After(run).value.calls, t).read.Some?
    ensures i < |run| && run[i].DoApply? && After(run[..i]).Some? && Enabled(After(run[..i]).value, run[i])
    ensures var y, read := After(run[..i]).value, TakenFor(After(run).value.calls, t).read.value;
            && run[i].result.read == Some(ReadOk(read))
            && Apply(y.session, run[i].result, y.ids.issued + 1, run[i].execID).1 == Redirected(t, read)
  {
    hide Step, Apply, Enabled;
    if run == [] {
      assert false;
    } else {
      var before := run[..|run| - 1];
      ReadStep(After(before).value, run[|run| - 1], t);
      if TakenFor(After(before).value.calls, t).read == TakenFor(After(run).value.calls, t).read {
        i := ReadWasSent(before, t);
        assert run[..i] == before[..i];
      } else {
        i := |run| - 1;
      }
    }
  }

  /** The output chunks in the log of a shell call are exactly the text its result reports. */
  lemma ShellLogIsReport(y: System, t: nat)
    requires Reachable(y) && t in y.calls.asked && y.calls.asked[t].name == Shell
    ensures t in y.calls.taken
    ensures var report := AbsorbAll(y.calls.taken[t].heard);
            && Streamed(About(y.session.events, t)) == (report.stdout, report.stderr)
            && Utf8.Valid(report.stdout) && |report.stdout| <= MAX_STREAM_BYTES
            && Utf8.Valid(report.stderr) && |report.stderr| <= MAX_STREAM_BYTES
            && (!report.truncated <==> (report.stdout, report.stderr) == ShellOutput.Sent(y.calls.taken[t].heard))
  {
    hide Reachable, About, AbsorbAll, ShellOutput.Sent;
    LogOfCall(y, t);
    var log := About(y.session.events, t);
    CaptureConserves(y.calls.taken[t].heard);
    StreamedRest(log);
    if EndsWith(log[2..], Completed(t, y.calls.asked[t].callID)) {
      assert log[2..] == Front(log[2..]) + [Completed(t, y.calls.asked[t].callID)];
      StreamedSnoc(Front(log[2..]), Completed(t, y.calls.asked[t].callID));
    }
  }

  lemma {:induction false} StreamedRest(log: seq<Event>)
    requires |log| >= 2 && !log[0].Progress? && !log[1].Progress?
    ensures Streamed(log) == Streamed(log[2..])
  {
    if |log| > 2 {
      var n := |log| - 1;
      assert log[..n][2..] == log[2..][..n - 2];
      StreamedRest(log[..n]);
    } else {
      assert log == [log[0], log[1]];
      assert Streamed(log) == Streamed([log[0]]) == Streamed([]) by {
        StreamedSnoc([log[0]], log[1]);
        StreamedSnoc([], log[0]);
        assert [] + [log[0]] == [log[0]] && [log[0]] + [log[1]] == log;
      }
    }
  }

  // ---- Identities ----

  /** A result that names the given IDs, or one of them. */
  predicate Names(id: Identity, messageID: MessageID, execID: string) {
    && id != Identity(0, "")
    && (id.messageID == 0 || id.messageID == messageID)
    && (id.execID == "" || id.execID == execID)
  }

  /**
   No result can mean two pending calls, or a pending call and the MCP query; and it is taken for the call it means.
   */
  lemma NamesOne(y: System, id: Identity, t: nat, u: nat)
    requires Reachable(y) && t in y.session.pending && u in y.session.pending
    requires Names(id, y.session.pending[t].transport.messageID, y.session.pending[t].transport.execID)
    ensures Names(id, y.session.pending[u].transport.messageID, y.session.pending[u].transport.execID) ==> t == u
    ensures y.session.discovery.Some? ==>
              !Names(id, y.session.discovery.value.messageID, y.session.discovery.value.execID)
    ensures Lookup(y.session.pending, id) == Some(t) && Matches(y.session, id)
  {
    hide Reachable, DeliveryKept, LogKept, IDsKept, Inquires;
    ReachableKept(y);
    Unambiguous(y.session, y.ids, id, t, u);
  }

  /**
   What OpenTool and ApplyToolResult of the session object ask of the IDs they are given holds whenever they are called.
   */
  lemma NextCallIsFresh(y: System, execID: string)
    requires Reachable(y) && Unused(y.ids, execID)
    ensures FreshFor(y.session, y.ids.issued + 1, execID) && y.next !in y.session.pending
  {
    hide Reachable, LogKept, Inquires;
    ReachableKept(y);
    NextIDsFresh(y.session, y.ids, execID);
  }

  lemma Unambiguous(s: Session, ids: IDs, id: Identity, t: nat, u: nat)
    requires IDsKept(s, ids) && t in s.pending && u in s.pending
    requires Names(id, s.pending[t].transport.messageID, s.pending[t].transport.execID)
    ensures Names(id, s.pending[u].transport.messageID, s.pending[u].transport.execID) ==> t == u
    ensures s.discovery.Some? ==> !Names(id, s.discovery.value.messageID, s.discovery.value.execID)
    ensures Lookup(s.pending, id) == Some(t) && Matches(s, id)
  {
    assert UnderExec(s.pending, t, s.pending[t].transport.execID);
    assert UnderMessage(s.pending, t, s.pending[t].transport.messageID);
  }

  // ---- Asking for the MCP tools ----

  /** The asker takes a result that was accepted, and only that one, unless the session is cancelled. */
  lemma AcceptedIsReturned(y: System)
    requires Reachable(y)
    ensures var q := y.inquiry;
            && |q.accepted| <= 1
            && (q.asker.Answered? ==> q.accepted == [q.asker.outcome])
            && (q.asker.Answered? && q.asker.outcome.StateOk? ==> y.session.discovered == q.asker.outcome.tools)
            && (q.asker.Failed? && q.accepted != [] ==> y.cancelled)
            && (q.asker.Failed? && q.asker.timedOut ==> q.accepted == [])
            && (q.asker.Late? && q.accepted == [] ==> y.session.Done())
  {
    hide Reachable, DeliveryKept, LogKept, IDsKept;
    ReachableKept(y);
  }

  predicate AskerEnded(y: System) { y.inquiry.asker.Answered? || y.inquiry.asker.Failed? }

  /** An answer that comes when the query was answered, timed out or cancelled is refused and changes nothing. */
  lemma LateAnswerRefused(y: System, m: ExecMessage, messageID: MessageID, execID: string)
    requires Reachable(y) && AskerEnded(y) && AskedBy(y.inquiry.asker).Some?
    requires var d := AskedBy(y.inquiry.asker).value; Names(m.identity, d.messageID, d.execID)
    ensures Apply(y.session, m, messageID, execID) == (y.session, Refused)
  {
    hide Reachable, DeliveryKept, LogKept, IDsKept, ApplyTo;
    ReachableKept(y);
  }

  /**
   A step that the asker takes as soon as it can, or that another thread is about to take: one that has a result in hand
   and finds room for it, or finish, which has unlocked and not yet cancelled the context.
   */
  predicate Due(y: System, a: Action) {
    && Enabled(y, a)
    && (a.TakeState? || a.AskerCancelled? || a.SendState? || (a.Cancel? && y.cancelOwed && !y.cancelled))
  }

  function DueSteps(y: System): seq<Action> {
    if y.inquiry.buffer != [] then [TakeState]
    else if y.inquiry.inFlight != [] then [SendState(0), TakeState]
    else if y.cancelled then [AskerCancelled]
    else [Cancel, AskerCancelled]
  }

  /** After its timer the asker waits once more, without a timer; one or two steps that are due end that wait. */
  lemma LateAskerReturns(y: System)
    requires Reachable(y) && y.inquiry.asker.Late?
    ensures var steps := DueSteps(y);
            && Due(y, steps[0])
            && if |steps| == 1 then AskerEnded(Step(y, steps[0]))
               else Due(Step(y, steps[0]), steps[1]) && AskerEnded(Step(Step(y, steps[0]), steps[1]))
  {
    hide Reachable, DeliveryKept, LogKept, IDsKept;
    ReachableKept(y);
    if y.inquiry.buffer == [] && y.inquiry.inFlight != [] {
      InquirySend(y, 0);
    }
  }

  /** Steps that concern neither the query nor client results leave the inquiry alone and undo no cancellation. */
  lemma InquiryUntouched(y: System, a: Action)
    requires Enabled(y, a) && !a.DoApply? && !a.Ask? && !a.SendState? && !a.GiveUpState? && !a.TakeState?
    requires !a.Timer? && !a.AskerCancelled?
    ensures Step(y, a).inquiry == y.inquiry && (y.cancelled || a.Cancel? ==> Step(y, a).cancelled)
  {
    hide Apply, Open, OpenedTool, Received, SessionProtocol.Sent, AfterApply, Start, Publish, Finish;
  }

  lemma ApplyLeavesInquiry(y: System, m: ExecMessage, execID: string)
    requires Enabled(y, DoApply(m, execID)) && y.session.discovery.None?
    ensures var after := Step(y, DoApply(m, execID)); after.inquiry == y.inquiry && after.cancelled == y.cancelled
  {
    hide HasEffect, Apply;
    var e := ApplyHasEffect(y.session, m, y.ids.issued + 1, execID);
    NoStateTaken(y.session, m, y.ids.issued + 1, execID, e);
  }

  lemma HandedOver(y: System, a: Action)
    requires Inquires(y) && Enabled(y, a) && (a.SendState? || a.GiveUpState?)
    ensures |DueSteps(Step(y, a))| <= |DueSteps(y)| && (a.SendState? ==> |DueSteps(Step(y, a))| < |DueSteps(y)|)
  {
    hide Inquires;
    InquirySend(y, a.i);
    assert a.SendState? ==> Step(y, a).inquiry.buffer == y.inquiry.buffer + [y.inquiry.inFlight[a.i]];
  }

  /** No step of any thread in between makes that wait longer. */
  lemma LateWaitShrinks(y: System, a: Action)
    requires Reachable(y) && y.inquiry.asker.Late? && Enabled(y, a) && Step(y, a).inquiry.asker.Late?
    ensures |DueSteps(Step(y, a))| <= |DueSteps(y)|
    ensures a == DueSteps(y)[0] ==> |DueSteps(Step(y, a))| < |DueSteps(y)|
  {
    hide Reachable, DeliveryKept, LogKept, IDsKept;
    ReachableKept(y);
    assert y.session.discovery.None? && !a.Ask? && !a.TakeState? && !a.Timer? && !a.AskerCancelled?;
    hide Step, Inquires, Kept;
    if a.DoApply? {
      ApplyLeavesInquiry(y, a.result, a.execID);
    } else if a.SendState? || a.GiveUpState? {
      HandedOver(y, a);
    } else {
      InquiryUntouched(y, a);
    }
  }

  /** Without a pending query no state result is taken. */
  lemma NoStateTaken(s: Session, m: ExecMessage, messageID: MessageID, execID: string, e: Effect)
    requires HasEffect(s, m, messageID, execID, e, Apply(s, m, messageID, execID)) && s.discovery.None?
    ensures !Apply(s, m, messageID, execID).1.DeliversState?
  {
    hide Apply, WriteContents, Kept, Accept, Loses;
  }
}
