/**
 The thread that asks the client for its MCP tools, against its timer, the result, the end of the session and
 cancellation.
 */
module SessionInquiry {
  import opened Common
  import opened ShellOutput
  import opened SessionModel
  import opened SessionProtocol

  /** What was accepted for the query is still on its way to the asker, unless a cancelled sender dropped it. */
  predicate OnItsWay(q: Inquiry, cancelled: bool) {
    q.inFlight + q.buffer == q.accepted || (cancelled && q.inFlight + q.buffer == [])
  }

  predicate NothingAccepted(q: Inquiry) { q.accepted == [] && q.inFlight == [] && q.buffer == [] }

  /** The query is gone from the session: it was answered, or the session ended. */
  predicate Closed(s: Session, cancelled: bool, q: Inquiry) {
    s.discovery == None && (q.accepted != [] || s.Done()) && OnItsWay(q, cancelled)
  }

  predicate InquiryKept(s: Session, cancelled: bool, cancelOwed: bool, q: Inquiry) {
    && (s.Done() && s.run.Some? ==> cancelled || cancelOwed)
    && (!q.asker.Idle? ==> s.run.Some?)
    && |q.accepted| <= 1
    && match q.asker
       case Idle => s.discovery == None && NothingAccepted(q)
       case Waiting(d) => (s.discovery == Some(d) && !s.Done() && NothingAccepted(q)) || Closed(s, cancelled, q)
       case Late(d) => Closed(s, cancelled, q)
       case Answered(_, outcome) =>
         && s.discovery == None && q.accepted == [outcome] && q.inFlight == [] && q.buffer == []
         && (outcome.StateOk? ==> s.discovered == outcome.tools)
       case Failed(asked, timedOut) =>
         && s.discovery == None
         && (if asked.None? then s.Done() && NothingAccepted(q)
             else if timedOut then NothingAccepted(q)
             else cancelled && OnItsWay(q, cancelled))
  }

  ghost predicate Inquires(y: System) { InquiryKept(y.session, y.cancelled, y.cancelOwed, y.inquiry) }

  /** A step that leaves the inquiry alone, and of the session what it depends on. */
  lemma InquirySame(y: System, after: System)
    requires Inquires(y) && after.inquiry == y.inquiry
    requires after.session.discovery == y.session.discovery && after.session.discovered == y.session.discovered
    requires after.session.Done() == y.session.Done()
    requires y.session.run.Some? ==> after.session.run.Some?
    requires y.session.Done() ==> after.session.run == y.session.run
    requires (y.cancelled ==> after.cancelled) && (y.cancelled || y.cancelOwed ==> after.cancelled || after.cancelOwed)
    ensures Inquires(after)
  {
  }

  lemma InquiryAnswered(y: System, state: StateOutcome)
    requires Inquires(y) && y.session.discovery.Some?
    ensures var q := y.inquiry;
            Inquires(y.(session := y.session.(discovery := None),
                        inquiry := q.(accepted := q.accepted + [state], inFlight := q.inFlight + [state])))
  {
    assert [state] + [] == [state] == [] + [state];
  }

  lemma InquiryEffect(y: System, execID: string, m: ExecMessage, e: Effect, after: (Session, Applied))
    requires Inquires(y) && Unused(y.ids, execID) && HasEffect(y.session, m, y.ids.issued + 1, execID, e, after)
    ensures Inquires(AfterApply(y, execID, after))
  {
    hide Accept, Loses, Kept, WriteContents, Inquires, InquiryKept;
    match e
    case AnswersDiscovery(state) => InquiryAnswered(y, state);
    case _ => InquirySame(y, AfterApply(y, execID, after));
  }

  lemma InquiryFinish(y: System, payload: Bytes, code: string, message: string, now: nat)
    requires Inquires(y)
    ensures Inquires(Step(y, DoFinish(payload, code, message, now)))
  {
  }

  lemma InquiryAsk(y: System, execID: string)
    requires Inquires(y) && Enabled(y, Ask(execID))
    ensures Inquires(AfterAsk(y, execID))
  {
  }

  lemma InquirySend(y: System, i: nat)
    requires Inquires(y) && i < |y.inquiry.inFlight|
    ensures |y.inquiry.buffer| < CHANNEL_CAPACITY && Inquires(Step(y, SendState(i)))
    ensures y.cancelled ==> Inquires(Step(y, GiveUpState(i)))
  {
    var q := y.inquiry;
    assert |q.inFlight + q.buffer| == |q.inFlight| + |q.buffer| <= 1;
    assert q.inFlight == [q.inFlight[0]] && q.buffer == [] && i == 0;
    assert Without(q.inFlight, 0) == [];
    assert [] + [q.inFlight[0]] == [q.inFlight[0]] + [];
  }

  /** The asker takes the one outcome there is. */
  lemma InquiryTake(y: System)
    requires Inquires(y) && Enabled(y, TakeState)
    ensures Inquires(Step(y, TakeState))
  {
    var q := y.inquiry;
    assert |q.inFlight + q.buffer| == |q.inFlight| + |q.buffer|;
    assert q.inFlight == [];
    assert [] + q.buffer == q.buffer == [q.buffer[0]];
  }

  lemma InquiryTimer(y: System)
    requires Inquires(y) && Enabled(y, Timer)
    ensures Inquires(Step(y, Timer))
  {
  }

  lemma InquiryCancelled(y: System)
    requires Inquires(y) && Enabled(y, AskerCancelled)
    ensures Inquires(Step(y, AskerCancelled))
  {
  }

  lemma OpenFrame(s: Session, o: Opening, messageID: MessageID, execID: string, encodes: bool)
    ensures var after := Open(s, o, messageID, execID, encodes).0;
            after.discovery == s.discovery && after.discovered == s.discovered && after.ending == s.ending
              && after.run == s.run
  {
  }

  lemma InquiryStep(y: System, a: Action)
    requires Inquires(y) && Enabled(y, a)
    ensures Inquires(Step(y, a))
  {
    hide HasEffect, Apply, SessionProtocol.Sent, Received, OpenedTool, Open, AfterApply, AfterAsk, InquiryKept;
    match a
    case DoApply(m, execID) =>
      var e := ApplyHasEffect(y.session, m, y.ids.issued + 1, execID);
      InquiryEffect(y, execID, m, e, Apply(y.session, m, y.ids.issued + 1, execID));
    case DoFinish(payload, code, message, now) => InquiryFinish(y, payload, code, message, now);
    case Ask(execID) => InquiryAsk(y, execID);
    case SendState(i) => InquirySend(y, i);
    case GiveUpState(i) => InquirySend(y, i);
    case TakeState => InquiryTake(y);
    case Timer => InquiryTimer(y);
    case AskerCancelled => InquiryCancelled(y);
    case DoOpen(callID, name, arguments, execID, encodes) =>
      OpenFrame(y.session, Opening(y.next, callID, name, arguments), y.ids.issued + 1, execID, encodes);
      InquirySame(y, Step(y, a));
    case _ => InquirySame(y, Step(y, a));
  }
}
