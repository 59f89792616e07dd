/**
 The IDs of the MCP query stay its own after the query is gone, so that an answer that comes too late means nothing.
 */
module SessionAsked {
  import opened Common
  import opened ShellOutput
  import opened SessionModel
  import opened SessionProtocol
  import opened SessionIdentity

  function AskedBy(a: Asker): Option<Discovery> {
    match a
    case Waiting(d) => Some(d)
    case Late(d) => Some(d)
    case Answered(d, _) => Some(d)
    case Failed(asked, _) => asked
    case _ => None
  }

  ghost predicate AskedKept(y: System) {
    var d := AskedBy(y.inquiry.asker);
    d.Some? ==>
      Issued(y.ids, d.value.messageID, d.value.execID) && FreshFor(y.session, d.value.messageID, d.value.execID)
  }

  /** A pending call has the transport IDs it had before, or the new ones. */
  ghost predicate OnlyNewIDs(before: map<nat, Pending>, after: map<nat, Pending>, messageID: nat, execID: string) {
    forall t :: t in after ==>
      || (t in before && after[t].transport == before[t].transport)
      || (after[t].transport.messageID == messageID && after[t].transport.execID == execID)
  }

  lemma EffectIDs(s: Session, m: ExecMessage, messageID: MessageID, execID: string, e: Effect,
                  after: (Session, Applied))
    requires HasEffect(s, m, messageID, execID, e, after)
    ensures OnlyNewIDs(s.pending, after.0.pending, messageID, execID)
  {
    hide Accept, Loses, Kept, WriteContents, Absorb;
  }

  lemma OpenIDs(s: Session, o: Opening, messageID: MessageID, execID: string, encodes: bool)
    ensures OnlyNewIDs(s.pending, Open(s, o, messageID, execID, encodes).0.pending, messageID, execID)
  {
    hide CanOpen;
  }

  lemma StillFresh(before: Session, after: Session, messageID: MessageID, execID: string, d: Discovery)
    requires OnlyNewIDs(before.pending, after.pending, messageID, execID) && FreshFor(before, d.messageID, d.execID)
    requires d.messageID != messageID && d.execID != execID
    ensures FreshFor(after, d.messageID, d.execID)
  {
  }

  lemma AskedOpened(y: System, execID: string, request: ToolRequest, o: Opening, encodes: bool)
    requires IDsKept(y.session, y.ids) && AskedKept(y) && Unused(y.ids, execID)
    ensures AskedKept(AfterOpen(y, execID, request, Open(y.session, o, y.ids.issued + 1, execID, encodes)))
  {
    hide Open, OpenedTool, Coherent, PendingIssued, OnlyNewIDs;
    OpenIDs(y.session, o, y.ids.issued + 1, execID, encodes);
    var d := AskedBy(y.inquiry.asker);
    if d.Some? {
      StillFresh(y.session, Open(y.session, o, y.ids.issued + 1, execID, encodes).0, y.ids.issued + 1, execID, d.value);
    }
  }

  lemma AskedApplied(y: System, m: ExecMessage, execID: string)
    requires IDsKept(y.session, y.ids) && AskedKept(y) && Unused(y.ids, execID)
    ensures AskedKept(AfterApply(y, execID, Apply(y.session, m, y.ids.issued + 1, execID)))
  {
    hide Apply, Coherent, PendingIssued, OnlyNewIDs, HasEffect;
    var after := Apply(y.session, m, y.ids.issued + 1, execID);
    var e := ApplyHasEffect(y.session, m, y.ids.issued + 1, execID);
    EffectIDs(y.session, m, y.ids.issued + 1, execID, e, after);
    var d := AskedBy(y.inquiry.asker);
    if d.Some? {
      StillFresh(y.session, after.0, y.ids.issued + 1, execID, d.value);
    }
  }

  lemma AskedFresh(y: System, execID: string)
    requires IDsKept(y.session, y.ids) && Enabled(y, Ask(execID))
    ensures AskedKept(AfterAsk(y, execID))
  {
    NextIDsFresh(y.session, y.ids, execID);
  }

  lemma AskedStep(y: System, a: Action)
    requires IDsKept(y.session, y.ids) && AskedKept(y) && Enabled(y, a)
    ensures AskedKept(Step(y, a))
  {
    hide Apply, Open, OpenedTool, SessionProtocol.Sent, Received, IDsKept, AfterOpen, AfterApply, AfterAsk;
    match a
    case DoOpen(callID, name, arguments, execID, encodes) =>
      var o := Opening(y.next, callID, name, arguments);
      AskedOpened(y, execID, OpenedTool(o, y.ids.issued + 1, execID).request, o, encodes);
    case DoApply(m, execID) => AskedApplied(y, m, execID);
    case Ask(execID) => AskedFresh(y, execID);
    case _ =>
  }
}
