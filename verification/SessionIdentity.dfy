/**
 Which IDs are in use: every pending call and the MCP query carry IDs of their own, so a client result can mean only
 one of them, and the IDs about to be made are free. Also the shape of the pending calls themselves.
 */
module SessionIdentity {
  import opened Common
  import opened ShellOutput
  import opened SessionModel
  import opened SessionProtocol

  predicate Issued(ids: IDs, messageID: MessageID, execID: string) {
    messageID in ids.own && execID in ids.execs
  }

  ghost predicate PendingIssued(pending: map<nat, Pending>, ids: IDs) {
    forall t :: t in pending ==> Issued(ids, pending[t].transport.messageID, pending[t].transport.execID)
  }

  ghost predicate IDsKept(s: Session, ids: IDs) {
    && ids.issued < 0x1_0000_0000 && (forall m :: m in ids.own ==> 1 <= m <= ids.issued)
    && Coherent(s)
    && PendingIssued(s.pending, ids)
    && (s.discovery.Some? ==>
          && Issued(ids, s.discovery.value.messageID, s.discovery.value.execID)
          && FreshFor(s, s.discovery.value.messageID, s.discovery.value.execID))
  }

  /** The next IDs are not in use. */
  lemma NextIDsFresh(s: Session, ids: IDs, execID: string)
    requires IDsKept(s, ids) && Unused(ids, execID)
    ensures FreshFor(s, ids.issued + 1, execID)
  {
  }

  /** A change to call t that keeps its transport IDs. */
  lemma IDsChanged(s: Session, ids: IDs, t: nat, p: Pending, events: seq<Event>)
    requires IDsKept(s, ids) && t in s.pending && PendingCoherent(p) && p.transport == s.pending[t].transport
    ensures IDsKept(s.(pending := s.pending[t := p], events := events), ids)
  {
    hide PendingCoherent;
  }

  /** Call t goes on, or starts, under new IDs. */
  lemma IDsFiled(s: Session, ids: IDs, t: nat, p: Pending, events: seq<Event>)
    requires IDsKept(s, ids) && PendingCoherent(p) && !s.Done() && p.transport.messageID == ids.issued + 1
    requires Unused(ids, p.transport.execID)
    ensures IDsKept(s.(pending := s.pending[t := p], events := events), Made(ids, p.transport.execID))
  {
    hide PendingCoherent;
    NextIDsFresh(s, ids, p.transport.execID);
  }

  lemma IDsRemoved(s: Session, ids: IDs, t: nat, events: seq<Event>)
    requires IDsKept(s, ids)
    ensures IDsKept(s.(pending := s.pending - {t}, events := events), ids)
  {
    hide PendingCoherent;
  }

  /** Neither the calls nor the query change. */
  lemma IDsSame(s: Session, after: Session, ids: IDs, more: IDs)
    requires IDsKept(s, ids) && after.pending == s.pending && after.Done() == s.Done()
    requires after.discovery == s.discovery || after.discovery == None
    requires || more == ids
             || (&& more.issued == ids.issued + 1 < 0x1_0000_0000
                 && ids.own <= more.own <= ids.own + {ids.issued + 1} && ids.execs <= more.execs)
    ensures IDsKept(after, more)
  {
    hide PendingCoherent;
  }

  lemma IDsEffect(y: System, execID: string, m: ExecMessage, e: Effect, after: (Session, Applied))
    requires IDsKept(y.session, y.ids) && !y.session.Done() && Unused(y.ids, execID)
    requires HasEffect(y.session, m, y.ids.issued + 1, execID, e, after)
    ensures IDsKept(after.0, AfterApply(y, execID, after).ids)
  {
    hide IDsKept, Accept, Loses, Kept, WriteContents;
    var s := y.session;
    match e
    case TakesOutput(t, _) => IDsChanged(s, y.ids, t, after.0.pending[t], after.0.events) by { PendingAt(s, y.ids, t); }
    case MovesToWrite(t, _) => IDsFiled(s, y.ids, t, after.0.pending[t], after.0.events) by { PendingAt(s, y.ids, t); }
    case Ends(t, _, _, _) => IDsRemoved(s, y.ids, t, after.0.events);
    case _ => IDsSame(s, after.0, y.ids, y.ids);
  }

  lemma PendingAt(s: Session, ids: IDs, t: nat)
    requires IDsKept(s, ids) && t in s.pending
    ensures PendingCoherent(s.pending[t])
  {
  }

  lemma IDsApplied(y: System, execID: string, m: ExecMessage)
    requires IDsKept(y.session, y.ids) && Enabled(y, DoApply(m, execID))
    ensures IDsKept(Step(y, DoApply(m, execID)).session, Step(y, DoApply(m, execID)).ids)
  {
    hide IDsKept, HasEffect, Apply;
    var e := ApplyHasEffect(y.session, m, y.ids.issued + 1, execID);
    var after := Apply(y.session, m, y.ids.issued + 1, execID);
    if y.session.Done() {
      assert after == (y.session, Refused) by { ApplyDone(y.session, m, y.ids.issued + 1, execID); }
    } else {
      IDsEffect(y, execID, m, e, after);
    }
  }

  lemma IDsOpened(y: System, execID: string, o: Opening, encodes: bool)
    requires IDsKept(y.session, y.ids) && Unused(y.ids, execID)
    ensures IDsKept(Open(y.session, o, y.ids.issued + 1, execID, encodes).0, Made(y.ids, execID))
  {
    hide IDsKept;
    var after := Open(y.session, o, y.ids.issued + 1, execID, encodes).0;
    if CanOpen(y.session, o, encodes) {
      IDsFiled(y.session, y.ids, o.tool, OpenedTool(o, y.ids.issued + 1, execID), after.events);
    } else {
      IDsSame(y.session, after, y.ids, Made(y.ids, execID));
    }
  }

  lemma IDsStep(y: System, a: Action)
    requires IDsKept(y.session, y.ids) && Enabled(y, a)
    ensures IDsKept(Step(y, a).session, Step(y, a).ids)
  {
    hide IDsKept, Apply, SessionProtocol.Sent, Received, Open, OpenedTool, AfterApply, Finish, BeginDiscovery;
    match a
    case DoOpen(callID, name, arguments, execID, encodes) =>
      IDsOpened(y, execID, Opening(y.next, callID, name, arguments), encodes);
    case DoApply(m, execID) => IDsApplied(y, execID, m);
    case DoFinish(payload, code, message, now) => IDsFinished(y.session, y.ids, payload, code, message, now);
    case Ask(execID) => IDsAsked(y.session, y.ids, execID);
    case _ => IDsSame(y.session, Step(y, a).session, y.ids, Step(y, a).ids);
  }

  lemma IDsFinished(s: Session, ids: IDs, payload: Bytes, code: string, message: string, now: nat)
    requires IDsKept(s, ids)
    ensures IDsKept(Finish(s, payload, code, message, now), ids)
  {
  }

  lemma IDsAsked(s: Session, ids: IDs, execID: string)
    requires IDsKept(s, ids) && Unused(ids, execID)
    ensures var (after, ok) := BeginDiscovery(s, ids.issued + 1, execID);
            if ok then IDsKept(after, Made(ids, execID)) else IDsKept(after, ids)
  {
    hide PendingCoherent;
    NextIDsFresh(s, ids, execID);
  }
}
