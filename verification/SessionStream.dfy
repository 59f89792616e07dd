/**
 The streams that replay the log of one session to its subscribers, heartbeats included, while the session goes on.
 A stream looks at the log, writes what it has not written yet, and then waits: for a token in the notify channel,
 which all streams of the session share, for its heartbeat, or for the timer that expects the run to be appended.
 */
module SessionStream {
  import opened Common
  import opened SessionModel
  import SessionRuns
  import Connect

  datatype Frame = Data(event: Event) | Heartbeat | End(ending: Ending)

  datatype Phase = Looking | Writing(unseen: seq<Event>, terminal: Option<Ending>) | Waiting | Over(ended: bool)

  /** armed: the start timer is still running. */
  datatype Stream = Stream(cursor: nat, written: seq<Frame>, armed: bool, phase: Phase)

  datatype Server = Server(session: Session, token: bool, streams: map<nat, Stream>)

  const INITIAL := Server(FRESH, false, map[])

  datatype Action =
    | Move(after: Session)
    | Join(id: nat)
    | Look(id: nat)
    | WriteOne(id: nat)
    | Written(id: nat)
    | Notified(id: nat)
    | Beat(id: nat)
    | StartExpires(id: nat, now: nat)
    | Leave(id: nat)

  /** Move stands for any critical section of the session: see SessionRuns.EvolvesStep. */
  predicate Enabled(y: Server, a: Action) {
    match a
    case Move(after) => SessionRuns.Evolves(y.session, after)
    case Join(id) => id !in y.streams
    case Look(id) => id in y.streams && y.streams[id].phase.Looking?
    case WriteOne(id) => id in y.streams && y.streams[id].phase.Writing? && y.streams[id].phase.unseen != []
    case Written(id) => id in y.streams && y.streams[id].phase.Writing? && y.streams[id].phase.unseen == []
    case Notified(id) => id in y.streams && y.streams[id].phase.Waiting? && y.token
    case Beat(id) => id in y.streams && y.streams[id].phase.Waiting?
    case StartExpires(id, _) => id in y.streams && y.streams[id].phase.Waiting? && y.streams[id].armed
    case Leave(id) => id in y.streams && !y.streams[id].phase.Over?
  }

  /** What a snapshot shows beyond the cursor. */
  function Unseen(events: seq<Event>, cursor: nat): seq<Event> {
    if cursor < |events| then events[cursor..] else []
  }

  function Looked(s: Session, st: Stream): Stream {
    st.(armed := st.armed && s.run.None?, phase := Writing(Unseen(s.events, st.cursor), s.ending))
  }

  function WroteOne(st: Stream): Stream
    requires st.phase.Writing? && st.phase.unseen != []
  {
    st.(cursor := st.cursor + 1, written := st.written + [Data(st.phase.unseen[0])],
        phase := st.phase.(unseen := st.phase.unseen[1..]))
  }

  function WroteAll(st: Stream): Stream
    requires st.phase.Writing?
  {
    match st.phase.terminal
    case Some(ending) => st.(written := st.written + [End(ending)], phase := Over(true))
    case None => st.(phase := Waiting)
  }

  function With(y: Server, id: nat, st: Stream): Server { y.(streams := y.streams[id := st]) }

  function Moved(y: Server, after: Session): Server {
    y.(session := after, token := y.token || Signals(y.session, after))
  }

  const NOT_APPENDED := "run request was not appended"

  function Expired(s: Session, now: nat): Session { Finish(s, [], "invalid_argument", NOT_APPENDED, now) }

  function Step(y: Server, a: Action): Server
    requires Enabled(y, a)
  {
    match a
    case Move(after) => Moved(y, after)
    case Join(id) => With(y, id, Stream(0, [], true, Looking))
    case Look(id) => With(y, id, Looked(y.session, y.streams[id]))
    case WriteOne(id) => With(y, id, WroteOne(y.streams[id]))
    case Written(id) => With(y, id, WroteAll(y.streams[id]))
    case Notified(id) => With(y, id, y.streams[id].(phase := Looking)).(token := false)
    case Beat(id) => With(y, id, y.streams[id].(written := y.streams[id].written + [Heartbeat], phase := Looking))
    case StartExpires(id, now) =>
      With(Moved(y, Expired(y.session, now)), id, y.streams[id].(armed := false, phase := Looking))
    case Leave(id) => With(y, id, y.streams[id].(phase := Over(false)))
  }

  function After(run: seq<Action>): Option<Server> {
    if run == [] then Some(INITIAL)
    else
      match After(run[..|run| - 1])
      case None => None
      case Some(y) => if Enabled(y, run[|run| - 1]) then Some(Step(y, run[|run| - 1])) else None
  }

  // ---- What a stream has written ----

  function DataOf(written: seq<Frame>): seq<Event> {
    if written == [] then []
    else
      var rest := DataOf(written[..|written| - 1]);
      if written[|written| - 1].Data? then rest + [written[|written| - 1].event] else rest
  }

  lemma DataSnoc(written: seq<Frame>, f: Frame)
    ensures DataOf(written + [f]) == if f.Data? then DataOf(written) + [f.event] else DataOf(written)
  {
    assert (written + [f])[..|written|] == written;
  }

  predicate Open(written: seq<Frame>) { forall f :: f in written ==> !f.End? }

  ghost predicate StreamKept(s: Session, st: Stream) {
    && st.cursor <= |s.events|
    && match st.phase
       case Over(true) =>
         && s.Done() && st.written != [] && st.written[|st.written| - 1] == End(s.ending.value)
         && Open(st.written[..|st.written| - 1]) && DataOf(st.written) == s.events
       case Writing(unseen, terminal) =>
         && Open(st.written) && DataOf(st.written) == s.events[..st.cursor]
         && st.cursor + |unseen| <= |s.events| && unseen == s.events[st.cursor..st.cursor + |unseen|]
         && (terminal.Some? ==> s.ending == terminal && st.cursor + |unseen| == |s.events|)
       case _ => Open(st.written) && DataOf(st.written) == s.events[..st.cursor]
  }

  lemma KeptLooked(s: Session, st: Stream)
    requires StreamKept(s, st) && st.phase.Looking?
    ensures StreamKept(s, Looked(s, st))
  {
  }

  lemma KeptWroteOne(s: Session, st: Stream)
    requires StreamKept(s, st) && st.phase.Writing? && st.phase.unseen != []
    ensures StreamKept(s, WroteOne(st))
  {
    DataSnoc(st.written, Data(st.phase.unseen[0]));
  }

  lemma KeptWroteAll(s: Session, st: Stream)
    requires StreamKept(s, st) && st.phase.Writing? && st.phase.unseen == []
    ensures StreamKept(s, WroteAll(st))
  {
    if st.phase.terminal.Some? {
      DataSnoc(st.written, End(st.phase.terminal.value));
      assert (st.written + [End(st.phase.terminal.value)])[..|st.written|] == st.written;
    }
  }

  lemma KeptMoved(s: Session, after: Session, st: Stream)
    requires StreamKept(s, st) && SessionRuns.Evolves(s, after)
    ensures StreamKept(after, st)
  {
    assert s.events == after.events[..|s.events|];
  }

  lemma KeptBeat(s: Session, st: Stream)
    requires StreamKept(s, st) && st.phase.Waiting?
    ensures StreamKept(s, st.(written := st.written + [Heartbeat], phase := Looking))
  {
    DataSnoc(st.written, Heartbeat);
  }

  ghost predicate Kept(y: Server) { forall id :: id in y.streams ==> StreamKept(y.session, y.streams[id]) }

  lemma KeptStep(y: Server, a: Action)
    requires Kept(y) && Enabled(y, a)
    ensures Kept(Step(y, a))
  {
    hide StreamKept, Looked, WroteOne, WroteAll, SessionRuns.Evolves;
    match a
    case Move(after) => forall id | id in y.streams { KeptMoved(y.session, after, y.streams[id]); }
    case Join(id) => KeptFresh(y.session);
    case Look(id) => KeptLooked(y.session, y.streams[id]);
    case WriteOne(id) => KeptWroteOne(y.session, y.streams[id]);
    case Written(id) => KeptWroteAll(y.session, y.streams[id]);
    case Notified(id) => KeptOn(y.session, y.streams[id], false, Looking);
    case Beat(id) => KeptBeat(y.session, y.streams[id]);
    case StartExpires(id, now) =>
      ExpiryEvolves(y.session, now);
      forall i | i in y.streams { KeptMoved(y.session, Expired(y.session, now), y.streams[i]); }
      KeptOn(Expired(y.session, now), y.streams[id], true, Looking);
    case Leave(id) => KeptOn(y.session, y.streams[id], false, Over(false));
  }

  lemma KeptFresh(s: Session)
    ensures StreamKept(s, Stream(0, [], true, Looking))
  {
  }

  lemma KeptOn(s: Session, st: Stream, disarm: bool, phase: Phase)
    requires StreamKept(s, st) && st.phase != Over(true) && phase in {Looking, Over(false)}
    ensures StreamKept(s, st.(phase := phase, armed := st.armed && !disarm))
  {
  }

  lemma ExpiryEvolves(s: Session, now: nat)
    ensures SessionRuns.Evolves(s, Expired(s, now))
  {
  }

  lemma {:induction false} KeptAlways(run: seq<Action>)
    requires After(run).Some?
    ensures Kept(After(run).value)
  {
    hide Kept, Step;
    if run == [] {
      assert Kept(INITIAL) by { assert INITIAL.streams == map[]; KeptNone(INITIAL); }
    } else {
      KeptAlways(run[..|run| - 1]);
      KeptStep(After(run[..|run| - 1]).value, run[|run| - 1]);
    }
  }

  lemma KeptNone(y: Server)
    requires y.streams == map[]
    ensures Kept(y)
  {
  }

  ghost predicate Reachable(y: Server) { exists run :: After(run) == Some(y) }

  // ---- Exact replay ----

  /**
   A stream that reached its end wrote the whole log in order, each event once, and then the end of the session. So any
   two such streams of a session differ in heartbeats only.
   */
  lemma ReplayIsExact(y: Server, id: nat, other: nat)
    requires Reachable(y)
    requires id in y.streams && y.streams[id].phase == Over(true)
    requires other in y.streams && y.streams[other].phase == Over(true)
    ensures var w := y.streams[id].written;
            && y.session.Done() && w != [] && w[|w| - 1] == End(y.session.ending.value) && Open(w[..|w| - 1])
            && DataOf(w) == y.session.events == DataOf(y.streams[other].written)
            && y.streams[other].written != [] && y.streams[other].written[|y.streams[other].written| - 1] == w[|w| - 1]
  {
    hide After;
    var run :| After(run) == Some(y);
    KeptAlways(run);
    assert StreamKept(y.session, y.streams[id]) && StreamKept(y.session, y.streams[other]);
  }

  /** A stream is broken off only if its client left. */
  lemma {:induction false} BrokenOffByLeaving(run: seq<Action>, id: nat)
    requires After(run).Some?
    requires id in After(run).value.streams && After(run).value.streams[id].phase == Over(false)
    ensures Leave(id) in run
  {
    hide SessionRuns.Evolves;
    if run != [] {
      var before, a := run[..|run| - 1], run[|run| - 1];
      assert run == before + [a];
      if id in After(before).value.streams && After(before).value.streams[id].phase == Over(false) {
        BrokenOffByLeaving(before, id);
      }
    }
  }

  function Heartbeats(written: seq<Frame>): nat {
    if written == [] then 0
    else Heartbeats(written[..|written| - 1]) + if written[|written| - 1].Heartbeat? then 1 else 0
  }

  function Beats(run: seq<Action>, id: nat): nat {
    if run == [] then 0 else Beats(run[..|run| - 1], id) + if run[|run| - 1] == Beat(id) then 1 else 0
  }

  lemma HeartbeatsSnoc(written: seq<Frame>, f: Frame)
    ensures Heartbeats(written + [f]) == Heartbeats(written) + if f.Heartbeat? then 1 else 0
  {
    assert (written + [f])[..|written|] == written;
  }

  /** A stream writes one heartbeat frame for each time its heartbeat is due while it waits, and no other. */
  lemma {:induction false} HeartbeatsAreBeats(run: seq<Action>, id: nat)
    requires After(run).Some?
    ensures var y := After(run).value;
            Beats(run, id) == if id in y.streams then Heartbeats(y.streams[id].written) else 0
  {
    hide SessionRuns.Evolves, Heartbeats;
    if run == [] {
    } else {
      var before, a := run[..|run| - 1], run[|run| - 1];
      HeartbeatsAreBeats(before, id);
      var y := After(before).value;
      NoHeartbeats();
      if id in y.streams {
        var st := y.streams[id];
        HeartbeatsSnoc(st.written, Heartbeat);
        if st.phase.Writing? && st.phase.unseen != [] {
          HeartbeatsSnoc(st.written, Data(st.phase.unseen[0]));
        }
        if st.phase.Writing? && st.phase.terminal.Some? {
          HeartbeatsSnoc(st.written, End(st.phase.terminal.value));
        }
      }
    }
  }

  lemma NoHeartbeats()
    ensures Heartbeats([]) == 0
  {
  }

  /** The steps that a stream takes itself, after which it has looked, written and ended; a heartbeat ends its wait. */
  predicate OwnSteps(steps: seq<Action>, id: nat) {
    forall a :: a in steps ==> a in {Beat(id), Look(id), WriteOne(id), Written(id)}
  }

  lemma OwnSnoc(run: seq<Action>, y: Server, steps: seq<Action>, id: nat, a: Action)
    requires After(run + steps) == Some(y) && Enabled(y, a)
    requires OwnSteps(steps, id) && a in {Beat(id), Look(id), WriteOne(id), Written(id)}
    ensures OwnSteps(steps + [a], id) && After(run + (steps + [a])) == Some(Step(y, a))
  {
    hide After;
    assert run + (steps + [a]) == run + steps + [a];
    AfterOne(run + steps, y, a);
  }

  /** Whatever a stream was doing when its session ended, it goes on by itself to the end frame of that session. */
  lemma ReachesEnd(run: seq<Action>, id: nat) returns (steps: seq<Action>)
    requires After(run).Some?
    requires var y := After(run).value; y.session.Done() && id in y.streams && !y.streams[id].phase.Over?
    ensures OwnSteps(steps, id) && After(run + steps).Some?
    ensures var y, z := After(run).value, After(run + steps).value;
            && z.session == y.session && id in z.streams && z.streams[id].phase == Over(true)
            && z.streams[id].written != []
            && z.streams[id].written[|z.streams[id].written| - 1] == End(y.session.ending.value)
  {
    hide After;
    var y := After(run).value;
    steps := [];
    assert run + [] == run;
    KeptAlways(run);
    steps, y := WritesOn(run, y, steps, id);
    if y.streams[id].phase.Waiting? {
      OwnSnoc(run, y, steps, id, Beat(id));
      steps, y := steps + [Beat(id)], Step(y, Beat(id));
      KeptAlways(run + steps);
    }
    if y.streams[id].phase.Looking? {
      OwnSnoc(run, y, steps, id, Look(id));
      steps, y := steps + [Look(id)], Step(y, Look(id));
      KeptAlways(run + steps);
      steps, y := WritesOn(run, y, steps, id);
    }
    KeptAlways(run + steps);
    assert StreamKept(y.session, y.streams[id]);
  }

  /** A stream that is writing writes on to the end of what it saw. */
  lemma WritesOn(run: seq<Action>, y0: Server, steps0: seq<Action>, id: nat) returns (steps: seq<Action>, y: Server)
    requires After(run + steps0) == Some(y0) && OwnSteps(steps0, id) && id in y0.streams
    ensures After(run + steps) == Some(y) && OwnSteps(steps, id) && id in y.streams && y.session == y0.session
    ensures var before, after := y0.streams[id].phase, y.streams[id].phase;
            if !before.Writing? then after == before
            else if before.terminal.Some? then after == Over(true) else after == Waiting
  {
    hide After;
    steps, y := steps0, y0;
    if y.streams[id].phase.Writing? {
      while y.streams[id].phase.unseen != []
        invariant After(run + steps) == Some(y) && OwnSteps(steps, id) && id in y.streams && y.session == y0.session
        invariant y.streams[id].phase.Writing? && y.streams[id].phase.terminal == y0.streams[id].phase.terminal
        decreases |y.streams[id].phase.unseen|
      {
        OwnSnoc(run, y, steps, id, WriteOne(id));
        steps, y := steps + [WriteOne(id)], Step(y, WriteOne(id));
      }
      OwnSnoc(run, y, steps, id, Written(id));
      steps, y := steps + [Written(id)], Step(y, Written(id));
    }
  }

  /** How frames are encoded as payloads. */
  datatype Encoding = Encoding(event: Event -> Bytes, heartbeat: Bytes, end: Ending -> Bytes)

  function Message(f: Frame, e: Encoding): Connect.Message {
    match f
    case Data(event) => Connect.Message(Connect.DATA, e.event(event))
    case Heartbeat => Connect.Message(Connect.DATA, e.heartbeat)
    case End(ending) => Connect.Message(Connect.END, e.end(ending))
  }

  function Messages(fs: seq<Frame>, e: Encoding): seq<Connect.Message> {
    if fs == [] then [] else Messages(fs[..|fs| - 1], e) + [Message(fs[|fs| - 1], e)]
  }

  /** What a client keeps of the messages: all but the heartbeats. */
  function WithoutHeartbeats(ms: seq<Connect.Message>, e: Encoding): seq<Connect.Message> {
    if ms == [] then []
    else
      var rest := WithoutHeartbeats(ms[..|ms| - 1], e);
      if ms[|ms| - 1] == Connect.Message(Connect.DATA, e.heartbeat) then rest else rest + [ms[|ms| - 1]]
  }

  function Payloads(events: seq<Event>, e: Encoding): seq<Connect.Message> {
    seq(|events|, i requires 0 <= i < |events| => Connect.Message(Connect.DATA, e.event(events[i])))
  }

  lemma {:induction false} HeartbeatsDrop(fs: seq<Frame>, e: Encoding)
    requires Open(fs) && forall f :: f in fs && f.Data? ==> e.event(f.event) != e.heartbeat
    ensures WithoutHeartbeats(Messages(fs, e), e) == Payloads(DataOf(fs), e)
  {
    if fs != [] {
      var last, rest := fs[|fs| - 1], fs[..|fs| - 1];
      HeartbeatsDrop(rest, e);
      MessagesLength(rest, e);
      assert last in fs && (Messages(rest, e) + [Message(last, e)])[..|rest|] == Messages(rest, e);
    }
  }

  lemma {:induction false} MessagesLength(fs: seq<Frame>, e: Encoding)
    ensures |Messages(fs, e)| == |fs|
    ensures forall m :: m in Messages(fs, e) ==> exists f :: f in fs && m == Message(f, e)
  {
    if fs != [] {
      MessagesLength(fs[..|fs| - 1], e);
      assert fs[|fs| - 1] in fs;
    }
  }

  /**
   On the wire: reading the bytes of a finished stream and dropping heartbeats yields the log, then the end, and no
   more.
   */
  lemma ReplayDecodes(y: Server, id: nat, e: Encoding, maxMessageBytes: int)
    requires Reachable(y) && id in y.streams && y.streams[id].phase == Over(true)
    requires 0 < maxMessageBytes && forall f :: f in y.streams[id].written ==>
               Connect.Sendable(Message(f, e), maxMessageBytes)
    requires forall event :: event in y.session.events ==> e.event(event) != e.heartbeat
    ensures var bytes := Connect.EncodeAll(Messages(y.streams[id].written, e));
            var (ms, stopped) := Connect.ReadAll(bytes, maxMessageBytes);
            && stopped.EndOfStream? && y.session.Done()
            && WithoutHeartbeats(ms, e) ==
               Payloads(y.session.events, e) + [Connect.Message(Connect.END, e.end(y.session.ending.value))]
  {
    hide After, Connect.Sendable, Connect.ReadAll, Connect.EncodeAll, Reachable, Message;
    ReplayIsExact(y, id, id);
    var w := y.streams[id].written;
    var front := w[..|w| - 1];
    MessagesLength(w, e);
    Connect.ReadInvertsWrite(Messages(w, e), maxMessageBytes);
    ReplayedMessages(w, y.session, e);
  }

  lemma ReplayedMessages(w: seq<Frame>, s: Session, e: Encoding)
    requires s.Done() && w != [] && w[|w| - 1] == End(s.ending.value) && Open(w[..|w| - 1]) && DataOf(w) == s.events
    requires forall event :: event in s.events ==> e.event(event) != e.heartbeat
    ensures WithoutHeartbeats(Messages(w, e), e) ==
            Payloads(s.events, e) + [Connect.Message(Connect.END, e.end(s.ending.value))]
  {
    var front := w[..|w| - 1];
    assert DataOf(front) == s.events;
    DataFound(front);
    HeartbeatsDrop(front, e);
    MessagesLength(front, e);
    assert (Messages(front, e) + [Message(w[|w| - 1], e)])[..|front|] == Messages(front, e);
  }

  lemma {:induction false} DataFound(fs: seq<Frame>)
    ensures forall f :: f in fs && f.Data? ==> f.event in DataOf(fs)
  {
    if fs != [] {
      DataFound(fs[..|fs| - 1]);
    }
  }

  // ---- No lost wake-up ----

  /** Whether a stream has yet to be told of something: events, the end, or that the run has started. */
  predicate Behind(s: Session, seen: nat, sawEnd: bool, armed: bool) {
    seen < |s.events| || (s.Done() && !sawEnd) || (armed && s.run.Some?)
  }

  /** What a waiting stream, or one that is still writing what it saw, will not see without looking again. */
  predicate Missing(s: Session, st: Stream) {
    match st.phase
    case Waiting => Behind(s, st.cursor, false, st.armed)
    case Writing(unseen, terminal) => Behind(s, st.cursor + |unseen|, terminal.Some?, st.armed)
    case _ => false
  }

  predicate Alone(y: Server) {
    forall i, j :: i in y.streams && j in y.streams && !y.streams[i].phase.Over? && !y.streams[j].phase.Over? ==> i == j
  }

  predicate Tokened(y: Server) { forall id :: id in y.streams && Missing(y.session, y.streams[id]) ==> y.token }

  lemma TokenedStep(y: Server, a: Action)
    requires Kept(y) && Tokened(y) && Alone(y) && Enabled(y, a)
    ensures Tokened(Step(y, a))
  {
    match a
    case Move(after) => TokenedMove(y, after);
    case StartExpires(_, now) =>
      ExpiryEvolves(y.session, now);
      TokenedMove(y, Expired(y.session, now));
    case Look(id) => assert StreamKept(y.session, y.streams[id]);
    case _ =>
  }

  lemma TokenedMove(y: Server, after: Session)
    requires Tokened(y) && SessionRuns.Evolves(y.session, after)
    ensures Tokened(Moved(y, after))
  {
    forall id | id in y.streams && Missing(after, y.streams[id])
      ensures y.token || Signals(y.session, after)
    {
      if !Signals(y.session, after) {
        assert Missing(y.session, y.streams[id]);
      }
    }
  }

  /** Every state of the run has one live stream at most. */
  predicate AlwaysAlone(run: seq<Action>)
    requires After(run).Some?
  {
    Alone(After(run).value) && (run != [] ==> AlwaysAlone(run[..|run| - 1]))
  }

  lemma {:induction false} TokenedAlways(run: seq<Action>)
    requires After(run).Some? && AlwaysAlone(run)
    ensures Tokened(After(run).value)
  {
    hide Step, Tokened, Alone;
    if run == [] {
      TokenedNone(INITIAL);
    } else {
      var before := run[..|run| - 1];
      TokenedAlways(before);
      KeptAlways(before);
      TokenedStep(After(before).value, run[|run| - 1]);
    }
  }

  lemma TokenedNone(y: Server)
    requires y.streams == map[]
    ensures Tokened(y)
  {
  }

  /**
   No lost wake-up: while a session has had at most one live stream at a time, a stream that waits although there is
   something for it to see finds a token. So it can go on at once, and the next snapshot shows it everything.
   */
  lemma NoLostWakeUp(run: seq<Action>, id: nat)
    requires After(run).Some? && AlwaysAlone(run)
    requires var y := After(run).value; id in y.streams && y.streams[id].phase.Waiting?
    requires var y := After(run).value; y.streams[id].cursor < |y.session.events| || y.session.Done()
    ensures Enabled(After(run).value, Notified(id))
    ensures var y := After(run).value; var looked := Looked(y.session, y.streams[id]);
            && y.streams[id].cursor <= |y.session.events|
            && y.session.events[..y.streams[id].cursor] + looked.phase.unseen == y.session.events
            && looked.phase.terminal == y.session.ending
    ensures var y := After(run).value; var notified := Step(y, Notified(id));
            && Enabled(notified, Look(id)) && !notified.token
            && Step(notified, Look(id)).streams[id] == Looked(y.session, y.streams[id])
  {
    hide After, AlwaysAlone;
    TokenedAlways(run);
    KeptAlways(run);
    var y := After(run).value;
    assert StreamKept(y.session, y.streams[id]);
    assert Missing(y.session, y.streams[id]);
  }

  // ---- The start timer ----

  /** The stream has looked at the session after its run was set. */
  predicate Noticed(run: seq<Action>, id: nat) {
    exists i :: 0 <= i < |run| && run[i] == Look(id) && After(run[..i]).Some? && After(run[..i]).value.session.run.Some?
  }

  predicate TimerFired(run: seq<Action>, id: nat) {
    exists i :: 0 <= i < |run| && run[i].StartExpires? && run[i].id == id
  }

  lemma NoticedSnoc(run: seq<Action>, a: Action, id: nat)
    requires After(run).Some?
    ensures Noticed(run + [a], id) <==> Noticed(run, id) || (a == Look(id) && After(run).value.session.run.Some?)
    ensures TimerFired(run + [a], id) <==> TimerFired(run, id) || (a.StartExpires? && a.id == id)
  {
    hide After;
    var longer := run + [a];
    assert longer[..|run|] == run && longer[|run|] == a;
    forall i | 0 <= i < |run| ensures longer[..i] == run[..i] && longer[i] == run[i] {}
  }

  /** The start timer of a stream is off exactly when the stream has noticed the run or the timer has fired. */
  lemma {:induction false} ArmedAlways(run: seq<Action>, id: nat)
    requires After(run).Some?
    ensures id !in After(run).value.streams ==> !Noticed(run, id) && !TimerFired(run, id)
    ensures id in After(run).value.streams ==>
              (After(run).value.streams[id].armed <==> !Noticed(run, id) && !TimerFired(run, id))
    ensures TimerFired(run, id) ==> After(run).value.session.Done()
  {
    hide Noticed, TimerFired, SessionRuns.Evolves;
    if run == [] {
      NothingNoticed(id);
    } else {
      var before, a := run[..|run| - 1], run[|run| - 1];
      ArmedAlways(before, id);
      assert before + [a] == run;
      NoticedSnoc(before, a, id);
      DoneStays(After(before).value, a);
    }
  }

  lemma NothingNoticed(id: nat)
    ensures !Noticed([], id) && !TimerFired([], id)
  {
  }

  lemma DoneStays(y: Server, a: Action)
    requires Enabled(y, a)
    ensures y.session.Done() ==> Step(y, a).session.Done()
    ensures a.StartExpires? ==> Step(y, a).session.Done()
  {
  }

  /** The start timer of this stream can end the session now, and it does so as if no run had been appended. */
  predicate TimerEnds(y: Server, id: nat, now: nat) {
    && Enabled(y, StartExpires(id, now)) && !y.session.Done()
    && Step(y, StartExpires(id, now)).session.ending == Some(Ending("invalid_argument", NOT_APPENDED, now))
  }

  /**
   The start timer of a waiting stream can end a session, started or not, exactly when that has not ended and the stream
   has not looked at it since its run was set.
   */
  lemma StartTimerRace(run: seq<Action>, id: nat, now: nat)
    requires After(run).Some?
    requires var y := After(run).value; id in y.streams && y.streams[id].phase.Waiting?
    ensures var y := After(run).value; TimerEnds(y, id, now) <==> !y.session.Done() && !Noticed(run, id)
  {
    hide After, Noticed, TimerFired;
    ArmedAlways(run, id);
  }

  /** With one live stream the token of the start is then still unread. */
  lemma AloneRaceLeavesToken(run: seq<Action>, id: nat, now: nat)
    requires After(run).Some? && AlwaysAlone(run) && Enabled(After(run).value, StartExpires(id, now))
    ensures After(run).value.session.run.Some? ==> After(run).value.token
  {
    hide AlwaysAlone;
    TokenedAlways(run);
    var y := After(run).value;
    assert Tokened(y);
    if y.session.run.Some? {
      assert Missing(y.session, y.streams[id]);
    }
  }

  lemma AfterOne(run: seq<Action>, y: Server, a: Action)
    requires After(run) == Some(y) && Enabled(y, a)
    ensures After(run + [a]) == Some(Step(y, a))
  {
    assert (run + [a])[..|run|] == run;
  }

  const READY := Stream(0, [], true, Waiting)

  /** A stream joins a session in which nothing has happened yet, and waits. */
  lemma JoinsAndWaits(run: seq<Action>, y: Server, id: nat) returns (after: seq<Action>)
    requires After(run) == Some(y) && y.session == FRESH && id !in y.streams
    ensures after == run + [Join(id), Look(id), Written(id)]
    ensures After(after) == Some(y.(streams := y.streams[id := READY]))
  {
    hide After;
    AfterOne(run, y, Join(id));
    var y1 := Step(y, Join(id));
    AfterOne(run + [Join(id)], y1, Look(id));
    var y2 := Step(y1, Look(id));
    AfterOne(run + [Join(id)] + [Look(id)], y2, Written(id));
    after := run + [Join(id)] + [Look(id)] + [Written(id)];
    assert Step(y2, Written(id)).streams == y.streams[id := READY];
  }

  lemma EmptyRun()
    ensures After([]) == Some(INITIAL)
  {
  }

  /** It happens: the run starts while the stream waits, and the timer is taken before the token. */
  lemma StartedSessionTimesOut(request: RunRequest, now: nat) returns (run: seq<Action>)
    ensures Start(FRESH, request).1 == Begun
    ensures After(run).Some? && After(run).value.token && After(run).value.session == Start(FRESH, request).0
    ensures TimerEnds(After(run).value, 0, now)
  {
    hide After;
    EmptyRun();
    run := JoinsAndWaits([], INITIAL, 0);
    var y := INITIAL.(streams := INITIAL.streams[0 := READY]);
    AfterOne(run, y, Move(Start(FRESH, request).0));
    run := run + [Move(Start(FRESH, request).0)];
  }

  /** With two streams also after the token is gone: the first has taken it, and the timer of the second is taken. */
  lemma TokenTakenTimesOut(request: RunRequest, now: nat) returns (run: seq<Action>)
    ensures After(run).Some? && !After(run).value.token && After(run).value.session == Start(FRESH, request).0
    ensures TimerEnds(After(run).value, 1, now)
  {
    hide After;
    EmptyRun();
    run := JoinsAndWaits([], INITIAL, 0);
    var y := INITIAL.(streams := INITIAL.streams[0 := READY]);
    run := JoinsAndWaits(run, y, 1);
    y := y.(streams := y.streams[1 := READY]);
    AfterOne(run, y, Move(Start(FRESH, request).0));
    run, y := run + [Move(Start(FRESH, request).0)], Step(y, Move(Start(FRESH, request).0));
    AfterOne(run, y, Notified(0));
    run := run + [Notified(0)];
  }
}
