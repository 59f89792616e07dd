/**
 One agent session as a value: what each critical section of agentSession does to it.
 A tool number names one opened call: it stands for the pendingTool object and for the result channel the call
 was opened with. A client result finds its call by searching for the transport IDs; module SessionObject shows
 that the object with its two pending indexes behaves like this value.
 */
module SessionModel {
  import opened Common
  import opened ShellOutput
  import TextEdit
  import Utf8

  /** A uint32 message ID; 0 in a client message means that it carries none. */
  type MessageID = x: int | 0 <= x < 0x1_0000_0000

  /** What a client result says it answers; "" means that it carries no exec ID. */
  datatype Identity = Identity(messageID: MessageID, execID: string)

  datatype McpTool = McpTool(name: string, description: Bytes, provider: string, toolName: string, schema: Bytes)

  datatype RunRequest = RunRequest(
    conversationID: string, modelID: string, userText: Bytes, userMessageID: string,
    metadataOnly: bool, toolsPresent: bool, tools: seq<McpTool>)

  /** Tool arguments after JSON decoding; TextArgs are those this model does not look into. */
  datatype Arguments =
    | EditArgs(edit: TextEdit.EditArguments)
    | WriteArgs(path: Bytes, contents: Bytes)
    | TextArgs(text: Bytes)

  /** A tool name, sorted by the built-in names it may equal; McpCall is the name MCP calls travel under. */
  datatype ToolName = Read | Edit | Shell | Write | Delete | List | Grep | Glob | Named(name: string) | McpCall

  datatype ToolRequest = ToolRequest(
    messageID: MessageID, execID: string, callID: string, name: ToolName, arguments: Arguments)

  datatype ToolKind = ReadTool | EditTool | ShellTool | FileTool | DynamicTool

  function KindOf(name: ToolName): ToolKind {
    match name
    case Read => ReadTool
    case Edit => EditTool
    case Shell => ShellTool
    case Write | Delete | List | Grep | Glob => FileTool
    case Named(_) | McpCall => DynamicTool
  }

  datatype EditPhase = NoPhase | ReadPhase | WritePhase

  /** One opened call: what was asked for, and what the client is working on now. */
  datatype Pending = Pending(request: ToolRequest, transport: ToolRequest, capture: Capture, phase: EditPhase)

  datatype ShellPiece = Chunk(delta: Delta) | ShellStart | ShellExit(code: nat)

  /** An entry of the event log. The tool numbers are bookkeeping of this model; the frames carry the IDs. */
  datatype Event =
    | Update(payload: Bytes)
    | Dispatch(tool: nat, request: ToolRequest)
    | Started(tool: nat, callID: string)
    | Progress(tool: nat, piece: ShellPiece)
    | Completed(tool: nat, callID: string)
    | StateQuery(messageID: MessageID, execID: string)
    | Closing(payload: Bytes)

  datatype Discovery = Discovery(messageID: MessageID, execID: string)

  /** The error code, message and time of the end, set together with done. */
  datatype Ending = Ending(code: string, message: string, at: nat)

  datatype Session = Session(
    run: Option<RunRequest>, ending: Option<Ending>, events: seq<Event>,
    pending: map<nat, Pending>, discovery: Option<Discovery>, discovered: seq<McpTool>)
  {
    predicate Done() { ending.Some? }
  }

  const FRESH := Session(None, None, [], map[], None, [])

  // ---- Client results, after wire decoding: each optional part is what that decoder returns, None if it fails. ----

  datatype ReadOutcome = ReadOk(content: Bytes) | ReadFailed(detail: Bytes)

  datatype ShellEvent = Output(delta: Delta) | Launched | Exited(code: nat) | Ended(text: Bytes, isError: bool)

  datatype PlainOutcome = PlainOutcome(content: Bytes, isError: bool)

  datatype StateOutcome = StateOk(tools: seq<McpTool>) | StateFailed

  /** encodes says whether the completion event for this result can be encoded. */
  datatype ExecMessage = ExecMessage(
    identity: Identity, read: Option<ReadOutcome>, shell: Option<ShellEvent>,
    plain: map<ToolName, PlainOutcome>, state: Option<StateOutcome>, encodes: bool)

  datatype Content =
    | Text(text: Bytes)
    | ReadFailure(detail: Bytes)
    | EditUnreadable(detail: Bytes)
    | EditInapplicable
    | ShellReport(code: nat, stdout: Bytes, stderr: Bytes, truncated: bool)

  datatype ToolResult = ToolResult(callID: string, content: Content, isError: bool)

  /**
   Refused: an error is returned. Absorbed, Heard and Redirected: taken, but the call goes on. Heard tells which
   shell output was taken, Redirected from which read an Edit went on to its Write. Delivers and DeliversState hand a
   result on after unlocking.
   */
  datatype Applied =
    | Refused
    | Absorbed
    | Heard(tool: nat, delta: Delta)
    | Redirected(tool: nat, read: Bytes)
    | Delivers(tool: nat, result: ToolResult)
    | DeliversState(state: StateOutcome)

  // ---- Start, publish, finish ----

  datatype StartOutcome = Begun | Repeated | Conflict | TooLate

  function Start(s: Session, run: RunRequest): (Session, StartOutcome) {
    if s.run.Some? then (s, if s.run.value == run then Repeated else Conflict)
    else if s.Done() then (s, TooLate)
    else (s.(run := Some(run)), Begun)
  }

  function Publish(s: Session, payload: Bytes, cancelled: bool): (Session, bool) {
    if s.Done() || cancelled then (s, false) else (s.(events := s.events + [Update(payload)]), true)
  }

  /**
   Whether a critical section puts a token into the notify channel: it does whenever a streamer has something to see.
   */
  predicate Signals(before: Session, after: Session) {
    before.events != after.events || before.ending != after.ending || before.run != after.run
  }

  function Finish(s: Session, payload: Bytes, code: string, message: string, now: nat): Session {
    if s.Done() then s
    else s.(ending := Some(Ending(code, message, now)), pending := map[], discovery := None,
            events := if payload == [] then s.events else s.events + [Closing(payload)])
  }

  // ---- Opening a tool call ----

  datatype Opening = Opening(tool: nat, callID: string, name: ToolName, arguments: Arguments)

  function FindTool(tools: seq<McpTool>, name: ToolName): Option<McpTool> {
    if tools == [] then None else if Named(tools[0].name) == name then Some(tools[0]) else FindTool(tools[1..], name)
  }

  function EffectiveTools(s: Session): seq<McpTool> {
    (if s.run.Some? then s.run.value.tools else []) + s.discovered
  }

  /** DecodeEditArguments refuses an empty old_string. */
  predicate DecodesAsEdit(a: Arguments) {
    a.EditArgs? && a.edit.oldString != []
  }

  /** encodes says whether the dispatch events can be encoded. */
  predicate CanOpen(s: Session, o: Opening, encodes: bool) {
    && !s.Done()
    && encodes
    && (KindOf(o.name).EditTool? ==> DecodesAsEdit(o.arguments))
    && (KindOf(o.name).DynamicTool? ==> FindTool(EffectiveTools(s), o.name).Some?)
  }

  function OpenedTool(o: Opening, messageID: MessageID, execID: string): Pending {
    var request := ToolRequest(messageID, execID, o.callID, o.name, o.arguments);
    var transport := if KindOf(o.name).DynamicTool? then request.(name := McpCall) else request;
    Pending(request, transport, EMPTY, if KindOf(o.name).EditTool? then ReadPhase else NoPhase)
  }

  function Open(s: Session, o: Opening, messageID: MessageID, execID: string, encodes: bool): (Session, bool) {
    if !CanOpen(s, o, encodes) then (s, false)
    else
      var p := OpenedTool(o, messageID, execID);
      (s.(pending := s.pending[o.tool := p],
          events := s.events + [Dispatch(o.tool, p.transport), Started(o.tool, o.callID)]), true)
  }

  // ---- Applying a client result ----

  predicate IdentityMatches(id: Identity, messageID: MessageID, execID: string) {
    if id.execID != "" then id.execID == execID && (id.messageID == 0 || id.messageID == messageID)
    else id.messageID != 0 && id.messageID == messageID
  }

  /** A result that names the pending MCP query. */
  predicate AnswersQuery(s: Session, id: Identity) {
    s.discovery.Some? && IdentityMatches(id, s.discovery.value.messageID, s.discovery.value.execID)
  }

  /** DecodeToolResult compares the IDs that are present with those of the transport request. */
  predicate AcceptsIdentity(id: Identity, transport: ToolRequest) {
    && (id.messageID == 0 || id.messageID == transport.messageID)
    && (id.execID == "" || id.execID == transport.execID)
  }

  ghost predicate UnderExec(pending: map<nat, Pending>, t: nat, execID: string) {
    t in pending && pending[t].transport.execID == execID
  }

  ghost predicate UnderMessage(pending: map<nat, Pending>, t: nat, messageID: MessageID) {
    t in pending && pending[t].transport.messageID == messageID
  }

  ghost function ByExec(pending: map<nat, Pending>, execID: string): (r: Option<nat>)
    ensures r.Some? ==> UnderExec(pending, r.value, execID)
    ensures r.None? ==> forall t :: !UnderExec(pending, t, execID)
  {
    if exists t :: UnderExec(pending, t, execID) then
      var t :| UnderExec(pending, t, execID);
      Some(t)
    else None
  }

  ghost function ByMessage(pending: map<nat, Pending>, messageID: MessageID): (r: Option<nat>)
    ensures r.Some? ==> UnderMessage(pending, r.value, messageID)
    ensures r.None? ==> forall t :: !UnderMessage(pending, t, messageID)
  {
    if exists t :: UnderMessage(pending, t, messageID) then
      var t :| UnderMessage(pending, t, messageID);
      Some(t)
    else None
  }

  /** The exec ID is tried first, then the message ID. */
  ghost function Lookup(pending: map<nat, Pending>, id: Identity): (r: Option<nat>)
    ensures r.Some? ==> r.value in pending
  {
    if id.execID != "" && ByExec(pending, id.execID).Some? then ByExec(pending, id.execID)
    else if id.messageID != 0 then ByMessage(pending, id.messageID)
    else None
  }

  function Complete(s: Session, t: nat, content: Content, isError: bool): (Session, Applied)
    requires t in s.pending
  {
    var callID := s.pending[t].request.callID;
    (s.(pending := s.pending - {t}, events := s.events + [Completed(t, callID)]),
     Delivers(t, ToolResult(callID, content, isError)))
  }

  /** The contents of the Write that follows a successful Edit read: they pass through the JSON encoder. */
  function WriteContents(a: TextEdit.EditArguments, content: Bytes): Option<Bytes>
    requires a.oldString != []
  {
    match TextEdit.ApplyEdit(a, content)
    case None => None
    case Some(updated) => Some(Utf8.JsonCoerce(updated))
  }

  /**
   The client is asked to write exactly the edited text when that text is valid UTF-8, and something else otherwise.
   Valid arguments, as JSON decoding makes them, keep valid content valid.
   */
  lemma WriteIsTheEdit(a: TextEdit.EditArguments, content: Bytes)
    requires a.oldString != []
    ensures WriteContents(a, content).Some? <==> TextEdit.ApplyEdit(a, content).Some?
    ensures WriteContents(a, content).Some? ==>
              (WriteContents(a, content) == TextEdit.ApplyEdit(a, content) <==>
                Utf8.Valid(TextEdit.ApplyEdit(a, content).value))
    ensures Utf8.Valid(content) && Utf8.Valid(a.oldString) && Utf8.Valid(a.newString) ==>
              WriteContents(a, content) == TextEdit.ApplyEdit(a, content)
  {
    match TextEdit.ApplyEdit(a, content)
    case None =>
    case Some(updated) =>
      Utf8.RepairIdentity(updated);
      if Utf8.Valid(content) && Utf8.Valid(a.oldString) && Utf8.Valid(a.newString) {
        TextEdit.ReplaceValid(content, a.oldString, a.newString, if a.replaceAll then None else Some(1));
      }
  }

  /** It does not for a read that is no valid UTF-8: to change a into b in a FF is to write b EF BF BD. */
  lemma InvalidReadRewritten(path: Bytes)
    ensures var a, content: Bytes := TextEdit.EditArguments(path, [97], [98], false), [97, 0xFF];
            && TextEdit.ApplyEdit(a, content) == Some([98, 0xFF])
            && WriteContents(a, content) == Some([98, 0xEF, 0xBF, 0xBD])
  {
    var a, content: Bytes := TextEdit.EditArguments(path, [97], [98], false), [97, 0xFF];
    var ps: seq<Bytes> := [[], [0xFF]];
    assert ps[1..] == [[0xFF]] && TextEdit.Join(ps[1..], [97]) == [0xFF];
    assert TextEdit.Join(ps, [97]) == [] + [97] + [0xFF] == content;
    var last: Bytes := [0xFF];
    assert last[0..1][0] == 0xFF;
    assert !TextEdit.OccursAt(last, [97], 0) && forall j: nat :: TextEdit.OccursAt(last, [97], j) ==> j == 0;
    TextEdit.EditMeaning(a, content, ps);
    assert TextEdit.Join(ps, [98]) == [] + [98] + [0xFF] == [98, 0xFF];
    RewrittenBytes();
  }

  lemma RewrittenBytes()
    ensures Utf8.JsonCoerce([98, 0xFF]) == [98, 0xEF, 0xBF, 0xBD]
  {
    var updated: Bytes, invalid: Bytes := [98, 0xFF], [0xFF];
    assert updated[1..] == invalid && invalid[1..] == [] && updated[..1] == [98];
    assert Utf8.JsonCoerce(invalid) == Utf8.REPLACEMENT + Utf8.JsonCoerce([]);
    assert Utf8.REPLACEMENT == [0xEF, 0xBF, 0xBD];
    assert Utf8.JsonCoerce(updated) == updated[..1] + Utf8.JsonCoerce(invalid);
  }

  function WriteRequest(edit: ToolRequest, contents: Bytes, messageID: MessageID, execID: string): ToolRequest
    requires edit.arguments.EditArgs?
  {
    ToolRequest(messageID, execID, edit.callID, Write, WriteArgs(edit.arguments.edit.path, contents))
  }

  function ApplyEditRead(s: Session, t: nat, m: ExecMessage, messageID: MessageID, execID: string): (Session, Applied)
    requires t in s.pending
  {
    var p := s.pending[t];
    match m.read
    case None => (s, Refused)
    case Some(ReadFailed(detail)) =>
      if m.encodes then Complete(s, t, EditUnreadable(detail), true) else (s, Refused)
    case Some(ReadOk(content)) =>
      if !DecodesAsEdit(p.request.arguments) then (s, Refused)
      else
        match WriteContents(p.request.arguments.edit, content)
        case None => if m.encodes then Complete(s, t, EditInapplicable, true) else (s, Refused)
        case Some(contents) =>
          var write := WriteRequest(p.request, contents, messageID, execID);
          (s.(pending := s.pending[t := p.(transport := write, phase := WritePhase)],
              events := s.events + [Dispatch(t, write)]), Redirected(t, content))
  }

  /**
   What the read of an Edit decides, told by the pieces between the occurrences of the old text: with one occurrence, or
   several and replaceAll, a Write of the pieces joined by the new text; otherwise the call ends in an error without
   one. A failed read ends it in the same way.
   */
  lemma EditReadDecides(s: Session, t: nat, m: ExecMessage, ps: seq<Bytes>, messageID: MessageID, execID: string)
    requires t in s.pending && DecodesAsEdit(s.pending[t].request.arguments) && m.read.Some? && m.encodes
    requires var edit := s.pending[t].request.arguments.edit;
             m.read.value.ReadOk? ==>
               ps != [] && TextEdit.Join(ps, edit.oldString) == m.read.value.content
               && TextEdit.LeftmostPieces(ps, edit.oldString)
    ensures var edit := s.pending[t].request.arguments.edit;
            var (after, applied) := ApplyEditRead(s, t, m, messageID, execID);
            if m.read.value.ReadOk? && (|ps| == 2 || (|ps| > 2 && edit.replaceAll)) then
              var contents := Utf8.JsonCoerce(TextEdit.Join(ps, edit.newString));
              var callID := s.pending[t].request.callID;
              var write := ToolRequest(messageID, execID, callID, Write, WriteArgs(edit.path, contents));
              && applied == Redirected(t, m.read.value.content) && after.events == s.events + [Dispatch(t, write)]
              && t in after.pending && after.pending[t].transport == write && after.pending[t].phase == WritePhase
            else
              && applied.Delivers? && applied.result.isError && applied.result.callID == s.pending[t].request.callID
              && after.events == s.events + [Completed(t, s.pending[t].request.callID)] && t !in after.pending
  {
    if m.read.value.ReadOk? {
      TextEdit.EditMeaning(s.pending[t].request.arguments.edit, m.read.value.content, ps);
      hide TextEdit.ApplyEdit, TextEdit.Join, TextEdit.LeftmostPieces, Utf8.JsonCoerce;
    }
  }

  function ApplyPlain(s: Session, t: nat, m: ExecMessage): (Session, Applied)
    requires t in s.pending
  {
    var p := s.pending[t];
    if !AcceptsIdentity(m.identity, p.transport) || p.transport.name !in m.plain || !m.encodes then (s, Refused)
    else Complete(s, t, Text(m.plain[p.transport.name].content), m.plain[p.transport.name].isError)
  }

  function ApplyShell(s: Session, t: nat, m: ExecMessage): (Session, Applied)
    requires t in s.pending
  {
    var p := s.pending[t];
    if !AcceptsIdentity(m.identity, p.transport) then (s, Refused)
    else
      match m.shell
      case None => (s, Refused)
      case Some(Output(delta)) =>
        var kept := Kept(p.capture, delta);
        (s.(pending := s.pending[t := p.(capture := Absorb(p.capture, delta))],
            events := if kept.data == [] then s.events else s.events + [Progress(t, Chunk(kept))]), Heard(t, delta))
      case Some(Launched) => (s.(events := s.events + [Progress(t, ShellStart)]), Absorbed)
      case Some(Exited(code)) =>
        var s1 := s.(events := s.events + [Progress(t, ShellExit(code))]);
        if !m.encodes then (s1, Refused)
        else Complete(s1, t, ShellReport(code, p.capture.stdout, p.capture.stderr, p.capture.truncated), code != 0)
      case Some(Ended(text, isError)) =>
        if m.encodes then Complete(s, t, Text(text), isError) else (s, Refused)
  }

  function ApplyTo(s: Session, t: nat, m: ExecMessage, messageID: MessageID, execID: string): (Session, Applied)
    requires t in s.pending
  {
    var p := s.pending[t];
    match KindOf(p.request.name)
    case ReadTool =>
      if m.read.None? || !m.encodes then (s, Refused)
      else
        (match m.read.value
         case ReadOk(content) => Complete(s, t, Text(content), false)
         case ReadFailed(detail) => Complete(s, t, ReadFailure(detail), true))
    case EditTool =>
      (match p.phase
       case ReadPhase => ApplyEditRead(s, t, m, messageID, execID)
       case WritePhase => ApplyPlain(s, t, m)
       case NoPhase => (s, Refused))
    case ShellTool => ApplyShell(s, t, m)
    case FileTool => ApplyPlain(s, t, m)
    case DynamicTool => if p.transport.name != McpCall then (s, Refused) else ApplyPlain(s, t, m)
  }

  /** messageID and execID are the fresh IDs for the Write of an Edit. */
  ghost function Apply(s: Session, m: ExecMessage, messageID: MessageID, execID: string): (Session, Applied) {
    if m.identity == Identity(0, "") || s.Done() then (s, Refused)
    else if AnswersQuery(s, m.identity) then
      (match m.state
       case None => (s, Refused)
       case Some(state) => (s.(discovery := None), DeliversState(state)))
    else
      match Lookup(s.pending, m.identity)
      case None => (s, Refused)
      case Some(t) => ApplyTo(s, t, m, messageID, execID)
  }

  /** The test with which a detached result is assigned to a session. */
  ghost predicate Matches(s: Session, id: Identity) {
    && !s.Done()
    && ( || AnswersQuery(s, id)
         || (if id.execID != "" then
               var t := ByExec(s.pending, id.execID);
               t.Some? && (id.messageID == 0 || s.pending[t.value].transport.messageID == id.messageID)
             else id.messageID != 0 && ByMessage(s.pending, id.messageID).Some?))
  }

  // ---- MCP discovery ----

  function BeginDiscovery(s: Session, messageID: MessageID, execID: string): (Session, bool) {
    if s.Done() || s.discovery.Some? then (s, false)
    else
      (s.(discovery := Some(Discovery(messageID, execID)), events := s.events + [StateQuery(messageID, execID)]), true)
  }

  function ClearDiscovery(s: Session, d: Discovery): (Session, bool) {
    if s.discovery != Some(d) then (s, false) else (s.(discovery := None), true)
  }

  // ---- What the critical sections keep ----

  /** No two pending calls share an exec ID or a message ID. */
  ghost predicate DistinctIDs(pending: map<nat, Pending>) {
    && (forall t, u :: t in pending && u in pending && pending[t].transport.execID == pending[u].transport.execID ==>
          t == u)
    && (forall t, u ::
          t in pending && u in pending && pending[t].transport.messageID == pending[u].transport.messageID ==> t == u)
  }

  /** IDs that no pending call uses. */
  ghost predicate FreshFor(s: Session, messageID: MessageID, execID: string) {
    forall t :: t in s.pending ==>
      s.pending[t].transport.messageID != messageID && s.pending[t].transport.execID != execID
  }

  /** How a pending call may look between critical sections. */
  ghost predicate PendingCoherent(p: Pending) {
    && p.request.callID == p.transport.callID
    && (KindOf(p.request.name).EditTool? ==> DecodesAsEdit(p.request.arguments) && p.phase != NoPhase)
    && (KindOf(p.request.name).EditTool? && p.phase == WritePhase ==> p.transport.name == Write)
    && (KindOf(p.request.name).DynamicTool? ==> p.transport.name == McpCall)
    && (!KindOf(p.request.name).EditTool? && !KindOf(p.request.name).DynamicTool? ==> p.transport == p.request)
  }

  ghost predicate Coherent(s: Session) {
    && DistinctIDs(s.pending)
    && (forall t :: t in s.pending ==> PendingCoherent(s.pending[t]))
    && (s.Done() ==> s.pending == map[] && s.discovery == None)
  }

  // ---- What a client result says ----

  /** A result tells this content and error flag for the tool that the client was asked for. */
  predicate SaysPlain(p: Pending, m: ExecMessage, content: Content, isError: bool) {
    && p.transport.name in m.plain
    && content == Text(m.plain[p.transport.name].content) && isError == m.plain[p.transport.name].isError
  }

  /** A result tells how a file was read. */
  predicate SaysRead(m: ExecMessage, content: Content, isError: bool) {
    || (m.read.Some? && m.read.value.ReadOk? && content == Text(m.read.value.content) && !isError)
    || (m.read.Some? && m.read.value.ReadFailed? && content == ReadFailure(m.read.value.detail) && isError)
  }

  /** A result tells that an Edit cannot be made: the file cannot be read, or the edit does not apply to it. */
  predicate SaysNoEdit(p: Pending, m: ExecMessage, content: Content, isError: bool) {
    && isError && m.read.Some?
    && match m.read.value
       case ReadFailed(detail) => content == EditUnreadable(detail)
       case ReadOk(read) =>
         && content == EditInapplicable && DecodesAsEdit(p.request.arguments)
         && WriteContents(p.request.arguments.edit, read).None?
  }

  /** A result tells how a shell command ended; an exit reports all that was captured. */
  predicate SaysShell(p: Pending, m: ExecMessage, content: Content, isError: bool) {
    && m.shell.Some?
    && match m.shell.value
       case Exited(code) =>
         && content == ShellReport(code, p.capture.stdout, p.capture.stderr, p.capture.truncated)
         && (isError <==> code != 0)
       case Ended(text, failed) => content == Text(text) && (isError <==> failed)
       case _ => false
  }

  /** What a client result says is the outcome of this call. */
  predicate Says(p: Pending, m: ExecMessage, content: Content, isError: bool) {
    match p.request.name
    case Read => SaysRead(m, content, isError)
    case Edit =>
      if p.phase == ReadPhase then SaysNoEdit(p, m, content, isError) else SaysPlain(p, m, content, isError)
    case Shell => SaysShell(p, m, content, isError)
    case _ => SaysPlain(p, m, content, isError)
  }

  /** The exit code of a shell command that this result tells of. */
  function ExitOf(p: Pending, m: ExecMessage): Option<nat> {
    if p.request.name == Shell && m.shell.Some? && m.shell.value.Exited? then Some(m.shell.value.code)
    else None
  }

  // ---- The effects a client result can have ----

  datatype Effect =
    | Nothing
    | Note(t: nat, piece: ShellPiece)
    | TakesOutput(t: nat, delta: Delta)
    | MovesToWrite(t: nat, read: Bytes)
    | Ends(t: nat, content: Content, isError: bool, exit: Option<nat>)
    | AnswersDiscovery(state: StateOutcome)

  ghost predicate HasEffect(s: Session, m: ExecMessage, messageID: MessageID, execID: string, e: Effect,
                            after: (Session, Applied))
  {
    match e
    case Nothing => after == (s, Refused)
    case Note(t, piece) =>
      && t in s.pending && KindOf(s.pending[t].request.name).ShellTool?
      && m.shell.Some? && (m.shell.value.Launched? || m.shell.value.Exited?)
      && piece == (if m.shell.value.Exited? then ShellExit(m.shell.value.code) else ShellStart)
      && after.0 == s.(events := s.events + [Progress(t, piece)])
      && after.1 == if m.shell.value.Exited? then Refused else Absorbed
    case TakesOutput(t, delta) =>
      && t in s.pending && KindOf(s.pending[t].request.name).ShellTool? && m.shell == Some(Output(delta))
      && var p, kept := s.pending[t], Kept(s.pending[t].capture, delta);
      && after.0 == s.(pending := s.pending[t := p.(capture := Absorb(p.capture, delta))],
                       events := if kept.data == [] then s.events else s.events + [Progress(t, Chunk(kept))])
      && after.1 == Heard(t, delta)
    case MovesToWrite(t, read) =>
      && t in s.pending && KindOf(s.pending[t].request.name).EditTool? && s.pending[t].phase == ReadPhase
      && DecodesAsEdit(s.pending[t].request.arguments)
      && m.read == Some(ReadOk(read))
      && var p := s.pending[t];
      && WriteContents(p.request.arguments.edit, read).Some?
      && var write := WriteRequest(p.request, WriteContents(p.request.arguments.edit, read).value, messageID, execID);
      && after == (s.(pending := s.pending[t := p.(transport := write, phase := WritePhase)],
                      events := s.events + [Dispatch(t, write)]), Redirected(t, read))
    case Ends(t, content, isError, exit) =>
      && t in s.pending && Says(s.pending[t], m, content, isError) && exit == ExitOf(s.pending[t], m)
      && var events := if exit.Some? then s.events + [Progress(t, ShellExit(exit.value))] else s.events;
      && after == Complete(s.(events := events), t, content, isError)
    case AnswersDiscovery(state) =>
      && AnswersQuery(s, m.identity) && m.state == Some(state)
      && after == (s.(discovery := None), DeliversState(state))
  }

  function CallOf(e: Effect): Option<nat> {
    match e
    case Note(t, _) => Some(t)
    case TakesOutput(t, _) => Some(t)
    case MovesToWrite(t, _) => Some(t)
    case Ends(t, _, _, _) => Some(t)
    case _ => None
  }

  /** A call that takes a result without comparing IDs again: a Read, or an Edit that waits for its Read. */
  predicate TakesAnyIdentity(p: Pending) {
    KindOf(p.request.name).ReadTool? || (KindOf(p.request.name).EditTool? && p.phase == ReadPhase)
  }

  predicate TakesIdentity(p: Pending, id: Identity) { AcceptsIdentity(id, p.transport) || TakesAnyIdentity(p) }

  lemma ApplyToHasEffect(s: Session, t: nat, m: ExecMessage, messageID: MessageID, execID: string) returns (e: Effect)
    requires t in s.pending
    ensures HasEffect(s, m, messageID, execID, e, ApplyTo(s, t, m, messageID, execID)) && !e.AnswersDiscovery?
    ensures e != Nothing ==> CallOf(e) == Some(t) && TakesIdentity(s.pending[t], m.identity)
  {
    var after, p := ApplyTo(s, t, m, messageID, execID), s.pending[t];
    match after.1
    case Delivers(_, result) =>
      e := Ends(t, result.content, result.isError, ExitOf(p, m));
    case Heard(_, delta) => e := TakesOutput(t, delta);
    case Refused =>
      e := if after.0 == s then Nothing else Note(t, ShellExit(m.shell.value.code));
    case Absorbed => e := Note(t, ShellStart);
    case Redirected(_, read) => e := MovesToWrite(t, read);
  }

  /** Every result a client may send has one of these effects, and before the end of the session no other. */
  lemma ApplyHasEffect(s: Session, m: ExecMessage, messageID: MessageID, execID: string) returns (e: Effect)
    ensures HasEffect(s, m, messageID, execID, e, Apply(s, m, messageID, execID))
    ensures s.Done() ==> e == Nothing
    ensures CallOf(e).Some? ==>
              && !AnswersQuery(s, m.identity)
              && Lookup(s.pending, m.identity) == CallOf(e)
              && TakesIdentity(s.pending[CallOf(e).value], m.identity)
  {
    if m.identity == Identity(0, "") || s.Done() {
      e := Nothing;
    } else if AnswersQuery(s, m.identity) {
      e := if m.state.Some? then AnswersDiscovery(m.state.value) else Nothing;
    } else if Lookup(s.pending, m.identity).Some? {
      e := ApplyToHasEffect(s, Lookup(s.pending, m.identity).value, m, messageID, execID);
    } else {
      e := Nothing;
    }
  }

  /** The IDs that a result carries are those of the call. A Read, or an Edit waiting for its Read, takes any. */
  predicate IDsAgree(p: Pending, id: Identity) {
    || p.request.name == Read || (p.request.name == Edit && p.phase == ReadPhase)
    || (&& (id.messageID == 0 || id.messageID == p.transport.messageID)
        && (id.execID == "" || id.execID == p.transport.execID))
  }

  lemma ApplyToDelivers(s: Session, m: ExecMessage, t: nat, messageID: MessageID, execID: string,
                        content: Content, isError: bool)
    requires t in s.pending && PendingCoherent(s.pending[t])
    ensures var p := s.pending[t];
            ApplyTo(s, t, m, messageID, execID).1 == Delivers(t, ToolResult(p.request.callID, content, isError)) <==>
              IDsAgree(p, m.identity) && m.encodes && Says(p, m, content, isError)
  {
    hide WriteContents, Kept, Absorb;
  }

  /** A call that ended is pending no more, and its completion is logged, after the exit of a shell command. */
  lemma DeliveredLogs(s: Session, m: ExecMessage, t: nat, messageID: MessageID, execID: string)
    requires t in s.pending && PendingCoherent(s.pending[t]) && ApplyTo(s, t, m, messageID, execID).1.Delivers?
    ensures var p, after := s.pending[t], ApplyTo(s, t, m, messageID, execID).0;
            && after.pending == s.pending - {t}
            && after.events == s.events
                               + (if ExitOf(p, m).Some? then [Progress(t, ShellExit(ExitOf(p, m).value))] else [])
                               + [Completed(t, p.request.callID)]
  {
    hide WriteContents, Kept, Absorb;
    assert s.events + [] == s.events;
  }

  /**
   A call ends with exactly what the client says its outcome is: if the result that leads to it has its IDs and its
   completion can be encoded.
   */
  lemma DeliversWhatIsSaid(s: Session, m: ExecMessage, t: nat, messageID: MessageID, execID: string,
                           content: Content, isError: bool)
    requires Coherent(s) && Lookup(s.pending, m.identity) == Some(t) && !AnswersQuery(s, m.identity)
    ensures var p, (after, applied) := s.pending[t], Apply(s, m, messageID, execID);
            && (applied == Delivers(t, ToolResult(p.request.callID, content, isError)) <==>
                  IDsAgree(p, m.identity) && m.encodes && Says(p, m, content, isError))
            && (applied.Delivers? ==>
                  && after.pending == s.pending - {t}
                  && after.events == s.events
                                     + (if ExitOf(p, m).Some? then [Progress(t, ShellExit(ExitOf(p, m).value))] else [])
                                     + [Completed(t, p.request.callID)])
  {
    hide ByExec, ByMessage, ApplyTo, DistinctIDs, PendingCoherent, Says, IDsAgree, ExitOf;
    assert PendingCoherent(s.pending[t]);
    ApplyToDelivers(s, m, t, messageID, execID, content, isError);
    if Apply(s, m, messageID, execID).1.Delivers? {
      DeliveredLogs(s, m, t, messageID, execID);
    }
  }

  /** What a call can go on or end with. */
  predicate Usable(p: Pending, m: ExecMessage) {
    match p.request.name
    case Read => m.read.Some? && m.encodes
    case Edit =>
      if p.phase == ReadPhase then DecodesAsEdit(p.request.arguments) && ReadUsable(p, m)
      else p.transport.name in m.plain && m.encodes
    case Shell => m.shell.Some? && (m.shell.value.Ended? ==> m.encodes)
    case _ => p.transport.name in m.plain && m.encodes
  }

  /**
   A result leaves the session as it was and is refused exactly if it neither answers the MCP query, nor leads to a
   pending call that takes its IDs and can use it.
   */
  lemma TakenExactly(s: Session, m: ExecMessage, messageID: MessageID, execID: string)
    requires Coherent(s)
    ensures Apply(s, m, messageID, execID) != (s, Refused) <==>
              if AnswersQuery(s, m.identity) then m.state.Some?
              else
                && Lookup(s.pending, m.identity).Some?
                && var p := s.pending[Lookup(s.pending, m.identity).value];
                IDsAgree(p, m.identity) && Usable(p, m)
    ensures AnswersQuery(s, m.identity) && m.state.Some? ==>
              Apply(s, m, messageID, execID) == (s.(discovery := None), DeliversState(m.state.value))
  {
    hide ByExec, ByMessage, WriteContents, DistinctIDs, Kept, Absorb;
    if Lookup(s.pending, m.identity).Some? {
      var t := Lookup(s.pending, m.identity).value;
      assert PendingCoherent(s.pending[t]);
      if ExitOf(s.pending[t], m).Some? {
        assert |s.events + [Progress(t, ShellExit(m.shell.value.code))]| == |s.events| + 1;
      }
    }
  }

  /** After the end of a session no result is taken any more. */
  lemma ApplyDone(s: Session, m: ExecMessage, messageID: MessageID, execID: string)
    requires s.Done()
    ensures Apply(s, m, messageID, execID) == (s, Refused)
  {
  }

  /**
   A result is taken for the call its exec ID leads to, else for the one its message ID leads to. The IDs it carries are
   then all those of the call, unless the call takes any; after the test for detached results they always are.
   */
  lemma TakenForItsCall(s: Session, m: ExecMessage, messageID: MessageID, execID: string) returns (e: Effect)
    ensures HasEffect(s, m, messageID, execID, e, Apply(s, m, messageID, execID))
    ensures CallOf(e).Some? ==>
              && Lookup(s.pending, m.identity) == CallOf(e)
              && TakesIdentity(s.pending[CallOf(e).value], m.identity)
              && (Matches(s, m.identity) && DistinctIDs(s.pending) ==>
                AcceptsIdentity(m.identity, s.pending[CallOf(e).value].transport))
  {
    hide HasEffect, Apply, Matches, Lookup, DistinctIDs, AcceptsIdentity, TakesAnyIdentity, IdentityMatches;
    e := ApplyHasEffect(s, m, messageID, execID);
    if CallOf(e).Some? && Matches(s, m.identity) && DistinctIDs(s.pending) {
      MatchAccepts(s, m.identity);
    }
  }

  lemma MatchAccepts(s: Session, id: Identity)
    requires Matches(s, id) && DistinctIDs(s.pending)
    requires !AnswersQuery(s, id)
    ensures Lookup(s.pending, id).Some? && AcceptsIdentity(id, s.pending[Lookup(s.pending, id).value].transport)
  {
  }

  /** A result says something about a read that this call can go on or end with. */
  predicate ReadUsable(p: Pending, m: ExecMessage)
    requires KindOf(p.request.name).EditTool? ==> DecodesAsEdit(p.request.arguments)
  {
    && m.read.Some?
    && (m.encodes || (&& KindOf(p.request.name).EditTool? && m.read.value.ReadOk?
                      && WriteContents(p.request.arguments.edit, m.read.value.content).Some?))
  }

  /**
   Exactly when a result is taken although an ID it carries is not that of the call it was looked up for: the call is a
   Read, or an Edit waiting for its Read, and the result says something about a read.
   */
  lemma WrongIdentityTaken(s: Session, m: ExecMessage, t: nat, messageID: MessageID, execID: string)
    requires Coherent(s) && Lookup(s.pending, m.identity) == Some(t) && !AnswersQuery(s, m.identity)
    requires !AcceptsIdentity(m.identity, s.pending[t].transport)
    ensures Apply(s, m, messageID, execID) != (s, Refused) <==>
              TakesAnyIdentity(s.pending[t]) && ReadUsable(s.pending[t], m)
    ensures Apply(s, m, messageID, execID) != (s, Refused) ==> !Matches(s, m.identity)
  {
    hide ByExec, ByMessage, WriteContents, DistinctIDs, Matches;
    assert PendingCoherent(s.pending[t]);
    if Matches(s, m.identity) {
      MatchAccepts(s, m.identity);
    }
  }

  function ReadResult(id: Identity, content: Bytes): ExecMessage {
    ExecMessage(id, Some(ReadOk(content)), None, map[], None, true)
  }

  /** So a Read takes a result whose exec ID is unknown, if its message ID is right; another file tool refuses it. */
  lemma UnknownExecTaken(p: Pending, content: Bytes, unknown: string)
    requires p.transport.messageID != 0 && unknown != "" && unknown != p.transport.execID
    ensures var s, m := FRESH.(pending := map[0 := p]), ReadResult(Identity(p.transport.messageID, unknown), content);
            && (KindOf(p.request.name).ReadTool? ==>
                  Apply(s, m, 1, "").1 == Delivers(0, ToolResult(p.request.callID, Text(content), false)))
            && (KindOf(p.request.name).FileTool? ==> Apply(s, m, 1, "").1 == Refused)
  {
    var s := FRESH.(pending := map[0 := p]);
    assert UnderMessage(s.pending, 0, p.transport.messageID);
  }

  /** And one with its own exec ID and the message ID of another pending call. */
  lemma OthersMessageTaken(p: Pending, other: Pending, content: Bytes)
    requires KindOf(p.request.name).ReadTool? && p.transport.execID != ""
    requires p.transport.execID != other.transport.execID && p.transport.messageID != other.transport.messageID
    ensures var s := FRESH.(pending := map[0 := p, 1 := other]);
            var m := ReadResult(Identity(other.transport.messageID, p.transport.execID), content);
            Apply(s, m, 1, "").1 == Delivers(0, ToolResult(p.request.callID, Text(content), false))
  {
    var s := FRESH.(pending := map[0 := p, 1 := other]);
    assert UnderExec(s.pending, 0, p.transport.execID);
    assert forall t :: UnderExec(s.pending, t, p.transport.execID) ==> t == 0;
  }
}
