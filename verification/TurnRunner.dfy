/**
 One turn of a conversation: provider passes and tool calls until the provider has nothing more to call, then one
 commit.
 */
module TurnRunner {
  import opened Common
  import opened ProviderTypes
  import opened Accumulator
  import opened Conversations
  import SessionProtocol
  import SessionRuns

  const MAX_PASSES := 16

  datatype Run = Run(conversationID: string, modelID: string, userText: string, mcpTools: seq<ToolDefinition>)

  /** How one provider stream goes: see Accumulator.RunProviderPass. */
  datatype Stream = Stream(events: seq<Event>, accepts: seq<Event> -> bool, fails: bool)

  /** What comes of one tool call: it is not taken, the run is cancelled while it waits, or a result comes. */
  datatype Reply = Untaken | Cancelled | Replied(callID: string, content: string)

  /**
   Everything Execute depends on. The stream is a function of the request and the reply one of the turn so far and the
   call ID: within one run no request and no turn so far occurs twice, so these stand for any behaviour.
   */
  datatype Environment = Environment(
    isObject: Json, cancelledEarly: bool, resolve: string -> Result<string>, hasStreamer: bool,
    stream: Request -> Stream, reply: (seq<Message>, string) -> Reply, takesUsage: bool)

  datatype Failure =
    | InvalidRun | CancelledEarly | ToolNames | ModelUnresolved | InvalidRequest | ProviderFailed | NoText
    | NotOffered | RepeatedID | CallUntaken | CallCancelled | WrongResult | TooManyPasses

  /** UsageLost: the turn was committed, but its usage could not be reported. */
  datatype Outcome = Completed(usage: Usage) | UsageLost | Failed(why: Failure)

  predicate ValidRun(r: Run) {
    ValidBoundedText(r.conversationID, 1024) && ValidBoundedText(r.modelID, 1024) && TrimSpace(r.userText) != []
  }

  function UserMessage(text: string): Message { Message(User, text, [], []) }

  function AssistantMessage(p: Pass): Message { Message(Assistant, p.text, p.calls, []) }

  function ResultMessage(callID: string, content: string): Message { Message(Tool, content, [], callID) }

  // ---- The tools of a run ----

  /** mergeRunTools; the request it validates the tools in is otherwise a fixed, valid one. */
  method MergeRunTools(fixed: seq<ToolDefinition>, dynamic: seq<ToolDefinition>, isObject: Json)
    returns (r: Result<seq<ToolDefinition>>)
    ensures r == if ValidTools(fixed + dynamic, isObject) then Ok(fixed + dynamic) else Error
  {
    var result := fixed;
    var seen := set tool | tool in fixed :: tool.name;
    for i := 0 to |dynamic|
      invariant result == fixed + dynamic[..i]
      invariant forall name :: name in seen <==> exists j :: 0 <= j < |result| && result[j].name == name
    {
      if dynamic[i].name in seen {
        var j :| 0 <= j < |result| && result[j].name == dynamic[i].name;
        assert (fixed + dynamic)[j] == result[j] && (fixed + dynamic)[|fixed| + i] == dynamic[i];
        return Error;
      }
      ghost var shorter := result;
      seen := seen + {dynamic[i].name};
      result := result + [dynamic[i]];
      assert result[|shorter|].name == dynamic[i].name;
      assert forall j :: 0 <= j < |shorter| ==> result[j] == shorter[j];
    }
    assert result == fixed + dynamic;
    if result != [] {
      var ok := ValidateTools(result, isObject);
      if !ok {
        return Error;
      }
    }
    r := Ok(result);
  }

  // ---- What a turn looks like ----

  predicate IsResults(calls: seq<ToolCall>, ms: seq<Message>) {
    |ms| == |calls| && forall k :: 0 <= k < |ms| ==> ms[k] == Message(Tool, ms[k].content, [], calls[k].id)
  }

  /** Any number of times: an assistant message with calls, then exactly its results, in the order of the calls. */
  predicate Rounds(ms: seq<Message>) {
    || ms == []
    || (var n := |ms[0].toolCalls|;
        && ms[0].role == Assistant && 0 < n < |ms|
        && IsResults(ms[0].toolCalls, ms[1..n + 1]) && Rounds(ms[n + 1..]))
  }

  lemma {:induction false} RoundsAppend(ms: seq<Message>, round: seq<Message>)
    requires Rounds(ms) && Rounds(round)
    ensures Rounds(ms + round)
  {
    hide IsResults;
    if ms == [] {
      assert ms + round == round;
    } else {
      var n := |ms[0].toolCalls|;
      RoundsAppend(ms[n + 1..], round);
      assert (ms + round)[1..n + 1] == ms[1..n + 1];
      assert (ms + round)[n + 1..] == ms[n + 1..] + round;
    }
  }

  /** The user's text, rounds, and a last assistant message with text and without calls. */
  predicate TurnGrammar(run: Run, turn: Turn) {
    && |turn| >= 2
    && turn[0] == Message(User, run.userText, [], []) && Rounds(turn[1..|turn| - 1])
    && var end := turn[|turn| - 1]; end.role == Assistant && end.toolCalls == [] && end.content != []
  }

  function CallsIn(ms: seq<Message>): seq<ToolCall> {
    if ms == [] then [] else CallsIn(ms[..|ms| - 1]) + ms[|ms| - 1].toolCalls
  }

  function AssistantsIn(ms: seq<Message>): seq<Message> {
    if ms == [] then []
    else
      var rest, m := AssistantsIn(ms[..|ms| - 1]), ms[|ms| - 1];
      if m.role == Assistant then rest + [m] else rest
  }

  lemma MessagesSnoc(ms: seq<Message>, m: Message)
    ensures CallsIn(ms + [m]) == CallsIn(ms) + m.toolCalls
    ensures AssistantsIn(ms + [m]) == if m.role == Assistant then AssistantsIn(ms) + [m] else AssistantsIn(ms)
  {
    assert (ms + [m])[..|ms|] == ms;
  }

  /** Every tool message is the reply that its call got at that point of the turn. */
  predicate Answered(turn: seq<Message>, reply: (seq<Message>, string) -> Reply) {
    forall k :: 0 <= k < |turn| && turn[k].role == Tool ==>
      reply(turn[..k], turn[k].toolCallID) == Replied(turn[k].toolCallID, turn[k].content)
  }

  lemma AnsweredSnoc(turn: seq<Message>, m: Message, reply: (seq<Message>, string) -> Reply)
    requires Answered(turn, reply)
    requires m.role == Tool ==> reply(turn, m.toolCallID) == Replied(m.toolCallID, m.content)
    ensures Answered(turn + [m], reply)
  {
    var longer := turn + [m];
    assert longer[..|turn|] == turn;
    forall k | 0 <= k < |turn| ensures longer[..k] == turn[..k] {}
  }

  predicate Distinct(calls: seq<ToolCall>) { forall i, j :: 0 <= i < j < |calls| ==> calls[i].id != calls[j].id }

  predicate Offered(calls: seq<ToolCall>, tools: seq<ToolDefinition>) {
    forall call :: call in calls ==> exists tool :: tool in tools && tool.name == call.name
  }

  predicate AllValid(ms: seq<Message>, isObject: Json) { forall m :: m in ms ==> ValidMessage(m, isObject) }

  predicate ValidHistory(turns: seq<Turn>, isObject: Json) { forall turn :: turn in turns ==> AllValid(turn, isObject) }

  lemma {:induction false} FlattenValid(turns: seq<Turn>, isObject: Json)
    requires ValidHistory(turns, isObject)
    ensures AllValid(Flatten(turns), isObject)
  {
    if turns != [] {
      assert turns[0] in turns;
      FlattenValid(turns[1..], isObject);
    }
  }

  // ---- The calls of one pass ----

  /** Results carry the ID of their call. */
  ghost predicate Honest(reply: (seq<Message>, string) -> Reply) {
    forall turn, id :: reply(turn, id).Replied? ==> reply(turn, id).callID == id
  }

  /** In a run of the session a call was opened with this ID, and what was received for it carries callID. */
  ghost predicate ReceivedFor(y: SessionProtocol.System, t: nat, id: string, callID: string) {
    && SessionRuns.Reachable(y) && t in y.calls.asked && y.calls.asked[t].callID == id && t in y.channels.received
    && exists r :: r in y.channels.received[t] && r.callID == callID
  }

  /** Every result comes out of the channel of the call that was opened for it. */
  ghost predicate FromSession(reply: (seq<Message>, string) -> Reply) {
    forall turn, id :: reply(turn, id).Replied? ==> exists y, t :: ReceivedFor(y, t, id, reply(turn, id).callID)
  }

  /** So with the results of a session Execute never fails because of a wrong call ID. */
  lemma SessionRepliesHonest(reply: (seq<Message>, string) -> Reply)
    requires FromSession(reply)
    ensures Honest(reply)
  {
    hide SessionRuns.Reachable;
    forall turn, id | reply(turn, id).Replied?
      ensures reply(turn, id).callID == id
    {
      var y, t :| ReceivedFor(y, t, id, reply(turn, id).callID);
      SessionRuns.OneResult(y, t);
    }
  }

  /** How far a turn has come: its rounds are complete, and these calls were handed out. */
  predicate Underway(run: Run, turn: seq<Message>, handed: seq<ToolCall>, passes: seq<Pass>, env: Environment) {
    && turn != [] && turn[0] == UserMessage(run.userText) && Rounds(turn[1..])
    && CallsIn(turn) == handed && AssistantsIn(turn) == AssistantsOf(passes)
    && Answered(turn, env.reply) && AllValid(turn, env.isObject)
  }

  /** One message for each pass, with its text and its calls. */
  function AssistantsOf(passes: seq<Pass>): seq<Message> {
    seq(|passes|, i requires 0 <= i < |passes| => Message(Assistant, passes[i].text, passes[i].calls, []))
  }

  function TotalUsage(passes: seq<Pass>): Usage {
    if passes == [] then Usage(0, 0, 0, 0)
    else
      var t, u := TotalUsage(passes[..|passes| - 1]), passes[|passes| - 1].usage;
      Usage(t.input + u.input, t.output + u.output, t.cacheRead + u.cacheRead, t.cacheWrite + u.cacheWrite)
  }

  /** The set holds the IDs of all calls handed out. */
  ghost predicate Recorded(delivered: set<string>, handed: seq<ToolCall>) {
    forall id :: id in delivered <==> exists call :: call in handed && call.id == id
  }

  /** Why the call at i stops the turn, when sofar is the turn until then and handed all that was handed out. */
  ghost predicate StopsAt(why: Failure, sofar: seq<Message>, before: seq<ToolCall>, calls: seq<ToolCall>, i: nat,
                          handed: seq<ToolCall>, tools: seq<ToolDefinition>, reply: (seq<Message>, string) -> Reply)
    requires i < |calls|
  {
    match why
    case NotOffered => handed == before + calls[..i] && forall tool :: tool in tools ==> tool.name != calls[i].name
    case RepeatedID => handed == before + calls[..i] && exists call :: call in handed && call.id == calls[i].id
    case CallUntaken => handed == before + calls[..i + 1] && reply(sofar, calls[i].id).Untaken?
    case CallCancelled => handed == before + calls[..i + 1] && reply(sofar, calls[i].id).Cancelled?
    case WrongResult =>
      && handed == before + calls[..i + 1] && reply(sofar, calls[i].id).Replied?
      && reply(sofar, calls[i].id).callID != calls[i].id
    case _ => false
  }

  /** One of the calls stops the turn, after the results of those before it. */
  ghost predicate CallStops(why: Failure, start: seq<Message>, before: seq<ToolCall>, calls: seq<ToolCall>,
                            handed: seq<ToolCall>, tools: seq<ToolDefinition>,
                            reply: (seq<Message>, string) -> Reply)
  {
    exists i: nat, results ::
      && i < |calls| && IsResults(calls[..i], results)
      && StopsAt(why, start + results, before, calls, i, handed, tools, reply)
  }

  /**
   The loop over the calls of one pass: each is handed out, and its result awaited, before the next. delivered holds the
   IDs of all calls handed out in this run.
   */
  method CallTools(start: seq<Message>, calls: seq<ToolCall>, tools: seq<ToolDefinition>, delivered: set<string>,
                   handed: seq<ToolCall>, env: Environment)
    returns (failed: Option<Failure>, turn: seq<Message>, deliveredAfter: set<string>, handedAfter: seq<ToolCall>)
    requires Distinct(handed) && Offered(handed, tools) && Recorded(delivered, handed)
    requires Answered(start, env.reply) && AllValid(start, env.isObject)
    requires forall call :: call in calls ==> ValidCall(call, env.isObject)
    ensures Distinct(handedAfter) && Offered(handedAfter, tools) && Recorded(deliveredAfter, handedAfter)
    ensures failed.None? ==>
              && handedAfter == handed + calls
              && start <= turn && IsResults(calls, turn[|start|..])
              && Answered(turn, env.reply) && AllValid(turn, env.isObject)
    ensures failed.Some? ==> failed.value in {NotOffered, RepeatedID, CallUntaken, CallCancelled, WrongResult}
    ensures failed.Some? ==> CallStops(failed.value, start, handed, calls, handedAfter, tools, env.reply)
    ensures failed == Some(WrongResult) ==> !Honest(env.reply)
  {
    hide ValidCall, ValidBoundedText, Honest, Distinct, Offered, Answered, AllValid, IsResults, ValidMessage, Recorded;
    var results: seq<Message> := [];
    turn, deliveredAfter, handedAfter, failed := start, delivered, handed, None;
    assert calls[..0] == [] && handed + [] == handed && start + [] == start;
    NoResults();
    var allowed := set tool | tool in tools :: tool.name;
    for i := 0 to |calls|
      invariant handedAfter == handed + calls[..i] && Distinct(handedAfter) && Offered(handedAfter, tools)
      invariant Recorded(deliveredAfter, handedAfter)
      invariant turn == start + results && IsResults(calls[..i], results)
      invariant Answered(turn, env.reply) && AllValid(turn, env.isObject)
    {
      var call := calls[i];
      assert calls[..i + 1] == calls[..i] + [call];
      if call.name !in allowed {
        failed := Some(NotOffered);
        assert StopsAt(NotOffered, start + results, handed, calls, i, handedAfter, tools, env.reply);
        return;
      }
      if call.id in deliveredAfter {
        failed := Some(RepeatedID);
        RecordedAt(deliveredAfter, handedAfter, call.id);
        assert StopsAt(RepeatedID, start + results, handed, calls, i, handedAfter, tools, env.reply);
        return;
      }
      HandedSnoc(handedAfter, call, tools, deliveredAfter);
      deliveredAfter := deliveredAfter + {call.id};
      handedAfter := handedAfter + [call];
      match env.reply(turn, call.id)
      case Untaken =>
        failed := Some(CallUntaken);
        assert StopsAt(CallUntaken, start + results, handed, calls, i, handedAfter, tools, env.reply);
        return;
      case Cancelled =>
        failed := Some(CallCancelled);
        assert StopsAt(CallCancelled, start + results, handed, calls, i, handedAfter, tools, env.reply);
        return;
      case Replied(callID, content) =>
        if callID != call.id {
          NotHonest(env.reply, turn, call.id);
          failed := Some(WrongResult);
          assert StopsAt(WrongResult, start + results, handed, calls, i, handedAfter, tools, env.reply);
          return;
        }
        var m := ResultMessage(call.id, content);
        ResultValid(call, content, env.isObject);
        AnsweredSnoc(turn, m, env.reply);
        AllValidSnoc(turn, m, env.isObject);
        ResultsSnoc(calls[..i], results, call, content);
        turn, results := turn + [m], results + [m];
    }
    assert calls[..|calls|] == calls && turn[|start|..] == results;
  }

  lemma RecordedAt(delivered: set<string>, handed: seq<ToolCall>, id: string)
    requires Recorded(delivered, handed) && id in delivered
    ensures exists call :: call in handed && call.id == id
  {
  }

  lemma NoResults()
    ensures IsResults([], [])
  {
  }

  lemma ResultsSnoc(calls: seq<ToolCall>, ms: seq<Message>, call: ToolCall, content: string)
    requires IsResults(calls, ms)
    ensures IsResults(calls + [call], ms + [ResultMessage(call.id, content)])
  {
  }

  lemma AllValidSnoc(ms: seq<Message>, m: Message, isObject: Json)
    requires AllValid(ms, isObject) && ValidMessage(m, isObject)
    ensures AllValid(ms + [m], isObject)
  {
  }

  lemma NotHonest(reply: (seq<Message>, string) -> Reply, turn: seq<Message>, id: string)
    requires reply(turn, id).Replied? && reply(turn, id).callID != id
    ensures !Honest(reply)
  {
  }

  lemma HandedSnoc(handed: seq<ToolCall>, call: ToolCall, tools: seq<ToolDefinition>, delivered: set<string>)
    requires Distinct(handed) && Offered(handed, tools) && Recorded(delivered, handed)
    requires call.id !in delivered && exists tool :: tool in tools && tool.name == call.name
    ensures Distinct(handed + [call]) && Offered(handed + [call], tools)
    ensures Recorded(delivered + {call.id}, handed + [call])
  {
    forall i | 0 <= i < |handed| ensures handed[i].id in delivered { assert handed[i] in handed; }
    assert call in handed + [call];
    forall c | c in handed ensures c in handed + [call] {}
  }

  lemma ResultValid(call: ToolCall, content: string, isObject: Json)
    requires ValidCall(call, isObject)
    ensures ValidMessage(ResultMessage(call.id, content), isObject)
  {
  }

  // ---- The whole turn ----

  /** The turn as it stands before the next pass: the user's text and one complete round for each pass so far. */
  predicate StandsAfter(sofar: seq<Message>, run: Run, passes: seq<Pass>) {
    && sofar != [] && sofar[0] == Message(User, run.userText, [], []) && Rounds(sofar[1..])
    && AssistantsIn(sofar) == AssistantsOf(passes)
  }

  /**
   Each request is the past turns followed by the turn as it stood before its pass, with the results of all calls until
   then; it is for the model of the run and its tools, and is valid.
   */
  predicate RequestsOf(requests: seq<Request>, passes: seq<Pass>, base: seq<Message>, turn: seq<Message>, run: Run,
                       tools: seq<ToolDefinition>, env: Environment)
  {
    forall k :: 0 <= k < |requests| ==>
      && k <= |passes| && base <= requests[k].messages <= base + turn
      && StandsAfter(requests[k].messages[|base|..], run, passes[..k])
      && requests[k].tools == tools && Ok(requests[k].model) == env.resolve(run.modelID)
      && ValidRequest(requests[k], env.isObject)
  }

  /** Each pass is what the stream of its request makes. */
  predicate PassesOf(passes: seq<Pass>, requests: seq<Request>, env: Environment) {
    && |passes| <= |requests|
    && forall k :: 0 <= k < |passes| ==> PassOf(env.stream(requests[k]).events, env.isObject) == Some(passes[k])
  }

  lemma TrimEmpty()
    ensures TrimSpace([]) == []
  {
  }

  lemma StartUnderway(run: Run, env: Environment)
    requires ValidRun(run)
    ensures Underway(run, [UserMessage(run.userText)], [], [], env)
  {
    var turn := [UserMessage(run.userText)];
    TrimEmpty();
    MessagesSnoc([], turn[0]);
    assert [] + [turn[0]] == turn;
  }

  lemma RequestValid(base: seq<Message>, turn: seq<Message>, model: string, tools: seq<ToolDefinition>, isObject: Json)
    requires AllValid(base, isObject) && AllValid(turn, isObject) && turn != []
    requires ValidBoundedText(model, 1024) && ValidTools(tools, isObject)
    ensures ValidRequest(Request(model, base + turn, tools), isObject)
  {
    hide ValidMessage, ValidBoundedText, ValidTools;
  }

  lemma RoundsGrow(turn: seq<Message>, m: Message, after: seq<Message>)
    requires turn != [] && Rounds(turn[1..]) && m.role == Assistant && m.toolCalls != []
    requires turn + [m] <= after && IsResults(m.toolCalls, after[|turn| + 1..])
    ensures Rounds(after[1..])
  {
    var round := after[|turn|..];
    assert round[1..] == after[|turn| + 1..] && round[|round|..] == [];
    assert round[1..|m.toolCalls| + 1] == round[1..];
    RoundsAppend(turn[1..], round);
    assert after[1..] == turn[1..] + round;
  }

  lemma MessagesGrow(turn: seq<Message>, m: Message, after: seq<Message>)
    requires m.role == Assistant
    requires turn + [m] <= after && IsResults(m.toolCalls, after[|turn| + 1..])
    ensures CallsIn(after) == CallsIn(turn) + m.toolCalls && AssistantsIn(after) == AssistantsIn(turn) + [m]
  {
    MessagesSnoc(turn, m);
    assert after[..|turn| + 1] == turn + [m];
    forall k | |turn| + 1 <= k < |after| ensures after[k].role == Tool && after[k].toolCalls == [] {
      assert after[k] == after[|turn| + 1..][k - |turn| - 1];
    }
    ResultsAdd(after, |turn| + 1);
  }

  /** A pass with calls, all answered, is one more round. */
  lemma RoundDone(run: Run, turn: seq<Message>, handed: seq<ToolCall>, passes: seq<Pass>, env: Environment, p: Pass,
                  after: seq<Message>)
    requires Underway(run, turn, handed, passes, env) && p.calls != []
    requires turn + [AssistantMessage(p)] <= after && IsResults(p.calls, after[|turn| + 1..])
    requires Answered(after, env.reply) && AllValid(after, env.isObject)
    ensures Underway(run, after, handed + p.calls, passes + [p], env)
  {
    hide AllValid, Answered, Rounds, IsResults, CallsIn, AssistantsIn;
    RoundsGrow(turn, AssistantMessage(p), after);
    MessagesGrow(turn, AssistantMessage(p), after);
    assert AssistantsOf(passes + [p]) == AssistantsOf(passes) + [AssistantMessage(p)];
    assert after[0] == turn[0];
  }

  /** Tool messages add neither calls nor assistant messages. */
  lemma {:induction false} ResultsAdd(ms: seq<Message>, n: nat)
    requires n <= |ms| && forall k :: n <= k < |ms| ==> ms[k].role == Tool && ms[k].toolCalls == []
    ensures CallsIn(ms) == CallsIn(ms[..n]) && AssistantsIn(ms) == AssistantsIn(ms[..n])
    decreases |ms|
  {
    if n < |ms| {
      ResultsAdd(ms[..|ms| - 1], n);
      assert ms[..|ms| - 1][..n] == ms[..n];
    } else {
      assert ms[..n] == ms;
    }
  }

  /** A pass without calls ends the turn. */
  lemma TurnDone(run: Run, turn: seq<Message>, handed: seq<ToolCall>, passes: seq<Pass>, env: Environment, p: Pass)
    requires Underway(run, turn, handed, passes, env) && p.calls == [] && p.text != []
    ensures var whole := turn + [AssistantMessage(p)];
            && TurnGrammar(run, whole) && CallsIn(whole) == handed && AssistantsIn(whole) == AssistantsOf(passes + [p])
            && Answered(whole, env.reply) && AllValid(whole, env.isObject)
  {
    var m := AssistantMessage(p);
    var whole := turn + [m];
    assert whole[1..|whole| - 1] == turn[1..];
    MessagesSnoc(turn, m);
    AnsweredSnoc(turn, m, env.reply);
    assert AssistantsOf(passes + [p]) == AssistantsOf(passes) + [m];
  }

  lemma PassValid(events: seq<Event>, isObject: Json)
    requires PassOf(events, isObject).Some?
    ensures forall call :: call in PassOf(events, isObject).value.calls ==> ValidCall(call, isObject)
  {
    hide ValidCall, Ascending, Indexes;
    PassCalls(events, isObject);
  }

  datatype PassResult = Stopped(why: Failure) | Ended(pass: Pass) | Continued(pass: Pass)

  /** A pass whose request is valid, and what is known about its result. */
  method Ask(request: Request, env: Environment) returns (r: Result<Pass>)
    ensures r.Ok? ==>
              && PassOf(env.stream(request).events, env.isObject) == Some(r.value)
              && (forall call :: call in r.value.calls ==> ValidCall(call, env.isObject))
    ensures var stream := env.stream(request);
            r.Ok? <==> Succeeds(stream.events, stream.accepts, stream.fails, env.isObject)
  {
    var stream := env.stream(request);
    var relayed;
    r, relayed := RunProviderPass(stream.events, stream.accepts, stream.fails, env.isObject);
    if r.Ok? {
      PassValid(stream.events, env.isObject);
    }
  }

  /** One provider pass and the calls it asks for. */
  method OnePass(run: Run, turn: seq<Message>, handed: seq<ToolCall>, ghost passes: seq<Pass>, delivered: set<string>,
                 request: Request, tools: seq<ToolDefinition>, env: Environment)
    returns (r: PassResult, turnAfter: seq<Message>, handedAfter: seq<ToolCall>, deliveredAfter: set<string>)
    requires Underway(run, turn, handed, passes, env) && Distinct(handed) && Offered(handed, tools)
    requires Recorded(delivered, handed)
    requires ValidRequest(request, env.isObject)
    ensures turn <= turnAfter && Distinct(handedAfter) && Offered(handedAfter, tools)
    ensures r.Stopped? ==> r.why != InvalidRequest && (r.why == WrongResult ==> !Honest(env.reply))
    ensures r.Stopped? ==> r.why !in {InvalidRun, CancelledEarly, ToolNames, ModelUnresolved, TooManyPasses}
    ensures r.Stopped? ==> turnAfter == turn && StopExplained(r.why, request, turn, handedAfter, tools, env)
    ensures !r.Stopped? ==> PassOf(env.stream(request).events, env.isObject) == Some(r.pass)
    ensures r.Ended? ==>
              && TurnGrammar(run, turnAfter) && CallsIn(turnAfter) == handedAfter
              && AssistantsIn(turnAfter) == AssistantsOf(passes + [r.pass])
              && Answered(turnAfter, env.reply) && AllValid(turnAfter, env.isObject)
    ensures r.Continued? ==>
              Underway(run, turnAfter, handedAfter, passes + [r.pass], env) && Recorded(deliveredAfter, handedAfter)
  {
    hide ValidCall, Answered, Honest, Distinct, Offered, PassOf, AllValid, Underway, TurnGrammar, ValidRequest;
    hide CallsIn, AssistantsIn, CallStops, Succeeds;
    turnAfter, handedAfter, deliveredAfter := turn, handed, delivered;
    var ok := Validate(request, env.isObject);
    if !ok {
      return Stopped(InvalidRequest), turn, handed, delivered;
    }
    var pass := Ask(request, env);
    if pass.Error? {
      return Stopped(ProviderFailed), turn, handed, delivered;
    }
    var p := pass.value;
    if p.calls == [] {
      if p.text == [] {
        return Stopped(NoText), turn, handed, delivered;
      }
      TurnDone(run, turn, handed, passes, env, p);
      turnAfter := turn + [AssistantMessage(p)];
      return Ended(p), turnAfter, handed, delivered;
    }
    RoundStarts(run, turn, handed, passes, env, p);
    UnderwayHanded(run, turn, handed, passes, env);
    var failed, after, deliveredNow, handedNow :=
      CallTools(turn + [AssistantMessage(p)], p.calls, tools, delivered, handed, env);
    if failed.Some? {
      return Stopped(failed.value), turn, handedNow, deliveredNow;
    }
    assert after[|turn| + 1..] == after[|turn + [AssistantMessage(p)]|..];
    RoundDone(run, turn, handed, passes, env, p, after);
    r, turnAfter, handedAfter, deliveredAfter := Continued(p), after, handedNow, deliveredNow;
  }

  lemma UnderwayHanded(run: Run, turn: seq<Message>, handed: seq<ToolCall>, passes: seq<Pass>, env: Environment)
    requires Underway(run, turn, handed, passes, env)
    ensures CallsIn(turn) == handed
  {
  }

  lemma RoundStarts(run: Run, turn: seq<Message>, handed: seq<ToolCall>, passes: seq<Pass>, env: Environment, p: Pass)
    requires Underway(run, turn, handed, passes, env) && p.calls != []
    requires forall call :: call in p.calls ==> ValidCall(call, env.isObject)
    ensures Answered(turn + [AssistantMessage(p)], env.reply) && AllValid(turn + [AssistantMessage(p)], env.isObject)
  {
    AnsweredSnoc(turn, AssistantMessage(p), env.reply);
  }

  /** What the requests and passes of a run were. */
  ghost predicate Traced(requests: seq<Request>, passes: seq<Pass>, base: seq<Message>, turn: seq<Message>, run: Run,
                         tools: seq<ToolDefinition>, env: Environment)
  {
    RequestsOf(requests, passes, base, turn, run, tools, env) && PassesOf(passes, requests, env)
  }

  lemma UnderwayStands(run: Run, turn: seq<Message>, handed: seq<ToolCall>, passes: seq<Pass>, env: Environment)
    requires Underway(run, turn, handed, passes, env)
    ensures StandsAfter(turn, run, passes)
  {
  }

  lemma TracedAsk(requests: seq<Request>, passes: seq<Pass>, base: seq<Message>, turn: seq<Message>, run: Run,
                  tools: seq<ToolDefinition>, env: Environment, request: Request)
    requires Traced(requests, passes, base, turn, run, tools, env) && |requests| == |passes|
    requires StandsAfter(turn, run, passes) && ValidRequest(request, env.isObject)
    requires request.messages == base + turn && request.tools == tools && Ok(request.model) == env.resolve(run.modelID)
    ensures Traced(requests + [request], passes, base, turn, run, tools, env)
  {
    hide ValidRequest, StandsAfter;
    assert request.messages[|base|..] == turn && passes[..|passes|] == passes;
  }

  lemma TracedPass(requests: seq<Request>, passes: seq<Pass>, base: seq<Message>, turn: seq<Message>,
                   more: seq<Message>, run: Run, tools: seq<ToolDefinition>, env: Environment, p: Pass)
    requires Traced(requests, passes, base, turn, run, tools, env) && turn <= more && |requests| == |passes| + 1
    requires PassOf(env.stream(requests[|passes|]).events, env.isObject) == Some(p)
    ensures Traced(requests, passes + [p], base, more, run, tools, env)
  {
    hide PassOf, ValidRequest, StandsAfter;
    assert base + turn <= base + more;
    forall k | 0 <= k < |requests| ensures (passes + [p])[..k] == passes[..k] {}
  }

  /** Why a run failed, told by the last request and what came of it. */
  ghost predicate Explained(why: Failure, turn: seq<Message>, handed: seq<ToolCall>, requests: seq<Request>,
                            passes: seq<Pass>, tools: seq<ToolDefinition>, env: Environment)
  {
    if why.TooManyPasses? then |passes| == |requests| == MAX_PASSES
    else |requests| == |passes| + 1 && StopExplained(why, requests[|passes|], turn, handed, tools, env)
  }

  ghost predicate StopExplained(why: Failure, request: Request, turn: seq<Message>, handed: seq<ToolCall>,
                                tools: seq<ToolDefinition>, env: Environment)
  {
    var stream := env.stream(request);
    var pass := PassOf(stream.events, env.isObject);
    match why
    case ProviderFailed => !Succeeds(stream.events, stream.accepts, stream.fails, env.isObject)
    case NoText => pass.Some? && pass.value.calls == [] && pass.value.text == []
    case _ =>
      && pass.Some?
      && CallStops(why, turn + [AssistantMessage(pass.value)], CallsIn(turn), pass.value.calls, handed, tools,
                   env.reply)
  }

  /** Whether the turn was committed. */
  predicate Committed(o: Outcome) { !o.Failed? }

  method Execute(fixed: seq<ToolDefinition>, run: Run, conversation: Conversation, maxTurns: nat, env: Environment)
    returns (outcome: Outcome, turn: seq<Message>, handed: seq<ToolCall>, requests: seq<Request>, passes: seq<Pass>)
    requires conversation.Valid() && ValidHistory(conversation.Window(), env.isObject)
    modifies conversation`turns, conversation`count, conversation`log, conversation.turns
    ensures conversation.Valid() && ValidHistory(conversation.Window(), env.isObject)
    ensures Committed(outcome) ==>
              && conversation.log == old(conversation.log) + [turn]
              && conversation.Window() == Last(old(conversation.Window()) + [turn], maxTurns)
              && TurnGrammar(run, turn) && CallsIn(turn) == handed && AssistantsIn(turn) == AssistantsOf(passes)
              && Answered(turn, env.reply)
    ensures !Committed(outcome) ==>
              conversation.log == old(conversation.log) && conversation.Window() == old(conversation.Window())
    ensures outcome.Completed? ==> env.takesUsage && outcome.usage == TotalUsage(passes)
    ensures outcome.UsageLost? ==> !env.takesUsage
    ensures outcome == Failed(InvalidRun) <==> !ValidRun(run)
    ensures outcome == Failed(CancelledEarly) <==> ValidRun(run) && env.cancelledEarly
    ensures outcome == Failed(ToolNames) <==>
              ValidRun(run) && !env.cancelledEarly && !ValidTools(fixed + run.mcpTools, env.isObject)
    ensures outcome == Failed(ModelUnresolved) <==>
              && ValidRun(run) && !env.cancelledEarly && ValidTools(fixed + run.mcpTools, env.isObject)
              && !(env.resolve(run.modelID).Ok? && ValidBoundedText(env.resolve(run.modelID).value, 1024)
                   && env.hasStreamer)
    ensures outcome.Failed? && outcome.why !in {InvalidRun, CancelledEarly, ToolNames, ModelUnresolved} ==>
              Explained(outcome.why, turn, handed, requests, passes, fixed + run.mcpTools, env)
    ensures Distinct(handed) && Offered(handed, fixed + run.mcpTools)
    ensures |requests| <= MAX_PASSES
    ensures Traced(requests, passes, Flatten(old(conversation.Window())), turn, run, fixed + run.mcpTools, env)
    ensures outcome != Failed(InvalidRequest) && (outcome == Failed(WrongResult) ==> !Honest(env.reply))
  {
    hide Honest, TurnGrammar, CallsIn, AssistantsIn, Answered, Distinct, Offered, Traced, ValidHistory, Flatten,
      ValidTools, ValidBoundedText,
      Underway, AllValid, ValidRequest, PassOf, TrimSpace, StandsAfter, StopExplained, ValidRun;
    turn, handed, requests, passes := [], [], [], [];
    ghost var base0 := Flatten(conversation.Window());
    Nothing(base0, run, fixed + run.mcpTools, env);
    if !ValidRun(run) {
      return Failed(InvalidRun), turn, handed, requests, passes;
    }
    if env.cancelledEarly {
      return Failed(CancelledEarly), turn, handed, requests, passes;
    }
    var merged := MergeRunTools(fixed, run.mcpTools, env.isObject);
    if merged.Error? {
      return Failed(ToolNames), turn, handed, requests, passes;
    }
    var tools := merged.value;
    var model := env.resolve(run.modelID);
    if model.Error? || !ValidBoundedText(model.value, 1024) || !env.hasStreamer {
      return Failed(ModelUnresolved), turn, handed, requests, passes;
    }
    var base := conversation.Messages();
    FlattenValid(conversation.Window(), env.isObject);
    var turnSoFar, delivered: set<string> := [UserMessage(run.userText)], {};
    var total := Usage(0, 0, 0, 0);
    StartUnderway(run, env);
    for pass := 0 to MAX_PASSES
      invariant turn == [] && Underway(run, turnSoFar, handed, passes, env) && Distinct(handed)
                  && Offered(handed, tools)
      invariant Recorded(delivered, handed)
      invariant |requests| == |passes| == pass && Traced(requests, passes, base, turnSoFar, run, tools, env)
      invariant total == TotalUsage(passes)
      invariant conversation.Valid() && conversation.log == old(conversation.log)
                  && conversation.Window() == old(conversation.Window())
      invariant conversation.turns == old(conversation.turns)
    {
      UnderwayValid(run, turnSoFar, handed, passes, env);
      var request := Request(model.value, base + turnSoFar, tools);
      RequestValid(base, turnSoFar, model.value, tools, env.isObject);
      UnderwayStands(run, turnSoFar, handed, passes, env);
      TracedAsk(requests, passes, base, turnSoFar, run, tools, env, request);
      requests := requests + [request];
      var r, turnAfter, handedAfter, deliveredAfter :=
        OnePass(run, turnSoFar, handed, passes, delivered, request, tools, env);
      handed, delivered := handedAfter, deliveredAfter;
      if r.Stopped? {
        assert requests[|passes|] == request;
        return Failed(r.why), turnSoFar, handed, requests, passes;
      }
      TracedPass(requests, passes, base, turnSoFar, turnAfter, run, tools, env, r.pass);
      UsageSnoc(passes, r.pass);
      var u := r.pass.usage;
      total := Usage(total.input + u.input, total.output + u.output,
                     total.cacheRead + u.cacheRead, total.cacheWrite + u.cacheWrite);
      passes := passes + [r.pass];
      if r.Ended? {
        HistoryGrows(conversation.Window(), turnAfter, maxTurns, env.isObject);
        conversation.AppendTurn(turnAfter, maxTurns);
        return if env.takesUsage then Completed(total) else UsageLost, turnAfter, handed, requests, passes;
      }
      turnSoFar := turnAfter;
    }
    return Failed(TooManyPasses), turnSoFar, handed, requests, passes;
  }

  lemma Nothing(base: seq<Message>, run: Run, tools: seq<ToolDefinition>, env: Environment)
    ensures Distinct([]) && Offered([], tools) && forall turn :: Traced([], [], base, turn, run, tools, env)
  {
  }

  lemma UnderwayValid(run: Run, turn: seq<Message>, handed: seq<ToolCall>, passes: seq<Pass>, env: Environment)
    requires Underway(run, turn, handed, passes, env)
    ensures turn != [] && AllValid(turn, env.isObject)
  {
  }

  lemma UsageSnoc(passes: seq<Pass>, p: Pass)
    ensures var t := TotalUsage(passes);
            TotalUsage(passes + [p]) == Usage(t.input + p.usage.input, t.output + p.usage.output,
                                              t.cacheRead + p.usage.cacheRead, t.cacheWrite + p.usage.cacheWrite)
  {
    assert (passes + [p])[..|passes|] == passes;
  }

  lemma HistoryGrows(turns: seq<Turn>, turn: Turn, maxTurns: nat, isObject: Json)
    requires ValidHistory(turns, isObject) && AllValid(turn, isObject)
    ensures ValidHistory(Last(turns + [turn], maxTurns), isObject)
  {
    forall t | t in Last(turns + [turn], maxTurns) ensures AllValid(t, isObject) {
      assert t in turns + [turn];
    }
  }
}
