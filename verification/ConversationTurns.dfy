/** The turn runner as one of the threads of ConversationRuns: what its requests and its commit are there. */
module ConversationTurns {
  import opened Common
  import opened Accumulator
  import opened ProviderTypes
  import opened Conversations
  import Runs = ConversationRuns
  import TurnRunner

  /** A thread that has locked the conversation o and has committed nothing yet. */
  predicate Enters(y: Runs.System, t: nat, o: nat) {
    t in y.threads && y.threads[t].Inside? && y.threads[t].o == o && !y.threads[t].committed && o < |y.objects|
  }

  /** The object of the conversation holds the window of this state, and its history all that was committed to it. */
  ghost predicate Holds(conversation: Conversation, y: Runs.System, o: nat)
    reads conversation, conversation.turns
  {
    && conversation.Valid() && o < |y.objects|
    && conversation.Window() == y.objects[o].window && conversation.log == Runs.LogOf(y.commits, o)
  }

  /** Every request is these past turns, and then the turn as it stood after the passes before, with all results. */
  predicate BuiltOn(requests: seq<Request>, passes: seq<Pass>, past: seq<Turn>, run: TurnRunner.Run,
                    turn: seq<Message>)
  {
    forall k :: 0 <= k < |requests| ==>
      && k <= |passes| && Flatten(past) <= requests[k].messages <= Flatten(past) + turn
      && TurnRunner.StandsAfter(requests[k].messages[|Flatten(past)|..], run, passes[..k])
  }

  lemma TracedBuiltOn(requests: seq<Request>, passes: seq<Pass>, past: seq<Turn>, turn: seq<Message>,
                      run: TurnRunner.Run, tools: seq<ToolDefinition>, env: TurnRunner.Environment)
    requires TurnRunner.Traced(requests, passes, Flatten(past), turn, run, tools, env)
    ensures BuiltOn(requests, passes, past, run, turn)
  {
    hide Flatten, ValidRequest, TurnRunner.PassesOf, TurnRunner.StandsAfter;
  }

  /** What a thread that enters has read, and what committing does. */
  lemma CommitStep(run: seq<Runs.Action>, maxTurns: nat, t: nat, o: nat, turn: Turn)
    requires Runs.After(run, maxTurns).Some? && Enters(Runs.After(run, maxTurns).value, t, o)
    ensures var y := Runs.After(run, maxTurns).value;
            && y.threads[t].base == y.objects[o].window == Last(Runs.LogOf(y.commits, o), maxTurns)
            && Runs.After(run + [Runs.Commits(t, turn)], maxTurns).Some?
            && var z := Runs.After(run + [Runs.Commits(t, turn)], maxTurns).value;
            && z.commits == y.commits + [Runs.Commit(o, y.objects[o].window, turn)] && |z.objects| == |y.objects|
            && z.objects[o].window == Last(y.objects[o].window + [turn], maxTurns)
            && Runs.LogOf(z.commits, o) == Runs.LogOf(y.commits, o) + [turn]
  {
    hide Runs.LogOf;
    Runs.KeptAlways(run, maxTurns);
    var y, a := Runs.After(run, maxTurns).value, Runs.Commits(t, turn);
    assert (run + [a])[..|run|] == run;
    Runs.LogSnoc(y.commits, Runs.Commit(o, y.objects[o].window, turn), o);
  }

  /**
   Execute, run by a thread of ConversationRuns that has locked the conversation, while others take any steps: its
   requests are built on the last maxTurns turns committed before it entered, which are the base of its commit, and what
   it does to the conversation is that commit, or nothing. more are the steps of the others until then.
   */
  method ExecuteInside(ghost run: seq<Runs.Action>, ghost more: seq<Runs.Action>, ghost t: nat, ghost o: nat,
                       fixed: seq<ToolDefinition>, request: TurnRunner.Run, conversation: Conversation, maxTurns: nat,
                       env: TurnRunner.Environment)
    returns (outcome: TurnRunner.Outcome, turn: seq<Message>, requests: seq<Request>, passes: seq<Pass>,
             ghost after: seq<Runs.Action>)
    requires Runs.After(run, maxTurns).Some? && Enters(Runs.After(run, maxTurns).value, t, o)
    requires Runs.After(run + more, maxTurns).Some? && forall a :: a in more ==> a.t != t
    requires Holds(conversation, Runs.After(run, maxTurns).value, o)
    requires TurnRunner.ValidHistory(conversation.Window(), env.isObject)
    modifies conversation`turns, conversation`count, conversation`log, conversation.turns
    ensures after == run + more + if TurnRunner.Committed(outcome) then [Runs.Commits(t, turn)] else []
    ensures Runs.After(after, maxTurns).Some? && Holds(conversation, Runs.After(after, maxTurns).value, o)
    ensures var y := Runs.After(run, maxTurns).value;
            BuiltOn(requests, passes, Last(Runs.LogOf(y.commits, o), maxTurns), request, turn)
    ensures TurnRunner.Committed(outcome) ==>
              var commits := Runs.After(after, maxTurns).value.commits;
              commits != [] && var c := commits[|commits| - 1];
              && c.o == o && c.turn == turn && BuiltOn(requests, passes, c.base, request, c.turn)
              && TurnRunner.TurnGrammar(request, c.turn)
  {
    hide Runs.After, Runs.LogOf, TurnRunner.TurnGrammar, TurnRunner.Traced, BuiltOn, TurnRunner.ValidHistory;
    var handed;
    ghost var past := conversation.Window();
    outcome, turn, handed, requests, passes := TurnRunner.Execute(fixed, request, conversation, maxTurns, env);
    Runs.OthersLeave(run, more, maxTurns, t);
    CommitStep(run + more, maxTurns, t, o, turn);
    TracedBuiltOn(requests, passes, past, turn, request, fixed + request.mcpTools, env);
    after := run + more + if TurnRunner.Committed(outcome) then [Runs.Commits(t, turn)] else [];
    assert run + more + [] == run + more;
  }
}
