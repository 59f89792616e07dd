# Verified model of the local agent gateway

This project models the concurrent core and the codecs of a local gateway between the Cursor CLI and model providers,
and proves properties of the model with Dafny 4.11. `dafny verify dfyconfig.toml` checks all of it.

The parts, from the hardest down:

- **The agent session** (`SessionModel`, `SessionObject`, `SessionProtocol`, `SessionIdentity`, `SessionAsked`, `SessionLog`,
  `SessionInquiry`, `SessionRuns`, `SessionHistory`). `SessionModel` says what each critical section does to a session as a value.
  `SessionObject` is the object with its fields and its two pending indexes; every method is proved to do to the object
  what the model does to the value. `SessionProtocol` lets any number of threads take these critical sections in any order,
  together with the channel operations, cancellation and the timer of the MCP query. The invariants of four modules are
  collected in `SessionRuns`, whose lemmas speak of every reachable state: one result for a call, with its own call ID; a send
  that never waits; a log of each call with a fixed grammar, in which an Edit has one Write at most and shell output adds up
  to the reported text; an MCP query that cannot hang and loses no accepted answer; one start, and a final state. `SessionHistory` tells
  from the run where each call, each result and each entry of the log comes from.
- **Streams** (`SessionStream`, `Connect`). Replay to any number of subscribers with heartbeats, down to the bytes; no lost
  wake-up with one live stream at a time.
- **All sessions of a server** (`SessionRegistry`, `SessionWorld`). Pruning, making room, the allocator of message IDs, and why a
  detached tool result matches one session at most.
- **The turn runner** (`TurnRunner`, `Accumulator`, `ChatAdapter`, `ChatPass`, `ProviderTypes`). Provider passes put together from
  deltas, and these from the chunks of a chat stream; tool calls, one commit; the grammar of every committed turn; requests that
  are always valid and hold the turn so far.
- **The conversation registry** (`Conversations`, `ConversationRuns`, `ConversationTurns`). The in-place window refines an unbounded
  log; what is evicted; concurrent turns are serialisable, and the turn runner is one of the threads of this.
- **The daemon** (`DaemonLock`, `DaemonManager`, `DaemonService`, `DaemonSteps`, `IdleMonitor`). Wrappers, daemons and stop
  commands over one flock and one state file, with processes that may die at any time; the order of effects under the lock,
  and that the code which has them takes just these steps; the idle wait.
- **Codecs** (`Wire`, `WireFormat`, `ProtoValue`, `ProtoGrammar`, `Sse`, `SseStandard`, `Utf8`, `ShellOutput`, `TextEdit`, `McpSummary`, `ListTree`). Wire
  fields of Protocol Buffers and JSON trees as `google.protobuf.Value`, each with a grammar of which the decoder accepts just the words, server-sent events over a buffered reader, truncation, replacement, listing.

How to read the session results: `SessionRuns.Reachable(y)` holds of a state after any run of `SessionProtocol`. A call is
named by a number, which stands for its pendingTool object and for the result channel it was opened with.

## What the proofs found

- The contents of the Write that follows an Edit pass through `json.Marshal`, so bytes that are not valid UTF-8 become U+FFFD:
  the client writes the edited text exactly when that text is valid (`SessionModel.WriteIsTheEdit`), and not, for one, when it
  changes `a` in a file that has the byte FF (`SessionModel.InvalidReadRewritten`).
- "Multiple matches" counts occurrences from the left without overlap (`TextEdit.EditMeaning`): `aa` occurs once in `aaa`
  (`TextEdit.OverlapCountsOnce`).
- A result can be taken although an ID it carries is not that of the call: an unknown exec ID with the right message ID
  (`SessionModel.UnknownExecTaken`), or the right exec ID with the message ID of another call
  (`SessionModel.OthersMessageTaken`). It is taken exactly if the call is a Read, or an Edit waiting for its Read, and the result
  says something about a read (`SessionModel.WrongIdentityTaken`); a detached result is never taken so.
- The start timer of a stream can end a session that was already started. It can exactly as long as this stream has not looked at
  the session since the start (`SessionStream.StartTimerRace`): before it takes the token that tells of the start
  (`SessionStream.StartedSessionTimesOut`), or after another stream took that token (`SessionStream.TokenTakenTimesOut`).
- The idle monitor puts its token into the channel only after it has unlocked. In between, a waiter can sleep without a timer
  although the daemon is idle (`IdleMonitor.SleepsUntilSignal`); the token that is due wakes it (`IdleMonitor.IdleWakesWaiter`).
- The check of the provider request in `Execute` can never fail (`TurnRunner.Execute`), nor can the check that a result carries
  the ID of its call when results come from a session (`TurnRunner.SessionRepliesHonest`).
- `EncodeConnectMessage` writes the length modulo 2^32: a message can be read back exactly when it is shorter than 4 GiB
  (`Connect.ReadBackBelow4GiB`); the header of one of 4 GiB says that nothing follows (`Connect.TooLongUnread`).
- A wrapper that times out while killing its child still unlocks the shared description; the child can then remove the state of
  another instance without holding the lock (`DaemonLock.LateChildRemovesAnothersState`). Without such a timeout it cannot.
- A directory at the last depth has its files left out of a listing without the truncation flag (`ListTree.LastFileLost`): a
  listing without the flag is complete exactly when there is no such file (`ListTree.ListingComplete`). The flag can also be set
  when all is there (`ListTree.FullListingFlagged`): of listings that fit and are not too deep exactly for those of 4096 entries
  whose root has a subdirectory or a last file without a name (`ListTree.FlagWithoutLoss`).
- The truncation marker of an MCP result can come although nothing is missing (`McpSummary.FullItemMarked`): with at most 64
  items exactly when the visible ones fill the limit and no visible structured content follows (`McpSummary.MarkerWithoutLoss`).
- The SSE reader dispatches an event that the end of the input cuts off, takes only LF and CR LF as line ends, and passes bytes on
  as they are. Section 9.2.6 of the WHATWG HTML Standard discards such an event, also ends lines at a lone CR, and decodes the
  input, which drops a byte order mark and replaces what is no UTF-8 (`SseStandard.UnendedDispatched`, `SseStandard.LoneCRKept`,
  `SseStandard.MarkKept`, `SseStandard.InvalidKept`). Without a mark and a lone CR the two agree exactly if no data is left at the
  end and every event is valid UTF-8, as in valid input it is (`SseStandard.AgreesWithStandard`).

## Model

| member | source | states |
|---|---|---|
| SessionRuns.OneResult | internal/server/agent.go:1087-1099 | In every reachable state a call has at most one result, counted over the way to its channel, the channel and what was taken from it; none while it is pending; it carries the call's own ID, and a shell report says what was captured for that call |
| SessionRuns.SendNeverBlocks | internal/server/agent.go:1094-1099 | The capacity-1 channel of a call always has room for the result on its way |
| SessionRuns.LogOfCall | internal/server/agent.go:848-857 | The log of a call is dispatch, start, body, completion; until the session ends, the call is pending exactly as long as its completion is missing |
| SessionRuns.EditTransaction | internal/server/agent.go:935-1011 | An Edit dispatches at most one Write, right after its start, exactly if a read was taken for it, with the edited text of that read; none in the read phase |
| SessionRuns.ReadWasSent | internal/server/agent.go:937-998 | The read an Edit went on from is the content of a client result that was applied to this Edit earlier in the run |
| SessionRuns.ShellLogIsReport | internal/server/agent.go:1018-1061 | The chunks in the log of a shell call concatenate to the text its result reports, valid UTF-8 and within the bound on each stream; the truncated flag is off exactly when nothing of the repaired output is missing |
| SessionRuns.NamesOne | internal/server/agent.go:904-914 | A result that names IDs in use means one pending call, never the MCP query as well, and the lookup finds that call |
| SessionRuns.NextCallIsFresh | internal/server/agent.go:767-773 | The IDs about to be made are free, as the methods of the session object ask |
| SessionRuns.AcceptedIsReturned | internal/server/agent.go:676-732 | At most one state result is accepted; the asker returns it unless the session is cancelled; a timeout is reported only if nothing was accepted; after its timer the asker waits on without an accepted result only in a session that has ended |
| SessionRuns.LateAskerReturns | internal/server/agent.go:700-710 | After the timer lost the race the second wait has no deadlock: one or two steps end it that the asker can take, or that a sender with a result in hand or a finish that has yet to cancel the context is about to take |
| SessionRuns.LateWaitShrinks | internal/server/agent.go:700-710 | No step of any thread puts more of these steps before the end of that wait, and each that is taken leaves fewer |
| SessionRuns.LateAnswerRefused | internal/server/agent.go:887-914 | A result that names the IDs of a query that was answered, timed out or was cancelled is refused and changes nothing |
| SessionRuns.EvolvesAlways | internal/server/agent.go:1189-1215 | From any state of a run to any later one the log only grows, the run stays as set, and after the end events, code, message, time and pending calls never change |
| SessionRuns.EvolvesStep | internal/server/agent.go:734-748 | Every step changes a session only in that way |
| SessionRuns.StartsOnce | internal/server/agent.go:627-644 | Of all attempts to start a session one begins the run at most |
| SessionRuns.KeptAlways | internal/server/agent.go:877-1100 | All invariants of results, log, IDs and query hold after every run |
| SessionHistory.ResultWasSaid | internal/server/agent.go:1087-1099 | Every result on its way to the channel of a call, in it or taken out of it has the content and error flag that a client result said, applied earlier in the run to this call while it was pending |
| SessionHistory.NoResultLost | internal/server/agent.go:1087-1099 | As long as a session is not cancelled, every call whose completion is logged has its result on the way to its channel, in it or taken out of it |
| SessionHistory.OpensExactly | internal/server/agent.go:750-859 | In a reachable state a call is opened exactly if its arguments fit a built-in tool or its name is that of a tool of the run; then it is pending, and the client is asked for just what was asked for |
| SessionHistory.OpenedFor | internal/server/agent.go:766-773 | What a call asks for is what it was opened for, with the IDs made then |
| SessionHistory.StateWasSent | internal/server/agent.go:887-903 | What was accepted for the MCP query is the state of a client result that named the pending query |
| SessionHistory.QueryNamed | internal/server/agent.go:1130-1135 | A result answers the pending query exactly if it carries one of its IDs at least, and no other |
| SessionHistory.LookupExactly | internal/server/agent.go:904-910 | The call a result leads to has its exec ID, if any call has, and else its message ID |
| SessionHistory.DetachedNamed | internal/server/agent.go:861-875 | The test for detached results passes one exactly if it carries an ID of the query or of a pending call, and no other |
| SessionHistory.QueryWasSent | internal/server/agent.go:676-690 | The IDs of the query are those in the query that was logged for the client |
| SessionHistory.ToolsOffered | internal/server/agent.go:655-732 | What enrichRunWithMCP returns is the run with just the tools whose calls the session opens: its own, or those discovered for a run that lacks them |
| SessionHistory.SetOnce | internal/server/agent.go:627-644 | The run is set by the first start before the end, code, message and time by the first finish, and no other step sets either |
| SessionHistory.LogBeyondCalls | internal/server/agent.go:734-748 | Beyond its calls the log holds what was published, asked and said in closing, in the order of the run, and nothing else |
| SessionProtocol.DeliveryStep | internal/server/agent.go:1087-1099 | Each step keeps every result in one place, with captures equal to what was heard |
| SessionLog.LogStep | internal/server/agent.go:848-857 | Each step keeps the grammar of the log of every call |
| SessionIdentity.IDsStep | internal/server/agent.go:988-994 | Each step, including the re-keying of an Edit, keeps the transport IDs issued, distinct and apart from the query's, and the pending calls in shape |
| SessionInquiry.InquiryStep | internal/server/agent.go:676-732 | Each step keeps what is known of the MCP query in every state of its asker |
| SessionAsked.AskedStep | internal/server/agent.go:676-680 | Each step keeps the IDs of a query unused by calls, also after the query is gone |
| SessionModel.ApplyHasEffect | internal/server/agent.go:877-1100 | Whatever a client sends has one of six effects on a session, and none after its end |
| SessionModel.TakenForItsCall | internal/server/agent.go:904-914 | A result is taken for the call its exec ID, else its message ID leads to; its IDs are then those of the call, unless that is a Read or an Edit waiting for one, and always after the test for detached results |
| SessionModel.DeliversWhatIsSaid | internal/server/agent.go:918-1099 | A call ends with some content and error flag exactly if the result that leads to it has its IDs (a Read, or an Edit waiting for one, takes any), its completion can be encoded, and it says just that: what the client says for the tool it was asked for, how a file was read, why an edit cannot be made, or a shell exit with all that was captured, an error exactly for a code other than 0; the call is then gone and its completion logged |
| SessionModel.TakenExactly | internal/server/agent.go:877-934 | A result is taken at all exactly if it answers the MCP query with a state, or leads to a pending call that takes its IDs and can use what it says |
| SessionModel.WrongIdentityTaken | internal/server/agent.go:904-934 | A result with an ID that is not that of the call it leads to is taken exactly if the call is a Read, or an Edit waiting for its Read, and the result says something about a read; the test for detached results never passes it |
| SessionModel.UnknownExecTaken | internal/server/agent.go:918-934 | A Read takes a result with the right message ID and an unknown exec ID; another file tool refuses it |
| SessionModel.OthersMessageTaken | internal/server/agent.go:904-934 | A Read takes a result with its exec ID and the message ID of another pending call |
| SessionModel.EditReadDecides | internal/server/agent.go:937-998 | The read of an Edit leads to a Write of the pieces joined by new_string when old_string occurs once, or more often with replace_all; a failed read or any other count completes the call with an error and no Write |
| SessionModel.WriteIsTheEdit | internal/server/agent.go:963-966 | The Write asks for the edited text exactly when that is valid UTF-8, and always when content and arguments are |
| SessionModel.InvalidReadRewritten | internal/server/agent.go:963-966 | An Edit of a text with the byte FF, and the three bytes the Write has in its place |
| SessionObject.AgentSession.IndexesSearch | internal/server/agent.go:904-910 | With both indexes holding every call under its current IDs, index lookup is search |
| SessionObject.AgentSession.Start | internal/server/agent.go:627-644 | Start, repeated start, conflicting start and start after the end, with the wake-up token |
| SessionObject.AgentSession.Publish | internal/server/agent.go:734-748 | The event is logged unless the session has ended or is cancelled |
| SessionObject.AgentSession.OpenTool | internal/server/agent.go:750-859 | The call is filed in both indexes and its two events logged, or nothing changes |
| SessionObject.AgentSession.MatchesToolResult | internal/server/agent.go:861-875 | The test for detached results, told without the indexes |
| SessionObject.AgentSession.Rekey | internal/server/agent.go:988-994 | The Edit's entry leaves its old IDs in both indexes and is filed under those of the Write |
| SessionObject.AgentSession.CompleteCall | internal/server/agent.go:1087-1093 | The call leaves both indexes, its completion is logged and its result handed on |
| SessionObject.AgentSession.ApplyEditReadResult | internal/server/agent.go:937-998 | The read phase of an Edit on the object is that of the model |
| SessionObject.AgentSession.ApplyShellResult | internal/server/agent.go:1018-1061 | Shell events on the object are those of the model |
| SessionObject.AgentSession.ApplyToolResult | internal/server/agent.go:877-1100 | All of applyToolResult under the lock, for every kind of tool, is the model's Apply, of which DeliversWhatIsSaid and TakenExactly tell what it makes of a result; the token is left exactly when there is something new to see |
| SessionObject.AgentSession.Finish | internal/server/agent.go:1189-1212 | The first finish fixes events, code, message and time and drops all pending work; later ones do nothing |
| SessionObject.AgentSession.BeginMcpDiscovery | internal/server/agent.go:663-690 | The query is registered and logged unless one is pending or the session has ended |
| SessionObject.AgentSession.ClearMcpDiscovery | internal/server/agent.go:713-721 | Only the caller's own query is cleared |
| SessionObject.AgentSession.Snapshot | internal/server/agent.go:1223-1236 | The events from the cursor on and the end as of the same instant |
| SessionStream.ReplayIsExact | internal/server/agent.go:413-473 | A stream that reached its end wrote the whole log once, in order, then the end; any two such streams agree but for heartbeats |
| SessionStream.ReplayDecodes | internal/server/agent.go:439-450 | Reading its bytes as Connect envelopes and dropping heartbeats yields the log, then the end message, then a clean end |
| SessionStream.ReachesEnd | internal/server/agent.go:439-450 | Whatever a stream was doing when the session ended, it comes by its own steps to the end frame of that session |
| SessionStream.BrokenOffByLeaving | internal/server/agent.go:452-456 | A stream is over without its end only if its client left |
| SessionStream.HeartbeatsAreBeats | internal/server/agent.go:462-471 | It has written one heartbeat for each time that its heartbeat came while it waited |
| SessionStream.NoLostWakeUp | internal/server/agent.go:452-458 | With one live stream at a time, a waiting stream that has something to see finds a token, takes it, and then sees everything in the next snapshot |
| SessionStream.StartTimerRace | internal/server/agent.go:413-461 | After every run the start timer of a waiting stream can end a session, started or not, exactly when that has not ended and the stream has not looked at it since its run was set |
| SessionStream.ArmedAlways | internal/server/agent.go:430-438 | The timer of a stream is off exactly when the stream has noticed the run or the timer has fired, and then the session has ended |
| SessionStream.StartedSessionTimesOut | internal/server/agent.go:457-461 | A run in which it ends a started session before the token is taken |
| SessionStream.TokenTakenTimesOut | internal/server/agent.go:457-461 | A run in which it does so after another stream took the token |
| SessionStream.AloneRaceLeavesToken | internal/server/agent.go:457-461 | With one live stream at a time the timer ends a started session only while the token of the start is unread |
| SessionStream.KeptAlways | internal/server/agent.go:427-458 | After every run, what each stream has written is the log up to its cursor |
| SessionRegistry.Registry.PruneExpiredSessions | internal/server/agent.go:513-520 | Only sessions go whose time of end, which is not 0, and retention together are not after now, and all that were so at the first look, in whatever order the map is read and whatever sessions end meanwhile |
| SessionRegistry.Registry.MakeRoomForSession | internal/server/agent.go:522-541 | Terminal sessions go, none later than one that is kept and had ended before, no more than needed, and enough of them or all that had ended before; sessions may end during every scan |
| SessionRegistry.Registry.Session | internal/server/agent.go:494-511 | The session of a request ID, or a new one after pruning and making room |
| SessionRegistry.QuietLookup | internal/server/agent.go:494-511 | If no session ends meanwhile, exactly the expired ones are pruned, and an ID leads to its old session exactly if that is not one of them |
| SessionRegistry.SizeBound | internal/server/agent.go:502-509 | After a registration there are more than the maximum only if all others were still going on when it began |
| SessionRegistry.KeptUntilEnded | internal/server/agent.go:513-541 | Through any history of lookups and prunings an ID keeps leading to its session until that has ended |
| SessionRegistry.OneSession | internal/server/agent.go:494-511 | All appends and reconnects of a request ID reach one session until it has ended |
| SessionRegistry.Allocator.AllocateMessageID | internal/server/agent.go:543-549 | The next uint32, skipping 0 |
| SessionRegistry.NthDistinct | internal/server/agent.go:543-549 | IDs are never 0, and two are equal exactly when a multiple of 2^32 - 1 lies between them |
| SessionWorld.DetachedMatchesOne | internal/server/agent.go:551-577 | In every run of all sessions of a server, sharing the allocator, no detached result matches two sessions, even if the second is tested after any number of further steps |
| SessionWorld.Assign | internal/server/agent.go:563-576 | The loop assigns a result to the only match, and reports none or several |
| Connect.EncodeConnectMessage | internal/protocol/connect.go:13-18 | The buffer is the byte 0, the length modulo 2^32 with its most significant byte first, and the payload |
| Connect.EncodeConnectEnd | internal/protocol/connect.go:81-90 | The same with the byte 2 |
| Connect.DecodeConnectRequest | internal/protocol/connect.go:20-46 | A body is accepted exactly when it is the envelope of one message within the limit and below 4 GiB, told by its bytes, and that message is returned |
| Connect.ReadBackBelow4GiB | internal/protocol/connect.go:13-18 | A message within the limit is read back exactly when it is shorter than 4 GiB |
| Connect.TooLongUnread | internal/protocol/connect.go:13-18 | A message of 4 GiB, whose envelope announces nothing and which no limit lets through |
| Connect.ReadConnectMessage | internal/protocol/connect.go:48-79 | One message, a clean end, or a failure, and what is left unread |
| Connect.NextExactly | internal/protocol/connect.go:48-79 | One message is read exactly if the bytes start with its envelope and it is within the limit, and a clean end is one without any bytes |
| Connect.ReadInvertsWrite | internal/protocol/connect.go:13-18 | Messages written one after the other are read back, then a clean end |
| Connect.WriteInvertsRead | internal/protocol/connect.go:48-79 | Whatever is read to a clean end was the envelopes of what was read, and nothing else |
| TurnRunner.Execute | internal/agent/runner.go:54-155 | Every committed turn is user, rounds of calls and results, final text, with the passes' texts and calls, the replies the calls got, distinct call IDs and offered names; history is extended by that one turn or unchanged, also on every error but the final usage report; at most 16 requests, each valid, for the resolved model and the merged tools, with the history and then the turn as it stood before its pass, all results included; usage is the sum of all passes; each failure comes exactly where the run, the tools or the model are at fault, or is explained by the last request and what came of it |
| TurnRunner.SessionRepliesHonest | internal/agent/runner.go:134-150 | When every result comes out of the channel of the call opened for it, it carries the ID of that call |
| TurnRunner.CallTools | internal/agent/runner.go:126-152 | Calls are handed out one by one, each offered and never repeated in the run, and answered in order |
| TurnRunner.MergeRunTools | internal/agent/runner.go:157-182 | Tools are merged exactly when names, across both lists, are distinct and valid |
| TurnRunner.RoundsAppend | internal/agent/runner.go:124-151 | Rounds followed by rounds are rounds |
| Accumulator.RunProviderPass | internal/agent/runner.go:197-265 | A pass succeeds exactly when every event is valid, every relay and the stream succeed and all calls are complete; then text, usage, calls and what was relayed are as the events say |
| Accumulator.CollectCalls | internal/agent/runner.go:246-264 | The calls in ascending order of their index, or none if one is incomplete |
| Accumulator.GatherMerges | internal/agent/runner.go:218-231 | The accumulator of an index holds what the deltas of that index make, whatever came in between |
| Accumulator.InterleavingIrrelevant | internal/agent/runner.go:197-265 | Streams with the same deltas for each index, text and usage make the same pass |
| Accumulator.PassCalls | internal/agent/runner.go:246-264 | One call for each index, strictly ascending, with the trimmed last ID and last name among the deltas of that index that have one, their fragments of arguments end to end, and one delta that said it was done |
| Accumulator.PassExactly | internal/agent/runner.go:246-264 | The calls of a pass are complete exactly if the deltas of each index say a valid call |
| Accumulator.PassText | internal/agent/runner.go:208-217 | The text of a pass is its text deltas end to end, without reasoning, and its usage the last report |
| Accumulator.RelayedIs | internal/agent/runner.go:208-213 | What is relayed is the text and the reasoning, each as it came and in order |
| ChatAdapter.ChatStream.StreamChat | internal/provider/openai/chat.go:62-138 | A stream goes well exactly if no chunk fails, every event that its chunks give rise to is valid and accepted, and the terminal event came; the callback is passed the events of the chunks before the first failure, up to the first one that is invalid or refused; no index is marked as done twice or before one of its deltas |
| ChatAdapter.ChatStream.FinishSeen | internal/provider/openai/chat.go:103-118 | A finish reason marks every index seen and not yet done, in ascending order, and says nothing else |
| ChatAdapter.MarkedExactly | internal/provider/openai/chat.go:98-118 | An index is marked as done exactly if a choice that finishes with tool calls comes at or after one with a delta of it |
| ChatAdapter.MarksInOrder | internal/provider/openai/chat.go:103-118 | At most one mark for an index and after a delta of it, ascending where they follow each other; but for them the events are what choices and usage reports say, in order |
| ChatPass.ChatPassExactly | internal/provider/openai/chat.go:75-127 | A provider pass over a chat stream has complete calls exactly if each index with a fragment is finished afterwards and its fragments make a valid call |
| ChatPass.ChatPassHolds | internal/provider/openai/chat.go:75-127 | It then holds the contents end to end, the last usage, and by ascending index the call of each index: last ID, last name and all arguments of its fragments |
| ProviderTypes.Validate | internal/provider/types.go:48-74 | A request is accepted exactly when model, messages and tools are valid and tool names distinct |
| ProviderTypes.BoundedTextIs | internal/provider/types.go:181-183 | An identifier is not empty, not too long, and has no space at either end and no control character |
| Conversations.Conversation.AppendTurn | internal/agent/conversation.go:132-142 | The window becomes the last maxTurns turns, shifted in place, with the new one at its end; a window that refines the unbounded log still does |
| Conversations.Conversation.DropFirst | internal/agent/conversation.go:138-141 | Shifting in place drops exactly the first turns |
| Conversations.Conversation.Messages | internal/agent/conversation.go:118-130 | All messages of the window in order |
| Conversations.ConversationRegistry.Acquire | internal/agent/conversation.go:54-68 | The conversation of the ID, or a new one if it may be made, held once more and still mapped after the eviction; nothing changes if there is none; other IDs keep their conversations or are evicted; as before, there are not too many conversations or all are active |
| Conversations.ConversationRegistry.Snapshot | internal/agent/conversation.go:106-116 | The messages of the window, or none without a conversation, which is not made; nothing stays held, and the conversation counts as used last in the eviction that follows |
| Conversations.ConversationRegistry.Release | internal/agent/conversation.go:71-78 | One holder less, and the eviction that follows, after which there are not too many conversations or all are active |
| Conversations.ConversationRegistry.EvictInactive | internal/agent/conversation.go:86-104 | Inactive conversations go, least recently used first, no more than needed, until the size fits or all are active |
| Conversations.EvictionUnique | internal/agent/conversation.go:86-104 | What is evicted does not depend on the order in which the map is read |
| ConversationRuns.Serialisable | internal/agent/runner.go:71-121 | In every run of concurrent turns each commit was built on the last maxTurns turns of the commits before it |
| ConversationRuns.OverlappingRunsShare | internal/agent/conversation.go:54-79 | Turns that overlap on an ID hold the same conversation and are never inside it together |
| ConversationTurns.ExecuteInside | internal/agent/runner.go:71-121 | Run by a thread that has locked the conversation, whatever steps others take meanwhile, every request is the last maxTurns turns committed before it entered, followed by the turn as it stood after the passes before; these are the base of its commit, and that commit is all it does to the conversation |
| DaemonLock.WritesUnderLock | internal/daemon/manager.go:90-136 | Every save and removal of the state file happens while holding the lock, and no other process can write then |
| DaemonLock.OneOwner | internal/daemon/service.go:51-56 | At most one daemon owns the state file, and no wrapper clears it meanwhile |
| DaemonLock.StopRemovesItsOwn | internal/command/stop.go:96-121 | A stop command removes exactly the state it was started for, of a dead daemon, and none published since |
| DaemonLock.PublishedStays | internal/daemon/service.go:157-160 | What a daemon published stays until it removes it itself or dies |
| DaemonLock.LateChildRemovesAnothersState | internal/daemon/starter.go:108-135 | Without the assumption that a killed child is dead before the unlock, a run in which state is removed without the lock |
| DaemonLock.LockStep | internal/daemon/lock_unix.go:101-129 | Each step keeps the lock with whoever must hold it, although LOCK_UN works through any shared descriptor |
| DaemonLock.NeverLeftHeld | internal/daemon/lock_unix.go:101-129 | However processes die and kills come late, a held lock is held through a description that some process has open; so it is free once none has one |
| DaemonLock.FileLock.TryAcquire | internal/daemon/lock_unix.go:21-63 | A new description that holds the lock, or none if it is held |
| DaemonLock.FileLock.Adopt | internal/daemon/lock_unix.go:65-90 | An inherited description holds the lock, unless another one does |
| DaemonLock.FileLock.CloseLock | internal/daemon/lock_unix.go:101-115 | Closing unlocks for everyone who shares the description; a second call does nothing |
| DaemonLock.FileLock.DropReference | internal/daemon/lock_unix.go:117-129 | Dropping unlocks only if it was the last descriptor |
| DaemonManager.StartUnderLock | internal/daemon/manager.go:90-136 | The state of the compatible daemon that is found, or of the one that becomes healthy after the start, and only these; the effects come in one of five orders: a child is stopped before the unlock, and nothing is unlocked after the handover |
| DaemonSteps.WrapperPlays | internal/daemon/manager.go:90-136 | However the steps of other processes interleave, the next step of each of these orders can happen in DaemonLock, and at the end the wrapper holds nothing |
| DaemonSteps.NextStep | internal/daemon/manager.go:90-136 | In every run a living process can take a step exactly if that may follow its own last one and the lock, the state and the process table allow it |
| DaemonManager.Ensure | internal/daemon/manager.go:50-88 | The first round that decides is the result: the state of a compatible daemon found healthy, what the start under the lock makes of it, or the failure of that round; who is asked to shut down, told by the rounds, and no instance twice in a row; one start at most |
| DaemonSteps.ServicePlays | internal/daemon/service.go:44-196 | However the steps of other processes interleave, a daemon that lives can save its state once, then withdraw it whether that works or not, then unlock, as RunService does whatever fails before |
| DaemonSteps.WithdrawnForGood | internal/daemon/service.go:51-56 | Once a daemon has removed its state, no state in the file names it in any later state of a run |
| DaemonService.RunStop | internal/command/stop.go:16-94 | At most one signal, only to a healthy process whose state was loaded; the first look that decides is the result, told by the looks: success only if the state was missing, replaced, or left by a dead process, and removal only for a dead process |
| DaemonService.RemoveIfOwned | internal/command/stop.go:96-121 | Removal only under the lock and only of the expected state, and an unlock after every lock, also after a failed removal; the result says exactly when the state was removed, and fails exactly when the removal did or the lock could not be taken |
| DaemonSteps.RemovalPlays | internal/command/stop.go:96-121 | However the steps of other processes interleave, its next step can happen if the lock was free where it takes it and the state the expected one where it removes it |
| IdleMonitor.Monitor.Begin | internal/daemon/idle.go:32-38 | One lease more, activity now, and a token once it returns |
| IdleMonitor.Monitor.End | internal/daemon/idle.go:39-51 | The first call ends the lease; later ones change nothing |
| IdleMonitor.ReturnsOnlyWhenIdle | internal/daemon/idle.go:60-71 | Wait succeeds only at an instant at which as many leases have ended as were begun, and the timeout has passed since the last of these or the last touch |
| IdleMonitor.IdleWakesWaiter | internal/daemon/idle.go:60-102 | A sleeping waiter of an idle daemon finds a token, or one that is due, or its timer has run out; then it returns |
| IdleMonitor.SleepsRightly | internal/daemon/idle.go:74-83 | A waiter that sleeps with no token in the channel and none due has the right timer, or rightly none |
| IdleMonitor.SleepsUntilSignal | internal/daemon/idle.go:42-47 | A run in which a waiter of an idle daemon can only be woken by a token that is due |
| Wire.DecodeWireFields | internal/protocol/agent.go:315-363 | The loop decodes all fields or fails |
| Wire.DecodeConcat | internal/protocol/agent.go:315-363 | The fields of two payloads end to end are those of the first and then those of the second |
| WireFormat.MessageIs | internal/protocol/agent.go:315-363 | The decoder returns some fields exactly if the payload is a message of these, by a grammar with varints of ten bytes at most, tags, lengths, and groups that end with their own number and nest 10000 deep at most |
| WireFormat.FieldIs | internal/protocol/agent.go:315-363 | It takes a field off the front exactly if the bytes start with one |
| WireFormat.VarintIs | internal/protocol/wire.go:144-147 | A varint is read exactly if the bytes start with one: seven bits a byte, the least significant first, within 64 bits |
| WireFormat.AppendsField | internal/protocol/wire.go:126-147 | What the encoder appends is a field of that number and value |
| Wire.AppendedVarint | internal/protocol/wire.go:144-147 | A varint field appended to a payload decodes to one more field |
| Wire.AppendedBool | internal/protocol/wire.go:136-142 | A bool appended to a payload is what a lookup of its number finds, as 1 or 0, and no other lookup notices it |
| Wire.AppendedBytes | internal/protocol/wire.go:126-134 | A string or message field appended to a payload decodes to one more field |
| Wire.AppendedFixed64 | internal/protocol/tool_mcp.go:168-169 | A 64-bit field appended to a payload decodes to one more field |
| Wire.VarintInverse | internal/protocol/wire.go:144-147 | The varint of every 64-bit value reads back, whatever follows |
| Wire.LastBytesField | internal/protocol/agent.go:365-372 | The last matching field, or none if there is none |
| Wire.LastVarintField | internal/protocol/agent.go:374-381 | The last matching field, or none if there is none |
| Wire.LastOneWins | internal/protocol/agent.go:365-381 | Of two messages end to end a lookup finds what the second says, else what the first says |
| Wire.OthersIrrelevant | internal/protocol/agent.go:353-360 | Fields of other numbers, of any type, change no lookup |
| ProtoValue.RoundTrip | internal/protocol/tool_mcp.go:142-217 | Whatever tree the encoder accepts, the decoder accepts and returns unchanged, with the same node count |
| ProtoValue.EncodeAccepts | internal/protocol/tool_mcp.go:142-217 | The encoder accepts exactly the trees with valid UTF-8, finite numbers, nesting up to 64 and a node count up to 10000, and raises the budget by the node count |
| ProtoValue.DecodeBounded | internal/protocol/mcp.go:314-421 | From arbitrary bytes the decoder accepts only such trees and raises the budget by the node count |
| ProtoValue.DecodeEncodeDecode | internal/protocol/mcp.go:314-421 | What was decoded can be encoded and decodes to the same tree |
| ProtoGrammar.DecodesExactly | internal/protocol/mcp.go:314-421 | From arbitrary bytes the decoder returns a tree exactly if they are a message of it, with fields of one of the six kinds only of which the last counts, struct entries of distinct keys, nesting within the limit and room for its nodes, which it counts |
| ProtoGrammar.EncodedMeans | internal/protocol/tool_mcp.go:142-195 | What the encoder returns for a tree is a message of it |
| ProtoGrammar.EncodedInOrder | internal/protocol/tool_mcp.go:197-217 | Of an object it writes one entry for each key, by ascending key |
| ProtoValue.DecodeProtoValue | internal/protocol/mcp.go:314-375 | The method with its shared budget computes the decoder's function |
| ProtoValue.DecodeProtoStruct | internal/protocol/mcp.go:377-404 | So does the loop over entries, with duplicate keys refused |
| ProtoValue.DecodeProtoList | internal/protocol/mcp.go:406-421 | So does the loop over items |
| ProtoValue.EncodeProtoValue | internal/protocol/tool_mcp.go:142-195 | The method with its shared budget computes the encoder's function |
| ProtoValue.EncodeProtoStruct | internal/protocol/tool_mcp.go:197-217 | So does the loop over sorted keys, after all keys were checked |
| ProtoValue.SortedDistinct | internal/protocol/tool_mcp.go:198-205 | Keys come in strictly ascending byte order |
| Sse.ReadSSE | internal/provider/openai/sse.go:16-78 | For every fragmentation of the input and every size limit the callback gets the events of a line-based reference, until it refuses one |
| Sse.ReadSSELine | internal/provider/openai/sse.go:80-98 | A whole line, put together over full buffers, or too large exactly when it is |
| Sse.Reader.ReadLine | internal/provider/openai/sse.go:86-96 | A line or a proper part of one, also when CR LF straddles the end of the buffer |
| Sse.Reader.ReadSlice | internal/provider/openai/sse.go:23-23 | What the buffer delivers depends on the bytes to come and its capacity, not on the pieces read |
| SseStandard.AgreesWithStandard | internal/provider/openai/sse.go:24-78 | Without a byte order mark and a lone CR, and within the limit, the events are those of section 9.2.6 of the WHATWG HTML Standard exactly if no event with data is left at the end and every event is valid UTF-8; for valid input exactly if none is left |
| SseStandard.StandardIs | internal/provider/openai/sse.go:53-70 | The standard, which decodes before it splits, has the events of the undecoded text, each decoded |
| SseStandard.UnendedDispatched | internal/provider/openai/sse.go:72-77 | An event that the end of the input cuts off is dispatched, and the standard discards it |
| SseStandard.LoneCRKept | internal/provider/openai/sse.go:80-98 | A lone CR stays in the value, and ends a line in the standard |
| SseStandard.MarkKept | internal/provider/openai/sse.go:56-70 | A byte order mark hides the first field, and the standard drops it |
| SseStandard.InvalidKept | internal/provider/openai/sse.go:53-70 | A byte that is no UTF-8 reaches the callback as it is, and the standard replaces it |
| Sse.DataBounded | internal/provider/openai/sse.go:47-52 | No event carries more than maxEventBytes of data |
| Sse.ReadInvertsPrint | internal/provider/openai/sse.go:53-70 | Reading a printed list of events gives that list |
| ShellOutput.AppendBounded | internal/server/agent.go:1145-1165 | The longest valid prefix of the repaired delta that fits is appended; the flag says whether any of it is missing, and then at most three bytes of the bound are unused |
| ShellOutput.CaptureConserves | internal/server/agent.go:1145-1165 | Over any deltas both streams stay valid and bounded, and the shared flag is off exactly when both hold all that was sent |
| Utf8.TrimToValid | internal/server/agent.go:1156-1160 | The longest valid prefix within the limit, at most three bytes shorter than the limit |
| Utf8.CutDropsAtMostThree | internal/protocol/tool_mcp.go:363-366 | Cutting a valid string to the last character boundary drops at most three bytes |
| Utf8.RepairIdentity | internal/protocol/tool_mcp.go:355-356 | Repairing leaves a string alone exactly when it is valid UTF-8 |
| Utf8.RepairsRuns | internal/server/agent.go:1145-1146 | strings.ToValidUTF8 puts one replacement character in the place of each run of bytes that start no character, the JSON encoder one in the place of each byte; what is valid stays |
| Utf8.RuneIs | internal/protocol/tool_mcp.go:363-366 | A string starts with a character exactly if its first bytes are the encoding of a scalar value by section 3 of RFC 3629 |
| TextEdit.EditMeaning | internal/protocol/tool_edit.go:40-57 | An edit succeeds exactly when the old text occurs once, or at least once with replace_all, and then rejoins the pieces with the new text |
| TextEdit.OverlapCountsOnce | internal/protocol/tool_edit.go:45-54 | aa occurs once in aaa and is replaced without replace_all |
| TextEdit.PiecesUnique | internal/protocol/tool_edit.go:45-45 | The decomposition at the left-to-right occurrences is unique |
| TextEdit.PiecesOf | internal/protocol/tool_edit.go:45-45 | Every text has one |
| TextEdit.ReplaceValid | internal/protocol/tool_edit.go:56-56 | Replacing valid text by valid text leaves a valid string valid |
| McpSummary.BoundedSection | internal/protocol/tool_mcp.go:355-368 | The longest valid prefix of the repaired text that fits; the flag says whether any is missing |
| McpSummary.Summarize | internal/protocol/tool_mcp.go:255-325 | Sections stay within the limit; everything is there in full exactly when no visible item is beyond the 64th and the whole fits; the marker comes exactly with more than 64 items, with items that fill the limit, or with a whole that exceeds it |
| McpSummary.MarkerWithoutLoss | internal/protocol/tool_mcp.go:263-316 | When the marker comes although nothing is missing |
| McpSummary.FullItemMarked | internal/protocol/tool_mcp.go:292-295 | A single text for which it does |
| ListTree.FlattenListTree | internal/protocol/tool_files.go:403-442 | The entries are the listing cut at the cap; without the flag nothing is cut and no directory is too deep; the flag is set exactly for no room at the start, a directory too deep, no room when the last file is looked at, or no room left in a directory with subdirectories |
| ListTree.FlagWithoutLoss | internal/protocol/tool_files.go:415-440 | When a listing that fits and is not too deep is flagged all the same |
| ListTree.FullListingFlagged | internal/protocol/tool_files.go:436-439 | A tree for which it is |
| ListTree.ListingComplete | internal/protocol/tool_files.go:415-429 | With no directory too deep, the listing holds the whole tree exactly when no directory at the last depth has a file |
| ListTree.LastFileLost | internal/protocol/tool_files.go:415-429 | A root at the last depth whose file is lost without the flag |

## Left out

- SessionObject.AgentSession: the pendingTool objects live in a map of the session by number, and the two indexes hold numbers; aliasing is modelled by these, not by heap references.
- SessionModel: the arguments and results of each tool are taken after JSON and wire decoding; the field tables of tool_bridge.go and tools.go, and the texts made of errors, are not modelled, nor is a failure to encode a progress event or the Write of an Edit.
- SessionProtocol: exec IDs are assumed fresh, and at most 2^32 - 1 message IDs to be made; opening a call only after its session has started is how the executor calls it.
- SessionProtocol.Step: TakeState, Timer and AskerCancelled join what the asker receives, from a channel or a timer, with the critical section it enters next; the steps of other threads in between are taken to come before, as they change nothing the asker has received.
- SessionStream.NoLostWakeUp: does not claim a prompt wake-up with several live streams, because they share one token; each of them still looks again at its next heartbeat.
- TurnRunner.Execute: the provider client, the model resolver and the tools are functions of what they are asked; the conversation lock is modelled in ConversationRuns.
- ChatAdapter.ChatStream.StreamChat: chunks are taken after JSON decoding.
- Conversations: messages are values, so the deep copies that keep turns apart from the caller's slices are not modelled.
- Connect.EncodeConnectEnd: the JSON of the end message is a parameter.
- ConversationRuns: an eviction may drop any conversations that no thread holds; which ones it drops is in Conversations.
- DaemonLock: saving, loading and removing the state file are atomic steps, and a removal may fail; health probes and liveness checks are not modelled, so a process may also take a step that these would have kept it from.
- DaemonManager.Ensure: the health probe, the clock and other processes are a list of rounds.
- DaemonService.RunStop: the state file, the process and the clock are a list of looks.
- IdleMonitor: time is a number that does not decrease. The methods of Monitor run alone; what happens between an unlock and its token is in the steps of the module.
- Wire: floats and signed encodings are not used by these messages.
- ProtoValue.RoundTrip: asks for encodings below 2^64 bytes, which every slice is.
- SseStandard.AgreesWithStandard: for inputs with a byte order mark or a lone CR only one input of each kind is shown to differ, because others, such as a lone CR in a comment, do not.
- Sse.ReadSSE: the cancellation of the context between lines, and read errors other than the end of the input, are left out.
- ListTree: the tree is taken after wire decoding, and path.Join is a pair of directory and name.
- HTTP handling, TLS, certificates, header checks, configuration files, process spawning, signals and command-line output.
- decodeMCPTools, the grep result decoder and the shell event decoder: they would only add easy members.
