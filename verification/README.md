# A verified model of the terminal agent

This project models the parts of the `dx-tui` crate whose correctness rests on loops, state and
arithmetic rather than on painting or I/O, and proves what each promises for all inputs and, where the
code runs on, for all runs. Everything outside (the model, the permission hub, tool executors, the
transport, the file system, the table of character widths) is a parameter left arbitrary, so a theorem
for every value of the parameter is a theorem for every behaviour of the outside.

| Files | What they model |
|---|---|
| `AgentProtocol`, `AgentTrace`, `ToolNames`, `AgentFidelity`, `AgentMessages`, `AgentReplies`, `AgentRequests`, `AgentRound`, `AgentGuard`, `ToolLoop` | The tool loop. A run is a trace of events; the protocol, permission and termination rules are statements about the whole trace, and `Run` is proved to keep them in every world. |
| `LspEdits`, `LspOrder` | Resolving line/character positions, applying formatting edits in place from last to first, and which listed orders that is safe for. |
| `LspFraming` | Content-Length framing: the writer, and the reader task over a transport that splits bytes anywhere. |
| `LspSession`, `LspRegistry` | Request/response correlation up to the final shutdown, and the registry of clients that races, each as a state machine over its atomic steps. |
| `PasteMarkers`, `PasteModel`, `PasteEditor`, `PasteWeight`, `PasteMessage`, `PasteBuffer`, `PasteSession` | The input box with collapsed pastes, over any sequence of keys, beside an editor that holds plain text. |
| `StyledText`, `MarkdownWrap`, `GutterFates`, `ClipLines` | The two line wrappers: conservation, fit, termination, least number of rows, repeated gutters. |
| `TableColumns`, `CellText`, `TableLayout` | Markdown tables: column shrink, cell wrapping, borders and rows. |
| `WsFrames`, `FontPack` | The WebSocket frame codec (RFC 6455, sections 5.2 and 5.3) and the embedded font pack. |
| `DiffTree`, `DiffVisible` | The file trie of the diff view and its flattening into rows. |
| `StreamTranslator` | Agent events turned into tagged output. |
| `Sequences`, `Text`, `Bytes` | Shared facts: concatenation, UTF-8 offsets, decimal numerals, bytes. |

Methods follow the program's control flow. Each is proved against a specification (a function of its
inputs or of the old state), and what the program promises is proved of the specification.
`dafny verify dfyconfig.toml` checks the whole project.

## Where the code and its promises differ

- A tool task that vanishes (its join handle fails) leaves an announced call unanswered. The history is
  well-formed exactly when none has been lost in a native round (`AgentTrace.HistoryExact`).
- The allow list is also searched for the bare tool name. No entry is ever a bare name, because no tool
  name holds a colon, so the second comparison never succeeds (`AgentTrace.KeyUnambiguous`).
- The tool for other servers is not found under its own name `mcp_tool`, only under names with two
  underscores in a row; every other tool is found under its own (`ToolNames.OwnNames`).
- The guard compares signatures, not requests. Equal requests have equal signatures, but a call whose
  arguments read like a second call has the signature of two calls (`AgentRequests.Doubles`). Exactly the
  requests whose shown arguments hold no bar, tool name and colon are told apart from all others of that
  kind (`AgentRequests.ToldApart`), provided no tool name holds a bar or a colon.
- The Language Server Protocol lets a server list non-overlapping edits in any order. Applying them in
  place from the last to the first is right for every text and all replacements exactly when they are
  listed in ascending order (`LspOrder.SafeExactlyAscending`). For given replacements it is enough that no
  edit disturbs the place of an edit listed before it and lying behind it: it keeps the number of lines,
  and on a shared line the number of characters (`LspOrder.CalmIsSimultaneous`). `LspEdits.OutOfOrder`
  computes the damage done to two inserts on one line.
- The last fallback of `byte_offset` is dead code.
- A stream cut inside a frame delivers nothing of it, except that an empty body cut just before its last
  header byte is delivered (`LspFraming.DrainCut`).
- Request ids wrap after 2^64 - 1; the guarantees that hang on distinct ids stop exactly there
  (`LspSession.IssuedOnce`).
- A server's own request is taken for a response when it bears the id of a waiting request, which then
  gets null (`LspSession.ServerRequestTaken`). All results come from responses exactly in the runs in which
  that never happens (`LspSession.ResultsAreResponses`).
- The counter of paste ids saturates at 2^32 - 1. From then on two pastes of equal size share a marker
  (`PasteBuffer.SaturatedPastesCollide`), and the second is submitted as the first.
- Typed text that spells the marker of a stored paste is submitted as that paste
  (`PasteSession.TypedMarkerLost`: a long paste, then its marker key by key, is submitted as two copies of
  the paste). Up to 2^32 - 1 keys, the message is the plain text exactly when in no round of the
  replacement typed text, or text that an earlier round put in, spells the marker being replaced
  (`PasteSession.Unspoilt`, `PasteSession.Session`). It cannot come out right by accident, because a stored
  paste has a line break or is longer than its marker (`PasteWeight.HitsShow`).
- The gutter of a line is dropped from it exactly when it fits the column and leaves no room for the
  character behind it (`GutterFates.Crowded`); otherwise the text is kept whole. This holds for gutters
  whose first character is one column wide and in which no character has width zero. A column of two
  loses the gutter of `▎ ab` (`ClipLines.GutterLost`).
- A table in which every row has all its cells is even exactly when no character that is shown is wider
  than its column. A wide character in a column shrunk to one place makes it uneven
  (`TableLayout.UnevenTable`).
- A row of a collapsed directory differs from its row in the open tree by its mark, so visible rows are a
  subsequence only up to that mark (`DiffTree.VisibleIsSubsequence`).

## Model

| member | source | states |
|---|---|---|
| ToolLoop.Run | crates/dx-tui/src/agent_loop.rs:55-537 | for every input and every answer of model, hub and tools: each answer of the model is followed at once by what it demands (a failure with native tools on by one retry without them, calls asked for by the round that plays them or by the guard's stop for them) and nothing follows any other answer; the run ends as finished only when the last answer asks for nothing, as failed only when the last call failed and could not be retried, by the guard only at what would be the fifth equal signature in a row, and else at the cap; at each model call the history is, message by message, the initial one followed by what every round said, and it is well-formed exactly when the given history held no tool message and no native tool task was lost; permission rules hold throughout; each round runs or refuses each of its calls once, first the question, task, skill and todo calls in their order, then the others in theirs; tools once withheld stay withheld; at most one model call per step plus one retry, 25 in all; the guard stops repeated requests: no five rounds in a row ask for the same tools with arguments that agree on their first 120 characters, and when it stops the run, the last five turns have done so, provided that signatures tell them apart |
| ToolLoop.Step | crates/dx-tui/src/agent_loop.rs:94-198 | one step keeps everything a run promises, plays a round unless the run ends in it, and ends the run only as the model's last answer demands |
| ToolLoop.PlayTurn | crates/dx-tui/src/agent_loop.rs:168-201 | the calls of a turn are either stopped by the guard, as the fifth equal ones in a row, or played as a round that keeps everything a run promises |
| ToolLoop.OneOutcome | crates/dx-tui/src/agent_loop.rs:94-198 | trace and answers leave only one way to name the end of a run |
| ToolLoop.AskModel | crates/dx-tui/src/agent_loop.rs:97-135 | a failed call with native tools on is repeated, once and without tools, and native tools are then off for good; otherwise there is one call |
| ToolLoop.CallsOf | crates/dx-tui/src/agent_loop.rs:137-158 | the turn's own calls, else those recovered from its text; native tools survive only if the provider kept them and nothing was recovered |
| AgentRound.FillIds | crates/dx-tui/src/agent_loop.rs:168-172 | every call ends with an id, calls that had one are untouched, names and arguments never change, and what is filled in names the step and the place |
| AgentRound.FreshIdsDiffer | crates/dx-tui/src/agent_loop.rs:168-172 | ids that are filled in are equal only for the same call of the same step |
| AgentGuard.RepeatGuard | crates/dx-tui/src/agent_loop.rs:184-198 | stops exactly when the signature would be the fifth equal one in a row, and otherwise keeps the counter equal to the length of the current run of equal signatures |
| AgentGuard.GuardAdvances | crates/dx-tui/src/agent_loop.rs:184-198 | the counter and last signature carry enough to tell five equal signatures in a row, over any sequence of rounds |
| ToolLoop.EffectiveSteps | crates/dx-tui/src/agent_loop.rs:56 | the step cap is what is asked for if that lies between 1 and 24, and 24 otherwise |
| AgentRequests.ToldApart | crates/dx-tui/src/agent_loop.rs:184-198 | a request is told by its signature from every clean request that differs from it, exactly if it is clean itself: if no arguments, as far as they are shown, read as if another call began in them |
| AgentRequests.SignatureTells | crates/dx-tui/src/agent_loop.rs:184-198 | clean requests with equal signatures ask for the same tools in the same order, their arguments agreeing on the first 120 characters |
| AgentRequests.SameSigned | crates/dx-tui/src/agent_loop.rs:184-198 | requests for the same tools in the same order, with arguments that agree on the first 120 characters, have equal signatures, whatever their ids |
| AgentRequests.Doubles | crates/dx-tui/src/agent_loop.rs:184-198 | a request for two calls and one for a single call with equal signatures |
| AgentMessages.InitialBalanced | crates/dx-tui/src/agent_loop.rs:58-81 | the initial messages are well-formed exactly when the given history has no tool-role message |
| AgentReplies.InitialSystem | crates/dx-tui/src/agent_loop.rs:67-69 | the system text comes first, unless trimming leaves nothing of it |
| AgentReplies.HistoryKept | crates/dx-tui/src/agent_loop.rs:70-81 | every given message but the system ones stands in its place, with its role and content |
| AgentMessages.RoundBalance | crates/dx-tui/src/agent_loop.rs:174-182 | a round keeps the history well-formed exactly when it was and, if native, every announced id was answered |
| AgentRound.PlayRound | crates/dx-tui/src/agent_loop.rs:203-522 | each call of the round is run or refused exactly once under the permission rules, the sequential ones first, in order; the answers are one reply per surviving call in order, and all announced ids are answered exactly when no task was lost |
| AgentRound.RunSequential | crates/dx-tui/src/agent_loop.rs:213-357 | question, task, skill and todo calls run one after the other, each answered by its own result under its own id |
| AgentRound.Decide | crates/dx-tui/src/agent_loop.rs:369-436 | the hub is asked only for a gated call not covered by an earlier "always"; the call may then run, or be refused, exactly as the permission rules allow; the allow list stays the set of keys answered "always" |
| AgentRound.Gate | crates/dx-tui/src/agent_loop.rs:362-504 | the call is run or refused, once, lawfully, and what is spawned yields its executor's result or the refusal |
| AgentRound.Dispatch | crates/dx-tui/src/agent_loop.rs:361-504 | the remaining calls are gated and spawned in order, every one exactly once |
| AgentRound.Collect | crates/dx-tui/src/agent_loop.rs:506-522 | one reply for each task that came back, in order, matched by id to its own call |
| AgentRound.PartitionKeepsIds | crates/dx-tui/src/agent_loop.rs:205-211 | splitting calls into sequential and parallel ones loses and duplicates no id |
| AgentRound.PartitionKeepsCalls | crates/dx-tui/src/agent_loop.rs:205-211 | each call is on one side, as often as it was asked for |
| AgentRound.PartitionInOrder | crates/dx-tui/src/agent_loop.rs:205-211 | a call stands on its side between those that were asked for before and after it |
| AgentRound.SurvivorsAll | crates/dx-tui/src/agent_loop.rs:506-522 | the ids of the tasks that came back are all ids exactly when no task was lost |
| AgentRound.AllowListHoldsKeys | crates/dx-tui/src/agent_loop.rs:371-372 | a bare tool name is never on the allow list |
| AgentTrace.KeyUnambiguous | crates/dx-tui/src/agent_loop.rs:371-372 | keys determine tool name and preview, and no key equals a tool name |
| AgentTrace.KindNameNoColon | crates/dx-tui/src/tools/mod.rs:79-108 | no tool name holds a colon |
| ToolNames.EscapingNames | crates/dx-tui/src/agent_loop.rs:205-211 | with the program's table of names: the calls that escape the permission gate are exactly those whose name, trimmed and in small letters, is one of sixteen |
| ToolNames.OwnNames | crates/dx-tui/src/tools/mod.rs:142-174 | every tool but one is found under the name it goes by |
| ToolNames.NamesDiffer | crates/dx-tui/src/tools/mod.rs:79-108 | different tools go by different names |
| ToolNames.DoubledIsContains | crates/dx-tui/src/tools/mod.rs:168 | two underscores in a row are what the search for them finds |
| AgentTrace.EscapeTheGate | crates/dx-tui/src/agent_loop.rs:205-211 | sequential are exactly the kinds named question, task, skill_manage and todowrite, and gated exactly the other known kinds that need permission |
| AgentTrace.PermittedAppend | crates/dx-tui/src/agent_loop.rs:362-460 | an event lawful at its moment leaves the whole run lawful |
| AgentTrace.RoundsServedRound | crates/dx-tui/src/agent_loop.rs:203-522 | appending a round that handles each of its calls once keeps that property for every round of the run |
| AgentTrace.HistoryAsk | crates/dx-tui/src/agent_loop.rs:100-135 | asking with a history that accounts for lost tasks keeps the exact condition for all model calls so far |
| AgentProtocol.BalancedByPosition | crates/dx-tui/src/agent_loop.rs:624-674 | reading a history with a running multiset of open ids agrees with the positional rule: the maximal run of tool messages after each other message answers exactly the ids it announces |
| AgentProtocol.AnswersConsume | crates/dx-tui/src/agent_loop.rs:624-649 | tool answers, in any order, close exactly their ids |
| AgentFidelity.TalkRound | crates/dx-tui/src/agent_loop.rs:174-182 | what a whole round adds to the history: the model's text, the calls announced exactly in native mode, then one reply for each result |
| AgentReplies.ModelHears | crates/dx-tui/src/agent_loop.rs:174-182 | in every run, whenever the model is asked, what it is shown behind the initial history reads back as exactly what its calls came to so far, success, title and output, and the refusals, in order, and as its own words and native calls, in order; results are taken to have titles of one line and tool names without a backquote |
| AgentReplies.ReplyReads | crates/dx-tui/src/agent_loop.rs:624-649 | a reply, native or not, tells the tool, whether the call succeeded, its title and its output; a native one bears the id of the call |
| AgentFidelity.OffersOnlyDrop | crates/dx-tui/src/agent_loop.rs:83-135 | tools are never offered again after a model call at which they were not |
| AgentFidelity.ToldWholeRound | crates/dx-tui/src/agent_loop.rs:137-201 | after a round, every model call so far was offered tools exactly when it should have been, every round plays its turn's calls, and every answer was followed by what it demands |
| LspEdits.ByteOffset | crates/dx-tui/src/lsp_tool.rs:389-415 | the three-counter scan returns the byte length of the text before the one place where the position stops, or nothing if there is none; its last branch is never taken |
| LspEdits.PlaceExact | crates/dx-tui/src/lsp_tool.rs:389-415 | a position resolves to a prefix exactly when that prefix ends at the position or with the newline that closes its line early; hence at most one |
| LspEdits.EndOfCounts | crates/dx-tui/src/lsp_tool.rs:389-415 | the line is the number of newlines passed, the character the distance from the last of them |
| LspEdits.PlaceDomain | crates/dx-tui/src/lsp_tool.rs:389-415 | a position resolves exactly when its line is closed by a newline or is the last line and is long enough |
| LspEdits.PlaceMonotone | crates/dx-tui/src/lsp_tool.rs:389-415 | earlier positions resolve whenever later ones do, and to no later offset |
| LspEdits.PlacePrefix | crates/dx-tui/src/lsp_tool.rs:389-415 | resolution depends only on the text before the resolved offset |
| LspEdits.LastFirstIsSimultaneous | crates/dx-tui/src/lsp_tool.rs:245-253 | for ascending edits, applying them last to first with offsets recomputed on the partly edited text never panics and equals applying all that resolve to the original at once |
| LspEdits.ResolvesLate | crates/dx-tui/src/lsp_tool.rs:352-357 | on the partly edited text an edit resolves exactly when it does on the original |
| LspEdits.ResolvedExactly | crates/dx-tui/src/lsp_tool.rs:245-253 | exactly the edits that resolve are applied, as often as they are listed |
| LspEdits.FormatCode | crates/dx-tui/src/lsp_tool.rs:245-253 | the formatting loop: for ascending edits, the simultaneous application of those that resolve |
| LspEdits.AutoFormat | crates/dx-tui/src/lsp_tool.rs:352-359 | for ascending edits the file is written exactly when all resolve, and then with all of them applied at once |
| LspEdits.OutOfOrder | crates/dx-tui/src/lsp_tool.rs:247-252 | two inserts on one line land at their own places in ascending order, and inside one another in the reverse order |
| LspOrder.SafeExactlyAscending | crates/dx-tui/src/lsp_tool.rs:245-253 | for ranges that do not overlap: applying last to first equals applying all at once, for every text on which they resolve and all replacements, exactly when they are listed in ascending order |
| LspOrder.UnsafeOnEveryText | crates/dx-tui/src/lsp_tool.rs:245-253 | when the list is not ascending, every text without two marker characters on which the edits resolve has replacements that come out wrong |
| LspOrder.CalmIsSimultaneous | crates/dx-tui/src/lsp_tool.rs:245-253 | in any listed order the result is that of applying all at once if no edit moves the places of one listed before it and lying behind it |
| LspOrder.AscendingIsCalm | crates/dx-tui/src/lsp_tool.rs:245-253 | the condition holds of every ascending list, whatever it replaces |
| LspFraming.FramesRoundTrip | crates/dx-tui/src/lsp.rs:667-741 | any bodies below 2^64 bytes, whatever they contain, framed one after another are delivered in order, and what follows is read as if it stood alone |
| LspFraming.Deliver | crates/dx-tui/src/lsp.rs:667-741 | transport and reader together: any packets of a peer, split into non-empty pieces in any way, deliver exactly their bodies |
| LspFraming.ReaderTask | crates/dx-tui/src/lsp.rs:667-723 | what the reader delivers is a function of the bytes alone, not of how they arrive; what that function is, the rows below say |
| LspFraming.ByteSource.ReadUntil | crates/dx-tui/src/lsp.rs:684-688 | the bytes through the first delimiter, or all that is left, across any number of refills; nothing is lost |
| LspFraming.ByteSource.ReadExact | crates/dx-tui/src/lsp.rs:725-741 | fills the buffer with exactly the next bytes, and fails exactly when too few remain |
| LspFraming.WriteMessage | crates/dx-tui/src/lsp.rs:802-808 | appends the frame of the body: the decimal byte length in the header, a blank line, the body |
| LspFraming.HeaderLineParses | crates/dx-tui/src/lsp.rs:690-700 | the header line that is written announces its own length when read |
| LspFraming.DrainFrame | crates/dx-tui/src/lsp.rs:677-722 | a framed body is delivered and reading resumes right after it |
| LspFraming.DrainPacket | crates/dx-tui/src/lsp.rs:677-722 | any header lines before and after the Content-Length line, as long as the last one that announces a length announces that of the body: the body is delivered, and reading resumes behind it |
| LspFraming.PacketsRoundTrip | crates/dx-tui/src/lsp.rs:667-741 | any number of such packets, whatever the bodies contain, deliver their bodies in order |
| LspFraming.DrainUnannounced | crates/dx-tui/src/lsp.rs:702-708 | a header that announces no length delivers nothing and is left behind |
| LspFraming.ParseUsizeExact | crates/dx-tui/src/lsp.rs:690-700 | a length is read from exactly the decimal numerals below 2^64, with any leading zeros and possibly a plus sign |
| LspFraming.LengthForms | crates/dx-tui/src/lsp.rs:690-700 | any white space may stand between the name of a Content-Length header and its number |
| LspFraming.DrainCut | crates/dx-tui/src/lsp.rs:677-722 | a stream cut anywhere inside a frame delivers nothing of it, except an empty body cut before its last header byte |
| LspSession.RunsCorrelate | crates/dx-tui/src/lsp.rs:386-410 | in every interleaving of requests, timeouts, messages and the final shutdown, ids come in order, what is delivered never changes, and below the wrap each result came from a message bearing the request's id |
| LspSession.IssuedOnce | crates/dx-tui/src/lsp.rs:326 | ids are distinct exactly for up to 2^64 requests, and 0 is never issued exactly below that |
| LspSession.MessagesFindTheirOwner | crates/dx-tui/src/lsp.rs:745-768 | in every reachable state a message resolves the waiting request with its id and nobody else; one without an integer id resolves nobody |
| LspSession.ResponseReachesOwner | crates/dx-tui/src/lsp.rs:745-768 | in every reachable state short of the wrap, the response to a waiting request gives it exactly what the server said; an error counts more than a result, and neither counts as null |
| LspSession.RequestAnswered | crates/dx-tui/src/lsp.rs:386-410 | a request made in any reachable open state is given its answer, or, once it has given up, nothing any more |
| LspSession.StepKeepsCorrelation | crates/dx-tui/src/lsp.rs:245-410 | every atomic step keeps the pending map and the waiting requests in agreement; the shutdown, which clears the map, finds nobody waiting |
| LspSession.ResultsAreResponses | crates/dx-tui/src/lsp.rs:745-768 | short of the wrap, every result comes from a response exactly if the server never sends a request of its own under the id of a waiting request |
| LspSession.ServerRequestTaken | crates/dx-tui/src/lsp.rs:751-766 | a server request with id 1 resolves the waiting first request with null |
| LspRegistry.RunsKeep | crates/dx-tui/src/lsp.rs:891-925 | in every interleaving no entry is replaced or removed, and what calls returned is what the registry holds |
| LspRegistry.OneClientPerLanguage | crates/dx-tui/src/lsp.rs:891-925 | two successful calls, at whatever moments, return the same client exactly when they are for the same language |
| LspRegistry.RegisteredIsFound | crates/dx-tui/src/lsp.rs:891-899 | in every run, calls of get_client that begin when a language is registered are answered with its client and never connect |
| LspRegistry.CallAlone | crates/dx-tui/src/lsp.rs:891-925 | a call by itself: a registered client at once, else a new one, registered, exactly if the language is known and the connection succeeds |
| LspRegistry.SlowerCallYields | crates/dx-tui/src/lsp.rs:918-922 | a call that finds the language registered meanwhile returns the registered client |
| LspRegistry.StepKeeps | crates/dx-tui/src/lsp.rs:908-925 | lookup, connect and insert, each as one atomic step, keep the registry consistent while others connect |
| PasteSession.Session | crates/dx-tui/src/input.rs:363-489 | for every sequence of typed characters, newlines, pastes and mouse selections: up to 2^32 - 1 keys the message is that of an editor holding plain text exactly when typed text is never hit by a replacement, and always if no key brings the opening bracket; for longer sequences, if typed text is never hit exactly when no paste is shadowed, if no paste is shadowed exactly when typed text is never hit, and if no stored paste holds the bracket exactly when neither happens; the message reads back as exactly the attachments, for paths of one line |
| PasteSession.Play | crates/dx-tui/src/input.rs:397-489 | after any keys the box stands for what the editor over segments holds, with exactly the blocks that should be stored |
| PasteSession.TypedMarkerLost | crates/dx-tui/src/input.rs:363-368 | every long paste followed by its own marker, typed key by key, is submitted as two copies of the paste |
| PasteWeight.HitsShow | crates/dx-tui/src/input.rs:363-368 | whenever a replacement hits typed text and no paste is shadowed, the result differs from the plain text, brackets in stored pastes or not |
| PasteWeight.RoundsWeight | crates/dx-tui/src/input.rs:363-368 | replacing the stored markers in turn never makes the text lighter (fewer line breaks, or as many and fewer characters) than the plain text, and makes it heavier if typed text is hit |
| PasteWeight.StoredOutweighs | crates/dx-tui/src/input.rs:453-470 | a paste long enough to be stored has a line break or is longer than its marker, for every id the counter can reach |
| PasteModel.StepCommutes | crates/dx-tui/src/input.rs:397-489 | whatever the key, what the box stands for and the plain editor stay in step: text, cursor and selection |
| PasteModel.Reference | crates/dx-tui/src/input.rs:397-489 | the plain editor, run on the same keys, holds the text, cursor and selection that the box stands for |
| PasteEditor.PastingIsTyping | crates/dx-tui/src/input.rs:432-477 | pasting text into the plain editor is typing its characters one by one, unless it is a bare line break or the path of a file |
| PasteEditor.BreakIsNewline | crates/dx-tui/src/input.rs:437-441 | pasting a bare line break is pressing the newline key, and that is typing a newline |
| PasteEditor.DragThenType | crates/dx-tui/src/input.rs:611-639 | press, drag, release and type: what lies between the two places, in either order, gives way to what is typed |
| PasteEditor.MouseKeepsText | crates/dx-tui/src/input.rs:611-639 | without the button the mouse changes nothing, and no mouse event changes the text |
| PasteEditor.CollapsesExactly | crates/dx-tui/src/input.rs:455-464 | a paste collapses exactly when it has 80 characters or a line behind its first one |
| PasteEditor.PastedLinesCount | crates/dx-tui/src/input.rs:455-460 | the lines a paste is said to have are the lines it has |
| PasteEditor.LabelTells | crates/dx-tui/src/input.rs:352-360 | a label tells the number of lines in decimal |
| PasteEditor.AttachedExactly | crates/dx-tui/src/input.rs:443-450 | after any keys exactly the paths that were pasted are attached, each once, and none is ever dropped |
| PasteBuffer.InputState.ComposeSubmitMessage | crates/dx-tui/src/input.rs:363-384 | with any attachments: the message carries the plain text, if typed text is never hit exactly when no paste is shadowed, if no paste is shadowed exactly when typed text is never hit, and if no stored paste holds the bracket exactly when neither happens; no paste is shadowed below 2^32 collapsed pastes; for attachments with paths of one line, the message reads back as exactly those attachments, in order, and the body |
| PasteMessage.MessageReads | crates/dx-tui/src/input.rs:370-384 | a message determines its attachments, their kinds and order, and its body, for paths of one line |
| PasteMessage.MessageTells | crates/dx-tui/src/input.rs:370-384 | two messages with attachments are equal only if attachments and bodies are |
| PasteMessage.NamesEach | crates/dx-tui/src/input.rs:370-384 | whatever the paths, every attachment is named in the message, right behind those before it |
| PasteMessage.MessageTellsBody | crates/dx-tui/src/input.rs:370-384 | whatever the paths, messages with the same attachments are equal only if their bodies are |
| PasteBuffer.InputState.DisplayContent | crates/dx-tui/src/input.rs:352-360 | every paste shows as its label, exactly when no typed text spells a stored marker when its turn comes |
| PasteBuffer.InputState.PasteText | crates/dx-tui/src/input.rs:432-477 | a paste over the selection or at the cursor, of any text; the path of an existing file attaches instead, once per path; a block is stored exactly when the paste has two lines or eighty characters; afterwards nothing is selected if the text changed |
| PasteBuffer.InputState.TypeChar | crates/dx-tui/src/input.rs:977-985 | any character replaces the selection or goes to the cursor; the selection is then gone, and exactly the blocks whose marker is still in the text stay |
| PasteBuffer.InputState.InsertNewline | crates/dx-tui/src/input.rs:397-411 | a newline replaces the selection or goes to the cursor; the selection is then gone |
| PasteBuffer.InputState.DeleteSelection | crates/dx-tui/src/input.rs:341-349 | what is selected, pastes included and possibly nothing, disappears and nothing else does; the cursor stands there, the selection is forgotten, and exactly the blocks whose marker is still in the text stay; without a selection nothing changes |
| PasteBuffer.InputState.GcPasteBlocks | crates/dx-tui/src/input.rs:1189-1194 | exactly the blocks whose marker occurs in the text stay, in order, and no paste in the text loses its block |
| PasteBuffer.InputState.Attach | crates/dx-tui/src/input.rs:479-487 | one attachment for each path |
| PasteBuffer.InputState.BeginMouseSelect | crates/dx-tui/src/input.rs:611-617 | for a place outside the markers: the cursor stands there, with an empty selection |
| PasteBuffer.InputState.UpdateMouseSelect | crates/dx-tui/src/input.rs:619-629 | for a place outside the markers: with the button down, cursor and end of the selection follow; otherwise nothing changes |
| PasteBuffer.InputState.EndMouseSelect | crates/dx-tui/src/input.rs:631-639 | a selection that is not empty stays, an empty one goes |
| PasteBuffer.RoundsAreContents | crates/dx-tui/src/input.rs:363-368 | the replacement loop yields the contents in place, if typed text is never hit exactly when no paste is shadowed, if no paste is shadowed exactly when typed text is never hit, and if no stored paste holds the bracket exactly when neither happens |
| PasteBuffer.RoundsAreLabels | crates/dx-tui/src/input.rs:352-360 | the replacement loop yields the labels exactly when typed text is never hit |
| PasteBuffer.ExpandedIsSpelled | crates/dx-tui/src/input.rs:363-368 | expanding marker by marker gives the contents in place exactly when no paste is shadowed; labels always come out right |
| PasteBuffer.DistinctIsUnambiguous | crates/dx-tui/src/input.rs:466-470 | distinct ids rule shadowing out |
| PasteBuffer.SaturatedPastesCollide | crates/dx-tui/src/input.rs:468-470 | with the counter saturated, different pastes of equal size share a marker and the second expands to the first |
| PasteMarkers.ExpandIsReplace | crates/dx-tui/src/input.rs:365-368 | one round of string replacement replaces exactly the pastes with that marker and the typed text that spells it, whatever the buffer holds |
| PasteMarkers.ExpandCounts | crates/dx-tui/src/input.rs:365-368 | a round consumes typed brackets exactly when typed text is hit |
| PasteMarkers.RoundsExact | crates/dx-tui/src/input.rs:363-368 | all rounds together write out the stored pastes and nothing else if no round hits typed text; once one does, and the replacements hold no bracket, brackets are missing at the end |
| PasteMarkers.MarkerInjective | crates/dx-tui/src/input.rs:1256-1258 | a marker determines its three numbers |
| PasteMarkers.MarkersPrefixFree | crates/dx-tui/src/input.rs:1256-1258 | no marker begins another, whatever follows |
| MarkdownWrap.WrapLinesToWidth | crates/dx-tui/src/markdown_render.rs:375-434 | line by line: the same characters with the same styles in the same order, every row fits or is one character, and no wrapping has fewer rows: of all whose rows cost no more than the column, and of all whose rows fit it if the text has no character of width zero |
| MarkdownWrap.WrapLine | crates/dx-tui/src/markdown_render.rs:378-431 | the same for one line, with termination for every width above zero |
| MarkdownWrap.WrapSpan | crates/dx-tui/src/markdown_render.rs:386-428 | the loop over one span conserves cells, fits, and leaves no row with room for the next character |
| MarkdownWrap.ShortestRows | crates/dx-tui/src/markdown_render.rs:375-434 | rows without room for the next character are as few as any whose rows cost no more than the column, and as any that fit it if the text has no character of width zero |
| StyledText.GreedyIsShortest | crates/dx-tui/src/markdown_render.rs:386-428 | greedy filling is optimal, against every other way to cut the text into rows that cost no more than the column, for every table of widths |
| StyledText.TakeFitting | crates/dx-tui/src/markdown_render.rs:396-405 | the longest leading part that fits the room left |
| StyledText.CellsSpell | crates/dx-tui/src/markdown_render.rs:386-428 | the characters that are conserved are those of the spans, in order |
| ClipLines.ClipLinesToWidth | crates/dx-tui/src/components.rs:2820-2933 | every row fits or is one over-wide character; each line is clipped on its own, and of its text nothing is lost but copies of the gutter: none exactly when its gutter is not crowded; at least one row comes out |
| ClipLines.ClipLine | crates/dx-tui/src/components.rs:2825-2928 | a line that fits is one row as it is; ends for every gutter, even wider than the column; each stretch of the line is shown on one row in order or was a gutter standing alone; for gutters beginning with a character of one column and without characters of width zero, the text is kept whole exactly when the gutter is not crowded; a crowded gutter is dropped in any case; continuation rows begin with the gutter where there is room; without a gutter the text is exact and the rows fewest |
| ClipLines.Flush | crates/dx-tui/src/components.rs:2848-2871 | closing a row loses no text but an orphan gutter and brings the row strictly nearer to empty |
| ClipLines.ClipSpan | crates/dx-tui/src/components.rs:2873-2917 | the loop over one span ends and accounts for every character |
| ClipLines.GutterLost | crates/dx-tui/src/components.rs:2848-2862 | in a column of two, however the line `▎ ab` is clipped, its gutter is lost |
| ClipLines.BarsAreRepeated | crates/dx-tui/src/components.rs:2831-2840 | a line that begins with a bar and a space, or with two spaces and a bar, has it repeated in front of every further row where there is room |
| ClipLines.NoBarNoGutter | crates/dx-tui/src/components.rs:2831-2840 | any other line is kept exactly, on as few rows as possible |
| GutterFates.LostHead | crates/dx-tui/src/components.rs:2848-2862 | rows that begin with the character behind the gutter cannot hold the whole line, unless that character also begins the gutter |
| GutterFates.LostCells | crates/dx-tui/src/components.rs:2848-2871 | rows of which some account drops the gutter and repeats none cannot hold the whole line, whatever comes behind the gutter: they show too few characters |
| GutterFates.FatedPiece | crates/dx-tui/src/components.rs:2908-2916 | a piece put into the open row keeps what is known of dropped text: nothing is dropped without crowding, with crowding the gutter goes first, and a crowded gutter that fills the column never shares a row |
| GutterFates.NoGutterAccounts | crates/dx-tui/src/components.rs:2918-2927 | without a gutter the rows together are the line |
| TableColumns.ShrinkColumns | crates/dx-tui/src/markdown_render.rs:464-492 | overflowing columns end at least one wide, none wider than its content, summing to the larger of the room and the number of columns, each having given up its share and then been cut evenly |
| TableColumns.ShrunkUnique | crates/dx-tui/src/markdown_render.rs:468-492 | shares, evenness and sum determine the widths |
| TableColumns.CutDown | crates/dx-tui/src/markdown_render.rs:474-492 | the decrement loop ends at the sum, having cut only the widest columns, leftmost first |
| TableColumns.SharesFit | crates/dx-tui/src/markdown_render.rs:466-471 | rounded-down shares of the overflow never exceed the overflow |
| TableColumns.KeptExactly | crates/dx-tui/src/markdown_render.rs:466-471 | a column gives up its share of the overflow, rounded down, unless that leaves less than one place |
| TableColumns.IdealWidths | crates/dx-tui/src/markdown_render.rs:451-460 | every cell fits its column and every column is as wide as some cell |
| TableColumns.WidestColumn | crates/dx-tui/src/markdown_render.rs:476-483 | the leftmost of the widest columns |
| TableColumns.ColumnWidths | crates/dx-tui/src/markdown_render.rs:451-498 | the ideal widths when they fit, the shrunk ones otherwise; whenever every column can have one place, the table is as wide as its contents, or one column narrower than the space given |
| TableColumns.IdealExactly | crates/dx-tui/src/markdown_render.rs:462-465 | the ideal widths are taken exactly when the table is then narrower than the space |
| CellText.HardWrapText | crates/dx-tui/src/markdown_render.rs:25-59 | a text without a newline is kept as it is, any other one up to its line breaks; its lines with their breaks are the text; each line is cut into pieces that fit or are one character, none with room for the next character |
| CellText.LinesKeep | crates/dx-tui/src/markdown_render.rs:33 | the lines together are the text without newlines and the carriage returns before them |
| CellText.LinesBreak | crates/dx-tui/src/markdown_render.rs:33 | the lines, each followed by its break, are the text |
| CellText.OneLine | crates/dx-tui/src/markdown_render.rs:33 | a text that is not empty and has no newline is its own single line |
| CellText.HardWrapLine | crates/dx-tui/src/markdown_render.rs:39-54 | the same for one line |
| TableLayout.RenderTable | crates/dx-tui/src/markdown_render.rs:436-592 | rows and borders stand one below the other, each row with all the text of its cells, character by character up to line breaks, every piece and joint at its column; when every row has its cells, all lines are equally wide exactly if every character shown fits its column, and always if the ideal widths fit |
| TableLayout.FullExactly | crates/dx-tui/src/markdown_render.rs:558-583 | the lines of one row that has its cells have the table's width exactly when its text fits its columns, character by character |
| TableLayout.UnevenTable | crates/dx-tui/src/markdown_render.rs:462-492 | one wide character and room for a single place: the column is shrunk to one, and the character does not fit it |
| TableLayout.ShowsEach | crates/dx-tui/src/markdown_render.rs:558-583 | a line shows each of its texts at the display column of its cell |
| TableLayout.RenderRow | crates/dx-tui/src/markdown_render.rs:558-583 | every piece stands at the display column of its cell, followed by the bar; in any case the line is as wide as its columns and what sticks out of them |
| TableLayout.MakeBorder | crates/dx-tui/src/markdown_render.rs:502-514 | a rule over every column, joints where the bars stand, of the table's width |
| TableLayout.DisplayExact | crates/dx-tui/src/markdown_render.rs:566-576 | a piece that fits is shown whole and padded to exactly its column |
| TableLayout.DisplayWhole | crates/dx-tui/src/markdown_render.rs:566-576 | every piece that wrapping leaves is shown whole, even one that sticks out, with nothing but spaces behind it; in a column of no width nothing is shown |
| TableLayout.WrapRow | crates/dx-tui/src/markdown_render.rs:521-541 | all cells of a row come out equally high with their text kept: together, the pieces of a cell without a newline are its text, and those of any other cell its text without the line breaks |
| TableLayout.IdealFits | crates/dx-tui/src/markdown_render.rs:451-460 | columns as wide as their cells fit every character |
| WsFrames.FramesRoundTrip | crates/dx-tui/src/api.rs:532-593 | any frames written one after another are read back, opcodes and payloads, across all three length forms |
| WsFrames.DecodeEncoded | crates/dx-tui/src/api.rs:532-593 | a written frame reads back and reading goes on right behind it |
| WsFrames.DecodeMasked | crates/dx-tui/src/api.rs:550-567 | a masked frame reads as its unmasked payload, for every key |
| WsFrames.CutReadsPrefix | crates/dx-tui/src/api.rs:532-570 | wherever a stream of written frames is cut, exactly the frames complete before the cut are read |
| WsFrames.DecodeCut | crates/dx-tui/src/api.rs:532-570 | a frame cut short, in its header, its length or its payload, is not read |
| WsFrames.ShortestLength | crates/dx-tui/src/api.rs:576-585 | no length field that reads as the same length is shorter than the one written |
| WsFrames.WriteFrame | crates/dx-tui/src/api.rs:572-593 | what goes out is the encoding that the round trip is about |
| WsFrames.ReadFrame | crates/dx-tui/src/api.rs:532-570 | one frame off the front of any bytes, or nothing when they end inside it, unmasked in place |
| WsFrames.HeaderBytes | crates/dx-tui/src/api.rs:572-593 | a written frame begins with the final bit and the opcode, then the length up to 125, or 126 before two bytes of it, or 127 before eight, and no mask; the payload comes last |
| WsFrames.MaskedHeaderBytes | crates/dx-tui/src/api.rs:532-567 | a masked frame has the mask bit, and its key stands before the payload |
| WsFrames.BigEndianFirst | crates/dx-tui/src/api.rs:576-585 | the first byte of a length weighs most |
| WsFrames.UnmaskInPlace | crates/dx-tui/src/api.rs:563-567 | every payload byte is combined with its key byte |
| WsFrames.MaskedTwice | crates/dx-tui/src/api.rs:563-567 | masking is its own inverse |
| WsFrames.XorAt | crates/dx-tui/src/api.rs:563-567 | a masked byte has exactly the bits in which the byte and its key byte differ |
| FontPack.TruncationReadsPrefix | crates/dx-tui/src/font.rs:12-67 | every truncation of a pack reads as exactly the fonts it still holds completely, the whole pack as all |
| FontPack.TableHolds | crates/dx-tui/src/font.rs:63 | with distinct names the table maps exactly the names to their data |
| FontPack.ReadPack | crates/dx-tui/src/font.rs:12-67 | for any bytes at all, the table of the fonts they hold, without reading out of range |
| FontPack.ReadFieldAt | crates/dx-tui/src/font.rs:25-42 | a length-prefixed field at an offset, or nothing exactly when it is cut short |
| FontPack.WritePack | crates/dx-tui/build.rs:46-60 | what the build script writes is the pack that the reader's theorems are about |
| FontPack.OneFontLayout | crates/dx-tui/build.rs:46-60 | the bytes of a pack: the count, then name and data each behind its length |
| FontPack.U32Weights | crates/dx-tui/src/font.rs:12-67 | the first byte of a length weighs least |
| DiffTree.BuildTree | crates/dx-tui/src/diff_view.rs:669-723 | the rows of the fresh tree spell every file exactly once under its own path and nothing else; no directory appears twice under one parent, and below it directories come before files, by name, and files in the order given |
| DiffTree.RowsSpellPaths | crates/dx-tui/src/diff_view.rs:383-418 | reading rows from the top with their depths gives the paths of the tree |
| DiffTree.InsertAdds | crates/dx-tui/src/diff_view.rs:677-688 | inserting adds one file under its path and disturbs no other |
| DiffTree.InsertKeepsOrder | crates/dx-tui/src/diff_view.rs:681-686 | directory names stay strictly ordered at every level, and files in the order of their insertion |
| DiffTree.LessExactly | crates/dx-tui/src/diff_view.rs:681-686 | names are ordered by the first character in which they differ, or a shorter one before its continuations |
| DiffTree.NodesHoldPaths | crates/dx-tui/src/diff_view.rs:690-703 | turning the trie into nodes keeps every file and path |
| DiffTree.VisibleIsSubsequence | crates/dx-tui/src/diff_view.rs:383-418 | whatever is collapsed, visible rows are a subsequence of the open tree's rows, up to the open mark |
| DiffVisible.RowsAreVisible | crates/dx-tui/src/diff_view.rs:383-418 | the rows that are shown are exactly those rows of the whole tree that have every directory around them expanded, each with its own mark |
| DiffVisible.RowsOfLevel | crates/dx-tui/src/diff_view.rs:390-416 | a node, open or not, has its own row, with its name, kind and mark; behind it come the rows of its children if it is open, and nothing otherwise |
| DiffVisible.LevelEnds | crates/dx-tui/src/diff_view.rs:390-416 | the rows of a level are those of its nodes and of what stands below them, and no others |
| StreamTranslator.Translate | crates/dx-tui/src/agent_backend.rs:268-455 | over a whole turn tags alternate and end closed, thinking text stands inside thinking sections and answer text outside, the events' payloads are shown in order and nothing else, and the answer text, the thinking text, the status lines and the subagents' names are exactly those of the events; after each event exactly the right sections are open |
| StreamTranslator.ThinkingOpen | crates/dx-tui/src/agent_backend.rs:268-361 | a thinking section is open from its first text to the next event that shows something outside of it |
| StreamTranslator.SubagentOpen | crates/dx-tui/src/agent_backend.rs:268-361 | a subagent section is open from the call of a subagent to the next result of one |
| StreamTranslator.SubagentCalls | crates/dx-tui/src/agent_backend.rs:274-278 | subagent calls are those whose name holds subagent or spawn, is delegate, or begins with agent_ |
| StreamTranslator.AgentStreamTranslator.Push | crates/dx-tui/src/agent_backend.rs:269-339 | one event shows exactly its payload, keeps the tags well-formed and leaves the right sections open |
| StreamTranslator.AgentStreamTranslator.Finish | crates/dx-tui/src/agent_backend.rs:355-361 | closes whatever is open and shows nothing |
| StreamTranslator.AgentStreamTranslator.OpenSubagent | crates/dx-tui/src/agent_backend.rs:430-437 | an open thinking or subagent section is closed before the new one is opened |
| StreamTranslator.TagsAlternate | crates/dx-tui/src/agent_backend.rs:268-455 | at every point each kind of tag has been opened as often as closed, or once more |
| StreamTranslator.TextWhereItBelongs | crates/dx-tui/src/agent_backend.rs:363-382 | answer text occurs only where thinking is closed, thinking text only where it is open |
| Text.DecimalRoundTrip | crates/dx-tui/src/lsp.rs:804 | printing and parsing a number in decimal gives it back |
| Text.DecimalDigits | crates/dx-tui/src/lsp.rs:804 | numerals are written in the usual digits, the highest first |
| Text.ReplaceRangeAt | crates/dx-tui/src/lsp_tool.rs:251 | replacing between two character boundaries given as byte offsets replaces exactly the characters between them |
| Text.ReplaceRangeDomain | crates/dx-tui/src/lsp_tool.rs:251 | replacing panics unless both offsets are character boundaries, in order |
| Text.Utf8LenShortest | crates/dx-tui/src/lsp_tool.rs:395-413 | a scalar counts as many bytes as its shortest form in UTF-8 (RFC 3629, section 3) |
| Text.TrimExact | crates/dx-tui/src/lsp.rs:692-700 | trimming takes white space off both ends, all of it and nothing else |

## Left out

- HTTP and server-sent events, process spawning, git, the clipboard, the file system, the async runtime, voice and local inference: I/O or foreign code; where the modelled code calls them they are parameters.
- Painting, themes, animation, key and mouse dispatch: many easy branches.
- The text streamed to the user during a run (progress notes, approval cards, the context summary and its counters, the stop notices), the delegation ledger, the sidebar and what subagents do: they do not feed back into the loop's history. The ledger's reminder is taken to be part of the system text.
- JSON: tool arguments are strings, previews and permission needs are functions of them, and message bodies are bytes.
- ToolLoop.Run: what it says about the contents and balance of the history assumes that results carry the id of their call, as every executor in the source does; the other clauses do not.
- AgentRound.Dispatch: spawned tasks run in the order in which they are spawned; their side effects on one another are not modelled.
- LspEdits.ByteOffset: counts Unicode scalars as the code does, not the UTF-16 units of the protocol; the 32-bit counters do not overflow in the model.
- LspFraming.ReaderTask: the header loop nested in the message loop is modelled as one loop with the same steps, bodies are delivered before JSON parsing, read errors count as the end of the stream, and non-ASCII header bytes go through an arbitrary decoder.
- LspFraming.WriteMessage: a body is any byte sequence; serialization and flushing are left out.
- LspSession.RunsCorrelate: results and errors are strings, and of an error only its text is kept; notifications change nothing in the model. A request borrows the client, so that the client is dropped only when no request is under way; this is an assumption of the step that drops it.
- PasteSession.Session: beyond 2^32 - 1 keys, nothing is stated for the case that both typed text is hit and a paste is shadowed while a stored paste holds the opening bracket. Key handling that can put the cursor or a selection end inside a marker (moves by byte column, clicks on a marker, deletions next to one) is left out, as are suggestions, history and scrolling.
- PasteMessage.MessageReads: assumes paths of one line; the path of a file can hold a newline, which would end its line.
- ToolNames.OwnNames: the table of names is not tied to the loop, whose theorems hold for every table.
- AgentReplies.ModelHears: assumes titles of one line and, for refused calls and replies as plain text, names without a newline or a backquote; other replies are given as messages only.
- PasteBuffer.InputState.BeginMouseSelect: assumes a place between segments; a click inside a marker is not modelled.
- PasteBuffer.InputState.UpdateMouseSelect: assumes a place between segments, in the same way.
- ClipLines.ClipLine: of gutters with a character of width zero, or beginning with a wide one, less is stated: that a crowded one is dropped, and that the text is then lost unless the next character is the first of the gutter. The two fixed gutters of the program have no such character.
- MarkdownWrap.WrapLine: among rows that fit by displayed width, least rows are claimed for text without characters of width zero only, because the code charges such characters one column; by charged width they are claimed for every text.
- TableLayout.RenderTable: styles are left out, cells are plain strings, and the width of a string is the sum of its characters' widths.
- TableColumns.ShrinkColumns: the product of a width and the overflow does not wrap in the model.
- CellText.HardWrapText: the fallback for text without any line is left out, since text that is not empty has at least one.
- WsFrames.ReadFrame: the stream is a byte sequence; the allocation of the payload and reserved bits are not modelled.
- FontPack.WritePack: sorting by name and the rendering as source text are left out, as is decompression; UTF-8 is any encoding with a decoder that inverts it.
- DiffTree.BuildTree: the ordered map is a sorted list and the trie is a value, so update in place is not captured; splitting a path into components is an arbitrary function. Toggling, which works by name and depth, is left out.
- StreamTranslator.Translate: tool arguments and rendered tool output are parameters, and a subagent section may be closed inside a thinking section, so only balance per tag is claimed.
