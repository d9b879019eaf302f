/** Everything a run of the agent loop can observe or do, as a trace of events, and the
    properties of whole traces that the loop is proved to keep. */
module AgentTrace {
  import opened Sequences
  import opened Text
  import opened AgentProtocol

  datatype ToolKind =
    | Shell | Read | Write | Edit | Glob | Grep | List | Question | Task | SkillManage | TodoWrite
    | Memory | McpTool | GoToDefinition | FindReferences | Hover | DocumentSymbols | WorkspaceSymbols
    | GoToImplementation | CallHierarchy | FormatCode | GetDiagnostics | CompleteCode | WebFetch
    | WebSearch | ApplyPatch

  function KindName(k: ToolKind): string {
    match k
    case Shell => "shell"
    case Read => "read"
    case Write => "write"
    case Edit => "edit"
    case Glob => "glob"
    case Grep => "grep"
    case List => "list"
    case Question => "question"
    case Task => "task"
    case SkillManage => "skill_manage"
    case TodoWrite => "todowrite"
    case Memory => "memory"
    case McpTool => "mcp_tool"
    case GoToDefinition => "go_to_definition"
    case FindReferences => "find_references"
    case Hover => "hover"
    case DocumentSymbols => "document_symbols"
    case WorkspaceSymbols => "workspace_symbols"
    case GoToImplementation => "go_to_implementation"
    case CallHierarchy => "call_hierarchy"
    case FormatCode => "format_code"
    case GetDiagnostics => "get_diagnostics"
    case CompleteCode => "complete_code"
    case WebFetch => "webfetch"
    case WebSearch => "websearch"
    case ApplyPatch => "apply_patch"
  }

  datatype Decision = AllowOnce | AllowAlways | Deny

  datatype ToolResult = ToolResult(callId: string, name: string, ok: bool, title: string, output: string)

  datatype ChatTurn = ChatTurn(text: string, toolCalls: seq<ToolCall>, toolsDisabled: bool)

  /** What a spawned tool task leaves behind; `Vanished` is a task whose join handle fails. */
  datatype TaskOutcome = Done(result: ToolResult) | Vanished

  /** The outside of the loop. Every answer is an arbitrary function of the moment (the length of
      the trace so far) at which it is asked for, so a statement for all worlds is a statement for
      all answers. */
  datatype World = World(
    model: nat -> Result<ChatTurn>,
    recover: string -> seq<ToolCall>,
    kindOf: string -> Option<ToolKind>,
    preview: (Option<ToolKind>, string) -> string,
    needs: (ToolKind, string) -> bool,
    hub: Option<nat -> Decision>,
    serve: (nat, ToolCall) -> ToolResult,
    execute: (nat, ToolCall) -> TaskOutcome)

  datatype Event =
    | ModelCall(messages: seq<ApiMessage>, toolsOffered: bool)
    | Round(calls: seq<ToolCall>, signature: string, native: bool)
    | GuardStop(signature: string)
    | Asked(call: ToolCall, key: string, decision: Decision)
    | Ran(call: ToolCall, outcome: TaskOutcome)
    | Refused(call: ToolCall, result: ToolResult)
    | LostTask(call: ToolCall, native: bool)

  function DeniedResult(call: ToolCall): ToolResult {
    ToolResult(call.id, call.name, false, call.name + " denied by user", "User denied this tool call.")
  }

  // ----- Permission -----

  predicate IsSequential(w: World, call: ToolCall) {
    var k := w.kindOf(call.name);
    k.Some? && (k.value.Question? || k.value.Task? || k.value.SkillManage? || k.value.TodoWrite?)
  }

  function SequentialOf(w: World, calls: seq<ToolCall>): (s: seq<ToolCall>)
    ensures forall i :: 0 <= i < |s| ==> IsSequential(w, s[i]) && s[i] in calls
  {
    if calls == [] then []
    else if IsSequential(w, calls[0]) then [calls[0]] + SequentialOf(w, calls[1..])
    else SequentialOf(w, calls[1..])
  }

  function ParallelOf(w: World, calls: seq<ToolCall>): (s: seq<ToolCall>)
    ensures forall i :: 0 <= i < |s| ==> !IsSequential(w, s[i]) && s[i] in calls
  {
    if calls == [] then []
    else if IsSequential(w, calls[0]) then ParallelOf(w, calls[1..])
    else [calls[0]] + ParallelOf(w, calls[1..])
  }

  /** The order in which a round deals with its calls: first those that run one after the other. */
  function InOrder(w: World, calls: seq<ToolCall>): seq<ToolCall> { SequentialOf(w, calls) + ParallelOf(w, calls) }

  function Key(k: ToolKind, preview: string): string { KindName(k) + ":" + preview }

  function KeyOf(w: World, call: ToolCall): string
    requires w.kindOf(call.name).Some?
  {
    var k := w.kindOf(call.name);
    Key(k.value, w.preview(k, call.arguments))
  }

  /** A call whose execution the permission rules restrict. */
  predicate Gated(w: World, call: ToolCall) {
    var k := w.kindOf(call.name);
    k.Some? && !IsSequential(w, call) && w.needs(k.value, call.arguments)
  }

  /** The tools that run one after the other, and so escape the gate. */
  lemma EscapeTheGate(w: World, call: ToolCall)
    ensures IsSequential(w, call) <==>
            && w.kindOf(call.name).Some?
            && KindName(w.kindOf(call.name).value) in {"question", "task", "skill_manage", "todowrite"}
    ensures Gated(w, call) <==>
            && w.kindOf(call.name).Some? && w.needs(w.kindOf(call.name).value, call.arguments)
            && KindName(w.kindOf(call.name).value) !in {"question", "task", "skill_manage", "todowrite"}
  {
    if w.kindOf(call.name).Some? {
      KindEscapes(w.kindOf(call.name).value);
    }
  }

  lemma KindEscapes(k: ToolKind)
    ensures KindName(k) in {"question", "task", "skill_manage", "todowrite"} <==>
            k.Question? || k.Task? || k.SkillManage? || k.TodoWrite?
  {
  }

  predicate IsCodeKind(k: ToolKind) {
    || k.GoToDefinition? || k.FindReferences? || k.Hover? || k.DocumentSymbols? || k.WorkspaceSymbols?
    || k.GoToImplementation? || k.CallHierarchy? || k.FormatCode? || k.GetDiagnostics? || k.CompleteCode?
  }

  lemma CodeNameNoColon(k: ToolKind)
    requires IsCodeKind(k)
    ensures NoColon(KindName(k))
  {
  }

  lemma PlainNameNoColon(k: ToolKind)
    requires !IsCodeKind(k)
    ensures NoColon(KindName(k))
  {
  }

  lemma KindNameNoColon(k: ToolKind)
    ensures NoColon(KindName(k))
  {
    if IsCodeKind(k) {
      CodeNameNoColon(k);
    } else {
      PlainNameNoColon(k);
    }
  }

  /** Keys determine tool name and preview, and no key is a bare tool name, because no tool name
      contains a colon: the second comparison of the allow-list lookup never matches. */
  lemma KeyUnambiguous(k: ToolKind, p: string, l: ToolKind, q: string)
    ensures Key(k, p) != KindName(l)
    ensures Key(k, p) == Key(l, q) ==> KindName(k) == KindName(l) && p == q
  {
    KindNameNoColon(k);
    KindNameNoColon(l);
    SplitAtColon(KindName(k), p, KindName(l), q);
  }

  /** The user answered "always" to this key before moment `i`. */
  ghost predicate AlwaysBefore(trace: seq<Event>, i: nat, key: string)
    requires i <= |trace|
  {
    exists j :: 0 <= j < i && trace[j].Asked? && trace[j].key == key && trace[j].decision == AllowAlways
  }

  /** What running a call at moment `at` yields. */
  function OutcomeOf(w: World, at: nat, call: ToolCall): TaskOutcome {
    if IsSequential(w, call) then Done(w.serve(at, call)) else w.execute(at, call)
  }

  /** What the permission rules demand of the event at `i`: a call that runs yields what its executor
      says, and a gated call runs only with no hub, with the answer given for this very call, or under an
      earlier "always"; the hub is asked only for gated calls not yet covered by an "always"; and the
      answer decides what happens next, a denial by one failed result for that call. */
  ghost predicate PermittedAt(w: World, trace: seq<Event>, i: nat)
    requires i < |trace|
  {
    && (trace[i].Ran? && Gated(w, trace[i].call) ==>
          || w.hub.None?
          || (i > 0 && trace[i - 1].Asked? && trace[i - 1].call == trace[i].call && trace[i - 1].decision != Deny)
          || AlwaysBefore(trace, i, KeyOf(w, trace[i].call)))
    && (trace[i].Asked? ==>
          && w.hub.Some? && Gated(w, trace[i].call) && trace[i].key == KeyOf(w, trace[i].call)
          && !AlwaysBefore(trace, i, trace[i].key))
    && (trace[i].Refused? ==>
          && i > 0 && trace[i - 1].Asked? && trace[i - 1].decision == Deny && trace[i - 1].call == trace[i].call
          && trace[i].result == DeniedResult(trace[i].call))
    && (i > 0 && trace[i - 1].Asked? ==>
          if trace[i - 1].decision == Deny then trace[i].Refused?
          else trace[i].Ran? && trace[i].call == trace[i - 1].call)
    && (trace[i].Ran? ==> trace[i].outcome == OutcomeOf(w, i, trace[i].call))
  }

  ghost predicate Permitted(w: World, trace: seq<Event>) {
    forall i :: 0 <= i < |trace| ==> PermittedAt(w, trace, i)
  }

  /** No answer is still waiting to be acted on. */
  predicate Settled(trace: seq<Event>) { trace != [] ==> !trace[|trace| - 1].Asked? }

  /** The allow list holds exactly the keys answered "always". */
  ghost predicate Remembers(always: seq<string>, trace: seq<Event>) {
    forall key :: key in always <==> AlwaysBefore(trace, |trace|, key)
  }

  ghost predicate Lawful(w: World, always: seq<string>, trace: seq<Event>) {
    Permitted(w, trace) && Settled(trace) && Remembers(always, trace)
  }

  lemma AlwaysBeforeExtend(trace: seq<Event>, more: seq<Event>, i: nat, key: string)
    requires i <= |trace|
    ensures AlwaysBefore(trace + more, i, key) == AlwaysBefore(trace, i, key)
  {
    assert forall j :: 0 <= j < i ==> (trace + more)[j] == trace[j];
  }

  lemma AlwaysAppend(trace: seq<Event>, e: Event)
    ensures forall key :: AlwaysBefore(trace + [e], |trace| + 1, key) <==>
                          AlwaysBefore(trace, |trace|, key) || (e.Asked? && e.key == key && e.decision == AllowAlways)
  {
    var t, n := trace + [e], |trace|;
    forall key
      ensures AlwaysBefore(t, n + 1, key) <==>
              AlwaysBefore(trace, n, key) || (e.Asked? && e.key == key && e.decision == AllowAlways)
    {
      AlwaysBeforeExtend(trace, [e], n, key);
      assert t[n] == e;
    }
  }

  lemma PermittedAppend(w: World, trace: seq<Event>, e: Event)
    requires Permitted(w, trace) && PermittedAt(w, trace + [e], |trace|)
    ensures Permitted(w, trace + [e])
  {
    var t := trace + [e];
    forall i | 0 <= i < |t| ensures PermittedAt(w, t, i) {
      if i < |trace| {
        assert PermittedAt(w, trace, i);
        assert t[i] == trace[i] && (i > 0 ==> t[i - 1] == trace[i - 1]);
        if trace[i].Asked? {
          AlwaysBeforeExtend(trace, [e], i, trace[i].key);
        }
        if trace[i].Ran? && Gated(w, trace[i].call) {
          AlwaysBeforeExtend(trace, [e], i, KeyOf(w, trace[i].call));
        }
      }
    }
  }

  /** Appending an event the permission rules do not restrict. */
  lemma PermittedFree(w: World, trace: seq<Event>, e: Event, always: seq<string>)
    requires Lawful(w, always, trace)
    requires !e.Asked? && !e.Refused?
    requires e.Ran? ==> !Gated(w, e.call) && e.outcome == OutcomeOf(w, |trace|, e.call)
    ensures Lawful(w, always, trace + [e])
  {
    PermittedAppend(w, trace, e);
    AlwaysAppend(trace, e);
  }

  // ----- Rounds, signatures and model calls -----

  function Signatures(trace: seq<Event>): seq<string> {
    if trace == [] then []
    else (if trace[0].Round? then [trace[0].signature] else []) + Signatures(trace[1..])
  }

  function ModelCalls(trace: seq<Event>): nat {
    if trace == [] then 0
    else (if trace[0].ModelCall? then 1 else 0) + ModelCalls(trace[1..])
  }

  lemma {:induction false} TallyConcat(a: seq<Event>, b: seq<Event>)
    ensures Signatures(a + b) == Signatures(a) + Signatures(b)
    ensures ModelCalls(a + b) == ModelCalls(a) + ModelCalls(b)
    decreases |a|
  {
    if a == [] {
      assert a + b == b;
    } else {
      assert (a + b)[0] == a[0] && (a + b)[1..] == a[1..] + b;
      TallyConcat(a[1..], b);
      Assoc(if a[0].Round? then [a[0].signature] else [], Signatures(a[1..]), Signatures(b));
    }
  }

  predicate FiveInARow(sigs: seq<string>, i: int) {
    0 <= i && i + 5 <= |sigs| && forall j :: i <= j < i + 5 ==> sigs[j] == sigs[i]
  }

  /** The last `n` entries are all `sig`, and the one before them is not. */
  ghost predicate EndsWithRun(sigs: seq<string>, sig: string, n: nat) {
    && n <= |sigs|
    && (forall j :: |sigs| - n <= j < |sigs| ==> sigs[j] == sig)
    && (n < |sigs| ==> sigs[|sigs| - n - 1] != sig)
  }

  /** Once tools are withheld they are never offered again. */
  ghost predicate ToolsOnlyDrop(trace: seq<Event>) {
    forall i, j :: 0 <= i < j < |trace| && trace[i].ModelCall? && trace[j].ModelCall? && trace[j].toolsOffered
                   ==> trace[i].toolsOffered
  }

  /** Calls served from `i` up to the next model call. */
  function Served(trace: seq<Event>, i: nat): seq<ToolCall>
    requires i <= |trace|
    decreases |trace| - i
  {
    if i == |trace| || trace[i].ModelCall? then []
    else (if trace[i].Ran? || trace[i].Refused? then [trace[i].call] else []) + Served(trace, i + 1)
  }

  /** Every round runs or refuses each of its calls exactly once before the model is asked again: those
      that run one after the other in their order, then the rest in theirs. */
  ghost predicate RoundsServed(w: World, trace: seq<Event>) {
    forall i :: 0 <= i < |trace| ==> RoundServed(w, trace, i)
  }

  ghost predicate RoundServed(w: World, trace: seq<Event>, i: nat)
    requires i < |trace|
  {
    trace[i].Round? ==> Served(trace, i + 1) == InOrder(w, trace[i].calls)
  }

  lemma {:induction false} ServedStops(trace: seq<Event>, more: seq<Event>, i: nat)
    requires i <= |trace|
    requires more == [] || more[0].ModelCall?
    ensures Served(trace + more, i) == Served(trace, i)
    decreases |trace| - i
  {
    if i < |trace| {
      assert (trace + more)[i] == trace[i];
      ServedStops(trace, more, i + 1);
    } else if more != [] {
      assert (trace + more)[i] == more[0];
    }
  }

  /** After a model call, nothing that follows changes what earlier rounds served. */
  lemma {:induction false} ServedBeforeAsk(trace: seq<Event>, t: seq<Event>, i: nat)
    requires trace <= t && trace != [] && trace[|trace| - 1].ModelCall? && i < |trace|
    ensures Served(t, i) == Served(trace, i)
    decreases |trace| - i
  {
    if i < |trace| - 1 {
      ServedBeforeAsk(trace, t, i + 1);
    }
  }

  /** The calls that a stretch of the trace ran or refused, in order. */
  function Handled(events: seq<Event>): seq<ToolCall> {
    if events == [] then []
    else (if events[0].Ran? || events[0].Refused? then [events[0].call] else []) + Handled(events[1..])
  }

  lemma {:induction false} HandledConcat(a: seq<Event>, b: seq<Event>)
    ensures Handled(a + b) == Handled(a) + Handled(b)
    decreases |a|
  {
    if a == [] {
      assert a + b == b;
    } else {
      assert (a + b)[0] == a[0] && (a + b)[1..] == a[1..] + b;
      HandledConcat(a[1..], b);
      Assoc(if a[0].Ran? || a[0].Refused? then [a[0].call] else [], Handled(a[1..]), Handled(b));
    }
  }

  predicate ToolEvents(events: seq<Event>) {
    forall i :: 0 <= i < |events| ==>
      events[i].Asked? || events[i].Ran? || events[i].Refused? || events[i].LostTask?
  }

  lemma {:induction false} ServedIsHandled(before: seq<Event>, more: seq<Event>)
    requires ToolEvents(more)
    ensures Served(before + more, |before|) == Handled(more)
    decreases |more|
  {
    if more == [] {
      assert before + more == before;
    } else {
      ServedIsHandled(before + [more[0]], more[1..]);
      assert before + [more[0]] + more[1..] == before + more;
      assert (before + more)[|before|] == more[0];
    }
  }

  lemma RoundsServedAsk(w: World, trace: seq<Event>, ask: Event)
    requires RoundsServed(w, trace) && ask.ModelCall?
    ensures RoundsServed(w, trace + [ask])
  {
    forall i: nat | i < |trace| ensures RoundServed(w, trace + [ask], i) {
      assert RoundServed(w, trace, i);
      ServedStops(trace, [ask], i + 1);
    }
  }

  /** What follows a model call does not disturb the rounds before it. */
  lemma RoundServedBefore(w: World, trace: seq<Event>, t: seq<Event>, i: nat)
    requires trace <= t && RoundsServed(w, trace) && trace != [] && trace[|trace| - 1].ModelCall? && i < |trace|
    ensures RoundServed(w, t, i)
  {
    assert RoundServed(w, trace, i);
    if i < |trace| - 1 {
      ServedBeforeAsk(trace, t, i + 1);
    }
  }

  lemma RoundsServedStop(w: World, trace: seq<Event>, e: Event)
    requires RoundsServed(w, trace) && trace != [] && trace[|trace| - 1].ModelCall? && !e.Round?
    ensures RoundsServed(w, trace + [e])
  {
    forall i: nat | i < |trace| ensures RoundServed(w, trace + [e], i) {
      RoundServedBefore(w, trace, trace + [e], i);
    }
  }

  lemma NewRoundServed(w: World, trace: seq<Event>, round: Event, more: seq<Event>)
    requires round.Round? && ToolEvents(more) && Handled(more) == InOrder(w, round.calls)
    ensures RoundServed(w, trace + [round] + more, |trace|)
  {
    ServedIsHandled(trace + [round], more);
    assert (trace + [round] + more)[|trace|] == round;
  }

  lemma RoundsServedRound(w: World, trace: seq<Event>, round: Event, more: seq<Event>)
    requires RoundsServed(w, trace) && trace != [] && trace[|trace| - 1].ModelCall?
    requires round.Round? && ToolEvents(more) && Handled(more) == InOrder(w, round.calls)
    ensures RoundsServed(w, trace + [round] + more)
  {
    var t := trace + [round] + more;
    forall i: nat | i < |t| ensures RoundServed(w, t, i) {
      if i < |trace| {
        RoundServedBefore(w, trace, t, i);
      } else if i == |trace| {
        NewRoundServed(w, trace, round, more);
      } else {
        TailIsTools(trace + [round], more, i);
      }
    }
  }

  lemma TailIsTools(before: seq<Event>, more: seq<Event>, i: nat)
    requires ToolEvents(more) && |before| <= i < |before| + |more|
    ensures !(before + more)[i].Round? && !(before + more)[i].ModelCall?
  {
    assert (before + more)[i] == more[i - |before|];
  }

  // ----- History -----

  /** A tool task of a native round disappeared before moment `i`. */
  ghost predicate AnswerLost(trace: seq<Event>, i: nat)
    requires i <= |trace|
  {
    exists j :: 0 <= j < i && trace[j].LostTask? && trace[j].native
  }

  /** What the model is shown is balanced exactly when the initial history was and no tool task of
      a native round has been lost. */
  ghost predicate HistoryExact(clean: bool, trace: seq<Event>) {
    forall i :: 0 <= i < |trace| && trace[i].ModelCall? ==>
                  (Balanced(trace[i].messages) <==> clean && !AnswerLost(trace, i))
  }

  lemma AnswerLostConcat(a: seq<Event>, b: seq<Event>, i: nat)
    requires i <= |a| + |b|
    ensures i <= |a| ==> AnswerLost(a + b, i) == AnswerLost(a, i)
    ensures i >= |a| ==> AnswerLost(a + b, i) == (AnswerLost(a, |a|) || AnswerLost(b, i - |a|))
  {
    var t := a + b;
    assert forall j :: 0 <= j < |a| ==> t[j] == a[j];
    assert forall j :: 0 <= j < |b| ==> t[|a| + j] == b[j];
    if i >= |a| && AnswerLost(t, i) {
      var j :| 0 <= j < i && t[j].LostTask? && t[j].native;
      assert j >= |a| ==> t[j] == b[j - |a|];
    }
  }

  lemma HistoryQuiet(clean: bool, trace: seq<Event>, more: seq<Event>)
    requires HistoryExact(clean, trace)
    requires forall i :: 0 <= i < |more| ==> !more[i].ModelCall?
    ensures HistoryExact(clean, trace + more)
  {
    var t := trace + more;
    assert forall i :: |trace| <= i < |t| ==> t[i] == more[i - |trace|];
    forall i | 0 <= i < |t| && t[i].ModelCall?
      ensures Balanced(t[i].messages) <==> clean && !AnswerLost(t, i)
    {
      AnswerLostConcat(trace, more, i);
    }
  }

  lemma HistoryAsk(clean: bool, trace: seq<Event>, messages: seq<ApiMessage>, offered: bool)
    requires HistoryExact(clean, trace)
    requires Balanced(messages) <==> clean && !AnswerLost(trace, |trace|)
    ensures HistoryExact(clean, trace + [ModelCall(messages, offered)])
    ensures AnswerLost(trace + [ModelCall(messages, offered)], |trace| + 1) == AnswerLost(trace, |trace|)
  {
    var e := ModelCall(messages, offered);
    var t := trace + [e];
    forall i | 0 <= i < |t| && t[i].ModelCall?
      ensures Balanced(t[i].messages) <==> clean && !AnswerLost(t, i)
    {
      AnswerLostConcat(trace, [e], i);
      if i < |trace| {
        assert t[i] == trace[i];
      }
    }
    AnswerLostConcat(trace, [e], |trace| + 1);
  }
}
