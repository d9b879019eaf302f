/** What ties a run to the model's answers: which calls a round plays, whether it is native, what is
    offered to the model, and what the history is. */
module AgentFidelity {
  import opened Sequences
  import opened Text
  import opened AgentProtocol
  import opened AgentTrace

  const SHOWN_ARGUMENTS: nat := 120

  function CallSignature(c: ToolCall): string { c.name + ":" + FirstChars(c.arguments, SHOWN_ARGUMENTS) }

  function Signature(calls: seq<ToolCall>): (s: string)
    ensures calls != [] ==> s != ""
  {
    if calls == [] then ""
    else if |calls| == 1 then CallSignature(calls[0])
    else CallSignature(calls[0]) + "|" + Signature(calls[1..])
  }

  function AssistantMessage(text: string, calls: seq<ToolCall>): ApiMessage {
    ApiMessage(ASSISTANT, text, None, if calls == [] then None else Some(calls), None)
  }

  /** The calls asked for, with missing ids filled in. */
  predicate SameCalls(asked: seq<ToolCall>, played: seq<ToolCall>) {
    && |asked| == |played|
    && forall i :: 0 <= i < |asked| ==>
         && played[i].id != "" && played[i].name == asked[i].name && played[i].arguments == asked[i].arguments
         && (asked[i].id != "" ==> played[i] == asked[i])
  }

  /** Missing ids do not show in the signature. */
  lemma {:induction false} SignatureSame(asked: seq<ToolCall>, played: seq<ToolCall>)
    requires SameCalls(asked, played)
    ensures Signature(played) == Signature(asked)
    decreases |asked|
  {
    if |asked| > 1 {
      assert forall i :: 0 <= i < |asked[1..]| ==> asked[1..][i] == asked[i + 1] && played[1..][i] == played[i + 1];
      SignatureSame(asked[1..], played[1..]);
    }
  }

  /** The calls a turn asks for: its own, or those recovered from its text. */
  function Wanted(w: World, turn: ChatTurn): seq<ToolCall> {
    if turn.toolCalls != [] then turn.toolCalls else w.recover(turn.text)
  }

  /** The event at `i` is the retry of a failed model call. */
  predicate IsRetry(trace: seq<Event>, i: nat)
    requires i < |trace|
  {
    i > 0 && trace[i - 1].ModelCall? && trace[i].ModelCall?
  }

  /** Native tools are on at moment `i`: they were on at the start, no call to the model had to be
      repeated, and every round was native. */
  ghost predicate StillNative(enabled: bool, trace: seq<Event>, i: nat)
    requires i <= |trace|
  {
    enabled && forall q :: 0 <= q < i ==> (trace[q].Round? ==> trace[q].native) && !IsRetry(trace, q)
  }

  /** Tools are offered exactly while native tools are on, and never in a retry. */
  ghost predicate Offers(enabled: bool, schemas: bool, trace: seq<Event>) {
    forall i :: 0 <= i < |trace| && trace[i].ModelCall? ==>
                  (trace[i].toolsOffered <==> schemas && StillNative(enabled, trace, i) && !IsRetry(trace, i))
  }

  /** A round plays the calls of the turn before it, or those recovered from its text; it is native
      exactly when native tools are on, the provider did not reject them and the calls are the
      turn's own. */
  ghost predicate FaithfulAt(w: World, enabled: bool, trace: seq<Event>, r: nat)
    requires r < |trace| && trace[r].Round?
  {
    && r > 0 && trace[r - 1].ModelCall? && w.model(r).Ok?
    && var turn := w.model(r).value;
       && SameCalls(Wanted(w, turn), trace[r].calls)
       && (turn.toolCalls != [] ==> SameCalls(turn.toolCalls, trace[r].calls))
       && trace[r].calls != [] && trace[r].signature == Signature(trace[r].calls)
       && (trace[r].native <==> StillNative(enabled, trace, r) && !turn.toolsDisabled && turn.toolCalls != [])
  }

  ghost predicate Faithful(w: World, enabled: bool, trace: seq<Event>) {
    forall r :: 0 <= r < |trace| && trace[r].Round? ==> FaithfulAt(w, enabled, trace, r)
  }

  /** A failed call to the model at `m` is repeated: native tools were on, and it is no retry itself. */
  ghost predicate CanRetry(enabled: bool, trace: seq<Event>, m: nat)
    requires m < |trace|
  {
    StillNative(enabled, trace, m) && !IsRetry(trace, m)
  }

  /** What the model's answer demands comes next, at once and nothing else: after a failure that can be
      retried the retry, with the same messages; after calls asked for, the round that plays them or the
      guard's stop for them. Nothing comes after any other answer, or after a stop, and the guard stops
      nothing but an answer. */
  ghost predicate FollowsAt(w: World, enabled: bool, trace: seq<Event>, i: nat)
    requires i < |trace|
  {
    && (trace[i].GuardStop? ==> i > 0 && trace[i - 1].ModelCall?)
    && (i > 0 ==> !trace[i - 1].GuardStop?)
    && (i > 0 && trace[i - 1].ModelCall? ==> Obeys(w, enabled, trace, i))
  }

  ghost predicate Obeys(w: World, enabled: bool, trace: seq<Event>, i: nat)
    requires 0 < i < |trace| && trace[i - 1].ModelCall?
  {
    var reply := w.model(i);
    match trace[i]
    case ModelCall(messages, _) => reply.Err? && CanRetry(enabled, trace, i - 1) && messages == trace[i - 1].messages
    case Round(calls, _, _) => reply.Ok? && SameCalls(Wanted(w, reply.value), calls)
    case GuardStop(signature) => reply.Ok? && Wanted(w, reply.value) != [] &&
        signature == Signature(Wanted(w, reply.value))
    case _ => false
  }

  ghost predicate Follows(w: World, enabled: bool, trace: seq<Event>) {
    forall i :: 0 <= i < |trace| ==> FollowsAt(w, enabled, trace, i)
  }

  // ----- The history, as a function of the run -----

  function ToolMessageContent(r: ToolResult): string {
    "[" + (if r.ok then "ok" else "error") + "] " + r.title + "\n" + r.output
  }

  /** How the result of a call is told to the model. */
  function Reply(call: ToolCall, r: ToolResult, native: bool): ApiMessage {
    if native then ApiMessage(TOOL, ToolMessageContent(r), Some(call.id), None, Some(r.name))
    else ApiMessage(USER, "Result of command `" + r.name + "`:\n" + ToolMessageContent(r), None, None, None)
  }

  function ReplyTo(e: Event, native: bool): seq<ApiMessage> {
    match e
    case Ran(call, Done(result)) => [Reply(call, result, native)]
    case Refused(call, result) => [Reply(call, result, native)]
    case _ => []
  }

  /** One reply for every call that yielded a result, in the order of the run. */
  function Replies(events: seq<Event>, native: bool): seq<ApiMessage> {
    if events == [] then [] else Replies(events[..|events| - 1], native) + ReplyTo(events[|events| - 1], native)
  }

  lemma {:induction false} RepliesConcat(a: seq<Event>, b: seq<Event>, native: bool)
    ensures Replies(a + b, native) == Replies(a, native) + Replies(b, native)
  {
    if b == [] {
      assert a + b == a;
    } else {
      var n := |b| - 1;
      assert (a + b)[..|a + b| - 1] == a + b[..n];
      RepliesConcat(a, b[..n], native);
      Assoc(Replies(a, native), Replies(b[..n], native), ReplyTo(b[n], native));
    }
  }

  /** Whether the last round was native. */
  function LastNative(trace: seq<Event>): bool {
    if trace == [] then false
    else if trace[|trace| - 1].Round? then trace[|trace| - 1].native
    else LastNative(trace[..|trace| - 1])
  }

  function TextOf(reply: Result<ChatTurn>): string { if reply.Ok? then reply.value.text else "" }

  /** What a run adds to the history: for each round the model's text, announcing the calls exactly
      when the round is native, and then the replies. */
  function Talk(w: World, trace: seq<Event>): seq<ApiMessage> {
    if trace == [] then []
    else
      var n := |trace| - 1;
      Talk(w, trace[..n]) +
      (if trace[n].Round? then [AssistantMessage(TextOf(w.model(n)), if trace[n].native then trace[n].calls else [])]
       else ReplyTo(trace[n], LastNative(trace[..n])))
  }

  /** What the model is shown at each moment is the initial history and everything since. */
  ghost predicate Spoken(w: World, start: seq<ApiMessage>, trace: seq<Event>) {
    forall i :: 0 <= i < |trace| && trace[i].ModelCall? ==> trace[i].messages == start + Talk(w, trace[..i])
  }

  lemma {:induction false} TalkTools(w: World, trace: seq<Event>, more: seq<Event>)
    requires ToolEvents(more)
    ensures Talk(w, trace + more) == Talk(w, trace) + Replies(more, LastNative(trace))
    ensures LastNative(trace + more) == LastNative(trace)
    decreases |more|
  {
    if more == [] {
      assert trace + more == trace;
      NilRight(Talk(w, trace));
    } else {
      var n := |more| - 1;
      assert (trace + more)[..|trace + more| - 1] == trace + more[..n];
      TalkTools(w, trace, more[..n]);
      Assoc(Talk(w, trace), Replies(more[..n], LastNative(trace)), ReplyTo(more[n], LastNative(trace)));
    }
  }

  lemma TalkRound(w: World, trace: seq<Event>, round: Event, more: seq<Event>)
    requires round.Round? && ToolEvents(more)
    ensures Talk(w, trace + [round] + more) ==
            Talk(w, trace) + [AssistantMessage(TextOf(w.model(|trace|)), if round.native then round.calls else [])] +
            Replies(more, round.native)
  {
    assert (trace + [round])[..|trace|] == trace;
    TalkTools(w, trace + [round], more);
  }

  /** One more event that says nothing. */
  lemma TalkQuiet(w: World, trace: seq<Event>, e: Event)
    requires e.ModelCall? || e.GuardStop?
    ensures Talk(w, trace + [e]) == Talk(w, trace)
  {
    assert (trace + [e])[..|trace|] == trace;
    NilRight(Talk(w, trace));
  }

  lemma SpokenMore(w: World, start: seq<ApiMessage>, trace: seq<Event>, more: seq<Event>)
    requires Spoken(w, start, trace) && forall i :: 0 <= i < |more| ==> !more[i].ModelCall?
    ensures Spoken(w, start, trace + more)
  {
    var t := trace + more;
    forall i | 0 <= i < |t| && t[i].ModelCall? ensures t[i].messages == start + Talk(w, t[..i]) {
      SpokenAt(w, start, trace, more, i);
    }
  }

  lemma SpokenAt(w: World, start: seq<ApiMessage>, trace: seq<Event>, more: seq<Event>, i: nat)
    requires Spoken(w, start, trace) && forall i :: 0 <= i < |more| ==> !more[i].ModelCall?
    requires i < |trace + more| && (trace + more)[i].ModelCall?
    ensures (trace + more)[i].messages == start + Talk(w, (trace + more)[..i])
  {
    assert (trace + more)[..i] == trace[..i];
  }

  lemma SpokenAsk(w: World, start: seq<ApiMessage>, trace: seq<Event>, messages: seq<ApiMessage>, offered: bool)
    requires Spoken(w, start, trace) && messages == start + Talk(w, trace)
    ensures Spoken(w, start, trace + [ModelCall(messages, offered)])
  {
    var t := trace + [ModelCall(messages, offered)];
    forall i | 0 <= i < |t| && t[i].ModelCall? ensures t[i].messages == start + Talk(w, t[..i]) {
      assert t[..i] == trace[..i];
      if i == |trace| {
        assert trace[..i] == trace;
      }
    }
  }

  // ----- What is offered and played -----

  lemma StillNativePrefix(enabled: bool, trace: seq<Event>, t: seq<Event>, i: nat)
    requires trace <= t && i <= |trace|
    ensures StillNative(enabled, t, i) == StillNative(enabled, trace, i)
  {
    assert forall q :: 0 <= q < i ==> t[q] == trace[q] && IsRetry(t, q) == IsRetry(trace, q);
  }

  lemma StillNativeNext(enabled: bool, trace: seq<Event>, i: nat)
    requires i < |trace|
    ensures StillNative(enabled, trace, i + 1) <==>
            StillNative(enabled, trace, i) && (trace[i].Round? ==> trace[i].native) && !IsRetry(trace, i)
  {
  }

  /** Native tools never come back. */
  lemma StillNativeFalls(enabled: bool, trace: seq<Event>, i: nat, j: nat)
    requires i <= j <= |trace| && StillNative(enabled, trace, j)
    ensures StillNative(enabled, trace, i)
  {
  }

  lemma OffersOnlyDrop(enabled: bool, schemas: bool, trace: seq<Event>)
    requires Offers(enabled, schemas, trace)
    ensures ToolsOnlyDrop(trace)
  {
    forall i, j | 0 <= i < j < |trace| && trace[i].ModelCall? && trace[j].ModelCall? && trace[j].toolsOffered
      ensures trace[i].toolsOffered
    {
      StillNativeFalls(enabled, trace, i, j);
      StillNativeFalls(enabled, trace, i + 1, j);
      StillNativeNext(enabled, trace, i);
    }
  }

  /** The run so far is what the model's answers make it. */
  ghost predicate Told(w: World, enabled: bool, schemas: bool, trace: seq<Event>) {
    Offers(enabled, schemas, trace) && Faithful(w, enabled, trace) && Follows(w, enabled, trace)
  }

  lemma FollowsAtPrefix(w: World, enabled: bool, trace: seq<Event>, t: seq<Event>, i: nat)
    requires trace <= t && i < |trace| && FollowsAt(w, enabled, trace, i)
    ensures FollowsAt(w, enabled, t, i)
  {
    if i > 0 {
      StillNativePrefix(enabled, trace, t, i - 1);
      assert IsRetry(t, i - 1) == IsRetry(trace, i - 1);
    }
  }

  lemma FollowsAppend(w: World, enabled: bool, trace: seq<Event>, e: Event)
    requires Follows(w, enabled, trace) && FollowsAt(w, enabled, trace + [e], |trace|)
    ensures Follows(w, enabled, trace + [e])
  {
    forall i | 0 <= i < |trace| ensures FollowsAt(w, enabled, trace + [e], i) {
      FollowsAtPrefix(w, enabled, trace, trace + [e], i);
    }
  }

  lemma FaithfulPrefix(w: World, enabled: bool, trace: seq<Event>, t: seq<Event>, r: nat)
    requires trace <= t && r < |trace| && trace[r].Round? && FaithfulAt(w, enabled, trace, r)
    ensures FaithfulAt(w, enabled, t, r)
  {
    StillNativePrefix(enabled, trace, t, r);
  }

  /** One more event that is neither a model call nor a round. */
  lemma ToldQuiet(w: World, enabled: bool, schemas: bool, trace: seq<Event>, e: Event)
    requires Told(w, enabled, schemas, trace) && !e.ModelCall? && !e.Round?
    requires FollowsAt(w, enabled, trace + [e], |trace|)
    ensures Told(w, enabled, schemas, trace + [e])
    ensures StillNative(enabled, trace + [e], |trace| + 1) == StillNative(enabled, trace, |trace|)
  {
    var t := trace + [e];
    FollowsAppend(w, enabled, trace, e);
    StillNativeBefore(enabled, trace, e);
    FaithfulBefore(w, enabled, trace, e);
  }

  lemma StillNativeBefore(enabled: bool, trace: seq<Event>, e: Event)
    ensures forall i :: 0 <= i <= |trace| ==> StillNative(enabled, trace + [e], i) == StillNative(enabled, trace, i)
    ensures StillNative(enabled, trace + [e], |trace| + 1) <==>
            StillNative(enabled, trace, |trace|) && (e.Round? ==> e.native) && !IsRetry(trace + [e], |trace|)
  {
    forall i | 0 <= i <= |trace| ensures StillNative(enabled, trace + [e], i) == StillNative(enabled, trace, i) {
      StillNativePrefix(enabled, trace, trace + [e], i);
    }
    StillNativeNext(enabled, trace + [e], |trace|);
  }

  lemma FaithfulBefore(w: World, enabled: bool, trace: seq<Event>, e: Event)
    requires Faithful(w, enabled, trace)
    ensures forall r :: 0 <= r < |trace| && (trace + [e])[r].Round? ==> FaithfulAt(w, enabled, trace + [e], r)
  {
    forall r | 0 <= r < |trace| && trace[r].Round? ensures FaithfulAt(w, enabled, trace + [e], r) {
      FaithfulPrefix(w, enabled, trace, trace + [e], r);
    }
  }

  /** Something has happened since the model was last asked, and the guard has not stopped the run. */
  predicate Underway(trace: seq<Event>) {
    trace != [] && !trace[|trace| - 1].ModelCall? && !trace[|trace| - 1].GuardStop?
  }

  lemma {:induction false} ToldTools(w: World, enabled: bool, schemas: bool, trace: seq<Event>, more: seq<Event>)
    requires Told(w, enabled, schemas, trace) && ToolEvents(more) && Underway(trace)
    ensures Told(w, enabled, schemas, trace + more)
    ensures StillNative(enabled, trace + more, |trace + more|) == StillNative(enabled, trace, |trace|)
    decreases |more|
  {
    if more == [] {
      assert trace + more == trace;
    } else {
      ToldQuiet(w, enabled, schemas, trace, more[0]);
      ToldTools(w, enabled, schemas, trace + [more[0]], more[1..]);
      assert trace + [more[0]] + more[1..] == trace + more;
    }
  }

  lemma ToldAsk(w: World, enabled: bool, schemas: bool, trace: seq<Event>, messages: seq<ApiMessage>, offered: bool)
    requires Told(w, enabled, schemas, trace)
    requires var again := trace != [] && trace[|trace| - 1].ModelCall?;
             offered <==> schemas && StillNative(enabled, trace, |trace|) && !again
    requires FollowsAt(w, enabled, trace + [ModelCall(messages, offered)], |trace|)
    ensures var t := trace + [ModelCall(messages, offered)];
            && Told(w, enabled, schemas, t)
            && (StillNative(enabled, t, |t|) <==>
                StillNative(enabled, trace, |trace|) && !(trace != [] && trace[|trace| - 1].ModelCall?))
  {
    var e := ModelCall(messages, offered);
    FollowsAppend(w, enabled, trace, e);
    StillNativeBefore(enabled, trace, e);
    FaithfulBefore(w, enabled, trace, e);
  }

  lemma ToldRound(w: World, enabled: bool, schemas: bool, trace: seq<Event>, round: Event)
    requires Told(w, enabled, schemas, trace) && round.Round?
    requires FaithfulAt(w, enabled, trace + [round], |trace|)
    ensures Underway(trace + [round])
    ensures Told(w, enabled, schemas, trace + [round])
    ensures StillNative(enabled, trace + [round], |trace| + 1) <==> StillNative(enabled, trace, |trace|) && round.native
  {
    FollowsAppend(w, enabled, trace, round);
    StillNativeBefore(enabled, trace, round);
    FaithfulBefore(w, enabled, trace, round);
  }

  lemma ToldWholeRound(w: World, enabled: bool, schemas: bool, trace: seq<Event>, round: Event, more: seq<Event>)
    requires Told(w, enabled, schemas, trace)
    requires round.Round? && FaithfulAt(w, enabled, trace + [round], |trace|) && ToolEvents(more)
    ensures var t := trace + [round] + more;
            && Told(w, enabled, schemas, t)
            && (StillNative(enabled, t, |t|) <==> StillNative(enabled, trace, |trace|) && round.native)
  {
    ToldRound(w, enabled, schemas, trace, round);
    ToldTools(w, enabled, schemas, trace + [round], more);
  }
}
