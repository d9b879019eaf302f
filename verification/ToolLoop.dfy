/** The multi-step agent loop: model, tools, model, until the model stops asking for tools or a
    cap is hit. `Run` follows the program's control flow; its postconditions hold for every world,
    that is for every answer of the model, the permission hub and the tools. */
module ToolLoop {
  import opened Sequences
  import opened Text
  import opened AgentProtocol
  import opened AgentTrace
  import opened AgentFidelity
  import opened AgentMessages
  import opened AgentRound
  import opened AgentGuard
  import opened AgentRequests

  const MAX_STEPS: nat := 24

  datatype Outcome = Finished | ModelFailed | GuardStopped | CapReached

  function EffectiveSteps(maxSteps: nat): (n: nat)
    ensures 1 <= n <= 24 && n == if 1 <= maxSteps <= 24 then maxSteps else 24
  {
    if maxSteps == 0 then MAX_STEPS else if maxSteps <= MAX_STEPS then maxSteps else MAX_STEPS
  }

  /** What holds of the trace between any two events outside a round. */
  ghost predicate Sound(w: World, input: LoopInput, always: seq<string>, trace: seq<Event>) {
    && Lawful(w, always, trace)
    && RoundsServed(w, trace)
    && (IdsKept(w) ==> HistoryExact(NoToolRole(input.history), trace) && Spoken(w, InitialMessages(input), trace))
  }

  /** The state of the history, when results keep their ids. */
  ghost predicate Accounted(w: World, input: LoopInput, messages: seq<ApiMessage>, trace: seq<Event>) {
    IdsKept(w) ==>
      && (Balanced(messages) <==> NoToolRole(input.history) && !AnswerLost(trace, |trace|))
      && messages == InitialMessages(input) + Talk(w, trace)
  }

  lemma SoundAsk(w: World, input: LoopInput, always: seq<string>, trace: seq<Event>, messages: seq<ApiMessage>,
                 offered: bool)
    requires Sound(w, input, always, trace) && Accounted(w, input, messages, trace)
    ensures var t := trace + [ModelCall(messages, offered)];
            && Sound(w, input, always, t) && Accounted(w, input, messages, t)
  {
    var e := ModelCall(messages, offered);
    PermittedFree(w, trace, e, always);
    RoundsServedAsk(w, trace, e);
    AnswerLostConcat(trace, [e], |trace| + 1);
    if IdsKept(w) {
      HistoryAsk(NoToolRole(input.history), trace, messages, e.toolsOffered);
      SpokenAsk(w, InitialMessages(input), trace, messages, e.toolsOffered);
      TalkQuiet(w, trace, e);
    }
  }

  predicate JustAsked(trace: seq<Event>) { trace != [] && trace[|trace| - 1].ModelCall? }

  lemma SoundStop(w: World, input: LoopInput, always: seq<string>, trace: seq<Event>, sig: string)
    requires Sound(w, input, always, trace) && JustAsked(trace)
    ensures Sound(w, input, always, trace + [GuardStop(sig)])
  {
    var e := GuardStop(sig);
    PermittedFree(w, trace, e, always);
    RoundsServedStop(w, trace, e);
    if IdsKept(w) {
      HistoryQuiet(NoToolRole(input.history), trace, [e]);
      SpokenMore(w, InitialMessages(input), trace, [e]);
    }
  }

  lemma StopTally(trace: seq<Event>, sig: string)
    ensures Signatures(trace + [GuardStop(sig)]) == Signatures(trace)
    ensures ModelCalls(trace + [GuardStop(sig)]) == ModelCalls(trace)
  {
    var e := GuardStop(sig);
    TallyConcat(trace, [e]);
    assert [e][1..] == [];
    assert Signatures([e]) == [];
    assert Signatures(trace) + [] == Signatures(trace);
  }

  lemma ToolEventsTally(more: seq<Event>)
    requires ToolEvents(more)
    ensures Signatures(more) == [] && ModelCalls(more) == 0
  {
  }

  lemma SoundRound(w: World, input: LoopInput, always0: seq<string>, trace: seq<Event>,
                   round: Event, always: seq<string>, more: seq<Event>)
    requires Sound(w, input, always0, trace) && JustAsked(trace)
    requires round.Round? && ToolEvents(more) && Handled(more) == InOrder(w, round.calls)
    requires Lawful(w, always, trace + [round] + more)
    ensures Sound(w, input, always, trace + [round] + more)
  {
    Assoc(trace, [round], more);
    var tail := [round] + more;
    RoundsServedRound(w, trace, round, more);
    if IdsKept(w) {
      HistoryQuiet(NoToolRole(input.history), trace, tail);
      SpokenMore(w, InitialMessages(input), trace, tail);
    }
  }

  lemma RoundTally(trace: seq<Event>, round: Event, more: seq<Event>)
    requires round.Round? && ToolEvents(more)
    ensures var t := trace + [round] + more;
            && Signatures(t) == Signatures(trace) + [round.signature] && ModelCalls(t) == ModelCalls(trace)
            && AnswerLost(t, |t|) == (AnswerLost(trace, |trace|) || AnswerLost(more, |more|))
  {
    TallyConcat(trace, [round]);
    TallyConcat(trace + [round], more);
    ToolEventsTally(more);
    AnswerLostConcat(trace, [round], |trace| + 1);
    AnswerLostConcat(trace + [round], more, |trace| + 1 + |more|);
  }

  ghost predicate ToldSoFar(w: World, input: LoopInput, trace: seq<Event>) {
    Told(w, input.enableNativeTools, input.hasSchemas, trace)
  }

  /** The run so far is sound, its history accounted for, and each answer of the model obeyed. */
  ghost predicate Agrees(w: World, input: LoopInput, always: seq<string>, messages: seq<ApiMessage>,
                         trace: seq<Event>) {
    Sound(w, input, always, trace) && Accounted(w, input, messages, trace) && ToldSoFar(w, input, trace)
  }

  ghost predicate NativeIs(input: LoopInput, native: bool, trace: seq<Event>) {
    native <==> StillNative(input.enableNativeTools, trace, |trace|)
  }

  /** A question may be asked now: the run is between events, or its last question failed and can be
      repeated. */
  ghost predicate MayAsk(w: World, input: LoopInput, messages: seq<ApiMessage>, trace: seq<Event>) {
    && (trace != [] ==> !trace[|trace| - 1].GuardStop?)
    && (JustAsked(trace) ==>
          && w.model(|trace|).Err? && CanRetry(input.enableNativeTools, trace, |trace| - 1)
          && messages == trace[|trace| - 1].messages)
  }

  /** One question to the model, tools offered as they should be. */
  method AskOnce(w: World, input: LoopInput, messages: seq<ApiMessage>, native: bool, trace0: seq<Event>,
                 ghost always: seq<string>)
    returns (reply: Result<ChatTurn>, trace: seq<Event>)
    requires Agrees(w, input, always, messages, trace0)
    requires native <==> StillNative(input.enableNativeTools, trace0, |trace0|) && !JustAsked(trace0)
    requires MayAsk(w, input, messages, trace0)
    ensures trace == trace0 + [ModelCall(messages, native && input.hasSchemas)] && reply == w.model(|trace|)
    ensures Agrees(w, input, always, messages, trace)
    ensures NativeIs(input, native, trace)
    ensures reply.Err? && native ==> MayAsk(w, input, messages, trace)
  {
    var e := ModelCall(messages, native && input.hasSchemas);
    SoundAsk(w, input, always, trace0, messages, e.toolsOffered);
    StillNativeBefore(input.enableNativeTools, trace0, e);
    ToldAsk(w, input.enableNativeTools, input.hasSchemas, trace0, messages, e.toolsOffered);
    trace := trace0 + [e];
    reply := w.model(|trace|);
  }

  /** The model was asked once, or, when that failed with native tools on, a second time without. */
  ghost predicate AskedOnce(w: World, input: LoopInput, native: bool, messages: seq<ApiMessage>,
                            trace0: seq<Event>, trace: seq<Event>) {
    var asked := trace0 + [ModelCall(messages, native && input.hasSchemas)];
    trace == if native && w.model(|asked|).Err? then asked + [ModelCall(messages, false)] else asked
  }

  /** Ask the model; when it fails with tools on, turn them off for good and ask once more. */
  method AskModel(w: World, input: LoopInput, native0: bool, messages: seq<ApiMessage>, trace0: seq<Event>,
                  ghost always: seq<string>)
    returns (reply: Result<ChatTurn>, native: bool, trace: seq<Event>)
    requires Agrees(w, input, always, messages, trace0) && NativeIs(input, native0, trace0) && StillOpen(trace0)
    ensures AskedOnce(w, input, native0, messages, trace0, trace) && reply == w.model(|trace|)
    ensures native <==> native0 && w.model(|trace0| + 1).Ok?
    ensures Agrees(w, input, always, messages, trace) && NativeIs(input, native, trace)
  {
    native := native0;
    reply, trace := AskOnce(w, input, messages, native, trace0, always);
    if reply.Err? && native {
      native := false;
      reply, trace := AskOnce(w, input, messages, false, trace, always);
    }
  }

  lemma AskedTally(w: World, input: LoopInput, native: bool, messages: seq<ApiMessage>, trace0: seq<Event>,
                   trace: seq<Event>)
    requires AskedOnce(w, input, native, messages, trace0, trace)
    ensures JustAsked(trace) && trace[|trace| - 1].messages == messages
    ensures Signatures(trace) == Signatures(trace0)
    ensures ModelCalls(trace) == ModelCalls(trace0) + (if native && w.model(|trace0| + 1).Err? then 2 else 1)
  {
    var a, b := ModelCall(messages, native && input.hasSchemas), ModelCall(messages, false);
    AskTally(trace0, a);
    AskTally(trace0 + [a], b);
  }

  lemma AskTally(trace: seq<Event>, ask: Event)
    requires ask.ModelCall?
    ensures Signatures(trace + [ask]) == Signatures(trace) && ModelCalls(trace + [ask]) == ModelCalls(trace) + 1
  {
    TallyConcat(trace, [ask]);
    assert [ask][1..] == [];
    NilRight(Signatures(trace));
  }

  predicate StillOpen(trace: seq<Event>) { trace == [] || Underway(trace) }

  lemma RoundTalk(w: World, start: seq<ApiMessage>, trace: seq<Event>, round: Event, more: seq<Event>,
                  messages: seq<ApiMessage>)
    requires messages == start + Talk(w, trace) && round.Round? && ToolEvents(more)
    ensures start + Talk(w, trace + [round] + more) ==
            messages + [AssistantMessage(TextOf(w.model(|trace|)), if round.native then round.calls else [])] +
            Replies(more, round.native)
  {
    TalkRound(w, trace, round, more);
    var a := [AssistantMessage(TextOf(w.model(|trace|)), if round.native then round.calls else [])];
    Assoc4(start, Talk(w, trace), a, Replies(more, round.native));
  }

  /** The model has just asked for these calls, and `round` plays them. */
  ghost predicate Plays(w: World, input: LoopInput, messages: seq<ApiMessage>, trace: seq<Event>, round: Event) {
    && JustAsked(trace) && trace[|trace| - 1].messages == messages && w.model(|trace|).Ok?
    && round.Round? && Named(round.calls) && FaithfulAt(w, input.enableNativeTools, trace + [round], |trace|)
  }

  /** What the history gains from a round. */
  function Said(text: string, round: Event, answers: seq<ApiMessage>): seq<ApiMessage>
    requires round.Round?
  {
    [AssistantMessage(text, if round.native then round.calls else [])] + answers
  }

  lemma RoundAccounted(w: World, input: LoopInput, messages: seq<ApiMessage>, trace: seq<Event>, round: Event,
                       answers: seq<ApiMessage>, more: seq<Event>, ids: multiset<string>)
    requires Plays(w, input, messages, trace, round) && Accounted(w, input, messages, trace)
    requires Handles(w, round.calls, round.native, answers, more, ids)
    ensures Accounted(w, input, messages + Said(TextOf(w.model(|trace|)), round, answers), trace + [round] + more)
  {
    RoundTally(trace, round, more);
    if IdsKept(w) {
      var text := TextOf(w.model(|trace|));
      RoundBalance(messages, text, round.calls, answers, ids, round.native);
      RoundTalk(w, InitialMessages(input), trace, round, more, messages);
      Assoc(messages, [AssistantMessage(text, if round.native then round.calls else [])], answers);
    }
  }

  /** After a whole round. */
  lemma RoundAgrees(w: World, input: LoopInput, always0: seq<string>, messages: seq<ApiMessage>, trace: seq<Event>,
                    round: Event, answers: seq<ApiMessage>, always: seq<string>, more: seq<Event>,
                    ids: multiset<string>)
    requires Plays(w, input, messages, trace, round) && Agrees(w, input, always0, messages, trace)
    requires Handles(w, round.calls, round.native, answers, more, ids) && Lawful(w, always, trace + [round] + more)
    ensures var t := trace + [round] + more;
            && Agrees(w, input, always, messages + Said(TextOf(w.model(|trace|)), round, answers), t) && StillOpen(t)
            && (StillNative(input.enableNativeTools, t, |t|) <==>
                StillNative(input.enableNativeTools, trace, |trace|) && round.native)
  {
    SoundRound(w, input, always0, trace, round, always, more);
    RoundAccounted(w, input, messages, trace, round, answers, more, ids);
    ToldWholeRound(w, input.enableNativeTools, input.hasSchemas, trace, round, more);
  }

  /** What the loop carries from one step to the next. */
  datatype Carry = Carry(native: bool, last: string, same: nat, messages: seq<ApiMessage>, always: seq<string>)

  ghost predicate Ongoing(w: World, input: LoopInput, c: Carry, trace: seq<Event>) {
    && Sound(w, input, c.always, trace)
    && Accounted(w, input, c.messages, trace)
    && ToldSoFar(w, input, trace)
    && NativeIs(input, c.native, trace)
    && GuardState(Signatures(trace), c.last, c.same)
    && StillOpen(trace)
  }

  /** Why a run ends where it does. It is finished when the model asked for nothing, has failed when a
      call to the model failed and could not be retried, was stopped by the guard at what would have been
      the fifth equal round, and has run into the cap otherwise. */
  ghost predicate EndsWell(w: World, input: LoopInput, outcome: Outcome, trace: seq<Event>) {
    && (forall i :: !FiveInARow(Signatures(trace), i))
    && trace != []
    && var n := |trace| - 1;
       match outcome
       case Finished =>
         && trace[n].ModelCall? && w.model(n + 1).Ok?
         && w.model(n + 1).value.toolCalls == [] && w.recover(w.model(n + 1).value.text) == []
       case ModelFailed => trace[n].ModelCall? && w.model(n + 1).Err? && !CanRetry(input.enableNativeTools, trace, n)
       case GuardStopped =>
         trace[n].GuardStop? && FiveInARow(Signatures(trace) + [trace[n].signature], |Signatures(trace)| - 4)
       case CapReached => Underway(trace)
  }

  /** The trace alone tells how the run ended. */
  lemma OneOutcome(w: World, input: LoopInput, a: Outcome, b: Outcome, trace: seq<Event>)
    requires EndsWell(w, input, a, trace) && EndsWell(w, input, b, trace)
    ensures a == b
  {
  }

  lemma EndsByModel(w: World, input: LoopInput, outcome: Outcome, sigs: seq<string>, trace: seq<Event>, last: string,
                    same: nat)
    requires JustAsked(trace) && Signatures(trace) == sigs && GuardState(sigs, last, same)
    requires if outcome == Finished then w.model(|trace|).Ok? && Wanted(w, w.model(|trace|).value) == []
             else
               && outcome == ModelFailed && w.model(|trace|).Err?
               && !CanRetry(input.enableNativeTools, trace, |trace| - 1)
    ensures EndsWell(w, input, outcome, trace)
  {
  }

  lemma EndsByGuard(w: World, input: LoopInput, trace: seq<Event>, sig: string, last: string, same: nat)
    requires GuardState(Signatures(trace), last, same) && FiveInARow(Signatures(trace) + [sig], |Signatures(trace)| - 4)
    ensures EndsWell(w, input, GuardStopped, trace + [GuardStop(sig)])
    ensures ModelCalls(trace + [GuardStop(sig)]) == ModelCalls(trace)
  {
    StopTally(trace, sig);
  }

  /** The calls of a turn: the native ones, or those recovered from its text; recovery turns native
      tools off. */
  method CallsOf(w: World, turn: ChatTurn, native0: bool)
    returns (calls: seq<ToolCall>, recovered: bool, native: bool)
    ensures native ==> native0
    ensures calls == Wanted(w, turn)
    ensures recovered <==> turn.toolCalls == [] && calls != []
    ensures native <==> native0 && !turn.toolsDisabled && !recovered
  {
    native := native0;
    if turn.toolsDisabled {
      native := false;
    }
    calls := turn.toolCalls;
    var found := if calls == [] then w.recover(turn.text) else [];
    recovered := found != [];
    if recovered {
      calls := found;
      native := false;
    }
  }

  lemma FaithfulRound(w: World, enabled: bool, trace: seq<Event>, turn: ChatTurn, calls: seq<ToolCall>, native: bool)
    requires JustAsked(trace) && w.model(|trace|) == Ok(turn) && calls != []
    requires SameCalls(Wanted(w, turn), calls)
    requires native <==> StillNative(enabled, trace, |trace|) && !turn.toolsDisabled && turn.toolCalls != []
    ensures FaithfulAt(w, enabled, trace + [Round(calls, Signature(calls), native)], |trace|)
  {
    StillNativePrefix(enabled, trace, trace + [Round(calls, Signature(calls), native)], |trace|);
  }

  /** Everything holds at the end of a run that the guard has stopped. */
  lemma Halting(w: World, input: LoopInput, c: Carry, trace: seq<Event>, sig: string)
    requires Sound(w, input, c.always, trace) && ToldSoFar(w, input, trace) && JustAsked(trace)
    requires var reply := w.model(|trace|);
             reply.Ok? && Wanted(w, reply.value) != [] && sig == Signature(Wanted(w, reply.value))
    requires GuardState(Signatures(trace), c.last, c.same) &&
               FiveInARow(Signatures(trace) + [sig], |Signatures(trace)| - 4)
    ensures var t := trace + [GuardStop(sig)];
            && Sound(w, input, c.always, t) && ToldSoFar(w, input, t)
            && EndsWell(w, input, GuardStopped, t) && ModelCalls(t) == ModelCalls(trace)
  {
    SoundStop(w, input, c.always, trace, sig);
    ToldQuiet(w, input.enableNativeTools, input.hasSchemas, trace, GuardStop(sig));
    EndsByGuard(w, input, trace, sig, c.last, c.same);
  }

  /** After `AskModel`, a failure was a retry's, or native tools were off. */
  lemma NoRetryLeft(w: World, input: LoopInput, native0: bool, messages: seq<ApiMessage>, trace0: seq<Event>,
                    trace: seq<Event>)
    requires NativeIs(input, native0, trace0)
    requires AskedOnce(w, input, native0, messages, trace0, trace) && w.model(|trace|).Err?
    ensures !CanRetry(input.enableNativeTools, trace, |trace| - 1)
  {
    if native0 {
      assert IsRetry(trace, |trace| - 1);
    } else {
      assert |trace| == |trace0| + 1 && trace0 <= trace;
      StillNativePrefix(input.enableNativeTools, trace0, trace, |trace0|);
    }
  }

  /** The model has just answered with a turn that asks for these calls. */
  ghost predicate Answered(w: World, input: LoopInput, c: Carry, turn: ChatTurn, calls: seq<ToolCall>,
                           trace: seq<Event>) {
    && Agrees(w, input, c.always, c.messages, trace) && GuardState(Signatures(trace), c.last, c.same)
    && JustAsked(trace) && trace[|trace| - 1].messages == c.messages
    && w.model(|trace|) == Ok(turn) && calls == Wanted(w, turn) && calls != []
    && (c.native <==>
        StillNative(input.enableNativeTools, trace, |trace|) && !turn.toolsDisabled && turn.toolCalls != [])
  }

  /** The calls of a turn: the guard stops the run, or they are played. */
  method PlayTurn(w: World, input: LoopInput, step: nat, c: Carry, turn: ChatTurn, wanted: seq<ToolCall>,
                  isRecovered: bool, trace0: seq<Event>)
    returns (stop: Option<Outcome>, next: Carry, trace: seq<Event>)
    requires Answered(w, input, c, turn, wanted, trace0) && (isRecovered <==> turn.toolCalls == [])
    ensures next.native == c.native
    ensures Sound(w, input, next.always, trace) && ToldSoFar(w, input, trace)
    ensures ModelCalls(trace) == ModelCalls(trace0)
    ensures stop.None? ==> Ongoing(w, input, next, trace) && |Signatures(trace)| == |Signatures(trace0)| + 1
    ensures stop.Some? ==> EndsWell(w, input, stop.value, trace) && stop.value != CapReached
  {
    var calls := FillIds(step, wanted);
    SignatureSame(wanted, calls);
    FaithfulRound(w, input.enableNativeTools, trace0, turn, calls, c.native);
    var sig := Signature(calls);
    var halt, last, same := RepeatGuard(Signatures(trace0), c.last, c.same, sig);
    if halt {
      Halting(w, input, c, trace0, sig);
      return Some(GuardStopped), c, trace0 + [GuardStop(sig)];
    }
    var round := Round(calls, sig, c.native && !isRecovered);
    PermittedFree(w, trace0, round, c.always);
    var answers, always, more;
    ghost var ids;
    answers, always, more, ids := PlayRound(w, calls, step, round.native, c.always, trace0 + [round]);
    RoundAgrees(w, input, c.always, c.messages, trace0, round, answers, always, more, ids);
    RoundTally(trace0, round, more);
    trace := trace0 + [round] + more;
    next := Carry(c.native, last, same, c.messages + Said(turn.text, round, answers), always);
    stop := None;
  }

  /** One step: a model turn and, when it asks for tools and the guard lets it, a round. */
  method Step(w: World, input: LoopInput, step: nat, c: Carry, trace0: seq<Event>)
    returns (stop: Option<Outcome>, next: Carry, trace: seq<Event>)
    requires Ongoing(w, input, c, trace0)
    ensures next.native ==> c.native
    ensures Sound(w, input, next.always, trace) && ToldSoFar(w, input, trace)
    ensures ModelCalls(trace) <= ModelCalls(trace0) + (if c.native && !next.native then 2 else 1)
    ensures stop.None? ==> Ongoing(w, input, next, trace) && |Signatures(trace)| == |Signatures(trace0)| + 1
    ensures stop.Some? ==> EndsWell(w, input, stop.value, trace) && stop.value != CapReached
  {
    ghost var sigs := Signatures(trace0);
    var reply, native;
    reply, native, trace := AskModel(w, input, c.native, c.messages, trace0, c.always);
    AskedTally(w, input, c.native, c.messages, trace0, trace);
    next := c.(native := native);
    if reply.Err? {
      NoRetryLeft(w, input, c.native, c.messages, trace0, trace);
      EndsByModel(w, input, ModelFailed, sigs, trace, c.last, c.same);
      return Some(ModelFailed), next, trace;
    }
    var turn := reply.value;
    var calls, isRecovered;
    calls, isRecovered, native := CallsOf(w, turn, native);
    next := c.(native := native);
    if calls == [] {
      EndsByModel(w, input, Finished, sigs, trace, c.last, c.same);
      return Some(Finished), next, trace;
    }
    stop, next, trace := PlayTurn(w, input, step, next, turn, calls, isRecovered, trace);
  }

  /** What the guard makes of repeated requests, whatever their signatures: no five rounds in a row ask for
      the same thing, and when the guard stops the run, the last five turns have asked for the same thing,
      provided that signatures tell those turns apart at all. */
  ghost predicate StopsRepeats(w: World, outcome: Outcome, trace: seq<Event>) {
    && (forall i :: !FiveAlike(Requests(trace), i))
    && (outcome == GuardStopped ==>
          && trace != [] && w.model(|trace| - 1).Ok?
          && var asked := Requests(trace) + [Wanted(w, w.model(|trace| - 1).value)];
             |asked| >= 5 &&
             forall names: set<string> :: TellingLast(asked, names) ==> FiveAlike(asked, |asked| - 5))
  }

  /** Signatures tell the last five requests apart. */
  ghost predicate TellingLast(asked: seq<seq<ToolCall>>, names: set<string>)
    requires |asked| >= 5
  {
    Telling(asked[|asked| - 5..], names)
  }

  lemma GuardMeans(w: World, input: LoopInput, outcome: Outcome, trace: seq<Event>)
    requires ToldSoFar(w, input, trace) && EndsWell(w, input, outcome, trace)
    ensures StopsRepeats(w, outcome, trace)
  {
    var requests, sigs := Requests(trace), Signatures(trace);
    assert forall r :: 0 <= r < |trace| && trace[r].Round? ==> FaithfulAt(w, input.enableNativeTools, trace, r);
    RequestsSigned(trace);
    forall i | FiveAlike(requests, i) ensures false {
      AlikeSigned(requests, sigs, i);
    }
    if outcome == GuardStopped {
      var n := |trace| - 1;
      assert FollowsAt(w, input.enableNativeTools, trace, n);
      LastFive(requests, sigs, Wanted(w, w.model(n).value));
    }
  }

  lemma LastFive(requests: seq<seq<ToolCall>>, sigs: seq<string>, last: seq<ToolCall>)
    requires Signed(requests, sigs) && FiveInARow(sigs + [Signature(last)], |sigs| - 4)
    ensures var asked := requests + [last];
            |asked| >= 5 &&
            forall names: set<string> :: TellingLast(asked, names) ==> FiveAlike(asked, |asked| - 5)
  {
    var asked := requests + [last];
    assert Signed(asked, sigs + [Signature(last)]);
    forall names: set<string> | TellingLast(asked, names) ensures FiveAlike(asked, |asked| - 5) {
      assert asked[|asked| - 5..] == asked[|asked| - 5..|asked| - 5 + 5];
      SignedAlike(asked, sigs + [Signature(last)], |asked| - 5, names);
    }
  }

  /** The whole loop. For every input and every world:
      - what the model sees is balanced exactly when the history it was given was and no tool task
        of a native round was lost (`HistoryExact`);
      - calls run only as the permission rules allow (`Permitted`);
      - each round runs or refuses each of its calls exactly once (`RoundsServed`);
      - what the model sees is, message by message, the initial history followed by what every round
        so far said: the model's text, the calls if the round was native, and one reply for each call
        with the result its executor gave, or the refusal (`Spoken`);
      - each answer of the model is followed by what it demands: a failure by one retry without tools if
        native tools were on, calls asked for by the round that plays them or the guard's stop; a round is
        native exactly while native tools are on; tools, once withheld, stay withheld (`Told`);
      - the model is called at most once per step, plus one retry;
      - no signature is played five rounds in a row, and the run ends for the reason the outcome names:
        nothing asked for, a failure beyond retry, the guard at what would be the fifth equal round, or
        the cap (`EndsWell`);
      - the guard stops repeated requests, not only equal signatures (`StopsRepeats`). */
  method Run(input: LoopInput, w: World) returns (outcome: Outcome, trace: seq<Event>)
    ensures IdsKept(w) ==> HistoryExact(NoToolRole(input.history), trace) && Spoken(w, InitialMessages(input), trace)
    ensures Permitted(w, trace)
    ensures RoundsServed(w, trace)
    ensures Told(w, input.enableNativeTools, input.hasSchemas, trace) && ToolsOnlyDrop(trace)
    ensures ModelCalls(trace) <= EffectiveSteps(input.maxSteps) + (if input.enableNativeTools then 1 else 0) <= 25
    ensures EndsWell(w, input, outcome, trace) && StopsRepeats(w, outcome, trace)
    ensures outcome == CapReached ==> |Signatures(trace)| == EffectiveSteps(input.maxSteps)
  {
    var maxSteps := EffectiveSteps(input.maxSteps);
    var c := Carry(input.enableNativeTools, "", 0, InitialMessages(input), []);
    InitialBalanced(input);
    trace := [];
    NilRight(c.messages);
    for step := 1 to maxSteps + 1
      invariant c.native ==> input.enableNativeTools
      invariant Ongoing(w, input, c, trace) && |Signatures(trace)| == step - 1
      invariant ModelCalls(trace) <= step - 1 + (if input.enableNativeTools && !c.native then 1 else 0)
    {
      var stop;
      stop, c, trace := Step(w, input, step, c, trace);
      if stop.Some? {
        GuardMeans(w, input, stop.value, trace);
        OffersOnlyDrop(input.enableNativeTools, input.hasSchemas, trace);
        return stop.value, trace;
      }
    }
    OffersOnlyDrop(input.enableNativeTools, input.hasSchemas, trace);
    outcome := CapReached;
    GuardMeans(w, input, outcome, trace);
  }
}
