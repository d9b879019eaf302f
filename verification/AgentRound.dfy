/** The tool calls of one round: filling ids, the permission gate, dispatch and collection. */
module AgentRound {
  import opened Sequences
  import opened Text
  import opened AgentProtocol
  import opened AgentTrace
  import opened AgentFidelity
  import opened AgentMessages

  // ----- Calls -----

  function FreshId(step: nat, i: nat): (id: string)
    ensures id != ""
  {
    "call_" + Decimal(step) + "_" + Decimal(i)
  }

  lemma DigitsDiffer(s: string, t: string, x: string, y: string)
    requires '_' !in s && '_' !in t && "call_" + s + "_" + x == "call_" + t + "_" + y
    ensures s == t && x == y
  {
    var a, b := "call_" + s + "_" + x, "call_" + t + "_" + y;
    assert a[5..] == s + "_" + x && b[5..] == t + "_" + y;
    SplitAt('_', s, x, t, y);
  }

  /** Ids that are filled in are all different, within a round and across rounds. */
  lemma FreshIdsDiffer(step: nat, i: nat, later: nat, j: nat)
    ensures FreshId(step, i) == FreshId(later, j) <==> step == later && i == j
  {
    if FreshId(step, i) == FreshId(later, j) {
      DecimalPlain(step, '_');
      DecimalPlain(later, '_');
      DigitsDiffer(Decimal(step), Decimal(later), Decimal(i), Decimal(j));
      DecimalInjective(step, later);
      DecimalInjective(i, j);
    }
  }

  /** Fill in missing ids; nothing else changes. */
  method FillIds(step: nat, calls: seq<ToolCall>) returns (filled: seq<ToolCall>)
    ensures SameCalls(calls, filled)
    ensures forall i :: 0 <= i < |calls| && calls[i].id == "" ==> filled[i].id == FreshId(step, i)
  {
    filled := calls;
    for i := 0 to |calls|
      invariant |filled| == |calls|
      invariant forall k :: i <= k < |calls| ==> filled[k] == calls[k]
      invariant forall k :: 0 <= k < i ==>
                  && filled[k].name == calls[k].name && filled[k].arguments == calls[k].arguments
                  && filled[k].id == if calls[k].id == "" then FreshId(step, k) else calls[k].id
    {
      if filled[i].id == "" {
        filled := filled[i := filled[i].(id := FreshId(step, i))];
      }
    }
  }

  /** The partition keeps the order on either side, and goes by the kind of each call alone. */
  lemma {:induction false} PartitionInOrder(w: World, a: seq<ToolCall>, c: ToolCall, b: seq<ToolCall>)
    ensures SequentialOf(w, a + [c] + b) ==
            SequentialOf(w, a) + (if IsSequential(w, c) then [c] else []) + SequentialOf(w, b)
    ensures ParallelOf(w, a + [c] + b) ==
            ParallelOf(w, a) + (if IsSequential(w, c) then [] else [c]) + ParallelOf(w, b)
    decreases |a|
  {
    var all := a + [c] + b;
    if a == [] {
      assert all[0] == c && all[1..] == b;
    } else {
      assert all[0] == a[0] && all[1..] == a[1..] + [c] + b;
      PartitionInOrder(w, a[1..], c, b);
      if IsSequential(w, a[0]) {
        Assoc([a[0]], SequentialOf(w, a[1..]), if IsSequential(w, c) then [c] else []);
        Assoc([a[0]], SequentialOf(w, a[1..]) + (if IsSequential(w, c) then [c] else []), SequentialOf(w, b));
      } else {
        Assoc([a[0]], ParallelOf(w, a[1..]), if IsSequential(w, c) then [] else [c]);
        Assoc([a[0]], ParallelOf(w, a[1..]) + (if IsSequential(w, c) then [] else [c]), ParallelOf(w, b));
      }
    }
  }

  lemma MultisetCons(c: ToolCall, rest: seq<ToolCall>)
    ensures multiset([c] + rest) == multiset{c} + multiset(rest)
  {
  }

  lemma {:induction false} PartitionKeepsCalls(w: World, calls: seq<ToolCall>)
    ensures multiset(SequentialOf(w, calls)) + multiset(ParallelOf(w, calls)) == multiset(calls)
  {
    if calls != [] {
      var c, rest := calls[0], calls[1..];
      PartitionKeepsCalls(w, rest);
      MultisetCons(c, rest);
      assert calls == [c] + rest;
      if IsSequential(w, c) {
        MultisetCons(c, SequentialOf(w, rest));
      } else {
        MultisetCons(c, ParallelOf(w, rest));
      }
    }
  }

  lemma IdsCons(c: ToolCall, rest: seq<ToolCall>)
    ensures multiset(Ids([c] + rest)) == multiset{c.id} + multiset(Ids(rest))
  {
    assert Ids([c] + rest) == [c.id] + Ids(rest);
  }

  lemma {:induction false} PartitionKeepsIds(w: World, calls: seq<ToolCall>)
    ensures multiset(Ids(SequentialOf(w, calls))) + multiset(Ids(ParallelOf(w, calls))) == multiset(Ids(calls))
  {
    if calls != [] {
      var c, rest := calls[0], calls[1..];
      PartitionKeepsIds(w, rest);
      IdsCons(c, rest);
      assert calls == [c] + rest;
      if IsSequential(w, c) {
        IdsCons(c, SequentialOf(w, rest));
      } else {
        IdsCons(c, ParallelOf(w, rest));
      }
    }
  }

  predicate Named(calls: seq<ToolCall>) {
    forall i :: 0 <= i < |calls| ==> calls[i].id != ""
  }

  // ----- One round -----

  /** The calls ran, in order. */
  predicate RanEach(events: seq<Event>, calls: seq<ToolCall>) {
    |events| == |calls| && forall i :: 0 <= i < |events| ==> events[i].Ran? && events[i].call == calls[i]
  }

  lemma RepliesAppend(events: seq<Event>, e: Event, native: bool)
    ensures Replies(events + [e], native) == Replies(events, native) + ReplyTo(e, native)
  {
    assert (events + [e])[..|events|] == events;
  }

  /** The calls have run, and the answers so far are theirs. */
  ghost predicate Answered(calls: seq<ToolCall>, answers: seq<ApiMessage>, more: seq<Event>, native: bool) {
    RanEach(more, calls) && answers == Replies(more, native) && Answering(answers, multiset(Ids(calls)), native)
  }

  lemma AnsweredNext(calls: seq<ToolCall>, answers: seq<ApiMessage>, more: seq<Event>, native: bool, call: ToolCall,
                     r: ToolResult, step: nat)
    requires Answered(calls, answers, more, native) && call.id != ""
    ensures Answered(calls + [call], answers + [ResultMessage(call, r, step, native)], more + [Ran(call, Done(r))],
                     native)
  {
    AnsweringOne(answers, multiset(Ids(calls)), call, r, step, native);
    IdsConcat(calls, [call]);
    assert Ids([call]) == [call.id];
    RepliesAppend(more, Ran(call, Done(r)), native);
  }

  /** Question, task, skill and todo calls, one after the other, without a permission gate. */
  method RunSequential(w: World, calls: seq<ToolCall>, step: nat, native: bool, trace0: seq<Event>,
                       ghost always: seq<string>)
    returns (answers: seq<ApiMessage>, more: seq<Event>)
    requires forall i :: 0 <= i < |calls| ==> IsSequential(w, calls[i])
    requires Named(calls)
    requires Lawful(w, always, trace0)
    ensures Answered(calls, answers, more, native)
    ensures Lawful(w, always, trace0 + more)
  {
    answers, more := [], [];
    assert trace0 + more == trace0;
    for i := 0 to |calls|
      invariant Answered(calls[..i], answers, more, native)
      invariant Lawful(w, always, trace0 + more)
    {
      var call := calls[i];
      var result := w.serve(|trace0| + |more|, call);
      AnsweredNext(calls[..i], answers, more, native, call, result, step);
      PermittedFree(w, trace0 + more, Ran(call, Done(result)), always);
      Assoc(trace0, more, [Ran(call, Done(result))]);
      TakeNext(calls, i);
      answers, more := answers + [ResultMessage(call, result, step, native)], more + [Ran(call, Done(result))];
    }
    assert calls[..|calls|] == calls;
  }

  predicate GateEvents(events: seq<Event>) {
    forall i :: 0 <= i < |events| ==> events[i].Asked? || events[i].Ran? || events[i].Refused?
  }

  /** The permission gate: whether a call runs. The hub is consulted for a gated call unless its
      key was answered "always" before. What is spawned yields the call's result or the refusal. */
  method Gate(w: World, call: ToolCall, always0: seq<string>, trace0: seq<Event>, ghost native: bool)
    returns (outcome: TaskOutcome, always: seq<string>, more: seq<Event>)
    requires !IsSequential(w, call)
    requires Lawful(w, always0, trace0)
    ensures Lawful(w, always, trace0 + more)
    ensures GateEvents(more) && Handled(more) == [call]
    ensures Replies(more, native) == OutcomeReply(call, outcome, native)
    ensures IdsKept(w) && outcome.Done? ==> outcome.result.callId == call.id
  {
    var denied;
    denied, always, more := Decide(w, call, always0, trace0);
    outcome := if denied then Done(DeniedResult(call)) else w.execute(|trace0| + |more|, call);
    var e := if denied then Refused(call, DeniedResult(call)) else Ran(call, outcome);
    GateLawful(w, always, trace0, more, e);
    GateHandles(call, more, e, native);
    more := more + [e];
  }

  lemma GateLawful(w: World, always: seq<string>, trace0: seq<Event>, asked: seq<Event>, e: Event)
    requires Permitted(w, trace0 + asked) && Remembers(always, trace0 + asked) && !e.Asked?
    requires PermittedAt(w, trace0 + asked + [e], |trace0 + asked|)
    ensures Lawful(w, always, trace0 + (asked + [e]))
  {
    PermittedAppend(w, trace0 + asked, e);
    AlwaysAppend(trace0 + asked, e);
    Assoc(trace0, asked, [e]);
  }

  lemma GateHandles(call: ToolCall, asked: seq<Event>, e: Event, native: bool)
    requires asked == [] || (|asked| == 1 && asked[0].Asked?)
    requires (e.Ran? || e.Refused?) && e.call == call
    ensures GateEvents(asked + [e]) && Handled(asked + [e]) == [call]
    ensures Replies(asked + [e], native) == ReplyTo(e, native)
  {
    if asked == [] {
      HandlesOne(call, e, native);
      assert [] + [e] == [e];
    } else {
      assert asked == [asked[0]];
      HandlesTwo(call, asked[0], e, native);
    }
  }

  lemma HandlesOne(call: ToolCall, e: Event, native: bool)
    requires (e.Ran? || e.Refused?) && e.call == call
    ensures Handled([e]) == [call] && Replies([e], native) == ReplyTo(e, native)
  {
    assert [e][1..] == [] && [e][..0] == [];
  }

  lemma HandlesTwo(call: ToolCall, asked: Event, e: Event, native: bool)
    requires asked.Asked? && (e.Ran? || e.Refused?) && e.call == call
    ensures Handled([asked] + [e]) == [call] && Replies([asked] + [e], native) == ReplyTo(e, native)
  {
    HandlesOne(call, e, native);
    var both := [asked] + [e];
    assert both[1..] == [e] && both[..1] == [asked] && [asked][..0] == [];
    assert Replies([asked], native) == [];
  }

  function OutcomeReply(call: ToolCall, outcome: TaskOutcome, native: bool): seq<ApiMessage> {
    if outcome.Done? then [Reply(call, outcome.result, native)] else []
  }

  /** What happens to the call once it is decided. */
  function Verdict(w: World, call: ToolCall, denied: bool, at: nat): Event {
    if denied then Refused(call, DeniedResult(call)) else Ran(call, OutcomeOf(w, at, call))
  }

  /** The decision, and the question it took, if any. */
  method Decide(w: World, call: ToolCall, always0: seq<string>, trace0: seq<Event>)
    returns (denied: bool, always: seq<string>, asked: seq<Event>)
    requires !IsSequential(w, call)
    requires Lawful(w, always0, trace0)
    ensures Permitted(w, trace0 + asked) && Remembers(always, trace0 + asked)
    ensures asked == [] || (|asked| == 1 && asked[0].Asked? && asked[0].call == call)
    ensures var at := |trace0 + asked|; PermittedAt(w, trace0 + asked + [Verdict(w, call, denied, at)], at)
  {
    denied, always := false, always0;
    asked := [];
    assert trace0 + asked == trace0;
    var kind := w.kindOf(call.name);
    var preview := w.preview(kind, call.arguments);
    if kind.Some? {
      var key := Key(kind.value, preview);
      var auto := key in always || KindName(kind.value) in always;
      AllowListHoldsKeys(w, always0, trace0, kind.value);
      if !auto && w.needs(kind.value, call.arguments) {
        var decision := AllowOnce;
        if w.hub.Some? {
          decision := w.hub.value(|trace0|);
          asked := [Asked(call, key, decision)];
          AlwaysBeforeExtend(trace0, asked, |trace0|, key);
          PermittedAppend(w, trace0, Asked(call, key, decision));
          AlwaysAppend(trace0, Asked(call, key, decision));
        }
        match decision {
          case AllowAlways => always := always + [key];
          case Deny => denied := true;
          case AllowOnce =>
        }
      }
      ghost var at := |trace0 + asked|;
      AlwaysBeforeExtend(trace0 + asked, [Verdict(w, call, denied, at)], at, key);
    }
  }

  /** Only keys of past questions are ever remembered, so a bare tool name never is. */
  lemma AllowListHoldsKeys(w: World, always: seq<string>, trace: seq<Event>, k: ToolKind)
    requires Permitted(w, trace) && Remembers(always, trace)
    ensures KindName(k) !in always
  {
    if KindName(k) in always {
      var j :| 0 <= j < |trace| && trace[j].Asked? && trace[j].key == KindName(k) && trace[j].decision == AllowAlways;
      assert PermittedAt(w, trace, j);
      var l := w.kindOf(trace[j].call.name);
      KeyUnambiguous(l.value, w.preview(l, trace[j].call.arguments), k, "");
    }
  }

  /** The first `|outcomes|` calls have been gated and spawned. */
  ghost predicate Spawned(w: World, calls: seq<ToolCall>, outcomes: seq<TaskOutcome>, more: seq<Event>, native: bool) {
    && |outcomes| == |calls| && (IdsKept(w) ==> Kept(calls, outcomes))
    && GateEvents(more) && Handled(more) == calls
    && Replies(more, native) == OutcomeReplies(calls, outcomes, native)
  }

  lemma SpawnedNext(w: World, calls: seq<ToolCall>, outcomes: seq<TaskOutcome>, more: seq<Event>, native: bool,
                    call: ToolCall, outcome: TaskOutcome, events: seq<Event>)
    requires Spawned(w, calls, outcomes, more, native)
    requires GateEvents(events) && Handled(events) == [call]
    requires Replies(events, native) == OutcomeReply(call, outcome, native)
    requires IdsKept(w) && outcome.Done? ==> outcome.result.callId == call.id
    ensures Spawned(w, calls + [call], outcomes + [outcome], more + events, native)
  {
    HandledConcat(more, events);
    RepliesConcat(more, events, native);
    OutcomeRepliesAppend(calls, outcomes, native, call, outcome);
  }

  lemma OutcomeRepliesAppend(calls: seq<ToolCall>, outcomes: seq<TaskOutcome>, native: bool, call: ToolCall,
                           outcome: TaskOutcome)
    requires |calls| == |outcomes|
    ensures OutcomeReplies(calls + [call], outcomes + [outcome], native) ==
            OutcomeReplies(calls, outcomes, native) + OutcomeReply(call, outcome, native)
  {
    TakeFront(calls, call);
    TakeFront(outcomes, outcome);
  }

  /** Gate and spawn the remaining calls, in order. */
  method Dispatch(w: World, calls: seq<ToolCall>, always0: seq<string>, trace0: seq<Event>, ghost native: bool)
    returns (outcomes: seq<TaskOutcome>, always: seq<string>, more: seq<Event>)
    requires forall i :: 0 <= i < |calls| ==> !IsSequential(w, calls[i])
    requires Lawful(w, always0, trace0)
    ensures Spawned(w, calls, outcomes, more, native)
    ensures Lawful(w, always, trace0 + more)
  {
    outcomes, always, more := [], always0, [];
    assert trace0 + more == trace0;
    for i := 0 to |calls|
      invariant Spawned(w, calls[..i], outcomes, more, native)
      invariant Lawful(w, always, trace0 + more)
    {
      var outcome, events;
      outcome, always, events := Gate(w, calls[i], always, trace0 + more, native);
      SpawnedNext(w, calls[..i], outcomes, more, native, calls[i], outcome, events);
      TakeNext(calls, i);
      Assoc(trace0, more, events);
      outcomes, more := outcomes + [outcome], more + events;
    }
    assert calls[..|calls|] == calls;
  }

  function OutcomeReplies(calls: seq<ToolCall>, outcomes: seq<TaskOutcome>, native: bool): seq<ApiMessage>
    requires |calls| == |outcomes|
  {
    if calls == [] then []
    else
      var n := |calls| - 1;
      OutcomeReplies(calls[..n], outcomes[..n], native) + OutcomeReply(calls[n], outcomes[n], native)
  }

  lemma OutcomeRepliesNext(calls: seq<ToolCall>, outcomes: seq<TaskOutcome>, i: nat, outcome: TaskOutcome, native: bool)
    requires i < |calls| && i == |outcomes|
    ensures OutcomeReplies(calls[..i + 1], outcomes + [outcome], native) ==
            OutcomeReplies(calls[..i], outcomes, native) + OutcomeReply(calls[i], outcome, native)
  {
    assert calls[..i + 1][..i] == calls[..i] && (outcomes + [outcome])[..i] == outcomes;
  }

  /** Results carry the id of the call they belong to, as every executor of the program does. */
  ghost predicate IdsKept(w: World) {
    forall at: nat, c: ToolCall :: w.execute(at, c).Done? ==> w.execute(at, c).result.callId == c.id
  }

  function FindCall(calls: seq<ToolCall>, id: string): (r: Option<ToolCall>)
    ensures r.Some? ==> r.value in calls && r.value.id == id
    ensures r.None? ==> forall i :: 0 <= i < |calls| ==> calls[i].id != id
  {
    if calls == [] then None else if calls[0].id == id then Some(calls[0]) else FindCall(calls[1..], id)
  }

  function SurvivorIds(calls: seq<ToolCall>, outcomes: seq<TaskOutcome>): multiset<string>
    requires |calls| == |outcomes|
  {
    if calls == [] then multiset{}
    else
      var n := |calls| - 1;
      SurvivorIds(calls[..n], outcomes[..n]) + (if outcomes[n].Done? then multiset{calls[n].id} else multiset{})
  }

  predicate NoneLost(outcomes: seq<TaskOutcome>) { forall i :: 0 <= i < |outcomes| ==> outcomes[i].Done? }

  lemma OneMore(a: multiset<string>, b: multiset<string>, id: string)
    requires a <= b
    ensures a != b + multiset{id}
    ensures a + multiset{id} == b + multiset{id} <==> a == b
  {
    assert a[id] < (b + multiset{id})[id];
    assert (a + multiset{id}) - multiset{id} == a;
    assert (b + multiset{id}) - multiset{id} == b;
  }

  lemma IdsLast(calls: seq<ToolCall>)
    requires calls != []
    ensures multiset(Ids(calls)) == multiset(Ids(calls[..|calls| - 1])) + multiset{calls[|calls| - 1].id}
  {
    assert Ids(calls) == Ids(calls[..|calls| - 1]) + [calls[|calls| - 1].id];
  }

  lemma NoneLostLast(outcomes: seq<TaskOutcome>)
    requires outcomes != []
    ensures NoneLost(outcomes) <==> NoneLost(outcomes[..|outcomes| - 1]) && outcomes[|outcomes| - 1].Done?
  {
  }

  lemma {:induction false} SurvivorsAll(calls: seq<ToolCall>, outcomes: seq<TaskOutcome>)
    requires |calls| == |outcomes|
    ensures SurvivorIds(calls, outcomes) <= multiset(Ids(calls))
    ensures SurvivorIds(calls, outcomes) == multiset(Ids(calls)) <==> NoneLost(outcomes)
    decreases |calls|
  {
    if calls != [] {
      var n := |calls| - 1;
      SurvivorsAll(calls[..n], outcomes[..n]);
      var some, all := SurvivorIds(calls[..n], outcomes[..n]), multiset(Ids(calls[..n]));
      OneMore(some, all, calls[n].id);
      IdsLast(calls);
      NoneLostLast(outcomes);
    }
  }

  predicate Kept(spawned: seq<ToolCall>, outcomes: seq<TaskOutcome>)
    requires |spawned| == |outcomes|
  {
    forall i :: 0 <= i < |outcomes| && outcomes[i].Done? ==> outcomes[i].result.callId == spawned[i].id
  }

  predicate AreLosses(events: seq<Event>, native: bool) {
    forall i :: 0 <= i < |events| ==> events[i].LostTask? && events[i].native == native
  }

  /** Join one task: a message when its result belongs to a known call. */
  method CollectOne(calls: seq<ToolCall>, call: ToolCall, outcome: TaskOutcome, step: nat, native: bool,
                    answers0: seq<ApiMessage>, ghost kept: bool)
    returns (answers: seq<ApiMessage>)
    requires Named(calls) && call in calls
    requires kept ==> (outcome.Done? ==> outcome.result.callId == call.id)
    ensures kept ==> answers == answers0 + OutcomeReply(call, outcome, native)
  {
    answers := answers0;
    if outcome.Done? {
      var result := outcome.result;
      var matched := FindCall(calls, result.callId);
      if matched.Some? {
        answers := answers + [ResultMessage(matched.value, result, step, native)];
      }
    } else {
      NilRight(answers);
    }
  }

  /** Join the tasks in order and add a message for every result whose call is known. */
  method Collect(calls: seq<ToolCall>, spawned: seq<ToolCall>, outcomes: seq<TaskOutcome>, step: nat, native: bool)
    returns (answers: seq<ApiMessage>)
    requires |spawned| == |outcomes| && Named(calls)
    requires forall i :: 0 <= i < |spawned| ==> spawned[i] in calls
    ensures Kept(spawned, outcomes) ==> answers == OutcomeReplies(spawned, outcomes, native)
  {
    answers := [];
    ghost var kept := Kept(spawned, outcomes);
    for i := 0 to |outcomes|
      invariant kept ==> answers == OutcomeReplies(spawned[..i], outcomes[..i], native)
    {
      TakeNext(outcomes, i);
      OutcomeRepliesNext(spawned, outcomes[..i], i, outcomes[i], native);
      answers := CollectOne(calls, spawned[i], outcomes[i], step, native, answers, kept);
    }
    assert spawned[..|outcomes|] == spawned && outcomes[..|outcomes|] == outcomes;
  }

  /** Replies to the survivors answer the survivors. */
  lemma {:induction false} OutcomesAnswer(calls: seq<ToolCall>, outcomes: seq<TaskOutcome>, native: bool)
    requires |calls| == |outcomes| && Named(calls)
    ensures Answering(OutcomeReplies(calls, outcomes, native), SurvivorIds(calls, outcomes), native)
    decreases |calls|
  {
    if calls != [] {
      var n := |calls| - 1;
      OutcomesAnswer(calls[..n], outcomes[..n], native);
      var before, ids := OutcomeReplies(calls[..n], outcomes[..n], native), SurvivorIds(calls[..n], outcomes[..n]);
      if outcomes[n].Done? {
        AnsweringOne(before, ids, calls[n], outcomes[n].result, 0, native);
      } else {
        NilRight(before);
        assert ids + multiset{} == ids;
      }
    }
  }

  /** The tasks that vanished, as the trace records them. */
  function Losses(spawned: seq<ToolCall>, outcomes: seq<TaskOutcome>, native: bool): (losses: seq<Event>)
    requires |spawned| == |outcomes|
    ensures AreLosses(losses, native) && (losses == [] <==> NoneLost(outcomes))
  {
    if spawned == [] then []
    else
      assert NoneLost(outcomes) <==> outcomes[0].Done? && NoneLost(outcomes[1..]);
      (if outcomes[0].Vanished? then [LostTask(spawned[0], native)] else [])
      + Losses(spawned[1..], outcomes[1..], native)
  }

  /** Each call of the round is run or refused once, in order; `answers` are the replies to what came of it, for
      the calls with `ids`, which are all of them exactly when no native answer was lost. */
  ghost predicate Handles(w: World, calls: seq<ToolCall>, native: bool, answers: seq<ApiMessage>, more: seq<Event>,
                          ids: multiset<string>) {
    && ToolEvents(more) && Handled(more) == InOrder(w, calls)
    && ids <= multiset(Ids(calls))
    && (IdsKept(w) ==> Answering(answers, ids, native) && answers == Replies(more, native))
    && (if native then ids == multiset(Ids(calls)) <==> !AnswerLost(more, |more|) else !AnswerLost(more, |more|))
  }

  /** All tool calls of one round: the sequential ones, then the spawned ones. */
  method PlayRound(w: World, calls: seq<ToolCall>, step: nat, native: bool, always0: seq<string>, trace0: seq<Event>)
    returns (answers: seq<ApiMessage>, always: seq<string>, more: seq<Event>, ghost ids: multiset<string>)
    requires Named(calls)
    requires Lawful(w, always0, trace0)
    ensures Handles(w, calls, native, answers, more, ids) && Lawful(w, always, trace0 + more)
  {
    var sequential, spawned := SequentialOf(w, calls), ParallelOf(w, calls);
    var a, ran := RunSequential(w, sequential, step, native, trace0, always0);
    var outcomes, gated;
    outcomes, always, gated := Dispatch(w, spawned, always0, trace0 + ran, native);
    var b := Collect(calls, spawned, outcomes, step, native);
    var losses := Losses(spawned, outcomes, native);
    answers := a + b;
    more := ran + gated + losses;
    Assoc(trace0, ran, gated);
    Assoc(trace0, ran + gated, losses);
    PermittedLosses(w, trace0 + ran + gated, losses, native, always);
    RoundHandles(w, calls, ran, gated, losses, native);
    RoundReplies(ran, gated, losses, native);
    OutcomesAnswer(spawned, outcomes, native);
    ids := RoundAnswers(w, calls, outcomes, a, b, native);
  }

  lemma ToolEventsOfRound(ran: seq<Event>, gated: seq<Event>, losses: seq<Event>, native: bool)
    requires ToolEvents(ran) && GateEvents(gated) && AreLosses(losses, native)
    ensures ToolEvents(ran + gated + losses)
  {
  }

  lemma RoundHandles(w: World, calls: seq<ToolCall>, ran: seq<Event>, gated: seq<Event>, losses: seq<Event>,
                     native: bool)
    requires RanEach(ran, SequentialOf(w, calls)) && GateEvents(gated) && Handled(gated) == ParallelOf(w, calls)
    requires AreLosses(losses, native)
    ensures var more := ran + gated + losses;
            && ToolEvents(more) && Handled(more) == InOrder(w, calls)
            && (AnswerLost(more, |more|) <==> native && losses != [])
  {
    LossesAreLost(ran + gated, losses, native);
    ToolEventsOfRound(ran, gated, losses, native);
    HandledRanEach(ran, SequentialOf(w, calls));
    HandledConcat(ran, gated);
    HandledConcat(ran + gated, losses);
    HandledLosses(losses, native);
    NilRight(Handled(ran + gated));
  }

  lemma RoundAnswers(w: World, calls: seq<ToolCall>, outcomes: seq<TaskOutcome>, a: seq<ApiMessage>,
                     b: seq<ApiMessage>, native: bool)
    returns (ids: multiset<string>)
    requires |outcomes| == |ParallelOf(w, calls)|
    requires Answering(a, multiset(Ids(SequentialOf(w, calls))), native)
    ensures ids <= multiset(Ids(calls))
    ensures Answering(b, SurvivorIds(ParallelOf(w, calls), outcomes), native) ==> Answering(a + b, ids, native)
    ensures ids == multiset(Ids(calls)) <==> NoneLost(outcomes)
  {
    PartitionKeepsIds(w, calls);
    SurvivorsAll(ParallelOf(w, calls), outcomes);
    var s, p := multiset(Ids(SequentialOf(w, calls))), multiset(Ids(ParallelOf(w, calls)));
    var q := SurvivorIds(ParallelOf(w, calls), outcomes);
    ids := s + q;
    assert ids == s + p <==> q == p by {
      assert (s + q) - s == q && (s + p) - s == p;
    }
    if Answering(b, q, native) {
      AnsweringConcat(a, s, b, q, native);
    }
  }

  lemma {:induction false} HandledRanEach(events: seq<Event>, calls: seq<ToolCall>)
    requires RanEach(events, calls)
    ensures Handled(events) == calls
  {
    if calls != [] {
      HandledRanEach(events[1..], calls[1..]);
    }
  }

  lemma RoundReplies(ran: seq<Event>, gated: seq<Event>, losses: seq<Event>, native: bool)
    requires AreLosses(losses, native)
    ensures Replies(ran + gated + losses, native) == Replies(ran, native) + Replies(gated, native)
  {
    RepliesConcat(ran, gated, native);
    RepliesConcat(ran + gated, losses, native);
    RepliesLosses(losses, native);
    NilRight(Replies(ran + gated, native));
  }

  lemma {:induction false} RepliesLosses(losses: seq<Event>, native: bool)
    requires AreLosses(losses, native)
    ensures Replies(losses, native) == []
  {
    if losses != [] {
      RepliesLosses(losses[..|losses| - 1], native);
    }
  }

  lemma {:induction false} HandledLosses(events: seq<Event>, native: bool)
    requires AreLosses(events, native)
    ensures Handled(events) == []
  {
    if events != [] {
      HandledLosses(events[1..], native);
    }
  }

  lemma LossesAreLost(before: seq<Event>, losses: seq<Event>, native: bool)
    requires forall i :: 0 <= i < |before| ==> !before[i].LostTask?
    requires AreLosses(losses, native)
    ensures AnswerLost(before + losses, |before| + |losses|) <==> native && losses != []
  {
    AnswerLostConcat(before, losses, |before| + |losses|);
    assert native && losses != [] ==> losses[0].LostTask? && losses[0].native;
  }

  lemma {:induction false} PermittedLosses(w: World, trace: seq<Event>, losses: seq<Event>, native: bool,
                                           always: seq<string>)
    requires Lawful(w, always, trace)
    requires AreLosses(losses, native)
    ensures Lawful(w, always, trace + losses)
    decreases |losses|
  {
    if losses == [] {
      assert trace + losses == trace;
    } else {
      PermittedFree(w, trace, losses[0], always);
      PermittedLosses(w, trace + [losses[0]], losses[1..], native, always);
      assert trace + [losses[0]] + losses[1..] == trace + losses;
    }
  }
}
