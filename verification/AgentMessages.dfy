/** The messages of the agent loop: the initial history, the replies to tool calls, and what a round
    does to the balance of the history. */
module AgentMessages {
  import opened Text
  import opened AgentProtocol
  import opened AgentTrace
  import opened AgentFidelity

  datatype LoopInput = LoopInput(
    system: string,
    history: seq<(string, string)>,
    hasSchemas: bool,
    enableNativeTools: bool,
    maxSteps: nat)

  function Plain(role: string, content: string): ApiMessage {
    ApiMessage(role, content, None, None, None)
  }

  function FromHistory(history: seq<(string, string)>): seq<ApiMessage> {
    if history == [] then []
    else (if history[0].0 == SYSTEM then [] else [Plain(history[0].0, history[0].1)]) + FromHistory(history[1..])
  }

  function InitialMessages(input: LoopInput): seq<ApiMessage> {
    (if IsBlank(input.system) then [] else [Plain(SYSTEM, input.system)]) + FromHistory(input.history)
  }

  predicate NoToolRole(history: seq<(string, string)>) {
    forall i :: 0 <= i < |history| ==> history[i].0 != TOOL
  }

  lemma {:induction false} HistoryBalanced(history: seq<(string, string)>)
    ensures Balanced(FromHistory(history)) <==> NoToolRole(history)
  {
    if history != [] {
      var rest := FromHistory(history[1..]);
      HistoryBalanced(history[1..]);
      ViolationIsFinal(rest);
      assert NoToolRole(history) <==> history[0].0 != TOOL && NoToolRole(history[1..]) by {
        assert forall i :: 0 < i < |history| ==> history[i] == history[1..][i - 1];
      }
      if history[0].0 == SYSTEM {
        assert FromHistory(history) == rest;
      } else {
        var m := Plain(history[0].0, history[0].1);
        assert FromHistory(history) == [m] + rest;
        assert ([m] + rest)[1..] == rest;
      }
    }
  }

  lemma InitialBalanced(input: LoopInput)
    ensures Balanced(InitialMessages(input)) <==> NoToolRole(input.history)
  {
    HistoryBalanced(input.history);
    var rest := FromHistory(input.history);
    if IsBlank(input.system) {
      assert InitialMessages(input) == rest;
    } else {
      var m := Plain(SYSTEM, input.system);
      assert ([m] + rest)[1..] == rest;
    }
  }

  function ResultMessage(call: ToolCall, r: ToolResult, step: nat, native: bool): ApiMessage {
    if native then
      var id := if call.id == "" then "call_" + Decimal(step) else call.id;
      ApiMessage(TOOL, ToolMessageContent(r), Some(id), None, Some(r.name))
    else
      Plain(USER, "Result of command `" + r.name + "`:\n" + ToolMessageContent(r))
  }

  /** What one batch of results adds to the history: answers to `ids` in a native round, plain
      user text otherwise. */
  predicate Answering(ms: seq<ApiMessage>, ids: multiset<string>, native: bool) {
    if native then AreAnswers(ms) && multiset(AnswerIds(ms)) == ids
    else forall i :: 0 <= i < |ms| ==> ms[i].role == USER && ms[i].toolCalls.None?
  }

  lemma AnsweringConcat(a: seq<ApiMessage>, ids: multiset<string>, b: seq<ApiMessage>, more: multiset<string>,
                        native: bool)
    requires Answering(a, ids, native) && Answering(b, more, native)
    ensures Answering(a + b, ids + more, native)
  {
    if native {
      assert AnswerIds(a + b) == AnswerIds(a) + AnswerIds(b);
    }
  }

  lemma AnsweringOne(a: seq<ApiMessage>, ids: multiset<string>, call: ToolCall, r: ToolResult, step: nat, native: bool)
    requires Answering(a, ids, native) && call.id != ""
    ensures Answering(a + [ResultMessage(call, r, step, native)], ids + multiset{call.id}, native)
  {
    var m := ResultMessage(call, r, step, native);
    if native {
      assert AnswerIds([m]) == [call.id];
    }
    AnsweringConcat(a, ids, [m], multiset{call.id}, native);
  }

  lemma {:induction false} PlainTalk(open: Option<multiset<string>>, ms: seq<ApiMessage>)
    requires open == Some(multiset{}) || open == None
    requires forall i :: 0 <= i < |ms| ==> ms[i].role == USER && ms[i].toolCalls.None?
    ensures Scan(open, ms) == open
    decreases |ms|
  {
    if ms != [] {
      PlainTalk(open, ms[1..]);
    }
  }

  /** One round keeps the history balanced exactly when it was balanced before and, in a native
      round, every announced call got an answer. */
  lemma RoundBalance(ms: seq<ApiMessage>, text: string, calls: seq<ToolCall>, answers: seq<ApiMessage>,
                     ids: multiset<string>, native: bool)
    requires calls != []
    requires Answering(answers, ids, native) && ids <= multiset(Ids(calls))
    ensures var a := AssistantMessage(text, if native then calls else []);
            Balanced(ms + [a] + answers) <==> Balanced(ms) && (native ==> ids == multiset(Ids(calls)))
  {
    var a := AssistantMessage(text, if native then calls else []);
    var all := multiset(Ids(calls));
    SpeakingOutOfTurn(ms, a);
    ScanConcat(Some(multiset{}), ms + [a], answers);
    if !Balanced(ms) {
      ViolationIsFinal(answers);
    } else if native {
      AnswersConsume(all, answers);
      assert all - ids == multiset{} <==> ids == all by {
        if all - ids == multiset{} {
          assert all == ids + (all - ids);
        }
      }
    } else {
      PlainTalk(Some(multiset{}), answers);
    }
  }
}
