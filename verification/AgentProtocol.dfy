/** The chat/tool message protocol a provider expects, as a scan over the message history and as
    a statement about positions; the two are proved equal. */
module AgentProtocol {
  import opened Text

  datatype ToolCall = ToolCall(id: string, name: string, arguments: string)

  datatype ApiMessage = ApiMessage(
    role: string,
    content: string,
    toolCallId: Option<string>,
    toolCalls: Option<seq<ToolCall>>,
    name: Option<string>)

  const TOOL: string := "tool"
  const USER: string := "user"
  const ASSISTANT: string := "assistant"
  const SYSTEM: string := "system"

  function Ids(calls: seq<ToolCall>): (ids: seq<string>)
    ensures |ids| == |calls|
  {
    seq(|calls|, i requires 0 <= i < |calls| => calls[i].id)
  }

  lemma IdsConcat(a: seq<ToolCall>, b: seq<ToolCall>)
    ensures Ids(a + b) == Ids(a) + Ids(b)
  {
  }

  /** The ids a message announces: those of its tool calls, none otherwise. */
  function Listed(m: ApiMessage): multiset<string> {
    if m.toolCalls.Some? then multiset(Ids(m.toolCalls.value)) else multiset{}
  }

  /** One message, read with the multiset of ids still unanswered; `None` is a violation. */
  function Next(open: Option<multiset<string>>, m: ApiMessage): Option<multiset<string>> {
    if open.None? then None
    else if m.role == TOOL then
      if m.toolCallId.Some? && m.toolCallId.value in open.value
      then Some(open.value - multiset{m.toolCallId.value})
      else None
    else if open.value == multiset{} then Some(Listed(m))
    else None
  }

  function Scan(open: Option<multiset<string>>, ms: seq<ApiMessage>): Option<multiset<string>>
    decreases |ms|
  {
    if ms == [] then open else Scan(Next(open, ms[0]), ms[1..])
  }

  function Outstanding(ms: seq<ApiMessage>): Option<multiset<string>> {
    Scan(Some(multiset{}), ms)
  }

  /** Every announced call is answered and nothing else is. */
  predicate Balanced(ms: seq<ApiMessage>) { Outstanding(ms) == Some(multiset{}) }

  lemma {:induction false} ScanConcat(open: Option<multiset<string>>, a: seq<ApiMessage>, b: seq<ApiMessage>)
    ensures Scan(open, a + b) == Scan(Scan(open, a), b)
    decreases |a|
  {
    if a == [] {
      assert a + b == b;
    } else {
      assert (a + b)[0] == a[0] && (a + b)[1..] == a[1..] + b;
      ScanConcat(Next(open, a[0]), a[1..], b);
    }
  }

  lemma {:induction false} ViolationIsFinal(ms: seq<ApiMessage>)
    ensures Scan(None, ms) == None
    decreases |ms|
  {
    if ms != [] {
      ViolationIsFinal(ms[1..]);
    }
  }

  /** A message that is not a tool answer, sent while answers are missing, is a violation. */
  lemma SpeakingOutOfTurn(ms: seq<ApiMessage>, m: ApiMessage)
    requires m.role != TOOL
    ensures Outstanding(ms + [m]) == if Balanced(ms) then Some(Listed(m)) else None
  {
    ScanConcat(Some(multiset{}), ms, [m]);
    assert [m][1..] == [];
  }

  predicate AreAnswers(ms: seq<ApiMessage>) {
    forall i :: 0 <= i < |ms| ==> ms[i].role == TOOL && ms[i].toolCallId.Some?
  }

  function AnswerIds(ms: seq<ApiMessage>): (ids: seq<string>)
    requires AreAnswers(ms)
    ensures |ids| == |ms|
  {
    seq(|ms|, i requires 0 <= i < |ms| => ms[i].toolCallId.value)
  }

  lemma TakeOneBelow(all: multiset<string>, rest: multiset<string>, id: string)
    requires multiset{id} + rest <= all
    ensures id in all && rest <= all - multiset{id}
    ensures all - (multiset{id} + rest) == all - multiset{id} - rest
  {
    assert (multiset{id} + rest)[id] >= 1;
  }

  lemma {:induction false} AnswersConsume(open: multiset<string>, ms: seq<ApiMessage>)
    requires AreAnswers(ms)
    requires multiset(AnswerIds(ms)) <= open
    ensures Scan(Some(open), ms) == Some(open - multiset(AnswerIds(ms)))
    decreases |ms|
  {
    if ms == [] {
      assert open - multiset(AnswerIds(ms)) == open;
    } else {
      var id := ms[0].toolCallId.value;
      var rest := multiset(AnswerIds(ms[1..]));
      assert AnswerIds(ms) == [id] + AnswerIds(ms[1..]);
      assert multiset(AnswerIds(ms)) == multiset{id} + rest;
      TakeOneBelow(open, rest, id);
      AnswersConsume(open - multiset{id}, ms[1..]);
    }
  }

  // ----- The same protocol, stated by position -----

  function IdOf(m: ApiMessage): string {
    if m.toolCallId.Some? then m.toolCallId.value else ""
  }

  /** Ids of the maximal run of tool messages that starts at `i`. */
  function RunIds(ms: seq<ApiMessage>, i: nat): seq<string>
    requires i <= |ms|
    decreases |ms| - i
  {
    if i < |ms| && ms[i].role == TOOL then [IdOf(ms[i])] + RunIds(ms, i + 1) else []
  }

  /** A tool message carries an id; the run after any other message answers exactly what that
      message announces. */
  ghost predicate AnsweredAt(ms: seq<ApiMessage>, i: nat)
    requires i < |ms|
  {
    if ms[i].role == TOOL then ms[i].toolCallId.Some?
    else multiset(RunIds(ms, i + 1)) == Listed(ms[i])
  }

  ghost predicate ByPosition(open: multiset<string>, ms: seq<ApiMessage>) {
    && multiset(RunIds(ms, 0)) == open
    && forall i :: 0 <= i < |ms| ==> AnsweredAt(ms, i)
  }

  lemma {:induction false} RunIdsShift(ms: seq<ApiMessage>, i: nat)
    requires 1 <= i <= |ms|
    ensures RunIds(ms, i) == RunIds(ms[1..], i - 1)
    decreases |ms| - i
  {
    if i < |ms| {
      RunIdsShift(ms, i + 1);
    }
  }

  lemma AnsweredShift(ms: seq<ApiMessage>)
    requires ms != []
    ensures (forall i :: 0 <= i < |ms| ==> AnsweredAt(ms, i)) <==>
            AnsweredAt(ms, 0) && forall i :: 0 <= i < |ms[1..]| ==> AnsweredAt(ms[1..], i)
  {
    var rest := ms[1..];
    forall i: nat | i < |rest| ensures AnsweredAt(ms, i + 1) <==> AnsweredAt(rest, i) {
      RunIdsShift(ms, i + 2);
    }
    if AnsweredAt(ms, 0) && forall i :: 0 <= i < |rest| ==> AnsweredAt(rest, i) {
      forall i | 0 <= i < |ms| ensures AnsweredAt(ms, i) {
        assert i > 0 ==> AnsweredAt(rest, i - 1);
      }
    }
  }

  lemma TakeOne(all: multiset<string>, rest: multiset<string>, id: string)
    ensures multiset{id} + rest == all <==> id in all && rest == all - multiset{id}
  {
    if multiset{id} + rest == all {
      assert id in all && rest == all - multiset{id};
    }
  }

  lemma ByPositionStep(open: multiset<string>, ms: seq<ApiMessage>)
    requires ms != []
    ensures ByPosition(open, ms) <==>
            Next(Some(open), ms[0]).Some? && ByPosition(Next(Some(open), ms[0]).value, ms[1..])
  {
    AnsweredShift(ms);
    RunIdsShift(ms, 1);
    if ms[0].role == TOOL {
      TakeOne(open, multiset(RunIds(ms, 1)), IdOf(ms[0]));
      assert multiset(RunIds(ms, 0)) == multiset{IdOf(ms[0])} + multiset(RunIds(ms, 1));
    }
  }

  /** Both readings of the protocol agree on every history. With nothing open at the start, the
      history is balanced exactly when it does not begin with a tool message and every other
      message is followed by a run of tool messages whose ids are, as a multiset, the ids that
      message announces. */
  lemma {:induction false} BalancedByPosition(open: multiset<string>, ms: seq<ApiMessage>)
    ensures Scan(Some(open), ms) == Some(multiset{}) <==> ByPosition(open, ms)
    decreases |ms|
  {
    if ms != [] {
      ByPositionStep(open, ms);
      var next := Next(Some(open), ms[0]);
      if next.Some? {
        BalancedByPosition(next.value, ms[1..]);
      } else {
        ViolationIsFinal(ms[1..]);
      }
    }
  }
}
