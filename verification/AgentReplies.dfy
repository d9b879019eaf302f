/** What the model can read off the history: the history as it was given, its own words and calls, and
    what came of each call. */
module AgentReplies {
  import opened Sequences
  import opened Text
  import opened AgentProtocol
  import opened AgentTrace
  import opened AgentFidelity
  import opened AgentMessages

  // ----- One reply -----

  datatype Answer = Answer(name: string, ok: bool, title: string, output: string)

  function ReadTitle(name: string, ok: bool, s: string): Answer {
    var n := Find(s, '\n');
    Answer(name, ok, s[..n], if n < |s| then s[n + 1..] else "")
  }

  function ReadContent(name: string, s: string): Option<Answer> {
    if "[ok] " <= s then Some(ReadTitle(name, true, s[5..]))
    else if "[error] " <= s then Some(ReadTitle(name, false, s[8..]))
    else None
  }

  function ReadCommand(s: string): Option<Answer> {
    var n := Find(s, '`');
    if n + 3 <= |s| && s[n..n + 3] == "`:\n" then ReadContent(s[..n], s[n + 3..]) else None
  }

  /** What a message tells of a call. */
  function ReadReply(m: ApiMessage): Option<Answer> {
    if m.role == "tool" && m.name.Some? then ReadContent(m.name.value, m.content)
    else if m.role == "user" && "Result of command `" <= m.content then ReadCommand(m.content[19..])
    else None
  }

  lemma TitleReads(name: string, ok: bool, title: string, output: string)
    requires '\n' !in title
    ensures ReadTitle(name, ok, title + "\n" + output) == Answer(name, ok, title, output)
  {
    FindAt('\n', title, output);
    CutAt('\n', title, output);
  }

  lemma LeadReads(name: string, ok: bool, rest: string)
    ensures ReadContent(name, (if ok then "[ok] " else "[error] ") + rest) == Some(ReadTitle(name, ok, rest))
  {
    var lead := if ok then "[ok] " else "[error] ";
    Behind(lead, rest);
    assert (lead + rest)[1] == lead[1];
  }

  lemma Behind(lead: string, rest: string)
    ensures lead <= lead + rest && (lead + rest)[|lead|..] == rest
  {
  }

  lemma ContentReads(r: ToolResult)
    requires '\n' !in r.title
    ensures ReadContent(r.name, ToolMessageContent(r)) == Some(Answer(r.name, r.ok, r.title, r.output))
  {
    var told := r.title + "\n" + r.output;
    TitleReads(r.name, r.ok, r.title, r.output);
    LeadReads(r.name, r.ok, told);
    Shape(r.ok, r.title, r.output);
    assert ToolMessageContent(r) == (if r.ok then "[ok] " else "[error] ") + told;
  }

  lemma Shape(ok: bool, title: string, output: string)
    ensures "[" + (if ok then "ok" else "error") + "] " + title + "\n" + output ==
            (if ok then "[ok] " else "[error] ") + (title + "\n" + output)
  {
    assert "[" + (if ok then "ok" else "error") + "] " == if ok then "[ok] " else "[error] ";
    Assoc(if ok then "[ok] " else "[error] ", title, "\n");
    Assoc(if ok then "[ok] " else "[error] ", title + "\n", output);
  }

  lemma CommandReads(r: ToolResult)
    requires '\n' !in r.title && '`' !in r.name
    ensures ReadCommand(r.name + "`:\n" + ToolMessageContent(r)) == Some(Answer(r.name, r.ok, r.title, r.output))
  {
    var s, after := r.name + "`:\n" + ToolMessageContent(r), ":\n" + ToolMessageContent(r);
    assert s == r.name + "`" + after;
    FindAt('`', r.name, after);
    assert s[..|r.name|] == r.name && s[|r.name|..|r.name| + 3] == "`:\n";
    assert s[|r.name| + 3..] == ToolMessageContent(r);
    ContentReads(r);
  }

  lemma CommandShape(name: string, content: string)
    ensures "Result of command `" + name + "`:\n" + content == "Result of command `" + (name + "`:\n" + content)
  {
  }

  /** The parts of a result can be told apart. */
  predicate Legible(r: ToolResult) { '\n' !in r.title && '`' !in r.name }

  /** A reply tells the tool, whether the call succeeded, its title and its output; a native one also
      bears the id of the call. */
  lemma ReplyReads(call: ToolCall, r: ToolResult, native: bool)
    requires Legible(r)
    ensures ReadReply(Reply(call, r, native)) == Some(Answer(r.name, r.ok, r.title, r.output))
    ensures Reply(call, r, native).toolCallId == if native then Some(call.id) else None
  {
    if native {
      ContentReads(r);
    } else {
      CommandReads(r);
      var told := r.name + "`:\n" + ToolMessageContent(r);
      CommandShape(r.name, ToolMessageContent(r));
      Behind("Result of command `", told);
    }
  }

  // ----- Whole runs -----

  function AnswerIn(m: ApiMessage): seq<Answer> { if ReadReply(m).Some? then [ReadReply(m).value] else [] }

  /** What the messages tell of calls, in order. */
  function Answers(ms: seq<ApiMessage>): seq<Answer> {
    if ms == [] then [] else Answers(ms[..|ms| - 1]) + AnswerIn(ms[|ms| - 1])
  }

  function SpeechIn(m: ApiMessage): seq<(string, seq<ToolCall>)> {
    if m.role == "assistant" then [(m.content, if m.toolCalls.Some? then m.toolCalls.value else [])] else []
  }

  /** What the model itself has said and asked for, in order. */
  function Speeches(ms: seq<ApiMessage>): seq<(string, seq<ToolCall>)> {
    if ms == [] then [] else Speeches(ms[..|ms| - 1]) + SpeechIn(ms[|ms| - 1])
  }

  lemma AppendMessage(ms: seq<ApiMessage>, m: ApiMessage)
    ensures Answers(ms + [m]) == Answers(ms) + AnswerIn(m) && Speeches(ms + [m]) == Speeches(ms) + SpeechIn(m)
  {
    assert (ms + [m])[..|ms|] == ms;
  }

  /** What came of the calls of a run: what their executors returned, and the refusals. */
  function Results(trace: seq<Event>): seq<Answer> {
    if trace == [] then []
    else
      var n := |trace| - 1;
      Results(trace[..n]) +
      match trace[n]
      case Ran(_, Done(r)) => [Answer(r.name, r.ok, r.title, r.output)]
      case Refused(call, _) => [Answer(call.name, false, call.name + " denied by user", "User denied this tool call.")]
      case _ => []
  }

  /** What the model said in each round, and what of it counts as asked for in its own format. */
  function Turns(w: World, trace: seq<Event>): seq<(string, seq<ToolCall>)> {
    if trace == [] then []
    else
      var n := |trace| - 1;
      Turns(w, trace[..n]) +
      (if trace[n].Round? && w.model(n).Ok?
       then [(w.model(n).value.text, if trace[n].native then trace[n].calls else [])] else [])
  }

  predicate LegibleEvent(e: Event) {
    match e
    case Ran(_, Done(r)) => Legible(r)
    case Refused(call, _) => '\n' !in call.name && '`' !in call.name
    case _ => true
  }

  /** What a run adds to the history reads back as exactly what its calls came to, each in its turn, between
      exactly the words and calls of the model. */
  lemma {:induction false} TalkReads(w: World, enabled: bool, trace: seq<Event>)
    requires Permitted(w, trace) && Faithful(w, enabled, trace)
    requires forall i :: 0 <= i < |trace| ==> LegibleEvent(trace[i])
    ensures Answers(Talk(w, trace)) == Results(trace)
    ensures Speeches(Talk(w, trace)) == Turns(w, trace)
  {
    if trace != [] {
      var n := |trace| - 1;
      var before := trace[..n];
      assert trace == before + [trace[n]];
      PermittedBefore(w, before, trace[n]);
      FaithfulCut(w, enabled, before, trace[n]);
      TalkReads(w, enabled, before);
      assert PermittedAt(w, trace, n);
      assert trace[n].Round? ==> FaithfulAt(w, enabled, trace, n);
      EventReads(w, before, trace[n]);
    }
  }

  lemma PermittedBefore(w: World, trace: seq<Event>, e: Event)
    requires Permitted(w, trace + [e])
    ensures Permitted(w, trace)
  {
    var t := trace + [e];
    forall i | 0 <= i < |trace| ensures PermittedAt(w, trace, i) {
      assert PermittedAt(w, t, i);
      assert t[i] == trace[i] && (i > 0 ==> t[i - 1] == trace[i - 1]);
      if trace[i].Asked? {
        AlwaysBeforeExtend(trace, [e], i, trace[i].key);
      }
      if trace[i].Ran? && Gated(w, trace[i].call) {
        AlwaysBeforeExtend(trace, [e], i, KeyOf(w, trace[i].call));
      }
    }
  }

  lemma FaithfulCut(w: World, enabled: bool, trace: seq<Event>, e: Event)
    requires Faithful(w, enabled, trace + [e])
    ensures Faithful(w, enabled, trace)
  {
    var t := trace + [e];
    forall r | 0 <= r < |trace| && trace[r].Round? ensures FaithfulAt(w, enabled, trace, r) {
      assert FaithfulAt(w, enabled, t, r);
      StillNativePrefix(enabled, trace, t, r);
    }
  }

  lemma {:induction false} Prefixes(w: World, enabled: bool, trace: seq<Event>, i: nat)
    requires Permitted(w, trace) && Faithful(w, enabled, trace) && i <= |trace|
    ensures Permitted(w, trace[..i]) && Faithful(w, enabled, trace[..i])
    decreases |trace|
  {
    if i == |trace| {
      TakeAll(trace);
    } else {
      var n := |trace| - 1;
      assert trace == trace[..n] + [trace[n]];
      PermittedBefore(w, trace[..n], trace[n]);
      FaithfulCut(w, enabled, trace[..n], trace[n]);
      Prefixes(w, enabled, trace[..n], i);
      assert trace[..n][..i] == trace[..i];
    }
  }

  /** Whenever the model is asked in a run, it reads behind the initial history exactly what its calls have
      come to so far, and its own words and calls. */
  lemma ModelHears(w: World, enabled: bool, start: seq<ApiMessage>, trace: seq<Event>, i: nat)
    requires Permitted(w, trace) && Faithful(w, enabled, trace) && Spoken(w, start, trace)
    requires forall i :: 0 <= i < |trace| ==> LegibleEvent(trace[i])
    requires i < |trace| && trace[i].ModelCall?
    ensures var shown := trace[i].messages;
            && start <= shown && Answers(shown[|start|..]) == Results(trace[..i])
            && Speeches(shown[|start|..]) == Turns(w, trace[..i])
  {
    Prefixes(w, enabled, trace, i);
    TalkReads(w, enabled, trace[..i]);
    assert (start + Talk(w, trace[..i]))[|start|..] == Talk(w, trace[..i]);
  }

  /** What one event adds. */
  function Adds(w: World, trace: seq<Event>, e: Event): seq<ApiMessage> {
    if e.Round? then [AssistantMessage(TextOf(w.model(|trace|)), if e.native then e.calls else [])]
    else ReplyTo(e, LastNative(trace))
  }

  lemma EventReads(w: World, trace: seq<Event>, e: Event)
    requires LegibleEvent(e) && (e.Round? ==> w.model(|trace|).Ok?)
    requires e.Refused? ==> e.result == DeniedResult(e.call)
    requires Answers(Talk(w, trace)) == Results(trace) && Speeches(Talk(w, trace)) == Turns(w, trace)
    ensures Answers(Talk(w, trace + [e])) == Results(trace + [e])
    ensures Speeches(Talk(w, trace + [e])) == Turns(w, trace + [e])
  {
    var t := trace + [e];
    assert t[..|trace|] == trace && t[|trace|] == e;
    var more := Adds(w, trace, e);
    assert Talk(w, t) == Talk(w, trace) + more;
    if more == [] {
      NilRight(Talk(w, trace));
    } else {
      AppendMessage(Talk(w, trace), more[0]);
      AddedReads(w, trace, e);
    }
  }

  lemma AddedReads(w: World, trace: seq<Event>, e: Event)
    requires LegibleEvent(e) && (e.Round? ==> w.model(|trace|).Ok?)
    requires e.Refused? ==> e.result == DeniedResult(e.call)
    requires Adds(w, trace, e) != []
    ensures var m := Adds(w, trace, e)[0];
            && Adds(w, trace, e) == [m]
            && AnswerIn(m) == (match e
                               case Ran(_, Done(r)) => [Answer(r.name, r.ok, r.title, r.output)]
                               case Refused(c, _) =>
                                 [Answer(c.name, false, c.name + " denied by user", "User denied this tool call.")]
                               case _ => [])
            && SpeechIn(m) == if e.Round?
                              then [(w.model(|trace|).value.text, if e.native then e.calls else [])] else []
  {
    match e {
      case Ran(call, Done(r)) => ReplyReads(call, r, LastNative(trace));
      case Refused(call, r) =>
        DeniedLegible(call);
        ReplyReads(call, r, LastNative(trace));
      case _ =>
    }
  }

  lemma DeniedLegible(call: ToolCall)
    requires '\n' !in call.name && '`' !in call.name
    ensures Legible(DeniedResult(call))
  {
  }

  // ----- The initial history -----

  /** Blank system text is left out. */
  lemma InitialSystem(input: LoopInput)
    ensures InitialMessages(input) ==
            (if Trim(input.system) == "" then [] else [ApiMessage("system", input.system, None, None, None)]) +
            FromHistory(input.history)
  {
    BlankIsTrimmed(input.system);
  }

  /** Every message that is given, except system ones, stands in its place, with its role and content. */
  lemma {:induction false} HistoryKept(a: seq<(string, string)>, role: string, content: string,
                                       b: seq<(string, string)>)
    ensures FromHistory(a + [(role, content)] + b) ==
            FromHistory(a) + (if role == "system" then [] else [ApiMessage(role, content, None, None, None)]) +
            FromHistory(b)
    decreases |a|
  {
    var all := a + [(role, content)] + b;
    var m := if role == "system" then [] else [ApiMessage(role, content, None, None, None)];
    if a == [] {
      assert all[0] == (role, content) && all[1..] == b;
    } else {
      assert all[0] == a[0] && all[1..] == a[1..] + [(role, content)] + b;
      HistoryKept(a[1..], role, content, b);
      var first := if a[0].0 == SYSTEM then [] else [Plain(a[0].0, a[0].1)];
      Assoc(first, FromHistory(a[1..]), m);
      Assoc(first, FromHistory(a[1..]) + m, FromHistory(b));
    }
  }
}
