/** Translating agent events into the tagged text stream of the chat view: thinking and subagent
    sections are opened and closed by tags. */
module StreamTranslator {
  import opened Sequences
  import opened Text

  /** Turn events, with the fields the translator takes from their arguments. */
  datatype Event =
    | Thinking(delta: string)
    | Chunk(delta: string)
    | ToolCall(name: string, alias: string, task: string, preview: string)
    | ToolResult(name: string, output: string, rendered: string)
    | ApprovalRequest(card: string)
    | Usage

  /** Pieces of output: tags, thinking text, other status text, and answer text. */
  datatype Piece =
    | OpenThink | CloseThink | OpenSub(name: string) | CloseSub
    | Thought(text: string) | Status(text: string) | Answer(text: string)

  predicate IsSub(name: string) {
    Contains(name, "subagent") || Contains(name, "spawn") || name == "delegate" || "agent_" <= name
  }

  /** The names of subagent calls. */
  lemma SubagentCalls(name: string)
    ensures IsSub(name) <==>
            || (exists i :: 0 <= i <= |name| && "subagent" <= name[i..])
            || (exists i :: 0 <= i <= |name| && "spawn" <= name[i..])
            || name == "delegate" || (|name| >= 6 && name[..6] == "agent_")
  {
    ContainsAt(name, "subagent");
    ContainsAt(name, "spawn");
  }

  // ----- Well-formed output -----

  /** Which sections are open. */
  datatype Sections = Sections(think: bool, sub: bool)

  const Closed: Sections := Sections(false, false)

  /** One piece: tags alternate, thinking text is inside a thinking section, and answer text and the
      beginning of a subagent section are outside. */
  function Next(s: Option<Sections>, p: Piece): Option<Sections> {
    if s.None? then None
    else
      match p
      case OpenThink => if s.value.think then None else Some(s.value.(think := true))
      case CloseThink => if s.value.think then Some(s.value.(think := false)) else None
      case OpenSub(_) => if s.value.sub || s.value.think then None else Some(s.value.(sub := true))
      case CloseSub => if s.value.sub then Some(s.value.(sub := false)) else None
      case Thought(_) => if s.value.think then s else None
      case Status(_) => s
      case Answer(_) => if s.value.think then None else s
  }

  function Scan(s: Option<Sections>, ps: seq<Piece>): Option<Sections>
    decreases |ps|
  {
    if ps == [] then s else Scan(Next(s, ps[0]), ps[1..])
  }

  lemma {:induction false} ScanConcat(s: Option<Sections>, a: seq<Piece>, b: seq<Piece>)
    ensures Scan(s, a + b) == Scan(Scan(s, a), b)
    decreases |a|
  {
    if a == [] {
      assert a + b == b;
    } else {
      assert (a + b)[0] == a[0] && (a + b)[1..] == a[1..] + b;
      ScanConcat(Next(s, a[0]), a[1..], b);
    }
  }

  datatype Part = AnswerText | ThinkingText | StatusText | SubagentNames

  /** What a piece contributes to one part of what is shown. */
  function TextIn(p: Piece, part: Part): seq<string> {
    match p
    case Answer(text) => if part == AnswerText then [text] else []
    case Thought(text) => if part == ThinkingText then [text] else []
    case Status(text) => if part == StatusText then [text] else []
    case OpenSub(name) => if part == SubagentNames then [name] else []
    case _ => []
  }

  function Texts(ps: seq<Piece>, part: Part): seq<string> {
    if ps == [] then [] else TextIn(ps[0], part) + Texts(ps[1..], part)
  }

  lemma {:induction false} TextsConcat(a: seq<Piece>, b: seq<Piece>, part: Part)
    ensures Texts(a + b, part) == Texts(a, part) + Texts(b, part)
    decreases |a|
  {
    if a == [] {
      assert a + b == b;
    } else {
      assert (a + b)[0] == a[0] && (a + b)[1..] == a[1..] + b;
      TextsConcat(a[1..], b, part);
      Assoc(TextIn(a[0], part), Texts(a[1..], part), Texts(b, part));
    }
  }

  function Unless(blank: bool, text: string): seq<string> { if blank then [] else [text] }

  /** What an event has to say in each part. */
  function Says(e: Event, part: Part): seq<string> {
    match part
    case AnswerText => if e.Chunk? then Unless(e.delta == "", e.delta) else []
    case ThinkingText => if e.Thinking? then Unless(e.delta == "", e.delta) else []
    case SubagentNames => if e.ToolCall? && IsSub(e.name) then [e.alias] else []
    case StatusText =>
      if e.ApprovalRequest? then Unless(e.card == "", e.card)
      else if e.ToolCall? then
        if IsSub(e.name) then Unless(e.task == "", FirstChars(e.task, 120) + "\n") else [e.preview]
      else if e.ToolResult? then
        if IsSub(e.name) then Unless(Trim(e.output) == "", FirstChars(e.output, 8000) + "\n") else [e.rendered]
      else []
  }

  /** Everything that a turn has to say in one part, in order. */
  function Said(events: seq<Event>, part: Part): seq<string> {
    if events == [] then [] else Said(events[..|events| - 1], part) + Says(events[|events| - 1], part)
  }

  // ----- What the events say -----

  function TextPiece(p: Piece): seq<Piece>
    requires p.Thought? || p.Status? || p.Answer?
  {
    if p.text == "" then [] else [p]
  }

  /** What an event has to show, apart from opening and closing sections. */
  function Payload(e: Event): seq<Piece> {
    match e
    case Thinking(delta) => TextPiece(Thought(delta))
    case Chunk(delta) => TextPiece(Answer(delta))
    case ToolCall(name, alias, task, preview) =>
      if !IsSub(name) then [Status(preview)]
      else if task == "" then [OpenSub(alias)]
      else [OpenSub(alias), Status(FirstChars(task, 120) + "\n")]
    case ToolResult(name, output, rendered) =>
      if !IsSub(name) then [Status(rendered)]
      else if IsBlank(output) then []
      else [Status(FirstChars(output, 8000) + "\n")]
    case ApprovalRequest(card) => TextPiece(Status(card))
    case Usage => []
  }

  function Payloads(events: seq<Event>): seq<Piece> {
    if events == [] then [] else Payloads(events[..|events| - 1]) + Payload(events[|events| - 1])
  }

  /** Which sections are open after an event. */
  function After(s: Sections, e: Event): Sections {
    match e
    case Thinking(_) => s.(think := true)
    case Chunk(_) => s.(think := false)
    case ToolCall(name, _, _, _) => Sections(false, s.sub || IsSub(name))
    case ToolResult(name, output, _) => if !IsSub(name) then s else Sections(s.think && IsBlank(output), false)
    case ApprovalRequest(_) => s.(think := false)
    case Usage => s
  }

  function AfterAll(events: seq<Event>): Sections {
    if events == [] then Closed else After(AfterAll(events[..|events| - 1]), events[|events| - 1])
  }

  /** Events that end a thinking section. */
  predicate EndsThinking(e: Event) {
    e.Chunk? || e.ToolCall? || e.ApprovalRequest? || (e.ToolResult? && IsSub(e.name) && Trim(e.output) != "")
  }

  /** A thinking section is open from its first text to the next event that shows something outside of it. */
  lemma {:induction false} ThinkingOpen(events: seq<Event>)
    ensures AfterAll(events).think <==>
            exists i :: 0 <= i < |events| && events[i].Thinking? &&
              forall j :: i < j < |events| ==> !EndsThinking(events[j])
  {
    if events != [] {
      var n := |events| - 1;
      ThinkingOpen(events[..n]);
      assert forall i :: 0 <= i < n ==> events[..n][i] == events[i];
      if events[n].ToolResult? {
        BlankIsTrimmed(events[n].output);
      }
    }
  }

  predicate EndsSubagent(e: Event) { e.ToolResult? && IsSub(e.name) }

  /** A subagent section is open from the call of a subagent to the next result of one. */
  lemma {:induction false} SubagentOpen(events: seq<Event>)
    ensures AfterAll(events).sub <==>
            exists i :: 0 <= i < |events| && events[i].ToolCall? && IsSub(events[i].name) &&
              forall j :: i < j < |events| ==> !EndsSubagent(events[j])
  {
    if events != [] {
      var n := |events| - 1;
      SubagentOpen(events[..n]);
      assert forall i :: 0 <= i < n ==> events[..n][i] == events[i];
    }
  }

  /** Output without the tags that open and close sections; a subagent's name is kept. */
  function Bare(ps: seq<Piece>): seq<Piece> {
    if ps == [] then []
    else
      var p := ps[0];
      (if p.OpenThink? || p.CloseThink? || p.CloseSub? then [] else [p]) + Bare(ps[1..])
  }

  lemma {:induction false} BareConcat(a: seq<Piece>, b: seq<Piece>)
    ensures Bare(a + b) == Bare(a) + Bare(b)
    decreases |a|
  {
    if a == [] {
      assert a + b == b;
    } else {
      assert (a + b)[0] == a[0] && (a + b)[1..] == a[1..] + b;
      BareConcat(a[1..], b);
      Assoc(if a[0].OpenThink? || a[0].CloseThink? || a[0].CloseSub? then [] else [a[0]], Bare(a[1..]), Bare(b));
    }
  }

  /** What is said does not depend on the tags. */
  lemma {:induction false} TextsOfBare(ps: seq<Piece>, part: Part)
    ensures Texts(Bare(ps), part) == Texts(ps, part)
  {
    if ps != [] {
      TextsOfBare(ps[1..], part);
      TextsConcat(Bare(ps[..1]), Bare(ps[1..]), part);
      BareOne(ps[0]);
      TextsOne(ps[0], part);
      assert ps[..1] == [ps[0]];
    }
  }

  lemma BareOne(p: Piece)
    ensures Bare([p]) == if p.OpenThink? || p.CloseThink? || p.CloseSub? then [] else [p]
  {
    assert [p][1..] == [];
    assert Bare([p]) == (if p.OpenThink? || p.CloseThink? || p.CloseSub? then [] else [p]) + Bare([p][1..]);
  }

  lemma TextsOne(p: Piece, part: Part)
    ensures Texts([p], part) == TextIn(p, part)
  {
    assert [p][1..] == [];
    assert Texts([p], part) == TextIn(p, part) + Texts([p][1..], part);
  }

  lemma TextsTwo(p: Piece, q: Piece, part: Part)
    ensures Texts([p, q], part) == TextIn(p, part) + TextIn(q, part)
  {
    TextsOne(p, part);
    TextsOne(q, part);
    TextsConcat([p], [q], part);
    assert [p, q] == [p] + [q];
  }

  lemma ShownSays(shown: seq<Piece>, part: Part)
    requires |shown| <= 1
    ensures Texts(shown, part) == if shown == [] then [] else TextIn(shown[0], part)
  {
    if shown != [] {
      assert shown == [shown[0]];
      TextsOne(shown[0], part);
    }
  }

  lemma CallSays(e: Event, part: Part)
    requires e.ToolCall?
    ensures Texts(Payload(e), part) == Says(e, part)
  {
    if IsSub(e.name) && e.task != "" {
      TextsTwo(OpenSub(e.alias), Status(FirstChars(e.task, 120) + "\n"), part);
    } else {
      ShownSays(Payload(e), part);
    }
  }

  lemma PayloadSays(e: Event, part: Part)
    ensures Texts(Payload(e), part) == Says(e, part)
  {
    if e.ToolCall? {
      CallSays(e, part);
    } else {
      ShownSays(Payload(e), part);
      if e.ToolResult? {
        BlankIsTrimmed(e.output);
      }
    }
  }

  /** The payloads of the events say exactly what each of them has to say. */
  lemma {:induction false} PayloadsSay(events: seq<Event>, part: Part)
    ensures Texts(Payloads(events), part) == Said(events, part)
  {
    if events != [] {
      var n := |events| - 1;
      PayloadsSay(events[..n], part);
      TextsConcat(Payloads(events[..n]), Payload(events[n]), part);
      PayloadSays(events[n], part);
    }
  }

  // ----- The translator -----

  class AgentStreamTranslator {
    var thinkingOpen: bool
    var commandOpen: bool
    var subagentOpen: bool

    ghost function Open(): Sections
      reads this
    {
      Sections(thinkingOpen, subagentOpen)
    }

    constructor ()
      ensures Open() == Closed && !commandOpen
    {
      thinkingOpen, commandOpen, subagentOpen := false, false, false;
    }

    method CloseThinking() returns (out: seq<Piece>)
      modifies this`thinkingOpen
      ensures Open() == old(Open()).(think := false) && Emits(old(Open()), out, Open(), [])
    {
      if thinkingOpen {
        thinkingOpen := false;
        return [CloseThink];
      }
      return [];
    }

    method CloseSubagent() returns (out: seq<Piece>)
      modifies this`subagentOpen
      ensures Open() == old(Open()).(sub := false) && Emits(old(Open()), out, Open(), [])
    {
      if subagentOpen {
        subagentOpen := false;
        return [CloseSub];
      }
      return [];
    }

    method CloseCommandIfOpen() returns (out: seq<Piece>)
      modifies this`commandOpen
      ensures out == [] && !commandOpen
    {
      commandOpen := false;
      return [];
    }

    method Think(delta: string) returns (out: seq<Piece>)
      modifies this`thinkingOpen
      ensures Open() == old(Open()).(think := true)
      ensures Emits(old(Open()), out, Open(), TextPiece(Thought(delta)))
    {
      out := [];
      if !thinkingOpen {
        thinkingOpen := true;
        out := out + [OpenThink];
      }
      if delta != "" {
        EmitsPiece(old(Open()), out, Open(), [], Thought(delta));
        out := out + [Thought(delta)];
      }
    }

    method Say(delta: string) returns (out: seq<Piece>)
      modifies this`thinkingOpen, this`commandOpen
      ensures Open() == old(Open()).(think := false)
      ensures Emits(old(Open()), out, Open(), TextPiece(Answer(delta)))
    {
      out := CloseThinking();
      var none := CloseCommandIfOpen();
      NilRight(out);
      out := out + none;
      if delta != "" {
        EmitsPiece(old(Open()), out, Open(), [], Answer(delta));
        out := out + [Answer(delta)];
      }
    }

    method ShowStatus(text: string) returns (out: seq<Piece>)
      modifies this`thinkingOpen
      ensures Open() == old(Open()).(think := false)
      ensures Emits(old(Open()), out, Open(), TextPiece(Status(text)))
    {
      out := CloseThinking();
      if text != "" {
        EmitsPiece(old(Open()), out, Open(), [], Status(text));
        out := out + [Status(text)];
      }
    }

    method OpenCommand(running: string) returns (out: seq<Piece>)
      modifies this`thinkingOpen, this`commandOpen
      ensures Open() == old(Open()).(think := false)
      ensures Emits(old(Open()), out, Open(), [Status(running)])
    {
      out := CloseThinking();
      var none := CloseCommandIfOpen();
      NilRight(out);
      out := out + none;
      commandOpen := true;
      EmitsPiece(old(Open()), out, Open(), [], Status(running));
      out := out + [Status(running)];
    }

    method CloseCommand(rendered: string) returns (out: seq<Piece>)
      modifies this`commandOpen
      ensures Open() == old(Open()) && Emits(old(Open()), out, Open(), [Status(rendered)])
    {
      commandOpen := false;
      BareOne(Status(rendered));
      return [Status(rendered)];
    }

    method OpenSubagent(name: string) returns (out: seq<Piece>)
      modifies this
      ensures Open() == Sections(false, true) && Emits(old(Open()), out, Open(), [OpenSub(name)])
    {
      out := CloseThinking();
      var none := CloseCommandIfOpen();
      NilRight(out);
      out := out + none;
      ghost var middle := Open();
      var closed := CloseSubagent();
      EmitsMore(old(Open()), out, middle, [], closed, Open(), []);
      out := out + closed;
      EmitsPiece(old(Open()), out, Open(), [], OpenSub(name));
      subagentOpen := true;
      out := out + [OpenSub(name)];
    }

    /** A subagent is called: its section, and the task it was given. */
    method CallSubagent(alias: string, task: string) returns (out: seq<Piece>)
      modifies this
      ensures Open() == Sections(false, true)
      ensures Emits(old(Open()), out, Open(),
                    if task == "" then [OpenSub(alias)] else [OpenSub(alias), Status(FirstChars(task, 120) + "\n")])
    {
      out := OpenSubagent(alias);
      if task != "" {
        ghost var middle := Open();
        var note := ShowStatus(FirstChars(task, 120) + "\n");
        EmitsMore(old(Open()), out, middle, [OpenSub(alias)], note, Open(), [Status(FirstChars(task, 120) + "\n")]);
        out := out + note;
      }
    }

    /** A subagent returns: what it said, and the end of its section. */
    method EndSubagent(output: string) returns (out: seq<Piece>)
      modifies this
      ensures Open() == Sections(old(thinkingOpen) && IsBlank(output), false)
      ensures Emits(old(Open()), out, Open(), if IsBlank(output) then [] else [Status(FirstChars(output, 8000) + "\n")])
    {
      out := [];
      if !IsBlank(output) {
        out := ShowStatus(FirstChars(output, 8000) + "\n");
      }
      ghost var middle := Open();
      ghost var said := if IsBlank(output) then [] else [Status(FirstChars(output, 8000) + "\n")];
      var closed := CloseSubagent();
      EmitsMore(old(Open()), out, middle, said, closed, Open(), []);
      NilRight(said);
      out := out + closed;
    }

    /** One event: nothing is shown but what it says, and the right sections are open afterwards. */
    method Push(event: Event) returns (out: seq<Piece>)
      modifies this
      ensures Open() == After(old(Open()), event)
      ensures Emits(old(Open()), out, Open(), Payload(event))
    {
      match event {
        case Thinking(delta) => out := Think(delta);
        case Chunk(delta) => out := Say(delta);
        case ToolCall(name, alias, task, preview) =>
          if IsSub(name) {
            out := CallSubagent(alias, task);
          } else {
            out := OpenCommand(preview);
          }
        case ToolResult(name, output, rendered) =>
          if IsSub(name) {
            out := EndSubagent(output);
          } else {
            out := CloseCommand(rendered);
          }
        case ApprovalRequest(card) => out := ShowStatus(card);
        case Usage => out := [];
      }
    }

    /** The end of the turn. */
    method Finish() returns (out: seq<Piece>)
      modifies this
      ensures Open() == Closed && Emits(old(Open()), out, Open(), [])
    {
      out := CloseCommandIfOpen();
      var sub := CloseSubagent();
      assert out + sub == sub;
      out := out + sub;
      ghost var middle := Open();
      var think := CloseThinking();
      EmitsMore(old(Open()), out, middle, [], think, Open(), []);
      out := out + think;
    }
  }

  /** The pieces lead from one state of the sections to another without a violation, and show exactly
      what was to be shown. */
  ghost predicate Emits(from: Sections, out: seq<Piece>, to: Sections, shown: seq<Piece>) {
    Scan(Some(from), out) == Some(to) && Bare(out) == shown
  }

  lemma EmitsMore(from: Sections, a: seq<Piece>, middle: Sections, x: seq<Piece>, b: seq<Piece>, to: Sections,
                  y: seq<Piece>)
    requires Emits(from, a, middle, x) && Emits(middle, b, to, y)
    ensures Emits(from, a + b, to, x + y)
  {
    ScanConcat(Some(from), a, b);
    BareConcat(a, b);
  }

  lemma EmitsPiece(from: Sections, a: seq<Piece>, middle: Sections, x: seq<Piece>, p: Piece)
    requires Emits(from, a, middle, x) && Next(Some(middle), p).Some?
    requires p.OpenSub? || p.Thought? || p.Status? || p.Answer?
    ensures Emits(from, a + [p], Next(Some(middle), p).value, x + [p])
  {
    var to := Next(Some(middle), p).value;
    assert [p][1..] == [];
    assert Scan(Some(middle), [p]) == Some(to);
    BareOne(p);
    EmitsMore(from, a, middle, x, [p], to, [p]);
  }

  /** The first `n` pieces say what the events say, and leave open what should be open after them. */
  ghost predicate EndsAt(pieces: seq<Piece>, n: nat, events: seq<Event>) {
    n <= |pieces| && Emits(Closed, pieces[..n], AfterAll(events), Payloads(events))
  }

  /** So it is for every beginning of the events. */
  ghost predicate Ended(pieces: seq<Piece>, ends: seq<nat>, events: seq<Event>)
    requires |ends| == |events|
    decreases |events|
  {
    events == [] ||
    (EndsAt(pieces, ends[|events| - 1], events) && Ended(pieces, ends[..|events| - 1], events[..|events| - 1]))
  }

  /** The events so far have been translated. */
  ghost predicate Translated(pieces: seq<Piece>, ends: seq<nat>, events: seq<Event>) {
    && |ends| == |events| && Ended(pieces, ends, events)
    && Emits(Closed, pieces, AfterAll(events), Payloads(events))
  }

  lemma {:induction false} EndedLater(pieces: seq<Piece>, ends: seq<nat>, events: seq<Event>, out: seq<Piece>)
    requires |ends| == |events| && Ended(pieces, ends, events)
    ensures Ended(pieces + out, ends, events)
    decreases |events|
  {
    if events != [] {
      var n := |events| - 1;
      EndsFurther(pieces, ends[n], events, out);
      EndedLater(pieces, ends[..n], events[..n], out);
    }
  }

  lemma EndsFurther(pieces: seq<Piece>, n: nat, events: seq<Event>, out: seq<Piece>)
    requires EndsAt(pieces, n, events)
    ensures EndsAt(pieces + out, n, events)
  {
    assert (pieces + out)[..n] == pieces[..n];
  }

  lemma EndsNow(pieces: seq<Piece>, events: seq<Event>)
    requires Emits(Closed, pieces, AfterAll(events), Payloads(events))
    ensures EndsAt(pieces, |pieces|, events)
  {
    TakeAll(pieces);
  }

  lemma OneEventMore(events: seq<Event>, e: Event)
    ensures AfterAll(events + [e]) == After(AfterAll(events), e)
    ensures Payloads(events + [e]) == Payloads(events) + Payload(e)
  {
    assert (events + [e])[..|events|] == events;
  }

  lemma EndedNext(pieces: seq<Piece>, ends: seq<nat>, events: seq<Event>, e: Event)
    requires |ends| == |events| && Ended(pieces, ends, events)
    requires Emits(Closed, pieces, AfterAll(events + [e]), Payloads(events + [e]))
    ensures Ended(pieces, ends + [|pieces|], events + [e])
  {
    EndsNow(pieces, events + [e]);
    EndedCons(pieces, ends, events, e, |pieces|);
  }

  lemma EndedCons(pieces: seq<Piece>, ends: seq<nat>, events: seq<Event>, e: Event, n: nat)
    requires |ends| == |events| && Ended(pieces, ends, events) && EndsAt(pieces, n, events + [e])
    ensures Ended(pieces, ends + [n], events + [e])
  {
    TakeFront(events, e);
    TakeFront(ends, n);
  }

  lemma TranslatedNext(pieces: seq<Piece>, ends: seq<nat>, events: seq<Event>, e: Event, out: seq<Piece>)
    requires Translated(pieces, ends, events)
    requires Emits(AfterAll(events), out, After(AfterAll(events), e), Payload(e))
    ensures Translated(pieces + out, ends + [|pieces + out|], events + [e])
  {
    OneEventMore(events, e);
    EmitsMore(Closed, pieces, AfterAll(events), Payloads(events), out, AfterAll(events + [e]), Payload(e));
    EndedLater(pieces, ends, events, out);
    EndedNext(pieces + out, ends, events, e);
  }

  method PushNext(translator: AgentStreamTranslator, ghost before: seq<Event>, e: Event, ghost pieces: seq<Piece>,
                  ghost ends: seq<nat>)
    returns (out: seq<Piece>)
    requires Translated(pieces, ends, before) && translator.Open() == AfterAll(before)
    modifies translator
    ensures Translated(pieces + out, ends + [|pieces + out|], before + [e])
    ensures translator.Open() == AfterAll(before + [e])
  {
    out := translator.Push(e);
    TranslatedNext(pieces, ends, before, e, out);
    OneEventMore(before, e);
  }

  method PushAll(translator: AgentStreamTranslator, events: seq<Event>)
    returns (pieces: seq<Piece>, ghost ends: seq<nat>)
    requires translator.Open() == Closed
    modifies translator
    ensures Translated(pieces, ends, events) && translator.Open() == AfterAll(events)
  {
    pieces, ends := [], [];
    for i := 0 to |events|
      invariant Translated(pieces, ends, events[..i]) && translator.Open() == AfterAll(events[..i])
    {
      var out := PushNext(translator, events[..i], events[i], pieces, ends);
      TakeNext(events, i);
      pieces := pieces + out;
      ends := ends + [|pieces|];
    }
    TakeAll(events);
  }

  /** A whole turn: tags alternate and end closed, thinking text stands inside thinking sections and
      answer text outside, everything the events say is shown in order and nothing else: the answer
      text of the chunks, the thinking text, the status lines and the names of the subagents. After
      each event, exactly the sections are open that its kind and the events before it call for. */
  method Translate(events: seq<Event>) returns (pieces: seq<Piece>, ghost ends: seq<nat>)
    ensures Scan(Some(Closed), pieces) == Some(Closed)
    ensures Bare(pieces) == Payloads(events)
    ensures forall part :: Texts(pieces, part) == Said(events, part)
    ensures |ends| == |events| && Ended(pieces, ends, events)
  {
    var translator := new AgentStreamTranslator();
    pieces, ends := PushAll(translator, events);
    ghost var before := translator.Open();
    var out := translator.Finish();
    EmitsMore(Closed, pieces, before, Payloads(events), out, translator.Open(), []);
    NilRight(Payloads(events));
    EndedLater(pieces, ends, events, out);
    pieces := pieces + out;
    forall part ensures Texts(pieces, part) == Said(events, part) {
      TextsOfBare(pieces, part);
      PayloadsSay(events, part);
    }
  }

  // ----- The same, by counting -----

  function Count(ps: seq<Piece>, open: bool, think: bool): nat {
    if ps == [] then 0
    else
      var p := ps[|ps| - 1];
      var hit := if think then (if open then p.OpenThink? else p.CloseThink?)
                 else (if open then p.OpenSub? else p.CloseSub?);
      Count(ps[..|ps| - 1], open, think) + (if hit then 1 else 0)
  }

  lemma ScanLast(s: Option<Sections>, before: seq<Piece>, p: Piece)
    ensures Scan(s, before + [p]) == Next(Scan(s, before), p)
  {
    ScanConcat(s, before, [p]);
    assert [p][1..] == [];
  }

  lemma CountLast(before: seq<Piece>, p: Piece, open: bool, think: bool)
    ensures Count(before + [p], open, think) ==
            Count(before, open, think) +
            (if (if think then (if open then p.OpenThink? else p.CloseThink?)
                 else (if open then p.OpenSub? else p.CloseSub?)) then 1 else 0)
  {
    assert (before + [p])[..|before|] == before;
  }

  /** At every point of well-formed output each kind of section has been opened as often as it has
      been closed, or once more. */
  lemma {:induction false} TagsAlternate(ps: seq<Piece>, think: bool)
    requires Scan(Some(Closed), ps).Some?
    ensures var s := Scan(Some(Closed), ps).value;
            Count(ps, true, think) == Count(ps, false, think) + (if (if think then s.think else s.sub) then 1 else 0)
    decreases |ps|
  {
    if ps != [] {
      var n := |ps| - 1;
      assert ps == ps[..n] + [ps[n]];
      ScanLast(Some(Closed), ps[..n], ps[n]);
      CountLast(ps[..n], ps[n], true, think);
      CountLast(ps[..n], ps[n], false, think);
      TagsAlternate(ps[..n], think);
    }
  }

  /** Answer text occurs only where every thinking section is closed, thinking text only where one is
      open. */
  lemma TextWhereItBelongs(ps: seq<Piece>, k: nat)
    requires Scan(Some(Closed), ps).Some? && k < |ps|
    ensures ps[k].Answer? ==> Count(ps[..k], true, true) == Count(ps[..k], false, true)
    ensures ps[k].Thought? ==> Count(ps[..k], true, true) == Count(ps[..k], false, true) + 1
  {
    var before := Scan(Some(Closed), ps[..k]);
    assert ps == ps[..k] + ps[k..];
    ScanConcat(Some(Closed), ps[..k], ps[k..]);
    NextOf(before, ps[k..]);
    TagsAlternate(ps[..k], true);
  }

  lemma {:induction false} NextOf(s: Option<Sections>, ps: seq<Piece>)
    requires ps != [] && Scan(s, ps).Some?
    ensures Next(s, ps[0]).Some?
    decreases |ps|
  {
    if |ps| > 1 {
      NextOf(Next(s, ps[0]), ps[1..]);
    }
  }
}
