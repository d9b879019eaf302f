/** Request/response correlation of the language-server client, as a state machine over the atomic
    steps of concurrent requests, timeouts, the reader and the final shutdown (JSON-RPC 2.0, section 5). */
module LspSession {
  import opened Text

  const U64: nat := 0x1_0000_0000_0000_0000

  /** The `id` member of an incoming message: absent, an unsigned integer, or anything else. */
  datatype IdField = NoId | Integer(n: nat) | OtherId

  /** An incoming message: a request or notification names its method, here `verb`; a response does not. */
  datatype Message = Message(id: IdField, verb: Option<string>, result: Option<string>, error: Option<string>)

  /** What the waiting request is given. */
  datatype Reply = Failure(error: string) | Success(result: string)

  const NULL: string := "null"

  function ReplyOf(m: Message): Reply {
    if m.error.Some? then Failure(m.error.value)
    else Success(if m.result.Some? then m.result.value else NULL)
  }

  /** Where one call of `send_request` stands. */
  datatype Phase = Issued | Waiting | Got(m: Message) | GaveUp

  datatype Task = Task(id: nat, phase: Phase)

  /** `pending` maps an id to the task holding the other end of its one-shot channel; `closed` says that
      the client has been dropped. */
  datatype State = State(nextId: nat, tasks: seq<Task>, pending: map<nat, nat>, closed: bool)

  datatype Step =
    | Start                 // take the next id
    | Register(t: nat)      // put the sender into the pending map
    | GiveUp(t: nat)        // the write fails, or the wait times out
    | Receive(m: Message)   // the reader handles one message
    | Close                 // the client is dropped: a shutdown, which nobody waits for, takes an id
    | Clear                 // the shutdown ends by clearing the pending map

  const Initial: State := State(1, [], map[], false)

  /** A request borrows the client, which cannot be dropped before it has ended. */
  predicate AllEnded(s: State) {
    forall i :: 0 <= i < |s.tasks| ==> s.tasks[i].phase != Issued && s.tasks[i].phase != Waiting
  }

  predicate Enabled(s: State, step: Step) {
    match step
    case Start => !s.closed
    case Close => !s.closed && AllEnded(s)
    case Clear => s.closed
    case Register(t) => t < |s.tasks| && s.tasks[t].phase == Issued
    case GiveUp(t) => t < |s.tasks| && s.tasks[t].phase == Waiting
    case Receive(_) => true
  }

  /** The id a message is looked up under; what is not an unsigned integer counts as 0. */
  function LookupId(id: IdField): nat {
    if id.Integer? then id.n else 0
  }

  function SetPhase(s: State, t: nat, phase: Phase): State
    requires t < |s.tasks|
  {
    s.(tasks := s.tasks[t := s.tasks[t].(phase := phase)])
  }

  function Next(s: State, step: Step): State
    requires Enabled(s, step)
  {
    match step
    case Start => s.(nextId := (s.nextId + 1) % U64, tasks := s.tasks + [Task(s.nextId, Issued)])
    case Close => s.(nextId := (s.nextId + 1) % U64, tasks := s.tasks + [Task(s.nextId, GaveUp)], closed := true)
    case Clear => s.(pending := map[])
    case Register(t) => SetPhase(s, t, Waiting).(pending := s.pending[s.tasks[t].id := t])
    case GiveUp(t) => SetPhase(s, t, GaveUp)
    case Receive(m) =>
      var id := LookupId(m.id);
      if m.id.NoId? || id !in s.pending then s
      else
        var t, rest := s.pending[id], s.(pending := s.pending - {id});
        if t < |s.tasks| && s.tasks[t].phase == Waiting then SetPhase(rest, t, Got(m)) else rest
  }

  ghost predicate Reaches(s: State, steps: seq<Step>, end: State)
    decreases |steps|
  {
    if steps == [] then s == end
    else Enabled(s, steps[0]) && Reaches(Next(s, steps[0]), steps[1..], end)
  }

  /** Ids are issued in order, wrapping after 2^64 - 1. */
  predicate IdsInOrder(s: State) {
    && s.nextId == (1 + |s.tasks|) % U64
    && forall i :: 0 <= i < |s.tasks| ==> s.tasks[i].id == (1 + i) % U64
  }

  /** The pending map and the tasks agree: an entry leads to the task that owns the id, a waiting
      task has its entry, and a result came from a message with the owner's id. */
  predicate Correlated(s: State) {
    && (forall id :: id in s.pending ==>
          && 1 <= id <= |s.tasks| && s.pending[id] == id - 1
          && (s.tasks[id - 1].phase == Waiting || s.tasks[id - 1].phase == GaveUp))
    && (forall i :: 0 <= i < |s.tasks| ==>
          && (s.tasks[i].phase == Waiting ==> i + 1 in s.pending)
          && (s.tasks[i].phase.Got? ==> s.tasks[i].phase.m.id == Integer(i + 1)))
    && (s.closed ==> AllEnded(s))
  }

  /** A result, once delivered, never changes; issued ids stay. */
  predicate Extends(s: State, later: State) {
    && |s.tasks| <= |later.tasks|
    && forall i :: 0 <= i < |s.tasks| ==>
         && later.tasks[i].id == s.tasks[i].id
         && (s.tasks[i].phase.Got? || s.tasks[i].phase.GaveUp? ==> later.tasks[i].phase == s.tasks[i].phase)
  }

  lemma StepKeepsOrder(s: State, step: Step)
    requires Enabled(s, step) && IdsInOrder(s)
    ensures IdsInOrder(Next(s, step)) && Extends(s, Next(s, step))
  {
    if step.Start? || step.Close? {
      assert ((1 + |s.tasks|) % U64 + 1) % U64 == (2 + |s.tasks|) % U64;
    }
  }

  lemma StepKeepsCorrelation(s: State, step: Step)
    requires Enabled(s, step) && IdsInOrder(s) && Correlated(s) && |Next(s, step).tasks| < U64
    ensures Correlated(Next(s, step))
  {
    match step {
      case Start =>
      case Close =>
      case Clear =>
      case Register(t) => RegisterKeeps(s, t);
      case GiveUp(t) => GiveUpKeeps(s, t);
      case Receive(m) => ReceiveKeeps(s, m);
    }
  }

  lemma RegisterKeeps(s: State, t: nat)
    requires Enabled(s, Register(t)) && IdsInOrder(s) && Correlated(s) && |s.tasks| < U64
    ensures Correlated(Next(s, Register(t)))
  {
    assert s.tasks[t].id == 1 + t;
  }

  lemma GiveUpKeeps(s: State, t: nat)
    requires Enabled(s, GiveUp(t)) && Correlated(s)
    ensures Correlated(Next(s, GiveUp(t)))
  {
  }

  lemma ReceiveKeeps(s: State, m: Message)
    requires Correlated(s)
    ensures Correlated(Next(s, Receive(m)))
  {
    var id := LookupId(m.id);
    if !m.id.NoId? && id in s.pending {
      assert m.id == Integer(id);
    }
  }

  /** Every run, however its steps interleave: ids come in order and nothing delivered changes; and
      while fewer than 2^64 - 1 requests have been issued, ids are distinct and never 0, and each
      result was delivered by a message that bears the id of its request. */
  lemma {:induction false} RunsCorrelate(s: State, steps: seq<Step>, end: State)
    requires Reaches(s, steps, end) && IdsInOrder(s)
    ensures IdsInOrder(end) && Extends(s, end)
    ensures |end.tasks| < U64 && Correlated(s) ==> Correlated(end)
    decreases |steps|
  {
    if steps != [] {
      var next := Next(s, steps[0]);
      StepKeepsOrder(s, steps[0]);
      RunsCorrelate(next, steps[1..], end);
      if |end.tasks| < U64 && Correlated(s) {
        StepKeepsCorrelation(s, steps[0]);
      }
    }
  }

  /** Ids are issued once exactly as long as at most 2^64 requests are made, and the id 0, under
      which malformed messages are looked up, is issued only beyond that. */
  lemma IssuedOnce(s: State)
    requires IdsInOrder(s)
    ensures (forall i, j :: 0 <= i < j < |s.tasks| ==> s.tasks[i].id != s.tasks[j].id) <==> |s.tasks| <= U64
    ensures (forall i :: 0 <= i < |s.tasks| ==> 1 <= s.tasks[i].id) <==> |s.tasks| < U64
    ensures |s.tasks| < U64 - 1 ==> forall i :: 0 <= i < |s.tasks| ==> s.tasks[i].id < s.nextId
  {
    if |s.tasks| > U64 {
      assert s.tasks[0].id == 1 && s.tasks[U64].id == (1 + U64) % U64 == 1;
    }
    if |s.tasks| >= U64 {
      assert s.tasks[U64 - 1].id == U64 % U64 == 0;
    }
    if |s.tasks| == U64 {
      assert forall i :: 0 <= i < U64 - 1 ==> s.tasks[i].id == 1 + i;
    }
  }

  /** In every reachable state short of the wrap, a message whose id is no unsigned integer resolves
      nobody, and a message bearing the id of a waiting request resolves that request and no other. */
  lemma MessagesFindTheirOwner(steps: seq<Step>, s: State, m: Message)
    requires Reaches(Initial, steps, s) && |s.tasks| < U64
    ensures !m.id.Integer? ==> Next(s, Receive(m)) == s
    ensures forall i :: 0 <= i < |s.tasks| ==> Next(s, Receive(m)).tasks[i] == Answered(s.tasks[i], m)
  {
    RunsCorrelate(Initial, steps, s);
    MessageFindsOwner(s, m);
  }

  lemma MessageFindsOwner(s: State, m: Message)
    requires IdsInOrder(s) && Correlated(s) && |s.tasks| < U64
    ensures !m.id.Integer? ==> Next(s, Receive(m)) == s
    ensures forall i :: 0 <= i < |s.tasks| ==> Next(s, Receive(m)).tasks[i] == Answered(s.tasks[i], m)
  {
    forall i | 0 <= i < |s.tasks| ensures Next(s, Receive(m)).tasks[i] == Answered(s.tasks[i], m) {
      MessageAndTask(s, m, i);
    }
  }

  /** What a message does to one request. */
  function Answered(task: Task, m: Message): Task {
    if task.phase == Waiting && m.id == Integer(task.id) then task.(phase := Got(m)) else task
  }

  lemma MessageAndTask(s: State, m: Message, i: nat)
    requires IdsInOrder(s) && Correlated(s) && |s.tasks| < U64 && i < |s.tasks|
    ensures Next(s, Receive(m)).tasks[i] == Answered(s.tasks[i], m)
  {
    assert s.tasks[i].id == i + 1;
    var id := LookupId(m.id);
    if !m.id.NoId? && id in s.pending {
      assert s.pending[id] == id - 1;
    }
  }

  /** The response of a server to the request with this id. */
  function Response(id: nat, outcome: Reply): Message {
    match outcome
    case Success(result) => Message(Integer(id), None, Some(result), None)
    case Failure(error) => Message(Integer(id), None, None, Some(error))
  }

  /** Every response reaches the request it answers, with what the server said; an error counts more
      than a result, and a response with neither says null. */
  lemma ResponseReachesOwner(steps: seq<Step>, s: State, i: nat, outcome: Reply, m: Message)
    requires Reaches(Initial, steps, s) && |s.tasks| < U64 && i < |s.tasks| && s.tasks[i].phase == Waiting
    requires m == Response(s.tasks[i].id, outcome)
    ensures var after := Next(s, Receive(m)).tasks[i];
            after.phase == Got(m) && ReplyOf(after.phase.m) == outcome
    ensures forall e, result :: ReplyOf(Message(m.id, None, result, Some(e))) == Failure(e)
    ensures ReplyOf(Message(m.id, None, None, None)) == Success("null")
  {
    MessagesFindTheirOwner(steps, s, m);
  }

  /** A request made now is given what the server answers, or, once it has given up, nothing any more. */
  lemma RequestAnswered(steps: seq<Step>, s: State, outcome: Reply)
    requires Reaches(Initial, steps, s) && !s.closed && |s.tasks| + 1 < U64
    ensures var t := |s.tasks|;
            var sent := Next(Next(s, Start), Register(t));
            var answer := Receive(Response(sent.tasks[t].id, outcome));
            var answered := Next(sent, answer).tasks[t].phase;
            && answered.Got? && ReplyOf(answered.m) == outcome
            && Next(Next(sent, GiveUp(t)), answer).tasks[t].phase == GaveUp
  {
    RunsCorrelate(Initial, steps, s);
    var t := |s.tasks|;
    assert s.nextId == 1 + t;
  }

  // ----- Results come from responses -----

  predicate AllResponses(s: State) {
    forall i :: 0 <= i < |s.tasks| && s.tasks[i].phase.Got? ==> s.tasks[i].phase.m.verb.None?
  }

  /** The server sends a request of its own under the id of a waiting request. */
  predicate MisledBy(s: State, step: Step) {
    && step.Receive? && step.m.verb.Some?
    && exists i :: 0 <= i < |s.tasks| && s.tasks[i].phase == Waiting && step.m.id == Integer(s.tasks[i].id)
  }

  predicate Misled(s: State, steps: seq<Step>)
    decreases |steps|
  {
    steps != [] && Enabled(s, steps[0]) && (MisledBy(s, steps[0]) || Misled(Next(s, steps[0]), steps[1..]))
  }

  lemma StepMisleads(s: State, step: Step)
    requires Enabled(s, step) && IdsInOrder(s) && Correlated(s) && |s.tasks| < U64
    ensures AllResponses(Next(s, step)) <==> AllResponses(s) && !MisledBy(s, step)
  {
    match step {
      case Receive(m) =>
        MessageFindsOwner(s, m);
        ReceiveMisleads(s, m, Next(s, step));
      case Start =>
        assert forall i :: 0 <= i < |s.tasks| ==> Next(s, step).tasks[i] == s.tasks[i];
      case Close =>
        assert forall i :: 0 <= i < |s.tasks| ==> Next(s, step).tasks[i] == s.tasks[i];
      case _ =>
        assert forall i :: 0 <= i < |s.tasks| ==> Next(s, step).tasks[i].phase.Got? == s.tasks[i].phase.Got?;
        assert forall i :: 0 <= i < |s.tasks| && s.tasks[i].phase.Got? ==> Next(s, step).tasks[i] == s.tasks[i];
    }
  }

  lemma ReceiveMisleads(s: State, m: Message, next: State)
    requires |next.tasks| == |s.tasks|
    requires forall i :: 0 <= i < |s.tasks| ==> next.tasks[i] == Answered(s.tasks[i], m)
    ensures AllResponses(next) <==> AllResponses(s) && !MisledBy(s, Receive(m))
  {
    if MisledBy(s, Receive(m)) {
      var i :| 0 <= i < |s.tasks| && s.tasks[i].phase == Waiting && m.id == Integer(s.tasks[i].id);
      assert next.tasks[i].phase == Got(m);
    } else if AllResponses(next) {
      forall i | 0 <= i < |s.tasks| && s.tasks[i].phase.Got? ensures s.tasks[i].phase.m.verb.None? {
        assert next.tasks[i] == s.tasks[i];
      }
    }
  }

  /** Short of the wrap, every result comes from a response exactly if the server never sends a request
      under the id of one that is waiting. */
  lemma {:induction false} ResultsAreResponses(s: State, steps: seq<Step>, end: State)
    requires Reaches(s, steps, end) && IdsInOrder(s) && Correlated(s) && |end.tasks| < U64
    ensures AllResponses(end) <==> AllResponses(s) && !Misled(s, steps)
    decreases |steps|
  {
    if steps != [] {
      var next := Next(s, steps[0]);
      StepKeepsOrder(s, steps[0]);
      RunsCorrelate(next, steps[1..], end);
      StepKeepsCorrelation(s, steps[0]);
      StepMisleads(s, steps[0]);
      ResultsAreResponses(next, steps[1..], end);
    }
  }

  /** A server that numbers its own requests from 1: the first of them is taken for the response to the
      client's first request, which gets null. */
  lemma ServerRequestTaken(verb: string)
    ensures var m := Message(Integer(1), Some(verb), None, None);
            var end := State(2, [Task(1, Got(m))], map[], false);
            && Reaches(Initial, [Start, Register(0), Receive(m)], end)
            && ReplyOf(m) == Success(NULL) && !AllResponses(end)
  {
    var m := Message(Integer(1), Some(verb), None, None);
    var started := State(2, [Task(1, Issued)], map[], false);
    var waiting := State(2, [Task(1, Waiting)], map[1 := 0], false);
    var end := State(2, [Task(1, Got(m))], map[], false);
    var steps := [Start, Register(0), Receive(m)];
    assert Next(Initial, Start) == started && Next(started, Register(0)) == waiting;
    assert Next(waiting, Receive(m)) == end;
    assert steps[1..] == [Register(0), Receive(m)] && steps[1..][1..] == [Receive(m)] && [Receive(m)][1..] == [];
    assert Reaches(end, [], end);
    assert Reaches(waiting, [Receive(m)], end);
    assert Reaches(started, steps[1..], end);
    assert end.tasks[0].phase.Got?;
  }
}
