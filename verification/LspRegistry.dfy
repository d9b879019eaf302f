/** The registry of language-server clients: look up, connect without the lock, insert unless
    another task was faster. Several tasks may miss and connect at once. */
module LspRegistry {
  type Language = string

  /** Where one call stands. Clients are numbered in the order of their connection. */
  datatype Call =
    | Asking(language: Language)
    | Missed(language: Language)
    | Connected(language: Language, client: nat)
    | Returned(language: Language, client: nat)
    | Failed(language: Language)

  datatype Registry = Registry(known: set<Language>, entries: map<Language, nat>, calls: seq<Call>, connections: nat)

  datatype Step =
    | GetClient(language: Language)      // a call of get_client begins
    | StartServer(language: Language)    // a call of start_server begins
    | Lookup(c: nat)                     // the locked lookup of get_client
    | Connect(c: nat, ok: bool)          // find the server and connect, without the lock
    | Insert(c: nat)                     // the locked check and insert

  predicate Enabled(r: Registry, step: Step) {
    match step
    case GetClient(_) => true
    case StartServer(_) => true
    case Lookup(c) => c < |r.calls| && r.calls[c].Asking?
    case Connect(c, _) => c < |r.calls| && r.calls[c].Missed?
    case Insert(c) => c < |r.calls| && r.calls[c].Connected?
  }

  function Next(r: Registry, step: Step): Registry
    requires Enabled(r, step)
  {
    match step
    case GetClient(l) => r.(calls := r.calls + [Asking(l)])
    case StartServer(l) => r.(calls := r.calls + [Missed(l)])
    case Lookup(c) =>
      var l := r.calls[c].language;
      r.(calls := r.calls[c := if l in r.entries then Returned(l, r.entries[l]) else Missed(l)])
    case Connect(c, ok) =>
      var l := r.calls[c].language;
      if l !in r.known || !ok then r.(calls := r.calls[c := Failed(l)])
      else r.(calls := r.calls[c := Connected(l, r.connections)], connections := r.connections + 1)
    case Insert(c) =>
      var l := r.calls[c].language;
      if l in r.entries then r.(calls := r.calls[c := Returned(l, r.entries[l])])
      else r.(entries := r.entries[l := r.calls[c].client], calls := r.calls[c := Returned(l, r.calls[c].client)])
  }

  ghost predicate Reaches(r: Registry, steps: seq<Step>, end: Registry)
    decreases |steps|
  {
    if steps == [] then r == end
    else Enabled(r, steps[0]) && Reaches(Next(r, steps[0]), steps[1..], end)
  }

  predicate Initial(r: Registry) { r.entries == map[] && r.calls == [] && r.connections == 0 }

  /** Clients in the registry and in the hands of callers were connected, each by one call, and
      what a call returned is what the registry holds for its language. */
  predicate Consistent(r: Registry) {
    && (forall c :: 0 <= c < |r.calls| && r.calls[c].Returned? ==>
          r.calls[c].language in r.entries && r.entries[r.calls[c].language] == r.calls[c].client)
    && (forall l :: l in r.entries ==> l in r.known && r.entries[l] < r.connections)
    && (forall c :: 0 <= c < |r.calls| && r.calls[c].Connected? ==>
          r.calls[c].language in r.known && r.calls[c].client < r.connections)
    && (forall c, l :: 0 <= c < |r.calls| && r.calls[c].Connected? && l in r.entries ==>
        r.calls[c].client != r.entries[l])
    && (forall c, d :: 0 <= c < d < |r.calls| && r.calls[c].Connected? && r.calls[d].Connected? ==>
        r.calls[c].client != r.calls[d].client)
    && (forall l, m :: l in r.entries && m in r.entries && l != m ==> r.entries[l] != r.entries[m])
  }

  /** No entry is ever replaced or removed. */
  predicate Keeps(r: Registry, later: Registry) {
    forall l :: l in r.entries ==> l in later.entries && later.entries[l] == r.entries[l]
  }

  lemma StepKeeps(r: Registry, step: Step)
    requires Enabled(r, step) && Consistent(r)
    ensures Consistent(Next(r, step)) && Keeps(r, Next(r, step))
  {
    match step {
      case GetClient(l) => CallKeeps(r, Asking(l));
      case StartServer(l) => CallKeeps(r, Missed(l));
      case Lookup(c) => LookupKeeps(r, c);
      case Connect(c, ok) => ConnectKeeps(r, c, ok);
      case Insert(c) => InsertKeeps(r, c);
    }
  }

  lemma CallKeeps(r: Registry, call: Call)
    requires Consistent(r) && (call.Asking? || call.Missed?)
    ensures Consistent(r.(calls := r.calls + [call]))
  {
  }

  lemma LookupKeeps(r: Registry, c: nat)
    requires Enabled(r, Lookup(c)) && Consistent(r)
    ensures Consistent(Next(r, Lookup(c)))
  {
  }

  lemma ConnectKeeps(r: Registry, c: nat, ok: bool)
    requires Enabled(r, Connect(c, ok)) && Consistent(r)
    ensures Consistent(Next(r, Connect(c, ok)))
  {
  }

  lemma InsertKeeps(r: Registry, c: nat)
    requires Enabled(r, Insert(c)) && Consistent(r)
    ensures Consistent(Next(r, Insert(c)))
  {
  }

  lemma {:induction false} RunsKeep(r: Registry, steps: seq<Step>, end: Registry)
    requires Reaches(r, steps, end) && Consistent(r)
    ensures Consistent(end) && Keeps(r, end)
    decreases |steps|
  {
    if steps != [] {
      StepKeeps(r, steps[0]);
      RunsKeep(Next(r, steps[0]), steps[1..], end);
    }
  }

  /** The calls from the given one on that ask for the language have its registered client or will find it. */
  predicate Served(r: Registry, l: Language, begun: nat, client: nat) {
    && l in r.entries && r.entries[l] == client
    && forall c :: begun <= c < |r.calls| && r.calls[c].language == l ==>
         r.calls[c] == Asking(l) || r.calls[c] == Returned(l, client)
  }

  lemma StepServes(r: Registry, step: Step, l: Language, begun: nat, client: nat)
    requires Enabled(r, step) && Served(r, l, begun, client) && step != StartServer(l)
    ensures Served(Next(r, step), l, begun, client)
  {
  }

  /** From a registered language on, a call of get_client answers with the registered client and
      connects to nothing: in no run does one that begins later miss. */
  lemma {:induction false} RegisteredIsFound(r: Registry, steps: seq<Step>, end: Registry, l: Language, begun: nat,
                                            client: nat)
    requires Reaches(r, steps, end) && Served(r, l, begun, client)
    requires forall i :: 0 <= i < |steps| ==> steps[i] != StartServer(l)
    ensures Served(end, l, begun, client)
    decreases |steps|
  {
    if steps != [] {
      StepServes(r, steps[0], l, begun, client);
      RegisteredIsFound(Next(r, steps[0]), steps[1..], end, l, begun, client);
    }
  }

  /** What one call comes to when nobody interferes: a registered client at once; otherwise a new one,
      registered, exactly if the language is known and the connection succeeds. */
  lemma CallAlone(r: Registry, l: Language, ok: bool)
    requires Consistent(r)
    ensures var c := |r.calls|;
            var looked := Next(Next(r, GetClient(l)), Lookup(c));
            if l in r.entries then looked.calls[c] == Returned(l, r.entries[l]) && looked.connections == r.connections
            else
              && looked.calls[c] == Missed(l)
              && var tried := Next(looked, Connect(c, ok));
                 if l in r.known && ok then
                   && tried.calls[c] == Connected(l, r.connections)
                   && var end := Next(tried, Insert(c));
                      && end.calls[c] == Returned(l, r.connections) && end.entries == r.entries[l := r.connections]
                      && end.connections == r.connections + 1
                 else tried.calls[c] == Failed(l) && tried.entries == r.entries && tried.connections == r.connections
  {
  }

  /** The same when another task was faster: its client is returned, and the new one dropped. */
  lemma SlowerCallYields(r: Registry, c: nat)
    requires Enabled(r, Insert(c)) && r.calls[c].language in r.entries
    ensures var l := r.calls[c].language;
            && Next(r, Insert(c)).calls[c] == Returned(l, r.entries[l])
            && Next(r, Insert(c)).entries == r.entries && Next(r, Insert(c)).connections == r.connections
  {
  }

  /** In every run, any two successful calls for one language return the same client, at whatever
      moments they return, and calls for different languages return different ones. */
  lemma OneClientPerLanguage(start: Registry, steps: seq<Step>, middle: Registry, more: seq<Step>, end: Registry,
                             c: nat, d: nat)
    requires Initial(start) && Reaches(start, steps, middle) && Reaches(middle, more, end)
    requires c < |middle.calls| && middle.calls[c].Returned? && d < |end.calls| && end.calls[d].Returned?
    ensures middle.calls[c].client == end.calls[d].client <==> middle.calls[c].language == end.calls[d].language
  {
    RunsKeep(start, steps, middle);
    RunsKeep(middle, more, end);
  }
}
