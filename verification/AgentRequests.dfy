/** What the repeat guard compares: when two rounds ask for the same thing, and when their signatures
    tell. */
module AgentRequests {
  import opened Sequences
  import opened Text
  import opened AgentProtocol
  import opened AgentTrace
  import opened AgentFidelity

  // ----- The same request -----

  function At(s: string, i: nat): Option<char> { if i < |s| then Some(s[i]) else None }

  /** Two texts agree on their first `n` characters. */
  predicate AgreeOn(s: string, t: string, n: nat) { forall i: nat :: i < n ==> At(s, i) == At(t, i) }

  /** The same tools in the same order, their arguments agreeing on the first 120 characters. */
  predicate SameRequest(a: seq<ToolCall>, b: seq<ToolCall>) {
    && |a| == |b|
    && forall i :: 0 <= i < |a| ==> a[i].name == b[i].name && AgreeOn(a[i].arguments, b[i].arguments, 120)
  }

  lemma AgreeIsShown(s: string, t: string, n: nat)
    ensures AgreeOn(s, t, n) <==> FirstChars(s, n) == FirstChars(t, n)
  {
    var a, b := FirstChars(s, n), FirstChars(t, n);
    if AgreeOn(s, t, n) {
      assert |s| < n ==> At(s, |s|) == At(t, |s|);
      assert |t| < n ==> At(s, |t|) == At(t, |t|);
      forall i | 0 <= i < |a| ensures a[i] == b[i] {
        assert At(s, i) == At(t, i);
      }
    }
    if a == b {
      forall i: nat | i < n ensures At(s, i) == At(t, i) {
        assert At(s, i) == At(a, i) && At(t, i) == At(b, i);
      }
    }
  }

  function Shown(c: ToolCall): string { FirstChars(c.arguments, SHOWN_ARGUMENTS) }

  /** Same requests have equal signatures. */
  lemma {:induction false} SameSigned(a: seq<ToolCall>, b: seq<ToolCall>)
    requires SameRequest(a, b)
    ensures Signature(a) == Signature(b)
    decreases |a|
  {
    if a != [] {
      AgreeIsShown(a[0].arguments, b[0].arguments, SHOWN_ARGUMENTS);
      assert forall i :: 0 <= i < |a[1..]| ==> a[1..][i] == a[i + 1] && b[1..][i] == b[i + 1];
      SameSigned(a[1..], b[1..]);
    }
  }

  // ----- When signatures tell requests apart -----

  /** Names of tools, without the two characters that signatures are punctuated with. */
  predicate PlainNames(names: set<string>) { forall t :: t in names ==> ':' !in t && '|' !in t }

  predicate Over(calls: seq<ToolCall>, names: set<string>) { forall i :: 0 <= i < |calls| ==> calls[i].name in names }

  predicate HidesAt(p: string, i: nat, t: string) {
    i + |t| + 2 <= |p| && p[i] == '|' && p[i + 1..i + 1 + |t|] == t && p[i + 1 + |t|] == ':'
  }

  /** The text reads as if another call began in it: a bar, the name of a tool and a colon. */
  ghost predicate Hides(p: string, names: set<string>) { exists i: nat, t :: t in names && HidesAt(p, i, t) }

  /** No arguments, as far as they are shown, hide a call. */
  ghost predicate Clean(calls: seq<ToolCall>, names: set<string>) {
    forall i :: 0 <= i < |calls| ==> !Hides(Shown(calls[i]), names)
  }

  function Rest(calls: seq<ToolCall>): string { if calls == [] then "" else "|" + Signature(calls) }

  lemma SignatureParts(calls: seq<ToolCall>)
    requires calls != []
    ensures Signature(calls) == calls[0].name + ":" + (Shown(calls[0]) + Rest(calls[1..]))
  {
    Assoc(calls[0].name + ":", Shown(calls[0]), Rest(calls[1..]));
    Assoc(CallSignature(calls[0]), "|", Signature(calls[1..]));
    NilRight(CallSignature(calls[0]));
    NilRight(Shown(calls[0]));
  }

  /** A bar that follows shorter arguments begins a call hidden in longer ones. */
  lemma LongerHides(p: string, q: string, more: seq<ToolCall>, tail: string, names: set<string>)
    requires PlainNames(names) && Over(more, names) && |p| < |q| && p + Rest(more) == q + tail
    requires tail == "" || tail[0] == '|'
    ensures Hides(q, names)
  {
    var r := q[|p|..];
    assert Rest(more) == r + tail by {
      assert (p + Rest(more))[|p|..] == Rest(more) && (q + tail)[|p|..] == r + tail;
    }
    SignatureParts(more);
    var t := more[0].name;
    var x := Shown(more[0]) + Rest(more[1..]);
    assert "|" + (t + ":" + x) == r + tail;
    forall k | 1 <= k < |t| + 2 ensures ("|" + (t + ":" + x))[k] != '|' {
      NoBarBefore(t, x, k);
    }
    if tail != "" {
      assert (r + tail)[|r|] == '|';
    }
    HiddenIn(p, q, r, t, x, tail);
  }

  lemma NoBarBefore(t: string, x: string, k: nat)
    requires '|' !in t && 1 <= k < |t| + 2
    ensures ("|" + (t + ":" + x))[k] != '|'
  {
    assert ("|" + (t + ":" + x))[k] == if k - 1 < |t| then t[k - 1] else ':';
  }

  lemma HiddenIn(p: string, q: string, r: string, t: string, x: string, tail: string)
    requires |p| < |q| && r == q[|p|..] && "|" + (t + ":" + x) == r + tail && |r| >= |t| + 2
    ensures HidesAt(q, |p|, t)
  {
    var s := "|" + (t + ":" + x);
    assert s[0] == '|' && s[1..1 + |t|] == t && s[1 + |t|] == ':';
    assert forall i :: 0 <= i < |r| ==> q[|p| + i] == r[i] == s[i];
    assert q[|p| + 1..|p| + 1 + |t|] == s[1..1 + |t|];
  }

  /** Clean requests over plain names are the same when their signatures are equal. */
  lemma {:induction false} SignatureTells(a: seq<ToolCall>, b: seq<ToolCall>, names: set<string>)
    requires PlainNames(names) && Over(a, names) && Over(b, names) && Clean(a, names) && Clean(b, names)
    requires a != [] && b != [] && Signature(a) == Signature(b)
    ensures SameRequest(a, b)
    decreases |a|
  {
    SignatureParts(a);
    SignatureParts(b);
    var p, q := Shown(a[0]), Shown(b[0]);
    SplitAtColon(a[0].name, p + Rest(a[1..]), b[0].name, q + Rest(b[1..]));
    if |p| < |q| {
      LongerHides(p, q, a[1..], Rest(b[1..]), names);
    } else if |q| < |p| {
      LongerHides(q, p, b[1..], Rest(a[1..]), names);
    }
    RestEqual(p, q, Rest(a[1..]), Rest(b[1..]));
    AgreeIsShown(a[0].arguments, b[0].arguments, SHOWN_ARGUMENTS);
    if |a| > 1 {
      assert ("|" + Signature(a[1..]))[1..] == Signature(a[1..]);
      assert ("|" + Signature(b[1..]))[1..] == Signature(b[1..]);
      CleanTail(a, names);
      CleanTail(b, names);
      SignatureTells(a[1..], b[1..], names);
      assert forall i :: 1 <= i < |a| ==> a[i] == a[1..][i - 1] && b[i] == b[1..][i - 1];
    }
  }

  lemma CleanTail(a: seq<ToolCall>, names: set<string>)
    requires a != [] && Over(a, names) && Clean(a, names)
    ensures Over(a[1..], names) && Clean(a[1..], names)
  {
    assert forall i :: 0 <= i < |a[1..]| ==> a[1..][i] == a[i + 1];
  }

  lemma RestEqual(p: string, q: string, s: string, t: string)
    requires |p| == |q| && p + s == q + t
    ensures p == q && s == t
  {
    assert p == (p + s)[..|p|] && q == (q + t)[..|q|];
    assert s == (p + s)[|p|..] && t == (q + t)[|q|..];
  }

  // ----- Every other request has a double -----

  lemma {:induction false} SignatureConcat(a: seq<ToolCall>, b: seq<ToolCall>)
    requires a != [] && b != []
    ensures Signature(a + b) == Signature(a) + "|" + Signature(b)
    decreases |a|
  {
    assert (a + b)[0] == a[0] && (a + b)[1..] == a[1..] + b;
    if |a| == 1 {
      assert a[1..] + b == b;
    } else {
      SignatureConcat(a[1..], b);
      Assoc(CallSignature(a[0]) + "|", Signature(a[1..]), "|" + Signature(b));
      Assoc(Signature(a[1..]), "|", Signature(b));
      Assoc(CallSignature(a[0]) + "|" + Signature(a[1..]), "|", Signature(b));
    }
  }

  /** Replacing one call by calls with the same signature keeps the signature. */
  lemma SignatureReplace(before: seq<ToolCall>, x: seq<ToolCall>, y: seq<ToolCall>, after: seq<ToolCall>)
    requires x != [] && y != [] && Signature(x) == Signature(y)
    ensures Signature(before + x + after) == Signature(before + y + after)
  {
    ReplaceBehind(before, x, y);
    if after == [] {
      NilRight(before + x);
      NilRight(before + y);
    } else {
      SignatureConcat(before + x, after);
      SignatureConcat(before + y, after);
    }
  }

  lemma ReplaceBehind(before: seq<ToolCall>, x: seq<ToolCall>, y: seq<ToolCall>)
    requires x != [] && y != [] && Signature(x) == Signature(y)
    ensures Signature(before + x) == Signature(before + y)
  {
    if before == [] {
      assert before + x == x && before + y == y;
    } else {
      SignatureConcat(before, x);
      SignatureConcat(before, y);
    }
  }

  /** The call hidden in the arguments of `c`, taken out of them. */
  function TakenOut(c: ToolCall, i: nat, t: string): (calls: seq<ToolCall>)
    requires HidesAt(Shown(c), i, t)
  {
    [ToolCall(c.id, c.name, Shown(c)[..i]), ToolCall(c.id, t, Shown(c)[i + |t| + 2..])]
  }

  lemma TakenOutSigned(c: ToolCall, i: nat, t: string)
    requires HidesAt(Shown(c), i, t)
    ensures Signature(TakenOut(c, i, t)) == Signature([c])
  {
    var p := Shown(c);
    var a, b := p[..i], p[i + |t| + 2..];
    var two := TakenOut(c, i, t);
    assert p == a + ("|" + (t + ":" + b)) by {
      assert p == p[..i] + [p[i]] + p[i + 1..i + 1 + |t|] + [p[i + 1 + |t|]] + p[i + |t| + 2..];
    }
    assert two == [two[0]] + [two[1]];
    SignatureConcat([two[0]], [two[1]]);
    Assoc(c.name + ":", a, "|" + (t + ":" + b));
    Assoc(c.name + ":" + a, "|", t + ":" + b);
  }

  function Volume(calls: seq<ToolCall>): nat {
    if calls == [] then 0 else |Shown(calls[0])| + Volume(calls[1..])
  }

  lemma {:induction false} VolumeConcat(a: seq<ToolCall>, b: seq<ToolCall>)
    ensures Volume(a + b) == Volume(a) + Volume(b)
    decreases |a|
  {
    if a == [] {
      assert a + b == b;
    } else {
      assert (a + b)[0] == a[0] && (a + b)[1..] == a[1..] + b;
      VolumeConcat(a[1..], b);
    }
  }

  lemma TakenOutVolume(c: ToolCall, i: nat, t: string)
    requires HidesAt(Shown(c), i, t)
    ensures Volume(TakenOut(c, i, t)) < Volume([c])
  {
    var two := TakenOut(c, i, t);
    assert two[1..] == [two[1]] && two[1..][1..] == [] && [c][1..] == [];
    assert Volume([c]) == |Shown(c)| + Volume([c][1..]);
    assert Volume(two) == |Shown(two[0])| + Volume(two[1..]);
    assert Volume(two[1..]) == |Shown(two[1])| + Volume(two[1..][1..]);
  }

  /** The request with one hidden call taken out. */
  lemma WithoutHidden(a: seq<ToolCall>, k: nat, i: nat, t: string, names: set<string>) returns (next: seq<ToolCall>)
    requires Over(a, names) && k < |a| && t in names && HidesAt(Shown(a[k]), i, t)
    ensures next != [] && Over(next, names) && Signature(next) == Signature(a) && Volume(next) < Volume(a)
  {
    var before, two, after := a[..k], TakenOut(a[k], i, t), a[k + 1..];
    next := before + two + after;
    assert a == before + [a[k]] + after;
    TakenOutSigned(a[k], i, t);
    SignatureReplace(before, two, [a[k]], after);
    TakenOutVolume(a[k], i, t);
    VolumeThree(before, two, after);
    VolumeThree(before, [a[k]], after);
  }

  lemma VolumeThree(x: seq<ToolCall>, y: seq<ToolCall>, z: seq<ToolCall>)
    ensures Volume(x + y + z) == Volume(x) + Volume(y) + Volume(z)
  {
    VolumeConcat(x + y, z);
    VolumeConcat(x, y);
  }

  /** Every request has the signature of a clean one: its hidden calls taken out. */
  lemma {:induction false} CleanForm(a: seq<ToolCall>, names: set<string>) returns (b: seq<ToolCall>)
    requires a != [] && Over(a, names)
    ensures b != [] && Over(b, names) && Clean(b, names) && Signature(b) == Signature(a)
    decreases Volume(a)
  {
    if Clean(a, names) {
      return a;
    }
    var k :| 0 <= k < |a| && Hides(Shown(a[k]), names);
    var i: nat, t :| t in names && HidesAt(Shown(a[k]), i, t);
    var next := WithoutHidden(a, k, i, t, names);
    b := CleanForm(next, names);
  }

  lemma CleanAlike(a: seq<ToolCall>, b: seq<ToolCall>, names: set<string>)
    requires SameRequest(a, b) && Clean(b, names)
    ensures Clean(a, names)
  {
    forall i | 0 <= i < |a| ensures !Hides(Shown(a[i]), names) {
      AgreeIsShown(a[i].arguments, b[i].arguments, SHOWN_ARGUMENTS);
    }
  }

  /** Exactly the clean requests are told from every clean one by their signature. */
  lemma ToldApart(a: seq<ToolCall>, names: set<string>)
    requires PlainNames(names) && a != [] && Over(a, names)
    ensures Clean(a, names) <==>
            forall b :: b != [] && Over(b, names) && Clean(b, names) && Signature(b) == Signature(a) ==>
              SameRequest(a, b)
  {
    if Clean(a, names) {
      forall b | b != [] && Over(b, names) && Clean(b, names) && Signature(b) == Signature(a)
        ensures SameRequest(a, b)
      {
        SignatureTells(a, b, names);
      }
    } else {
      var b := CleanForm(a, names);
      if SameRequest(a, b) {
        CleanAlike(a, b, names);
      }
    }
  }

  /** Two calls, and one call whose arguments look like both: equal signatures. */
  lemma Doubles()
    ensures var one := [ToolCall("", "shell", "ls|read:b")];
            var two := [ToolCall("", "shell", "ls"), ToolCall("", "read", "b")];
            Signature(one) == Signature(two) && !SameRequest(one, two)
  {
    var one, two := [ToolCall("", "shell", "ls|read:b")], [ToolCall("", "shell", "ls"), ToolCall("", "read", "b")];
    assert two[1..] == [two[1]];
    assert Signature(two) == "shell:ls" + "|" + "read:b";
    assert Signature(one) == "shell:ls|read:b";
  }

  // ----- Whole runs -----

  /** What the rounds of a run asked for, in order. */
  function Requests(trace: seq<Event>): seq<seq<ToolCall>> {
    if trace == [] then []
    else if trace[|trace| - 1].Round? then Requests(trace[..|trace| - 1]) + [trace[|trace| - 1].calls]
    else Requests(trace[..|trace| - 1])
  }

  predicate FiveAlike(requests: seq<seq<ToolCall>>, i: int) {
    0 <= i && i + 5 <= |requests| && forall j :: i <= j < i + 5 ==> SameRequest(requests[j], requests[i])
  }

  /** The requests are such that signatures tell them apart. */
  ghost predicate Telling(requests: seq<seq<ToolCall>>, names: set<string>) {
    PlainNames(names) &&
    forall i :: 0 <= i < |requests| ==> requests[i] != [] && Over(requests[i], names) && Clean(requests[i], names)
  }

  predicate Signed(requests: seq<seq<ToolCall>>, sigs: seq<string>) {
    |requests| == |sigs| && forall i :: 0 <= i < |sigs| ==> sigs[i] == Signature(requests[i])
  }

  lemma {:induction false} RequestsSigned(trace: seq<Event>)
    requires forall r :: 0 <= r < |trace| && trace[r].Round? ==> trace[r].signature == Signature(trace[r].calls)
    ensures Signed(Requests(trace), Signatures(trace))
  {
    if trace != [] {
      var n := |trace| - 1;
      RequestsSigned(trace[..n]);
      assert trace == trace[..n] + [trace[n]];
      TallyConcat(trace[..n], [trace[n]]);
      assert [trace[n]][1..] == [];
    }
  }

  lemma AlikeSigned(requests: seq<seq<ToolCall>>, sigs: seq<string>, i: int)
    requires Signed(requests, sigs) && FiveAlike(requests, i)
    ensures FiveInARow(sigs, i)
  {
    forall j | i <= j < i + 5 ensures sigs[j] == sigs[i] {
      SameSigned(requests[j], requests[i]);
    }
  }

  lemma SignedAlike(requests: seq<seq<ToolCall>>, sigs: seq<string>, i: int, names: set<string>)
    requires Signed(requests, sigs) && FiveInARow(sigs, i) && Telling(requests[i..i + 5], names)
    ensures FiveAlike(requests, i)
  {
    var five := requests[i..i + 5];
    forall j | i <= j < i + 5 ensures SameRequest(requests[j], requests[i]) {
      assert requests[j] == five[j - i] && requests[i] == five[0];
      SignatureTells(requests[j], requests[i], names);
    }
  }
}
