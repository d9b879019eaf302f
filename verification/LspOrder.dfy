/** The order in which a language server lists its edits. The protocol leaves it open as long as ranges
    do not overlap; the program applies the list from its end. Listed orders that are safe for every text
    are characterised exactly, and edits that are safe in any order are described. */
module LspOrder {
  import opened Sequences
  import opened Text
  import opened LspEdits

  predicate Apart(a: Edit, b: Edit) { AtMost(a.end, b.start) || AtMost(b.end, a.start) }

  /** Ranges run forwards and do not overlap, in whatever order they are listed. */
  predicate Separate(edits: seq<Edit>) {
    && (forall i :: 0 <= i < |edits| ==> AtMost(edits[i].start, edits[i].end))
    && (forall i, j :: 0 <= i < j < |edits| ==> Apart(edits[i], edits[j]))
  }

  /** Put an edit before the first that lies after it. */
  function File(e: Edit, rest: seq<Edit>): seq<Edit> {
    if rest == [] || AtMost(e.end, rest[0].start) then [e] + rest else [rest[0]] + File(e, rest[1..])
  }

  /** The edits by position; inserts at one place keep their listed order. */
  function Arrange(edits: seq<Edit>): seq<Edit> {
    if edits == [] then [] else File(edits[0], Arrange(edits[1..]))
  }

  lemma {:induction false} FileMembers(e: Edit, rest: seq<Edit>)
    ensures forall x :: x in File(e, rest) <==> x == e || x in rest
  {
    if rest != [] && !AtMost(e.end, rest[0].start) {
      FileMembers(e, rest[1..]);
      assert rest == [rest[0]] + rest[1..];
    }
  }

  lemma {:induction false} ArrangeMembers(edits: seq<Edit>)
    ensures forall x :: x in Arrange(edits) <==> x in edits
  {
    if edits != [] {
      ArrangeMembers(edits[1..]);
      FileMembers(edits[0], Arrange(edits[1..]));
      assert edits == [edits[0]] + edits[1..];
    }
  }

  lemma AscendingCons(e: Edit, rest: seq<Edit>)
    requires Ascending(rest) && AtMost(e.start, e.end)
    requires forall x :: x in rest ==> AtMost(e.end, x.start)
    ensures Ascending([e] + rest)
  {
    var all := [e] + rest;
    assert forall i :: 1 <= i < |all| ==> all[i] == rest[i - 1];
  }

  lemma {:induction false} FileAscending(e: Edit, rest: seq<Edit>)
    requires Ascending(rest) && AtMost(e.start, e.end) && forall x :: x in rest ==> Apart(e, x)
    ensures Ascending(File(e, rest))
  {
    if rest == [] {
      AscendingCons(e, rest);
    } else {
      AscendingTail(rest);
      if AtMost(e.end, rest[0].start) {
        forall x | x in rest ensures AtMost(e.end, x.start) {
          assert x == rest[0] || x in rest[1..];
        }
        AscendingCons(e, rest);
      } else {
        assert Apart(e, rest[0]);
        FileAscending(e, rest[1..]);
        FileMembers(e, rest[1..]);
        AscendingCons(rest[0], File(e, rest[1..]));
      }
    }
  }

  lemma SeparateTail(edits: seq<Edit>)
    requires Separate(edits) && edits != []
    ensures Separate(edits[1..]) && AtMost(edits[0].start, edits[0].end)
    ensures forall x :: x in edits[1..] ==> Apart(edits[0], x)
  {
    var rest := edits[1..];
    assert forall i :: 0 <= i < |rest| ==> rest[i] == edits[i + 1];
  }

  lemma {:induction false} ArrangeAscending(edits: seq<Edit>)
    requires Separate(edits)
    ensures Ascending(Arrange(edits))
  {
    if edits != [] {
      SeparateTail(edits);
      ArrangeAscending(edits[1..]);
      ArrangeMembers(edits[1..]);
      FileAscending(edits[0], Arrange(edits[1..]));
    }
  }

  /** Edits in order stay as they are. */
  lemma {:induction false} ArrangeFixed(edits: seq<Edit>)
    requires Ascending(edits)
    ensures Arrange(edits) == edits
  {
    if edits != [] {
      AscendingTail(edits);
      ArrangeFixed(edits[1..]);
      assert edits == [edits[0]] + edits[1..];
    }
  }

  predicate AllResolve(t: string, edits: seq<Edit>) { forall e :: e in edits ==> Resolves(t, e) }

  lemma SortedAscending(t: string, edits: seq<Edit>)
    requires Ascending(edits) && AllResolve(t, edits)
    ensures Sorted(t, edits)
  {
    ResolvedAll(t, edits);
    ResolvedSorted(t, edits);
  }

  /** What the protocol asks for: every edit applied to the original text at once. */
  function Simultaneous(t: string, edits: seq<Edit>): string
    requires Separate(edits) && AllResolve(t, edits)
  {
    ArrangeAscending(edits);
    ArrangeMembers(edits);
    SortedAscending(t, Arrange(edits));
    Patch(t, Arrange(edits), 0)
  }

  // ----- Orders that are safe for every text and every replacement -----

  predicate SameRanges(edits: seq<Edit>, other: seq<Edit>) {
    && |edits| == |other|
    && forall i :: 0 <= i < |edits| ==> other[i].start == edits[i].start && other[i].end == edits[i].end
  }

  /** Whatever the text and the replacements, applying edits with these ranges from the last to the
      first gives what the protocol asks for. */
  ghost predicate SafeOrder(edits: seq<Edit>) {
    forall t: string, other: seq<Edit> :: SameRanges(edits, other) && Separate(other) && AllResolve(t, other) ==>
      ApplyLastFirst(t, other) == Some(Simultaneous(t, other))
  }

  lemma AscendingIsSimultaneous(t: string, edits: seq<Edit>)
    requires Ascending(edits) && Separate(edits) && AllResolve(t, edits)
    ensures ApplyLastFirst(t, edits) == Some(Simultaneous(t, edits))
  {
    LastFirstIsSimultaneous(t, edits);
    ResolvedAll(t, edits);
    ArrangeFixed(edits);
  }

  lemma {:induction false} AscendingByNeighbours(edits: seq<Edit>)
    requires forall i :: 0 <= i < |edits| ==> AtMost(edits[i].start, edits[i].end)
    requires forall i :: 0 <= i < |edits| - 1 ==> AtMost(edits[i].end, edits[i + 1].start)
    ensures Ascending(edits)
  {
    if |edits| > 1 {
      var e, rest := edits[0], edits[1..];
      assert forall i :: 0 <= i < |rest| ==> rest[i] == edits[i + 1];
      AscendingByNeighbours(rest);
      forall x | x in rest ensures AtMost(e.end, x.start) {
        var i :| 0 <= i < |rest| && rest[i] == x;
        assert i > 0 ==> AtMost(rest[0].end, x.start);
      }
      AscendingCons(e, rest);
      assert edits == [e] + rest;
    }
  }

  function Newlines(n: nat): string { seq(n, _ => '\n') }

  lemma {:induction false} EndAfterNewlines(s: string, n: nat)
    requires n > 0
    ensures EndOf(s + Newlines(n)) == Position(EndOf(s).line + n, 0)
  {
    var t := s + Newlines(n);
    assert t[..|t| - 1] == s + Newlines(n - 1);
    if n > 1 {
      EndAfterNewlines(s, n - 1);
    } else {
      assert s + Newlines(0) == s;
    }
  }

  /** The text an edit replaces. */
  function Own(t: string, e: Edit): string {
    if Resolves(t, e) && From(t, e) <= To(t, e) then t[From(t, e)..To(t, e)] else ""
  }

  /** Replacements that reveal a pair listed in the wrong order: the later of the two, which lies
      before the earlier, becomes many lines and a mark; the earlier becomes another mark; all other
      edits replace a text by itself. */
  function Witness(t: string, edits: seq<Edit>, i: nat): (other: seq<Edit>)
    requires i + 1 < |edits|
    ensures SameRanges(edits, other)
  {
    seq(|edits|, k requires 0 <= k < |edits| =>
      if k == i then edits[k].(newText := "@")
      else if k == i + 1 then edits[k].(newText := Newlines(edits[i].start.line + 1) + "#")
      else edits[k].(newText := Own(t, edits[k])))
  }

  lemma WitnessValid(t: string, edits: seq<Edit>, i: nat)
    requires Separate(edits) && AllResolve(t, edits) && i + 1 < |edits|
    ensures Separate(Witness(t, edits, i)) && AllResolve(t, Witness(t, edits, i))
  {
    var other := Witness(t, edits, i);
    forall x | x in other ensures Resolves(t, x) {
      var k :| 0 <= k < |other| && other[k] == x;
      assert Resolves(t, edits[k]);
    }
  }

  /** Neither mark. */
  predicate Unmarked(s: string) { '#' !in s && '@' !in s }

  /** No `#` stands before an `@`. */
  predicate Spoilt(s: string) { forall p, q :: 0 <= p < q < |s| ==> !(s[p] == '#' && s[q] == '@') }

  lemma {:induction false} ApplySplit(t: string, a: seq<Edit>, b: seq<Edit>)
    ensures ApplyLastFirst(t, a + b) ==
            var u := ApplyLastFirst(t, b); if u.None? then None else ApplyLastFirst(u.value, a)
    decreases |a|
  {
    if a == [] {
      assert a + b == b;
    } else {
      assert (a + b)[0] == a[0] && (a + b)[1..] == a[1..] + b;
      ApplySplit(t, a[1..], b);
    }
  }

  /** Replacing texts by themselves changes nothing. */
  lemma {:induction false} OwnStays(t: string, edits: seq<Edit>)
    requires AllResolve(t, edits) && forall e :: e in edits ==> AtMost(e.start, e.end) && e.newText == Own(t, e)
    ensures ApplyLastFirst(t, edits) == Some(t)
  {
    if edits != [] {
      var e := edits[0];
      assert forall x :: x in edits[1..] ==> x in edits;
      OwnStays(t, edits[1..]);
      OneLanding(t, e);
      Whole(t, From(t, e), To(t, e));
    }
  }

  lemma Whole(t: string, i: nat, j: nat)
    requires i <= j <= |t|
    ensures t[..i] + t[i..j] + t[j..] == t
  {
  }

  lemma OneLanding(t: string, e: Edit)
    requires Resolves(t, e) && AtMost(e.start, e.end)
    ensures From(t, e) <= To(t, e)
    ensures ApplyOne(t, e) == Some(t[..From(t, e)] + e.newText + t[To(t, e)..])
  {
    PlaceMonotone(t, e.start, e.end);
    assert t == t[0..To(t, e)] + t[To(t, e)..];
    Landing(t, t, e, t[To(t, e)..]);
  }

  /** Whatever is replaced by unmarked text, a spoilt text stays spoilt. */
  lemma SpoiltReplace(s: string, from: nat, to: nat, with: string)
    requires Spoilt(s) && Unmarked(with) && ReplaceRange(s, from, to, with).Some?
    ensures Spoilt(ReplaceRange(s, from, to, with).value)
  {
    var i, j := CharIndex(s, from).value, CharIndex(s, to).value;
    var r := ReplaceRange(s, from, to, with).value;
    if j >= i {
      SpoiltCut(s, i, j, with);
    } else {
      PrefixBytes(s, j, i);
    }
  }

  lemma SpoiltCut(s: string, i: nat, j: nat, with: string)
    requires Spoilt(s) && Unmarked(with) && i <= j <= |s|
    ensures Spoilt(s[..i] + with + s[j..])
  {
    var r, d := s[..i] + with + s[j..], i + |with|;
    forall p, q | 0 <= p < q < |r| ensures !(r[p] == '#' && r[q] == '@') {
      assert r[p] == if p < i then s[p] else if p < d then with[p - i] else s[p - d + j];
      assert r[q] == if q < i then s[q] else if q < d then with[q - i] else s[q - d + j];
    }
  }

  lemma {:induction false} SpoiltStays(s: string, edits: seq<Edit>)
    requires Spoilt(s) && forall e :: e in edits ==> Unmarked(e.newText)
    ensures var r := ApplyLastFirst(s, edits); r.Some? ==> Spoilt(r.value)
  {
    if edits != [] {
      assert forall x :: x in edits[1..] ==> x in edits;
      SpoiltStays(s, edits[1..]);
      var later := ApplyLastFirst(s, edits[1..]);
      if later.Some? {
        var e := edits[0];
        var from, to := Offset(later.value, e.start), Offset(later.value, e.end);
        if from.Some? && to.Some? && ReplaceRange(later.value, from.value, to.value, e.newText).Some? {
          SpoiltReplace(later.value, from.value, to.value, e.newText);
        }
      }
    }
  }

  /** The earlier of the pair, applied after many lines have been put before it, lands among them. */
  lemma LandsEarly(a: string, n: nat, tail: string, e: Edit)
    requires Unmarked(a) && '@' !in tail && n > e.start.line && e.newText == "@"
    ensures var r := ApplyOne(a + (Newlines(n) + "#") + tail, e); r.Some? ==> Spoilt(r.value)
  {
    var u, k := a + (Newlines(n) + "#") + tail, |a| + n;
    var from, to := Offset(u, e.start), Offset(u, e.end);
    if from.Some? && to.Some? && ReplaceRange(u, from.value, to.value, e.newText).Some? {
      assert u[..k] == a + Newlines(n);
      EndAfterNewlines(a, n);
      var x := Place(u, e.start).value;
      StopsMonotone(u, e.start, x, EndOf(u[..k]), k);
      CharIndexOfPrefix(u, x);
      assert u[..x] == u[..k][..x];
      MarkAlone(u, x, CharIndex(u, to.value).value);
    }
  }

  lemma MarkAlone(u: string, x: nat, y: nat)
    requires x <= |u| && y <= |u| && '#' !in u[..x] && '@' !in u
    ensures Spoilt(u[..x] + "@" + u[y..])
  {
    var r := u[..x] + "@" + u[y..];
    forall p, q | 0 <= p < q < |r| ensures !(r[p] == '#' && r[q] == '@') {
      assert r[p] == if p < x then u[..x][p] else if p == x then '@' else u[p - x - 1 + y];
      assert r[q] == if q < x then u[q] else if q == x then '@' else u[q - x - 1 + y];
    }
  }

  /** The edits lie in the text from `at` on, in order. */
  predicate Lying(t: string, edits: seq<Edit>, at: nat) {
    && at <= |t| && (forall i :: 0 <= i < |edits| ==> Resolves(t, edits[i]))
    && Sorted(t, edits) && (edits != [] ==> at <= From(t, edits[0]))
  }

  lemma LyingTail(t: string, edits: seq<Edit>, at: nat)
    requires Lying(t, edits, at) && edits != []
    ensures Lying(t, edits[1..], To(t, edits[0])) && at <= From(t, edits[0]) <= To(t, edits[0])
    ensures Patch(t, edits, at) ==
            t[at..From(t, edits[0])] + edits[0].newText + Patch(t, edits[1..], To(t, edits[0]))
  {
    var rest := edits[1..];
    assert forall i :: 0 <= i < |rest| ==> rest[i] == edits[i + 1];
  }

  lemma {:induction false} PatchHas(t: string, edits: seq<Edit>, at: nat, q: nat, c: char)
    requires Lying(t, edits, at)
    requires q < |edits| && c in edits[q].newText
    ensures c in Patch(t, edits, at)
    decreases q
  {
    LyingTail(t, edits, at);
    if q > 0 {
      PatchHas(t, edits[1..], To(t, edits[0]), q - 1, c);
    }
  }

  lemma {:induction false} PatchShows(t: string, edits: seq<Edit>, at: nat, p: nat, q: nat)
    requires Lying(t, edits, at)
    requires p < q < |edits| && '#' in edits[p].newText && '@' in edits[q].newText
    ensures !Spoilt(Patch(t, edits, at))
    decreases p
  {
    LyingTail(t, edits, at);
    var lead, rest := t[at..From(t, edits[0])], Patch(t, edits[1..], To(t, edits[0]));
    if p == 0 {
      PatchHas(t, edits[1..], To(t, edits[0]), q - 1, '@');
      InTurn(lead, edits[0].newText, rest);
    } else {
      PatchShows(t, edits[1..], To(t, edits[0]), p - 1, q - 1);
      SpoiltSuffix(lead + edits[0].newText, rest);
    }
  }

  lemma InTurn(lead: string, a: string, b: string)
    requires '#' in a && '@' in b
    ensures !Spoilt(lead + a + b)
  {
    var p :| 0 <= p < |a| && a[p] == '#';
    var q :| 0 <= q < |b| && b[q] == '@';
    var s := lead + a + b;
    assert s[|lead| + p] == '#' && s[|lead| + |a| + q] == '@';
  }

  lemma SpoiltSuffix(a: string, b: string)
    requires !Spoilt(b)
    ensures !Spoilt(a + b)
  {
    var p, q :| 0 <= p < q < |b| && b[p] == '#' && b[q] == '@';
    assert (a + b)[|a| + p] == '#' && (a + b)[|a| + q] == '@';
  }

  /** What the protocol asks of the witness: the mark of the edit that lies first comes first. */
  lemma WitnessInOrder(t: string, edits: seq<Edit>, i: nat, other: seq<Edit>)
    requires i + 1 < |edits| && other == Witness(t, edits, i) && Separate(other) && AllResolve(t, other)
    requires !AtMost(edits[i].end, edits[i + 1].start)
    ensures !Spoilt(Simultaneous(t, other))
  {
    var all := Arrange(other);
    ArrangeAscending(other);
    ArrangeMembers(other);
    SortedAscending(t, all);
    assert other[i] in all && other[i + 1] in all;
    var q :| 0 <= q < |all| && all[q] == other[i];
    var p :| 0 <= p < |all| && all[p] == other[i + 1];
    assert other[i].newText == "@" && '#' in other[i + 1].newText;
    assert p != q;
    PatchShows(t, all, 0, p, q);
  }

  /** Everything after the pair replaces a text by itself, and so does everything before it. */
  lemma WitnessOthers(t: string, edits: seq<Edit>, i: nat)
    requires i + 1 < |edits| && Unmarked(t)
    ensures var other := Witness(t, edits, i);
            && (forall x :: x in other[i + 2..] ==> x in other && x.newText == Own(t, x))
            && (forall x :: x in other[..i] ==> Unmarked(x.newText))
  {
    var other := Witness(t, edits, i);
    forall k | 0 <= k < |edits| && k != i && k != i + 1
      ensures other[k].newText == Own(t, other[k]) && Unmarked(other[k].newText)
    {
      assert Own(t, other[k]) == Own(t, edits[k]);
    }
  }

  lemma SplitPair<T>(s: seq<T>, i: nat)
    requires i + 1 < |s|
    ensures s == s[..i] + ([s[i]] + ([s[i + 1]] + s[i + 2..]))
  {
  }

  /** What the program makes of it. */
  lemma WitnessSpoilt(t: string, edits: seq<Edit>, i: nat, other: seq<Edit>)
    requires i + 1 < |edits| && other == Witness(t, edits, i) && Separate(other) && AllResolve(t, other) && Unmarked(t)
    ensures var r := ApplyLastFirst(t, other); r.Some? ==> Spoilt(r.value)
  {
    var before, e, f, after := other[..i], other[i], other[i + 1], other[i + 2..];
    WitnessOthers(t, edits, i);
    SplitPair(other, i);
    assert f in other;
    PairSpoilt(t, e, f, after);
    BeforePair(t, before, [e] + ([f] + after));
  }

  lemma BeforePair(t: string, before: seq<Edit>, pair: seq<Edit>)
    requires forall x :: x in before ==> Unmarked(x.newText)
    requires var v := ApplyLastFirst(t, pair); v.Some? ==> Spoilt(v.value)
    ensures var r := ApplyLastFirst(t, before + pair); r.Some? ==> Spoilt(r.value)
  {
    ApplySplit(t, before, pair);
    var v := ApplyLastFirst(t, pair);
    if v.Some? {
      SpoiltStays(v.value, before);
    }
  }

  lemma PairSpoilt(t: string, e: Edit, f: Edit, after: seq<Edit>)
    requires Unmarked(t) && Resolves(t, f) && AtMost(f.start, f.end)
    requires e.newText == "@" && f.newText == Newlines(e.start.line + 1) + "#"
    requires AllResolve(t, after) && forall x :: x in after ==> AtMost(x.start, x.end) && x.newText == Own(t, x)
    ensures var r := ApplyLastFirst(t, [e] + ([f] + after)); r.Some? ==> Spoilt(r.value)
  {
    OwnStays(t, after);
    OneLanding(t, f);
    ApplyLast(t, e, f, after);
    LandsEarly(t[..From(t, f)], e.start.line + 1, t[To(t, f)..], e);
  }

  lemma ApplyLast(t: string, e: Edit, f: Edit, after: seq<Edit>)
    ensures ApplyLastFirst(t, [f] + after) ==
            var v := ApplyLastFirst(t, after);
            if v.None? then None else ApplyOne(v.value, f)
    ensures ApplyLastFirst(t, [e] + ([f] + after)) ==
            var v := ApplyLastFirst(t, [f] + after); if v.None? then None else ApplyOne(v.value, e)
  {
    assert ([f] + after)[1..] == after && ([e] + ([f] + after))[1..] == [f] + after;
  }

  /** When the list is not ascending, every text without the two marks can be given replacements that
      come out wrong. */
  lemma UnsafeOnEveryText(t: string, edits: seq<Edit>)
    requires Separate(edits) && !Ascending(edits) && AllResolve(t, edits) && Unmarked(t)
    ensures exists other :: SameRanges(edits, other) && Separate(other) && AllResolve(t, other) &&
                            ApplyLastFirst(t, other) != Some(Simultaneous(t, other))
  {
    if forall i :: 0 <= i < |edits| - 1 ==> AtMost(edits[i].end, edits[i + 1].start) {
      AscendingByNeighbours(edits);
    }
    var i :| 0 <= i < |edits| - 1 && !AtMost(edits[i].end, edits[i + 1].start);
    var other := Witness(t, edits, i);
    WitnessValid(t, edits, i);
    WitnessInOrder(t, edits, i, other);
    WitnessSpoilt(t, edits, i, other);
  }

  function MoreLines(edits: seq<Edit>): (n: nat)
    ensures n > 0 && forall e :: e in edits ==> e.start.line < n && e.end.line < n
  {
    if edits == [] then 1
    else
      var n, e := MoreLines(edits[1..]), edits[0];
      assert edits == [e] + edits[1..];
      n + e.start.line + e.end.line + 1
  }

  /** For ranges that do not overlap: the listed order is safe for every text and all replacements
      exactly when it is ascending. */
  lemma SafeExactlyAscending(edits: seq<Edit>)
    requires Separate(edits)
    ensures SafeOrder(edits) <==> Ascending(edits)
  {
    if Ascending(edits) {
      forall t: string, other: seq<Edit> | SameRanges(edits, other) && Separate(other) && AllResolve(t, other)
        ensures ApplyLastFirst(t, other) == Some(Simultaneous(t, other))
      {
        AscendingIsSimultaneous(t, other);
      }
    } else {
      var n := MoreLines(edits);
      var t := Newlines(n);
      assert t == "" + t;
      EndAfterNewlines("", n);
      forall e | e in edits ensures Resolves(t, e) {
        PlaceDomain(t, e.start);
        PlaceDomain(t, e.end);
      }
      UnsafeOnEveryText(t, edits);
    }
  }

  // ----- Edits that are safe in any order -----

  /** A position inside the text, not past the end of its line. */
  predicate Exact(t: string, p: Position) {
    Place(t, p).Some? && EndOf(t[..Place(t, p).value]) == p
  }

  /** For positions on the given line the two texts end alike; else they end on the same line. */
  predicate Tracks(a: string, b: string, line: nat) {
    EndOf(a).line == EndOf(b).line && (EndOf(b).line == line ==> EndOf(a) == EndOf(b))
  }

  /** The replacement leaves the places of a later line where they were: it keeps the number of lines,
      and on its last line, if that is the one in question, the number of characters. */
  predicate KeepsPlaces(t: string, e: Edit, line: nat)
    requires Resolves(t, e)
  {
    Tracks(t[..From(t, e)] + e.newText, t[..To(t, e)], line)
  }

  /** Whenever an edit is listed before one that lies before it in the text, that one keeps its places. */
  predicate Calm(t: string, edits: seq<Edit>)
    requires AllResolve(t, edits)
  {
    forall i, j :: 0 <= i < j < |edits| && !AtMost(edits[i].end, edits[j].start) ==>
      CalmPair(t, edits[i], edits[j])
  }

  predicate CalmPair(t: string, e: Edit, before: Edit)
    requires Resolves(t, before)
  {
    Exact(t, e.start) && Exact(t, e.end) && KeepsPlaces(t, before, e.start.line)
  }

  lemma {:induction false} TracksMore(a: string, b: string, line: nat, x: string)
    requires Tracks(a, b, line)
    ensures Tracks(a + x, b + x, line)
    ensures EndOf(a) == EndOf(b) ==> EndOf(a + x) == EndOf(b + x)
  {
    if x == "" {
      assert a + x == a && b + x == b;
    } else {
      var n := |x| - 1;
      assert (a + x)[..|a + x| - 1] == a + x[..n] && (b + x)[..|b + x| - 1] == b + x[..n];
      TracksMore(a, b, line, x[..n]);
    }
  }

  /** What the program holds when it comes to an edit: the text up to `at` already patched as `a`. */
  ghost predicate Shifted(t: string, a: string, at: nat, e: Edit)
    requires at <= |t|
  {
    a == t[..at] || (Exact(t, e.start) && Exact(t, e.end) && Tracks(a, t[..at], e.start.line))
  }

  lemma StopsShifted(t: string, a: string, at: nat, k: nat, p: Position)
    requires at <= k <= |t| && Stops(t[..k], p)
    requires a == t[..at] || EndOf(a + t[at..k]) == p
    ensures Stops(a + t[at..k], p)
  {
    assert a == t[..at] ==> a + t[at..k] == t[..k];
  }

  lemma ExactShifted(t: string, a: string, at: nat, e: Edit)
    requires Resolves(t, e) && at <= From(t, e) <= To(t, e)
    requires Exact(t, e.start) && Exact(t, e.end) && Tracks(a, t[..at], e.start.line)
    ensures EndOf(a + t[at..From(t, e)]) == e.start && EndOf(a + t[at..To(t, e)]) == e.end
  {
    var i, j := From(t, e), To(t, e);
    assert t[..i] == t[..at] + t[at..i] && t[..j] == t[..i] + t[i..j];
    TracksMore(a, t[..at], e.start.line, t[at..i]);
    TracksMore(a + t[at..i], t[..i], e.start.line, t[i..j]);
    Slices(t, at, i, j);
    Assoc(a, t[at..i], t[i..j]);
  }

  lemma Around(a: string, x: string, y: string, tail: string)
    ensures var u := a + (x + y) + tail;
            && u[..|a + x|] == a + x && u[..|a + (x + y)|] == a + (x + y) && u[|a + (x + y)|..] == tail
  {
  }

  lemma PlacedAt(s: string, tail: string, p: Position)
    requires Stops(s, p)
    ensures Place(s + tail, p) == Some(|s|)
  {
    assert (s + tail)[..|s|] == s;
    PlaceExact(s + tail, p, |s|);
  }

  lemma Regroup(a: string, x: string, y: string, tail: string)
    ensures a + x + (y + tail) == a + (x + y) + tail
  {
  }

  lemma LandsBetween(a: string, x: string, y: string, tail: string, e: Edit)
    requires Stops(a + x, e.start) && Stops(a + (x + y), e.end)
    ensures ApplyOne(a + (x + y) + tail, e) == Some(a + x + e.newText + tail)
  {
    PlacedAt(a + (x + y), tail, e.end);
    PlacedAt(a + x, y + tail, e.start);
    Regroup(a, x, y, tail);
    Around(a, x, y, tail);
    ReplacePlaced(a + (x + y) + tail, e, |a + x|, |a + (x + y)|);
  }

  lemma StopsMove(t: string, a: string, at: nat, e: Edit)
    requires Resolves(t, e) && at <= From(t, e) <= To(t, e) && Shifted(t, a, at, e)
    ensures Stops(a + t[at..From(t, e)], e.start) && Stops(a + t[at..To(t, e)], e.end)
  {
    if a != t[..at] {
      ExactShifted(t, a, at, e);
    }
    StopsShifted(t, a, at, From(t, e), e.start);
    StopsShifted(t, a, at, To(t, e), e.end);
  }

  lemma LandsShifted(t: string, a: string, at: nat, e: Edit, tail: string)
    requires Resolves(t, e) && AtMost(e.start, e.end) && at <= From(t, e) <= To(t, e) && Shifted(t, a, at, e)
    ensures ApplyOne(a + t[at..To(t, e)] + tail, e) == Some(a + (t[at..From(t, e)] + e.newText + tail))
  {
    var i, j := From(t, e), To(t, e);
    StopsMove(t, a, at, e);
    Slices(t, at, i, j);
    LandsBetween(a, t[at..i], t[i..j], tail, e);
    Assoc4(a, t[at..i], e.newText, tail);
  }

  lemma ReplacePlaced(u: string, e: Edit, i: nat, j: nat)
    requires i <= j <= |u| && Place(u, e.start) == Some(i) && Place(u, e.end) == Some(j)
    ensures ApplyOne(u, e) == Some(u[..i] + e.newText + u[j..])
  {
    ReplaceRangeAt(u, i, j, e.newText);
  }

  lemma FileLying(t: string, e: Edit, rest: seq<Edit>, at: nat)
    requires Lying(t, rest, at) && Ascending(rest) && Resolves(t, e) && AtMost(e.start, e.end) && at <= From(t, e)
    requires forall x :: x in rest ==> Apart(e, x)
    ensures Lying(t, File(e, rest), at)
  {
    FileAscending(e, rest);
    FileMembers(e, rest);
    SortedAscending(t, File(e, rest));
  }

  /** The edit lands where it belongs among the later ones, whether they lie before it or after it. */
  lemma {:induction false} FileStep(t: string, a: string, at: nat, e: Edit, rest: seq<Edit>)
    requires Lying(t, rest, at) && Ascending(rest) && Resolves(t, e) && AtMost(e.start, e.end) && at <= From(t, e)
    requires Shifted(t, a, at, e) && forall x :: x in rest ==> Apart(e, x)
    requires forall x :: x in rest && !AtMost(e.end, x.start) ==> CalmPair(t, e, x)
    ensures Lying(t, File(e, rest), at)
    ensures ApplyOne(a + Patch(t, rest, at), e) == Some(a + Patch(t, File(e, rest), at))
    decreases |rest|
  {
    FileLying(t, e, rest, at);
    PlaceMonotone(t, e.start, e.end);
    if rest == [] || AtMost(e.end, rest[0].start) {
      FirstStep(t, a, at, e, rest);
    } else {
      var x := rest[0];
      assert x in rest && Apart(e, x);
      LyingTail(t, rest, at);
      AscendingTail(rest);
      PlaceMonotone(t, x.end, e.start);
      var lead := t[at..From(t, x)] + x.newText;
      ShiftedOver(t, a, at, e, x);
      FileStep(t, a + lead, To(t, x), e, rest[1..]);
      LyingTail(t, File(e, rest), at);
      assert File(e, rest)[1..] == File(e, rest[1..]);
      Assoc(a, lead, Patch(t, rest[1..], To(t, x)));
      Assoc(a, lead, Patch(t, File(e, rest[1..]), To(t, x)));
    }
  }

  lemma FirstStep(t: string, a: string, at: nat, e: Edit, rest: seq<Edit>)
    requires Lying(t, rest, at) && Lying(t, [e] + rest, at) && Resolves(t, e) && AtMost(e.start, e.end)
    requires Shifted(t, a, at, e) && (rest != [] ==> AtMost(e.end, rest[0].start))
    ensures ApplyOne(a + Patch(t, rest, at), e) == Some(a + Patch(t, [e] + rest, at))
  {
    var j := To(t, e);
    LyingTail(t, [e] + rest, at);
    assert ([e] + rest)[1..] == rest;
    PatchFrom(t, rest, at, j);
    Assoc(a, t[at..j], Patch(t, rest, j));
    LandsShifted(t, a, at, e, Patch(t, rest, j));
  }

  lemma ShiftedOver(t: string, a: string, at: nat, e: Edit, x: Edit)
    requires Resolves(t, x) && at <= From(t, x) <= To(t, x) && Shifted(t, a, at, e) && CalmPair(t, e, x)
    ensures Shifted(t, a + (t[at..From(t, x)] + x.newText), To(t, x), e)
  {
    var line, i := e.start.line, From(t, x);
    TracksMore(a, t[..at], line, t[at..i]);
    assert t[..at] + t[at..i] == t[..i];
    TracksMore(a + t[at..i], t[..i], line, x.newText);
    Assoc(a, t[at..i], x.newText);
  }

  /** In a calm list, in whatever order, applying the edits from the last to the first gives what the
      protocol asks for. Ascending lists are calm; so are replacements that keep lines and characters. */
  lemma {:induction false} CalmIsSimultaneous(t: string, edits: seq<Edit>)
    requires Separate(edits) && AllResolve(t, edits) && Calm(t, edits)
    ensures ApplyLastFirst(t, edits) == Some(Simultaneous(t, edits))
    decreases |edits|
  {
    if edits == [] {
      assert t[0..] == t;
    } else {
      var e, rest := edits[0], edits[1..];
      CalmTail(t, edits);
      SeparateTail(edits);
      CalmIsSimultaneous(t, rest);
      ArrangeAscending(rest);
      ArrangeMembers(rest);
      SortedAscending(t, Arrange(rest));
      FileStep(t, "", 0, e, Arrange(rest));
      assert "" + Patch(t, Arrange(rest), 0) == Patch(t, Arrange(rest), 0);
      assert "" + Patch(t, Arrange(edits), 0) == Patch(t, Arrange(edits), 0);
    }
  }

  lemma CalmTail(t: string, edits: seq<Edit>)
    requires AllResolve(t, edits) && Calm(t, edits) && edits != []
    ensures AllResolve(t, edits[1..]) && Calm(t, edits[1..]) && Resolves(t, edits[0])
    ensures forall x :: x in edits[1..] && !AtMost(edits[0].end, x.start) ==> CalmPair(t, edits[0], x)
  {
    var rest := edits[1..];
    assert edits[0] in edits && forall i :: 0 <= i < |rest| ==> rest[i] == edits[i + 1];
  }

  lemma AscendingIsCalm(t: string, edits: seq<Edit>)
    requires AllResolve(t, edits) && Ascending(edits)
    ensures Calm(t, edits)
  {
  }
}
