/** Applying the edits of a language server to a file: line/character positions are resolved by
    scanning, and edits are applied in place from the last to the first. */
module LspEdits {
  import opened Sequences
  import opened Text

  datatype Position = Position(line: nat, character: nat)

  datatype Edit = Edit(start: Position, end: Position, newText: string)

  predicate Before(p: Position, q: Position) {
    p.line < q.line || (p.line == q.line && p.character < q.character)
  }

  predicate AtMost(p: Position, q: Position) { p == q || Before(p, q) }

  // ----- Positions -----

  /** Where the end of `s` lies: newlines so far, and scalars since the last one. */
  function EndOf(s: string): Position {
    if s == [] then Position(0, 0)
    else
      var p := EndOf(s[..|s| - 1]);
      if s[|s| - 1] == '\n' then Position(p.line + 1, 0) else Position(p.line, p.character + 1)
  }

  lemma LastCounts(s: string)
    requires s != ""
    ensures multiset(s)['\n'] == multiset(s[..|s| - 1])['\n'] + (if s[|s| - 1] == '\n' then 1 else 0)
  {
    assert s == s[..|s| - 1] + [s[|s| - 1]];
  }

  /** The line is the number of newlines, the character the distance from the last one. */
  lemma {:induction false} EndOfCounts(s: string)
    ensures EndOf(s).line == multiset(s)['\n'] && EndOf(s).character <= |s|
    ensures var k := |s| - EndOf(s).character; '\n' !in s[k..] && (k > 0 ==> s[k - 1] == '\n')
  {
    if s != "" {
      var n := |s| - 1;
      EndOfCounts(s[..n]);
      LastCounts(s);
      var k := |s| - EndOf(s).character;
      assert s[n] != '\n' ==> s[k..] == s[..n][k..] + [s[n]];
    }
  }

  /** The text `s` stops where `p` points: it ends exactly there, or it ends with the newline that
      closes line `p.line` before character `p.character` is reached. */
  predicate Stops(s: string, p: Position) {
    || EndOf(s) == p
    || (s != [] && s[|s| - 1] == '\n' &&
        EndOf(s[..|s| - 1]).line == p.line && EndOf(s[..|s| - 1]).character < p.character)
  }

  /** The number of scalars of `t` before `p`, if `p` resolves. */
  function Place(t: string, p: Position): (r: Option<nat>)
    ensures r.Some? ==> r.value <= |t| && Stops(t[..r.value], p)
  {
    assert t[..|t|] == t;
    if t == [] then if Stops(t, p) then Some(0) else None
    else
      var shorter := t[..|t| - 1];
      var r := Place(shorter, p);
      assert r.Some? ==> shorter[..r.value] == t[..r.value];
      if r.Some? then r else if Stops(t, p) then Some(|t|) else None
  }

  lemma {:induction false} EndsIncrease(t: string, i: nat, j: nat)
    requires i <= j <= |t|
    ensures if i < j then Before(EndOf(t[..i]), EndOf(t[..j])) else EndOf(t[..i]) == EndOf(t[..j])
    decreases j
  {
    if i < j {
      EndsIncrease(t, i, j - 1);
      assert t[..j][..j - 1] == t[..j - 1];
    }
  }

  lemma StopsCases(t: string, k: nat, p: Position)
    requires k <= |t| && Stops(t[..k], p)
    ensures EndOf(t[..k]) == p ||
            (k > 0 && EndOf(t[..k - 1]).line == p.line && EndOf(t[..k - 1]).character < p.character &&
             EndOf(t[..k]) == Position(p.line + 1, 0))
  {
    if k > 0 {
      assert t[..k][..k - 1] == t[..k - 1];
    }
  }

  /** Later positions stop later. */
  lemma StopsMonotone(t: string, p: Position, i: nat, q: Position, j: nat)
    requires i <= |t| && Stops(t[..i], p) && j <= |t| && Stops(t[..j], q)
    requires AtMost(p, q)
    ensures i <= j
  {
    StopsCases(t, i, p);
    StopsCases(t, j, q);
    if j < i {
      EndsIncrease(t, j, i);
      EndsIncrease(t, j, i - 1);
    }
  }

  lemma {:induction false} PlaceExact(t: string, p: Position, k: nat)
    requires k <= |t|
    ensures Place(t, p) == Some(k) <==> Stops(t[..k], p)
  {
    if Stops(t[..k], p) {
      PlaceFinds(t, p, k);
      StopsMonotone(t, p, k, p, Place(t, p).value);
      StopsMonotone(t, p, Place(t, p).value, p, k);
    }
  }

  lemma {:induction false} PlaceFinds(t: string, p: Position, k: nat)
    requires k <= |t| && Stops(t[..k], p)
    ensures Place(t, p).Some?
  {
    if k == |t| {
      assert t[..k] == t;
    } else {
      assert t[..|t| - 1][..k] == t[..k];
      PlaceFinds(t[..|t| - 1], p, k);
    }
  }

  /** Resolution depends only on the text before the resolved place. */
  lemma PlacePrefix(t: string, u: string, p: Position)
    requires Place(t, p).Some?
    requires var k := Place(t, p).value; k <= |u| && u[..k] == t[..k]
    ensures Place(u, p) == Place(t, p)
  {
    PlaceExact(u, p, Place(t, p).value);
  }

  /** A position resolves exactly when its line is closed by a newline, or is the last line and
      reaches that far. */
  lemma {:induction false} PlaceDomain(t: string, p: Position)
    ensures Place(t, p).Some? <==>
              p.line < EndOf(t).line || (p.line == EndOf(t).line && p.character <= EndOf(t).character)
  {
    if t != [] {
      PlaceDomain(t[..|t| - 1], p);
    }
  }

  /** What resolves is closed downwards, and resolution is monotone. */
  lemma PlaceMonotone(t: string, p: Position, q: Position)
    requires AtMost(p, q) && Place(t, q).Some?
    ensures Place(t, p).Some? && Place(t, p).value <= Place(t, q).value
  {
    PlaceDomain(t, p);
    PlaceDomain(t, q);
    StopsMonotone(t, p, Place(t, p).value, q, Place(t, q).value);
  }

  function Offset(t: string, p: Position): Option<nat> {
    var k := Place(t, p);
    if k.Some? then Some(ByteLen(t[..k.value])) else None
  }

  /** The scan of the program, with its three counters. The fallback after the loop is dead. */
  method ByteOffset(text: string, line: nat, character: nat) returns (r: Option<nat>)
    ensures r == Offset(text, Position(line, character))
  {
    ghost var p := Position(line, character);
    var currentLine, bytePos, charInLine := 0, 0, 0;
    for i := 0 to |text|
      invariant bytePos == ByteLen(text[..i])
      invariant currentLine == EndOf(text[..i]).line <= line
      invariant charInLine == if currentLine == line then EndOf(text[..i]).character else 0
      invariant charInLine <= character
      invariant Stops(text[..i], p) <==> EndOf(text[..i]) == p
      invariant forall k :: 0 <= k < i ==> !Stops(text[..k], p)
    {
      if currentLine == line && charInLine == character {
        PlaceExact(text, p, i);
        return Some(bytePos);
      }
      var ch := text[i];
      assert text[..i + 1][..i] == text[..i];
      if ch == '\n' {
        if currentLine == line && character > charInLine {
          PlaceExact(text, p, i + 1);
          return Some(bytePos + Utf8Len(ch));
        }
        currentLine := currentLine + 1;
        charInLine := 0;
      } else if currentLine == line {
        charInLine := charInLine + 1;
      }
      bytePos := bytePos + Utf8Len(ch);
    }
    assert text[..|text|] == text;
    if currentLine == line && charInLine >= character {
      PlaceExact(text, p, |text|);
      return Some(bytePos);
    }
    if currentLine > 0 && currentLine - 1 == line {
      assert false;
    }
    return None;
  }

  // ----- Applying edits -----

  /** Every edit applied to the original text at once, from scalar `at` on. */
  function Patch(t: string, edits: seq<Edit>, at: nat): string
    requires at <= |t|
    requires forall i :: 0 <= i < |edits| ==> Resolves(t, edits[i])
    requires Sorted(t, edits) && (edits != [] ==> at <= From(t, edits[0]))
    decreases |edits|
  {
    if edits == [] then t[at..]
    else t[at..From(t, edits[0])] + edits[0].newText + Patch(t, edits[1..], To(t, edits[0]))
  }

  predicate Resolves(t: string, e: Edit) { Place(t, e.start).Some? && Place(t, e.end).Some? }

  function From(t: string, e: Edit): (k: nat)
    requires Resolves(t, e)
    ensures k <= |t|
  {
    Place(t, e.start).value
  }

  function To(t: string, e: Edit): (k: nat)
    requires Resolves(t, e)
    ensures k <= |t|
  {
    Place(t, e.end).value
  }

  /** Resolved ranges do not run backwards or overlap. */
  predicate Sorted(t: string, edits: seq<Edit>)
    requires forall i :: 0 <= i < |edits| ==> Resolves(t, edits[i])
  {
    && (forall i :: 0 <= i < |edits| ==> From(t, edits[i]) <= To(t, edits[i]))
    && (forall i, j :: 0 <= i < j < |edits| ==> To(t, edits[i]) <= From(t, edits[j]))
  }

  /** The order the program relies on, as a property of the positions alone. Two inserts at one
      position are allowed. */
  predicate Ascending(edits: seq<Edit>) {
    && (forall i :: 0 <= i < |edits| ==> AtMost(edits[i].start, edits[i].end))
    && (forall i, j :: 0 <= i < j < |edits| ==> AtMost(edits[i].end, edits[j].start))
  }

  /** One edit with offsets computed on the current text; an edit that does not resolve is skipped.
      `None` is the panic of a reversed range. */
  function ApplyOne(t: string, e: Edit): Option<string> {
    var from, to := Offset(t, e.start), Offset(t, e.end);
    if from.Some? && to.Some? then ReplaceRange(t, from.value, to.value, e.newText) else Some(t)
  }

  function ApplyLastFirst(t: string, edits: seq<Edit>): Option<string> {
    if edits == [] then Some(t)
    else
      var later := ApplyLastFirst(t, edits[1..]);
      if later.None? then None else ApplyOne(later.value, edits[0])
  }

  function Resolved(t: string, edits: seq<Edit>): (kept: seq<Edit>)
    ensures forall i :: 0 <= i < |kept| ==> kept[i] in edits && Resolves(t, kept[i])
  {
    if edits == [] then []
    else (if Resolves(t, edits[0]) then [edits[0]] else []) + Resolved(t, edits[1..])
  }

  /** Exactly the edits that resolve are kept, as often as they are listed. */
  lemma {:induction false} ResolvedExactly(t: string, edits: seq<Edit>, e: Edit)
    ensures multiset(Resolved(t, edits))[e] == if Resolves(t, e) then multiset(edits)[e] else 0
  {
    if edits != [] {
      ResolvedExactly(t, edits[1..], e);
      FrontCounts(edits[0], edits[1..], e);
      assert edits == [edits[0]] + edits[1..];
      if Resolves(t, edits[0]) {
        FrontCounts(edits[0], Resolved(t, edits[1..]), e);
      } else {
        assert Resolved(t, edits) == Resolved(t, edits[1..]);
      }
    }
  }

  lemma FrontCounts(first: Edit, rest: seq<Edit>, e: Edit)
    ensures multiset([first] + rest)[e] == (if e == first then 1 else 0) + multiset(rest)[e]
  {
  }

  lemma AscendingTail(edits: seq<Edit>)
    requires Ascending(edits) && edits != []
    ensures Ascending(edits[1..])
    ensures forall e :: e in edits[1..] ==> AtMost(edits[0].end, e.start) && AtMost(e.start, e.end)
  {
    var rest := edits[1..];
    assert forall i :: 0 <= i < |rest| ==> rest[i] == edits[i + 1];
  }

  lemma SortedCons(t: string, e: Edit, kept: seq<Edit>)
    requires forall i :: 0 <= i < |kept| ==> Resolves(t, kept[i])
    requires Sorted(t, kept) && Resolves(t, e) && From(t, e) <= To(t, e)
    requires forall i :: 0 <= i < |kept| ==> To(t, e) <= From(t, kept[i])
    ensures Sorted(t, [e] + kept)
  {
    var all := [e] + kept;
    assert all[0] == e && forall i :: 1 <= i < |all| ==> all[i] == kept[i - 1];
    forall i, j | 0 <= i < j < |all| ensures To(t, all[i]) <= From(t, all[j]) {
      assert all[j] == kept[j - 1];
    }
  }

  lemma EarlierResolves(t: string, e: Edit, later: Edit)
    requires AtMost(e.start, e.end) && AtMost(e.end, later.start) && Resolves(t, later)
    ensures Resolves(t, e) && From(t, e) <= To(t, e) <= From(t, later)
  {
    PlaceMonotone(t, e.end, later.start);
    PlaceMonotone(t, e.start, e.end);
  }

  /** In an ascending list the edits that resolve come first, sorted in the text. */
  lemma {:induction false} ResolvedSorted(t: string, edits: seq<Edit>)
    requires Ascending(edits)
    ensures Sorted(t, Resolved(t, edits))
    ensures edits != [] && !Resolves(t, edits[0]) ==> Resolved(t, edits) == []
  {
    if edits != [] {
      var e, kept := edits[0], Resolved(t, edits[1..]);
      AscendingTail(edits);
      ResolvedSorted(t, edits[1..]);
      forall i | 0 <= i < |kept| ensures Resolves(t, e) && To(t, e) <= From(t, kept[i]) {
        EarlierResolves(t, e, kept[i]);
      }
      assert kept != [] ==> Resolves(t, kept[0]) && Resolves(t, e);
      if Resolves(t, e) {
        PlaceMonotone(t, e.start, e.end);
        SortedCons(t, e, kept);
      }
    }
  }

  lemma PatchFrom(t: string, edits: seq<Edit>, at: nat, to: nat)
    requires forall i :: 0 <= i < |edits| ==> Resolves(t, edits[i])
    requires Sorted(t, edits) && at <= to <= |t| && (edits != [] ==> to <= From(t, edits[0]))
    ensures Patch(t, edits, at) == t[at..to] + Patch(t, edits, to)
  {
    if edits == [] {
      Slices(t, at, to, |t|);
    } else {
      var f := From(t, edits[0]);
      var first, rest := edits[0].newText, Patch(t, edits[1..], To(t, edits[0]));
      calc {
        Patch(t, edits, at);
        t[at..f] + first + rest;
        { Slices(t, at, to, f); }
        t[at..to] + t[to..f] + first + rest;
        { Assoc4(t[at..to], t[to..f], first, rest); }
        t[at..to] + (t[to..f] + first + rest);
      }
    }
  }

  lemma OffsetsAgree(t: string, u: string, p: Position, q: Position)
    requires AtMost(p, q) && Place(t, p).Some? && Place(t, q).Some?
    requires var k := Place(t, q).value; k <= |u| && u[..k] == t[..k]
    ensures Place(u, p) == Place(t, p) && Place(u, q) == Place(t, q)
  {
    PlaceMonotone(t, p, q);
    var j, k := Place(t, p).value, Place(t, q).value;
    assert u[..j] == u[..k][..j] == t[..k][..j] == t[..j];
    PlacePrefix(t, u, p);
    PlacePrefix(t, u, q);
  }

  lemma PatchCons(t: string, e: Edit, kept: seq<Edit>)
    requires forall i :: 0 <= i < |kept| ==> Resolves(t, kept[i])
    requires Resolves(t, e) && Sorted(t, [e] + kept)
    ensures Sorted(t, kept) && (kept != [] ==> To(t, e) <= From(t, kept[0])) && From(t, e) <= To(t, e)
    ensures Patch(t, [e] + kept, 0) == t[..From(t, e)] + e.newText + Patch(t, kept, To(t, e))
  {
    var all := [e] + kept;
    assert all[0] == e && forall i :: 0 <= i < |kept| ==> all[i + 1] == kept[i];
    assert all[1..] == kept && t[0..From(t, e)] == t[..From(t, e)];
  }

  /** One step of the reverse loop: the text after `e` is already patched, the text up to the end
      of `e` is still the original, so `e` lands where it would have landed originally. */
  lemma PatchStep(t: string, e: Edit, kept: seq<Edit>)
    requires forall i :: 0 <= i < |kept| ==> Resolves(t, kept[i])
    requires Resolves(t, e) && AtMost(e.start, e.end) && Sorted(t, [e] + kept)
    ensures Sorted(t, kept) && ApplyOne(Patch(t, kept, 0), e) == Some(Patch(t, [e] + kept, 0))
  {
    PatchCons(t, e, kept);
    var i, j := From(t, e), To(t, e);
    PatchFrom(t, kept, 0, j);
    Landing(t, Patch(t, kept, 0), e, Patch(t, kept, j));
  }

  lemma Landing(t: string, u: string, e: Edit, tail: string)
    requires Resolves(t, e) && AtMost(e.start, e.end) && u == t[0..To(t, e)] + tail
    ensures ApplyOne(u, e) == Some(t[..From(t, e)] + e.newText + tail)
  {
    var i, j := From(t, e), To(t, e);
    PlaceMonotone(t, e.start, e.end);
    assert u[..j] == t[..j] && u[j..] == tail;
    OffsetsAgree(t, u, e.start, e.end);
    ReplaceRangeAt(u, i, j, e.newText);
    assert u[..i] == u[..j][..i] == t[..i];
  }

  /** Applying ascending edits last to first, with offsets recomputed on the partly edited text,
      never panics and equals applying all that resolve on the original text at once. */
  lemma {:induction false} LastFirstIsSimultaneous(t: string, edits: seq<Edit>)
    requires Ascending(edits)
    ensures Sorted(t, Resolved(t, edits))
    ensures ApplyLastFirst(t, edits) == Some(Patch(t, Resolved(t, edits), 0))
  {
    ResolvedSorted(t, edits);
    if edits != [] {
      var e := edits[0];
      AscendingTail(edits);
      LastFirstIsSimultaneous(t, edits[1..]);
      if Resolves(t, e) {
        PatchStep(t, e, Resolved(t, edits[1..]));
      } else {
        assert Resolved(t, edits[1..]) == Resolved(t, edits) == [];
        assert t[0..] == t;
      }
    }
  }

  /** The formatting tool: edits in reverse, skipping those that do not resolve. */
  method FormatCode(content: string, edits: seq<Edit>) returns (r: Option<string>)
    ensures r == ApplyLastFirst(content, edits)
    ensures Ascending(edits) ==> Sorted(content, Resolved(content, edits)) &&
                                 r == Some(Patch(content, Resolved(content, edits), 0))
  {
    var text := content;
    for n := |edits| downto 0
      invariant ApplyLastFirst(content, edits[n..]) == Some(text)
    {
      var edit := edits[n];
      assert edits[n..] == [edit] + edits[n + 1..];
      var start := ByteOffset(text, edit.start.line, edit.start.character);
      var end := ByteOffset(text, edit.end.line, edit.end.character);
      if start.Some? && end.Some? {
        var next := ReplaceRange(text, start.value, end.value, edit.newText);
        if next.None? {
          PanicStays(content, edits, n);
          if Ascending(edits) {
            LastFirstIsSimultaneous(content, edits);
          }
          return None;
        }
        text := next.value;
      }
    }
    if Ascending(edits) {
      LastFirstIsSimultaneous(content, edits);
    }
    return Some(text);
  }

  lemma {:induction false} PanicStays(t: string, edits: seq<Edit>, n: nat)
    requires n <= |edits| && ApplyLastFirst(t, edits[n..]).None?
    ensures ApplyLastFirst(t, edits).None?
    decreases n
  {
    if n > 0 {
      assert edits[n - 1..][1..] == edits[n..];
      PanicStays(t, edits, n - 1);
    }
  }

  /** In the reverse loop over ascending edits, an edit resolves on the partly edited text exactly
      when it resolves on the original. */
  lemma ResolvesLate(t: string, e: Edit, later: seq<Edit>)
    requires Ascending([e] + later)
    ensures var u := ApplyLastFirst(t, later);
            u.Some? && ((Offset(u.value, e.start).Some? && Offset(u.value, e.end).Some?) <==> Resolves(t, e))
  {
    var all := [e] + later;
    assert all[0] == e && all[1..] == later;
    AscendingTail(all);
    LastFirstIsSimultaneous(t, later);
    ResolvedSorted(t, all);
    var kept := Resolved(t, later);
    if Resolves(t, e) {
      assert Resolved(t, all) == [e] + kept;
      PatchCons(t, e, kept);
      PatchFrom(t, kept, 0, To(t, e));
      assert Patch(t, kept, 0)[..To(t, e)] == t[..To(t, e)];
      OffsetsAgree(t, Patch(t, kept, 0), e.start, e.end);
    } else {
      assert kept == [] && t[0..] == t;
    }
  }

  lemma {:induction false} ResolvedAll(t: string, edits: seq<Edit>)
    requires forall e :: e in edits ==> Resolves(t, e)
    ensures Resolved(t, edits) == edits
  {
    if edits != [] {
      ResolvedAll(t, edits[1..]);
    }
  }

  datatype AutoOutcome = Formatted(text: string) | Abandoned | Panicked

  /** Formatting after a write: the same loop, but the first edit met that does not resolve
      abandons everything and the file is not written. On ascending edits the file is written
      exactly when all of them resolve, with all of them applied at once. */
  method AutoFormat(content: string, edits: seq<Edit>) returns (r: AutoOutcome)
    ensures r.Formatted? ==> ApplyLastFirst(content, edits) == Some(r.text)
    ensures Ascending(edits) ==> !r.Panicked?
    ensures Ascending(edits) ==> (r.Formatted? <==> forall i :: 0 <= i < |edits| ==> Resolves(content, edits[i]))
    ensures Ascending(edits) && r.Formatted? ==> Sorted(content, edits) && r.text == Patch(content, edits, 0)
  {
    var text := content;
    for n := |edits| downto 0
      invariant ApplyLastFirst(content, edits[n..]) == Some(text)
      invariant Ascending(edits) ==> forall i :: n <= i < |edits| ==> Resolves(content, edits[i])
    {
      var edit := edits[n];
      assert edits[n..] == [edit] + edits[n + 1..];
      if Ascending(edits) {
        AscendingFrom(edits, n);
        ResolvesLate(content, edit, edits[n + 1..]);
        LastFirstIsSimultaneous(content, edits[n..]);
      }
      var start := ByteOffset(text, edit.start.line, edit.start.character);
      if start.None? {
        return Abandoned;
      }
      var end := ByteOffset(text, edit.end.line, edit.end.character);
      if end.None? {
        return Abandoned;
      }
      var next := ReplaceRange(text, start.value, end.value, edit.newText);
      if next.None? {
        return Panicked;
      }
      text := next.value;
    }
    if Ascending(edits) {
      ResolvedAll(content, edits);
      LastFirstIsSimultaneous(content, edits);
    }
    return Formatted(text);
  }

  lemma AscendingFrom(edits: seq<Edit>, n: nat)
    requires Ascending(edits) && n <= |edits|
    ensures Ascending(edits[n..])
  {
    var rest := edits[n..];
    assert forall i :: 0 <= i < |rest| ==> rest[i] == edits[n + i];
  }

  /** The listed order matters. Two inserts on one line, listed in text order, land each at its own
      place; listed the other way round, the later one lands inside the text of the earlier one. */
  lemma OutOfOrder(t: string, early: Edit, late: Edit)
    requires t != [] && OneLine(t[..1]) && early.newText != [] && OneLine(early.newText[..1])
    requires early.start == early.end == Position(0, 0) && late.start == late.end == Position(0, 1)
    ensures var x, y := late.newText, early.newText;
            && ApplyLastFirst(t, [early, late]) == Some(y + (t[..1] + x + t[1..]))
            && ApplyLastFirst(t, [late, early]) == Some(y[..1] + x + (y[1..] + t))
  {
    InOrder(t, early, late);
    Swapped(t, early, late);
  }

  lemma InOrder(t: string, early: Edit, late: Edit)
    requires t != [] && OneLine(t[..1])
    requires early.start == early.end == Position(0, 0) && late.start == late.end == Position(0, 1)
    ensures ApplyLastFirst(t, [early, late]) == Some(early.newText + (t[..1] + late.newText + t[1..]))
  {
    LastTwo(t, early, late);
    InsertAt(t, 1, late);
    InsertFirst(t[..1] + late.newText + t[1..], early);
  }

  lemma Swapped(t: string, early: Edit, late: Edit)
    requires early.newText != [] && OneLine(early.newText[..1])
    requires early.start == early.end == Position(0, 0) && late.start == late.end == Position(0, 1)
    ensures var y := early.newText;
            ApplyLastFirst(t, [late, early]) == Some(y[..1] + late.newText + (y[1..] + t))
  {
    var y := early.newText;
    LastTwo(t, late, early);
    InsertFirst(t, early);
    assert (y + t)[..1] == y[..1] && (y + t)[1..] == y[1..] + t;
    InsertAt(y + t, 1, late);
  }

  predicate OneLine(s: string) { forall i :: 0 <= i < |s| ==> s[i] != '\n' }

  lemma LastTwo(t: string, a: Edit, b: Edit)
    ensures ApplyLastFirst(t, [a, b]) ==
            var u := ApplyOne(t, b); if u.None? then None else ApplyOne(u.value, a)
  {
    var later, none: seq<Edit> := [a, b][1..], [b][1..];
    assert later == [b] && none == [];
    assert ApplyLastFirst(t, none) == Some(t);
    assert ApplyLastFirst(t, [b]) == ApplyOne(t, b);
    assert ApplyLastFirst(t, later) == ApplyOne(t, b);
  }

  lemma InsertFirst(t: string, e: Edit)
    requires e.start == e.end == Position(0, 0)
    ensures ApplyOne(t, e) == Some(e.newText + t)
  {
    InsertAt(t, 0, e);
    assert t[..0] + e.newText + t[0..] == e.newText + t;
  }

  /** An insertion on the first line. */
  lemma InsertAt(t: string, k: nat, e: Edit)
    requires k <= |t| && OneLine(t[..k])
    requires e.start == e.end == Position(0, k)
    ensures Resolves(t, e) && ApplyOne(t, e) == Some(t[..k] + e.newText + t[k..])
  {
    FirstLine(t[..k]);
    PlaceExact(t, e.start, k);
    ReplaceRangeAt(t, k, k, e.newText);
  }

  lemma {:induction false} FirstLine(s: string)
    requires OneLine(s)
    ensures EndOf(s) == Position(0, |s|)
  {
    if s != [] {
      FirstLine(s[..|s| - 1]);
    }
  }
}
