/** Text in which long pastes are stored as markers, and the expansion of markers by successive
    string replacement. */
module PasteMarkers {
  import opened Sequences
  import opened Text

  datatype PasteBlock = PasteBlock(id: nat, content: string, lines: nat, chars: nat)

  const OPEN: char := '⟦'
  const CLOSE: char := '⟧'

  function Inner(id: nat, lines: nat, chars: nat): string {
    "paste:" + (Decimal(id) + ":" + (Decimal(lines) + ":" + Decimal(chars)))
  }

  function PasteMarker(id: nat, lines: nat, chars: nat): string {
    [OPEN] + Inner(id, lines, chars) + [CLOSE]
  }

  function Marker(b: PasteBlock): string { PasteMarker(b.id, b.lines, b.chars) }

  lemma DecimalChars(n: nat)
    ensures OPEN !in Decimal(n) && CLOSE !in Decimal(n) && ':' !in Decimal(n)
  {
    DecimalPlain(n, OPEN);
    DecimalPlain(n, CLOSE);
    DecimalPlain(n, ':');
  }

  lemma InnerChars(id: nat, lines: nat, chars: nat)
    ensures OPEN !in Inner(id, lines, chars) && CLOSE !in Inner(id, lines, chars)
  {
    DecimalChars(id);
    DecimalChars(lines);
    DecimalChars(chars);
  }

  /** A marker tells the three numbers it was made from. */
  lemma MarkerInjective(a: PasteBlock, b: PasteBlock)
    requires Marker(a) == Marker(b)
    ensures a.id == b.id && a.lines == b.lines && a.chars == b.chars
  {
    var x, y := Decimal(a.lines) + ":" + Decimal(a.chars), Decimal(b.lines) + ":" + Decimal(b.chars);
    assert Decimal(a.id) + ":" + x == Decimal(b.id) + ":" + y by {
      assert Marker(a)[7..|Marker(a)| - 1] == Decimal(a.id) + ":" + x;
      assert Marker(b)[7..|Marker(b)| - 1] == Decimal(b.id) + ":" + y;
    }
    DecimalChars(a.id);
    DecimalChars(b.id);
    SplitAtColon(Decimal(a.id), x, Decimal(b.id), y);
    DecimalChars(a.lines);
    DecimalChars(b.lines);
    SplitAtColon(Decimal(a.lines), Decimal(a.chars), Decimal(b.lines), Decimal(b.chars));
    DecimalInjective(a.id, b.id);
    DecimalInjective(a.lines, b.lines);
    DecimalInjective(a.chars, b.chars);
  }

  /** No marker is the beginning of another marker, whatever follows that one. */
  lemma MarkersPrefixFree(a: PasteBlock, b: PasteBlock, rest: string)
    requires Marker(a) <= Marker(b) + rest
    ensures Marker(a) == Marker(b)
  {
    var m, s := Marker(a), Marker(b) + rest;
    InnerChars(a.id, a.lines, a.chars);
    InnerChars(b.id, b.lines, b.chars);
    FirstClose(Inner(a.id, a.lines, a.chars), "");
    FirstClose(Inner(b.id, b.lines, b.chars), rest);
    assert Marker(b) == s[..|Marker(b)|];
  }

  lemma FirstClose(inner: string, rest: string)
    requires CLOSE !in inner
    ensures var s := [OPEN] + inner + [CLOSE] + rest;
            s[|inner| + 1] == CLOSE && forall i :: 0 <= i <= |inner| ==> s[i] != CLOSE
  {
  }

  // ----- String replacement -----

  /** `str::replace`: all occurrences, from left to right, without overlap. */
  function Replace(s: string, pattern: string, with: string): string
    requires pattern != ""
    decreases |s|
  {
    if s == "" then ""
    else if pattern <= s then with + Replace(s[|pattern|..], pattern, with)
    else [s[0]] + Replace(s[1..], pattern, with)
  }

  lemma {:induction false} ReplaceSkips(clean: string, s: string, pattern: string, with: string)
    requires pattern != "" && pattern[0] !in clean
    ensures Replace(clean + s, pattern, with) == clean + Replace(s, pattern, with)
  {
    if clean == "" {
      assert clean + s == s;
    } else {
      assert (clean + s)[0] == clean[0] && (clean + s)[1..] == clean[1..] + s;
      ReplaceSkips(clean[1..], s, pattern, with);
      assert clean == [clean[0]] + clean[1..];
      Assoc([clean[0]], clean[1..], Replace(s, pattern, with));
    }
  }

  lemma ReplaceHits(s: string, pattern: string, with: string)
    requires pattern != ""
    ensures Replace(pattern + s, pattern, with) == with + Replace(s, pattern, with)
  {
    assert (pattern + s)[|pattern|..] == s;
  }

  lemma ReplacePasses(other: PasteBlock, s: string, b: PasteBlock, with: string)
    requires Marker(other) != Marker(b)
    ensures Replace(Marker(other) + s, Marker(b), with) == Marker(other) + Replace(s, Marker(b), with)
  {
    if Marker(b) <= Marker(other) + s {
      MarkersPrefixFree(b, other, s);
    }
    var tail := Inner(other.id, other.lines, other.chars) + [CLOSE];
    InnerChars(other.id, other.lines, other.chars);
    assert Marker(other) == [OPEN] + tail;
    Assoc([OPEN], tail, s);
    assert ([OPEN] + (tail + s))[1..] == tail + s;
    ReplaceSkips(tail, s, Marker(b), with);
    Assoc([OPEN], tail, Replace(s, Marker(b), with));
  }

  // ----- Segments -----

  /** What the buffer means: single characters, and pastes. */
  datatype Seg = Lit(c: char) | Chip(block: PasteBlock)

  /** How each paste is written out: as its marker, its content or its label; or, in the middle of
      the expansion, as `inner` says for the pastes whose marker is among `blocks` and as a marker
      otherwise. */
  datatype Writing = AsMarker | AsContent | AsLabel | Expanding(blocks: seq<PasteBlock>, inner: Writing)

  function Label(lines: nat): string { "[pasted " + Decimal(lines) + " lines]" }

  function WriteBlock(writing: Writing, b: PasteBlock): string
    decreases writing
  {
    match writing
    case AsMarker => Marker(b)
    case AsContent => b.content
    case AsLabel => Label(b.lines)
    case Expanding(blocks, inner) =>
      var first := FirstWith(blocks, Marker(b));
      if first.Some? then WriteBlock(inner, first.value) else Marker(b)
  }

  function Write(seg: Seg, writing: Writing): string {
    match seg
    case Lit(c) => [c]
    case Chip(b) => WriteBlock(writing, b)
  }

  function Spell(segs: seq<Seg>, writing: Writing): string {
    if segs == [] then "" else Write(segs[0], writing) + Spell(segs[1..], writing)
  }

  lemma {:induction false} SpellConcat(a: seq<Seg>, b: seq<Seg>, writing: Writing)
    ensures Spell(a + b, writing) == Spell(a, writing) + Spell(b, writing)
    decreases |a|
  {
    if a == [] {
      assert a + b == b;
    } else {
      assert (a + b)[0] == a[0] && (a + b)[1..] == a[1..] + b;
      SpellConcat(a[1..], b, writing);
      Assoc(Write(a[0], writing), Spell(a[1..], writing), Spell(b, writing));
    }
  }

  function Lits(s: string): (segs: seq<Seg>)
    ensures |segs| == |s|
  {
    seq(|s|, i requires 0 <= i < |s| => Lit(s[i]))
  }

  lemma {:induction false} SpellLits(s: string, writing: Writing)
    ensures Spell(Lits(s), writing) == s
  {
    if s != "" {
      assert Lits(s)[1..] == Lits(s[1..]);
      SpellLits(s[1..], writing);
    }
  }

  /** The first block of the list that has marker `m`. */
  function FirstWith(blocks: seq<PasteBlock>, m: string): (r: Option<PasteBlock>)
    ensures r.Some? ==> r.value in blocks && Marker(r.value) == m
    ensures r.None? ==> forall b :: b in blocks ==> Marker(b) != m
  {
    if blocks == [] then None
    else if Marker(blocks[0]) == m then Some(blocks[0])
    else FirstWith(blocks[1..], m)
  }

  lemma {:induction false} FirstWithAppend(blocks: seq<PasteBlock>, b: PasteBlock, m: string)
    ensures FirstWith(blocks + [b], m) ==
            if FirstWith(blocks, m).Some? then FirstWith(blocks, m)
            else if Marker(b) == m then Some(b) else None
  {
    if blocks != [] {
      assert (blocks + [b])[1..] == blocks[1..] + [b];
      FirstWithAppend(blocks[1..], b, m);
    }
  }

  lemma FirstWithLast(blocks: seq<PasteBlock>, m: string)
    requires blocks != [] && FirstWith(blocks[..|blocks| - 1], m).None? && Marker(blocks[|blocks| - 1]) != m
    ensures FirstWith(blocks, m).None?
  {
    var n := |blocks| - 1;
    TakeNext(blocks, n);
    TakeAll(blocks);
    FirstWithAppend(blocks[..n], blocks[n], m);
  }

  ghost predicate NoOpen(blocks: seq<PasteBlock>, writing: Writing) {
    forall b :: b in blocks ==> OPEN !in WriteBlock(writing, b)
  }

  // ----- One round of the expansion loop -----

  /** Text without the opening bracket at the front of the buffer is made of typed characters. */
  lemma {:induction false} TypedPrefix(segs: seq<Seg>, p: string)
    requires OPEN !in p && p <= Spell(segs, AsMarker)
    ensures |p| <= |segs| && Spell(segs, AsMarker)[|p|..] == Spell(segs[|p|..], AsMarker)
    ensures forall i :: 0 <= i < |p| ==> segs[i] == Lit(p[i])
    decreases |p|
  {
    if p != "" {
      assert segs != [] && p[0] == Spell(segs, AsMarker)[0];
      assert segs[0] == Lit(p[0]);
      assert Spell(segs, AsMarker)[1..] == Spell(segs[1..], AsMarker);
      TypedPrefix(segs[1..], p[1..]);
      assert forall i :: 1 <= i < |p| ==> segs[i] == segs[1..][i - 1] && p[i] == p[1..][i - 1];
    }
  }

  /** Typed text at the front of the buffer spells the marker of `b`. */
  predicate TypedMarker(segs: seq<Seg>, b: PasteBlock) {
    segs != [] && segs[0] == Lit(OPEN) && Marker(b) <= Spell(segs, AsMarker)
  }

  lemma TypedMarkerIsTyped(segs: seq<Seg>, b: PasteBlock)
    requires TypedMarker(segs, b)
    ensures var n := |Marker(b)|;
            && n <= |segs| && Spell(segs, AsMarker)[n..] == Spell(segs[n..], AsMarker)
            && forall i :: 1 <= i < n ==> segs[i].Lit? && segs[i].c != OPEN
  {
    var inner := Inner(b.id, b.lines, b.chars);
    InnerChars(b.id, b.lines, b.chars);
    Assoc([OPEN], inner, [CLOSE]);
    BracketIsTyped(segs, inner + [CLOSE]);
  }

  lemma BracketIsTyped(segs: seq<Seg>, tail: string)
    requires segs != [] && segs[0] == Lit(OPEN) && OPEN !in tail && [OPEN] + tail <= Spell(segs, AsMarker)
    ensures var n := |tail| + 1;
            && n <= |segs| && Spell(segs, AsMarker)[n..] == Spell(segs[n..], AsMarker)
            && forall i :: 1 <= i < n ==> segs[i].Lit? && segs[i].c != OPEN
  {
    AfterBracket(tail, Spell(segs[1..], AsMarker));
    TypedPrefix(segs[1..], tail);
    TailOf(segs, |tail|);
    TailOf(Spell(segs, AsMarker), |tail|);
  }

  lemma AfterBracket(tail: string, s: string)
    requires [OPEN] + tail <= [OPEN] + s
    ensures tail <= s && ([OPEN] + s)[1..] == s
  {
    assert ([OPEN] + tail)[1..] == tail && ([OPEN] + s)[1..] == s;
  }

  lemma TailOf<T>(s: seq<T>, k: nat)
    requires s != [] && k <= |s[1..]|
    ensures s[1..][k..] == s[k + 1..] && forall i :: 1 <= i <= k ==> s[i] == s[1..][i - 1]
  {
  }

  /** Replacing the marker of `b` in the marked text, as it acts on segments: pastes with that marker
      are replaced, and so is typed text that spells it. */
  function Expand(segs: seq<Seg>, b: PasteBlock, with: string): seq<Seg>
    decreases |segs|
  {
    if segs == [] then []
    else if segs[0].Chip? && Marker(segs[0].block) == Marker(b) then Lits(with) + Expand(segs[1..], b, with)
    else if TypedMarker(segs, b) then
      TypedMarkerIsTyped(segs, b);
      Lits(with) + Expand(segs[|Marker(b)|..], b, with)
    else [segs[0]] + Expand(segs[1..], b, with)
  }

  lemma {:induction false} ExpandIsReplace(segs: seq<Seg>, b: PasteBlock, with: string)
    ensures Spell(Expand(segs, b, with), AsMarker) == Replace(Spell(segs, AsMarker), Marker(b), with)
    decreases |segs|
  {
    if segs != [] {
      var seg, rest := segs[0], segs[1..];
      if seg.Chip? && Marker(seg.block) == Marker(b) {
        ExpandIsReplace(rest, b, with);
        SpellLits(with, AsMarker);
        SpellConcat(Lits(with), Expand(rest, b, with), AsMarker);
        ReplaceHits(Spell(rest, AsMarker), Marker(b), with);
      } else if TypedMarker(segs, b) {
        TypedMarkerIsTyped(segs, b);
        ExpandIsReplace(segs[|Marker(b)|..], b, with);
        SpellLits(with, AsMarker);
        SpellConcat(Lits(with), Expand(segs[|Marker(b)|..], b, with), AsMarker);
      } else {
        ExpandIsReplace(rest, b, with);
        assert Expand(segs, b, with)[1..] == Expand(rest, b, with);
        if seg.Chip? {
          ReplacePasses(seg.block, Spell(rest, AsMarker), b, with);
        } else {
          LitPasses(seg.c, Spell(rest, AsMarker), b, with);
        }
      }
    }
  }

  lemma LitPasses(c: char, s: string, b: PasteBlock, with: string)
    requires c == OPEN ==> !(Marker(b) <= [c] + s)
    ensures Replace([c] + s, Marker(b), with) == [c] + Replace(s, Marker(b), with)
  {
    var t := [c] + s;
    assert t[0] == c && t[1..] == s && Marker(b)[0] == OPEN;
    assert !(Marker(b) <= t);
  }

  /** Somewhere typed text spells the marker of `b`. */
  predicate Hit(segs: seq<Seg>, b: PasteBlock) {
    segs != [] && (TypedMarker(segs, b) || Hit(segs[1..], b))
  }

  function OpenLits(segs: seq<Seg>): nat {
    if segs == [] then 0 else (if segs[0] == Lit(OPEN) then 1 else 0) + OpenLits(segs[1..])
  }

  lemma {:induction false} OpenLitsConcat(a: seq<Seg>, b: seq<Seg>)
    ensures OpenLits(a + b) == OpenLits(a) + OpenLits(b)
    decreases |a|
  {
    if a == [] {
      assert a + b == b;
    } else {
      assert (a + b)[0] == a[0] && (a + b)[1..] == a[1..] + b;
      OpenLitsConcat(a[1..], b);
    }
  }

  lemma {:induction false} OpenLitsNone(segs: seq<Seg>)
    requires forall i :: 0 <= i < |segs| ==> segs[i] != Lit(OPEN)
    ensures OpenLits(segs) == 0
  {
    if segs != [] {
      OpenLitsNone(segs[1..]);
    }
  }

  lemma OpenLitsAfter(segs: seq<Seg>, n: nat)
    requires 1 <= n <= |segs| && forall i :: 1 <= i < n ==> segs[i] != Lit(OPEN)
    ensures OpenLits(segs[1..]) == OpenLits(segs[n..])
  {
    OpenLitsNone(segs[1..n]);
    OpenLitsConcat(segs[1..n], segs[n..]);
    assert segs[1..] == segs[1..n] + segs[n..];
  }

  /** A round replaces typed brackets exactly when typed text is hit. */
  lemma {:induction false} ExpandCounts(segs: seq<Seg>, b: PasteBlock, with: string)
    requires OPEN !in with
    ensures OpenLits(Expand(segs, b, with)) <= OpenLits(segs)
    ensures Hit(segs, b) <==> OpenLits(Expand(segs, b, with)) < OpenLits(segs)
    decreases |segs|
  {
    if segs != [] {
      OpenLitsNone(Lits(with));
      if segs[0].Chip? && Marker(segs[0].block) == Marker(b) {
        ExpandCounts(segs[1..], b, with);
        OpenLitsConcat(Lits(with), Expand(segs[1..], b, with));
      } else if TypedMarker(segs, b) {
        TypedMarkerIsTyped(segs, b);
        var n := |Marker(b)|;
        ExpandCounts(segs[n..], b, with);
        OpenLitsConcat(Lits(with), Expand(segs[n..], b, with));
        OpenLitsAfter(segs, n);
      } else {
        ExpandCounts(segs[1..], b, with);
        assert Expand(segs, b, with)[1..] == Expand(segs[1..], b, with);
      }
    }
  }

  /** A round leaves no paste with that marker and adds none. */
  lemma {:induction false} ExpandChips(segs: seq<Seg>, b: PasteBlock, with: string)
    ensures forall x :: x in Expand(segs, b, with) && x.Chip? ==> x in segs && Marker(x.block) != Marker(b)
    decreases |segs|
  {
    if segs != [] {
      if segs[0].Chip? && Marker(segs[0].block) == Marker(b) {
        ExpandChips(segs[1..], b, with);
      } else if TypedMarker(segs, b) {
        TypedMarkerIsTyped(segs, b);
        ExpandChips(segs[|Marker(b)|..], b, with);
      } else {
        ExpandChips(segs[1..], b, with);
      }
    }
  }

  // ----- All rounds -----

  /** The segments after the whole loop. */
  function Rounds(segs: seq<Seg>, blocks: seq<PasteBlock>, writing: Writing): seq<Seg> {
    if blocks == [] then segs
    else
      var n := |blocks| - 1;
      Expand(Rounds(segs, blocks[..n], writing), blocks[n], WriteBlock(writing, blocks[n]))
  }

  function FlatOne(seg: Seg, blocks: seq<PasteBlock>, writing: Writing): seq<Seg> {
    if seg.Chip? && FirstWith(blocks, Marker(seg.block)).Some?
    then Lits(WriteBlock(writing, FirstWith(blocks, Marker(seg.block)).value))
    else [seg]
  }

  /** The segments with exactly the pastes whose marker is among `blocks` written out. */
  function Flat(segs: seq<Seg>, blocks: seq<PasteBlock>, writing: Writing): seq<Seg> {
    if segs == [] then [] else FlatOne(segs[0], blocks, writing) + Flat(segs[1..], blocks, writing)
  }

  lemma {:induction false} FlatSpell(segs: seq<Seg>, blocks: seq<PasteBlock>, writing: Writing)
    ensures Spell(Flat(segs, blocks, writing), AsMarker) == Spell(segs, Expanding(blocks, writing))
  {
    if segs != [] {
      var first := FlatOne(segs[0], blocks, writing);
      FlatSpell(segs[1..], blocks, writing);
      SpellConcat(first, Flat(segs[1..], blocks, writing), AsMarker);
      if segs[0].Chip? && FirstWith(blocks, Marker(segs[0].block)).Some? {
        SpellLits(WriteBlock(writing, FirstWith(blocks, Marker(segs[0].block)).value), AsMarker);
      } else {
        SpellOne(segs[0], AsMarker);
      }
    }
  }

  lemma SpellOne(seg: Seg, writing: Writing)
    ensures Spell([seg], writing) == Write(seg, writing)
  {
    assert [seg][1..] == [];
    assert Spell([seg], writing) == Write(seg, writing) + Spell([seg][1..], writing);
  }

  lemma {:induction false} FlatNone(segs: seq<Seg>, writing: Writing)
    ensures Flat(segs, [], writing) == segs
  {
    if segs != [] {
      FlatNone(segs[1..], writing);
    }
  }

  lemma {:induction false} ExpandLits(s: string, rest: seq<Seg>, b: PasteBlock, with: string)
    requires !Hit(Lits(s) + rest, b)
    ensures !Hit(rest, b) && Expand(Lits(s) + rest, b, with) == Lits(s) + Expand(rest, b, with)
    decreases |s|
  {
    if s == "" {
      assert Lits(s) + rest == rest && Lits(s) + Expand(rest, b, with) == Expand(rest, b, with);
    } else {
      var all := Lits(s) + rest;
      assert all[0] == Lit(s[0]) && all[1..] == Lits(s[1..]) + rest;
      ExpandLits(s[1..], rest, b, with);
      assert Lits(s) == [Lit(s[0])] + Lits(s[1..]);
      Assoc([Lit(s[0])], Lits(s[1..]), Expand(rest, b, with));
    }
  }

  /** A round that hits no typed text writes out exactly the pastes with that marker. */
  lemma {:induction false} ExpandFlat(segs: seq<Seg>, blocks: seq<PasteBlock>, b: PasteBlock, writing: Writing)
    requires !Hit(Flat(segs, blocks, writing), b)
    ensures Expand(Flat(segs, blocks, writing), b, WriteBlock(writing, b)) == Flat(segs, blocks + [b], writing)
    decreases |segs|
  {
    if segs != [] {
      var seg, rest, with := segs[0], Flat(segs[1..], blocks, writing), WriteBlock(writing, b);
      if seg.Lit? {
        assert [seg] == Lits([seg.c]);
        ExpandLits([seg.c], rest, b, with);
      } else {
        var first := FirstWith(blocks, Marker(seg.block));
        FirstWithAppend(blocks, b, Marker(seg.block));
        if first.Some? {
          ExpandLits(WriteBlock(writing, first.value), rest, b, with);
        } else {
          assert ([seg] + rest)[0] == seg && ([seg] + rest)[1..] == rest;
        }
      }
      ExpandFlat(segs[1..], blocks, b, writing);
    }
  }

  /** In no round of the expansion does typed text spell the marker that is being replaced. */
  predicate Intact(segs: seq<Seg>, blocks: seq<PasteBlock>, writing: Writing) {
    blocks == [] ||
    var n := |blocks| - 1;
    Intact(segs, blocks[..n], writing) && !Hit(Flat(segs, blocks[..n], writing), blocks[n])
  }

  lemma {:induction false} RoundsIntact(segs: seq<Seg>, blocks: seq<PasteBlock>, writing: Writing)
    requires Intact(segs, blocks, writing)
    ensures Rounds(segs, blocks, writing) == Flat(segs, blocks, writing)
    decreases |blocks|
  {
    if blocks == [] {
      FlatNone(segs, writing);
    } else {
      RoundsIntact(segs, blocks[..|blocks| - 1], writing);
      FlatLast(segs, blocks, writing);
    }
  }

  lemma FlatLast(segs: seq<Seg>, blocks: seq<PasteBlock>, writing: Writing)
    requires blocks != []
    requires var n := |blocks| - 1; !Hit(Flat(segs, blocks[..n], writing), blocks[n])
    ensures var n := |blocks| - 1;
            Expand(Flat(segs, blocks[..n], writing), blocks[n], WriteBlock(writing, blocks[n])) ==
                Flat(segs, blocks, writing)
  {
    var n := |blocks| - 1;
    TakeNext(blocks, n);
    TakeAll(blocks);
    ExpandFlat(segs, blocks[..n], blocks[n], writing);
  }

  lemma {:induction false} FlatCounts(segs: seq<Seg>, blocks: seq<PasteBlock>, writing: Writing)
    requires NoOpen(blocks, writing)
    ensures OpenLits(Flat(segs, blocks, writing)) == OpenLits(segs)
  {
    if segs != [] {
      var first := FlatOne(segs[0], blocks, writing);
      FlatCounts(segs[1..], blocks, writing);
      OpenLitsConcat(first, Flat(segs[1..], blocks, writing));
      if segs[0].Chip? && FirstWith(blocks, Marker(segs[0].block)).Some? {
        OpenLitsNone(first);
      } else {
        OpenLitsConcat([segs[0]], []);
        assert [segs[0]] + [] == [segs[0]] && [segs[0]][1..] == [];
      }
    }
  }

  lemma NoOpenPrefix(blocks: seq<PasteBlock>, n: nat, writing: Writing)
    requires n <= |blocks| && NoOpen(blocks, writing)
    ensures NoOpen(blocks[..n], writing)
  {
    forall b | b in blocks[..n] ensures OPEN !in WriteBlock(writing, b) {
      assert b in blocks;
    }
  }

  /** Once typed text has been hit, brackets are missing to the end. */
  lemma {:induction false} RoundsHit(segs: seq<Seg>, blocks: seq<PasteBlock>, writing: Writing)
    requires NoOpen(blocks, writing) && !Intact(segs, blocks, writing)
    ensures OpenLits(Rounds(segs, blocks, writing)) < OpenLits(segs)
    decreases |blocks|
  {
    var n := |blocks| - 1;
    var before := blocks[..n];
    assert blocks[n] in blocks;
    NoOpenPrefix(blocks, n, writing);
    ExpandCounts(Rounds(segs, before, writing), blocks[n], WriteBlock(writing, blocks[n]));
    if Intact(segs, before, writing) {
      RoundsIntact(segs, before, writing);
      FlatCounts(segs, before, writing);
    } else {
      RoundsHit(segs, before, writing);
    }
  }

  lemma {:induction false} RoundsChips(segs: seq<Seg>, blocks: seq<PasteBlock>, writing: Writing)
    ensures forall x :: x in Rounds(segs, blocks, writing) && x.Chip? ==>
              x in segs && FirstWith(blocks, Marker(x.block)).None?
    decreases |blocks|
  {
    if blocks != [] {
      var n := |blocks| - 1;
      var before := Rounds(segs, blocks[..n], writing);
      RoundsChips(segs, blocks[..n], writing);
      ExpandChips(before, blocks[n], WriteBlock(writing, blocks[n]));
      forall x | x in Rounds(segs, blocks, writing) && x.Chip? ensures FirstWith(blocks, Marker(x.block)).None? {
        FirstWithLast(blocks, Marker(x.block));
      }
    }
  }

  function CountOpen(s: string): nat {
    if s == "" then 0 else (if s[0] == OPEN then 1 else 0) + CountOpen(s[1..])
  }

  lemma {:induction false} CountOpenConcat(a: string, b: string)
    ensures CountOpen(a + b) == CountOpen(a) + CountOpen(b)
    ensures OPEN !in a ==> CountOpen(a) == 0
    decreases |a|
  {
    if a == "" {
      assert a + b == b;
    } else {
      assert (a + b)[0] == a[0] && (a + b)[1..] == a[1..] + b;
      CountOpenConcat(a[1..], b);
    }
  }

  /** Where pastes are written without brackets, the brackets are the typed ones. */
  lemma {:induction false} CountOpenSpell(segs: seq<Seg>, writing: Writing)
    requires forall x :: x in segs && x.Chip? ==> OPEN !in WriteBlock(writing, x.block)
    ensures CountOpen(Spell(segs, writing)) == OpenLits(segs)
  {
    if segs != [] {
      CountOpenSpell(segs[1..], writing);
      CountOpenConcat(Write(segs[0], writing), Spell(segs[1..], writing));
      if segs[0].Lit? {
        assert [segs[0].c][1..] == "";
        assert CountOpen([segs[0].c]) == (if segs[0].c == OPEN then 1 else 0) + CountOpen([segs[0].c][1..]);
      }
    }
  }

  predicate Held(segs: seq<Seg>, blocks: seq<PasteBlock>) {
    forall i :: 0 <= i < |segs| && segs[i].Chip? ==> segs[i].block in blocks
  }

  /** The loop over all blocks yields the intended text exactly when it never hits typed text. */
  lemma RoundsExact(segs: seq<Seg>, blocks: seq<PasteBlock>, writing: Writing)
    requires Held(segs, blocks)
    ensures var text := Spell(Rounds(segs, blocks, writing), AsMarker);
            && (Intact(segs, blocks, writing) ==> text == Spell(segs, Expanding(blocks, writing)))
            && (NoOpen(blocks, writing) && !Intact(segs, blocks, writing) ==> CountOpen(text) < OpenLits(segs))
  {
    if Intact(segs, blocks, writing) {
      RoundsIntact(segs, blocks, writing);
      FlatSpell(segs, blocks, writing);
    } else if NoOpen(blocks, writing) {
      RoundsHit(segs, blocks, writing);
      RoundsChips(segs, blocks, writing);
      CountOpenSpell(Rounds(segs, blocks, writing), AsMarker);
    }
  }

  /** Without typed brackets nothing can be hit. */
  lemma {:induction false} NothingToHit(segs: seq<Seg>, b: PasteBlock)
    requires OpenLits(segs) == 0
    ensures !Hit(segs, b)
  {
    if segs != [] {
      NothingToHit(segs[1..], b);
    }
  }

  lemma {:induction false} BracketlessIntact(segs: seq<Seg>, blocks: seq<PasteBlock>, writing: Writing)
    requires OpenLits(segs) == 0 && NoOpen(blocks, writing)
    ensures Intact(segs, blocks, writing)
    decreases |blocks|
  {
    if blocks != [] {
      var n := |blocks| - 1;
      NoOpenPrefix(blocks, n, writing);
      BracketlessIntact(segs, blocks[..n], writing);
      FlatCounts(segs, blocks[..n], writing);
      NothingToHit(Flat(segs, blocks[..n], writing), blocks[n]);
    }
  }

  lemma {:induction false} SpellAgrees(segs: seq<Seg>, f: Writing, g: Writing)
    requires forall i :: 0 <= i < |segs| && segs[i].Chip? ==>
               WriteBlock(f, segs[i].block) == WriteBlock(g, segs[i].block)
    ensures Spell(segs, f) == Spell(segs, g)
    decreases |segs|
  {
    if segs != [] {
      SpellAgrees(segs[1..], f, g);
    }
  }

  predicate AgreeOnChips(segs: seq<Seg>, f: Writing, g: Writing) {
    forall i :: 0 <= i < |segs| && segs[i].Chip? ==> WriteBlock(f, segs[i].block) == WriteBlock(g, segs[i].block)
  }

  lemma AgreeTail(segs: seq<Seg>, f: Writing, g: Writing)
    requires segs != []
    ensures AgreeOnChips(segs, f, g) <==>
            AgreeOnChips(segs[1..], f, g) && Write(segs[0], f) == Write(segs[0], g)
  {
    assert forall i :: 1 <= i < |segs| ==> segs[i] == segs[1..][i - 1];
  }

  /** Writings that agree in length agree on the text exactly when they agree on every paste in it. */
  lemma {:induction false} SpellSame(segs: seq<Seg>, f: Writing, g: Writing)
    requires forall i :: 0 <= i < |segs| && segs[i].Chip? ==>
               |WriteBlock(f, segs[i].block)| == |WriteBlock(g, segs[i].block)|
    ensures |Spell(segs, f)| == |Spell(segs, g)|
    ensures Spell(segs, f) == Spell(segs, g) <==> AgreeOnChips(segs, f, g)
    decreases |segs|
  {
    if segs != [] {
      var rest := segs[1..];
      SpellSame(rest, f, g);
      SplitEqual(Write(segs[0], f), Spell(rest, f), Write(segs[0], g), Spell(rest, g));
      AgreeTail(segs, f, g);
    }
  }

  lemma SplitEqual<T>(a: seq<T>, s: seq<T>, b: seq<T>, t: seq<T>)
    requires |a| == |b|
    ensures a + s == b + t <==> a == b && s == t
  {
    if a + s == b + t {
      assert a == (a + s)[..|a|] && b == (b + t)[..|b|];
      assert s == (a + s)[|a|..] && t == (b + t)[|b|..];
    }
  }
}
