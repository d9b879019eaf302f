/** Why the expansion cannot come out right by accident: a stored paste has a line break, or is longer
    than its marker, so text that takes typed characters for a paste has too many line breaks or, with
    as many, too many characters. */
module PasteWeight {
  import opened Sequences
  import opened Text
  import opened PasteMarkers
  import opened PasteModel

  // ----- A stored paste outweighs its marker -----

  /** What is stored of a collapsed paste. */
  predicate Sane(b: PasteBlock) {
    b.id <= U32_MAX && Collapses(b.content) && b == NewBlock(b.id, b.content)
  }

  predicate Outweighs(b: PasteBlock) { CountNewlines(b.content) > 0 || |b.content| > |Marker(b)| }

  function Pow10(k: nat): nat { if k == 0 then 1 else 10 * Pow10(k - 1) }

  lemma {:induction false} DecimalAtMost(n: nat, k: nat)
    requires 1 <= k && n < Pow10(k)
    ensures |Decimal(n)| <= k
    decreases k
  {
    if n >= 10 {
      DecimalAtMost(n / 10, k - 1);
    }
  }

  lemma {:induction false} DecimalShort(n: nat)
    ensures |Decimal(n)| <= n / 10 + 1
  {
    if n >= 10 {
      DecimalShort(n / 10);
    }
  }

  lemma TenDigits()
    ensures Pow10(10) == 10_000_000_000
  {
    assert Pow10(4) == 10_000;
    assert Pow10(7) == 10_000_000;
  }

  lemma {:induction false} CountZero(s: string)
    requires CountNewlines(s) == 0 && s != ""
    ensures s[|s| - 1] != '\n'
    decreases |s|
  {
    if |s| > 1 {
      CountZero(s[1..]);
    }
  }

  lemma StoredOutweighs(b: PasteBlock)
    requires Sane(b)
    ensures Outweighs(b)
  {
    if CountNewlines(b.content) == 0 {
      if b.content != "" {
        CountZero(b.content);
      }
      TenDigits();
      DecimalAtMost(b.id, 10);
      DecimalShort(b.lines);
      DecimalShort(b.chars);
    }
  }

  // ----- Weighing text -----

  lemma MarkerLines(b: PasteBlock)
    ensures CountNewlines(Marker(b)) == 0
  {
    DecimalPlain(b.id, '\n');
    DecimalPlain(b.lines, '\n');
    DecimalPlain(b.chars, '\n');
    CountNone(Marker(b));
  }

  /** `t` has no fewer line breaks than `s` and, with as many, no fewer characters. */
  predicate NotLighter(s: string, t: string) {
    CountNewlines(s) <= CountNewlines(t) && (CountNewlines(s) == CountNewlines(t) ==> |s| <= |t|)
  }

  predicate Heavier(s: string, t: string) { NotLighter(s, t) && !NotLighter(t, s) }

  lemma HeavierDiffers(s: string, t: string)
    requires Heavier(s, t)
    ensures s != t
  {
  }

  lemma ConcatWeight(a: string, s: string, b: string, t: string)
    requires NotLighter(a, b) && NotLighter(s, t)
    ensures NotLighter(a + s, b + t)
    ensures Heavier(a, b) || Heavier(s, t) ==> Heavier(a + s, b + t)
  {
    CountConcat(a, s);
    CountConcat(b, t);
  }

  lemma ContentOutweighs(b: PasteBlock)
    requires Outweighs(b)
    ensures Heavier(Marker(b), b.content)
  {
    MarkerLines(b);
  }

  // ----- One round -----

  /** Pastes with the marker of `b` have its content. */
  predicate Alike(segs: seq<Seg>, b: PasteBlock) {
    forall x :: x in segs && x.Chip? && Marker(x.block) == Marker(b) ==> x.block.content == b.content
  }

  function Content(segs: seq<Seg>): string { Spell(segs, AsContent) }

  /** Typed text that spells a marker, and what follows. */
  lemma TypedContent(segs: seq<Seg>, b: PasteBlock)
    requires TypedMarker(segs, b)
    ensures |Marker(b)| <= |segs| && Content(segs) == Marker(b) + Content(segs[|Marker(b)|..])
  {
    var n := |Marker(b)|;
    TypedMarkerIsTyped(segs, b);
    Divide(segs, n, AsContent);
    Divide(segs, n, AsMarker);
    AllTyped(segs[..n]);
    TypedFront(Spell(segs[..n], AsMarker), Spell(segs[n..], AsMarker), Marker(b));
  }

  lemma Divide(segs: seq<Seg>, n: nat, writing: Writing)
    requires n <= |segs|
    ensures Spell(segs, writing) == Spell(segs[..n], writing) + Spell(segs[n..], writing)
  {
    assert segs == segs[..n] + segs[n..];
    SpellConcat(segs[..n], segs[n..], writing);
  }

  lemma {:induction false} AllTyped(segs: seq<Seg>)
    requires forall i :: 0 <= i < |segs| ==> segs[i].Lit?
    ensures Spell(segs, AsMarker) == Content(segs)
  {
    if segs != [] {
      AllTyped(segs[1..]);
    }
  }

  lemma TypedFront(front: string, rest: string, mark: string)
    requires mark <= front + rest && (front + rest)[|mark|..] == rest
    ensures front == mark
  {
    assert |front| == |mark|;
    assert (front + rest)[..|mark|] == mark && (front + rest)[..|front|] == front;
  }

  /** A round never makes the text lighter, and makes it heavier exactly when it hits typed text. */
  lemma {:induction false} ExpandWeight(segs: seq<Seg>, b: PasteBlock)
    requires Outweighs(b) && Alike(segs, b)
    ensures NotLighter(Content(segs), Content(Expand(segs, b, b.content)))
    ensures Hit(segs, b) ==> Heavier(Content(segs), Content(Expand(segs, b, b.content)))
    decreases |segs|
  {
    if segs != [] {
      var with := b.content;
      if segs[0].Chip? && Marker(segs[0].block) == Marker(b) {
        ExpandWeight(segs[1..], b);
        LitsThen(with, Expand(segs[1..], b, with));
        ConcatWeight(with, Content(segs[1..]), with, Content(Expand(segs[1..], b, with)));
      } else if TypedMarker(segs, b) {
        TypedContent(segs, b);
        var rest := segs[|Marker(b)|..];
        ExpandWeight(rest, b);
        LitsThen(with, Expand(rest, b, with));
        ContentOutweighs(b);
        ConcatWeight(Marker(b), Content(rest), with, Content(Expand(rest, b, with)));
      } else {
        var first := Write(segs[0], AsContent);
        ExpandWeight(segs[1..], b);
        assert Expand(segs, b, with)[1..] == Expand(segs[1..], b, with);
        ConcatWeight(first, Content(segs[1..]), first, Content(Expand(segs[1..], b, with)));
      }
    }
  }

  lemma LitsThen(s: string, rest: seq<Seg>)
    ensures Content(Lits(s) + rest) == s + Content(rest)
  {
    SpellLits(s, AsContent);
    SpellConcat(Lits(s), rest, AsContent);
  }

  // ----- All rounds -----

  /** No paste is written out as another: the first block with its marker has its content. */
  predicate Fitting(segs: seq<Seg>, blocks: seq<PasteBlock>) {
    forall x :: x in segs && x.Chip? ==>
      var first := FirstWith(blocks, Marker(x.block));
      first.Some? ==> first.value.content == x.block.content
  }

  lemma FittingBefore(segs: seq<Seg>, blocks: seq<PasteBlock>, b: PasteBlock)
    requires Fitting(segs, blocks + [b])
    ensures Fitting(segs, blocks)
  {
    forall x | x in segs && x.Chip? && FirstWith(blocks, Marker(x.block)).Some?
      ensures FirstWith(blocks, Marker(x.block)).value.content == x.block.content
    {
      FirstWithAppend(blocks, b, Marker(x.block));
    }
  }

  lemma AlikeNow(segs: seq<Seg>, blocks: seq<PasteBlock>, b: PasteBlock)
    requires Fitting(segs, blocks + [b])
    ensures Alike(Rounds(segs, blocks, AsContent), b)
  {
    var now := Rounds(segs, blocks, AsContent);
    RoundsChips(segs, blocks, AsContent);
    forall x | x in now && x.Chip? && Marker(x.block) == Marker(b) ensures x.block.content == b.content {
      FirstWithAppend(blocks, b, Marker(x.block));
    }
  }

  /** The rounds never make the text lighter, and make it heavier if one of them hits typed text. */
  lemma {:induction false} RoundsWeight(segs: seq<Seg>, blocks: seq<PasteBlock>)
    requires Fitting(segs, blocks) && forall b :: b in blocks ==> Outweighs(b)
    ensures NotLighter(Content(segs), Content(Rounds(segs, blocks, AsContent)))
    ensures !Intact(segs, blocks, AsContent) ==> Heavier(Content(segs), Content(Rounds(segs, blocks, AsContent)))
    decreases |blocks|
  {
    if blocks != [] {
      var n := |blocks| - 1;
      var before, b := blocks[..n], blocks[n];
      assert blocks == before + [b];
      FittingBefore(segs, before, b);
      RoundsWeight(segs, before);
      AlikeNow(segs, before, b);
      ExpandWeight(Rounds(segs, before, AsContent), b);
      if Intact(segs, before, AsContent) {
        RoundsIntact(segs, before, AsContent);
      }
    }
  }

  lemma NoChipsLeft(segs: seq<Seg>, blocks: seq<PasteBlock>)
    requires Held(segs, blocks)
    ensures forall x :: x in Rounds(segs, blocks, AsContent) ==> x.Lit?
  {
    RoundsChips(segs, blocks, AsContent);
  }

  lemma StockOutweighs(blocks: seq<PasteBlock>)
    requires forall b :: b in blocks ==> Sane(b)
    ensures forall b :: b in blocks ==> Outweighs(b)
  {
    forall b | b in blocks ensures Outweighs(b) {
      StoredOutweighs(b);
    }
  }

  /** If typed text is hit and no paste is written out as another, the text comes out wrong. */
  lemma HitsShow(segs: seq<Seg>, blocks: seq<PasteBlock>)
    requires Held(segs, blocks) && Fitting(segs, blocks) && (forall b :: b in blocks ==> Sane(b))
    requires !Intact(segs, blocks, AsContent)
    ensures Spell(Rounds(segs, blocks, AsContent), AsMarker) != Content(segs)
  {
    var now := Rounds(segs, blocks, AsContent);
    StockOutweighs(blocks);
    RoundsWeight(segs, blocks);
    NoChipsLeft(segs, blocks);
    AllTyped(now);
    HeavierDiffers(Content(segs), Content(now));
  }
}
