/** The input box. Long or multi-line pastes are kept out of the text and stand in it as markers;
    `model` is what the text means, and `Plain` what an editor without markers would hold. */
module PasteBuffer {
  import opened Text
  import opened PasteMarkers
  import opened PasteModel
  import opened PasteMessage
  import opened PasteWeight

  // ----- Blocks -----

  /** No stored paste holds the opening bracket. */
  predicate BracketFree(blocks: seq<PasteBlock>) { forall b :: b in blocks ==> OPEN !in b.content }

  lemma ContentIsClean(blocks: seq<PasteBlock>)
    ensures NoOpen(blocks, AsContent) <==> BracketFree(blocks)
  {
    assert forall b :: b in blocks ==> WriteBlock(AsContent, b) == b.content;
  }

  lemma LabelsAreClean(blocks: seq<PasteBlock>)
    ensures NoOpen(blocks, AsLabel)
  {
    forall b | b in blocks ensures OPEN !in WriteBlock(AsLabel, b) {
      DecimalChars(b.lines);
    }
  }

  predicate DistinctIds(blocks: seq<PasteBlock>, limit: nat) {
    && (forall i :: 0 <= i < |blocks| ==> blocks[i].id <= limit)
    && (forall i, j :: 0 <= i < j < |blocks| ==> blocks[i].id != blocks[j].id)
  }

  /** Every paste in the text is the first of the blocks that has its marker, or one with the same
      content. */
  predicate Unambiguous(segs: seq<Seg>, blocks: seq<PasteBlock>) {
    forall i :: 0 <= i < |segs| && segs[i].Chip? ==>
      var first := FirstWith(blocks, Marker(segs[i].block));
      first.Some? && first.value.content == segs[i].block.content
  }

  /** With distinct ids no two blocks share a marker. */
  lemma DistinctIsUnambiguous(segs: seq<Seg>, blocks: seq<PasteBlock>, limit: nat)
    requires DistinctIds(blocks, limit) && Held(segs, blocks)
    ensures Unambiguous(segs, blocks)
  {
    forall i | 0 <= i < |segs| && segs[i].Chip?
      ensures FirstWith(blocks, Marker(segs[i].block)) == Some(segs[i].block)
    {
      var b := segs[i].block;
      MarkerInjective(FirstWith(blocks, Marker(b)).value, b);
    }
  }

  lemma ExpandedIsSpelled(segs: seq<Seg>, blocks: seq<PasteBlock>)
    requires Held(segs, blocks) && forall b :: b in blocks ==> Sane(b)
    ensures Spell(segs, Expanding(blocks, AsContent)) == Spell(segs, AsContent) <==> Unambiguous(segs, blocks)
    ensures Spell(segs, Expanding(blocks, AsLabel)) == Spell(segs, AsLabel)
  {
    forall i | 0 <= i < |segs| && segs[i].Chip?
      ensures FirstWith(blocks, Marker(segs[i].block)).Some?
      ensures |WriteBlock(Expanding(blocks, AsContent), segs[i].block)| == |segs[i].block.content|
      ensures WriteBlock(Expanding(blocks, AsLabel), segs[i].block) == WriteBlock(AsLabel, segs[i].block)
    {
      var b := segs[i].block;
      MarkerInjective(FirstWith(blocks, Marker(b)).value, b);
    }
    SpellSame(segs, Expanding(blocks, AsContent), AsContent);
    SpellAgrees(segs, Expanding(blocks, AsLabel), AsLabel);
  }

  /** What the expansion loop makes of the text, in terms of what could be checked before it: it yields
      the intended contents when typed text is never hit, exactly if no paste is shadowed by an earlier
      one with its marker; when no paste is shadowed, exactly if typed text is never hit; and with contents
      free of the bracket, exactly if neither happens. */
  lemma RoundsAreContents(segs: seq<Seg>, blocks: seq<PasteBlock>)
    requires Held(segs, blocks) && forall b :: b in blocks ==> Sane(b)
    ensures var right := Spell(Rounds(segs, blocks, AsContent), AsMarker) == Spell(segs, AsContent);
            && (Intact(segs, blocks, AsContent) ==> (right <==> Unambiguous(segs, blocks)))
            && (Unambiguous(segs, blocks) ==> (right <==> Intact(segs, blocks, AsContent)))
            && (BracketFree(blocks) ==> (right <==> Intact(segs, blocks, AsContent) && Unambiguous(segs, blocks)))
  {
    RoundsExact(segs, blocks, AsContent);
    ExpandedIsSpelled(segs, blocks);
    ContentIsClean(blocks);
    if Unambiguous(segs, blocks) && !Intact(segs, blocks, AsContent) {
      UnambiguousFits(segs, blocks);
      HitsShow(segs, blocks);
    }
    if BracketFree(blocks) && !Intact(segs, blocks, AsContent) {
      forall x | x in segs && x.Chip? ensures OPEN !in WriteBlock(AsContent, x.block) {
        assert x.block in blocks;
      }
      CountOpenSpell(segs, AsContent);
    }
  }

  lemma UnambiguousFits(segs: seq<Seg>, blocks: seq<PasteBlock>)
    requires Unambiguous(segs, blocks)
    ensures Fitting(segs, blocks)
  {
  }

  lemma RoundsAreLabels(segs: seq<Seg>, blocks: seq<PasteBlock>)
    requires Held(segs, blocks) && forall b :: b in blocks ==> Sane(b)
    ensures Spell(Rounds(segs, blocks, AsLabel), AsMarker) == Spell(segs, AsLabel) <==> Intact(segs, blocks, AsLabel)
  {
    RoundsExact(segs, blocks, AsLabel);
    ExpandedIsSpelled(segs, blocks);
    LabelsAreClean(blocks);
    if !Intact(segs, blocks, AsLabel) {
      forall x | x in segs && x.Chip? ensures OPEN !in WriteBlock(AsLabel, x.block) {
        assert x.block in blocks;
      }
      CountOpenSpell(segs, AsLabel);
    }
  }

  // ----- Replacing a stretch of the marked text -----

  lemma SpellParts(segs: seq<Seg>, i: nat, j: nat, writing: Writing)
    requires i <= j <= |segs|
    ensures Spell(segs, writing) == Spell(segs[..i], writing) + Spell(segs[i..j], writing) + Spell(segs[j..], writing)
    ensures Spell(segs[..j], writing) == Spell(segs[..i], writing) + Spell(segs[i..j], writing)
    ensures Spell(segs, writing) == Spell(segs[..j], writing) + Spell(segs[j..], writing)
  {
    assert segs == segs[..j] + segs[j..] && segs[..j] == segs[..i] + segs[i..j];
    SpellConcat(segs[..j], segs[j..], writing);
    SpellConcat(segs[..i], segs[i..j], writing);
  }

  /** Replacing the bytes between two seams replaces the segments between them. */
  lemma ReplaceSegs(segs: seq<Seg>, i: nat, j: nat, with: seq<Seg>)
    requires i <= j <= |segs|
    ensures ReplaceRange(Spell(segs, AsMarker), ByteLen(Spell(segs[..i], AsMarker)),
                         ByteLen(Spell(segs[..j], AsMarker)), Spell(with, AsMarker)) ==
            Some(Spell(Spliced(segs, i, j, with), AsMarker))
  {
    var a, cut, b := Spell(segs[..i], AsMarker), Spell(segs[i..j], AsMarker), Spell(segs[j..], AsMarker);
    SpellParts(segs, i, j, AsMarker);
    SpellSpliced(segs, i, j, with, AsMarker);
    CutText(a, cut, b, Spell(with, AsMarker));
  }

  lemma CutText(a: string, cut: string, b: string, with: string)
    ensures ReplaceRange(a + cut + b, ByteLen(a), ByteLen(a + cut), with) == Some(a + with + b)
  {
    var s := a + cut + b;
    assert s[..|a|] == a && s[..|a| + |cut|] == a + cut && s[|a| + |cut|..] == b;
    ReplaceRangeAt(s, |a|, |a| + |cut|, with);
  }

  lemma SplicedHeld(segs: seq<Seg>, i: nat, j: nat, with: seq<Seg>, blocks: seq<PasteBlock>)
    requires i <= j <= |segs| && Held(segs, blocks) && Held(with, blocks)
    ensures Held(Spliced(segs, i, j, with), blocks)
  {
    var t := Spliced(segs, i, j, with);
    forall n | 0 <= n < |t| && t[n].Chip? ensures t[n].block in blocks {
      assert t[n] == if n < i then segs[n] else if n < i + |with| then with[n - i] else segs[n - i - |with| + j];
    }
  }

  /** `content` is the marked text of `segs`, whose pastes are all among `blocks`. */
  ghost predicate Stands(content: string, segs: seq<Seg>, blocks: seq<PasteBlock>) {
    content == Spell(segs, AsMarker) && Held(segs, blocks) && forall b :: b in blocks ==> Sane(b)
  }

  /** Byte offset `pos` lies between segments, not inside a marker: just before segment `k`. */
  ghost predicate SeamAt(segs: seq<Seg>, pos: nat, k: nat) {
    k <= |segs| && pos == ByteLen(Spell(segs[..k], AsMarker))
  }

  /** Seams lie in the order of their segments. */
  lemma SeamOrder(segs: seq<Seg>, p: nat, i: nat, q: nat, j: nat)
    requires SeamAt(segs, p, i) && SeamAt(segs, q, j)
    ensures p < q <==> i < j
  {
    if i < j {
      SeamLess(segs, i, j);
    } else if j < i {
      SeamLess(segs, j, i);
    }
  }

  lemma SeamLess(segs: seq<Seg>, i: nat, j: nat)
    requires i < j <= |segs|
    ensures ByteLen(Spell(segs[..i], AsMarker)) < ByteLen(Spell(segs[..j], AsMarker))
  {
    var cut := Spell(segs[i..j], AsMarker);
    SpellParts(segs, i, j, AsMarker);
    ByteLenConcat(Spell(segs[..i], AsMarker), cut);
    assert cut == Write(segs[i..j][0], AsMarker) + Spell(segs[i..j][1..], AsMarker);
    assert cut[..|cut| - 1] == cut[..|cut| - 1];
  }

  lemma ReplaceStands(content: string, segs: seq<Seg>, blocks: seq<PasteBlock>, from: nat, i: nat, to: nat, j: nat,
                      s: string, meaning: seq<Seg>)
    requires Stands(content, segs, blocks) && i <= j && SeamAt(segs, from, i) && SeamAt(segs, to, j)
    requires s == Spell(meaning, AsMarker) && Held(meaning, blocks)
    ensures var t := ReplaceRange(content, from, to, s);
            t.Some? && Stands(t.value, Spliced(segs, i, j, meaning), blocks)
    ensures SeamAt(Spliced(segs, i, j, meaning), from + ByteLen(s), i + |meaning|)
  {
    ReplaceSegs(segs, i, j, meaning);
    SpellSpliced(segs, i, j, meaning, AsMarker);
    SplicedHeld(segs, i, j, meaning, blocks);
    ByteLenConcat(Spell(segs[..i], AsMarker), s);
  }

  /** Seams before the stretch stay where they are. */
  lemma SeamStays(segs: seq<Seg>, i: nat, j: nat, with: seq<Seg>, pos: nat, k: nat)
    requires k <= i <= j <= |segs| && SeamAt(segs, pos, k)
    ensures SeamAt(Spliced(segs, i, j, with), pos, k)
  {
    assert Spliced(segs, i, j, with)[..k] == segs[..k];
  }

  /** Ids are handed out in order and the counter saturates; until it does, ids are distinct. */
  ghost predicate Numbered(blocks: seq<PasteBlock>, next: nat, collapsed: nat) {
    && next == (if collapsed < U32_MAX then collapsed + 1 else U32_MAX)
    && (collapsed <= U32_MAX ==> DistinctIds(blocks, collapsed))
  }

  /** The ends of the selection lie between segments, where the model says. */
  ghost predicate SelAt(segs: seq<Seg>, selection: Option<(nat, nat)>, sel: Option<(nat, nat)>) {
    && (selection.None? <==> sel.None?)
    && (sel.Some? ==> SeamAt(segs, selection.value.0, sel.value.0) && SeamAt(segs, selection.value.1, sel.value.1))
  }

  /** Text, cursor and selection of the box are those of the editor over segments. */
  ghost predicate Shows(content: string, cursor: nat, selection: Option<(nat, nat)>, e: Editor<Seg>,
                        blocks: seq<PasteBlock>) {
    Stands(content, e.text, blocks) && SeamAt(e.text, cursor, e.at) && SelAt(e.text, selection, e.sel)
  }

  /** The same for a whole model. */
  ghost predicate Agrees(content: string, cursor: nat, selection: Option<(nat, nat)>, m: Model,
                         blocks: seq<PasteBlock>) {
    WellFormed(m) && Shows(content, cursor, selection, m.editor, blocks)
  }

  lemma InsertShows(content: string, cursor: nat, selection: Option<(nat, nat)>, e: Editor<Seg>,
                    blocks: seq<PasteBlock>, s: string, meaning: seq<Seg>)
    requires Shows(content, cursor, selection, e, blocks) && Placed(e) && !HasSel(e)
    requires s == Spell(meaning, AsMarker) && Held(meaning, blocks)
    ensures var t := ReplaceRange(content, cursor, cursor, s);
            t.Some? && Shows(t.value, cursor + ByteLen(s), selection, Inserted(e, meaning), blocks)
  {
    ReplaceStands(content, e.text, blocks, cursor, e.at, cursor, e.at, s, meaning);
    if e.sel.Some? {
      SeamStays(e.text, e.at, e.at, meaning, selection.value.0, e.sel.value.0);
      SeamStays(e.text, e.at, e.at, meaning, selection.value.1, e.sel.value.1);
    }
  }

  method InsertText(content: string, cursor: nat, s: string, ghost selection: Option<(nat, nat)>, ghost m: Model,
                    ghost blocks: seq<PasteBlock>, ghost meaning: seq<Seg>) returns (text: string)
    requires Agrees(content, cursor, selection, m, blocks) && !HasSel(m.editor)
    requires s == Spell(meaning, AsMarker) && Held(meaning, blocks) && SolidSegs(meaning)
    ensures Agrees(text, cursor + ByteLen(s), selection, m.(editor := Inserted(m.editor, meaning)), blocks)
  {
    InsertShows(content, cursor, selection, m.editor, blocks, s, meaning);
    SplicedSolid(m.editor.text, m.editor.at, m.editor.at, meaning);
    text := ReplaceRange(content, cursor, cursor, s).value;
  }

  lemma DeleteShows(content: string, cursor: nat, selection: Option<(nat, nat)>, e: Editor<Seg>,
                    blocks: seq<PasteBlock>, start: nat, end: nat)
    requires Shows(content, cursor, selection, e, blocks) && Placed(e) && e.sel.Some?
    requires SeamAt(e.text, start, Picked(e).0) && SeamAt(e.text, end, Picked(e).1)
    ensures var t := ReplaceRange(content, start, end, "");
            t.Some? && Shows(t.value, start, None, Deleted(e), blocks)
  {
    var (i, j) := Picked(e);
    ReplaceStands(content, e.text, blocks, start, i, end, j, "", []);
  }

  method DeleteText(content: string, start: nat, end: nat, ghost cursor: nat, ghost selection: Option<(nat, nat)>,
                    ghost m: Model, ghost blocks: seq<PasteBlock>) returns (text: string)
    requires Agrees(content, cursor, selection, m, blocks) && m.editor.sel.Some?
    requires SeamAt(m.editor.text, start, Picked(m.editor).0) && SeamAt(m.editor.text, end, Picked(m.editor).1)
    ensures Agrees(text, start, None, m.(editor := Deleted(m.editor)), blocks)
  {
    DeleteShows(content, cursor, selection, m.editor, blocks, start, end);
    SplicedSolid(m.editor.text, Picked(m.editor).0, Picked(m.editor).1, []);
    text := ReplaceRange(content, start, end, "").value;
  }

  lemma ReleaseAgrees(content: string, cursor: nat, selection: Option<(nat, nat)>, m: Model, blocks: seq<PasteBlock>)
    requires Agrees(content, cursor, selection, m, blocks)
    ensures var left := if selection.Some? && selection.value.0 != selection.value.1 then selection else None;
            Agrees(content, cursor, left, m.(editor := Released(m.editor)), blocks)
  {
    if selection.Some? {
      SeamOrder(m.editor.text, selection.value.0, m.editor.sel.value.0, selection.value.1, m.editor.sel.value.1);
      SeamOrder(m.editor.text, selection.value.1, m.editor.sel.value.1, selection.value.0, m.editor.sel.value.0);
    }
  }

  class InputState {
    var content: string
    var cursor: nat                       // byte offset into content
    var selection: Option<(nat, nat)>     // byte offsets, in either order
    var mouseSelecting: bool
    var pasteBlocks: seq<PasteBlock>
    var nextPasteId: nat
    var attachments: seq<Attachment>
    ghost var model: Model
    ghost var collapsed: nat              // pastes collapsed so far

    ghost predicate Valid()
      reads this
    {
      Agrees(content, cursor, selection, model, pasteBlocks) && Accounts()
    }

    /** What does not depend on the text. */
    ghost predicate Accounts()
      reads this
    {
      && mouseSelecting == model.editor.dragging && nextPasteId == model.nextId && attachments == model.attachments
      && Numbered(pasteBlocks, nextPasteId, collapsed)
    }

    /** The text an editor without markers would hold. */
    ghost function Plain(): string
      reads this
    {
      Spell(model.editor.text, AsContent)
    }

    constructor ()
      ensures Valid() && model == Empty && collapsed == 0 && pasteBlocks == []
    {
      content, cursor, selection, mouseSelecting := "", 0, None, false;
      pasteBlocks, nextPasteId, attachments := [], 1, [];
      model, collapsed := Empty, 0;
    }

    predicate HasSelection()
      reads this
    {
      selection.Some? && selection.value.0 != selection.value.1
    }

    lemma SelectionAgrees()
      requires Valid()
      ensures HasSelection() == HasSel(model.editor)
      ensures selection.Some? ==>
                var (a, b) := selection.value;
                var (from, to) := if a < b then (a, b) else (b, a);
                && SeamAt(model.editor.text, from, Picked(model.editor).0)
                && SeamAt(model.editor.text, to, Picked(model.editor).1)
    {
      if selection.Some? {
        var (a, b) := selection.value;
        var (i, j) := model.editor.sel.value;
        SeamOrder(model.editor.text, a, i, b, j);
        SeamOrder(model.editor.text, b, j, a, i);
      }
    }

    method SetText(text: string, at: nat, sel: Option<(nat, nat)>, ghost after: Editor<Seg>)
      requires Accounts() && Agrees(text, at, sel, model.(editor := after), pasteBlocks)
      requires after.dragging == model.editor.dragging
      modifies this`content, this`cursor, this`selection, this`model
      ensures Valid() && model == old(model).(editor := after)
      ensures content == text && cursor == at && selection == sel
    {
      content, cursor, selection := text, at, sel;
      model := model.(editor := after);
    }

    /** Delete what is selected, if only an empty stretch, and forget the selection. */
    method DeleteSelection()
      requires Valid()
      modifies this`content, this`cursor, this`selection, this`model, this`pasteBlocks
      ensures Valid() && selection.None?
      ensures old(model).editor.sel.None? ==> model == old(model) && pasteBlocks == old(pasteBlocks)
      ensures old(model).editor.sel.Some? ==>
                && model == old(model).(editor := Deleted(old(model).editor))
                && pasteBlocks == Retain(old(pasteBlocks), Spell(Deleted(old(model).editor).text, AsMarker))
    {
      if selection.None? {
        return;
      }
      SelectionAgrees();
      var (a, b) := selection.value;
      var (start, end) := if a < b then (a, b) else (b, a);
      DrainContent(start, end);
      GcPasteBlocks();
    }

    /** Take the selected stretch out of the text and leave the cursor there. */
    method DrainContent(start: nat, end: nat)
      requires Valid() && model.editor.sel.Some?
      requires SeamAt(model.editor.text, start, Picked(model.editor).0) &&
                 SeamAt(model.editor.text, end, Picked(model.editor).1)
      modifies this`content, this`cursor, this`selection, this`model
      ensures Valid() && model == old(model).(editor := Deleted(old(model).editor))
    {
      var text := DeleteText(content, start, end, cursor, selection, model, pasteBlocks);
      SetText(text, start, None, Deleted(model.editor));
    }

    /** Keep exactly the blocks whose marker is in the text, in order; no paste in the text loses its
        block. */
    method GcPasteBlocks()
      requires Valid()
      modifies this`pasteBlocks
      ensures Valid() && pasteBlocks == Retain(old(pasteBlocks), content)
      ensures forall b :: b in pasteBlocks <==> b in old(pasteBlocks) && Contains(content, Marker(b))
    {
      RetainStands(content, model.editor.text, pasteBlocks);
      RetainNumbered(pasteBlocks, content, nextPasteId, collapsed);
      RetainKeeps(pasteBlocks, content);
      pasteBlocks := Retain(pasteBlocks, content);
    }

    /** `insert_str` at the cursor; `meaning` is what the inserted text stands for. */
    method InsertStr(s: string, ghost meaning: seq<Seg>)
      requires Valid() && !HasSel(model.editor)
      requires s == Spell(meaning, AsMarker) && Held(meaning, pasteBlocks) && SolidSegs(meaning)
      modifies this`content, this`cursor, this`selection, this`model
      ensures Valid() && model == old(model).(editor := Inserted(old(model).editor, meaning))
    {
      var text := InsertText(content, cursor, s, selection, model, pasteBlocks, meaning);
      SetText(text, cursor + ByteLen(s), selection, Inserted(model.editor, meaning));
    }

    method InsertLiteral(s: string)
      requires Valid() && !HasSel(model.editor)
      modifies this`content, this`cursor, this`selection, this`model
      ensures Valid() && model == old(model).(editor := Inserted(old(model).editor, Lits(s)))
    {
      SpellLits(s, AsMarker);
      InsertStr(s, Lits(s));
    }

    /** Delete the selection, if there is one. */
    method ClearWay()
      requires Valid()
      modifies this`content, this`cursor, this`selection, this`model, this`pasteBlocks
      ensures Valid() && model == old(model).(editor := Cleared(old(model).editor))
      ensures pasteBlocks == Kept(old(pasteBlocks), old(model).editor)
    {
      SelectionAgrees();
      if HasSelection() {
        DeleteSelection();
      }
    }

    /** A printable key. */
    method TypeChar(c: char)
      requires Valid()
      modifies this`content, this`cursor, this`selection, this`model, this`pasteBlocks
      ensures Valid() && model == old(model).(editor := Replaced(old(model).editor, [Lit(c)]))
      ensures pasteBlocks == Kept(old(pasteBlocks), old(model).editor)
    {
      ClearWay();
      assert Lits([c]) == [Lit(c)];
      InsertLiteral([c]);
    }

    /** A newline at the cursor or over the selection. */
    method InsertNewline()
      requires Valid()
      modifies this`content, this`cursor, this`selection, this`model, this`pasteBlocks
      ensures Valid() && model == old(model).(editor := Replaced(old(model).editor, [Lit('\n')]))
      ensures pasteBlocks == Kept(old(pasteBlocks), old(model).editor)
    {
      ClearWay();
      assert Lits("\n") == [Lit('\n')];
      InsertLiteral("\n");
    }

    method SetBlocks(blocks: seq<PasteBlock>, next: nat)
      requires mouseSelecting == model.editor.dragging && attachments == model.attachments
      requires Agrees(content, cursor, selection, model.(nextId := next), blocks)
      requires Numbered(blocks, next, collapsed + 1)
      modifies this`model, this`pasteBlocks, this`nextPasteId, this`collapsed
      ensures Valid() && collapsed == old(collapsed) + 1
      ensures model == old(model).(nextId := next) && pasteBlocks == blocks
    {
      pasteBlocks, nextPasteId := blocks, next;
      model, collapsed := model.(nextId := next), collapsed + 1;
    }

    /** Store a paste as a block. */
    method StoreBlock(text: string) returns (id: nat)
      requires Valid() && Collapses(text)
      modifies this`model, this`pasteBlocks, this`nextPasteId, this`collapsed
      ensures Valid() && collapsed == old(collapsed) + 1 && id == old(model).nextId
      ensures model == old(model).(nextId := NextId(id)) && pasteBlocks == old(pasteBlocks) + [NewBlock(id, text)]
    {
      id := nextPasteId;
      var block := NewBlock(id, text);
      PushAgrees(content, cursor, selection, model, pasteBlocks, block);
      PushNumbered(pasteBlocks, id, collapsed, block);
      SetBlocks(pasteBlocks + [block], if nextPasteId < U32_MAX then nextPasteId + 1 else U32_MAX);
    }

    /** Store a long paste as a block and put its marker at the cursor. */
    method InsertBlock(text: string)
      requires Valid() && !HasSel(model.editor) && Collapses(text) && text != ""
      modifies this`content, this`cursor, this`selection, this`model, this`pasteBlocks, this`nextPasteId, this`collapsed
      ensures Valid() && collapsed == old(collapsed) + 1
      ensures pasteBlocks == old(pasteBlocks) + [NewBlock(old(model).nextId, text)]
      ensures model == old(model).(editor := Inserted(old(model).editor, [Chip(NewBlock(old(model).nextId, text))]),
                                   nextId := NextId(old(model).nextId))
    {
      var id := StoreBlock(text);
      ghost var block := NewBlock(id, text);
      SpellOne(Chip(block), AsMarker);
      assert Held([Chip(block)], pasteBlocks) by {
        assert block == pasteBlocks[|pasteBlocks| - 1];
      }
      InsertStr(PasteMarker(id, PastedLines(text), |text|), [Chip(block)]);
    }

    /** A paste at the cursor, inline when it is short and as a block when it is not. */
    method InsertPaste(text: string)
      requires Valid() && !HasSel(model.editor) && !IsBareNewline(text)
      modifies this`content, this`cursor, this`selection, this`model, this`pasteBlocks, this`nextPasteId, this`collapsed
      ensures Valid() && collapsed == old(collapsed) + (if Collapses(text) then 1 else 0)
      ensures model == old(model).(editor := Inserted(old(model).editor, Pasted(old(model), text)),
                                   nextId := if Collapses(text) then NextId(old(model).nextId) else old(model).nextId)
      ensures pasteBlocks == old(pasteBlocks) + if Collapses(text) then [NewBlock(old(model).nextId, text)] else []
    {
      CollapsesIsText(text);
      if Collapses(text) {
        InsertBlock(text);
      } else {
        InsertLiteral(text);
      }
    }

    /** A paste over the selection or at the cursor. */
    method PasteOver(text: string)
      requires Valid() && !IsBareNewline(text)
      modifies this`content, this`cursor, this`selection, this`model, this`pasteBlocks, this`nextPasteId, this`collapsed
      ensures Valid() && collapsed == old(collapsed) + (if Collapses(text) then 1 else 0)
      ensures model == old(model).(editor := Replaced(old(model).editor, Pasted(old(model), text)),
                                   nextId := if Collapses(text) then NextId(old(model).nextId) else old(model).nextId)
      ensures pasteBlocks == Kept(old(pasteBlocks), old(model).editor)
                             + if Collapses(text) then [NewBlock(old(model).nextId, text)] else []
    {
      ClearWay();
      InsertPaste(text);
    }

    method Attach(att: Attachment)
      requires Valid()
      modifies this`attachments, this`model
      ensures Valid() && model == old(model).(attachments := Attached(old(model).attachments, att))
      ensures attachments == Attached(old(attachments), att)
    {
      if !exists i :: 0 <= i < |attachments| && attachments[i].path == att.path {
        attachments := attachments + [att];
      }
      model := model.(attachments := attachments);
    }

    /** Pasting. A bare line break pastes as a newline, the path of an existing file becomes an
        attachment instead, and any other text goes over the selection or to the cursor, as a block if
        it is long. */
    method PasteText(text: string, classify: Classifier)
      requires Valid()
      modifies this
      ensures Valid() && model == Step(old(model), Paste(text), classify)
      ensures pasteBlocks == Storing(old(pasteBlocks), old(model), Paste(text), classify)
      ensures collapsed == old(collapsed) + (if IsInserted(text, classify) && Collapses(text) then 1 else 0)
    {
      if text == "" {
        return;
      }
      CollapsesIsText(text);
      if IsBareNewline(text) {
        InsertNewline();
        return;
      }
      if IsPath(text, classify) {
        Attach(classify(Trim(text)).value);
        return;
      }
      PasteOver(text);
    }

    /** `begin_mouse_select` at a place between segments. */
    method BeginMouseSelect(pos: nat, ghost k: nat)
      requires Valid() && SeamAt(model.editor.text, pos, k)
      modifies this`content, this`cursor, this`selection, this`mouseSelecting, this`model
      ensures Valid() && model == old(model).(editor := Pressed(old(model).editor, k))
    {
      ghost var after := Pressed(model.editor, k);
      mouseSelecting := true;
      model := model.(editor := model.editor.(dragging := true));
      SetText(content, pos, Some((pos, pos)), after);
    }

    /** `update_mouse_select`. */
    method UpdateMouseSelect(pos: nat, ghost k: nat)
      requires Valid() && SeamAt(model.editor.text, pos, k)
      modifies this`content, this`cursor, this`selection, this`model
      ensures Valid() && model == old(model).(editor := Dragged(old(model).editor, k))
    {
      if mouseSelecting {
        var sel := Some((if selection.Some? then selection.value.0 else pos, pos));
        SetText(content, pos, sel, Dragged(model.editor, k));
      }
    }

    /** `end_mouse_select`. */
    method EndMouseSelect()
      requires Valid()
      modifies this`selection, this`mouseSelecting, this`model
      ensures Valid() && model == old(model).(editor := Released(old(model).editor))
    {
      ReleaseAgrees(content, cursor, selection, model, pasteBlocks);
      mouseSelecting := false;
      if !HasSelection() {
        selection := None;
      }
      model := model.(editor := Released(model.editor));
    }

    /** The text to display: every paste shows as its label, exactly when no typed text spells a stored
        marker. */
    method DisplayContent() returns (out: string)
      requires Valid()
      ensures out == Spell(model.editor.text, AsLabel) <==> Intact(model.editor.text, pasteBlocks, AsLabel)
    {
      out := ReplaceMarkers(content, pasteBlocks, AsLabel, model.editor.text);
      RoundsAreLabels(model.editor.text, pasteBlocks);
    }

    /** The message to submit, which reads back as the attachments and the body. If no paste is shadowed by
        an earlier block with its marker, which cannot happen before 2^32 pastes have been collapsed, the
        body is the plain text exactly when in no round typed text spells the marker being replaced; if
        that never happens, exactly when no paste is shadowed; and if no stored paste holds the bracket,
        exactly when neither happens. */
    method ComposeSubmitMessage() returns (message: string)
      requires Valid()
      ensures var body := Spell(Rounds(model.editor.text, pasteBlocks, AsContent), AsMarker);
              && message == Message(attachments, body)
              && (attachments != [] && OneLinePaths(attachments) ==> ReadMessage(message) == (attachments, body))
      ensures var segs := model.editor.text;
              var right := message == Message(attachments, Plain());
              && (Intact(segs, pasteBlocks, AsContent) ==> (right <==> Unambiguous(segs, pasteBlocks)))
              && (Unambiguous(segs, pasteBlocks) ==> (right <==> Intact(segs, pasteBlocks, AsContent)))
              && (BracketFree(pasteBlocks) ==>
                    (right <==> Intact(segs, pasteBlocks, AsContent) && Unambiguous(segs, pasteBlocks)))
              && (collapsed <= U32_MAX ==> Unambiguous(segs, pasteBlocks))
    {
      ghost var segs := model.editor.text;
      var body := ReplaceMarkers(content, pasteBlocks, AsContent, segs);
      RoundsAreContents(segs, pasteBlocks);
      NumberedIsUnambiguous(segs, pasteBlocks, nextPasteId, collapsed);
      MessageTellsBody(attachments, body, Plain());
      if attachments != [] && OneLinePaths(attachments) {
        MessageReads(attachments, body);
      }
      message := Message(attachments, body);
    }
  }

  /** The loop over the blocks, each marker replaced in turn. */
  method ReplaceMarkers(content: string, blocks: seq<PasteBlock>, writing: Writing, ghost segs: seq<Seg>)
    returns (text: string)
    requires content == Spell(segs, AsMarker)
    ensures text == Spell(Rounds(segs, blocks, writing), AsMarker)
  {
    text := content;
    for n := 0 to |blocks|
      invariant text == Spell(Rounds(segs, blocks[..n], writing), AsMarker)
    {
      RoundsNext(segs, blocks, n, writing);
      text := Replace(text, PasteMarker(blocks[n].id, blocks[n].lines, blocks[n].chars),
                      WriteBlock(writing, blocks[n]));
    }
    assert blocks[..|blocks|] == blocks;
  }

  lemma RoundsNext(segs: seq<Seg>, blocks: seq<PasteBlock>, n: nat, writing: Writing)
    requires n < |blocks|
    ensures Spell(Rounds(segs, blocks[..n + 1], writing), AsMarker) ==
            Replace(Spell(Rounds(segs, blocks[..n], writing), AsMarker), Marker(blocks[n]),
                    WriteBlock(writing, blocks[n]))
  {
    var now := blocks[..n + 1];
    assert now[..n] == blocks[..n] && now[n] == blocks[n];
    ExpandIsReplace(Rounds(segs, blocks[..n], writing), blocks[n], WriteBlock(writing, blocks[n]));
  }

  lemma NumberedIsUnambiguous(segs: seq<Seg>, blocks: seq<PasteBlock>, next: nat, collapsed: nat)
    requires Numbered(blocks, next, collapsed) && Held(segs, blocks)
    ensures collapsed <= U32_MAX ==> Unambiguous(segs, blocks)
  {
    if collapsed <= U32_MAX {
      DistinctIsUnambiguous(segs, blocks, collapsed);
    }
  }

  lemma PushAgrees(content: string, cursor: nat, selection: Option<(nat, nat)>, m: Model, blocks: seq<PasteBlock>,
                   block: PasteBlock)
    requires Agrees(content, cursor, selection, m, blocks) && Sane(block)
    ensures Agrees(content, cursor, selection, m.(nextId := NextId(m.nextId)), blocks + [block])
  {
  }

  lemma PushNumbered(blocks: seq<PasteBlock>, id: nat, collapsed: nat, block: PasteBlock)
    requires Numbered(blocks, id, collapsed) && block.id == id
    ensures Numbered(blocks + [block], NextId(id), collapsed + 1)
  {
  }

  lemma {:induction false} ContainsAfter(a: string, s: string, part: string)
    requires Contains(s, part)
    ensures Contains(a + s, part)
  {
    if a == "" {
      assert a + s == s;
    } else {
      assert (a + s)[1..] == a[1..] + s;
      ContainsAfter(a[1..], s, part);
    }
  }

  /** The marker of every paste in the text occurs in it. */
  lemma ContainsHeld(segs: seq<Seg>)
    ensures forall i :: 0 <= i < |segs| && segs[i].Chip? ==> Contains(Spell(segs, AsMarker), Marker(segs[i].block))
  {
    forall i | 0 <= i < |segs| && segs[i].Chip? ensures Contains(Spell(segs, AsMarker), Marker(segs[i].block)) {
      ContainsChip(segs, i);
    }
  }

  lemma {:induction false} ContainsChip(segs: seq<Seg>, i: nat)
    requires i < |segs| && segs[i].Chip?
    ensures Contains(Spell(segs, AsMarker), Marker(segs[i].block))
    decreases i
  {
    if i > 0 {
      ContainsChip(segs[1..], i - 1);
      ContainsAfter(Write(segs[0], AsMarker), Spell(segs[1..], AsMarker), Marker(segs[i].block));
    }
  }

  lemma {:induction false} RetainKeeps(blocks: seq<PasteBlock>, content: string)
    ensures forall b :: b in Retain(blocks, content) <==> b in blocks && Contains(content, Marker(b))
  {
    if blocks != [] {
      var n := |blocks| - 1;
      RetainKeeps(blocks[..n], content);
      assert blocks == blocks[..n] + [blocks[n]];
    }
  }

  lemma RetainStands(content: string, segs: seq<Seg>, blocks: seq<PasteBlock>)
    requires Stands(content, segs, blocks)
    ensures Stands(content, segs, Retain(blocks, content))
  {
    ContainsHeld(segs);
    RetainKeeps(blocks, content);
  }

  lemma RetainNumbered(blocks: seq<PasteBlock>, content: string, next: nat, collapsed: nat)
    requires Numbered(blocks, next, collapsed)
    ensures Numbered(Retain(blocks, content), next, collapsed)
  {
    if collapsed <= U32_MAX {
      RetainDistinct(blocks, content, collapsed);
    }
  }

  lemma {:induction false} RetainDistinct(blocks: seq<PasteBlock>, content: string, limit: nat)
    requires DistinctIds(blocks, limit)
    ensures DistinctIds(Retain(blocks, content), limit)
  {
    if blocks != [] {
      var n := |blocks| - 1;
      var kept := Retain(blocks[..n], content);
      RetainDistinct(blocks[..n], content, limit);
      RetainKeeps(blocks[..n], content);
      forall b | b in kept ensures b.id != blocks[n].id {
        assert b in blocks[..n];
      }
      DistinctAppend(kept, blocks[n], limit);
    }
  }

  lemma DistinctAppend(blocks: seq<PasteBlock>, b: PasteBlock, limit: nat)
    requires DistinctIds(blocks, limit) && b.id <= limit && forall x :: x in blocks ==> x.id != b.id
    ensures DistinctIds(blocks + [b], limit)
  {
  }

  /** Once the counter is saturated, two different pastes with the same line and character counts
      get the same marker, and the second is expanded to the text of the first. */
  lemma SaturatedPastesCollide(x: string, y: string)
    requires PastedLines(x) == PastedLines(y) && |x| == |y| && x != y
    ensures var a, b := NewBlock(U32_MAX, x), NewBlock(U32_MAX, y);
            Marker(a) == Marker(b) && !Unambiguous([Chip(a), Chip(b)], [a, b])
  {
    var a, b := NewBlock(U32_MAX, x), NewBlock(U32_MAX, y);
    assert FirstWith([a, b], Marker(b)) == Some(a);
    assert [Chip(a), Chip(b)][1] == Chip(b);
  }
}
