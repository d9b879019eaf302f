/** Whole sessions with the input box: any keys, then submission, beside an editor without markers. */
module PasteSession {
  import opened Sequences
  import opened Text
  import opened PasteMarkers
  import opened PasteModel
  import opened PasteWeight
  import opened PasteMessage
  import opened PasteBuffer

  /** The blocks stored after the keys. */
  function Stored(keys: seq<Key>, classify: Classifier): seq<PasteBlock> {
    if keys == [] then []
    else
      var n := |keys| - 1;
      Storing(Stored(keys[..n], classify), Edited(keys[..n], classify), keys[n], classify)
  }

  /** The message after the keys: every stored marker replaced, in the order in which they are stored. */
  function Submitted(keys: seq<Key>, classify: Classifier): string {
    var m := Edited(keys, classify);
    Message(m.attachments, Spell(Rounds(m.editor.text, Stored(keys, classify), AsContent), AsMarker))
  }

  /** The message of an editor without markers after the same keys. */
  function PlainMessage(keys: seq<Key>, classify: Classifier): string {
    Message(Edited(keys, classify).attachments, Reference(keys, classify).text)
  }

  /** In no round does typed or inline text spell the marker being replaced. */
  predicate Unspoilt(keys: seq<Key>, classify: Classifier) {
    Intact(Edited(keys, classify).editor.text, Stored(keys, classify), AsContent)
  }

  /** No paste in the text is shadowed by another one with its marker. */
  predicate Unshadowed(keys: seq<Key>, classify: Classifier) {
    Unambiguous(Edited(keys, classify).editor.text, Stored(keys, classify))
  }

  predicate Bracketless(key: Key) {
    match key
    case Type(c) => c != OPEN
    case Paste(text) => OPEN !in text
    case _ => true
  }

  // ----- Text without the opening bracket -----

  predicate Quiet(segs: seq<Seg>) { Lit(OPEN) !in segs }

  lemma QuietReplaced(e: Editor<Seg>, with: seq<Seg>)
    requires Placed(e) && Quiet(e.text) && Quiet(with)
    ensures Quiet(Replaced(e, with).text)
  {
    var c := Cleared(e);
    assert Quiet(c.text);
  }

  lemma QuietStep(m: Model, key: Key, classify: Classifier)
    requires WellFormed(m) && Quiet(m.editor.text) && Bracketless(key)
    ensures Quiet(Step(m, key, classify).editor.text)
  {
    match key {
      case Type(c) => QuietReplaced(m.editor, [Lit(c)]);
      case Newline => QuietReplaced(m.editor, [Lit('\n')]);
      case Paste(text) =>
        assert Quiet(Lits(text));
        QuietReplaced(m.editor, Pasted(m, text));
      case _ =>
    }
  }

  lemma StoringFree(blocks: seq<PasteBlock>, m: Model, key: Key, classify: Classifier)
    requires WellFormed(m) && BracketFree(blocks) && Bracketless(key)
    ensures BracketFree(Storing(blocks, m, key, classify))
  {
    if HasSel(m.editor) {
      RetainKeeps(blocks, Spell(Deleted(m.editor).text, AsMarker));
    }
    assert BracketFree(Kept(blocks, m.editor));
  }

  /** If no key brings the bracket, none is in the text or in a stored paste. */
  lemma {:induction false} QuietRuns(keys: seq<Key>, classify: Classifier)
    requires forall key :: key in keys ==> Bracketless(key)
    ensures Quiet(Edited(keys, classify).editor.text) && BracketFree(Stored(keys, classify))
    decreases |keys|
  {
    if keys != [] {
      var n := |keys| - 1;
      var m := Edited(keys[..n], classify);
      assert keys[n] in keys && forall key :: key in keys[..n] ==> key in keys;
      QuietRuns(keys[..n], classify);
      QuietStep(m, keys[n], classify);
      StoringFree(Stored(keys[..n], classify), m, keys[n], classify);
    }
  }

  lemma QuietSession(keys: seq<Key>, classify: Classifier)
    ensures (forall key :: key in keys ==> Bracketless(key)) ==>
              Unspoilt(keys, classify) && BracketFree(Stored(keys, classify))
  {
    if forall key :: key in keys ==> Bracketless(key) {
      QuietRuns(keys, classify);
      QuietIntact(Edited(keys, classify).editor.text, Stored(keys, classify));
    }
  }

  lemma QuietIntact(segs: seq<Seg>, blocks: seq<PasteBlock>)
    requires Quiet(segs) && BracketFree(blocks)
    ensures Intact(segs, blocks, AsContent)
  {
    OpenLitsNone(segs);
    ContentIsClean(blocks);
    BracketlessIntact(segs, blocks, AsContent);
  }

  // ----- The box follows the model -----

  /** One key. Mouse places are places between segments. */
  method Press(box: InputState, m: Model, key: Key, classify: Classifier)
    requires box.Valid() && box.model == m
    modifies box
    ensures box.Valid() && box.model == Step(m, key, classify)
    ensures box.pasteBlocks == Storing(old(box.pasteBlocks), m, key, classify)
    ensures box.collapsed <= old(box.collapsed) + 1
  {
    match key
    case Type(c) => box.TypeChar(c);
    case Newline => box.InsertNewline();
    case Paste(text) => box.PasteText(text, classify);
    case MouseDown(place) =>
      var k := Clamped(m.editor, place);
      box.BeginMouseSelect(ByteLen(Spell(m.editor.text[..k], AsMarker)), k);
    case MouseMove(place) =>
      var k := Clamped(m.editor, place);
      box.UpdateMouseSelect(ByteLen(Spell(m.editor.text[..k], AsMarker)), k);
    case MouseUp => box.EndMouseSelect();
  }

  /** A fresh box and any keys. */
  method Play(keys: seq<Key>, classify: Classifier) returns (box: InputState)
    ensures fresh(box) && box.Valid() && box.model == Edited(keys, classify)
    ensures box.pasteBlocks == Stored(keys, classify) && box.collapsed <= |keys|
  {
    box := new InputState();
    var m := Empty;
    for i := 0 to |keys|
      invariant box.Valid() && fresh(box) && box.model == m && m == Edited(keys[..i], classify)
      invariant box.pasteBlocks == Stored(keys[..i], classify) && box.collapsed <= i
    {
      TakeNext(keys, i);
      AfterKey(keys[..i], keys[i], classify);
      Press(box, m, keys[i], classify);
      m := Step(m, keys[i], classify);
    }
    assert keys[..|keys|] == keys;
  }

  /** A fresh box, any keys, submission. Up to 2^32 - 1 keys, the message is that of the editor without
      markers exactly when in no round of the expansion typed text spells the marker being replaced,
      which keys without the opening bracket cannot bring about; beyond, exactly when, besides, no paste
      is shadowed, provided that not both happen or no stored paste holds the bracket. */
  method Session(keys: seq<Key>, classify: Classifier) returns (message: string)
    ensures message == Submitted(keys, classify)
    ensures var attached := Edited(keys, classify).attachments;
            attached != [] && OneLinePaths(attached) ==> ReadMessage(message).0 == attached
    ensures |keys| <= U32_MAX && (forall key :: key in keys ==> Bracketless(key)) ==>
              message == PlainMessage(keys, classify)
    ensures Unspoilt(keys, classify) ==> (message == PlainMessage(keys, classify) <==> Unshadowed(keys, classify))
    ensures Unshadowed(keys, classify) ==> (message == PlainMessage(keys, classify) <==> Unspoilt(keys, classify))
    ensures BracketFree(Stored(keys, classify)) ==>
              (message == PlainMessage(keys, classify) <==> Unspoilt(keys, classify) && Unshadowed(keys, classify))
    ensures |keys| <= U32_MAX ==>
              Unshadowed(keys, classify) && (message == PlainMessage(keys, classify) <==> Unspoilt(keys, classify))
    ensures (forall key :: key in keys ==> Bracketless(key)) ==>
              Unspoilt(keys, classify) && BracketFree(Stored(keys, classify))
  {
    var box := Play(keys, classify);
    message := box.ComposeSubmitMessage();
    QuietSession(keys, classify);
  }

  // ----- Typing the marker of a stored paste -----

  lemma AfterKey(keys: seq<Key>, key: Key, classify: Classifier)
    ensures Edited(keys + [key], classify) == Step(Edited(keys, classify), key, classify)
    ensures Stored(keys + [key], classify) == Storing(Stored(keys, classify), Edited(keys, classify), key, classify)
  {
    assert (keys + [key])[..|keys|] == keys;
  }

  lemma TypeAtEnd(m: Model, c: char, classify: Classifier)
    requires WellFormed(m) && m.editor.at == |m.editor.text| && m.editor.sel.None?
    ensures Step(m, Type(c), classify) ==
            m.(editor := m.editor.(text := m.editor.text + [Lit(c)], at := m.editor.at + 1))
  {
    assert Spliced(m.editor.text, m.editor.at, m.editor.at, [Lit(c)]) == m.editor.text + [Lit(c)];
  }

  lemma FirstPaste(text: string, classify: Classifier)
    requires IsInserted(text, classify) && Collapses(text)
    ensures var b := NewBlock(1, text);
            && Edited([Paste(text)], classify) == Model(Editor([Chip(b)], 1, None, false), 2, [])
            && Stored([Paste(text)], classify) == [b]
  {
    AfterKey([], Paste(text), classify);
    assert [] + [Paste(text)] == [Paste(text)];
    assert Spliced<Seg>([], 0, 0, [Chip(NewBlock(1, text))]) == [Chip(NewBlock(1, text))];
  }

  lemma TypingNext(s: string)
    requires s != ""
    ensures Typing(s) == Typing(s[..|s| - 1]) + [Type(s[|s| - 1])] && Lits(s) == Lits(s[..|s| - 1]) + [Lit(s[|s| - 1])]
  {
  }

  /** A long paste, then the keys of `s`: what the box holds. */
  lemma {:induction false} PasteThenType(text: string, s: string, classify: Classifier)
    requires IsInserted(text, classify) && Collapses(text)
    ensures var b, keys := NewBlock(1, text), [Paste(text)] + Typing(s);
            && Edited(keys, classify) == Model(Editor([Chip(b)] + Lits(s), 1 + |s|, None, false), 2, [])
            && Stored(keys, classify) == [b]
  {
    var chip := Chip(NewBlock(1, text));
    if s == "" {
      FirstPaste(text, classify);
      NilRight([Paste(text)]);
      NilRight([chip]);
      assert Typing(s) == [] && Lits(s) == [];
    } else {
      var n := |s| - 1;
      PasteThenType(text, s[..n], classify);
      TypingNext(s);
      Assoc([Paste(text)], Typing(s[..n]), [Type(s[n])]);
      Assoc([chip], Lits(s[..n]), [Lit(s[n])]);
      AfterKey([Paste(text)] + Typing(s[..n]), Type(s[n]), classify);
      TypeAtEnd(Edited([Paste(text)] + Typing(s[..n]), classify), s[n], classify);
    }
  }

  /** A paste followed by its own marker: the expansion takes the typed text for the paste. */
  lemma MarkerTwice(b: PasteBlock)
    ensures var segs := [Chip(b)] + Lits(Marker(b));
            && Spell(Rounds(segs, [b], AsContent), AsMarker) == b.content + b.content
            && Spell(segs, AsContent) == b.content + Marker(b)
  {
    var mark := Marker(b);
    SpellLits(mark, AsMarker);
    SpellLits(mark, AsContent);
    SpellAfter(b, Lits(mark), AsMarker);
    SpellAfter(b, Lits(mark), AsContent);
    OneRound([Chip(b)] + Lits(mark), b);
    ReplaceHits(mark, mark, b.content);
    ReplaceAll(mark, b.content);
  }

  lemma SpellAfter(b: PasteBlock, rest: seq<Seg>, writing: Writing)
    ensures Spell([Chip(b)] + rest, writing) == WriteBlock(writing, b) + Spell(rest, writing)
  {
    assert ([Chip(b)] + rest)[1..] == rest;
  }

  lemma OneRound(segs: seq<Seg>, b: PasteBlock)
    ensures Spell(Rounds(segs, [b], AsContent), AsMarker) == Replace(Spell(segs, AsMarker), Marker(b), b.content)
  {
    assert [b][..0] == [];
    ExpandIsReplace(segs, b, b.content);
  }

  lemma ReplaceAll(pattern: string, with: string)
    requires pattern != ""
    ensures Replace(pattern, pattern, with) == with
  {
    ReplaceHits("", pattern, with);
    NilRight(pattern);
    NilRight(with);
  }

  lemma MarkerIsHit(seg: Seg, b: PasteBlock)
    ensures Hit([seg] + Lits(Marker(b)), b)
  {
    var segs := [seg] + Lits(Marker(b));
    SpellLits(Marker(b), AsMarker);
    assert segs[1..] == Lits(Marker(b)) && segs[1..][0] == Lit(OPEN);
    assert TypedMarker(segs[1..], b);
    assert Hit(segs[1..], b);
  }

  lemma MarkerTwiceSpoilt(b: PasteBlock)
    ensures !Intact([Chip(b)] + Lits(Marker(b)), [b], AsContent)
  {
    var segs := [Chip(b)] + Lits(Marker(b));
    MarkerIsHit(Chip(b), b);
    FlatNone(segs, AsContent);
    assert [b][..0] == [] && [b][0] == b;
    assert Hit(Flat(segs, [b][..0], AsContent), [b][0]);
  }

  /** A long paste followed by its own marker, typed key by key, submits as two copies of the paste. */
  lemma TypedMarkerLost(text: string, classify: Classifier)
    requires IsInserted(text, classify) && Collapses(text)
    ensures var keys := [Paste(text)] + Typing(Marker(NewBlock(1, text)));
            && Submitted(keys, classify) == text + text
            && PlainMessage(keys, classify) == text + Marker(NewBlock(1, text))
            && Submitted(keys, classify) != PlainMessage(keys, classify) && !Unspoilt(keys, classify)
  {
    var b := NewBlock(1, text);
    var keys := [Paste(text)] + Typing(Marker(b));
    PasteThenType(text, Marker(b), classify);
    assert Stored(keys, classify) == [b] && Edited(keys, classify).editor.text == [Chip(b)] + Lits(Marker(b));
    MarkerTwice(b);
    assert Reference(keys, classify).text == Spell([Chip(b)] + Lits(Marker(b)), AsContent);
    MarkerTwiceSpoilt(b);
    StoredOutweighs(b);
    ContentOutweighs(b);
    SplitSame(text, Marker(b));
  }

  lemma SplitSame(a: string, b: string)
    ensures a + a == a + b <==> a == b
  {
    if a + a == a + b {
      assert a == (a + a)[|a|..] && b == (a + b)[|a|..];
    }
  }
}
