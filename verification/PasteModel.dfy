/** What the input box means: an editor over segments, and the editor over plain characters it is
    compared with. Both are the same editor; only what they hold differs. */
module PasteModel {
  import opened Text
  import opened PasteMarkers

  const PASTE_COLLAPSE_LINES: nat := 2
  const PASTE_COLLAPSE_CHARS: nat := 80
  const U32_MAX: nat := 0xFFFF_FFFF

  // ----- What a paste becomes -----

  function CountNewlines(s: string): nat {
    if s == "" then 0 else (if s[0] == '\n' then 1 else 0) + CountNewlines(s[1..])
  }

  lemma {:induction false} CountConcat(a: string, b: string)
    ensures CountNewlines(a + b) == CountNewlines(a) + CountNewlines(b)
  {
    if a == "" {
      assert a + b == b;
    } else {
      assert (a + b)[0] == a[0] && (a + b)[1..] == a[1..] + b;
      CountConcat(a[1..], b);
    }
  }

  lemma {:induction false} CountNone(s: string)
    ensures CountNewlines(s) == 0 <==> '\n' !in s
  {
    if s != "" {
      CountNone(s[1..]);
      assert s == [s[0]] + s[1..];
    }
  }

  /** Lines of a paste, a trailing newline not opening a new one. */
  function PastedLines(text: string): nat {
    var n := CountNewlines(text);
    if text != "" && text[|text| - 1] == '\n' then (if n < 1 then 1 else n) else n + 1
  }

  predicate Collapses(text: string) {
    PastedLines(text) >= PASTE_COLLAPSE_LINES || |text| >= PASTE_COLLAPSE_CHARS
  }

  predicate IsBareNewline(text: string) { text == "\n" || text == "\r\n" || text == "\r" }

  datatype AttachmentKind = FileKind | FolderKind | ImageKind

  datatype Attachment = Attachment(kind: AttachmentKind, path: string)

  /** What the file system makes of a path. */
  type Classifier = string -> Option<Attachment>

  /** The path of an existing file or folder. */
  predicate IsPath(text: string, classify: Classifier) {
    !IsBareNewline(text) && '\n' !in Trim(text) && classify(Trim(text)).Some?
  }

  /** A paste that goes into the text as it is. */
  predicate IsInserted(text: string, classify: Classifier) {
    text != "" && !IsBareNewline(text) && !IsPath(text, classify)
  }

  /** One attachment for each path. */
  function Attached(attachments: seq<Attachment>, att: Attachment): seq<Attachment> {
    if exists i :: 0 <= i < |attachments| && attachments[i].path == att.path then attachments else attachments + [att]
  }

  function NewBlock(id: nat, text: string): PasteBlock { PasteBlock(id, text, PastedLines(text), |text|) }

  function NextId(id: nat): nat { if id < U32_MAX then id + 1 else U32_MAX }

  // ----- An editor -----

  function Spliced<T>(s: seq<T>, i: nat, j: nat, with: seq<T>): seq<T>
    requires i <= j <= |s|
  {
    s[..i] + with + s[j..]
  }

  /** Text, a cursor and a selection, its ends in either order; an empty selection selects nothing. */
  datatype Editor<T> = Editor(text: seq<T>, at: nat, sel: Option<(nat, nat)>, dragging: bool)

  predicate HasSel<T>(e: Editor<T>) { e.sel.Some? && e.sel.value.0 != e.sel.value.1 }

  /** Cursor and selection lie in the text; an empty selection does not lie after the cursor. */
  predicate Placed<T>(e: Editor<T>) {
    && e.at <= |e.text|
    && (e.sel.Some? ==>
          && e.sel.value.0 <= |e.text| && e.sel.value.1 <= |e.text|
          && (e.sel.value.0 == e.sel.value.1 ==> e.sel.value.0 <= e.at))
  }

  /** The stretch that is selected. */
  function Picked<T>(e: Editor<T>): (p: (nat, nat))
    requires Placed(e) && e.sel.Some?
    ensures p.0 <= p.1 <= |e.text| && (p.0 < p.1 <==> HasSel(e))
  {
    if e.sel.value.0 < e.sel.value.1 then e.sel.value else (e.sel.value.1, e.sel.value.0)
  }

  function Deleted<T>(e: Editor<T>): (d: Editor<T>)
    requires Placed(e) && e.sel.Some?
    ensures Placed(d) && !HasSel(d)
  {
    var (i, j) := Picked(e);
    e.(text := Spliced(e.text, i, j, []), at := i, sel := None)
  }

  function Cleared<T>(e: Editor<T>): (d: Editor<T>)
    requires Placed(e)
    ensures Placed(d) && !HasSel(d)
  {
    if HasSel(e) then Deleted(e) else e
  }

  function Inserted<T>(e: Editor<T>, with: seq<T>): (d: Editor<T>)
    requires Placed(e) && !HasSel(e)
    ensures Placed(d) && !HasSel(d)
  {
    e.(text := Spliced(e.text, e.at, e.at, with), at := e.at + |with|)
  }

  /** Insertion over the selection or at the cursor. */
  function Replaced<T>(e: Editor<T>, with: seq<T>): (d: Editor<T>)
    requires Placed(e)
    ensures Placed(d) && !HasSel(d)
  {
    Inserted(Cleared(e), with)
  }

  function Clamped<T>(e: Editor<T>, place: nat): nat { if place <= |e.text| then place else |e.text| }

  /** The mouse button goes down: the cursor is there, and an empty selection. */
  function Pressed<T>(e: Editor<T>, place: nat): (d: Editor<T>)
    ensures Placed(d)
  {
    var k := Clamped(e, place);
    e.(at := k, sel := Some((k, k)), dragging := true)
  }

  /** The mouse moves: with the button down, the selection follows. */
  function Dragged<T>(e: Editor<T>, place: nat): (d: Editor<T>)
    requires Placed(e)
    ensures Placed(d)
  {
    var k := Clamped(e, place);
    if e.dragging then e.(at := k, sel := Some((if e.sel.Some? then e.sel.value.0 else k, k))) else e
  }

  function Released<T>(e: Editor<T>): (d: Editor<T>)
    requires Placed(e)
    ensures Placed(d)
  {
    e.(dragging := false, sel := if HasSel(e) then e.sel else None)
  }

  // ----- What the user does -----

  datatype Key =
    | Type(c: char)
    | Newline
    | Paste(text: string)
    | MouseDown(place: nat)
    | MouseMove(place: nat)
    | MouseUp

  /** The keys that type a text. */
  function Typing(s: string): (keys: seq<Key>)
    ensures |keys| == |s|
  {
    seq(|s|, i requires 0 <= i < |s| => Type(s[i]))
  }

  /** The input box over segments. */
  datatype Model = Model(editor: Editor<Seg>, nextId: nat, attachments: seq<Attachment>)

  predicate SolidSegs(segs: seq<Seg>) { forall x :: x in segs && x.Chip? ==> x.block.content != "" }

  predicate WellFormed(m: Model) { Placed(m.editor) && SolidSegs(m.editor.text) }

  const Empty: Model := Model(Editor([], 0, None, false), 1, [])

  function Pasted(m: Model, text: string): (seg: seq<Seg>) {
    if IsBareNewline(text) then [Lit('\n')]
    else if Collapses(text) then [Chip(NewBlock(m.nextId, text))]
    else Lits(text)
  }

  function Step(m: Model, key: Key, classify: Classifier): Model
    requires WellFormed(m)
  {
    match key
    case Type(c) => m.(editor := Replaced(m.editor, [Lit(c)]))
    case Newline => m.(editor := Replaced(m.editor, [Lit('\n')]))
    case Paste(text) =>
      if text == "" then m
      else if IsPath(text, classify) then m.(attachments := Attached(m.attachments, classify(Trim(text)).value))
      else m.(editor := Replaced(m.editor, Pasted(m, text)),
              nextId := if !IsBareNewline(text) && Collapses(text) then NextId(m.nextId) else m.nextId)
    case MouseDown(place) => m.(editor := Pressed(m.editor, place))
    case MouseMove(place) => m.(editor := Dragged(m.editor, place))
    case MouseUp => m.(editor := Released(m.editor))
  }

  /** The same in the editor without markers. */
  function PlainStep(e: Editor<char>, key: Key, classify: Classifier): Editor<char>
    requires Placed(e)
  {
    match key
    case Type(c) => Replaced(e, [c])
    case Newline => Replaced(e, "\n")
    case Paste(text) =>
      if text == "" || IsPath(text, classify) then e else Replaced(e, if IsBareNewline(text) then "\n" else text)
    case MouseDown(place) => Pressed(e, place)
    case MouseMove(place) => Dragged(e, place)
    case MouseUp => Released(e)
  }

  // ----- The blocks kept beside the text -----

  /** The blocks whose marker is in the text. */
  function Retain(blocks: seq<PasteBlock>, content: string): seq<PasteBlock> {
    if blocks == [] then []
    else
      var n := |blocks| - 1;
      Retain(blocks[..n], content) + (if Contains(content, Marker(blocks[n])) then [blocks[n]] else [])
  }

  /** The blocks left when the selection, if there is one, has been deleted. */
  function Kept(blocks: seq<PasteBlock>, e: Editor<Seg>): seq<PasteBlock>
    requires Placed(e)
  {
    if HasSel(e) then Retain(blocks, Spell(Deleted(e).text, AsMarker)) else blocks
  }

  function Storing(blocks: seq<PasteBlock>, m: Model, key: Key, classify: Classifier): seq<PasteBlock>
    requires WellFormed(m)
  {
    match key
    case Type(_) => Kept(blocks, m.editor)
    case Newline => Kept(blocks, m.editor)
    case Paste(text) =>
      if text == "" || IsPath(text, classify) then blocks
      else if Collapses(text) then Kept(blocks, m.editor) + [NewBlock(m.nextId, text)]
      else Kept(blocks, m.editor)
    case _ => blocks
  }

  // ----- The plain text behind the segments -----

  function PlainAt(segs: seq<Seg>, i: nat): nat
    requires i <= |segs|
  {
    |Spell(segs[..i], AsContent)|
  }

  function PlainOf(e: Editor<Seg>): Editor<char>
    requires Placed(e)
  {
    Editor(Spell(e.text, AsContent), PlainAt(e.text, e.at),
           if e.sel.Some? then Some((PlainAt(e.text, e.sel.value.0), PlainAt(e.text, e.sel.value.1))) else None,
           e.dragging)
  }

  /** A place in the box, as a place in the plain text. */
  function Translate(m: Model, key: Key): Key {
    match key
    case MouseDown(place) => MouseDown(PlainAt(m.editor.text, Clamped(m.editor, place)))
    case MouseMove(place) => MouseMove(PlainAt(m.editor.text, Clamped(m.editor, place)))
    case _ => key
  }

  lemma PlainPrefix(segs: seq<Seg>, i: nat)
    requires i <= |segs|
    ensures Spell(segs, AsContent) == Spell(segs[..i], AsContent) + Spell(segs[i..], AsContent)
    ensures PlainAt(segs, i) <= |Spell(segs, AsContent)|
    ensures Spell(segs, AsContent)[..PlainAt(segs, i)] == Spell(segs[..i], AsContent)
    ensures Spell(segs, AsContent)[PlainAt(segs, i)..] == Spell(segs[i..], AsContent)
  {
    assert segs == segs[..i] + segs[i..];
    SpellConcat(segs[..i], segs[i..], AsContent);
  }

  lemma {:induction false} SolidSpell(segs: seq<Seg>)
    requires SolidSegs(segs) && segs != []
    ensures Spell(segs, AsContent) != ""
  {
    assert segs[0] in segs;
  }

  /** Different places are different in the plain text, and in the same order. */
  lemma PlainOrder(segs: seq<Seg>, i: nat, j: nat)
    requires SolidSegs(segs) && i <= |segs| && j <= |segs|
    ensures i < j <==> PlainAt(segs, i) < PlainAt(segs, j)
  {
    if i < j {
      PlainLess(segs, i, j);
    } else if j < i {
      PlainLess(segs, j, i);
    }
  }

  lemma PlainLess(segs: seq<Seg>, i: nat, j: nat)
    requires SolidSegs(segs) && i < j <= |segs|
    ensures PlainAt(segs, i) < PlainAt(segs, j)
  {
    assert segs[..j] == segs[..i] + segs[i..j];
    SpellConcat(segs[..i], segs[i..j], AsContent);
    assert forall x :: x in segs[i..j] ==> x in segs;
    SolidSpell(segs[i..j]);
  }

  lemma PlainPlaced(e: Editor<Seg>)
    requires Placed(e) && SolidSegs(e.text)
    ensures Placed(PlainOf(e)) && HasSel(PlainOf(e)) == HasSel(e)
    ensures HasSel(e) ==> Picked(PlainOf(e)) == (PlainAt(e.text, Picked(e).0), PlainAt(e.text, Picked(e).1))
  {
    PlainPrefix(e.text, e.at);
    if e.sel.Some? {
      var (i, j) := e.sel.value;
      PlainPrefix(e.text, i);
      PlainPrefix(e.text, j);
      PlainOrder(e.text, i, j);
      PlainOrder(e.text, j, i);
      PlainOrder(e.text, e.at, i);
    }
  }

  lemma SpellSpliced(segs: seq<Seg>, i: nat, j: nat, with: seq<Seg>, writing: Writing)
    requires i <= j <= |segs|
    ensures Spell(Spliced(segs, i, j, with), writing) ==
            Spell(segs[..i], writing) + Spell(with, writing) + Spell(segs[j..], writing)
    ensures Spell(Spliced(segs, i, j, with)[..i + |with|], writing) == Spell(segs[..i], writing) + Spell(with, writing)
  {
    SpellConcat(segs[..i] + with, segs[j..], writing);
    SpellConcat(segs[..i], with, writing);
    assert Spliced(segs, i, j, with)[..i + |with|] == segs[..i] + with;
  }

  lemma PlainSpliced(segs: seq<Seg>, i: nat, j: nat, with: seq<Seg>)
    requires i <= j <= |segs|
    ensures PlainAt(segs, i) <= PlainAt(segs, j) <= |Spell(segs, AsContent)|
    ensures Spell(Spliced(segs, i, j, with), AsContent) ==
            Spliced(Spell(segs, AsContent), PlainAt(segs, i), PlainAt(segs, j), Spell(with, AsContent))
    ensures PlainAt(Spliced(segs, i, j, with), i + |with|) == PlainAt(segs, i) + |Spell(with, AsContent)|
    ensures forall k: nat :: k <= i ==> PlainAt(Spliced(segs, i, j, with), k) == PlainAt(segs, k)
  {
    PlainPrefix(segs, i);
    PlainPrefix(segs, j);
    assert segs[..j] == segs[..i] + segs[i..j];
    SpellConcat(segs[..i], segs[i..j], AsContent);
    SpellSpliced(segs, i, j, with, AsContent);
    forall k: nat | k <= i ensures PlainAt(Spliced(segs, i, j, with), k) == PlainAt(segs, k) {
      assert Spliced(segs, i, j, with)[..k] == segs[..k];
    }
  }

  lemma SplicedSolid(segs: seq<Seg>, i: nat, j: nat, with: seq<Seg>)
    requires i <= j <= |segs| && SolidSegs(segs) && SolidSegs(with)
    ensures SolidSegs(Spliced(segs, i, j, with))
  {
  }

  lemma PlainCleared(e: Editor<Seg>)
    requires Placed(e) && SolidSegs(e.text)
    ensures SolidSegs(Cleared(e).text)
    ensures Placed(PlainOf(e)) && PlainOf(Cleared(e)) == Cleared(PlainOf(e))
  {
    PlainPlaced(e);
    if HasSel(e) {
      var (i, j) := Picked(e);
      PlainSpliced(e.text, i, j, []);
      SplicedSolid(e.text, i, j, []);
    }
  }

  lemma PlainInserted(e: Editor<Seg>, with: seq<Seg>)
    requires Placed(e) && !HasSel(e) && SolidSegs(e.text) && SolidSegs(with)
    ensures SolidSegs(Inserted(e, with).text)
    ensures Placed(PlainOf(e)) && !HasSel(PlainOf(e))
    ensures PlainOf(Inserted(e, with)) == Inserted(PlainOf(e), Spell(with, AsContent))
  {
    PlainPlaced(e);
    PlainSpliced(e.text, e.at, e.at, with);
    SplicedSolid(e.text, e.at, e.at, with);
  }

  lemma PlainReplaced(e: Editor<Seg>, with: seq<Seg>)
    requires Placed(e) && SolidSegs(e.text) && SolidSegs(with)
    ensures SolidSegs(Replaced(e, with).text)
    ensures Placed(PlainOf(e)) && PlainOf(Replaced(e, with)) == Replaced(PlainOf(e), Spell(with, AsContent))
  {
    PlainCleared(e);
    PlainInserted(Cleared(e), with);
  }

  lemma CollapsesIsText(text: string)
    ensures Collapses(text) ==> text != "" && !IsBareNewline(text)
  {
    if IsBareNewline(text) {
      assert CountNewlines(text) <= 1 by {
        assert text[1..] == "" || text[1..] == "\n";
        assert CountNewlines("\n") == 1 by {
          assert "\n"[1..] == "";
        }
      }
    }
  }

  lemma PastedSolid(m: Model, text: string)
    ensures SolidSegs(Pasted(m, text))
    ensures Spell(Pasted(m, text), AsContent) == if IsBareNewline(text) then "\n" else text
  {
    CollapsesIsText(text);
    SpellLits(text, AsContent);
    SpellOne(Lit('\n'), AsContent);
    SpellOne(Chip(NewBlock(m.nextId, text)), AsContent);
  }

  /** The box and the plain editor stay in step, whatever the user does. */
  lemma StepCommutes(m: Model, key: Key, classify: Classifier)
    requires WellFormed(m)
    ensures WellFormed(Step(m, key, classify)) && Placed(PlainOf(m.editor))
    ensures PlainOf(Step(m, key, classify).editor) == PlainStep(PlainOf(m.editor), Translate(m, key), classify)
  {
    PlainPlaced(m.editor);
    match key {
      case Type(c) =>
        SpellOne(Lit(c), AsContent);
        PlainReplaced(m.editor, [Lit(c)]);
      case Newline =>
        SpellOne(Lit('\n'), AsContent);
        PlainReplaced(m.editor, [Lit('\n')]);
      case Paste(text) =>
        if text != "" && !IsPath(text, classify) {
          PastedSolid(m, text);
          PlainReplaced(m.editor, Pasted(m, text));
        }
      case MouseDown(place) => PlainPrefix(m.editor.text, Clamped(m.editor, place));
      case MouseMove(place) => PlainPrefix(m.editor.text, Clamped(m.editor, place));
      case MouseUp =>
    }
  }

  // ----- Whole runs -----

  /** The box after the keys. */
  function Edited(keys: seq<Key>, classify: Classifier): (m: Model)
    ensures WellFormed(m)
  {
    if keys == [] then Empty
    else
      var n := |keys| - 1;
      StepCommutes(Edited(keys[..n], classify), keys[n], classify);
      Step(Edited(keys[..n], classify), keys[n], classify)
  }

  /** The plain editor after the same keys, each mouse place taken where the user saw it. */
  function Reference(keys: seq<Key>, classify: Classifier): (e: Editor<char>)
    ensures Placed(e)
    ensures e == PlainOf(Edited(keys, classify).editor)
  {
    if keys == [] then Editor("", 0, None, false)
    else
      var n := |keys| - 1;
      StepCommutes(Edited(keys[..n], classify), keys[n], classify);
      PlainStep(Reference(keys[..n], classify), Translate(Edited(keys[..n], classify), keys[n]), classify)
  }
}
