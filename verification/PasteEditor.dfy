/** What the input box promises its user: how typing, pasting and the mouse combine, which pastes
    collapse and how they are labelled, and what is attached. */
module PasteEditor {
  import opened Sequences
  import opened Text
  import opened PasteMarkers
  import opened PasteModel
  import opened CellText

  // ----- Keys in the editor without markers -----

  function PlainRun(e: Editor<char>, keys: seq<Key>, classify: Classifier): (r: Editor<char>)
    requires Placed(e)
    ensures Placed(r)
    decreases |keys|
  {
    if keys == [] then e else PlainRun(PlainStep(e, keys[0], classify), keys[1..], classify)
  }

  lemma InsertedTwice(e: Editor<char>, a: string, b: string)
    requires Placed(e) && !HasSel(e)
    ensures Inserted(Inserted(e, a), b) == Inserted(e, a + b)
  {
    assert e.text[..e.at] + a + b + e.text[e.at..] == e.text[..e.at] + (a + b) + e.text[e.at..];
    var once := Inserted(e, a);
    assert once.text[..once.at] == e.text[..e.at] + a && once.text[once.at..] == e.text[e.at..];
  }

  lemma TypingFirst(s: string)
    requires s != ""
    ensures Typing(s) == [Type(s[0])] + Typing(s[1..]) && s == [s[0]] + s[1..]
  {
  }

  lemma RunType(e: Editor<char>, c: char, rest: seq<Key>, classify: Classifier)
    requires Placed(e)
    ensures PlainRun(e, [Type(c)] + rest, classify) == PlainRun(Replaced(e, [c]), rest, classify)
  {
    assert ([Type(c)] + rest)[1..] == rest;
  }

  lemma InsertedNothing(e: Editor<char>)
    requires Placed(e) && !HasSel(e)
    ensures Inserted(e, "") == e
  {
    assert e.text[..e.at] + "" + e.text[e.at..] == e.text;
  }

  lemma {:induction false} TypedRun(e: Editor<char>, s: string, classify: Classifier)
    requires Placed(e) && !HasSel(e)
    ensures PlainRun(e, Typing(s), classify) == Inserted(e, s)
    decreases |s|
  {
    if s == "" {
      InsertedNothing(e);
    } else {
      TypingFirst(s);
      RunType(e, s[0], Typing(s[1..]), classify);
      TypedRun(Inserted(e, [s[0]]), s[1..], classify);
      InsertedTwice(e, [s[0]], s[1..]);
    }
  }

  lemma TypedOver(e: Editor<char>, c: char, rest: string, classify: Classifier)
    requires Placed(e)
    ensures PlainRun(Replaced(e, [c]), Typing(rest), classify) == Replaced(e, [c] + rest)
  {
    TypedRun(Replaced(e, [c]), rest, classify);
    InsertedTwice(Cleared(e), [c], rest);
  }

  lemma TypedText(e: Editor<char>, text: string, classify: Classifier)
    requires Placed(e) && text != ""
    ensures PlainRun(e, Typing(text), classify) == Replaced(e, text)
  {
    TypingFirst(text);
    RunType(e, text[0], Typing(text[1..]), classify);
    TypedOver(e, text[0], text[1..], classify);
  }

  predicate IsBreak(text: string) { text in {"\n", "\r\n", "\r"} }

  /** Pasting text is typing its characters one by one, unless it is a bare line break or the path of a file. */
  lemma PastingIsTyping(e: Editor<char>, text: string, classify: Classifier)
    requires Placed(e) && text != "" && !IsBreak(text)
    requires '\n' in Trim(text) || classify(Trim(text)).None?
    ensures PlainStep(e, Paste(text), classify) == PlainRun(e, Typing(text), classify)
  {
    TypedText(e, text, classify);
    assert !IsBareNewline(text);
  }

  /** Pasting a bare line break is pressing the newline key, which is typing a newline. */
  lemma BreakIsNewline(e: Editor<char>, text: string, classify: Classifier)
    requires Placed(e) && IsBreak(text)
    ensures PlainStep(e, Paste(text), classify) == PlainStep(e, Newline, classify)
    ensures PlainStep(e, Newline, classify) == PlainStep(e, Type('\n'), classify)
  {
  }

  /** Press, drag and release: what lies between the two places is selected. */
  lemma DragSelects(e: Editor<char>, a: nat, b: nat, classify: Classifier)
    requires Placed(e)
    ensures var i, j := Clamped(e, a), Clamped(e, b);
            var dragged := PlainStep(PlainStep(e, MouseDown(a), classify), MouseMove(b), classify);
            PlainStep(dragged, MouseUp, classify) == Editor(e.text, j, if i == j then None else Some((i, j)), false)
  {
  }

  /** Typing over a selection, its ends in either order. */
  lemma TypeOver(text: string, i: nat, j: nat, c: char)
    requires i <= |text| && j <= |text|
    ensures var e := Editor(text, j, if i == j then None else Some((i, j)), false);
            var lo, hi := if i < j then i else j, if i < j then j else i;
            Replaced(e, [c]) == Editor(text[..lo] + [c] + text[hi..], lo + 1, None, false)
  {
    var lo, hi := if i < j then i else j, if i < j then j else i;
    if i != j {
      Emptied(text, lo, hi);
    }
  }

  lemma Emptied(text: string, lo: nat, hi: nat)
    requires lo <= hi <= |text|
    ensures var s := text[..lo] + [] + text[hi..]; s[..lo] == text[..lo] && s[lo..] == text[hi..]
  {
  }

  /** Press, drag, release and type: what lies between the two places, in either order, gives way to what
      is typed; when the places are the same, it goes between. Places behind the end are its end. */
  lemma DragThenType(e: Editor<char>, a: nat, b: nat, c: char, classify: Classifier)
    requires Placed(e)
    ensures var n := |e.text|;
            var i, j := if a < n then a else n, if b < n then b else n;
            var lo, hi := if i < j then i else j, if i < j then j else i;
            var dragged := PlainStep(PlainStep(e, MouseDown(a), classify), MouseMove(b), classify);
            PlainStep(PlainStep(dragged, MouseUp, classify), Type(c), classify) ==
            Editor(e.text[..lo] + [c] + e.text[hi..], lo + 1, None, false)
  {
    DragSelects(e, a, b, classify);
    TypeOver(e.text, Clamped(e, a), Clamped(e, b), c);
  }

  /** Moving the mouse without the button, or letting go when nothing is selected, changes no text and no
      cursor. */
  lemma MouseKeepsText(e: Editor<char>, place: nat, classify: Classifier)
    requires Placed(e)
    ensures !e.dragging ==> PlainStep(e, MouseMove(place), classify) == e
    ensures PlainStep(e, MouseUp, classify) == e.(dragging := false, sel := if HasSel(e) then e.sel else None)
    ensures PlainStep(e, MouseDown(place), classify).text == e.text
  {
  }

  // ----- Which pastes collapse -----

  lemma CountOne(c: char)
    ensures CountNewlines([c]) == if c == '\n' then 1 else 0
  {
    assert [c][1..] == "";
  }

  lemma CountLast(s: string)
    requires s != ""
    ensures var n := |s| - 1; CountNewlines(s) == CountNewlines(s[..n]) + (if s[n] == '\n' then 1 else 0)
  {
    var n := |s| - 1;
    assert s == s[..n] + [s[n]];
    CountConcat(s[..n], [s[n]]);
    CountOne(s[n]);
  }

  /** A paste collapses exactly when it has 80 characters, or a line behind its first one. */
  lemma CollapsesExactly(text: string)
    ensures Collapses(text) <==> |text| >= 80 || exists i :: 0 <= i < |text| - 1 && text[i] == '\n'
  {
    if text != "" {
      var n := |text| - 1;
      CountLast(text);
      CountNone(text[..n]);
      if '\n' in text[..n] {
        var i :| 0 <= i < n && text[..n][i] == '\n';
        assert text[i] == '\n';
      }
    }
  }

  lemma {:induction false} LinesCount(s: string, k: nat)
    requires k <= |s| && '\n' !in s[..k]
    ensures s != "" ==> |LinesFrom(s, k)| == CountNewlines(s) + (if s[|s| - 1] == '\n' then 0 else 1)
    decreases |s|, |s| - k
  {
    if s != "" {
      if k == |s| {
        TakeAll(s);
        CountNone(s);
      } else if s[k] == '\n' {
        var rest := s[k + 1..];
        LinesCount(rest, 0);
        assert s == s[..k] + [s[k]] + rest;
        CountConcat(s[..k] + [s[k]], rest);
        CountConcat(s[..k], [s[k]]);
        CountOne(s[k]);
        CountNone(s[..k]);
        assert rest != "" ==> rest[|rest| - 1] == s[|s| - 1];
      } else {
        TakeNext(s, k);
        LinesCount(s, k + 1);
      }
    }
  }

  /** The lines that a paste is said to have are the lines it has. */
  lemma PastedLinesCount(text: string)
    requires text != ""
    ensures PastedLines(text) == |Lines(text)|
  {
    LinesCount(text, 0);
    CountLast(text);
  }

  /** A label tells the number of lines, in decimal. */
  lemma LabelTells(n: nat)
    ensures var s := Label(n);
            && |s| > 15 && s[..8] == "[pasted " && s[|s| - 7..] == " lines]"
            && AllDigits(s[8..|s| - 7]) && DigitsValue(s[8..|s| - 7]) == n
  {
    var s := Label(n);
    assert s[8..|s| - 7] == Decimal(n);
    DecimalRoundTrip(n);
  }

  // ----- What is attached -----

  function PathsIn(attachments: seq<Attachment>): set<string> { set a | a in attachments :: a.path }

  predicate DistinctPaths(attachments: seq<Attachment>) {
    forall i, j :: 0 <= i < j < |attachments| ==> attachments[i].path != attachments[j].path
  }

  /** The paths of the files and folders that were pasted. */
  function PastedPaths(keys: seq<Key>, classify: Classifier): set<string> {
    if keys == [] then {}
    else
      var n := |keys| - 1;
      PastedPaths(keys[..n], classify) +
      match keys[n]
      case Paste(text) =>
        if text != "" && !IsBreak(text) && '\n' !in Trim(text) && classify(Trim(text)).Some?
        then {classify(Trim(text)).value.path} else {}
      case _ => {}
  }

  lemma AttachedOne(attachments: seq<Attachment>, att: Attachment)
    requires DistinctPaths(attachments)
    ensures var after := Attached(attachments, att);
            && DistinctPaths(after) && attachments <= after && PathsIn(after) == PathsIn(attachments) + {att.path}
            && (att.path !in PathsIn(attachments) ==> att in after)
  {
  }

  /** After any keys, exactly the pasted paths are attached, each once, and none is ever dropped. */
  lemma {:induction false} AttachedExactly(keys: seq<Key>, classify: Classifier)
    ensures var attached := Edited(keys, classify).attachments;
            && DistinctPaths(attached) && PathsIn(attached) == PastedPaths(keys, classify)
            && (keys != [] ==> Edited(keys[..|keys| - 1], classify).attachments <= attached)
  {
    if keys != [] {
      var n := |keys| - 1;
      AttachedExactly(keys[..n], classify);
      var m := Edited(keys[..n], classify);
      match keys[n] {
        case Paste(text) =>
          if text != "" && IsPath(text, classify) {
            AttachedOne(m.attachments, classify(Trim(text)).value);
          }
        case _ =>
      }
    }
  }
}
