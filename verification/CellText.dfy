/** Hard wrapping of the text of a table cell. */
module CellText {
  import opened Sequences
  import opened StyledText

  function StripReturn(s: string): string {
    if s != "" && s[|s| - 1] == '\r' then s[..|s| - 1] else s
  }

  /** `str::lines`, with `s[..k]` known to hold no newline. */
  function LinesFrom(s: string, k: nat): seq<string>
    requires k <= |s|
    decreases |s|, |s| - k
  {
    if s == "" then []
    else if k == |s| then [s]
    else if s[k] == '\n' then [StripReturn(s[..k])] + LinesFrom(s[k + 1..], 0)
    else LinesFrom(s, k + 1)
  }

  function Lines(s: string): seq<string> { LinesFrom(s, 0) }

  // ----- What the lines keep -----

  /** A text without its line breaks: a newline, and a carriage return just before one, are left out. */
  function WithoutBreaks(s: string): string {
    if s == "" then ""
    else if s[0] == '\n' then WithoutBreaks(s[1..])
    else if s[0] == '\r' && |s| > 1 && s[1] == '\n' then WithoutBreaks(s[2..])
    else [s[0]] + WithoutBreaks(s[1..])
  }

  lemma {:induction false} WithoutBreaksPlain(s: string)
    requires '\n' !in s
    ensures WithoutBreaks(s) == s
  {
    if s != "" {
      WithoutBreaksPlain(s[1..]);
      assert s == [s[0]] + s[1..];
    }
  }

  /** A line, its break, and what follows. */
  lemma {:induction false} WithoutBreaksLine(a: string, rest: string)
    requires '\n' !in a
    ensures WithoutBreaks(a + "\n" + rest) == StripReturn(a) + WithoutBreaks(rest)
  {
    var s := a + "\n" + rest;
    if a == "" {
      assert s == "\n" + rest && s[1..] == rest;
    } else if a == "\r" {
      assert s[2..] == rest;
    } else {
      assert s[1..] == a[1..] + "\n" + rest;
      WithoutBreaksLine(a[1..], rest);
      assert StripReturn(a) == [a[0]] + StripReturn(a[1..]);
      Assoc([a[0]], StripReturn(a[1..]), WithoutBreaks(rest));
    }
  }

  /** The lines together are the text without its line breaks. */
  lemma {:induction false} LinesKeep(s: string, k: nat)
    requires k <= |s| && '\n' !in s[..k]
    ensures Join(LinesFrom(s, k)) == WithoutBreaks(s)
    decreases |s|, |s| - k
  {
    if s != "" {
      if k == |s| {
        TakeAll(s);
        WithoutBreaksPlain(s);
        JoinOne(s);
      } else if s[k] == '\n' {
        LinesKeep(s[k + 1..], 0);
        WithoutBreaksLine(s[..k], s[k + 1..]);
        assert s == s[..k] + "\n" + s[k + 1..];
      } else {
        TakeNext(s, k);
        LinesKeep(s, k + 1);
      }
    }
  }

  predicate EndsWithReturn(s: string) { s != "" && s[|s| - 1] == '\r' }

  /** `line` and a line break stand at the front of the text; the break is as long as it can be. */
  predicate LineAhead(s: string, line: string, broken: string) {
    && '\n' !in line && line + broken <= s
    && (broken == "\r\n" || (broken == "\n" && !EndsWithReturn(line)))
  }

  /** The lines, each followed by its break, are the text; a last line without a break is not empty. */
  ghost predicate BreaksInto(s: string, lines: seq<string>)
    decreases |lines|
  {
    if lines == [] then s == ""
    else
      || (|lines| == 1 && s == lines[0] != "" && '\n' !in s)
      || (exists broken :: LineAhead(s, lines[0], broken) && BreaksInto(s[|lines[0] + broken|..], lines[1..]))
  }

  lemma LineFound(s: string, k: nat) returns (broken: string)
    requires k < |s| && '\n' !in s[..k] && s[k] == '\n'
    ensures var line := StripReturn(s[..k]);
            LineAhead(s, line, broken) && s[|line + broken|..] == s[k + 1..]
  {
    var line := StripReturn(s[..k]);
    broken := if EndsWithReturn(s[..k]) then "\r\n" else "\n";
    assert s[..k + 1] == line + broken;
  }

  /** `Lines` splits the text at its line breaks, and nowhere else. */
  lemma {:induction false} LinesBreak(s: string, k: nat)
    requires k <= |s| && '\n' !in s[..k]
    ensures BreaksInto(s, LinesFrom(s, k))
    decreases |s|, |s| - k
  {
    if s != "" {
      if k == |s| {
        TakeAll(s);
      } else if s[k] == '\n' {
        LinesBreak(s[k + 1..], 0);
        var lines := LinesFrom(s, k);
        var broken := LineFound(s, k);
        assert lines[0] == StripReturn(s[..k]) && lines[1..] == LinesFrom(s[k + 1..], 0);
        assert BreaksInto(s[|lines[0] + broken|..], lines[1..]);
      } else {
        TakeNext(s, k);
        LinesBreak(s, k + 1);
      }
    }
  }

  /** A text without a newline is one line. */
  lemma OneLine(s: string)
    requires s != "" && '\n' !in s
    ensures Lines(s) == [s]
  {
    OneLineFrom(s, 0);
  }

  lemma {:induction false} OneLineFrom(s: string, k: nat)
    requires s != "" && '\n' !in s && k <= |s|
    ensures LinesFrom(s, k) == [s]
    decreases |s| - k
  {
    if k < |s| {
      assert s[k] in s;
      OneLineFrom(s, k + 1);
    }
  }

  /** A piece of cell text that fits a column, or a single character. */
  predicate PieceFits(w: Widths, width: nat, piece: string) {
    StringCost(w, piece) <= width || |piece| == 1
  }

  lemma StringCostAppend(w: Widths, s: string, c: char)
    ensures StringCost(w, s + [c]) == StringCost(w, s) + Columns(w, c)
  {
    assert (s + [c])[..|s|] == s;
  }

  /** Every piece fits, none is empty, and none has room for the first character of the next. */
  predicate Pieces(w: Widths, width: nat, out: seq<string>) {
    && (forall i :: 0 <= i < |out| ==> out[i] != "" && PieceFits(w, width, out[i]))
    && (forall i :: 0 <= i < |out| - 1 ==> StringCost(w, out[i]) + Columns(w, out[i + 1][0]) > width)
  }

  /** The pieces put out so far and `current`, which is still pending. */
  ghost predicate Pending(w: Widths, width: nat, out: seq<string>, current: string, done: string) {
    && Join(out) + current == done
    && Pieces(w, width, out)
    && (current != "" ==> PieceFits(w, width, current))
    && (out != [] && current != "" ==> StringCost(w, out[|out| - 1]) + Columns(w, current[0]) > width)
  }

  /** The same between two characters: whatever is pending leaves room. */
  ghost predicate Cutting(w: Widths, width: nat, out: seq<string>, current: string, done: string) {
    && Pending(w, width, out, current, done)
    && StringCost(w, current) < width
    && (out != [] && current == "" ==> StringCost(w, out[|out| - 1]) >= width)
  }

  /** A line cut into pieces, an empty one giving one empty piece. */
  ghost predicate LineCut(w: Widths, width: nat, line: string, out: seq<string>) {
    if line == "" then out == [""] else Join(out) == line && Pieces(w, width, out)
  }

  lemma PiecesAppend(w: Widths, width: nat, out: seq<string>, piece: string)
    requires Pieces(w, width, out) && piece != "" && PieceFits(w, width, piece)
    requires out != [] ==> StringCost(w, out[|out| - 1]) + Columns(w, piece[0]) > width
    ensures Pieces(w, width, out + [piece])
  {
    var t := out + [piece];
    assert forall i :: 0 <= i < |out| ==> t[i] == out[i];
  }

  lemma PutPiece(w: Widths, width: nat, out: seq<string>, current: string, done: string)
    requires Pending(w, width, out, current, done) && current != ""
    ensures Pending(w, width, out + [current], "", done)
  {
    PiecesAppend(w, width, out, current);
    JoinAppend(out, current);
    NilRight(done);
  }

  lemma PutChar(w: Widths, width: nat, out: seq<string>, current: string, done: string, ch: char)
    requires Pending(w, width, out, current, done)
    requires StringCost(w, current) + Columns(w, ch) <= width || current == ""
    requires out != [] && current == "" ==> StringCost(w, out[|out| - 1]) + Columns(w, ch) > width
    ensures Pending(w, width, out, current + [ch], done + [ch])
    ensures StringCost(w, current + [ch]) == StringCost(w, current) + Columns(w, ch)
  {
    StringCostAppend(w, current, ch);
    Assoc(Join(out), current, [ch]);
    assert (current + [ch])[0] == if current == "" then ch else current[0];
  }

  /** Put out what is pending if the next character does not fit behind it. */
  method MakeRoom(w: Widths, width: nat, out0: seq<string>, current0: string, cols0: nat, ch: char, ghost done: string)
    returns (out: seq<string>, current: string, cols: nat)
    requires Cutting(w, width, out0, current0, done) && cols0 == StringCost(w, current0)
    ensures Pending(w, width, out, current, done) && cols == StringCost(w, current)
    ensures cols + Columns(w, ch) <= width || current == ""
    ensures out != [] && current == "" ==> StringCost(w, out[|out| - 1]) + Columns(w, ch) > width
  {
    out, current, cols := out0, current0, cols0;
    if cols + Columns(w, ch) > width && current != "" {
      PutPiece(w, width, out, current, done);
      out, current, cols := out + [current], "", 0;
    }
  }

  /** One character, put after what is pending when it fits there and else on a new piece. */
  method CutChar(w: Widths, width: nat, out0: seq<string>, current0: string, cols0: nat, ch: char, ghost done: string)
    returns (out: seq<string>, current: string, cols: nat)
    requires width > 0 && Cutting(w, width, out0, current0, done) && cols0 == StringCost(w, current0)
    ensures Cutting(w, width, out, current, done + [ch]) && cols == StringCost(w, current)
  {
    out, current, cols := MakeRoom(w, width, out0, current0, cols0, ch, done);
    PutChar(w, width, out, current, done, ch);
    current := current + [ch];
    cols := cols + Columns(w, ch);
    if cols >= width {
      PutPiece(w, width, out, current, done + [ch]);
      out, current, cols := out + [current], "", 0;
    }
  }

  /** Put out what is still pending. */
  method EndLine(w: Widths, width: nat, out0: seq<string>, current: string, ghost line: string)
    returns (out: seq<string>)
    requires line != "" && Cutting(w, width, out0, current, line)
    ensures LineCut(w, width, line, out)
  {
    out := out0;
    if current != "" {
      PutPiece(w, width, out, current, line);
      out := out + [current];
    }
    NilRight(Join(out));
  }

  lemma NothingCut(w: Widths, width: nat, line: string)
    requires width > 0
    ensures Cutting(w, width, [], "", line[..0])
  {
  }

  /** One line of cell text. */
  method HardWrapLine(w: Widths, line: string, width: nat) returns (out: seq<string>)
    requires width > 0 && line != ""
    ensures LineCut(w, width, line, out)
  {
    out := [];
    var current := "";
    var cols: nat := 0;
    NothingCut(w, width, line);
    for i := 0 to |line|
      invariant Cutting(w, width, out, current, line[..i]) && cols == StringCost(w, current)
    {
      TakeNext(line, i);
      out, current, cols := CutChar(w, width, out, current, cols, line[i], line[..i]);
    }
    TakeAll(line);
    out := EndLine(w, width, out, current, line);
  }

  /** One line, possibly empty. */
  method CutLine(w: Widths, line: string, width: nat) returns (pieces: seq<string>)
    requires width > 0
    ensures LineCut(w, width, line, pieces) && Join(pieces) == line
    ensures forall k :: 0 <= k < |pieces| ==> PieceFits(w, width, pieces[k])
  {
    if line == "" {
      JoinOne("");
      return [""];
    }
    pieces := HardWrapLine(w, line, width);
  }

  /** The lines of a text, each cut on its own; `groups` says which pieces came from which. */
  method CutLines(w: Widths, lines: seq<string>, width: nat) returns (out: seq<string>, ghost groups: seq<seq<string>>)
    requires width > 0
    ensures out == Join(groups) && |groups| == |lines| && Join(out) == Join(lines)
    ensures forall i :: 0 <= i < |lines| ==> LineCut(w, width, lines[i], groups[i])
    ensures forall i :: 0 <= i < |out| ==> PieceFits(w, width, out[i])
  {
    out, groups := [], [];
    for i := 0 to |lines|
      invariant out == Join(groups) && |groups| == i && Join(out) == Join(lines[..i])
      invariant forall k :: 0 <= k < i ==> LineCut(w, width, lines[k], groups[k])
      invariant forall k :: 0 <= k < |out| ==> PieceFits(w, width, out[k])
    {
      TakeNext(lines, i);
      JoinAppend(lines[..i], lines[i]);
      var pieces := CutLine(w, lines[i], width);
      JoinConcat(out, pieces);
      JoinAppend(groups, pieces);
      out, groups := out + pieces, groups + [pieces];
    }
    assert lines[..|lines|] == lines;
  }

  /** What is left of the text of a cell in its pieces. */
  ghost predicate TextKept(text: string, width: nat, pieces: seq<string>) {
    && Join(pieces) == (if width == 0 then text else WithoutBreaks(text))
    && ('\n' !in text ==> Join(pieces) == text)
  }

  /** Cell text in pieces: nothing but the line breaks is lost, and with a column to wrap to every
      line is cut into pieces that are as long as the column allows. */
  method HardWrapText(w: Widths, text: string, width: nat) returns (out: seq<string>, ghost groups: seq<seq<string>>)
    ensures text == "" || width == 0 ==> out == [text]
    ensures text != "" && width > 0 ==>
              && BreaksInto(text, Lines(text)) && out == Join(groups) && |groups| == |Lines(text)|
              && forall i :: 0 <= i < |groups| ==> LineCut(w, width, Lines(text)[i], groups[i])
    ensures width > 0 ==> forall i :: 0 <= i < |out| ==> PieceFits(w, width, out[i])
    ensures TextKept(text, width, out) && out != []
  {
    groups := [];
    if '\n' !in text {
      WithoutBreaksPlain(text);
    }
    if text == "" || width == 0 {
      JoinOne(text);
      return [text], groups;
    }
    var lines := Lines(text);
    LinesNotEmpty(text, 0);
    out, groups := CutLines(w, lines, width);
    LinesKeep(text, 0);
    LinesBreak(text, 0);
    PiecesNotEmpty(w, width, lines[0], groups);
  }

  lemma {:induction false} LinesNotEmpty(s: string, k: nat)
    requires s != "" && k <= |s|
    ensures LinesFrom(s, k) != []
    decreases |s| - k
  {
    if k < |s| && s[k] != '\n' {
      LinesNotEmpty(s, k + 1);
    }
  }

  lemma PiecesNotEmpty(w: Widths, width: nat, line: string, groups: seq<seq<string>>)
    requires groups != [] && LineCut(w, width, line, groups[0])
    ensures Join(groups) != []
  {
  }

  lemma {:induction false} WithoutBreaksMember(s: string, c: char)
    requires c in WithoutBreaks(s)
    ensures c in s
    decreases |s|
  {
    if s[0] == '\n' {
      WithoutBreaksMember(s[1..], c);
    } else if s[0] == '\r' && |s| > 1 && s[1] == '\n' {
      WithoutBreaksMember(s[2..], c);
    } else if c != s[0] {
      WithoutBreaksMember(s[1..], c);
    }
  }
}
