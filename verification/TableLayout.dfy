/** Laying out a markdown table: borders, cells and the lines they make up. */
module TableLayout {
  import opened Sequences
  import opened Text
  import opened StyledText
  import opened TableColumns
  import opened CellText

  function Repeat(c: char, n: nat): (s: string)
    ensures |s| == n && forall i :: 0 <= i < n ==> s[i] == c
  {
    seq(n, _ => c)
  }

  /** The width table gives one column to the space and to every box-drawing character used. */
  predicate NarrowBorders(w: Widths) {
    && w(' ') == 1 && w('│') == 1 && w('─') == 1
    && w('┌') == 1 && w('┬') == 1 && w('┐') == 1
    && w('├') == 1 && w('┼') == 1 && w('┤') == 1
    && w('└') == 1 && w('┴') == 1 && w('┘') == 1
  }

  lemma {:induction false} NarrowWidth(w: Widths, s: string)
    requires forall i :: 0 <= i < |s| ==> w(s[i]) == 1
    ensures TextWidth(w, s) == |s|
  {
    if s != [] {
      NarrowWidth(w, s[..|s| - 1]);
    }
  }

  /** The display column at which column `i` of the table begins. */
  function ColumnStart(widths: seq<nat>, i: nat): nat
    requires i <= |widths|
  {
    2 + Sum(widths[..i]) + 3 * i
  }

  /** Where a line ends that goes through the first `i` columns. */
  function Through(widths: seq<nat>, i: nat): nat
    requires i <= |widths|
  {
    if 0 < i == |widths| then TableWidth(widths) else ColumnStart(widths, i)
  }

  lemma NextColumn(widths: seq<nat>, i: nat)
    requires i < |widths|
    ensures ColumnStart(widths, i + 1) == ColumnStart(widths, i) + widths[i] + 3
    ensures i + 1 == |widths| ==> ColumnStart(widths, i) + widths[i] + 2 == TableWidth(widths)
  {
    assert widths[..i + 1][..i] == widths[..i];
    assert widths[..|widths|] == widths;
  }

  /** `text` stands in the line at display column `column`. */
  ghost predicate ShowsAt(w: Widths, line: string, column: nat, text: string) {
    exists k :: 0 <= k <= |line| && TextWidth(w, line[..k]) == column && text <= line[k..]
  }

  lemma ShowsNext(w: Widths, line: string, text: string)
    ensures ShowsAt(w, line + text, TextWidth(w, line), text)
  {
    var t := line + text;
    assert t[..|line|] == line && t[|line|..] == text;
  }

  lemma ShowsMore(w: Widths, line: string, column: nat, text: string, more: string)
    requires ShowsAt(w, line, column, text)
    ensures ShowsAt(w, line + more, column, text)
  {
    var k :| 0 <= k <= |line| && TextWidth(w, line[..k]) == column && text <= line[k..];
    var t := line + more;
    assert t[..k] == line[..k] && t[k..] == line[k..] + more;
  }

  /** A line of the table: of the table's width, beginning with `left`, and with the given texts at
      the first columns. */
  ghost predicate Lays(w: Widths, widths: seq<nat>, left: string, texts: seq<string>, line: string) {
    && |texts| <= |widths| && left <= line
    && TextWidth(w, line) == Through(widths, |texts|)
    && ShowsAll(w, widths, texts, line)
  }

  /** Each of the texts stands at its column. */
  ghost predicate ShowsAll(w: Widths, widths: seq<nat>, texts: seq<string>, line: string)
    requires |texts| <= |widths|
    decreases |texts|
  {
    texts == [] ||
    var n := |texts| - 1;
    ShowsAt(w, line, ColumnStart(widths, n), texts[n]) && ShowsAll(w, widths, texts[..n], line)
  }

  lemma {:induction false} ShowsEach(w: Widths, widths: seq<nat>, texts: seq<string>, line: string)
    requires |texts| <= |widths|
    ensures ShowsAll(w, widths, texts, line) <==>
            forall i :: 0 <= i < |texts| ==> ShowsAt(w, line, ColumnStart(widths, i), texts[i])
    decreases |texts|
  {
    if texts != [] {
      var n := |texts| - 1;
      ShowsEach(w, widths, texts[..n], line);
      assert forall i :: 0 <= i < n ==> texts[..n][i] == texts[i];
    }
  }

  lemma {:induction false} ShowsAllMore(w: Widths, widths: seq<nat>, texts: seq<string>, line: string, more: string)
    requires |texts| <= |widths| && ShowsAll(w, widths, texts, line)
    ensures ShowsAll(w, widths, texts, line + more)
    decreases |texts|
  {
    if texts != [] {
      var n := |texts| - 1;
      ShowsMore(w, line, ColumnStart(widths, n), texts[n], more);
      ShowsAllMore(w, widths, texts[..n], line, more);
    }
  }

  lemma ShowsAllNext(w: Widths, widths: seq<nat>, texts: seq<string>, line: string, text: string)
    requires |texts| < |widths| && ShowsAll(w, widths, texts, line)
    requires TextWidth(w, line) == ColumnStart(widths, |texts|)
    ensures ShowsAll(w, widths, texts + [text], line + text)
  {
    TakeFront(texts, text);
    ShowsAllMore(w, widths, texts, line, text);
    ShowsNext(w, line, text);
  }

  lemma LaysFirst(w: Widths, widths: seq<nat>, left: string)
    requires TextWidth(w, left) == 2
    ensures Lays(w, widths, left, [], left)
  {
  }

  /** The text of the next column, with the bar behind it. */
  lemma LaysNext(w: Widths, widths: seq<nat>, left: string, texts: seq<string>, line: string, text: string)
    requires Lays(w, widths, left, texts, line) && |texts| < |widths|
    requires TextWidth(w, text) == widths[|texts|] + (if |texts| == |widths| - 1 then 2 else 3)
    ensures Lays(w, widths, left, texts + [text], line + text)
  {
    WidthNext(w, widths, |texts|, line, text);
    ShowsAllNext(w, widths, texts, line, text);
    PrefixMore(left, line, text);
  }

  lemma PrefixMore(left: string, line: string, more: string)
    requires left <= line
    ensures left <= line + more
  {
  }

  lemma WidthNext(w: Widths, widths: seq<nat>, i: nat, line: string, text: string)
    requires i < |widths| && TextWidth(w, line) == Through(widths, i)
    requires TextWidth(w, text) == widths[i] + (if i == |widths| - 1 then 2 else 3)
    ensures TextWidth(w, line + text) == Through(widths, i + 1)
  {
    NextColumn(widths, i);
    TextWidthConcat(w, line, text);
  }

  /** What a border shows at column `i`. */
  function BorderTexts(mid: string, right: string, widths: seq<nat>): (texts: seq<string>)
    ensures |texts| == |widths|
  {
    seq(|widths|, i requires 0 <= i < |widths| => Repeat('─', widths[i]) + (if i < |widths| - 1 then mid else right))
  }

  /** The three kinds of border, and their corners and joints. */
  datatype Edge = Top | Middle | Bottom

  function Left(e: Edge): string { match e case Top => "┌─" case Middle => "├─" case Bottom => "└─" }

  function Joint(e: Edge): string { match e case Top => "─┬─" case Middle => "─┼─" case Bottom => "─┴─" }

  function Right(e: Edge): string { match e case Top => "─┐" case Middle => "─┤" case Bottom => "─┘" }

  /** A border: a rule over every column, and the joints between them. */
  ghost predicate IsBorder(w: Widths, widths: seq<nat>, e: Edge, line: string) {
    Lays(w, widths, Left(e), BorderTexts(Joint(e), Right(e), widths), line)
  }

  method MakeBorder(w: Widths, left: string, mid: string, right: string, widths: seq<nat>) returns (line: string)
    requires NarrowBorders(w) && widths != []
    requires TextWidth(w, left) == 2 && TextWidth(w, mid) == 3 && TextWidth(w, right) == 2
    ensures Lays(w, widths, left, BorderTexts(mid, right, widths), line)
  {
    line := left;
    LaysFirst(w, widths, left);
    ghost var texts := BorderTexts(mid, right, widths);
    ghost var shown: string := left;
    assert texts[..0] == [];
    for i := 0 to |widths|
      invariant Lays(w, widths, left, texts[..i], shown)
      invariant shown == if i < |widths| then line else line + right
    {
      TakeNext(texts, i);
      BorderNext(w, widths, left, mid, right, i, shown);
      shown := shown + texts[i];
      Assoc(line, Repeat('─', widths[i]), if i < |widths| - 1 then mid else right);
      line := line + Repeat('─', widths[i]);
      if i < |widths| - 1 {
        line := line + mid;
      }
    }
    assert texts[..|widths|] == texts;
    line := line + right;
  }

  method Border(w: Widths, e: Edge, widths: seq<nat>) returns (line: string)
    requires NarrowBorders(w) && widths != []
    ensures IsBorder(w, widths, e, line)
  {
    NarrowWidth(w, Left(e));
    NarrowWidth(w, Joint(e));
    NarrowWidth(w, Right(e));
    line := MakeBorder(w, Left(e), Joint(e), Right(e), widths);
  }

  lemma BorderNext(w: Widths, widths: seq<nat>, left: string, mid: string, right: string, i: nat, line: string)
    requires NarrowBorders(w) && i < |widths| && TextWidth(w, mid) == 3 && TextWidth(w, right) == 2
    requires Lays(w, widths, left, BorderTexts(mid, right, widths)[..i], line)
    ensures var texts := BorderTexts(mid, right, widths);
            Lays(w, widths, left, texts[..i] + [texts[i]], line + texts[i])
  {
    var texts := BorderTexts(mid, right, widths);
    NarrowWidth(w, Repeat('─', widths[i]));
    TextWidthConcat(w, Repeat('─', widths[i]), if i < |widths| - 1 then mid else right);
    LaysNext(w, widths, left, texts[..i], line, texts[i]);
  }

  /** What the column shows of one piece: at most `col` characters, padded with spaces. */
  function Display(w: Widths, piece: string, col: nat): string {
    var shown := if |piece| <= col then piece else piece[..col];
    var used := TextWidth(w, shown);
    shown + Repeat(' ', if used < col then col - used else 0)
  }

  lemma CostOfChar(w: Widths, s: string)
    requires |s| == 1
    ensures StringCost(w, s) == Columns(w, s[0]) && TextWidth(w, s) == w(s[0])
  {
    assert s[..0] == "";
  }

  /** By how much a piece sticks out of its column. */
  function Over(w: Widths, piece: string, col: nat): nat {
    var used := TextWidth(w, if |piece| <= col then piece else piece[..col]);
    if used > col then used - col else 0
  }

  lemma DisplayWidth(w: Widths, piece: string, col: nat)
    requires w(' ') == 1
    ensures TextWidth(w, Display(w, piece, col)) == col + Over(w, piece, col)
  {
    var shown := if |piece| <= col then piece else piece[..col];
    var used := TextWidth(w, shown);
    var pad := Repeat(' ', if used < col then col - used else 0);
    NarrowWidth(w, pad);
    TextWidthConcat(w, shown, pad);
  }

  predicate CharsFit(w: Widths, col: nat, s: string) { forall c :: c in s ==> w(c) <= col }

  /** A piece as the cell wrapping leaves it fills its column exactly unless it holds a character wider
      than the column; in a column of no width nothing is shown. */
  lemma OverExact(w: Widths, piece: string, col: nat)
    requires col > 0 ==> PieceFits(w, col, piece)
    ensures Over(w, piece, col) == 0 <==> (col > 0 ==> CharsFit(w, col, piece))
    ensures col > 0 ==> |piece| <= col
  {
    TextWidthBounds(w, piece);
    if |piece| == 1 {
      CostOfChar(w, piece);
    }
  }

  /** A piece that fits is shown whole, and fills its column exactly. */
  lemma DisplayExact(w: Widths, piece: string, col: nat)
    requires w(' ') == 1
    requires Ready(w, col, piece)
    ensures TextWidth(w, Display(w, piece, col)) == col
    ensures col > 0 ==> piece <= Display(w, piece, col)
  {
    DisplayWidth(w, piece, col);
    OverExact(w, piece, col);
  }

  /** Every piece that wrapping leaves is shown whole, even one that sticks out, with nothing but spaces
      behind it; in a column of no width nothing is shown. */
  lemma DisplayWhole(w: Widths, piece: string, col: nat)
    requires col > 0 ==> PieceFits(w, col, piece)
    ensures var n := if col > 0 then |piece| else 0;
            && piece[..n] <= Display(w, piece, col)
            && forall k :: n <= k < |Display(w, piece, col)| ==> Display(w, piece, col)[k] == ' '
  {
    OverExact(w, piece, col);
    NoWidth(w);
  }

  lemma NoWidth(w: Widths)
    ensures TextWidth(w, "") == 0
  {
  }

  /** A piece ready to be shown in a column of width `col`. */
  predicate Ready(w: Widths, col: nat, piece: string) {
    col > 0 ==> CharsFit(w, col, piece) && PieceFits(w, col, piece)
  }

  /** The pieces of one cell: no text is lost when there is a column to wrap to, and each fits it or is
      a single character. */
  ghost predicate CellWrapped(w: Widths, col: nat, text: string, pieces: seq<string>) {
    TextKept(text, col, pieces) && (col > 0 ==> forall j :: 0 <= j < |pieces| ==> PieceFits(w, col, pieces[j]))
  }

  /** The text of a cell fits its column, character by character. */
  predicate CellFits(w: Widths, col: nat, text: string) { col > 0 ==> CharsFit(w, col, WithoutBreaks(text)) }

  method WrapCell(w: Widths, text: string, col: nat) returns (pieces: seq<string>)
    ensures CellWrapped(w, col, text, pieces) && pieces != []
  {
    ghost var groups;
    pieces, groups := HardWrapText(w, text, col);
    if text == "" {
      JoinOne(text);
    }
  }

  method PadCell(w: Widths, col: nat, ghost text: string, pieces: seq<string>, height: nat) returns (cell: seq<string>)
    requires |pieces| <= height && CellWrapped(w, col, text, pieces)
    ensures |cell| == height && CellWrapped(w, col, text, cell)
  {
    cell := pieces;
    while |cell| < height
      invariant |cell| <= height && CellWrapped(w, col, text, cell)
    {
      JoinAppend(cell, "");
      cell := cell + [""];
    }
  }

  /** The cells of a row, each in `height` pieces; cells beyond the last column are left out. */
  ghost predicate RowCells(w: Widths, row: seq<string>, widths: seq<nat>, cells: seq<seq<string>>, height: nat) {
    && |cells| == (if |row| <= |widths| then |row| else |widths|)
    && forall i :: 0 <= i < |cells| ==> |cells[i]| == height && CellWrapped(w, widths[i], row[i], cells[i])
  }

  /** Wrap the cells of one row and pad them to the same number of pieces. */
  method WrapRow(w: Widths, row: seq<string>, widths: seq<nat>) returns (cells: seq<seq<string>>, height: nat)
    ensures height >= 1 && RowCells(w, row, widths, cells, height)
  {
    cells, height := [], 1;
    for i := 0 to |row|
      invariant |cells| == if i <= |widths| then i else |widths|
      invariant height >= 1
      invariant forall k :: 0 <= k < |cells| ==> |cells[k]| <= height && CellWrapped(w, widths[k], row[k], cells[k])
    {
      if i < |widths| {
        var wrapped := WrapCell(w, row[i], widths[i]);
        cells := cells + [wrapped];
        if |wrapped| > height {
          height := |wrapped|;
        }
      }
    }
    for i := 0 to |cells|
      invariant |cells| == if |row| <= |widths| then |row| else |widths|
      invariant forall k :: 0 <= k < |cells| ==>
                  && (if k < i then |cells[k]| == height else |cells[k]| <= height)
                  && CellWrapped(w, widths[k], row[k], cells[k])
    {
      var cell := PadCell(w, widths[i], row[i], cells[i], height);
      cells := cells[i := cell];
    }
  }

  /** What a row shows at column `i`. */
  function RowTexts(w: Widths, cells: seq<seq<string>>, sub: nat, widths: seq<nat>): (texts: seq<string>)
    requires |cells| <= |widths| && forall i :: 0 <= i < |cells| ==> sub < |cells[i]|
    ensures |texts| == |cells|
  {
    seq(|cells|, i requires 0 <= i < |cells| =>
      Display(w, cells[i][sub], widths[i]) + (if i < |widths| - 1 then " │ " else " │"))
  }

  /** By how much the first `i` pieces stick out of their columns. */
  function Excess(w: Widths, cells: seq<seq<string>>, sub: nat, widths: seq<nat>, i: nat): nat
    requires i <= |cells| <= |widths| && forall i :: 0 <= i < |cells| ==> sub < |cells[i]|
  {
    if i == 0 then 0 else Excess(w, cells, sub, widths, i - 1) + Over(w, cells[i - 1][sub], widths[i - 1])
  }

  lemma {:induction false} ExcessZero(w: Widths, cells: seq<seq<string>>, sub: nat, widths: seq<nat>, i: nat)
    requires i <= |cells| <= |widths| && forall i :: 0 <= i < |cells| ==> sub < |cells[i]|
    ensures Excess(w, cells, sub, widths, i) == 0 <==>
            forall k :: 0 <= k < i ==> Over(w, cells[k][sub], widths[k]) == 0
  {
    if i > 0 {
      ExcessZero(w, cells, sub, widths, i - 1);
    }
  }

  /** Where the line ends after `i` pieces. */
  function LineEnd(w: Widths, cells: seq<seq<string>>, sub: nat, widths: seq<nat>, i: nat): nat
    requires i <= |cells| <= |widths| && forall i :: 0 <= i < |cells| ==> sub < |cells[i]|
  {
    Through(widths, i) + Excess(w, cells, sub, widths, i)
  }

  lemma LineEndNext(w: Widths, cells: seq<seq<string>>, sub: nat, widths: seq<nat>, i: nat, line: string)
    requires NarrowBorders(w) && i < |cells| <= |widths| && forall i :: 0 <= i < |cells| ==> sub < |cells[i]|
    requires TextWidth(w, line) == LineEnd(w, cells, sub, widths, i)
    ensures var bar := if i < |widths| - 1 then " │ " else " │";
            TextWidth(w, line + Display(w, cells[i][sub], widths[i]) + bar) == LineEnd(w, cells, sub, widths, i + 1)
  {
    var shown, bar := Display(w, cells[i][sub], widths[i]), if i < |widths| - 1 then " │ " else " │";
    NextColumn(widths, i);
    DisplayWidth(w, cells[i][sub], widths[i]);
    NarrowWidth(w, bar);
    TextWidthConcat(w, line, shown);
    TextWidthConcat(w, line + shown, bar);
  }

  /** A row that has all its cells and whose characters fit shows every piece at its column. In any case
      the line is as wide as its columns and what sticks out of them. */
  method RenderRow(w: Widths, cells: seq<seq<string>>, sub: nat, widths: seq<nat>) returns (line: string)
    requires NarrowBorders(w) && |cells| <= |widths|
    requires forall i :: 0 <= i < |cells| ==> sub < |cells[i]|
    ensures (forall i :: 0 <= i < |cells| ==> Ready(w, widths[i], cells[i][sub])) ==>
              Lays(w, widths, "│ ", RowTexts(w, cells, sub, widths), line)
    ensures TextWidth(w, line) == LineEnd(w, cells, sub, widths, |cells|)
  {
    ghost var ready := forall i :: 0 <= i < |cells| ==> Ready(w, widths[i], cells[i][sub]);
    ghost var texts := RowTexts(w, cells, sub, widths);
    line := "│ ";
    NarrowWidth(w, line);
    LaysFirst(w, widths, line);
    assert texts[..0] == [];
    for i := 0 to |cells|
      invariant ready ==> Lays(w, widths, "│ ", texts[..i], line)
      invariant TextWidth(w, line) == LineEnd(w, cells, sub, widths, i)
    {
      var shown := Display(w, cells[i][sub], widths[i]);
      var bar := if i < |widths| - 1 then " │ " else " │";
      TakeNext(texts, i);
      if ready {
        RowNext(w, widths, texts[..i], line, cells[i][sub]);
      }
      Assoc(line, shown, bar);
      LineEndNext(w, cells, sub, widths, i, line);
      line := line + shown + bar;
    }
    assert texts[..|cells|] == texts;
  }

  lemma RowNext(w: Widths, widths: seq<nat>, texts: seq<string>, line: string, piece: string)
    requires NarrowBorders(w) && |texts| < |widths| && Lays(w, widths, "│ ", texts, line) &&
               Ready(w, widths[|texts|], piece)
    ensures var text := Display(w, piece, widths[|texts|]) + (if |texts| < |widths| - 1 then " │ " else " │");
            Lays(w, widths, "│ ", texts + [text], line + text)
  {
    var i := |texts|;
    var shown, bar := Display(w, piece, widths[i]), if i < |widths| - 1 then " │ " else " │";
    DisplayExact(w, piece, widths[i]);
    NarrowWidth(w, bar);
    TextWidthConcat(w, shown, bar);
    LaysNext(w, widths, "│ ", texts, line, shown + bar);
  }

  predicate Even(w: Widths, lines: seq<string>, width: nat) {
    forall i :: 0 <= i < |lines| ==> TextWidth(w, lines[i]) == width
  }

  /** Where a row of the table was put: `height` lines from `start`, its cells cut into pieces. */
  datatype Placed = Placed(start: nat, height: nat, cells: seq<seq<string>>)

  /** The row stands there with all its text; when it has all its cells and its characters fit, every
      piece is shown at its column. */
  ghost predicate RowAt(w: Widths, row: seq<string>, widths: seq<nat>, lines: seq<string>, p: Placed) {
    && p.height >= 1 && p.start + p.height <= |lines|
    && RowCells(w, row, widths, p.cells, p.height)
    && (FullRow(w, row, widths) ==> forall sub :: 0 <= sub < p.height ==> LineAt(w, widths, lines, p, sub))
  }

  ghost predicate LineAt(w: Widths, widths: seq<nat>, lines: seq<string>, p: Placed, sub: nat)
    requires p.start + p.height <= |lines| && sub < p.height
    requires |p.cells| <= |widths| && forall i :: 0 <= i < |p.cells| ==> |p.cells[i]| == p.height
  {
    Lays(w, widths, "│ ", RowTexts(w, p.cells, sub, widths), lines[p.start + sub])
  }

  lemma RowAtMore(w: Widths, row: seq<string>, widths: seq<nat>, lines: seq<string>, p: Placed, more: seq<string>)
    requires RowAt(w, row, widths, lines, p)
    ensures RowAt(w, row, widths, lines + more, p)
  {
    if FullRow(w, row, widths) {
      forall sub | 0 <= sub < p.height ensures LineAt(w, widths, lines + more, p, sub) {
        assert LineAt(w, widths, lines, p, sub);
      }
    }
  }

  /** The lines `out` show the cells of the row. */
  ghost predicate RowIn(w: Widths, row: seq<string>, widths: seq<nat>, cells: seq<seq<string>>, out: seq<string>) {
    && out != [] && RowCells(w, row, widths, cells, |out|)
    && (forall k :: 0 <= k < |out| ==> TextWidth(w, out[k]) == LineEnd(w, cells, k, widths, |cells|))
    && (FullRow(w, row, widths) ==> Laid(w, widths, cells, out))
  }

  ghost predicate Laid(w: Widths, widths: seq<nat>, cells: seq<seq<string>>, out: seq<string>) {
    && |cells| <= |widths| && (forall i :: 0 <= i < |cells| ==> |out| <= |cells[i]|)
    && forall k :: 0 <= k < |out| ==> Lays(w, widths, "│ ", RowTexts(w, cells, k, widths), out[k])
  }

  lemma LaidAppend(w: Widths, widths: seq<nat>, cells: seq<seq<string>>, out: seq<string>, line: string)
    requires Laid(w, widths, cells, out) && forall i :: 0 <= i < |cells| ==> |out| < |cells[i]|
    requires Lays(w, widths, "│ ", RowTexts(w, cells, |out|, widths), line)
    ensures Laid(w, widths, cells, out + [line])
  {
  }

  method RenderLine(w: Widths, ghost row: seq<string>, widths: seq<nat>, cells: seq<seq<string>>, ghost height: nat,
                    sub: nat)
    returns (line: string)
    requires NarrowBorders(w) && RowCells(w, row, widths, cells, height) && sub < height
    ensures TextWidth(w, line) == LineEnd(w, cells, sub, widths, |cells|)
    ensures FullRow(w, row, widths) ==> Lays(w, widths, "│ ", RowTexts(w, cells, sub, widths), line)
  {
    if FullRow(w, row, widths) {
      ReadyCells(w, row, widths, cells, sub);
    }
    line := RenderRow(w, cells, sub, widths);
  }

  /** The lines so far end where they should and, in a complete row that fits, show its pieces. */
  ghost predicate LinesSoFar(w: Widths, row: seq<string>, widths: seq<nat>, cells: seq<seq<string>>, out: seq<string>)
    requires |cells| <= |widths| && forall i :: 0 <= i < |cells| ==> |out| <= |cells[i]|
  {
    && (forall k :: 0 <= k < |out| ==> TextWidth(w, out[k]) == LineEnd(w, cells, k, widths, |cells|))
    && (FullRow(w, row, widths) ==> Laid(w, widths, cells, out))
  }

  lemma LinesNext(w: Widths, row: seq<string>, widths: seq<nat>, cells: seq<seq<string>>, out: seq<string>,
                  line: string)
    requires |cells| <= |widths| && forall i :: 0 <= i < |cells| ==> |out| < |cells[i]|
    requires LinesSoFar(w, row, widths, cells, out)
    requires TextWidth(w, line) == LineEnd(w, cells, |out|, widths, |cells|)
    requires FullRow(w, row, widths) ==> Lays(w, widths, "│ ", RowTexts(w, cells, |out|, widths), line)
    ensures LinesSoFar(w, row, widths, cells, out + [line])
  {
    if FullRow(w, row, widths) {
      LaidAppend(w, widths, cells, out, line);
    }
  }

  /** The lines of one row. */
  method RenderCells(w: Widths, row: seq<string>, widths: seq<nat>)
    returns (out: seq<string>, ghost cells: seq<seq<string>>)
    requires NarrowBorders(w)
    ensures RowIn(w, row, widths, cells, out)
  {
    var wrapped, height := WrapRow(w, row, widths);
    cells := wrapped;
    out := [];
    for sub := 0 to height
      invariant |out| == sub && LinesSoFar(w, row, widths, wrapped, out)
    {
      var line := RenderLine(w, row, widths, wrapped, height, sub);
      LinesNext(w, row, widths, wrapped, out, line);
      out := out + [line];
    }
  }

  lemma SecondHalf<T>(a: seq<T>, b: seq<T>, i: nat)
    requires i < |b|
    ensures |a| + i < |a + b| && (a + b)[|a| + i] == b[i]
  {
  }

  lemma LinePlaced(w: Widths, widths: seq<nat>, cells: seq<seq<string>>, out: seq<string>, lines: seq<string>, sub: nat)
    requires Laid(w, widths, cells, out) && sub < |out| && forall i :: 0 <= i < |cells| ==> |cells[i]| == |out|
    ensures LineAt(w, widths, lines + out, Placed(|lines|, |out|, cells), sub)
  {
    SecondHalf(lines, out, sub);
  }

  lemma RowPlaced(w: Widths, row: seq<string>, widths: seq<nat>, cells: seq<seq<string>>, out: seq<string>,
                  lines: seq<string>)
    requires RowIn(w, row, widths, cells, out)
    ensures RowAt(w, row, widths, lines + out, Placed(|lines|, |out|, cells))
  {
    if FullRow(w, row, widths) {
      forall sub | 0 <= sub < |out| ensures LineAt(w, widths, lines + out, Placed(|lines|, |out|, cells), sub) {
        LinePlaced(w, widths, cells, out, lines, sub);
      }
    }
  }

  lemma ReadyCells(w: Widths, row: seq<string>, widths: seq<nat>, cells: seq<seq<string>>, sub: nat)
    requires FullRow(w, row, widths) && |cells| == |widths|
    requires forall i :: 0 <= i < |cells| ==> sub < |cells[i]| && CellWrapped(w, widths[i], row[i], cells[i])
    ensures forall i :: 0 <= i < |cells| ==> Ready(w, widths[i], cells[i][sub])
  {
    forall i | 0 <= i < |cells| ensures Ready(w, widths[i], cells[i][sub]) {
      assert CellFits(w, widths[i], row[i]);
      forall c | c in cells[i][sub] ensures widths[i] > 0 ==> w(c) <= widths[i] {
        JoinMember(cells[i], sub, c);
      }
    }
  }

  /** A line of a full row has no excess. */
  lemma FullLine(w: Widths, row: seq<string>, widths: seq<nat>, cells: seq<seq<string>>, sub: nat)
    requires FullRow(w, row, widths) && |cells| == |widths|
    requires forall i :: 0 <= i < |cells| ==> sub < |cells[i]| && CellWrapped(w, widths[i], row[i], cells[i])
    ensures Excess(w, cells, sub, widths, |cells|) == 0
  {
    ReadyCells(w, row, widths, cells, sub);
    ExcessZero(w, cells, sub, widths, |cells|);
    forall k | 0 <= k < |cells| ensures Over(w, cells[k][sub], widths[k]) == 0 {
      OverExact(w, cells[k][sub], widths[k]);
    }
  }

  /** A character wider than its column makes some line too wide. */
  lemma WideCharacter(w: Widths, text: string, widths: seq<nat>, cells: seq<seq<string>>, i: nat, c: char)
    returns (sub: nat)
    requires i < |cells| <= |widths| && CellWrapped(w, widths[i], text, cells[i])
    requires forall k :: 0 <= k < |cells| ==> |cells[k]| == |cells[i]|
    requires 0 < widths[i] < w(c) && c in WithoutBreaks(text)
    ensures sub < |cells[i]| && Excess(w, cells, sub, widths, |cells|) > 0
  {
    sub := MemberOfJoin(cells[i], c);
    OverExact(w, cells[i][sub], widths[i]);
    ExcessZero(w, cells, sub, widths, |cells|);
  }

  /** The lines of a row with all its cells have the width of the table exactly when its text fits. */
  lemma FullExactly(w: Widths, row: seq<string>, widths: seq<nat>, cells: seq<seq<string>>, out: seq<string>)
    requires RowIn(w, row, widths, cells, out) && widths != [] && |row| >= |widths|
    ensures Even(w, out, TableWidth(widths)) <==> FullRow(w, row, widths)
  {
    if FullRow(w, row, widths) {
      forall k | 0 <= k < |out| ensures TextWidth(w, out[k]) == TableWidth(widths) {
        FullLine(w, row, widths, cells, k);
      }
    } else {
      var i :| 0 <= i < |widths| && !CellFits(w, widths[i], row[i]);
      var c :| c in WithoutBreaks(row[i]) && w(c) > widths[i];
      var sub := WideCharacter(w, row[i], widths, cells, i, c);
      assert TextWidth(w, out[sub]) > TableWidth(widths);
    }
  }

  function Below(placed: seq<Placed>): nat {
    if placed == [] then 0 else placed[|placed| - 1].start + placed[|placed| - 1].height
  }

  /** The rows stand one below the other with a border line before each. */
  ghost predicate Stacked(w: Widths, rows: seq<seq<string>>, widths: seq<nat>, lines: seq<string>, placed: seq<Placed>)
    decreases |placed|
  {
    placed == [] ||
    var n := |placed| - 1;
    Stacked(w, rows, widths, lines, placed[..n]) && OnTop(w, rows, widths, lines, placed[..n], placed[n])
  }

  /** The next row stands below those placed, a border line between them. */
  ghost predicate OnTop(w: Widths, rows: seq<seq<string>>, widths: seq<nat>, lines: seq<string>, placed: seq<Placed>,
                        p: Placed) {
    && |placed| < |rows| && RowAt(w, rows[|placed|], widths, lines, p)
    && p.start == Below(placed) + 1
    && BorderAt(w, widths, lines, Below(placed), placed == [])
  }

  ghost predicate BorderAt(w: Widths, widths: seq<nat>, lines: seq<string>, at: nat, top: bool) {
    at < |lines| && IsBorder(w, widths, if top then Top else Middle, lines[at])
  }

  lemma {:induction false} StackedMore(w: Widths, rows: seq<seq<string>>, widths: seq<nat>, lines: seq<string>,
                                       placed: seq<Placed>, more: seq<string>)
    requires Stacked(w, rows, widths, lines, placed)
    ensures Stacked(w, rows, widths, lines + more, placed)
    decreases |placed|
  {
    if placed != [] {
      var n := |placed| - 1;
      RowAtMore(w, rows[n], widths, lines, placed[n], more);
      BorderAtMore(w, widths, lines, Below(placed[..n]), n == 0, more);
      StackedMore(w, rows, widths, lines, placed[..n], more);
    }
  }

  lemma BorderAtMore(w: Widths, widths: seq<nat>, lines: seq<string>, at: nat, top: bool, more: seq<string>)
    requires BorderAt(w, widths, lines, at, top)
    ensures BorderAt(w, widths, lines + more, at, top)
  {
  }

  lemma StackedRow(w: Widths, rows: seq<seq<string>>, widths: seq<nat>, lines: seq<string>, placed: seq<Placed>,
                   out: seq<string>, p: Placed)
    requires Stacked(w, rows, widths, lines, placed) && |placed| < |rows|
    requires |lines| == Below(placed) + 1 == p.start
    requires BorderAt(w, widths, lines, Below(placed), placed == [])
    requires RowAt(w, rows[|placed|], widths, lines + out, p)
    ensures Stacked(w, rows, widths, lines + out, placed + [p])
  {
    StackedMore(w, rows, widths, lines, placed, out);
    BorderAtMore(w, widths, lines, Below(placed), placed == [], out);
    StackedLast(w, rows, widths, lines + out, placed, p);
  }

  lemma StackedLast(w: Widths, rows: seq<seq<string>>, widths: seq<nat>, lines: seq<string>, placed: seq<Placed>,
                    p: Placed)
    requires Stacked(w, rows, widths, lines, placed) && OnTop(w, rows, widths, lines, placed, p)
    ensures Stacked(w, rows, widths, lines, placed + [p])
  {
    TakeFront(placed, p);
  }

  /** The table so far: `placed` rows, with or without a border below them. */
  ghost predicate Standing(w: Widths, rows: seq<seq<string>>, widths: seq<nat>, lines: seq<string>,
                           placed: seq<Placed>, closed: bool) {
    && |placed| <= |rows| && Stacked(w, rows, widths, lines, placed)
    && |lines| == Below(placed) + (if closed then 1 else 0)
    && (closed ==> BorderAt(w, widths, lines, Below(placed), placed == []))
  }

  /** If the first `n` rows have all their cells, the lines are even exactly when these rows are full. */
  ghost predicate EvenFor(w: Widths, rows: seq<seq<string>>, n: nat, widths: seq<nat>, lines: seq<string>)
    requires n <= |rows|
  {
    (forall r :: 0 <= r < n ==> |rows[r]| >= |widths|) ==>
      (Even(w, lines, TableWidth(widths)) <==> forall r :: 0 <= r < n ==> FullRow(w, rows[r], widths))
  }

  lemma EvenForMore(w: Widths, rows: seq<seq<string>>, n: nat, widths: seq<nat>, lines: seq<string>, out: seq<string>)
    requires n < |rows| && EvenFor(w, rows, n, widths, lines)
    requires |rows[n]| >= |widths| ==> (Even(w, out, TableWidth(widths)) <==> FullRow(w, rows[n], widths))
    ensures EvenFor(w, rows, n + 1, widths, lines + out)
  {
    EvenConcat(w, lines, out, TableWidth(widths));
  }

  lemma EvenForBorder(w: Widths, rows: seq<seq<string>>, n: nat, widths: seq<nat>, lines: seq<string>, e: Edge,
                      line: string)
    requires n <= |rows| && EvenFor(w, rows, n, widths, lines) && widths != [] && IsBorder(w, widths, e, line)
    ensures EvenFor(w, rows, n, widths, lines + [line])
  {
    EvenConcat(w, lines, [line], TableWidth(widths));
  }

  lemma StandingRow(w: Widths, rows: seq<seq<string>>, widths: seq<nat>, lines: seq<string>, placed: seq<Placed>,
                    out: seq<string>, cells: seq<seq<string>>)
    requires Standing(w, rows, widths, lines, placed, true) && |placed| < |rows| && widths != []
    requires EvenFor(w, rows, |placed|, widths, lines)
    requires RowIn(w, rows[|placed|], widths, cells, out)
    ensures Standing(w, rows, widths, lines + out, placed + [Placed(|lines|, |out|, cells)], false)
    ensures EvenFor(w, rows, |placed| + 1, widths, lines + out)
  {
    RowPlaced(w, rows[|placed|], widths, cells, out, lines);
    StackedRow(w, rows, widths, lines, placed, out, Placed(|lines|, |out|, cells));
    if |rows[|placed|]| >= |widths| {
      FullExactly(w, rows[|placed|], widths, cells, out);
    }
    EvenForMore(w, rows, |placed|, widths, lines, out);
  }

  lemma EvenConcat(w: Widths, a: seq<string>, b: seq<string>, width: nat)
    ensures Even(w, a + b, width) <==> Even(w, a, width) && Even(w, b, width)
  {
    assert forall i :: 0 <= i < |a| ==> (a + b)[i] == a[i];
    assert forall i :: 0 <= i < |b| ==> (a + b)[|a| + i] == b[i];
  }

  lemma StandingBorder(w: Widths, rows: seq<seq<string>>, widths: seq<nat>, lines: seq<string>, placed: seq<Placed>,
                       line: string)
    requires Standing(w, rows, widths, lines, placed, false) && placed != [] && widths != []
    requires IsBorder(w, widths, Middle, line)
    ensures Standing(w, rows, widths, lines + [line], placed, true)
  {
    StackedMore(w, rows, widths, lines, placed, [line]);
    assert (lines + [line])[|lines|] == line;
  }

  lemma StandingTop(w: Widths, rows: seq<seq<string>>, widths: seq<nat>, top: string)
    requires widths != [] && IsBorder(w, widths, Top, top)
    ensures Standing(w, rows, widths, [top], [], true) && EvenFor(w, rows, 0, widths, [top])
  {
  }

  /** The rows, each followed by a border except the last. */
  method RenderRows(w: Widths, rows: seq<seq<string>>, widths: seq<nat>, top: string)
    returns (lines: seq<string>, ghost placed: seq<Placed>)
    requires NarrowBorders(w) && widths != [] && rows != [] && IsBorder(w, widths, Top, top)
    ensures |placed| == |rows| && Standing(w, rows, widths, lines, placed, false)
    ensures EvenFor(w, rows, |rows|, widths, lines)
  {
    lines, placed := [top], [];
    StandingTop(w, rows, widths, top);
    for r := 0 to |rows|
      invariant |placed| == r && Standing(w, rows, widths, lines, placed, r < |rows|)
      invariant EvenFor(w, rows, r, widths, lines)
    {
      lines, placed := RenderNext(w, rows, r, widths, lines, placed);
    }
  }

  /** One more row, and the border below it unless it is the last. */
  method RenderNext(w: Widths, rows: seq<seq<string>>, r: nat, widths: seq<nat>, lines0: seq<string>,
                    ghost placed0: seq<Placed>)
    returns (lines: seq<string>, ghost placed: seq<Placed>)
    requires NarrowBorders(w) && widths != [] && r < |rows| && |placed0| == r
    requires Standing(w, rows, widths, lines0, placed0, true) && EvenFor(w, rows, r, widths, lines0)
    ensures |placed| == r + 1 && Standing(w, rows, widths, lines, placed, r + 1 < |rows|)
    ensures EvenFor(w, rows, r + 1, widths, lines)
  {
    ghost var cells;
    var out;
    out, cells := RenderCells(w, rows[r], widths);
    StandingRow(w, rows, widths, lines0, placed0, out, cells);
    lines, placed := lines0 + out, placed0 + [Placed(|lines0|, |out|, cells)];
    if r < |rows| - 1 {
      lines := Separate(w, rows, widths, lines, placed);
    }
  }

  method Separate(w: Widths, rows: seq<seq<string>>, widths: seq<nat>, lines0: seq<string>, ghost placed: seq<Placed>)
    returns (lines: seq<string>)
    requires NarrowBorders(w) && widths != [] && placed != []
    requires Standing(w, rows, widths, lines0, placed, false) && EvenFor(w, rows, |placed|, widths, lines0)
    ensures Standing(w, rows, widths, lines, placed, true) && EvenFor(w, rows, |placed|, widths, lines)
  {
    var middle := Border(w, Middle, widths);
    StandingBorder(w, rows, widths, lines0, placed, middle);
    EvenForBorder(w, rows, |placed|, widths, lines0, Middle, middle);
    lines := lines0 + [middle];
  }

  /** The whole table. Rows and borders stand one below the other, with every piece and every joint at
      its column; when every row has all its cells, every line has the same display width exactly if
      every character that is shown fits its column, and always if the ideal widths fit. */
  method RenderTable(w: Widths, rows: seq<seq<string>>, maxWidth: Option<nat>)
    returns (lines: seq<string>, widths: seq<nat>, ghost ideal: seq<nat>, ghost placed: seq<Placed>)
    requires NarrowBorders(w)
    ensures rows == [] || rows[0] == [] ==> lines == []
    ensures rows != [] && rows[0] != [] ==>
              && IsIdeal(w, rows, |rows[0]|, ideal) && IsChosen(ideal, maxWidth, widths)
              && |widths| == |rows[0]| && |placed| == |rows| && |lines| == Below(placed) + 1
              && Stacked(w, rows, widths, lines, placed)
              && IsBorder(w, widths, Bottom, lines[|lines| - 1])
    ensures rows != [] && rows[0] != [] && (forall r :: 0 <= r < |rows| ==> |rows[r]| >= |rows[0]|) ==>
              (Even(w, lines, TableWidth(widths)) <==> forall r :: 0 <= r < |rows| ==> FullRow(w, rows[r], widths))
    ensures rows != [] && IdealChosen(ideal, maxWidth) && (forall r :: 0 <= r < |rows| ==> |rows[r]| >= |rows[0]|) ==>
              Even(w, lines, TableWidth(ideal))
    ensures maxWidth.Some? && rows != [] && maxWidth.value >= 4 * |rows[0]| + 2 && rows[0] != [] ==>
              TableWidth(widths) < maxWidth.value
  {
    lines, widths, ideal, placed := [], [], [], [];
    if rows == [] || rows[0] == [] {
      return;
    }
    widths, ideal := ColumnWidths(w, rows, |rows[0]|, maxWidth);
    var top := Border(w, Top, widths);
    lines, placed := RenderRows(w, rows, widths, top);
    var bottom := Border(w, Bottom, widths);
    Finish(w, rows, widths, lines, placed, bottom);
    lines := lines + [bottom];
    IdealIsFull(w, rows, maxWidth, ideal, widths);
  }

  lemma Finish(w: Widths, rows: seq<seq<string>>, widths: seq<nat>, lines: seq<string>, placed: seq<Placed>,
               bottom: string)
    requires Stacked(w, rows, widths, lines, placed) && EvenFor(w, rows, |rows|, widths, lines)
    requires widths != [] && IsBorder(w, widths, Bottom, bottom)
    ensures Stacked(w, rows, widths, lines + [bottom], placed) && EvenFor(w, rows, |rows|, widths, lines + [bottom])
    ensures (lines + [bottom])[|lines|] == bottom
  {
    StackedMore(w, rows, widths, lines, placed, [bottom]);
    EvenForBorder(w, rows, |rows|, widths, lines, Bottom, bottom);
  }

  /** The row has all its cells, and they fit their columns. */
  predicate FullRow(w: Widths, row: seq<string>, widths: seq<nat>) {
    |row| >= |widths| && forall i :: 0 <= i < |widths| ==> CellFits(w, widths[i], row[i])
  }

  /** Columns as wide as their widest cell fit every character of it. */
  lemma IdealFits(w: Widths, row: seq<string>, widths: seq<nat>)
    requires |row| >= |widths| && forall i :: 0 <= i < |widths| ==> TextWidth(w, row[i]) <= widths[i]
    ensures FullRow(w, row, widths)
  {
    forall i, c | 0 <= i < |widths| && c in WithoutBreaks(row[i]) ensures w(c) <= widths[i] {
      WithoutBreaksMember(row[i], c);
      TextWidthBounds(w, row[i]);
    }
  }

  /** A wide character in a column shrunk to one place: the table comes out uneven. */
  lemma UnevenTable(w: Widths, c: char, ideal: seq<nat>, widths: seq<nat>)
    requires w(c) == 2 && c != '\n' && c != '\r'
    requires IsIdeal(w, [[[c]]], 1, ideal) && IsChosen(ideal, Some(6), widths)
    ensures widths == [1] && !FullRow(w, [[c]], widths)
  {
    CostOfChar(w, [c]);
    assert [[[c]]][0][0] == [c] && |[[[c]]][0]| == 1;
    assert ideal == [2];
    SumOne(ideal);
    SumOne(widths);
    WithoutBreaksPlain([c]);
    assert c in WithoutBreaks([c]) && [[c]][0] == [c];
  }

  lemma SumOne(xs: seq<nat>)
    requires |xs| == 1
    ensures Sum(xs) == xs[0]
  {
    assert xs[..0] == [];
  }

  lemma IdealIsFull(w: Widths, rows: seq<seq<string>>, maxWidth: Option<nat>, ideal: seq<nat>, widths: seq<nat>)
    requires rows != [] && IsIdeal(w, rows, |rows[0]|, ideal) && IsChosen(ideal, maxWidth, widths)
    ensures IdealChosen(ideal, maxWidth) && (forall r :: 0 <= r < |rows| ==> |rows[r]| >= |rows[0]|) ==>
              widths == ideal && forall r :: 0 <= r < |rows| ==> FullRow(w, rows[r], widths)
  {
    if IdealChosen(ideal, maxWidth) && forall r :: 0 <= r < |rows| ==> |rows[r]| >= |rows[0]| {
      forall r | 0 <= r < |rows| ensures FullRow(w, rows[r], widths) {
        IdealFits(w, rows[r], widths);
      }
    }
  }
}
