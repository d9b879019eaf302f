/** The final hard wrap of rendered markdown: over-wide lines are cut into rows, span styles kept. */
module MarkdownWrap {
  import opened Sequences
  import opened StyledText

  /** The rows put out so far are greedy, and the open row `cur`, or the text `rest` of the current
      span when no row is open, could not have joined the last of them. */
  ghost predicate Growing<S>(w: Widths, width: nat, rows: seq<seq<Cell<S>>>, cur: seq<Cell<S>>, rest: string) {
    && Greedy(w, width, rows)
    && (rows != [] ==>
          var last := Cost(w, rows[|rows| - 1]);
          if cur != [] then last + Columns(w, cur[0].ch) > width
          else last >= width || (rest != [] && last + Columns(w, rest[0]) > width))
  }

  /** The loop state, after the characters `done` and before `rest`. */
  ghost predicate Wrapping<S>(w: Widths, width: nat, rows: seq<Line<S>>, cur: Line<S>, curW: nat,
                              done: seq<Cell<S>>, rest: string) {
    && Join(CellRows(rows)) + Cells(cur) == done
    && AllFit(w, width, CellRows(rows))
    && curW == Cost(w, Cells(cur)) <= width
    && (cur == [] <==> Cells(cur) == [])
    && Growing(w, width, CellRows(rows), Cells(cur), rest)
  }

  lemma GrowRow<S>(w: Widths, width: nat, rows: seq<seq<Cell<S>>>, cur: seq<Cell<S>>, rest: string, after: string)
    requires Growing(w, width, rows, cur, rest) && cur != []
    requires Cost(w, cur) >= width || (after != [] && Cost(w, cur) + Columns(w, after[0]) > width)
    ensures Growing(w, width, rows + [cur], [], after)
  {
    var t := rows + [cur];
    assert forall i :: 0 <= i < |rows| ==> t[i] == rows[i];
  }

  /** Closing the open row: it is full, or the next character does not fit. */
  lemma FlushStep<S>(w: Widths, width: nat, rows: seq<Line<S>>, cur: Line<S>, curW: nat, done: seq<Cell<S>>,
                     rest: string)
    requires Wrapping(w, width, rows, cur, curW, done, rest) && cur != []
    requires curW >= width || (rest != [] && curW + Columns(w, rest[0]) > width)
    ensures Wrapping(w, width, rows + [cur], [], 0, done, rest)
  {
    CellRowsAppend(w, width, rows, cur);
    GrowRow(w, width, CellRows(rows), Cells(cur), rest, rest);
    WidthAtMostCost(w, Cells(cur));
    assert done + [] == done;
  }

  lemma PieceStep<S>(w: Widths, width: nat, rows: seq<Line<S>>, cur: Line<S>, curW: nat, done: seq<Cell<S>>,
                     rest: string, n: nat, style: S)
    requires Wrapping(w, width, rows, cur, curW, done, rest)
    requires 0 < n <= |rest| && curW + StringCost(w, rest[..n]) <= width
    ensures Wrapping(w, width, rows, cur + [Span(rest[..n], style)], curW + StringCost(w, rest[..n]),
                     done + Paint(rest[..n], style), rest[n..])
  {
    var piece := Paint(rest[..n], style);
    CellsAppend(cur, Span(rest[..n], style));
    CostConcat(w, Cells(cur), piece);
    PaintCost(w, rest[..n], style);
    Assoc(Join(CellRows(rows)), Cells(cur), piece);
    assert (Cells(cur) + piece)[0] == if Cells(cur) == [] then piece[0] else Cells(cur)[0];
  }

  lemma OneCell<S>(w: Widths, rest: string, style: S)
    requires rest != []
    ensures Cells([Span(rest[..1], style)]) == [Cell(rest[0], style)] == Paint(rest[..1], style)
    ensures Cost(w, Cells([Span(rest[..1], style)])) == Columns(w, rest[0])
  {
    CellsOfOne(Span(rest[..1], style));
    CostOne(w, Cell(rest[0], style));
  }

  /** A character wider than the column gets a row of its own. */
  lemma ForceStep<S>(w: Widths, width: nat, rows: seq<Line<S>>, done: seq<Cell<S>>, rest: string, style: S)
    requires Wrapping(w, width, rows, [], 0, done, rest)
    requires rest != [] && Columns(w, rest[0]) > width
    ensures Wrapping(w, width, rows + [[Span(rest[..1], style)]], [], 0, done + Paint(rest[..1], style), rest[1..])
  {
    var row: Line<S> := [Span(rest[..1], style)];
    OneCell(w, rest, style);
    CellRowsAppend(w, width, rows, row);
    GrowRow(w, width, CellRows(rows), Cells(row), rest, rest[1..]);
    NilRight(Join(CellRows(rows)));
    NilRight(Join(CellRows(rows + [row])));
  }

  /** No wrapping of the text has fewer rows: among those whose rows are charged no more than the
      column, and, when the text has no character of width zero, among all whose rows fit it. */
  ghost predicate NoShorter<S(!new)>(rows: nat, w: Widths, width: nat, text: seq<Cell<S>>) {
    && (forall other :: Join(other) == text && AllCharged(w, width, other) && text != [] ==> rows <= |other|)
    && (Solid(w, text) ==>
          forall other :: Join(other) == text && AllFit(w, width, other) && text != [] ==> rows <= |other|)
  }

  /** Move the first `take` characters of `rest` into the open row, or, when not even one fits an
      empty row, put the first character out on a row of its own. */
  method Put<S>(w: Widths, width: nat, rows0: seq<Line<S>>, cur0: Line<S>, curW0: nat,
                rest: string, take: nat, takeCols: nat, style: S, ghost done: seq<Cell<S>>)
    returns (rows: seq<Line<S>>, cur: Line<S>, curW: nat, n: nat)
    requires width > 0 && Wrapping(w, width, rows0, cur0, curW0, done, rest)
    requires rest != "" && take <= |rest| && takeCols == StringCost(w, rest[..take]) && curW0 + takeCols <= width
    requires take == 0 ==> curW0 == 0 && Columns(w, rest[0]) > width
    ensures 0 < n <= |rest| && Wrapping(w, width, rows, cur, curW, done + Paint(rest[..n], style), rest[n..])
  {
    rows, cur, curW := rows0, cur0, curW0;
    if take == 0 {
      EmptyRow(w, cur);
      ForceStep(w, width, rows, done, rest, style);
      cur := cur + [Span(rest[..1], style)];
      assert cur == [Span(rest[..1], style)];
      rows, cur, curW, n := rows + [cur], [], 0, 1;
      return;
    }
    PieceStep(w, width, rows, cur, curW, done, rest, take, style);
    cur := cur + [Span(rest[..take], style)];
    curW := curW + takeCols;
    n := take;
    if curW >= width {
      FlushStep(w, width, rows, cur, curW, done + Paint(rest[..take], style), rest[take..]);
      rows, cur, curW := rows + [cur], [], 0;
    }
  }

  lemma EmptyRow<S>(w: Widths, cur: Line<S>)
    ensures Cost(w, Cells(cur)) == 0 ==> Cells(cur) == []
  {
    WidthAtMostCost(w, Cells(cur));
  }

  /** The loop over one span. */
  method WrapSpan<S>(w: Widths, span: Span<S>, width: nat, rows0: seq<Line<S>>, cur0: Line<S>, curW0: nat,
                     ghost done0: seq<Cell<S>>)
    returns (rows: seq<Line<S>>, cur: Line<S>, curW: nat)
    requires width > 0 && Wrapping(w, width, rows0, cur0, curW0, done0, [])
    ensures Wrapping(w, width, rows, cur, curW, done0 + Paint(span.content, span.style), [])
  {
    rows, cur, curW := rows0, cur0, curW0;
    var style, rest := span.style, span.content;
    ghost var done := done0;
    while rest != []
      invariant Wrapping(w, width, rows, cur, curW, done, rest)
      invariant done + Paint(rest, style) == done0 + Paint(span.content, style)
      decreases |rest|, curW
    {
      var avail := width - curW;
      if avail == 0 {
        FlushStep(w, width, rows, cur, curW, done, rest);
        rows, cur, curW := rows + [cur], [], 0;
        continue;
      }
      var takeCols, take := TakeFitting(w, rest, avail);
      if take == 0 && curW > 0 {
        FlushStep(w, width, rows, cur, curW, done, rest);
        rows, cur, curW := rows + [cur], [], 0;
        continue;
      }
      var n;
      rows, cur, curW, n := Put(w, width, rows, cur, curW, rest, take, takeCols, style, done);
      PaintSplit(done, rest, n, style);
      done := done + Paint(rest[..n], style);
      rest := rest[n..];
    }
    assert done + Paint(rest, style) == done;
  }

  /** The rows are the line, exactly and as briefly as possible. */
  ghost predicate Wrapped<S(!new)>(w: Widths, width: nat, line: Line<S>, rows: seq<Line<S>>) {
    Join(CellRows(rows)) == Cells(line) && NoShorter(|rows|, w, width, Cells(line))
  }

  /** One line. For every table of widths the rows hold exactly the characters and styles of the
      line in order, every row fits or is a single character, and there are as few rows as possible. */
  method WrapLine<S(!new)>(w: Widths, line: Line<S>, width: nat) returns (rows: seq<Line<S>>)
    requires width > 0
    ensures Wrapped(w, width, line, rows) && AllFit(w, width, CellRows(rows))
  {
    rows := [];
    assert CellRows(rows) == [] && Join(CellRows(rows)) == [];
    if Width(w, Cells(line)) <= width {
      CellRowsAppend(w, width, rows, line);
      rows := rows + [line];
      OneRow(w, width, Cells(line));
      return;
    }
    var cur: Line<S> := [];
    var curW: nat := 0;
    for i := 0 to |line|
      invariant Wrapping(w, width, rows, cur, curW, Cells(line[..i]), [])
    {
      assert line[..i + 1] == line[..i] + [line[i]];
      CellsAppend(line[..i], line[i]);
      rows, cur, curW := WrapSpan(w, line[i], width, rows, cur, curW, Cells(line[..i]));
    }
    assert line[..|line|] == line;
    if cur != [] {
      LastRow(w, width, rows, cur, curW, Cells(line));
      rows := rows + [cur];
    } else {
      assert Join(CellRows(rows)) + [] == Join(CellRows(rows));
    }
    ShortestRows(w, width, CellRows(rows), Cells(line));
  }

  lemma OneRow<S(!new)>(w: Widths, width: nat, text: seq<Cell<S>>)
    ensures NoShorter(1, w, width, text)
  {
  }

  lemma PaintSplit<S>(done: seq<Cell<S>>, s: string, n: nat, style: S)
    requires n <= |s|
    ensures done + Paint(s, style) == done + Paint(s[..n], style) + Paint(s[n..], style)
  {
  }

  lemma LastRow<S>(w: Widths, width: nat, rows: seq<Line<S>>, cur: Line<S>, curW: nat, done: seq<Cell<S>>)
    requires Wrapping(w, width, rows, cur, curW, done, []) && cur != []
    ensures Join(CellRows(rows + [cur])) == done && AllFit(w, width, CellRows(rows + [cur]))
    ensures Greedy(w, width, CellRows(rows + [cur]))
  {
    CellRowsAppend(w, width, rows, cur);
    WidthAtMostCost(w, Cells(cur));
    var t := CellRows(rows) + [Cells(cur)];
    assert forall i :: 0 <= i < |rows| ==> t[i] == CellRows(rows)[i];
  }

  lemma ShortestRows<S(!new)>(w: Widths, width: nat, rows: seq<seq<Cell<S>>>, text: seq<Cell<S>>)
    requires Greedy(w, width, rows) && Join(rows) == text
    ensures NoShorter(|rows|, w, width, text)
  {
    forall other | Join(other) == text && (AllCharged(w, width, other) || (Solid(w, text) && AllFit(w, width, other)))
      ensures |rows| <= |other|
    {
      if Solid(w, text) {
        SolidRows(w, width, other);
      }
      GreedyIsShortest(w, width, rows, other);
    }
  }

  ghost predicate AllWrapped<S(!new)>(w: Widths, width: nat, lines: seq<Line<S>>, groups: seq<seq<Line<S>>>) {
    |groups| == |lines| && forall i :: 0 <= i < |lines| ==> Wrapped(w, width, lines[i], groups[i])
  }

  lemma AllWrappedAppend<S(!new)>(w: Widths, width: nat, lines: seq<Line<S>>, groups: seq<seq<Line<S>>>,
                                  line: Line<S>, rows: seq<Line<S>>)
    requires AllWrapped(w, width, lines, groups) && Wrapped(w, width, line, rows)
    ensures AllWrapped(w, width, lines + [line], groups + [rows])
  {
    var ls, gs := lines + [line], groups + [rows];
    forall i | 0 <= i < |ls| ensures Wrapped(w, width, ls[i], gs[i]) {
      assert i < |lines| ==> ls[i] == lines[i] && gs[i] == groups[i];
    }
  }

  /** All lines, each wrapped on its own. `groups` says which rows came from which line. */
  method WrapLinesToWidth<S(!new)>(w: Widths, lines: seq<Line<S>>, width: nat)
    returns (out: seq<Line<S>>, ghost groups: seq<seq<Line<S>>>)
    requires width > 0
    ensures out == Join(groups) && AllFit(w, width, CellRows(out))
    ensures AllWrapped(w, width, lines, groups)
  {
    out, groups := [], [];
    for i := 0 to |lines|
      invariant out == Join(groups) && AllFit(w, width, CellRows(out))
      invariant AllWrapped(w, width, lines[..i], groups)
    {
      var rows := WrapLine(w, lines[i], width);
      JoinAppend(groups, rows);
      AllFitConcat(w, width, out, rows);
      AllWrappedAppend(w, width, lines[..i], groups, lines[i], rows);
      TakeNext(lines, i);
      out, groups := out + rows, groups + [rows];
    }
    assert lines[..|lines|] == lines;
  }
}
