/** Hard wrapping with a repeated gutter: a line that begins with a gutter span gets that span
    again at the start of every continuation row, and a row holding nothing but a gutter is
    dropped. The gutter may be as wide as the column or wider. */
module ClipLines {
  import opened Sequences
  import opened Text
  import opened StyledText
  import opened MarkdownWrap
  import opened GutterFates

  /** The loop state, after the characters `done`. */
  ghost predicate Clipping<S>(w: Widths, width: nat, gutter: Option<Span<S>>, rows: seq<Line<S>>, cur: Line<S>,
                              curW: nat, done: seq<Cell<S>>, book: Book<S>) {
    && Accounts(gutter, book.fates, rows, Texts(book.fates))
    && Fair(gutter, Shown(cur, book.repeated))
    && Texts(book.fates) + RowText(cur, book.repeated) == done
    && AllFit(w, width, CellRows(rows))
    && Width(w, Cells(cur)) <= curW
    && (curW <= width || (gutter.Some? && cur == [gutter.value]))
    && (cur == [] <==> curW == 0)
  }

  /** A row that begins with the gutter, or with a character that does not fit beside it. */
  predicate Begins<S(==)>(w: Widths, width: nat, gutter: Span<S>, row: Line<S>) {
    row != [] && (row[0] == gutter ||
                  (row[0].content != "" && GutterWidth(w, Some(gutter)) + Columns(w, row[0].content[0]) > width))
  }

  /** The gutter is repeated: every row after the first begins with it if its text leaves room. */
  ghost predicate Lined<S>(w: Widths, width: nat, gutter: Option<Span<S>>, rows: seq<Line<S>>) {
    gutter.Some? && SolidGutter(w, gutter) ==> forall k :: 1 <= k < |rows| ==> Begins(w, width, gutter.value, rows[k])
  }

  /** The same while a row is open, before the text `rest`. */
  ghost predicate Lining<S>(w: Widths, width: nat, gutter: Option<Span<S>>, rows: seq<Line<S>>, cur: Line<S>,
                            curW: nat, rest: string) {
    && Lined(w, width, gutter, rows)
    && (gutter.Some? && SolidGutter(w, gutter) ==>
          && (Orphan(cur, gutter) ==> curW == GutterWidth(w, gutter))
          && (rows != [] ==>
                if cur != [] then Begins(w, width, gutter.value, cur)
                else GutterWidth(w, gutter) >= width ||
                     (rest != "" && GutterWidth(w, gutter) + Columns(w, rest[0]) > width)))
    && (gutter.None? ==> Filling(w, width, rows, cur, curW, rest))
  }

  /** Without a gutter the rows are filled greedily. */
  ghost predicate Filling<S>(w: Widths, width: nat, rows: seq<Line<S>>, cur: Line<S>, curW: nat, rest: string) {
    && curW == Cost(w, Cells(cur))
    && (cur == [] <==> Cells(cur) == [])
    && Growing(w, width, CellRows(rows), Cells(cur), rest)
  }

  lemma LinedAppend<S>(w: Widths, width: nat, gutter: Option<Span<S>>, rows: seq<Line<S>>, row: Line<S>)
    requires Lined(w, width, gutter, rows)
    requires gutter.Some? && SolidGutter(w, gutter) && rows != [] ==> Begins(w, width, gutter.value, row)
    ensures Lined(w, width, gutter, rows + [row])
  {
  }

  lemma FillingFlush<S>(w: Widths, width: nat, rows: seq<Line<S>>, cur: Line<S>, curW: nat, rest: string)
    requires Filling(w, width, rows, cur, curW, rest) && cur != []
    requires curW >= width || (rest != "" && curW + Columns(w, rest[0]) > width)
    ensures Filling(w, width, rows + [cur], [], 0, rest)
  {
    CellRowsAppend(w, width, rows, cur);
    GrowRow(w, width, CellRows(rows), Cells(cur), rest, rest);
  }

  lemma FillingPiece<S>(w: Widths, width: nat, rows: seq<Line<S>>, cur: Line<S>, curW: nat, rest: string, n: nat,
                        style: S)
    requires Filling(w, width, rows, cur, curW, rest) && 0 < n <= |rest|
    ensures Filling(w, width, rows, cur + [Span(rest[..n], style)], curW + StringCost(w, rest[..n]), rest[n..])
  {
    var piece := Paint(rest[..n], style);
    CellsAppend(cur, Span(rest[..n], style));
    CostConcat(w, Cells(cur), piece);
    PaintCost(w, rest[..n], style);
    assert (Cells(cur) + piece)[0] == if Cells(cur) == [] then piece[0] else Cells(cur)[0];
  }

  lemma FillingForce<S>(w: Widths, width: nat, rows: seq<Line<S>>, rest: string, style: S)
    requires Filling(w, width, rows, [], 0, rest) && rest != "" && Columns(w, rest[0]) > width
    ensures Filling(w, width, rows + [[Span(rest[..1], style)]], [], 0, rest[1..])
  {
    var row: Line<S> := [Span(rest[..1], style)];
    OneCell(w, rest, style);
    CellRowsAppend(w, width, rows, row);
    GrowRow(w, width, CellRows(rows), Cells(row), rest, rest[1..]);
  }

  lemma SolidCost<S>(w: Widths, gutter: Span<S>)
    requires SolidGutter(w, Some(gutter))
    ensures StringCost(w, gutter.content) == GutterWidth(w, Some(gutter))
  {
    PaintCost(w, gutter.content, gutter.style);
    SolidWidth(w, Paint(gutter.content, gutter.style));
  }

  lemma PieceLines<S>(w: Widths, width: nat, gutter: Option<Span<S>>, rows: seq<Line<S>>, cur: Line<S>, curW: nat,
                      rest: string, n: nat, nextW: nat, style: S)
    requires Lining(w, width, gutter, rows, cur, curW, rest) && 0 < n <= |rest| && (cur == [] ==> curW == 0)
    requires nextW == curW + StringCost(w, rest[..n]) <= width
    ensures Lining(w, width, gutter, rows, cur + [Span(rest[..n], style)], nextW, rest[n..])
  {
    if gutter.Some? && SolidGutter(w, gutter) {
      SolidCost(w, gutter.value);
      assert Columns(w, rest[0]) <= StringCost(w, rest[..n]) by {
        PaintCost(w, rest[..n], style);
        FirstCost(w, rest[..n]);
      }
      assert (cur + [Span(rest[..n], style)])[0] == if cur == [] then Span(rest[..n], style) else cur[0];
    }
    if gutter.None? {
      FillingPiece(w, width, rows, cur, curW, rest, n, style);
    }
  }

  lemma FreshState<S>(w: Widths, gutter: Option<Span<S>>)
    ensures RowText(Fresh(gutter), gutter.Some?) == []
    ensures Fair(gutter, Shown(Fresh(gutter), gutter.Some?))
    ensures Width(w, Cells(Fresh(gutter))) == GutterWidth(w, gutter)
  {
    if gutter.Some? {
      CellsOfOne(gutter.value);
      assert Fresh(gutter)[1..] == [];
    }
  }

  lemma FlushOut<S>(w: Widths, width: nat, gutter: Option<Span<S>>, rows: seq<Line<S>>, cur: Line<S>, curW: nat,
                    done: seq<Cell<S>>, book: Book<S>)
    requires Clipping(w, width, gutter, rows, cur, curW, done, book) && !Orphan(cur, gutter)
    requires gutter.Some? ==> GutterWidth(w, gutter) >= 1
    ensures Clipping(w, width, gutter, rows + [cur], Fresh(gutter), GutterWidth(w, gutter), done,
                     Book(book.fates + [Shown(cur, book.repeated)], gutter.Some?))
  {
    CellRowsAppend(w, width, rows, cur);
    AccountsAppend(gutter, book.fates, rows, Texts(book.fates), Shown(cur, book.repeated));
    FreshState(w, gutter);
    NilRight(done);
  }

  lemma FlushOrphan<S>(w: Widths, width: nat, gutter: Option<Span<S>>, rows: seq<Line<S>>, cur: Line<S>, curW: nat,
                       done: seq<Cell<S>>, book: Book<S>)
    requires Clipping(w, width, gutter, rows, cur, curW, done, book) && Orphan(cur, gutter)
    ensures Clipping(w, width, gutter, rows, [], 0, done, DropOrphan(book, cur))
  {
    if book.repeated {
      assert cur[1..] == [];
      NilRight(Texts(book.fates));
    } else {
      assert cur == [cur[0]];
      AccountsAppend(gutter, book.fates, rows, Texts(book.fates), Dropped(cur[0]));
      NilRight(rows);
    }
    NilRight(done);
  }

  lemma AfterOrphan<S>(w: Widths, width: nat, gutter: Option<Span<S>>, text: seq<Cell<S>>, rows: seq<Line<S>>,
                       cur: Line<S>, curW: nat, done: seq<Cell<S>>, rest: string, book: Book<S>)
    requires Clipping(w, width, gutter, rows, cur, curW, done, book)
    requires Lining(w, width, gutter, rows, cur, curW, rest)
    requires Fated(w, width, gutter, text, rows, cur, curW, done, rest, book)
    requires Orphan(cur, gutter) && Full(w, width, curW, rest) && Next(text, |done|, rest)
    ensures Clipping(w, width, gutter, rows, [], 0, done, DropOrphan(book, cur))
    ensures Lining(w, width, gutter, rows, [], 0, rest)
    ensures Fated(w, width, gutter, text, rows, [], 0, done, rest, DropOrphan(book, cur))
  {
    FlushOrphan(w, width, gutter, rows, cur, curW, done, book);
    FatedOrphan(w, width, gutter, text, rows, cur, curW, done, rest, book);
  }

  lemma AfterOut<S>(w: Widths, width: nat, gutter: Option<Span<S>>, text: seq<Cell<S>>, rows: seq<Line<S>>,
                    cur: Line<S>, curW: nat, done: seq<Cell<S>>, rest: string, book: Book<S>)
    requires Clipping(w, width, gutter, rows, cur, curW, done, book)
    requires Lining(w, width, gutter, rows, cur, curW, rest)
    requires Fated(w, width, gutter, text, rows, cur, curW, done, rest, book)
    requires cur != [] && !Orphan(cur, gutter) && Full(w, width, curW, rest)
    ensures Clipping(w, width, gutter, rows + [cur], Fresh(gutter), GutterWidth(w, gutter), done,
                     Book(book.fates + [Shown(cur, book.repeated)], gutter.Some?))
    ensures Lining(w, width, gutter, rows + [cur], Fresh(gutter), GutterWidth(w, gutter), rest)
    ensures Fated(w, width, gutter, text, rows + [cur], Fresh(gutter), GutterWidth(w, gutter), done, rest,
                  Book(book.fates + [Shown(cur, book.repeated)], gutter.Some?))
  {
    FlushOut(w, width, gutter, rows, cur, curW, done, book);
    FatedOut(w, width, gutter, text, rows, cur, curW, done, rest, book);
    LinedAppend(w, width, gutter, rows, cur);
    if gutter.None? {
      FillingFlush(w, width, rows, cur, curW, rest);
    }
  }

  /** Close the open row: drop it if it is an orphan, else put it out and start the next one. */
  method Flush<S(==)>(w: Widths, width: nat, gutter: Option<Span<S>>, rows0: seq<Line<S>>, cur0: Line<S>, curW0: nat,
                      ghost text: seq<Cell<S>>, ghost done: seq<Cell<S>>, ghost rest: string, ghost book0: Book<S>)
    returns (rows: seq<Line<S>>, cur: Line<S>, curW: nat, ghost book: Book<S>)
    requires Clipping(w, width, gutter, rows0, cur0, curW0, done, book0)
    requires Lining(w, width, gutter, rows0, cur0, curW0, rest)
    requires Fated(w, width, gutter, text, rows0, cur0, curW0, done, rest, book0)
    requires Full(w, width, curW0, rest) && Next(text, |done|, rest)
    ensures Clipping(w, width, gutter, rows, cur, curW, done, book)
    ensures Lining(w, width, gutter, rows, cur, curW, rest)
    ensures Fated(w, width, gutter, text, rows, cur, curW, done, rest, book)
    ensures cur0 != [] ==> Rank(cur, gutter) < Rank(cur0, gutter)
  {
    rows, cur, curW, book := rows0, cur0, curW0, book0;
    if cur == [] {
      return;
    }
    if Orphan(cur, gutter) {
      AfterOrphan(w, width, gutter, text, rows, cur, curW, done, rest, book);
      cur, curW, book := [], 0, DropOrphan(book, cur);
      return;
    }
    AfterOut(w, width, gutter, text, rows, cur, curW, done, rest, book);
    book := Book(book.fates + [Shown(cur, book.repeated)], gutter.Some?);
    rows, cur, curW := rows + [cur], Fresh(gutter), GutterWidth(w, gutter);
  }

  lemma PieceStep<S>(w: Widths, width: nat, gutter: Option<Span<S>>, rows: seq<Line<S>>, cur: Line<S>, curW: nat,
                     done: seq<Cell<S>>, book: Book<S>, piece: string, nextW: nat, style: S)
    requires Clipping(w, width, gutter, rows, cur, curW, done, book)
    requires piece != "" && nextW == curW + StringCost(w, piece) <= width
    ensures Clipping(w, width, gutter, rows, cur + [Span(piece, style)], nextW, done + Paint(piece, style), book)
  {
    PieceWidth(w, cur, piece, style);
    PieceText(Texts(book.fates), cur, book.repeated, piece, style);
  }

  lemma PieceWidth<S>(w: Widths, cur: Line<S>, piece: string, style: S)
    ensures Width(w, Cells(cur + [Span(piece, style)])) <= Width(w, Cells(cur)) + StringCost(w, piece)
    ensures piece != "" ==> StringCost(w, piece) > 0
  {
    var cells := Paint(piece, style);
    CellsAppend(cur, Span(piece, style));
    CostConcat(w, Cells(cur), cells);
    PaintCost(w, piece, style);
    WidthAtMostCost(w, cells);
  }

  lemma PieceText<S>(before: seq<Cell<S>>, cur: Line<S>, repeated: bool, piece: string, style: S)
    requires repeated ==> cur != []
    ensures before + RowText(cur + [Span(piece, style)], repeated) ==
              before + RowText(cur, repeated) + Paint(piece, style)
  {
    var shown := if repeated then cur[1..] else cur;
    if repeated {
      assert (cur + [Span(piece, style)])[1..] == shown + [Span(piece, style)];
    }
    CellsAppend(shown, Span(piece, style));
    Assoc(before, Cells(shown), Paint(piece, style));
  }

  lemma ForceStep<S>(w: Widths, width: nat, gutter: Option<Span<S>>, rows: seq<Line<S>>, done: seq<Cell<S>>,
                     book: Book<S>, piece: string, style: S)
    requires Clipping(w, width, gutter, rows, [], 0, done, book)
    requires gutter.Some? ==> GutterWidth(w, gutter) >= 1
    requires |piece| == 1
    ensures Clipping(w, width, gutter, rows + [[Span(piece, style)]], Fresh(gutter), GutterWidth(w, gutter),
                     done + Paint(piece, style), Book(book.fates + [Shown([Span(piece, style)], false)], gutter.Some?))
  {
    var row: Line<S> := [Span(piece, style)];
    CellsOfOne(Span(piece, style));
    PieceText(Texts(book.fates), [], false, piece, style);
    assert [] + [Span(piece, style)] == row;
    CellRowsAppend(w, width, rows, row);
    AccountsAppend(gutter, book.fates, rows, Texts(book.fates), Shown(row, false));
    FreshState(w, gutter);
    NilRight(done + Paint(piece, style));
  }

  lemma PaintTake<S>(done: seq<Cell<S>>, s: string, n: nat, style: S)
    requires n <= |s|
    ensures done + Paint(s, style) == done + Paint(s[..n], style) + Paint(s[n..], style)
  {
  }

  lemma AfterPiece<S>(w: Widths, width: nat, gutter: Option<Span<S>>, text: seq<Cell<S>>, rows: seq<Line<S>>,
                      cur: Line<S>, curW: nat, done: seq<Cell<S>>, rest: string, book: Book<S>, n: nat,
                      nextW: nat, style: S)
    requires Clipping(w, width, gutter, rows, cur, curW, done, book)
    requires Lining(w, width, gutter, rows, cur, curW, rest)
    requires Fated(w, width, gutter, text, rows, cur, curW, done, rest, book)
    requires 0 < n <= |rest| && nextW == curW + StringCost(w, rest[..n]) <= width && Next(text, |done|, rest)
    requires n < |rest| ==> nextW + Columns(w, rest[n]) > width
    ensures Clipping(w, width, gutter, rows, cur + [Span(rest[..n], style)], nextW, done + Paint(rest[..n], style),
                     book)
    ensures Lining(w, width, gutter, rows, cur + [Span(rest[..n], style)], nextW, rest[n..])
    ensures Fated(w, width, gutter, text, rows, cur + [Span(rest[..n], style)], nextW, done + Paint(rest[..n], style),
                  rest[n..], book)
  {
    PieceStep(w, width, gutter, rows, cur, curW, done, book, rest[..n], nextW, style);
    PieceLines(w, width, gutter, rows, cur, curW, rest, n, nextW, style);
    FatedPiece(w, width, gutter, text, rows, cur, curW, done, rest, book, n, nextW, style);
  }

  lemma AfterForce<S>(w: Widths, width: nat, gutter: Option<Span<S>>, text: seq<Cell<S>>, rows: seq<Line<S>>,
                          done: seq<Cell<S>>, rest: string, book: Book<S>, style: S)
    requires Clipping(w, width, gutter, rows, [], 0, done, book)
    requires Lining(w, width, gutter, rows, [], 0, rest)
    requires Fated(w, width, gutter, text, rows, [], 0, done, rest, book)
    requires rest != "" && Columns(w, rest[0]) > width && Next(text, |done|, rest)
    ensures var row: Line<S> := [Span(rest[..1], style)];
            var next := Book(book.fates + [Shown(row, false)], gutter.Some?);
            && Clipping(w, width, gutter, rows + [row], Fresh(gutter), GutterWidth(w, gutter),
                        done + Paint(rest[..1], style), next)
            && Lining(w, width, gutter, rows + [row], Fresh(gutter), GutterWidth(w, gutter), rest[1..])
            && Fated(w, width, gutter, text, rows + [row], Fresh(gutter), GutterWidth(w, gutter),
                     done + Paint(rest[..1], style), rest[1..], next)
  {
    ForceStep(w, width, gutter, rows, done, book, rest[..1], style);
    FatedForce(w, width, gutter, text, rows, done, rest, book, style);
    LinedAppend(w, width, gutter, rows, [Span(rest[..1], style)]);
    if gutter.None? {
      FillingForce(w, width, rows, rest, style);
    }
  }

  /** Put the first character, which does not fit an empty row, out on a row of its own. */
  method Force<S(==)>(w: Widths, width: nat, gutter: Option<Span<S>>, rows0: seq<Line<S>>, rest: string, style: S,
                      ghost text: seq<Cell<S>>, ghost done: seq<Cell<S>>, ghost book0: Book<S>)
    returns (rows: seq<Line<S>>, cur: Line<S>, curW: nat, ghost book: Book<S>)
    requires Clipping(w, width, gutter, rows0, [], 0, done, book0)
    requires Lining(w, width, gutter, rows0, [], 0, rest)
    requires Fated(w, width, gutter, text, rows0, [], 0, done, rest, book0)
    requires rest != "" && Columns(w, rest[0]) > width && Next(text, |done|, rest)
    ensures Clipping(w, width, gutter, rows, cur, curW, done + Paint(rest[..1], style), book)
    ensures Lining(w, width, gutter, rows, cur, curW, rest[1..])
    ensures Fated(w, width, gutter, text, rows, cur, curW, done + Paint(rest[..1], style), rest[1..], book)
  {
    AfterForce(w, width, gutter, text, rows0, done, rest, book0, style);
    rows := rows0 + [[Span(rest[..1], style)]];
    book := Book(book0.fates + [Shown([Span(rest[..1], style)], false)], gutter.Some?);
    cur, curW := Fresh(gutter), GutterWidth(w, gutter);
  }

  method FlushFull<S(==)>(w: Widths, width: nat, gutter: Option<Span<S>>, rows0: seq<Line<S>>, cur0: Line<S>,
                          curW0: nat, ghost text: seq<Cell<S>>, ghost done: seq<Cell<S>>, ghost rest: string,
                          ghost book0: Book<S>)
    returns (rows: seq<Line<S>>, cur: Line<S>, curW: nat, ghost book: Book<S>)
    requires Clipping(w, width, gutter, rows0, cur0, curW0, done, book0)
    requires Lining(w, width, gutter, rows0, cur0, curW0, rest)
    requires Fated(w, width, gutter, text, rows0, cur0, curW0, done, rest, book0) && Next(text, |done|, rest)
    ensures Clipping(w, width, gutter, rows, cur, curW, done, book)
    ensures Lining(w, width, gutter, rows, cur, curW, rest)
    ensures Fated(w, width, gutter, text, rows, cur, curW, done, rest, book)
  {
    rows, cur, curW, book := rows0, cur0, curW0, book0;
    if curW >= width {
      rows, cur, curW, book := Flush(w, width, gutter, rows, cur, curW, text, done, rest, book);
    }
  }

  /** Move the first `take` characters of `rest` into the open row. */
  method Put<S(==)>(w: Widths, width: nat, gutter: Option<Span<S>>, rows0: seq<Line<S>>, cur0: Line<S>, curW0: nat,
                    rest: string, take: nat, takeCols: nat, style: S, ghost text: seq<Cell<S>>,
                    ghost done: seq<Cell<S>>, ghost book0: Book<S>)
    returns (rows: seq<Line<S>>, cur: Line<S>, curW: nat, ghost book: Book<S>)
    requires Clipping(w, width, gutter, rows0, cur0, curW0, done, book0)
    requires Lining(w, width, gutter, rows0, cur0, curW0, rest)
    requires Fated(w, width, gutter, text, rows0, cur0, curW0, done, rest, book0)
    requires 0 < take <= |rest| && takeCols == StringCost(w, rest[..take]) && curW0 + takeCols <= width
    requires Next(text, |done|, rest) && Next(text, |done + Paint(rest[..take], style)|, rest[take..])
    requires take < |rest| ==> curW0 + takeCols + Columns(w, rest[take]) > width
    ensures Clipping(w, width, gutter, rows, cur, curW, done + Paint(rest[..take], style), book)
    ensures Lining(w, width, gutter, rows, cur, curW, rest[take..])
    ensures Fated(w, width, gutter, text, rows, cur, curW, done + Paint(rest[..take], style), rest[take..], book)
  {
    cur, curW := cur0 + [Span(rest[..take], style)], curW0 + takeCols;
    ghost var after, more := done + Paint(rest[..take], style), rest[take..];
    AfterPiece(w, width, gutter, text, rows0, cur0, curW0, done, rest, book0, take, curW, style);
    rows, cur, curW, book := FlushFull(w, width, gutter, rows0, cur, curW, text, after, more, book0);
  }

  /** The loop over one span. */
  method ClipSpan<S(==)>(w: Widths, span: Span<S>, width: nat, gutter: Option<Span<S>>, rows0: seq<Line<S>>,
                         cur0: Line<S>, curW0: nat, ghost text: seq<Cell<S>>, ghost done0: seq<Cell<S>>,
                         ghost book0: Book<S>)
    returns (rows: seq<Line<S>>, cur: Line<S>, curW: nat, ghost book: Book<S>)
    requires width > 0
    requires Clipping(w, width, gutter, rows0, cur0, curW0, done0, book0)
    requires Lining(w, width, gutter, rows0, cur0, curW0, "")
    requires Fated(w, width, gutter, text, rows0, cur0, curW0, done0, "", book0)
    requires done0 + Paint(span.content, span.style) <= text
    requires done0 == [] && gutter.Some? ==> span == gutter.value
    ensures Clipping(w, width, gutter, rows, cur, curW, done0 + Paint(span.content, span.style), book)
    ensures Lining(w, width, gutter, rows, cur, curW, "")
    ensures Fated(w, width, gutter, text, rows, cur, curW, done0 + Paint(span.content, span.style), "", book)
  {
    rows, cur, curW, book := rows0, cur0, curW0, book0;
    var style, rest := span.style, span.content;
    ghost var done := done0;
    BeforeSpan(w, width, gutter, text, rows, cur, curW, done, span, book);
    while rest != []
      invariant Clipping(w, width, gutter, rows, cur, curW, done, book)
      invariant Lining(w, width, gutter, rows, cur, curW, rest)
      invariant Fated(w, width, gutter, text, rows, cur, curW, done, rest, book)
      invariant done + Paint(rest, style) == done0 + Paint(span.content, style)
      decreases |rest|, Rank(cur, gutter)
    {
      NextHere(text, done, rest, 0, style);
      assert rest[0..] == rest && done + Paint(rest[..0], style) == done;
      var available := if curW <= width then width - curW else 0;
      if available == 0 {
        rows, cur, curW, book := Flush(w, width, gutter, rows, cur, curW, text, done, rest, book);
        continue;
      }
      var takeCols, take := TakeFitting(w, rest, available);
      if take == 0 && curW > 0 {
        rows, cur, curW, book := Flush(w, width, gutter, rows, cur, curW, text, done, rest, book);
        continue;
      }
      var n := if take == 0 then 1 else take;
      if take == 0 {
        rows, cur, curW, book := Force(w, width, gutter, rows, rest, style, text, done, book);
      } else {
        NextHere(text, done, rest, take, style);
        rows, cur, curW, book := Put(w, width, gutter, rows, cur, curW, rest, take, takeCols, style, text, done, book);
      }
      PaintTake(done, rest, n, style);
      done := done + Paint(rest[..n], style);
      rest := rest[n..];
    }
    assert done + Paint(rest, style) == done;
  }

  lemma NextHere<S>(text: seq<Cell<S>>, done: seq<Cell<S>>, rest: string, n: nat, style: S)
    requires done + Paint(rest, style) <= text && n <= |rest|
    ensures Next(text, |done + Paint(rest[..n], style)|, rest[n..])
  {
    if n < |rest| {
      assert text[|done| + n] == (done + Paint(rest, style))[|done| + n];
    }
  }

  /** What holds between spans holds before the next span. */
  lemma BeforeSpan<S>(w: Widths, width: nat, gutter: Option<Span<S>>, text: seq<Cell<S>>, rows: seq<Line<S>>,
                      cur: Line<S>, curW: nat, done: seq<Cell<S>>, span: Span<S>, book: Book<S>)
    requires Clipping(w, width, gutter, rows, cur, curW, done, book)
    requires Lining(w, width, gutter, rows, cur, curW, "")
    requires Fated(w, width, gutter, text, rows, cur, curW, done, "", book)
    requires done == [] && gutter.Some? ==> span == gutter.value
    ensures Clipping(w, width, gutter, rows, cur, curW, done, book)
    ensures Lining(w, width, gutter, rows, cur, curW, span.content)
    ensures Fated(w, width, gutter, text, rows, cur, curW, done, span.content, book)
  {
    Relining(w, width, gutter, rows, cur, curW, span.content);
  }

  /** What holds with no text ahead holds before any text. */
  lemma Relining<S>(w: Widths, width: nat, gutter: Option<Span<S>>, rows: seq<Line<S>>, cur: Line<S>, curW: nat,
                    rest: string)
    requires Lining(w, width, gutter, rows, cur, curW, "")
    ensures Lining(w, width, gutter, rows, cur, curW, rest)
  {
  }

  /** Every stretch of the line is shown on one of the rows in order, or is a copy of the gutter that
      stood alone on its row. */
  ghost predicate KeepsText<S(!new)>(line: Line<S>, rows: seq<Line<S>>) {
    exists fates :: Accounts(GutterOf(line), fates, rows, Cells(line))
  }

  lemma OneShown<S>(fate: Fate<S>)
    requires fate.Shown?
    ensures ShownRows([fate]) == [fate.row]
  {
    assert [fate][..0] == [];
  }

  lemma OneText<S>(fate: Fate<S>)
    ensures Texts([fate]) == FateText(fate)
  {
    assert [fate][..0] == [];
  }

  lemma OneFate<S>(gutter: Option<Span<S>>, fate: Fate<S>)
    requires fate.Shown? && Fair(gutter, fate)
    ensures Accounts(gutter, [fate], [fate.row], FateText(fate))
  {
    OneShown(fate);
    OneText(fate);
  }

  /** The account when the last row has been dealt with. */
  ghost predicate Settled<S(!new)>(w: Widths, width: nat, line: Line<S>, rows: seq<Line<S>>, fates: seq<Fate<S>>) {
    && AllFit(w, width, CellRows(rows)) && Lined(w, width, GutterOf(line), rows)
    && Accounts(GutterOf(line), fates, rows, Cells(line))
    && (GutterOf(line).None? ==> Greedy(w, width, CellRows(rows)))
    && Judged(w, width, GutterOf(line), Cells(line), rows, fates)
  }

  lemma SettleOrphan<S(!new)>(w: Widths, width: nat, line: Line<S>, rows: seq<Line<S>>, cur: Line<S>, curW: nat,
                              book: Book<S>)
    requires Clipping(w, width, GutterOf(line), rows, cur, curW, Cells(line), book)
    requires Lining(w, width, GutterOf(line), rows, cur, curW, "")
    requires Fated(w, width, GutterOf(line), Cells(line), rows, cur, curW, Cells(line), "", book)
    requires Orphan(cur, GutterOf(line))
    ensures Settled(w, width, line, rows, DropOrphan(book, cur).fates)
  {
    var gutter := GutterOf(line);
    FlushOrphan(w, width, gutter, rows, cur, curW, Cells(line), book);
    NilRight(Texts(DropOrphan(book, cur).fates));
    JudgeOrphan(w, width, gutter, Cells(line), rows, cur, curW, book);
  }

  lemma SettleRow<S(!new)>(w: Widths, width: nat, line: Line<S>, rows: seq<Line<S>>, cur: Line<S>, curW: nat,
                           book: Book<S>)
    requires Clipping(w, width, GutterOf(line), rows, cur, curW, Cells(line), book)
    requires Lining(w, width, GutterOf(line), rows, cur, curW, "")
    requires Fated(w, width, GutterOf(line), Cells(line), rows, cur, curW, Cells(line), "", book)
    requires cur != [] && !Orphan(cur, GutterOf(line))
    ensures Settled(w, width, line, rows + [cur], book.fates + [Shown(cur, book.repeated)])
  {
    var gutter := GutterOf(line);
    CellRowsAppend(w, width, rows, cur);
    AccountsAppend(gutter, book.fates, rows, Texts(book.fates), Shown(cur, book.repeated));
    LinedAppend(w, width, gutter, rows, cur);
    if gutter.None? {
      LastGreedy(w, width, rows, cur, curW);
    }
    JudgeRow(w, width, gutter, Cells(line), rows, cur, curW, book);
  }

  lemma SettleNothing<S(!new)>(w: Widths, width: nat, line: Line<S>, rows: seq<Line<S>>, book: Book<S>)
    requires Clipping(w, width, GutterOf(line), rows, [], 0, Cells(line), book)
    requires Lining(w, width, GutterOf(line), rows, [], 0, "")
    requires Fated(w, width, GutterOf(line), Cells(line), rows, [], 0, Cells(line), "", book)
    ensures Settled(w, width, line, rows, book.fates)
  {
    NilRight(Texts(book.fates));
    JudgeNothing(w, width, GutterOf(line), Cells(line), rows, book);
  }

  /** The last row, unless it is an orphan. */
  method Close<S(==, !new)>(w: Widths, width: nat, line: Line<S>, gutter: Option<Span<S>>, rows0: seq<Line<S>>,
                            cur: Line<S>, ghost curW: nat, ghost book: Book<S>)
    returns (rows: seq<Line<S>>, ghost fates: seq<Fate<S>>)
    requires gutter == GutterOf(line)
    requires Clipping(w, width, gutter, rows0, cur, curW, Cells(line), book)
    requires Lining(w, width, gutter, rows0, cur, curW, "")
    requires Fated(w, width, gutter, Cells(line), rows0, cur, curW, Cells(line), "", book)
    ensures Settled(w, width, line, rows, fates)
  {
    rows, fates := rows0, book.fates;
    if cur == [] {
      SettleNothing(w, width, line, rows, book);
    } else if gutter.Some? && Orphan(cur, gutter) {
      SettleOrphan(w, width, line, rows, cur, curW, book);
      fates := DropOrphan(book, cur).fates;
    } else {
      SettleRow(w, width, line, rows, cur, curW, book);
      rows, fates := rows + [cur], fates + [Shown(cur, book.repeated)];
    }
  }

  lemma LastGreedy<S>(w: Widths, width: nat, rows: seq<Line<S>>, cur: Line<S>, curW: nat)
    requires Filling(w, width, rows, cur, curW, "") && cur != []
    ensures Greedy(w, width, CellRows(rows + [cur]))
  {
    CellRowsAppend(w, width, rows, cur);
    GreedyLast(w, width, CellRows(rows), Cells(cur));
  }

  lemma GreedyLast<S>(w: Widths, width: nat, rows: seq<seq<Cell<S>>>, row: seq<Cell<S>>)
    requires Growing(w, width, rows, row, "") && row != []
    ensures Greedy(w, width, rows + [row])
  {
    var t := rows + [row];
    assert forall i :: 0 <= i < |rows| ==> t[i] == rows[i];
  }

  /** A line that fits is one row as it is. Any other is kept, and without a gutter exactly, on as few
      rows as possible. With a gutter its text is kept whole exactly unless the gutter is crowded, and
      then the gutter is dropped. */
  ghost predicate Clipped<S(!new)>(w: Widths, width: nat, line: Line<S>, rows: seq<Line<S>>) {
    var gutter, text := GutterOf(line), Cells(line);
    && (Width(w, text) <= width ==> rows == [line])
    && KeepsText(line, rows)
    && Lined(w, width, gutter, rows)
    && (gutter.None? ==> Join(CellRows(rows)) == text)
    && (gutter.None? ==> NoShorter(|rows|, w, width, text))
    && KeepsGutter(w, width, gutter, rows, text)
  }

  /** The text is kept whole exactly unless the gutter is crowded, and then the gutter is dropped. */
  ghost predicate KeepsGutter<S(!new)>(w: Widths, width: nat, gutter: Option<Span<S>>, rows: seq<Line<S>>,
                                       text: seq<Cell<S>>) {
    && (Narrow(w, gutter) && !Crowded(w, width, gutter, text) ==> Whole(gutter, rows, text))
    && (Crowded(w, width, gutter, text) ==> Beheaded(gutter, rows, text))
    && (Crowded(w, width, gutter, text) && Distinct(gutter, text) ==> !Whole(gutter, rows, text))
    && (Narrow(w, gutter) && SolidGutter(w, gutter) ==>
          (Whole(gutter, rows, text) <==> !Crowded(w, width, gutter, text)))
  }

  lemma NoGutterClipped<S(!new)>(w: Widths, width: nat, line: Line<S>, rows: seq<Line<S>>)
    requires KeepsText(line, rows) && GutterOf(line).None? && Greedy(w, width, CellRows(rows))
    ensures Join(CellRows(rows)) == Cells(line)
    ensures NoShorter(|rows|, w, width, Cells(line))
  {
    var fates :| Accounts(GutterOf(line), fates, rows, Cells(line));
    NoGutterAccounts(fates, rows, Cells(line));
    ShortestRows(w, width, CellRows(rows), Cells(line));
  }

  lemma SettledClipped<S(!new)>(w: Widths, width: nat, line: Line<S>, rows: seq<Line<S>>, fates: seq<Fate<S>>)
    requires Settled(w, width, line, rows, fates) && Width(w, Cells(line)) > width
    ensures AllFit(w, width, CellRows(rows)) && Clipped(w, width, line, rows)
  {
    if GutterOf(line).None? {
      NoGutterClipped(w, width, line, rows);
    }
    SettledKeeps(w, width, line, rows, fates);
  }

  lemma SettledKeeps<S(!new)>(w: Widths, width: nat, line: Line<S>, rows: seq<Line<S>>, fates: seq<Fate<S>>)
    requires Settled(w, width, line, rows, fates)
    ensures KeepsGutter(w, width, GutterOf(line), rows, Cells(line))
  {
    var gutter, text := GutterOf(line), Cells(line);
    if Crowded(w, width, gutter, text) {
      if Distinct(gutter, text) {
        DistinctLost(w, width, line, rows, fates);
      } else if Narrow(w, gutter) && SolidGutter(w, gutter) {
        SolidLost(w, width, line, rows, fates);
      }
    }
  }

  lemma DistinctLost<S(!new)>(w: Widths, width: nat, line: Line<S>, rows: seq<Line<S>>, fates: seq<Fate<S>>)
    requires Judged(w, width, GutterOf(line), Cells(line), rows, fates)
    requires Crowded(w, width, GutterOf(line), Cells(line)) && Distinct(GutterOf(line), Cells(line))
    ensures !Whole(GutterOf(line), rows, Cells(line))
  {
    FrontOfLine(line);
    LostHead(GutterOf(line), rows, Cells(line));
  }

  lemma SolidLost<S(!new)>(w: Widths, width: nat, line: Line<S>, rows: seq<Line<S>>, fates: seq<Fate<S>>)
    requires Accounts(GutterOf(line), fates, rows, Cells(line))
    requires Judged(w, width, GutterOf(line), Cells(line), rows, fates)
    requires Crowded(w, width, GutterOf(line), Cells(line)) && !Distinct(GutterOf(line), Cells(line))
    requires Narrow(w, GutterOf(line)) && SolidGutter(w, GutterOf(line))
    ensures !Whole(GutterOf(line), rows, Cells(line))
  {
    FrontOfLine(line);
    SolidCost(w, GutterOf(line).value);
    LostCells(GutterOf(line), fates, rows, Cells(line));
  }

  /** A line with a gutter begins with its characters. */
  lemma {:induction false} FrontOfLine<S>(line: Line<S>)
    requires line != []
    ensures |line[0].content| <= |Cells(line)| &&
              Cells(line)[..|line[0].content|] == Paint(line[0].content, line[0].style)
  {
    if |line| == 1 {
      assert line == [line[0]];
      CellsOfOne(line[0]);
    } else {
      var n := |line| - 1;
      FrontOfLine(line[..n]);
      assert line[..n][0] == line[0];
    }
  }

  lemma WholeClipped<S(!new)>(w: Widths, width: nat, line: Line<S>)
    requires Width(w, Cells(line)) <= width
    ensures Clipped(w, width, line, [line]) && AllFit(w, width, CellRows([line]))
  {
    OneFate(GutterOf(line), Shown(line, false));
    assert AllShown([Shown(line, false)]);
    OneRow(w, width, Cells(line));
    assert CellRows([line]) == [Cells(line)];
    JoinOne(Cells(line));
  }

  /** Before the first span. */
  lemma AtStart<S>(w: Widths, width: nat, line: Line<S>)
    requires Width(w, Cells(line)) > width && w(' ') >= 1
    ensures Clipping(w, width, GutterOf(line), [], [], 0, [], Book([], false))
    ensures Lining(w, width, GutterOf(line), [], [], 0, "")
    ensures Fated(w, width, GutterOf(line), Cells(line), [], [], 0, [], "", Book([], false))
  {
    GutterHasWidth(w, line);
    if GutterOf(line).Some? {
      var gutter := line[0];
      FrontOfLine(line);
      PaintCost(w, gutter.content, gutter.style);
      WidthAtMostCost(w, Paint(gutter.content, gutter.style));
      if |Cells(line)| == |gutter.content| {
        assert Cells(line)[..|gutter.content|] == Cells(line);
      }
    }
  }

  /** One line. It ends for every column and every gutter, even one wider than the column; every row
      fits or is one over-wide character; every continuation row begins with the gutter where its
      text leaves room; and nothing is lost but copies of the gutter standing alone, which happens to
      the gutter of the line exactly when it is crowded. */
  method ClipLine<S(==, !new)>(w: Widths, line: Line<S>, width: nat) returns (rows: seq<Line<S>>)
    requires width > 0 && w(' ') >= 1
    ensures AllFit(w, width, CellRows(rows)) && Clipped(w, width, line, rows)
  {
    if Width(w, Cells(line)) <= width {
      WholeClipped(w, width, line);
      return [line];
    }
    var gutter := GutterOf(line);
    AtStart(w, width, line);
    rows := [];
    var cur: Line<S> := [];
    var curW: nat := 0;
    ghost var book: Book<S> := Book([], false);
    for i := 0 to |line|
      invariant Clipping(w, width, gutter, rows, cur, curW, Cells(line[..i]), book)
      invariant Lining(w, width, gutter, rows, cur, curW, "")
      invariant Fated(w, width, gutter, Cells(line), rows, cur, curW, Cells(line[..i]), "", book)
    {
      CellsUpTo(line, i);
      SpanAhead(line, i);
      if gutter.Some? && Cells(line[..i]) == [] {
        GutterFirst(line, i);
      }
      rows, cur, curW, book := ClipSpan(w, line[i], width, gutter, rows, cur, curW, Cells(line), Cells(line[..i]),
                                        book);
    }
    assert line[..|line|] == line;
    ghost var fates;
    rows, fates := Close(w, width, line, gutter, rows, cur, curW, book);
    SettledClipped(w, width, line, rows, fates);
  }

  /** The characters of the next span come next. */
  lemma SpanAhead<S>(line: Line<S>, i: nat)
    requires i < |line|
    ensures Cells(line[..i]) + Paint(line[i].content, line[i].style) <= Cells(line)
  {
    CellsUpTo(line, i);
    PrefixCells(line, i + 1);
  }

  /** Nothing stands before the gutter, and something before every later span. */
  lemma GutterFirst<S>(line: Line<S>, i: nat)
    requires i < |line| && GutterOf(line).Some? && Cells(line[..i]) == []
    ensures line[i] == line[0]
  {
    if i > 0 {
      FrontOfLine(line[..i]);
    }
  }

  lemma {:induction false} PrefixCells<S>(line: Line<S>, i: nat)
    requires i <= |line|
    ensures Cells(line[..i]) <= Cells(line)
  {
    if i == |line| {
      assert line[..i] == line;
    } else {
      PrefixCells(line[..|line| - 1], i);
      assert line[..|line| - 1][..i] == line[..i];
    }
  }

  lemma CellsUpTo<S>(line: Line<S>, i: nat)
    requires i < |line|
    ensures Cells(line[..i + 1]) == Cells(line[..i]) + Paint(line[i].content, line[i].style)
  {
    assert line[..i + 1] == line[..i] + [line[i]];
    CellsAppend(line[..i], line[i]);
  }

  ghost predicate AllClipped<S(!new)>(w: Widths, width: nat, lines: seq<Line<S>>, groups: seq<seq<Line<S>>>) {
    |groups| == |lines| && forall i :: 0 <= i < |lines| ==> Clipped(w, width, lines[i], groups[i])
  }

  lemma AllClippedAppend<S(!new)>(w: Widths, width: nat, lines: seq<Line<S>>, groups: seq<seq<Line<S>>>,
                                  line: Line<S>, rows: seq<Line<S>>)
    requires AllClipped(w, width, lines, groups) && Clipped(w, width, line, rows)
    ensures AllClipped(w, width, lines + [line], groups + [rows])
  {
    var ls, gs := lines + [line], groups + [rows];
    forall i | 0 <= i < |ls| ensures Clipped(w, width, ls[i], gs[i]) {
      assert i < |lines| ==> ls[i] == lines[i] && gs[i] == groups[i];
    }
  }

  method ClipAll<S(==, !new)>(w: Widths, lines: seq<Line<S>>, width: nat)
    returns (out: seq<Line<S>>, ghost groups: seq<seq<Line<S>>>)
    requires width > 0 && w(' ') >= 1
    ensures AllFit(w, width, CellRows(out)) && out == Join(groups) && AllClipped(w, width, lines, groups)
  {
    out, groups := [], [];
    for i := 0 to |lines|
      invariant out == Join(groups) && AllFit(w, width, CellRows(out))
      invariant AllClipped(w, width, lines[..i], groups)
    {
      var rows := ClipLine(w, lines[i], width);
      JoinAppend(groups, rows);
      AllFitConcat(w, width, out, rows);
      AllClippedAppend(w, width, lines[..i], groups, lines[i], rows);
      TakeNext(lines, i);
      out, groups := out + rows, groups + [rows];
    }
    assert lines[..|lines|] == lines;
  }

  /** All lines, each clipped on its own; `groups` says which rows came from which line. */
  method ClipLinesToWidth<S(==, !new)>(w: Widths, lines: seq<Line<S>>, width: nat, plain: S)
    returns (out: seq<Line<S>>, ghost groups: seq<seq<Line<S>>>)
    requires w(' ') >= 1
    ensures width == 0 ==> out == lines
    ensures width > 0 ==> out != [] && AllFit(w, width, CellRows(out)) && AllClipped(w, width, lines, groups)
    ensures width > 0 ==> out == if Join(groups) == [] then [[Span("", plain)]] else Join(groups)
  {
    groups := [];
    if width == 0 {
      return lines, groups;
    }
    out, groups := ClipAll(w, lines, width);
    if out == [] {
      out := [[Span("", plain)]];
      CellsOfOne(Span("", plain));
    }
  }

  /** A bar and a space, or a bar behind two spaces and anything. */
  predicate Barred(c: string) {
    || (|c| == 2 && c[0] == '▎' && c[1] == ' ')
    || (|c| >= 3 && c[0] == ' ' && c[1] == ' ' && c[2] == '│')
  }

  lemma BarredIsGutter(c: string)
    ensures Barred(c) <==> IsGutter(c)
  {
    assert |c| == 2 && c[0] == '▎' && c[1] == ' ' ==> c == "▎ ";
    assert |c| >= 3 && c[0] == ' ' && c[1] == ' ' && c[2] == '│' ==> c[..3] == "  │";
  }

  /** A bar in front of a line is repeated: every further row begins with it where there is room. */
  lemma BarsAreRepeated<S(!new)>(w: Widths, width: nat, line: Line<S>, rows: seq<Line<S>>, k: nat)
    requires Clipped(w, width, line, rows) && line != [] && Barred(line[0].content) && 1 <= k < |rows|
    requires forall i :: 0 <= i < |line[0].content| ==> w(line[0].content[i]) >= 1
    ensures Begins(w, width, line[0], rows[k])
  {
    BarredIsGutter(line[0].content);
    RowsBegin(w, width, line[0], rows, k);
  }

  lemma RowsBegin<S(!new)>(w: Widths, width: nat, gutter: Span<S>, rows: seq<Line<S>>, k: nat)
    requires Lined(w, width, Some(gutter), rows) && 1 <= k < |rows|
    requires forall i :: 0 <= i < |gutter.content| ==> w(gutter.content[i]) >= 1
    ensures Begins(w, width, gutter, rows[k])
  {
    assert SolidGutter(w, Some(gutter));
  }

  /** A line without one is kept exactly, on as few rows as possible. */
  lemma NoBarNoGutter<S(!new)>(w: Widths, width: nat, line: Line<S>, rows: seq<Line<S>>)
    requires Clipped(w, width, line, rows) && (line != [] ==> !Barred(line[0].content))
    ensures Join(CellRows(rows)) == Cells(line) && NoShorter(|rows|, w, width, Cells(line))
  {
    if line != [] {
      BarredIsGutter(line[0].content);
    }
  }

  lemma CellsOfTwo<S>(a: Span<S>, b: Span<S>)
    ensures Cells([a, b]) == Paint(a.content, a.style) + Paint(b.content, b.style)
  {
    assert [a, b] == [a] + [b];
    CellsAppend([a], b);
    CellsOfOne(a);
  }

  /** In a column of two the line `▎ ab` has a crowded gutter. */
  lemma CrowdedExample<S>(style: S)
    ensures var line := [Span("▎ ", style), Span("ab", style)];
            Crowded(_ => 1, 2, GutterOf(line), Cells(line)) && Distinct(GutterOf(line), Cells(line))
  {
    var line := [Span("▎ ", style), Span("ab", style)];
    var text := Cells(line);
    CellsOfTwo(line[0], line[1]);
    assert |text| == 4 && text[2].ch == 'a';
    CostOf(_ => 1, "▎ ");
    WidthOf(_ => 1, text);
  }

  /** However that line is clipped, its gutter is lost. */
  lemma GutterLost<S(!new)>(style: S, rows: seq<Line<S>>)
    requires Clipped(_ => 1, 2, [Span("▎ ", style), Span("ab", style)], rows)
    ensures !Whole(Some(Span("▎ ", style)), rows, Cells([Span("▎ ", style), Span("ab", style)]))
  {
    CrowdedExample(style);
  }

  lemma {:induction false} CostOf(w: Widths, s: string)
    requires forall c :: w(c) == 1
    ensures StringCost(w, s) == |s|
  {
    if s != "" {
      CostOf(w, s[..|s| - 1]);
    }
  }

  lemma {:induction false} WidthOf<S>(w: Widths, cells: seq<Cell<S>>)
    requires forall c :: w(c) == 1
    ensures Width(w, cells) == |cells|
  {
    if cells != [] {
      WidthOf(w, cells[..|cells| - 1]);
    }
  }
}
