/** The gutter of a line and what becomes of its text when the line is wrapped: every stretch is shown
    on a row, or dropped because it stood alone on one and looked like a bare gutter. */
module GutterFates {
  import opened Sequences
  import opened Text
  import opened StyledText

  predicate IsGutter(c: string) {
    c == "  │ " || c == "▎ " || "  │" <= c
  }

  function GutterOf<S>(line: Line<S>): Option<Span<S>> {
    if line != [] && IsGutter(line[0].content) then Some(line[0]) else None
  }

  function GutterWidth<S>(w: Widths, gutter: Option<Span<S>>): nat {
    if gutter.Some? then Width(w, Paint(gutter.value.content, gutter.value.style)) else 0
  }

  /** What becomes of a stretch of the line: it is shown on a row, behind the repeated gutter or
      not, or it is dropped because the row it stood on looked like a bare gutter. */
  datatype Fate<S> = Shown(row: Line<S>, repeated: bool) | Dropped(piece: Span<S>)

  predicate Fair<S(==)>(gutter: Option<Span<S>>, fate: Fate<S>) {
    match fate
    case Shown(row, repeated) => repeated ==> gutter.Some? && row != [] && row[0] == gutter.value
    case Dropped(piece) => gutter.Some? && piece.content == gutter.value.content
  }

  /** The text of a row: without the gutter that was put in front of it. */
  function RowText<S>(row: Line<S>, repeated: bool): seq<Cell<S>> {
    Cells(if repeated && row != [] then row[1..] else row)
  }

  function FateText<S>(fate: Fate<S>): seq<Cell<S>> {
    match fate
    case Shown(row, repeated) => RowText(row, repeated)
    case Dropped(piece) => Cells([piece])
  }

  function Texts<S>(fates: seq<Fate<S>>): seq<Cell<S>> {
    if fates == [] then [] else Texts(fates[..|fates| - 1]) + FateText(fates[|fates| - 1])
  }

  function ShownRows<S>(fates: seq<Fate<S>>): seq<Line<S>> {
    if fates == [] then []
    else
      var last := fates[|fates| - 1];
      ShownRows(fates[..|fates| - 1]) + (if last.Shown? then [last.row] else [])
  }

  /** The rows are those shown, and all the stretches together are the text. */
  ghost predicate Accounts<S>(gutter: Option<Span<S>>, fates: seq<Fate<S>>, rows: seq<Line<S>>, text: seq<Cell<S>>) {
    && (forall i :: 0 <= i < |fates| ==> Fair(gutter, fates[i]))
    && ShownRows(fates) == rows
    && Texts(fates) == text
  }

  lemma AccountsAppend<S>(gutter: Option<Span<S>>, fates: seq<Fate<S>>, rows: seq<Line<S>>, text: seq<Cell<S>>,
                          fate: Fate<S>)
    requires Accounts(gutter, fates, rows, text) && Fair(gutter, fate)
    ensures Accounts(gutter, fates + [fate], rows + (if fate.Shown? then [fate.row] else []), text + FateText(fate))
  {
    assert (fates + [fate])[..|fates|] == fates;
  }

  /** Without a gutter nothing is dropped and nothing repeated. */
  lemma {:induction false} NoGutterAccounts<S>(fates: seq<Fate<S>>, rows: seq<Line<S>>, text: seq<Cell<S>>)
    requires Accounts(None, fates, rows, text)
    ensures Join(CellRows(rows)) == text
    decreases |fates|
  {
    if fates != [] {
      var n := |fates| - 1;
      var before := fates[..n];
      assert fates[n].Shown? && !fates[n].repeated;
      NoGutterAccounts(before, ShownRows(before), Texts(before));
      CellRowsAppend(_ => 0, 0, ShownRows(before), fates[n].row);
    } else {
      assert CellRows(rows) == [];
    }
  }

  lemma {:induction false} WidthOfMember<S>(w: Widths, cells: seq<Cell<S>>, i: nat)
    requires i < |cells|
    ensures Width(w, cells) >= w(cells[i].ch)
  {
    if i < |cells| - 1 {
      WidthOfMember(w, cells[..|cells| - 1], i);
    }
  }

  lemma GutterHasWidth<S>(w: Widths, line: Line<S>)
    requires w(' ') >= 1
    ensures GutterOf(line).Some? ==> GutterWidth(w, GutterOf(line)) >= 1
  {
    if GutterOf(line).Some? {
      var c := line[0].content;
      if c == "▎ " {
        WidthOfMember(w, Paint(c, line[0].style), 1);
      } else {
        assert c[0] == ' ';
        WidthOfMember(w, Paint(c, line[0].style), 0);
      }
    }
  }

  /** A row that would show the gutter text and nothing else. */
  predicate Orphan<S>(cur: Line<S>, gutter: Option<Span<S>>) {
    gutter.Some? && |cur| == 1 && cur[0].content == gutter.value.content
  }

  /** How far the open row is from empty; every flush lowers it, so the loop cannot spin. */
  function Rank<S>(cur: Line<S>, gutter: Option<Span<S>>): nat {
    if cur == [] then 0 else if Orphan(cur, gutter) then 1 else 2
  }

  function Fresh<S>(gutter: Option<Span<S>>): Line<S> {
    if gutter.Some? then [gutter.value] else []
  }

  /** The account of the text so far, and whether the open row begins with a repeated gutter. */
  datatype Book<S> = Book(fates: seq<Fate<S>>, repeated: bool)

  // ----- When text is dropped -----

  /** Some account of the rows drops nothing. */
  ghost predicate Whole<S(!new)>(gutter: Option<Span<S>>, rows: seq<Line<S>>, text: seq<Cell<S>>) {
    exists fates :: Accounts(gutter, fates, rows, text) && AllShown(fates)
  }

  ghost predicate AllShown<S>(fates: seq<Fate<S>>) { forall i :: 0 <= i < |fates| ==> fates[i].Shown? }

  /** Some account of the rows drops the gutter at the front of the line. */
  ghost predicate Beheaded<S(!new)>(gutter: Option<Span<S>>, rows: seq<Line<S>>, text: seq<Cell<S>>) {
    exists fates: seq<Fate<S>> :: Accounts(gutter, fates, rows, text) && fates != [] && fates[0].Dropped?
  }

  /** The line is too wide, and its gutter leaves no room for the character behind it. */
  predicate Crowded<S>(w: Widths, width: nat, gutter: Option<Span<S>>, text: seq<Cell<S>>) {
    && gutter.Some? && |gutter.value.content| < |text| && Width(w, text) > width
    && var charge := StringCost(w, gutter.value.content);
       charge <= width < charge + Columns(w, text[|gutter.value.content|].ch)
  }

  /** The character behind the gutter cannot be mistaken for the beginning of a gutter. */
  predicate Distinct<S>(gutter: Option<Span<S>>, text: seq<Cell<S>>) {
    gutter.Some? ==>
      |gutter.value.content| < |text| && gutter.value.content != "" &&
      text[|gutter.value.content|].ch != gutter.value.content[0]
  }

  /** The gutter begins with a character of one column. */
  predicate Narrow<S>(w: Widths, gutter: Option<Span<S>>) {
    gutter.Some? ==> gutter.value.content != "" && Columns(w, gutter.value.content[0]) == 1
  }

  /** No gutter character is of width zero. */
  predicate SolidGutter<S>(w: Widths, gutter: Option<Span<S>>) {
    gutter.Some? ==> Solid(w, Paint(gutter.value.content, gutter.value.style))
  }

  /** `text` is too wide and begins with the gutter. */
  ghost predicate Set<S>(w: Widths, width: nat, gutter: Option<Span<S>>, text: seq<Cell<S>>) {
    && Width(w, text) > width
    && (gutter.Some? ==>
          && gutter.value.content != "" && 1 <= GutterWidth(w, gutter) <= StringCost(w, gutter.value.content)
          && (StringCost(w, gutter.value.content) <= width ==> |gutter.value.content| < |text|))
  }

  /** `rest` goes on at place `at` of the text. */
  predicate Next<S>(text: seq<Cell<S>>, at: nat, rest: string) {
    rest != "" ==> at < |text| && text[at].ch == rest[0]
  }

  /** Where no gutter is crowded, nothing has been dropped and nothing is about to be. */
  ghost predicate Keeping<S>(w: Widths, width: nat, gutter: Option<Span<S>>, text: seq<Cell<S>>, cur: Line<S>,
                             curW: nat, done: seq<Cell<S>>, rest: string, book: Book<S>) {
    gutter.Some? && Narrow(w, gutter) && !Crowded(w, width, gutter, text) ==>
      && AllShown(book.fates)
      && (Orphan(cur, gutter) && book.repeated ==> curW == GutterWidth(w, gutter))
      && (Orphan(cur, gutter) && !book.repeated ==>
            |done| == |gutter.value.content| && curW == StringCost(w, gutter.value.content) <= width)
      && (cur == [] ==>
            done == [] || GutterWidth(w, gutter) >= width ||
            (rest != "" && GutterWidth(w, gutter) + Columns(w, rest[0]) > width))
  }

  predicate StartsWith<S>(row: Line<S>, c: char) { row != [] && row[0].content != "" && row[0].content[0] == c }

  /** Where the gutter is crowded, it stands alone or has been dropped; the next row begins behind it. */
  ghost predicate Losing<S>(w: Widths, width: nat, gutter: Option<Span<S>>, text: seq<Cell<S>>, rows: seq<Line<S>>,
                            cur: Line<S>, curW: nat, done: seq<Cell<S>>, rest: string, book: Book<S>) {
    Crowded(w, width, gutter, text) ==>
      var n := |gutter.value.content|;
      if book.fates == [] then
        && !book.repeated && rows == []
        && (if done == [] then cur == [] && (rest == "" || rest == gutter.value.content)
            else |done| == n && Orphan(cur, gutter) && curW == StringCost(w, gutter.value.content))
      else
        && book.fates[0].Dropped?
        && (Distinct(gutter, text) ==>
              if rows != [] then StartsWith(rows[0], text[n].ch)
              else !book.repeated && (if cur == [] then |done| == n else StartsWith(cur, text[n].ch)))
  }

  ghost predicate NoneRepeated<S>(fates: seq<Fate<S>>) {
    forall i :: 0 <= i < |fates| && fates[i].Shown? ==> !fates[i].repeated
  }

  /** A crowded gutter that fills the column: repeated, it never shares a row with text. */
  ghost predicate Alone<S>(w: Widths, width: nat, gutter: Option<Span<S>>, text: seq<Cell<S>>, cur: Line<S>, curW: nat,
                           book: Book<S>) {
    Crowded(w, width, gutter, text) && GutterWidth(w, gutter) >= width ==>
      && NoneRepeated(book.fates)
      && (book.repeated ==> Orphan(cur, gutter) && curW == GutterWidth(w, gutter))
  }

  /** All of this, for the loop state. */
  ghost predicate Fated<S>(w: Widths, width: nat, gutter: Option<Span<S>>, text: seq<Cell<S>>, rows: seq<Line<S>>,
                           cur: Line<S>, curW: nat, done: seq<Cell<S>>, rest: string, book: Book<S>) {
    && Set(w, width, gutter, text)
    && (book.repeated ==> gutter.Some? && cur != []) && (cur == [] ==> curW == 0)
    && (gutter.None? ==> AllShown(book.fates))
    && Keeping(w, width, gutter, text, cur, curW, done, rest, book)
    && Losing(w, width, gutter, text, rows, cur, curW, done, rest, book)
    && Alone(w, width, gutter, text, cur, curW, book)
  }

  /** The open row has no room for what comes next. */
  predicate Full(w: Widths, width: nat, curW: nat, rest: string) {
    curW >= width || (rest != "" && curW + Columns(w, rest[0]) > width)
  }

  /** The account after an orphan row is dropped: its text, unless it was a repeated gutter. */
  function DropOrphan<S>(book: Book<S>, orphan: Line<S>): Book<S>
    requires orphan != []
  {
    if book.repeated then Book(book.fates, false) else Book(book.fates + [Dropped(orphan[0])], false)
  }

  lemma FatedOrphan<S>(w: Widths, width: nat, gutter: Option<Span<S>>, text: seq<Cell<S>>, rows: seq<Line<S>>,
                       cur: Line<S>, curW: nat, done: seq<Cell<S>>, rest: string, book: Book<S>)
    requires Fated(w, width, gutter, text, rows, cur, curW, done, rest, book)
    requires Orphan(cur, gutter) && Full(w, width, curW, rest) && Next(text, |done|, rest)
    ensures Fated(w, width, gutter, text, rows, [], 0, done, rest, DropOrphan(book, cur))
  {
  }

  lemma FatedOut<S>(w: Widths, width: nat, gutter: Option<Span<S>>, text: seq<Cell<S>>, rows: seq<Line<S>>,
                    cur: Line<S>, curW: nat, done: seq<Cell<S>>, rest: string, book: Book<S>)
    requires Fated(w, width, gutter, text, rows, cur, curW, done, rest, book)
    requires cur != [] && !Orphan(cur, gutter)
    ensures Fated(w, width, gutter, text, rows + [cur], Fresh(gutter), GutterWidth(w, gutter), done, rest,
                  Book(book.fates + [Shown(cur, book.repeated)], gutter.Some?))
  {
  }

  lemma {:induction false} FirstCost(w: Widths, s: string)
    requires s != ""
    ensures StringCost(w, s) >= Columns(w, s[0])
  {
    if |s| > 1 {
      FirstCost(w, s[..|s| - 1]);
    }
  }

  lemma {:induction false} PrefixCost(w: Widths, s: string, n: nat)
    requires n < |s|
    ensures StringCost(w, s) >= StringCost(w, s[..n]) + Columns(w, s[n])
  {
    if n == |s| - 1 {
      assert s[..|s| - 1] == s[..n];
    } else {
      PrefixCost(w, s[..|s| - 1], n);
      assert s[..|s| - 1][..n] == s[..n];
    }
  }

  /** What the next piece is when it looks like the gutter. */
  lemma KeepingPiece<S>(w: Widths, width: nat, gutter: Option<Span<S>>, text: seq<Cell<S>>, rows: seq<Line<S>>,
                        cur: Line<S>, curW: nat, done: seq<Cell<S>>, rest: string, book: Book<S>, n: nat, nextW: nat,
                        style: S)
    requires Fated(w, width, gutter, text, rows, cur, curW, done, rest, book)
    requires 0 < n <= |rest| && nextW == curW + StringCost(w, rest[..n]) <= width
    ensures Keeping(w, width, gutter, text, cur + [Span(rest[..n], style)], nextW, done + Paint(rest[..n], style),
                    rest[n..], book)
  {
    if gutter.Some? && cur == [] && rest[..n] == gutter.value.content {
      assert rest[0] == rest[..n][0];
    }
  }

  lemma LosingPiece<S>(w: Widths, width: nat, gutter: Option<Span<S>>, text: seq<Cell<S>>, rows: seq<Line<S>>,
                       cur: Line<S>, curW: nat, done: seq<Cell<S>>, rest: string, book: Book<S>, n: nat, nextW: nat,
                       style: S)
    requires Fated(w, width, gutter, text, rows, cur, curW, done, rest, book)
    requires 0 < n <= |rest| && nextW == curW + StringCost(w, rest[..n]) <= width && Next(text, |done|, rest)
    requires n < |rest| ==> nextW + Columns(w, rest[n]) > width
    ensures Losing(w, width, gutter, text, rows, cur + [Span(rest[..n], style)], nextW, done + Paint(rest[..n], style),
                   rest[n..], book)
  {
    FirstCost(w, rest[..n]);
    if gutter.Some? && rest == gutter.value.content && n < |rest| {
      PrefixCost(w, rest, n);
    }
    if gutter.Some? && rest == gutter.value.content && n == |rest| {
      assert rest[..n] == rest;
    }
  }

  lemma FatedPiece<S>(w: Widths, width: nat, gutter: Option<Span<S>>, text: seq<Cell<S>>, rows: seq<Line<S>>,
                      cur: Line<S>, curW: nat, done: seq<Cell<S>>, rest: string, book: Book<S>, n: nat, nextW: nat,
                      style: S)
    requires Fated(w, width, gutter, text, rows, cur, curW, done, rest, book)
    requires 0 < n <= |rest| && nextW == curW + StringCost(w, rest[..n]) <= width && Next(text, |done|, rest)
    requires n < |rest| ==> nextW + Columns(w, rest[n]) > width
    ensures Fated(w, width, gutter, text, rows, cur + [Span(rest[..n], style)], nextW, done + Paint(rest[..n], style),
                  rest[n..], book)
  {
    KeepingPiece(w, width, gutter, text, rows, cur, curW, done, rest, book, n, nextW, style);
    LosingPiece(w, width, gutter, text, rows, cur, curW, done, rest, book, n, nextW, style);
    FirstCost(w, rest[..n]);
  }

  lemma FatedForce<S>(w: Widths, width: nat, gutter: Option<Span<S>>, text: seq<Cell<S>>, rows: seq<Line<S>>,
                      done: seq<Cell<S>>, rest: string, book: Book<S>, style: S)
    requires Fated(w, width, gutter, text, rows, [], 0, done, rest, book)
    requires rest != "" && Columns(w, rest[0]) > width && Next(text, |done|, rest)
    ensures var row: Line<S> := [Span(rest[..1], style)];
            Fated(w, width, gutter, text, rows + [row], Fresh(gutter), GutterWidth(w, gutter),
                  done + Paint(rest[..1], style), rest[1..], Book(book.fates + [Shown(row, false)], gutter.Some?))
  {
    if gutter.Some? && rest == gutter.value.content {
      FirstCost(w, rest);
    }
  }

  // ----- When the line has been read -----

  /** What the account says of the gutter at the front of the line. */
  ghost predicate Judged<S>(w: Widths, width: nat, gutter: Option<Span<S>>, text: seq<Cell<S>>, rows: seq<Line<S>>,
                            fates: seq<Fate<S>>) {
    && (Narrow(w, gutter) && !Crowded(w, width, gutter, text) ==> AllShown(fates))
    && (Crowded(w, width, gutter, text) ==> fates != [] && fates[0].Dropped?)
    && (Crowded(w, width, gutter, text) && Distinct(gutter, text) ==>
          rows != [] && StartsWith(rows[0], text[|gutter.value.content|].ch))
    && (Crowded(w, width, gutter, text) && GutterWidth(w, gutter) >= width ==> NoneRepeated(fates))
  }

  lemma JudgeOrphan<S>(w: Widths, width: nat, gutter: Option<Span<S>>, text: seq<Cell<S>>, rows: seq<Line<S>>,
                       cur: Line<S>, curW: nat, book: Book<S>)
    requires Fated(w, width, gutter, text, rows, cur, curW, text, "", book) && Orphan(cur, gutter)
    ensures Judged(w, width, gutter, text, rows, DropOrphan(book, cur).fates)
  {
  }

  lemma JudgeRow<S>(w: Widths, width: nat, gutter: Option<Span<S>>, text: seq<Cell<S>>, rows: seq<Line<S>>,
                    cur: Line<S>, curW: nat, book: Book<S>)
    requires Fated(w, width, gutter, text, rows, cur, curW, text, "", book) && cur != [] && !Orphan(cur, gutter)
    ensures Judged(w, width, gutter, text, rows + [cur], book.fates + [Shown(cur, book.repeated)])
  {
  }

  lemma JudgeNothing<S>(w: Widths, width: nat, gutter: Option<Span<S>>, text: seq<Cell<S>>, rows: seq<Line<S>>,
                        book: Book<S>)
    requires Fated(w, width, gutter, text, rows, [], 0, text, "", book)
    ensures Judged(w, width, gutter, text, rows, book.fates)
  {
  }

  /** An account that drops nothing begins with the first row. */
  lemma {:induction false} FirstFate<S>(fates: seq<Fate<S>>)
    requires AllShown(fates) && fates != []
    ensures ShownRows(fates) != [] && ShownRows(fates)[0] == fates[0].row
    ensures FateText(fates[0]) <= Texts(fates)
    decreases |fates|
  {
    var n := |fates| - 1;
    if n == 0 {
      assert fates[..0] == [];
    } else {
      assert fates[..n][0] == fates[0];
      FirstFate(fates[..n]);
    }
  }

  lemma {:induction false} FrontOfRow<S>(row: Line<S>, c: char)
    requires StartsWith(row, c)
    ensures Cells(row) != [] && Cells(row)[0].ch == c
  {
    var n := |row| - 1;
    if n > 0 {
      assert row[..n][0] == row[0];
      FrontOfRow(row[..n], c);
    } else {
      assert row[..0] == [];
    }
  }

  /** An account that drops nothing and whose first row does not begin with the gutter begins with that row. */
  lemma FrontOfAccount<S>(gutter: Option<Span<S>>, fates: seq<Fate<S>>, rows: seq<Line<S>>, text: seq<Cell<S>>, c: char)
    requires Accounts(gutter, fates, rows, text) && AllShown(fates) && rows != [] && StartsWith(rows[0], c)
    requires gutter.Some? && gutter.value.content != "" && gutter.value.content[0] != c
    ensures text != [] && text[0].ch == c
  {
    FirstFate(fates);
    FrontOfRow(rows[0], c);
    assert Fair(gutter, fates[0]);
  }

  /** Rows that begin behind the gutter, with a character that does not begin one, have lost it. */
  lemma LostHead<S(!new)>(gutter: Option<Span<S>>, rows: seq<Line<S>>, text: seq<Cell<S>>)
    requires gutter.Some? && Distinct(gutter, text) && text[0].ch == gutter.value.content[0]
    requires rows != [] && StartsWith(rows[0], text[|gutter.value.content|].ch)
    ensures !Whole(gutter, rows, text)
  {
    forall fates: seq<Fate<S>> | Accounts(gutter, fates, rows, text) ensures !AllShown(fates) {
      if AllShown(fates) {
        FrontOfAccount(gutter, fates, rows, text, text[|gutter.value.content|].ch);
      }
    }
  }

  /** An account that drops nothing tells no more than the rows show. */
  lemma {:induction false} ShownCount<S>(fates: seq<Fate<S>>)
    requires AllShown(fates)
    ensures |Texts(fates)| <= |Join(CellRows(ShownRows(fates)))|
    decreases |fates|
  {
    if fates != [] {
      var n := |fates| - 1;
      ShownCount(fates[..n]);
      CellRowsAppend(_ => 0, 0, ShownRows(fates[..n]), fates[n].row);
      RowTextCount(fates[n].row, fates[n].repeated);
    }
  }

  lemma {:induction false} RowTextCount<S>(row: Line<S>, repeated: bool)
    ensures |RowText(row, repeated)| <= |Cells(row)|
  {
    if repeated && row != [] {
      TailCount(row);
    }
  }

  lemma {:induction false} TailCount<S>(row: Line<S>)
    requires row != []
    ensures |Cells(row[1..])| <= |Cells(row)|
  {
    var n := |row| - 1;
    if n > 0 {
      TailCount(row[..n]);
      assert row[1..][..n - 1] == row[..n][1..];
    }
  }

  /** An account that repeats nothing tells what the rows show and, beyond that, what it drops. */
  lemma {:induction false} DroppedCount<S>(gutter: Option<Span<S>>, fates: seq<Fate<S>>)
    requires forall i :: 0 <= i < |fates| ==> Fair(gutter, fates[i])
    requires NoneRepeated(fates) && gutter.Some? && gutter.value.content != ""
    ensures |Texts(fates)| >= |Join(CellRows(ShownRows(fates)))|
    ensures fates != [] && fates[0].Dropped? ==> |Texts(fates)| > |Join(CellRows(ShownRows(fates)))|
    decreases |fates|
  {
    if fates == [] {
      assert CellRows<S>([]) == [];
    } else {
      var n := |fates| - 1;
      DroppedCount(gutter, fates[..n]);
      if fates[n].Shown? {
        CellRowsAppend(_ => 0, 0, ShownRows(fates[..n]), fates[n].row);
      } else {
        CellsOfOne(fates[n].piece);
        NilRight(ShownRows(fates[..n]));
      }
    }
  }

  /** Where a crowded gutter fills the column, no account keeps the text. */
  lemma LostCells<S(!new)>(gutter: Option<Span<S>>, fates: seq<Fate<S>>, rows: seq<Line<S>>, text: seq<Cell<S>>)
    requires Accounts(gutter, fates, rows, text) && fates != [] && fates[0].Dropped? && NoneRepeated(fates)
    requires gutter.Some? && gutter.value.content != ""
    ensures !Whole(gutter, rows, text)
  {
    DroppedCount(gutter, fates);
    forall other: seq<Fate<S>> | Accounts(gutter, other, rows, text) ensures !AllShown(other) {
      if AllShown(other) {
        ShownCount(other);
      }
    }
  }
}
