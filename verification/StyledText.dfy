/** Styled terminal text, measured in display columns, and what it means for a list of rows to be
    a greedy and a shortest wrapping. */
module StyledText {
  import opened Sequences

  datatype Span<S> = Span(content: string, style: S)

  datatype Cell<S> = Cell(ch: char, style: S)

  type Line<S> = seq<Span<S>>

  /** The Unicode width table, left open: any assignment of widths, zero included. */
  type Widths = char -> nat

  /** The width the wrapping loops charge for a character. */
  function Columns(w: Widths, c: char): (n: nat)
    ensures n >= 1 && n >= w(c) && (n == 1 || n == w(c))
  {
    if w(c) < 1 then 1 else w(c)
  }

  function Paint<S>(s: string, style: S): (cells: seq<Cell<S>>)
    ensures |cells| == |s|
  {
    seq(|s|, i requires 0 <= i < |s| => Cell(s[i], style))
  }

  function Cells<S>(line: Line<S>): seq<Cell<S>> {
    if line == [] then []
    else Cells(line[..|line| - 1]) + Paint(line[|line| - 1].content, line[|line| - 1].style)
  }

  lemma CellsAppend<S>(line: Line<S>, span: Span<S>)
    ensures Cells(line + [span]) == Cells(line) + Paint(span.content, span.style)
  {
    assert (line + [span])[..|line|] == line;
  }

  function Letters<S>(cells: seq<Cell<S>>): (s: string)
    ensures |s| == |cells|
  {
    seq(|cells|, i requires 0 <= i < |cells| => cells[i].ch)
  }

  lemma LettersConcat<S>(a: seq<Cell<S>>, b: seq<Cell<S>>)
    ensures Letters(a + b) == Letters(a) + Letters(b)
  {
  }

  function Contents<S>(line: Line<S>): seq<string> {
    seq(|line|, i requires 0 <= i < |line| => line[i].content)
  }

  /** The cells of a line spell the contents of its spans, one after the other. */
  lemma {:induction false} CellsSpell<S>(line: Line<S>)
    ensures Letters(Cells(line)) == Join(Contents(line))
  {
    if line != [] {
      var n := |line| - 1;
      CellsSpell(line[..n]);
      assert Contents(line) == Contents(line[..n]) + [line[n].content];
      JoinAppend(Contents(line[..n]), line[n].content);
      LettersConcat(Cells(line[..n]), Paint(line[n].content, line[n].style));
      assert Letters(Paint(line[n].content, line[n].style)) == line[n].content;
    }
  }

  /** Display width of a row. */
  function Width<S>(w: Widths, cells: seq<Cell<S>>): nat {
    if cells == [] then 0 else Width(w, cells[..|cells| - 1]) + w(cells[|cells| - 1].ch)
  }

  /** Charged width of a row. */
  function Cost<S>(w: Widths, cells: seq<Cell<S>>): nat {
    if cells == [] then 0 else Cost(w, cells[..|cells| - 1]) + Columns(w, cells[|cells| - 1].ch)
  }

  lemma {:induction false} CostConcat<S>(w: Widths, a: seq<Cell<S>>, b: seq<Cell<S>>)
    ensures Cost(w, a + b) == Cost(w, a) + Cost(w, b)
    ensures Width(w, a + b) == Width(w, a) + Width(w, b)
  {
    if b == [] {
      assert a + b == a;
    } else {
      var n := |b| - 1;
      assert (a + b)[..|a + b| - 1] == a + b[..n];
      CostConcat(w, a, b[..n]);
    }
  }

  lemma {:induction false} WidthAtMostCost<S>(w: Widths, cells: seq<Cell<S>>)
    ensures Width(w, cells) <= Cost(w, cells) && |cells| <= Cost(w, cells)
  {
    if cells != [] {
      WidthAtMostCost(w, cells[..|cells| - 1]);
    }
  }

  lemma CostOne<S>(w: Widths, c: Cell<S>)
    ensures Cost(w, [c]) == Columns(w, c.ch) && Width(w, [c]) == w(c.ch)
  {
    assert [c][..0] == [];
    assert Cost(w, [c]) == Cost(w, [c][..0]) + Columns(w, c.ch);
    assert Width(w, [c]) == Width(w, [c][..0]) + w(c.ch);
  }

  /** A row that fits the column, or a single character that is itself too wide. */
  predicate Fits<S>(w: Widths, width: nat, row: seq<Cell<S>>) {
    Width(w, row) <= width || |row| == 1
  }

  predicate AllFit<S>(w: Widths, width: nat, rows: seq<seq<Cell<S>>>) {
    forall i :: 0 <= i < |rows| ==> Fits(w, width, rows[i])
  }

  /** The same by the width the wrapping loops charge. */
  predicate Charged<S>(w: Widths, width: nat, row: seq<Cell<S>>) {
    Cost(w, row) <= width || |row| == 1
  }

  predicate AllCharged<S>(w: Widths, width: nat, rows: seq<seq<Cell<S>>>) {
    forall i :: 0 <= i < |rows| ==> Charged(w, width, rows[i])
  }

  /** No character of the text has width zero. */
  predicate Solid<S>(w: Widths, cells: seq<Cell<S>>) { forall i :: 0 <= i < |cells| ==> w(cells[i].ch) >= 1 }

  lemma {:induction false} SolidWidth<S>(w: Widths, cells: seq<Cell<S>>)
    requires Solid(w, cells)
    ensures Width(w, cells) == Cost(w, cells)
  {
    if cells != [] {
      SolidWidth(w, cells[..|cells| - 1]);
    }
  }

  /** In a text without characters of width zero, what fits is what is charged no more. */
  lemma SolidRows<S>(w: Widths, width: nat, rows: seq<seq<Cell<S>>>)
    requires Solid(w, Join(rows))
    ensures AllFit(w, width, rows) == AllCharged(w, width, rows)
  {
    forall i | 0 <= i < |rows| ensures Fits(w, width, rows[i]) == Charged(w, width, rows[i]) {
      forall j | 0 <= j < |rows[i]| ensures w(rows[i][j].ch) >= 1 {
        JoinMember(rows, i, rows[i][j]);
      }
      SolidWidth(w, rows[i]);
    }
  }

  function CellRows<S>(rows: seq<Line<S>>): (cells: seq<seq<Cell<S>>>)
    ensures |cells| == |rows|
  {
    seq(|rows|, i requires 0 <= i < |rows| => Cells(rows[i]))
  }

  /** One more row. */
  lemma CellRowsAppend<S>(w: Widths, width: nat, rows: seq<Line<S>>, row: Line<S>)
    ensures CellRows(rows + [row]) == CellRows(rows) + [Cells(row)]
    ensures Join(CellRows(rows + [row])) == Join(CellRows(rows)) + Cells(row)
    ensures AllFit(w, width, CellRows(rows)) && Fits(w, width, Cells(row)) ==> AllFit(w, width, CellRows(rows + [row]))
  {
    assert CellRows(rows + [row]) == CellRows(rows) + [Cells(row)];
    JoinAppend(CellRows(rows), Cells(row));
  }

  lemma AllFitConcat<S>(w: Widths, width: nat, a: seq<Line<S>>, b: seq<Line<S>>)
    requires AllFit(w, width, CellRows(a)) && AllFit(w, width, CellRows(b))
    ensures AllFit(w, width, CellRows(a + b))
  {
    var cells := CellRows(a + b);
    forall i | 0 <= i < |cells| ensures Fits(w, width, cells[i]) {
      assert cells[i] == if i < |a| then CellRows(a)[i] else CellRows(b)[i - |a|];
    }
  }

  lemma CellsOfOne<S>(span: Span<S>)
    ensures Cells([span]) == Paint(span.content, span.style)
  {
    assert [span] == [] + [span];
    CellsAppend([], span);
  }

  /** No row is empty, and none has room for the first character of the next. */
  predicate Greedy<S>(w: Widths, width: nat, rows: seq<seq<Cell<S>>>) {
    && (forall i :: 0 <= i < |rows| ==> rows[i] != [])
    && (forall i :: 0 <= i < |rows| - 1 ==> Cost(w, rows[i]) + Columns(w, rows[i + 1][0].ch) > width)
  }

  lemma CostSlice<S>(w: Widths, cells: seq<Cell<S>>, i: nat, j: nat)
    requires i <= j <= |cells|
    ensures Cost(w, cells[i..j]) <= Cost(w, cells)
  {
    Slices(cells, 0, i, j);
    Slices(cells, 0, j, |cells|);
    CostConcat(w, cells[0..i], cells[i..j]);
    CostConcat(w, cells[0..j], cells[j..|cells|]);
    assert cells[0..|cells|] == cells;
  }

  /** A greedy wrapping of the end of a text has no more rows than any wrapping of the text whose rows
      are charged no more than the column. */
  lemma {:induction false} GreedyIsShortest<S>(w: Widths, width: nat, greedy: seq<seq<Cell<S>>>,
                                               other: seq<seq<Cell<S>>>)
    requires Greedy(w, width, greedy) && AllCharged(w, width, other)
    requires |Join(greedy)| <= |Join(other)| && Join(other)[|Join(other)| - |Join(greedy)|..] == Join(greedy)
    ensures |greedy| <= |other|
    decreases |greedy|
  {
    if greedy != [] && other != [] {
      var g, p := greedy[1..], other[1..];
      var lead := |Join(other)| - |Join(greedy)|;
      assert forall i :: 0 <= i < |g| ==> g[i] == greedy[i + 1];
      if g != [] && |Join(p)| < |Join(g)| {
        RowTooLong(w, width, greedy[0], Join(g), other[0], Join(p), lead);
      }
      TailSuffix(greedy[0], Join(g), other[0], Join(p), lead);
      GreedyIsShortest(w, width, g, p);
    }
  }

  /** A row that reaches past the end of a greedy row costs more than the column. */
  lemma RowTooLong<S>(w: Widths, width: nat, g: seq<Cell<S>>, gs: seq<Cell<S>>, p: seq<Cell<S>>, ps: seq<Cell<S>>,
                      lead: nat)
    requires g != [] && gs != [] && |ps| < |gs|
    requires lead + |g + gs| == |p + ps| && (p + ps)[lead..] == g + gs
    requires Cost(w, g) + Columns(w, gs[0].ch) > width
    ensures !Charged(w, width, p)
  {
    var reach := g + [gs[0]];
    assert p[lead..lead + |reach|] == reach by {
      assert reach == (g + gs)[..|reach|];
      assert (p + ps)[lead..][..|reach|] == p[lead..lead + |reach|];
    }
    CostConcat(w, g, [gs[0]]);
    CostOne(w, gs[0]);
    CostSlice(w, p, lead, lead + |reach|);
  }

  lemma TailSuffix<T>(g: seq<T>, gs: seq<T>, p: seq<T>, ps: seq<T>, lead: nat)
    requires lead + |g + gs| == |p + ps| && (p + ps)[lead..] == g + gs
    requires |gs| <= |ps|
    ensures ps[|ps| - |gs|..] == gs
  {
    var k := |p + ps| - |gs|;
    assert (p + ps)[k..] == (p + ps)[lead..][|g|..];
    assert (p + ps)[k..] == ps[|ps| - |gs|..];
    assert (g + gs)[|g|..] == gs;
  }

  // ----- The innermost loop, shared by both wrappers -----

  /** Take as many leading characters of `rest` as fit in `avail` columns. */
  method TakeFitting(w: Widths, rest: string, avail: nat) returns (cols: nat, n: nat)
    ensures n <= |rest|
    ensures cols == StringCost(w, rest[..n]) <= avail
    ensures n < |rest| ==> cols + Columns(w, rest[n]) > avail
  {
    cols, n := 0, 0;
    while n < |rest|
      invariant n <= |rest| && cols == StringCost(w, rest[..n]) <= avail
    {
      var cw := Columns(w, rest[n]);
      if cols + cw > avail {
        break;
      }
      assert rest[..n + 1][..n] == rest[..n];
      cols := cols + cw;
      n := n + 1;
    }
  }

  function StringCost(w: Widths, s: string): nat {
    if s == [] then 0 else StringCost(w, s[..|s| - 1]) + Columns(w, s[|s| - 1])
  }

  lemma {:induction false} PaintCost<S>(w: Widths, s: string, style: S)
    ensures Cost(w, Paint(s, style)) == StringCost(w, s)
  {
    if s != [] {
      var n := |s| - 1;
      assert Paint(s, style)[..n] == Paint(s[..n], style);
      PaintCost(w, s[..n], style);
    }
  }
}
