/** Column widths of a markdown table: the ideal ones, and the proportional shrink when they
    overflow. */
module TableColumns {
  import opened Text
  import opened StyledText

  function TextWidth(w: Widths, s: string): nat {
    if s == [] then 0 else TextWidth(w, s[..|s| - 1]) + w(s[|s| - 1])
  }

  lemma {:induction false} TextWidthConcat(w: Widths, a: string, b: string)
    ensures TextWidth(w, a + b) == TextWidth(w, a) + TextWidth(w, b)
    ensures StringCost(w, a + b) == StringCost(w, a) + StringCost(w, b)
  {
    if b == [] {
      assert a + b == a;
    } else {
      var n := |b| - 1;
      assert (a + b)[..|a + b| - 1] == a + b[..n];
      TextWidthConcat(w, a, b[..n]);
    }
  }

  lemma {:induction false} TextWidthBounds(w: Widths, s: string)
    ensures TextWidth(w, s) <= StringCost(w, s) && |s| <= StringCost(w, s)
    ensures forall i :: 0 <= i < |s| ==> w(s[i]) <= TextWidth(w, s)
  {
    if s != [] {
      TextWidthBounds(w, s[..|s| - 1]);
    }
  }

  function Sum(xs: seq<nat>): nat {
    if xs == [] then 0 else Sum(xs[..|xs| - 1]) + xs[|xs| - 1]
  }

  lemma {:induction false} SumUpdate(xs: seq<nat>, i: nat, x: nat)
    requires i < |xs|
    ensures Sum(xs[i := x]) == Sum(xs) - xs[i] + x
  {
    var n := |xs| - 1;
    if i == n {
      assert xs[i := x][..n] == xs[..n];
    } else {
      assert xs[i := x][..n] == xs[..n][i := x];
      SumUpdate(xs[..n], i, x);
    }
  }

  lemma {:induction false} SumAtLeast(xs: seq<nat>, each: nat)
    requires forall i :: 0 <= i < |xs| ==> xs[i] >= each
    ensures Sum(xs) >= each * |xs|
    ensures (forall i :: 0 <= i < |xs| ==> xs[i] == each) ==> Sum(xs) == each * |xs|
  {
    if xs != [] {
      SumAtLeast(xs[..|xs| - 1], each);
      assert each * |xs| == each * (|xs| - 1) + each;
    }
  }

  /** The widest cell of each of the first `cols` columns, nothing where all are empty or missing. */
  ghost predicate IsIdeal(w: Widths, rows: seq<seq<string>>, cols: nat, ideal: seq<nat>) {
    && |ideal| == cols
    && (forall r, i :: 0 <= r < |rows| && 0 <= i < |rows[r]| && i < cols ==> TextWidth(w, rows[r][i]) <= ideal[i])
    && (forall i :: 0 <= i < cols && ideal[i] > 0 ==>
          exists r :: 0 <= r < |rows| && i < |rows[r]| && TextWidth(w, rows[r][i]) == ideal[i])
  }

  method IdealWidths(w: Widths, rows: seq<seq<string>>, cols: nat) returns (ideal: seq<nat>)
    ensures IsIdeal(w, rows, cols, ideal)
  {
    ideal := seq(cols, _ => 0);
    for r := 0 to |rows|
      invariant |ideal| == cols
      invariant forall q, i :: 0 <= q < r && 0 <= i < |rows[q]| && i < cols ==> TextWidth(w, rows[q][i]) <= ideal[i]
      invariant forall i :: 0 <= i < cols && ideal[i] > 0 ==>
                  exists q :: 0 <= q < r && i < |rows[q]| && TextWidth(w, rows[q][i]) == ideal[i]
    {
      ghost var before := ideal;
      for i := 0 to |rows[r]|
        invariant |ideal| == cols
        invariant forall k :: 0 <= k < cols ==>
                    ideal[k] == if k < i && TextWidth(w, rows[r][k]) > before[k]
                                then TextWidth(w, rows[r][k]) else before[k]
      {
        if i < cols {
          var cw := TextWidth(w, rows[r][i]);
          ideal := ideal[i := if cw > ideal[i] then cw else ideal[i]];
        }
      }
    }
  }

  /** The first shrink: every column gives up its share of the overflow, rounded down. */
  function Share(ideal: nat, overflow: nat, total: nat): nat
    requires total > 0
  {
    ideal * overflow / total
  }

  function Shares(ideal: seq<nat>, overflow: nat, total: nat): nat
    requires total > 0
  {
    if ideal == [] then 0
    else Shares(ideal[..|ideal| - 1], overflow, total) + Share(ideal[|ideal| - 1], overflow, total)
  }

  lemma MulAtMost(x: nat, a: nat, b: nat)
    requires a <= b
    ensures x * a <= x * b
  {
    assert x * b == x * a + x * (b - a);
  }

  lemma MulCancel(a: nat, b: nat, t: nat)
    requires t > 0
    ensures a * t <= b * t ==> a <= b
  {
    if a > b {
      MulAtMost(t, b + 1, a);
      assert t * (b + 1) == b * t + t;
    }
  }

  lemma ShareBound(x: nat, overflow: nat, total: nat)
    requires total > 0
    ensures Share(x, overflow, total) * total <= x * overflow
    ensures overflow <= total ==> Share(x, overflow, total) <= x
  {
    var p, q := x * overflow, Share(x, overflow, total);
    assert p == q * total + p % total;
    if overflow <= total {
      MulAtMost(x, overflow, total);
      MulCancel(q, x, total);
    }
  }

  /** A share is rounded down; a column gives it up unless that leaves less than one place. */
  lemma KeptExactly(x: nat, overflow: nat, total: nat)
    requires total > 0
    ensures var s := Share(x, overflow, total);
            && s * total <= x * overflow < (s + 1) * total
            && Kept(x, overflow, total) == if x > s then x - s else 1
  {
    var p, s := x * overflow, Share(x, overflow, total);
    assert p == s * total + p % total;
    assert (s + 1) * total == s * total + total;
  }

  /** Rounding down, the shares together do not exceed the overflow. */
  lemma {:induction false} SharesBound(ideal: seq<nat>, overflow: nat, total: nat)
    requires total > 0
    ensures Shares(ideal, overflow, total) * total <= Sum(ideal) * overflow
  {
    if ideal != [] {
      var n := |ideal| - 1;
      SharesBound(ideal[..n], overflow, total);
      ShareBound(ideal[n], overflow, total);
      var s, x := Shares(ideal[..n], overflow, total), Share(ideal[n], overflow, total);
      assert (s + x) * total == s * total + x * total;
      assert (Sum(ideal[..n]) + ideal[n]) * overflow == Sum(ideal[..n]) * overflow + ideal[n] * overflow;
    }
  }

  lemma SharesFit(ideal: seq<nat>, overflow: nat)
    requires Sum(ideal) > 0
    ensures Shares(ideal, overflow, Sum(ideal)) <= overflow
  {
    var total, s := Sum(ideal), Shares(ideal, overflow, Sum(ideal));
    SharesBound(ideal, overflow, total);
    MulCancel(s, overflow, total);
  }

  /** What a column keeps after giving up its share. */
  function Kept(ideal: nat, overflow: nat, total: nat): (k: nat)
    requires total > 0
    ensures k >= 1
  {
    var share := Share(ideal, overflow, total);
    if ideal < share + 1 then 1 else ideal - share
  }

  function KeptWidths(ideal: seq<nat>, avail: nat): (start: seq<nat>)
    requires Sum(ideal) > avail
    ensures |start| == |ideal|
  {
    seq(|ideal|, i requires 0 <= i < |ideal| => Kept(ideal[i], Sum(ideal) - avail, Sum(ideal)))
  }

  /** Columns are cut below `start` evenly: only while widest, and the leftmost of the widest first.
      Together with the sum this leaves one result. */
  predicate CutEvenly(start: seq<nat>, widths: seq<nat>) {
    && |widths| == |start|
    && (forall i :: 0 <= i < |widths| ==> 1 <= widths[i] <= start[i])
    && (forall i, j :: 0 <= i < |widths| && 0 <= j < |widths| && widths[i] < start[i] ==>
          widths[j] <= widths[i] + (if j < i then 0 else 1))
  }

  /** Cutting evenly to the same sum gives the same widths. */
  lemma CutEvenlyUnique(start: seq<nat>, a: seq<nat>, b: seq<nat>)
    requires CutEvenly(start, a) && CutEvenly(start, b) && Sum(a) == Sum(b)
    ensures a == b
  {
    if exists i :: 0 <= i < |a| && a[i] < b[i] {
      var i :| 0 <= i < |a| && a[i] < b[i];
      forall j | 0 <= j < |a| ensures a[j] <= b[j] {
        CutFurther(start, a, b, i, j);
      }
      SumStrict(a, b, i);
    } else {
      if exists i :: 0 <= i < |a| && b[i] < a[i] {
        var i :| 0 <= i < |a| && b[i] < a[i];
        SumStrict(b, a, i);
      }
    }
  }

  /** A result that is below another in one column is nowhere above it. */
  lemma CutFurther(start: seq<nat>, a: seq<nat>, b: seq<nat>, i: nat, j: nat)
    requires CutEvenly(start, a) && CutEvenly(start, b) && i < |a| && j < |a| && a[i] < b[i]
    ensures a[j] <= b[j]
  {
  }

  lemma {:induction false} SumStrict(a: seq<nat>, b: seq<nat>, i: nat)
    requires |a| == |b| && i < |a| && a[i] < b[i]
    requires forall j :: 0 <= j < |a| ==> a[j] <= b[j]
    ensures Sum(a) < Sum(b)
  {
    var n := |a| - 1;
    if i < n {
      SumStrict(a[..n], b[..n], i);
    } else {
      SumMonotone(a[..n], b[..n]);
    }
  }

  lemma {:induction false} SumMonotone(a: seq<nat>, b: seq<nat>)
    requires |a| == |b| && forall j :: 0 <= j < |a| ==> a[j] <= b[j]
    ensures Sum(a) <= Sum(b)
  {
    if a != [] {
      SumMonotone(a[..|a| - 1], b[..|b| - 1]);
    }
  }

  /** The proportional step. */
  method GiveShares(ideal: seq<nat>, avail: nat) returns (widths: seq<nat>)
    requires Sum(ideal) > avail
    ensures widths == KeptWidths(ideal, avail) && Sum(widths) >= avail
  {
    var total := Sum(ideal);
    var overflow := total - avail;
    widths := ideal;
    for i := 0 to |ideal|
      invariant |widths| == |ideal|
      invariant forall k :: 0 <= k < |ideal| ==>
                  widths[k] == if k < i then Kept(ideal[k], overflow, total) else ideal[k]
      invariant Sum(widths) >= total - Shares(ideal[..i], overflow, total)
    {
      var shrink := Share(ideal[i], overflow, total);
      assert ideal[..i + 1][..i] == ideal[..i];
      var kept := if ideal[i] >= shrink then ideal[i] - shrink else 0;
      SumUpdate(widths, i, if kept < 1 then 1 else kept);
      widths := widths[i := if kept < 1 then 1 else kept];
    }
    assert ideal[..|ideal|] == ideal;
    SharesFit(ideal, overflow);
  }

  /** Overflowing columns give up their shares, then are cut evenly until they fill exactly the space
      there is, or one column each when there is less than that. */
  predicate IsShrunk(ideal: seq<nat>, avail: nat, widths: seq<nat>)
    requires Sum(ideal) > avail
  {
    && CutEvenly(KeptWidths(ideal, avail), widths)
    && Sum(widths) == if avail >= |ideal| then avail else |ideal|
  }

  /** There is only one way to shrink. */
  lemma ShrunkUnique(ideal: seq<nat>, avail: nat, a: seq<nat>, b: seq<nat>)
    requires Sum(ideal) > avail && IsShrunk(ideal, avail, a) && IsShrunk(ideal, avail, b)
    ensures a == b
  {
    CutEvenlyUnique(KeptWidths(ideal, avail), a, b);
  }

  lemma CutOne(start: seq<nat>, widths: seq<nat>, m: nat)
    requires CutEvenly(start, widths) && m < |widths| && widths[m] > 1
    requires forall i :: 0 <= i < |widths| ==> widths[i] <= widths[m] - (if i < m then 1 else 0)
    ensures CutEvenly(start, widths[m := widths[m] - 1])
    ensures Sum(widths[m := widths[m] - 1]) == Sum(widths) - 1
  {
    SumUpdate(widths, m, widths[m] - 1);
  }

  /** The decrement loop. */
  method CutDown(start: seq<nat>, avail: nat) returns (widths: seq<nat>)
    requires (forall i :: 0 <= i < |start| ==> start[i] >= 1) && Sum(start) >= avail
    ensures CutEvenly(start, widths) && Sum(widths) == if avail >= |start| then avail else |start|
  {
    widths := start;
    SumAtLeast(widths, 1);
    var currentSum := Sum(widths);
    while currentSum > avail
      invariant CutEvenly(start, widths)
      invariant currentSum == Sum(widths) >= avail && currentSum >= |start|
    {
      var maxIdx, maxW := WidestColumn(widths);
      if widths[maxIdx] > 1 {
        CutOne(start, widths, maxIdx);
        widths := widths[maxIdx := widths[maxIdx] - 1];
        currentSum := currentSum - 1;
        SumAtLeast(widths, 1);
      } else {
        SumAtLeast(widths, 1);
        break;
      }
    }
  }

  /** No column disappears and none grows. */
  method ShrinkColumns(ideal: seq<nat>, avail: nat) returns (widths: seq<nat>)
    requires Sum(ideal) > avail
    ensures IsShrunk(ideal, avail, widths)
    ensures forall i :: 0 <= i < |widths| ==> widths[i] >= 1 && (widths[i] <= ideal[i] || widths[i] == 1)
  {
    var start := GiveShares(ideal, avail);
    widths := CutDown(start, avail);
  }

  method WidestColumn(widths: seq<nat>) returns (maxIdx: nat, maxW: nat)
    requires widths != [] && forall i :: 0 <= i < |widths| ==> widths[i] >= 1
    ensures maxIdx < |widths| && maxW == widths[maxIdx]
    ensures forall i :: 0 <= i < |widths| ==> widths[i] <= maxW
    ensures forall i :: 0 <= i < maxIdx ==> widths[i] < maxW
  {
    maxIdx, maxW := 0, 0;
    for i := 0 to |widths|
      invariant i == 0 ==> maxIdx == 0 && maxW == 0
      invariant i > 0 ==> maxIdx < i && maxW == widths[maxIdx]
      invariant forall k :: 0 <= k < i ==> widths[k] <= maxW
      invariant forall k :: 0 <= k < maxIdx ==> widths[k] < maxW
    {
      if widths[i] > maxW {
        maxW := widths[i];
        maxIdx := i;
      }
    }
  }

  function TableWidth(widths: seq<nat>): nat { Sum(widths) + 3 * |widths| + 1 }

  /** The columns left for text. One column is always left over: a line has `3 * cols + 1` columns of
      separators. */
  function Available(maxWidth: nat, cols: nat): nat {
    if maxWidth >= 3 * cols + 2 then maxWidth - (3 * cols + 2) else 0
  }

  /** The ideal widths fit. */
  predicate IdealChosen(ideal: seq<nat>, maxWidth: Option<nat>) {
    maxWidth.None? || Sum(ideal) <= Available(maxWidth.value, |ideal|)
  }

  /** The ideal widths are taken exactly when one column of the space is left over. */
  lemma IdealExactly(ideal: seq<nat>, space: nat)
    requires space >= 3 * |ideal| + 2
    ensures IdealChosen(ideal, Some(space)) <==> TableWidth(ideal) < space
  {
  }

  /** The column widths chosen for the table: the ideal ones when they fit, the shrunk ones
      otherwise. */
  ghost predicate IsChosen(ideal: seq<nat>, maxWidth: Option<nat>, widths: seq<nat>) {
    if IdealChosen(ideal, maxWidth) then widths == ideal
    else IsShrunk(ideal, Available(maxWidth.value, |ideal|), widths)
  }

  method ColumnWidths(w: Widths, rows: seq<seq<string>>, cols: nat, maxWidth: Option<nat>)
    returns (widths: seq<nat>, ghost ideal: seq<nat>)
    ensures IsIdeal(w, rows, cols, ideal) && IsChosen(ideal, maxWidth, widths) && |widths| == cols
    ensures maxWidth.Some? && maxWidth.value >= 4 * cols + 2 ==>
              TableWidth(widths) == if TableWidth(ideal) < maxWidth.value then TableWidth(ideal) else maxWidth.value - 1
  {
    var best := IdealWidths(w, rows, cols);
    ideal := best;
    if maxWidth.Some? {
      var sepChars := 3 * cols + 2;
      var avail := if maxWidth.value >= sepChars then maxWidth.value - sepChars else 0;
      if Sum(best) > avail {
        widths := ShrinkColumns(best, avail);
        return;
      }
    }
    widths := best;
  }
}
