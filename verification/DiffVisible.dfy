/** Which rows of a file tree are visible when directories are collapsed. */
module DiffVisible {
  import opened Sequences
  import opened Text
  import opened DiffTree

  // ----- The rows of one level -----

  /** The row that stands for a node. */
  predicate Stands(row: TreeRow, node: TreeNode, depth: nat) {
    && row.depth == depth && row.name == node.name
    && (row.isDir <==> node.Dir?)
    && (row.expanded <==> node.Dir? && node.expanded)
    && row.fileIndex == (if node.File? then Some(node.fileIndex) else None)
  }

  /** Where the row of node `k` stands. */
  function Place(nodes: seq<TreeNode>, depth: nat, k: nat): nat
    requires k <= |nodes|
  {
    |Rows(nodes[..k], depth)|
  }

  lemma {:induction false} RowsConcat(a: seq<TreeNode>, b: seq<TreeNode>, depth: nat)
    ensures Rows(a + b, depth) == Rows(a, depth) + Rows(b, depth)
    decreases |a|
  {
    if a == [] {
      assert a + b == b;
    } else {
      assert (a + b)[0] == a[0] && (a + b)[1..] == a[1..] + b;
      RowsConcat(a[1..], b, depth);
      Assoc(NodeRows(a[0], depth), Rows(a[1..], depth), Rows(b, depth));
    }
  }

  lemma OneNode(node: TreeNode, depth: nat)
    ensures Rows([node], depth) == NodeRows(node, depth)
  {
    assert [node][1..] == [];
    NilRight(NodeRows(node, depth));
  }

  lemma NodeFirst(node: TreeNode, depth: nat)
    ensures var rows := NodeRows(node, depth);
            && rows != [] && Stands(rows[0], node, depth)
            && rows[1..] == if node.Dir? && node.expanded then Rows(node.children, depth + 1) else []
  {
  }

  lemma SplitAt(nodes: seq<TreeNode>, depth: nat, k: nat)
    requires k < |nodes|
    ensures Rows(nodes[..k + 1], depth) == Rows(nodes[..k], depth) + NodeRows(nodes[k], depth)
    ensures Rows(nodes, depth) == Rows(nodes[..k + 1], depth) + Rows(nodes[k + 1..], depth)
  {
    TakeNext(nodes, k);
    RowsConcat(nodes[..k], [nodes[k]], depth);
    OneNode(nodes[k], depth);
    assert nodes == nodes[..k + 1] + nodes[k + 1..];
    RowsConcat(nodes[..k + 1], nodes[k + 1..], depth);
  }

  /** Every node of a level has its row, with its own mark, whether it is open or collapsed; between its
      row and the next stand the rows of its children if it is expanded, and nothing otherwise. */
  lemma RowsOfLevel(nodes: seq<TreeNode>, depth: nat, k: nat)
    requires k < |nodes|
    ensures var rows, at, end := Rows(nodes, depth), Place(nodes, depth, k), Place(nodes, depth, k + 1);
            && at < end <= |rows| && Stands(rows[at], nodes[k], depth)
            && rows[at + 1..end] ==
               (if nodes[k].Dir? && nodes[k].expanded then Rows(nodes[k].children, depth + 1) else [])
  {
    SplitAt(nodes, depth, k);
    NodeFirst(nodes[k], depth);
    Middle(Rows(nodes[..k], depth), NodeRows(nodes[k], depth), Rows(nodes[k + 1..], depth));
  }

  /** The rows of a level begin with its first node and end with its last. */
  lemma LevelEnds(nodes: seq<TreeNode>, depth: nat)
    ensures Place(nodes, depth, 0) == 0 && Place(nodes, depth, |nodes|) == |Rows(nodes, depth)|
  {
    TakeAll(nodes);
    assert nodes[..0] == [];
  }

  lemma Middle<T>(a: seq<T>, b: seq<T>, c: seq<T>)
    requires b != []
    ensures var s := a + b + c;
            && |a| < |a + b| <= |s| && s[|a|] == b[0] && s[|a| + 1..|a + b|] == b[1..]
  {
  }

  // ----- Which rows are visible -----

  /** The rows of all nodes, whatever is collapsed, each with its own mark. */
  function AllRows(nodes: seq<TreeNode>, depth: nat): seq<TreeRow>
    decreases nodes, 0
  {
    if nodes == [] then [] else NodeAllRows(nodes[0], depth) + AllRows(nodes[1..], depth)
  }

  function NodeAllRows(node: TreeNode, depth: nat): seq<TreeRow>
    decreases node, 1
  {
    match node
    case Dir(name, children, expanded) => [TreeRow(depth, name, true, expanded, None)] + AllRows(children, depth + 1)
    case File(name, fileIndex) => [TreeRow(depth, name, false, false, Some(fileIndex))]
  }

  /** Row `j` is that of a directory in which row `k` lies: all rows since are deeper. */
  predicate Encloses(rows: seq<TreeRow>, j: nat, k: nat)
    requires j < |rows| && k < |rows|
  {
    j < k && forall m :: j < m <= k ==> rows[m].depth > rows[j].depth
  }

  /** All directories in which the row lies are open. */
  predicate Visible(rows: seq<TreeRow>, k: nat)
    requires k < |rows|
  {
    forall j :: 0 <= j < k && Encloses(rows, j, k) ==> rows[j].expanded
  }

  function VisibleUpTo(rows: seq<TreeRow>, n: nat): seq<TreeRow>
    requires n <= |rows|
  {
    if n == 0 then []
    else if Visible(rows, n - 1) then VisibleUpTo(rows, n - 1) + [rows[n - 1]]
    else VisibleUpTo(rows, n - 1)
  }

  /** The visible rows, in order. */
  function VisibleOf(rows: seq<TreeRow>): seq<TreeRow> { VisibleUpTo(rows, |rows|) }

  lemma {:induction false} FrontVisible(a: seq<TreeRow>, b: seq<TreeRow>, n: nat)
    requires n <= |a|
    ensures VisibleUpTo(a + b, n) == VisibleUpTo(a, n)
  {
    if n > 0 {
      var t, last := a + b, n - 1;
      assert forall i :: 0 <= i < |a| ==> t[i] == a[i];
      FrontVisible(a, b, last);
      assert forall j :: 0 <= j < last ==> Encloses(t, j, last) == Encloses(a, j, last);
    }
  }

  /** Rows behind a row that is no deeper than all before it do not lie in any of these. */
  lemma NotEnclosed(a: seq<TreeRow>, b: seq<TreeRow>, j: nat, k: nat)
    requires k < |b| && forall i :: 0 <= i < |a| ==> a[i].depth >= b[0].depth
    ensures j < |a| ==> !Encloses(a + b, j, |a| + k)
    ensures j < k ==> (Encloses(a + b, |a| + j, |a| + k) <==> Encloses(b, j, k))
  {
    var t := a + b;
    assert t[|a|] == b[0];
    if j < |a| {
      assert t[j] == a[j];
    }
    assert forall m :: 0 <= m < |b| ==> t[|a| + m] == b[m];
    if j < k && Encloses(b, j, k) {
      forall m | |a| + j < m <= |a| + k ensures t[m].depth > t[|a| + j].depth {
        assert t[m] == b[m - |a|];
      }
    }
    if j < k && Encloses(t, |a| + j, |a| + k) {
      forall m | j < m <= k ensures b[m].depth > b[j].depth {
        assert t[|a| + m] == b[m];
      }
    }
  }

  lemma BackVisible(a: seq<TreeRow>, b: seq<TreeRow>, k: nat)
    requires k < |b| && forall i :: 0 <= i < |a| ==> a[i].depth >= b[0].depth
    ensures Visible(a + b, |a| + k) <==> Visible(b, k)
  {
    var t := a + b;
    assert forall m :: 0 <= m < |b| ==> t[|a| + m] == b[m];
    if Visible(b, k) {
      forall j | 0 <= j < |a| + k && Encloses(t, j, |a| + k) ensures t[j].expanded {
        NotEnclosed(a, b, if j < |a| then j else j - |a|, k);
      }
    }
    if Visible(t, |a| + k) {
      forall j | 0 <= j < k && Encloses(b, j, k) ensures b[j].expanded {
        NotEnclosed(a, b, j, k);
      }
    }
  }

  lemma {:induction false} VisibleConcat(a: seq<TreeRow>, b: seq<TreeRow>, n: nat)
    requires n <= |b| && (b != [] ==> forall i :: 0 <= i < |a| ==> a[i].depth >= b[0].depth)
    ensures VisibleUpTo(a + b, |a| + n) == VisibleOf(a) + VisibleUpTo(b, n)
    decreases n
  {
    if n == 0 {
      FrontVisible(a, b, |a|);
      NilRight(VisibleOf(a));
    } else {
      VisibleConcat(a, b, n - 1);
      BackVisible(a, b, n - 1);
      assert (a + b)[|a| + n - 1] == b[n - 1];
      Assoc(VisibleOf(a), VisibleUpTo(b, n - 1), [b[n - 1]]);
    }
  }

  lemma UnderVisible(row: TreeRow, rows: seq<TreeRow>, k: nat)
    requires k < |rows| && forall i :: 0 <= i < |rows| ==> rows[i].depth > row.depth
    ensures Visible([row] + rows, k + 1) <==> row.expanded && Visible(rows, k)
  {
    var t := [row] + rows;
    assert forall m :: 0 <= m < |rows| ==> t[m + 1] == rows[m];
    assert Encloses(t, 0, k + 1) by {
      assert forall m :: 0 < m <= k + 1 ==> t[m] == rows[m - 1];
    }
    forall j | 0 <= j < k ensures Encloses(t, j + 1, k + 1) <==> Encloses(rows, j, k) {
      assert forall m :: j + 1 < m <= k + 1 ==> t[m] == rows[m - 1];
    }
    if Visible(t, k + 1) {
      assert t[0].expanded;
      forall j | 0 <= j < k && Encloses(rows, j, k) ensures rows[j].expanded {
        assert Encloses(t, j + 1, k + 1);
      }
    }
    if row.expanded && Visible(rows, k) {
      forall j | 0 <= j < k + 1 && Encloses(t, j, k + 1) ensures t[j].expanded {
        assert j > 0 ==> Encloses(rows, j - 1, k);
      }
    }
  }

  /** Below one row: everything that is visible there, or nothing. */
  lemma {:induction false} VisibleUnder(row: TreeRow, rows: seq<TreeRow>, n: nat)
    requires n <= |rows| && forall i :: 0 <= i < |rows| ==> rows[i].depth > row.depth
    ensures VisibleUpTo([row] + rows, n + 1) == [row] + (if row.expanded then VisibleUpTo(rows, n) else [])
    decreases n
  {
    var t := [row] + rows;
    if n == 0 {
      assert VisibleUpTo(t, 0) == [] && Visible(t, 0);
    } else {
      VisibleUnder(row, rows, n - 1);
      UnderVisible(row, rows, n - 1);
      assert t[n] == rows[n - 1];
      if row.expanded {
        Assoc([row], VisibleUpTo(rows, n - 1), [rows[n - 1]]);
      }
    }
  }

  lemma {:induction false} AllRowsDeep(nodes: seq<TreeNode>, depth: nat)
    ensures AtLeast(AllRows(nodes, depth), depth)
    ensures nodes != [] ==> AllRows(nodes, depth) != [] && AllRows(nodes, depth)[0].depth == depth
    decreases nodes, 0
  {
    if nodes != [] {
      NodeAllRowsDeep(nodes[0], depth);
      AllRowsDeep(nodes[1..], depth);
    }
  }

  lemma {:induction false} NodeAllRowsDeep(node: TreeNode, depth: nat)
    ensures AtLeast(NodeAllRows(node, depth), depth)
    ensures NodeAllRows(node, depth) != [] && NodeAllRows(node, depth)[0].depth == depth
    decreases node, 1
  {
    if node.Dir? {
      AllRowsDeep(node.children, depth + 1);
    }
  }

  lemma HeadVisible(row: TreeRow)
    ensures VisibleOf([row]) == [row]
  {
    assert VisibleUpTo([row], 0) == [] && Visible([row], 0);
  }

  /** The rows shown are exactly the rows of all nodes whose enclosing directories are all open, in order
      and with their own marks. */
  lemma {:induction false} RowsAreVisible(nodes: seq<TreeNode>, depth: nat)
    ensures Rows(nodes, depth) == VisibleOf(AllRows(nodes, depth))
    decreases nodes, 0
  {
    if nodes != [] {
      var first, rest := NodeAllRows(nodes[0], depth), AllRows(nodes[1..], depth);
      NodeIsVisible(nodes[0], depth);
      RowsAreVisible(nodes[1..], depth);
      NodeAllRowsDeep(nodes[0], depth);
      AllRowsDeep(nodes[1..], depth);
      VisibleConcat(first, rest, |rest|);
    }
  }

  lemma {:induction false} NodeIsVisible(node: TreeNode, depth: nat)
    ensures NodeRows(node, depth) == VisibleOf(NodeAllRows(node, depth))
    decreases node, 1
  {
    match node
    case Dir(name, children, expanded) =>
      var below := AllRows(children, depth + 1);
      RowsAreVisible(children, depth + 1);
      AllRowsDeep(children, depth + 1);
      VisibleUnder(TreeRow(depth, name, true, expanded, None), below, |below|);
    case File(name, fileIndex) => HeadVisible(TreeRow(depth, name, false, false, Some(fileIndex)));
  }
}
