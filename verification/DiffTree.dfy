/** The file tree of the diff view: a trie of path components, turned into nodes and flattened into
    the rows that are shown. */
module DiffTree {
  import opened Sequences
  import opened Text

  /** `dirs` is the ordered map of the program, as a list sorted by name. */
  datatype Builder = Builder(dirs: seq<Entry>, files: seq<(string, nat)>)

  datatype Entry = Entry(name: string, builder: Builder)

  datatype TreeNode =
    | Dir(name: string, children: seq<TreeNode>, expanded: bool)
    | File(name: string, fileIndex: nat)

  datatype TreeRow = TreeRow(depth: nat, name: string, isDir: bool, expanded: bool, fileIndex: Option<nat>)

  type Path = seq<string>

  const Empty: Builder := Builder([], [])

  predicate Less(a: string, b: string) {
    if b == "" then false
    else if a == "" then true
    else a[0] < b[0] || (a[0] == b[0] && Less(a[1..], b[1..]))
  }

  /** The names differ first at `k`, or the shorter one ends there. */
  predicate DiffersAt(a: string, b: string, k: nat) {
    k <= |a| && k < |b| && a[..k] == b[..k] && (k == |a| || a[k] < b[k])
  }

  lemma DiffersLater(a: string, b: string, k: nat)
    requires a != "" && b != "" && a[0] == b[0]
    ensures DiffersAt(a, b, k + 1) <==> DiffersAt(a[1..], b[1..], k)
    ensures !DiffersAt(a, b, 0)
  {
    if k + 1 <= |a| && k + 1 < |b| {
      assert a[..k + 1] == [a[0]] + a[1..][..k] && b[..k + 1] == [b[0]] + b[1..][..k];
      assert a[1..][..k] == a[..k + 1][1..] && b[1..][..k] == b[..k + 1][1..];
    }
  }

  /** The first place at which the names differ decides, or the end of the shorter one. */
  lemma {:induction false} LessExactly(a: string, b: string)
    ensures Less(a, b) <==> exists k: nat :: DiffersAt(a, b, k)
  {
    if a != "" && b != "" && a[0] == b[0] {
      LessExactly(a[1..], b[1..]);
      forall k: nat ensures DiffersAt(a, b, k + 1) <==> DiffersAt(a[1..], b[1..], k) {
        DiffersLater(a, b, k);
      }
      DiffersLater(a, b, 0);
      if Less(a, b) {
        var k: nat :| DiffersAt(a[1..], b[1..], k);
        assert DiffersAt(a, b, k + 1);
      } else if exists k: nat :: DiffersAt(a, b, k) {
        var k: nat :| DiffersAt(a, b, k);
        assert DiffersAt(a, b, (k - 1) + 1);
        assert DiffersAt(a[1..], b[1..], k - 1);
      }
    } else if a != "" && b != "" {
      LessHere(a, b);
    } else if b != "" {
      assert DiffersAt(a, b, 0);
    }
  }

  lemma LessHere(a: string, b: string)
    requires a != "" && b != "" && a[0] != b[0]
    ensures DiffersAt(a, b, 0) <==> a[0] < b[0]
    ensures forall k: nat :: k > 0 ==> !DiffersAt(a, b, k)
  {
    forall k: nat | k > 0 ensures !DiffersAt(a, b, k) {
      if k <= |a| && k < |b| {
        assert a[..k][0] == a[0] && b[..k][0] == b[0];
      }
    }
  }

  // ----- Building -----

  function Insert(b: Builder, components: Path, fileIndex: nat): Builder
    decreases |components|, 0
  {
    if components == [] then b
    else if |components| == 1 then b.(files := b.files + [(components[0], fileIndex)])
    else b.(dirs := InsertInto(b.dirs, components[0], components[1..], fileIndex))
  }

  /** Find or create the entry for `dir` and insert below it. */
  function InsertInto(dirs: seq<Entry>, dir: string, rest: Path, fileIndex: nat): seq<Entry>
    decreases |rest|, 1 + |dirs|
  {
    if dirs == [] || Less(dir, dirs[0].name) then [Entry(dir, Insert(Empty, rest, fileIndex))] + dirs
    else if dirs[0].name == dir then [Entry(dir, Insert(dirs[0].builder, rest, fileIndex))] + dirs[1..]
    else [dirs[0]] + InsertInto(dirs[1..], dir, rest, fileIndex)
  }

  function IntoNodes(b: Builder): seq<TreeNode>
    decreases b, 1
  {
    DirNodes(b.dirs) + FileNodes(b.files)
  }

  function DirNodes(dirs: seq<Entry>): seq<TreeNode>
    decreases dirs, 0
  {
    if dirs == [] then []
    else [Dir(dirs[0].name, IntoNodes(dirs[0].builder), true)] + DirNodes(dirs[1..])
  }

  function FileNodes(files: seq<(string, nat)>): seq<TreeNode> {
    if files == [] then [] else [File(files[0].0, files[0].1)] + FileNodes(files[1..])
  }

  // ----- Flattening -----

  function Rows(nodes: seq<TreeNode>, depth: nat): seq<TreeRow>
    decreases nodes, 0
  {
    if nodes == [] then [] else NodeRows(nodes[0], depth) + Rows(nodes[1..], depth)
  }

  function NodeRows(node: TreeNode, depth: nat): seq<TreeRow>
    decreases node, 1
  {
    match node
    case Dir(name, children, expanded) =>
      [TreeRow(depth, name, true, expanded, None)] + (if expanded then Rows(children, depth + 1) else [])
    case File(name, fileIndex) => [TreeRow(depth, name, false, false, Some(fileIndex))]
  }

  // ----- What the rows spell -----

  function Descend(stack: Path, row: TreeRow): Path {
    (if row.depth <= |stack| then stack[..row.depth] else stack) + [row.name]
  }

  /** Read the rows from the top, keeping the labels of the enclosing directories: every file with
      the path its row spells. */
  function Spelled(rows: seq<TreeRow>, stack: Path): seq<(Path, nat)> {
    if rows == [] then []
    else
      var here := Descend(stack, rows[0]);
      (if rows[0].fileIndex.Some? then [(here, rows[0].fileIndex.value)] else []) + Spelled(rows[1..], here)
  }

  function StackAfter(rows: seq<TreeRow>, stack: Path): Path {
    if rows == [] then stack else StackAfter(rows[1..], Descend(stack, rows[0]))
  }

  lemma {:induction false} SpelledConcat(a: seq<TreeRow>, b: seq<TreeRow>, stack: Path)
    ensures Spelled(a + b, stack) == Spelled(a, stack) + Spelled(b, StackAfter(a, stack))
    decreases |a|
  {
    if a == [] {
      assert a + b == b;
    } else {
      assert (a + b)[0] == a[0] && (a + b)[1..] == a[1..] + b;
      var here := Descend(stack, a[0]);
      SpelledConcat(a[1..], b, here);
      Assoc(if a[0].fileIndex.Some? then [(here, a[0].fileIndex.value)] else [],
            Spelled(a[1..], here), Spelled(b, StackAfter(a[1..], here)));
    }
  }

  predicate AtLeast(rows: seq<TreeRow>, depth: nat) {
    forall i :: 0 <= i < |rows| ==> rows[i].depth >= depth
  }

  lemma {:induction false} StackKeepsPrefix(rows: seq<TreeRow>, stack: Path, depth: nat)
    requires AtLeast(rows, depth) && depth <= |stack|
    ensures depth <= |StackAfter(rows, stack)| && StackAfter(rows, stack)[..depth] == stack[..depth]
    decreases |rows|
  {
    if rows != [] {
      var here := Descend(stack, rows[0]);
      assert here[..depth] == stack[..depth];
      StackKeepsPrefix(rows[1..], here, depth);
    }
  }

  lemma {:induction false} RowsDeepEnough(nodes: seq<TreeNode>, depth: nat)
    ensures AtLeast(Rows(nodes, depth), depth)
    decreases nodes, 0
  {
    if nodes != [] {
      NodeRowsDeepEnough(nodes[0], depth);
      RowsDeepEnough(nodes[1..], depth);
    }
  }

  lemma {:induction false} NodeRowsDeepEnough(node: TreeNode, depth: nat)
    ensures AtLeast(NodeRows(node, depth), depth)
    decreases node, 1
  {
    if node.Dir? {
      RowsDeepEnough(node.children, depth + 1);
    }
  }

  /** The files of a tree with their paths, in tree order. */
  function TreePaths(nodes: seq<TreeNode>, prefix: Path): seq<(Path, nat)>
    decreases nodes, 0
  {
    if nodes == [] then [] else NodePaths(nodes[0], prefix) + TreePaths(nodes[1..], prefix)
  }

  function NodePaths(node: TreeNode, prefix: Path): seq<(Path, nat)>
    decreases node, 1
  {
    match node
    case Dir(name, children, expanded) => if expanded then TreePaths(children, prefix + [name]) else []
    case File(name, fileIndex) => [(prefix + [name], fileIndex)]
  }

  /** The rows spell the paths of the tree. */
  lemma {:induction false} RowsSpellPaths(nodes: seq<TreeNode>, stack: Path, depth: nat)
    requires depth <= |stack|
    ensures Spelled(Rows(nodes, depth), stack) == TreePaths(nodes, stack[..depth])
    decreases nodes, 0
  {
    if nodes != [] {
      var first, rest := NodeRows(nodes[0], depth), Rows(nodes[1..], depth);
      SpelledConcat(first, rest, stack);
      NodeRowsSpellPaths(nodes[0], stack, depth);
      NodeRowsDeepEnough(nodes[0], depth);
      StackKeepsPrefix(first, stack, depth);
      RowsSpellPaths(nodes[1..], StackAfter(first, stack), depth);
    }
  }

  lemma {:induction false} NodeRowsSpellPaths(node: TreeNode, stack: Path, depth: nat)
    requires depth <= |stack|
    ensures Spelled(NodeRows(node, depth), stack) == NodePaths(node, stack[..depth])
    decreases node, 1
  {
    var head := NodeRows(node, depth)[0];
    var here := stack[..depth] + [head.name];
    assert Descend(stack, head) == here;
    assert NodeRows(node, depth) == [head] + NodeRows(node, depth)[1..];
    if node.Dir? {
      if node.expanded {
        RowsSpellPaths(node.children, here, depth + 1);
        assert here[..depth + 1] == here;
      }
    }
  }

  // ----- Nothing is lost -----

  function BuilderPaths(b: Builder, prefix: Path): seq<(Path, nat)>
    decreases b, 1
  {
    DirPaths(b.dirs, prefix) + FilePaths(b.files, prefix)
  }

  function DirPaths(dirs: seq<Entry>, prefix: Path): seq<(Path, nat)>
    decreases dirs, 0
  {
    if dirs == [] then [] else BuilderPaths(dirs[0].builder, prefix + [dirs[0].name]) + DirPaths(dirs[1..], prefix)
  }

  function FilePaths(files: seq<(string, nat)>, prefix: Path): seq<(Path, nat)> {
    if files == [] then [] else [(prefix + [files[0].0], files[0].1)] + FilePaths(files[1..], prefix)
  }

  lemma {:induction false} TreePathsConcat(a: seq<TreeNode>, b: seq<TreeNode>, prefix: Path)
    ensures TreePaths(a + b, prefix) == TreePaths(a, prefix) + TreePaths(b, prefix)
    decreases |a|
  {
    if a == [] {
      assert a + b == b;
    } else {
      assert (a + b)[0] == a[0] && (a + b)[1..] == a[1..] + b;
      TreePathsConcat(a[1..], b, prefix);
      Assoc(NodePaths(a[0], prefix), TreePaths(a[1..], prefix), TreePaths(b, prefix));
    }
  }

  /** The fresh tree, everything expanded, holds the paths of the builder. */
  lemma {:induction false} NodesHoldPaths(b: Builder, prefix: Path)
    ensures TreePaths(IntoNodes(b), prefix) == BuilderPaths(b, prefix)
    decreases b, 1
  {
    TreePathsConcat(DirNodes(b.dirs), FileNodes(b.files), prefix);
    DirNodesHoldPaths(b.dirs, prefix);
    FileNodesHoldPaths(b.files, prefix);
  }

  lemma {:induction false} DirNodesHoldPaths(dirs: seq<Entry>, prefix: Path)
    ensures TreePaths(DirNodes(dirs), prefix) == DirPaths(dirs, prefix)
    decreases dirs, 0
  {
    if dirs != [] {
      NodesHoldPaths(dirs[0].builder, prefix + [dirs[0].name]);
      DirNodesHoldPaths(dirs[1..], prefix);
      assert DirNodes(dirs)[1..] == DirNodes(dirs[1..]);
    }
  }

  lemma {:induction false} FileNodesHoldPaths(files: seq<(string, nat)>, prefix: Path)
    ensures TreePaths(FileNodes(files), prefix) == FilePaths(files, prefix)
  {
    if files != [] {
      assert FileNodes(files)[1..] == FileNodes(files[1..]);
      FileNodesHoldPaths(files[1..], prefix);
    }
  }

  lemma {:induction false} FilePathsAppend(files: seq<(string, nat)>, name: string, fileIndex: nat, prefix: Path)
    ensures FilePaths(files + [(name, fileIndex)], prefix) == FilePaths(files, prefix) + [(prefix + [name], fileIndex)]
  {
    if files == [] {
      assert (files + [(name, fileIndex)])[1..] == [];
    } else {
      assert (files + [(name, fileIndex)])[1..] == files[1..] + [(name, fileIndex)];
      FilePathsAppend(files[1..], name, fileIndex, prefix);
    }
  }

  lemma MultisetConcat<T>(a: seq<T>, b: seq<T>)
    ensures multiset(a + b) == multiset(a) + multiset(b)
  {
  }

  /** Inserting adds one file under its path and disturbs no other. */
  lemma {:induction false} InsertAdds(b: Builder, components: Path, fileIndex: nat, prefix: Path)
    requires components != []
    ensures multiset(BuilderPaths(Insert(b, components, fileIndex), prefix)) ==
            multiset(BuilderPaths(b, prefix)) + multiset{(prefix + components, fileIndex)}
    decreases |components|, 0
  {
    if |components| == 1 {
      assert components == [components[0]];
      FilePathsAppend(b.files, components[0], fileIndex, prefix);
      Assoc(DirPaths(b.dirs, prefix), FilePaths(b.files, prefix), [(prefix + components, fileIndex)]);
      MultisetConcat(BuilderPaths(b, prefix), [(prefix + components, fileIndex)]);
    } else {
      InsertIntoAdds(b.dirs, components[0], components[1..], fileIndex, prefix);
      assert components == [components[0]] + components[1..];
      MultisetConcat(DirPaths(b.dirs, prefix), FilePaths(b.files, prefix));
      MultisetConcat(DirPaths(InsertInto(b.dirs, components[0], components[1..], fileIndex), prefix),
                     FilePaths(b.files, prefix));
    }
  }

  lemma {:induction false} InsertIntoAdds(dirs: seq<Entry>, dir: string, rest: Path, fileIndex: nat, prefix: Path)
    requires rest != []
    ensures multiset(DirPaths(InsertInto(dirs, dir, rest, fileIndex), prefix)) ==
            multiset(DirPaths(dirs, prefix)) + multiset{(prefix + ([dir] + rest), fileIndex)}
    decreases |rest|, 1 + |dirs|
  {
    Assoc(prefix, [dir], rest);
    if dirs == [] || Less(dir, dirs[0].name) {
      FreshAdds(dirs, Entry(dir, Insert(Empty, rest, fileIndex)), prefix);
      InsertAdds(Empty, rest, fileIndex, prefix + [dir]);
    } else if dirs[0].name == dir {
      InsertAdds(dirs[0].builder, rest, fileIndex, prefix + [dir]);
      DirsReplaced(dirs[0], Entry(dir, Insert(dirs[0].builder, rest, fileIndex)), dirs[1..], dirs[1..], prefix);
      assert dirs == [dirs[0]] + dirs[1..];
    } else {
      InsertIntoAdds(dirs[1..], dir, rest, fileIndex, prefix);
      DirsReplaced(dirs[0], dirs[0], dirs[1..], InsertInto(dirs[1..], dir, rest, fileIndex), prefix);
      assert dirs == [dirs[0]] + dirs[1..];
    }
  }

  /** The paths of the directories before and after a change to the first or to the rest of them. */
  lemma DirsReplaced(a: Entry, b: Entry, rest: seq<Entry>, more: seq<Entry>, prefix: Path)
    requires a.name == b.name
    ensures multiset(DirPaths([a] + rest, prefix)) ==
            multiset(BuilderPaths(a.builder, prefix + [a.name])) + multiset(DirPaths(rest, prefix))
    ensures multiset(DirPaths([b] + more, prefix)) ==
            multiset(BuilderPaths(b.builder, prefix + [a.name])) + multiset(DirPaths(more, prefix))
  {
    FreshAdds(rest, a, prefix);
    FreshAdds(more, b, prefix);
  }

  lemma FreshAdds(dirs: seq<Entry>, entry: Entry, prefix: Path)
    ensures multiset(DirPaths([entry] + dirs, prefix)) ==
            multiset(BuilderPaths(entry.builder, prefix + [entry.name])) + multiset(DirPaths(dirs, prefix))
    ensures BuilderPaths(Empty, prefix + [entry.name]) == []
  {
    assert ([entry] + dirs)[1..] == dirs;
    DirPathsCons([entry] + dirs, dirs, prefix);
  }

  lemma DirPathsCons(dirs: seq<Entry>, rest: seq<Entry>, prefix: Path)
    requires dirs != [] && dirs[1..] == rest
    ensures multiset(DirPaths(dirs, prefix)) ==
            multiset(BuilderPaths(dirs[0].builder, prefix + [dirs[0].name])) + multiset(DirPaths(rest, prefix))
  {
    MultisetConcat(BuilderPaths(dirs[0].builder, prefix + [dirs[0].name]), DirPaths(rest, prefix));
  }

  // ----- One node per directory -----

  lemma {:induction false} LessTotal(a: string, b: string)
    ensures a == b || Less(a, b) || Less(b, a)
  {
    if a != "" && b != "" && a[0] == b[0] {
      LessTotal(a[1..], b[1..]);
      assert a == [a[0]] + a[1..] && b == [b[0]] + b[1..];
    }
  }

  /** The files stand in the order of their numbers, all below `limit`. */
  predicate Numbered(files: seq<(string, nat)>, limit: nat) {
    && (forall i :: 0 <= i < |files| ==> files[i].1 < limit)
    && (forall i, j :: 0 <= i < j < |files| ==> files[i].1 < files[j].1)
  }

  predicate Ordered(b: Builder, limit: nat)
    decreases b, 1
  {
    Numbered(b.files, limit) && OrderedDirs(b.dirs, limit)
  }

  /** Names increase strictly, and files stand in order, at every level. */
  predicate OrderedDirs(dirs: seq<Entry>, limit: nat)
    decreases dirs, 0
  {
    dirs != [] ==>
      && Ordered(dirs[0].builder, limit)
      && (|dirs| > 1 ==> Less(dirs[0].name, dirs[1].name))
      && OrderedDirs(dirs[1..], limit)
  }

  lemma {:induction false} OrderedMore(b: Builder, limit: nat)
    requires Ordered(b, limit)
    ensures Ordered(b, limit + 1)
    decreases b, 1
  {
    OrderedDirsMore(b.dirs, limit);
  }

  lemma {:induction false} OrderedDirsMore(dirs: seq<Entry>, limit: nat)
    requires OrderedDirs(dirs, limit)
    ensures OrderedDirs(dirs, limit + 1)
    decreases dirs, 0
  {
    if dirs != [] {
      OrderedMore(dirs[0].builder, limit);
      OrderedDirsMore(dirs[1..], limit);
    }
  }

  lemma {:induction false} InsertKeepsOrder(b: Builder, components: Path, fileIndex: nat)
    requires Ordered(b, fileIndex)
    ensures Ordered(Insert(b, components, fileIndex), fileIndex + 1)
    decreases |components|, 0
  {
    OrderedMore(b, fileIndex);
    if |components| > 1 {
      InsertIntoKeepsOrder(b.dirs, components[0], components[1..], fileIndex);
    }
  }

  lemma {:induction false} InsertIntoKeepsOrder(dirs: seq<Entry>, dir: string, rest: Path, fileIndex: nat)
    requires OrderedDirs(dirs, fileIndex)
    ensures var result := InsertInto(dirs, dir, rest, fileIndex);
            && OrderedDirs(result, fileIndex + 1) && result != []
            && (result[0].name == dir || (dirs != [] && result[0].name == dirs[0].name))
    decreases |rest|, 1 + |dirs|
  {
    var result := InsertInto(dirs, dir, rest, fileIndex);
    OrderedDirsMore(dirs, fileIndex);
    if dirs == [] || Less(dir, dirs[0].name) {
      InsertKeepsOrder(Empty, rest, fileIndex);
      assert result[1..] == dirs;
    } else if dirs[0].name == dir {
      InsertKeepsOrder(dirs[0].builder, rest, fileIndex);
      assert result[1..] == dirs[1..];
      assert |result| > 1 ==> result[1] == dirs[1];
    } else {
      InsertIntoKeepsOrder(dirs[1..], dir, rest, fileIndex);
      OrderedMore(dirs[0].builder, fileIndex);
      LessTotal(dir, dirs[0].name);
      assert result[1..] == InsertInto(dirs[1..], dir, rest, fileIndex);
      assert result[1] == result[1..][0];
    }
  }

  /** Directories before files, their names strictly increasing, so that no directory appears twice under
      one parent; and the files in the order of their numbers. */
  predicate Tidy(nodes: seq<TreeNode>)
    decreases nodes
  {
    nodes != [] ==>
      && (nodes[0].Dir? ==> Tidy(nodes[0].children))
      && (|nodes| > 1 && nodes[1].Dir? ==> nodes[0].Dir? && Less(nodes[0].name, nodes[1].name))
      && (|nodes| > 1 && nodes[0].File? ==> nodes[1].File? && nodes[0].fileIndex < nodes[1].fileIndex)
      && Tidy(nodes[1..])
  }

  lemma {:induction false} FileNodesTidy(files: seq<(string, nat)>, limit: nat)
    requires Numbered(files, limit)
    ensures Tidy(FileNodes(files)) && forall i :: 0 <= i < |FileNodes(files)| ==> FileNodes(files)[i].File?
  {
    if files != [] {
      FileNodesTidy(files[1..], limit);
      assert FileNodes(files)[1..] == FileNodes(files[1..]);
    }
  }

  lemma {:induction false} NodesTidy(b: Builder, limit: nat)
    requires Ordered(b, limit)
    ensures Tidy(IntoNodes(b))
    decreases b, 1
  {
    FileNodesTidy(b.files, limit);
    DirNodesTidy(b.dirs, FileNodes(b.files), limit);
  }

  lemma {:induction false} DirNodesTidy(dirs: seq<Entry>, after: seq<TreeNode>, limit: nat)
    requires OrderedDirs(dirs, limit) && Tidy(after) && (after != [] ==> after[0].File?)
    ensures Tidy(DirNodes(dirs) + after)
    decreases dirs, 0
  {
    if dirs == [] {
      assert DirNodes(dirs) + after == after;
    } else {
      NodesTidy(dirs[0].builder, limit);
      DirNodesTidy(dirs[1..], after, limit);
      var rest := DirNodes(dirs[1..]) + after;
      Assoc([Dir(dirs[0].name, IntoNodes(dirs[0].builder), true)], DirNodes(dirs[1..]), after);
      assert rest != [] ==> rest[0] == if |dirs| > 1 then DirNodes(dirs[1..])[0] else after[0];
      TidyCons(dirs[0].name, IntoNodes(dirs[0].builder), rest);
    }
  }

  lemma TidyCons(name: string, children: seq<TreeNode>, rest: seq<TreeNode>)
    requires Tidy(children) && Tidy(rest) && (rest != [] && rest[0].Dir? ==> Less(name, rest[0].name))
    ensures Tidy([Dir(name, children, true)] + rest)
  {
    assert ([Dir(name, children, true)] + rest)[1..] == rest;
  }

  // ----- The whole tree -----

  /** The components under which a file is filed; a path without any stands for itself. `parts`
      stands for the path parser. */
  function PathOf(path: string, parts: string -> Path): Path {
    if parts(path) == [] then [path] else parts(path)
  }

  /** Every file once, under its own path, and nothing else. */
  ghost predicate HoldsExactly(found: multiset<(Path, nat)>, paths: seq<string>, parts: string -> Path) {
    forall p: Path, i: nat :: found[(p, i)] == if i < |paths| && p == PathOf(paths[i], parts) then 1 else 0
  }

  lemma HoldsExactlyAppend(found: multiset<(Path, nat)>, paths: seq<string>, path: string, parts: string -> Path)
    requires HoldsExactly(found, paths, parts)
    ensures HoldsExactly(found + multiset{(PathOf(path, parts), |paths|)}, paths + [path], parts)
  {
  }

  lemma FiledNext(root: Builder, paths: seq<string>, i: nat, parts: string -> Path)
    requires i < |paths| && HoldsExactly(multiset(BuilderPaths(root, [])), paths[..i], parts) && Ordered(root, i)
    ensures var next := Insert(root, PathOf(paths[i], parts), i);
            HoldsExactly(multiset(BuilderPaths(next, [])), paths[..i + 1], parts) && Ordered(next, i + 1)
  {
    var filed := PathOf(paths[i], parts);
    InsertKeepsOrder(root, filed, i);
    FiledOne(root, filed, i);
    HoldsNext(multiset(BuilderPaths(root, [])), multiset(BuilderPaths(Insert(root, filed, i), [])), paths, i, parts);
  }

  lemma FiledOne(root: Builder, filed: Path, i: nat)
    requires filed != []
    ensures multiset(BuilderPaths(Insert(root, filed, i), [])) ==
            multiset(BuilderPaths(root, [])) + multiset{(filed, i)}
  {
    InsertAdds(root, filed, i, []);
    assert [] + filed == filed;
  }

  lemma HoldsNext(found: multiset<(Path, nat)>, more: multiset<(Path, nat)>, paths: seq<string>, i: nat,
                  parts: string -> Path)
    requires i < |paths| && HoldsExactly(found, paths[..i], parts)
    requires more == found + multiset{(PathOf(paths[i], parts), i)}
    ensures HoldsExactly(more, paths[..i + 1], parts)
  {
    HoldsExactlyAppend(found, paths[..i], paths[i], parts);
    assert paths[..i + 1] == paths[..i] + [paths[i]];
  }

  /** Building the tree and flattening it loses and invents nothing: the rows of the fresh tree
      spell every file exactly once, under its own path; and no directory is split. */
  method BuildTree(paths: seq<string>, parts: string -> Path) returns (nodes: seq<TreeNode>)
    ensures HoldsExactly(multiset(Spelled(Rows(nodes, 0), [])), paths, parts)
    ensures Tidy(nodes)
  {
    var root := Empty;
    for i := 0 to |paths|
      invariant HoldsExactly(multiset(BuilderPaths(root, [])), paths[..i], parts)
      invariant Ordered(root, i)
    {
      var components := parts(paths[i]);
      FiledNext(root, paths, i, parts);
      if components == [] {
        root := root.(files := root.files + [(paths[i], i)]);
      } else {
        root := Insert(root, components, i);
      }
    }
    assert paths[..|paths|] == paths;
    nodes := IntoNodes(root);
    NodesHoldPaths(root, []);
    RowsSpellPaths(nodes, [], 0);
    NodesTidy(root, |paths|);
  }

  // ----- Collapsed directories -----

  predicate IsSubsequence<T(==)>(a: seq<T>, b: seq<T>) {
    a == [] || (b != [] && ((a[0] == b[0] && IsSubsequence(a[1..], b[1..])) || IsSubsequence(a, b[1..])))
  }

  lemma {:induction false} SubsequenceConcat<T>(a: seq<T>, b: seq<T>, c: seq<T>, d: seq<T>)
    requires IsSubsequence(a, b) && IsSubsequence(c, d)
    ensures IsSubsequence(a + c, b + d)
    decreases |b|
  {
    if b == [] {
      assert a + c == c && b + d == d;
    } else {
      assert (b + d)[0] == b[0] && (b + d)[1..] == b[1..] + d;
      if a == [] {
        SubsequenceConcat([], b[1..], c, d);
        assert a + c == c && [] + c == c;
      } else if a[0] == b[0] && IsSubsequence(a[1..], b[1..]) {
        SubsequenceConcat(a[1..], b[1..], c, d);
        assert (a + c)[1..] == a[1..] + c;
      } else {
        SubsequenceConcat(a, b[1..], c, d);
      }
    }
  }

  /** The same tree with every directory open. */
  function OpenAll(nodes: seq<TreeNode>): seq<TreeNode>
    decreases nodes
  {
    if nodes == [] then []
    else [match nodes[0]
          case Dir(name, children, _) => Dir(name, OpenAll(children), true)
          case File(_, _) => nodes[0]] + OpenAll(nodes[1..])
  }

  /** A row without the mark that says whether its directory is open. */
  function Shapes(rows: seq<TreeRow>): (shapes: seq<TreeRow>)
    ensures |shapes| == |rows|
  {
    seq(|rows|, i requires 0 <= i < |rows| => rows[i].(expanded := false))
  }

  lemma ShapesConcat(a: seq<TreeRow>, b: seq<TreeRow>)
    ensures Shapes(a + b) == Shapes(a) + Shapes(b)
  {
  }

  /** Whatever is collapsed, the visible rows are a subsequence of the rows of the open tree, up to
      the open mark. */
  lemma {:induction false} VisibleIsSubsequence(nodes: seq<TreeNode>, depth: nat)
    ensures IsSubsequence(Shapes(Rows(nodes, depth)), Shapes(Rows(OpenAll(nodes), depth)))
    decreases nodes
  {
    if nodes != [] {
      var node, open := nodes[0], OpenAll(nodes)[0];
      assert OpenAll(nodes)[1..] == OpenAll(nodes[1..]);
      VisibleIsSubsequence(nodes[1..], depth);
      ShapesConcat(NodeRows(node, depth), Rows(nodes[1..], depth));
      ShapesConcat(NodeRows(open, depth), Rows(OpenAll(nodes[1..]), depth));
      if node.Dir? {
        VisibleIsSubsequence(node.children, depth + 1);
        DirIsSubsequence(node, depth);
      } else {
        assert IsSubsequence([], Shapes(NodeRows(open, depth))[1..]);
      }
      SubsequenceConcat(Shapes(NodeRows(node, depth)), Shapes(NodeRows(open, depth)),
                        Shapes(Rows(nodes[1..], depth)), Shapes(Rows(OpenAll(nodes[1..]), depth)));
    }
  }

  lemma DirIsSubsequence(node: TreeNode, depth: nat)
    requires node.Dir?
    requires IsSubsequence(Shapes(Rows(node.children, depth + 1)), Shapes(Rows(OpenAll(node.children), depth + 1)))
    ensures IsSubsequence(Shapes(NodeRows(node, depth)),
                          Shapes(NodeRows(Dir(node.name, OpenAll(node.children), true), depth)))
  {
    var below, all := Rows(node.children, depth + 1), Rows(OpenAll(node.children), depth + 1);
    var head := TreeRow(depth, node.name, true, false, None);
    var shown := Shapes(NodeRows(node, depth));
    var full := Shapes(NodeRows(Dir(node.name, OpenAll(node.children), true), depth));
    assert full == [head] + Shapes(all) && full[1..] == Shapes(all);
    assert shown == [head] + (if node.expanded then Shapes(below) else []);
    assert shown[1..] == if node.expanded then Shapes(below) else [];
  }
}
