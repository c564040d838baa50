/** A directory tree as the agent sees it: everything below a root, by relative path. */
module Trees {
  import opened Ordering
  import opened Paths
  import opened Totals

  /** A symbolic link, socket or the like is special. */
  datatype Node = File(content: string, executable: bool) | Dir | Special

  type Tree = map<Path, Node>

  predicate IsDirectory(tree: Tree, p: Path) { p == [] || (p in tree && tree[p].Dir?) }

  predicate Placed(tree: Tree, p: Path) { p != [] && IsPath(p) && IsDirectory(tree, p[..|p| - 1]) }

  /** Everything lies in a directory of the tree, or directly below the root. */
  predicate IsTree(tree: Tree) {
    forall p {:trigger Placed(tree, p)} :: p in tree ==> Placed(tree, p)
  }

  lemma {:induction false} AncestorsAreDirectories(tree: Tree, p: Path, n: nat)
    requires IsTree(tree) && p in tree && n < |p|
    ensures IsDirectory(tree, p[..n])
  {
    assert Placed(tree, p);
    if n + 1 < |p| {
      var parent := p[..|p| - 1];
      AncestorsAreDirectories(tree, parent, n);
      assert parent[..n] == p[..n];
    }
  }

  /** What was there is still there. */
  predicate Keeps(before: Tree, after: Tree) {
    forall p :: p in before ==> p in after && after[p] == before[p]
  }

  function NodeSize(node: Node): nat { if node.File? then |node.content| else 0 }

  /** The bytes of all files. */
  ghost function Weight(tree: Tree): nat { Total(tree, NodeSize) }

  function Directories(tree: Tree): set<Path> { set p | p in tree && tree[p].Dir? }

  /** The order in which a sorted walk meets the paths: a directory before what is in it. */
  ghost function Walk(tree: Tree): (paths: seq<Path>)
    ensures Sorted(PathLess, paths) && Elements(paths) == tree.Keys
  {
    PathTotal();
    Listing(PathLess, tree.Keys)
  }

  lemma {:induction false} PrefixBefore<T(!new)>(less: (T, T) -> bool, p: seq<T>, n: nat)
    requires StrictTotal(less) && n < |p|
    ensures Before(less, p[..n], p)
  {
    if n > 0 { PrefixBefore(less, p[1..], n - 1); }
    assert n > 0 ==> p[..n][1..] == p[1..][..n - 1];
  }

  /** A walk meets a directory before what is in it. */
  lemma WalkMeetsParentsFirst(tree: Tree, i: nat, n: nat)
    requires IsTree(tree) && i < |Walk(tree)| && 0 < n < |Walk(tree)[i]|
    ensures exists j :: 0 <= j < i && Walk(tree)[j] == Walk(tree)[i][..n]
  {
    var paths := Walk(tree);
    var p := paths[i];
    assert p in Elements(paths);
    AncestorsAreDirectories(tree, p, n);
    assert p[..n] in Elements(paths);
    var j :| 0 <= j < |paths| && paths[j] == p[..n];
    PathTotal();
    TextTotal();
    PrefixBefore(TextLess, p, n);
    SortedPosition(PathLess, paths, j, i);
  }

  lemma SortedPosition<T(!new)>(less: (T, T) -> bool, xs: seq<T>, j: nat, i: nat)
    requires StrictTotal(less) && Sorted(less, xs) && i < |xs| && j < |xs| && less(xs[j], xs[i])
    ensures j < i
  {
  }

  lemma {:induction false} SubsetSize<T>(a: set<T>, b: set<T>)
    requires a <= b
    ensures |a| <= |b|
    decreases a
  {
    if x :| x in a {
      SubsetSize(a - {x}, b - {x});
    }
  }

  lemma {:induction false} SubtreeWeight(part: Tree, whole: Tree)
    requires Keeps(part, whole)
    ensures Weight(part) <= Weight(whole)
    decreases part
  {
    if p :| p in part {
      TotalSplits(part, NodeSize, p);
      TotalSplits(whole, NodeSize, p);
      SubtreeWeight(part - {p}, whole - {p});
    }
  }
}
