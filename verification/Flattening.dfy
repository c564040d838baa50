/** Flattening an archive whose files all lie in one directory (`src/archive.rs:171-196`). */
module Flattening {
  import opened Archive
  import opened Paths
  import opened Trees

  function Tops(tree: Tree): set<Path> { set p | p in tree && |p| == 1 }

  /** There is nothing at the top but the directory `d`. */
  predicate Single(tree: Tree, d: string) { Tops(tree) == {[d]} && tree[[d]].Dir? }

  /** What is inside `d`, one level up. */
  function Inner(tree: Tree, d: string): Tree {
    assert forall p :: p in tree && |p| > 1 && p[0] == d ==> [d] + p[1..] == p;
    map q | q in (set p | p in tree && |p| > 1 && p[0] == d :: p[1..]) :: tree[[d] + q]
  }

  /** Where a path is once the children `names` of `d` have been moved up. */
  function Relocated(d: string, names: set<string>, p: Path): Path {
    if |p| > 1 && p[0] == d && p[1] in names then p[1..] else p
  }

  function Origin(d: string, names: set<string>, q: Path): Path {
    if |q| > 0 && q[0] in names then [d] + q else q
  }

  lemma {:induction false} TopOfAll(tree: Tree, d: string, p: Path)
    requires IsTree(tree) && Single(tree, d) && p in tree
    ensures |p| > 0 && p[0] == d
    decreases |p|
  {
    assert Placed(tree, p);
    if |p| == 1 {
      assert p in Tops(tree);
    } else {
      TopOfAll(tree, d, p[..|p| - 1]);
    }
  }

  lemma OriginOfRelocated(tree: Tree, d: string, names: set<string>)
    requires IsTree(tree) && Single(tree, d) && d !in names
    ensures forall p :: p in tree ==> Origin(d, names, Relocated(d, names, p)) == p
  {
    forall p | p in tree ensures Origin(d, names, Relocated(d, names, p)) == p {
      TopOfAll(tree, d, p);
    }
  }

  /** `after` holds what `tree` holds, at places given by `place`, and nothing else. */
  ghost predicate Image(after: Tree, tree: Tree, place: Path -> Path) {
    && (forall p {:trigger place(p)} :: p in tree ==> place(p) in after && after[place(p)] == tree[p])
    && (forall q {:trigger Holds(after, q)} :: Holds(after, q) ==> exists p :: p in tree && q == place(p))
  }

  predicate Holds(tree: Tree, p: Path) { p in tree }

  /** The children `names` of `d` have been moved up: nothing is lost or changed, each path of the
      tree has its node at its new place, and there is nothing else. */
  ghost predicate MovedUp(tree: Tree, d: string, names: set<string>, after: Tree) {
    Image(after, tree, p => Relocated(d, names, p))
  }

  lemma StillThere(tree: Tree, d: string, names: set<string>, now: Tree, p: Path)
    requires MovedUp(tree, d, names, now) && p in tree
    ensures Relocated(d, names, p) in now && now[Relocated(d, names, p)] == tree[p]
  {
    var place := (p: Path) => Relocated(d, names, p);
    assert Image(now, tree, place) && place(p) == Relocated(d, names, p);
  }

  /** Nothing is merged: different paths have different places. */
  lemma MovingConserves(tree: Tree, d: string, names: set<string>)
    requires IsTree(tree) && Single(tree, d) && d !in names
    ensures forall p, q :: p in tree && q in tree && Relocated(d, names, p) == Relocated(d, names, q) ==> p == q
  {
    OriginOfRelocated(tree, d, names);
    forall p, q | p in tree && q in tree && Relocated(d, names, p) == Relocated(d, names, q) ensures p == q {
      assert p == Origin(d, names, Relocated(d, names, p));
    }
  }

  lemma SameImage(a: Tree, b: Tree, tree: Tree, f: Path -> Path, g: Path -> Path)
    requires Image(a, tree, f) && Image(b, tree, g) && forall p :: p in tree ==> f(p) == g(p)
    ensures a == b
  {
    forall q | q in a ensures q in b && a[q] == b[q] {
      assert Holds(a, q);
      var p :| p in tree && q == f(p);
      assert g(p) in b;
    }
    forall q | q in b ensures q in a {
      assert Holds(b, q);
      var p :| p in tree && q == g(p);
      assert f(p) in a;
    }
  }

  lemma ImageOfImage(a: Tree, b: Tree, c: Tree, f: Path -> Path, g: Path -> Path, h: Path -> Path)
    requires Image(b, a, f) && Image(c, b, g) && forall p :: p in a ==> h(p) == g(f(p))
    ensures Image(c, a, h)
  {
    forall p | p in a ensures h(p) in c && c[h(p)] == a[p] {
      assert f(p) in b;
    }
    forall q | q in c ensures exists p :: p in a && q == h(p) {
      assert Holds(c, q);
      var r :| r in b && q == g(r);
      assert Holds(b, r);
      var p :| p in a && r == f(p);
      assert q == h(p);
    }
  }

  predicate Free(tree: Tree, at: Path) { forall p :: p in tree ==> !(at <= p) }

  /** Renaming moves everything below `from` to the same place below `to`. */
  function Rebased(from: Path, to: Path, p: Path): Path { if from <= p then to + p[|from|..] else p }

  function Renamed(tree: Tree, from: Path, to: Path): Tree
    requires Free(tree, to)
  {
    assert forall p :: p in tree && from <= p ==> from + (to + p[|from|..])[|to|..] == p;
    map q | q in (set p | p in tree :: Rebased(from, to, p)) ::
      if to <= q then tree[from + q[|to|..]] else tree[q]
  }

  lemma MovedStaysFree(tree: Tree, d: string, names: set<string>, now: Tree, c: string)
    requires IsTree(tree) && Single(tree, d) && MovedUp(tree, d, names, now)
    requires c !in names && c != d
    ensures Free(now, [c])
  {
    forall q | q in now ensures !([c] <= q) {
      assert Holds(now, q);
      var p :| p in tree && q == Relocated(d, names, p);
      TopOfAll(tree, d, p);
    }
  }

  lemma RenamingConserves(tree: Tree, from: Path, to: Path)
    requires Free(tree, to)
    ensures Image(Renamed(tree, from, to), tree, p => Rebased(from, to, p))
  {
    assert forall p :: p in tree && from <= p ==> from + (to + p[|from|..])[|to|..] == p;
  }

  /** Moving one more child up. */
  lemma RenamingMovesOne(tree: Tree, d: string, names: set<string>, now: Tree, c: string)
    requires IsTree(tree) && Single(tree, d) && MovedUp(tree, d, names, now)
    requires d !in names && c !in names && c != d
    ensures Free(now, [c])
    ensures MovedUp(tree, d, names + {c}, Renamed(now, [d, c], [c]))
  {
    MovedStaysFree(tree, d, names, now, c);
    RenamingConserves(now, [d, c], [c]);
    var h := (p: Path) => Relocated(d, names + {c}, p);
    forall p | p in tree ensures h(p) == Rebased([d, c], [c], Relocated(d, names, p)) {
      OneRelocation(tree, d, names, c, p);
    }
    ImageOfImage(
      tree, now, Renamed(now, [d, c], [c]), p => Relocated(d, names, p), p => Rebased([d, c], [c], p), h);
  }

  lemma OneRelocation(tree: Tree, d: string, names: set<string>, c: string, p: Path)
    requires IsTree(tree) && Single(tree, d) && d !in names && c !in names && c != d && p in tree
    ensures Rebased([d, c], [c], Relocated(d, names, p)) == Relocated(d, names + {c}, p)
  {
    TopOfAll(tree, d, p);
    if |p| > 1 && p[1] == c {
      assert [d, c] <= p;
      assert [c] + p[2..] == p[1..];
    }
  }

  function Children(tree: Tree, d: string): set<string> { set p | p in tree && |p| == 2 && p[0] == d :: p[1] }

  lemma {:induction false} ChildOfAll(tree: Tree, d: string, p: Path)
    requires IsTree(tree) && p in tree && |p| > 1 && p[0] == d
    ensures p[1] in Children(tree, d)
  {
    if |p| == 2 {
      assert p in tree;
    } else {
      assert Placed(tree, p);
      ChildOfAll(tree, d, p[..|p| - 1]);
    }
  }

  lemma BelowTop(tree: Tree, d: string, p: Path)
    requires IsTree(tree) && Single(tree, d) && p in tree
    ensures p == [d] || (|p| > 1 && p[0] == d)
  {
    TopOfAll(tree, d, p);
    assert |p| == 1 ==> p == [p[0]];
  }

  lemma InnerConserves(tree: Tree, d: string)
    requires IsTree(tree) && Single(tree, d)
    ensures Image(Inner(tree, d), tree - {[d]}, p => Relocated(d, Children(tree, d), p))
  {
    var rest, names := tree - {[d]}, Children(tree, d);
    forall p | p in rest ensures |p| > 1 && p[0] == d && Relocated(d, names, p) == p[1..] && [d] + p[1..] == p {
      BelowTop(tree, d, p);
      ChildOfAll(tree, d, p);
    }
    forall q | q in Inner(tree, d) ensures exists p :: p in rest && q == Relocated(d, names, p) {
      var p :| p in tree && |p| > 1 && p[0] == d && q == p[1..];
      assert p in rest;
    }
  }

  lemma MovedRestConserves(tree: Tree, d: string, names: set<string>, now: Tree)
    requires IsTree(tree) && Single(tree, d) && d !in names && MovedUp(tree, d, names, now)
    ensures Image(now - {[d]}, tree - {[d]}, p => Relocated(d, names, p))
  {
    MovingConserves(tree, d, names);
    assert [d] in Tops(tree) && Relocated(d, names, [d]) == [d];
    var rest, after := tree - {[d]}, now - {[d]};
    forall q | q in after ensures exists p :: p in rest && q == Relocated(d, names, p) {
      assert Holds(now, q);
      var p :| p in tree && q == Relocated(d, names, p);
      assert p in rest;
    }
  }

  /** When all children have moved, their directory is empty, and the rest is its inside. */
  lemma AllMoved(tree: Tree, d: string, now: Tree)
    requires IsTree(tree) && Single(tree, d) && d !in Children(tree, d)
    requires MovedUp(tree, d, Children(tree, d), now)
    ensures now - {[d]} == Inner(tree, d)
  {
    var names := Children(tree, d);
    InnerConserves(tree, d);
    MovedRestConserves(tree, d, names, now);
    var place := (p: Path) => Relocated(d, names, p);
    SameImage(now - {[d]}, Inner(tree, d), tree - {[d]}, place, place);
  }

  lemma InnerIsTree(tree: Tree, d: string)
    requires IsTree(tree) && Single(tree, d)
    ensures IsTree(Inner(tree, d))
  {
    forall q | q in Inner(tree, d) ensures Placed(Inner(tree, d), q) {
      var p :| p in tree && |p| > 1 && p[0] == d && q == p[1..];
      assert Placed(tree, p);
      var parent := p[..|p| - 1];
      assert parent[1..] == q[..|q| - 1] && [d] + parent[1..] == parent;
      assert |q| > 1 ==> parent in tree && |parent| > 1 && parent[0] == d;
    }
  }

  /** Where flattening may stop: some children have moved, and nothing else has changed. */
  ghost predicate PartlyMoved(tree: Tree, after: Tree) { exists d, names :: SomeMoved(tree, d, names, after) }

  ghost predicate SomeMoved(tree: Tree, d: string, names: set<string>, after: Tree) {
    Single(tree, d) && d !in names && names <= Children(tree, d) && MovedUp(tree, d, names, after)
  }

  class Folder {
    /** Whether the disk can be relied on. */
    const reliable: bool
    var tree: Tree

    constructor (tree: Tree, reliable: bool)
      ensures this.tree == tree && this.reliable == reliable
    {
      this.tree, this.reliable := tree, reliable;
    }

    /** `flatten_single_directory`. Apart from failures of the disk it is refused exactly when the one
        directory has a child of its own name, and then nothing is lost. */
    method FlattenSingleDirectory() returns (outcome: Outcome)
      requires IsTree(tree)
      modifies this
      ensures reliable ==> outcome != Failed
      ensures outcome == Done ==> forall d :: Single(old(tree), d) ==>
        [d, d] !in old(tree) && tree == Inner(old(tree), d)
      ensures outcome == Done && (forall d :: !Single(old(tree), d)) ==> tree == old(tree)
      ensures outcome == Refused ==> exists d :: Single(old(tree), d) && [d, d] in old(tree)
      ensures outcome != Done ==> PartlyMoved(old(tree), tree) || tree == old(tree)
    {
      var fails: bool := *;
      if fails && !reliable { return Failed; }
      var tops := Tops(tree);
      if tops == {} { return Done; }
      var top :| top in tops;
      OneTop(tree, top);
      if tops != {top} || !tree[top].Dir? { return Done; }
      assert Single(tree, top[0]);
      outcome := MoveChildren(top[0]);
    }

    method MoveChildren(d: string) returns (outcome: Outcome)
      requires IsTree(tree) && Single(tree, d)
      modifies this
      ensures reliable ==> outcome != Failed
      ensures outcome == Done ==> [d, d] !in old(tree) && tree == Inner(old(tree), d)
      ensures outcome == Refused ==> [d, d] in old(tree)
      ensures outcome != Done ==> PartlyMoved(old(tree), tree)
    {
      var left := Children(tree, d);
      NoneMoved(tree, d);
      outcome := Done;
      while left != {}
        invariant Underway(old(tree), d, left, tree) && outcome == Done
        decreases left
      {
        var c :| c in left;
        outcome := MoveChild(d, c, old(tree), left);
        if outcome != Done {
          UnderwayIsPartly(old(tree), d, left, tree);
          return;
        }
        left := left - {c};
      }
      UnderwayIsPartly(old(tree), d, {}, tree);
      var fails: bool := *;
      if fails && !reliable { return Failed; }
      NothingLeft(old(tree), d, tree);
      tree := tree - {[d]};
    }

    method MoveChild(d: string, c: string, ghost before: Tree, ghost left: set<string>) returns (outcome: Outcome)
      requires IsTree(before) && Single(before, d) && Underway(before, d, left, tree) && c in left
      modifies this
      ensures reliable ==> outcome != Failed
      ensures outcome == Done ==> Underway(before, d, left - {c}, tree)
      ensures outcome == Refused ==> [d, d] in before
      ensures outcome != Done ==> tree == old(tree)
    {
      ghost var moved :| Moving(before, d, moved, left, tree);
      var fails: bool := *;
      if fails && !reliable { return Failed; }
      TargetTaken(before, d, moved, tree, c);
      if [c] in tree { return Refused; }
      RenamingMovesOne(before, d, moved, tree, c);
      tree := Renamed(tree, [d, c], [c]);
      OneMoreMoved(before, d, moved, left, tree, c);
      outcome := Done;
    }
  }

  lemma OneMoreMoved(before: Tree, d: string, moved: set<string>, left: set<string>, tree: Tree, c: string)
    requires Counts(before, d, moved, left) && c in left && c != d && MovedUp(before, d, moved + {c}, tree)
    ensures Underway(before, d, left - {c}, tree)
  {
    assert Moving(before, d, moved + {c}, left - {c}, tree);
  }

  lemma UnderwayIsPartly(before: Tree, d: string, left: set<string>, tree: Tree)
    requires Single(before, d) && Underway(before, d, left, tree)
    ensures PartlyMoved(before, tree)
  {
    var moved :| Moving(before, d, moved, left, tree);
    assert SomeMoved(before, d, moved, tree);
  }

  lemma OneTop(tree: Tree, top: Path)
    requires top in Tops(tree)
    ensures top == [top[0]]
    ensures forall d :: Single(tree, d) ==> Tops(tree) == {top} && tree[top].Dir? && d == top[0]
  {
    forall d | Single(tree, d) ensures [d] == top {
      assert [d] in Tops(tree);
    }
  }

  ghost predicate Counts(before: Tree, d: string, moved: set<string>, left: set<string>) {
    && (forall c :: c in Children(before, d) <==> c in moved || c in left)
    && (forall c :: c in moved ==> c !in left)
    && d !in moved
  }

  ghost predicate Moving(before: Tree, d: string, moved: set<string>, left: set<string>, tree: Tree) {
    Counts(before, d, moved, left) && MovedUp(before, d, moved, tree)
  }

  ghost predicate Underway(before: Tree, d: string, left: set<string>, tree: Tree) {
    exists moved :: Moving(before, d, moved, left, tree)
  }

  lemma NothingLeft(before: Tree, d: string, tree: Tree)
    requires IsTree(before) && Single(before, d) && Underway(before, d, {}, tree)
    ensures [d, d] !in before && tree - {[d]} == Inner(before, d)
  {
    var moved :| Moving(before, d, moved, {}, tree);
    assert moved == Children(before, d);
    ChildOfOwnName(before, d);
    AllMoved(before, d, tree);
  }

  lemma NoneMoved(tree: Tree, d: string)
    ensures Underway(tree, d, Children(tree, d), tree)
  {
    forall q | q in tree ensures exists p :: p in tree && q == Relocated(d, {}, p) {
      assert q == Relocated(d, {}, q);
    }
    assert Moving(tree, d, {}, Children(tree, d), tree);
  }

  lemma ChildOfOwnName(tree: Tree, d: string)
    ensures d in Children(tree, d) <==> [d, d] in tree
  {
    var own := [d, d];
    assert own[1] == d;
    forall p | p in tree && |p| == 2 && p[0] == d && p[1] == d ensures p == own {
    }
  }

  /** A name is taken only by the directory that is being emptied. */
  lemma TargetTaken(tree: Tree, d: string, names: set<string>, now: Tree, c: string)
    requires IsTree(tree) && Single(tree, d) && MovedUp(tree, d, names, now)
    requires d !in names && c !in names && c in Children(tree, d)
    ensures [c] in now <==> c == d
    ensures c == d ==> [d, d] in tree
  {
    assert [d] in Tops(tree) && Relocated(d, names, [d]) == [d];
    StillThere(tree, d, names, now, [d]);
    if c != d { MovedStaysFree(tree, d, names, now, c); }
    ChildOfOwnName(tree, d);
  }

  /** Wherever flattening stops, everything is still there, once. */
  lemma FlatteningLosesNothing(tree: Tree, after: Tree)
    requires IsTree(tree) && PartlyMoved(tree, after)
    ensures exists place: Path -> Path ::
      && Image(after, tree, place)
      && forall p, q :: p in tree && q in tree && place(p) == place(q) ==> p == q
  {
    var d, names :| SomeMoved(tree, d, names, after);
    MovingConserves(tree, d, names);
    var place := (p: Path) => Relocated(d, names, p);
    assert Image(after, tree, place);
  }
}
