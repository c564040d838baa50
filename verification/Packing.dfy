/** Packing a snapshot, and why extraction undoes it (`src/archive.rs:238-339`). */
module Packing {
  import opened Archive
  import opened Ordering
  import opened Paths
  import opened Totals
  import opened Trees

  predicate Reserved(name: string) { name == "secrets" || name == "tmp" }

  /** `is_excluded`: `secrets` and `tmp` at the top. */
  predicate IsExcluded(p: Path) { |p| > 0 && Reserved(p[0]) }

  function Kept(tree: Tree): Tree { map p | p in tree && !IsExcluded(p) :: tree[p] }

  function EntryFor(p: Path, node: Node): Entry {
    if node.File? then Entry(Join(p), Regular, |node.content|, node.executable, node.content)
    else Entry(Join(p), Directory, 0, true, "")
  }

  ghost function EntriesOf(tree: Tree): (archive: seq<Entry>)
    ensures |archive| == |Walk(tree)|
  {
    var paths := Walk(tree);
    assert forall i :: 0 <= i < |paths| ==> paths[i] in Elements(paths);
    seq(|paths|, i requires 0 <= i < |paths| => EntryFor(paths[i], tree[paths[i]]))
  }

  predicate Fits(p: Path, node: Node) {
    && |Join(p)| <= MAX_ARCHIVE_PATH_BYTES && |p| <= MAX_ARCHIVE_PATH_DEPTH
    && !node.Special? && NodeSize(node) <= MAX_ARCHIVE_FILE_BYTES
  }

  /** What fits into a snapshot. */
  ghost predicate Packable(tree: Tree) {
    && |tree| <= MAX_ARCHIVE_ENTRIES && |Directories(tree)| <= MAX_ARCHIVE_DIRECTORIES
    && Weight(tree) <= MAX_SNAPSHOT_SOURCE_BYTES
    && forall p {:trigger Fits(p, tree[p])} :: p in tree ==> Fits(p, tree[p])
  }

  lemma PackablePart(part: Tree, whole: Tree)
    requires Keeps(part, whole) && Packable(whole)
    ensures Packable(part)
  {
    SubsetSize(part.Keys, whole.Keys);
    SubsetSize(Directories(part), Directories(whole));
    SubtreeWeight(part, whole);
  }

  lemma DirectoriesOneMore(done: Tree, p: Path, node: Node)
    requires p !in done
    ensures Directories(done[p := node]) == Counting(Directories(done), p, node)
  {
  }

  function Counting(directories: set<Path>, p: Path, node: Node): set<Path> {
    if node.Dir? then directories + {p} else directories
  }

  lemma CountsOneMore(done: Tree, p: Path, node: Node)
    requires p !in done
    ensures Weight(done[p := node]) == Weight(done) + NodeSize(node)
    ensures |done[p := node]| == |done| + 1
  {
    TotalGrows(done, NodeSize, p, node);
  }

  predicate FitsToo(p: Path, node: Node, entries: nat, directories: nat, bytes: nat) {
    && entries <= MAX_ARCHIVE_ENTRIES && Fits(p, node)
    && (node.Dir? ==> directories <= MAX_ARCHIVE_DIRECTORIES)
    && (node.File? ==> bytes <= MAX_SNAPSHOT_SOURCE_BYTES)
  }

  lemma PackableOneMore(done: Tree, p: Path, node: Node)
    requires p !in done && Packable(done)
    ensures
      var more := done[p := node];
      Packable(more) <==> FitsToo(p, node, |more|, |Directories(more)|, Weight(more))
  {
    CountsOneMore(done, p, node);
    DirectoriesOneMore(done, p, node);
    var more := done[p := node];
    assert more[p] == node && forall q :: q in done ==> q in more;
    assert !node.Dir? ==> Directories(more) == Directories(done);
    if FitsToo(p, node, |more|, |Directories(more)|, Weight(more)) {
      forall q | q in more ensures Fits(q, more[q]) {
      }
    }
  }

  lemma KeptIsTree(tree: Tree)
    requires IsTree(tree)
    ensures IsTree(Kept(tree))
  {
    forall p | p in Kept(tree) ensures Placed(Kept(tree), p) {
      assert Placed(tree, p);
      var parent := p[..|p| - 1];
      assert parent != [] ==> parent[0] == p[0];
    }
  }

  /** What the loop of `pack_tar_gz_into` has counted when it has packed `done`. */
  ghost predicate Packed(tree: Tree, done: Tree, directories: set<Path>, bytes: nat) {
    Keeps(done, tree) && Packable(done) && directories == Directories(done) && bytes == Weight(done)
  }

  lemma NothingPacked(tree: Tree)
    ensures Packed(tree, map[], {}, 0)
  {
    assert Directories(map[]) == {};
  }

  lemma PackedNext(tree: Tree, done: Tree, p: Path)
    requires p in tree && p !in done
    requires Packed(tree, done, Directories(done), Weight(done))
    ensures
      var directories, bytes := Counting(Directories(done), p, tree[p]), Weight(done) + NodeSize(tree[p]);
      if FitsToo(p, tree[p], |done| + 1, |directories|, bytes)
      then Packed(tree, done[p := tree[p]], directories, bytes)
      else !Packable(tree)
  {
    CountsOneMore(done, p, tree[p]);
    DirectoriesOneMore(done, p, tree[p]);
    PackableOneMore(done, p, tree[p]);
    if Packable(tree) { PackablePart(done[p := tree[p]], tree); }
  }

  /** The first paths of a walk. */
  ghost function Passed(paths: seq<Path>, i: nat): set<Path>
    requires i <= |paths|
  {
    if i == 0 then {} else Passed(paths, i - 1) + {paths[i - 1]}
  }

  lemma {:induction false} PassedElements(paths: seq<Path>, i: nat)
    requires i <= |paths|
    ensures Passed(paths, i) == Elements(paths[..i])
  {
    if i > 0 {
      PassedElements(paths, i - 1);
      assert paths[..i] == paths[..i - 1] + [paths[i - 1]];
    }
  }

  ghost predicate Turn(tree: Tree, paths: seq<Path>, i: nat)
    requires i < |paths|
  {
    paths[i] in tree && IsPath(paths[i]) && paths[i] !in Passed(paths, i)
  }

  ghost predicate Turns(tree: Tree, paths: seq<Path>) {
    forall i: nat {:trigger Turn(tree, paths, i)} :: i < |paths| ==> Turn(tree, paths, i)
  }

  lemma WalkTakesTurns(tree: Tree)
    requires IsTree(tree)
    ensures Turns(tree, Walk(tree)) && Passed(Walk(tree), |Walk(tree)|) == tree.Keys
  {
    var paths := Walk(tree);
    PathTotal();
    PassedElements(paths, |paths|);
    assert paths[..|paths|] == paths;
    forall i: nat | i < |paths| ensures Turn(tree, paths, i) {
      PassedElements(paths, i);
      assert paths[i] in Elements(paths);
      assert Placed(tree, paths[i]);
    }
  }

  ghost predicate Describes(tree: Tree, paths: seq<Path>, archive: seq<Entry>, i: nat) {
    && i < |paths| && i < |archive|
    && paths[i] in tree && archive[i] == EntryFor(paths[i], tree[paths[i]])
  }

  ghost predicate Archived(tree: Tree, paths: seq<Path>, archive: seq<Entry>) {
    forall i: nat {:trigger Describes(tree, paths, archive, i)} :: i < |archive| ==> Describes(tree, paths, archive, i)
  }

  lemma ArchivedNext(tree: Tree, paths: seq<Path>, archive: seq<Entry>)
    requires Archived(tree, paths, archive) && |archive| < |paths| && paths[|archive|] in tree
    ensures Archived(tree, paths, archive + [EntryFor(paths[|archive|], tree[paths[|archive|]])])
  {
    var more := archive + [EntryFor(paths[|archive|], tree[paths[|archive|]])];
    forall i: nat | i < |more| ensures Describes(tree, paths, more, i) {
      assert i < |archive| ==> Describes(tree, paths, archive, i);
    }
  }

  lemma ArchivedAll(tree: Tree, archive: seq<Entry>)
    requires Archived(tree, Walk(tree), archive) && |archive| == |Walk(tree)|
    ensures archive == EntriesOf(tree)
  {
    forall i: nat | i < |archive| ensures archive[i] == EntriesOf(tree)[i] {
      assert Describes(tree, Walk(tree), archive, i);
    }
  }

  /** `pack_tar_gz_into`: one entry for everything kept, in walking order, as long as it fits, and as
      long as the output, of the size that gzip makes of it, stays within its limit. */
  method Pack(tree: Tree, gzip: seq<Entry> -> nat, reliable: bool) returns (outcome: Outcome, archive: seq<Entry>)
    requires IsTree(tree)
    ensures reliable ==> outcome != Failed
    ensures outcome == Done ==>
      Packable(Kept(tree)) && archive == EntriesOf(Kept(tree)) && gzip(archive) <= MAX_SNAPSHOT_BYTES
    ensures outcome == Refused ==> !Packable(Kept(tree)) || gzip(EntriesOf(Kept(tree))) > MAX_SNAPSHOT_BYTES
  {
    var kept := Kept(tree);
    PathTotal();
    var paths := Sort(PathLess, kept.Keys);
    SortedUnique(PathLess, paths, Walk(kept));
    KeptIsTree(tree);
    WalkTakesTurns(kept);
    outcome, archive := PackWalk(kept, paths, reliable);
    if outcome == Done {
      ArchivedAll(kept, archive);
      if gzip(archive) > MAX_SNAPSHOT_BYTES { outcome := Refused; }
    }
  }

  method PackWalk(tree: Tree, paths: seq<Path>, reliable: bool) returns (outcome: Outcome, archive: seq<Entry>)
    requires Turns(tree, paths) && Passed(paths, |paths|) == tree.Keys
    ensures reliable ==> outcome != Failed
    ensures outcome == Done ==> Packable(tree) && |archive| == |paths| && Archived(tree, paths, archive)
    ensures outcome == Refused ==> !Packable(tree)
  {
    archive := [];
    var directories: set<Path>, sourceBytes: nat := {}, 0;
    ghost var done: Tree := map[];
    NothingPacked(tree);
    outcome := Done;
    for i := 0 to |paths|
      invariant Underway(tree, paths, i, done, directories, sourceBytes, archive) && outcome == Done
    {
      outcome, directories, sourceBytes, archive, done :=
        PackTurn(tree, paths, i, directories, sourceBytes, archive, reliable, done);
      if outcome != Done { return; }
    }
    AllPacked(tree, paths, done, directories, sourceBytes, archive);
  }

  method PackTurn(
    tree: Tree, paths: seq<Path>, i: nat, directories: set<Path>, bytes: nat, archive: seq<Entry>, reliable: bool,
    ghost done: Tree)
    returns (outcome: Outcome, directories': set<Path>, bytes': nat, archive': seq<Entry>, ghost done': Tree)
    requires Turns(tree, paths) && i < |paths| && Underway(tree, paths, i, done, directories, bytes, archive)
    ensures reliable ==> outcome != Failed
    ensures outcome == Done ==> Underway(tree, paths, i + 1, done', directories', bytes', archive')
    ensures outcome == Refused ==> !Packable(tree)
  {
    assert Turn(tree, paths, i);
    ArchivedNext(tree, paths, archive);
    var p := paths[i];
    done', archive' := done[p := tree[p]], archive + [EntryFor(p, tree[p])];
    outcome, directories', bytes' := PackNext(tree, p, i + 1, directories, bytes, reliable, done);
  }

  ghost predicate Underway(
    tree: Tree, paths: seq<Path>, i: nat, done: Tree, directories: set<Path>, bytes: nat, archive: seq<Entry>)
    requires i <= |paths|
  {
    && Packed(tree, done, directories, bytes) && done.Keys == Passed(paths, i) && |done| == i == |archive|
    && Archived(tree, paths, archive)
  }

  lemma AllPacked(
    tree: Tree, paths: seq<Path>, done: Tree, directories: set<Path>, bytes: nat, archive: seq<Entry>)
    requires Passed(paths, |paths|) == tree.Keys
    requires Underway(tree, paths, |paths|, done, directories, bytes, archive)
    ensures Packable(tree)
  {
    assert done == tree;
  }

  method PackNext(
    tree: Tree, p: Path, entries: nat, directories: set<Path>, bytes: nat, reliable: bool, ghost done: Tree)
    returns (outcome: Outcome, directories': set<Path>, bytes': nat)
    requires p in tree && p !in done && IsPath(p) && entries == |done| + 1
    requires Packed(tree, done, directories, bytes)
    ensures reliable ==> outcome != Failed
    ensures outcome == Done ==> Packed(tree, done[p := tree[p]], directories', bytes')
    ensures outcome == Refused ==> !Packable(tree)
  {
    PackedNext(tree, done, p);
    directories', bytes' := Counting(directories, p, tree[p]), bytes + NodeSize(tree[p]);
    var fails: bool := *;
    if fails && !reliable { return Failed, directories', bytes'; }
    var fitting := PackNode(p, tree[p], entries, |directories'|, bytes');
    outcome := if fitting then Done else Refused;
  }

  /** The checks on one path; the counts include it already. */
  method PackNode(p: Path, node: Node, entries: nat, directories: nat, sourceBytes: nat) returns (fits: bool)
    requires IsPath(p)
    ensures fits <==> FitsToo(p, node, entries, directories, sourceBytes)
  {
    if entries > MAX_ARCHIVE_ENTRIES { return false; }
    JoinedPathReadsBack(p);
    var path := ValidateEntryPath(Join(p));
    if path.None? { return false; }
    match node
    case Special => fits := false;
    case Dir => fits := directories <= MAX_ARCHIVE_DIRECTORIES;
    case File(content, _) =>
      fits := |content| <= MAX_ARCHIVE_FILE_BYTES && sourceBytes <= MAX_SNAPSHOT_SOURCE_BYTES;
  }

  // ---------------------------------------------------------------------------------------------
  // Packing and extracting
  // ---------------------------------------------------------------------------------------------

  lemma ParentsPass(tree: Tree, directories: set<Path>, limit: set<Path>, ps: set<Path>)
    requires ps <= Directories(tree) && directories <= limit && ps <= limit && |limit| <= MAX_ARCHIVE_DIRECTORIES
    ensures Passable(tree, directories, ps)
  {
    SubsetSize(directories + ps, limit);
  }

  lemma ParentsStay(tree: Tree, ps: set<Path>)
    requires ps <= Directories(tree)
    ensures WithDirectories(tree, ps) == tree
  {
  }

  lemma NewDirectoryPasses(tree: Tree, directories: set<Path>, limit: set<Path>, p: Path)
    requires p != [] && p !in tree && p in limit
    requires Above(p, |p| - 1) <= Directories(tree) && Above(p, |p| - 1) <= limit
    requires directories <= limit && |limit| <= MAX_ARCHIVE_DIRECTORIES
    ensures Passable(tree, directories, Above(p, |p|)) && directories + Above(p, |p|) <= limit
  {
    assert p[..|p|] == p;
    SubsetSize(directories + Above(p, |p|), limit);
  }

  lemma NewDirectoryAppears(tree: Tree, p: Path)
    requires p != [] && p !in tree && Above(p, |p| - 1) <= Directories(tree)
    ensures WithDirectories(tree, Above(p, |p|)) == tree[p := Dir]
  {
    assert p[..|p|] == p;
  }

  /** Nothing keeps the next entry of a walk from being extracted. */
  ghost predicate Ready(s: Progress, limit: set<Path>, p: Path, node: Node) {
    && p != [] && IsPath(p) && Fits(p, node) && p !in s.tree && p !in s.seen
    && Above(p, |p| - 1) <= Directories(s.tree) && Above(p, |p| - 1) <= limit && (node.Dir? ==> p in limit)
    && s.directories <= limit && |limit| <= MAX_ARCHIVE_DIRECTORIES
    && s.entries < MAX_ARCHIVE_ENTRIES && s.bytes + NodeSize(node) <= MAX_EXTRACTED_BYTES
  }

  lemma ReadyIsAcceptedThere(s: Progress, limit: set<Path>, p: Path, node: Node)
    requires Ready(s, limit, p, node)
    ensures AcceptsAt(Counted(s), p, EntryFor(p, node))
  {
    if node.Dir? {
      NewDirectoryPasses(s.tree, s.directories, limit, p);
    } else {
      ParentsPass(s.tree, s.directories, limit, Above(p, |p| - 1));
    }
  }

  lemma ReadyIsAccepted(s: Progress, limit: set<Path>, p: Path, node: Node)
    requires Ready(s, limit, p, node)
    ensures Accepts(s, EntryFor(p, node))
    ensures After(s, EntryFor(p, node)) == AfterAt(Counted(s), p, EntryFor(p, node))
  {
    JoinedPathReadsBack(p);
    ReadyIsAcceptedThere(s, limit, p, node);
  }

  lemma ReadyAdds(s: Progress, limit: set<Path>, p: Path, node: Node)
    requires Ready(s, limit, p, node)
    ensures
      var after := AfterAt(Counted(s), p, EntryFor(p, node));
      && after.tree == s.tree[p := node] && after.seen == s.seen + {p} && after.directories <= limit
      && after.entries == s.entries + 1 && after.bytes == s.bytes + NodeSize(node)
  {
    if node.Dir? {
      NewDirectoryPasses(s.tree, s.directories, limit, p);
      NewDirectoryAppears(s.tree, p);
    } else {
      ParentsStay(s.tree, Above(p, |p| - 1));
    }
  }

  /** An extraction into `ground` that has placed `done`. */
  ghost predicate Reached(s: Progress, ground: Tree, done: Tree, limit: set<Path>) {
    s.tree == ground + done && s.seen == done.Keys && s.directories <= limit && HasCounted(s, done)
  }

  ghost predicate HasCounted(s: Progress, done: Tree) { s.entries == |done| && s.bytes == Weight(done) }

  lemma WholeAllows(done: Tree, whole: Tree, p: Path)
    requires Packable(whole) && Keeps(done, whole) && p in whole && p !in done
    ensures |done| < MAX_ARCHIVE_ENTRIES && Fits(p, whole[p])
    ensures Weight(done) + NodeSize(whole[p]) <= MAX_EXTRACTED_BYTES
  {
    CountsOneMore(done, p, whole[p]);
    SubsetSize(done[p := whole[p]].Keys, whole.Keys);
    SubtreeWeight(done[p := whole[p]], whole);
  }

  /** The next path of a walk over `whole`, of which `done` has been met. */
  ghost predicate Next(done: Tree, whole: Tree, p: Path) {
    && Keeps(done, whole) && p in whole && p !in done && p != [] && IsPath(p)
    && Above(p, |p| - 1) <= Directories(done)
  }

  lemma DirectoriesOfPart(part: Tree, whole: Tree)
    requires Keeps(part, whole)
    ensures Directories(part) <= Directories(whole)
  {
  }

  lemma OnGround(ground: Tree, done: Tree)
    ensures Directories(done) <= Directories(ground + done)
  {
  }

  lemma NextIsReady(s: Progress, ground: Tree, done: Tree, whole: Tree, p: Path)
    requires Packable(whole) && Reached(s, ground, done, Directories(whole)) && Next(done, whole, p) && p !in ground
    ensures Ready(s, Directories(whole), p, whole[p])
  {
    WholeAllows(done, whole, p);
    DirectoriesOfPart(done, whole);
    OnGround(ground, done);
  }

  lemma ReachedNext(s: Progress, after: Progress, ground: Tree, done: Tree, limit: set<Path>, p: Path, node: Node)
    requires Reached(s, ground, done, limit) && p !in done
    requires after.tree == s.tree[p := node] && after.seen == s.seen + {p} && after.directories <= limit
    requires after.entries == s.entries + 1 && after.bytes == s.bytes + NodeSize(node)
    ensures Reached(after, ground, done[p := node], limit)
  {
    CountedNext(s, after, done, p, node);
    AddedOnGround(ground, done, p, node);
  }

  lemma CountedNext(s: Progress, after: Progress, done: Tree, p: Path, node: Node)
    requires HasCounted(s, done) && p !in done
    requires after.entries == s.entries + 1 && after.bytes == s.bytes + NodeSize(node)
    ensures HasCounted(after, done[p := node])
  {
    CountsOneMore(done, p, node);
  }

  lemma AddedOnGround(ground: Tree, done: Tree, p: Path, node: Node)
    ensures (ground + done)[p := node] == ground + done[p := node]
  {
  }

  lemma NextIsExtracted(s: Progress, ground: Tree, done: Tree, whole: Tree, p: Path)
    requires Packable(whole) && Reached(s, ground, done, Directories(whole)) && Next(done, whole, p) && p !in ground
    ensures Accepts(s, EntryFor(p, whole[p]))
    ensures Reached(After(s, EntryFor(p, whole[p])), ground, done[p := whole[p]], Directories(whole))
  {
    NextIsReady(s, ground, done, whole, p);
    ReadyIsAccepted(s, Directories(whole), p, whole[p]);
    ReadyAdds(s, Directories(whole), p, whole[p]);
    ReachedNext(s, After(s, EntryFor(p, whole[p])), ground, done, Directories(whole), p, whole[p]);
  }

  /** A walk over `whole` has come past `done`. */
  ghost predicate HasMet(whole: Tree, i: nat, done: Tree) {
    i <= |Walk(whole)| && Keeps(done, whole) && done.Keys == Passed(Walk(whole), i)
  }

  lemma ParentMet(whole: Tree, i: nat, done: Tree, q: Path)
    requires IsTree(whole) && i < |Walk(whole)| && HasMet(whole, i, done)
    requires 0 < |q| < |Walk(whole)[i]| && q == Walk(whole)[i][..|q|]
    ensures q in Directories(done)
  {
    var paths := Walk(whole);
    WalkMeetsParentsFirst(whole, i, |q|);
    var j :| 0 <= j < i && paths[j] == q;
    PassedElements(paths, i);
    assert paths[..i][j] == q;
    assert q in Elements(paths[..i]);
    assert paths[i] in Elements(paths);
    AncestorsAreDirectories(whole, paths[i], |q|);
  }

  lemma WalkIsNext(whole: Tree, i: nat, done: Tree)
    requires IsTree(whole) && i < |Walk(whole)| && HasMet(whole, i, done)
    ensures Next(done, whole, Walk(whole)[i])
  {
    WalkTakesTurns(whole);
    assert Turn(whole, Walk(whole), i);
    var p := Walk(whole)[i];
    assert Placed(whole, p);
    AboveIsShorter(p, |p| - 1);
    forall q | q in Above(p, |p| - 1) ensures q in Directories(done) {
      ParentMet(whole, i, done, q);
    }
  }

  lemma OneMoreMet(whole: Tree, i: nat, done: Tree, p: Path)
    requires i < |Walk(whole)| && p == Walk(whole)[i] && p in whole && HasMet(whole, i, done)
    ensures HasMet(whole, i + 1, done[p := whole[p]])
  {
  }

  lemma {:induction false} RestIsExtracted(s: Progress, ground: Tree, whole: Tree, i: nat, done: Tree)
    requires IsTree(whole) && Packable(whole) && ground.Keys !! whole.Keys
    requires HasMet(whole, i, done) && Reached(s, ground, done, Directories(whole))
    ensures
      var after := ExtractAll(s, EntriesOf(whole)[i..]);
      after.Some? && Reached(after.value, ground, whole, Directories(whole))
    decreases |Walk(whole)| - i
  {
    if i == |Walk(whole)| {
      NothingLeft(s, ground, whole, done);
    } else {
      var p := Walk(whole)[i];
      WalkIsNext(whole, i, done);
      OneMoreMet(whole, i, done, p);
      NextIsExtracted(s, ground, done, whole, p);
      var after := After(s, EntryFor(p, whole[p]));
      RestIsExtracted(after, ground, whole, i + 1, done[p := whole[p]]);
      RestOfEntries(whole, i);
      ExtractOne(s, EntryFor(p, whole[p]), EntriesOf(whole)[i + 1..]);
    }
  }

  lemma NothingLeft(s: Progress, ground: Tree, whole: Tree, done: Tree)
    requires IsTree(whole) && HasMet(whole, |Walk(whole)|, done)
    requires Reached(s, ground, done, Directories(whole))
    ensures EntriesOf(whole)[|Walk(whole)|..] == []
    ensures Reached(s, ground, whole, Directories(whole))
  {
    WalkTakesTurns(whole);
    assert done == whole;
  }

  lemma RestOfEntries(whole: Tree, i: nat)
    requires i < |Walk(whole)| && Walk(whole)[i] in whole
    ensures
      EntriesOf(whole)[i..] ==
      [EntryFor(Walk(whole)[i], whole[Walk(whole)[i]])] + EntriesOf(whole)[i + 1..]
  {
  }

  lemma ExtractOne(s: Progress, e: Entry, rest: seq<Entry>)
    requires Accepts(s, e)
    ensures ExtractAll(s, [e] + rest) == ExtractAll(After(s, e), rest)
  {
    assert ([e] + rest)[1..] == rest;
  }

  /** On `ground`, everything of the tree that is not below one of `names`. */
  ghost predicate AllBut(tree: Tree, names: set<string>, ground: Tree, after: Tree) {
    forall p: Path ::
      if p in tree && p != [] && p[0] !in names then p in after && after[p] == tree[p]
      else (p in after <==> p in ground) && (p in after ==> after[p] == ground[p])
  }

  lemma KeptIsAllBut(tree: Tree, ground: Tree)
    requires IsTree(tree) && forall p :: p in ground ==> IsExcluded(p)
    ensures AllBut(tree, {"secrets", "tmp"}, ground, ground + Kept(tree))
  {
    assert [] in tree ==> Placed(tree, []);
  }

  /** Packing and extracting gives the same tree, without what is excluded: nothing that could be
      packed is refused, and what was excluded before stays as it is at the destination. */
  lemma RoundTrip(tree: Tree, ground: Tree)
    requires IsTree(tree) && Packable(Kept(tree)) && forall p :: p in ground ==> IsExcluded(p)
    ensures
      var after := ExtractAll(Progress(ground, 0, 0, {}, {}), EntriesOf(Kept(tree)));
      && after.Some? && after.value.tree == ground + Kept(tree)
      && after.value.entries == |Kept(tree)| && after.value.bytes == Weight(Kept(tree))
      && AllBut(tree, {"secrets", "tmp"}, ground, after.value.tree)
  {
    var whole, s := Kept(tree), Progress(ground, 0, 0, {}, {});
    KeptIsTree(tree);
    KeptIsAllBut(tree, ground);
    StartsAt(ground, whole);
    RestIsExtracted(s, ground, whole, 0, map[]);
    assert EntriesOf(whole)[0..] == EntriesOf(whole);
  }

  /** So a packed file is refused on extraction exactly if it expands too far. */
  lemma PackedExtractsExactly(tree: Tree, ground: Tree, sizes: Sizes)
    requires IsTree(tree) && Packable(Kept(tree)) && forall p :: p in ground ==> IsExcluded(p)
    requires sizes.compressed <= MAX_SNAPSHOT_BYTES
    ensures Extractable(Progress(ground, 0, 0, {}, {}), EntriesOf(Kept(tree)), sizes) <==> !Inflated(sizes)
  {
    RoundTrip(tree, ground);
  }

  lemma StartsAt(ground: Tree, whole: Tree)
    ensures HasMet(whole, 0, map[]) && Reached(Progress(ground, 0, 0, {}, {}), ground, map[], Directories(whole))
  {
    assert ground + map[] == ground;
  }
}
