/** Which archives extraction accepts, and what it makes of them, said of the archive as a whole
    (`src/archive.rs:50-185`). */
module Extraction {
  import opened Archive
  import opened Outcomes
  import opened Paths
  import opened Trees

  function PathOf(e: Entry): Path { if ReadPath(e.name).Some? then ReadPath(e.name).value else [] }

  /** The entry puts something at its path. */
  predicate Places(e: Entry) { PathOf(e) != [] && e.kind in {Directory, Regular} }

  predicate PlacesFile(e: Entry) { Places(e) && e.kind == Regular }

  /** How many of the entry's path prefixes have to be directories. */
  function Depth(e: Entry): nat {
    if !Places(e) then 0 else if e.kind == Directory then |PathOf(e)| else |PathOf(e)| - 1
  }

  ghost function MadeBy(archive: seq<Entry>): set<Path> {
    set i, n | 0 <= i < |archive| && 0 < n <= Depth(archive[i]) :: PathOf(archive[i])[..n]
  }

  /** The two entries cannot be in one archive: they have the same path, or one would lie in a file. */
  predicate Clash(e: Entry, f: Entry) {
    && Places(e) && Places(f)
    && (|| PathOf(e) == PathOf(f)
        || (e.kind == Regular && PathOf(e) <= PathOf(f))
        || (f.kind == Regular && PathOf(f) <= PathOf(e)))
  }

  /** Nothing about the entry itself speaks against it, nor what was there before. */
  predicate Harmless(ground: Tree, e: Entry) {
    && ReadPath(e.name).Some? && e.size <= MAX_ARCHIVE_FILE_BYTES
    && (PathOf(e) != [] ==> e.kind in {Directory, Regular, Extension})
    && Unblocked(ground, e)
  }

  predicate Unblocked(ground: Tree, e: Entry) { OnDirectories(ground, e) && (PlacesFile(e) ==> PathOf(e) !in ground) }

  predicate OnDirectories(ground: Tree, e: Entry) {
    forall n :: 0 < n <= Depth(e) && PathOf(e)[..n] in ground ==> ground[PathOf(e)[..n]].Dir?
  }

  function BytesOf(archive: seq<Entry>): nat {
    if |archive| == 0 then 0
    else
      var e := archive[|archive| - 1];
      BytesOf(archive[..|archive| - 1]) + if PlacesFile(e) then |e.content| else 0
  }

  /** Both the size in the header and the content fit beside the bytes extracted so far. */
  predicate Room(bytes: nat, e: Entry) {
    PlacesFile(e) ==> bytes + e.size <= MAX_EXTRACTED_BYTES && bytes + |e.content| <= MAX_EXTRACTED_BYTES
  }

  predicate Fitting(ground: Tree, archive: seq<Entry>, i: nat)
    requires i < |archive|
  {
    Harmless(ground, archive[i]) && Room(BytesOf(archive[..i]), archive[i])
  }

  predicate AllFit(ground: Tree, archive: seq<Entry>) {
    forall i :: 0 <= i < |archive| ==> Fitting(ground, archive, i)
  }

  predicate ClashFree(archive: seq<Entry>) {
    forall i, j :: 0 <= i < j < |archive| ==> !Clash(archive[i], archive[j])
  }

  /** What extraction accepts. */
  ghost predicate Acceptable(ground: Tree, archive: seq<Entry>) {
    && |archive| <= MAX_ARCHIVE_ENTRIES && |MadeBy(archive)| <= MAX_ARCHIVE_DIRECTORIES
    && AllFit(ground, archive) && ClashFree(archive)
  }

  predicate Puts(archive: seq<Entry>, i: int, p: Path) {
    0 <= i < |archive| && PlacesFile(archive[i]) && PathOf(archive[i]) == p
  }

  /** What was there, the directories, a file for every file entry, and nothing else. */
  ghost predicate Unpacked(ground: Tree, made: set<Path>, archive: seq<Entry>, tree: Tree) {
    && Keeps(ground, tree)
    && (forall p :: p in made ==> p in tree && tree[p] == Dir)
    && (forall i, p :: Puts(archive, i, p) ==>
          p !in ground && p in tree && tree[p] == File(archive[i].content, archive[i].executable))
    && (forall p :: p in tree ==> p in ground || p in made || exists i :: Puts(archive, i, p))
  }

  function SeenIn(archive: seq<Entry>): set<Path> {
    set i | 0 <= i < |archive| && Places(archive[i]) :: PathOf(archive[i])
  }

  /** The state of an extraction that has come past `archive`. */
  ghost predicate Describes(ground: Tree, archive: seq<Entry>, s: Progress) {
    && Unpacked(ground, MadeBy(archive), archive, s.tree)
    && s.entries == |archive| && s.bytes == BytesOf(archive)
    && s.directories == MadeBy(archive) && s.seen == SeenIn(archive)
  }

  // ---------------------------------------------------------------------------------------------
  // One more entry
  // ---------------------------------------------------------------------------------------------

  lemma {:induction false} ExtractAllThen(s: Progress, archive: seq<Entry>, e: Entry)
    ensures
      var so := ExtractAll(s, archive);
      ExtractAll(s, archive + [e]) ==
        if so.Some? && Accepts(so.value, e) then Some(After(so.value, e)) else None
    decreases |archive|
  {
    if |archive| == 0 {
      assert archive + [e] == [e];
      assert ExtractAll(s, [e]) == if Accepts(s, e) then ExtractAll(After(s, e), []) else None;
    } else {
      assert (archive + [e])[0] == archive[0] && (archive + [e])[1..] == archive[1..] + [e];
      if Accepts(s, archive[0]) { ExtractAllThen(After(s, archive[0]), archive[1..], e); }
    }
  }

  lemma {:induction false} AboveIs(p: Path, n: nat)
    requires n <= |p|
    ensures Above(p, n) == set k | 0 < k <= n :: p[..k]
  {
    if n > 0 { AboveIs(p, n - 1); }
  }

  lemma MadeByMore(archive: seq<Entry>, e: Entry)
    ensures MadeBy(archive + [e]) == MadeBy(archive) + Above(PathOf(e), Depth(e))
  {
    var more := archive + [e];
    AboveIs(PathOf(e), Depth(e));
    forall p ensures p in MadeBy(more) <==> p in MadeBy(archive) || p in Above(PathOf(e), Depth(e)) {
      if p in MadeBy(archive) {
        var i, n :| 0 <= i < |archive| && 0 < n <= Depth(archive[i]) && p == PathOf(archive[i])[..n];
        assert more[i] == archive[i];
      }
      if p in Above(PathOf(e), Depth(e)) {
        var n :| 0 < n <= Depth(e) && p == PathOf(e)[..n];
        assert more[|archive|] == e;
      }
    }
  }

  lemma SeenInMore(archive: seq<Entry>, e: Entry)
    ensures SeenIn(archive + [e]) == SeenIn(archive) + SeenIn([e])
  {
    var more := archive + [e];
    assert more[|archive|] == e;
    forall p | p in SeenIn(archive) ensures p in SeenIn(more) {
      var i :| 0 <= i < |archive| && Places(archive[i]) && p == PathOf(archive[i]);
      assert more[i] == archive[i];
    }
  }

  lemma BytesOfMore(archive: seq<Entry>, e: Entry)
    ensures BytesOf(archive + [e]) == BytesOf(archive) + if PlacesFile(e) then |e.content| else 0
  {
    assert (archive + [e])[..|archive|] == archive;
  }

  predicate ClashesWith(archive: seq<Entry>, e: Entry) {
    exists i :: 0 <= i < |archive| && Clash(archive[i], e)
  }

  lemma ClashFreeMore(archive: seq<Entry>, e: Entry)
    ensures ClashFree(archive + [e]) <==> ClashFree(archive) && !ClashesWith(archive, e)
  {
    var more := archive + [e];
    assert forall i :: 0 <= i < |archive| ==> more[i] == archive[i];
    assert more[|archive|] == e;
  }

  lemma FittingMore(ground: Tree, archive: seq<Entry>, e: Entry)
    ensures
      AllFit(ground, archive + [e]) <==>
        AllFit(ground, archive) && Harmless(ground, e) && Room(BytesOf(archive), e)
  {
    var more := archive + [e];
    assert more[..|archive|] == archive;
    forall i | 0 <= i < |archive| ensures Fitting(ground, more, i) <==> Fitting(ground, archive, i) {
      assert more[..i] == archive[..i] && more[i] == archive[i];
    }
    assert Fitting(ground, more, |archive|) <==> Harmless(ground, e) && Room(BytesOf(archive), e);
  }

  lemma AcceptableMore(ground: Tree, archive: seq<Entry>, e: Entry)
    ensures Acceptable(ground, archive + [e]) <==>
      && Acceptable(ground, archive) && |archive| < MAX_ARCHIVE_ENTRIES
      && |MadeBy(archive + [e])| <= MAX_ARCHIVE_DIRECTORIES
      && Harmless(ground, e) && Room(BytesOf(archive), e) && !ClashesWith(archive, e)
  {
    var more := archive + [e];
    MadeByMore(archive, e);
    SubsetSize(MadeBy(archive), MadeBy(more));
    FittingMore(ground, archive, e);
    ClashFreeMore(archive, e);
  }

  /** A file of the archive lies where the entry needs a directory. */
  ghost predicate FileAbove(archive: seq<Entry>, e: Entry) {
    exists i, n :: 0 < n <= Depth(e) && Puts(archive, i, PathOf(e)[..n])
  }

  lemma PassableThere(ground: Tree, archive: seq<Entry>, s: Progress, e: Entry)
    requires Describes(ground, archive, s) && Places(e)
    ensures
      (forall q :: q in Above(PathOf(e), Depth(e)) && q in s.tree ==> s.tree[q].Dir?) <==>
        OnDirectories(ground, e) && !FileAbove(archive, e)
  {
    var p, depth := PathOf(e), Depth(e);
    AboveIs(p, depth);
    forall n | 0 < n <= depth
      ensures p[..n] in Above(p, depth)
      ensures
        (p[..n] in s.tree ==> s.tree[p[..n]].Dir?) <==>
          (p[..n] in ground ==> ground[p[..n]].Dir?) && forall i :: !Puts(archive, i, p[..n])
    {
    }
  }

  /** An entry that clashes has the same path, is a file above, or lies below. */
  lemma ClashIs(archive: seq<Entry>, i: nat, e: Entry)
    requires i < |archive| && Clash(archive[i], e)
    ensures PathOf(e) in SeenIn(archive) || FileAbove(archive, e) || (PlacesFile(e) && PathOf(e) in MadeBy(archive))
  {
    var p, q := PathOf(e), PathOf(archive[i]);
    if q != p {
      if archive[i].kind == Regular && q <= p {
        assert Puts(archive, i, p[..|q|]);
      } else {
        assert p == q[..|p|] && |p| <= Depth(archive[i]);
      }
    }
  }

  lemma IsClash(archive: seq<Entry>, e: Entry)
    requires Places(e)
    requires PathOf(e) in SeenIn(archive) || FileAbove(archive, e) || (PlacesFile(e) && PathOf(e) in MadeBy(archive))
    ensures ClashesWith(archive, e)
  {
    var p := PathOf(e);
    if FileAbove(archive, e) {
      var i, n :| 0 < n <= Depth(e) && Puts(archive, i, p[..n]);
      assert Clash(archive[i], e);
    } else if p in SeenIn(archive) {
      var i :| 0 <= i < |archive| && Places(archive[i]) && PathOf(archive[i]) == p;
      assert Clash(archive[i], e);
    } else {
      var i, n :| 0 <= i < |archive| && 0 < n <= Depth(archive[i]) && p == PathOf(archive[i])[..n];
      assert Clash(archive[i], e);
    }
  }

  lemma ClashesExactly(archive: seq<Entry>, e: Entry)
    requires Places(e)
    ensures ClashesWith(archive, e) <==>
      PathOf(e) in SeenIn(archive) || FileAbove(archive, e) || (PlacesFile(e) && PathOf(e) in MadeBy(archive))
  {
    if ClashesWith(archive, e) {
      var i :| 0 <= i < |archive| && Clash(archive[i], e);
      ClashIs(archive, i, e);
    } else if
      PathOf(e) in SeenIn(archive) || FileAbove(archive, e) || (PlacesFile(e) && PathOf(e) in MadeBy(archive))
    {
      IsClash(archive, e);
    }
  }

  lemma FreeThere(ground: Tree, archive: seq<Entry>, s: Progress, p: Path)
    requires Describes(ground, archive, s)
    ensures p !in s.seen && p !in s.tree <==> p !in SeenIn(archive) && p !in ground && p !in MadeBy(archive)
  {
    if p in s.tree && p !in ground && p !in MadeBy(archive) {
      var i :| Puts(archive, i, p);
      assert p in SeenIn(archive);
    }
  }

  lemma AcceptsDirectoryExactly(ground: Tree, archive: seq<Entry>, s: Progress, e: Entry)
    requires Describes(ground, archive, s) && Places(e) && e.kind == Directory
    ensures AcceptsAt(Counted(s), PathOf(e), e) <==>
      && |MadeBy(archive + [e])| <= MAX_ARCHIVE_DIRECTORIES && Unblocked(ground, e) && !ClashesWith(archive, e)
  {
    MadeByMore(archive, e);
    PassableThere(ground, archive, s, e);
    ClashesExactly(archive, e);
  }

  lemma AcceptsFileExactly(ground: Tree, archive: seq<Entry>, s: Progress, e: Entry)
    requires Describes(ground, archive, s) && PlacesFile(e)
    ensures AcceptsAt(Counted(s), PathOf(e), e) <==>
      && |MadeBy(archive + [e])| <= MAX_ARCHIVE_DIRECTORIES && Unblocked(ground, e) && !ClashesWith(archive, e)
      && Room(BytesOf(archive), e)
  {
    MadeByMore(archive, e);
    PassableThere(ground, archive, s, e);
    FreeThere(ground, archive, s, PathOf(e));
    ClashesExactly(archive, e);
    FileAccepted(s, e, MadeBy(archive + [e]));
  }

  lemma FileAccepted(s: Progress, e: Entry, made: set<Path>)
    requires PlacesFile(e) && made == s.directories + Above(PathOf(e), Depth(e))
    ensures AcceptsAt(Counted(s), PathOf(e), e) <==>
      && |made| <= MAX_ARCHIVE_DIRECTORIES && Room(s.bytes, e)
      && (forall q :: q in Above(PathOf(e), Depth(e)) && q in s.tree ==> s.tree[q].Dir?)
      && PathOf(e) !in s.seen && PathOf(e) !in s.tree
  {
  }

  lemma AcceptsExactly(ground: Tree, archive: seq<Entry>, s: Progress, e: Entry)
    requires Describes(ground, archive, s) && |MadeBy(archive)| <= MAX_ARCHIVE_DIRECTORIES
    ensures Accepts(s, e) <==>
      && |archive| < MAX_ARCHIVE_ENTRIES && |MadeBy(archive + [e])| <= MAX_ARCHIVE_DIRECTORIES
      && Harmless(ground, e) && Room(BytesOf(archive), e) && !ClashesWith(archive, e)
  {
    MadeByMore(archive, e);
    if PlacesFile(e) {
      AcceptsFileExactly(ground, archive, s, e);
    } else if Places(e) {
      AcceptsDirectoryExactly(ground, archive, s, e);
    } else {
      assert MadeBy(archive) + {} == MadeBy(archive);
    }
  }

  lemma DirectoriesUnpacked(ground: Tree, made: set<Path>, archive: seq<Entry>, tree: Tree, ps: set<Path>)
    requires Unpacked(ground, made, archive, tree) && forall p :: p in ps && p in tree ==> tree[p].Dir?
    ensures Unpacked(ground, made + ps, archive, WithDirectories(tree, ps))
  {
  }

  lemma FileUnpacked(ground: Tree, made: set<Path>, archive: seq<Entry>, tree: Tree, e: Entry, p: Path)
    requires Unpacked(ground, made, archive, tree) && PlacesFile(e) && p == PathOf(e) && p !in tree
    ensures Unpacked(ground, made, archive + [e], tree[p := File(e.content, e.executable)])
  {
    PutsMore(archive, e);
    assert Puts(archive + [e], |archive|, p);
    FileIsThere(ground, made, archive, archive + [e], tree, e, p);
  }

  lemma FileIsThere(
    ground: Tree, made: set<Path>, archive: seq<Entry>, more: seq<Entry>, tree: Tree, e: Entry, p: Path)
    requires Unpacked(ground, made, archive, tree) && p !in tree
    requires forall i, q :: Puts(more, i, q) <==> Puts(archive, i, q) || (i == |archive| && q == p)
    requires archive <= more && Puts(more, |archive|, p) && more[|archive|] == e
    ensures Unpacked(ground, made, more, tree[p := File(e.content, e.executable)])
  {
    var after := tree[p := File(e.content, e.executable)];
    forall i, q | Puts(more, i, q)
      ensures q !in ground && q in after && after[q] == File(more[i].content, more[i].executable)
    {
      if i != |archive| { assert Puts(archive, i, q) && more[i] == archive[i]; }
    }
    forall q | q in after ensures q in ground || q in made || exists i :: Puts(more, i, q) {
      if q != p && q !in ground && q !in made {
        var i :| Puts(archive, i, q);
        assert Puts(more, i, q);
      }
    }
  }

  lemma PutsMore(archive: seq<Entry>, e: Entry)
    ensures forall i, p ::
      Puts(archive + [e], i, p) <==> Puts(archive, i, p) || (i == |archive| && PlacesFile(e) && p == PathOf(e))
    ensures archive <= archive + [e] && (archive + [e])[|archive|] == e
  {
  }

  lemma NoFileUnpacked(ground: Tree, made: set<Path>, archive: seq<Entry>, tree: Tree, e: Entry)
    requires Unpacked(ground, made, archive, tree) && !PlacesFile(e)
    ensures Unpacked(ground, made, archive + [e], tree)
  {
    PutsMore(archive, e);
    forall p | p in tree && p !in ground && p !in made ensures exists i :: Puts(archive + [e], i, p) {
      var i :| Puts(archive, i, p);
      assert Puts(archive + [e], i, p);
    }
  }

  /** The tree with the directories in `ps` and, for a file entry, its file at `p`. */
  function WithEntry(tree: Tree, ps: set<Path>, p: Path, e: Entry, file: bool): Tree {
    var more := WithDirectories(tree, ps);
    if file then more[p := File(e.content, e.executable)] else more
  }

  /** Nothing stands where the directories and the file go. */
  predicate FreeFor(tree: Tree, ps: set<Path>, p: Path, file: bool) {
    (forall q :: q in ps && q in tree ==> tree[q].Dir?) && (file ==> p !in WithDirectories(tree, ps))
  }

  /** The entry was placed: its directories, then itself. */
  predicate Follows(s: Progress, p: Path, e: Entry, depth: nat, file: bool, seen: set<Path>, after: Progress)
    requires depth <= |p|
  {
    var ps := Above(p, depth);
    && after.tree == WithEntry(s.tree, ps, p, e, file) && FreeFor(s.tree, ps, p, file)
    && after.entries == s.entries + 1 && after.bytes == s.bytes + (if file then |e.content| else 0)
    && after.directories == s.directories + ps && after.seen == s.seen + seen
  }

  lemma AfterDirectoryIs(s: Progress, p: Path, e: Entry)
    requires p != [] && e.kind == Directory && AcceptsPath(s, p, e)
    ensures Follows(s, p, e, |p|, false, {p}, AfterPath(s, p, e))
  {
  }

  lemma AfterFileIs(s: Progress, p: Path, e: Entry)
    requires p != [] && e.kind == Regular && AcceptsPath(s, p, e)
    ensures Follows(s, p, e, |p| - 1, true, {p}, AfterPath(s, p, e))
  {
    NotAboveItself(p, s.tree);
  }

  lemma AfterNothingIs(s: Progress, p: Path, e: Entry)
    requires Ignored(p, e) && AcceptsPath(s, p, e)
    ensures Follows(s, p, e, 0, false, {}, AfterPath(s, p, e))
  {
    assert WithDirectories(s.tree, {}) == s.tree;
  }

  lemma AfterIs(s: Progress, p: Path, e: Entry)
    requires Accepts(s, e) && p == PathOf(e)
    ensures Follows(s, p, e, Depth(e), PlacesFile(e), SeenIn([e]), After(s, e))
  {
    SeenInOne(e);
    if PlacesFile(e) {
      AfterFileIs(s, p, e);
    } else if Places(e) {
      AfterDirectoryIs(s, p, e);
    } else {
      AfterNothingIs(s, p, e);
    }
  }

  lemma SeenInOne(e: Entry)
    ensures SeenIn([e]) == if Places(e) then {PathOf(e)} else {}
  {
    assert [e][0] == e;
  }

  lemma TreeMore(ground: Tree, archive: seq<Entry>, tree: Tree, e: Entry)
    requires Unpacked(ground, MadeBy(archive), archive, tree)
    requires FreeFor(tree, Above(PathOf(e), Depth(e)), PathOf(e), PlacesFile(e))
    ensures
      Unpacked(
        ground, MadeBy(archive + [e]), archive + [e],
        WithEntry(tree, Above(PathOf(e), Depth(e)), PathOf(e), e, PlacesFile(e)))
  {
    var ps := Above(PathOf(e), Depth(e));
    MadeByMore(archive, e);
    DirectoriesUnpacked(ground, MadeBy(archive), archive, tree, ps);
    if PlacesFile(e) {
      FileUnpacked(ground, MadeBy(archive) + ps, archive, WithDirectories(tree, ps), e, PathOf(e));
    } else {
      NoFileUnpacked(ground, MadeBy(archive) + ps, archive, WithDirectories(tree, ps), e);
    }
  }

  lemma DescribesMore(ground: Tree, archive: seq<Entry>, s: Progress, e: Entry)
    requires Describes(ground, archive, s) && Accepts(s, e)
    ensures Describes(ground, archive + [e], After(s, e))
  {
    AfterIs(s, PathOf(e), e);
    TreeMore(ground, archive, s.tree, e);
    MadeByMore(archive, e);
    SeenInMore(archive, e);
    BytesOfMore(archive, e);
  }

  // ---------------------------------------------------------------------------------------------
  // Whole archives
  // ---------------------------------------------------------------------------------------------

  function Untouched(ground: Tree): Progress { Progress(ground, 0, 0, {}, {}) }

  lemma {:induction false} ExtractsAsDescribed(ground: Tree, archive: seq<Entry>)
    ensures
      var after := ExtractAll(Untouched(ground), archive);
      && (after.Some? <==> Acceptable(ground, archive))
      && (after.Some? ==> Describes(ground, archive, after.value))
  {
    if |archive| == 0 {
      assert MadeBy(archive) == {} && SeenIn(archive) == {};
    } else {
      var before, e := archive[..|archive| - 1], archive[|archive| - 1];
      assert archive == before + [e];
      ExtractsAsDescribed(ground, before);
      ExtractAllThen(Untouched(ground), before, e);
      AcceptableMore(ground, before, e);
      var so := ExtractAll(Untouched(ground), before);
      if so.Some? {
        AcceptsExactly(ground, before, so.value, e);
        if Accepts(so.value, e) { DescribesMore(ground, before, so.value, e); }
      }
    }
  }

  lemma OneEntryForEachFile(archive: seq<Entry>, i: int, j: int, p: Path)
    requires ClashFree(archive) && Puts(archive, i, p) && Puts(archive, j, p)
    ensures i == j
  {
    var least, most := if i < j then i else j, if i < j then j else i;
    assert Clash(archive[least], archive[most]);
  }

  /** `extract_tar_gz_file`, from the opened archive to the extracted tree: it is accepted exactly if every
      entry is harmless, no two of them clash and the limits are kept; and what it leaves is the old tree,
      the directories, and one file for each file entry. */
  method ExtractTarGzFile(ground: Tree, archive: seq<Entry>, sizes: Sizes, reliable: bool)
    returns (outcome: Outcome, tree: Tree)
    requires IsTree(ground)
    ensures IsTree(tree) && Keeps(ground, tree)
    ensures outcome == Done ==> Acceptable(ground, archive) && Unpacked(ground, MadeBy(archive), archive, tree)
    ensures outcome == Done ==> Weight(tree) == Weight(ground) + BytesOf(archive)
    ensures reliable ==> (outcome == Done <==>
      && Acceptable(ground, archive) && sizes.compressed <= MAX_SNAPSHOT_BYTES
      && (sizes.compressed > 0 ==> sizes.decompressed <= 1_000 * sizes.compressed))
    ensures reliable ==> outcome != Failed
  {
    var state := new ExtractionState(ground, reliable);
    outcome := state.ExtractArchiveFile(archive, sizes);
    tree := state.tree;
    ExtractsAsDescribed(ground, archive);
    if outcome == Done { ExtractionWeighs(Untouched(ground), archive); }
  }
}
