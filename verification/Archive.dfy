/** Unpacking and packing archives (`src/archive.rs`). An archive is the list of its entries: gzip
    and tar are taken to carry them unchanged. */
module Archive {
  import opened Outcomes
  import opened Paths
  import opened Totals
  import opened Trees

  const MAX_SNAPSHOT_BYTES: nat := 256 * 1024 * 1024
  const MAX_GZIP_EXPANSION_RATIO: nat := 1_000
  const MAX_EXTRACTED_BYTES: nat := 512 * 1024 * 1024
  const MAX_ARCHIVE_ENTRIES: nat := 100_000
  const MAX_ARCHIVE_DIRECTORIES: nat := 50_000
  const MAX_ARCHIVE_FILE_BYTES: nat := 256 * 1024 * 1024
  const MAX_SNAPSHOT_SOURCE_BYTES: nat := MAX_EXTRACTED_BYTES

  /** An extension carries the metadata of a later entry. */
  datatype EntryKind = Directory | Regular | Extension | Unsupported

  /** The header's size need not be the size of the content. */
  datatype Entry = Entry(name: string, kind: EntryKind, size: nat, executable: bool, content: string)

  /** An operation is done, or refused for what it was given, or fails on the way. */
  datatype Outcome = Done | Refused | Failed

  // ---------------------------------------------------------------------------------------------
  // What extraction does with one entry
  // ---------------------------------------------------------------------------------------------

  datatype Progress = Progress(
    tree: Tree, entries: nat, bytes: nat, directories: set<Path>, seen: set<Path>)

  /** The prefixes of a path, up to the one of length `n`. */
  function Above(p: Path, n: nat): set<Path>
    requires n <= |p|
  {
    if n == 0 then {} else Above(p, n - 1) + {p[..n]}
  }

  function WithDirectories(tree: Tree, ps: set<Path>): Tree {
    map p | p in tree.Keys + ps :: if p in tree then tree[p] else Dir
  }

  /** Nothing but directories is in the way, and there are not too many of them. */
  predicate Passable(tree: Tree, directories: set<Path>, ps: set<Path>) {
    && (forall p :: p in ps && p in tree ==> tree[p].Dir?)
    && |directories + ps| <= MAX_ARCHIVE_DIRECTORIES
  }

  predicate Ignored(p: Path, e: Entry) { e.kind == Extension || p == [] }

  predicate Accepts(s: Progress, e: Entry) {
    ReadPath(e.name).Some? && AcceptsPath(s, ReadPath(e.name).value, e)
  }

  predicate AcceptsPath(s: Progress, p: Path, e: Entry) {
    && s.entries < MAX_ARCHIVE_ENTRIES && e.size <= MAX_ARCHIVE_FILE_BYTES
    && (Ignored(p, e) || AcceptsAt(Counted(s), p, e))
  }

  predicate AcceptsAt(s: Progress, p: Path, e: Entry)
    requires p != []
  {
    (e.kind == Directory && AcceptsDirectory(s, p)) || (e.kind == Regular && AcceptsFile(s, p, e))
  }

  predicate AcceptsDirectory(s: Progress, p: Path) {
    Passable(s.tree, s.directories, Above(p, |p|)) && p !in s.seen
  }

  predicate AcceptsFile(s: Progress, p: Path, e: Entry)
    requires p != []
  {
    && s.bytes + e.size <= MAX_EXTRACTED_BYTES && Passable(s.tree, s.directories, Above(p, |p| - 1))
    && p !in s.seen && p !in s.tree && s.bytes + |e.content| <= MAX_EXTRACTED_BYTES
  }

  function Counted(s: Progress): Progress { s.(entries := s.entries + 1) }

  function AfterDirectory(s: Progress, p: Path): Progress {
    s.(
      tree := WithDirectories(s.tree, Above(p, |p|)), directories := s.directories + Above(p, |p|),
      seen := s.seen + {p})
  }

  function AfterFile(s: Progress, p: Path, e: Entry): Progress
    requires p != []
  {
    Progress(
      WithDirectories(s.tree, Above(p, |p| - 1))[p := File(e.content, e.executable)], s.entries,
      s.bytes + |e.content|, s.directories + Above(p, |p| - 1), s.seen + {p})
  }

  function After(s: Progress, e: Entry): Progress
    requires Accepts(s, e)
  {
    AfterPath(s, ReadPath(e.name).value, e)
  }

  function AfterPath(s: Progress, p: Path, e: Entry): Progress {
    if Ignored(p, e) then Counted(s) else AfterAt(Counted(s), p, e)
  }

  function AfterAt(s: Progress, p: Path, e: Entry): Progress
    requires p != []
  {
    if e.kind == Directory then AfterDirectory(s, p) else AfterFile(s, p, e)
  }

  function ExtractAll(s: Progress, entries: seq<Entry>): Option<Progress>
    decreases |entries|
  {
    if |entries| == 0 then Some(s)
    else if Accepts(s, entries[0]) then ExtractAll(After(s, entries[0]), entries[1..])
    else None
  }

  /** The bytes of an archive file and of the tar stream in it. */
  datatype Sizes = Sizes(compressed: nat, decompressed: nat)

  predicate Inflated(sizes: Sizes) {
    sizes.compressed > 0 && sizes.decompressed > sizes.compressed * MAX_GZIP_EXPANSION_RATIO
  }

  predicate Extractable(s: Progress, archive: seq<Entry>, sizes: Sizes) {
    sizes.compressed <= MAX_SNAPSHOT_BYTES && !Inflated(sizes) && ExtractAll(s, archive).Some?
  }

  lemma OneMoreDirectory(tree: Tree, directories: set<Path>, p: Path, n: nat)
    requires n < |p|
    ensures
      var before, q := Above(p, n), p[..n + 1];
      && Above(p, n + 1) == before + {q}
      && WithDirectories(WithDirectories(tree, before), {q}) == WithDirectories(tree, Above(p, n + 1))
      && directories + before + {q} == directories + Above(p, n + 1)
  {
  }

  lemma PassableOneMore(tree: Tree, directories: set<Path>, p: Path, n: nat)
    requires n < |p|
    ensures
      var before, q := Above(p, n), p[..n + 1];
      Passable(tree, directories, Above(p, n + 1)) <==>
        Passable(tree, directories, before)
        && Passable(WithDirectories(tree, before), directories + before, {q})
  {
    var before, q := Above(p, n), p[..n + 1];
    OneMoreDirectory(tree, directories, p, n);
    SubsetSize(directories + before, directories + Above(p, n + 1));
  }

  lemma PassableFewer(tree: Tree, directories: set<Path>, ps: set<Path>, qs: set<Path>)
    requires Passable(tree, directories, qs) && ps <= qs
    ensures Passable(tree, directories, ps)
  {
    SubsetSize(directories + ps, directories + qs);
  }

  lemma {:induction false} AboveGrows(p: Path, n: nat, m: nat)
    requires n <= m <= |p|
    ensures Above(p, n) <= Above(p, m)
  {
    if n < m { AboveGrows(p, n, m - 1); }
  }

  lemma DirectoryAdded(tree: Tree, p: Path)
    requires IsTree(tree) && Placed(tree, p)
    ensures IsTree(WithDirectories(tree, {p})) && Keeps(tree, WithDirectories(tree, {p}))
    ensures WithDirectories(tree, {p}) == if p in tree then tree else tree[p := Dir]
  {
    var after := WithDirectories(tree, {p});
    forall q | q in after ensures Placed(after, q) {
      assert q in tree ==> Placed(tree, q);
    }
  }

  lemma FileAdded(tree: Tree, p: Path, content: string, executable: bool)
    requires IsTree(tree) && Placed(tree, p) && p !in tree
    ensures IsTree(tree[p := File(content, executable)]) && Keeps(tree, tree[p := File(content, executable)])
    ensures Weight(tree[p := File(content, executable)]) == Weight(tree) + |content|
  {
    var after := tree[p := File(content, executable)];
    forall q | q in after ensures Placed(after, q) {
      assert q in tree ==> Placed(tree, q);
    }
    FileWeighs(tree, p, content, executable);
  }

  // ---------------------------------------------------------------------------------------------
  // Extraction
  // ---------------------------------------------------------------------------------------------

  const COPY_BUFFER: nat := 64 * 1024

  /** The state of an extraction, with the files below its destination. */
  class ExtractionState {
    /** Whether the disk can be relied on. */
    const reliable: bool
    var tree: Tree
    var entries: nat
    var extractedBytes: nat
    var directories: set<Path>
    var seenEntries: set<Path>

    function State(): Progress
      reads this
    {
      Progress(tree, entries, extractedBytes, directories, seenEntries)
    }

    ghost predicate Valid()
      reads this
    {
      IsTree(tree) && extractedBytes <= MAX_EXTRACTED_BYTES && |directories| <= MAX_ARCHIVE_DIRECTORIES
    }

    constructor (tree: Tree, reliable: bool)
      requires IsTree(tree)
      ensures Valid() && State() == Progress(tree, 0, 0, {}, {}) && this.reliable == reliable
    {
      this.reliable := reliable;
      this.tree, entries, extractedBytes, directories, seenEntries := tree, 0, 0, {}, {};
    }

    method EnsureDirectoryPath(p: Path) returns (outcome: Outcome)
      requires IsTree(tree) && Placed(tree, p)
      modifies this`tree, this`directories
      ensures reliable ==> outcome != Failed
      ensures IsTree(tree) && Keeps(old(tree), tree)
      ensures outcome == Done ==> Ensured(old(tree), old(directories), {p}, p, tree, directories)
      ensures outcome == Refused ==> !Passable(old(tree), old(directories), {p})
    {
      DirectoryAdded(tree, p);
      if p in tree {
        if !tree[p].Dir? { return Refused; }
      } else {
        var fails: bool := *;
        if fails && !reliable { return Failed; }
        tree := tree[p := Dir];
      }
      directories := directories + {p};
      outcome := if |directories| > MAX_ARCHIVE_DIRECTORIES then Refused else Done;
    }

    /** `ensure_parents` stops one short of the path, `ensure_directory` goes all the way. */
    method EnsureDirectories(p: Path, n: nat) returns (outcome: Outcome)
      requires Valid() && IsPath(p) && n <= |p|
      modifies this`tree, this`directories
      ensures reliable ==> outcome != Failed
      ensures IsTree(tree) && Keeps(old(tree), tree)
      ensures outcome == Done ==> Ensured(old(tree), old(directories), Above(p, n), p[..n], tree, directories)
      ensures outcome == Refused ==> !Passable(old(tree), old(directories), Above(p, n))
    {
      outcome := Done;
      NothingToEnsure(tree, directories, p);
      for i := 0 to n
        invariant IsTree(tree) && Keeps(old(tree), tree) && outcome == Done
        invariant Ensured(old(tree), old(directories), Above(p, i), p[..i], tree, directories)
      {
        outcome := EnsureNext(p, i, old(tree), old(directories));
        if outcome != Done {
          AboveRefused(old(tree), old(directories), p, i + 1, n);
          return;
        }
      }
    }

    method EnsureNext(p: Path, i: nat, ghost before: Tree, ghost counted: set<Path>) returns (outcome: Outcome)
      requires IsTree(tree) && IsPath(p) && i < |p|
      requires Ensured(before, counted, Above(p, i), p[..i], tree, directories)
      modifies this`tree, this`directories
      ensures reliable ==> outcome != Failed
      ensures IsTree(tree) && Keeps(old(tree), tree)
      ensures outcome == Done ==> Ensured(before, counted, Above(p, i + 1), p[..i + 1], tree, directories)
      ensures outcome == Refused ==> !Passable(before, counted, Above(p, i + 1))
    {
      ghost var tree0, directories0 := tree, directories;
      EnsuredSoFar(before, counted, p, i, tree, directories);
      outcome := EnsureDirectoryPath(p[..i + 1]);
      if outcome == Done {
        EnsuredOneMore(before, counted, p, i, tree0, directories0, tree, directories);
      }
    }

    /** Creates a file and copies its content, a buffer at a time, as far as the limit allows. A file
        that does not come to its end is left where it is, and not counted. */
    method WriteFile(p: Path, e: Entry) returns (outcome: Outcome)
      requires Valid() && Placed(tree, p) && p !in tree
      modifies this`tree, this`extractedBytes
      ensures reliable ==> outcome != Failed
      ensures IsTree(tree) && Keeps(old(tree), tree)
      ensures outcome == Done ==>
        && tree == old(tree)[p := File(e.content, e.executable)]
        && extractedBytes == old(extractedBytes) + |e.content| <= MAX_EXTRACTED_BYTES
      ensures outcome == Refused ==> old(extractedBytes) + |e.content| > MAX_EXTRACTED_BYTES
      ensures outcome != Done ==> extractedBytes == old(extractedBytes)
    {
      FileAdded(tree, p, "", e.executable);
      var fails: bool := *;
      if fails && !reliable { return Failed; }
      tree := tree[p := File("", e.executable)];
      var total := 0;
      while total < |e.content|
        invariant 0 <= total <= |e.content| && total <= MAX_EXTRACTED_BYTES - extractedBytes
        invariant Written(old(tree), p, e, total, tree) && extractedBytes == old(extractedBytes)
      {
        fails := *;
        if fails && !reliable { return Failed; }
        var read: int := *;
        if read < 1 || read > COPY_BUFFER || total + read > |e.content| { read := 1; }
        if total + read > MAX_EXTRACTED_BYTES - extractedBytes { return Refused; }
        WrittenMore(old(tree), p, e, total, read, tree);
        tree := tree[p := File(tree[p].content + e.content[total..total + read], e.executable)];
        total := total + read;
      }
      assert e.content[..total] == e.content;
      extractedBytes := extractedBytes + total;
      outcome := Done;
    }

    /** A directory entry: its parents, itself, and it must be new. */
    method ExtractDirectory(p: Path) returns (outcome: Outcome)
      requires Valid() && IsPath(p)
      modifies this`tree, this`directories, this`seenEntries
      ensures reliable ==> outcome != Failed
      ensures IsTree(tree) && Keeps(old(tree), tree)
      ensures outcome == Done ==>
        Valid() && AcceptsDirectory(old(State()), p) && State() == AfterDirectory(old(State()), p)
      ensures outcome == Refused ==> !AcceptsDirectory(old(State()), p)
    {
      assert p[..|p|] == p;
      outcome := EnsureDirectories(p, |p|);
      if outcome == Done {
        if p in seenEntries { return Refused; }
        seenEntries := seenEntries + {p};
      }
    }

    /** A new file, which collides with nothing. */
    method PlaceFile(p: Path, e: Entry) returns (outcome: Outcome)
      requires Valid() && Placed(tree, p)
      modifies this`tree, this`seenEntries, this`extractedBytes
      ensures reliable ==> outcome != Failed
      ensures IsTree(tree) && Keeps(old(tree), tree) && extractedBytes <= MAX_EXTRACTED_BYTES
      ensures outcome == Done ==>
        && p !in old(seenEntries) && p !in old(tree)
        && tree == old(tree)[p := File(e.content, e.executable)]
        && seenEntries == old(seenEntries) + {p} && extractedBytes == old(extractedBytes) + |e.content|
      ensures outcome == Refused ==>
        p in old(seenEntries) || p in old(tree) || old(extractedBytes) + |e.content| > MAX_EXTRACTED_BYTES
    {
      if p in seenEntries { return Refused; }
      seenEntries := seenEntries + {p};
      if p in tree { return Refused; }
      outcome := WriteFile(p, e);
    }

    /** A file entry: within the size limit, then its parents, then the file. */
    method ExtractFile(p: Path, e: Entry) returns (outcome: Outcome)
      requires Valid() && IsPath(p) && p != []
      modifies this`tree, this`directories, this`seenEntries, this`extractedBytes
      ensures reliable ==> outcome != Failed
      ensures IsTree(tree) && Keeps(old(tree), tree) && extractedBytes <= MAX_EXTRACTED_BYTES
      ensures outcome == Done ==>
        Valid() && AcceptsFile(old(State()), p, e) && State() == AfterFile(old(State()), p, e)
      ensures outcome == Refused ==> !AcceptsFile(old(State()), p, e)
    {
      if extractedBytes + e.size > MAX_EXTRACTED_BYTES { return Refused; }
      ghost var s := State();
      outcome := EnsureDirectories(p, |p| - 1);
      if outcome == Done { outcome := ExtractBelow(p, e, s); }
    }

    /** The file, once the directories above it are there. */
    method ExtractBelow(p: Path, e: Entry, ghost s: Progress) returns (outcome: Outcome)
      requires IsTree(tree) && Keeps(s.tree, tree) && IsPath(p) && p != []
      requires Ensured(s.tree, s.directories, Above(p, |p| - 1), p[..|p| - 1], tree, directories)
      requires s == State().(tree := s.tree, directories := s.directories)
      requires s.bytes + e.size <= MAX_EXTRACTED_BYTES
      modifies this`tree, this`seenEntries, this`extractedBytes
      ensures reliable ==> outcome != Failed
      ensures IsTree(tree) && Keeps(s.tree, tree) && extractedBytes <= MAX_EXTRACTED_BYTES
      ensures outcome == Done ==> Valid() && AcceptsFile(s, p, e) && State() == AfterFile(s, p, e)
      ensures outcome == Refused ==> !AcceptsFile(s, p, e)
    {
      NotAboveItself(p, s.tree);
      outcome := PlaceFile(p, e);
    }

    method ExtractAt(p: Path, e: Entry) returns (outcome: Outcome)
      requires Valid() && IsPath(p) && p != []
      modifies this`tree, this`directories, this`seenEntries, this`extractedBytes
      ensures reliable ==> outcome != Failed
      ensures IsTree(tree) && Keeps(old(tree), tree) && extractedBytes <= MAX_EXTRACTED_BYTES
      ensures outcome == Done ==>
        Valid() && AcceptsAt(old(State()), p, e) && State() == AfterAt(old(State()), p, e)
      ensures outcome == Refused ==> !AcceptsAt(old(State()), p, e)
    {
      if e.kind == Directory {
        outcome := ExtractDirectory(p);
      } else if e.kind == Regular {
        outcome := ExtractFile(p, e);
      } else {
        outcome := Refused;
      }
    }

    /** One turn of the loop of `extract_tar_gz_reader`. */
    method ExtractEntry(e: Entry) returns (outcome: Outcome)
      requires Valid()
      modifies this
      ensures reliable ==> outcome != Failed
      ensures IsTree(tree) && Keeps(old(tree), tree) && extractedBytes <= MAX_EXTRACTED_BYTES
      ensures outcome == Done ==> Valid() && Accepts(old(State()), e) && State() == After(old(State()), e)
      ensures outcome == Refused ==> !Accepts(old(State()), e)
    {
      var path := ValidateEntryPath(e.name);
      if path.None? { return Refused; }
      outcome := ExtractPath(path.value, e);
    }

    method ExtractPath(p: Path, e: Entry) returns (outcome: Outcome)
      requires Valid() && IsPath(p)
      modifies this
      ensures reliable ==> outcome != Failed
      ensures IsTree(tree) && Keeps(old(tree), tree) && extractedBytes <= MAX_EXTRACTED_BYTES
      ensures outcome == Done ==> Valid() && AcceptsPath(old(State()), p, e) && State() == AfterPath(old(State()), p, e)
      ensures outcome == Refused ==> !AcceptsPath(old(State()), p, e)
    {
      entries := entries + 1;
      if entries > MAX_ARCHIVE_ENTRIES || e.size > MAX_ARCHIVE_FILE_BYTES { return Refused; }
      if e.kind == Extension || p == [] { return Done; }
      outcome := ExtractAt(p, e);
    }

    /** The loop of `extract_tar_gz_reader`: all entries, or as many as came before a refusal or a failure. What
        was there before is untouched either way. */
    method Extract(archive: seq<Entry>) returns (outcome: Outcome)
      requires Valid()
      modifies this
      ensures reliable ==> outcome != Failed
      ensures IsTree(tree) && Keeps(old(tree), tree) && extractedBytes <= MAX_EXTRACTED_BYTES
      ensures outcome == Done ==> ExtractAll(old(State()), archive) == Some(State())
      ensures outcome == Refused ==> ExtractAll(old(State()), archive) == None
    {
      outcome := Done;
      for i := 0 to |archive|
        invariant Valid() && Keeps(old(tree), tree) && outcome == Done
        invariant ExtractAll(old(State()), archive) == ExtractAll(State(), archive[i..])
      {
        assert archive[i..][1..] == archive[i + 1..];
        outcome := ExtractEntry(archive[i]);
        if outcome != Done { return; }
      }
    }

    /** `extract_tar_gz_file`: a file that is too large is not opened, and one that has expanded too far
        is refused after everything was extracted. */
    method ExtractArchiveFile(archive: seq<Entry>, sizes: Sizes) returns (outcome: Outcome)
      requires Valid()
      modifies this
      ensures reliable ==> outcome != Failed
      ensures IsTree(tree) && Keeps(old(tree), tree) && extractedBytes <= MAX_EXTRACTED_BYTES
      ensures outcome == Done ==>
        Extractable(old(State()), archive, sizes) && ExtractAll(old(State()), archive) == Some(State())
      ensures outcome == Refused ==> !Extractable(old(State()), archive, sizes)
    {
      if sizes.compressed > MAX_SNAPSHOT_BYTES { return Refused; }
      outcome := Extract(archive);
      if outcome == Done && Inflated(sizes) { outcome := Refused; }
    }
  }

  ghost predicate Written(before: Tree, p: Path, e: Entry, total: nat, tree: Tree) {
    && total <= |e.content| && tree == before[p := File(e.content[..total], e.executable)]
    && IsTree(tree) && Keeps(before, tree)
  }

  lemma WrittenMore(before: Tree, p: Path, e: Entry, total: nat, read: nat, tree: Tree)
    requires IsTree(before) && Placed(before, p) && p !in before
    requires Written(before, p, e, total, tree) && total + read <= |e.content|
    ensures p in tree && tree[p].File?
    ensures Written(
      before, p, e, total + read,
      tree[p := File(tree[p].content + e.content[total..total + read], e.executable)])
  {
    FileAdded(before, p, e.content[..total + read], e.executable);
    assert e.content[..total] + e.content[total..total + read] == e.content[..total + read];
  }

  lemma NotAboveItself(p: Path, tree: Tree)
    requires p != []
    ensures p in WithDirectories(tree, Above(p, |p| - 1)) <==> p in tree
  {
    AboveIsShorter(p, |p| - 1);
  }

  lemma {:induction false} AboveIsShorter(p: Path, n: nat)
    requires n <= |p|
    ensures forall q :: q in Above(p, n) ==> 0 < |q| <= n && q == p[..|q|]
  {
    if n > 0 { AboveIsShorter(p, n - 1); }
  }

  /** The directories have all been passed or made, and with them this last one. */
  ghost predicate Ensured(
    before: Tree, counted: set<Path>, ps: set<Path>, last: Path, tree: Tree, directories: set<Path>)
  {
    && Passable(before, counted, ps) && IsDirectory(tree, last)
    && tree == WithDirectories(before, ps) && directories == counted + ps
  }

  lemma NothingToEnsure(tree: Tree, directories: set<Path>, p: Path)
    requires |directories| <= MAX_ARCHIVE_DIRECTORIES
    ensures Ensured(tree, directories, Above(p, 0), p[..0], tree, directories)
  {
    assert directories + Above(p, 0) == directories;
  }

  lemma EnsuredSoFar(before: Tree, counted: set<Path>, p: Path, i: nat, tree: Tree, directories: set<Path>)
    requires i < |p| && Ensured(before, counted, Above(p, i), p[..i], tree, directories)
    ensures |directories| <= MAX_ARCHIVE_DIRECTORIES
    ensures IsPath(p) ==> Placed(tree, p[..i + 1])
    ensures Passable(tree, directories, {p[..i + 1]}) <==> Passable(before, counted, Above(p, i + 1))
  {
    PassableOneMore(before, counted, p, i);
    assert p[..i + 1][..i] == p[..i];
  }

  lemma EnsuredOneMore(
    before: Tree, counted: set<Path>, p: Path, i: nat, tree: Tree, directories: set<Path>,
    tree': Tree, directories': set<Path>)
    requires i < |p| && Ensured(before, counted, Above(p, i), p[..i], tree, directories)
    requires Passable(before, counted, Above(p, i + 1))
    requires Ensured(tree, directories, {p[..i + 1]}, p[..i + 1], tree', directories')
    ensures Ensured(before, counted, Above(p, i + 1), p[..i + 1], tree', directories')
  {
    OneMoreDirectory(before, counted, p, i);
  }

  lemma AboveRefused(tree: Tree, directories: set<Path>, p: Path, n: nat, m: nat)
    requires n <= m <= |p|
    ensures Passable(tree, directories, Above(p, m)) ==> Passable(tree, directories, Above(p, n))
  {
    AboveGrows(p, n, m);
    if Passable(tree, directories, Above(p, m)) {
      PassableFewer(tree, directories, Above(p, n), Above(p, m));
    }
  }

  lemma DirectoryWeighsNothing(tree: Tree, p: Path)
    ensures Weight(WithDirectories(tree, {p})) == Weight(tree)
  {
    if p in tree {
      assert WithDirectories(tree, {p}) == tree;
    } else {
      TotalGrows(tree, NodeSize, p, Dir);
      assert WithDirectories(tree, {p}) == tree[p := Dir];
    }
  }

  lemma {:induction false} DirectoriesWeighNothing(tree: Tree, p: Path, n: nat)
    requires n <= |p|
    ensures Weight(WithDirectories(tree, Above(p, n))) == Weight(tree)
  {
    if n == 0 {
      assert WithDirectories(tree, Above(p, 0)) == tree;
    } else {
      DirectoriesWeighNothing(tree, p, n - 1);
      OneMoreDirectory(tree, {}, p, n - 1);
      DirectoryWeighsNothing(WithDirectories(tree, Above(p, n - 1)), p[..n]);
    }
  }

  lemma DirectoryEntryWeighs(s: Progress, p: Path)
    ensures Weight(AfterDirectory(s, p).tree) == Weight(s.tree)
  {
    DirectoriesWeighNothing(s.tree, p, |p|);
  }

  lemma FileWeighs(tree: Tree, p: Path, content: string, executable: bool)
    requires p !in tree
    ensures Weight(tree[p := File(content, executable)]) == Weight(tree) + |content|
  {
    TotalGrows(tree, NodeSize, p, File(content, executable));
  }

  lemma FileEntryWeighs(s: Progress, p: Path, e: Entry)
    requires p != [] && p !in s.tree
    ensures Weight(AfterFile(s, p, e).tree) == Weight(s.tree) + |e.content|
  {
    NotAboveItself(p, s.tree);
    FileWeighs(WithDirectories(s.tree, Above(p, |p| - 1)), p, e.content, e.executable);
    DirectoriesWeighNothing(s.tree, p, |p| - 1);
  }

  lemma PathEntryWeighs(s: Progress, p: Path, e: Entry)
    requires AcceptsPath(s, p, e)
    ensures Weight(AfterPath(s, p, e).tree) - AfterPath(s, p, e).bytes == Weight(s.tree) - s.bytes
    ensures AfterPath(s, p, e).bytes <= MAX_EXTRACTED_BYTES || AfterPath(s, p, e).bytes == s.bytes
  {
    if !Ignored(p, e) {
      if e.kind == Directory {
        DirectoryEntryWeighs(Counted(s), p);
      } else {
        FileEntryWeighs(Counted(s), p, e);
      }
    }
  }

  /** The count of extracted bytes is the growth of the files, entry by entry. */
  lemma EntryWeighs(s: Progress, e: Entry)
    requires Accepts(s, e)
    ensures Weight(After(s, e).tree) - After(s, e).bytes == Weight(s.tree) - s.bytes
    ensures After(s, e).bytes <= MAX_EXTRACTED_BYTES || After(s, e).bytes == s.bytes
  {
    PathEntryWeighs(s, ReadPath(e.name).value, e);
  }

  /** A completed extraction adds exactly the bytes it counts, and no more than the limit. */
  lemma {:induction false} ExtractionWeighs(s: Progress, archive: seq<Entry>)
    requires s.bytes <= MAX_EXTRACTED_BYTES && ExtractAll(s, archive).Some?
    ensures
      var after := ExtractAll(s, archive).value;
      && Weight(after.tree) - after.bytes == Weight(s.tree) - s.bytes
      && s.bytes <= after.bytes <= MAX_EXTRACTED_BYTES
    decreases |archive|
  {
    if |archive| > 0 {
      EntryWeighs(s, archive[0]);
      ExtractionWeighs(After(s, archive[0]), archive[1..]);
    }
  }
}
