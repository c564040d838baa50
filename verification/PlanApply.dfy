/** From the plan's run directory to the apply's (`src/runner.rs:540-604`, `src/runner.rs:778-817`):
    what is recorded, packed, extracted elsewhere and checked again. */
module PlanApply {
  import opened Archive
  import opened Flattening
  import opened Outcomes
  import opened Packing
  import opened Paths
  import opened Provenance
  import opened Trees

  const TEMPORARY_FILE: string := ".terrence-agent-execution-manifest.tmp"

  /** `persist` can write the manifest, by way of a temporary file. */
  predicate Persistable(tree: Tree) {
    && ([TEMPORARY_FILE] in tree ==> !tree[[TEMPORARY_FILE]].Dir?)
    && ([MANIFEST_FILE] in tree ==> !tree[[MANIFEST_FILE]].Dir?)
  }

  /** The temporary file takes the place of the manifest, and whatever had its name is gone. */
  function Persisted(tree: Tree, manifest: Node): Tree {
    (tree - {[TEMPORARY_FILE]})[[MANIFEST_FILE] := manifest]
  }

  /** What the apply side makes of an extracted tree: anything in `secrets` and `tmp`, and elsewhere
      only the execution directory, if it is missing. */
  ghost predicate Prepared(extracted: Tree, tree: Tree) {
    && (forall p :: p in extracted && !IsExcluded(p) ==> p in tree && tree[p] == extracted[p])
    && (forall p :: p in tree && !IsExcluded(p) ==> p in extracted || tree[p].Dir?)
  }

  /** The files outside `secrets`, `tmp` and the manifest are the same, but for the temporary file. */
  ghost predicate SameFiles(planned: Tree, tree: Tree) {
    forall p :: !IsExcluded(p) && p != [MANIFEST_FILE] && p != [TEMPORARY_FILE] ==>
      FileAt(planned, p) == FileAt(tree, p)
  }

  lemma PersistingKeepsTree(tree: Tree, manifest: Node)
    requires IsTree(tree) && Persistable(tree)
    ensures IsTree(Persisted(tree, manifest))
  {
    var after := Persisted(tree, manifest);
    forall p | p in after ensures Placed(after, p) {
      assert p in tree ==> Placed(tree, p);
      assert [MANIFEST_FILE][..0] == [];
    }
  }

  /** The manifest was persisted, and the directory packed and extracted onto `ground`. */
  ghost predicate Extracted(persisted: Tree, ground: Tree, extracted: Tree) {
    var after := ExtractAll(Progress(ground, 0, 0, {}, {}), EntriesOf(Kept(persisted)));
    after.Some? && after.value.tree == extracted
  }

  lemma ExtractedIsPersisted(persisted: Tree, ground: Tree, extracted: Tree)
    requires IsTree(persisted) && Packable(Kept(persisted)) && forall p :: p in ground ==> IsExcluded(p)
    requires Extracted(persisted, ground, extracted)
    ensures forall p :: !IsExcluded(p) ==> FileAt(extracted, p) == FileAt(persisted, p)
  {
    RoundTrip(persisted, ground);
  }

  lemma PersistedFiles(planned: Tree, manifest: Node)
    ensures SameFiles(planned, Persisted(planned, manifest))
    ensures FileAt(Persisted(planned, manifest), [TEMPORARY_FILE]) == None
  {
    assert MANIFEST_FILE[|MANIFEST_FILE| - 1] == 'n';
    assert TEMPORARY_FILE[|TEMPORARY_FILE| - 1] == 'p';
    assert [MANIFEST_FILE][0] != [TEMPORARY_FILE][0];
  }

  lemma TemporaryIsKept()
    ensures !IsExcluded([TEMPORARY_FILE]) && !NotHashed([TEMPORARY_FILE])
  {
    assert TEMPORARY_FILE[1] == 't' && MANIFEST_FILE[|MANIFEST_FILE| - 1] == 'n';
    assert TEMPORARY_FILE[|TEMPORARY_FILE| - 1] == 'p';
  }

  lemma PreparingKeepsFiles(extracted: Tree, tree: Tree)
    requires Prepared(extracted, tree)
    ensures forall p :: !IsExcluded(p) ==> FileAt(extracted, p) == FileAt(tree, p)
  {
  }

  lemma ArrivesTheSame(planned: Tree, manifest: Node, ground: Tree, extracted: Tree, tree: Tree)
    requires IsTree(planned) && Persistable(planned) && Packable(Kept(Persisted(planned, manifest)))
    requires forall p :: p in ground ==> IsExcluded(p)
    requires Extracted(Persisted(planned, manifest), ground, extracted) && Prepared(extracted, tree)
    ensures SameFiles(planned, tree) && FileAt(tree, [TEMPORARY_FILE]) == None
  {
    PersistingKeepsTree(planned, manifest);
    ExtractedIsPersisted(Persisted(planned, manifest), ground, extracted);
    PreparingKeepsFiles(extracted, tree);
    PersistedFiles(planned, manifest);
    TemporaryIsKept();
    Through(planned, Persisted(planned, manifest), extracted, tree);
  }

  lemma Through(planned: Tree, persisted: Tree, extracted: Tree, tree: Tree)
    requires SameFiles(planned, persisted) && FileAt(persisted, [TEMPORARY_FILE]) == None
    requires !IsExcluded([TEMPORARY_FILE])
    requires forall p :: !IsExcluded(p) ==> FileAt(extracted, p) == FileAt(persisted, p)
    requires forall p :: !IsExcluded(p) ==> FileAt(extracted, p) == FileAt(tree, p)
    ensures SameFiles(planned, tree) && FileAt(tree, [TEMPORARY_FILE]) == None
  {
  }

  /** What is hashed on both sides is the same unless the plan's directory held a file by the name of
      the temporary file: that one is hashed, and then lost. */
  lemma HashedTheSame(planned: Tree, tree: Tree)
    requires SameFiles(planned, tree) && FileAt(tree, [TEMPORARY_FILE]) == None
    ensures Hashed(planned) == Hashed(tree) <==> FileAt(planned, [TEMPORARY_FILE]) == None
  {
    var a, b := Hashed(planned), Hashed(tree);
    TemporaryIsKept();
    forall p | p != [TEMPORARY_FILE] ensures p in a <==> p in b
      ensures p in a ==> a[p] == b[p]
    {
      assert !NotHashed(p) ==> FileAt(planned, p) == FileAt(tree, p);
    }
    assert FileAt(planned, [TEMPORARY_FILE]).Some? ==> [TEMPORARY_FILE] in a && [TEMPORARY_FILE] !in b;
  }

  /** No name that the agent gives to one of its own entries at the top. */
  predicate Ordinary(name: string) { name != MANIFEST_FILE && name != TEMPORARY_FILE && !Reserved(name) }

  lemma TerraformNamesAreOrdinary()
    ensures Ordinary("tfplan") && Ordinary(".terraform.lock.hcl")
    ensures Ordinary("terraform.tfstate") && Ordinary(".terraform")
  {
    assert MANIFEST_FILE[1] == 't' && MANIFEST_FILE[5] == 'e' && MANIFEST_FILE[10] == 'a';
    assert TEMPORARY_FILE[1] == 't' && TEMPORARY_FILE[5] == 'e' && TEMPORARY_FILE[10] == 'a';
  }

  lemma BelowDirectory(planned: Tree, tree: Tree, directory: Path, rest: Path)
    requires SameFiles(planned, tree) && !IsExcluded(directory)
    requires |rest| > 0 && Ordinary(rest[0])
    ensures FileAt(planned, directory + rest) == FileAt(tree, directory + rest)
  {
    var p := directory + rest;
    assert directory == [] ==> p == rest;
    assert directory != [] ==> p[0] == directory[0] && |p| > 1;
  }

  lemma ProvidersTheSame(planned: Tree, tree: Tree, directory: Path)
    requires SameFiles(planned, tree) && !IsExcluded(directory)
    ensures Providers(planned, directory) == Providers(tree, directory)
  {
    TerraformNamesAreOrdinary();
    var root := [".terraform", "providers"];
    forall p | directory + root <= p ensures FileAt(planned, p) == FileAt(tree, p) {
      var rest := p[|directory|..];
      assert p == directory + rest && rest[0] == root[0];
      BelowDirectory(planned, tree, directory, rest);
    }
    assert forall p :: IsProvider(planned, directory, p) <==> IsProvider(tree, directory, p);
    assert forall p :: IsProvider(planned, directory, p) ==> FileAt(planned, p) == FileAt(tree, p);
    SameProviders(planned, tree, directory);
  }

  lemma DirectoryDigestsTheSame(sha: string -> string, planned: Tree, tree: Tree, directory: Path)
    requires SameFiles(planned, tree) && !IsExcluded(directory)
    ensures SavedPlan(planned, directory) == SavedPlan(tree, directory)
    ensures LockFile(planned, directory) == LockFile(tree, directory)
    ensures InputState(planned, directory) == InputState(tree, directory)
    ensures ProviderDigests(sha, planned, directory) == ProviderDigests(sha, tree, directory)
  {
    TerraformNamesAreOrdinary();
    BelowDirectory(planned, tree, directory, ["tfplan"]);
    BelowDirectory(planned, tree, directory, [".terraform.lock.hcl"]);
    BelowDirectory(planned, tree, directory, ["terraform.tfstate"]);
    BelowDirectory(planned, tree, directory, [".terraform", "terraform.tfstate"]);
    ProvidersTheSame(planned, tree, directory);
  }

  /** What `secrets` and `tmp` hold on the apply side has nothing to do with the plan. */
  ghost predicate FreshlyReserved(tree: Tree) {
    forall p :: IsExcluded(p) ==> SavedPlan(tree, p) == None
  }

  /** Whatever was packed can be extracted, and the extracted tree used as it is. */
  lemma PackedCanArrive(planned: Tree, manifest: Node, ground: Tree)
    requires IsTree(planned) && Persistable(planned) && Packable(Kept(Persisted(planned, manifest)))
    requires forall p :: p in ground ==> IsExcluded(p)
    ensures
      var extracted := ground + Kept(Persisted(planned, manifest));
      Extracted(Persisted(planned, manifest), ground, extracted) && Prepared(extracted, extracted)
  {
    PersistingKeepsTree(planned, manifest);
    RoundTrip(Persisted(planned, manifest), ground);
  }

  /** A tree in which the plan's files have arrived gives the plan's digests, exactly when the execution
      directory does not lie in what is never packed and no file was lost to the temporary file. */
  lemma ArrivedIsAccepted(sha: string -> string, planned: Tree, tree: Tree, directory: Path)
    requires SameFiles(planned, tree) && FileAt(tree, [TEMPORARY_FILE]) == None
    requires FreshlyReserved(tree) && SavedPlan(planned, directory).Some?
    requires CollisionFree(sha) && Sound(Hashed(planned)) && Sound(Hashed(tree))
    ensures
      DigestsOf(sha, tree, directory) == DigestsOf(sha, planned, directory) <==>
        !IsExcluded(directory) && FileAt(planned, [TEMPORARY_FILE]) == None
  {
    HashedTheSame(planned, tree);
    SnapshotDigestsTell(sha, planned, tree);
    if !IsExcluded(directory) {
      DirectoryDigestsTheSame(sha, planned, tree, directory);
    }
  }

  /** The apply accepts the plan's files, exactly when the execution directory does not lie in what is
      never packed and no file has the name of the manifest's temporary file. */
  lemma PlanArrives(
    sha: string -> string, planned: Tree, manifest: Node, ground: Tree, extracted: Tree, tree: Tree, directory: Path)
    requires IsTree(planned) && Persistable(planned) && Packable(Kept(Persisted(planned, manifest)))
    requires forall p :: p in ground ==> IsExcluded(p)
    requires Extracted(Persisted(planned, manifest), ground, extracted) && Prepared(extracted, tree)
    requires FreshlyReserved(tree) && SavedPlan(planned, directory).Some?
    requires CollisionFree(sha) && Sound(Hashed(planned)) && Sound(Hashed(tree))
    ensures
      DigestsOf(sha, tree, directory) == DigestsOf(sha, planned, directory) <==>
        !IsExcluded(directory) && FileAt(planned, [TEMPORARY_FILE]) == None
  {
    ArrivesTheSame(planned, manifest, ground, extracted, tree);
    ArrivedIsAccepted(sha, planned, tree, directory);
  }

  /** The check of the apply itself, with the digests that the plan recorded. */
  method CheckPlan(
    sha: string -> string, expected: Digests, ghost planned: Tree, ghost manifest: Node, ghost ground: Tree,
    ghost extracted: Tree, tree: Tree, directory: Path)
    returns (ok: bool)
    requires IsTree(planned) && Persistable(planned) && Packable(Kept(Persisted(planned, manifest)))
    requires forall p :: p in ground ==> IsExcluded(p)
    requires Extracted(Persisted(planned, manifest), ground, extracted) && Prepared(extracted, tree)
    requires FreshlyReserved(tree) && DigestsOf(sha, planned, directory) == Some(expected)
    requires CollisionFree(sha) && Sound(Hashed(planned)) && Sound(Hashed(tree))
    ensures ok <==> !IsExcluded(directory) && FileAt(planned, [TEMPORARY_FILE]) == None
  {
    PlanArrives(sha, planned, manifest, ground, extracted, tree, directory);
    ok := VerifyDigests(sha, tree, directory, expected);
  }

  // ---------------------------------------------------------------------------------------------
  // Where the archives lie
  // ---------------------------------------------------------------------------------------------

  /** `pack_tar_gz_file`, for a source and an archive given by their real paths. */
  method PackToFile(root: Path, tree: Tree, archivePath: Path, gzip: seq<Entry> -> nat, reliable: bool)
    returns (outcome: Outcome, archive: seq<Entry>)
    requires IsTree(tree)
    ensures reliable ==> outcome != Failed
    ensures root <= archivePath ==> outcome == Refused
    ensures outcome == Done ==>
      Packable(Kept(tree)) && archive == EntriesOf(Kept(tree)) && gzip(archive) <= MAX_SNAPSHOT_BYTES
    ensures outcome == Refused ==>
      root <= archivePath || !Packable(Kept(tree)) || gzip(EntriesOf(Kept(tree))) > MAX_SNAPSHOT_BYTES
  {
    archive := [];
    if root <= archivePath { return Refused, archive; }
    outcome, archive := Pack(tree, gzip, reliable);
  }

  /** The plan's snapshot is to be written into `tmp` of the directory it is packed from: it is always
      refused, so that no plan gets past this point. */
  method PackPlan(root: Path, tree: Tree, gzip: seq<Entry> -> nat, reliable: bool)
    returns (outcome: Outcome, archive: seq<Entry>)
    requires IsTree(tree)
    ensures outcome == Refused
  {
    outcome, archive := PackToFile(root, tree, root + ["tmp", "plan-snapshot.tar.gz"], gzip, reliable);
  }

  /** A configuration is extracted next to `tmp`, which holds its archive, so its one top-level
      directory is never flattened; only when there is nothing else, `tmp` itself is. */
  lemma OnlyTmpIsFlattened(tree: Tree, d: string)
    requires IsTree(tree) && ["tmp"] in tree && Single(tree, d)
    ensures d == "tmp" && forall p :: p in tree ==> IsExcluded(p)
  {
    TopOfAll(tree, d, ["tmp"]);
    forall p | p in tree ensures IsExcluded(p) {
      TopOfAll(tree, d, p);
    }
  }
}
