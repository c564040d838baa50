/** What the digests of a run directory are computed from (`src/provenance.rs`). A digest is a
    function `sha` of the bytes it is fed. */
module Provenance {
  import opened Decimal
  import opened Ordering
  import opened Outcomes
  import opened Packing
  import opened Paths
  import opened Trees

  const MANIFEST_FILE: string := ".terrence-agent-execution-manifest.json"
  const SNAPSHOT_HEADER: string := "terrence-execution-snapshot-v2\0"

  // ---------------------------------------------------------------------------------------------
  // The stream
  // ---------------------------------------------------------------------------------------------

  /** The low `k` bytes of a number, lowest first. */
  function LittleEndian(n: nat, k: nat): (s: string)
    ensures |s| == k
  {
    if k == 0 then "" else [(n % 256) as char] + LittleEndian(n / 256, k - 1)
  }

  function U64Bytes(n: nat): (s: string)
    ensures |s| == 8
  {
    LittleEndian(n, 8)
  }

  function Power256(k: nat): nat { if k == 0 then 1 else 256 * Power256(k - 1) }

  lemma {:induction false} LittleEndianInjective(n: nat, m: nat, k: nat)
    requires n < Power256(k) && m < Power256(k) && LittleEndian(n, k) == LittleEndian(m, k)
    ensures n == m
  {
    if k > 0 {
      var a, b := LittleEndian(n, k), LittleEndian(m, k);
      assert a[0] == b[0] && a[1..] == LittleEndian(n / 256, k - 1) && b[1..] == LittleEndian(m / 256, k - 1);
      LittleEndianInjective(n / 256, m / 256, k - 1);
    }
  }

  lemma U64BytesInjective(n: nat, m: nat)
    requires n < U64_LIMIT && m < U64_LIMIT && U64Bytes(n) == U64Bytes(m)
    ensures n == m
  {
    assert Power256(8) == U64_LIMIT;
    LittleEndianInjective(n, m, 8);
  }

  function Framed(bytes: string): string { U64Bytes(|bytes|) + bytes }

  /** The contents of files by relative path. */
  type Contents = map<Path, string>

  /** One file after the other: its framed path and its framed content. */
  ghost function Frames(paths: seq<Path>, files: Contents): string
    requires forall p :: p in paths ==> p in files
  {
    if paths == [] then "" else Framed(Join(paths[0])) + Framed(files[paths[0]]) + Frames(paths[1..], files)
  }

  ghost function Stream(files: Contents): string {
    PathTotal();
    var paths := Listing(PathLess, files.Keys);
    assert forall p :: p in paths ==> p in Elements(paths);
    SNAPSHOT_HEADER + Frames(paths, files)
  }

  /** Sizes that a u64 can hold, and paths that are paths. */
  ghost predicate Sound(files: Contents) {
    forall p :: p in files ==> IsPath(p) && |Join(p)| < U64_LIMIT && |files[p]| < U64_LIMIT
  }

  /** A framed text at the front of a stream can be told from what follows. */
  lemma FramedCancels(a: string, b: string, rest: string, rest': string)
    requires |a| < U64_LIMIT && |b| < U64_LIMIT
    requires Framed(a) + rest == Framed(b) + rest'
    ensures a == b && rest == rest'
  {
    var s, t := Framed(a) + rest, Framed(b) + rest';
    assert s[..8] == U64Bytes(|a|) && t[..8] == U64Bytes(|b|);
    U64BytesInjective(|a|, |b|);
    assert s[8..][..|a|] == a && t[8..][..|b|] == b;
    assert s[8 + |a|..] == rest && t[8 + |b|..] == rest';
  }

  lemma FrameCancels(p: Path, q: Path, content: string, content': string, rest: string, rest': string)
    requires IsPath(p) && IsPath(q) && |Join(p)| < U64_LIMIT && |Join(q)| < U64_LIMIT
    requires |content| < U64_LIMIT && |content'| < U64_LIMIT
    requires Framed(Join(p)) + Framed(content) + rest == Framed(Join(q)) + Framed(content') + rest'
    ensures p == q && content == content' && rest == rest'
  {
    Regroup(Framed(Join(p)), Framed(content), rest);
    Regroup(Framed(Join(q)), Framed(content'), rest');
    FramedCancels(Join(p), Join(q), Framed(content) + rest, Framed(content') + rest');
    FramedCancels(content, content', rest, rest');
    JoinInjective(p, q);
  }

  lemma {:induction false} FramesDetermine(paths: seq<Path>, files: Contents, paths': seq<Path>, files': Contents)
    requires forall p :: p in paths ==> p in files
    requires forall p :: p in paths' ==> p in files'
    requires Sound(files) && Sound(files') && Frames(paths, files) == Frames(paths', files')
    ensures paths == paths' && forall p :: p in paths ==> files[p] == files'[p]
    decreases |paths|
  {
    if |paths| > 0 && |paths'| > 0 {
      var p, q := paths[0], paths'[0];
      FrameCancels(p, q, files[p], files'[q], Frames(paths[1..], files), Frames(paths'[1..], files'));
      FramesDetermine(paths[1..], files, paths'[1..], files');
      assert paths == [p] + paths[1..] && paths' == [q] + paths'[1..];
    }
  }

  /** The stream is uniquely decodable: two sets of files give the same stream exactly when they are
      the same, path by path and content by content. */
  lemma StreamDetermines(files: Contents, files': Contents)
    requires Sound(files) && Sound(files')
    ensures Stream(files) == Stream(files') <==> files == files'
  {
    if Stream(files) == Stream(files') {
      PathTotal();
      var paths, paths' := Listing(PathLess, files.Keys), Listing(PathLess, files'.Keys);
      var header := SNAPSHOT_HEADER;
      assert forall p :: p in paths ==> p in Elements(paths);
      assert forall p :: p in paths' ==> p in Elements(paths');
      assert Stream(files)[|header|..] == Frames(paths, files);
      assert Stream(files')[|header|..] == Frames(paths', files');
      FramesDetermine(paths, files, paths', files');
      SameFiles(paths, files, files');
    }
  }

  lemma SameFiles(paths: seq<Path>, files: Contents, files': Contents)
    requires Elements(paths) == files.Keys == files'.Keys
    requires forall p :: p in paths ==> p in files && p in files' && files[p] == files'[p]
    ensures files == files'
  {
    forall p | p in files ensures files[p] == files'[p] {
      assert p in Elements(paths);
    }
  }

  // ---------------------------------------------------------------------------------------------
  // The digests of a run directory
  // ---------------------------------------------------------------------------------------------

  /** `excluded_snapshot_path`. */
  predicate NotHashed(p: Path) { p == [MANIFEST_FILE] || IsExcluded(p) || [".terraform", "providers"] <= p }

  function Hashed(tree: Tree): Contents {
    map p | p in tree && tree[p].File? && !NotHashed(p) :: tree[p].content
  }

  function FileAt(tree: Tree, p: Path): Option<string> {
    if p in tree && tree[p].File? then Some(tree[p].content) else None
  }

  function LockFile(tree: Tree, directory: Path): Option<string> { FileAt(tree, directory + [".terraform.lock.hcl"]) }

  /** Terraform's own state, or else the one it keeps about its backend. */
  function InputState(tree: Tree, directory: Path): Option<string> {
    var own := FileAt(tree, directory + ["terraform.tfstate"]);
    if own.Some? then own else FileAt(tree, directory + [".terraform", "terraform.tfstate"])
  }

  predicate IsProvider(tree: Tree, directory: Path, p: Path) {
    FileAt(tree, p).Some? && directory + [".terraform", "providers"] <= p
  }

  /** The provider packages, by their path below the directory. */
  function Providers(tree: Tree, directory: Path): Contents {
    assert forall p :: IsProvider(tree, directory, p) ==> directory + p[|directory|..] == p;
    map q | q in (set p | p in tree && IsProvider(tree, directory, p) :: p[|directory|..]) ::
      tree[directory + q].content
  }

  lemma InProviders(tree: Tree, directory: Path, q: Path)
    requires q in Providers(tree, directory)
    ensures IsProvider(tree, directory, directory + q) && (directory + q)[|directory|..] == q
  {
    var p :| p in tree && IsProvider(tree, directory, p) && q == p[|directory|..];
    assert directory + q == p;
  }

  lemma SameProviders(planned: Tree, tree: Tree, directory: Path)
    requires forall p :: IsProvider(planned, directory, p) <==> IsProvider(tree, directory, p)
    requires forall p :: IsProvider(planned, directory, p) ==> FileAt(planned, p) == FileAt(tree, p)
    ensures Providers(planned, directory) == Providers(tree, directory)
  {
    var a, b := Providers(planned, directory), Providers(tree, directory);
    forall q ensures q in a <==> q in b {
      if q in a { InProviders(planned, directory, q); }
      if q in b { InProviders(tree, directory, q); }
    }
    forall q | q in a ensures a[q] == b[q] {
      InProviders(planned, directory, q);
    }
  }

  function Digest(sha: string -> string, content: Option<string>): Option<string> {
    if content.Some? then Some(sha(content.value)) else None
  }

  /** The part of the execution manifest that vouches for files. */
  datatype Digests = Digests(
    plan: string, snapshot: string, lockFile: Option<string>, inputState: Option<string>,
    providers: map<Path, string>)

  ghost function SnapshotDigestOf(sha: string -> string, tree: Tree): string { sha(Stream(Hashed(tree))) }

  function ProviderDigests(sha: string -> string, tree: Tree, directory: Path): map<Path, string> {
    var files := Providers(tree, directory);
    map q | q in files :: sha(files[q])
  }

  function SavedPlan(tree: Tree, directory: Path): Option<string> { FileAt(tree, directory + ["tfplan"]) }

  /** What the plan records, if it left a saved plan. */
  ghost function DigestsOf(sha: string -> string, tree: Tree, directory: Path): Option<Digests> {
    if SavedPlan(tree, directory).None? then None
    else
      Some(Digests(
        sha(SavedPlan(tree, directory).value), SnapshotDigestOf(sha, tree),
        Digest(sha, LockFile(tree, directory)), Digest(sha, InputState(tree, directory)),
        ProviderDigests(sha, tree, directory)))
  }

  // ---------------------------------------------------------------------------------------------
  // What the digests tell
  // ---------------------------------------------------------------------------------------------

  ghost predicate CollisionFree(sha: string -> string) { forall a, b :: sha(a) == sha(b) ==> a == b }

  lemma SnapshotDigestsTell(sha: string -> string, planned: Tree, tree: Tree)
    requires CollisionFree(sha) && Sound(Hashed(planned)) && Sound(Hashed(tree))
    ensures SnapshotDigestOf(sha, planned) == SnapshotDigestOf(sha, tree) <==> Hashed(planned) == Hashed(tree)
  {
    StreamDetermines(Hashed(planned), Hashed(tree));
  }

  /** The files are the same but for the manifest, what is below `secrets` and `tmp`, and the provider
      packages at the top. */
  ghost predicate SameSnapshot(planned: Tree, tree: Tree) {
    forall p: Path ::
      p != [MANIFEST_FILE] && !(|p| > 0 && p[0] in {"secrets", "tmp"}) && !([".terraform", "providers"] <= p) ==>
        FileAt(planned, p) == FileAt(tree, p)
  }

  ghost predicate SamePackages(planned: Tree, tree: Tree, directory: Path) {
    forall p :: directory + [".terraform", "providers"] <= p ==> FileAt(planned, p) == FileAt(tree, p)
  }

  /** Terraform starts from the same state: its own if there is one, and only else the one it keeps about
      its backend. */
  ghost predicate SameState(planned: Tree, tree: Tree, directory: Path) {
    var own := directory + ["terraform.tfstate"];
    var other := directory + [".terraform", "terraform.tfstate"];
    match (FileAt(planned, own), FileAt(tree, own))
    case (Some(a), Some(b)) => a == b
    case (Some(a), None) => FileAt(tree, other) == Some(a)
    case (None, Some(b)) => FileAt(planned, other) == Some(b)
    case (None, None) => FileAt(planned, other) == FileAt(tree, other)
  }

  /** Both sides have the same files, as far as the digests vouch for them. */
  ghost predicate SameVouched(planned: Tree, tree: Tree, directory: Path) {
    && SameSnapshot(planned, tree) && SamePackages(planned, tree, directory) && SameState(planned, tree, directory)
    && FileAt(planned, directory + ["tfplan"]) == FileAt(tree, directory + ["tfplan"])
    && FileAt(planned, directory + [".terraform.lock.hcl"]) == FileAt(tree, directory + [".terraform.lock.hcl"])
  }

  lemma HashedTells(planned: Tree, tree: Tree)
    ensures Hashed(planned) == Hashed(tree) <==> SameSnapshot(planned, tree)
  {
    var a, b := Hashed(planned), Hashed(tree);
    forall p: Path
      ensures NotHashed(p) <==>
        p == [MANIFEST_FILE] || (|p| > 0 && p[0] in {"secrets", "tmp"}) || [".terraform", "providers"] <= p
      ensures !NotHashed(p) ==> (p in a <==> FileAt(planned, p).Some?) && (p in b <==> FileAt(tree, p).Some?)
      ensures p in a ==> FileAt(planned, p) == Some(a[p])
      ensures p in b ==> FileAt(tree, p) == Some(b[p])
    {
    }
    if SameSnapshot(planned, tree) {
      assert forall p :: p in a <==> p in b;
      assert forall p :: p in a ==> a[p] == b[p];
    }
  }

  lemma ProvidersTell(planned: Tree, tree: Tree, directory: Path)
    ensures Providers(planned, directory) == Providers(tree, directory) <==> SamePackages(planned, tree, directory)
  {
    if SamePackages(planned, tree, directory) {
      SameProviders(planned, tree, directory);
    } else {
      var p :| directory + [".terraform", "providers"] <= p && FileAt(planned, p) != FileAt(tree, p);
      var q := p[|directory|..];
      assert directory + q == p;
      ProviderAt(planned, directory, q);
      ProviderAt(tree, directory, q);
    }
  }

  lemma ProviderAt(tree: Tree, directory: Path, q: Path)
    requires [".terraform", "providers"] <= q
    ensures q in Providers(tree, directory) <==> FileAt(tree, directory + q).Some?
    ensures q in Providers(tree, directory) ==> FileAt(tree, directory + q) == Some(Providers(tree, directory)[q])
  {
    var p := directory + q;
    assert p[|directory|..] == q;
    if q in Providers(tree, directory) { InProviders(tree, directory, q); }
    if FileAt(tree, p).Some? { assert IsProvider(tree, directory, p); }
  }

  lemma ProviderDigestsTell(sha: string -> string, planned: Tree, tree: Tree, directory: Path)
    requires CollisionFree(sha)
    ensures
      ProviderDigests(sha, planned, directory) == ProviderDigests(sha, tree, directory) <==>
        Providers(planned, directory) == Providers(tree, directory)
  {
    var a, b := Providers(planned, directory), Providers(tree, directory);
    var x, y := ProviderDigests(sha, planned, directory), ProviderDigests(sha, tree, directory);
    if x == y {
      assert forall q :: q in a <==> q in x;
      assert forall q :: q in b <==> q in y;
      assert forall q :: q in a ==> sha(a[q]) == x[q] == y[q] == sha(b[q]);
      assert a == b;
    }
  }

  lemma DigestTells(sha: string -> string, a: Option<string>, b: Option<string>)
    requires CollisionFree(sha)
    ensures Digest(sha, a) == Digest(sha, b) <==> a == b
  {
  }

  lemma StateTells(planned: Tree, tree: Tree, directory: Path)
    ensures InputState(planned, directory) == InputState(tree, directory) <==> SameState(planned, tree, directory)
  {
  }

  lemma SavedPlanTells(sha: string -> string, planned: Tree, tree: Tree, directory: Path)
    requires CollisionFree(sha) && SavedPlan(planned, directory).Some? && SavedPlan(tree, directory).Some?
    ensures
      DigestsOf(sha, planned, directory) == DigestsOf(sha, tree, directory) <==>
        && sha(SavedPlan(planned, directory).value) == sha(SavedPlan(tree, directory).value)
        && SnapshotDigestOf(sha, planned) == SnapshotDigestOf(sha, tree)
        && Digest(sha, LockFile(planned, directory)) == Digest(sha, LockFile(tree, directory))
        && Digest(sha, InputState(planned, directory)) == Digest(sha, InputState(tree, directory))
        && ProviderDigests(sha, planned, directory) == ProviderDigests(sha, tree, directory)
  {
  }

  /** Digests of two run directories agree exactly if the files do: a change to any file that is vouched
      for shows. */
  lemma DigestsTell(sha: string -> string, planned: Tree, tree: Tree, directory: Path)
    requires CollisionFree(sha) && Sound(Hashed(planned)) && Sound(Hashed(tree))
    requires SavedPlan(planned, directory).Some?
    ensures
      DigestsOf(sha, planned, directory) == DigestsOf(sha, tree, directory) <==>
        SameVouched(planned, tree, directory)
  {
    if SavedPlan(tree, directory).Some? {
      SavedPlanTells(sha, planned, tree, directory);
      SnapshotDigestsTell(sha, planned, tree);
      HashedTells(planned, tree);
      DigestTells(sha, LockFile(planned, directory), LockFile(tree, directory));
      DigestTells(sha, InputState(planned, directory), InputState(tree, directory));
      StateTells(planned, tree, directory);
      ProviderDigestsTell(sha, planned, tree, directory);
      ProvidersTell(planned, tree, directory);
    }
  }

  /** `snapshot_digest`: collects the files, sorts them and feeds them to the hash. */
  method SnapshotDigest(sha: string -> string, tree: Tree) returns (digest: string)
    ensures digest == SnapshotDigestOf(sha, tree)
  {
    PathTotal();
    var files := Hashed(tree);
    var paths := Sort(PathLess, files.Keys);
    SortedUnique(PathLess, paths, Listing(PathLess, files.Keys));
    assert forall p :: p in paths ==> p in Elements(paths);
    var hashed := Feed(SNAPSHOT_HEADER, paths, files);
    digest := sha(hashed);
  }

  method Feed(start: string, paths: seq<Path>, files: Contents) returns (fed: string)
    requires forall p :: p in paths ==> p in files
    ensures fed == start + Frames(paths, files)
  {
    fed := start;
    for i := 0 to |paths|
      invariant fed + Frames(paths[i..], files) == start + Frames(paths, files)
    {
      NextFrame(fed, paths, i, files);
      fed := FeedFile(fed, Join(paths[i]), files[paths[i]]);
    }
  }

  lemma NextFrame(fed: string, paths: seq<Path>, i: nat, files: Contents)
    requires i < |paths| && forall p :: p in paths ==> p in files
    ensures
      fed + Frames(paths[i..], files) ==
      fed + Framed(Join(paths[i])) + Framed(files[paths[i]]) + Frames(paths[i + 1..], files)
  {
    var a, b, rest := Framed(Join(paths[i])), Framed(files[paths[i]]), Frames(paths[i + 1..], files);
    assert paths[i..][1..] == paths[i + 1..];
    assert Frames(paths[i..], files) == a + b + rest;
    Regroup(fed, a + b, rest);
    Regroup(fed, a, b);
  }

  const READ_BUFFER: nat := 64 * 1024

  /** The framed path, the length, and then the content, a buffer at a time. */
  method FeedFile(start: string, path: string, content: string) returns (fed: string)
    ensures fed == start + Framed(path) + Framed(content)
  {
    ghost var before := start + Framed(path) + U64Bytes(|content|);
    fed := start + Framed(path) + U64Bytes(|content|);
    var read := 0;
    while read < |content|
      invariant 0 <= read <= |content| && fed == before + content[..read]
    {
      var size: int := *;
      if size < 1 || size > READ_BUFFER || read + size > |content| { size := 1; }
      fed := fed + content[read..read + size];
      assert content[..read] + content[read..read + size] == content[..read + size];
      read := read + size;
    }
    assert content[..read] == content;
  }

  /** The file checks of `verify_plan_manifest`, one after the other. */
  method VerifyDigests(sha: string -> string, tree: Tree, directory: Path, expected: Digests) returns (ok: bool)
    ensures ok <==> DigestsOf(sha, tree, directory) == Some(expected)
  {
    ok := false;
    var plan := SavedPlan(tree, directory);
    if plan.None? || expected.plan != sha(plan.value) { return; }
    var snapshot := SnapshotDigest(sha, tree);
    if expected.snapshot != snapshot { return; }
    if expected.lockFile != Digest(sha, LockFile(tree, directory)) { return; }
    if expected.inputState != Digest(sha, InputState(tree, directory)) { return; }
    ok := expected.providers == ProviderDigests(sha, tree, directory);
  }

  /** With the digests that the plan recorded, the apply's check passes exactly if the apply side has the
      plan's files. */
  method VerifyAgainst(
    sha: string -> string, ghost planned: Tree, expected: Digests, tree: Tree, directory: Path) returns (ok: bool)
    requires CollisionFree(sha) && Sound(Hashed(planned)) && Sound(Hashed(tree))
    requires DigestsOf(sha, planned, directory) == Some(expected)
    ensures ok <==> SameVouched(planned, tree, directory)
  {
    DigestsTell(sha, planned, tree, directory);
    ok := VerifyDigests(sha, tree, directory, expected);
  }
}
