/** Publication into the toolchain cache (`src/toolchain.rs:85-312`): any number of resolvers of one
    checksum, interleaved step by step, each of which may fail or crash at any time and then loses its
    lock. Renaming is atomic, the lock excludes, and nobody else touches the entry. */
module Toolchain {
  import opened Outcomes

  datatype Metadata = Metadata(
    product: string, version: string, os: string, arch: string, archiveDigest: string, executableDigest: string)

  datatype CacheEntry = CacheEntry(executable: string, metadata: Metadata)

  /** What the resolvers have in common. */
  datatype Setting = Setting(
    checksum: string, product: string, os: string, arch: string,
    digest: string -> string,
    /** The one executable in an archive, if it is valid. */
    extract: string -> Option<string>,
    /** The version that an executable reports. */
    version: string -> Option<string>,
    /** Whether a reported version is the requested one, and whether any version will do. */
    accepts: (string, string) -> bool,
    latest: string -> bool)

  predicate VersionMatches(e: Setting, executable: string, requested: string) {
    e.version(executable).Some? && (e.latest(requested) || e.accepts(requested, e.version(executable).value))
  }

  datatype Check = Absent | Usable(executable: string) | Rejected

  /** `cached_binary`. */
  function CachedBinary(e: Setting, entry: Option<CacheEntry>, requested: string): Check {
    match entry
    case None => Absent
    case Some(CacheEntry(executable, m)) =>
      if m.product != e.product || m.os != e.os || m.arch != e.arch || m.archiveDigest != e.checksum then Rejected
      else if e.digest(executable) != m.executableDigest then Rejected
      else if !VersionMatches(e, executable, requested) then Rejected
      else Usable(executable)
  }

  /** Where one resolver has come to. */
  datatype Stage =
    | Looking
    | Queued
    | LookingAgain
    | Fetching
    | Unpacking(archive: string)
    | Describing(archive: string, executable: string)
    | Publishing(built: CacheEntry)
    | Renaming(built: CacheEntry)
    | Published
    | Using(executable: string)
    | Failed
    | EntryAppeared

  predicate Holding(stage: Stage) {
    match stage
    case Looking => false
    case Queued => false
    case Using(_) => false
    case Failed => false
    case EntryAppeared => false
    case _ => true
  }

  type ResolverId = nat

  datatype World = World(
    entry: Option<CacheEntry>, lock: Option<ResolverId>, stages: map<ResolverId, Stage>,
    requested: map<ResolverId, string>)

  predicate Sane(w: World) { w.requested.Keys == w.stages.Keys }

  /** One resolver goes on, holding the lock exactly as long as its stage does. */
  function Moved(w: World, r: ResolverId, stage: Stage): World {
    w.(
      stages := w.stages[r := stage],
      lock := if Holding(stage) then Some(r) else if w.lock == Some(r) then None else w.lock)
  }

  function MetadataFor(e: Setting, executable: string, version: string): Metadata {
    Metadata(e.product, version, e.os, e.arch, e.checksum, e.digest(executable))
  }

  ghost predicate Proceeds(e: Setting, w: World, r: ResolverId, w': World)
    requires Sane(w) && r in w.stages
  {
    var requested := w.requested[r];
    match w.stages[r]
    case Looking =>
      (match CachedBinary(e, w.entry, requested)
       case Absent => w' == Moved(w, r, Queued)
       case Usable(executable) => w' == Moved(w, r, Using(executable))
       case Rejected => w' == Moved(w, r, Failed))
    case Queued =>
      w.lock == None && w' == Moved(w, r, LookingAgain)
    case LookingAgain =>
      (match CachedBinary(e, w.entry, requested)
       case Absent => w' == Moved(w, r, Fetching)
       case Usable(executable) => w' == Moved(w, r, Using(executable))
       case Rejected => w' == Moved(w, r, Failed))
    case Fetching =>
      exists archive ::
        w' == Moved(w, r, if e.digest(archive) == e.checksum then Unpacking(archive) else Failed)
    case Unpacking(archive) =>
      w' == Moved(w, r, if e.extract(archive).Some? then Describing(archive, e.extract(archive).value) else Failed)
    case Describing(archive, executable) =>
      var version := e.version(executable);
      w' == Moved(w, r,
        if version.Some? && e.accepts(requested, version.value)
        then Publishing(CacheEntry(executable, MetadataFor(e, executable, version.value))) else Failed)
    case Publishing(built) =>
      w' == Moved(w, r, if w.entry.Some? then EntryAppeared else Renaming(built))
    case Renaming(built) =>
      if w.entry.Some? then w' == Moved(w, r, Failed)
      else w' == Moved(w, r, Published).(entry := Some(built))
    case Published =>
      w' == Moved(w, r,
        match CachedBinary(e, w.entry, requested)
        case Usable(executable) => Using(executable)
        case _ => Failed)
    case _ => false
  }

  /** A resolver goes on, or fails or crashes instead. */
  ghost predicate Step(e: Setting, w: World, r: ResolverId, w': World) {
    Sane(w) && r in w.stages && (Proceeds(e, w, r, w') || w' == Moved(w, r, Failed))
  }

  /** A cache entry made of an archive with the right checksum. */
  ghost predicate Complete(e: Setting, entry: CacheEntry) {
    exists archive :: MadeFrom(e, archive, entry)
  }

  ghost predicate MadeFrom(e: Setting, archive: string, entry: CacheEntry) {
    && e.digest(archive) == e.checksum && e.extract(archive) == Some(entry.executable)
    && e.version(entry.executable).Some?
    && entry.metadata == MetadataFor(e, entry.executable, e.version(entry.executable).value)
  }

  ghost predicate StageOk(e: Setting, entry: Option<CacheEntry>, requested: string, stage: Stage) {
    match stage
    case Fetching => entry.None?
    case Unpacking(archive) => entry.None? && e.digest(archive) == e.checksum
    case Describing(archive, executable) =>
      entry.None? && e.digest(archive) == e.checksum && e.extract(archive) == Some(executable)
    case Publishing(built) => entry.None? && Complete(e, built) && VersionMatches(e, built.executable, requested)
    case Renaming(built) => entry.None? && Complete(e, built) && VersionMatches(e, built.executable, requested)
    case Published => entry.Some? && VersionMatches(e, entry.value.executable, requested)
    case Using(executable) =>
      entry.Some? && entry.value.executable == executable && VersionMatches(e, executable, requested)
    case EntryAppeared => false
    case _ => true
  }

  ghost predicate Inv(e: Setting, w: World) {
    && Sane(w)
    && (w.entry.Some? ==> Complete(e, w.entry.value))
    && (forall r :: r in w.stages ==> (Holding(w.stages[r]) <==> w.lock == Some(r)))
    && (forall r :: r in w.stages ==> StageOk(e, w.entry, w.requested[r], w.stages[r]))
  }

  lemma CompleteIsUsable(e: Setting, entry: CacheEntry, requested: string)
    requires Complete(e, entry) && VersionMatches(e, entry.executable, requested)
    ensures CachedBinary(e, Some(entry), requested) == Usable(entry.executable)
  {
  }

  /** Moving a resolver to a stage that suits it keeps the invariant. */
  lemma MoveKeeps(e: Setting, w: World, r: ResolverId, stage: Stage)
    requires Inv(e, w) && r in w.stages
    requires Holding(stage) ==> w.lock in {None, Some(r)}
    requires StageOk(e, w.entry, w.requested[r], stage)
    ensures Inv(e, Moved(w, r, stage))
  {
  }

  /** While one resolver holds the lock, no other depends on the entry being absent. */
  lemma RenameKeeps(e: Setting, w: World, r: ResolverId, built: CacheEntry)
    requires Inv(e, w) && r in w.stages && w.stages[r] == Renaming(built)
    ensures Inv(e, Moved(w, r, Published).(entry := Some(built)))
  {
    var w' := Moved(w, r, Published).(entry := Some(built));
    forall q | q in w'.stages ensures StageOk(e, w'.entry, w'.requested[q], w'.stages[q]) {
      assert q != r ==> !Holding(w.stages[q]);
    }
  }

  lemma StepKeeps(e: Setting, w: World, r: ResolverId, w': World)
    requires Inv(e, w) && Step(e, w, r, w')
    ensures Inv(e, w') && (w.entry.Some? ==> w'.entry == w.entry)
  {
    if w' == Moved(w, r, Failed) {
      MoveKeeps(e, w, r, Failed);
    } else if w.stages[r].Renaming? {
      RenameKeeps(e, w, r, w.stages[r].built);
    } else {
      assert StageOk(e, w.entry, w.requested[r], w.stages[r]);
      OtherStepKeeps(e, w, r, w');
    }
  }

  lemma OtherStepKeeps(e: Setting, w: World, r: ResolverId, w': World)
    requires Inv(e, w) && Step(e, w, r, w') && !w.stages[r].Renaming?
    ensures Inv(e, w') && w'.entry == w.entry
  {
    var stage := w'.stages[r];
    NextStageOk(e, w, r, w');
    assert w' == Moved(w, r, stage);
    MoveKeeps(e, w, r, stage);
  }

  lemma NextStageOk(e: Setting, w: World, r: ResolverId, w': World)
    requires Inv(e, w) && Step(e, w, r, w') && !w.stages[r].Renaming?
    ensures r in w'.stages && StageOk(e, w.entry, w.requested[r], w'.stages[r])
    ensures Holding(w'.stages[r]) ==> w.lock in {None, Some(r)}
  {
    var stage := w'.stages[r];
    if stage.Publishing? {
      var archive := w.stages[r].archive;
      assert MadeFrom(e, archive, stage.built);
    }
  }

  // ---------------------------------------------------------------------------------------------
  // Whole runs
  // ---------------------------------------------------------------------------------------------

  ghost predicate Initial(e: Setting, w: World) {
    && Sane(w) && w.lock == None && (w.entry.Some? ==> Complete(e, w.entry.value))
    && forall r :: r in w.stages ==> w.stages[r] == Looking
  }

  ghost predicate Run(e: Setting, worlds: seq<World>, movers: seq<ResolverId>) {
    && |worlds| == |movers| + 1 && Initial(e, worlds[0])
    && forall i :: 0 <= i < |movers| ==> Step(e, worlds[i], movers[i], worlds[i + 1])
  }

  lemma {:induction false} ReachableInv(e: Setting, worlds: seq<World>, movers: seq<ResolverId>, i: nat)
    requires Run(e, worlds, movers) && i < |worlds|
    ensures Inv(e, worlds[i])
  {
    if i > 0 {
      var j: nat := i - 1;
      ReachableInv(e, worlds, movers, j);
      StepKeeps(e, worlds[j], movers[j], worlds[j + 1]);
    }
  }

  /** The entry goes from absent to complete at most once, and then never changes. */
  lemma {:induction false} EntryNeverChanges(e: Setting, worlds: seq<World>, movers: seq<ResolverId>, i: nat, j: nat)
    requires Run(e, worlds, movers) && i <= j < |worlds| && worlds[i].entry.Some?
    ensures worlds[j].entry == worlds[i].entry && Complete(e, worlds[i].entry.value)
  {
    ReachableInv(e, worlds, movers, i);
    if i < j {
      var k: nat := j - 1;
      EntryNeverChanges(e, worlds, movers, i, k);
      ReachableInv(e, worlds, movers, k);
      StepKeeps(e, worlds[k], movers[k], worlds[k + 1]);
    }
  }

  /** Every resolver that uses the entry, whenever it does, gets the same executable, which comes from
      an archive with the checksum. */
  lemma AllUseTheSame(
    e: Setting, worlds: seq<World>, movers: seq<ResolverId>, i: nat, r: ResolverId, j: nat, q: ResolverId)
    requires Run(e, worlds, movers) && i <= j < |worlds|
    requires r in worlds[i].stages && worlds[i].stages[r].Using? && q in worlds[j].stages && worlds[j].stages[q].Using?
    ensures worlds[i].stages[r].executable == worlds[j].stages[q].executable
    ensures exists archive ::
      e.digest(archive) == e.checksum && e.extract(archive) == Some(worlds[i].stages[r].executable)
  {
    ReachableInv(e, worlds, movers, i);
    ReachableInv(e, worlds, movers, j);
    assert StageOk(e, worlds[i].entry, worlds[i].requested[r], worlds[i].stages[r]);
    assert StageOk(e, worlds[j].entry, worlds[j].requested[q], worlds[j].stages[q]);
    EntryNeverChanges(e, worlds, movers, i, j);
    var archive :| MadeFrom(e, archive, worlds[i].entry.value);
  }

  /** And it reports a version that this resolver asked for, also if another resolver built it. */
  lemma EachGetsItsVersion(e: Setting, worlds: seq<World>, movers: seq<ResolverId>, i: nat, r: ResolverId)
    requires Run(e, worlds, movers) && i < |worlds| && r in worlds[i].stages && worlds[i].stages[r].Using?
    ensures r in worlds[i].requested
    ensures
      var version := e.version(worlds[i].stages[r].executable);
      version.Some? && (e.latest(worlds[i].requested[r]) || e.accepts(worlds[i].requested[r], version.value))
  {
    ReachableInv(e, worlds, movers, i);
    assert StageOk(e, worlds[i].entry, worlds[i].requested[r], worlds[i].stages[r]);
  }

  /** An entry is used only as it was made: for this product, platform and archive, and with the executable
      that its digest was taken of. */
  lemma OnlyIntactIsUsable(e: Setting, made: CacheEntry, found: CacheEntry, requested: string)
    requires Complete(e, made) && found.metadata.executableDigest == made.metadata.executableDigest
    requires forall a, b :: e.digest(a) == e.digest(b) ==> a == b
    ensures CachedBinary(e, Some(found), requested).Usable? <==>
      && found.executable == made.executable && found.metadata.product == e.product
      && found.metadata.os == e.os && found.metadata.arch == e.arch && found.metadata.archiveDigest == e.checksum
      && (e.latest(requested) || e.accepts(requested, e.version(found.executable).value))
  {
  }

  /** The branch for an entry that appears while publishing is never taken, and what was published
      passes the last check. */
  lemma PublishingIsUndisturbed(e: Setting, worlds: seq<World>, movers: seq<ResolverId>, i: nat, r: ResolverId)
    requires Run(e, worlds, movers) && i < |worlds| && r in worlds[i].stages
    ensures worlds[i].stages[r] != EntryAppeared
    ensures worlds[i].stages[r].Renaming? ==> worlds[i].entry == None
    ensures worlds[i].stages[r] == Published ==>
      r in worlds[i].requested && CachedBinary(e, worlds[i].entry, worlds[i].requested[r]).Usable?
  {
    ReachableInv(e, worlds, movers, i);
    assert StageOk(e, worlds[i].entry, worlds[i].requested[r], worlds[i].stages[r]);
    if worlds[i].stages[r] == Published {
      CompleteIsUsable(e, worlds[i].entry.value, worlds[i].requested[r]);
    }
  }

  // ---------------------------------------------------------------------------------------------
  // One resolver on its own
  // ---------------------------------------------------------------------------------------------

  ghost predicate Next(e: Setting, w: World, r: ResolverId, w': World) {
    Sane(w) && r in w.stages && Proceeds(e, w, r, w')
  }

  /** The resolver goes from one world to the next, undisturbed and without a failure. */
  ghost predicate Undisturbed(e: Setting, worlds: seq<World>, r: ResolverId) {
    |worlds| > 0 && forall i :: 0 < i < |worlds| ==> Next(e, worlds[i - 1], r, worlds[i])
  }

  /** Where an undisturbed resolver has come to. */
  ghost predicate At(w: World, start: World, r: ResolverId, stage: Stage, entry: Option<CacheEntry>) {
    && Sane(w) && r in w.stages && w.stages[r] == stage && w.requested == start.requested && w.entry == entry
    && w.lock == if Holding(stage) then Some(r) else None
  }

  lemma GoesOn(e: Setting, worlds: seq<World>, start: World, r: ResolverId, w: World, to: Stage,
               entry: Option<CacheEntry>)
    returns (longer: seq<World>, last: World)
    requires Undisturbed(e, worlds, r) && w == worlds[|worlds| - 1]
    requires r in w.stages && At(w, start, r, w.stages[r], w.entry)
    requires Next(e, w, r, Moved(w, r, to).(entry := entry))
    ensures last == Moved(w, r, to).(entry := entry) && longer == worlds + [last]
    ensures Undisturbed(e, longer, r) && At(last, start, r, to, entry)
  {
    last := Moved(w, r, to).(entry := entry);
    longer := worlds + [last];
  }

  /** With nothing cached and the lock free, a good archive is fetched and unpacked. */
  lemma UndisturbedFetches(e: Setting, w: World, r: ResolverId, archive: string)
    returns (worlds: seq<World>, last: World)
    requires At(w, w, r, Looking, None)
    requires e.digest(archive) == e.checksum && e.extract(archive).Some?
    ensures Undisturbed(e, worlds, r) && worlds[0] == w && last == worlds[|worlds| - 1]
    ensures At(last, w, r, Describing(archive, e.extract(archive).value), None)
  {
    worlds, last := [w], w;
    worlds, last := GoesOn(e, worlds, w, r, last, Queued, None);
    worlds, last := GoesOn(e, worlds, w, r, last, LookingAgain, None);
    worlds, last := GoesOn(e, worlds, w, r, last, Fetching, None);
    assert Moved(last, r, Unpacking(archive)) == Moved(last, r, Unpacking(archive)).(entry := None);
    worlds, last := GoesOn(e, worlds, w, r, last, Unpacking(archive), None);
    worlds, last := GoesOn(e, worlds, w, r, last, Describing(archive, e.extract(archive).value), None);
  }

  /** And if its version is the requested one, it is published and used. */
  lemma UndisturbedPublishes(e: Setting, w: World, r: ResolverId, archive: string)
    returns (worlds: seq<World>, last: World)
    requires At(w, w, r, Looking, None)
    requires e.digest(archive) == e.checksum && e.extract(archive).Some?
    requires
      var version := e.version(e.extract(archive).value);
      version.Some? && e.accepts(w.requested[r], version.value)
    ensures Undisturbed(e, worlds, r) && worlds[0] == w && last == worlds[|worlds| - 1]
    ensures
      var executable := e.extract(archive).value;
      var metadata := MetadataFor(e, executable, e.version(executable).value);
      At(last, w, r, Using(executable), Some(CacheEntry(executable, metadata)))
  {
    var executable := e.extract(archive).value;
    var built := CacheEntry(executable, MetadataFor(e, executable, e.version(executable).value));
    worlds, last := UndisturbedFetches(e, w, r, archive);
    worlds, last := GoesOn(e, worlds, w, r, last, Publishing(built), None);
    worlds, last := GoesOn(e, worlds, w, r, last, Renaming(built), None);
    worlds, last := GoesOn(e, worlds, w, r, last, Published, Some(built));
    worlds, last := GoesOn(e, worlds, w, r, last, Using(executable), Some(built));
  }

  /** Once there is an entry, the next step of a resolver that looks is to use it, if its version is a
      requested one, and else to fail. */
  lemma CachedIsUsed(e: Setting, w: World, r: ResolverId, w': World)
    requires Inv(e, w) && r in w.stages && w.stages[r] in {Looking, LookingAgain} && w.entry.Some?
    requires Proceeds(e, w, r, w')
    ensures
      var executable := w.entry.value.executable;
      var version := e.version(executable);
      && version.Some?
      && r in w'.stages
      && w'.stages[r] ==
           if e.latest(w.requested[r]) || e.accepts(w.requested[r], version.value) then Using(executable) else Failed
  {
  }

  /** The lock excludes: two resolvers never build at once. */
  lemma OneHolder(e: Setting, worlds: seq<World>, movers: seq<ResolverId>, i: nat, r: ResolverId, q: ResolverId)
    requires Run(e, worlds, movers) && i < |worlds| && r in worlds[i].stages && q in worlds[i].stages
    requires Holding(worlds[i].stages[r]) && Holding(worlds[i].stages[q])
    ensures r == q
  {
    ReachableInv(e, worlds, movers, i);
  }
}
