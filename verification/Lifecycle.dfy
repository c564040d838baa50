/** What the driver of `src/main.rs` may do, one durable effect at a time, and what then holds over
    every run, however often the process stops in between. */
module Lifecycle {
  import opened Outcomes
  import opened Protocol
  import opened Journal

  datatype Event =
    | Wrote(record: Record)                       // a journal record was committed
    | Entered(job: JobId)                         // runner.run began
    | Created(job: JobId, dir: Dir)               // its run directory was made
    | Returned(job: JobId, completion: Completion, workDir: Option<Dir>)
    | Reported(job: JobId, completion: Completion, acked: bool)
    | Removed(job: JobId, dir: Dir)               // the run directory was removed
    | Pruned(job: JobId)                          // the journal forgot the job
    | Stopped                                     // memory was lost: a crash, or an error that ends the poll

  /** Disk and history; the driver keeps nothing else from one poll to the next. Each run directory
      is listed with the job whose run made it. */
  datatype World = World(records: map<JobId, Record>, dirs: map<Dir, JobId>, history: seq<Event>)

  const FRESH_DISK := World(map[], map[], [])

  function Perform(w: World, e: Event): World {
    var next := w.(history := w.history + [e]);
    match e
    case Wrote(record) => next.(records := w.records[record.manifest.jobId := record])
    case Created(job, dir) => next.(dirs := w.dirs[dir := job])
    case Removed(job, dir) => next.(dirs := w.dirs - {dir})
    case Pruned(job) => next.(records := w.records - {job})
    case _ => next
  }

  predicate NeedsWork(r: Record) { Unfinished(r.state, r.retainWorkDir) }

  ghost predicate NoBacklog(w: World) { forall job :: job in w.records ==> !NeedsWork(w.records[job]) }

  function Last(w: World): Event { if |w.history| > 0 then w.history[|w.history| - 1] else Stopped }

  /** The completion the driver makes up for a run that a restart interrupted. */
  function Interrupted(manifest: Manifest): Completion {
    Completion("errored", Some("agent restarted before durable completion"),
      CompletionData(manifest.runId, manifest.phase, None, None, None, false, false, None, None,
        Some("agent_restarted"), None, None))
  }

  /** The record written when a run's completion becomes durable. */
  function PendingRecord(r: Record, c: Completion, workDir: Option<Dir>, retain: bool): Record {
    Record(r.manifest.(workDir := workDir), CompletionPending, retain, Some(FromCompletion(c)))
  }

  ghost predicate MayWrite(w: World, r: Record) {
    var job := r.manifest.jobId;
    if job !in w.records then
      r == Record(r.manifest.(workDir := None), Claimed, false, None) && NoBacklog(w)
    else
      var was := w.records[job];
      match was.state
      case Claimed => r == was.(state := Executing) && NoBacklog(w)
      case Executing =>
        || (Last(w).Returned? && Last(w).job == job
            && var c := Last(w).completion;
               r == PendingRecord(was, c, Last(w).workDir, c.data.stateRecoveryRequired))
        || r == PendingRecord(was, Interrupted(was.manifest), None, false)
      case CompletionPending =>
        && r == was.(state := CompletionAcked, completion := None)
        && Last(w).Reported? && Last(w).job == job && Last(w).acked
        && was.completion == Some(FromCompletion(Last(w).completion))
      case CompletionAcked =>
        && r == was.(state := CleanupDone)
        && (was.retainWorkDir || was.manifest.workDir.None? || was.manifest.workDir.value !in w.dirs)
      case CleanupDone => false
  }

  /** The effects the driver may have next. */
  ghost predicate Allows(w: World, e: Event) {
    match e
    case Wrote(record) => MayWrite(w, record)
    case Entered(job) =>
      job in w.records && w.records[job].state == Executing && Last(w) == Wrote(w.records[job])
    case Created(job, dir) => dir !in w.dirs && Last(w) == Entered(job)
    case Returned(job, c, workDir) =>
      && job in w.records && Delivered(w.records[job].manifest.phase, c) && c.status in STATUSES
      && (if workDir.Some? then Last(w) == Created(job, workDir.value) else Last(w) == Entered(job))
    case Reported(job, c, _) =>
      && job in w.records && w.records[job].state == CompletionPending
      && w.records[job].completion == Some(FromCompletion(c))
    case Removed(job, dir) =>
      && job in w.records && w.records[job].state == CompletionAcked && !w.records[job].retainWorkDir
      && w.records[job].manifest.workDir == Some(dir) && dir in w.dirs
    case Pruned(job) => job in w.records && Prunable(w.records[job])
    case Stopped => true
  }

  /** A run of the agent from a fresh data directory: world `k` is what event `k` met. Any prefix is
      a run too, so a run may end, and a new process begin, after any event. */
  ghost predicate Run(worlds: seq<World>, events: seq<Event>) {
    && |worlds| == |events| + 1 && worlds[0] == FRESH_DISK
    && forall k :: 0 <= k < |events| ==> Step(worlds[k], events[k], worlds[k + 1])
  }

  lemma RunExtends(worlds: seq<World>, events: seq<Event>, e: Event)
    requires Run(worlds, events) && Allows(worlds[|events|], e)
    ensures Run(worlds + [Perform(worlds[|events|], e)], events + [e])
  {
    var longer, next := worlds + [Perform(worlds[|events|], e)], events + [e];
    forall k | 0 <= k < |next| ensures Step(longer[k], next[k], longer[k + 1]) {
      if k < |events| { assert Step(worlds[k], events[k], worlds[k + 1]); }
    }
  }

  /** Pruning several records is as many events. */
  lemma {:induction false} RunPrunes(worlds: seq<World>, events: seq<Event>, gone: set<JobId>)
    returns (longer: seq<World>, more: seq<Event>)
    requires Run(worlds, events) && gone <= worlds[|events|].records.Keys
    requires forall job :: job in gone ==> Prunable(worlds[|events|].records[job])
    ensures Run(longer, events + more) && forall e :: e in more ==> e.Pruned?
    ensures longer[|events + more|] ==
      World(worlds[|events|].records - gone, worlds[|events|].dirs, worlds[|events|].history + more)
    decreases gone
  {
    var w := worlds[|events|];
    if gone == {} {
      longer, more := worlds, [];
      assert events + [] == events && w.history + [] == w.history && w.records - gone == w.records;
    } else {
      var job :| job in gone;
      RunExtends(worlds, events, Pruned(job));
      longer, more := RunPrunes(worlds + [Perform(w, Pruned(job))], events + [Pruned(job)], gone - {job});
      assert w.records - {job} - (gone - {job}) == w.records - gone;
      assert w.history + ([Pruned(job)] + more) == w.history + [Pruned(job)] + more;
      assert events + ([Pruned(job)] + more) == events + [Pruned(job)] + more;
      more := [Pruned(job)] + more;
    }
  }

  ghost predicate Step(w: World, e: Event, next: World) { Allows(w, e) && next == Perform(w, e) }

  // ---------------------------------------------------------------------------------------------
  // One job's life, from its record's creation to its pruning
  // ---------------------------------------------------------------------------------------------

  datatype Life = Life(
    entered: nat,
    returned: Option<(Completion, Option<Dir>)>,
    reported: set<Completion>,
    acked: Option<Completion>,
    removed: set<Dir>)

  const UNBORN := Life(0, None, {}, None, {})

  function Live(life: Life, job: JobId, e: Event): Life {
    match e
    case Entered(j) => if j == job then life.(entered := life.entered + 1) else life
    case Returned(j, c, workDir) => if j == job then life.(returned := Some((c, workDir))) else life
    case Reported(j, c, acked) =>
      if j != job then life
      else life.(reported := life.reported + {c}, acked := if acked then Some(c) else life.acked)
    case Removed(j, dir) => if j == job then life.(removed := life.removed + {dir}) else life
    case Pruned(j) => if j == job then UNBORN else life
    case _ => life
  }

  function LifeOf(events: seq<Event>, job: JobId): Life {
    if |events| == 0 then UNBORN
    else Live(LifeOf(events[..|events| - 1], job), job, events[|events| - 1])
  }

  /** The completion that `r` stands for: what the run returned, or the made-up one. */
  ghost predicate Stands(r: Record, life: Life, c: Completion) {
    if r.manifest.workDir.Some? then
      life.returned == Some((c, r.manifest.workDir)) && r.retainWorkDir == c.data.stateRecoveryRequired
    else
      c == Interrupted(r.manifest) || life.returned == Some((c, None))
  }

  /** How a record and the job's life so far fit together. */
  ghost predicate Fits(r: Record, life: Life) {
    && life.entered <= 1
    && (life.returned.Some? ==> Delivered(r.manifest.phase, life.returned.value.0))
    && (r.completion.Some? <==> r.state == CompletionPending)
    && match r.state
       case Claimed => life == UNBORN && r.manifest.workDir == None && !r.retainWorkDir
       case Executing =>
         && life.reported == {} && life.acked == None && life.removed == {}
         && r.manifest.workDir == None && !r.retainWorkDir
       case CompletionPending =>
         && life.removed == {}
         && r.completion.Some?
         && var c := Restored(r.completion.value);
         && Stands(r, life, c) && life.reported <= {c} && (life.acked.None? || life.acked == Some(c))
       case _ =>
         && life.acked.Some? && life.reported == {life.acked.value} && Stands(r, life, life.acked.value)
         && (r.retainWorkDir ==> life.removed == {})
         && (r.manifest.workDir.Some? ==> life.removed <= {r.manifest.workDir.value})
         && (r.manifest.workDir.None? ==> life.removed == {})
  }

  ghost predicate Owns(w: World, job: JobId)
    requires job in w.records
  {
    var r := w.records[job];
    r.manifest.workDir.Some? ==>
      var dir := r.manifest.workDir.value;
      && (r.retainWorkDir ==> dir in w.dirs && w.dirs[dir] == job)
      && (NeedsWork(r) && dir in w.dirs ==> w.dirs[dir] == job)
  }

  /** What the last event left in memory. */
  ghost predicate Remembers(w: World) {
    match Last(w)
      case Wrote(r) =>
        && r.manifest.jobId in w.records && w.records[r.manifest.jobId] == r
        && (r.state == Executing ==> LifeOf(w.history, r.manifest.jobId) == UNBORN)
      case Entered(job) => job in w.records && w.records[job].state == Executing
      case Created(job, dir) =>
        job in w.records && w.records[job].state == Executing && dir in w.dirs && w.dirs[dir] == job
      case Returned(job, c, workDir) =>
        && job in w.records && w.records[job].state == Executing
        && LifeOf(w.history, job).returned == Some((c, workDir))
        && (workDir.Some? ==> workDir.value in w.dirs && w.dirs[workDir.value] == job)
      case Reported(job, c, acked) => acked ==> LifeOf(w.history, job).acked == Some(c)
      case _ => true
  }

  /** A job's record, life and directory fit together; a job without a record has no life. */
  ghost predicate Settled(w: World, job: JobId) {
    if job in w.records then
      && w.records[job].manifest.jobId == job
      && Fits(w.records[job], LifeOf(w.history, job)) && Owns(w, job)
    else LifeOf(w.history, job) == UNBORN
  }

  ghost predicate OneAtATime(w: World) {
    forall i, j :: i in w.records && j in w.records && NeedsWork(w.records[i]) && NeedsWork(w.records[j]) ==> i == j
  }

  /** The crash invariant: it holds after every event, so also wherever a run is cut off. */
  ghost predicate Inv(w: World) {
    && (forall job :: Settled(w, job))
    && OneAtATime(w)
    && Remembers(w)
  }

  lemma LifeAfter(w: World, e: Event, job: JobId)
    ensures LifeOf(Perform(w, e).history, job) == Live(LifeOf(w.history, job), job, e)
  {
    var h := Perform(w, e).history;
    assert h[..|h| - 1] == w.history && h[|h| - 1] == e;
  }

  /** Events of one job leave the other jobs' lives alone. */
  function Subject(e: Event): Option<JobId> {
    match e
    case Wrote(r) => Some(r.manifest.jobId)
    case Stopped => None
    case _ => Some(e.job)
  }

  lemma OthersKept(w: World, e: Event, job: JobId)
    requires Inv(w) && Allows(w, e) && Some(job) != Subject(e)
    ensures job in Perform(w, e).records <==> job in w.records
    ensures job in w.records ==> Perform(w, e).records[job] == w.records[job]
    ensures LifeOf(Perform(w, e).history, job) == LifeOf(w.history, job)
    ensures Settled(Perform(w, e), job)
  {
    LifeAfter(w, e, job);
    assert Settled(w, job);
    if e.Created? || e.Removed? { assert Settled(w, e.job); }
  }

  lemma SubjectFitsAfterWrite(w: World, r: Record)
    requires Inv(w) && MayWrite(w, r)
    ensures Settled(Perform(w, Wrote(r)), r.manifest.jobId)
  {
    var job := r.manifest.jobId;
    LifeAfter(w, Wrote(r), job);
    assert Settled(w, job);
    if job in w.records {
      var was, life := w.records[job], LifeOf(w.history, job);
      assert Fits(was, life);
      match was.state {
        case Claimed => assert Fits(r, life);
        case Executing => assert Fits(r, life);
        case CompletionPending => assert Fits(r, life);
        case CompletionAcked => assert Fits(r, life);
        case _ =>
      }
    }
  }

  lemma SubjectFitsAfterReport(w: World, job: JobId, c: Completion, acked: bool)
    requires Inv(w) && Allows(w, Reported(job, c, acked))
    ensures Settled(Perform(w, Reported(job, c, acked)), job)
  {
    LifeAfter(w, Reported(job, c, acked), job);
    assert Settled(w, job);
    assert Restored(w.records[job].completion.value) == c;
  }

  lemma SubjectFits(w: World, e: Event, job: JobId)
    requires Inv(w) && Allows(w, e) && Some(job) == Subject(e)
    ensures Settled(Perform(w, e), job)
  {
    LifeAfter(w, e, job);
    assert Settled(w, job);
    if e.Wrote? { SubjectFitsAfterWrite(w, e.record); }
    if e.Reported? { SubjectFitsAfterReport(w, job, e.completion, e.acked); }
  }

  lemma SingleKept(w: World, e: Event, i: JobId, j: JobId)
    requires Inv(w) && Allows(w, e)
    requires i in Perform(w, e).records && NeedsWork(Perform(w, e).records[i])
    requires j in Perform(w, e).records && NeedsWork(Perform(w, e).records[j])
    ensures i == j
  {
    if Subject(e).Some? { assert Settled(w, Subject(e).value); }
  }

  lemma RemembersKept(w: World, e: Event)
    requires Inv(w) && Allows(w, e)
    ensures Remembers(Perform(w, e))
  {
    if Subject(e).Some? {
      LifeAfter(w, e, Subject(e).value);
      assert Settled(w, Subject(e).value);
    }
  }

  lemma InvKept(w: World, e: Event)
    requires Inv(w) && Allows(w, e)
    ensures Inv(Perform(w, e))
  {
    var next := Perform(w, e);
    forall job
      ensures Settled(next, job)
    {
      if Some(job) == Subject(e) { SubjectFits(w, e, job); } else { OthersKept(w, e, job); }
    }
    forall i, j |
      i in next.records && j in next.records && NeedsWork(next.records[i]) && NeedsWork(next.records[j])
      ensures i == j
    {
      SingleKept(w, e, i, j);
    }
    RemembersKept(w, e);
  }

  // ---------------------------------------------------------------------------------------------
  // The writes that finish a job are always open to the driver
  // ---------------------------------------------------------------------------------------------

  /** The driver holds in memory what the journal says. */
  ghost predicate Held(w: World, entry: Entry) {
    var job := entry.manifest.jobId;
    job in w.records && ToEntry(w.records[job]) == Ok(entry)
  }

  ghost predicate OthersIdle(w: World, job: JobId) {
    forall other :: other in w.records && other != job ==> !NeedsWork(w.records[other])
  }

  lemma OthersStayIdle(w: World, e: Event, job: JobId)
    requires OthersIdle(w, job) && (Subject(e) == None || Subject(e) == Some(job))
    ensures OthersIdle(Perform(w, e), job)
  {
  }

  lemma HeldAfterWrite(w: World, entry: Entry, record: Record)
    requires ToEntry(record) == Ok(entry)
    ensures Held(Perform(w, Wrote(record)), entry)
  {
  }

  lemma MayExecute(w: World, entry: Entry)
    requires Inv(w) && Held(w, entry) && entry.state == Claimed && NoBacklog(w)
    ensures MayWrite(w, Record(entry.manifest, Executing, entry.retainWorkDir, None))
  {
    assert Settled(w, entry.manifest.jobId);
  }

  lemma MayRecord(w: World, entry: Entry, c: Completion, workDir: Option<Dir>)
    requires Held(w, entry) && entry.state == Executing
    requires Last(w) == Returned(entry.manifest.jobId, c, workDir)
    ensures MayWrite(w, Record(entry.manifest.(workDir := workDir), CompletionPending,
      c.data.stateRecoveryRequired, Some(FromCompletion(c))))
  {
  }

  lemma BacklogIsOne(w: World, job: JobId)
    requires Inv(w) && job in w.records && NeedsWork(w.records[job])
    ensures OthersIdle(w, job)
  {
  }

  lemma MayGiveUp(w: World, entry: Entry)
    requires Inv(w) && Held(w, entry) && entry.state == Executing
    ensures
      var stored := FromCompletion(Interrupted(entry.manifest));
      && MayWrite(w, Record(entry.manifest, CompletionPending, false, Some(stored)))
      && ToEntry(Record(entry.manifest, CompletionPending, false, Some(stored)))
          == Ok(Entry(entry.manifest, CompletionPending, false, Some(Interrupted(entry.manifest))))
      && TellsOfRestart(entry.manifest, Interrupted(entry.manifest))
  {
    assert Settled(w, entry.manifest.jobId);
  }

  lemma MayReport(w: World, entry: Entry, acked: bool)
    requires Inv(w) && Held(w, entry) && entry.state == CompletionPending
    ensures entry.completion.Some?
    ensures Allows(w, Reported(entry.manifest.jobId, entry.completion.value, acked))
  {
    assert Settled(w, entry.manifest.jobId);
  }

  lemma MayAcknowledge(w: World, entry: Entry)
    requires Inv(w) && Held(w, entry) && entry.state == CompletionPending && entry.completion.Some?
    requires Last(w) == Reported(entry.manifest.jobId, entry.completion.value, true)
    ensures MayWrite(w, Record(entry.manifest, CompletionAcked, entry.retainWorkDir, None))
  {
    assert Settled(w, entry.manifest.jobId);
  }

  lemma MayFinish(w: World, entry: Entry)
    requires Inv(w) && Held(w, entry) && entry.state == CompletionAcked
    requires entry.retainWorkDir || entry.manifest.workDir.None? || entry.manifest.workDir.value !in w.dirs
    ensures MayWrite(w, Record(entry.manifest, CleanupDone, entry.retainWorkDir, None))
  {
    assert Settled(w, entry.manifest.jobId);
  }

  // ---------------------------------------------------------------------------------------------
  // Every run
  // ---------------------------------------------------------------------------------------------

  lemma {:induction false} ReachableInv(worlds: seq<World>, events: seq<Event>, k: nat)
    requires Run(worlds, events) && k <= |events|
    ensures Inv(worlds[k]) && worlds[k].history == events[..k]
  {
    if k == 0 {
      forall job ensures Settled(worlds[0], job) { }
    } else {
      ReachableInv(worlds, events, k - 1);
      assert Step(worlds[k - 1], events[k - 1], worlds[k]);
      InvKept(worlds[k - 1], events[k - 1]);
      assert events[..k] == events[..k - 1] + [events[k - 1]];
    }
  }

  /** The job's record lived on from event `i` up to event `k`. */
  ghost predicate SameLife(events: seq<Event>, job: JobId, i: int, k: int)
    requires -1 <= i && k <= |events|
  {
    forall m :: i < m < k ==> events[m] != Pruned(job)
  }

  lemma {:induction false} LifeShows(events: seq<Event>, job: JobId, i: nat)
    requires i < |events| && SameLife(events, job, i, |events|)
    ensures events[i] == Entered(job) ==> LifeOf(events, job).entered > 0
    ensures events[i].Reported? && events[i].job == job ==> events[i].completion in LifeOf(events, job).reported
  {
    var last := |events| - 1;
    if i < last { LifeShows(events[..last], job, i); }
  }

  lemma {:induction false} LifeStems(events: seq<Event>, job: JobId)
    ensures LifeOf(events, job).acked.Some? ==>
      exists i :: 0 <= i < |events| && SameLife(events, job, i, |events|)
        && events[i] == Reported(job, LifeOf(events, job).acked.value, true)
    ensures LifeOf(events, job).returned.Some? ==>
      var (c, workDir) := LifeOf(events, job).returned.value;
      exists i :: 0 <= i < |events| && SameLife(events, job, i, |events|) && events[i] == Returned(job, c, workDir)
  {
    if |events| > 0 {
      var last := |events| - 1;
      var life, was := LifeOf(events, job), LifeOf(events[..last], job);
      LifeStems(events[..last], job);
      if was.acked.Some? && life.acked == was.acked {
        var i :| 0 <= i < last && SameLife(events[..last], job, i, last)
          && events[..last][i] == Reported(job, was.acked.value, true);
        assert SameLife(events, job, i, |events|) && events[i] == Reported(job, was.acked.value, true);
      } else if life.acked.Some? {
        assert SameLife(events, job, last, |events|) && events[last] == Reported(job, life.acked.value, true);
      }
      if was.returned.Some? && life.returned == was.returned {
        var (c, workDir) := was.returned.value;
        var i :| 0 <= i < last && SameLife(events[..last], job, i, last)
          && events[..last][i] == Returned(job, c, workDir);
        assert SameLife(events, job, i, |events|) && events[i] == Returned(job, c, workDir);
      } else if life.returned.Some? {
        var (c, workDir) := life.returned.value;
        assert SameLife(events, job, last, |events|) && events[last] == Returned(job, c, workDir);
      }
    }
  }

  lemma RemovalStep(w: World, job: JobId, dir: Dir)
    requires Inv(w) && Allows(w, Removed(job, dir))
    ensures LifeOf(w.history, job).acked.Some? && LifeOf(w.history, job).returned.Some?
    ensures
      var c := LifeOf(w.history, job).acked.value;
      && LifeOf(w.history, job).returned.value == (c, Some(dir)) && !c.data.stateRecoveryRequired
      && Delivered(w.records[job].manifest.phase, c)
  {
    assert Settled(w, job);
  }

  /** At event `k` the server had acknowledged, for this life of the job, the completion `c` that the
      run of directory `dir` returned. */
  ghost predicate DeliveredBefore(events: seq<Event>, k: nat, job: JobId, dir: Dir, c: Completion)
    requires k <= |events|
  {
    && (exists h :: 0 <= h < k && events[h] == Returned(job, c, Some(dir)) && SameLife(events, job, h, k))
    && (exists i :: 0 <= i < k && events[i] == Reported(job, c, true) && SameLife(events, job, i, k))
  }

  lemma LifeDelivered(events: seq<Event>, k: nat, job: JobId, dir: Dir, c: Completion)
    requires k <= |events|
    requires LifeOf(events[..k], job).acked == Some(c)
    requires LifeOf(events[..k], job).returned == Some((c, Some(dir)))
    ensures DeliveredBefore(events, k, job, dir, c)
  {
    var before := events[..k];
    LifeStems(before, job);
    var i :| 0 <= i < k && SameLife(before, job, i, k) && before[i] == Reported(job, c, true);
    var h :| 0 <= h < k && SameLife(before, job, h, k) && before[h] == Returned(job, c, Some(dir));
    assert events[i] == Reported(job, c, true) && SameLife(events, job, i, k);
    assert events[h] == Returned(job, c, Some(dir)) && SameLife(events, job, h, k);
  }

  /** A run directory is removed only after the server acknowledged the very completion that the
      directory's own run returned, and if that run was an apply, the completion carries its state. */
  lemma RemovalFollowsDelivery(worlds: seq<World>, events: seq<Event>, k: nat, job: JobId, dir: Dir)
    requires Run(worlds, events) && k < |events| && events[k] == Removed(job, dir)
    ensures job in worlds[k].records
    ensures exists c ::
      DeliveredBefore(events, k, job, dir, c) && !c.data.stateRecoveryRequired
      && (worlds[k].records[job].manifest.phase == "apply" ==> CarriesState(c))
  {
    ReachableInv(worlds, events, k);
    assert Step(worlds[k], events[k], worlds[k + 1]);
    RemovalStep(worlds[k], job, dir);
    LifeDelivered(events, k, job, dir, LifeOf(events[..k], job).acked.value);
  }

  /** The server acknowledged `c` at or after event `since`. */
  ghost predicate Acked(events: seq<Event>, since: nat, job: JobId, c: Completion) {
    exists j :: since <= j < |events| && events[j] == Reported(job, c, true)
  }

  lemma AckedAfter(before: seq<Event>, events: seq<Event>, since: nat, job: JobId, c: Completion)
    requires since <= |before| && before + [Reported(job, c, true)] <= events
    ensures Acked(events, since, job, c)
  {
    assert events[|before|] == Reported(job, c, true);
  }

  /** A run of the job returned `c` at or after event `since`. */
  ghost predicate ReturnedSince(events: seq<Event>, since: nat, job: JobId, c: Completion) {
    exists j :: since <= j < |events| && events[j].Returned? && events[j].job == job && events[j].completion == c
  }

  lemma ReturnedAfter(before: seq<Event>, events: seq<Event>, since: nat, job: JobId, c: Completion, d: Option<Dir>)
    requires since <= |before| && before + [Returned(job, c, d)] <= events
    ensures ReturnedSince(events, since, job, c)
  {
    assert events[|before|] == Returned(job, c, d);
  }

  /** This life of the job had, before event `k`, a run that returned `c`. */
  ghost predicate ReturnedBefore(events: seq<Event>, k: nat, job: JobId, c: Completion)
    requires k <= |events|
  {
    exists h ::
      0 <= h < k && events[h].Returned? && events[h].job == job && events[h].completion == c
      && SameLife(events, job, h, k)
  }

  lemma LifeReturned(events: seq<Event>, k: nat, job: JobId)
    requires k <= |events| && LifeOf(events[..k], job).returned.Some?
    ensures ReturnedBefore(events, k, job, LifeOf(events[..k], job).returned.value.0)
  {
    var before := events[..k];
    var (c, workDir) := LifeOf(before, job).returned.value;
    LifeStems(before, job);
    var h :| 0 <= h < k && SameLife(before, job, h, k) && before[h] == Returned(job, c, workDir);
    assert events[h] == Returned(job, c, workDir) && SameLife(events, job, h, k);
  }

  /** An error without any state, for a run that left no directory behind in its record. */
  predicate TellsOfRestart(manifest: Manifest, c: Completion) {
    && manifest.workDir == None && c.data.runId == manifest.runId && c.data.operation == manifest.phase
    && c.status == "errored" && c.error == Some("agent restarted before durable completion")
    && c.data.lifecycle == Some("agent_restarted")
    && !CarriesState(c) && c.data.jsonState == None && c.data.jsonStateOutputs == None
    && !c.data.stateRecovered && !c.data.stateRecoveryRequired
  }

  lemma ReportTells(w: World, job: JobId, c: Completion, acked: bool)
    requires Inv(w) && Allows(w, Reported(job, c, acked))
    ensures job in w.records
    ensures
      || (LifeOf(w.history, job).returned.Some? && LifeOf(w.history, job).returned.value.0 == c)
      || TellsOfRestart(w.records[job].manifest, c)
  {
    assert Settled(w, job);
    assert Restored(w.records[job].completion.value) == c;
  }

  /** The server is told what the job's own run returned, or else that the agent was restarted. Nothing is
      reported as finished, as canceled, or with a state, that the run did not return so. */
  lemma ReportsAreTrue(worlds: seq<World>, events: seq<Event>, k: nat)
    requires Run(worlds, events) && k < |events| && events[k].Reported?
    ensures
      var job, c := events[k].job, events[k].completion;
      && job in worlds[k].records
      && (ReturnedBefore(events, k, job, c) || TellsOfRestart(worlds[k].records[job].manifest, c))
      && (c.status in {"finished", "canceled"} || CarriesState(c) ==> ReturnedBefore(events, k, job, c))
  {
    var job, c := events[k].job, events[k].completion;
    ReachableInv(worlds, events, k);
    assert Step(worlds[k], events[k], worlds[k + 1]);
    ReportTells(worlds[k], job, c, events[k].acked);
    if LifeOf(events[..k], job).returned.Some? { LifeReturned(events, k, job); }
  }

  /** The job's record asks for `dir` to be kept, and `dir` is there and the job's own. */
  ghost predicate Keeps(w: World, job: JobId, dir: Dir) {
    && job in w.records && w.records[job].retainWorkDir && w.records[job].manifest.workDir == Some(dir)
    && dir in w.dirs && w.dirs[dir] == job
  }

  lemma KeepsStep(w: World, e: Event, job: JobId, dir: Dir)
    requires Inv(w) && Allows(w, e) && Keeps(w, job, dir)
    ensures Keeps(Perform(w, e), job, dir)
  {
    assert Settled(w, job);
    if e.Removed? { assert Settled(w, e.job); }
  }

  lemma RetainedKeeps(w: World, job: JobId, dir: Dir)
    requires Inv(w) && job in w.records
    requires w.records[job].retainWorkDir && w.records[job].manifest.workDir == Some(dir)
    ensures Keeps(w, job, dir)
  {
    assert Settled(w, job);
  }

  /** A directory kept for state recovery stays, with its record, for ever. */
  lemma {:induction false} RetainedDirectoryStays(
      worlds: seq<World>, events: seq<Event>, k: nat, n: nat, job: JobId, dir: Dir)
    requires Run(worlds, events) && k <= n <= |events|
    requires job in worlds[k].records && worlds[k].records[job].retainWorkDir
    requires worlds[k].records[job].manifest.workDir == Some(dir)
    ensures Keeps(worlds[n], job, dir)
    decreases n
  {
    if k == n {
      ReachableInv(worlds, events, k);
      RetainedKeeps(worlds[k], job, dir);
    } else {
      RetainedDirectoryStays(worlds, events, k, n - 1, job, dir);
      ReachableInv(worlds, events, n - 1);
      assert Step(worlds[n - 1], events[n - 1], worlds[n]);
      KeepsStep(worlds[n - 1], events[n - 1], job, dir);
    }
  }

  lemma EntryStep(w: World, job: JobId)
    requires Inv(w) && Allows(w, Entered(job))
    ensures LifeOf(w.history, job).entered == 0
  {
  }

  /** Between two entries into the same job's run the journal forgot the job, and what it forgot
      was a record that was cleaned up and not retained. */
  lemma AtMostOnce(worlds: seq<World>, events: seq<Event>, i: nat, k: nat, job: JobId)
    requires Run(worlds, events) && i < k < |events|
    requires events[i] == Entered(job) && events[k] == Entered(job)
    ensures exists m ::
      i < m < k && events[m] == Pruned(job)
      && job in worlds[m].records && Prunable(worlds[m].records[job])
  {
    ReachableInv(worlds, events, k);
    assert Step(worlds[k], events[k], worlds[k + 1]);
    EntryStep(worlds[k], job);
    NotSameLife(events[..k], job, i);
    var m :| i < m < k && events[..k][m] == Pruned(job);
    assert Step(worlds[m], events[m], worlds[m + 1]);
  }

  lemma NotSameLife(events: seq<Event>, job: JobId, i: nat)
    requires i < |events| && events[i] == Entered(job) && LifeOf(events, job).entered == 0
    ensures exists m :: i < m < |events| && events[m] == Pruned(job)
  {
    if forall m :: i < m < |events| ==> events[m] != Pruned(job) { LifeShows(events, job, i); }
  }

  lemma ReportStep(w: World, job: JobId, c: Completion, acked: bool)
    requires Inv(w) && Allows(w, Reported(job, c, acked))
    ensures job in w.records && w.records[job].state == CompletionPending
    ensures w.records[job].completion == Some(FromCompletion(c))
    ensures LifeOf(w.history, job).reported <= {c}
  {
    assert Settled(w, job);
    assert Restored(w.records[job].completion.value) == c;
  }

  /** All completions reported while a job's record lives are one and the same, and each was in the
      journal, in a form that reads back unchanged, before it was sent. */
  lemma SingleCompletion(worlds: seq<World>, events: seq<Event>, i: nat, k: nat, job: JobId)
    requires Run(worlds, events) && i < k < |events|
    requires events[i].Reported? && events[k].Reported? && events[i].job == events[k].job == job
    requires SameLife(events, job, i, k)
    ensures events[i].completion == events[k].completion
    ensures job in worlds[k].records
    ensures worlds[k].records[job].completion == Some(FromCompletion(events[k].completion))
  {
    ReachableInv(worlds, events, k);
    assert Step(worlds[k], events[k], worlds[k + 1]);
    ReportStep(worlds[k], job, events[k].completion, events[k].acked);
    LifeShows(events[..k], job, i);
  }

  /** In every reachable world at most one job needs work, a completion is stored exactly while it
      is pending, a record that has not got that far names no directory, and (so) a repeated claim
      with an empty backlog meets a fresh claim, a finished record, or one kept for recovery. */
  lemma ReachableShape(worlds: seq<World>, events: seq<Event>, k: nat, job: JobId)
    requires Run(worlds, events) && k <= |events|
    ensures OneAtATime(worlds[k])
    ensures job in worlds[k].records ==>
      var r := worlds[k].records[job];
      && (r.completion.Some? <==> r.state == CompletionPending)
      && (r.state in {Claimed, Executing} ==> r.manifest.workDir == None)
      && (NoBacklog(worlds[k]) ==>
          r.state in {Claimed, CleanupDone} || (r.state == CompletionAcked && r.retainWorkDir))
  {
    ReachableInv(worlds, events, k);
    assert Settled(worlds[k], job);
  }

  lemma ForwardStep(w: World, e: Event, job: JobId)
    requires Inv(w) && Allows(w, e) && job in w.records
    ensures
      var now := Perform(w, e).records;
      if job in now then w.records[job].state.Rank() <= now[job].state.Rank() <= w.records[job].state.Rank() + 1
      else e == Pruned(job) && Prunable(w.records[job])
  {
  }

  /** Record states only go forward, one at a time, and a record leaves the journal only from its
      last state. */
  lemma {:induction false} StatesGoForward(worlds: seq<World>, events: seq<Event>, k: nat, job: JobId)
    requires Run(worlds, events) && k < |events| && job in worlds[k].records
    ensures
      var was, now := worlds[k].records[job], worlds[k + 1].records;
      if job in now then was.state.Rank() <= now[job].state.Rank() <= was.state.Rank() + 1
      else events[k] == Pruned(job) && Prunable(was)
  {
    ReachableInv(worlds, events, k);
    assert Step(worlds[k], events[k], worlds[k + 1]);
    ForwardStep(worlds[k], events[k], job);
  }

  // ---------------------------------------------------------------------------------------------
  // What can be read back
  // ---------------------------------------------------------------------------------------------

  ghost predicate KnownStatuses(w: World) {
    && (forall job :: job in w.records && w.records[job].completion.Some? ==>
          w.records[job].completion.value.status in STATUSES)
    && (Last(w).Returned? ==> Last(w).completion.status in STATUSES)
  }

  lemma StatusesKept(w: World, e: Event)
    requires KnownStatuses(w) && Allows(w, e)
    ensures KnownStatuses(Perform(w, e))
  {
    if e.Wrote? {
      var job, r := e.record.manifest.jobId, e.record;
      assert job in w.records && w.records[job].completion.Some? ==>
        w.records[job].completion.value.status in STATUSES;
      assert r.completion.Some? ==> r.completion.value.status in STATUSES;
    }
  }

  lemma {:induction false} ReachableStatuses(worlds: seq<World>, events: seq<Event>, k: nat)
    requires Run(worlds, events) && k <= |events|
    ensures KnownStatuses(worlds[k])
  {
    if k > 0 {
      ReachableStatuses(worlds, events, k - 1);
      assert Step(worlds[k - 1], events[k - 1], worlds[k]);
      StatusesKept(worlds[k - 1], events[k - 1]);
    }
  }

  /** In every reachable world a record is unreadable exactly if its text is over the limit, and if
      nothing needs work no record holds a completion. */
  lemma UnreadableExactly(worlds: seq<World>, events: seq<Event>, k: nat, codec: Codec, job: JobId)
    requires Run(worlds, events) && k <= |events| && job in worlds[k].records
    ensures !Readable(codec, worlds[k].records[job]) <==>
      |codec.encode(worlds[k].records[job])| > MAX_JOURNAL_RECORD_BYTES
    ensures NoBacklog(worlds[k]) ==> worlds[k].records[job].completion == None
  {
    ReachableStatuses(worlds, events, k);
    ReadableExactly(codec, worlds[k].records[job]);
    ReachableShape(worlds, events, k, job);
  }

  lemma Goes(worlds: seq<World>, events: seq<Event>, e: Event) returns (longer: seq<World>, more: seq<Event>)
    requires Run(worlds, events) && Allows(worlds[|events|], e)
    ensures Run(longer, more) && more == events + [e] && longer[|more|] == Perform(worlds[|events|], e)
  {
    RunExtends(worlds, events, e);
    longer, more := worlds + [Perform(worlds[|events|], e)], events + [e];
  }

  function ClaimedRecord(manifest: Manifest): Record { Record(manifest, Claimed, false, None) }

  function ExecutingRecord(manifest: Manifest): Record { Record(manifest, Executing, false, None) }

  /** The first events of a job's life. */
  function Starting(manifest: Manifest, dir: Dir): seq<Event> {
    [Wrote(ClaimedRecord(manifest)), Wrote(ExecutingRecord(manifest)), Entered(manifest.jobId),
     Created(manifest.jobId, dir)]
  }

  lemma JobStarts(manifest: Manifest, dir: Dir) returns (worlds: seq<World>, events: seq<Event>)
    requires manifest.workDir == None
    ensures Run(worlds, events) && events == Starting(manifest, dir)
    ensures worlds[|events|] ==
      World(map[manifest.jobId := ExecutingRecord(manifest)], map[dir := manifest.jobId], events)
  {
    var job := manifest.jobId;
    worlds, events := Goes([FRESH_DISK], [], Wrote(ClaimedRecord(manifest)));
    worlds, events := Goes(worlds, events, Wrote(ExecutingRecord(manifest)));
    assert worlds[2].records == map[job := ExecutingRecord(manifest)];
    worlds, events := Goes(worlds, events, Entered(job));
    worlds, events := Goes(worlds, events, Created(job, dir));
  }

  function Completed(manifest: Manifest, c: Completion, dir: Dir): Record {
    PendingRecord(ExecutingRecord(manifest), c, Some(dir), c.data.stateRecoveryRequired)
  }

  lemma JobCompletes(manifest: Manifest, c: Completion, dir: Dir) returns (worlds: seq<World>, events: seq<Event>)
    requires manifest.workDir == None && c.status in STATUSES && Delivered(manifest.phase, c)
    ensures Run(worlds, events)
    ensures events ==
      Starting(manifest, dir) + [Returned(manifest.jobId, c, Some(dir)), Wrote(Completed(manifest, c, dir))]
    ensures worlds[|events|].records == map[manifest.jobId := Completed(manifest, c, dir)]
  {
    worlds, events := JobStarts(manifest, dir);
    worlds, events := Goes(worlds, events, Returned(manifest.jobId, c, Some(dir)));
    worlds, events := Goes(worlds, events, Wrote(Completed(manifest, c, dir)));
  }

  /** A job that runs and stores a completion with a large inline state leaves, if the process stops
      before the server acknowledges it, a journal that cannot be listed. */
  lemma JournalCanWedge(codec: Codec, manifest: Manifest, c: Completion, dir: Dir)
    returns (worlds: seq<World>, events: seq<Event>)
    requires KeepsBothCopies(codec) && manifest.workDir == None
    requires c.status in STATUSES && Delivered(manifest.phase, c)
    requires TextSize(c.data.state) + TextSize(c.data.jsonState) >= MAX_JOURNAL_RECORD_BYTES
    ensures Run(worlds, events)
    ensures events ==
      Starting(manifest, dir) +
      [Returned(manifest.jobId, c, Some(dir)), Wrote(Completed(manifest, c, dir)), Stopped]
    ensures worlds[|events|].records == map[manifest.jobId := Completed(manifest, c, dir)]
    ensures !Readable(codec, Completed(manifest, c, dir))
  {
    InlineStateOutgrowsJournal(codec, Completed(manifest, c, dir));
    worlds, events := JobCompletes(manifest, c, dir);
    worlds, events := Goes(worlds, events, Stopped);
  }
}
