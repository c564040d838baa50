/** The poll driver of `src/main.rs`, on the file-level journal. Unless the journal is `reliable`, in
    which case nothing else fails either, an error or a crash may end any method early; the ghost
    fields keep the run that the theorems of `Lifecycle` speak about. */
module Agent {
  import opened Outcomes
  import opened Protocol
  import J = Journal
  import opened Lifecycle
  import Runner

  /** What asking for a job gives; shutdown may interrupt it. */
  datatype Claim = Job(payload: Payload) | NoJob | RetryLater | ClaimFailed | ClaimStopped

  datatype PollResult = Idle | JobDone | RetryAfter | ShutDown | PollFailed

  /** A run directory has a name that is not in use. */
  function Met(run: Runner.RunWorld, dirs: map<Dir, JobId>): Runner.RunWorld {
    if run.directory.Ok? && run.directory.value in dirs
      then run.(directory := Err("unable to allocate a unique local run directory"))
    else run
  }

  /** A run that met `run` returned `c`. */
  ghost predicate Ran(payload: Payload, run: Runner.RunWorld, c: Completion, events: seq<Event>, since: nat) {
    Runner.Tells(payload, run, c) && ReturnedSince(events, since, payload.jobId, c)
  }

  /** And the server acknowledged just that. */
  ghost predicate RanAndReported(payload: Payload, run: Runner.RunWorld, events: seq<Event>, since: nat) {
    exists c :: Ran(payload, run, c, events, since) && Acked(events, since, payload.jobId, c)
  }

  lemma ReportedToo(
    payload: Payload, run: Runner.RunWorld, before: seq<Event>, events: seq<Event>, since: nat, c: Completion)
    requires since <= |before| && Ran(payload, run, c, before, since)
    requires before + [Reported(payload.jobId, c, true)] <= events
    ensures RanAndReported(payload, run, events, since)
  {
    AckedAfter(before, events, since, payload.jobId, c);
    var j :|
      since <= j < |before| && before[j].Returned? && before[j].job == payload.jobId && before[j].completion == c;
    assert events[j] == before[j];
  }

  lemma SettledThen(entry: J.Entry, records: map<JobId, J.Record>, before: seq<Event>, events: seq<Event>)
    requires entry.manifest.jobId in records && J.ToEntry(records[entry.manifest.jobId]) == Ok(entry)
    requires forall job :: job in records && NeedsWork(records[job]) ==> job == entry.manifest.jobId
    requires entry.state == J.CompletionPending ==>
      entry.completion.Some? && before + [Reported(entry.manifest.jobId, entry.completion.value, true)] <= events
    requires entry.state == J.Executing ==>
      exists c :: TellsOfRestart(entry.manifest, c) && Acked(events, |before|, entry.manifest.jobId, c)
    ensures SettlesAll(records, events, |before|)
  {
    var job := entry.manifest.jobId;
    if entry.state == J.CompletionPending {
      AckedAfter(before, events, |before|, job, entry.completion.value);
      assert J.Restored(records[job].completion.value) == entry.completion.value;
    }
    assert Settles(records[job], events, |before|);
  }

  /** What was left to report of `record` was reported: the stored completion, or that the agent restarted. */
  ghost predicate Settles(record: J.Record, events: seq<Event>, since: nat) {
    var job := record.manifest.jobId;
    match record.state
    case CompletionPending =>
      record.completion.Some? && Acked(events, since, job, J.Restored(record.completion.value))
    case Executing => exists c :: TellsOfRestart(record.manifest, c) && Acked(events, since, job, c)
    case _ => true
  }

  ghost predicate SettlesAll(records: map<JobId, J.Record>, events: seq<Event>, since: nat) {
    forall job :: job in records && NeedsWork(records[job]) ==> Settles(records[job], events, since)
  }

  class Agent {
    const journal: J.Journal
    /** The payload's phase is part of what the fingerprint covers. */
    const phaseOf: string -> string
    var dirs: map<Dir, JobId>
    ghost var worlds: seq<World>
    ghost var events: seq<Event>

    ghost function Now(): World
      requires journal.Valid()
      reads this, journal
    {
      World(journal.Records(), dirs, events)
    }

    ghost predicate Valid()
      reads this, journal
    {
      && journal.Valid()
      && Run(worlds, events) && worlds[|events|] == Now()
      && PhasesAgree(journal.Records())
    }

    ghost predicate PhasesAgree(records: map<JobId, J.Record>) {
      forall job :: job in records ==> records[job].manifest.phase == phaseOf(records[job].manifest.fingerprint)
    }

    constructor (codec: J.Codec, phaseOf: string -> string, reliable: bool)
      requires J.Lossless(codec)
      ensures Valid() && Now() == FRESH_DISK && fresh(journal)
      ensures this.phaseOf == phaseOf && journal.codec == codec && journal.reliable == reliable
    {
      var files := new J.Journal(codec, reliable);
      journal := files;
      this.phaseOf := phaseOf;
      dirs := map[];
      worlds := [FRESH_DISK];
      events := [];
    }

    /** Adds to the run an event that has just changed the disk. */
    ghost method Note(e: Event)
      requires journal.Valid() && PhasesAgree(journal.Records())
      requires Run(worlds, events) && worlds[|events|].history == events && Allows(worlds[|events|], e)
      requires journal.Records() == Perform(worlds[|events|], e).records
      requires dirs == Perform(worlds[|events|], e).dirs
      modifies this`worlds, this`events
      ensures Valid() && Now() == Perform(old(worlds[|events|]), e)
    {
      RunExtends(worlds, events, e);
      worlds := worlds + [Perform(worlds[|events|], e)];
      events := events + [e];
    }

    lemma NowInv()
      requires Valid()
      ensures Inv(Now())
    {
      ReachableInv(worlds, events, |events|);
    }

    method Commit(entry: J.Entry, state: J.JournalState, completion: Option<J.StoredCompletion>)
      returns (r: Result<J.Entry>)
      requires Valid()
      requires completion.Some? ==> completion.value.status in J.STATUSES
      requires MayWrite(Now(), J.Record(entry.manifest, state, entry.retainWorkDir, completion))
      requires entry.manifest.phase == phaseOf(entry.manifest.fingerprint)
      modifies this, journal
      ensures Valid()
      ensures
        var record := J.Record(entry.manifest, state, entry.retainWorkDir, completion);
        if r.Ok? then Now() == Perform(old(Now()), Wrote(record)) && r == J.ToEntry(record)
        else Now() == Perform(old(Now()), Stopped)
      ensures journal.reliable ==> r.Ok?
    {
      r := journal.Update(entry, state, completion);
      if r.Ok? {
        Note(Wrote(J.Record(entry.manifest, state, entry.retainWorkDir, completion)));
      } else {
        Note(Stopped);
      }
    }

    /** Commits the next record of the one job at work. */
    method Advance(entry: J.Entry, state: J.JournalState, completion: Option<J.StoredCompletion>)
      returns (r: Result<J.Entry>)
      requires Valid() && OthersIdle(Now(), entry.manifest.jobId)
      requires completion.Some? ==> completion.value.status in J.STATUSES
      requires MayWrite(Now(), J.Record(entry.manifest, state, entry.retainWorkDir, completion))
      requires entry.manifest.phase == phaseOf(entry.manifest.fingerprint)
      modifies this, journal
      ensures Valid() && dirs == old(dirs) && OthersIdle(Now(), entry.manifest.jobId)
      ensures journal.reliable ==> r.Ok?
      ensures r.Ok? ==> Held(Now(), r.value)
      ensures r.Ok? ==> r.value.manifest == entry.manifest && r.value.state == state
      ensures r.Ok? ==> r.value.retainWorkDir == entry.retainWorkDir
      ensures r.Ok? ==>
        var record := J.Record(entry.manifest, state, entry.retainWorkDir, completion);
        Now() == Perform(old(Now()), Wrote(record)) && r == J.ToEntry(record)
      ensures old(events) < events
    {
      ghost var record := J.Record(entry.manifest, state, entry.retainWorkDir, completion);
      ghost var before := Now();
      OthersStayIdle(before, Wrote(record), entry.manifest.jobId);
      OthersStayIdle(before, Stopped, entry.manifest.jobId);
      r := Commit(entry, state, completion);
      if r.Ok? { HeldAfterWrite(before, r.value, record); }
    }

    /** `put_status("idle", completion)`: the request may be lost before or after it took effect;
        only an acknowledgement lets the driver go on. */
    method Report(entry: J.Entry) returns (acked: bool)
      requires Valid() && Held(Now(), entry) && entry.state == J.CompletionPending
      modifies this
      ensures Valid() && dirs == old(dirs) && journal.Records() == old(journal.Records())
      ensures acked ==>
        && entry.completion.Some? && Last(Now()) == Reported(entry.manifest.jobId, entry.completion.value, true)
        && events == old(events) + [Reported(entry.manifest.jobId, entry.completion.value, true)]
      ensures journal.reliable ==> acked
    {
      NowInv();
      acked := *;
      var sent: bool := *;
      if journal.reliable { acked, sent := true, true; }
      MayReport(Now(), entry, acked);
      if sent {
        Note(Reported(entry.manifest.jobId, entry.completion.value, acked));
      } else {
        acked := false;
      }
      if !acked { Note(Stopped); }
    }

    /** Reports a pending completion and records the acknowledgement. */
    method Deliver(entry: J.Entry) returns (r: Result<J.Entry>)
      requires Valid() && Held(Now(), entry) && entry.state == J.CompletionPending
      requires OthersIdle(Now(), entry.manifest.jobId)
      modifies this, journal
      ensures Valid() && OthersIdle(Now(), entry.manifest.jobId)
      ensures journal.reliable ==> r.Ok?
      ensures r.Ok? ==> Held(Now(), r.value) && r.value.state == J.CompletionAcked
      ensures r.Ok? ==> r.value.manifest == entry.manifest && r.value.retainWorkDir == entry.retainWorkDir
      ensures r.Ok? ==>
        && entry.completion.Some?
        && old(events) + [Reported(entry.manifest.jobId, entry.completion.value, true)] <= events
    {
      var acked := Report(entry);
      if !acked { return Err("failed to report job completion"); }
      NowInv();
      MayAcknowledge(Now(), entry);
      r := Advance(entry, J.CompletionAcked, None);
    }

    /** A restart left only the execution marker: the job is given up, not run again. */
    method GiveUp(entry: J.Entry) returns (r: Result<J.Entry>)
      requires Valid() && Held(Now(), entry) && entry.state == J.Executing
      requires OthersIdle(Now(), entry.manifest.jobId)
      modifies this, journal
      ensures Valid() && OthersIdle(Now(), entry.manifest.jobId)
      ensures journal.reliable ==> r.Ok?
      ensures r.Ok? ==> Held(Now(), r.value) && r.value.state == J.CompletionPending
      ensures r.Ok? ==> r.value.completion.Some? && TellsOfRestart(entry.manifest, r.value.completion.value)
      ensures r.Ok? ==> r.value.manifest == entry.manifest && !r.value.retainWorkDir
      ensures old(events) <= events
    {
      NowInv();
      MayGiveUp(Now(), entry);
      var completion := Interrupted(entry.manifest);
      r := Advance(entry.(retainWorkDir := false), J.CompletionPending, Some(J.FromCompletion(completion)));
    }

    /** Removes the run directory. It may fail before, or after part of it is gone, which counts as
        removed. */
    method CleanupRunDirectory(entry: J.Entry) returns (ok: bool)
      requires Valid() && Held(Now(), entry) && entry.state == J.CompletionAcked && !entry.retainWorkDir
      modifies this
      ensures Valid() && journal.Records() == old(journal.Records()) && old(events) <= events
      ensures ok ==> entry.manifest.workDir.None? || entry.manifest.workDir.value !in dirs
      ensures journal.reliable ==> ok
    {
      ok := true;
      if entry.manifest.workDir.Some? {
        var dir := entry.manifest.workDir.value;
        var fails: bool := *;
        if fails && !journal.reliable { Note(Stopped); return false; }
        if dir in dirs {
          dirs := dirs - {dir};
          Note(Removed(entry.manifest.jobId, dir));
        }
        fails := *;
        if fails && !journal.reliable { Note(Stopped); return false; }
      }
    }

    /** Nothing that has expired and could be forgotten is in the journal. */
    ghost predicate NothingExpired(expired: set<JobId>)
      requires journal.Valid()
      reads this, journal
    {
      forall job :: job in expired && job in journal.Records() ==> !J.Forgettable(journal.codec, journal.Records()[job])
    }

    /** `prune_expired`, one event for each record forgotten. */
    method Prune(expired: set<JobId>) returns (ok: bool)
      requires Valid()
      modifies this, journal
      ensures Valid() && dirs == old(dirs) && old(events) <= events
      ensures journal.reliable ==> ok && NothingExpired(expired)
      ensures exists gone :: gone <= expired && journal.Records() == old(journal.Records()) - gone
    {
      var gone;
      gone, ok := journal.PruneExpired(expired);
      ghost var longer, more := RunPrunes(worlds, events, gone);
      worlds, events := longer, events + more;
      if !ok { Note(Stopped); }
    }

    /** The job is over, with the directory and the retention it had. */
    ghost predicate EndsAs(entry: J.Entry)
      requires journal.Valid()
      reads this, journal
    {
      var job := entry.manifest.jobId;
      job in journal.Records() ==>
        var r := journal.Records()[job];
        r.state == J.CleanupDone && r.manifest == entry.manifest && r.retainWorkDir == entry.retainWorkDir
    }

    /** The last part of `finish_journal_entry`. */
    method CleanUp(entry: J.Entry, expired: set<JobId>) returns (ok: bool)
      requires Valid() && Held(Now(), entry) && entry.state == J.CompletionAcked
      requires OthersIdle(Now(), entry.manifest.jobId)
      modifies this, journal
      ensures Valid() && old(events) <= events
      ensures journal.reliable ==> ok && NothingExpired(expired)
      ensures ok ==> NoBacklog(Now()) && EndsAs(entry)
    {
      if !entry.retainWorkDir {
        ok := CleanupRunDirectory(entry);
        if !ok { return; }
      }
      NowInv();
      MayFinish(Now(), entry);
      var done := Advance(entry, J.CleanupDone, None);
      ok := done.Ok?;
      if ok { ok := Prune(expired); }
    }

    method DeliverAndCleanUp(entry: J.Entry, expired: set<JobId>) returns (ok: bool)
      requires Valid() && Held(Now(), entry) && entry.state == J.CompletionPending
      requires OthersIdle(Now(), entry.manifest.jobId)
      modifies this, journal
      ensures Valid()
      ensures journal.reliable ==> ok && NothingExpired(expired)
      ensures ok ==> NoBacklog(Now()) && EndsAs(entry)
      ensures ok ==>
        && entry.completion.Some?
        && old(events) + [Reported(entry.manifest.jobId, entry.completion.value, true)] <= events
    {
      var acked := Deliver(entry);
      if acked.Err? { return false; }
      ok := CleanUp(acked.value, expired);
    }

    /** `finish_journal_entry`: the only way out of a started job, also for one that a restart left
        behind. When it succeeds nothing is left to do. */
    method Finish(entry: J.Entry, expired: set<JobId>) returns (ok: bool)
      requires Valid() && Held(Now(), entry) && entry.state != J.Claimed
      requires OthersIdle(Now(), entry.manifest.jobId)
      modifies this, journal
      ensures Valid()
      ensures journal.reliable ==> ok && (entry.state != J.CleanupDone ==> NothingExpired(expired))
      ensures ok ==> NoBacklog(Now())
      ensures ok && entry.state != J.Executing ==> EndsAs(entry)
      ensures ok && entry.state == J.CompletionPending ==>
        && entry.completion.Some?
        && old(events) + [Reported(entry.manifest.jobId, entry.completion.value, true)] <= events
      ensures ok && entry.state == J.Executing ==>
        exists c ::
          TellsOfRestart(entry.manifest, c) && Acked(events, |old(events)|, entry.manifest.jobId, c)
    {
      if entry.state == J.CleanupDone {
        ok := true;
      } else if entry.state == J.CompletionAcked {
        ok := CleanUp(entry, expired);
      } else if entry.state == J.CompletionPending {
        ok := DeliverAndCleanUp(entry, expired);
      } else {
        var pending := GiveUp(entry);
        if pending.Err? { return false; }
        ghost var before := events;
        ok := DeliverAndCleanUp(pending.value, expired);
        if ok { AckedAfter(before, events, |old(events)|, entry.manifest.jobId, pending.value.completion.value); }
      }
    }

    /** `RunDirectory::create` takes a name that is not in use. */
    method Enter(job: JobId, run: Runner.RunWorld, created: bool) returns (ok: bool)
      requires Valid() && job in journal.Records() && journal.Records()[job].state == J.Executing
      requires Last(Now()) == Wrote(journal.Records()[job])
      requires created ==> run.directory.Ok? && run.directory.value !in dirs
      modifies this
      ensures Valid() && journal.Records() == old(journal.Records())
      ensures journal.reliable ==> ok
      ensures ok ==> Last(Now()) == if created then Created(job, run.directory.value) else Entered(job)
      ensures old(events) + [Entered(job)] <= events
    {
      ok := true;
      Note(Entered(job));
      var fails: bool := *;
      if fails && !journal.reliable { Note(Stopped); return false; }
      if created { ok := MakeDirectory(job, run.directory.value); }
    }

    method MakeDirectory(job: JobId, dir: Dir) returns (ok: bool)
      requires Valid() && Last(Now()) == Entered(job) && dir !in dirs
      modifies this
      ensures Valid() && journal.Records() == old(journal.Records()) && old(events) <= events
      ensures journal.reliable ==> ok
      ensures ok ==> Last(Now()) == Created(job, dir)
    {
      ok := true;
      dirs := dirs[dir := job];
      Note(Created(job, dir));
      var fails: bool := *;
      if fails && !journal.reliable { Note(Stopped); return false; }
    }

    method MarkExecuting(entry: J.Entry) returns (r: Result<J.Entry>)
      requires Valid() && Held(Now(), entry) && entry.state == J.Claimed && NoBacklog(Now())
      modifies this, journal
      ensures Valid() && OthersIdle(Now(), entry.manifest.jobId) && dirs == old(dirs)
      ensures journal.reliable ==> r.Ok?
      ensures r.Ok? ==> Held(Now(), r.value) && r.value.manifest == entry.manifest && r.value.state == J.Executing
      ensures r.Ok? ==> Last(Now()) == Wrote(journal.Records()[entry.manifest.jobId])
      ensures r.Ok? ==>
        events == old(events) + [Wrote(J.Record(entry.manifest, J.Executing, entry.retainWorkDir, None))]
    {
      NowInv();
      MayExecute(Now(), entry);
      r := Advance(entry, J.Executing, None);
    }

    /** The run is over. Nothing is durable yet. */
    ghost method NoteReturn(entry: J.Entry, completion: Completion, workDir: Option<Dir>)
      requires Valid() && Held(Now(), entry) && OthersIdle(Now(), entry.manifest.jobId)
      requires completion.status in J.STATUSES && Delivered(entry.manifest.phase, completion)
      requires
        if workDir.Some? then Last(Now()) == Created(entry.manifest.jobId, workDir.value)
        else Last(Now()) == Entered(entry.manifest.jobId)
      modifies this`worlds, this`events
      ensures Valid() && Held(Now(), entry) && OthersIdle(Now(), entry.manifest.jobId)
      ensures events == old(events) + [Returned(entry.manifest.jobId, completion, workDir)]
      ensures Last(Now()) == Returned(entry.manifest.jobId, completion, workDir)
    {
      Note(Returned(entry.manifest.jobId, completion, workDir));
    }

    /** The run's completion becomes durable before anyone sees it. */
    method RecordOutcome(entry: J.Entry, completion: Completion, workDir: Option<Dir>) returns (r: Result<J.Entry>)
      requires Valid() && Held(Now(), entry) && entry.state == J.Executing
      requires OthersIdle(Now(), entry.manifest.jobId)
      requires completion.status in J.STATUSES && Delivered(entry.manifest.phase, completion)
      requires
        if workDir.Some? then Last(Now()) == Created(entry.manifest.jobId, workDir.value)
        else Last(Now()) == Entered(entry.manifest.jobId)
      modifies this, journal
      ensures Valid() && OthersIdle(Now(), entry.manifest.jobId)
      ensures journal.reliable ==> r.Ok?
      ensures r.Ok? ==> Held(Now(), r.value) && r.value.state == J.CompletionPending
      ensures r.Ok? ==> r.value.manifest == entry.manifest.(workDir := workDir)
      ensures r.Ok? ==> r.value.retainWorkDir == completion.data.stateRecoveryRequired
      ensures r.Ok? ==> r.value.completion == Some(completion)
      ensures old(events) + [Returned(entry.manifest.jobId, completion, workDir)] <= events
    {
      NoteReturn(entry, completion, workDir);
      MayRecord(Now(), entry, completion, workDir);
      var ended := entry.(manifest := entry.manifest.(workDir := workDir),
                          retainWorkDir := completion.data.stateRecoveryRequired);
      r := Advance(ended, J.CompletionPending, Some(J.FromCompletion(completion)));
    }

    /** Runs a claimed job: the marker that it started becomes durable before it starts. */
    method Execute(entry: J.Entry, payload: Payload, run: Runner.RunWorld) returns (r: Result<J.Entry>)
      requires Valid() && Held(Now(), entry) && entry.state == J.Claimed && NoBacklog(Now())
      requires payload.jobId == entry.manifest.jobId && payload.phase.Text() == entry.manifest.phase
      modifies this, journal
      ensures Valid() && OthersIdle(Now(), payload.jobId)
      ensures journal.reliable ==> r.Ok?
      ensures r.Ok? ==> Held(Now(), r.value) && r.value.state == J.CompletionPending
      ensures r.Ok? ==> r.value.manifest.jobId == payload.jobId
      ensures r.Ok? && payload.phase.Apply? && !r.value.retainWorkDir ==> Runner.Committed(payload, run.apply)
      ensures r.Ok? && r.value.manifest.workDir.Some? ==>
        run.directory == Ok(r.value.manifest.workDir.value) && r.value.manifest.workDir.value !in old(dirs)
      ensures r.Ok? ==> r.value.completion.Some?
      ensures r.Ok? ==> Ran(payload, Met(run, old(dirs)), r.value.completion.value, events, |old(events)|)
      ensures r.Ok? ==>
        var marker := J.Record(entry.manifest, J.Executing, entry.retainWorkDir, None);
        old(events) + [Wrote(marker), Entered(payload.jobId)] <= events
    {
      var executing :- MarkExecuting(entry);
      ghost var marked := events;
      r := RunJob(executing, payload, run);
      GoesOn(old(events), Wrote(J.Record(entry.manifest, J.Executing, entry.retainWorkDir, None)),
        marked, Entered(payload.jobId), events);
    }

    lemma Longer(start: seq<Event>, between: seq<Event>, e: Event, after: seq<Event>)
      requires start <= between && between + [e] <= after
      ensures start <= after
    {
    }

    lemma GoesOn(before: seq<Event>, e: Event, between: seq<Event>, f: Event, after: seq<Event>)
      requires between == before + [e] && between + [f] <= after
      ensures before + [e, f] <= after
    {
      assert before + [e] + [f] == before + [e, f];
    }

    /** The run itself, in a directory of its own. */
    method Go(payload: Payload, run: Runner.RunWorld) returns (r: Result<Completion>, workDir: Option<Dir>)
      requires Valid() && payload.jobId in journal.Records()
      requires journal.Records()[payload.jobId].state == J.Executing
      requires Last(Now()) == Wrote(journal.Records()[payload.jobId])
      modifies this
      ensures Valid() && journal.Records() == old(journal.Records())
      ensures journal.reliable ==> r.Ok?
      ensures r.Ok? ==> Runner.Tells(payload, Met(run, old(dirs)), r.value)
      ensures r.Ok? ==> r.value.status in J.STATUSES && Delivered(payload.phase.Text(), r.value)
      ensures r.Ok? && payload.phase.Apply? && !r.value.data.stateRecoveryRequired ==>
        Runner.Committed(payload, run.apply)
      ensures r.Ok? ==>
        Last(Now()) ==
          if workDir.Some? then Created(payload.jobId, workDir.value) else Entered(payload.jobId)
      ensures r.Ok? && workDir.Some? ==> run.directory == Ok(workDir.value) && workDir.value !in old(dirs)
      ensures old(events) + [Entered(payload.jobId)] <= events
    {
      var met := Met(run, dirs);
      workDir := None;
      var entered := Enter(payload.jobId, met, Runner.Begins(payload, met));
      if !entered { return Err("stopped while running"), None; }
      var completion;
      completion, workDir := Runner.Run(payload, met);
      r := Ok(completion);
    }

    /** Runs the job whose marker has just been written, and records how it ended. */
    method RunJob(entry: J.Entry, payload: Payload, run: Runner.RunWorld) returns (r: Result<J.Entry>)
      requires Valid() && Held(Now(), entry) && entry.state == J.Executing && OthersIdle(Now(), payload.jobId)
      requires payload.jobId == entry.manifest.jobId && payload.phase.Text() == entry.manifest.phase
      requires Last(Now()) == Wrote(journal.Records()[payload.jobId])
      modifies this, journal
      ensures Valid() && OthersIdle(Now(), payload.jobId)
      ensures journal.reliable ==> r.Ok?
      ensures r.Ok? ==> Held(Now(), r.value) && r.value.state == J.CompletionPending
      ensures r.Ok? ==> r.value.manifest.jobId == payload.jobId
      ensures r.Ok? && payload.phase.Apply? && !r.value.retainWorkDir ==> Runner.Committed(payload, run.apply)
      ensures r.Ok? && r.value.manifest.workDir.Some? ==>
        run.directory == Ok(r.value.manifest.workDir.value) && r.value.manifest.workDir.value !in old(dirs)
      ensures r.Ok? ==> r.value.completion.Some?
      ensures r.Ok? ==> Ran(payload, Met(run, old(dirs)), r.value.completion.value, events, |old(events)|)
      ensures old(events) + [Entered(payload.jobId)] <= events
    {
      var completion, workDir :- Go(payload, run);
      ghost var before := events;
      r := RecordOutcome(entry, completion, workDir);
      ReturnedAfter(before, events, |old(events)|, payload.jobId, completion, workDir);
      Longer(old(events) + [Entered(payload.jobId)], before, Returned(payload.jobId, completion, workDir), events);
    }

    /** The one job that was left behind is finished first. */
    method FinishBacklog(entry: J.Entry, expired: set<JobId>) returns (ok: bool)
      requires Valid() && Held(Now(), entry) && NeedsWork(journal.Records()[entry.manifest.jobId])
      modifies this, journal
      ensures Valid()
      ensures journal.reliable ==> ok && NothingExpired(expired)
      ensures ok ==> NoBacklog(Now()) && SettlesAll(old(journal.Records()), events, |old(events)|)
    {
      NowInv();
      BacklogIsOne(Now(), entry.manifest.jobId);
      ghost var before, records := events, journal.Records();
      ok := Finish(entry, expired);
      if ok { SettledThen(entry, records, before, events); }
    }

    /** `poll_once`. The backlog comes first; a new job is run only when it is empty; and a poll that
        ends well leaves it empty, as every poll does in which nothing fails, and forgets what has expired
        once it has finished a job. One record that cannot be read stops every poll, and a known job with
        another fingerprint is refused. */
    method PollOnce(shutdown: bool, claim: Claim, run: Runner.RunWorld, expired: set<JobId>)
      returns (r: PollResult)
      requires Valid()
      requires claim.Job? ==> claim.payload.phase.Text() == phaseOf(claim.payload.fingerprint)
      modifies this, journal
      ensures Valid()
      ensures shutdown ==> r == ShutDown
      ensures r == ShutDown && !shutdown ==> claim == Claim.ClaimStopped && NoBacklog(old(Now()))
      ensures !shutdown && Wedged(old(journal.Records())) ==>
        r == PollFailed && journal.Records() == old(journal.Records()) && dirs == old(dirs)
      ensures !shutdown && NoBacklog(old(Now())) && claim.Job?
              && !StartsWell(claim.payload, old(journal.Records())) ==>
        r == PollFailed && journal.Records() == old(journal.Records()) && dirs == old(dirs)
      ensures r == JobDone ==>
        && claim.Job? && NoBacklog(old(Now())) && Fresh(claim.payload.jobId, old(journal.Records()))
        && RanAndReported(claim.payload, Met(run, old(dirs)), events, |old(events)|)
      ensures r == Idle ==> SettlesAll(old(journal.Records()), events, |old(events)|)
      ensures journal.reliable && (r == JobDone || (r == Idle && !NoBacklog(old(Now())))) ==> NothingExpired(expired)
      ensures NoBacklog(old(Now())) && !claim.Job? ==>
        journal.Records() == old(journal.Records()) && dirs == old(dirs)
      ensures r in {Idle, JobDone, RetryAfter} ==> NoBacklog(Now())
      ensures !shutdown && !NoBacklog(old(Now())) ==> (r == Idle && NoBacklog(Now())) || r == PollFailed
      ensures journal.reliable && !shutdown && !Wedged(old(journal.Records())) ==>
        if !NoBacklog(old(Now())) then r == Idle
        else
          match claim
          case NoJob => r == Idle
          case RetryLater => r == RetryAfter
          case ClaimFailed => r == PollFailed
          case ClaimStopped => r == ShutDown
          case Job(payload) =>
            StartsWell(payload, old(journal.Records())) ==>
              r == if Fresh(payload.jobId, old(journal.Records())) then JobDone else Idle
      ensures r == JobDone && claim.payload.phase.Apply? && claim.payload.jobId in journal.Records() ==>
        journal.Records()[claim.payload.jobId].retainWorkDir || Runner.Committed(claim.payload, run.apply)
    {
      if shutdown { return ShutDown; }
      var backlog := journal.ListUnfinished();
      if backlog.Err? { Note(Stopped); return PollFailed; }
      NowInv();
      if |backlog.value| > 0 {
        assert backlog.value[0] in backlog.value;
        var ok := FinishBacklog(backlog.value[0], expired);
        return if ok then Idle else PollFailed;
      }
      assert NoBacklog(Now());
      match claim {
        case NoJob => return Idle;
        case RetryLater => return RetryAfter;
        case ClaimFailed => return PollFailed;
        case ClaimStopped => return ShutDown;
        case Job(payload) => r := TakeJob(payload, run, expired);
      }
    }

    ghost predicate Wedged(records: map<JobId, J.Record>)
      reads this, journal
    {
      exists job :: job in records && !J.Readable(journal.codec, records[job])
    }

    /** The journal is wedged exactly if some record's text is over the limit, and after a poll that ends
        well it can only be one that holds no completion. */
    lemma WedgedExactly()
      requires Valid()
      ensures
        Wedged(journal.Records()) <==>
          exists job :: job in journal.Records()
            && |journal.codec.encode(journal.Records()[job])| > J.MAX_JOURNAL_RECORD_BYTES
      ensures NoBacklog(Now()) ==> forall job :: job in journal.Records() ==> journal.Records()[job].completion == None
    {
      forall job | job in journal.Records()
        ensures !J.Readable(journal.codec, journal.Records()[job]) <==>
          |journal.codec.encode(journal.Records()[job])| > J.MAX_JOURNAL_RECORD_BYTES
        ensures NoBacklog(Now()) ==> journal.Records()[job].completion == None
      {
        UnreadableExactly(worlds, events, |events|, journal.codec, job);
      }
    }

    /** A claimed payload: started, or recognized and only finished. */
    method TakeJob(payload: Payload, run: Runner.RunWorld, expired: set<JobId>) returns (r: PollResult)
      requires Valid() && NoBacklog(Now())
      requires payload.phase.Text() == phaseOf(payload.fingerprint)
      modifies this, journal
      ensures Valid() && r in {Idle, JobDone, PollFailed}
      ensures journal.reliable && r == JobDone ==> NothingExpired(expired)
      ensures r == JobDone ==> RanAndReported(payload, Met(run, old(dirs)), events, |old(events)|)
      ensures journal.reliable && StartsWell(payload, old(journal.Records())) ==> r != PollFailed
      ensures !StartsWell(payload, old(journal.Records())) ==>
        r == PollFailed && journal.Records() == old(journal.Records()) && dirs == old(dirs)
      ensures r != PollFailed ==> (r == JobDone <==> Fresh(payload.jobId, old(journal.Records())))
      ensures r != PollFailed ==> NoBacklog(Now())
      ensures r == JobDone && payload.phase.Apply? && payload.jobId in journal.Records() ==>
        journal.Records()[payload.jobId].retainWorkDir || Runner.Committed(payload, run.apply)
    {
      var entry := StartJob(payload);
      if entry.Err? { return PollFailed; }
      if entry.value.state != J.Claimed {
        var ok := Finish(entry.value, expired);
        return if ok then Idle else PollFailed;
      }
      var pending := Execute(entry.value, payload, run);
      if pending.Err? { return PollFailed; }
      ghost var returned := events;
      var ok := Finish(pending.value, expired);
      r := if ok then JobDone else PollFailed;
      ghost var met, since := Met(run, old(dirs)), |old(events)|;
      if ok { ReportedToo(payload, met, returned, events, since, pending.value.completion.value); }
    }

    /** A new job, or one whose readable record has the same fingerprint. */
    ghost predicate StartsWell(payload: Payload, records: map<JobId, J.Record>) {
      payload.jobId in records ==>
        && J.Readable(journal.codec, records[payload.jobId])
        && records[payload.jobId].manifest.fingerprint == payload.fingerprint
    }

    /** The job has not been started yet. */
    ghost predicate Fresh(job: JobId, records: map<JobId, J.Record>) {
      job in records ==> records[job].state == J.Claimed
    }

    /** `journal.start` for the claimed payload. */
    method StartJob(payload: Payload) returns (r: Result<J.Entry>)
      requires Valid() && NoBacklog(Now())
      requires payload.phase.Text() == phaseOf(payload.fingerprint)
      modifies this, journal
      ensures Valid() && NoBacklog(Now()) && dirs == old(dirs) && old(events) <= events
      ensures journal.reliable && StartsWell(payload, old(journal.Records())) ==> r.Ok?
      ensures !StartsWell(payload, old(journal.Records())) ==>
        r.Err? && journal.Records() == old(journal.Records()) && dirs == old(dirs)
      ensures r.Ok? && payload.jobId !in old(journal.Records()) ==> r.value.state == J.Claimed
      ensures r.Ok? ==> Held(Now(), r.value) && r.value.manifest.jobId == payload.jobId
      ensures r.Ok? ==> r.value.manifest.phase == payload.phase.Text()
      ensures r.Ok? && payload.jobId in old(journal.Records()) ==>
        r.value.state == old(journal.Records())[payload.jobId].state
    {
      var manifest := ManifestOf(payload);
      ghost var known := payload.jobId in journal.Records();
      r := journal.Start(manifest);
      if r.Err? {
        Note(Stopped);
      } else if !known {
        Note(Wrote(J.Record(manifest, J.Claimed, false, None)));
      }
    }
  }

  /** The largest state that may travel inline is large enough, whatever is in it; smaller ones are, as
      far as escapes make up for it. */
  lemma FullInlineStateIsEnough(state: string)
    requires |state| == Runner.MAX_INLINE_STATE_BYTES
    ensures 2 * J.TextSize(Some(state)) >= J.MAX_JOURNAL_RECORD_BYTES
  {
    J.EscapingOnlyAdds(state);
  }

  /** An apply whose state may travel inline can wedge the journal: its completion carries the state
      twice, escaped, and it only takes a stop before the acknowledgement. */
  lemma InlineStateCanWedge(codec: J.Codec, payload: Payload, result: Runner.RunResult, state: string, dir: Dir)
    returns (worlds: seq<World>, events: seq<Event>)
    requires J.KeepsBothCopies(codec) && payload.phase == Apply
    requires |state| <= Runner.MAX_INLINE_STATE_BYTES
    requires 2 * J.TextSize(Some(state)) >= J.MAX_JOURNAL_RECORD_BYTES
    requires result.state == Some(state) && result.jsonState == Some(state)
    ensures Run(worlds, events)
    ensures
      var record := Completed(ManifestOf(payload), Runner.CompletionFromResult(payload, result), dir);
      worlds[|events|].records == map[payload.jobId := record] && !J.Readable(codec, record)
  {
    worlds, events := JournalCanWedge(codec, ManifestOf(payload), Runner.CompletionFromResult(payload, result), dir);
  }
}
