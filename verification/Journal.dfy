/** The execution journal (`src/journal.rs`): one file per job, replaced by writing a temporary
    file and renaming it. Here the files are modelled one write at a time, so that a crash may fall
    between any two of them. */
module Journal {
  import Canonical
  import opened Ordering
  import opened Outcomes
  import opened Protocol

  const MAX_JOURNAL_RECORD_BYTES: nat := 16 * 1024 * 1024

  datatype JournalState = Claimed | Executing | CompletionPending | CompletionAcked | CleanupDone {
    function Rank(): nat {
      match this
      case Claimed => 0
      case Executing => 1
      case CompletionPending => 2
      case CompletionAcked => 3
      case CleanupDone => 4
    }
  }

  datatype StoredCompletion = StoredCompletion(status: string, error: Option<string>, data: CompletionData)

  datatype Record = Record(
    manifest: Manifest, state: JournalState, retainWorkDir: bool, completion: Option<StoredCompletion>)

  /** The view of a record that the driver works with. */
  datatype Entry = Entry(
    manifest: Manifest, state: JournalState, retainWorkDir: bool, completion: Option<Completion>)

  const STATUSES: set<string> := {"finished", "errored", "canceled"}

  function FromCompletion(c: Completion): StoredCompletion { StoredCompletion(c.status, c.error, c.data) }

  function Restored(s: StoredCompletion): Completion { Completion(s.status, s.error, s.data) }

  function IntoCompletion(s: StoredCompletion): (r: Result<Completion>)
    ensures r.Ok? <==> s.status in STATUSES
    ensures r.Ok? ==> FromCompletion(r.value) == s
  {
    if s.status in STATUSES then Ok(Restored(s))
    else Err("unsupported journal completion status")
  }

  /** Storing a completion loses nothing, and refuses to come back only for a status that no run
      reports; every stored form that comes back is the form of the completion it gives. */
  lemma StoredCompletionRoundTrip(c: Completion, s: StoredCompletion)
    ensures IntoCompletion(FromCompletion(c)) == Ok(c) <==> c.status in STATUSES
    ensures IntoCompletion(s) == Ok(c) ==> FromCompletion(c) == s
  {
  }

  function ToEntry(record: Record): (r: Result<Entry>)
    ensures r.Ok? ==> r.value.manifest == record.manifest && r.value.state == record.state
    ensures r.Ok? ==> r.value.retainWorkDir == record.retainWorkDir
    ensures r.Ok? ==> (record.completion.None? ==> r.value.completion == None)
    ensures r.Ok? && record.completion.Some? ==>
      r.value.completion.Some? && FromCompletion(r.value.completion.value) == record.completion.value
    ensures r.Err? <==> record.completion.Some? && record.completion.value.status !in STATUSES
  {
    match record.completion
    case None => Ok(Entry(record.manifest, record.state, record.retainWorkDir, None))
    case Some(stored) =>
      var completion :- IntoCompletion(stored);
      Ok(Entry(record.manifest, record.state, record.retainWorkDir, Some(completion)))
  }

  /** Claimed records have not started; acknowledged ones that are retained wait for an operator. */
  predicate Unfinished(state: JournalState, retainWorkDir: bool) {
    && state !in {Claimed, CleanupDone}
    && !(state == CompletionAcked && retainWorkDir)
  }

  predicate Prunable(record: Record) { record.state == CleanupDone && !record.retainWorkDir }

  /** How records become file contents. */
  datatype Codec = Codec(encode: Record -> string, decode: string -> Option<Record>)

  ghost predicate Lossless(codec: Codec) {
    forall r :: codec.decode(codec.encode(r)) == Some(r)
  }

  function ReadResult(codec: Codec, record: Record): Result<Entry> {
    if |codec.encode(record)| > MAX_JOURNAL_RECORD_BYTES then Err("journal record exceeds the byte limit")
    else ToEntry(record)
  }

  /** Readable, and of no further use. */
  ghost predicate Forgettable(codec: Codec, record: Record) { Readable(codec, record) && Prunable(record) }

  ghost predicate Readable(codec: Codec, record: Record) { ReadResult(codec, record).Ok? }

  /** `path_for_job` hashes the job id, taken to be injective; the temporary file has another
      extension. */
  datatype Name = RecordFile(job: JobId) | TemporaryFile(job: JobId)

  type Files = map<Name, string>

  ghost predicate WholeRecord(codec: Codec, job: JobId, content: string) {
    && codec.decode(content).Some?
    && codec.encode(codec.decode(content).value) == content
    && codec.decode(content).value.manifest.jobId == job
  }

  /** Every record file holds one whole record of its own job. Temporary files may hold anything. */
  ghost predicate WholeRecords(codec: Codec, files: Files) {
    forall job :: RecordFile(job) in files ==> WholeRecord(codec, job, files[RecordFile(job)])
  }

  /** The journal as its users see it. */
  ghost function RecordsOf(codec: Codec, files: Files): (records: map<JobId, Record>)
    requires WholeRecords(codec, files)
    ensures forall job :: job in records <==> RecordFile(job) in files
    ensures forall job :: job in records ==> records[job].manifest.jobId == job
    ensures forall job :: job in records ==> codec.encode(records[job]) == files[RecordFile(job)]
    ensures forall job :: job in records ==> codec.decode(files[RecordFile(job)]) == Some(records[job])
  {
    map name | name in files && name.RecordFile? :: name.job := codec.decode(files[name]).value
  }

  function ReadContent(codec: Codec, content: string): (r: Result<Entry>)
  {
    if codec.decode(content).None? then Err("decode journal record")
    else if |content| > MAX_JOURNAL_RECORD_BYTES then Err("journal record exceeds the byte limit")
    else ToEntry(codec.decode(content).value)
  }

  lemma TemporaryFilesDoNotMatter(codec: Codec, files: Files, other: Files)
    requires WholeRecords(codec, files)
    requires forall job :: RecordFile(job) in files <==> RecordFile(job) in other
    requires forall job :: RecordFile(job) in files ==> files[RecordFile(job)] == other[RecordFile(job)]
    ensures WholeRecords(codec, other) && RecordsOf(codec, other) == RecordsOf(codec, files)
  {
  }

  function Renamed(codec: Codec, files: Files, record: Record): Files {
    var job := record.manifest.jobId;
    (files - {TemporaryFile(job)})[RecordFile(job) := codec.encode(record)]
  }

  lemma RenamedIsWhole(codec: Codec, files: Files, record: Record)
    requires Lossless(codec) && WholeRecords(codec, files)
    ensures WholeRecords(codec, Renamed(codec, files, record))
  {
    var job, renamed := record.manifest.jobId, Renamed(codec, files, record);
    forall j | RecordFile(j) in renamed ensures WholeRecord(codec, j, renamed[RecordFile(j)]) {
      if j == job {
        assert codec.decode(codec.encode(record)) == Some(record);
      } else {
        assert WholeRecord(codec, j, files[RecordFile(j)]);
      }
    }
  }

  lemma RenamingCommits(codec: Codec, files: Files, record: Record)
    requires Lossless(codec) && WholeRecords(codec, files)
    ensures WholeRecords(codec, Renamed(codec, files, record))
    ensures
      RecordsOf(codec, Renamed(codec, files, record)) == RecordsOf(codec, files)[record.manifest.jobId := record]
  {
    RenamedIsWhole(codec, files, record);
    var job, renamed := record.manifest.jobId, Renamed(codec, files, record);
    var after, want := RecordsOf(codec, renamed), RecordsOf(codec, files)[job := record];
    forall j ensures j in after <==> j in want {
      assert j in after <==> RecordFile(j) in renamed;
    }
    forall j | j in after ensures after[j] == want[j] {
      assert codec.decode(renamed[RecordFile(j)]) == Some(after[j]);
      if j != job { assert codec.decode(files[RecordFile(j)]) == Some(want[j]); }
    }
  }

  lemma RemovingForgets(codec: Codec, files: Files, job: JobId)
    requires WholeRecords(codec, files)
    ensures WholeRecords(codec, files - {RecordFile(job)})
    ensures RecordsOf(codec, files - {RecordFile(job)}) == RecordsOf(codec, files) - {job}
  {
  }

  lemma ForgetOneMore(records: map<JobId, Record>, gone: set<JobId>, job: JobId)
    ensures records - gone - {job} == records - (gone + {job})
  {
  }

  class Journal {
    const codec: Codec
    /** Whether the disk can be relied on and the process never stops: then nothing fails halfway. */
    const reliable: bool
    var files: Files

    ghost predicate Valid()
      reads this
    {
      Lossless(codec) && WholeRecords(codec, files)
    }

    ghost function Records(): (records: map<JobId, Record>)
      requires Valid()
      reads this
    {
      RecordsOf(codec, files)
    }

    /** A journal directory that does not exist yet. */
    constructor (codec: Codec, reliable: bool)
      requires Lossless(codec)
      ensures this.codec == codec && this.reliable == reliable && Valid() && Records() == map[]
    {
      this.codec, this.reliable := codec, reliable;
      files := map[];
      new;
      assert Records() == map[];
    }

    /** `write`: truncate the temporary file, fill it piece by piece, sync, rename. It may fail or
        the process may stop before any of these steps; then no record has changed. Whatever an
        earlier interrupted write left in the temporary file does not matter. */
    method Write(record: Record) returns (committed: bool)
      requires Valid()
      modifies this`files
      ensures Valid()
      ensures Records() == if committed then old(Records())[record.manifest.jobId := record] else old(Records())
      ensures reliable ==> committed
    {
      var job, text := record.manifest.jobId, codec.encode(record);
      committed := Fill(job, text);
      TemporaryFilesDoNotMatter(codec, old(files), files);
      var fails: bool := *;
      if !committed || (fails && !reliable) { return false; }
      RenamingCommits(codec, files, record);
      files := (files - {TemporaryFile(job)})[RecordFile(job) := files[TemporaryFile(job)]];
    }

    /** Whatever the temporary file of the job held, it is truncated and filled piece by piece. */
    method Fill(job: JobId, text: string) returns (filled: bool)
      modifies this`files
      ensures forall j :: RecordFile(j) in files <==> RecordFile(j) in old(files)
      ensures forall j :: RecordFile(j) in files ==> files[RecordFile(j)] == old(files)[RecordFile(j)]
      ensures filled ==> files == old(files)[TemporaryFile(job) := text]
      ensures reliable ==> filled
    {
      var temporary := TemporaryFile(job);
      var fails: bool := *;
      if fails && !reliable { return false; }
      files := files[temporary := ""];
      var written := 0;
      while written < |text|
        invariant 0 <= written <= |text| && files == old(files)[temporary := text[..written]]
      {
        fails := *;
        if fails && !reliable { return false; }
        var size: int := *;
        if size < 1 || written + size > |text| { size := 1; }
        files := files[temporary := files[temporary] + text[written..written + size]];
        assert text[..written] + text[written..written + size] == text[..written + size];
        written := written + size;
      }
      assert text[..written] == text;
      filled := true;
    }

    /** `read`. */
    method Read(job: JobId) returns (r: Result<Entry>)
      requires Valid() && job in Records()
      ensures r == ReadResult(codec, Records()[job])
    {
      r := ReadContent(codec, files[RecordFile(job)]);
    }

    method Start(manifest: Manifest) returns (r: Result<Entry>)
      requires Valid()
      modifies this`files
      ensures Valid()
      ensures r.Ok? && manifest.jobId !in old(Records()) ==>
        && Records() == old(Records())[manifest.jobId := Record(manifest, Claimed, false, None)]
        && r.value == Entry(manifest, Claimed, false, None)
      ensures r.Err? || manifest.jobId in old(Records()) ==> Records() == old(Records())
      ensures reliable && manifest.jobId !in old(Records()) ==> r.Ok?
      ensures manifest.jobId in old(Records()) ==>
        var existing := old(Records())[manifest.jobId];
        r == (if Readable(codec, existing) && existing.manifest.fingerprint != manifest.fingerprint
              then Err("job has a different execution fingerprint in the local journal")
              else ReadResult(codec, existing))
    {
      if RecordFile(manifest.jobId) in files {
        r := Read(manifest.jobId);
        if r.Ok? && r.value.manifest.fingerprint != manifest.fingerprint {
          r := Err("job has a different execution fingerprint in the local journal");
        }
        return;
      }
      var record := Record(manifest, Claimed, false, None);
      var committed := Write(record);
      r := if committed then ToEntry(record) else Err("commit execution journal record");
    }

    /** `update` replaces the record and enforces no order of states. */
    method Update(entry: Entry, state: JournalState, completion: Option<StoredCompletion>)
      returns (r: Result<Entry>)
      requires Valid()
      requires completion.Some? ==> completion.value.status in STATUSES
      modifies this`files
      ensures Valid()
      ensures r.Err? ==> Records() == old(Records())
      ensures reliable ==> r.Ok?
      ensures r.Ok? ==>
        var record := Record(entry.manifest, state, entry.retainWorkDir, completion);
        Records() == old(Records())[entry.manifest.jobId := record] && r == ToEntry(record)
    {
      var record := Record(entry.manifest, state, entry.retainWorkDir, completion);
      var committed := Write(record);
      r := if committed then ToEntry(record) else Err("commit execution journal record");
    }

    /** `unfinished`: the entries that need work, in order of job id. One unreadable record blocks
        the whole listing, even a record that needs no work. */
    method ListUnfinished() returns (r: Result<seq<Entry>>)
      requires Valid()
      ensures r.Err? <==> exists job :: job in Records() && !Readable(codec, Records()[job])
      ensures r.Ok? ==> forall i, j :: 0 <= i < j < |r.value| ==>
        TextLess(r.value[i].manifest.jobId, r.value[j].manifest.jobId)
      ensures r.Ok? ==> forall e :: e in r.value <==>
        && e.manifest.jobId in Records() && ToEntry(Records()[e.manifest.jobId]) == Ok(e)
        && Unfinished(e.state, e.retainWorkDir)
    {
      var entries :- ReadAll();
      TextTotal();
      var jobs := Sort(TextLess, entries.Keys);
      assert forall job :: job in jobs <==> job in Elements(jobs);
      var listed := SelectUnfinished(jobs, entries);
      r := Ok(listed);
    }

    function Contents(): (contents: map<JobId, string>)
      reads this
      ensures forall job :: job in contents <==> RecordFile(job) in files
      ensures forall job :: job in contents ==> contents[job] == files[RecordFile(job)]
    {
      map name | name in files && name.RecordFile? :: name.job := files[name]
    }

    method ReadAll() returns (r: Result<map<JobId, Entry>>)
      requires Valid()
      ensures r.Err? <==> exists job :: job in Records() && !Readable(codec, Records()[job])
      ensures r.Ok? ==> r.value.Keys == Records().Keys
      ensures r.Ok? ==> forall job :: job in r.value ==> ToEntry(Records()[job]) == Ok(r.value[job])
    {
      ghost var records, contents := Records(), Contents();
      assert forall job :: job in records ==> ReadContent(codec, contents[job]) == ReadResult(codec, records[job]);
      r := ReadEach(codec, Contents());
      if r.Err? {
        ghost var bad :| bad in contents && ReadContent(codec, contents[bad]).Err?;
        assert bad in Records() && !Readable(codec, Records()[bad]);
      } else {
        forall job | job in Records() ensures Readable(codec, Records()[job]) {
          assert ReadContent(codec, contents[job]).Ok?;
        }
      }
    }

    static method ReadEach(codec: Codec, contents: map<JobId, string>) returns (r: Result<map<JobId, Entry>>)
      requires forall job :: job in contents ==> WholeRecord(codec, job, contents[job])
      ensures r.Err? <==> exists job :: job in contents && ReadContent(codec, contents[job]).Err?
      ensures r.Ok? ==> r.value.Keys == contents.Keys
      ensures r.Ok? ==> forall job :: job in contents ==> ReadContent(codec, contents[job]) == Ok(r.value[job])
    {
      var entries: map<JobId, Entry> := map[];
      var left := contents.Keys;
      while left != {}
        invariant entries.Keys !! left && entries.Keys + left == contents.Keys
        invariant forall job :: job in entries ==> ReadContent(codec, contents[job]) == Ok(entries[job])
        decreases left
      {
        var job :| job in left;
        var entry :- ReadContent(codec, contents[job]);
        entries := entries[job := entry];
        left := left - {job};
      }
      r := Ok(entries);
    }

    static method SelectUnfinished(jobs: seq<JobId>, entries: map<JobId, Entry>) returns (listed: seq<Entry>)
      requires Sorted(TextLess, jobs) && forall job :: job in jobs <==> job in entries
      requires forall job :: job in entries ==> entries[job].manifest.jobId == job
      ensures forall i, j :: 0 <= i < j < |listed| ==>
        TextLess(listed[i].manifest.jobId, listed[j].manifest.jobId)
      ensures forall e :: e in listed <==>
        && e.manifest.jobId in entries && entries[e.manifest.jobId] == e
        && Unfinished(e.state, e.retainWorkDir)
    {
      listed := [];
      for i := 0 to |jobs|
        invariant forall k, l :: 0 <= k < l < |listed| ==>
          TextLess(listed[k].manifest.jobId, listed[l].manifest.jobId)
        invariant forall e :: e in listed <==>
          && e.manifest.jobId in jobs[..i] && entries[e.manifest.jobId] == e
          && Unfinished(e.state, e.retainWorkDir)
      {
        var entry := entries[jobs[i]];
        assert jobs[..i + 1] == jobs[..i] + [jobs[i]];
        if Unfinished(entry.state, entry.retainWorkDir) {
          assert forall e :: e in listed ==> exists k :: 0 <= k < i && jobs[k] == e.manifest.jobId;
          listed := listed + [entry];
        }
      }
      assert jobs[..|jobs|] == jobs;
    }

    /** `prune_expired`: only cleaned-up records that are not retained and whose file is old enough
        may go; a failed removal is ignored, and listing the directory may fail midway. */
    method PruneExpired(expired: set<JobId>) returns (pruned: set<JobId>, ok: bool)
      requires Valid()
      modifies this`files
      ensures Valid()
      ensures pruned <= expired * old(Records()).Keys
      ensures forall job :: job in pruned ==> Prunable(old(Records())[job])
      ensures Records() == old(Records()) - pruned
      ensures reliable ==> ok && forall job ::
        job in expired && job in old(Records()) && Forgettable(codec, old(Records())[job]) ==> job in pruned
    {
      pruned := {};
      ok := *;
      if reliable { ok := true; }
      ghost var before := Records();
      var left := expired * Contents().Keys;
      while ok && left != {}
        invariant Valid() && Records() == before - pruned
        invariant pruned + left <= expired * before.Keys && left !! pruned
        invariant forall job :: job in pruned ==> Prunable(before[job])
        invariant reliable ==> ok && forall job ::
          job in expired && job in before && Forgettable(codec, before[job]) ==> job in pruned || job in left
        decreases left
      {
        var job :| job in left;
        left := left - {job};
        var removed := PruneOne(job);
        if removed {
          ForgetOneMore(before, pruned, job);
          pruned := pruned + {job};
        }
        ok := *;
        if reliable { ok := true; }
      }
    }

    method PruneOne(job: JobId) returns (removed: bool)
      requires Valid() && job in Records()
      modifies this`files
      ensures Valid()
      ensures removed ==> Prunable(old(Records())[job]) && Records() == old(Records()) - {job}
      ensures !removed ==> Records() == old(Records())
      ensures reliable && Forgettable(codec, old(Records())[job]) ==> removed
    {
      removed := false;
      var entry := Read(job);
      if entry.Ok? && entry.value.state == CleanupDone && !entry.value.retainWorkDir {
        removed := *;
        if reliable { removed := true; }
        if removed { RemoveRecord(job); }
      }
    }

    method RemoveRecord(job: JobId)
      requires Valid()
      modifies this`files
      ensures Valid() && Records() == old(Records()) - {job}
    {
      RemovingForgets(codec, files, job);
      files := files - {RecordFile(job)};
    }
  }

  /** A record reads back exactly if its text is within the limit and its status is a known one. */
  lemma ReadableExactly(codec: Codec, record: Record)
    ensures Readable(codec, record) <==>
      && |codec.encode(record)| <= MAX_JOURNAL_RECORD_BYTES
      && (record.completion.None? || record.completion.value.status in STATUSES)
  {
  }

  /** The journal keeps an inline state twice, as `state` and as `json_state`, each as a JSON string. */
  ghost predicate KeepsBothCopies(codec: Codec) {
    forall r: Record :: r.completion.Some? ==>
      |codec.encode(r)| >
        TextSize(r.completion.value.data.state) + TextSize(r.completion.value.data.jsonState)
  }

  /** The length of a text once it is escaped. */
  function TextSize(text: Option<string>): nat {
    if text.Some? then |Canonical.EscapedPut(text.value, "")| else 0
  }

  lemma {:induction false} EscapingOnlyAdds(text: string)
    ensures |text| <= TextSize(Some(text))
  {
    if text != "" {
      EscapingOnlyAdds(text[1..]);
      assert |Canonical.Escape(text[0])| >= 1;
    }
  }

  /** Nothing keeps a record within what can be read back: states that fill the limit together make a
      record over it. */
  lemma InlineStateOutgrowsJournal(codec: Codec, record: Record)
    requires KeepsBothCopies(codec) && record.completion.Some?
    requires
      TextSize(record.completion.value.data.state) + TextSize(record.completion.value.data.jsonState)
        >= MAX_JOURNAL_RECORD_BYTES
    ensures !Readable(codec, record)
  {
    assert |codec.encode(record)| > MAX_JOURNAL_RECORD_BYTES;
  }
}
