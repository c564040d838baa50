# Terrence agent: the durable job pipeline

The agent claims Terraform jobs from a control plane, runs them, and hands state, logs and snapshots
back, over a network that loses answers and on a machine that may stop at any moment. This project
models the parts that have to survive that, and proves what they keep.

| module | models |
|---|---|
| `Protocol`, `Outcomes` | the shapes of jobs, completions and results |
| `Runner` | how a run ends, and what it tells the server about Terraform's state (`src/runner.rs`) |
| `Journal` | the execution journal, one file write at a time (`src/journal.rs`) |
| `Lifecycle` | what the poll driver may do next, and what then holds over every run (`src/main.rs`) |
| `Agent` | the poll driver itself, on the file-level journal (`src/main.rs`) |
| `Spool`, `SpoolRuns` | the bounded on-disk queue of log chunks, and every run of it (`src/logs.rs`) |
| `LogUpload` | the uploader on top of the spool (`src/logs.rs`) |
| `Paths`, `Trees`, `Archive`, `Extraction`, `Packing`, `Flattening` | archives and directory trees (`src/archive.rs`) |
| `Provenance`, `PlanApply` | snapshot digests and the way from plan to apply (`src/provenance.rs`, `src/runner.rs`) |
| `Canonical`, `Decimal` | the payload fingerprint (`src/manifest.rs`) and decimal numbers |
| `Toolchain` | publication into the toolchain cache (`src/toolchain.rs`) |
| `Download` | resumable downloads (`src/client.rs`) |
| `Ordering`, `Totals` | sorted listings of finite sets, sums over finite maps |

How to read it:

- **The disk** is a map from names to contents. Bytes are characters of a `string`, one for one.
- **Failure** is a nondeterministic choice: an operation may fail, and a process may stop, between any
  two writes. A crash is the loss of memory with the disk kept. A class or method with a `reliable`
  flag may fail only when it is not set, so its contract also says exactly what happens when nothing
  goes wrong.
- **The server** is a small peer that may take a request and lose the answer, or answer with a foreign
  acknowledgement; for downloads it holds one fixed resource.
- **Runs** are sequences of worlds and events in which every step is allowed (`Lifecycle`,
  `SpoolRuns`, `Toolchain`), or whole executions of a method (`LogUpload.UploadLogs`). The methods of
  `Agent` and of `LogUpload.Uploader` extend such a run as they go, so the theorems of `Lifecycle` and
  of `SpoolRuns` hold of them.
- Hashes are functions; that they do not collide is an assumption only where it is written.

## What does not hold

The code was followed where it and its own promises disagree. These are proved, with the condition
under which things do work:

- **No plan gets past its snapshot.** The archive is to be written to `tmp/plan-snapshot.tar.gz` inside
  the directory that is packed, and packing refuses exactly that (`PlanApply.PackPlan`). This takes the
  run's `tmp` to be a real directory, as the agent made it. What holds for a snapshot that does get
  packed elsewhere is `PlanApply.PlanArrives`.
- **Configurations are not flattened.** The run directory already holds `tmp` when a configuration is
  extracted into it, so a single top-level directory is never the only entry; if nothing else was
  extracted, `tmp` itself is flattened (`PlanApply.OnlyTmpIsFlattened`).
- **A file by the name of the manifest's temporary file is lost** after it was hashed, and the apply
  then refuses the snapshot (`PlanApply.PlanArrives`: exactly then, or when the execution directory
  lies in `tmp` or `secrets`).
- **A journal record can outgrow what can be read back**, since an inline state is stored twice, each
  time escaped, and only reading checks the size. It takes a stop or a failed report between the
  completion and its acknowledgement (`Agent.InlineStateCanWedge`, `Lifecycle.JournalCanWedge`); from
  then on every poll fails (`Agent.Agent.PollOnce`). A poll that ends well leaves no completion in the
  journal, and then it is readable exactly if every record's text is within the limit
  (`Agent.Agent.WedgedExactly`).
- **The spool can open beyond its cap.** The check against the cap leaves out the torn file of a store
  that failed halfway, and the process goes on storing: one torn chunk and 1024 full ones are enough
  (`SpoolRuns.CapBroken`). A spool opens again
  within the cap exactly if it would be with the torn files counted (`SpoolRuns.ReopensExactly`), each
  store keeps it there exactly if its bytes fit beside them (`SpoolRuns.StoreFitsExactly`), and so it
  stays there in runs that make only such stores (`SpoolRuns.CarefulRunFits`).
- **The last u64 is handed out again and again** by the spool, and the second chunk replaces the first
  (`SpoolRuns.SaturatedStoreOverwrites`); this is the only way a new chunk ever meets an old one
  (`SpoolRuns.OverwritesExactly`).
- **Reading a spool name is not one-to-one**: `+7.chunk` and `7.chunk` are both taken for chunk 7
  (`Spool.SomeForeignNamesRead`). Of the names that read, those with twenty digits are the ones that
  the spool prints (`Spool.PrintedExactly`), and those do read back (`Spool.NamesReadBack`).
- **A file download trusts its file**: the result is the resource exactly when the file began as a part
  of it or some answer was full (`Download.WholeExactlyIf`); and a file that is complete already can
  only succeed by being downloaded again in full (`Download.ArtifactFile.GetArtifactFile`).
- **A download can fail for one failure**, if a body breaks off after its last byte: the next request is
  for a range beyond the end. Any other failures are survived up to the second (`Download.GetArtifact`).

## Model

| member | source | states |
|---|---|---|
| Runner.CommitState | src/runner.rs:1038-1088 | a readable state is committed in exactly one form, artifact or inline, exactly under the stated conditions, or there is an error |
| Runner.ExecuteApply | src/runner.rs:852-1148 | state recovery is required exactly unless the state was pulled without error and committed; the committed state comes out in the one form and with the outputs, reference and digests it was committed with; a cancellation has the reason of the command or capture that was canceled, and the state pulled after it unless it was forced; the exact causes of every apply and recovery error |
| Runner.CompletionFromResult | src/runner.rs:1555-1605 | finished exactly when no apply error and no recovery is pending; the state and the recovery flag reach the completion |
| Runner.FailedCompletion | src/runner.rs:253-333 | an apply that fails or is canceled always asks for state recovery; a pulled state goes out with its outputs, and a cancellation says why |
| Runner.Run | src/runner.rs:226-335 | every completion of an apply carries its state or asks for recovery, whatever fails; finished exactly when the phase was reached and nothing went wrong in it, canceled exactly when a cancellation was met, with its reason; after a canceled apply the server gets exactly the pulled state, else exactly the committed one; the run directory is reported exactly when it was made |
| Journal.IntoCompletion | src/journal.rs:49-62 | a stored completion comes back exactly if its status is a known one, and then it is the one whose stored form it is |
| Journal.StoredCompletionRoundTrip | src/journal.rs:40-62 | storing and restoring a completion loses nothing |
| Journal.ToEntry | src/journal.rs:216-226 | a record's view has its manifest, state, retention and completion, and fails only for an unknown status |
| Journal.TemporaryFilesDoNotMatter | src/journal.rs:170-181 | whatever temporary files hold, the records are the same |
| Journal.RenamingCommits | src/journal.rs:255-265 | renaming the temporary file replaces the one record, atomically |
| Journal.Journal.Write | src/journal.rs:249-265 | truncating, writing piece by piece, syncing and renaming, cut off anywhere, replaces the record or changes none; it succeeds if nothing fails |
| Journal.Journal.Read | src/journal.rs:228-247 | what a record reads back as, including the size limit that only reading enforces |
| Journal.Journal.Start | src/journal.rs:106-126 | a new job gets a claimed record; a known one is returned unchanged, or refused for another fingerprint |
| Journal.Journal.Update | src/journal.rs:199-214 | replaces the job's record and no other, or leaves all as they were |
| Journal.Journal.ListUnfinished | src/journal.rs:170-197 | exactly the readable entries that need work, by job id; one unreadable record makes it fail |
| Journal.Journal.PruneExpired | src/journal.rs:273-300 | only cleaned-up, unretained, expired records go, and when nothing fails all readable ones do; listing may fail midway |
| Journal.ReadableExactly | src/journal.rs:228-247 | a record reads back exactly if its text is within the limit and its status is a known one |
| Journal.InlineStateOutgrowsJournal | src/journal.rs:228-265 | the two copies of a state that fill the limit together, escapes counted, make a record that cannot be read back |
| Lifecycle.InvKept | src/main.rs:277-467 | every durable effect the driver may have keeps the crash invariant: record, history and directory of each job fit together |
| Lifecycle.ReachableInv | src/main.rs:277-467 | the crash invariant holds after every event of every run |
| Lifecycle.RemovalFollowsDelivery | src/main.rs:329-335 | in every run, a run directory is removed only after the server acknowledged the very completion that the directory's run returned, and for an apply that completion carries the state |
| Lifecycle.RetainedDirectoryStays | src/main.rs:455-465 | a directory kept for state recovery stays for ever, with its record |
| Lifecycle.AtMostOnce | src/main.rs:317-327 | between two entries into the same job's run, the journal forgot the job from its cleaned-up, unretained state |
| Lifecycle.SingleCompletion | src/main.rs:387-454 | all completions reported while a job's record lives are equal, and each was durable before |
| Lifecycle.ReportsAreTrue | src/main.rs:380-467 | in every run, what is reported was returned by a run in this life of the job, or is an error without state that says the agent was restarted; nothing is reported as finished or canceled, or with a state, that the run did not return |
| Lifecycle.ReachableShape | src/main.rs:289-322 | at most one record needs work; a completion is stored exactly while pending; early records name no directory; what a repeated claim can meet |
| Lifecycle.StatesGoForward | src/journal.rs:128-168 | record states go forward one at a time, and records leave only from the last |
| Lifecycle.UnreadableExactly | src/journal.rs:228-247 | in every reachable world a record is unreadable exactly if its text is over the limit, and with nothing to do no record holds a completion |
| Lifecycle.JournalCanWedge | src/main.rs:329-344 | a run, from claim to stored completion to stop, that ends with a journal that cannot be listed |
| Agent.Agent.Commit | src/journal.rs:199-214 | a journal update is one event of the run: it happened, or the process lost its memory |
| Agent.Agent.Report | src/main.rs:352-378 | only an acknowledged report lets the driver go on |
| Agent.Agent.GiveUp | src/main.rs:405-453 | a job found executing after a restart is not run again: its completion becomes an error that says the agent was restarted, without any state, and its directory is not retained |
| Agent.Agent.CleanupRunDirectory | src/runner.rs:337-350 | success means the directory is gone |
| Agent.Agent.RecordOutcome | src/main.rs:329-335 | exactly the completion, the directory and the retention of the run become durable before anything is reported |
| Agent.Agent.Execute | src/main.rs:323-335 | the marker is written, and then the run is entered, next in the history; an apply that is not retained has committed its state |
| Agent.Agent.Finish | src/main.rs:380-467 | finishing any started job empties the backlog, or stops; the server has acknowledged the stored completion, or the restart error; it always succeeds when nothing fails |
| Agent.Agent.StartJob | src/main.rs:308-322 | a claimed payload meets a new record or its own earlier one, and the backlog stays empty |
| Agent.Agent.PollOnce | src/main.rs:277-350 | backlog first, and then exactly what it had to report is acknowledged; a new job only when it is empty, and then the server has acknowledged exactly what the run returned; a poll that ends well leaves the backlog empty; one unreadable record stops every poll, and a known job with another fingerprint is refused with journal and directories unchanged; otherwise, when nothing fails, the poll ends well, and whether it ran a job is decided by what the journal knew |
| Agent.Agent.WedgedExactly | src/main.rs:289-292 | what makes polls fail for good is a record over the limit, and after a poll that ends well none holds a completion |
| Agent.FullInlineStateIsEnough | src/runner.rs:1078-1095 | the largest state that travels inline always fills the limit with its two copies |
| Agent.InlineStateCanWedge | src/runner.rs:1078-1095 | an apply's state within the inline limit can wedge the journal |
| Spool.NamesReadBack | src/logs.rs:260-269 | printing a chunk name and reading it is the identity for every u64, and temporary names lead back to their own chunk only |
| Spool.NamesReadExactly | src/logs.rs:260-269 | a name is read as a chunk exactly if it is a decimal number below 2^64, perhaps after a plus sign, and the suffix of the kind |
| Spool.SomeForeignNamesRead | src/logs.rs:260-269 | two names that the spool does not print read as one chunk |
| Spool.PrintedExactly | src/logs.rs:192-197 | of all names that read as a chunk the spool prints exactly those with twenty digits before the dot |
| Spool.NextIsNew | src/logs.rs:136-149 | the next sequence exceeds every stored one exactly unless the last u64 is stored |
| Spool.Directory.RecoverTemporaryFiles | src/logs.rs:233-258 | temporary files become chunks unless there is a final one; stopping halfway recovers to the same |
| Spool.Spool.Open | src/logs.rs:129-156 | a fresh view: all recovered chunks, their total size, the next sequence |
| Spool.Spool.Pending | src/logs.rs:158-178 | exactly the stored chunks, by sequence and kind |
| Spool.Spool.Store | src/logs.rs:180-206 | stores the chunk whole, or leaves at most a torn temporary file; refused over the cap; exactly when it succeeds on a reliable disk |
| Spool.Spool.Remove | src/logs.rs:208-220 | the chunk is gone and its bytes are no longer counted, unless its size could not be read, or nothing changed |
| Spool.Spool.AllocateSequence | src/logs.rs:226-230 | hands out the next sequence and saturates at the last u64 |
| SpoolRuns.StepKeeps | src/logs.rs:128-258 | one open, store, removal or stop, also a store that fails halfway while the process goes on, changes at most one pending chunk: a new one, whole or a prefix, or one taken away |
| SpoolRuns.OverwritesExactly | src/logs.rs:226-230 | in every run a new chunk meets an old one exactly if the last u64 is next and taken |
| SpoolRuns.RunsJoin | src/logs.rs:128-156 | what one process leaves in the directory is where the next one begins, so runs of several processes are runs |
| SpoolRuns.RunKeeps | src/logs.rs:128-258 | over every run from any directory, with failed stores and stops anywhere and the last u64 out of play: no store overwrites, everything pending was stored or there before, the count covers the stored sizes and equals them if removed sizes could be read |
| SpoolRuns.ReopensExactly | src/logs.rs:129-156 | a spool that stops opens again within the cap exactly if count and torn files are within it together |
| SpoolRuns.StoreFitsExactly | src/logs.rs:180-206 | a store keeps what is pending within the cap exactly if the bytes it wrote fit beside the torn files |
| SpoolRuns.CarefulRunFits | src/logs.rs:180-206 | runs whose stores fit also with torn files counted stay within the cap at every moment, also when the size of a removed chunk could not be read |
| SpoolRuns.TidyRunFits | src/logs.rs:180-258 | so do runs in which no process goes on after a store failed halfway |
| SpoolRuns.CapBroken | src/logs.rs:180-206 | a run from an empty directory, with one store failing halfway and 1024 full chunks of the size the uploader cuts, that opens beyond the cap by what the torn file holds |
| SpoolRuns.SaturatedStoreOverwrites | src/logs.rs:226-230 | a run from an empty directory to the last u64, where the second store replaces the first, whatever the two hold, and both are counted |
| LogUpload.TakingIsFaithful | src/logs.rs:403-418 | a chunk that the server takes, for the first time or again, with or without an answer, leaves the delivery exact |
| LogUpload.EverythingDelivered | src/logs.rs:500-563 | with no chunk pending, repeating the last acknowledged chunk as terminator completes the log exactly |
| LogUpload.SmallerWereDelivered | src/logs.rs:377-478 | when a chunk is sent, every smaller one stored before was acknowledged and then removed |
| LogUpload.SmallerLeftoversWereDelivered | src/logs.rs:421-478 | and so was every smaller one that was pending when the spool was opened |
| LogUpload.Uploader.RetryLog | src/logs.rs:572-596 | requests go on until the right acknowledgement, up to three: two failures are survived, the third gives up; success only if the server has the chunk |
| LogUpload.Uploader.Deliver | src/logs.rs:403-418 | an acknowledged chunk leaves the spool, or the delivery is incomplete; one that was not acknowledged stays, and the delivery is not incomplete for that |
| LogUpload.Uploader.FlushChunk | src/logs.rs:365-419 | stored first, sent only when nothing older waits; delivery stays exact and ordered |
| LogUpload.Uploader.ReplayPending | src/logs.rs:421-479 | unless the spool fails, everything is delivered or the last request was not acknowledged |
| LogUpload.Uploader.StoreTerminator | src/logs.rs:518-540 | a new terminator repeats the last acknowledged sequence and bytes, or is a new empty chunk |
| LogUpload.Uploader.FinishLog | src/logs.rs:481-563 | not incomplete means the server has all chunks and the end; on a disk that can be relied on, incomplete exactly if the cap refused a chunk or the last request was not acknowledged; the terminator is last |
| LogUpload.Uploader.TakeIn | src/logs.rs:293-309 | re-chunking loses and invents no byte and leaves less than a chunk |
| LogUpload.Uploader.Take | src/logs.rs:290-358 | an append loses and invents no byte; a tick leaves nothing in memory, and nothing on the disk unless the spool failed or the last request was not acknowledged |
| LogUpload.UploadLogs | src/logs.rs:271-363 | for all appends, ticks, failures, lost answers and foreign acknowledgements: a log not reported incomplete is on the server byte for byte, and ended; on a disk that can be relied on and with nothing spooled before, it is reported incomplete exactly if the cap refused a chunk or the last request was not acknowledged; no overtaking; terminator last; without failures never incomplete, and the directory is gone; the spool comes through a run of `SpoolRuns` |
| Paths.ValidateEntryPath | src/archive.rs:341-363 | accepts exactly the relative paths without parent steps within the limits, and gives their components |
| Paths.JoinedPathReadsBack | src/archive.rs:341-363 | a path written out reads back as itself, exactly within the limits |
| Paths.ReadsExactly | src/archive.rs:341-363 | every text is the join of its pieces between slashes, and is accepted exactly if it has at most 4096 bytes, no step up, no leading slash and at most 64 pieces other than empty ones and single dots, which are its components |
| Paths.SplitsApart | src/archive.rs:341-363 | the pieces of a text are the only ones that join to it |
| Paths.JoinInjective | src/provenance.rs:132-139 | different paths have different texts |
| Archive.ExtractionState.EnsureDirectoryPath | src/archive.rs:441-464 | passes or makes one directory, refusing collisions, links and too many directories |
| Archive.ExtractionState.EnsureDirectories | src/archive.rs:420-439 | all directories above a path, exactly if nothing is in the way |
| Archive.ExtractionState.WriteFile | src/archive.rs:135-151 | the file with its whole content, within what is left of the limit; an unfinished file is not counted |
| Archive.ExtractionState.ExtractEntry | src/archive.rs:83-157 | one entry is placed, ignored or refused, the step of which `Extraction.AcceptsExactly` says when; the destination stays a tree and keeps what it had |
| Archive.ExtractionState.Extract | src/archive.rs:66-157 | any entry list into any destination: everything placed, or a refusal, exactly as `Extraction.ExtractsAsDescribed` says; existing entries never change; extracted bytes never exceed the limit |
| Archive.ExtractionState.ExtractArchiveFile | src/archive.rs:46-169 | the same for an archive file, refused also if it is too large or has expanded too far |
| Archive.EntryWeighs | src/archive.rs:130-151 | the byte count grows by what the files grow |
| Archive.ExtractionWeighs | src/archive.rs:83-157 | a completed extraction added exactly the bytes it counted |
| Extraction.AcceptsExactly | src/archive.rs:83-157 | after any accepted entries the next is accepted exactly if its name, kind and size are harmless, no earlier entry clashes with it, nothing at the destination is in its way and all limits still hold |
| Extraction.ExtractsAsDescribed | src/archive.rs:66-157 | an archive extracts exactly if every entry is harmless, no two entries clash and the limits hold, said of the archive as a whole; the result is the old tree, the directories above and at the entries, a file with content and executable bit for every file entry, and nothing else |
| Extraction.OneEntryForEachFile | src/archive.rs:116-134 | every extracted file comes from exactly one entry |
| Extraction.ExtractTarGzFile | src/archive.rs:46-169 | the same for the whole operation, which on a disk that can be relied on succeeds exactly for such archives that are not too large and have not expanded too far |
| Packing.Pack | src/archive.rs:238-321 | succeeds exactly if the kept tree fits the limits and the output its own, with one entry for everything kept, in walking order |
| Packing.RoundTrip | src/archive.rs:66-321 | extracting the entries of a packed tree always succeeds and gives everything but what is below `secrets` and `tmp`, contents, empty directories and executable bits included; what was excluded at the destination stays |
| Packing.PackedExtractsExactly | src/archive.rs:159-169 | a packed file is refused on extraction exactly if it expands beyond the gzip ratio |
| Packing.KeptIsTree | src/archive.rs:247-258 | what is left after exclusion is still a tree |
| Flattening.Folder.FlattenSingleDirectory | src/archive.rs:171-196 | without disk failures refused exactly if the one directory has a child of its own name; on success exactly its inside is left, and a tree that is no single directory is unchanged |
| Flattening.FlatteningLosesNothing | src/archive.rs:171-196 | wherever flattening stops, everything is still there, once, with its content |
| Flattening.RenamingMovesOne | src/archive.rs:184-193 | each rename moves one more child up and nothing else |
| Flattening.InnerIsTree | src/archive.rs:171-196 | what flattening leaves is a tree |
| Provenance.StreamDetermines | src/provenance.rs:108-148 | the hashed stream is uniquely decodable: equal exactly for equal maps from path to content |
| Provenance.FrameCancels | src/provenance.rs:252-255 | a framed path and content can be told from what follows |
| Provenance.SnapshotDigest | src/provenance.rs:108-148 | hashes exactly the stream of the files that are hashed, in sorted order; which changes show is `Provenance.DigestsTell` |
| Provenance.VerifyDigests | src/runner.rs:1210-1233 | passes exactly if all five file digests are what this tree gives |
| Provenance.DigestsTell | src/provenance.rs:108-195 | two run directories have the same digests exactly if saved plan, lock file and the state Terraform starts from agree, the provider packages agree, and so does every file but the manifest, those below `secrets` and `tmp`, and provider packages at the top: any other change shows |
| Provenance.VerifyAgainst | src/runner.rs:1210-1233 | with the digests that the plan recorded, the check passes exactly if the apply side has the plan's files |
| PlanApply.HashedTheSame | src/provenance.rs:243-277 | writing the manifest, packing and extracting leaves what is hashed unchanged exactly unless a file had the temporary file's name |
| PlanApply.DirectoryDigestsTheSame | src/provenance.rs:150-195 | saved plan, lock file, input state and provider packages arrive unchanged when the directory is packed |
| PlanApply.PackedCanArrive | src/runner.rs:586-604 | whatever was packed extracts on the apply side, next to what lies in `tmp` and `secrets` there |
| PlanApply.ArrivesTheSame | src/runner.rs:586-604 | persisting, packing, extracting and preparing leave every file outside `tmp` and `secrets` as it was, the manifest and its temporary file aside |
| PlanApply.ArrivedIsAccepted | src/runner.rs:1210-1233 | a tree with the plan's files gives the plan's digests exactly under the two stated conditions |
| PlanApply.PlanArrives | src/runner.rs:783-817 | plan and apply agree on all digests exactly if the execution directory is not in `tmp` or `secrets` and no file has the name of the manifest's temporary file |
| PlanApply.CheckPlan | src/runner.rs:1210-1233 | the apply's own check accepts the recorded digests exactly under these conditions |
| PlanApply.PackToFile | src/archive.rs:208-236 | an archive inside its own source is always refused |
| PlanApply.PackPlan | src/runner.rs:814-817 | the plan's own snapshot is always refused |
| PlanApply.OnlyTmpIsFlattened | src/runner.rs:556-568 | next to `tmp` no other directory is ever flattened |
| Canonical.CanonicalTextExact | src/manifest.rs:74-111 | two values have the same canonical text exactly if they are equal up to null members at every depth |
| Canonical.TextIsRead | src/manifest.rs:74-111 | the canonical text is a JSON text, as RFC 8259 reads it, of the value without its null members |
| Canonical.QuotedIsRead | src/manifest.rs:74-111 | every string, whatever characters are escaped in it, reads back as itself by section 7 of RFC 8259 |
| Canonical.EscapeIsShortest | src/manifest.rs:74-111 | every character is escaped in the shortest way that reads back |
| Canonical.FingerprintTextExact | src/manifest.rs:42-111 | two payloads are fingerprinted alike exactly if they agree apart from rotating keys and null members at every depth |
| Canonical.SeenAgree | src/manifest.rs:53-72 | removing rotating keys and nulls leaves the same value exactly for agreeing payloads |
| Canonical.WriteCanonical | src/manifest.rs:74-111 | appends exactly the canonical text |
| Canonical.StripRotatingFields | src/manifest.rs:53-72 | removes the rotating keys at every depth and nothing else |
| Canonical.FingerprintText | src/manifest.rs:42-51 | the text that is hashed separates exactly the payloads that differ beyond the seven rotating keys, written out, and nulls |
| Toolchain.StepKeeps | src/toolchain.rs:114-173 | any step, failure or crash of any resolver keeps the invariant, and a visible entry as it is |
| Toolchain.EntryNeverChanges | src/toolchain.rs:114-173 | over every interleaving, the entry goes from absent to complete at most once and never changes |
| Toolchain.AllUseTheSame | src/toolchain.rs:249-312 | all resolvers that use the entry get the same executable, from an archive with the checksum |
| Toolchain.EachGetsItsVersion | src/toolchain.rs:305-312 | an executable that a resolver uses reports a version that this resolver asked for |
| Toolchain.OnlyIntactIsUsable | src/toolchain.rs:249-312 | a found entry is used exactly if its executable is the one that was made, its metadata name this product, platform and archive, and its version is the requested one |
| Toolchain.UndisturbedPublishes | src/toolchain.rs:114-223 | with nothing cached, a resolver that is left alone fetches a good archive, publishes it with its true metadata, uses it and gives the lock back |
| Toolchain.CachedIsUsed | src/toolchain.rs:118-138 | once there is an entry, the next look uses it or, for another version, fails |
| Toolchain.PublishingIsUndisturbed | src/toolchain.rs:152-173 | an entry never appears while publishing, and what was published passes the last check |
| Toolchain.OneHolder | src/toolchain.rs:340-386 | two resolvers never build at once |
| Download.GetArtifact | src/client.rs:923-1037 | success is the whole resource, too large means too large; at most three requests, none after a refusal for good; with fewer than three failures it succeeds exactly up to the limit, unless a body breaks off after its last byte |
| Download.ReceiveBody | src/client.rs:990-1025 | what was received is always the start of what was sent, and it is all of it at the end |
| Download.WholeExactlyIf | src/client.rs:545-648 | a file of full length is the resource exactly if it began as a part of it or was started over |
| Download.ArtifactFile.GetArtifactFile | src/client.rs:545-648 | the same for files that are resumed: when the result is the resource, what the file holds otherwise, when it succeeds, and that a file as long as the resource can only succeed by a full answer |
| Download.LimitedBytes | src/client.rs:1358-1388 | a body is returned whole and within the limit, or not at all |

## Left out

- HTTP, TLS, DNS, URL rules, request forwarding, headers, address policy: plumbing over libraries; only the download loops are kept.
- Commands, signals, timeouts and output readers: each command is one of its outcomes.
- Resource counts, the log flag, state sizes and the provenance digest of a completion: they are copied through.
- SHA-256, gzip, tar and zip encodings: functions, or channels that lose nothing; of gzip only the sizes appear.
- The checks of `verify_plan_manifest` that compare identities, platform, sandbox, tool and environment: single comparisons.
- Serialization of journal records: any lossless encoding. The journal's directory and file modes, syncing and power-loss order are not modelled either.
- Job ids are taken to have different journal file names, as the hash makes them, and one process to own a data directory.
- Spool files with names that the spool does not print.
- Wall-clock time: delays, jitter, retention ages and flush intervals are nondeterministic choices.
- Special files are all alike, so a symbolic link's target does not matter; the manifest's temporary file and the run's `tmp` are taken not to be links. Paths that are not UTF-8 are left out.
- Exact log delivery across a restart, and cleaning a run directory whose process died while executing: the code promises neither.
- Toolchain.StepKeeps: resolvers are the steps of a transition relation, not methods, because they interleave.
- The temporary directories of the toolchain cache: nobody else sees them; and the check of an installed binary before the cache is asked.
- Stale-spool cleanup, registration, heartbeats, configuration, metrics, diagnostics, provider cache, field validators: single-branch bounds or counters.
- Canonical.CanonicalTextExact: a number is what it is printed as, so that the two zeros of floating point are different numbers.
- LogUpload.UploadLogs: the flag that a writer sets is not an input, because a writer sets it only when its channel is closed, which is after the uploader has read it (src/logs.rs:63-73, src/logs.rs:360-362); and with no spool the remaining input is not read, because then nothing but that flag changes.
- PlanApply.PlanArrives: it speaks of a snapshot that was packed outside the run directory, because the cited call itself always refuses.
