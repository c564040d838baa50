/** Every run of the spool of `src/logs.rs`: opening, storing, removing and stopping in any order.
    A store may fail at any point, and the process may go on after it or stop. */
module SpoolRuns {
  import opened Spool
  import opened Totals

  datatype Moment = Running(files: Files, bytes: U64, next: U64) | Stopped(files: Files) {
    /** What is pending, or will be once the spool is open again. */
    function Pending(): Chunks { files.Recovered() }
  }

  datatype Action =
    | Opening
    | StoreChunk(content: string)
    | StoreTerminator(sequence: U64, content: string)
    | StoreEmptyTerminator
    | Removing(chunk: PendingChunk, measured: bool)
    | Stopping
  {
    predicate Stores() { StoreChunk? || StoreTerminator? || StoreEmptyTerminator? }

    /** It hands out the next sequence first. */
    predicate Allocates() { StoreChunk? || StoreEmptyTerminator? }

    function Content(): string { if StoreChunk? || StoreTerminator? then content else "" }
  }

  /** The chunk that an action stores. */
  function Target(m: Moment, action: Action): PendingChunk
    requires m.Running? && action.Stores()
  {
    match action
    case StoreTerminator(sequence, _) => PendingChunk(sequence, Terminator)
    case StoreChunk(_) => PendingChunk(m.next, Chunk)
    case _ => PendingChunk(m.next, Terminator)
  }

  /** The sequence was handed out: it is smaller than the next one, or both are the last u64. */
  predicate Issued(next: U64, sequence: U64) { Saturated(sequence + 1) <= next }

  /** A terminator repeats the sequence of a chunk, or takes a new one, and there is none yet
      (`finish_log`). */
  predicate MayStore(m: Moment, action: Action)
    requires m.Running? && action.Stores()
  {
    action.StoreTerminator? ==>
      Issued(m.next, action.sequence) && PendingChunk(action.sequence, Terminator) !in m.files.stored
  }

  ghost predicate Step(m: Moment, action: Action, m': Moment) {
    if m.Stopped? then
      && action.Opening?
      && if m'.Stopped? then m'.Pending() == m.Pending()
         else Opened(m.files, m'.files, m'.bytes, m'.next)
    else if action.Stores() then
      && MayStore(m, action)
      && if m'.Stopped? then StoreFailed(m.files, m.bytes, Target(m, action), action.Content(), m'.files)
         else
           && m'.next == (if action.Allocates() then Saturated(m.next + 1) else m.next)
           && (|| StoreDone(m.files, m.bytes, Target(m, action), action.Content(), m'.files, m'.bytes)
               || (&& m'.bytes == m.bytes
                   && StoreFailed(m.files, m.bytes, Target(m, action), action.Content(), m'.files)))
    else if action.Removing? then
      && m'.Running? && m'.next == m.next
      && RemoveDone(m.files, m.bytes, action.chunk, action.measured, m'.files, m'.bytes)
    else
      action.Stopping? && m'.Stopped? && m'.files == m.files
  }

  datatype History = History(moments: seq<Moment>, actions: seq<Action>) {
    ghost predicate Steps(i: nat)
      requires |moments| == |actions| + 1
    {
      i < |actions| ==> Step(moments[i], actions[i], moments[i + 1])
    }

    /** A run may begin with any directory, also one that earlier runs have left. */
    ghost predicate Run() {
      && |moments| == |actions| + 1 && moments[0].Stopped?
      && forall i: nat {:trigger Steps(i)} :: Steps(i)
    }

    function Last(): Moment
      requires |moments| > 0
    {
      moments[|moments| - 1]
    }

    function Then(action: Action, m: Moment): History { History(moments + [m], actions + [action]) }

    /** The last u64 is neither met, nor handed out, nor repeated. */
    ghost predicate Unsaturated()
      requires Run()
    {
      && (forall c :: c in moments[0].Pending() ==> c.sequence < U64_MAX)
      && forall i :: 0 <= i < |actions| && moments[i].Running? && actions[i].Stores() ==>
           Target(moments[i], actions[i]).sequence < U64_MAX
    }

    /** The size of every removed chunk could be read. */
    predicate Measured() { forall i :: 0 <= i < |actions| && actions[i].Removing? ==> actions[i].measured }
  }

  lemma RunGoesOn(h: History, action: Action, m: Moment)
    requires h.Run() && Step(h.Last(), action, m)
    ensures h.Then(action, m).Run() && h.Then(action, m).Last() == m
  {
    var longer := h.Then(action, m);
    forall i: nat ensures longer.Steps(i) {
      assert h.Steps(i);
    }
  }

  /** The store would bring the counted bytes over the cap, so it is refused. */
  predicate Refuses(m: Moment, action: Action) {
    m.Running? && action.Stores() && m.bytes + |action.Content()| > MAX_SPOOL_BYTES
  }

  /** Some store was refused because of the cap. */
  predicate CapMet(h: History) {
    exists i :: 0 <= i < |h.actions| && i < |h.moments| && Refuses(h.moments[i], h.actions[i])
  }

  lemma NothingRefused(h: History)
    requires forall action :: action in h.actions ==> !action.Stores()
    ensures !CapMet(h)
  {
  }

  lemma CapMetThen(h: History, action: Action, m: Moment)
    requires |h.moments| == |h.actions| + 1
    ensures CapMet(h.Then(action, m)) <==> CapMet(h) || Refuses(h.Last(), action)
  {
    var longer, n := h.Then(action, m), |h.actions|;
    assert longer.moments[n] == h.Last() && longer.actions[n] == action;
    assert forall i :: 0 <= i < n ==> longer.moments[i] == h.moments[i] && longer.actions[i] == h.actions[i];
  }

  /** What one process leaves is where the next one begins. */
  lemma RunsJoin(h: History, g: History)
    requires h.Run() && g.Run() && h.Last() == g.moments[0]
    ensures History(h.moments + g.moments[1..], h.actions + g.actions).Run()
  {
    var both := History(h.moments + g.moments[1..], h.actions + g.actions);
    forall i: nat ensures both.Steps(i) {
      if i < |h.actions| {
        assert h.Steps(i);
      } else {
        assert g.Steps(i - |h.actions|);
      }
    }
  }

  // ---------------------------------------------------------------------------------------------
  // Sequences
  // ---------------------------------------------------------------------------------------------

  /** Everything on the disk has a sequence that was handed out. */
  ghost predicate AllIssued(m: Moment) {
    m.Running? ==> forall c :: c in m.Pending() ==> Issued(m.next, c.sequence)
  }

  lemma StepIssues(m: Moment, action: Action, m': Moment)
    requires AllIssued(m) && Step(m, action, m')
    ensures AllIssued(m')
  {
  }

  lemma {:induction false} ReachableIssued(h: History, i: nat)
    requires h.Run() && i < |h.moments|
    ensures AllIssued(h.moments[i])
  {
    if i > 0 {
      ReachableIssued(h, i - 1);
      assert h.Steps(i - 1);
      StepIssues(h.moments[i - 1], h.actions[i - 1], h.moments[i]);
    }
  }

  /** In every run a new chunk meets an old one exactly when the last u64 is handed out again. */
  lemma OverwritesExactly(h: History, i: nat)
    requires h.Run() && i < |h.actions| && h.moments[i].Running? && h.actions[i].StoreChunk?
    ensures
      var m := h.moments[i];
      Target(m, h.actions[i]) in m.Pending() <==>
        m.next == U64_MAX && PendingChunk(U64_MAX, Chunk) in m.Pending()
  {
    ReachableIssued(h, i);
  }

  // ---------------------------------------------------------------------------------------------
  // What is pending
  // ---------------------------------------------------------------------------------------------

  ghost predicate Consistent(m: Moment) {
    && AllIssued(m) && (forall c :: c in m.Pending() ==> c.sequence < U64_MAX)
    && (m.Running? ==> m.files.stored.Keys !! m.files.temporary.Keys)
  }

  /** The action has put `k` bytes of its chunk on the disk, all of them if it was done. */
  ghost predicate Wrote(m: Moment, action: Action, k: nat, m': Moment)
    requires m.Running? && action.Stores()
  {
    && k <= |action.Content()|
    && m'.Pending() == m.Pending()[Target(m, action) := action.Content()[..k]]
    && (Target(m, action) in m'.files.stored ==> k == |action.Content()|)
  }

  /** How one step changes what is pending. */
  ghost predicate Changes(m: Moment, action: Action, m': Moment) {
    || m'.Pending() == m.Pending()
    || (&& m.Running? && action.Stores() && Target(m, action) !in m.Pending()
        && exists k: nat :: Wrote(m, action, k, m'))
    || (action.Removing? && m'.Pending() == m.Pending() - {action.chunk})
  }

  lemma StoringAdds(files: Files, c: PendingChunk, content: string)
    requires c !in files.stored && c !in files.temporary
    ensures files.(stored := files.stored[c := content]).Recovered() == files.Recovered()[c := content]
    ensures files.(temporary := files.temporary[c := content]).Recovered() == files.Recovered()[c := content]
  {
  }

  lemma RemovingTakes(files: Files, c: PendingChunk)
    requires files.stored.Keys !! files.temporary.Keys
    ensures c in files.stored ==> files.(stored := files.stored - {c}).Recovered() == files.Recovered() - {c}
    ensures c !in files.stored ==> files.(stored := files.stored - {c}) == files
  {
    if c !in files.stored { assert files.stored - {c} == files.stored; }
  }

  /** Unless the last u64 is in play, a chunk is stored under a sequence that has none. */
  lemma TargetIsNew(m: Moment, action: Action)
    requires Consistent(m) && m.Running? && action.Stores() && MayStore(m, action)
    requires Target(m, action).sequence < U64_MAX
    ensures Target(m, action) !in m.files.stored
    ensures !action.StoreTerminator? ==> Target(m, action) !in m.files.temporary
    ensures Issued(if action.Allocates() then Saturated(m.next + 1) else m.next, Target(m, action).sequence)
  {
    if action.Allocates() {
      assert Target(m, action) in m.Pending() ==> Issued(m.next, m.next);
    }
  }

  lemma DoneKeeps(m: Moment, action: Action, m': Moment)
    requires Consistent(m) && m.Running? && action.Stores() && m'.Running? && Step(m, action, m')
    requires Target(m, action).sequence < U64_MAX
    requires StoreDone(m.files, m.bytes, Target(m, action), action.Content(), m'.files, m'.bytes)
    ensures Consistent(m') && Changes(m, action, m')
  {
    var c, content := Target(m, action), action.Content();
    TargetIsNew(m, action);
    StoringAdds(m.files, c, content);
    assert content[..|content|] == content;
    assert Wrote(m, action, |content|, m');
    StepIssues(m, action, m');
  }

  lemma FailedKeeps(m: Moment, action: Action, m': Moment)
    requires Consistent(m) && m.Running? && action.Stores() && Step(m, action, m')
    requires Target(m, action).sequence < U64_MAX
    requires StoreFailed(m.files, m.bytes, Target(m, action), action.Content(), m'.files)
    ensures Consistent(m') && Changes(m, action, m')
  {
    var c, content := Target(m, action), action.Content();
    TargetIsNew(m, action);
    StepIssues(m, action, m');
    if m'.files != m.files {
      var k :| 0 <= k <= |content| && m'.files == m.files.(temporary := m.files.temporary[c := content[..k]]);
      StoringAdds(m.files, c, content[..k]);
      assert Wrote(m, action, k, m');
    }
  }

  lemma RemovalKeeps(m: Moment, action: Action, m': Moment)
    requires Consistent(m) && m.Running? && action.Removing? && Step(m, action, m')
    ensures Consistent(m') && Changes(m, action, m')
  {
    RemovingTakes(m.files, action.chunk);
    StepIssues(m, action, m');
  }

  /** One step touches at most one chunk: storing adds one that was not there, whole or, when it
      failed, a prefix of it, and removing takes one away. */
  lemma StepKeeps(m: Moment, action: Action, m': Moment)
    requires Consistent(m) && Step(m, action, m')
    requires m.Running? && action.Stores() ==> Target(m, action).sequence < U64_MAX
    ensures Consistent(m') && Changes(m, action, m')
  {
    if m.Running? && action.Stores() {
      if m'.Running? && StoreDone(m.files, m.bytes, Target(m, action), action.Content(), m'.files, m'.bytes) {
        DoneKeeps(m, action, m');
      } else {
        FailedKeeps(m, action, m');
      }
    } else if m.Running? && action.Removing? {
      RemovalKeeps(m, action, m');
    } else {
      StepIssues(m, action, m');
    }
  }

  lemma {:induction false} ReachableConsistent(h: History, i: nat)
    requires h.Run() && h.Unsaturated() && i < |h.moments|
    ensures Consistent(h.moments[i])
  {
    if i > 0 {
      ReachableConsistent(h, i - 1);
      assert h.Steps(i - 1);
      StepKeeps(h.moments[i - 1], h.actions[i - 1], h.moments[i]);
    }
  }

  lemma ReachableChanges(h: History, i: nat)
    requires h.Run() && h.Unsaturated() && i < |h.actions|
    ensures Changes(h.moments[i], h.actions[i], h.moments[i + 1])
  {
    ReachableConsistent(h, i);
    assert h.Steps(i);
    StepKeeps(h.moments[i], h.actions[i], h.moments[i + 1]);
  }

  /** The action at `j` stored this content of this chunk: all of it, or a prefix if it failed. */
  ghost predicate StoredAt(h: History, j: nat, c: PendingChunk, content: string)
    requires |h.moments| == |h.actions| + 1 && j < |h.actions|
  {
    && h.moments[j].Running? && h.actions[j].Stores() && c == Target(h.moments[j], h.actions[j])
    && content <= h.actions[j].Content()
    && (c in h.moments[j + 1].files.stored ==> content == h.actions[j].Content())
  }

  /** Everything pending was there at the start, or was stored in the run. */
  ghost predicate Accounted(h: History, i: nat)
    requires |h.moments| == |h.actions| + 1 && i < |h.moments|
  {
    forall c :: c in h.moments[i].Pending() ==>
      || (c in h.moments[0].Pending() && h.moments[0].Pending()[c] == h.moments[i].Pending()[c])
      || exists j: nat :: j < i && StoredAt(h, j, c, h.moments[i].Pending()[c])
  }

  lemma AccountedNext(h: History, i: nat)
    requires |h.moments| == |h.actions| + 1 && i < |h.actions|
    requires Accounted(h, i) && Changes(h.moments[i], h.actions[i], h.moments[i + 1])
    ensures Accounted(h, i + 1)
  {
    var m, action, m' := h.moments[i], h.actions[i], h.moments[i + 1];
    forall c | c in m'.Pending() && !(c in m.Pending() && m'.Pending()[c] == m.Pending()[c])
      ensures StoredAt(h, i, c, m'.Pending()[c])
    {
      var k: nat :| Wrote(m, action, k, m');
    }
    forall c | c in m'.Pending()
      ensures
        || (c in h.moments[0].Pending() && h.moments[0].Pending()[c] == m'.Pending()[c])
        || exists j: nat :: j < i + 1 && StoredAt(h, j, c, m'.Pending()[c])
    {
      if c in m.Pending() && m'.Pending()[c] == m.Pending()[c] {
        if !(c in h.moments[0].Pending() && h.moments[0].Pending()[c] == m.Pending()[c]) {
          var j: nat :| j < i && StoredAt(h, j, c, m.Pending()[c]);
        }
      } else {
        assert StoredAt(h, i, c, m'.Pending()[c]);
      }
    }
  }

  lemma {:induction false} ReachableAccounted(h: History, i: nat)
    requires h.Run() && h.Unsaturated() && i < |h.moments|
    ensures Accounted(h, i)
  {
    if i > 0 {
      var j: nat := i - 1;
      ReachableAccounted(h, j);
      ReachableChanges(h, j);
      AccountedNext(h, j);
    }
  }

  // ---------------------------------------------------------------------------------------------
  // Bytes, and the cap
  // ---------------------------------------------------------------------------------------------

  /** The count never falls short of what is stored. */
  ghost predicate Covered(m: Moment) { m.Running? ==> Size(m.files.stored) <= m.bytes }

  ghost predicate Exact(m: Moment) { m.Running? ==> m.bytes == Size(m.files.stored) }

  /** A directory that a disk can hold. */
  ghost predicate Holdable(m: Moment) { Size(m.Pending()) <= U64_MAX }

  lemma StoreCounts(m: Moment, action: Action, m': Moment)
    requires Consistent(m) && m.Running? && action.Stores() && m'.Running? && Step(m, action, m')
    requires Target(m, action).sequence < U64_MAX && Covered(m)
    ensures Covered(m') && (Exact(m) ==> Exact(m'))
  {
    TargetIsNew(m, action);
    if StoreDone(m.files, m.bytes, Target(m, action), action.Content(), m'.files, m'.bytes) {
      TotalGrows(m.files.stored, Length, Target(m, action), action.Content());
    }
  }

  lemma RemovalCounts(m: Moment, action: Action, m': Moment)
    requires m.Running? && action.Removing? && Step(m, action, m') && Covered(m)
    ensures Covered(m') && (Exact(m) && action.measured ==> Exact(m'))
  {
    var c := action.chunk;
    if c in m.files.stored {
      TotalSplits(m.files.stored, Length, c);
    } else {
      assert m.files.stored - {c} == m.files.stored;
    }
  }

  lemma {:induction false} ReachableCounts(h: History, i: nat)
    requires h.Run() && h.Unsaturated() && i < |h.moments|
    requires forall j :: 0 <= j <= i ==> Holdable(h.moments[j])
    ensures Covered(h.moments[i]) && (h.Measured() ==> Exact(h.moments[i]))
  {
    if i > 0 {
      var m, action, m' := h.moments[i - 1], h.actions[i - 1], h.moments[i];
      ReachableCounts(h, i - 1);
      ReachableConsistent(h, i - 1);
      assert h.Steps(i - 1);
      if m.Running? && m'.Running? {
        if action.Removing? { RemovalCounts(m, action, m'); } else { StoreCounts(m, action, m'); }
      } else if m'.Running? {
        assert m'.files.stored == m.Pending();
      }
    }
  }

  /** Over every run in which the last u64 stays out of play, however often stores fail halfway and
      processes stop: no store overwrites a chunk, everything pending was stored or there before, the
      count covers the stored chunks, and it is their size unless a removed size could not be read. */
  lemma RunKeeps(h: History)
    requires h.Run() && h.Unsaturated() && forall i :: 0 <= i < |h.moments| ==> Holdable(h.moments[i])
    ensures forall i :: 0 <= i < |h.moments| ==> Consistent(h.moments[i]) && Accounted(h, i)
    ensures forall i :: 0 <= i < |h.moments| ==> Covered(h.moments[i]) && (h.Measured() ==> Exact(h.moments[i]))
    ensures forall i :: 0 <= i < |h.actions| ==> Changes(h.moments[i], h.actions[i], h.moments[i + 1])
  {
    forall i | 0 <= i < |h.moments| ensures Consistent(h.moments[i]) && Accounted(h, i)
      ensures Covered(h.moments[i]) && (h.Measured() ==> Exact(h.moments[i]))
    {
      ReachableConsistent(h, i);
      ReachableAccounted(h, i);
      ReachableCounts(h, i);
    }
    forall i | 0 <= i < |h.actions| ensures Changes(h.moments[i], h.actions[i], h.moments[i + 1]) {
      ReachableChanges(h, i);
    }
  }

  /** What is pending stays within the cap. */
  ghost predicate Fits(m: Moment) { Size(m.Pending()) <= MAX_SPOOL_BYTES }

  /** What a store checks against the cap leaves out the torn files of earlier stores, and a spool
      that is opened again is within the cap exactly if it is with them. */
  lemma FitsExactly(m: Moment)
    requires Consistent(m) && m.Running? && Exact(m)
    ensures Fits(m) <==> m.bytes + Size(m.files.temporary) <= MAX_SPOOL_BYTES
  {
    assert m.Pending() == m.files.stored + m.files.temporary;
    TotalOfBoth(m.files.stored, m.files.temporary, Length);
  }

  /** So a spool that stops and opens again counts itself within the cap exactly then. */
  lemma ReopensExactly(m: Moment, stopped: Moment, reopened: Moment)
    requires Consistent(m) && m.Running? && Exact(m)
    requires Step(m, Stopping, stopped) && Step(stopped, Opening, reopened) && reopened.Running?
    ensures reopened.bytes <= MAX_SPOOL_BYTES <==> m.bytes + Size(m.files.temporary) <= MAX_SPOOL_BYTES
  {
    FitsExactly(m);
    assert reopened.files.stored == m.Pending();
  }

  /** A store that puts `k` bytes on the disk keeps the spool within the cap exactly if they fit
      beside the torn files too. */
  lemma StoreFitsExactly(m: Moment, action: Action, k: nat, m': Moment)
    requires Consistent(m) && m.Running? && Exact(m) && action.Stores()
    requires Target(m, action) !in m.Pending() && Wrote(m, action, k, m')
    ensures Fits(m') <==> m.bytes + Size(m.files.temporary) + k <= MAX_SPOOL_BYTES
  {
    assert m.Pending() == m.files.stored + m.files.temporary;
    TotalOfBoth(m.files.stored, m.files.temporary, Length);
    TotalGrows(m.Pending(), Length, Target(m, action), action.Content()[..k]);
  }

  /** The store would pass the check against the cap also if torn files were counted. */
  ghost predicate Careful(m: Moment, action: Action) {
    m.Running? && action.Stores() ==>
      m.bytes + Size(m.files.temporary) + |action.Content()| <= MAX_SPOOL_BYTES
  }

  lemma CarefulStepFits(m: Moment, action: Action, m': Moment)
    requires Consistent(m) && Covered(m) && Fits(m) && Changes(m, action, m') && Careful(m, action)
    ensures Fits(m')
  {
    if m'.Pending() == m.Pending() {
    } else if m.Running? && action.Stores() {
      var k: nat :| Wrote(m, action, k, m');
      assert m.Pending() == m.files.stored + m.files.temporary;
      TotalOfBoth(m.files.stored, m.files.temporary, Length);
      TotalGrows(m.Pending(), Length, Target(m, action), action.Content()[..k]);
    } else {
      RemovingShrinks(m.Pending(), action.chunk);
    }
  }

  lemma RemovingShrinks(chunks: Chunks, c: PendingChunk)
    ensures Size(chunks - {c}) <= Size(chunks)
  {
    if c in chunks {
      TotalSplits(chunks, Length, c);
    } else {
      assert chunks - {c} == chunks;
    }
  }

  /** Runs of careful stores stay within the cap at every moment, whether removed sizes could be read or
      not. */
  lemma {:induction false} CarefulRunFits(h: History, i: nat)
    requires h.Run() && h.Unsaturated() && Fits(h.moments[0]) && i < |h.moments|
    requires forall j :: 0 <= j < |h.actions| && h.moments[j + 1].files != h.moments[j].files ==>
      Careful(h.moments[j], h.actions[j])
    ensures forall j :: 0 <= j <= i ==> Fits(h.moments[j])
  {
    if i > 0 {
      CarefulRunFits(h, i - 1);
      ReachableCounts(h, i - 1);
      ReachableConsistent(h, i - 1);
      ReachableChanges(h, i - 1);
      if h.moments[i].files != h.moments[i - 1].files {
        CarefulStepFits(h.moments[i - 1], h.actions[i - 1], h.moments[i]);
      }
    }
  }

  /** So do runs in which no process goes on after a store has failed halfway. */
  lemma TidyRunFits(h: History)
    requires h.Run() && h.Unsaturated() && Fits(h.moments[0])
    requires forall j :: 0 <= j < |h.moments| && h.moments[j].Running? ==> h.moments[j].files.temporary == map[]
    ensures forall j :: 0 <= j < |h.moments| ==> Fits(h.moments[j])
  {
    forall j | 0 <= j < |h.actions| && h.moments[j + 1].files != h.moments[j].files
      ensures Careful(h.moments[j], h.actions[j])
    {
      assert h.Steps(j);
    }
    CarefulRunFits(h, |h.actions|);
  }

  const FIRST := PendingChunk(1, Chunk)
  const NO_FILES := Files(map[], map[])
  const FULL_CHUNKS: nat := 1024

  lemma OpensEmpty()
    ensures Step(Stopped(NO_FILES), Opening, Running(NO_FILES, 0, 1))
  {
    assert NO_FILES.Recovered() == map[];
  }

  lemma FailsTorn(torn: string)
    requires |torn| <= MAX_SPOOL_BYTES
    ensures Step(Running(NO_FILES, 0, 1), StoreChunk(torn), Running(Files(map[], map[FIRST := torn]), 0, 2))
  {
    assert torn[..|torn|] == torn && map[][FIRST := torn] == map[FIRST := torn];
    assert Files(map[], map[FIRST := torn]) == NO_FILES.(temporary := NO_FILES.temporary[FIRST := torn[..|torn|]]);
  }

  /** The same chunk, stored `n` times after the first sequence. */
  function Filled(full: string, n: nat): Chunks
    requires n <= FULL_CHUNKS
  {
    if n == 0 then map[] else Filled(full, n - 1)[PendingChunk(n + 1, Chunk) := full]
  }

  lemma {:induction false} FilledRange(full: string, n: nat)
    requires n <= FULL_CHUNKS
    ensures forall c :: c in Filled(full, n) ==> 2 <= c.sequence <= n + 1
    ensures n > 0 ==> PendingChunk(n + 1, Chunk) in Filled(full, n)
  {
    if n > 0 { FilledRange(full, n - 1); }
  }

  lemma {:induction false} FilledSize(full: string, n: nat)
    requires |full| == LOG_CHUNK_BYTES && n <= FULL_CHUNKS
    ensures Size(Filled(full, n)) == n * LOG_CHUNK_BYTES
  {
    if n > 0 {
      var c := PendingChunk(n + 1, Chunk);
      FilledRange(full, n - 1);
      FilledSize(full, n - 1);
      assert c !in Filled(full, n - 1);
      TotalGrows(Filled(full, n - 1), Length, c, full);
    }
  }

  /** The torn file of the first chunk lies beside `n` chunks. */
  function Filling(torn: string, full: string, n: nat): Files
    requires n <= FULL_CHUNKS
  {
    Files(Filled(full, n), map[FIRST := torn])
  }

  lemma FillsOne(torn: string, full: string, n: nat)
    requires |full| == LOG_CHUNK_BYTES && n < FULL_CHUNKS
    ensures Step(
      Running(Filling(torn, full, n), n * LOG_CHUNK_BYTES, n + 2), StoreChunk(full),
      Running(Filling(torn, full, n + 1), (n + 1) * LOG_CHUNK_BYTES, n + 3))
  {
    assert PendingChunk(n + 2, Chunk) != FIRST;
  }

  /** What is stored on the way to a full spool. */
  function Filler(torn: string, full: string, n: nat): seq<Action> {
    [Opening, StoreChunk(torn)] + seq(n, _ => StoreChunk(full))
  }

  lemma {:induction false} FillsUp(torn: string, full: string, n: nat) returns (h: History)
    requires |torn| <= LOG_CHUNK_BYTES && |full| == LOG_CHUNK_BYTES && n <= FULL_CHUNKS
    ensures h.Run() && h.moments[0] == Stopped(NO_FILES) && h.actions == Filler(torn, full, n)
    ensures h.Last() == Running(Filling(torn, full, n), n * LOG_CHUNK_BYTES, n + 2)
  {
    if n == 0 {
      OpensEmpty();
      FailsTorn(torn);
      h := Goes(History([Stopped(NO_FILES)], []), Opening, Running(NO_FILES, 0, 1));
      h := Goes(h, StoreChunk(torn), Running(Filling(torn, full, 0), 0, 2));
    } else {
      h := FillsUp(torn, full, n - 1);
      FillsOne(torn, full, n - 1);
      h := Goes(h, StoreChunk(full), Running(Filling(torn, full, n), n * LOG_CHUNK_BYTES, n + 2));
      assert Filler(torn, full, n) == Filler(torn, full, n - 1) + [StoreChunk(full)];
    }
  }

  lemma OpensBeyond(torn: string, full: string)
    requires |torn| <= LOG_CHUNK_BYTES && |full| == LOG_CHUNK_BYTES
    ensures
      var all := Filling(torn, full, FULL_CHUNKS).Recovered();
      && Size(all) == MAX_SPOOL_BYTES + |torn|
      && Step(
        Stopped(Filling(torn, full, FULL_CHUNKS)), Opening,
        Running(Files(all, map[]), MAX_SPOOL_BYTES + |torn|, FULL_CHUNKS + 2))
  {
    var stored, all := Filled(full, FULL_CHUNKS), Filling(torn, full, FULL_CHUNKS).Recovered();
    FilledRange(full, FULL_CHUNKS);
    FilledSize(full, FULL_CHUNKS);
    TotalGrows(stored, Length, FIRST, torn);
    assert all == stored[FIRST := torn];
    assert PendingChunk(FULL_CHUNKS + 1, Chunk) in all;
  }

  /** One store that fails halfway, and as many full chunks as the cap allows: from an empty directory,
      with chunks that the uploader cuts and every check against the cap passed, the spool opens beyond
      it. */
  lemma CapBroken(torn: string, full: string) returns (h: History)
    requires 0 < |torn| <= LOG_CHUNK_BYTES && |full| == LOG_CHUNK_BYTES
    ensures h.Run() && h.moments[0] == Stopped(NO_FILES)
    ensures h.actions == Filler(torn, full, FULL_CHUNKS) + [Stopping, Opening]
    ensures forall i :: 0 <= i < |h.actions| && h.actions[i].Stores() ==>
      0 < |h.actions[i].Content()| <= LOG_CHUNK_BYTES
    ensures h.Last().Running? && h.Last().bytes == MAX_SPOOL_BYTES + |torn| && !Fits(h.Last())
  {
    var files := Filling(torn, full, FULL_CHUNKS);
    OpensBeyond(torn, full);
    h := FillsUp(torn, full, FULL_CHUNKS);
    h := Goes(h, Stopping, Stopped(files));
    h := Goes(h, Opening, Running(Files(files.Recovered(), map[]), MAX_SPOOL_BYTES + |torn|, FULL_CHUNKS + 2));
    assert Files(files.Recovered(), map[]).Recovered() == files.Recovered();
  }

  lemma Goes(h: History, action: Action, m: Moment) returns (longer: History)
    requires h.Run() && Step(h.Last(), action, m)
    ensures longer == h.Then(action, m) && longer.Run() && longer.Last() == m
  {
    RunGoesOn(h, action, m);
    longer := h.Then(action, m);
  }

  // ---------------------------------------------------------------------------------------------
  // The last u64
  // ---------------------------------------------------------------------------------------------

  /** A run in which every store fails before it writes anything, until the last u64 is next. */
  function UsingUp(content: string): History {
    History(
      [Stopped(NO_FILES)] + seq(U64_MAX, i requires 0 <= i < U64_MAX => Running(NO_FILES, 0, i + 1)),
      [Opening] + seq(U64_MAX - 1, _ => StoreChunk(content)))
  }

  lemma UsingUpRuns(content: string)
    ensures UsingUp(content).Run() && UsingUp(content).Last() == Running(NO_FILES, 0, U64_MAX)
  {
    var h := UsingUp(content);
    OpensEmpty();
    forall i: nat ensures h.Steps(i) {
      if 0 < i < |h.actions| {
        assert h.moments[i] == Running(NO_FILES, 0, i) && h.actions[i] == StoreChunk(content);
      }
    }
  }

  lemma StoresUnderTheLast(before: Chunks, bytes: nat, content: string)
    requires before == map[] || before.Keys == {PendingChunk(U64_MAX, Chunk)}
    requires bytes + |content| <= MAX_SPOOL_BYTES
    ensures
      var c := PendingChunk(U64_MAX, Chunk);
      Step(
        Running(Files(before, map[]), bytes, U64_MAX), StoreChunk(content),
        Running(Files(map[c := content], map[]), bytes + |content|, U64_MAX))
  {
    var c := PendingChunk(U64_MAX, Chunk);
    assert before[c := content] == map[c := content];
  }

  /** Once the last u64 is next it stays next: the second chunk replaces the first, and both count. */
  lemma SaturatedStoreOverwrites(first: string, second: string) returns (h: History)
    requires |first| + |second| <= MAX_SPOOL_BYTES
    ensures h.Run() && h.moments[0] == Stopped(NO_FILES)
    ensures h.actions == UsingUp(first).actions + [StoreChunk(first), StoreChunk(second)]
    ensures h.Last().Running? && h.Last().Pending() == map[PendingChunk(U64_MAX, Chunk) := second]
    ensures h.Last().bytes == Size(h.Last().Pending()) + |first|
  {
    var c := PendingChunk(U64_MAX, Chunk);
    UsingUpRuns(first);
    StoresUnderTheLast(map[], 0, first);
    StoresUnderTheLast(map[c := first], |first|, second);
    h := Goes(UsingUp(first), StoreChunk(first), Running(Files(map[c := first], map[]), |first|, U64_MAX));
    h := Goes(h, StoreChunk(second), Running(Files(map[c := second], map[]), |first| + |second|, U64_MAX));
    TotalGrows(map[], Length, c, second);
    assert map[][c := second] == map[c := second];
    assert h.Last().Pending() == map[c := second];
  }
}
