/** The log uploader of `src/logs.rs`: chunks are stored, sent, acknowledged and removed, whatever
    fails in between, and a terminator closes the log. */
module LogUpload {
  import opened Decimal
  import opened Ordering
  import opened Outcomes
  import opened Spool
  import R = SpoolRuns

  type Received = map<U64, string>

  // ---------------------------------------------------------------------------------------------
  // What the log server holds
  // ---------------------------------------------------------------------------------------------

  /** A repeated sequence is no news: the server keeps its first copy, or always the latest. */
  function Taken(received: Received, keepsFirst: bool, sequence: U64, bytes: string): Received {
    if keepsFirst && sequence in received then received else received[sequence := bytes]
  }

  lemma TakenTwice(received: Received, keepsFirst: bool, sequence: U64, bytes: string)
    ensures
      var taken := Taken(received, keepsFirst, sequence, bytes);
      Taken(taken, keepsFirst, sequence, bytes) == taken
  {
  }

  /** The server acknowledges only what it has taken, but it may take a chunk and lose the answer,
      or answer with a foreign sequence. */
  class Server {
    const keepsFirst: bool
    /** Whether it takes everything and its answers arrive. */
    const reliable: bool
    var received: Received
    var finished: bool

    method Receive(sequence: U64, bytes: string, last: bool) returns (reply: Result<Option<U64>>)
      modifies this
      ensures
        || (received == old(received) && finished == old(finished))
        || (received == Taken(old(received), keepsFirst, sequence, bytes) && finished == (old(finished) || last))
      ensures reply.Ok? && (reply.value.None? || reply.value.value == sequence) ==>
        received == Taken(old(received), keepsFirst, sequence, bytes) && finished == (old(finished) || last)
      ensures reliable ==> reply.Ok? && (reply.value.None? || reply.value.value == sequence)
    {
      var taken: bool := *;
      if reliable { taken := true; }
      var answered: bool := *;
      var numbered: bool := *;
      var number: int := *;
      var ack: Option<U64> := if numbered && 0 <= number < U64_LIMIT then Some(number) else None;
      if taken {
        received := Taken(received, keepsFirst, sequence, bytes);
        finished := finished || last;
      } else if ack.None? || ack.value == sequence {
        answered := false;
      }
      reply := if reliable then Ok(None) else if answered then Ok(ack) else Err("no answer");
    }
  }

  ghost function Joined(chunks: seq<string>): string {
    if |chunks| == 0 then "" else Joined(chunks[..|chunks| - 1]) + chunks[|chunks| - 1]
  }

  ghost predicate Complete(received: Received, text: string) {
    exists chunks: seq<string> ::
      && Joined(chunks) == text
      && (forall i: U64 :: i in received <==> 1 <= i <= |chunks|)
      && (forall i: U64 :: 1 <= i <= |chunks| ==> received[i] == chunks[i - 1])
  }

  // ---------------------------------------------------------------------------------------------
  // Exact delivery
  // ---------------------------------------------------------------------------------------------

  datatype Acked = Acked(sequence: U64, bytes: string)

  /** The bytes flushed so far are cut into chunks 1, 2, ...; each is stored, or has reached the
      server, or both, and neither holds anything else. */
  ghost predicate Faithful(
    cut: seq<string>, flushed: string, stored: Chunks, next: U64, received: Received, lastAcked: Option<Acked>)
  {
    && Joined(cut) == flushed
    && next == |cut| + 1
    && (forall i: U64 :: 1 <= i < next ==> i in received || PendingChunk(i, Chunk) in stored)
    && (forall i: U64 :: i in received ==> 1 <= i < next && received[i] == cut[i - 1])
    && (forall c :: c in stored ==> c.kind == Chunk && 1 <= c.sequence < next && stored[c] == cut[c.sequence - 1])
    && (lastAcked.Some? ==> lastAcked.value.sequence in received)
    && (lastAcked.Some? ==> lastAcked.value.bytes == received[lastAcked.value.sequence])
    && (lastAcked.None? ==> forall i: U64 :: 1 <= i < next ==> PendingChunk(i, Chunk) in stored)
  }

  lemma StoringIsFaithful(
    cut: seq<string>, flushed: string, stored: Chunks, next: U64, received: Received, lastAcked: Option<Acked>,
    bytes: string)
    requires Faithful(cut, flushed, stored, next, received, lastAcked) && next < U64_MAX
    ensures Faithful(
      cut + [bytes], flushed + bytes, stored[PendingChunk(next, Chunk) := bytes], next + 1, received, lastAcked)
  {
    assert (cut + [bytes])[..|cut|] == cut;
  }

  lemma TakingIsFaithful(
    cut: seq<string>, flushed: string, stored: Chunks, next: U64, received: Received, lastAcked: Option<Acked>,
    keepsFirst: bool, c: PendingChunk)
    requires Faithful(cut, flushed, stored, next, received, lastAcked) && c in stored
    ensures
      var taken := Taken(received, keepsFirst, c.sequence, stored[c]);
      var acked := Some(Acked(c.sequence, stored[c]));
      && Faithful(cut, flushed, stored, next, taken, lastAcked)
      && Faithful(cut, flushed, stored, next, taken, acked)
      && Faithful(cut, flushed, stored - {c}, next, taken, acked)
  {
  }

  lemma EverythingDelivered(
    cut: seq<string>, flushed: string, stored: Chunks, next: U64, received: Received, lastAcked: Option<Acked>,
    keepsFirst: bool)
    requires Faithful(cut, flushed, stored, next, received, lastAcked)
    requires forall c :: c in stored ==> c.kind != Chunk
    ensures
      var last := if lastAcked.Some? then lastAcked.value else Acked(next, "");
      Complete(Taken(received, keepsFirst, last.sequence, last.bytes), flushed)
  {
    var last := if lastAcked.Some? then lastAcked.value else Acked(next, "");
    var taken := Taken(received, keepsFirst, last.sequence, last.bytes);
    var first := PendingChunk(1, Chunk);
    if lastAcked.None? {
      assert next > 1 ==> first in stored;
      assert cut == [] && taken == map[1 := ""];
      assert Joined([""]) == Joined([""][..0]) + "" == flushed;
      assert forall i: U64 :: i in taken <==> 1 <= i <= |[""]|;
    } else {
      assert taken == received;
    }
  }

  // ---------------------------------------------------------------------------------------------
  // Order on the wire
  // ---------------------------------------------------------------------------------------------

  datatype Event =
    | Stored(chunk: PendingChunk)
    | Sent(chunk: PendingChunk, acked: bool)
    | Removed(chunk: PendingChunk)

  function After(outstanding: set<PendingChunk>, e: Event): set<PendingChunk> {
    match e
    case Stored(c) => outstanding + {c}
    case Sent(_, _) => outstanding
    case Removed(c) => outstanding - {c}
  }

  function Outstanding(initial: set<PendingChunk>, trace: seq<Event>): set<PendingChunk> {
    if |trace| == 0 then initial else After(Outstanding(initial, trace[..|trace| - 1]), trace[|trace| - 1])
  }

  predicate First(outstanding: set<PendingChunk>, c: PendingChunk) {
    forall d :: d in outstanding ==> c.sequence <= d.sequence
  }

  predicate MayFollow(initial: set<PendingChunk>, trace: seq<Event>, e: Event) {
    match e
    case Stored(_) => true
    case Sent(c, _) => First(Outstanding(initial, trace), c)
    case Removed(c) => |trace| > 0 && trace[|trace| - 1] == Sent(c, true)
  }

  /** Only a first outstanding chunk is ever sent, and a chunk goes only when acknowledged. */
  predicate InOrder(initial: set<PendingChunk>, trace: seq<Event>) {
    forall i :: 0 <= i < |trace| ==> MayFollow(initial, trace[..i], trace[i])
  }

  lemma Noted(initial: set<PendingChunk>, trace: seq<Event>, e: Event)
    ensures Outstanding(initial, trace + [e]) == After(Outstanding(initial, trace), e)
    ensures InOrder(initial, trace + [e]) <==> InOrder(initial, trace) && MayFollow(initial, trace, e)
  {
    var longer := trace + [e];
    assert longer[..|trace|] == trace;
    assert forall i :: 0 <= i < |trace| ==> longer[..i] == trace[..i] && longer[i] == trace[i];
    assert InOrder(initial, longer) ==> MayFollow(initial, longer[..|trace|], longer[|trace|]);
  }

  lemma {:induction false} LeftBetween(initial: set<PendingChunk>, trace: seq<Event>, i: nat, j: nat, d: PendingChunk)
    requires i <= j <= |trace|
    requires d in Outstanding(initial, trace[..i]) && d !in Outstanding(initial, trace[..j])
    ensures exists k :: i <= k < j && trace[k] == Removed(d)
  {
    if i < j {
      assert trace[..j][..j - 1] == trace[..j - 1];
      if d in Outstanding(initial, trace[..j - 1]) {
        assert trace[j - 1] == Removed(d);
      } else {
        LeftBetween(initial, trace, i, j - 1, d);
      }
    }
  }

  /** Since `before`, the chunk has been sent a number of times. */
  ghost predicate Requested(initial: set<PendingChunk>, before: seq<Event>, trace: seq<Event>, c: PendingChunk) {
    && Outstanding(initial, trace) == Outstanding(initial, before)
    && (First(Outstanding(initial, before), c) && InOrder(initial, before) ==> InOrder(initial, trace))
    && before <= trace && forall e :: e in trace[|before|..] ==> e.chunk == c
  }

  function Unanswered(c: PendingChunk, k: nat): seq<Event> { seq(k, _ => Sent(c, false)) }

  /** The chunk was sent until it was acknowledged, and given up only after three requests. */
  ghost predicate Tried(before: seq<Event>, trace: seq<Event>, c: PendingChunk, acked: bool) {
    exists k :: 0 <= k <= 2 && (!acked ==> k == 2) && trace == before + Unanswered(c, k) + [Sent(c, acked)]
  }

  lemma OneMoreRequest(
    initial: set<PendingChunk>, before: seq<Event>, trace: seq<Event>, c: PendingChunk, acked: bool)
    requires Requested(initial, before, trace, c)
    ensures Requested(initial, before, trace + [Sent(c, acked)], c)
  {
    Noted(initial, trace, Sent(c, acked));
    assert (trace + [Sent(c, acked)])[|before|..] == trace[|before|..] + [Sent(c, acked)];
  }

  /** The last request so far, if there was one, was acknowledged. */
  predicate Answered(trace: seq<Event>) {
    if |trace| == 0 then true
    else
      var last := trace[|trace| - 1];
      if last.Sent? then last.acked else Answered(trace[..|trace| - 1])
  }

  lemma AnsweredThen(trace: seq<Event>, e: Event)
    ensures Answered(trace + [e]) == if e.Sent? then e.acked else Answered(trace)
  {
    assert (trace + [e])[..|trace|] == trace;
  }

  lemma OutstandingWasDelivered(initial: set<PendingChunk>, trace: seq<Event>, i: nat, j: nat, d: PendingChunk)
    requires InOrder(initial, trace) && i <= j < |trace| && d in Outstanding(initial, trace[..i])
    requires trace[j].Sent? && d.sequence < trace[j].chunk.sequence
    ensures exists k :: i <= k < j && 0 < k && trace[k] == Removed(d) && trace[k - 1] == Sent(d, true)
  {
    assert MayFollow(initial, trace[..j], trace[j]);
    assert First(Outstanding(initial, trace[..j]), trace[j].chunk);
    LeftBetween(initial, trace, i, j, d);
    var k :| i <= k < j && trace[k] == Removed(d);
    assert MayFollow(initial, trace[..k], trace[k]);
  }

  /** No overtaking: when a chunk is sent, every smaller one stored before has been acknowledged and
      then removed. */
  lemma SmallerWereDelivered(initial: set<PendingChunk>, trace: seq<Event>, i: nat, j: nat)
    requires InOrder(initial, trace) && i < j < |trace|
    requires trace[i].Stored? && trace[j].Sent? && trace[i].chunk.sequence < trace[j].chunk.sequence
    ensures exists k :: i < k < j && trace[k] == Removed(trace[i].chunk) && trace[k - 1] == Sent(trace[i].chunk, true)
  {
    var d := trace[i].chunk;
    assert trace[..i + 1][..i] == trace[..i];
    assert d in Outstanding(initial, trace[..i + 1]);
    OutstandingWasDelivered(initial, trace, i + 1, j, d);
  }

  /** And so has every smaller one that was pending when the spool was opened. */
  lemma SmallerLeftoversWereDelivered(initial: set<PendingChunk>, trace: seq<Event>, j: nat, d: PendingChunk)
    requires InOrder(initial, trace) && j < |trace| && d in initial
    requires trace[j].Sent? && d.sequence < trace[j].chunk.sequence
    ensures exists k :: 0 < k < j && trace[k] == Removed(d) && trace[k - 1] == Sent(d, true)
  {
    OutstandingWasDelivered(initial, trace, 0, j, d);
  }

  /** Nothing but the terminator is touched once it is, and no chunk is outstanding then. */
  ghost predicate TerminatorLast(initial: set<PendingChunk>, trace: seq<Event>) {
    exists n :: 0 <= n <= |trace|
      && (forall i :: 0 <= i < n ==> trace[i].chunk.kind == Chunk)
      && (forall i :: n <= i < |trace| ==> trace[i].chunk.kind == Terminator)
      && (n < |trace| ==> forall c :: c in Outstanding(initial, trace[..n]) ==> c.kind != Chunk)
  }

  lemma Closed(initial: set<PendingChunk>, trace: seq<Event>, closing: seq<Event>)
    requires forall i :: 0 <= i < |trace| ==> trace[i].chunk.kind == Chunk
    requires forall i :: 0 <= i < |closing| ==> closing[i].chunk.kind == Terminator
    requires forall c :: c in Outstanding(initial, trace) ==> c.kind != Chunk
    ensures TerminatorLast(initial, trace + closing)
  {
    assert (trace + closing)[..|trace|] == trace;
  }

  lemma NeverClosed(initial: set<PendingChunk>, trace: seq<Event>)
    requires forall i :: 0 <= i < |trace| ==> trace[i].chunk.kind == Chunk
    ensures TerminatorLast(initial, trace)
  {
    assert trace[..|trace|] == trace;
  }

  // ---------------------------------------------------------------------------------------------
  // The uploader
  // ---------------------------------------------------------------------------------------------

  /** What the log writer hands over: bytes, or a tick of the flush interval. */
  datatype Input = Append(bytes: string) | Tick

  function Accepted(inputs: seq<Input>): string {
    if |inputs| == 0 then ""
    else
      Accepted(inputs[..|inputs| - 1]) +
      (if inputs[|inputs| - 1].Append? then inputs[|inputs| - 1].bytes else "")
  }

  class Uploader {
    const server: Server
    const spool: Spool
    var buffer: string
    var lastAcked: Option<Acked>
    var incomplete: bool
    /** The spool's directory was removed. */
    var removed: bool

    /** What was pending at the start, the first sequence, whether spool and server were both empty;
        what has happened since, and whether the spool has failed to list, read or remove a chunk. */
    ghost const initial: set<PendingChunk>
    ghost const first: U64
    ghost const blank: bool
    ghost var trace: seq<Event>
    ghost var faulty: bool
    /** The run of the spool so far. */
    ghost var run: R.History

    ghost var cut: seq<string>
    ghost var flushed: string

    ghost predicate Delivering()
      reads this, server, spool, spool.directory
    {
      !incomplete && blank && spool.nextSequence < U64_MAX ==>
        Faithful(cut, flushed, spool.directory.files.stored, spool.nextSequence, server.received, lastAcked)
    }

    ghost predicate Orderly()
      reads this, spool, spool.directory
    {
      && Outstanding(initial, trace) == spool.directory.files.stored.Keys
      && (!faulty ==> InOrder(initial, trace))
      && (blank ==> initial == {})
    }

    /** The spool has come through a run of `SpoolRuns`, and is where the run is. */
    ghost predicate Recorded()
      reads this, spool, spool.directory
    {
      run.Run() && run.Last() == R.Running(spool.directory.files, spool.bytes, spool.nextSequence)
    }

    /** The last acknowledged sequence is one that was handed out. */
    ghost predicate AckedIssued()
      reads this, spool
    {
      lastAcked.Some? ==> R.Issued(spool.nextSequence, lastAcked.value.sequence)
    }

    /** On a disk that can be relied on, and with nothing spooled at the start, the log is incomplete so far
        exactly if the cap refused a chunk; a request that was not acknowledged is still to be repeated. */
    ghost predicate Candid()
      reads this, spool, spool.directory
    {
      spool.directory.reliable && initial == {} ==>
        && !faulty && spool.directory.files.temporary == map[]
        && (incomplete <==> R.CapMet(run))
        && (Answered(trace) || spool.directory.files.stored != map[])
    }

    /** The same at the end, when nothing is repeated any more. */
    ghost predicate Told()
      reads this, spool
    {
      spool.directory.reliable && initial == {} ==> (incomplete <==> R.CapMet(run) || !Answered(trace))
    }

    ghost predicate Paced()
      reads this, spool
    {
      spool.nextSequence <= first + |flushed|
    }

    /** No terminator has been touched, unless one was left over from before. */
    ghost predicate OnlyChunks()
      reads this, spool, spool.directory
    {
      (forall c :: c in initial ==> c.kind == Chunk) ==>
        && (forall c :: c in spool.directory.files.stored ==> c.kind == Chunk)
        && (forall i :: 0 <= i < |trace| ==> trace[i].chunk.kind == Chunk)
    }

    ghost predicate Valid()
      reads this, server, spool, spool.directory
    {
      Delivering() && Orderly() && OnlyChunks() && Paced() && Recorded() && AckedIssued() && Candid()
    }

    /** Nothing has gone wrong, and nothing is left on the disk. */
    ghost predicate AtRest()
      reads this, spool, spool.directory
    {
      && !incomplete && !faulty && spool.directory.files == Files(map[], map[]) && spool.bytes == 0
      && (lastAcked.Some? ==> |lastAcked.value.bytes| <= LOG_CHUNK_BYTES)
    }

    /** Nothing has gone wrong, and only this one chunk is on the disk. */
    ghost predicate Queued(c: PendingChunk, bytes: string)
      reads this, spool, spool.directory
    {
      && !incomplete && !faulty && spool.directory.files == Files(map[c := bytes], map[])
      && spool.bytes == |bytes| <= LOG_CHUNK_BYTES
      && (lastAcked.Some? ==> |lastAcked.value.bytes| <= LOG_CHUNK_BYTES)
    }

    constructor (server: Server, spool: Spool, ghost run: R.History)
      requires Follows(spool.nextSequence, spool.directory.files.stored)
      requires run.Run() && run.Last() == R.Running(spool.directory.files, spool.bytes, spool.nextSequence)
      requires spool.directory.files.temporary == map[] && !R.CapMet(run)
      ensures this.server == server && this.spool == spool
      ensures initial == spool.directory.files.stored.Keys && first == spool.nextSequence
      ensures blank <==> initial == {} && server.received == map[]
      ensures buffer == "" && lastAcked == None && !incomplete && !removed && flushed == "" && !faulty && trace == []
      ensures Valid() && this.run == run
    {
      this.server, this.spool, this.run := server, spool, run;
      buffer, lastAcked, incomplete, removed := "", None, false, false;
      initial, first := spool.directory.files.stored.Keys, spool.nextSequence;
      blank := spool.directory.files.stored == map[] && server.received == map[];
      trace, faulty, cut, flushed := [], false, [], "";
    }

    /** `retry_log`: up to three attempts; an answer with a foreign sequence is a failure. */
    method RetryLog(c: PendingChunk, bytes: string) returns (acked: bool)
      modifies this`trace, server
      ensures server.received in
        {old(server.received), Taken(old(server.received), server.keepsFirst, c.sequence, bytes)}
      ensures acked ==> server.received == Taken(old(server.received), server.keepsFirst, c.sequence, bytes)
      ensures acked && c.kind == Terminator ==> server.finished
      ensures Requested(initial, old(trace), trace, c)
      ensures acked ==> |trace| > 0 && trace[|trace| - 1] == Sent(c, true)
      ensures !acked ==> |trace| > 0 && trace[|trace| - 1] == Sent(c, false)
      ensures Tried(old(trace), trace, c, acked)
      ensures server.reliable ==> acked
    {
      acked := false;
      var attempt := 0;
      while attempt < 3 && !acked
        invariant attempt <= 3
        invariant server.received in
        {old(server.received), Taken(old(server.received), server.keepsFirst, c.sequence, bytes)}
        invariant acked ==> server.received == Taken(old(server.received), server.keepsFirst, c.sequence, bytes)
        invariant acked && c.kind == Terminator ==> server.finished
        invariant Requested(initial, old(trace), trace, c)
        invariant acked ==> |trace| > 0 && trace[|trace| - 1] == Sent(c, true)
        invariant server.reliable ==> attempt == 0 || acked
        invariant !acked && attempt > 0 ==> |trace| > 0 && trace[|trace| - 1] == Sent(c, false)
        invariant !acked ==> trace == old(trace) + Unanswered(c, attempt)
        invariant acked ==> attempt > 0 && trace == old(trace) + Unanswered(c, attempt - 1) + [Sent(c, true)]
        decreases 3 - attempt, !acked
      {
        TakenTwice(old(server.received), server.keepsFirst, c.sequence, bytes);
        var reply := server.Receive(c.sequence, bytes, c.kind == Terminator);
        acked := reply.Ok? && (reply.value.None? || reply.value.value == c.sequence);
        OneMoreRequest(initial, old(trace), trace, c, acked);
        trace := trace + [Sent(c, acked)];
        attempt := attempt + 1;
        assert Unanswered(c, attempt) == Unanswered(c, attempt - 1) + [Sent(c, false)];
      }
      assert Unanswered(c, 3) == Unanswered(c, 2) + [Sent(c, false)];
    }

    /** Adds to the run what has just happened to the spool. */
    ghost method Extend(recorded: bool, action: R.Action)
      requires recorded ==>
        run.Run() && R.Step(run.Last(), action, R.Running(spool.directory.files, spool.bytes, spool.nextSequence))
      modifies this`run
      ensures recorded ==> Recorded() && run.moments[0] == old(run).moments[0]
      ensures recorded ==> (R.CapMet(run) <==> R.CapMet(old(run)) || R.Refuses(old(run).Last(), action))
    {
      if recorded {
        var now := R.Running(spool.directory.files, spool.bytes, spool.nextSequence);
        R.RunGoesOn(run, action, now);
        R.CapMetThen(run, action, now);
        run := run.Then(action, now);
      }
    }

    /** An acknowledged chunk leaves the spool; when it cannot be removed, it stays and the delivery
        counts as incomplete. */
    method Discard(c: PendingChunk) returns (removed: bool)
      requires |trace| > 0 && trace[|trace| - 1] == Sent(c, true)
      modifies this`trace, this`run, this`incomplete, this`faulty, spool`bytes, spool.directory
      ensures removed ==> spool.directory.files.stored == old(spool.directory.files.stored) - {c}
      ensures removed ==> incomplete == old(incomplete) && faulty == old(faulty)
      ensures !removed ==> spool.directory.files.stored == old(spool.directory.files.stored) && incomplete && faulty
      ensures trace == if removed then old(trace) + [Removed(c)] else old(trace)
      ensures spool.directory.reliable && removed ==>
        RemoveDone(old(spool.directory.files), old(spool.bytes), c, true, spool.directory.files, spool.bytes)
      ensures spool.directory.reliable ==> removed
      ensures old(Recorded()) ==> Recorded() && run.moments[0] == old(run).moments[0]
      ensures old(Orderly()) ==> Orderly()
      ensures old(Recorded()) && old(Candid()) ==> Candid()
    {
      AnsweredThen(trace, Removed(c));
      ghost var measured;
      removed, measured := spool.Remove(c);
      if removed {
        Extend(old(Recorded()), R.Removing(c, measured));
        Noted(initial, trace, Removed(c));
        trace := trace + [Removed(c)];
      } else {
        incomplete, faulty := true, true;
      }
    }

    method Deliver(c: PendingChunk, bytes: string) returns (acked: bool)
      modifies this`trace, this`run, this`lastAcked, this`incomplete, this`faulty
      modifies server, spool`bytes, spool.directory
      ensures server.received in
        {old(server.received), Taken(old(server.received), server.keepsFirst, c.sequence, bytes)}
      ensures acked ==> server.received == Taken(old(server.received), server.keepsFirst, c.sequence, bytes)
      ensures acked && c.kind == Terminator ==> server.finished
      ensures lastAcked == if acked && c.kind == Chunk then Some(Acked(c.sequence, bytes)) else old(lastAcked)
      ensures
        || spool.directory.files.stored == old(spool.directory.files.stored)
        || (acked && spool.directory.files.stored == old(spool.directory.files.stored) - {c})
      ensures acked && !faulty ==> spool.directory.files.stored == old(spool.directory.files.stored) - {c}
      ensures (old(incomplete) ==> incomplete) && (old(faulty) ==> faulty)
      ensures old(trace) <= trace && forall e :: e in trace[|old(trace)|..] ==> e.chunk == c
      ensures old(Orderly()) && (!faulty ==> First(old(spool.directory.files.stored.Keys), c)) ==> Orderly()
      ensures spool.directory.reliable && server.reliable ==> acked
      ensures spool.directory.reliable && server.reliable && old(Queued(c, bytes)) ==> AtRest()
      ensures !acked ==> Stuck() && incomplete == old(incomplete)
      ensures old(Recorded()) ==> Recorded() && run.moments[0] == old(run).moments[0]
      ensures old(Recorded()) && old(Candid()) && c in old(spool.directory.files.stored) ==> Candid()
    {
      acked := RetryLog(c, bytes);
      if acked {
        if c.kind == Chunk { lastAcked := Some(Acked(c.sequence, bytes)); }
        OneRemoved(c, bytes);
        var _ := Discard(c);
      }
    }

    lemma OneRemoved(c: PendingChunk, bytes: string)
      ensures map[c := bytes] - {c} == map[]
    {
    }

    /** Delivering a stored chunk keeps everything there is to keep. */
    method DeliverStored(c: PendingChunk, bytes: string) returns (acked: bool)
      requires Valid() && c in spool.directory.files.stored && bytes == spool.directory.files.stored[c]
      requires !faulty ==> First(spool.directory.files.stored.Keys, c)
      modifies this`trace, this`run, this`lastAcked, this`incomplete, this`faulty
      modifies server, spool`bytes, spool.directory
      ensures Valid()
      ensures run.moments[0] == old(run).moments[0]
      ensures
        || spool.directory.files.stored == old(spool.directory.files.stored)
        || spool.directory.files.stored == old(spool.directory.files.stored) - {c}
      ensures acked && !faulty ==> spool.directory.files.stored == old(spool.directory.files.stored) - {c}
      ensures spool.directory.reliable && server.reliable && old(Queued(c, bytes)) ==> AtRest()
      ensures !acked ==> Stuck()
      ensures old(faulty) ==> faulty
    {
      StoredIsIssued(c);
      if !incomplete && blank && spool.nextSequence < U64_MAX {
        TakingIsFaithful(
          cut, flushed, spool.directory.files.stored, spool.nextSequence, server.received, lastAcked,
          server.keepsFirst, c);
      }
      acked := Deliver(c, bytes);
    }

    lemma StoredIsIssued(c: PendingChunk)
      requires Recorded() && c in spool.directory.files.stored
      ensures R.Issued(spool.nextSequence, c.sequence)
    {
      R.ReachableIssued(run, |run.actions|);
      assert c in run.Last().Pending();
    }

    method Store(c: PendingChunk, bytes: string) returns (stored: bool)
      modifies this`trace, this`incomplete, spool`bytes, spool.directory
      ensures old(Orderly()) ==> Orderly()
      ensures old(OnlyChunks()) && c.kind == Chunk ==> OnlyChunks()
      ensures stored ==> spool.directory.files.stored == old(spool.directory.files.stored)[c := bytes]
      ensures !stored ==> spool.directory.files.stored == old(spool.directory.files.stored)
      ensures spool.directory.reliable && old(AtRest()) && |bytes| <= LOG_CHUNK_BYTES ==> stored && Queued(c, bytes)
      ensures incomplete == (old(incomplete) || !stored)
      ensures trace == if stored then old(trace) + [Stored(c)] else old(trace)
      ensures Answered(trace) == old(Answered(trace))
      ensures spool.directory.reliable ==>
        (stored <==> old(spool.bytes) + |bytes| <= MAX_SPOOL_BYTES && c !in old(spool.directory.files.temporary))
      ensures if stored
        then StoreDone(old(spool.directory.files), old(spool.bytes), c, bytes, spool.directory.files, spool.bytes)
        else
          && spool.bytes == old(spool.bytes)
          && StoreFailed(old(spool.directory.files), old(spool.bytes), c, bytes, spool.directory.files)
    {
      AnsweredThen(trace, Stored(c));
      stored := spool.Store(c, bytes);
      if stored {
        Noted(initial, trace, Stored(c));
        trace := trace + [Stored(c)];
      } else {
        incomplete := true;
      }
    }

    /** A refused store is the only one that fails, and a chunk that was stored waits to be sent. */
    twostate lemma StaysCandid(new action: R.Action, new stored: bool, new c: PendingChunk, new bytes: string)
      requires old(Candid()) && old(run.moments) != [] && action.Stores() && action.Content() == bytes
      requires incomplete == (old(incomplete) || !stored) && faulty == old(faulty)
      requires Answered(trace) == old(Answered(trace))
      requires spool.directory.reliable ==> spool.directory.files.temporary == old(spool.directory.files.temporary)
      requires spool.directory.files.stored ==
        if stored then old(spool.directory.files.stored)[c := bytes] else old(spool.directory.files.stored)
      requires spool.directory.reliable ==>
        (stored <==> old(spool.bytes) + |bytes| <= MAX_SPOOL_BYTES && c !in old(spool.directory.files.temporary))
      requires old(run.Last()).Running? && old(run.Last()).bytes == old(spool.bytes)
      requires R.CapMet(run) <==> R.CapMet(old(run)) || R.Refuses(old(run.Last()), action)
      ensures Candid()
    {
    }

    /** Stores a chunk whose sequence has been found, as the next action of the run. */
    method StoreAs(c: PendingChunk, bytes: string, ghost action: R.Action) returns (stored: bool)
      requires Orderly() && run.Run() && action.Stores() && action.Content() == bytes
      requires run.Last().Running? && run.Last().files == spool.directory.files && run.Last().bytes == spool.bytes
      requires R.MayStore(run.Last(), action) && R.Target(run.Last(), action) == c
      requires
        spool.nextSequence == if action.Allocates() then Saturated(run.Last().next + 1) else run.Last().next
      modifies this`trace, this`run, this`incomplete, spool`bytes, spool.directory
      ensures Recorded() && run.moments[0] == old(run).moments[0]
      ensures Orderly() && incomplete == (old(incomplete) || !stored)
      ensures old(OnlyChunks()) && c.kind == Chunk ==> OnlyChunks()
      ensures old(Candid()) ==> Candid()
      ensures spool.directory.reliable && old(AtRest()) && |bytes| <= LOG_CHUNK_BYTES ==> stored && Queued(c, bytes)
      ensures spool.directory.files.stored ==
        if stored then old(spool.directory.files.stored)[c := bytes] else old(spool.directory.files.stored)
      ensures trace == if stored then old(trace) + [Stored(c)] else old(trace)
    {
      stored := Store(c, bytes);
      Extend(true, action);
      if old(Candid()) { StaysCandid(action, stored, c, bytes); }
    }

    /** Stores a chunk under the next sequence. */
    method Append(bytes: string) returns (stored: bool, c: PendingChunk)
      requires Orderly() && OnlyChunks() && Recorded()
      modifies this`trace, this`run, this`incomplete, spool, spool.directory
      ensures Orderly() && OnlyChunks() && incomplete == (old(incomplete) || !stored)
      ensures Recorded() && run.moments[0] == old(run).moments[0]
      ensures c == PendingChunk(old(spool.nextSequence), Chunk)
      ensures spool.nextSequence == Saturated(old(spool.nextSequence) + 1)
      ensures spool.directory.files.stored ==
        if stored then old(spool.directory.files.stored)[c := bytes] else old(spool.directory.files.stored)
      ensures spool.directory.reliable && old(AtRest()) && |bytes| <= LOG_CHUNK_BYTES ==> stored && Queued(c, bytes)
      ensures old(Candid()) ==> Candid()
    {
      var sequence := spool.AllocateSequence();
      c := PendingChunk(sequence, Chunk);
      stored := StoreAs(c, bytes, R.StoreChunk(bytes));
    }

    method StoreNew(bytes: string) returns (stored: bool, c: PendingChunk)
      requires Valid() && |bytes| > 0
      modifies this`trace, this`run, this`cut, this`flushed, this`incomplete, spool, spool.directory
      ensures Valid() && flushed == old(flushed) + bytes
      ensures run.moments[0] == old(run).moments[0]
      ensures spool.directory.reliable && old(AtRest()) && |bytes| <= LOG_CHUNK_BYTES ==> stored && Queued(c, bytes)
      ensures spool.directory.files.stored ==
        if stored then old(spool.directory.files.stored)[c := bytes] else old(spool.directory.files.stored)
    {
      if !incomplete && blank && spool.nextSequence < U64_MAX {
        StoringIsFaithful(
          cut, flushed, spool.directory.files.stored, spool.nextSequence, server.received, lastAcked, bytes);
      }
      stored, c := Append(bytes);
      flushed, cut := flushed + bytes, if stored then cut + [bytes] else cut;
    }

    /** `flush_chunk`: store first; send at once only when nothing older is waiting. */
    method FlushChunk(bytes: string)
      requires Valid() && |bytes| > 0
      modifies this`trace, this`run, this`cut, this`flushed, this`incomplete, this`faulty, this`lastAcked
      modifies server, spool, spool.directory
      ensures Valid() && flushed == old(flushed) + bytes
      ensures run.moments[0] == old(run).moments[0]
      ensures spool.directory.reliable && server.reliable && old(AtRest()) && |bytes| <= LOG_CHUNK_BYTES ==> AtRest()
    {
      var listing := spool.Pending();
      var backlog := listing.Err? || |listing.value| > 0;
      if listing.Err? { incomplete, faulty := true, true; }
      if listing.Ok? { NoElements(listing.value); }
      var stored, c := StoreNew(bytes);
      if stored && !backlog {
        var _ := DeliverStored(c, bytes);
      }
    }

    /** The last request was not acknowledged. */
    ghost predicate Stuck()
      reads this
    {
      |trace| > 0 && trace[|trace| - 1].Sent? && !trace[|trace| - 1].acked
    }

    /** `replay_pending`: oldest first, up to the first failure. If the spool can be listed, read and
        cleared, either everything is delivered or the last request was not acknowledged. */
    method ReplayPending()
      requires Valid()
      modifies this`trace, this`run, this`lastAcked, this`incomplete, this`faulty
      modifies server, spool`bytes, spool.directory
      ensures Valid() && flushed == old(flushed)
      ensures run.moments[0] == old(run).moments[0]
      ensures faulty || Stuck() || spool.directory.files.stored == map[]
      ensures spool.directory.reliable && old(AtRest()) ==> AtRest()
    {
      var listing := spool.Pending();
      if listing.Err? {
        incomplete, faulty := true, true;
        return;
      }
      NoElements(listing.value);
      ReplayEach(listing.value);
    }

    /** An unreadable chunk is skipped. */
    method ReplayEach(pending: seq<PendingChunk>)
      requires Valid() && Sorted(ChunkLess, pending) && Elements(pending) == spool.directory.files.stored.Keys
      modifies this`trace, this`run, this`lastAcked, this`incomplete, this`faulty
      modifies server, spool`bytes, spool.directory
      ensures Valid() && flushed == old(flushed)
      ensures run.moments[0] == old(run).moments[0]
      ensures faulty || Stuck() || spool.directory.files.stored == map[]
      ensures old(AtRest()) && pending == [] ==> AtRest()
    {
      for i := 0 to |pending|
        invariant Valid() && flushed == old(flushed) && run.moments[0] == old(run).moments[0]
        invariant old(AtRest()) && i == 0 ==> AtRest()
        invariant !faulty ==> spool.directory.files.stored.Keys == Elements(pending[i..])
      {
        FirstOfSorted(pending, i);
        var bytes := spool.Read(pending[i]);
        if bytes.Err? {
          incomplete, faulty := true, true;
        } else {
          var acked := DeliverStored(pending[i], bytes.value);
          if !acked { return; }
        }
      }
    }

    /** The chunk that closes the log: a leftover terminator, or else a new one that repeats the last
        acknowledged chunk, or an empty one when nothing was ever sent. */
    method StoreTerminator() returns (stored: bool, c: PendingChunk, bytes: string)
      requires Valid() && spool.directory.files.stored == map[]
      modifies this`trace, this`run, this`incomplete, spool, spool.directory
      ensures Recorded() && run.moments[0] == old(run).moments[0]
      ensures Orderly() && incomplete == (old(incomplete) || !stored)
      ensures c.kind == Terminator
      ensures spool.directory.reliable && old(AtRest()) ==> stored && Queued(c, bytes)
      ensures stored ==> spool.directory.files.stored == map[c := bytes]
      ensures lastAcked.Some? ==> lastAcked.value == Acked(c.sequence, bytes)
      ensures lastAcked.None? ==> Acked(c.sequence, bytes) == Acked(old(spool.nextSequence), "")
      ensures trace == if stored then old(trace) + [Stored(c)] else old(trace)
      ensures Candid() && Answered(trace) == old(Answered(trace))
    {
      var sequence;
      if lastAcked.Some? {
        sequence, bytes := lastAcked.value.sequence, lastAcked.value.bytes;
      } else {
        sequence := spool.AllocateSequence();
        bytes := "";
      }
      c := PendingChunk(sequence, Terminator);
      ghost var action := if lastAcked.Some? then R.StoreTerminator(sequence, bytes) else R.StoreEmptyTerminator;
      stored := StoreAs(c, bytes, action);
      AnsweredThen(old(trace), Stored(c));
    }

    /** Picks the terminator, if only terminators are pending. */
    method ChooseTerminator() returns (ready: bool, c: PendingChunk, bytes: string)
      requires Valid()
      modifies this`trace, this`run, this`incomplete, this`faulty, spool, spool.directory
      ensures Recorded() && run.moments[0] == old(run).moments[0]
      ensures Orderly() && (old(incomplete) ==> incomplete)
      ensures ready || incomplete
      ensures spool.directory.reliable && old(AtRest()) ==> ready && Queued(c, bytes)
      ensures ready ==> c.kind == Terminator && First(spool.directory.files.stored.Keys, c)
      ensures ready ==> Candid() && c in spool.directory.files.stored
      ensures ready && initial == {} ==> spool.directory.files.stored == map[c := bytes]
      ensures !ready && old(faulty || Stuck() || spool.directory.files.stored == map[]) ==> Told()
      ensures ready ==> forall d :: d in old(spool.directory.files.stored) ==> d.kind != Chunk
      ensures ready && old(spool.directory.files.stored) == map[] && lastAcked.Some? ==>
        lastAcked.value == Acked(c.sequence, bytes)
      ensures ready && old(spool.directory.files.stored) == map[] && lastAcked.None? ==>
        Acked(c.sequence, bytes) == Acked(old(spool.nextSequence), "")
      ensures trace == old(trace) || (ready && trace == old(trace) + [Stored(c)])
    {
      ready, c, bytes := false, PendingChunk(0, Terminator), "";
      var listing := spool.Pending();
      if listing.Err? {
        incomplete, faulty := true, true;
        return;
      }
      var pending := listing.value;
      NoElements(pending);
      if exists i :: 0 <= i < |pending| && pending[i].kind == Chunk {
        incomplete := true;
        return;
      }
      assert forall d :: d in spool.directory.files.stored ==> d in Elements(pending);
      if |pending| > 0 {
        FirstOfSorted(pending, 0);
        assert pending[0..] == pending;
        var content := spool.Read(pending[0]);
        if content.Err? {
          incomplete, faulty := true, true;
        } else {
          ready, c, bytes := true, pending[0], content.value;
        }
      } else {
        ready, c, bytes := StoreTerminator();
      }
    }

    /** Sends the terminator; only its acknowledgement completes the log. */
    method Close(c: PendingChunk, bytes: string)
      requires Recorded() && c.kind == Terminator && Orderly() && First(spool.directory.files.stored.Keys, c)
      requires Candid() && c in spool.directory.files.stored
      modifies this`trace, this`run, this`lastAcked, this`incomplete, this`faulty, this`removed
      modifies server, spool`bytes, spool.directory
      ensures Recorded() && run.moments[0] == old(run).moments[0]
      ensures Orderly() && (old(incomplete) ==> incomplete)
      ensures old(trace) <= trace && forall e :: e in trace[|old(trace)|..] ==> e.chunk == c
      ensures spool.directory.reliable && server.reliable && old(Queued(c, bytes)) ==> !incomplete && removed
      ensures old(initial == {} ==> spool.directory.files.stored == map[c := bytes]) ==> Told()
      ensures !incomplete ==>
        && server.received == Taken(old(server.received), server.keepsFirst, c.sequence, bytes)
        && server.finished
    {
      var acked := Deliver(c, bytes);
      if !acked {
        incomplete := true;
      } else if spool.IsEmpty() {
        RemoveDirectory();
        if !removed { incomplete := true; }
      }
    }

    /** Whatever has happened to chunks came `before`. */
    method CloseAfter(ghost before: seq<Event>, c: PendingChunk, bytes: string)
      requires Recorded() && c.kind == Terminator && Orderly() && First(spool.directory.files.stored.Keys, c)
      requires Candid() && c in spool.directory.files.stored
      requires trace == before || trace == before + [Stored(c)]
      requires forall d :: d in Outstanding(initial, before) ==> d.kind != Chunk
      modifies this`trace, this`run, this`lastAcked, this`incomplete, this`faulty, this`removed
      modifies server, spool`bytes, spool.directory
      ensures Recorded() && run.moments[0] == old(run).moments[0]
      ensures Orderly()
      ensures spool.directory.reliable && server.reliable && old(Queued(c, bytes)) ==> !incomplete && removed
      ensures old(initial == {} ==> spool.directory.files.stored == map[c := bytes]) ==> Told()
      ensures !incomplete ==>
        && server.received == Taken(old(server.received), server.keepsFirst, c.sequence, bytes)
        && server.finished
      ensures
        (forall i :: 0 <= i < |before| ==> before[i].chunk.kind == Chunk) ==> TerminatorLast(initial, trace)
      ensures old(incomplete) ==> incomplete
    {
      ghost var stored := trace;
      Close(c, bytes);
      assert trace[|before|..] == stored[|before|..] + trace[|stored|..];
      ClosedBy(before, trace, c);
    }

    /** `finish_log`. */
    method FinishLog()
      requires Valid()
      modifies this`trace, this`run, this`lastAcked, this`incomplete, this`faulty, this`removed
      modifies server, spool, spool.directory
      ensures Recorded() && run.moments[0] == old(run).moments[0]
      ensures Orderly() && flushed == old(flushed)
      ensures (forall c :: c in initial ==> c.kind == Chunk) ==> TerminatorLast(initial, trace)
      ensures spool.directory.reliable && server.reliable && old(AtRest()) ==> !incomplete && removed
      ensures old(faulty || Stuck() || spool.directory.files.stored == map[]) ==> Told()
      ensures !incomplete && blank && old(spool.nextSequence) < U64_MAX ==>
        Complete(server.received, flushed) && server.finished
    {
      ghost var before := trace;
      if !incomplete && blank && spool.nextSequence < U64_MAX { DeliveredUnlessStored(); }
      var ready, c, bytes := ChooseTerminator();
      if ready {
        CloseAfter(before, c, bytes);
      } else if forall c :: c in initial ==> c.kind == Chunk {
        NeverClosed(initial, trace);
      }
    }

    lemma ClosedBy(before: seq<Event>, after: seq<Event>, c: PendingChunk)
      requires c.kind == Terminator && before <= after
      requires forall e :: e in after[|before|..] ==> e.chunk == c
      requires forall d :: d in Outstanding(initial, before) ==> d.kind != Chunk
      ensures
        (forall i :: 0 <= i < |before| ==> before[i].chunk.kind == Chunk) ==> TerminatorLast(initial, after)
    {
      if forall i :: 0 <= i < |before| ==> before[i].chunk.kind == Chunk {
        var closing := after[|before|..];
        assert forall i :: 0 <= i < |closing| ==> closing[i] in closing;
        Closed(initial, before, closing);
        assert before + closing == after;
      }
    }

    method RemoveDirectory()
      modifies this`removed
      ensures removed ==> spool.directory.files == Files(map[], map[])
      ensures spool.directory.reliable && spool.directory.files == Files(map[], map[]) ==> removed
    {
      removed := *;
      if spool.directory.reliable { removed := true; }
      if spool.directory.files != Files(map[], map[]) { removed := false; }
    }

    lemma DeliveredUnlessStored()
      requires Delivering() && !incomplete && blank && spool.nextSequence < U64_MAX
      ensures
        var last := if lastAcked.Some? then lastAcked.value else Acked(spool.nextSequence, "");
        (forall c :: c in spool.directory.files.stored ==> c.kind != Chunk) ==>
          && spool.directory.files.stored == map[]
          && Complete(Taken(server.received, server.keepsFirst, last.sequence, last.bytes), flushed)
    {
      if forall c :: c in spool.directory.files.stored ==> c.kind != Chunk {
        EverythingDelivered(
          cut, flushed, spool.directory.files.stored, spool.nextSequence, server.received, lastAcked,
          server.keepsFirst);
      }
    }

    /** Bytes are cut into chunks of full size; the rest waits for more, a tick or the end. */
    method TakeIn(bytes: string)
      requires Valid()
      modifies this`buffer, this`trace, this`run, this`cut, this`flushed, this`incomplete, this`faulty, this`lastAcked
      modifies server, spool, spool.directory
      ensures Valid() && flushed + buffer == old(flushed + buffer) + bytes && |buffer| < LOG_CHUNK_BYTES
      ensures run.moments[0] == old(run).moments[0]
      ensures spool.directory.reliable && server.reliable && old(AtRest()) ==> AtRest()
    {
      buffer := buffer + bytes;
      ghost var all := flushed + buffer;
      while |buffer| >= LOG_CHUNK_BYTES
        invariant Valid() && flushed + buffer == all && run.moments[0] == old(run).moments[0]
        invariant spool.directory.reliable && server.reliable && old(AtRest()) ==> AtRest()
        decreases |buffer|
      {
        var chunk := buffer[..LOG_CHUNK_BYTES];
        assert buffer == chunk + buffer[LOG_CHUNK_BYTES..];
        buffer := buffer[LOG_CHUNK_BYTES..];
        FlushChunk(chunk);
      }
    }

    method FlushBuffer()
      requires Valid() && |buffer| < LOG_CHUNK_BYTES
      modifies this`buffer, this`trace, this`run, this`cut, this`flushed, this`incomplete, this`faulty, this`lastAcked
      modifies server, spool, spool.directory
      ensures Valid() && flushed == old(flushed + buffer) && buffer == ""
      ensures run.moments[0] == old(run).moments[0]
      ensures spool.directory.reliable && server.reliable && old(AtRest()) ==> AtRest()
    {
      if buffer != "" {
        var chunk := buffer;
        buffer := "";
        FlushChunk(chunk);
      }
    }

    method Tick()
      requires Valid() && |buffer| < LOG_CHUNK_BYTES
      modifies this`buffer, this`trace, this`run, this`cut, this`flushed, this`incomplete, this`faulty, this`lastAcked
      modifies server, spool, spool.directory
      ensures Valid() && flushed == old(flushed + buffer) && buffer == ""
      ensures run.moments[0] == old(run).moments[0]
      ensures spool.directory.reliable && server.reliable && old(AtRest()) ==> AtRest()
      ensures faulty || Stuck() || spool.directory.files.stored == map[]
    {
      FlushBuffer();
      ReplayPending();
    }

    /** One input: a tick leaves nothing in memory, and nothing on the disk unless the last request failed. */
    method Take(input: Input)
      requires Valid() && |buffer| < LOG_CHUNK_BYTES
      modifies this`buffer, this`trace, this`run, this`cut, this`flushed, this`incomplete, this`faulty, this`lastAcked
      modifies server, spool, spool.directory
      ensures Valid() && |buffer| < LOG_CHUNK_BYTES
      ensures flushed + buffer == old(flushed + buffer) + if input.Append? then input.bytes else ""
      ensures run.moments[0] == old(run).moments[0]
      ensures spool.directory.reliable && server.reliable && old(AtRest()) ==> AtRest()
      ensures input.Tick? ==> buffer == "" && (faulty || Stuck() || spool.directory.files.stored == map[])
    {
      match input
      case Append(bytes) => TakeIn(bytes);
      case Tick => Tick();
    }

    /** The loop of `upload_logs`, until the channel is closed. */
    method Consume(inputs: seq<Input>)
      requires Valid() && flushed == "" && buffer == ""
      modifies this`buffer, this`trace, this`run, this`cut, this`flushed, this`incomplete, this`faulty, this`lastAcked
      modifies server, spool, spool.directory
      ensures Valid() && flushed == Accepted(inputs)
      ensures run.moments[0] == old(run).moments[0]
      ensures spool.directory.reliable && server.reliable && old(AtRest()) ==> AtRest()
      ensures faulty || Stuck() || spool.directory.files.stored == map[]
    {
      for i := 0 to |inputs|
        invariant Valid() && flushed + buffer == Accepted(inputs[..i]) && |buffer| < LOG_CHUNK_BYTES
        invariant run.moments[0] == old(run).moments[0]
        invariant spool.directory.reliable && server.reliable && old(AtRest()) ==> AtRest()
      {
        assert inputs[..i + 1][..i] == inputs[..i];
        Take(inputs[i]);
      }
      assert inputs[..|inputs|] == inputs;
      Tick();
    }
  }

  /** `upload_logs`, from opening the spool to the end of the log. A log that starts with nothing
      spooled and does not end as incomplete has reached the server: exactly the accepted bytes, and
      the terminator. On a disk that can be relied on it ends as incomplete only if the cap refused a
      chunk or the last request was not acknowledged. Chunks do not overtake each other as long as the
      spool can be listed, read and cleared, and the terminator comes last. When nothing fails the log is
      not incomplete, and the spool's directory is gone.
      What happens to the spool is a run of `SpoolRuns`, from the directory found to the one left. */
  method UploadLogs(directory: Directory, server: Server, inputs: seq<Input>)
    returns (incomplete: bool, removed: bool, ghost trace: seq<Event>, ghost faulty: bool, ghost run: R.History)
    modifies directory, server
    ensures
      !incomplete && old(directory.files) == Files(map[], map[]) && old(server.received) == map[] &&
      |Accepted(inputs)| + 1 < U64_MAX ==>
        Complete(server.received, Accepted(inputs)) && server.finished
    ensures !faulty ==> InOrder(old(directory.files).Recovered().Keys, trace)
    ensures
      (forall c :: c in old(directory.files).Recovered() ==> c.kind == Chunk) ==>
        TerminatorLast(old(directory.files).Recovered().Keys, trace)
    ensures directory.reliable && server.reliable && old(directory.files) == Files(map[], map[]) ==>
      !incomplete && removed
    ensures directory.reliable && old(directory.files) == Files(map[], map[]) ==>
      (incomplete <==> R.CapMet(run) || !Answered(trace))
    ensures run.Run() && run.moments[0] == R.Stopped(old(directory.files)) && run.Last() == R.Stopped(directory.files)
  {
    run := R.History([R.Stopped(directory.files)], []);
    var spool := Spool.Open(directory);
    if spool.Err? {
      incomplete, removed, trace, faulty := true, false, [], false;
      run := R.Goes(run, R.Opening, R.Stopped(directory.files));
      NeverClosed(old(directory.files).Recovered().Keys, trace);
      return;
    }
    run := R.Goes(run, R.Opening, R.Running(directory.files, spool.value.bytes, spool.value.nextSequence));
    R.NothingRefused(run);
    var uploader := new Uploader(server, spool.value, run);
    uploader.Consume(inputs);
    uploader.FinishLog();
    incomplete, removed, trace, faulty := uploader.incomplete, uploader.removed, uploader.trace, uploader.faulty;
    R.CapMetThen(uploader.run, R.Stopping, R.Stopped(directory.files));
    run := R.Goes(uploader.run, R.Stopping, R.Stopped(directory.files));
  }

  lemma FirstOfSorted(pending: seq<PendingChunk>, i: nat)
    requires Sorted(ChunkLess, pending) && i < |pending|
    ensures First(Elements(pending[i..]), pending[i])
    ensures Elements(pending[i + 1..]) == Elements(pending[i..]) - {pending[i]}
  {
    assert pending[i..] == [pending[i]] + pending[i + 1..];
    forall c | c in pending[i + 1..] ensures ChunkLess(pending[i], c) {
    }
  }
}