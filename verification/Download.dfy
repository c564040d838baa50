/** Resumable downloads (`src/client.rs:545-648`, `src/client.rs:923-1037`). The server holds one
    resource and answers a range request as sections 14.2 and 15.3.7 of RFC 9110 say: with all of it,
    or with the part that starts at the requested offset. A body ends complete or breaks off. */
module Download {
  import opened Outcomes

  const MAX_ARTIFACT_BYTES: nat := 256 * 1024 * 1024
  const MAX_ARTIFACT_ATTEMPTS: nat := 3

  datatype Failure = Network | Unauthorized | Refused(transient: bool) | InvalidRange | TooLarge | Disk

  datatype Fetched = Fetched(bytes: string) | Failed(failure: Failure)

  /** What comes back before any of the body. */
  datatype Answer =
    | NoAnswer(failure: Failure)
    | Full(body: string, knownLength: bool)
    | Partial(body: string, knownLength: bool, rangeStated: bool)

  datatype Piece = Chunk(bytes: string) | End | Broken

  /** How the network and the server may still let a download down: so many requests may go unanswered, be
      refused for now, or break off; and, unless the server is willing, a request may be refused for good
      or its range not be stated. */
  datatype Weather = Weather(willing: bool, faults: nat) {
    function Worse(): Weather
      requires faults > 0
    {
      Weather(willing, faults - 1)
    }
  }

  /** Some failure was spent. */
  predicate Spent(before: Weather, left: Weather) {
    left.willing == before.willing && left.faults < before.faults
  }

  predicate Beyond(offset: nat, resource: string) { offset > 0 && offset >= |resource| }

  /** A faithful server: it has a part to send only if there is something beyond the offset, and it may
      always refuse a range beyond the end. */
  method Request(resource: string, offset: nat, weather: Weather) returns (answer: Answer, left: Weather)
    ensures answer.Full? ==> answer.body == resource
    ensures answer.Partial? ==> 0 < offset < |resource| && answer.body == resource[offset..]
    ensures answer.Partial? && weather.willing ==> answer.rangeStated
    ensures answer.NoAnswer? ==> answer.failure.Network? || answer.failure.Unauthorized? || answer.failure.Refused?
    ensures answer.NoAnswer? && weather.willing && !Beyond(offset, resource) ==>
      Spent(weather, left) && (answer.failure.Network? || answer.failure == Refused(true))
    ensures left == weather || Spent(weather, left)
  {
    left := weather;
    var known: bool := *;
    var other: bool := *;
    if {
      case weather.faults > 0 =>
        answer, left := NoAnswer(if other then Network else Refused(true)), weather.Worse();
      case !weather.willing => answer := NoAnswer(if other then Unauthorized else Refused(false));
      case Beyond(offset, resource) => answer := NoAnswer(Refused(other));
      case true => answer := Full(resource, known);
      case 0 < offset < |resource| => answer := Partial(resource[offset..], known, weather.willing || other);
    }
  }

  /** The next piece of a body of which `rest` has not come yet. */
  method NextPiece(rest: string, weather: Weather) returns (piece: Piece, left: Weather)
    ensures if piece.Broken? then Spent(weather, left) else left == weather
    ensures piece.Chunk? ==> piece.bytes <= rest && 0 < |piece.bytes|
    ensures piece.End? ==> rest == ""
  {
    left := weather;
    var breaks: bool := *;
    if breaks && weather.faults > 0 { return Broken, weather.Worse(); }
    if rest == "" { return End, left; }
    var size: int := *;
    if size < 1 || size > |rest| { size := 1; }
    piece := Chunk(rest[..size]);
  }

  // ---------------------------------------------------------------------------------------------
  // Into memory
  // ---------------------------------------------------------------------------------------------

  /** After such an answer, or its body, there may be another request. */
  predicate MayRetry(answer: Answer) {
    match answer
    case NoAnswer(failure) => failure == Network || failure == Refused(true)
    case Partial(_, _, rangeStated) => rangeStated
    case Full(_, _) => true
  }

  /** A body whose length is known before it is read. */
  predicate AnnouncesLength(answer: Answer) {
    (answer.Full? || (answer.Partial? && answer.rangeStated)) && answer.knownLength
  }

  /** At most three requests, and the last answer decides how a download fails before any of its body. */
  ghost predicate Asked(answers: seq<Answer>, r: Fetched) {
    && |answers| <= 3
    && (forall i :: 0 <= i < |answers| - 1 ==> MayRetry(answers[i]))
    && (|answers| > 0 && answers[|answers| - 1].NoAnswer? ==> r == Failed(answers[|answers| - 1].failure))
    && (|answers| > 0 && answers[|answers| - 1].Partial? && !answers[|answers| - 1].rangeStated ==>
          r == Failed(InvalidRange))
  }

  /** `get_artifact_retry`: each request goes on where the last body broke off, unless it is answered in
      full. Success is the whole resource, and only a resource over the limit is too large. Fewer than
      three failures are survived, unless a body breaks off after its last byte: then what is asked for
      next is beyond the end. */
  method GetArtifact(resource: string, weather: Weather)
    returns (r: Fetched, ghost overrun: bool, ghost answers: seq<Answer>)
    ensures weather.willing && weather.faults < 3 && !overrun ==> (r.Fetched? <==> |resource| <= MAX_ARTIFACT_BYTES)
    ensures weather.faults == 0 ==> !overrun
    ensures r.Fetched? ==> r.bytes == resource && |r.bytes| <= MAX_ARTIFACT_BYTES
    ensures r.Failed? && r.failure == TooLarge ==> |resource| > MAX_ARTIFACT_BYTES
    ensures Asked(answers, r)
    ensures |answers| > 0 && AnnouncesLength(answers[|answers| - 1]) && |resource| > MAX_ARTIFACT_BYTES ==>
      r == Failed(TooLarge)
  {
    var output, left := "", weather;
    r, overrun, answers := Failed(Network), false, [];
    for attempt := 0 to MAX_ARTIFACT_ATTEMPTS
      invariant output <= resource && |output| <= MAX_ARTIFACT_BYTES && r.Failed? && r.failure != TooLarge
      invariant left.willing == weather.willing && left.faults <= weather.faults
      invariant weather.willing && !overrun ==> attempt + left.faults <= weather.faults
      invariant !overrun ==> !Beyond(|output|, resource)
      invariant overrun ==> weather.faults > 0
      invariant |answers| == attempt && Asked(answers, r)
      invariant |answers| > 0 && |resource| > MAX_ARTIFACT_BYTES ==> !AnnouncesLength(answers[|answers| - 1])
      invariant forall i :: 0 <= i < |answers| ==> MayRetry(answers[i])
    {
      var answer;
      answer, left := Request(resource, |output|, left);
      answers := answers + [answer];
      if answer.NoAnswer? {
        r := Failed(answer.failure);
        if answer.failure.Unauthorized? || (answer.failure.Refused? && !answer.failure.transient) { return; }
        continue;
      }
      if answer.Full? { output := ""; }
      if answer.Partial? && !answer.rangeStated {
        r := Failed(InvalidRange);
        return;
      }
      if answer.knownLength && |output| + |answer.body| > MAX_ARTIFACT_BYTES {
        r := Failed(TooLarge);
        return;
      }
      assert output + answer.body == resource;
      output, r, left := ReceiveBody(output, answer.body, left);
      if r.Fetched? || r.failure == TooLarge { return; }
      overrun := overrun || Beyond(|output|, resource);
    }
  }

  /** Appends the body piece by piece, up to the limit. */
  method ReceiveBody(start: string, body: string, weather: Weather)
    returns (output: string, r: Fetched, left: Weather)
    requires |start| <= MAX_ARTIFACT_BYTES
    ensures start <= output <= start + body && |output| <= MAX_ARTIFACT_BYTES
    ensures r.Fetched? ==> r.bytes == output == start + body
    ensures r.Failed? ==> r.failure in {Network, TooLarge}
    ensures r.Failed? && r.failure == TooLarge ==> |start + body| > MAX_ARTIFACT_BYTES
    ensures if r.Failed? && r.failure == Network then Spent(weather, left) else left == weather
  {
    output, left := start, weather;
    ghost var received := 0;
    while true
      invariant received <= |body| && output == start + body[..received] && |output| <= MAX_ARTIFACT_BYTES
      invariant left == weather
      decreases |body| - received
    {
      var piece;
      piece, left := NextPiece(body[|output| - |start|..], left);
      match piece
      case Broken => return output, Failed(Network), left;
      case End => return output, Fetched(output), left;
      case Chunk(bytes) =>
        assert body[..received] + bytes == body[..received + |bytes|];
        if |output| + |bytes| > MAX_ARTIFACT_BYTES { return output, Failed(TooLarge), left; }
        output := output + bytes;
        received := received + |bytes|;
    }
  }

  // ---------------------------------------------------------------------------------------------
  // Into a file
  // ---------------------------------------------------------------------------------------------

  /** What a file holds when it held `initial` and everything since was appended from the resource, or
      it was started over by a full answer. */
  ghost predicate Resumed(resource: string, initial: string, restarted: bool, content: string) {
    if restarted then content <= resource
    else
      || content == initial
      || (|initial| <= |content| <= |resource| && content == initial + resource[|initial|..|content|])
  }

  /** Such a file, once as long as the resource, is the resource exactly when it was started over or
      began as a part of it. */
  lemma WholeExactlyIf(resource: string, initial: string, restarted: bool, content: string)
    requires Resumed(resource, initial, restarted, content) && |content| == |resource|
    ensures content == resource <==> restarted || initial <= resource
  {
    if restarted {
      assert content == resource[..|content|];
    } else if content == initial {
      assert initial <= resource ==> initial == resource[..|initial|];
    } else {
      assert content[..|initial|] == initial;
      assert resource[..|initial|] + resource[|initial|..] == resource;
      assert initial <= resource ==> resource[..|initial|] == initial;
    }
  }

  lemma ResumedMore(resource: string, initial: string, restarted: bool, content: string, bytes: string)
    requires Resumed(resource, initial, restarted, content)
    requires |content| <= |resource| && bytes <= resource[|content|..]
    ensures Resumed(resource, initial, restarted, content + bytes)
  {
    var more := content + bytes;
    assert bytes == resource[|content|..|more|];
    if restarted {
      assert content == resource[..|content|];
      assert more == resource[..|more|];
    } else if content == initial {
      assert more == initial + resource[|initial|..|more|];
    } else {
      assert resource[|initial|..|content|] + resource[|content|..|more|] == resource[|initial|..|more|];
    }
  }

  /** Here only 401 is not tried again. */
  ghost predicate FileAsked(answers: seq<Answer>, r: Fetched) {
    && |answers| <= 3
    && (forall i :: 0 <= i < |answers| - 1 ==> answers[i] != NoAnswer(Unauthorized))
    && (|answers| > 0 && answers[|answers| - 1].NoAnswer? ==> r == Failed(answers[|answers| - 1].failure))
  }

  class ArtifactFile {
    var content: Option<string>

    function Held(): string
      reads this
    {
      if content.Some? then content.value else ""
    }

    constructor ()
      ensures content == None
    {
      content := None;
    }

    /** `get_artifact_file`: like `GetArtifact`, but going on from what the file holds already, and any
        refusal but 401 is tried again. The answer to a range request is taken at its word. A finished
        file is the resource exactly when some answer was full or the file began as a part of it; one
        that was as long as the resource from the start can only finish by a full answer. */
    method GetArtifactFile(resource: string, weather: Weather, disk: bool)
      returns (r: Fetched, ghost restarted: bool, ghost overrun: bool, ghost answers: seq<Answer>)
      modifies this
      ensures weather.willing && weather.faults < 3 && disk && !overrun ==>
        (r.Fetched? <==> |resource| <= MAX_ARTIFACT_BYTES)
      ensures weather.faults == 0 && disk ==> (overrun <==> Beyond(|old(Held())|, resource))
      ensures r.Fetched? ==> Held() == r.bytes && |r.bytes| == |resource| <= MAX_ARTIFACT_BYTES
      ensures r.Fetched? ==> (r.bytes == resource <==> restarted || old(Held()) <= resource)
      ensures r.Fetched? && Beyond(|old(Held())|, resource) ==> restarted
      ensures Resumed(resource, old(Held()), restarted, Held())
      ensures r.Failed? && r.failure == TooLarge ==> |resource| > MAX_ARTIFACT_BYTES
      ensures FileAsked(answers, r)
    {
      answers := [];
      restarted := false;
      r := Failed(Network);
      var offset, left := |Held()|, weather;
      overrun := Beyond(offset, resource);
      for attempt := 0 to MAX_ARTIFACT_ATTEMPTS
        invariant Resumed(resource, old(Held()), restarted, Held())
        invariant offset == |Held()| && r.Failed? && r.failure != TooLarge
        invariant Beyond(|old(Held())|, resource) ==> overrun
        invariant |old(Held())| >= |resource| && !restarted ==> Held() == old(Held())
        invariant left.willing == weather.willing && left.faults <= weather.faults
        invariant weather.willing && disk && !overrun ==> attempt + left.faults <= weather.faults
        invariant !overrun ==> !Beyond(offset, resource)
        invariant weather.faults == 0 && disk && overrun ==> Beyond(|old(Held())|, resource)
        invariant |answers| == attempt && FileAsked(answers, r)
        invariant forall i :: 0 <= i < |answers| ==> answers[i] != NoAnswer(Unauthorized)
      {
        var answer;
        answer, left := Request(resource, offset, left);
        answers := answers + [answer];
        if answer.NoAnswer? {
          r := Failed(answer.failure);
          if answer.failure.Unauthorized? { return; }
          continue;
        }
        r, left, restarted := Receive(resource, answer, left, disk, old(Held()), restarted);
        if r.Fetched? || r.failure in {TooLarge, Disk} { return; }
        offset := |Held()|;
        overrun := overrun || Beyond(offset, resource);
      }
    }

    method Receive(
      ghost resource: string, answer: Answer, weather: Weather, disk: bool, ghost initial: string,
      ghost restarted: bool)
      returns (r: Fetched, left: Weather, ghost restarted': bool)
      requires Resumed(resource, initial, restarted, Held()) && !answer.NoAnswer?
      requires answer.Full? ==> answer.body == resource
      requires answer.Partial? ==> |Held()| < |resource| && answer.body == resource[|Held()|..]
      modifies this
      ensures disk ==> !(r.Failed? && r.failure == Disk)
      ensures restarted ==> restarted'
      ensures answer.Full? && !restarted' ==> r.Failed? && Held() == old(Held())
      ensures Resumed(resource, initial, restarted', Held())
      ensures r.Fetched? ==> Held() == r.bytes && |r.bytes| == |resource| <= MAX_ARTIFACT_BYTES
      ensures r.Fetched? ==> (r.bytes == resource <==> restarted' || initial <= resource)
      ensures r.Failed? ==> r.failure in {Network, TooLarge, Disk}
      ensures r.Failed? && r.failure == TooLarge ==> |resource| > MAX_ARTIFACT_BYTES
      ensures if r.Failed? && r.failure == Network then Spent(weather, left) else left == weather
    {
      restarted' := restarted;
      var fails: bool := *;
      if fails && !disk { return Failed(Disk), weather, restarted'; }
      if answer.Full? {
        content := Some("");
        restarted' := true;
      }
      r, left := AppendBody(resource, answer.body, weather, disk, initial, restarted');
      if r.Fetched? { WholeExactlyIf(resource, initial, restarted', Held()); }
    }

    /** A write that fails has put some of the piece into the file. */
    method WriteSome(ghost resource: string, ghost initial: string, ghost restarted: bool, bytes: string)
      requires Resumed(resource, initial, restarted, Held())
      requires |Held()| <= |resource| && bytes <= resource[|Held()|..]
      modifies this
      ensures Resumed(resource, initial, restarted, Held()) && |Held()| <= |resource|
    {
      var size: int := *;
      if size < 0 || size > |bytes| { size := 0; }
      ResumedMore(resource, initial, restarted, Held(), bytes[..size]);
      content := Some(Held() + bytes[..size]);
    }

    method AppendBody(
      ghost resource: string, body: string, weather: Weather, disk: bool, ghost initial: string,
      ghost restarted: bool)
      returns (r: Fetched, left: Weather)
      requires Resumed(resource, initial, restarted, Held()) && (Held() == "" || |Held()| < |resource|)
      requires |Held()| <= |resource| && body == resource[|Held()|..]
      modifies this
      ensures disk ==> !(r.Failed? && r.failure == Disk)
      ensures Resumed(resource, initial, restarted, Held()) && |Held()| <= |resource|
      ensures r.Fetched? ==> Held() == r.bytes && |r.bytes| == |resource| <= MAX_ARTIFACT_BYTES
      ensures r.Failed? ==> r.failure in {Network, TooLarge, Disk}
      ensures r.Failed? && r.failure == TooLarge ==> |resource| > MAX_ARTIFACT_BYTES
      ensures if r.Failed? && r.failure == Network then Spent(weather, left) else left == weather
    {
      left := weather;
      var offset := |Held()|;
      var start := offset;
      while true
        invariant Resumed(resource, initial, restarted, Held()) && offset == |Held()| <= |resource|
        invariant offset <= MAX_ARTIFACT_BYTES || offset < |resource|
        invariant left == weather && start <= offset
        decreases |resource| - offset
      {
        var piece;
        piece, left := NextPiece(body[offset - start..], left);
        assert body[offset - start..] == resource[offset..];
        match piece
        case Broken => return Failed(Network), left;
        case End => return Fetched(Held()), left;
        case Chunk(bytes) =>
          offset := offset + |bytes|;
          if offset > MAX_ARTIFACT_BYTES { return Failed(TooLarge), left; }
          var fails: bool := *;
          if fails && !disk {
            WriteSome(resource, initial, restarted, bytes);
            return Failed(Disk), left;
          }
          ResumedMore(resource, initial, restarted, Held(), bytes);
          content := Some(Held() + bytes);
      }
    }
  }

  // ---------------------------------------------------------------------------------------------
  // Bounded bodies
  // ---------------------------------------------------------------------------------------------

  /** `limited_bytes`: a body is returned whole or not at all, and never beyond the limit. */
  method LimitedBytes(body: string, limit: nat, knownLength: bool, weather: Weather) returns (r: Fetched)
    ensures weather.faults == 0 ==> (r.Fetched? <==> |body| <= limit)
    ensures r.Fetched? ==> r.bytes == body && |body| <= limit
    ensures r.Failed? ==> r.failure in {Network, TooLarge}
    ensures r.Failed? && r.failure == TooLarge ==> |body| > limit
  {
    if knownLength && |body| > limit { return Failed(TooLarge); }
    var output := "";
    while true
      invariant output <= body && |output| <= limit
      decreases |body| - |output|
    {
      var piece, left := NextPiece(body[|output|..], weather);
      match piece
      case Broken => return Failed(Network);
      case End => return Fetched(output);
      case Chunk(bytes) =>
        assert output + body[|output|..] == body;
        if |output| + |bytes| > limit { return Failed(TooLarge); }
        output := output + bytes;
    }
  }
}
