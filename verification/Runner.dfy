/** How a run ends and what it tells the server about Terraform's state (`src/runner.rs`).
    Commands, uploads and disk operations appear through their outcomes. */
module Runner {
  import opened Outcomes
  import opened Protocol

  const MAX_INLINE_STATE_BYTES: nat := 8 * 1024 * 1024

  datatype CancelReason = Remote | Shutdown | ForceShutdown {
    function Text(): string {
      match this
      case Remote => "canceled by Terrence"
      case Shutdown => "canceled during agent shutdown"
      case ForceShutdown => "force-canceled during agent shutdown"
    }
  }

  /** A canceled apply may still have pulled a state, which comes with its outputs. */
  datatype Failure = Failed(message: string) | JobCanceled(reason: CancelReason, state: Option<(string, string)>)

  datatype Outcome<+T> = Done(value: T) | Failing(failure: Failure)

  datatype CommandOutcome =
    | Exited(success: bool)
    | CommandFailed(message: string)
    | CommandCanceled(reason: CancelReason)

  /** `state pull` writes a file, whose size counts even when the command failed. */
  datatype Capture =
    | Captured(commandError: Option<string>, bytes: nat)
    | CaptureFailed(message: string, bytesLeft: nat)
    | CaptureCanceled(reason: CancelReason)

  datatype ArtifactMetadata = ArtifactMetadata(
    rawDigest: string, rawBytes: nat, artifactDigest: string, artifactBytes: nat)

  /** Everything the apply phase asks of its surroundings. */
  datatype ApplyWorld = ApplyWorld(
    marker: Option<Option<string>>,     // an earlier apply's marker and the error it holds
    command: CommandOutcome,            // terraform apply
    recoveryPull: Option<(string, string)>, // the extra state pull after a cancellation
    capture: Capture,                   // terraform state pull
    stateParses: bool,
    artifact: Result<ArtifactMetadata>, // compressing the state
    upload: Result<()>,                 // sending the compressed state
    reference: string,                  // the path in the URL it is sent to
    inlineState: Result<(string, string)>, // reading the state and its outputs
    provenance: Result<string>)         // writing the execution manifest

  datatype RunResult = RunResult(
    state: Option<string>,
    jsonState: Option<string>,
    jsonStateOutputs: Option<string>,
    applyError: Option<string>,
    stateRecovered: bool,
    stateRecoveryRequired: bool,
    stateRecoveryError: Option<string>,
    stateDigest: Option<string>,
    stateArtifact: Option<StateArtifact>)

  function CommandErrorOf(capture: Capture): Option<string> {
    match capture
    case Captured(error, _) => error
    case CaptureFailed(message, _) => Some(message)
    case CaptureCanceled(_) => None
  }

  function BytesOf(capture: Capture): nat {
    match capture
    case Captured(_, bytes) => bytes
    case CaptureFailed(_, bytes) => bytes
    case CaptureCanceled(_) => 0
  }

  /** A readable state came out of the run. */
  predicate Recovered(w: ApplyWorld) { BytesOf(w.capture) > 0 && w.stateParses }

  function ArtifactUrl(payload: Payload): Option<string> {
    if payload.stateArtifactUrl == Some("") then None else payload.stateArtifactUrl
  }

  /** That state was put where the server will find it: uploaded when the server names a place,
      inline when it does not and the state is small. */
  predicate Committed(payload: Payload, w: ApplyWorld) {
    && Recovered(w)
    && w.artifact.Ok?
    && (if ArtifactUrl(payload).Some? then w.upload.Ok?
        else w.artifact.value.rawBytes <= MAX_INLINE_STATE_BYTES && w.inlineState.Ok?)
  }

  predicate Canceled(w: ApplyWorld) {
    (w.marker.None? && w.command.CommandCanceled?) || w.capture.CaptureCanceled?
  }

  function ReasonOf(w: ApplyWorld): CancelReason
    requires Canceled(w)
  {
    if w.marker.None? && w.command.CommandCanceled? then w.command.reason else w.capture.reason
  }

  /** What a canceled apply still sends: the state pulled after the cancellation, unless it was forced. */
  function PulledState(w: ApplyWorld): Option<(string, string)>
    requires Canceled(w)
  {
    if ReasonOf(w) == ForceShutdown then None else w.recoveryPull
  }

  /** How a readable state was put where the server will find it. */
  datatype Commit = Commit(
    digest: Option<string>, artifact: Option<StateArtifact>, text: Option<string>, outputs: Option<string>,
    error: Option<string>)

  /** It travels in exactly one form, or there is an error. */
  method CommitState(payload: Payload, w: ApplyWorld) returns (c: Commit)
    requires Recovered(w)
    ensures c.error == None <==> Committed(payload, w)
    ensures c.error == None <==> (c.text.Some? != c.artifact.Some?)
    ensures if ArtifactUrl(payload).Some? then c.text == None else c.artifact == None
    ensures c.artifact.Some? ==>
      var m := w.artifact.value;
      w.artifact.Ok? && c.artifact.value == StateArtifact(w.reference, m.artifactDigest, m.artifactBytes)
    ensures c.text.Some? ==> c.outputs.Some? && w.inlineState == Ok((c.text.value, c.outputs.value))
    ensures c.text.None? ==> c.outputs.None?
    ensures c.error.Some? && w.artifact.Err? ==> c.error.value == w.artifact.message
    ensures c.error.Some? && w.artifact.Ok? && ArtifactUrl(payload).Some? ==> w.upload == Err(c.error.value)
    ensures c.error.Some? && w.artifact.Ok? && ArtifactUrl(payload).None? ==>
      w.artifact.value.rawBytes > MAX_INLINE_STATE_BYTES || w.inlineState == Err(c.error.value)
    ensures c.digest == if w.artifact.Ok? then Some(w.artifact.value.rawDigest) else None
  {
    c := Commit(None, None, None, None, None);
    match w.artifact {
      case Ok(metadata) =>
        c := c.(digest := Some(metadata.rawDigest));
        if ArtifactUrl(payload).Some? {
          match w.upload {
            case Ok(_) =>
              c := c.(artifact := Some(StateArtifact(w.reference, metadata.artifactDigest, metadata.artifactBytes)));
            case Err(message) => c := c.(error := Some(message));
          }
        } else if metadata.rawBytes <= MAX_INLINE_STATE_BYTES {
          match w.inlineState {
            case Ok((state, outputs)) => c := c.(text := Some(state), outputs := Some(outputs));
            case Err(message) => c := c.(error := Some(message));
          }
        } else {
          c := c.(error := Some("this server did not provide a dedicated state artifact endpoint"));
        }
      case Err(message) => c := c.(error := Some(message));
    }
  }

  /** The apply branch of `execute_phase`. A run needs no state recovery exactly when the state was
      pulled without error and committed, and a committed state travels in exactly one form. */
  method ExecuteApply(payload: Payload, w: ApplyWorld) returns (r: Outcome<RunResult>)
    ensures r.Failing? && r.failure.JobCanceled? <==> Canceled(w)
    ensures r.Failing? && r.failure.Failed? <==> !Canceled(w) && w.provenance.Err?
    ensures r.Failing? && r.failure.JobCanceled? ==>
      r.failure.reason == ReasonOf(w) && r.failure.state == PulledState(w)
    ensures r.Failing? && r.failure.Failed? ==> w.provenance == Err(r.failure.message)
    ensures r.Done? ==> (r.value.stateRecoveryRequired <==>
      !(Committed(payload, w) && CommandErrorOf(w.capture) == None))
    ensures r.Done? ==> (Committed(payload, w) <==> (r.value.state.Some? != r.value.stateArtifact.Some?))
    ensures r.Done? ==> if ArtifactUrl(payload).Some? then r.value.state == None else r.value.stateArtifact == None
    ensures r.Done? ==> r.value.stateRecovered == Recovered(w) && r.value.jsonState == r.value.state
    ensures r.Done? && r.value.stateArtifact.Some? ==>
      var m := w.artifact.value;
      w.artifact.Ok? && r.value.stateArtifact.value == StateArtifact(w.reference, m.artifactDigest, m.artifactBytes)
    ensures r.Done? && r.value.state.Some? ==>
      r.value.jsonStateOutputs.Some? && w.inlineState == Ok((r.value.state.value, r.value.jsonStateOutputs.value))
    ensures r.Done? && r.value.state.None? ==> r.value.jsonStateOutputs.None?
    ensures r.Done? ==>
      r.value.stateDigest ==
        if Recovered(w) && w.artifact.Ok? then Some(w.artifact.value.rawDigest) else None
    ensures r.Done? ==> (r.value.applyError.None? <==> Applied(w))
    ensures r.Done? && w.marker.Some? ==> r.value.applyError == w.marker.value
    ensures r.Done? && w.marker.None? && w.command.CommandFailed? ==>
      r.value.applyError == Some(w.command.message)
    ensures r.Done? && (!Recovered(w) || Committed(payload, w)) ==>
      r.value.stateRecoveryError == CommandErrorOf(w.capture)
    ensures r.Done? && Recovered(w) && !Committed(payload, w) ==> r.value.stateRecoveryError.Some?
  {
    var applyError: Option<string>;
    if w.marker.Some? {
      applyError := w.marker.value;
    } else {
      match w.command {
        case Exited(true) => applyError := None;
        case Exited(false) => applyError := Some("terraform apply failed");
        case CommandFailed(message) => applyError := Some(message);
        case CommandCanceled(reason) =>
          return Failing(JobCanceled(reason, if reason == ForceShutdown then None else w.recoveryPull));
      }
    }
    if w.capture.CaptureCanceled? {
      var reason := w.capture.reason;
      return Failing(JobCanceled(reason, if reason == ForceShutdown then None else w.recoveryPull));
    }
    var commandError, bytes := CommandErrorOf(w.capture), BytesOf(w.capture);
    var stateRecovered := bytes > 0 && w.stateParses;
    var commit := Commit(None, None, None, None, None);
    if stateRecovered { commit := CommitState(payload, w); }
    var required := !stateRecovered || commandError.Some? || commit.error.Some?;
    var recoveryError := if commit.error.Some? then commit.error else commandError;
    match w.provenance {
      case Err(message) => return Failing(Failed(message));
      case Ok(_) =>
    }
    r := Done(RunResult(commit.text, commit.text, commit.outputs, applyError, stateRecovered, required,
                        recoveryError, commit.digest, commit.artifact));
  }

  function CompletionFromResult(payload: Payload, result: RunResult): (c: Completion)
    ensures c.status == "finished" <==>
      !(payload.phase.Apply? && (result.applyError.Some? || result.stateRecoveryRequired))
    ensures c.status in {"finished", "errored"}
    ensures CarriesState(c) <==> result.state.Some? || result.stateArtifact.Some?
    ensures c.data.stateRecoveryRequired == result.stateRecoveryRequired
    ensures c.data.lifecycle == Some("applied") <==> payload.phase.Apply? && c.status == "finished"
    ensures c.data.lifecycle == Some("applied_state_recovery_required") <==>
      payload.phase.Apply? && result.stateRecoveryRequired
    ensures c.data.lifecycle.None? <==> !payload.phase.Apply?
    ensures result.applyError.Some? ==> c.error == result.applyError
    ensures c.error.None? <==> result.applyError.None? && result.stateRecoveryError.None?
  {
    var status :=
      if payload.phase.Apply? && (result.applyError.Some? || result.stateRecoveryRequired) then "errored"
      else "finished";
    var lifecycle :=
      if !payload.phase.Apply? then None
      else if result.stateRecoveryRequired then Some("applied_state_recovery_required")
      else if result.applyError.Some? then Some("apply_execution_finished")
      else Some("applied");
    var error := if result.applyError.Some? then result.applyError else result.stateRecoveryError;
    Completion(status, error, CompletionData(
      payload.runId, payload.phase.Text(), result.state, result.jsonState, result.jsonStateOutputs,
      result.stateRecovered, result.stateRecoveryRequired, result.applyError, result.stateRecoveryError,
      lifecycle, result.stateDigest, result.stateArtifact))
  }

  /** Added to the reason of a canceled apply: Terraform's lock may still be there. */
  const LOCK_WARNING :=
    "; the apply may have left a Terraform state lock; " +
    "verify no agent process remains before considering `terraform force-unlock`"

  /** The completion hands over a state with its outputs inline, or none. */
  predicate Hands(c: Completion, pulled: Option<(string, string)>) {
    && c.data.state == c.data.jsonState
    && c.data.state == (if pulled.Some? then Some(pulled.value.0) else None)
    && c.data.jsonStateOutputs == (if pulled.Some? then Some(pulled.value.1) else None)
  }

  /** The completion of a run that did not end by itself. */
  function FailedCompletion(payload: Payload, failure: Failure): (c: Completion)
    ensures c.data.stateRecoveryRequired == payload.phase.Apply?
    ensures c.status == if failure.JobCanceled? then "canceled" else "errored"
    ensures CarriesState(c) <==> failure.JobCanceled? && failure.state.Some?
    ensures Hands(c, if failure.JobCanceled? then failure.state else None)
    ensures c.error.Some? && (failure.Failed? ==> c.error.value == failure.message)
    ensures failure.JobCanceled? ==>
      c.error.value == failure.reason.Text() + if payload.phase.Apply? then LOCK_WARNING else ""
  {
    var pulled := if failure.JobCanceled? then failure.state else None;
    var state := if pulled.Some? then Some(pulled.value.0) else None;
    var outputs := if pulled.Some? then Some(pulled.value.1) else None;
    var lifecycle := if payload.phase.Apply? then Some("applied_state_recovery_required") else None;
    var status := if failure.JobCanceled? then "canceled" else "errored";
    var message :=
      if failure.Failed? then failure.message
      else failure.reason.Text() + if payload.phase.Apply? then LOCK_WARNING else "";
    Completion(status, Some(message), CompletionData(
      payload.runId, payload.phase.Text(), state, state, outputs, false, payload.phase.Apply?, None, None,
      lifecycle, None, None))
  }

  function PlanOutcome(plan: Outcome<()>): Outcome<RunResult> {
    match plan
    case Done(_) => Done(RunResult(None, None, None, None, false, false, None, None, None))
    case Failing(failure) => Failing(failure)
  }

  /** What a job meets on its way: identifiers, the run directory, preparation, the phase itself. */
  datatype RunWorld = RunWorld(
    identifiers: Result<()>,
    directory: Result<Dir>,
    canceledEarly: Option<CancelReason>,
    preparation: Outcome<()>,
    plan: Outcome<()>,
    apply: ApplyWorld)

  predicate Begins(payload: Payload, w: RunWorld) {
    payload.phase in {Plan, Apply} && w.identifiers.Ok? && w.directory.Ok?
  }

  /** The phase itself is run. */
  predicate Reaches(payload: Payload, w: RunWorld) {
    Begins(payload, w) && w.canceledEarly.None? && w.preparation.Done?
  }

  /** The reason of the cancellation that the run met, if it met one. */
  function CanceledFor(payload: Payload, w: RunWorld): Option<CancelReason> {
    if !Begins(payload, w) then None
    else if w.canceledEarly.Some? then w.canceledEarly
    else if w.preparation.Failing? then ReasonFor(w.preparation)
    else if payload.phase.Plan? then ReasonFor(w.plan)
    else if Canceled(w.apply) then Some(ReasonOf(w.apply))
    else None
  }

  function ReasonFor(outcome: Outcome<()>): Option<CancelReason> {
    match outcome
    case Failing(JobCanceled(reason, _)) => Some(reason)
    case _ => None
  }

  /** The phase was run and nothing went wrong. */
  predicate Succeeds(payload: Payload, w: RunWorld) {
    && Reaches(payload, w)
    && if payload.phase.Plan? then w.plan.Done? else ApplySucceeds(payload, w.apply)
  }

  /** Terraform's apply succeeded, now or before. */
  predicate Applied(w: ApplyWorld) { w.marker == Some(None) || (w.marker.None? && w.command == Exited(true)) }

  /** And its state is where the server finds it. */
  predicate ApplySucceeds(payload: Payload, w: ApplyWorld) {
    && Applied(w) && !Canceled(w) && w.provenance.Ok?
    && Committed(payload, w) && CommandErrorOf(w.capture) == None
  }

  /** What the server learns of an apply that ended by itself. */
  predicate TellsOfApply(payload: Payload, w: ApplyWorld, c: Completion) {
    && (c.data.applyError.None? <==> Applied(w))
    && (c.data.applyError.Some? ==> c.error == c.data.applyError)
    && (w.marker.Some? && w.marker.value.Some? ==> c.error == w.marker.value)
    && (c.data.stateRecoveryRequired <==> !Committed(payload, w) || CommandErrorOf(w.capture).Some?)
    && c.data.stateDigest == if Recovered(w) && w.artifact.Ok? then Some(w.artifact.value.rawDigest) else None
  }

  /** Why nothing of the phase was run, or why the plan failed. */
  predicate TellsWhy(payload: Payload, w: RunWorld, c: Completion) {
    if payload.phase.Unsupported? then c.error == Some("unsupported_workload: " + payload.phase.workload)
    else if w.identifiers.Err? then c.error == Some(w.identifiers.message)
    else if w.directory.Err? then c.error == Some(w.directory.message)
    else
      w.canceledEarly.None? ==>
        && (w.preparation.Failing? && w.preparation.failure.Failed? ==> c.error == Some(w.preparation.failure.message))
        && (w.preparation.Done? && payload.phase.Plan? && w.plan.Failing? && w.plan.failure.Failed? ==>
              c.error == Some(w.plan.failure.message))
  }

  /** The state that the server gets of an apply: what was pulled after a cancellation; else the committed
      state in the one form that fits; else none. */
  predicate HandsState(payload: Payload, w: ApplyWorld, c: Completion) {
    if Canceled(w) then Hands(c, PulledState(w)) && c.data.stateArtifact == None
    else if w.provenance.Err? || !Committed(payload, w) then Hands(c, None) && c.data.stateArtifact == None
    else if payload.stateArtifactUrl in {None, Some("")} then
      Hands(c, Some(w.inlineState.value)) && c.data.stateArtifact == None
    else
      var m := w.artifact.value;
      && Hands(c, None)
      && c.data.stateArtifact == Some(StateArtifact(w.reference, m.artifactDigest, m.artifactBytes))
  }

  /** What the server learns of a run. */
  predicate Tells(payload: Payload, w: RunWorld, c: Completion) {
    && c.data.runId == payload.runId
    && c.data.operation ==
       (match payload.phase case Plan => "plan" case Apply => "apply" case Unsupported(workload) => workload)
    && (c.status == "finished" <==> Succeeds(payload, w))
    && (c.status == "canceled" <==> CanceledFor(payload, w).Some?)
    && (c.status == "canceled" ==>
          c.error == Some(CanceledFor(payload, w).value.Text() + if payload.phase.Apply? then LOCK_WARNING else ""))
    && (Reaches(payload, w) && payload.phase.Apply? ==> HandsState(payload, w.apply, c))
    && (Reaches(payload, w) && payload.phase.Apply? && !Canceled(w.apply) && w.apply.provenance.Ok? ==>
          TellsOfApply(payload, w.apply, c))
    && TellsWhy(payload, w, c)
    && (c.data.stateRecovered <==>
          && Reaches(payload, w) && payload.phase.Apply? && !Canceled(w.apply) && w.apply.provenance.Ok?
          && Recovered(w.apply))
    && (!payload.phase.Apply? && CarriesState(c) ==> c.status == "canceled")
    && (c.data.lifecycle == Some("applied") <==> payload.phase.Apply? && c.status == "finished")
    && (c.data.lifecycle == Some("applied_state_recovery_required") <==> c.data.stateRecoveryRequired)
  }

  /** `Runner::run`. Whatever happens, an apply is delivered with its state or flagged for
      recovery, and an apply reported as finished carries its state. */
  method Run(payload: Payload, w: RunWorld) returns (completion: Completion, workDir: Option<Dir>)
    ensures Tells(payload, w, completion)
    ensures Delivered(payload.phase.Text(), completion)
    ensures payload.phase.Apply? && completion.status == "finished" ==>
      CarriesState(completion) && !completion.data.stateRecoveryRequired
    ensures payload.phase.Apply? && !completion.data.stateRecoveryRequired ==> Committed(payload, w.apply)
    ensures !payload.phase.Apply? ==> !completion.data.stateRecoveryRequired
    ensures completion.status in {"finished", "errored", "canceled"}
    ensures workDir.Some? <==> payload.phase in {Plan, Apply} && w.identifiers.Ok? && w.directory.Ok?
    ensures workDir.Some? ==> workDir.value == w.directory.value
  {
    var result: Outcome<RunResult>;
    workDir := None;
    if payload.phase.Unsupported? {
      result := Failing(Failed("unsupported_workload: " + payload.phase.workload));
    } else if w.identifiers.Err? {
      result := Failing(Failed(w.identifiers.message));
    } else if w.directory.Err? {
      result := Failing(Failed(w.directory.message));
    } else {
      workDir := Some(w.directory.value);
      if w.canceledEarly.Some? {
        result := Failing(JobCanceled(w.canceledEarly.value, None));
      } else if w.preparation.Failing? {
        result := Failing(w.preparation.failure);
      } else if payload.phase.Plan? {
        result := PlanOutcome(w.plan);
      } else {
        result := ExecuteApply(payload, w.apply);
      }
    }
    match result {
      case Done(value) => completion := CompletionFromResult(payload, value);
      case Failing(failure) => completion := FailedCompletion(payload, failure);
    }
  }
}
