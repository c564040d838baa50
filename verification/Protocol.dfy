/** The shapes that jobs and completions have on the wire and on disk (`src/protocol.rs`,
    `src/manifest.rs`). */
module Protocol {

  import opened Outcomes

  type JobId = string
  type Dir = string

  /** Deserializing a job maps "plan" and "apply" to their own phases, so neither is a workload. */
  type Phase = phase: AnyPhase | phase.Unsupported? ==> phase.workload !in {"plan", "apply"}
    witness Plan

  datatype AnyPhase = Plan | Apply | Unsupported(workload: string) {
    function Text(): string {
      match this
      case Plan => "plan"
      case Apply => "apply"
      case Unsupported(workload) => workload
    }
  }

  /** A claimed job; `stateArtifactUrl` is the payload's own or else its container's. */
  datatype Payload = Payload(
    jobId: JobId, runId: string, phase: Phase, fingerprint: string, stateArtifactUrl: Option<string>)

  /** The local identity of one claimed execution. */
  datatype Manifest = Manifest(
    jobId: JobId, runId: string, phase: string, fingerprint: string, workDir: Option<Dir>)

  datatype StateArtifact = StateArtifact(reference: string, digest: string, bytes: nat)

  /** The part of a completion that says how the run ended and where its state is. */
  datatype CompletionData = CompletionData(
    runId: string,
    operation: string,
    state: Option<string>,
    jsonState: Option<string>,
    jsonStateOutputs: Option<string>,
    stateRecovered: bool,
    stateRecoveryRequired: bool,
    applyError: Option<string>,
    stateRecoveryError: Option<string>,
    lifecycle: Option<string>,
    stateDigest: Option<string>,
    stateArtifact: Option<StateArtifact>)

  datatype Completion = Completion(status: string, error: Option<string>, data: CompletionData)

  /** The completion hands Terraform's state to the server: inline, or as an uploaded artifact. */
  predicate CarriesState(c: Completion) { c.data.state.Some? || c.data.stateArtifact.Some? }

  /** An apply is either delivered with its state or flagged for recovery. */
  predicate Delivered(phase: string, c: Completion) {
    phase == "apply" ==> c.data.stateRecoveryRequired || CarriesState(c)
  }

  function ManifestOf(payload: Payload): Manifest {
    Manifest(payload.jobId, payload.runId, payload.phase.Text(), payload.fingerprint, None)
  }
}
