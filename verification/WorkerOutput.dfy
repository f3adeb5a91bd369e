/**
 The version 2 worker output contract: what each part must satisfy on its own, and what
 the whole output must satisfy, stated without order as the absence of faults.
 */
module WorkerOutput {
  import opened Common

  type Id = string

  datatype Stage =
    | Asr | FireDetection | VisualGrounding | MultimodalExtraction | FirePointing | CrossViewRegistration
    | SpatialProjection | EvidenceFusion | SituationReport
  datatype ModelRole =
    | AsrModel | VisualFiltering | GroundingModel | ExtractionModel | PointingModel | RegistrationModel | ConsensusJudge
  datatype Status = Succeeded | Failed | Skipped
  datatype OutputStatus = Complete | PartialFailure | Failure
  /** A datetime: does it carry a timezone, and when is it. */
  datatype Instant = Instant(aware: bool, at: int)

  datatype CandidateRun = CandidateRun(
    id: Id, stage: Stage, role: ModelRole, modelId: string, revision: string, status: Status,
    started: Instant, finished: Instant, repaired: bool,
    digest: Option<string>, payload: Option<string>, error: Option<Id>)

  datatype Decision = Pass | Repair | Adjudicated | Abstain | HumanReview
  datatype Consensus = Consensus(
    id: Id, stage: Stage, decision: Decision, candidates: seq<Id>, selected: Option<Id>, adjudicator: Option<Id>,
    reasons: seq<Id>, successful: nat, required: nat, downstream: bool, digest: string, payload: string,
    evaluated: Instant)

  datatype AttemptKind = Initial | RepairAttempt
  datatype Attempt = Attempt(
    number: int, kind: AttemptKind, succeeded: bool, started: Instant, finished: Instant, error: Option<Id>)
  datatype GateDecision = GatePass | NotApplicable | GateAbstain | GateReview | FailedRetryable | FailedTerminal
  datatype Gate = Gate(preflight: bool, decision: GateDecision)
  datatype StageTrace = StageTrace(
    stage: Stage, contract: string, sequence: int, status: Status, retryable: bool,
    preflight: Gate, postflight: Option<Gate>, attempts: seq<Attempt>)

  datatype ModelRun = ModelRun(role: ModelRole, modelId: string, revision: string)
  datatype Fact = Fact(id: Id, input: Id)
  datatype Item = Item(input: Id, annotations: seq<Id>, proposals: seq<Id>, anchors: seq<Option<Id>>, facts: seq<Fact>)

  datatype Output = Output(
    status: OutputStatus, traces: seq<StageTrace>, modelRuns: seq<ModelRun>, runs: seq<CandidateRun>,
    results: seq<Consensus>, items: seq<Item>, report: Option<seq<seq<Id>>>)

  // ---- The parts ----

  predicate Timed(started: Instant, finished: Instant) {
    started.aware && finished.aware && started.at <= finished.at
  }

  /** `hash` is the digest of a payload's canonical JSON text. */
  predicate RunOk(hash: string -> string, r: CandidateRun) {
    && Timed(r.started, r.finished)
    && (if r.status.Succeeded? then
          r.payload.Some? && r.digest.Some? && hash(r.payload.value) == r.digest.value && r.error.None?
        else r.payload.None? && r.digest.None? && !r.repaired)
    && (r.status.Failed? ==> r.error.Some?)
  }

  predicate Accepting(d: Decision) {
    d in {Pass, Repair, Adjudicated}
  }

  predicate ConsensusOk(hash: string -> string, c: Consensus) {
    && c.evaluated.aware
    && 1 <= |c.candidates| <= 8
    && Distinct(c.candidates)
    && (c.adjudicator.Some? ==> c.adjudicator.value !in c.candidates)
    && Distinct(c.reasons)
    && c.successful <= |c.candidates|
    && 1 <= c.required <= |c.candidates|
    && hash(c.payload) == c.digest
    && if Accepting(c.decision) then
         && c.selected.Some? && c.selected.value in c.candidates
         && c.downstream
         && (c.decision.Adjudicated? <==> c.adjudicator.Some?)
       else c.selected.None? && !c.downstream
  }

  predicate AttemptOk(a: Attempt) {
    && 1 <= a.number <= 2
    && Timed(a.started, a.finished)
    && (a.kind.Initial? ==> a.number == 1)
    && (a.kind.RepairAttempt? ==> a.number == 2)
    && (a.succeeded <==> a.error.None?)
  }

  function StageName(s: Stage): string {
    match s
    case Asr => "asr"
    case FireDetection => "fire_detection"
    case VisualGrounding => "visual_grounding"
    case MultimodalExtraction => "multimodal_extraction"
    case FirePointing => "fire_pointing"
    case CrossViewRegistration => "cross_view_registration"
    case SpatialProjection => "spatial_projection"
    case EvidenceFusion => "evidence_fusion"
    case SituationReport => "situation_report"
  }

  predicate TraceOk(t: StageTrace) {
    && "stage." + StageName(t.stage) + ".v" <= t.contract
    && t.preflight.preflight
    && (t.postflight.Some? ==> !t.postflight.value.preflight)
    && |t.attempts| <= 2
    && (forall i :: 0 <= i < |t.attempts| ==> AttemptOk(t.attempts[i]) && t.attempts[i].number == i + 1)
    && (|t.attempts| == 2 ==> !t.attempts[0].succeeded && t.attempts[1].kind.RepairAttempt?)
    && (t.status.Skipped? ==> t.attempts == [])
    && (t.status.Succeeded? ==> t.attempts != [] && t.attempts[|t.attempts| - 1].succeeded)
    && (t.status.Failed? && t.attempts != [] ==> !t.attempts[|t.attempts| - 1].succeeded)
    && (t.retryable <==>
          || t.preflight.decision.FailedRetryable?
          || (t.postflight.Some? && t.postflight.value.decision.FailedRetryable?))
  }

  predicate ItemOk(i: Item) {
    && Distinct(i.annotations) && Distinct(i.proposals) && Distinct(FactIds(i.facts))
    && (forall k :: 0 <= k < |i.anchors| ==> i.anchors[k].Some? ==> i.anchors[k].value in i.annotations)
    && (forall k :: 0 <= k < |i.facts| ==> i.facts[k].input == i.input)
  }

  /** Every part of the output passed its own validator, which runs first. */
  ghost predicate PartsOk(hash: string -> string, o: Output) {
    && (forall r :: r in o.runs ==> RunOk(hash, r))
    && (forall c :: c in o.results ==> ConsensusOk(hash, c))
    && (forall t :: t in o.traces ==> TraceOk(t))
    && (forall i :: i in o.items ==> ItemOk(i))
  }

  // ---- Projections ----

  function FactIds(facts: seq<Fact>): seq<Id> {
    seq(|facts|, i requires 0 <= i < |facts| => facts[i].id)
  }

  function Stages(traces: seq<StageTrace>): seq<Stage> {
    seq(|traces|, i requires 0 <= i < |traces| => traces[i].stage)
  }

  function Sequences(traces: seq<StageTrace>): seq<int> {
    seq(|traces|, i requires 0 <= i < |traces| => traces[i].sequence)
  }

  function RunIds(runs: seq<CandidateRun>): seq<Id> {
    seq(|runs|, i requires 0 <= i < |runs| => runs[i].id)
  }

  function ResultIds(results: seq<Consensus>): seq<Id> {
    seq(|results|, i requires 0 <= i < |results| => results[i].id)
  }

  function ResultStages(results: seq<Consensus>): seq<Stage> {
    seq(|results|, i requires 0 <= i < |results| => results[i].stage)
  }

  function Roles(modelRuns: seq<ModelRun>): seq<ModelRole> {
    seq(|modelRuns|, i requires 0 <= i < |modelRuns| => modelRuns[i].role)
  }

  function Inputs(items: seq<Item>): seq<Id> {
    seq(|items|, i requires 0 <= i < |items| => items[i].input)
  }

  function AllFactIds(items: seq<Item>): seq<Id> {
    if items == [] then []
    else AllFactIds(items[..|items| - 1]) + FactIds(items[|items| - 1].facts)
  }

  /** The runs that a consensus result speaks for. */
  function Covered(c: Consensus): set<Id> {
    Members(c.candidates) + if c.adjudicator.Some? then {c.adjudicator.value} else {}
  }

  /** The model whose run a released stage must agree with; three stages have none. */
  function ModelFor(s: Stage): Option<ModelRole> {
    match s
    case Asr => Some(AsrModel)
    case FireDetection => Some(VisualFiltering)
    case VisualGrounding => Some(GroundingModel)
    case MultimodalExtraction => Some(ExtractionModel)
    case FirePointing => Some(PointingModel)
    case CrossViewRegistration => Some(RegistrationModel)
    case _ => None
  }

  // ---- The whole ----

  datatype Fault =
    | NoStageTraces | DuplicateStages | DuplicateSequences | UnorderedSequences
    | DuplicateCandidates | DuplicateConsensusIds | DuplicateConsensusStages | RunsWithoutResults | DuplicateModelRoles
    | OfResult(kind: ResultFault)
    | SharedCandidate | UncoveredCandidate
    | DuplicateInputs | DuplicateFacts | UnknownFact

  datatype ResultFault =
    | UnknownCandidate | ForeignCandidate | UnknownAdjudicator | MisplacedAdjudicator | FailedJudge
    | NoTrace | ReleasedWithoutSuccess | BlockedWithSuccess | SelectedFailed | ModelMismatch

  /** Does the output have this fault? Each case reads the output as a whole, in no order. */
  ghost predicate Faulty(o: Output, f: Fault) {
    match f
    case NoStageTraces => !o.status.Failure? && o.traces == []
    case DuplicateStages => !Distinct(Stages(o.traces))
    case DuplicateSequences => !Distinct(Sequences(o.traces))
    case UnorderedSequences => exists i :: 0 <= i < |o.traces| && o.traces[i].sequence != i + 1
    case DuplicateCandidates => !Distinct(RunIds(o.runs))
    case DuplicateConsensusIds => !Distinct(ResultIds(o.results))
    case DuplicateConsensusStages => !Distinct(ResultStages(o.results))
    case RunsWithoutResults => (o.runs == []) != (o.results == [])
    case DuplicateModelRoles => !Distinct(Roles(o.modelRuns))
    case OfResult(kind) => exists c :: c in o.results && FaultyResult(o, c, kind)
    case SharedCandidate =>
      exists i, j :: 0 <= i < j < |o.results| && Covered(o.results[i]) * Covered(o.results[j]) != {}
    case UncoveredCandidate => exists r :: r in o.runs && forall c :: c in o.results ==> r.id !in Covered(c)
    case DuplicateInputs => !Distinct(Inputs(o.items))
    case DuplicateFacts => !Distinct(AllFactIds(o.items))
    case UnknownFact =>
      o.report.Some? && exists s, id :: s in o.report.value && id in s && id !in AllFactIds(o.items)
  }

  ghost predicate FaultyResult(o: Output, c: Consensus, f: ResultFault) {
    match f
    case UnknownCandidate => exists id :: id in c.candidates && id !in RunIds(o.runs)
    case ForeignCandidate => exists r :: r in o.runs && r.id in c.candidates && r.stage != c.stage
    case UnknownAdjudicator => c.adjudicator.Some? && c.adjudicator.value !in RunIds(o.runs)
    case MisplacedAdjudicator =>
      exists r :: r in o.runs && c.adjudicator == Some(r.id) && (r.stage != c.stage || !r.role.ConsensusJudge?)
    case FailedJudge =>
      c.decision.Adjudicated? && exists r :: r in o.runs && c.adjudicator == Some(r.id) && !r.status.Succeeded?
    case NoTrace => c.stage !in Stages(o.traces)
    case ReleasedWithoutSuccess =>
      c.downstream && exists t :: t in o.traces && t.stage == c.stage && !t.status.Succeeded?
    case BlockedWithSuccess => !c.downstream && exists t :: t in o.traces && t.stage == c.stage && t.status.Succeeded?
    case SelectedFailed => exists r :: r in o.runs && c.selected == Some(r.id) && !r.status.Succeeded?
    case ModelMismatch => c.selected.Some? && !exists r, m :: r in o.runs && m in o.modelRuns && Agree(c, r, m)
  }

  /** `m` is the stage's model run and `r`, the selected candidate, is a run of that model. */
  predicate Agree(c: Consensus, r: CandidateRun, m: ModelRun) {
    && c.selected == Some(r.id) && ModelFor(c.stage) == Some(m.role)
    && m.modelId == r.modelId && m.revision == r.revision
  }

  ghost predicate Accepts(o: Output) {
    forall f :: !Faulty(o, f)
  }
}
