/**
 The part validators of a worker output, which only test fields, against the shapes that
 they leave: what a candidate run, a consensus result, a stage trace and an item can be.
 */
module WorkerParts {
  import opened Common
  import opened WorkerOutput

  /** Text or objects that all differ. */
  predicate AllDiffer<T(==)>(s: seq<T>) {
    forall i, j :: 0 <= i < |s| && 0 <= j < |s| && s[i] == s[j] ==> i == j
  }

  lemma DistinctIsAllDiffer<T>(s: seq<T>)
    ensures Distinct(s) <==> AllDiffer(s)
  {
  }

  /** Both moments carry a timezone and the second is not before the first. */
  predicate Spans(started: Instant, finished: Instant) {
    started.aware && finished.aware && !(finished.at < started.at)
  }

  // ---- Candidate runs ----

  datatype RunShape = Produced(payload: string, repaired: bool) | Broke(error: Id) | PassedOver(note: Option<Id>)

  /** The outcome fields of a run, given its shape. */
  predicate RunHasShape(hash: string -> string, r: CandidateRun, shape: RunShape) {
    match shape
    case Produced(payload, repaired) =>
      && r.status == Succeeded && r.repaired == repaired && r.error == None
      && r.payload == Some(payload) && r.digest == Some(hash(payload))
    case Broke(error) =>
      r.status == Failed && !r.repaired && r.error == Some(error) && r.payload == None && r.digest == None
    case PassedOver(error) =>
      r.status == Skipped && !r.repaired && r.error == error && r.payload == None && r.digest == None
  }

  /** A run has one of three shapes: an output with its own digest, an error, or neither. */
  lemma RunShapes(hash: string -> string, r: CandidateRun)
    ensures RunOk(hash, r) <==>
            Spans(r.started, r.finished) && exists shape :: RunHasShape(hash, r, shape)
  {
    if RunOk(hash, r) {
      var shape := if r.status == Succeeded then Produced(r.payload.value, r.repaired)
                   else if r.status == Failed then Broke(r.error.value)
                   else PassedOver(r.error);
      assert RunHasShape(hash, r, shape);
    }
  }

  // ---- Consensus results ----

  datatype Verdict = Direct(selected: Id) | Judged(selected: Id, judge: Id) | Blocked(seen: Option<Id>)

  /** The decision fields of a result, given its verdict. */
  predicate HasVerdict(c: Consensus, v: Verdict) {
    match v
    case Direct(selected) =>
      && c.decision in {Pass, Repair} && c.downstream
      && c.selected == Some(selected) && selected in c.candidates && c.adjudicator == None
    case Judged(selected, judge) =>
      && c.decision == Adjudicated && c.downstream
      && c.selected == Some(selected) && selected in c.candidates
      && c.adjudicator == Some(judge) && judge !in c.candidates
    case Blocked(judge) =>
      && c.decision in {Abstain, HumanReview} && !c.downstream && c.selected == None
      && c.adjudicator == judge && (judge.Some? ==> judge.value !in c.candidates)
  }

  /** The counts, digests and lists that every result keeps. */
  predicate Bookkeeping(hash: string -> string, c: Consensus) {
    && c.evaluated.aware && hash(c.payload) == c.digest
    && 1 <= |c.candidates| <= 8 && AllDiffer(c.candidates) && AllDiffer(c.reasons)
    && !(c.successful > |c.candidates|) && c.required >= 1 && !(c.required > |c.candidates|)
  }

  /** A result selects directly, selects with a judge, or blocks. */
  lemma ConsensusShapes(hash: string -> string, c: Consensus)
    ensures ConsensusOk(hash, c) <==> Bookkeeping(hash, c) && exists v :: HasVerdict(c, v)
  {
    DistinctIsAllDiffer(c.candidates);
    DistinctIsAllDiffer(c.reasons);
    if ConsensusOk(hash, c) {
      var v := if c.decision == Adjudicated then Judged(c.selected.value, c.adjudicator.value)
               else if c.decision in {Pass, Repair} then Direct(c.selected.value)
               else Blocked(c.adjudicator);
      assert HasVerdict(c, v);
    }
  }

  // ---- Stage traces ----

  /** A timed attempt that has an error exactly if it failed. */
  predicate AttemptIs(a: Attempt, number: int, kind: AttemptKind) {
    && a.number == number && a.kind == kind && Spans(a.started, a.finished)
    && (a.succeeded ==> a.error == None) && (a.error == None ==> a.succeeded)
  }

  function Ends(succeeded: bool): Status {
    if succeeded then Succeeded else Failed
  }

  /** No attempt, one initial attempt, or a failed initial attempt and a repair; the last one ends the stage. */
  predicate AttemptsShape(t: StageTrace) {
    if |t.attempts| == 0 then t.status == Failed || t.status == Skipped
    else if |t.attempts| == 1 then
      AttemptIs(t.attempts[0], 1, Initial) && t.status == Ends(t.attempts[0].succeeded)
    else
      && |t.attempts| == 2
      && AttemptIs(t.attempts[0], 1, Initial) && !t.attempts[0].succeeded
      && AttemptIs(t.attempts[1], 2, RepairAttempt) && t.status == Ends(t.attempts[1].succeeded)
  }

  /** The name of each stage in its contract. */
  function NameInContract(stage: Stage): string {
    if stage == Asr then "asr"
    else if stage == FireDetection then "fire_detection"
    else if stage == VisualGrounding then "visual_grounding"
    else if stage == MultimodalExtraction then "multimodal_extraction"
    else if stage == FirePointing then "fire_pointing"
    else if stage == CrossViewRegistration then "cross_view_registration"
    else if stage == SpatialProjection then "spatial_projection"
    else if stage == EvidenceFusion then "evidence_fusion"
    else "situation_report"
  }

  /** Preflight and postflight gates stand in their places, and the trace is retryable when one of them says so. */
  predicate GatesShape(t: StageTrace) {
    && t.preflight.preflight && (t.postflight == None || !t.postflight.value.preflight)
    && t.retryable == (t.preflight.decision == FailedRetryable
                       || (t.postflight != None && t.postflight.value.decision == FailedRetryable))
  }

  lemma AttemptShapes(t: StageTrace)
    ensures AttemptsShape(t) <==>
            && |t.attempts| <= 2
            && (forall i :: 0 <= i < |t.attempts| ==> AttemptOk(t.attempts[i]) && t.attempts[i].number == i + 1)
            && (|t.attempts| == 2 ==> !t.attempts[0].succeeded && t.attempts[1].kind.RepairAttempt?)
            && (t.status.Skipped? ==> t.attempts == [])
            && (t.status.Succeeded? ==> t.attempts != [] && t.attempts[|t.attempts| - 1].succeeded)
            && (t.status.Failed? && t.attempts != [] ==> !t.attempts[|t.attempts| - 1].succeeded)
  {
  }

  lemma ContractNames(stage: Stage)
    ensures StageName(stage) == NameInContract(stage)
  {
  }

  /** A trace has its stage's contract, its gates in place and one of the attempt shapes. */
  lemma TraceShapes(t: StageTrace)
    ensures TraceOk(t) <==> "stage." + NameInContract(t.stage) + ".v" <= t.contract && GatesShape(t) && AttemptsShape(t)
  {
    AttemptShapes(t);
    ContractNames(t.stage);
  }

  // ---- Items ----

  /** An item's identifiers all differ, its proposals point to its annotations and its facts to itself. */
  lemma ItemShapes(i: Item)
    ensures ItemOk(i) <==>
            && AllDiffer(i.annotations) && AllDiffer(i.proposals)
            && (forall k, l :: 0 <= k < l < |i.facts| ==> i.facts[k].id != i.facts[l].id)
            && (forall id :: Some(id) in i.anchors ==> id in i.annotations)
            && (forall f :: f in i.facts ==> f.input == i.input)
  {
    DistinctIsAllDiffer(i.annotations);
    DistinctIsAllDiffer(i.proposals);
    assert forall k | 0 <= k < |i.facts| :: FactIds(i.facts)[k] == i.facts[k].id;
    if ItemOk(i) {
      forall id | Some(id) in i.anchors ensures id in i.annotations {
        var k :| 0 <= k < |i.anchors| && i.anchors[k] == Some(id);
      }
      forall f | f in i.facts ensures f.input == i.input {
        var k :| 0 <= k < |i.facts| && i.facts[k] == f;
      }
    }
  }
}
