/** What an accepted worker output guarantees; no single validator says any of it. */
module WorkerPartition {
  import opened Common
  import opened WorkerOutput

  lemma RunIdIn(runs: seq<CandidateRun>, r: CandidateRun)
    requires r in runs
    ensures r.id in RunIds(runs)
  {
    var i :| 0 <= i < |runs| && runs[i] == r;
    assert RunIds(runs)[i] == r.id;
  }

  lemma IdHasRun(runs: seq<CandidateRun>, id: Id) returns (r: CandidateRun)
    requires id in RunIds(runs)
    ensures r in runs && r.id == id
  {
    var i :| 0 <= i < |runs| && RunIds(runs)[i] == id;
    r := runs[i];
  }

  lemma SameRun(runs: seq<CandidateRun>, r: CandidateRun, r': CandidateRun)
    requires Distinct(RunIds(runs)) && r in runs && r' in runs && r.id == r'.id
    ensures r == r'
  {
    var i :| 0 <= i < |runs| && runs[i] == r;
    var j :| 0 <= j < |runs| && runs[j] == r';
    assert RunIds(runs)[i] == RunIds(runs)[j];
  }

  lemma SameResult(results: seq<Consensus>, c: Consensus, c': Consensus)
    requires Distinct(ResultStages(results)) && c in results && c' in results && c.stage == c'.stage
    ensures c == c'
  {
    var i :| 0 <= i < |results| && results[i] == c;
    var j :| 0 <= j < |results| && results[j] == c';
    assert ResultStages(results)[i] == ResultStages(results)[j];
  }

  /** What a result covers is a run, and of its own stage. */
  lemma CoveredIsOfStage(o: Output, c: Consensus, id: Id)
    requires Accepts(o) && c in o.results && id in Covered(c)
    ensures exists r :: r in o.runs && r.id == id && r.stage == c.stage
  {
    assert !Faulty(o, OfResult(UnknownCandidate)) && !Faulty(o, OfResult(UnknownAdjudicator));
    assert !FaultyResult(o, c, UnknownCandidate) && !FaultyResult(o, c, UnknownAdjudicator);
    var r := IdHasRun(o.runs, id);
    assert !Faulty(o, OfResult(ForeignCandidate)) && !Faulty(o, OfResult(MisplacedAdjudicator));
    assert !FaultyResult(o, c, ForeignCandidate) && !FaultyResult(o, c, MisplacedAdjudicator);
  }

  lemma CoveredRunIsOfStage(o: Output, c: Consensus, r: CandidateRun)
    requires Accepts(o) && c in o.results && r in o.runs && r.id in Covered(c)
    ensures r.stage == c.stage
  {
    CoveredIsOfStage(o, c, r.id);
    var r' :| r' in o.runs && r'.id == r.id && r'.stage == c.stage;
    assert !Faulty(o, DuplicateCandidates);
    SameRun(o.runs, r, r');
  }

  /** A result covers exactly the candidate runs of its stage: its candidates and its adjudicator. */
  lemma CoversItsStage(o: Output, c: Consensus, r: CandidateRun)
    requires Accepts(o) && c in o.results && r in o.runs
    ensures r.id in Covered(c) <==> r.stage == c.stage
  {
    assert !Faulty(o, DuplicateConsensusStages) && !Faulty(o, UncoveredCandidate);
    if r.id in Covered(c) {
      CoveredRunIsOfStage(o, c, r);
    } else if r.stage == c.stage {
      var c' :| c' in o.results && r.id in Covered(c');
      CoveredRunIsOfStage(o, c', r);
      SameResult(o.results, c, c');
    }
  }

  /** Everything covered by one of these results. */
  function CoveredBy(results: seq<Consensus>): set<Id> {
    if results == [] then {}
    else CoveredBy(results[..|results| - 1]) + Covered(results[|results| - 1])
  }

  /** The number of candidates and adjudicators that these results list. */
  function Listed(results: seq<Consensus>): nat {
    if results == [] then 0
    else
      var c := results[|results| - 1];
      Listed(results[..|results| - 1]) + |c.candidates| + if c.adjudicator.Some? then 1 else 0
  }

  lemma {:induction false} CoveredByMembers(results: seq<Consensus>, id: Id)
    ensures id in CoveredBy(results) <==> exists i :: 0 <= i < |results| && id in Covered(results[i])
  {
    if results != [] {
      var init := results[..|results| - 1];
      CoveredByMembers(init, id);
      if id in CoveredBy(init) {
        var i :| 0 <= i < |init| && id in Covered(init[i]);
        assert id in Covered(results[i]);
      }
      forall i | 0 <= i < |results| && id in Covered(results[i]) ensures id in CoveredBy(results) {
        if i < |init| {
          assert id in Covered(init[i]);
        }
      }
    }
  }

  lemma CoveredSize(hash: string -> string, c: Consensus)
    requires ConsensusOk(hash, c)
    ensures |Covered(c)| == |c.candidates| + if c.adjudicator.Some? then 1 else 0
  {
    MembersSize(c.candidates);
  }

  /** With nothing shared, the covered runs are as many as the listed ones. */
  lemma {:induction false} ListedIsCovered(hash: string -> string, results: seq<Consensus>)
    requires forall c :: c in results ==> ConsensusOk(hash, c)
    requires forall i, j :: 0 <= i < j < |results| ==> Covered(results[i]) * Covered(results[j]) == {}
    ensures |CoveredBy(results)| == Listed(results)
  {
    if results != [] {
      var init, last := results[..|results| - 1], results[|results| - 1];
      ListedIsCovered(hash, init);
      CoveredSize(hash, last);
      forall id | id in CoveredBy(init) ensures id !in Covered(last) {
        CoveredByMembers(init, id);
        var i :| 0 <= i < |init| && id in Covered(init[i]);
        assert Covered(results[i]) * Covered(results[|results| - 1]) == {};
      }
      assert CoveredBy(init) !! Covered(last);
    }
  }

  /** Exactly the candidate runs are covered. */
  lemma AllRunsCovered(o: Output, id: Id)
    requires Accepts(o)
    ensures id in CoveredBy(o.results) <==> id in RunIds(o.runs)
  {
    assert !Faulty(o, UncoveredCandidate);
    CoveredByMembers(o.results, id);
    if id in CoveredBy(o.results) {
      var i :| 0 <= i < |o.results| && id in Covered(o.results[i]);
      CoveredIsOfStage(o, o.results[i], id);
      var r :| r in o.runs && r.id == id;
      RunIdIn(o.runs, r);
    }
    if id in RunIds(o.runs) {
      var r := IdHasRun(o.runs, id);
      var c :| c in o.results && id in Covered(c);
      var i :| 0 <= i < |o.results| && o.results[i] == c;
    }
  }

  /**
   The results partition the candidate runs: no run is covered twice, every run is
   covered, nothing else is, and the sizes add up to the number of runs.
   */
  lemma ResultsPartitionRuns(hash: string -> string, o: Output)
    requires PartsOk(hash, o) && Accepts(o)
    ensures forall i, j :: 0 <= i < j < |o.results| ==> Covered(o.results[i]) * Covered(o.results[j]) == {}
    ensures CoveredBy(o.results) == Members(RunIds(o.runs))
    ensures Listed(o.results) == |o.runs|
  {
    assert !Faulty(o, SharedCandidate) && !Faulty(o, DuplicateCandidates);
    forall id ensures id in CoveredBy(o.results) <==> id in RunIds(o.runs) {
      AllRunsCovered(o, id);
    }
    ListedIsCovered(hash, o.results);
    MembersSize(RunIds(o.runs));
  }

  /** The shapes that the attempts of a succeeded stage can have. */
  predicate CleanAttempts(attempts: seq<Attempt>) {
    || (|attempts| == 1 && attempts[0].kind.Initial? && attempts[0].succeeded)
    || (|attempts| == 2 && attempts[0].kind.Initial? && !attempts[0].succeeded
        && attempts[1].kind.RepairAttempt? && attempts[1].succeeded)
  }

  /**
   For a result of an accepted output these coincide: an accepting decision, a selected
   candidate, downstream release, a succeeded stage trace. And the trace exists.
   */
  lemma ReleaseCoincides(hash: string -> string, o: Output, c: Consensus, t: StageTrace)
    requires PartsOk(hash, o) && Accepts(o) && c in o.results
    requires t in o.traces && t.stage == c.stage
    ensures Accepting(c.decision) <==> c.downstream
    ensures c.selected.Some? <==> c.downstream
    ensures t.status.Succeeded? <==> c.downstream
    ensures c.downstream ==> CleanAttempts(t.attempts)
  {
    assert ConsensusOk(hash, c) && TraceOk(t);
    assert !Faulty(o, OfResult(ReleasedWithoutSuccess)) && !Faulty(o, OfResult(BlockedWithSuccess));
    assert !FaultyResult(o, c, ReleasedWithoutSuccess) && !FaultyResult(o, c, BlockedWithSuccess);
  }

  lemma ResultHasTrace(o: Output, c: Consensus) returns (t: StageTrace)
    requires Accepts(o) && c in o.results
    ensures t in o.traces && t.stage == c.stage
    ensures forall t' :: t' in o.traces && t'.stage == c.stage ==> t' == t
  {
    assert !Faulty(o, OfResult(NoTrace)) && !Faulty(o, DuplicateStages);
    assert !FaultyResult(o, c, NoTrace);
    var i :| 0 <= i < |o.traces| && Stages(o.traces)[i] == c.stage;
    t := o.traces[i];
    forall t' | t' in o.traces && t'.stage == c.stage ensures t' == t {
      var j :| 0 <= j < |o.traces| && o.traces[j] == t';
      assert Stages(o.traces)[j] == Stages(o.traces)[i];
    }
  }

  lemma SameModelRun(modelRuns: seq<ModelRun>, m: ModelRun, m': ModelRun)
    requires Distinct(Roles(modelRuns)) && m in modelRuns && m' in modelRuns && m.role == m'.role
    ensures m == m'
  {
    var i :| 0 <= i < |modelRuns| && modelRuns[i] == m;
    var j :| 0 <= j < |modelRuns| && modelRuns[j] == m';
    assert Roles(modelRuns)[i] == Roles(modelRuns)[j];
  }

  lemma ReleasedRunAgrees(hash: string -> string, o: Output, c: Consensus) returns (r: CandidateRun, m: ModelRun)
    requires PartsOk(hash, o) && Accepts(o) && c in o.results && c.downstream
    ensures r in o.runs && m in o.modelRuns && Agree(c, r, m) && r.status.Succeeded? && r.id in Covered(c)
  {
    assert ConsensusOk(hash, c);
    assert !Faulty(o, OfResult(ModelMismatch)) && !Faulty(o, OfResult(SelectedFailed));
    assert !FaultyResult(o, c, ModelMismatch) && !FaultyResult(o, c, SelectedFailed);
    r, m :| r in o.runs && m in o.modelRuns && Agree(c, r, m);
  }

  /**
   A released stage is one of the six that a model backs, its selected run succeeded with
   its own digest, and its one model run names the same model and revision.
   */
  lemma ReleasedStageIsModelBacked(hash: string -> string, o: Output, c: Consensus)
    returns (r: CandidateRun, m: ModelRun)
    requires PartsOk(hash, o) && Accepts(o) && c in o.results && c.downstream
    ensures c.stage !in {SpatialProjection, EvidenceFusion, SituationReport}
    ensures r in o.runs && r.stage == c.stage && r.status.Succeeded? && c.selected == Some(r.id)
    ensures r.payload.Some? && r.digest == Some(hash(r.payload.value))
    ensures m in o.modelRuns
    ensures c.stage == Asr ==> m.role == AsrModel
    ensures c.stage == FireDetection ==> m.role == VisualFiltering
    ensures c.stage == VisualGrounding ==> m.role == GroundingModel
    ensures c.stage == MultimodalExtraction ==> m.role == ExtractionModel
    ensures c.stage == FirePointing ==> m.role == PointingModel
    ensures c.stage == CrossViewRegistration ==> m.role == RegistrationModel
    ensures m.modelId == r.modelId && m.revision == r.revision
    ensures forall m' :: m' in o.modelRuns && m'.role == m.role ==> m' == m
  {
    r, m := ReleasedRunAgrees(hash, o, c);
    CoversItsStage(o, c, r);
    assert RunOk(hash, r);
    assert !Faulty(o, DuplicateModelRoles);
    forall m' | m' in o.modelRuns && m'.role == m.role ensures m' == m {
      SameModelRun(o.modelRuns, m, m');
    }
  }
}
