/**
 Which worker outputs are accepted, said the other way round: not as the absence of faults
 but as what a sound output looks like, in the contract's own terms and without any table
 of the validator.
 */
module WorkerAcceptance {
  import opened Common
  import opened WorkerOutput
  import opened WorkerPartition

  /** The model that backs a stage. */
  predicate Backs(role: ModelRole, stage: Stage) {
    || (stage == Asr && role == AsrModel)
    || (stage == FireDetection && role == VisualFiltering)
    || (stage == VisualGrounding && role == GroundingModel)
    || (stage == MultimodalExtraction && role == ExtractionModel)
    || (stage == FirePointing && role == PointingModel)
    || (stage == CrossViewRegistration && role == RegistrationModel)
  }

  /** The result names the run, as a candidate or as its judge. */
  predicate Names(c: Consensus, id: Id) {
    id in c.candidates || c.adjudicator == Some(id)
  }

  ghost predicate SoundTraces(o: Output) {
    && (o.traces == [] ==> o.status == Failure)
    && (forall i :: 0 <= i < |o.traces| ==> o.traces[i].sequence == i + 1)
    && (forall i, j :: 0 <= i < j < |o.traces| ==> o.traces[i].stage != o.traces[j].stage)
  }

  ghost predicate SoundKeys(o: Output) {
    && (forall i, j :: 0 <= i < j < |o.runs| ==> o.runs[i].id != o.runs[j].id)
    && (forall i, j :: 0 <= i < j < |o.modelRuns| ==> o.modelRuns[i].role != o.modelRuns[j].role)
    && (forall i, j :: 0 <= i < j < |o.results| ==> o.results[i].id != o.results[j].id)
    && (forall i, j :: 0 <= i < j < |o.results| ==> o.results[i].stage != o.results[j].stage)
    && (forall i, j :: 0 <= i < j < |o.items| ==> o.items[i].input != o.items[j].input)
  }

  ghost predicate HasFact(i: Item, id: Id) {
    exists k :: 0 <= k < |i.facts| && i.facts[k].id == id
  }

  /** No identifier is used twice, neither within an item nor across items. */
  ghost predicate DistinctFacts(items: seq<Item>) {
    && (forall i, k, l :: 0 <= i < |items| && 0 <= k < l < |items[i].facts| ==>
          items[i].facts[k].id != items[i].facts[l].id)
    && (forall i, j, id :: 0 <= i < j < |items| && HasFact(items[i], id) ==> !HasFact(items[j], id))
  }

  ghost predicate SoundFacts(o: Output) {
    && DistinctFacts(o.items)
    && (o.report.Some? ==>
          forall s, id :: s in o.report.value && id in s ==>
            exists i :: 0 <= i < |o.items| && HasFact(o.items[i], id))
  }

  ghost predicate SoundCandidates(o: Output, c: Consensus) {
    forall id :: id in c.candidates ==> exists r :: r in o.runs && r.id == id && r.stage == c.stage
  }

  ghost predicate SoundJudge(o: Output, c: Consensus) {
    c.adjudicator.Some? ==>
      exists r :: r in o.runs && r.id == c.adjudicator.value && r.stage == c.stage && r.role == ConsensusJudge
                  && (c.decision == Adjudicated ==> r.status == Succeeded)
  }

  ghost predicate SoundTrace(o: Output, c: Consensus) {
    exists t :: t in o.traces && t.stage == c.stage && (t.status == Succeeded <==> c.downstream)
  }

  ghost predicate SoundSelection(o: Output, c: Consensus) {
    c.selected.Some? ==>
      exists r, m :: r in o.runs && m in o.modelRuns
                     && r.id == c.selected.value && r.status == Succeeded
                     && Backs(m.role, c.stage) && m.modelId == r.modelId && m.revision == r.revision
  }

  ghost predicate SoundResult(o: Output, c: Consensus) {
    SoundCandidates(o, c) && SoundJudge(o, c) && SoundTrace(o, c) && SoundSelection(o, c)
  }

  /** Every run is named by a result, and by one only. */
  ghost predicate SoundCoverage(o: Output) {
    && (o.runs == [] <==> o.results == [])
    && (forall r :: r in o.runs ==> exists c :: c in o.results && Names(c, r.id))
    && (forall i, j, id :: 0 <= i < j < |o.results| && Names(o.results[i], id) ==> !Names(o.results[j], id))
  }

  ghost predicate Sound(o: Output) {
    && SoundTraces(o) && SoundKeys(o) && SoundFacts(o) && SoundCoverage(o)
    && forall c :: c in o.results ==> SoundResult(o, c)
  }

  // ---- Fault by fault ----

  lemma TracesAreSound(o: Output)
    ensures SoundTraces(o) <==>
            !Faulty(o, NoStageTraces) && !Faulty(o, DuplicateStages)
            && !Faulty(o, DuplicateSequences) && !Faulty(o, UnorderedSequences)
  {
    assert forall i | 0 <= i < |o.traces| :: Stages(o.traces)[i] == o.traces[i].stage;
    assert forall i | 0 <= i < |o.traces| :: Sequences(o.traces)[i] == o.traces[i].sequence;
  }

  lemma KeysAreSound(o: Output)
    ensures SoundKeys(o) <==>
            !Faulty(o, DuplicateCandidates) && !Faulty(o, DuplicateConsensusIds)
            && !Faulty(o, DuplicateConsensusStages) && !Faulty(o, DuplicateModelRoles)
            && !Faulty(o, DuplicateInputs)
  {
    assert forall i | 0 <= i < |o.runs| :: RunIds(o.runs)[i] == o.runs[i].id;
    assert forall i | 0 <= i < |o.modelRuns| :: Roles(o.modelRuns)[i] == o.modelRuns[i].role;
    assert forall i | 0 <= i < |o.results| :: ResultIds(o.results)[i] == o.results[i].id;
    assert forall i | 0 <= i < |o.results| :: ResultStages(o.results)[i] == o.results[i].stage;
    assert forall i | 0 <= i < |o.items| :: Inputs(o.items)[i] == o.items[i].input;
  }

  lemma CoverageIsSound(o: Output)
    ensures SoundCoverage(o) <==>
            !Faulty(o, RunsWithoutResults) && !Faulty(o, UncoveredCandidate) && !Faulty(o, SharedCandidate)
  {
    forall c, id ensures Names(c, id) <==> id in Covered(c) {
    }
    if !Faulty(o, SharedCandidate) {
      forall i, j, id | 0 <= i < j < |o.results| && Names(o.results[i], id) ensures !Names(o.results[j], id) {
        var a, b := Covered(o.results[i]), Covered(o.results[j]);
        assert a * b == {} && id in a;
        assert id in b ==> id in a * b;
      }
    }
    if Faulty(o, SharedCandidate) {
      var i, j :| 0 <= i < j < |o.results| && Covered(o.results[i]) * Covered(o.results[j]) != {};
      var id :| id in Covered(o.results[i]) * Covered(o.results[j]);
      assert Names(o.results[i], id) && Names(o.results[j], id);
    }
  }

  lemma FactIdsMembers(i: Item, id: Id)
    ensures id in FactIds(i.facts) <==> HasFact(i, id)
  {
    if k :| 0 <= k < |i.facts| && i.facts[k].id == id {
      assert FactIds(i.facts)[k] == id;
    }
  }

  lemma {:induction false} AllFactIdsMembers(items: seq<Item>, id: Id)
    ensures id in AllFactIds(items) <==> exists i :: 0 <= i < |items| && HasFact(items[i], id)
  {
    if items != [] {
      var n := |items| - 1;
      AllFactIdsMembers(items[..n], id);
      FactIdsMembers(items[n], id);
      assert forall i | 0 <= i < n :: items[..n][i] == items[i];
      if i :| 0 <= i < n && HasFact(items[..n][i], id) {
        assert HasFact(items[i], id);
      }
      if i :| 0 <= i < n && HasFact(items[i], id) {
        assert HasFact(items[..n][i], id);
      }
    }
  }

  lemma DistinctSum<T>(a: seq<T>, b: seq<T>)
    ensures Distinct(a + b) <==> Distinct(a) && Distinct(b) && forall x :: x in a ==> x !in b
  {
    var s := a + b;
    if Distinct(s) {
      forall i, j | 0 <= i < j < |a| ensures a[i] != a[j] {
        assert s[i] != s[j];
      }
      forall i, j | 0 <= i < j < |b| ensures b[i] != b[j] {
        assert s[|a| + i] != s[|a| + j];
      }
      forall x | x in a ensures x !in b {
        var i :| 0 <= i < |a| && a[i] == x;
        forall j | 0 <= j < |b| ensures b[j] != x {
          assert s[i] != s[|a| + j];
        }
      }
    }
    if Distinct(a) && Distinct(b) && forall x :: x in a ==> x !in b {
      forall i, j | 0 <= i < j < |s| ensures s[i] != s[j] {
        if i < |a| <= j {
          assert s[i] in a && s[j] == b[j - |a|];
        }
      }
    }
  }

  lemma {:induction false} FactsAreDistinct(items: seq<Item>)
    ensures Distinct(AllFactIds(items)) <==> DistinctFacts(items)
  {
    if items != [] {
      var n := |items| - 1;
      FactsAreDistinct(items[..n]);
      DistinctSum(AllFactIds(items[..n]), FactIds(items[n].facts));
      OwnFactsDistinct(items[n]);
      forall id
        ensures id in AllFactIds(items[..n]) <==> exists i :: 0 <= i < n && HasFact(items[i], id)
        ensures id in FactIds(items[n].facts) <==> HasFact(items[n], id)
      {
        AllFactIdsMembers(items[..n], id);
        FactIdsMembers(items[n], id);
      }
      DistinctFactsStep(items);
    }
  }

  lemma OwnFactsDistinct(i: Item)
    ensures Distinct(FactIds(i.facts)) <==> OwnDistinct(i)
  {
    assert forall k | 0 <= k < |i.facts| :: FactIds(i.facts)[k] == i.facts[k].id;
  }

  predicate OwnDistinct(i: Item) {
    forall k, l :: 0 <= k < l < |i.facts| ==> i.facts[k].id != i.facts[l].id
  }

  /** The last item adds facts of its own, none of them with an earlier identifier. */
  lemma DistinctFactsStep(items: seq<Item>)
    requires items != []
    ensures var n := |items| - 1;
            DistinctFacts(items) <==>
            && DistinctFacts(items[..n]) && OwnDistinct(items[n])
            && forall i, id :: 0 <= i < n && HasFact(items[i], id) ==> !HasFact(items[n], id)
  {
    var n := |items| - 1;
    assert forall i | 0 <= i < n :: items[..n][i] == items[i];
  }

  lemma FactsAreSound(o: Output)
    ensures SoundFacts(o) <==> !Faulty(o, DuplicateFacts) && !Faulty(o, UnknownFact)
  {
    FactsAreDistinct(o.items);
    forall id
      ensures id in AllFactIds(o.items) <==> exists i :: 0 <= i < |o.items| && HasFact(o.items[i], id)
    {
      AllFactIdsMembers(o.items, id);
    }
  }

  // ---- Result by result ----

  /** Distinct keys, so that a key determines its row. */
  ghost predicate Keyed(o: Output) {
    && (forall r, r' :: r in o.runs && r' in o.runs && r.id == r'.id ==> r == r')
    && (forall t, t' :: t in o.traces && t' in o.traces && t.stage == t'.stage ==> t == t')
  }

  lemma SoundIsKeyed(o: Output)
    requires SoundTraces(o) && SoundKeys(o)
    ensures Keyed(o)
  {
    forall r, r' | r in o.runs && r' in o.runs && r.id == r'.id ensures r == r' {
      var i :| 0 <= i < |o.runs| && o.runs[i] == r;
      var j :| 0 <= j < |o.runs| && o.runs[j] == r';
      assert i < j || j < i || i == j;
    }
    forall t, t' | t in o.traces && t' in o.traces && t.stage == t'.stage ensures t == t' {
      var i :| 0 <= i < |o.traces| && o.traces[i] == t;
      var j :| 0 <= j < |o.traces| && o.traces[j] == t';
      assert i < j || j < i || i == j;
    }
  }

  lemma RunIdKnown(o: Output, id: Id)
    ensures id in RunIds(o.runs) <==> exists r :: r in o.runs && r.id == id
  {
    if id in RunIds(o.runs) {
      var r := IdHasRun(o.runs, id);
    }
    if r :| r in o.runs && r.id == id {
      RunIdIn(o.runs, r);
    }
  }

  lemma CandidatesAreSound(o: Output, c: Consensus)
    requires Keyed(o)
    ensures SoundCandidates(o, c) <==>
            !FaultyResult(o, c, UnknownCandidate) && !FaultyResult(o, c, ForeignCandidate)
  {
    forall id ensures id in RunIds(o.runs) <==> exists r :: r in o.runs && r.id == id {
      RunIdKnown(o, id);
    }
  }

  lemma JudgeIsSound(o: Output, c: Consensus)
    requires Keyed(o)
    ensures SoundJudge(o, c) <==>
            !FaultyResult(o, c, UnknownAdjudicator) && !FaultyResult(o, c, MisplacedAdjudicator)
            && !FaultyResult(o, c, FailedJudge)
  {
    if c.adjudicator.Some? {
      RunIdKnown(o, c.adjudicator.value);
    }
  }

  lemma TraceIsSound(o: Output, c: Consensus)
    requires Keyed(o)
    ensures SoundTrace(o, c) <==>
            !FaultyResult(o, c, NoTrace) && !FaultyResult(o, c, ReleasedWithoutSuccess)
            && !FaultyResult(o, c, BlockedWithSuccess)
  {
    StageKnown(o, c.stage);
  }

  lemma StageKnown(o: Output, stage: Stage)
    ensures stage in Stages(o.traces) <==> exists t :: t in o.traces && t.stage == stage
  {
    if stage in Stages(o.traces) {
      var i :| 0 <= i < |o.traces| && Stages(o.traces)[i] == stage;
      assert o.traces[i] in o.traces;
    }
    if t :| t in o.traces && t.stage == stage {
      var i :| 0 <= i < |o.traces| && o.traces[i] == t;
      assert Stages(o.traces)[i] == stage;
    }
  }

  /** The six pairs and no other. */
  lemma BacksIsModelFor(role: ModelRole, stage: Stage)
    ensures Backs(role, stage) <==> ModelFor(stage) == Some(role)
  {
  }

  lemma SelectionIsSound(o: Output, c: Consensus)
    requires Keyed(o)
    ensures SoundSelection(o, c) <==>
            !FaultyResult(o, c, SelectedFailed) && !FaultyResult(o, c, ModelMismatch)
  {
    forall role ensures Backs(role, c.stage) <==> ModelFor(c.stage) == Some(role) {
      BacksIsModelFor(role, c.stage);
    }
    if !FaultyResult(o, c, SelectedFailed) && !FaultyResult(o, c, ModelMismatch) && c.selected.Some? {
      var r, m :| r in o.runs && m in o.modelRuns && Agree(c, r, m);
      assert r.status == Succeeded && Backs(m.role, c.stage);
    }
    if SoundSelection(o, c) && c.selected.Some? {
      var r, m :| r in o.runs && m in o.modelRuns && r.id == c.selected.value && r.status == Succeeded
                  && Backs(m.role, c.stage) && m.modelId == r.modelId && m.revision == r.revision;
      assert Agree(c, r, m);
    }
  }

  lemma ResultIsSound(o: Output, c: Consensus)
    requires Keyed(o)
    ensures SoundResult(o, c) <==> forall k :: !FaultyResult(o, c, k)
  {
    CandidatesAreSound(o, c);
    JudgeIsSound(o, c);
    TraceIsSound(o, c);
    SelectionIsSound(o, c);
  }

  // ---- The two agree ----

  const TRACE_FAULTS: set<Fault> := {NoStageTraces, DuplicateStages, DuplicateSequences, UnorderedSequences}
  const KEY_FAULTS: set<Fault> :=
    {DuplicateCandidates, DuplicateConsensusIds, DuplicateConsensusStages, DuplicateModelRoles, DuplicateInputs}
  const FACT_FAULTS: set<Fault> := {DuplicateFacts, UnknownFact}
  const COVERAGE_FAULTS: set<Fault> := {RunsWithoutResults, UncoveredCandidate, SharedCandidate}

  lemma TraceFaults(o: Output)
    ensures SoundTraces(o) <==> forall f :: f in TRACE_FAULTS ==> !Faulty(o, f)
  {
    TracesAreSound(o);
    assert NoStageTraces in TRACE_FAULTS && DuplicateStages in TRACE_FAULTS;
    assert DuplicateSequences in TRACE_FAULTS && UnorderedSequences in TRACE_FAULTS;
  }

  lemma KeyFaults(o: Output)
    ensures SoundKeys(o) <==> forall f :: f in KEY_FAULTS ==> !Faulty(o, f)
  {
    KeysAreSound(o);
    assert DuplicateCandidates in KEY_FAULTS && DuplicateConsensusIds in KEY_FAULTS;
    assert DuplicateConsensusStages in KEY_FAULTS && DuplicateModelRoles in KEY_FAULTS && DuplicateInputs in KEY_FAULTS;
  }

  lemma FactFaults(o: Output)
    ensures SoundFacts(o) <==> forall f :: f in FACT_FAULTS ==> !Faulty(o, f)
  {
    FactsAreSound(o);
    assert DuplicateFacts in FACT_FAULTS && UnknownFact in FACT_FAULTS;
  }

  lemma CoverageFaults(o: Output)
    ensures SoundCoverage(o) <==> forall f :: f in COVERAGE_FAULTS ==> !Faulty(o, f)
  {
    CoverageIsSound(o);
    assert RunsWithoutResults in COVERAGE_FAULTS && UncoveredCandidate in COVERAGE_FAULTS;
    assert SharedCandidate in COVERAGE_FAULTS;
  }

  lemma ResultFaults(o: Output)
    requires Keyed(o)
    ensures (forall c :: c in o.results ==> SoundResult(o, c)) <==> forall k :: !Faulty(o, OfResult(k))
  {
    forall c ensures SoundResult(o, c) <==> forall k :: !FaultyResult(o, c, k) {
      ResultIsSound(o, c);
    }
    if forall k :: !Faulty(o, OfResult(k)) {
      forall c, k | c in o.results ensures !FaultyResult(o, c, k) {
        assert !Faulty(o, OfResult(k));
      }
    }
  }

  lemma EveryFault(f: Fault)
    ensures f in TRACE_FAULTS || f in KEY_FAULTS || f in FACT_FAULTS || f in COVERAGE_FAULTS || f.OfResult?
  {
  }

  lemma AcceptedIsSound(o: Output)
    requires Accepts(o)
    ensures Sound(o)
  {
    TraceFaults(o);
    KeyFaults(o);
    FactFaults(o);
    CoverageFaults(o);
    SoundIsKeyed(o);
    ResultFaults(o);
  }

  lemma SoundHasNoFault(o: Output, f: Fault)
    requires Sound(o)
    ensures !Faulty(o, f)
  {
    EveryFault(f);
    if f in TRACE_FAULTS {
      TraceFaults(o);
    } else if f in KEY_FAULTS {
      KeyFaults(o);
    } else if f in FACT_FAULTS {
      FactFaults(o);
    } else if f in COVERAGE_FAULTS {
      CoverageFaults(o);
    } else {
      SoundIsKeyed(o);
      ResultFaults(o);
    }
  }

  /** The accepted outputs are exactly the sound ones. */
  lemma AcceptedExactlyWhenSound(o: Output)
    ensures Accepts(o) <==> Sound(o)
  {
    if Accepts(o) {
      AcceptedIsSound(o);
    }
    if Sound(o) {
      forall f ensures !Faulty(o, f) {
        SoundHasNoFault(o, f);
      }
    }
  }
}
