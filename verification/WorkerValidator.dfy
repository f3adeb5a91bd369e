/**
 The output validator as it runs: checks in a fixed order, lookup tables, and a loop over
 the consensus results that accumulates the candidate runs covered so far. It stops at
 the first fault, and accepts exactly the outputs that have none.
 */
module WorkerValidator {
  import opened Common
  import opened WorkerOutput
  import opened WorkerPartition
  import A = WorkerAcceptance

  method HasDuplicates<T(==)>(values: seq<T>) returns (found: bool)
    ensures found <==> !Distinct(values)
  {
    MembersSize(values);
    found := |values| != |Members(values)|;
  }

  /** A dictionary comprehension over rows with distinct keys. */
  method IndexBy<K(==), V(==)>(rows: seq<V>, key: V -> K) returns (index: map<K, V>)
    requires forall i, j :: 0 <= i < j < |rows| ==> key(rows[i]) != key(rows[j])
    ensures forall v :: v in rows ==> key(v) in index && index[key(v)] == v
    ensures forall k :: k in index ==> index[k] in rows && key(index[k]) == k
  {
    index := map[];
    for i := 0 to |rows|
      invariant forall j :: 0 <= j < i ==> key(rows[j]) in index && index[key(rows[j])] == rows[j]
      invariant forall k :: k in index ==> index[k] in rows && key(index[k]) == k
    {
      index := index[key(rows[i]) := rows[i]];
    }
  }

  /** The three lookup tables of the validator. */
  datatype Tables = Tables(
    byId: map<Id, CandidateRun>, byStage: map<Stage, StageTrace>, byRole: map<ModelRole, ModelRun>)

  ghost predicate Indexed(o: Output, t: Tables) {
    && (forall r :: r in o.runs ==> r.id in t.byId && t.byId[r.id] == r)
    && (forall id :: id in t.byId ==> t.byId[id] in o.runs && t.byId[id].id == id)
    && (forall s :: s in o.traces ==> s.stage in t.byStage && t.byStage[s.stage] == s)
    && (forall k :: k in t.byStage ==> t.byStage[k] in o.traces && t.byStage[k].stage == k)
    && (forall m :: m in o.modelRuns ==> m.role in t.byRole && t.byRole[m.role] == m)
    && (forall k :: k in t.byRole ==> t.byRole[k] in o.modelRuns && t.byRole[k].role == k)
  }

  method BuildTables(o: Output) returns (t: Tables)
    requires Distinct(RunIds(o.runs)) && Distinct(Stages(o.traces)) && Distinct(Roles(o.modelRuns))
    ensures Indexed(o, t)
  {
    assert forall i :: 0 <= i < |o.runs| ==> RunIds(o.runs)[i] == o.runs[i].id;
    var byId := IndexBy(o.runs, (r: CandidateRun) => r.id);
    assert forall i :: 0 <= i < |o.traces| ==> Stages(o.traces)[i] == o.traces[i].stage;
    var byStage := IndexBy(o.traces, (s: StageTrace) => s.stage);
    assert forall i :: 0 <= i < |o.modelRuns| ==> Roles(o.modelRuns)[i] == o.modelRuns[i].role;
    var byRole := IndexBy(o.modelRuns, (m: ModelRun) => m.role);
    t := Tables(byId, byStage, byRole);
  }

  /** The faults of one result that are looked for before its coverage is added. */
  predicate Early(f: ResultFault) {
    f.UnknownCandidate? || f.ForeignCandidate? || f.UnknownAdjudicator? || f.MisplacedAdjudicator? || f.FailedJudge?
  }

  /** The checks of one result that come before its coverage is added. */
  method CheckCandidates(o: Output, c: Consensus, t: Tables) returns (fault: Option<ResultFault>)
    requires Indexed(o, t)
    ensures fault.Some? ==> FaultyResult(o, c, fault.value)
    ensures fault.None? ==> forall k :: Early(k) ==> !FaultyResult(o, c, k)
  {
    KnownIds(o, t);
    if exists id :: id in c.candidates && id !in t.byId { return Some(UnknownCandidate); }
    if exists id :: id in c.candidates && id in t.byId && t.byId[id].stage != c.stage { return Some(ForeignCandidate); }
    if c.adjudicator.Some? {
      if c.adjudicator.value !in t.byId { return Some(UnknownAdjudicator); }
      var judge := t.byId[c.adjudicator.value];
      if judge.stage != c.stage || !judge.role.ConsensusJudge? { return Some(MisplacedAdjudicator); }
      if c.decision.Adjudicated? && !judge.status.Succeeded? { return Some(FailedJudge); }
    }
    fault := None;
  }

  lemma KnownIds(o: Output, t: Tables)
    requires Indexed(o, t)
    ensures forall id :: id in t.byId <==> id in RunIds(o.runs)
  {
    forall id | id in RunIds(o.runs) ensures id in t.byId {
      var r := IdHasRun(o.runs, id);
    }
    forall id | id in t.byId ensures id in RunIds(o.runs) {
      RunIdIn(o.runs, t.byId[id]);
    }
  }

  lemma KnownStages(o: Output, t: Tables)
    requires Indexed(o, t)
    ensures forall s :: s in t.byStage <==> s in Stages(o.traces)
  {
    forall s | s in Stages(o.traces) ensures s in t.byStage {
      var i :| 0 <= i < |o.traces| && Stages(o.traces)[i] == s;
      assert o.traces[i] in o.traces;
    }
    forall s | s in t.byStage ensures s in Stages(o.traces) {
      var i :| 0 <= i < |o.traces| && o.traces[i] == t.byStage[s];
      assert Stages(o.traces)[i] == s;
    }
  }

  /** The checks of one result against its stage trace and its stage's model run. */
  method CheckRelease(o: Output, c: Consensus, t: Tables) returns (fault: Option<ResultFault>)
    requires Indexed(o, t)
    requires c.selected.Some? ==> c.selected.value in t.byId
    ensures fault.Some? ==> FaultyResult(o, c, fault.value)
    ensures fault.None? ==> forall k :: !Early(k) ==> !FaultyResult(o, c, k)
  {
    KnownStages(o, t);
    if c.stage !in t.byStage { return Some(NoTrace); }
    var trace := t.byStage[c.stage];
    if c.downstream && !trace.status.Succeeded? { return Some(ReleasedWithoutSuccess); }
    if !c.downstream && trace.status.Succeeded? { return Some(BlockedWithSuccess); }
    if c.selected.Some? {
      var selected := t.byId[c.selected.value];
      if !selected.status.Succeeded? { return Some(SelectedFailed); }
      var role := ModelFor(c.stage);
      if role.None? || role.value !in t.byRole
         || t.byRole[role.value].modelId != selected.modelId || t.byRole[role.value].revision != selected.revision {
        return Some(ModelMismatch);
      }
      assert Agree(c, selected, t.byRole[role.value]);
    }
    fault := None;
  }

  /** The results seen so far have no fault of their own and share no candidate run. */
  ghost predicate CleanSoFar(o: Output, n: nat)
    requires n <= |o.results|
  {
    && (forall i, k :: 0 <= i < n ==> !FaultyResult(o, o.results[i], k))
    && (forall i, j :: 0 <= i < j < n ==> Covered(o.results[i]) * Covered(o.results[j]) == {})
  }

  /** One round of the loop: the checks of result `n`, its coverage added between them. */
  method CheckResult(hash: string -> string, o: Output, t: Tables, n: nat, covered: set<Id>)
    returns (fault: Option<Fault>, covered': set<Id>)
    requires Indexed(o, t) && n < |o.results| && ConsensusOk(hash, o.results[n])
    requires covered == CoveredBy(o.results[..n])
    ensures fault.Some? ==> Faulty(o, fault.value)
    ensures fault.None? ==>
      && (forall k :: !FaultyResult(o, o.results[n], k))
      && covered * Covered(o.results[n]) == {} && covered' == covered + Covered(o.results[n])
  {
    var c := o.results[n];
    covered' := covered;
    var early := CheckCandidates(o, c, t);
    if early.Some? {
      ResultFaultIsFault(o, c, early.value);
      return Some(OfResult(early.value)), covered;
    }
    if covered * Covered(c) != {} {
      SharedWithEarlier(o, n);
      return Some(SharedCandidate), covered;
    }
    covered' := covered + Covered(c);
    SelectedKnown(hash, o, c, t);
    var late := CheckRelease(o, c, t);
    if late.Some? {
      ResultFaultIsFault(o, c, late.value);
      return Some(OfResult(late.value)), covered';
    }
    fault := None;
  }

  lemma CleanNext(o: Output, n: nat)
    requires n < |o.results| && CleanSoFar(o, n) && forall k :: !FaultyResult(o, o.results[n], k)
    requires CoveredBy(o.results[..n]) * Covered(o.results[n]) == {}
    ensures CleanSoFar(o, n + 1)
    ensures CoveredBy(o.results[..n + 1]) == CoveredBy(o.results[..n]) + Covered(o.results[n])
  {
    NothingShared(o, n);
    assert o.results[..n + 1][..n] == o.results[..n];
  }

  /** The loop over the consensus results. */
  method CheckResults(hash: string -> string, o: Output, t: Tables) returns (fault: Option<Fault>, covered: set<Id>)
    requires Indexed(o, t) && forall c :: c in o.results ==> ConsensusOk(hash, c)
    ensures fault.Some? ==> Faulty(o, fault.value)
    ensures fault.None? ==> CleanSoFar(o, |o.results|) && covered == CoveredBy(o.results)
  {
    fault, covered := None, {};
    for n := 0 to |o.results|
      invariant fault.None? && CleanSoFar(o, n) && covered == CoveredBy(o.results[..n])
    {
      fault, covered := CheckResult(hash, o, t, n, covered);
      if fault.Some? { return; }
      CleanNext(o, n);
    }
    assert o.results[..|o.results|] == o.results;
  }

  lemma ResultFaultIsFault(o: Output, c: Consensus, f: ResultFault)
    requires c in o.results && FaultyResult(o, c, f)
    ensures Faulty(o, OfResult(f))
  {
  }

  lemma SelectedKnown(hash: string -> string, o: Output, c: Consensus, t: Tables)
    requires Indexed(o, t) && ConsensusOk(hash, c) && !FaultyResult(o, c, UnknownCandidate)
    ensures c.selected.Some? ==> c.selected.value in t.byId
  {
    KnownIds(o, t);
  }

  lemma SharedWithEarlier(o: Output, n: nat)
    requires n < |o.results| && CoveredBy(o.results[..n]) * Covered(o.results[n]) != {}
    ensures Faulty(o, SharedCandidate)
  {
    var id :| id in CoveredBy(o.results[..n]) * Covered(o.results[n]);
    CoveredByMembers(o.results[..n], id);
    var i :| 0 <= i < n && id in Covered(o.results[..n][i]);
    assert id in Covered(o.results[i]) * Covered(o.results[n]);
  }

  lemma NothingShared(o: Output, n: nat)
    requires n < |o.results| && CoveredBy(o.results[..n]) * Covered(o.results[n]) == {}
    ensures forall i :: 0 <= i < n ==> Covered(o.results[i]) * Covered(o.results[n]) == {}
  {
    forall i | 0 <= i < n ensures Covered(o.results[i]) * Covered(o.results[n]) == {} {
      forall id | id in Covered(o.results[i]) ensures id in CoveredBy(o.results[..n]) {
        CoveredByMembers(o.results[..n], id);
        assert id in Covered(o.results[..n][i]);
      }
      assert Covered(o.results[i]) <= CoveredBy(o.results[..n]);
    }
  }

  /** The checks that come before the loop, in their order. */
  method CheckHeader(o: Output) returns (fault: Option<Fault>)
    ensures fault.Some? ==> Faulty(o, fault.value)
    ensures fault.None? ==> forall f :: f in HEADER_FAULTS ==> !Faulty(o, f)
  {
    if !o.status.Failure? && o.traces == [] { return Some(NoStageTraces); }
    var twice := HasDuplicates(Stages(o.traces));
    if twice { return Some(DuplicateStages); }
    twice := HasDuplicates(Sequences(o.traces));
    if twice { return Some(DuplicateSequences); }
    if Sequences(o.traces) != seq(|o.traces|, i => i + 1) {
      var i :| 0 <= i < |o.traces| && Sequences(o.traces)[i] != i + 1;
      return Some(UnorderedSequences);
    }
    assert forall i :: 0 <= i < |o.traces| ==> o.traces[i].sequence == Sequences(o.traces)[i] == i + 1;
    twice := HasDuplicates(RunIds(o.runs));
    if twice { return Some(DuplicateCandidates); }
    twice := HasDuplicates(ResultIds(o.results));
    if twice { return Some(DuplicateConsensusIds); }
    twice := HasDuplicates(ResultStages(o.results));
    if twice { return Some(DuplicateConsensusStages); }
    if (o.runs == []) != (o.results == []) { return Some(RunsWithoutResults); }
    twice := HasDuplicates(Roles(o.modelRuns));
    if twice { return Some(DuplicateModelRoles); }
    fault := None;
  }

  const HEADER_FAULTS := {
    NoStageTraces, DuplicateStages, DuplicateSequences, UnorderedSequences, DuplicateCandidates,
    DuplicateConsensusIds, DuplicateConsensusStages, RunsWithoutResults, DuplicateModelRoles}

  /** The checks of items, facts and report that come after the loop. */
  method CheckItems(o: Output) returns (fault: Option<Fault>)
    ensures fault.Some? ==> Faulty(o, fault.value)
    ensures fault.None? ==> forall f :: f in {DuplicateInputs, DuplicateFacts, UnknownFact} ==> !Faulty(o, f)
  {
    var twice := HasDuplicates(Inputs(o.items));
    if twice { return Some(DuplicateInputs); }
    var known := AllFactIds(o.items);
    twice := HasDuplicates(known);
    if twice { return Some(DuplicateFacts); }
    if o.report.Some? {
      var referenced := set s, id | s in o.report.value && id in s :: id;
      if referenced - Members(known) != {} {
        var id :| id in referenced - Members(known);
        return Some(UnknownFact);
      }
      forall s, id | s in o.report.value && id in s ensures id in known {
        assert id in referenced;
        assert id !in referenced - Members(known);
      }
    }
    fault := None;
  }

  /** The checks in their order: the first fault they meet, and none exactly if the output has none. */
  method FirstFault(hash: string -> string, o: Output) returns (fault: Option<Fault>)
    requires PartsOk(hash, o)
    ensures fault.None? <==> Accepts(o)
    ensures fault.Some? ==> Faulty(o, fault.value)
  {
    fault := CheckHeader(o);
    if fault.Some? { return; }
    assert !Faulty(o, DuplicateStages) && !Faulty(o, DuplicateCandidates) && !Faulty(o, DuplicateModelRoles);
    var tables := BuildTables(o);
    var covered: set<Id>;
    fault, covered := CheckResults(hash, o, tables);
    if fault.Some? { return; }
    if covered != Members(RunIds(o.runs)) {
      MissingCoverage(o);
      return Some(UncoveredCandidate);
    }
    FullCoverage(o);
    fault := CheckItems(o);
    if fault.Some? { return; }
    forall f ensures !Faulty(o, f) {
      assert f in HEADER_FAULTS || f in {DuplicateInputs, DuplicateFacts, UnknownFact}
             || f in {SharedCandidate, UncoveredCandidate} || f.OfResult?;
    }
  }

  /** The whole validator accepts exactly the sound outputs, and a fault that it reports is one. */
  method ValidateOutput(hash: string -> string, o: Output) returns (fault: Option<Fault>)
    requires PartsOk(hash, o)
    ensures fault.None? <==> A.Sound(o)
    ensures fault.None? <==> Accepts(o)
    ensures fault.Some? ==> Faulty(o, fault.value)
  {
    A.AcceptedExactlyWhenSound(o);
    fault := FirstFault(hash, o);
  }

  lemma MissingCoverage(o: Output)
    requires CleanSoFar(o, |o.results|) && CoveredBy(o.results) != Members(RunIds(o.runs))
    ensures Faulty(o, UncoveredCandidate)
  {
    forall id | id in CoveredBy(o.results) ensures id in Members(RunIds(o.runs)) {
      CoveredByMembers(o.results, id);
      var i :| 0 <= i < |o.results| && id in Covered(o.results[i]);
      assert !FaultyResult(o, o.results[i], UnknownCandidate) && !FaultyResult(o, o.results[i], UnknownAdjudicator);
    }
    var id :| id in Members(RunIds(o.runs)) && id !in CoveredBy(o.results);
    var r := IdHasRun(o.runs, id);
    CoveredByMembers(o.results, id);
  }

  lemma FullCoverage(o: Output)
    requires CoveredBy(o.results) == Members(RunIds(o.runs))
    ensures !Faulty(o, UncoveredCandidate)
  {
    forall r | r in o.runs ensures exists c :: c in o.results && r.id in Covered(c) {
      RunIdIn(o.runs, r);
      assert r.id in Members(RunIds(o.runs));
      CoveredByMembers(o.results, r.id);
    }
  }
}
