/**
 Safety over whole runs: every sequence of attempted row operations, committed or
 aborted, in any interleaving, from the empty registry.
 */
module RegistryRuns {
  import opened Common
  import opened Lifecycle
  import opened RegistrySchema
  import opened RegistryInvariant

  /** One attempted row operation: it commits, or it leaves the database as it was. */
  ghost function Exec(db: Db, op: Op): Db {
    if Commits(db, op) then Result(db, op) else db
  }

  /** The state that a sequence of attempted operations reaches. */
  ghost function Reach(ops: seq<Op>): Db {
    if ops == [] then EMPTY else Exec(Reach(ops[..|ops| - 1]), ops[|ops| - 1])
  }

  lemma {:induction false} ReachSafe(ops: seq<Op>)
    ensures Inv(Reach(ops))
  {
    if ops == [] {
      forall rule ensures Holds(EMPTY, rule) {
      }
    } else {
      var before, op := Reach(ops[..|ops| - 1]), ops[|ops| - 1];
      ReachSafe(ops[..|ops| - 1]);
      if Commits(before, op) {
        InvKept(before, op);
      }
    }
  }

  // ---- What holds in every reachable state ----

  /**
   An active publication is backed: its package is published, was verified with a passed
   report, and carries the publication's revision, which is a revision of its zone.
   */
  lemma ActivePublicationIsBacked(ops: seq<Op>, q: nat)
    requires q in Reach(ops).publications && Reach(ops).publications[q].active
    ensures var db := Reach(ops);
            var pub := db.publications[q];
            && pub.state.Published?
            && pub.package in db.packages
            && var p := db.packages[pub.package];
            && p.state.Published? && p.verifiedAt.Some? && p.rev == Some(pub.rev)
            && p.report.Object? && p.report.status == Some("passed")
            && pub.rev in db.revisions && db.revisions[pub.rev] == pub.zone
  {
    ReachSafe(ops);
    assert Holds(Reach(ops), PublicationsBacked) && Holds(Reach(ops), PackagesVerified);
  }

  /** At most one publication is active per zone, and so at most one per package. */
  lemma OneActivePerZoneAndPackage(ops: seq<Op>, q: nat, r: nat)
    requires q in Reach(ops).publications && Reach(ops).publications[q].active
    requires r in Reach(ops).publications && Reach(ops).publications[r].active
    requires || Reach(ops).publications[q].zone == Reach(ops).publications[r].zone
             || Reach(ops).publications[q].package == Reach(ops).publications[r].package
    ensures q == r
  {
    ReachSafe(ops);
    assert Holds(Reach(ops), PublicationsBacked) && Holds(Reach(ops), OneActivePerZone);
  }

  /** Whatever spatial links a manifest has agree, and its package left verification behind. */
  lemma ManifestLinksAgree(ops: seq<Op>, k: nat)
    requires k in Reach(ops).manifests
    ensures var db := Reach(ops);
            var m := db.manifests[k];
            && (m.rev.Some? <==> m.asset.Some? || m.package.Some?)
            && (m.asset.Some? ==> m.asset.value in db.assets && db.assets[m.asset.value].rev == m.rev)
            && (m.package.Some? ==>
                  && m.package.value in db.packages
                  && db.packages[m.package.value].rev == m.rev
                  && db.packages[m.package.value].state !in {Draft, Verified}
                  && db.packages[m.package.value].report.Object?
                  && db.packages[m.package.value].report.status == Some("passed"))
            && (m.asset.Some? && db.assets[m.asset.value].file.Some? ==>
                  GlbOf(db.packages, db.files, db.assets[m.asset.value].file.value, m.rev))
  {
    ReachSafe(ops);
    assert Holds(Reach(ops), ManifestsBacked) && Holds(Reach(ops), PackagesVerified) && Holds(Reach(ops), AssetsBacked);
  }

  /** The four families of incident and episode columns are complete and coherent. */
  lemma EpisodeLinksCoherent(ops: seq<Op>)
    ensures var db := Reach(ops);
            && (forall k :: k in db.observations ==>
                  && LinkRow(db.episodes, db.observations[k].attached)
                  && LinkRow(db.episodes, db.observations[k].proposed))
            && (forall k :: k in db.manifests ==>
                  EpisodeOf(db.episodes, db.manifests[k].episode, db.manifests[k].incident))
            && (forall k :: k in db.assets ==> LinkRow(db.episodes, db.assets[k].legacy))
            && (forall k :: k in db.episodes ==> db.episodes[k].incident in db.incidents)
  {
    ReachSafe(ops);
    assert Holds(Reach(ops), ObservationsCoherent) && Holds(Reach(ops), LegacyCoherent);
    assert Holds(Reach(ops), ManifestsOwned) && Holds(Reach(ops), EpisodesHaveIncidents);
  }

  // ---- What one operation does to a row ----

  /** One operation moves a package at most one transition on, and writes each column once. */
  predicate PackageStep(p: Package, p': Package) {
    && (p.state == p'.state || Transition(p.state, p'.state))
    && (p.rev.Some? ==> p'.rev == p.rev)
    && (p.verifiedAt.Some? ==> p'.verifiedAt == p.verifiedAt && p'.report == p.report)
  }

  predicate PublicationStep(q: Publication, q': Publication) {
    && (q.state == q'.state || Transition(q.state, q'.state))
    && q'.zone == q.zone && q'.rev == q.rev && q'.package == q.package
  }

  /** The event log, one publication and one package after an attempted operation. */
  function EventsAfter(db: Db, op: Op): seq<Event> {
    if op.InsertEvent? && EventInsert(db, op.event) then db.events + [op.event] else db.events
  }

  function PublicationAfter(db: Db, op: Op, k: nat): Publication
    requires k in db.publications
  {
    if op.UpdatePublication? && op.id == k && PublicationUpdate(db, k, op.publicationChange)
    then NewPublication(db.publications[k], op.publicationChange)
    else db.publications[k]
  }

  function PackageAfter(db: Db, op: Op, k: nat): Package
    requires k in db.packages
  {
    if op.UpdatePackage? && op.id == k && PackageUpdate(db, k, op.packageChange)
    then NewPackage(db.packages[k], op.packageChange)
    else db.packages[k]
  }

  lemma EventStepOf(db: Db, op: Op)
    ensures Exec(db, op).events == EventsAfter(db, op)
  {
  }

  lemma PublicationAfterStep(db: Db, op: Op, k: nat)
    requires k in db.publications
    ensures k in Exec(db, op).publications && Exec(db, op).publications[k] == PublicationAfter(db, op, k)
  {
  }

  lemma PackageAfterStep(db: Db, op: Op, k: nat)
    requires k in db.packages
    ensures k in Exec(db, op).packages && Exec(db, op).packages[k] == PackageAfter(db, op, k)
  {
  }

  lemma PackageCreated(db: Db, op: Op, k: nat)
    requires k !in db.packages
    ensures k in Exec(db, op).packages ==> Exec(db, op).packages[k].state.Draft?
  {
  }

  lemma PublicationCreated(db: Db, op: Op, k: nat)
    requires k !in db.publications
    ensures k in Exec(db, op).publications ==> Exec(db, op).publications[k].state.Draft?
  {
  }

  lemma PackageStepOf(db: Db, op: Op, k: nat)
    requires k in db.packages
    ensures PackageStep(db.packages[k], PackageAfter(db, op, k))
  {
  }

  lemma PublicationStepOf(db: Db, op: Op, k: nat)
    requires k in db.publications
    ensures PublicationStep(db.publications[k], PublicationAfter(db, op, k))
  {
  }

  lemma ShotStepOf(db: Db, op: Op, k: nat)
    ensures k in db.shots ==> k in Exec(db, op).shots && Exec(db, op).shots[k] == db.shots[k]
  {
  }

  // ---- What an earlier and a later state of a run have in common ----

  lemma {:induction false} CaptureStays(ops: seq<Op>, more: seq<Op>, s: nat)
    requires s in Reach(ops).shots
    ensures s in Reach(ops + more).shots && Reach(ops + more).shots[s] == Reach(ops).shots[s]
  {
    if more == [] {
      assert ops + more == ops;
    } else {
      var shorter := more[..|more| - 1];
      CaptureStays(ops, shorter, s);
      ReachNext(ops, more);
      ShotStepOf(Reach(ops + shorter), more[|more| - 1], s);
    }
  }

  /**
   A capture is for ever: in every later state it is the same row, and its manifest and
   asset still exist with the revision and the digest that the capture was taken of.
   */
  lemma CaptureIsForEver(ops: seq<Op>, more: seq<Op>, s: nat)
    requires s in Reach(ops).shots
    ensures var shot, db, db' := Reach(ops).shots[s], Reach(ops), Reach(ops + more);
            && s in db'.shots && db'.shots[s] == shot
            && ShotRow(db.assets, db.manifests, shot)
            && ShotRow(db'.assets, db'.manifests, shot)
  {
    CaptureStays(ops, more, s);
    ReachSafe(ops);
    ReachSafe(ops + more);
    assert Holds(Reach(ops), ShotsBacked) && Holds(Reach(ops + more), ShotsBacked);
  }

  // ---- The lifecycle over runs ----

  /** The successive states of package `k`, one per state of the run from its insertion on. */
  ghost function PackageStates(ops: seq<Op>, k: nat): seq<State> {
    var earlier := if ops == [] then [] else PackageStates(ops[..|ops| - 1], k);
    if k in Reach(ops).packages then earlier + [Reach(ops).packages[k].state] else earlier
  }

  ghost function PublicationStates(ops: seq<Op>, k: nat): seq<State> {
    var earlier := if ops == [] then [] else PublicationStates(ops[..|ops| - 1], k);
    if k in Reach(ops).publications then earlier + [Reach(ops).publications[k].state] else earlier
  }

  /** A package lives a walk that starts in Draft; its last entry is its state. */
  lemma {:induction false} PackageLife(ops: seq<Op>, k: nat)
    ensures var states := PackageStates(ops, k);
            if k in Reach(ops).packages
            then Walk(states) && states[0].Draft? && states[|states| - 1] == Reach(ops).packages[k].state
            else states == []
  {
    if ops != [] {
      var before, op := Reach(ops[..|ops| - 1]), ops[|ops| - 1];
      PackageLife(ops[..|ops| - 1], k);
      if k in before.packages {
        PackageAfterStep(before, op, k);
        PackageStepOf(before, op, k);
      } else {
        PackageCreated(before, op, k);
      }
    }
  }

  /** So does a publication. */
  lemma {:induction false} PublicationLife(ops: seq<Op>, k: nat)
    ensures var states := PublicationStates(ops, k);
            if k in Reach(ops).publications
            then Walk(states) && states[0].Draft? && states[|states| - 1] == Reach(ops).publications[k].state
            else states == []
  {
    if ops != [] {
      var before, op := Reach(ops[..|ops| - 1]), ops[|ops| - 1];
      PublicationLife(ops[..|ops| - 1], k);
      if k in before.publications {
        PublicationAfterStep(before, op, k);
        PublicationStepOf(before, op, k);
      } else {
        PublicationCreated(before, op, k);
      }
    }
  }

  /** However long the run: at most five changes of an object's state are not toggles. */
  lemma AdvancesAtMostFive(ops: seq<Op>, k: nat)
    ensures k in Reach(ops).packages ==>
      Advances(PackageStates(ops, k)) <= Rank(Reach(ops).packages[k].state) <= 5
    ensures k in Reach(ops).publications ==>
      Advances(PublicationStates(ops, k)) <= Rank(Reach(ops).publications[k].state) <= 5
  {
    PackageLife(ops, k);
    PublicationLife(ops, k);
    if k in Reach(ops).packages {
      AdvancesBounded(PackageStates(ops, k));
    }
    if k in Reach(ops).publications {
      AdvancesBounded(PublicationStates(ops, k));
    }
  }

  /** Whatever is published, or withdrawn, was verified first and then previewable. */
  lemma PublishedWasPreviewed(ops: seq<Op>, k: nat)
    ensures k in Reach(ops).packages && Rank(Reach(ops).packages[k].state) == 3 ==>
              PreviewedFirst(PackageStates(ops, k))
    ensures k in Reach(ops).publications && Rank(Reach(ops).publications[k].state) == 3 ==>
              PreviewedFirst(PublicationStates(ops, k))
  {
    PackageLife(ops, k);
    PublicationLife(ops, k);
    if k in Reach(ops).packages && Rank(Reach(ops).packages[k].state) == 3 {
      var v, p := PublicationIsPreviewedFirst(PackageStates(ops, k), |PackageStates(ops, k)| - 1);
    }
    if k in Reach(ops).publications && Rank(Reach(ops).publications[k].state) == 3 {
      var v, p := PublicationIsPreviewedFirst(PublicationStates(ops, k), |PublicationStates(ops, k)| - 1);
    }
  }

  ghost predicate PreviewedFirst(states: seq<State>) {
    exists v: nat, p: nat :: v < p < |states| - 1 && states[v].Verified? && states[p].Previewable?
  }

  /** What `p`, verified, has in common with the same package later. */
  predicate Final(p: Package, later: Package) {
    && p.report.Object? && p.report.status == Some("passed") && later.report == p.report
    && p.verifiedAt.Some? && later.verifiedAt == p.verifiedAt
    && (p.rev.Some? ==> later.rev == p.rev)
    && Rank(p.state) <= Rank(later.state)
    && (p.state.Archived? ==> later.state.Archived?)
  }

  lemma FinalStep(p: Package, q: Package, r: Package)
    requires Final(p, q) && PackageStep(q, r)
    ensures Final(p, r)
  {
    assert Walk([q.state, r.state]);
    WalkClimbs([q.state, r.state], 0, 1);
  }

  lemma VerifiedPackage(ops: seq<Op>, k: nat)
    requires k in Reach(ops).packages && !Reach(ops).packages[k].state.Draft?
    ensures Final(Reach(ops).packages[k], Reach(ops).packages[k])
  {
    ReachSafe(ops);
    assert Holds(Reach(ops), PackagesVerified);
  }

  /** The state after one more operation. */
  lemma ReachNext(ops: seq<Op>, more: seq<Op>)
    requires more != []
    ensures Reach(ops + more) == Exec(Reach(ops + more[..|more| - 1]), more[|more| - 1])
  {
    assert (ops + more)[..|ops + more| - 1] == ops + more[..|more| - 1];
  }

  /** Once verified, a package keeps its timestamp, its passed report and its revision. */
  lemma {:induction false} VerificationIsFinal(ops: seq<Op>, more: seq<Op>, k: nat)
    requires k in Reach(ops).packages && !Reach(ops).packages[k].state.Draft?
    ensures k in Reach(ops + more).packages && Final(Reach(ops).packages[k], Reach(ops + more).packages[k])
  {
    if more == [] {
      assert ops + more == ops;
      VerifiedPackage(ops, k);
    } else {
      var before, op := ops + more[..|more| - 1], more[|more| - 1];
      VerificationIsFinal(ops, more[..|more| - 1], k);
      ReachNext(ops, more);
      PackageAfterStep(Reach(before), op, k);
      PackageStepOf(Reach(before), op, k);
      FinalStep(Reach(ops).packages[k], Reach(before).packages[k], PackageAfter(Reach(before), op, k));
    }
  }

  // ---- The event log is the history ----

  /** A change of a publication's state, with the reason and actor it was made for. */
  datatype Change = Change(from: State, to: State, reason: string, actor: string)

  /** The changes of publication `k` as they happened: read off the successive states. */
  ghost function History(ops: seq<Op>, k: nat): seq<Change> {
    if ops == [] then []
    else
      var earlier := ops[..|ops| - 1];
      var a, b := Reach(earlier).publications, Reach(ops).publications;
      if k in a && k in b && a[k].state != b[k].state
      then History(earlier, k) + [Change(a[k].state, b[k].state, b[k].reason, b[k].actor)]
      else History(earlier, k)
  }

  /**
   The changes that a log records: replayed from the newest event back, an event was
   applied exactly if what follows it starts (or ends) at its target.
   */
  function Replay(log: seq<Event>, state: State): seq<Change> {
    if log == [] then []
    else
      var e := log[|log| - 1];
      if e.from.None? then []
      else
        Replay(log[..|log| - 1], e.from.value)
        + if state == e.to then [Change(e.from.value, e.to, e.reason, e.actor)] else []
  }

  /** An update that commits applies the newest event of the log, or changes no state. */
  lemma ReplayOfUpdate(db: Db, k: nat, c: PublicationChange)
    requires PublicationUpdate(db, k, c) && LogRow(LogOf(db.events, k), db.publications[k].state)
    ensures var q, q' := db.publications[k], NewPublication(db.publications[k], c);
            Replay(LogOf(db.events, k), q'.state)
            == Replay(LogOf(db.events, k), q.state)
               + if q.state == q'.state then [] else [Change(q.state, q'.state, q'.reason, q'.actor)]
  {
  }

  /** Recording an event applies nothing: the new event is pending. */
  lemma ReplayOfEvent(db: Db, e: Event, k: nat)
    requires EventInsert(db, e) && k in db.publications && LogRow(LogOf(db.events, k), db.publications[k].state)
    ensures Replay(LogOf(db.events + [e], k), db.publications[k].state)
         == Replay(LogOf(db.events, k), db.publications[k].state)
  {
    assert (db.events + [e])[..|db.events|] == db.events;
  }

  /** One operation adds to the replayed log exactly the change it makes. */
  lemma ReplayStep(db: Db, op: Op, k: nat)
    requires k in db.publications && LogRow(LogOf(db.events, k), db.publications[k].state)
    ensures var q, q' := db.publications[k], PublicationAfter(db, op, k);
            Replay(LogOf(EventsAfter(db, op), k), q'.state)
            == Replay(LogOf(db.events, k), q.state)
               + if q.state == q'.state then [] else [Change(q.state, q'.state, q'.reason, q'.actor)]
  {
    if op.UpdatePublication? && op.id == k && PublicationUpdate(db, k, op.publicationChange) {
      ReplayOfUpdate(db, k, op.publicationChange);
    } else if op.InsertEvent? && EventInsert(db, op.event) {
      ReplayOfEvent(db, op.event, k);
    }
  }

  /**
   The append-only log determines a publication's whole history: replaying it beside the
   current state yields exactly the state changes that happened, in order, each with the
   reason and the actor of the one event it consumed.
   */
  lemma {:induction false} LogIsHistory(ops: seq<Op>, k: nat)
    ensures var db := Reach(ops);
            if k in db.publications
            then LogRow(LogOf(db.events, k), db.publications[k].state)
                 && History(ops, k) == Replay(LogOf(db.events, k), db.publications[k].state)
            else LogOf(db.events, k) == [] && History(ops, k) == []
  {
    ReachSafe(ops);
    assert Holds(Reach(ops), LogsFit) && Holds(Reach(ops), EventsHavePublications);
    LogOfMembers(Reach(ops).events, k);
    if ops != [] {
      var earlier, op := ops[..|ops| - 1], ops[|ops| - 1];
      LogIsHistory(earlier, k);
      ReachSafe(earlier);
      if k in Reach(earlier).publications {
        EventStepOf(Reach(earlier), op);
        PublicationAfterStep(Reach(earlier), op, k);
        ReplayStep(Reach(earlier), op, k);
      } else {
        LogOfCreated(Reach(earlier), op, k);
      }
    }
  }

  /** A publication that was not there before has no event yet and is a draft. */
  lemma LogOfCreated(db: Db, op: Op, k: nat)
    requires k !in db.publications && LogOf(db.events, k) == []
    ensures k in Exec(db, op).publications ==>
      LogOf(Exec(db, op).events, k) == [] && Exec(db, op).publications[k].state.Draft?
  {
    EventStepOf(db, op);
    PublicationCreated(db, op, k);
  }

  /** What one operation does to the history of a publication that was there before. */
  lemma HistoryStep(ops: seq<Op>, k: nat)
    requires ops != [] && k in Reach(ops[..|ops| - 1]).publications
    ensures var earlier, op := ops[..|ops| - 1], ops[|ops| - 1];
            var q, q' := Reach(earlier).publications[k], PublicationAfter(Reach(earlier), op, k);
            && k in Reach(ops).publications && Reach(ops).publications[k] == q'
            && History(ops, k) == if q.state == q'.state then History(earlier, k)
                                  else History(earlier, k) + [Change(q.state, q'.state, q'.reason, q'.actor)]
  {
    PublicationAfterStep(Reach(ops[..|ops| - 1]), ops[|ops| - 1], k);
  }

  /** Between transitions nothing about a publication changes. */
  lemma NothingElseChanges(db: Db, op: Op, k: nat)
    requires k in db.publications
    ensures PublicationAfter(db, op, k).state == db.publications[k].state ==>
      PublicationAfter(db, op, k) == db.publications[k]
  {
  }

  /**
   In every reachable state a publication carries the state, reason and actor of its latest
   change, and before any change it is the row that was inserted.
   */
  lemma {:induction false} RowIsLatestChange(ops: seq<Op>, k: nat)
    requires k in Reach(ops).publications
    ensures var q, h := Reach(ops).publications[k], History(ops, k);
            if h == [] then InsertPublication(k, q) in ops
            else
              var latest := h[|h| - 1];
              q.state == latest.to && q.reason == latest.reason && q.actor == latest.actor
  {
    assert ops != [];
    var earlier, op := ops[..|ops| - 1], ops[|ops| - 1];
    if k in Reach(earlier).publications {
      RowIsLatestChange(earlier, k);
      HistoryStep(ops, k);
      NothingElseChanges(Reach(earlier), op, k);
    } else {
      InsertedNow(Reach(earlier), op, k);
      LogIsHistory(earlier, k);
    }
  }

  lemma InsertedNow(db: Db, op: Op, k: nat)
    requires k !in db.publications && k in Exec(db, op).publications
    ensures op == InsertPublication(k, Exec(db, op).publications[k])
  {
  }
}
