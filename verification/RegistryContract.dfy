/**
 Which writes go through, operation by operation, in the words of the rows alone: what a
 caller can look up before the write. In a registry that satisfies its invariant each
 condition is necessary and sufficient.
 */
module RegistryContract {
  import opened Common
  import opened Lifecycle
  import opened RegistrySchema
  import opened RegistryInvariant
  import opened RegistryRuns

  // ---- What a write does ----

  predicate Assigns<T(==)>(before: T, column: Column<T>, after: T) {
    match column
    case Kept => after == before
    case Set(value) => after == value
  }

  /** An UPDATE assigns the columns of its SET list and keeps the others. */
  lemma UpdatesAssignTheirColumns(
      p: Package, pc: PackageChange, q: Publication, qc: PublicationChange, e: Episode, ec: EpisodeChange)
    ensures var n := NewPackage(p, pc);
            && Assigns(p.state, pc.state, n.state) && Assigns(p.report, pc.report, n.report)
            && Assigns(p.verifiedAt, pc.verifiedAt, n.verifiedAt) && Assigns(p.rev, pc.rev, n.rev)
    ensures var n := NewPublication(q, qc);
            && Assigns(q.state, qc.state, n.state) && Assigns(q.active, qc.active, n.active)
            && Assigns(q.reason, qc.reason, n.reason) && Assigns(q.actor, qc.actor, n.actor)
            && n.zone == q.zone && n.rev == q.rev && n.package == q.package
    ensures var n := NewEpisode(e, ec);
            && Assigns(e.incident, ec.incident, n.incident) && Assigns(e.current, ec.current, n.current)
            && Assigns(e.closed, ec.closed, n.closed)
  {
  }

  lemma UpdatesAssignTheirLinks(
      o: Observation, oc: ObservationChange, a: Asset, ac: AssetChange, m: Manifest, mc: ManifestChange)
    ensures var n := NewObservation(o, oc);
            && Assigns(o.attached.incident, oc.attached.incident, n.attached.incident)
            && Assigns(o.attached.episode, oc.attached.episode, n.attached.episode)
            && Assigns(o.proposed.incident, oc.proposed.incident, n.proposed.incident)
            && Assigns(o.proposed.episode, oc.proposed.episode, n.proposed.episode)
    ensures var n := NewAsset(a, ac);
            && Assigns(a.legacy.incident, ac.legacy.incident, n.legacy.incident)
            && Assigns(a.legacy.episode, ac.legacy.episode, n.legacy.episode)
            && Assigns(a.frame, ac.frame, n.frame) && Assigns(a.rev, ac.rev, n.rev)
            && Assigns(a.file, ac.file, n.file) && Assigns(a.sha, ac.sha, n.sha)
            && Assigns(a.dormant, ac.dormant, n.dormant)
    ensures var n := NewManifest(m, mc);
            && Assigns(m.incident, mc.incident, n.incident) && Assigns(m.episode, mc.episode, n.episode)
            && Assigns(m.asset, mc.asset, n.asset) && Assigns(m.rev, mc.rev, n.rev)
            && Assigns(m.package, mc.package, n.package) && Assigns(m.current, mc.current, n.current)
  {
  }

  /** A committed write changes one row of one table, or appends one event. */
  lemma InsertsAddTheirRow(db: Db, op: Op)
    requires Commits(db, op)
    ensures op.InsertZone? ==> Result(db, op) == db.(zones := db.zones + {op.id})
    ensures op.InsertIncident? ==> Result(db, op) == db.(incidents := db.incidents + {op.id})
    ensures op.InsertRevision? ==> Result(db, op) == db.(revisions := db.revisions[op.id := op.zone])
    ensures op.InsertPackage? ==> Result(db, op) == db.(packages := db.packages[op.id := op.package])
    ensures op.InsertFile? ==> Result(db, op) == db.(files := db.files[op.id := op.file])
    ensures op.InsertPublication? ==> Result(db, op) == db.(publications := db.publications[op.id := op.publication])
    ensures op.InsertEvent? ==> Result(db, op) == db.(events := db.events + [op.event])
    ensures op.InsertEpisode? ==> Result(db, op) == db.(episodes := db.episodes[op.id := op.episode])
    ensures op.InsertObservation? ==> Result(db, op) == db.(observations := db.observations[op.id := op.observation])
    ensures op.InsertAsset? ==> Result(db, op) == db.(assets := db.assets[op.id := op.asset])
    ensures op.InsertManifest? ==> Result(db, op) == db.(manifests := db.manifests[op.id := op.manifest])
    ensures op.InsertShot? ==> Result(db, op) == db.(shots := db.shots[op.id := op.shot])
  {
  }

  lemma UpdatesReplaceTheirRow(db: Db, op: Op)
    requires Commits(db, op)
    ensures op.UpdatePackage? ==>
              && op.id in db.packages
              && var row := NewPackage(db.packages[op.id], op.packageChange);
              Result(db, op) == db.(packages := db.packages[op.id := row])
    ensures op.UpdatePublication? ==>
              && op.id in db.publications
              && var row := NewPublication(db.publications[op.id], op.publicationChange);
              Result(db, op) == db.(publications := db.publications[op.id := row])
    ensures op.UpdateEpisode? ==>
              && op.id in db.episodes
              && var row := NewEpisode(db.episodes[op.id], op.episodeChange);
              Result(db, op) == db.(episodes := db.episodes[op.id := row])
    ensures op.UpdateObservation? ==>
              && op.id in db.observations
              && var row := NewObservation(db.observations[op.id], op.observationChange);
              Result(db, op) == db.(observations := db.observations[op.id := row])
    ensures op.UpdateAsset? ==>
              && op.id in db.assets
              && var row := NewAsset(db.assets[op.id], op.assetChange);
              Result(db, op) == db.(assets := db.assets[op.id := row])
    ensures op.UpdateManifest? ==>
              && op.id in db.manifests
              && var row := NewManifest(db.manifests[op.id], op.manifestChange);
              Result(db, op) == db.(manifests := db.manifests[op.id := row])
  {
  }

  lemma DeletesRemoveTheirRow(db: Db, op: Op)
    requires Commits(db, op)
    ensures op.DeleteZone? ==> Result(db, op) == db.(zones := db.zones - {op.id})
    ensures op.DeleteIncident? ==> Result(db, op) == db.(incidents := db.incidents - {op.id})
    ensures op.DeleteEpisode? ==> Result(db, op) == db.(episodes := db.episodes - {op.id})
    ensures op.DeleteObservation? ==> Result(db, op) == db.(observations := db.observations - {op.id})
    ensures op.DeleteAsset? ==> Result(db, op) == db.(assets := db.assets - {op.id})
    ensures op.DeleteManifest? ==> Result(db, op) == db.(manifests := db.manifests - {op.id})
  {
  }

  // ---- Packages ----

  predicate PassedReport(r: Report) {
    r.Object? && r.status == Some("passed")
  }

  /** Only unverified drafts without a revision are inserted. */
  lemma PackageIsInsertedExactlyWhen(db: Db, k: nat, p: Package)
    ensures Commits(db, InsertPackage(k, p)) <==>
            k !in db.packages && p.state == Draft && p.rev == None && p.verifiedAt == None
  {
  }

  /** A draft becomes verified exactly with a passed report and a timestamp, and perhaps an existing revision. */
  lemma PackageIsVerifiedExactlyWhen(db: Db, k: nat, report: Report, at: Option<int>, rev: Option<nat>)
    requires Inv(db) && k in db.packages && db.packages[k].state == Draft
    ensures Commits(db, UpdatePackage(k, PackageChange(false, Set(Verified), Set(report), Set(at), Set(rev)))) <==>
            PassedReport(report) && at.Some? && (rev.Some? ==> rev.value in db.revisions)
  {
    assert Holds(db, PackagesVerified);
  }

  /** A revision is attached exactly once, to a package that is verified, and it must exist. */
  lemma RevisionIsAttachedExactlyWhen(db: Db, k: nat, rev: nat)
    requires Inv(db) && k in db.packages
    ensures Commits(db, UpdatePackage(k, PackageChange(false, Kept, Kept, Kept, Set(Some(rev))))) <==>
            && rev in db.revisions && db.packages[k].state != Draft
            && (db.packages[k].rev == None || db.packages[k].rev == Some(rev))
  {
    assert Holds(db, PackagesVerified);
  }

  /**
   A state change alone goes through exactly when it is a transition, a preview has its
   revision, and a package that is withdrawn, revoked or archived has no active publication.
   A draft cannot change state alone: it needs its verification.
   */
  lemma PackageStateChangesExactlyWhen(db: Db, k: nat, to: State)
    requires Inv(db) && k in db.packages && to != db.packages[k].state
    ensures Commits(db, UpdatePackage(k, PackageChange(false, Set(to), Kept, Kept, Kept))) <==>
            && Transition(db.packages[k].state, to)
            && db.packages[k].state != Draft
            && (to == Previewable ==> db.packages[k].rev.Some?)
            && (to == Withdrawn || to == Revoked || to == Archived ==>
                  forall q :: q in db.publications && db.publications[q].package == k ==> !db.publications[q].active)
  {
    assert Holds(db, PackagesVerified);
  }

  /** A package whose publications were all withdrawn can be withdrawn. */
  lemma WithdrawnPublicationReleasesItsPackage(db: Db, k: nat)
    requires Inv(db) && k in db.packages && db.packages[k].state == Published
    requires forall q :: q in db.publications && db.publications[q].package == k ==>
               db.publications[q].state != Published
    ensures Commits(db, UpdatePackage(k, PackageChange(false, Set(Withdrawn), Kept, Kept, Kept)))
  {
    assert Holds(db, PublicationsBacked);
    PackageStateChangesExactlyWhen(db, k, Withdrawn);
  }

  /** Identity never changes, and what was verified is not verified again. */
  lemma PackageKeeps(db: Db, k: nat, c: PackageChange)
    requires Commits(db, UpdatePackage(k, c))
    ensures !c.identity && k in db.packages
    ensures var o, n := db.packages[k], NewPackage(db.packages[k], c);
            && (o.verifiedAt.Some? ==> n.verifiedAt == o.verifiedAt && n.report == o.report)
            && (o.rev.Some? ==> n.rev == o.rev)
            && (n.state == o.state || Transition(o.state, n.state))
  {
  }

  // ---- Publications and their events ----

  /** A publication starts as an inactive draft of a package that is verified or published, for its own zone. */
  lemma PublicationIsInsertedExactlyWhen(db: Db, k: nat, q: Publication)
    requires Inv(db)
    ensures Commits(db, InsertPublication(k, q)) <==>
            && k !in db.publications && q.state == Draft && !q.active
            && q.rev in db.revisions && db.revisions[q.rev] == q.zone
            && q.package in db.packages && db.packages[q.package].rev == Some(q.rev)
            && (db.packages[q.package].state == Verified || db.packages[q.package].state == Previewable
                || db.packages[q.package].state == Published)
  {
    assert Holds(db, RevisionsHaveZones);
  }

  /** The first event of a publication records its creation; every other starts at its state. */
  lemma EventIsRecordedExactlyWhen(db: Db, e: Event)
    requires Inv(db)
    ensures Commits(db, InsertEvent(e)) <==>
            && e.publication in db.publications
            && var known := exists i :: 0 <= i < |db.events| && db.events[i].publication == e.publication;
            if e.from == None then !known && e.to == Draft && db.publications[e.publication].state == Draft
            else known && db.publications[e.publication].state == e.from.value && Transition(e.from.value, e.to)
  {
    LogOfMembers(db.events, e.publication);
    var log := LogOf(db.events, e.publication);
    if log != [] {
      assert log[0] in log;
      var i :| 0 <= i < |db.events| && db.events[i] == log[0];
    }
  }

  /** Event `i` is the newest one of the publication. */
  predicate Newest(events: seq<Event>, k: nat, i: nat) {
    && i < |events| && events[i].publication == k
    && forall j | i < j < |events| :: events[j].publication != k
  }

  lemma {:induction false} NewestIsLast(events: seq<Event>, k: nat, i: nat)
    requires Newest(events, k, i)
    ensures LogOf(events, k) != [] && LogOf(events, k)[|LogOf(events, k)| - 1] == events[i]
  {
    if i < |events| - 1 {
      NewestIsLast(events[..|events| - 1], k, i);
    }
  }

  lemma {:induction false} SomeEventIsNewest(events: seq<Event>, k: nat) returns (i: nat)
    requires LogOf(events, k) != []
    ensures Newest(events, k, i)
  {
    if events[|events| - 1].publication == k {
      i := |events| - 1;
    } else {
      i := SomeEventIsNewest(events[..|events| - 1], k);
    }
  }

  /** The newest event of the publication records this very change. */
  predicate Recorded(events: seq<Event>, k: nat, o: Publication, n: Publication) {
    exists i :: 0 <= i < |events| && Newest(events, k, i)
                && events[i].from == Some(o.state) && events[i].to == n.state
                && events[i].reason == n.reason && events[i].actor == n.actor
  }

  lemma RecordedIsLast(events: seq<Event>, k: nat, o: Publication, n: Publication)
    ensures var log := LogOf(events, k);
            Recorded(events, k, o, n) <==>
            log != [] && log[|log| - 1] == Event(k, Some(o.state), n.state, n.reason, n.actor)
  {
    if LogOf(events, k) != [] {
      var i := SomeEventIsNewest(events, k);
      NewestIsLast(events, k, i);
    }
    if Recorded(events, k, o, n) {
      var i: nat :| i < |events| && Newest(events, k, i)
                    && events[i].from == Some(o.state) && events[i].to == n.state
                    && events[i].reason == n.reason && events[i].actor == n.actor;
      NewestIsLast(events, k, i);
    }
  }

  /** The package and the zone are ready for the publication's next state. */
  predicate Allowed(db: Db, k: nat, to: State)
    requires k in db.publications
  {
    var q := db.publications[k];
    && q.package in db.packages
    && var p := db.packages[q.package];
    && (to == Previewable ==> p.state == Previewable || p.state == Published)
    && (to == Published ==> p.state == Published)
    && (to == Published ==>
          forall r :: r in db.publications && r != k && db.publications[r].zone == q.zone ==>
            !db.publications[r].active)
  }

  /**
   A publication is rewritten exactly when nothing changes at all, or its newest event
   records the transition that is made, with its reason and actor, the flag follows the
   state, and package and zone allow it.
   */
  lemma PublicationIsUpdatedExactlyWhen(db: Db, k: nat, c: PublicationChange)
    requires Inv(db) && k in db.publications
    ensures var o, n := db.publications[k], NewPublication(db.publications[k], c);
            Commits(db, UpdatePublication(k, c)) <==>
            && !c.identity
            && (n == o
                || (n.state != o.state && Transition(o.state, n.state) && Recorded(db.events, k, o, n)
                    && n.active == (n.state == Published) && Allowed(db, k, n.state)))
  {
    assert Holds(db, PublicationsBacked);
    RecordedIsLast(db.events, k, db.publications[k], NewPublication(db.publications[k], c));
  }

  /** Outside a transition neither reason nor actor nor anything else can be rewritten. */
  lemma ReasonAndActorAreKept(db: Db, k: nat, c: PublicationChange)
    requires Commits(db, UpdatePublication(k, c))
    requires NewPublication(db.publications[k], c).state == db.publications[k].state
    ensures NewPublication(db.publications[k], c) == db.publications[k]
  {
  }

  // ---- Places ----

  /** A zone goes exactly when no revision of it was made: revisions and their publications stay for ever. */
  lemma ZoneIsDeletedExactlyWhen(db: Db, z: nat)
    requires Inv(db)
    ensures Commits(db, DeleteZone(z)) <==>
            z in db.zones && forall r :: r in db.revisions ==> db.revisions[r] != z
  {
    assert Holds(db, PublicationsBacked);
  }

  /** An incident goes exactly when it has no episode and no capture. */
  lemma IncidentIsDeletedExactlyWhen(db: Db, i: nat)
    requires Inv(db)
    ensures Commits(db, DeleteIncident(i)) <==>
            && i in db.incidents
            && (forall e :: e in db.episodes ==> db.episodes[e].incident != i)
            && (forall s :: s in db.shots ==> db.shots[s].incident != i)
  {
    assert Holds(db, ObservationsCoherent) && Holds(db, ManifestsOwned) && Holds(db, LegacyCoherent);
  }

  /** An incident has at most one current episode, whatever is inserted. */
  lemma EpisodeIsInsertedExactlyWhen(db: Db, k: nat, e: Episode)
    ensures Commits(db, InsertEpisode(k, e)) <==>
            && k !in db.episodes && e.incident in db.incidents
            && (e.current ==>
                  forall o :: o in db.episodes && db.episodes[o].incident == e.incident ==> !db.episodes[o].current)
  {
  }

  /** An episode stays with its incident, and is current only if no other of it is. */
  lemma EpisodeIsUpdatedExactlyWhen(db: Db, k: nat, c: EpisodeChange)
    requires k in db.episodes
    ensures var o, n := db.episodes[k], NewEpisode(db.episodes[k], c);
            Commits(db, UpdateEpisode(k, c)) <==>
            && n.incident == o.incident
            && (n.current ==>
                  forall e :: e in db.episodes && e != k && db.episodes[e].incident == o.incident ==>
                    !db.episodes[e].current)
  {
  }

  /** An episode goes exactly when no observation, manifest or legacy asset links to it. */
  lemma EpisodeIsDeletedExactlyWhen(db: Db, k: nat)
    ensures Commits(db, DeleteEpisode(k)) <==>
            && k in db.episodes
            && (forall o :: o in db.observations ==>
                  db.observations[o].attached.episode != Some(k) && db.observations[o].proposed.episode != Some(k))
            && (forall m :: m in db.manifests ==> db.manifests[m].episode != k)
            && (forall a :: a in db.assets ==> db.assets[a].legacy.episode != Some(k))
  {
  }

  /** A link names an incident and one of its episodes, or neither. */
  predicate Linked(episodes: Episodes, incident: Option<nat>, episode: Option<nat>) {
    if incident == None then episode == None
    else
      && episode != None && episode.value in episodes && episodes[episode.value].incident == incident.value
  }

  lemma ObservationIsWrittenExactlyWhen(db: Db, k: nat, o: Observation, c: ObservationChange)
    ensures Commits(db, InsertObservation(k, o)) <==>
            && k !in db.observations
            && Linked(db.episodes, o.attached.incident, o.attached.episode)
            && Linked(db.episodes, o.proposed.incident, o.proposed.episode)
    ensures k in db.observations ==>
            var n := NewObservation(db.observations[k], c);
            (Commits(db, UpdateObservation(k, c)) <==>
             && Linked(db.episodes, n.attached.incident, n.attached.episode)
             && Linked(db.episodes, n.proposed.incident, n.proposed.episode))
  {
  }

  // ---- Assets ----

  /** An asset belongs to an existing revision unless it is dormant, and its file is an unused GLB of that revision. */
  predicate AssetFits(db: Db, k: nat, a: Asset) {
    && (a.rev == None ==> a.dormant) && (a.rev != None ==> a.rev.value in db.revisions)
    && (a.file != None ==>
          && a.rev != None && a.file.value in db.files && db.files[a.file.value].kind == Glb
          && db.files[a.file.value].package in db.packages
          && db.packages[db.files[a.file.value].package].rev == a.rev
          && forall b :: b in db.assets && b != k ==> db.assets[b].file != a.file)
  }

  /** Legacy provenance is whole or absent. */
  predicate LegacyFits(db: Db, a: Asset) {
    && Linked(db.episodes, a.legacy.incident, a.legacy.episode)
    && (a.legacy.incident == None ==> a.frame == NoFrame) && (a.legacy.incident != None ==> a.frame.FullFrame?)
  }

  lemma AssetIsWrittenExactlyWhen(db: Db, k: nat, a: Asset, c: AssetChange)
    ensures Commits(db, InsertAsset(k, a)) <==> k !in db.assets && LegacyFits(db, a) && AssetFits(db, k, a)
    ensures k in db.assets ==>
            var o, n := db.assets[k], NewAsset(db.assets[k], c);
            (Commits(db, UpdateAsset(k, c)) <==>
             && n.sha == o.sha && n.legacy == o.legacy && n.frame == o.frame
             && (o.rev != None ==> n.rev == o.rev) && AssetFits(db, k, n))
  {
  }

  lemma AssetIsDeletedExactlyWhen(db: Db, k: nat)
    requires Inv(db)
    ensures Commits(db, DeleteAsset(k)) <==>
            k in db.assets && forall m :: m in db.manifests ==> db.manifests[m].asset != Some(k)
  {
    assert Holds(db, ShotsBacked);
  }

  // ---- Manifests and captures ----

  /** The revision of a manifest comes with an asset or a package, and both are of that revision. */
  predicate ManifestAgrees(db: Db, m: Manifest) {
    && (m.rev == None ==> m.asset == None && m.package == None)
    && (m.rev != None ==> m.asset != None || m.package != None)
    && (m.asset != None ==> m.asset.value in db.assets && db.assets[m.asset.value].rev == m.rev)
    && (m.package != None ==> m.package.value in db.packages && db.packages[m.package.value].rev == m.rev)
  }

  /** A package is bound while it is previewable or published, beside an asset whose file is its own. */
  predicate PackageBinds(db: Db, m: Manifest) {
    m.package != None ==>
      && m.package.value in db.packages
      && (db.packages[m.package.value].state == Previewable || db.packages[m.package.value].state == Published)
      && (m.asset != None ==>
            && m.asset.value in db.assets && db.assets[m.asset.value].file != None
            && db.assets[m.asset.value].file.value in db.files
            && db.files[db.assets[m.asset.value].file.value].package == m.package.value)
  }

  predicate ManifestPlaced(db: Db, k: nat, m: Manifest) {
    && m.episode in db.episodes && db.episodes[m.episode].incident == m.incident
    && (m.current ==>
          forall o :: o in db.manifests && o != k && db.manifests[o].incident == m.incident ==>
            !db.manifests[o].current)
  }

  lemma ManifestIsInsertedExactlyWhen(db: Db, k: nat, m: Manifest)
    ensures Commits(db, InsertManifest(k, m)) <==>
            k !in db.manifests && ManifestPlaced(db, k, m) && ManifestAgrees(db, m) && PackageBinds(db, m)
  {
  }

  /** Asset and revision stay; a package that the update names is bound anew, another one stays bound. */
  lemma ManifestIsUpdatedExactlyWhen(db: Db, k: nat, c: ManifestChange)
    requires Inv(db) && k in db.manifests
    ensures var o, n := db.manifests[k], NewManifest(db.manifests[k], c);
            Commits(db, UpdateManifest(k, c)) <==>
            && n.asset == o.asset && n.rev == o.rev
            && ManifestPlaced(db, k, n) && ManifestAgrees(db, n)
            && (c.package != Kept || c.asset != Kept || c.rev != Kept ==> PackageBinds(db, n))
  {
    assert Holds(db, ManifestsBacked);
  }

  lemma ManifestIsDeletedExactlyWhen(db: Db, k: nat)
    ensures Commits(db, DeleteManifest(k)) <==>
            k in db.manifests && forall s :: s in db.shots ==> db.shots[s].manifest != k
  {
  }

  /**
   A capture is taken exactly of the current manifest of an incident whose current episode is
   closed, with its asset, revision and digest, and once per incident and manifest.
   */
  lemma CaptureIsTakenExactlyWhen(db: Db, k: nat, s: ArchiveShot)
    requires Inv(db)
    ensures Commits(db, InsertShot(k, s)) <==>
            && k !in db.shots
            && s.manifest in db.manifests
            && var m := db.manifests[s.manifest];
            && m.current && m.incident == s.incident
            && m.asset == Some(s.asset) && m.rev == Some(s.rev)
            && s.asset in db.assets && db.assets[s.asset].sha == s.assetSha
            && m.episode in db.episodes && db.episodes[m.episode].current && db.episodes[m.episode].closed
            && (forall o :: o in db.shots ==> db.shots[o].incident != s.incident)
            && (forall o :: o in db.shots ==> db.shots[o].manifest != s.manifest)
  {
    assert Holds(db, ManifestsBacked) && Holds(db, ManifestsOwned);
  }

  /** Revisions, packages, files, publications, events and captures are never rewritten or removed out of turn. */
  lemma FrozenRowsAreNeverWritten(db: Db, write: FrozenWrite, k: nat)
    ensures Exec(db, Frozen(write, k)) == db
  {
  }
}
