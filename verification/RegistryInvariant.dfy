/**
 What holds in every reachable registry state, and the proof that every committed row
 operation keeps it. No single trigger carries the invariant: each rule describes the
 rows of one table by the rows of others.
 */
module RegistryInvariant {
  import opened Common
  import opened Lifecycle
  import opened RegistrySchema

  /** Where an event starts; the creation event starts where it ends. */
  function Source(e: Event): State {
    if e.from.Some? then e.from.value else e.to
  }

  /**
   The log of one publication beside its state: it opens with the one creation event;
   every later event is a transition; the newest event is pending (the state is its
   source) or applied (the state is its target), and the log before it fits its source.
   */
  predicate LogRow(log: seq<Event>, state: State) {
    if log == [] then state.Draft?
    else
      var init, e := log[..|log| - 1], log[|log| - 1];
      if e.from.None? then init == [] && e.to.Draft? && state.Draft?
      else
        && init != [] && LogRow(init, e.from.value)
        && Transition(e.from.value, e.to) && state in {e.from.value, e.to}
  }

  datatype Rule =
    | RevisionsHaveZones | FilesHavePackages | EpisodesHaveIncidents
    | PackagesVerified
    | PublicationsBacked | PreviewsRanked | OneActivePerZone | LogsFit | EventsHavePublications
    | OneCurrentEpisode | ObservationsCoherent | LegacyCoherent
    | AssetsBacked | OneAssetPerFile
    | ManifestsOwned | ManifestsBacked | OneCurrentManifest
    | ShotsBacked | ShotsOnce

  predicate Holds(db: Db, rule: Rule) {
    match rule
    case RevisionsHaveZones => RevisionRows(db.zones, db.revisions)
    case FilesHavePackages => FileRows(db.packages, db.files)
    case EpisodesHaveIncidents => EpisodeRows(db.incidents, db.episodes)
    case PackagesVerified => PackageRows(db.revisions, db.packages)
    case PublicationsBacked => PublicationRows(db.zones, db.revisions, db.packages, db.publications)
    case PreviewsRanked => RankedRows(db.packages, db.publications)
    case OneActivePerZone => OneActive(db.publications)
    case LogsFit => LogRows(db.publications, db.events)
    case EventsHavePublications => EventRows(db.publications, db.events)
    case OneCurrentEpisode => OneCurrent(db.episodes)
    case ObservationsCoherent => ObservationRows(db.episodes, db.observations)
    case LegacyCoherent => LegacyRows(db.episodes, db.assets)
    case AssetsBacked => AssetRows(db.revisions, db.packages, db.files, db.assets)
    case OneAssetPerFile => FileOnce(db.assets)
    case ManifestsOwned => OwnedRows(db.episodes, db.manifests)
    case ManifestsBacked => SpatialRows(db.packages, db.assets, db.manifests)
    case OneCurrentManifest => OneCurrentOf(db.manifests)
    case ShotsBacked => ShotRows(db.assets, db.manifests, db.shots)
    case ShotsOnce => ShotOnce(db.incidents, db.shots)
  }

  ghost predicate Inv(db: Db) {
    forall rule :: Holds(db, rule)
  }

  predicate RevisionRows(zones: set<nat>, revisions: Revisions) {
    forall k :: k in revisions ==> revisions[k] in zones
  }

  predicate FileRows(packages: Packages, files: Files) {
    forall k :: k in files ==> files[k].package in packages
  }

  predicate EpisodeRows(incidents: set<nat>, episodes: Episodes) {
    forall k :: k in episodes ==> episodes[k].incident in incidents
  }

  predicate PackageRows(revisions: Revisions, packages: Packages) {
    forall k :: k in packages ==> PackageRow(revisions, packages[k])
  }

  predicate PublicationRows(zones: set<nat>, revisions: Revisions, packages: Packages, publications: Publications) {
    forall k :: k in publications ==> PublicationRow(zones, revisions, packages, publications[k])
  }

  /** A publication that is previewable, published or withdrawn is never ahead of its package. */
  predicate RankedRows(packages: Packages, publications: Publications) {
    forall k :: k in publications && 2 <= Rank(publications[k].state) <= 3 ==>
      publications[k].package in packages
      && Rank(publications[k].state) <= Rank(packages[publications[k].package].state)
  }

  predicate OneActive(publications: Publications) {
    forall a, b :: a in publications && b in publications && a != b && publications[a].active && publications[b].active
                   ==> publications[a].zone != publications[b].zone
  }

  predicate LogRows(publications: Publications, events: seq<Event>) {
    forall k :: k in publications ==> LogRow(LogOf(events, k), publications[k].state)
  }

  predicate EventRows(publications: Publications, events: seq<Event>) {
    forall i :: 0 <= i < |events| ==> events[i].publication in publications
  }

  predicate OneCurrent(episodes: Episodes) {
    forall a, b :: a in episodes && b in episodes && a != b && episodes[a].current && episodes[b].current
                   ==> episodes[a].incident != episodes[b].incident
  }

  predicate ObservationRows(episodes: Episodes, observations: map<nat, Observation>) {
    forall k :: k in observations ==> ObservationRow(episodes, observations[k])
  }

  predicate LegacyRows(episodes: Episodes, assets: Assets) {
    forall k :: k in assets ==> LegacyRow(episodes, assets[k])
  }

  predicate AssetRows(revisions: Revisions, packages: Packages, files: Files, assets: Assets) {
    forall k :: k in assets ==> AssetRow(revisions, packages, files, assets[k])
  }

  predicate FileOnce(assets: Assets) {
    forall a, b :: a in assets && b in assets && a != b && assets[a].file.Some? ==> assets[a].file != assets[b].file
  }

  predicate OwnedRows(episodes: Episodes, manifests: Manifests) {
    forall k :: k in manifests ==> EpisodeOf(episodes, manifests[k].episode, manifests[k].incident)
  }

  predicate SpatialRows(packages: Packages, assets: Assets, manifests: Manifests) {
    forall k :: k in manifests ==> SpatialRow(packages, assets, manifests[k])
  }

  predicate OneCurrentOf(manifests: Manifests) {
    forall a, b :: a in manifests && b in manifests && a != b && manifests[a].current && manifests[b].current
                   ==> manifests[a].incident != manifests[b].incident
  }

  predicate ShotRows(assets: Assets, manifests: Manifests, shots: map<nat, ArchiveShot>) {
    forall k :: k in shots ==> ShotRow(assets, manifests, shots[k])
  }

  predicate ShotOnce(incidents: set<nat>, shots: map<nat, ArchiveShot>) {
    && (forall k :: k in shots ==> shots[k].incident in incidents)
    && forall a, b :: a in shots && b in shots && a != b
                      ==> shots[a].incident != shots[b].incident && shots[a].manifest != shots[b].manifest
  }

  // ---- Every committed operation keeps every rule ----

  /** The log of a publication holds its events and nothing else. */
  lemma {:induction false} LogOfMembers(events: seq<Event>, k: nat)
    ensures forall e :: e in LogOf(events, k) <==> e in events && e.publication == k
    ensures (forall e :: e in events ==> e.publication != k) ==> LogOf(events, k) == []
  {
    if events != [] {
      var init := events[..|events| - 1];
      LogOfMembers(init, k);
      assert events == init + [events[|events| - 1]];
    }
  }

  lemma KeptByZone(db: Db, op: Op)
    requires Inv(db) && Commits(db, op)
    requires op.InsertZone? || op.DeleteZone? || op.InsertRevision?
    ensures Inv(Result(db, op))
  {
    forall rule ensures Holds(Result(db, op), rule) {
      assert Holds(db, rule);
    }
  }

  lemma KeptByIncident(db: Db, op: Op)
    requires Inv(db) && Commits(db, op)
    requires op.InsertIncident? || op.DeleteIncident?
    ensures Inv(Result(db, op))
  {
    forall rule ensures Holds(Result(db, op), rule) {
      assert Holds(db, rule);
    }
  }

  lemma KeptByPackageInsert(db: Db, op: Op)
    requires Inv(db) && Commits(db, op)
    requires op.InsertPackage?
    ensures Inv(Result(db, op))
  {
    forall rule ensures Holds(Result(db, op), rule) {
      assert Holds(db, rule);
    }
  }

  lemma KeptByFile(db: Db, op: Op)
    requires Inv(db) && Commits(db, op)
    requires op.InsertFile?
    ensures Inv(Result(db, op))
  {
    forall rule ensures Holds(Result(db, op), rule) {
      assert Holds(db, rule);
    }
  }

  lemma KeptByPackageUpdate(db: Db, op: Op)
    requires Inv(db) && Commits(db, op)
    requires op.UpdatePackage?
    ensures Inv(Result(db, op))
  {
    forall rule ensures Holds(Result(db, op), rule) {
      assert Holds(db, rule);
    }
  }

  lemma KeptByPublicationInsert(db: Db, op: Op)
    requires Inv(db) && Commits(db, op)
    requires op.InsertPublication?
    ensures Inv(Result(db, op))
  {
    assert Holds(db, EventsHavePublications);
    LogOfMembers(db.events, op.id);
    assert LogOf(db.events, op.id) == [];
    forall rule ensures Holds(Result(db, op), rule) {
      assert Holds(db, rule);
    }
  }

  /** The rules that an update of a publication could break. */
  const PUBLICATION_RULES := {PublicationsBacked, PreviewsRanked, OneActivePerZone}

  lemma PublicationRuleKept(db: Db, op: Op, rule: Rule)
    requires Holds(db, rule) && Commits(db, op)
    requires op.UpdatePublication? && rule in PUBLICATION_RULES
    ensures Holds(Result(db, op), rule)
  {
  }

  lemma LogRuleKept(db: Db, op: Op)
    requires Holds(db, LogsFit) && Commits(db, op) && op.UpdatePublication?
    ensures Holds(Result(db, op), LogsFit)
  {
  }

  lemma KeptByPublicationUpdate(db: Db, op: Op)
    requires Inv(db) && Commits(db, op)
    requires op.UpdatePublication?
    ensures Inv(Result(db, op))
  {
    forall rule ensures Holds(Result(db, op), rule) {
      assert Holds(db, rule);
      if rule in PUBLICATION_RULES {
        PublicationRuleKept(db, op, rule);
      } else if rule.LogsFit? {
        LogRuleKept(db, op);
      }
    }
  }

  lemma KeptByEvent(db: Db, op: Op)
    requires Inv(db) && Commits(db, op)
    requires op.InsertEvent?
    ensures Inv(Result(db, op))
  {
    forall rule ensures Holds(Result(db, op), rule) {
      assert Holds(db, rule);
    }
  }

  lemma KeptByEpisode(db: Db, op: Op)
    requires Inv(db) && Commits(db, op)
    requires op.InsertEpisode? || op.UpdateEpisode?
    ensures Inv(Result(db, op))
  {
    forall rule ensures Holds(Result(db, op), rule) {
      assert Holds(db, rule);
    }
  }

  lemma KeptByEpisodeDelete(db: Db, op: Op)
    requires Inv(db) && Commits(db, op)
    requires op.DeleteEpisode?
    ensures Inv(Result(db, op))
  {
    forall rule ensures Holds(Result(db, op), rule) {
      assert Holds(db, rule);
    }
  }

  lemma KeptByObservation(db: Db, op: Op)
    requires Inv(db) && Commits(db, op)
    requires op.InsertObservation? || op.UpdateObservation? || op.DeleteObservation?
    ensures Inv(Result(db, op))
  {
    forall rule ensures Holds(Result(db, op), rule) {
      assert Holds(db, rule);
    }
  }

  lemma KeptByAssetInsert(db: Db, op: Op)
    requires Inv(db) && Commits(db, op)
    requires op.InsertAsset?
    ensures Inv(Result(db, op))
  {
    forall rule ensures Holds(Result(db, op), rule) {
      assert Holds(db, rule);
    }
  }

  lemma KeptByAssetUpdate(db: Db, op: Op)
    requires Inv(db) && Commits(db, op)
    requires op.UpdateAsset?
    ensures Inv(Result(db, op))
  {
    forall rule ensures Holds(Result(db, op), rule) {
      assert Holds(db, rule);
    }
  }

  lemma KeptByAssetDelete(db: Db, op: Op)
    requires Inv(db) && Commits(db, op)
    requires op.DeleteAsset?
    ensures Inv(Result(db, op))
  {
    forall rule ensures Holds(Result(db, op), rule) {
      assert Holds(db, rule);
    }
  }

  lemma KeptByManifest(db: Db, op: Op)
    requires Inv(db) && Commits(db, op)
    requires op.InsertManifest? || op.DeleteManifest?
    ensures Inv(Result(db, op))
  {
    forall rule ensures Holds(Result(db, op), rule) {
      assert Holds(db, rule);
    }
  }

  lemma KeptByManifestUpdate(db: Db, op: Op)
    requires Inv(db) && Commits(db, op)
    requires op.UpdateManifest?
    ensures Inv(Result(db, op))
  {
    forall rule ensures Holds(Result(db, op), rule) {
      assert Holds(db, rule);
    }
  }

  lemma KeptByShot(db: Db, op: Op)
    requires Inv(db) && Commits(db, op)
    requires op.InsertShot?
    ensures Inv(Result(db, op))
  {
    assert Holds(db, EpisodesHaveIncidents);
    forall rule ensures Holds(Result(db, op), rule) {
      assert Holds(db, rule);
    }
  }

  /** The rules are inductive over every row operation on every table. */
  lemma InvKept(db: Db, op: Op)
    requires Inv(db) && Commits(db, op)
    ensures Inv(Result(db, op))
  {
    if op.InsertZone? || op.DeleteZone? || op.InsertRevision? {
      KeptByZone(db, op);
    } else if op.InsertIncident? || op.DeleteIncident? {
      KeptByIncident(db, op);
    } else if op.InsertPackage? {
      KeptByPackageInsert(db, op);
    } else if op.InsertFile? {
      KeptByFile(db, op);
    } else if op.UpdatePackage? {
      KeptByPackageUpdate(db, op);
    } else if op.InsertPublication? {
      KeptByPublicationInsert(db, op);
    } else if op.UpdatePublication? {
      KeptByPublicationUpdate(db, op);
    } else if op.InsertEvent? {
      KeptByEvent(db, op);
    } else if op.InsertEpisode? || op.UpdateEpisode? {
      KeptByEpisode(db, op);
    } else if op.DeleteEpisode? {
      KeptByEpisodeDelete(db, op);
    } else if op.InsertObservation? || op.UpdateObservation? || op.DeleteObservation? {
      KeptByObservation(db, op);
    } else if op.InsertAsset? {
      KeptByAssetInsert(db, op);
    } else if op.UpdateAsset? {
      KeptByAssetUpdate(db, op);
    } else if op.DeleteAsset? {
      KeptByAssetDelete(db, op);
    } else if op.InsertManifest? || op.DeleteManifest? {
      KeptByManifest(db, op);
    } else if op.UpdateManifest? {
      KeptByManifestUpdate(db, op);
    } else if op.InsertShot? {
      KeptByShot(db, op);
    }
  }
}
