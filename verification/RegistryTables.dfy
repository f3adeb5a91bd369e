/**
 The registry as SQLite executes it: tables that statements update in place, guarded by
 BEFORE triggers, CHECK constraints, partial unique indexes and RESTRICT foreign keys,
 evaluated one after the other. Each method is one row operation. It returns whether the
 operation committed, and its contract is the net effect stated in RegistrySchema.
 */
module RegistryTables {
  import opened Common
  import opened Lifecycle
  import opened RegistrySchema
  import opened RegistryInvariant

  /** SQL `a = b` is TRUE; with a NULL on either side it is not. */
  predicate Equals<T(==)>(a: Option<T>, b: Option<T>) {
    a.Some? && b.Some? && a == b
  }

  /** The operation committed exactly if it is allowed, had its effect, and kept every rule. */
  ghost predicate Answers(before: Db, op: Op, committed: bool, after: Db) {
    && committed == Commits(before, op)
    && after == (if committed then Result(before, op) else before)
    && Inv(after)
  }

  class Registry {
    var zones: set<nat>
    var incidents: set<nat>
    var revisions: Revisions
    var packages: Packages
    var files: Files
    var publications: Publications
    var events: seq<Event>
    var episodes: Episodes
    var observations: map<nat, Observation>
    var assets: Assets
    var manifests: Manifests
    var shots: map<nat, ArchiveShot>

    function State(): Db
      reads this
    {
      Db(zones, incidents, revisions, packages, files, publications, events,
         episodes, observations, assets, manifests, shots)
    }

    ghost predicate Valid()
      reads this
    {
      Inv(State())
    }

    constructor ()
      ensures Valid() && State() == EMPTY
    {
      zones, incidents := {}, {};
      revisions, packages, files, publications := map[], map[], map[], map[];
      events := [];
      episodes, observations, assets, manifests, shots := map[], map[], map[], map[], map[];
    }

    // ---- Zones, incidents, revisions, package files ----

    method InsertZone(id: nat) returns (committed: bool)
      requires Valid()
      modifies this
      ensures Answers(old(State()), Op.InsertZone(id), committed, State())
    {
      committed := id !in zones;
      if committed {
        InvKept(State(), Op.InsertZone(id));
        zones := zones + {id};
      }
    }

    method DeleteZone(id: nat) returns (committed: bool)
      requires Valid()
      modifies this
      ensures Answers(old(State()), Op.DeleteZone(id), committed, State())
    {
      committed := id in zones && !ZoneReferenced(State(), id);
      if committed {
        InvKept(State(), Op.DeleteZone(id));
        zones := zones - {id};
      }
    }

    method InsertIncident(id: nat) returns (committed: bool)
      requires Valid()
      modifies this
      ensures Answers(old(State()), Op.InsertIncident(id), committed, State())
    {
      committed := id !in incidents;
      if committed {
        InvKept(State(), Op.InsertIncident(id));
        incidents := incidents + {id};
      }
    }

    method DeleteIncident(id: nat) returns (committed: bool)
      requires Valid()
      modifies this
      ensures Answers(old(State()), Op.DeleteIncident(id), committed, State())
    {
      committed := id in incidents && !IncidentReferenced(State(), id);
      if committed {
        InvKept(State(), Op.DeleteIncident(id));
        incidents := incidents - {id};
      }
    }

    method InsertRevision(id: nat, zone: nat) returns (committed: bool)
      requires Valid()
      modifies this
      ensures Answers(old(State()), Op.InsertRevision(id, zone), committed, State())
    {
      committed := id !in revisions && zone in zones;
      if committed {
        InvKept(State(), Op.InsertRevision(id, zone));
        revisions := revisions[id := zone];
      }
    }

    method InsertFile(id: nat, f: PackageFile) returns (committed: bool)
      requires Valid()
      modifies this
      ensures Answers(old(State()), Op.InsertFile(id, f), committed, State())
    {
      committed := id !in files && f.package in packages;
      if committed {
        InvKept(State(), Op.InsertFile(id, f));
        files := files[id := f];
      }
    }

    /** Revisions, files, packages, publications, events and captures have triggers that abort outright. */
    method WriteFrozen(write: FrozenWrite, id: nat) returns (committed: bool)
      requires Valid()
      ensures Answers(State(), Op.Frozen(write, id), committed, State())
    {
      committed := false;
    }

    // ---- Packages ----

    method InsertPackage(id: nat, p: Package) returns (committed: bool)
      requires Valid()
      modifies this
      ensures Answers(old(State()), Op.InsertPackage(id, p), committed, State())
    {
      // spatial_package_initial_state_draft
      committed := id !in packages && !(!p.state.Draft? || p.rev.Some? || p.verifiedAt.Some?);
      if committed {
        InvKept(State(), Op.InsertPackage(id, p));
        packages := packages[id := p];
      }
    }

    method PackageUpdatePasses(id: nat, c: PackageChange) returns (passes: bool)
      requires Valid()
      ensures passes <==> PackageUpdate(State(), id, c)
    {
      if id !in packages { return false; }
      assert Holds(State(), PackagesVerified);
      var o := packages[id];
      var n := NewPackage(o, c);
      // spatial_package_identity_immutable
      if c.identity { return false; }
      // spatial_package_revision_link_once
      if c.rev.Set? && o.rev.Some? && n.rev != o.rev { return false; }
      // spatial_package_verification_immutable, spatial_package_verification_requires_transition
      if c.report.Set? || c.verifiedAt.Set? {
        if o.verifiedAt.Some? && (n.report != o.report || n.verifiedAt != o.verifiedAt) { return false; }
        if o.state.Draft? && n.state.Draft? && n.verifiedAt.Some? { return false; }
      }
      // spatial_package_state_transition, spatial_package_no_withdraw_while_active
      if c.state.Set? && n.state != o.state {
        if !Transition(o.state, n.state) { return false; }
        if n.state.Verified? && n.verifiedAt.None? { return false; }
        if n.state.Verified? && !Passed(n.report) { return false; }
        if n.state in {Previewable, Published} && n.rev.None? { return false; }
        if n.state in {Withdrawn, Revoked, Archived} && ActivelyPublished(State(), id) { return false; }
      }
      // ck_spatial_package_verified_states_timestamp, ck_spatial_package_revision_requires_validated_state
      if !n.state.Draft? && n.verifiedAt.None? { return false; }
      if n.rev.Some? && n.state.Draft? { return false; }
      // foreign key
      passes := n.rev.Some? ==> n.rev.value in revisions;
    }

    method UpdatePackage(id: nat, c: PackageChange) returns (committed: bool)
      requires Valid()
      modifies this
      ensures Answers(old(State()), Op.UpdatePackage(id, c), committed, State())
    {
      committed := PackageUpdatePasses(id, c);
      if committed {
        InvKept(State(), Op.UpdatePackage(id, c));
        packages := packages[id := NewPackage(packages[id], c)];
      }
    }

    // ---- Publications and their events ----

    method PublicationInsertPasses(id: nat, q: Publication) returns (passes: bool)
      requires Valid()
      ensures passes <==> PublicationInsert(State(), id, q)
    {
      assert Holds(State(), PackagesVerified) && Holds(State(), RevisionsHaveZones);
      if id in publications { return false; }
      // zone_publication_insert_valid
      if !q.state.Draft? || q.active { return false; }
      if !(q.rev in revisions && revisions[q.rev] == q.zone) { return false; }
      if !(q.package in packages
           && Equals(packages[q.package].rev, Some(q.rev))
           && packages[q.package].state in {Verified, Previewable, Published}
           && packages[q.package].verifiedAt.Some?) { return false; }
      // ck_zone_publication_active_state, uq_zone_publication_one_active
      if !((q.active && q.state.Published?) || (!q.active && !q.state.Published?)) { return false; }
      if q.active && OtherActive(State(), id, q.zone) { return false; }
      // foreign keys
      passes := q.zone in zones;
    }

    method InsertPublication(id: nat, q: Publication) returns (committed: bool)
      requires Valid()
      modifies this
      ensures Answers(old(State()), Op.InsertPublication(id, q), committed, State())
    {
      committed := PublicationInsertPasses(id, q);
      if committed {
        InvKept(State(), Op.InsertPublication(id, q));
        publications := publications[id := q];
      }
    }

    method PublicationUpdatePasses(id: nat, c: PublicationChange) returns (passes: bool)
      requires Valid()
      ensures passes <==> PublicationUpdate(State(), id, c)
    {
      if id !in publications { return false; }
      assert Holds(State(), PublicationsBacked);
      assert Holds(State(), OneActivePerZone);
      var o := publications[id];
      var n := NewPublication(o, c);
      var log := LogOf(events, id);
      LogOfMembers(events, id);
      // zone_publication_identity_immutable
      if c.identity { return false; }
      if c.state.Set? && n.state != o.state {
        // zone_publication_state_transition
        if !Transition(o.state, n.state) { return false; }
        if n.state.Previewable?
           && !(n.package in packages && Equals(packages[n.package].rev, Some(n.rev))
                && packages[n.package].state in {Previewable, Published}) { return false; }
        if n.state.Published?
           && !(n.package in packages && Equals(packages[n.package].rev, Some(n.rev))
                && packages[n.package].state.Published?) { return false; }
        if n.state.Published? && !n.active { return false; }
        if !n.state.Published? && n.active { return false; }
        // zone_publication_state_update_requires_event
        if log == [] { return false; }
        var newest := log[|log| - 1];
        assert newest in log;
        if !(newest.from == Some(o.state) && newest.to == n.state
             && newest.actor == n.actor && newest.reason == n.reason) { return false; }
      }
      // zone_publication_reason_actor_requires_transition
      if (c.reason.Set? || c.actor.Set?) && n.state == o.state && (n.reason != o.reason || n.actor != o.actor) {
        return false;
      }
      // ck_zone_publication_active_state, uq_zone_publication_one_active
      if !((n.active && n.state.Published?) || (!n.active && !n.state.Published?)) { return false; }
      passes := n.active ==> !OtherActive(State(), id, n.zone);
    }

    method UpdatePublication(id: nat, c: PublicationChange) returns (committed: bool)
      requires Valid()
      modifies this
      ensures Answers(old(State()), Op.UpdatePublication(id, c), committed, State())
    {
      committed := PublicationUpdatePasses(id, c);
      if committed {
        InvKept(State(), Op.UpdatePublication(id, c));
        publications := publications[id := NewPublication(publications[id], c)];
      }
    }

    method EventInsertPasses(e: Event) returns (passes: bool)
      requires Valid()
      ensures passes <==> EventInsert(State(), e)
    {
      assert Holds(State(), LogsFit);
      assert Holds(State(), EventsHavePublications);
      var log := LogOf(events, e.publication);
      LogOfMembers(events, e.publication);
      // zone_publication_event_transition_valid
      if e.from.None?
         && (!e.to.Draft?
             || !(e.publication in publications && publications[e.publication].state.Draft?)
             || log != []) { return false; }
      if e.from.Some? {
        CreationEvent(log, if e.publication in publications then publications[e.publication].state else Draft);
        if !exists i :: 0 <= i < |log| && log[i].from.None? && log[i].to.Draft? { return false; }
        if !(e.publication in publications && publications[e.publication].state == e.from.value) { return false; }
        if !Transition(e.from.value, e.to) { return false; }
      }
      // foreign key
      passes := e.publication in publications;
    }

    method InsertEvent(e: Event) returns (committed: bool)
      requires Valid()
      modifies this
      ensures Answers(old(State()), Op.InsertEvent(e), committed, State())
    {
      committed := EventInsertPasses(e);
      if committed {
        InvKept(State(), Op.InsertEvent(e));
        events := events + [e];
      }
    }

    // ---- Episodes and observations ----

    method InsertEpisode(id: nat, e: Episode) returns (committed: bool)
      requires Valid()
      modifies this
      ensures Answers(old(State()), Op.InsertEpisode(id, e), committed, State())
    {
      // uq_episode_one_current, foreign key
      committed := id !in episodes && e.incident in incidents
                   && (e.current ==> !OtherCurrentEpisode(State(), id, e.incident));
      if committed {
        InvKept(State(), Op.InsertEpisode(id, e));
        episodes := episodes[id := e];
      }
    }

    method EpisodeUpdatePasses(id: nat, c: EpisodeChange) returns (passes: bool)
      requires Valid()
      ensures passes <==> EpisodeUpdate(State(), id, c)
    {
      if id !in episodes { return false; }
      var n := NewEpisode(episodes[id], c);
      // episode_incident_immutable
      if c.incident.Set? && n.incident != episodes[id].incident { return false; }
      // uq_episode_one_current
      passes := n.current ==> !OtherCurrentEpisode(State(), id, n.incident);
    }

    method UpdateEpisode(id: nat, c: EpisodeChange) returns (committed: bool)
      requires Valid()
      modifies this
      ensures Answers(old(State()), Op.UpdateEpisode(id, c), committed, State())
    {
      committed := EpisodeUpdatePasses(id, c);
      if committed {
        InvKept(State(), Op.UpdateEpisode(id, c));
        episodes := episodes[id := NewEpisode(episodes[id], c)];
      }
    }

    method DeleteEpisode(id: nat) returns (committed: bool)
      requires Valid()
      modifies this
      ensures Answers(old(State()), Op.DeleteEpisode(id), committed, State())
    {
      committed := id in episodes && !EpisodeReferenced(State(), id);
      if committed {
        InvKept(State(), Op.DeleteEpisode(id));
        episodes := episodes - {id};
      }
    }

    /** The pair and ownership triggers and CHECKs, for one of the two pairs of a new row. */
    method LinkPasses(l: Link) returns (passes: bool)
      ensures passes <==> LinkRow(episodes, l)
    {
      // observation_validate_pairs
      if l.incident.None? && l.episode.Some? { return false; }
      if l.incident.Some? && l.episode.None? { return false; }
      // observation_validate_episode_ownership
      passes := l.incident.Some? ==> EpisodeOf(episodes, l.episode.value, l.incident.value);
    }

    method InsertObservation(id: nat, o: Observation) returns (committed: bool)
      requires Valid()
      modifies this
      ensures Answers(old(State()), Op.InsertObservation(id, o), committed, State())
    {
      var attached := LinkPasses(o.attached);
      var proposed := LinkPasses(o.proposed);
      committed := id !in observations && attached && proposed;
      if committed {
        InvKept(State(), Op.InsertObservation(id, o));
        observations := observations[id := o];
      }
    }

    /** The triggers fire only if the statement names one of the four columns. */
    method ObservationUpdatePasses(id: nat, c: ObservationChange) returns (passes: bool)
      requires Valid()
      ensures passes <==> id in observations && ObservationRow(episodes, NewObservation(observations[id], c))
    {
      if id !in observations { return false; }
      assert Holds(State(), ObservationsCoherent);
      if c.attached.incident.Kept? && c.attached.episode.Kept?
         && c.proposed.incident.Kept? && c.proposed.episode.Kept? {
        return true;
      }
      var attached := LinkPasses(NewLink(observations[id].attached, c.attached));
      var proposed := LinkPasses(NewLink(observations[id].proposed, c.proposed));
      passes := attached && proposed;
    }

    method UpdateObservation(id: nat, c: ObservationChange) returns (committed: bool)
      requires Valid()
      modifies this
      ensures Answers(old(State()), Op.UpdateObservation(id, c), committed, State())
    {
      committed := ObservationUpdatePasses(id, c);
      if committed {
        InvKept(State(), Op.UpdateObservation(id, c));
        observations := observations[id := NewObservation(observations[id], c)];
      }
    }

    method DeleteObservation(id: nat) returns (committed: bool)
      requires Valid()
      modifies this
      ensures Answers(old(State()), Op.DeleteObservation(id), committed, State())
    {
      committed := id in observations;
      if committed {
        InvKept(State(), Op.DeleteObservation(id));
        observations := observations - {id};
      }
    }

    // ---- Assets ----

    /** The constraints on an asset row itself: CHECKs, foreign keys, the unique package file. */
    method AssetConstraintsPass(id: nat, a: Asset) returns (passes: bool)
      ensures passes <==>
        && (if a.legacy.incident.Some? then a.legacy.episode.Some? && a.frame.FullFrame?
            else a.legacy.episode.None? && a.frame.NoFrame?)
        && (a.rev.Some? || a.dormant)
        && (a.rev.Some? ==> a.rev.value in revisions)
        && (a.file.Some? ==> a.file.value in files && !OtherAssetOfFile(State(), id, a.file.value))
    {
      // ck_asset_zone_revision_required, ck_asset_legacy_provenance
      if !(a.rev.Some? || a.dormant) { return false; }
      if !((a.legacy.incident.None? && a.legacy.episode.None? && a.frame.NoFrame?)
           || (a.legacy.incident.Some? && a.legacy.episode.Some? && a.frame.FullFrame?)) { return false; }
      // foreign keys, ix_model_asset_spatial_package_file_id
      if a.rev.Some? && a.rev.value !in revisions { return false; }
      passes := a.file.Some? ==> a.file.value in files && !OtherAssetOfFile(State(), id, a.file.value);
    }

    method AssetInsertPasses(id: nat, a: Asset) returns (passes: bool)
      requires Valid()
      ensures passes <==> AssetInsert(State(), id, a)
    {
      if id in assets { return false; }
      // model_asset_validate_legacy_link_insert
      if a.legacy.incident.Some?
         && !(a.legacy.episode.Some? && EpisodeOf(episodes, a.legacy.episode.value, a.legacy.incident.value)) {
        return false;
      }
      // model_asset_validate_package_file_insert
      if a.file.Some? && !GlbOf(packages, files, a.file.value, a.rev) { return false; }
      passes := AssetConstraintsPass(id, a);
    }

    method InsertAsset(id: nat, a: Asset) returns (committed: bool)
      requires Valid()
      modifies this
      ensures Answers(old(State()), Op.InsertAsset(id, a), committed, State())
    {
      committed := AssetInsertPasses(id, a);
      if committed {
        InvKept(State(), Op.InsertAsset(id, a));
        assets := assets[id := a];
      }
    }

    method AssetUpdatePasses(id: nat, c: AssetChange) returns (passes: bool)
      requires Valid()
      ensures passes <==> AssetUpdate(State(), id, c)
    {
      if id !in assets { return false; }
      assert Holds(State(), AssetsBacked) && Holds(State(), LegacyCoherent);
      var o := assets[id];
      var n := NewAsset(o, c);
      assert LegacyRow(episodes, o) && AssetRow(revisions, packages, files, o);
      // model_asset_zone_revision_immutable, model_asset_sha256_immutable
      if c.rev.Set? && o.rev.Some? && n.rev != o.rev { return false; }
      if c.sha.Set? && n.sha != o.sha { return false; }
      // model_asset_validate_legacy_link_update, model_asset_legacy_provenance_immutable
      if (c.legacy.incident.Set? || c.legacy.episode.Set?) && n.legacy.incident.Some?
         && !(n.legacy.episode.Some? && EpisodeOf(episodes, n.legacy.episode.value, n.legacy.incident.value)) {
        return false;
      }
      if n.legacy != o.legacy || n.frame != o.frame { return false; }
      // model_asset_validate_package_file_update
      if (c.file.Set? || c.rev.Set?) && n.file.Some? && !GlbOf(packages, files, n.file.value, n.rev) { return false; }
      passes := AssetConstraintsPass(id, n);
    }

    method UpdateAsset(id: nat, c: AssetChange) returns (committed: bool)
      requires Valid()
      modifies this
      ensures Answers(old(State()), Op.UpdateAsset(id, c), committed, State())
    {
      committed := AssetUpdatePasses(id, c);
      if committed {
        InvKept(State(), Op.UpdateAsset(id, c));
        assets := assets[id := NewAsset(assets[id], c)];
      }
    }

    method DeleteAsset(id: nat) returns (committed: bool)
      requires Valid()
      modifies this
      ensures Answers(old(State()), Op.DeleteAsset(id), committed, State())
    {
      committed := id in assets && !AssetReferenced(State(), id);
      if committed {
        InvKept(State(), Op.DeleteAsset(id));
        assets := assets - {id};
      }
    }

    // ---- Manifests ----

    /** The condition of the two spatial link triggers, negated. */
    predicate LinkMatches(m: Manifest)
      reads this
    {
      && !(m.asset.Some? && m.rev.None?)
      && !(m.asset.None? && m.rev.Some? && m.package.None?)
      && !(m.asset.Some? && m.rev.Some? && !(m.asset.value in assets && Equals(assets[m.asset.value].rev, m.rev)))
    }

    /** The EXISTS of the two package triggers, with its joins. */
    predicate PackageMatches(m: Manifest)
      reads this
    {
      && m.package.Some? && m.package.value in packages
      && Equals(packages[m.package.value].rev, m.rev)
      && packages[m.package.value].state in {Previewable, Published}
      && (m.asset.None?
          || (m.asset.value in assets && assets[m.asset.value].file.Some? && assets[m.asset.value].file.value in files
              && files[assets[m.asset.value].file.value].package == m.package.value))
    }

    method ManifestInsertPasses(id: nat, m: Manifest) returns (passes: bool)
      requires Valid()
      ensures passes <==> ManifestInsert(State(), id, m)
    {
      if id in manifests { return false; }
      // manifest_revision_validate_episode_insert, ..._spatial_link_insert, ..._package_insert
      if !EpisodeOf(episodes, m.episode, m.incident) { return false; }
      if !LinkMatches(m) { return false; }
      if m.package.Some? && !PackageMatches(m) { return false; }
      // ck_manifest_zone_requires_asset, uq_manifest_one_current
      if !(m.rev.None? || m.asset.Some? || m.package.Some?) { return false; }
      passes := m.current ==> !OtherCurrentManifest(State(), id, m.incident);
    }

    method InsertManifest(id: nat, m: Manifest) returns (committed: bool)
      requires Valid()
      modifies this
      ensures Answers(old(State()), Op.InsertManifest(id, m), committed, State())
    {
      committed := ManifestInsertPasses(id, m);
      if committed {
        InvKept(State(), Op.InsertManifest(id, m));
        manifests := manifests[id := m];
      }
    }

    method ManifestUpdatePasses(id: nat, c: ManifestChange) returns (passes: bool)
      requires Valid()
      ensures passes <==> ManifestUpdate(State(), id, c)
    {
      if id !in manifests { return false; }
      assert Holds(State(), ManifestsBacked) && Holds(State(), ManifestsOwned);
      var o := manifests[id];
      var n := NewManifest(o, c);
      assert SpatialRow(packages, assets, o) && EpisodeOf(episodes, o.episode, o.incident);
      // manifest_revision_validate_episode_update
      if (c.incident.Set? || c.episode.Set?) && !EpisodeOf(episodes, n.episode, n.incident) { return false; }
      // manifest_revision_validate_spatial_link_update
      if c.asset.Set? || c.rev.Set? {
        if n.asset != o.asset || n.rev != o.rev { return false; }
        if !LinkMatches(n) { return false; }
      }
      // manifest_revision_validate_package_update
      if (c.package.Set? || c.asset.Set? || c.rev.Set?) && n.package.Some? && !PackageMatches(n) { return false; }
      // ck_manifest_zone_requires_asset, uq_manifest_one_current
      if !(n.rev.None? || n.asset.Some? || n.package.Some?) { return false; }
      passes := n.current ==> !OtherCurrentManifest(State(), id, n.incident);
    }

    method UpdateManifest(id: nat, c: ManifestChange) returns (committed: bool)
      requires Valid()
      modifies this
      ensures Answers(old(State()), Op.UpdateManifest(id, c), committed, State())
    {
      committed := ManifestUpdatePasses(id, c);
      if committed {
        InvKept(State(), Op.UpdateManifest(id, c));
        manifests := manifests[id := NewManifest(manifests[id], c)];
      }
    }

    method DeleteManifest(id: nat) returns (committed: bool)
      requires Valid()
      modifies this
      ensures Answers(old(State()), Op.DeleteManifest(id), committed, State())
    {
      committed := id in manifests && !ManifestReferenced(State(), id);
      if committed {
        InvKept(State(), Op.DeleteManifest(id));
        manifests := manifests - {id};
      }
    }

    // ---- Archive captures ----

    method ShotInsertPasses(id: nat, s: ArchiveShot) returns (passes: bool)
      requires Valid()
      ensures passes <==> ShotInsert(State(), id, s)
    {
      if id in shots { return false; }
      // zone_archive_snapshot_requires_closed_episode
      if s.manifest !in manifests { return false; }
      var m := manifests[s.manifest];
      if !(m.episode in episodes && m.incident == s.incident
           && episodes[m.episode].incident == m.incident
           && m.current && episodes[m.episode].current && episodes[m.episode].closed) { return false; }
      // zone_archive_snapshot_validate_source_insert
      if !(m.asset.Some? && m.asset.value in assets
           && m.incident == s.incident
           && Equals(m.asset, Some(s.asset))
           && Equals(m.rev, Some(s.rev))
           && Equals(assets[m.asset.value].rev, Some(s.rev))
           && assets[m.asset.value].sha == s.assetSha) { return false; }
      // unique constraints
      passes := forall k :: k in shots ==> shots[k].incident != s.incident && shots[k].manifest != s.manifest;
    }

    method InsertShot(id: nat, s: ArchiveShot) returns (committed: bool)
      requires Valid()
      modifies this
      ensures Answers(old(State()), Op.InsertShot(id, s), committed, State())
    {
      committed := ShotInsertPasses(id, s);
      if committed {
        InvKept(State(), Op.InsertShot(id, s));
        shots := shots[id := s];
      }
    }
  }

  /** In a log that fits its state, being non-empty and holding a creation event are the same. */
  lemma {:induction false} CreationEvent(log: seq<Event>, state: State)
    requires log == [] || LogRow(log, state)
    ensures log != [] <==> exists i :: 0 <= i < |log| && log[i].from.None? && log[i].to.Draft?
  {
    if log != [] {
      var e := log[|log| - 1];
      if e.from.Some? {
        CreationEvent(log[..|log| - 1], e.from.value);
        var i :| 0 <= i < |log| - 1 && log[..|log| - 1][i].from.None? && log[..|log| - 1][i].to.Draft?;
        assert log[i].from.None? && log[i].to.Draft?;
      }
    }
  }
}
