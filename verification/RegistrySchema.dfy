/**
 The rows of the spatial registry and, for every row operation, the net effect of the
 SQLite contract: which operations commit, stated over the old row, the new row and the
 other tables. The trigger-by-trigger evaluation is in RegistryTables.

 A table is a map from primary key to row. The event table is a sequence, because its
 rows are never updated or deleted and its keys only grow: a position is an event id.
 */
module RegistrySchema {
  import opened Common
  import opened Lifecycle

  /** A JSON document, as far as json_valid, json_type and json_extract tell them apart. */
  datatype Report = NotJson(text: string) | NotObject(text: string) | Object(status: Option<string>, rest: string)

  predicate Passed(r: Report) {
    r.Object? && r.status == Some("passed")
  }

  datatype Package = Package(state: State, report: Report, verifiedAt: Option<int>, rev: Option<nat>)
  datatype FileKind = Cog | Jpeg | Png | Glb | FwTile | FwTerrain
  datatype PackageFile = PackageFile(package: nat, kind: FileKind)
  datatype Publication = Publication(
    zone: nat, rev: nat, package: nat, state: State, active: bool, reason: string, actor: string)
  datatype Event = Event(
    publication: nat, from: Option<State>, to: State, reason: string, actor: string)
  datatype Episode = Episode(incident: nat, current: bool, closed: bool)
  /** An incident column and an episode column that are meant to be filled together. */
  datatype Link = Link(incident: Option<nat>, episode: Option<nat>)
  datatype Observation = Observation(attached: Link, proposed: Link)
  /** The six further provenance columns of a legacy asset: all NULL, some NULL, none NULL. */
  datatype Frame = NoFrame | PartialFrame | FullFrame(content: string)
  datatype Asset = Asset(
    legacy: Link, frame: Frame, rev: Option<nat>, file: Option<nat>, sha: string, dormant: bool)
  datatype Manifest = Manifest(
    incident: nat, episode: nat, asset: Option<nat>, rev: Option<nat>, package: Option<nat>, current: bool)
  datatype ArchiveShot = ArchiveShot(incident: nat, manifest: nat, asset: nat, rev: nat, assetSha: string)

  datatype Db = Db(
    zones: set<nat>,
    incidents: set<nat>,
    revisions: map<nat, nat>, // revision to its zone
    packages: map<nat, Package>,
    files: map<nat, PackageFile>,
    publications: map<nat, Publication>,
    events: seq<Event>,
    episodes: map<nat, Episode>,
    observations: map<nat, Observation>,
    assets: map<nat, Asset>,
    manifests: map<nat, Manifest>,
    shots: map<nat, ArchiveShot>)

  const EMPTY := Db({}, {}, map[], map[], map[], map[], [], map[], map[], map[], map[], map[])

  /** SET lists. `identity` says that the statement names a column whose update always aborts. */
  datatype PackageChange = PackageChange(
    identity: bool, state: Column<State>, report: Column<Report>,
    verifiedAt: Column<Option<int>>, rev: Column<Option<nat>>)
  datatype PublicationChange = PublicationChange(
    identity: bool, state: Column<State>, active: Column<bool>, reason: Column<string>, actor: Column<string>)
  datatype EpisodeChange = EpisodeChange(incident: Column<nat>, current: Column<bool>, closed: Column<bool>)
  datatype LinkChange = LinkChange(incident: Column<Option<nat>>, episode: Column<Option<nat>>)
  datatype ObservationChange = ObservationChange(attached: LinkChange, proposed: LinkChange)
  datatype AssetChange = AssetChange(
    legacy: LinkChange, frame: Column<Frame>, rev: Column<Option<nat>>, file: Column<Option<nat>>,
    sha: Column<string>, dormant: Column<bool>)
  datatype ManifestChange = ManifestChange(
    incident: Column<nat>, episode: Column<nat>, asset: Column<Option<nat>>, rev: Column<Option<nat>>,
    package: Column<Option<nat>>, current: Column<bool>)

  function NewPackage(o: Package, c: PackageChange): Package {
    Package(After(o.state, c.state), After(o.report, c.report), After(o.verifiedAt, c.verifiedAt), After(o.rev, c.rev))
  }

  function NewPublication(o: Publication, c: PublicationChange): Publication {
    o.(state := After(o.state, c.state), active := After(o.active, c.active),
       reason := After(o.reason, c.reason), actor := After(o.actor, c.actor))
  }

  function NewEpisode(o: Episode, c: EpisodeChange): Episode {
    Episode(After(o.incident, c.incident), After(o.current, c.current), After(o.closed, c.closed))
  }

  function NewLink(o: Link, c: LinkChange): Link {
    Link(After(o.incident, c.incident), After(o.episode, c.episode))
  }

  function NewObservation(o: Observation, c: ObservationChange): Observation {
    Observation(NewLink(o.attached, c.attached), NewLink(o.proposed, c.proposed))
  }

  function NewAsset(o: Asset, c: AssetChange): Asset {
    Asset(NewLink(o.legacy, c.legacy), After(o.frame, c.frame), After(o.rev, c.rev), After(o.file, c.file),
          After(o.sha, c.sha), After(o.dormant, c.dormant))
  }

  function NewManifest(o: Manifest, c: ManifestChange): Manifest {
    Manifest(After(o.incident, c.incident), After(o.episode, c.episode), After(o.asset, c.asset),
             After(o.rev, c.rev), After(o.package, c.package), After(o.current, c.current))
  }

  // ---- What a row must look like beside the tables it refers to ----

  type Revisions = map<nat, nat>
  type Packages = map<nat, Package>
  type Files = map<nat, PackageFile>
  type Publications = map<nat, Publication>
  type Episodes = map<nat, Episode>
  type Assets = map<nat, Asset>
  type Manifests = map<nat, Manifest>

  /** A package out of Draft was verified; only such a package carries a zone revision. */
  predicate PackageRow(revisions: Revisions, p: Package) {
    && (p.state.Draft? <==> p.verifiedAt.None?)
    && (!p.state.Draft? ==> Passed(p.report))
    && (p.state.Draft? ==> p.rev.None?)
    && (p.state in {Previewable, Published, Withdrawn} ==> p.rev.Some?)
    && (p.rev.Some? ==> p.rev.value in revisions)
  }

  predicate PublicationRow(zones: set<nat>, revisions: Revisions, packages: Packages, q: Publication) {
    && q.zone in zones
    && q.rev in revisions && revisions[q.rev] == q.zone
    && q.package in packages && packages[q.package].rev == Some(q.rev)
    && (q.active <==> q.state.Published?)
    && (q.active ==> packages[q.package].state.Published?)
  }

  predicate EpisodeOf(episodes: Episodes, episode: nat, incident: nat) {
    episode in episodes && episodes[episode].incident == incident
  }

  /** Both columns NULL, or an episode of that very incident. */
  predicate LinkRow(episodes: Episodes, l: Link) {
    || (l.incident.None? && l.episode.None?)
    || (l.incident.Some? && l.episode.Some? && EpisodeOf(episodes, l.episode.value, l.incident.value))
  }

  predicate ObservationRow(episodes: Episodes, o: Observation) {
    LinkRow(episodes, o.attached) && LinkRow(episodes, o.proposed)
  }

  predicate LegacyRow(episodes: Episodes, a: Asset) {
    LinkRow(episodes, a.legacy) && if a.legacy.incident.Some? then a.frame.FullFrame? else a.frame.NoFrame?
  }

  /** The file is a GLB of a package attached to revision `rev`; NULL matches nothing. */
  predicate GlbOf(packages: Packages, files: Files, file: nat, rev: Option<nat>) {
    && file in files && files[file].kind.Glb?
    && files[file].package in packages
    && rev.Some? && packages[files[file].package].rev == rev
  }

  predicate AssetRow(revisions: Revisions, packages: Packages, files: Files, a: Asset) {
    && (a.rev.Some? ==> a.rev.value in revisions)
    && (a.rev.Some? || a.dormant)
    && (a.file.Some? ==> GlbOf(packages, files, a.file.value, a.rev))
  }

  /** A manifest with a revision has an asset or a package, and whatever it has is of that revision. */
  predicate SpatialRow(packages: Packages, assets: Assets, m: Manifest) {
    && (m.asset.Some? ==> m.rev.Some? && m.asset.value in assets && assets[m.asset.value].rev == m.rev)
    && (m.rev.Some? ==> m.asset.Some? || m.package.Some?)
    && (m.package.Some? ==>
          && m.rev.Some? && m.package.value in packages && packages[m.package.value].rev == m.rev
          && Rank(packages[m.package.value].state) >= 2)
  }

  predicate ShotRow(assets: Assets, manifests: Manifests, s: ArchiveShot) {
    && s.manifest in manifests && s.asset in assets
    && manifests[s.manifest].asset == Some(s.asset)
    && manifests[s.manifest].rev == Some(s.rev)
    && assets[s.asset].rev == Some(s.rev)
    && assets[s.asset].sha == s.assetSha
  }

  // ---- The event log ----

  /** The events of one publication, oldest first. */
  function LogOf(events: seq<Event>, publication: nat): seq<Event> {
    if events == [] then []
    else
      var last := events[|events| - 1];
      var log := LogOf(events[..|events| - 1], publication);
      if last.publication == publication then log + [last] else log
  }

  // ---- Which operations commit ----

  predicate PackageInsert(db: Db, id: nat, p: Package) {
    id !in db.packages && p.state.Draft? && p.rev.None? && p.verifiedAt.None?
  }

  predicate ActivelyPublished(db: Db, package: nat) {
    exists q :: q in db.publications && db.publications[q].package == package && db.publications[q].active
  }

  /** Verification and revision are written once; the state follows the lifecycle. */
  predicate PackageUpdate(db: Db, id: nat, c: PackageChange) {
    && id in db.packages && !c.identity
    && var o := db.packages[id];
    var n := NewPackage(o, c);
    && PackageRow(db.revisions, n)
    && (o.state == n.state || Transition(o.state, n.state))
    && (o.rev.Some? ==> n.rev == o.rev)
    && (o.verifiedAt.Some? ==> n.verifiedAt == o.verifiedAt && n.report == o.report)
    && (o.state != n.state && n.state in {Withdrawn, Revoked, Archived} ==> !ActivelyPublished(db, id))
  }

  predicate FileInsert(db: Db, id: nat, f: PackageFile) {
    id !in db.files && f.package in db.packages
  }

  predicate PublicationInsert(db: Db, id: nat, q: Publication) {
    && id !in db.publications
    && q.state.Draft?
    && PublicationRow(db.zones, db.revisions, db.packages, q)
    && db.packages[q.package].state in {Verified, Previewable, Published}
  }

  /** Is another publication of this zone active? The partial unique index forbids it. */
  predicate OtherActive(db: Db, id: nat, zone: nat) {
    exists q :: q in db.publications && q != id && db.publications[q].zone == zone && db.publications[q].active
  }

  /** Outside a transition nothing may change; a transition needs its event to be the newest one. */
  predicate PublicationUpdate(db: Db, id: nat, c: PublicationChange) {
    && id in db.publications && !c.identity
    && var o := db.publications[id];
    var n := NewPublication(o, c);
    var log := LogOf(db.events, id);
    if o.state == n.state then n == o
    else
      && Transition(o.state, n.state)
      && log != [] && log[|log| - 1] == Event(id, Some(o.state), n.state, n.reason, n.actor)
      && n.active == n.state.Published?
      && n.package in db.packages && db.packages[n.package].rev == Some(n.rev)
      && (n.state.Previewable? ==> db.packages[n.package].state in {Previewable, Published})
      && (n.state.Published? ==> db.packages[n.package].state.Published? && !OtherActive(db, id, n.zone))
  }

  predicate EventInsert(db: Db, e: Event) {
    && e.publication in db.publications
    && var log := LogOf(db.events, e.publication);
    && db.publications[e.publication].state == (if e.from.None? then Draft else e.from.value)
    && if e.from.None? then e.to.Draft? && log == []
       else log != [] && Transition(e.from.value, e.to)
  }

  predicate OtherCurrentEpisode(db: Db, id: nat, incident: nat) {
    exists k :: k in db.episodes && k != id && db.episodes[k].incident == incident && db.episodes[k].current
  }

  predicate EpisodeInsert(db: Db, id: nat, e: Episode) {
    && id !in db.episodes && e.incident in db.incidents
    && (e.current ==> !OtherCurrentEpisode(db, id, e.incident))
  }

  predicate EpisodeUpdate(db: Db, id: nat, c: EpisodeChange) {
    && id in db.episodes
    && var n := NewEpisode(db.episodes[id], c);
    && n.incident == db.episodes[id].incident
    && (n.current ==> !OtherCurrentEpisode(db, id, n.incident))
  }

  predicate LinksEpisode(o: Observation, episode: nat) {
    o.attached.episode == Some(episode) || o.proposed.episode == Some(episode)
  }

  predicate LinksIncident(o: Observation, incident: nat) {
    o.attached.incident == Some(incident) || o.proposed.incident == Some(incident)
  }

  predicate EpisodeReferenced(db: Db, id: nat) {
    || (exists o :: o in db.observations && LinksEpisode(db.observations[o], id))
    || (exists m :: m in db.manifests && db.manifests[m].episode == id)
    || (exists a :: a in db.assets && db.assets[a].legacy.episode == Some(id))
  }

  predicate IncidentReferenced(db: Db, id: nat) {
    || (exists e :: e in db.episodes && db.episodes[e].incident == id)
    || (exists o :: o in db.observations && LinksIncident(db.observations[o], id))
    || (exists m :: m in db.manifests && db.manifests[m].incident == id)
    || (exists a :: a in db.assets && db.assets[a].legacy.incident == Some(id))
    || (exists s :: s in db.shots && db.shots[s].incident == id)
  }

  predicate ZoneReferenced(db: Db, id: nat) {
    || (exists r :: r in db.revisions && db.revisions[r] == id)
    || (exists q :: q in db.publications && db.publications[q].zone == id)
  }

  predicate OtherAssetOfFile(db: Db, id: nat, file: nat) {
    exists a :: a in db.assets && a != id && db.assets[a].file == Some(file)
  }

  predicate AssetInsert(db: Db, id: nat, a: Asset) {
    && id !in db.assets && LegacyRow(db.episodes, a) && AssetRow(db.revisions, db.packages, db.files, a)
    && (a.file.Some? ==> !OtherAssetOfFile(db, id, a.file.value))
  }

  /** Digest and legacy provenance are frozen, the revision is written once. */
  predicate AssetUpdate(db: Db, id: nat, c: AssetChange) {
    && id in db.assets
    && var o := db.assets[id];
    var n := NewAsset(o, c);
    && AssetRow(db.revisions, db.packages, db.files, n)
    && n.sha == o.sha && n.legacy == o.legacy && n.frame == o.frame
    && (o.rev.Some? ==> n.rev == o.rev)
    && (n.file.Some? ==> !OtherAssetOfFile(db, id, n.file.value))
  }

  predicate AssetReferenced(db: Db, id: nat) {
    || (exists m :: m in db.manifests && db.manifests[m].asset == Some(id))
    || (exists s :: s in db.shots && db.shots[s].asset == id)
  }

  predicate OtherCurrentManifest(db: Db, id: nat, incident: nat) {
    exists m :: m in db.manifests && m != id && db.manifests[m].incident == incident && db.manifests[m].current
  }

  /** The package may be bound to the manifest now: previewable or published, and of its asset's file. */
  predicate Bindable(db: Db, m: Manifest) {
    && m.package.Some? && m.rev.Some?
    && m.package.value in db.packages
    && db.packages[m.package.value].rev == m.rev
    && db.packages[m.package.value].state in {Previewable, Published}
    && (m.asset.Some? ==>
          && m.asset.value in db.assets
          && db.assets[m.asset.value].file.Some?
          && db.assets[m.asset.value].file.value in db.files
          && db.files[db.assets[m.asset.value].file.value].package == m.package.value)
  }

  predicate ManifestInsert(db: Db, id: nat, m: Manifest) {
    && id !in db.manifests && EpisodeOf(db.episodes, m.episode, m.incident) && SpatialRow(db.packages, db.assets, m)
    && (m.package.Some? ==> Bindable(db, m))
    && (m.current ==> !OtherCurrentManifest(db, id, m.incident))
  }

  /** Asset and revision are frozen; naming a spatial column re-validates the bound package. */
  predicate ManifestUpdate(db: Db, id: nat, c: ManifestChange) {
    && id in db.manifests
    && var o := db.manifests[id];
    var n := NewManifest(o, c);
    && n.asset == o.asset && n.rev == o.rev
    && EpisodeOf(db.episodes, n.episode, n.incident) && SpatialRow(db.packages, db.assets, n)
    && (n.package.Some? && (c.package.Set? || c.asset.Set? || c.rev.Set?) ==> Bindable(db, n))
    && (n.current ==> !OtherCurrentManifest(db, id, n.incident))
  }

  predicate ManifestReferenced(db: Db, id: nat) {
    exists s :: s in db.shots && db.shots[s].manifest == id
  }

  /** A capture is taken of the current manifest of a closed current episode, and only once. */
  predicate ShotInsert(db: Db, id: nat, s: ArchiveShot) {
    && id !in db.shots && ShotRow(db.assets, db.manifests, s)
    && db.manifests[s.manifest].incident == s.incident
    && db.manifests[s.manifest].current
    && db.manifests[s.manifest].episode in db.episodes
    && var e := db.episodes[db.manifests[s.manifest].episode];
    && e.incident == s.incident && e.current && e.closed
    && (forall k :: k in db.shots ==> db.shots[k].incident != s.incident && db.shots[k].manifest != s.manifest)
  }

  // ---- One row operation ----

  /** Writes that a trigger always aborts. */
  datatype FrozenWrite =
    | UpdateRevision | DeleteRevision | UpdateFile | DeleteFile | DeletePackage | DeletePublication
    | UpdateEvent | DeleteEvent | UpdateShot | DeleteShot

  datatype Op =
    | InsertZone(id: nat)
    | DeleteZone(id: nat)
    | InsertIncident(id: nat)
    | DeleteIncident(id: nat)
    | InsertRevision(id: nat, zone: nat)
    | InsertPackage(id: nat, package: Package)
    | UpdatePackage(id: nat, packageChange: PackageChange)
    | InsertFile(id: nat, file: PackageFile)
    | InsertPublication(id: nat, publication: Publication)
    | UpdatePublication(id: nat, publicationChange: PublicationChange)
    | InsertEvent(event: Event)
    | InsertEpisode(id: nat, episode: Episode)
    | UpdateEpisode(id: nat, episodeChange: EpisodeChange)
    | DeleteEpisode(id: nat)
    | InsertObservation(id: nat, observation: Observation)
    | UpdateObservation(id: nat, observationChange: ObservationChange)
    | DeleteObservation(id: nat)
    | InsertAsset(id: nat, asset: Asset)
    | UpdateAsset(id: nat, assetChange: AssetChange)
    | DeleteAsset(id: nat)
    | InsertManifest(id: nat, manifest: Manifest)
    | UpdateManifest(id: nat, manifestChange: ManifestChange)
    | DeleteManifest(id: nat)
    | InsertShot(id: nat, shot: ArchiveShot)
    | Frozen(write: FrozenWrite, id: nat)

  /** Does the database commit this operation? Otherwise it aborts, or matches no row. */
  predicate Commits(db: Db, op: Op) {
    match op
    case InsertZone(id) => id !in db.zones
    case DeleteZone(id) => id in db.zones && !ZoneReferenced(db, id)
    case InsertIncident(id) => id !in db.incidents
    case DeleteIncident(id) => id in db.incidents && !IncidentReferenced(db, id)
    case InsertRevision(id, zone) => id !in db.revisions && zone in db.zones
    case InsertPackage(id, p) => PackageInsert(db, id, p)
    case UpdatePackage(id, c) => PackageUpdate(db, id, c)
    case InsertFile(id, f) => FileInsert(db, id, f)
    case InsertPublication(id, q) => PublicationInsert(db, id, q)
    case UpdatePublication(id, c) => PublicationUpdate(db, id, c)
    case InsertEvent(e) => EventInsert(db, e)
    case InsertEpisode(id, e) => EpisodeInsert(db, id, e)
    case UpdateEpisode(id, c) => EpisodeUpdate(db, id, c)
    case DeleteEpisode(id) => id in db.episodes && !EpisodeReferenced(db, id)
    case InsertObservation(id, o) => id !in db.observations && ObservationRow(db.episodes, o)
    case UpdateObservation(id, c) =>
      id in db.observations && ObservationRow(db.episodes, NewObservation(db.observations[id], c))
    case DeleteObservation(id) => id in db.observations
    case InsertAsset(id, a) => AssetInsert(db, id, a)
    case UpdateAsset(id, c) => AssetUpdate(db, id, c)
    case DeleteAsset(id) => id in db.assets && !AssetReferenced(db, id)
    case InsertManifest(id, m) => ManifestInsert(db, id, m)
    case UpdateManifest(id, c) => ManifestUpdate(db, id, c)
    case DeleteManifest(id) => id in db.manifests && !ManifestReferenced(db, id)
    case InsertShot(id, s) => ShotInsert(db, id, s)
    case Frozen(_, _) => false
  }

  /** The database after a committed operation: each table changes by its own operations only. */
  function Result(db: Db, op: Op): Db
    requires Commits(db, op)
  {
    Db(
      if op.InsertZone? then db.zones + {op.id} else if op.DeleteZone? then db.zones - {op.id} else db.zones,
      if op.InsertIncident? then db.incidents + {op.id}
      else if op.DeleteIncident? then db.incidents - {op.id}
      else db.incidents,
      if op.InsertRevision? then db.revisions[op.id := op.zone] else db.revisions,
      if op.InsertPackage? then db.packages[op.id := op.package]
      else if op.UpdatePackage? then db.packages[op.id := NewPackage(db.packages[op.id], op.packageChange)]
      else db.packages,
      if op.InsertFile? then db.files[op.id := op.file] else db.files,
      if op.InsertPublication? then db.publications[op.id := op.publication]
      else if op.UpdatePublication? then
        db.publications[op.id := NewPublication(db.publications[op.id], op.publicationChange)]
      else db.publications,
      if op.InsertEvent? then db.events + [op.event] else db.events,
      if op.InsertEpisode? then db.episodes[op.id := op.episode]
      else if op.UpdateEpisode? then db.episodes[op.id := NewEpisode(db.episodes[op.id], op.episodeChange)]
      else if op.DeleteEpisode? then db.episodes - {op.id}
      else db.episodes,
      if op.InsertObservation? then db.observations[op.id := op.observation]
      else if op.UpdateObservation? then
        db.observations[op.id := NewObservation(db.observations[op.id], op.observationChange)]
      else if op.DeleteObservation? then db.observations - {op.id}
      else db.observations,
      if op.InsertAsset? then db.assets[op.id := op.asset]
      else if op.UpdateAsset? then db.assets[op.id := NewAsset(db.assets[op.id], op.assetChange)]
      else if op.DeleteAsset? then db.assets - {op.id}
      else db.assets,
      if op.InsertManifest? then db.manifests[op.id := op.manifest]
      else if op.UpdateManifest? then db.manifests[op.id := NewManifest(db.manifests[op.id], op.manifestChange)]
      else if op.DeleteManifest? then db.manifests - {op.id}
      else db.manifests,
      if op.InsertShot? then db.shots[op.id := op.shot] else db.shots)
  }
}
