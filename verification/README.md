# Fire Viewer: verified model

This project models the parts of Fire Viewer whose safety rests on several guards acting
together, and proves what those guards guarantee as a whole.

- **Spatial registry** (`Lifecycle`, `RegistrySchema`, `RegistryInvariant`, `RegistryTables`,
  `RegistryRuns`, `RegistryContract`, `RegistryBacking`, `RegistryPermanence`, `RegistryWitness`,
  `RegistryDrift`). The tables of zones, zone revisions, packages, package files, publications,
  publication events, episodes, observations, assets, manifests and archive snapshots, under the
  final SQLite schema. `RegistryTables.Registry` holds the tables and updates them in place; each
  method is one row operation that evaluates the triggers, CHECKs, unique indexes and RESTRICT
  foreign keys one after the other. Its contract is the net effect stated in `RegistrySchema`
  (`Commits`, `Result`) and the invariant of `RegistryInvariant`. `RegistryContract` says of every
  operation exactly when it goes through, in the words of the rows. `RegistryRuns` proves safety over
  every sequence of attempted operations in any interleaving; `RegistryBacking` says exactly when a
  publication is backed and what takes its backing away, `RegistryPermanence` what no later operation
  changes, and `RegistryDrift` what may drift and by which operation.
- **Worker output contract** (`WorkerOutput`, `WorkerParts`, `WorkerValidator`, `WorkerAcceptance`,
  `WorkerPartition`). The part validators and the shapes they leave, an order-free list of the faults
  of an output, the imperative validator that finds the first of them, which outputs are accepted,
  and what an accepted output guarantees.
- **Byte ranges and body limit** (`PythonText`, `ByteRange`, `BodyLimit`). The Range parser and
  slicer against the meaning of a range, chunked download, Content-Range, and the buffering and
  replaying ASGI receive loop.
- **Local-admin sessions and login** (`AdminSession`, `LoginWindow`). Stored session rows against
  the history of calls, and the login window per origin.
- **Spatial contract** (`Geometry`, `SpatialContract`, `SpatialInputs`, `Sha256Check`). Validators
  that complete an object in place, the coherent objects they end with, the inputs they accept, the
  database rows those become, and the generated SQL predicate for digests.

`Common` holds shared vocabulary. Check everything with `dafny verify dfyconfig.toml`.

## Reading the model

- An attempted row operation either commits or leaves the database as it was. An update names the
  columns of its SET list (`Column.Set`), because SQLite's `UPDATE OF` triggers fire on naming.
- NULL is `None`. A CHECK passes unless it is false; a trigger condition that is NULL does not
  abort.
- Updates and deletions of revisions, files and captures, deletions of packages and publications, and
  updates and deletions of events abort unconditionally (`FrozenWrite`); what that is worth over runs
  is `RegistryPermanence.FrozenRowsStay`.
- Boolean columns hold 0 or 1 and are `bool`. The schema itself does not say so: SQLite would accept
  `is_active = 2` or `is_current = 2`, which is true to the CHECKs and outside the partial unique
  indexes and guards that compare with 1. Such a write is outside the model; the application's
  Boolean columns only write 0 and 1.
- The registry starts empty, primary keys are never updated, and event ids only grow, so the event
  table is a sequence.
- Times are integers. Every clock reading is a parameter; theorems that need an ordered clock say
  so in a `requires`.
- Digests are opaque: rows keyed by a digest are keyed by what was digested, and a hash function is
  a parameter of the worker contract.

## Results about behaviour that does not hold

- A previewable publication may lose the package that backs it
  (`RegistryWitness.PreviewableMayLoseItsPackage` is such a run). It is unbacked exactly if its
  package is WITHDRAWN, REVOKED or ARCHIVED (`RegistryBacking.PreviewableIsUnbackedExactlyWhen`), a
  committed operation takes the backing away exactly if it moves the package there
  (`RegistryBacking.BackingIsLostExactlyWhen`) and restores it exactly if it publishes the withdrawn
  package again (`RegistryBacking.BackingIsRestoredExactlyWhen`); over a run the last of these decides
  (`RegistryBacking.BackingIsLostOverRunExactlyWhen`). An active publication never loses it
  (`RegistryRuns.ActivePublicationIsBacked`).
- A capture may later be of another incident than its manifest, and a bound package may later not be
  that of its asset's file. `RegistryDrift.CaptureDriftsExactlyWhen` and
  `RegistryDrift.FileDriftsExactlyWhen` name exactly the updates that do it, and
  `RegistryDrift.CaptureMayDrift` and `RegistryDrift.FileMayDrift` give runs.
- The digest CHECK accepts more than digests on SQLite, because `length()` stops at the first NUL:
  `Sha256Check.PassesWithoutBeingDigest` gives the exact family and `Sha256Check.NulHidesTheRest`
  a member of it. For text without NUL the CHECK is exact.
- An accepted ground point may carry a geometry at another place than its longitude and latitude:
  `SpatialContract.AcceptedPointAgreesExactlyWhen` gives the exact condition and
  `SpatialContract.GroundPointMayDisagree` a case. The stored row always agrees, because storing
  rewrites the geometry (`SpatialContract.ProposalFitsTable`).
- Reading a printed range back fails for numbers beyond the 4300 digits that `int()` accepts;
  `ByteRange.PrintedWindow` states exactly that, and `ByteRange.SomeRangeIsUnreadable` gives such a
  range for every file that is not empty.

## Model

| member | source | states |
|---|---|---|
| Lifecycle.TablesAgree | src/fire_viewer/domain/zone_publication.py:6-34 | the domain's transition table and the triggers' transition predicate admit the same transitions |
| Lifecycle.AdvancesBounded | migrations/versions/b4d1e6f9a730_harden_admin_zone_registry.py:20-28 | in any walk at most five steps are not toggles between PUBLISHED and WITHDRAWN |
| Lifecycle.ArchivedAbsorbs | migrations/versions/b4d1e6f9a730_harden_admin_zone_registry.py:20-28 | no walk leaves ARCHIVED |
| Lifecycle.PublicationIsPreviewedFirst | migrations/versions/b4d1e6f9a730_harden_admin_zone_registry.py:22-24 | every walk from DRAFT to PUBLISHED passes VERIFIED and then PREVIEWABLE |
| Lifecycle.ReachableIffRanked | migrations/versions/b4d1e6f9a730_harden_admin_zone_registry.py:20-28 | one state can follow another in some walk if and only if it ranks no lower |
| RegistryTables.Registry.constructor | migrations/versions/a3c9e5d7b620_zone_publication_state_machine.py:51-79 | the empty registry satisfies the invariant |
| RegistryTables.Registry.InsertPackage | migrations/versions/b4d1e6f9a730_harden_admin_zone_registry.py:51-58 | the row operation commits exactly when the net effect allows it, has that effect, else changes nothing, and keeps the invariant |
| RegistryTables.Registry.PackageUpdatePasses | migrations/versions/b4d1e6f9a730_harden_admin_zone_registry.py:45-108 | the package triggers and CHECKs together let an update through exactly when the new row is well formed, the state change is a transition, verification and revision are written once, and no active publication loses its package |
| RegistryTables.Registry.UpdatePackage | migrations/versions/f2a8d7c9b410_admin_spatial_package_registry.py:89-101 | as InsertPackage, for updates of chosen columns |
| RegistryTables.Registry.PublicationInsertPasses | migrations/versions/b4d1e6f9a730_harden_admin_zone_registry.py:114-131 | an insert passes exactly for a draft of a verified package of a revision of its zone |
| RegistryTables.Registry.InsertPublication | migrations/versions/a3c9e5d7b620_zone_publication_state_machine.py:66-87 | as InsertPackage, for publications |
| RegistryTables.Registry.PublicationUpdatePasses | migrations/versions/b4d1e6f9a730_harden_admin_zone_registry.py:143-212 | an update passes exactly when it changes nothing, or is a transition backed by its package whose newest event records it, with its reason and actor, and no other publication of the zone is active |
| RegistryTables.Registry.UpdatePublication | migrations/versions/a3c9e5d7b620_zone_publication_state_machine.py:66-87 | as InsertPackage, for publication updates |
| RegistryTables.Registry.EventInsertPasses | migrations/versions/b4d1e6f9a730_harden_admin_zone_registry.py:173-199 | an event passes exactly when it is the first, creation event of a draft, or a transition that starts at the current state of a publication with a log |
| RegistryTables.Registry.InsertEvent | migrations/versions/a3c9e5d7b620_zone_publication_state_machine.py:33-43 | as InsertPackage, for the append-only log |
| RegistryTables.Registry.InsertFile | migrations/versions/f2a8d7c9b410_admin_spatial_package_registry.py:33-42 | as InsertPackage, for package files |
| RegistryTables.Registry.EpisodeUpdatePasses | migrations/versions/e7a4c9d8f2b1_observation_incident_episode_integrity.py:188-196 | an episode update passes exactly when the incident stays and at most one episode of it is current |
| RegistryTables.Registry.LinkPasses | migrations/versions/e7a4c9d8f2b1_observation_incident_episode_integrity.py:151-166 | pair and ownership triggers pass exactly for two NULLs or an episode of that incident |
| RegistryTables.Registry.UpdateObservation | migrations/versions/e7a4c9d8f2b1_observation_incident_episode_integrity.py:168-186 | as InsertPackage, for observation links |
| RegistryTables.Registry.AssetInsertPasses | migrations/versions/e6f3a1b8c420_incident_spatial_package_binding.py:40-50 | an asset insert passes exactly when its revision, GLB file and legacy provenance fit |
| RegistryTables.Registry.AssetUpdatePasses | migrations/versions/c6d4f13a9b20_spatial_zone_contract.py:45-90 | an asset update passes exactly when digest and provenance stay, the revision is written once and the file fits the new row |
| RegistryTables.Registry.UpdateAsset | migrations/versions/e6f3a1b8c420_incident_spatial_package_binding.py:51-62 | as InsertPackage, for asset updates |
| RegistryTables.Registry.ManifestInsertPasses | migrations/versions/d2a6e8f1b430_allow_tiled_package_manifest.py:108-142 | a manifest insert passes exactly when its episode is its incident's and its revision, asset and package agree |
| RegistryTables.Registry.ManifestUpdatePasses | migrations/versions/d2a6e8f1b430_allow_tiled_package_manifest.py:172-210 | a manifest update passes exactly when asset and revision stay, the links agree, and a re-named package is bindable |
| RegistryTables.Registry.UpdateManifest | migrations/versions/c6d4f13a9b20_spatial_zone_contract.py:91-131 | as InsertPackage, for manifest updates |
| RegistryTables.Registry.ShotInsertPasses | migrations/versions/c6d4f13a9b20_spatial_zone_contract.py:132-162 | a snapshot passes exactly for the current manifest of a closed current episode, matching its asset, revision and digest |
| RegistryTables.CreationEvent | migrations/versions/b4d1e6f9a730_harden_admin_zone_registry.py:188-191 | a log that fits its state holds a creation event exactly when it is not empty |
| RegistryInvariant.InvKept | migrations/versions/b4d1e6f9a730_harden_admin_zone_registry.py:43-213 | every committed row operation on every table keeps the invariant |
| RegistryRuns.ReachSafe | migrations/versions/b4d1e6f9a730_harden_admin_zone_registry.py:43-213 | the invariant holds after every run |
| RegistryRuns.ActivePublicationIsBacked | migrations/versions/b4d1e6f9a730_harden_admin_zone_registry.py:45-165 | in every reachable state an active publication's package is PUBLISHED, verified with a passed report, and of the publication's revision, which belongs to its zone |
| RegistryRuns.OneActivePerZoneAndPackage | migrations/versions/a3c9e5d7b620_zone_publication_state_machine.py:80-87 | in every reachable state at most one publication is active per zone and per package |
| RegistryRuns.ManifestLinksAgree | migrations/versions/d2a6e8f1b430_allow_tiled_package_manifest.py:119-260 | in every reachable state a manifest, its asset, its asset's GLB and its package are of one revision, a revision comes with an asset or a package, and a bound package is neither DRAFT nor VERIFIED |
| RegistryRuns.EpisodeLinksCoherent | migrations/versions/e7a4c9d8f2b1_observation_incident_episode_integrity.py:150-196 | in every reachable state all four incident/episode link families are complete and coherent |
| RegistryRuns.CaptureIsForEver | migrations/versions/c6d4f13a9b20_spatial_zone_contract.py:147-172 | a snapshot stays the same row in every later state, and its manifest and asset keep the revision and digest it was taken of |
| RegistryRuns.PackageLife | migrations/versions/b4d1e6f9a730_harden_admin_zone_registry.py:51-99 | the states of a package over a run form a walk from DRAFT |
| RegistryRuns.PublicationLife | migrations/versions/b4d1e6f9a730_harden_admin_zone_registry.py:114-165 | the states of a publication over a run form a walk from DRAFT |
| RegistryRuns.AdvancesAtMostFive | migrations/versions/b4d1e6f9a730_harden_admin_zone_registry.py:20-28 | over any run at most five state changes of a package or publication are not toggles |
| RegistryRuns.PublishedWasPreviewed | migrations/versions/b4d1e6f9a730_harden_admin_zone_registry.py:20-28 | over any run, what is published or withdrawn was VERIFIED and then PREVIEWABLE before |
| RegistryRuns.VerificationIsFinal | migrations/versions/b4d1e6f9a730_harden_admin_zone_registry.py:59-80 | once verified, a package keeps its passed report, timestamp and revision for ever, and its rank never falls |
| RegistryRuns.LogIsHistory | migrations/versions/b4d1e6f9a730_harden_admin_zone_registry.py:166-212 | replaying the log beside the current state yields exactly the state changes that happened, in order, each with the reason and actor of the one event it consumed; the log opens with the one creation event and has at most one pending event, the last |
| RegistryRuns.RowIsLatestChange | migrations/versions/b4d1e6f9a730_harden_admin_zone_registry.py:166-212 | in every reachable state a publication carries the state, reason and actor of its latest change, and before any change it is the row that was inserted |
| RegistryContract.PackageIsVerifiedExactlyWhen | migrations/versions/b4d1e6f9a730_harden_admin_zone_registry.py:66-94 | a draft becomes verified exactly with a passed report, a timestamp and, if any, an existing revision |
| RegistryContract.RevisionIsAttachedExactlyWhen | migrations/versions/b4d1e6f9a730_harden_admin_zone_registry.py:59-65 | a revision is attached once, to a package that is no draft, and must exist |
| RegistryContract.PackageStateChangesExactlyWhen | migrations/versions/b4d1e6f9a730_harden_admin_zone_registry.py:81-108 | a state change alone goes through exactly when it is a transition of a verified package, a preview has its revision, and for withdrawal, revocation and archiving no publication of the package is active |
| RegistryContract.WithdrawnPublicationReleasesItsPackage | src/fire_viewer/services/spatial_package_publication.py:140-154 | once no publication of a published package is published, the package can be withdrawn, as the service does |
| RegistryContract.PackageIsInsertedExactlyWhen | migrations/versions/b4d1e6f9a730_harden_admin_zone_registry.py:51-58 | only unverified drafts without a revision are inserted |
| RegistryContract.PublicationIsInsertedExactlyWhen | migrations/versions/b4d1e6f9a730_harden_admin_zone_registry.py:114-131 | an inactive draft, of a revision of its zone and a package of that revision that is verified, previewable or published |
| RegistryContract.EventIsRecordedExactlyWhen | migrations/versions/b4d1e6f9a730_harden_admin_zone_registry.py:173-199 | the first event of a publication records its creation as a draft, every other one a transition from its current state |
| RegistryContract.PublicationIsUpdatedExactlyWhen | migrations/versions/b4d1e6f9a730_harden_admin_zone_registry.py:132-212 | a publication is rewritten exactly when nothing changes, or its newest event records the very transition, the flag follows the state, its package is in a state for it and no other publication of the zone is active |
| RegistryContract.ReasonAndActorAreKept | migrations/versions/b4d1e6f9a730_harden_admin_zone_registry.py:166-172 | outside a transition neither reason nor actor nor anything else is rewritten |
| RegistryContract.ZoneIsDeletedExactlyWhen | migrations/versions/c6d4f13a9b20_spatial_zone_contract.py:35-44 | a zone can go exactly while it has no revision |
| RegistryContract.IncidentIsDeletedExactlyWhen | src/fire_viewer/db/models.py:193-310 | an incident can go, as far as these tables refer to it, exactly while it has no episode and no capture |
| RegistryContract.EpisodeIsUpdatedExactlyWhen | migrations/versions/e7a4c9d8f2b1_observation_incident_episode_integrity.py:188-196 | an episode stays with its incident and is current only alone |
| RegistryContract.EpisodeIsDeletedExactlyWhen | src/fire_viewer/db/models.py:1253-1402 | an episode can go exactly while no observation, manifest or legacy asset links to it |
| RegistryContract.ObservationIsWrittenExactlyWhen | migrations/versions/e7a4c9d8f2b1_observation_incident_episode_integrity.py:150-186 | both links of an observation name an incident and one of its episodes, or neither |
| RegistryContract.AssetIsWrittenExactlyWhen | migrations/versions/e6f3a1b8c420_incident_spatial_package_binding.py:40-62 | revision, GLB file and legacy provenance fit; an update keeps digest, provenance and a set revision |
| RegistryContract.AssetIsDeletedExactlyWhen | src/fire_viewer/db/models.py:1404-1404 | an asset can go exactly while no manifest has it |
| RegistryContract.ManifestIsInsertedExactlyWhen | migrations/versions/d2a6e8f1b430_allow_tiled_package_manifest.py:108-210 | episode and incident, revision, asset and package agree, and a package is bound only while previewable or published |
| RegistryContract.ManifestIsUpdatedExactlyWhen | migrations/versions/d2a6e8f1b430_allow_tiled_package_manifest.py:138-210 | asset and revision stay, the links agree, and a package that the update names is bound anew |
| RegistryContract.CaptureIsTakenExactlyWhen | migrations/versions/c6d4f13a9b20_spatial_zone_contract.py:132-162 | a capture is taken exactly of the current manifest of an incident whose current episode is closed, with its asset, revision and digest, once |
| RegistryContract.UpdatesReplaceTheirRow | migrations/versions/a3c9e5d7b620_zone_publication_state_machine.py:53-79 | a committed update changes one row of one table; UpdatesAssignTheirColumns and UpdatesAssignTheirLinks say which columns |
| RegistryContract.InsertsAddTheirRow | migrations/versions/a3c9e5d7b620_zone_publication_state_machine.py:53-79 | a committed insert adds one row to one table, or appends one event |
| RegistryContract.DeletesRemoveTheirRow | migrations/versions/a3c9e5d7b620_zone_publication_state_machine.py:53-79 | a committed deletion removes one row of one table |
| RegistryWitness.TransitionCommitsExactlyWhen | migrations/versions/b4d1e6f9a730_harden_admin_zone_registry.py:143-212 | recording an event and then changing the state goes through exactly when the transition is allowed, and its target is ready: the package is in a state for it, and for PUBLISHED the zone has no other active publication |
| RegistryWitness.SomePublicationIsActive | migrations/versions/b4d1e6f9a730_harden_admin_zone_registry.py:143-165 | some run reaches an active publication |
| RegistryWitness.PreviewableMayLoseItsPackage | migrations/versions/b4d1e6f9a730_harden_admin_zone_registry.py:100-108 | some run leaves a previewable publication with a revoked package |
| RegistryBacking.UnbackedExactlyWhen | migrations/versions/b4d1e6f9a730_harden_admin_zone_registry.py:100-165 | a previewable, published or withdrawn publication has a package that came at least as far, and is unbacked exactly if that package was withdrawn, revoked or archived |
| RegistryBacking.PreviewableIsUnbackedExactlyWhen | migrations/versions/b4d1e6f9a730_harden_admin_zone_registry.py:100-165 | in every reachable state a previewable publication is unbacked exactly in those cases |
| RegistryBacking.BackingIsLostExactlyWhen | migrations/versions/b4d1e6f9a730_harden_admin_zone_registry.py:100-108 | a committed operation takes the backing away exactly if it withdraws, revokes or archives the package |
| RegistryBacking.BackingIsRestoredExactlyWhen | migrations/versions/b4d1e6f9a730_harden_admin_zone_registry.py:81-99 | a lost backing comes back exactly if the withdrawn package is published again |
| RegistryBacking.BackingIsLostOverRunExactlyWhen | migrations/versions/b4d1e6f9a730_harden_admin_zone_registry.py:81-108 | over any run a backed publication ends unbacked exactly if the last such move of its package was a loss |
| RegistryBacking.RevocationIsForEver | migrations/versions/b4d1e6f9a730_harden_admin_zone_registry.py:20-28 | once a package is revoked or archived no publication of it is ever active or backed again |
| RegistryPermanence.FrozenRowsStay | migrations/versions/c6d4f13a9b20_spatial_zone_contract.py:35-172 | over any run revisions, package files and captures stay, events are only appended, packages and publications never disappear, and a publication keeps zone, revision and package |
| RegistryPermanence.ManifestStays | migrations/versions/d2a6e8f1b430_allow_tiled_package_manifest.py:201-210 | over any run that does not delete it a manifest keeps its asset and revision |
| RegistryPermanence.AssetStays | migrations/versions/c6d4f13a9b20_spatial_zone_contract.py:45-90 | over any run that does not delete it an asset keeps digest, provenance and, once set, its revision |
| RegistryDrift.CaptureDriftsExactlyWhen | migrations/versions/c6d4f13a9b20_spatial_zone_contract.py:109-162 | a capture stops agreeing with its manifest's incident exactly when an update moves the manifest to another incident |
| RegistryDrift.CaptureMayDrift | migrations/versions/c6d4f13a9b20_spatial_zone_contract.py:109-131 | some run does that |
| RegistryDrift.FileDriftsExactlyWhen | migrations/versions/e6f3a1b8c420_incident_spatial_package_binding.py:51-62 | a bound package stops being that of its asset's file exactly when an update leaves the asset without a file of it |
| RegistryDrift.FileMayDrift | migrations/versions/e6f3a1b8c420_incident_spatial_package_binding.py:51-62 | some run does that |
| WorkerValidator.ValidateOutput | src/fire_viewer/domain/agent_schemas.py:1692-1797 | the imperative validator accepts exactly the sound outputs, which are those without any of the order-free faults, and reports a fault the output has |
| WorkerValidator.CheckResults | src/fire_viewer/domain/agent_schemas.py:1715-1781 | the loop with its accumulating coverage passes exactly the clean results, and ends with what they cover |
| WorkerValidator.CheckHeader | src/fire_viewer/domain/agent_schemas.py:1694-1720 | a reported fault is real, and none means none of the header faults |
| WorkerValidator.CheckItems | src/fire_viewer/domain/agent_schemas.py:1784-1796 | a reported fault is real, and none means unique inputs and facts and a report on known facts |
| WorkerAcceptance.AcceptedExactlyWhenSound | src/fire_viewer/domain/agent_schemas.py:1692-1797 | the accepted outputs are exactly the sound ones: ordered traces, unique keys, every run named by one result only, each result of runs of its stage with its judge, its trace and a selected run that the stage's own model backs |
| WorkerAcceptance.SelectionIsSound | src/fire_viewer/domain/agent_schemas.py:1721-1781 | a selection is faultless exactly when the selected run succeeded and the model run of the role that backs its stage, named stage by stage, has its model and revision |
| WorkerParts.RunShapes | src/fire_viewer/domain/agent_schemas.py:1512-1531 | a candidate run is timed and has one of three shapes: an output with its own digest, an error, or neither |
| WorkerParts.ConsensusShapes | src/fire_viewer/domain/agent_schemas.py:1552-1579 | a consensus result selects directly, selects with a judge that is no candidate, or blocks, beside its bookkeeping |
| WorkerParts.TraceShapes | src/fire_viewer/domain/agent_schemas.py:1619-1673 | a stage trace has its stage's contract name, its gates in place and no, one or two attempts of which the last decides its status |
| WorkerParts.ItemShapes | src/fire_viewer/domain/agent_schemas.py:1428-1448 | an item's identifiers differ, its proposals point to its annotations and its facts to itself |
| WorkerPartition.CoversItsStage | src/fire_viewer/domain/agent_schemas.py:1730-1762 | in an accepted output a result covers every candidate run of its stage |
| WorkerPartition.CoveredIsOfStage | src/fire_viewer/domain/agent_schemas.py:1733-1750 | in an accepted output a result covers candidate runs of its own stage only |
| WorkerPartition.ResultsPartitionRuns | src/fire_viewer/domain/agent_schemas.py:1552-1783 | the results of an accepted output partition its candidate runs, and their sizes add up to the number of runs |
| WorkerPartition.ReleaseCoincides | src/fire_viewer/domain/agent_schemas.py:1568-1769 | accepting decision, selected candidate, downstream release and succeeded trace coincide, and a succeeded trace is one success or a failed initial attempt and a successful repair |
| WorkerPartition.ResultHasTrace | src/fire_viewer/domain/agent_schemas.py:1696-1765 | every result of an accepted output has exactly one stage trace |
| WorkerPartition.ReleasedStageIsModelBacked | src/fire_viewer/domain/agent_schemas.py:1721-1781 | a released stage is one of the six model-backed ones, its selected run succeeded with its own digest, and the one model run of that stage's role, named role by role, has the same model and revision |
| PythonText.PyIntOfDecimal | src/fire_viewer/api/incidents.py:114-118 | parsing a printed number gives it back, exactly up to the digit limit |
| PythonText.OrdinaryNumbersAreRead | src/fire_viewer/api/incidents.py:114-118 | every number below 10 to the 18 is read back from its decimal form |
| PythonText.SpellingsAreRead | src/fire_viewer/api/incidents.py:114-118 | spaces around a number, a sign and single underscores between digits do not matter to its value |
| PythonText.FoldsToBytes | src/fire_viewer/api/incidents.py:112-112 | the unit comparison accepts "bytes" in any capitals and nothing else |
| PythonText.DecimalDigits | src/fire_viewer/api/incidents.py:129-131 | a number is printed digit by digit, most significant first and without leading zeros |
| PythonText.NoMinusNoNegative | src/fire_viewer/api/incidents.py:109-115 | a text without a minus sign never parses to a negative number |
| PythonText.PartitionAt | src/fire_viewer/api/incidents.py:108-109 | partitioning at a separator that does not occur before it recovers both sides |
| ByteRange.ParseRange | src/fire_viewer/api/incidents.py:107-125 | the window is what the range that the header denotes selects, for every file of that size; a header that denotes no range gets none |
| ByteRange.PublicSceneBinary | src/fire_viewer/api/incidents.py:91-138 | 304 exactly for the file's own ETag, 200 exactly without a Range header and with the whole file, and otherwise a range that the header denotes is answered 206 with exactly the bytes it selects and a Content-Range that describes them, or 416 with the size; a header that denotes no range is answered 416 |
| ByteRange.SomeRangeIsUnreadable | src/fire_viewer/api/incidents.py:111-127 | for every file that is not empty some printed range selects bytes and gets no window |
| ByteRange.PrintedWindow | src/fire_viewer/api/incidents.py:107-125 | printing any closed, open-ended or suffix range and parsing it recovers exactly the bytes it selects, up to the digit limit |
| ByteRange.DenotedIsFound | src/fire_viewer/api/incidents.py:107-125 | a header that denotes a range, in any spelling of its unit and numbers, gets exactly what that range selects, or no window if it selects nothing |
| ByteRange.FoundIsDenoted | src/fire_viewer/api/incidents.py:107-125 | and every header that gets a window denotes a range |
| ByteRange.PrintedRangeServed | src/fire_viewer/api/incidents.py:107-137 | a range that selects something is answered 206 with those bytes, any other 416 with the size |
| ByteRange.ContentRangeReadBack | src/fire_viewer/api/incidents.py:131-131 | a printed Content-Range reads back to its three numbers |
| ByteRange.ServedIsDescribed | src/fire_viewer/api/incidents.py:105-138 | whatever the request headers, a 206 body is what its Content-Range says and a 200 is the whole file |
| ByteRange.ServedHeaders | src/fire_viewer/api/incidents.py:99-138 | 304 answers the file's own ETag and nothing else, every answer carries the base headers, and only 206 and 416 carry a Content-Range |
| ByteRange.OrdinaryRangeIsDenoted | src/fire_viewer/api/incidents.py:107-125 | a printed range with numbers below 10 to the 18 denotes itself, so the endpoint serves what it selects |
| ByteRange.OrdinaryDownloadIsTheFile | src/fire_viewer/api/incidents.py:107-137 | every file and chunk of that size reassembles, without any condition on digits |
| ByteRange.DownloadIsTheFile | src/fire_viewer/api/incidents.py:107-137 | fetching consecutive chunks of any size until 416 reassembles exactly the file |
| BodyLimit.BodySizeLimit.Call | src/fire_viewer/api/middleware.py:42-70 | the guard rejects at the first prefix over the limit or on a bad declared length, passes other methods through, and otherwise buffers up to the first final message |
| BodyLimit.BodySizeLimit.Buffer | src/fire_viewer/api/middleware.py:57-70 | the buffering loop against the description over the whole stream |
| BodyLimit.ExpectedIsUnique | src/fire_viewer/api/middleware.py:42-70 | that description admits one outcome for each stream |
| BodyLimit.OnlyUploadsAreGuarded | src/fire_viewer/api/middleware.py:43-45 | exactly POST, PUT and PATCH over HTTP are guarded |
| BodyLimit.DeclaredLengthDecides | src/fire_viewer/api/middleware.py:47-57 | an upload is refused before it is read exactly if its declared length is over the limit |
| BodyLimit.UndeclaredIsRead | src/fire_viewer/api/middleware.py:47-49 | without a declared length the body is read |
| BodyLimit.CompleteBodyIsReplayed | src/fire_viewer/api/middleware.py:59-82 | a complete body within the limit reaches the application: exactly the messages up to its end |
| BodyLimit.LargeBodyIsRejected | src/fire_viewer/api/middleware.py:66-69 | a body is refused at the first message that takes it over the limit |
| BodyLimit.Replay.Receive | src/fire_viewer/api/middleware.py:74-80 | all calls together receive the buffered messages in order and then empty final ones |
| BodyLimit.ReplayedMessage | src/fire_viewer/api/middleware.py:74-80 | the n-th message of a replay is the buffered one, and after the buffer an empty body with no more to come |
| BodyLimit.ReplayIsWithinLimit | src/fire_viewer/api/middleware.py:57-82 | the application reads a prefix of the original stream, never more body bytes than the limit, and exactly the buffered body once the buffer is read |
| AdminSession.SessionStore.NewLocalSession | src/fire_viewer/core/security.py:122-136 | opening a session keeps the rows equal to the history; a duplicate digest changes nothing |
| AdminSession.SessionStore.ActorFromRequest | src/fire_viewer/core/security.py:153-183 | the answer read off the row is the one the history demands, and a refused request changes no row |
| AdminSession.SessionStore.Logout | src/fire_viewer/api/admin.py:367-388 | logging out authenticates like any request and then revokes its own session |
| AdminSession.GrantedExactlyWhenEntitled | src/fire_viewer/core/security.py:153-183 | in every history a request is granted exactly when its token was issued less than 3600 times the session hours ago, last used less than 60 times the idle minutes ago and never logged out, and an unsafe method brings the session's CSRF token; it is unauthorized exactly when the session does not live and forbidden exactly when only the token differs |
| AdminSession.WithoutCookieOrTwice | src/fire_viewer/core/security.py:126-163 | a request without a session cookie is unauthorized, and a token is issued exactly once |
| AdminSession.RefusalIsFinal | src/fire_viewer/core/security.py:164-170 | with an ordered clock, a token refused once is refused for ever |
| AdminSession.OnlyEffectiveCallsCount | src/fire_viewer/core/security.py:164-177 | refused requests and other tokens' calls never extend or end a session |
| AdminSession.SameEffectSameAnswer | src/fire_viewer/core/security.py:153-183 | two histories with the same effective calls of a token answer its requests alike |
| LoginWindow.LoginGate.Post | src/fire_viewer/api/admin.py:333-354 | the attempt table equals the refusals of the history; a refused login leaves an attempt and no session, a welcomed one opens a session |
| LoginWindow.WelcomedExactlyWhen | src/fire_viewer/api/admin.py:333-354 | a login is welcomed exactly when its credentials are right and fewer than the limit of its origin's refusals lie in the last fifteen minutes |
| LoginWindow.GuessesAreLimited | src/fire_viewer/api/admin.py:335-353 | in no fifteen minutes are more than the limit of an origin's wrong guesses made with the gate open |
| LoginWindow.OtherOriginsNeverMatter | src/fire_viewer/api/admin.py:336-345 | an origin's logins alone form a run with the same answers |
| Sha256Check.Sha256HexCheck | src/fire_viewer/db/models.py:78-84 | the loop generates the text of the intended expression |
| Sha256Check.NestedText | src/fire_viewer/db/models.py:81-83 | one round of the nesting is one replace call around the text so far |
| Sha256Check.TrueExactlyForCountedDigest | src/fire_viewer/db/models.py:78-84 | on text the predicate is true exactly when the part before the first NUL is 64 hexadecimal digits, and otherwise false |
| Sha256Check.NullPasses | src/fire_viewer/db/models.py:78-84 | on NULL the predicate is unknown, so the CHECK passes |
| Sha256Check.PassesExactlyForDigest | src/fire_viewer/domain/agent_schemas.py:32-32 | text without NUL passes exactly when it matches the digest pattern of the request models |
| Sha256Check.PassesWithoutBeingDigest | src/fire_viewer/db/models.py:78-84 | the other texts that pass are exactly a digest, NUL and anything |
| Sha256Check.NulHidesTheRest | src/fire_viewer/db/models.py:78-84 | a concrete text of that family |
| Geometry.AcceptedEndsInPositions | src/fire_viewer/domain/geometry_contract.py:31-78 | whatever its type, an accepted geometry nests down to in-bounds positions and nothing else |
| Geometry.AcceptedExactlyWhenShaped | src/fire_viewer/domain/geometry_contract.py:11-78 | points, lines and areas are accepted exactly when their coordinates are in-bounds positions nested as deep as the type demands, with paths of two positions and closed rings of four |
| SpatialInputs.AnnotationAcceptedExactlyWhen | src/fire_viewer/domain/agent_schemas.py:1125-1178 | which annotations are accepted, field by field of the input, and what they become |
| SpatialInputs.ProposalAcceptedExactlyWhen | src/fire_viewer/domain/agent_schemas.py:1181-1285 | which proposals are accepted, field by field of the input with every bound, and what they become |
| SpatialContract.SourceAnnotation.Validate | src/fire_viewer/domain/agent_schemas.py:1134-1178 | validation accepts exactly when some completion of what was supplied is coherent, and the object becomes it |
| SpatialContract.AnnotationSettles | src/fire_viewer/domain/agent_schemas.py:1134-1178 | a coherent completion is unique, and validating twice changes nothing |
| SpatialContract.AnnotationFitsTable | src/fire_viewer/db/models.py:2118-2159 | every accepted annotation satisfies the table's CHECKs, with a source position exactly for point anchors, and that position is its point |
| SpatialContract.SpatialProposal.Validate | src/fire_viewer/domain/agent_schemas.py:1204-1285 | as for annotations, for the three kinds of proposal |
| SpatialContract.SpatialProposal.ValidateGround | src/fire_viewer/domain/agent_schemas.py:1208-1228 | the ground-point branch |
| SpatialContract.SpatialProposal.ValidateProjected | src/fire_viewer/domain/agent_schemas.py:1229-1269 | the projected-geometry branch |
| SpatialContract.ProposalSettles | src/fire_viewer/domain/agent_schemas.py:1204-1285 | a coherent completion is unique, and validating twice changes nothing |
| SpatialContract.ProposalFitsTable | src/fire_viewer/services/agent_intelligence.py:272-310 | every accepted proposal satisfies the table's CHECKs, and a stored Point holds its own longitude and latitude |
| SpatialContract.AcceptedPointAgreesExactlyWhen | src/fire_viewer/domain/agent_schemas.py:1208-1228 | before storage a Point agrees with longitude and latitude except exactly for ground points that supplied another geometry |
| SpatialContract.GroundPointMayDisagree | src/fire_viewer/domain/agent_schemas.py:1222-1228 | a case of that family |
| SpatialContract.FactIsOneValue | src/fire_viewer/domain/agent_schemas.py:1362-1373 | a fact is accepted exactly if it is dated with a timezone and states one typed value of proper length, with a unit only for a quantity; then it satisfies the table's CHECKs |

## Left out

- PostgreSQL: it has none of the b4d1 triggers (migrations/versions/b4d1e6f9a730_harden_admin_zone_registry.py:228-230), so the registry is the SQLite schema.
- Registry columns without a part in the results: public text ids, URIs, sizes and their CHECKs and unique constraints, revision and ordinal numbers, level of detail. Leaving a constraint out makes the model commit more, so its safety theorems still cover the database.
- RegistryContract.ZoneIsDeletedExactlyWhen: foreign keys from other tables to zones are not part of this model, so the database may refuse more deletions.
- RegistryContract.IncidentIsDeletedExactlyWhen: the same for foreign keys from other tables to incidents.
- RegistryContract.EpisodeIsDeletedExactlyWhen: the same for foreign keys from other tables to episodes.
- AdminSession.SessionStore.constructor: the bounds of the configured hours, minutes and login limit are not modelled; the results hold for any values.
- RegistryTables.Registry.UpdatePublication: a Boolean column written with a number other than 0 or 1 by hand is not modelled (see above); it is the one simplification here that makes the model commit less than SQLite.
- Statements over several rows (a sequence of row operations here), `INSERT OR REPLACE`, primary-key updates and explicit event ids.
- The verification report is reduced to: not JSON, not an object, or an object with or without the text status; the other provenance columns of a legacy asset to all NULL, some NULL or all given.
- WorkerValidator.ValidateOutput: `successful_candidates` is compared with the number of candidates only, as in the source; load times, memory, agreement scores, gates' capability lists and free texts are not modelled.
- JSON canonicalisation and SHA-256: the hash of a payload is a function parameter.
- ByteRange.PublicSceneBinary: media types, other response headers and If-None-Match lists are not modelled; the server compares the header to one ETag, and so does the model. Unknown units and multiple ranges are answered 416, as in the source, where RFC 9110 section 14.2 would allow ignoring them.
- PythonText.PyIntOfDecimal: only ASCII digits, whitespace, signs and underscores are modelled, as header values hold no other decimal digits.
- BodyLimit.BodySizeLimit.Call: a stream is the finite sequence of messages received so far; the 413 response body and concurrency between receive and disconnect are not modelled.
- AdminSession.SessionStore.ActorFromRequest: JWT and disabled modes, scrypt, token generation and cookies are foreign. Requests are processed one at a time, so two requests that interleave between reading and writing one row are not covered.
- LoginWindow.LoginGate.Post: logins are processed one at a time; concurrent logins could each count before either records its attempt.
- Sha256Check.TrueExactlyForCountedDigest: values are text or NULL; a BLOB in the column is not modelled.
- Geometry: numbers are reals, so float rounding, and the overflow of integers too large for a float, are not modelled.
- SpatialContract.SpatialProposal.Validate: identifier patterns and closed vocabularies are enumerations or plain strings; the reference-manifest check of the dispatch (src/fire_viewer/services/agent_intelligence.py:225-232) is not part of this model.
- Service modules (detection, matching, dispatching, publication services), PostGIS synchronisation, RTree triggers, routing, CORS, settings validation, and the bulletin, gallery and operational tables.
