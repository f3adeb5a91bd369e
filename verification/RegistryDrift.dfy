/**
 Two links that hold when they are made and may drift later: a capture's incident beside
 its manifest's, and a bound package beside the package of its asset's file. Each comes
 with the exact operation that makes it drift and a run that does.
 */
module RegistryDrift {
  import opened Common
  import opened Lifecycle
  import opened RegistrySchema
  import opened RegistryInvariant
  import opened RegistryRuns
  import opened RegistryWitness

  /** The capture is of its manifest's incident, as it was when it was taken. */
  predicate CaptureAgrees(db: Db, s: nat) {
    && s in db.shots && db.shots[s].manifest in db.manifests
    && db.manifests[db.shots[s].manifest].incident == db.shots[s].incident
  }

  /** It stops agreeing exactly when an update moves the manifest to another incident. */
  lemma CaptureDriftsExactlyWhen(db: Db, op: Op, s: nat)
    requires Inv(db) && Commits(db, op) && CaptureAgrees(db, s)
    ensures !CaptureAgrees(Result(db, op), s) <==>
            && op.UpdateManifest? && op.id == db.shots[s].manifest
            && NewManifest(db.manifests[op.id], op.manifestChange).incident != db.shots[s].incident
  {
    ShotStepOf(db, op, s);
  }

  /** A manifest with an asset and a package has the package of its asset's file. */
  predicate FileAgrees(db: Db, k: nat) {
    k in db.manifests && db.manifests[k].asset.Some? && db.manifests[k].package.Some? ==>
      db.manifests[k].asset.value in db.assets
      && FileOf(db.files, db.assets[db.manifests[k].asset.value], db.manifests[k].package.value)
  }

  predicate FileOf(files: Files, a: Asset, package: nat) {
    a.file.Some? && a.file.value in files && files[a.file.value].package == package
  }

  /** It stops agreeing exactly when an update leaves the asset without a file of the bound package. */
  lemma FileDriftsExactlyWhen(db: Db, op: Op, k: nat)
    requires Inv(db) && Commits(db, op) && FileAgrees(db, k)
    ensures !FileAgrees(Result(db, op), k) <==>
            && k in db.manifests && db.manifests[k].package.Some?
            && op.UpdateAsset? && db.manifests[k].asset == Some(op.id)
            && !FileOf(db.files, NewAsset(db.assets[op.id], op.assetChange), db.manifests[k].package.value)
  {
  }

  // ---- Runs in which they drift ----

  /** Adds two incidents with an episode each, the first of them current and closed. */
  lemma AddEpisodes(ops: seq<Op>) returns (longer: seq<Op>)
    requires Reach(ops).incidents == {} && Reach(ops).episodes == map[]
    ensures Reach(longer) == Reach(ops).(incidents := {0, 1}, episodes := EPISODES)
  {
    longer := Do(ops, InsertIncident(0));
    longer := Do(longer, InsertIncident(1));
    longer := AddEpisode(longer, 0, Episode(0, true, true));
    longer := AddEpisode(longer, 1, Episode(1, false, false));
  }

  const EPISODES := map[0 := Episode(0, true, true), 1 := Episode(1, false, false)]

  lemma AddEpisode(ops: seq<Op>, k: nat, e: Episode) returns (longer: seq<Op>)
    requires EpisodeInsert(Reach(ops), k, e)
    ensures Reach(longer) == Reach(ops).(episodes := Reach(ops).episodes[k := e])
  {
    longer := Do(ops, InsertEpisode(k, e));
  }

  lemma AddAsset(ops: seq<Op>, k: nat, a: Asset) returns (longer: seq<Op>)
    requires AssetInsert(Reach(ops), k, a)
    ensures Reach(longer) == Reach(ops).(assets := Reach(ops).assets[k := a])
  {
    longer := Do(ops, InsertAsset(k, a));
  }

  lemma AddManifest(ops: seq<Op>, k: nat, m: Manifest) returns (longer: seq<Op>)
    requires ManifestInsert(Reach(ops), k, m)
    ensures Reach(longer) == Reach(ops).(manifests := Reach(ops).manifests[k := m])
  {
    longer := Do(ops, InsertManifest(k, m));
  }

  lemma AddFile(ops: seq<Op>, k: nat, f: PackageFile) returns (longer: seq<Op>)
    requires FileInsert(Reach(ops), k, f)
    ensures Reach(longer) == Reach(ops).(files := Reach(ops).files[k := f])
  {
    longer := Do(ops, InsertFile(k, f));
  }

  function SceneAsset(file: Option<nat>): Asset {
    Asset(Link(None, None), NoFrame, Some(0), file, "sha", false)
  }

  const SHOT := ArchiveShot(0, 0, 0, 0, "sha")

  lemma Captured() returns (ops: seq<Op>)
    ensures 0 in Reach(ops).manifests && 0 in Reach(ops).shots && Reach(ops).shots[0] == SHOT
    ensures Reach(ops).manifests == map[0 := Manifest(0, 0, Some(0), Some(0), None, true)]
    ensures Reach(ops).episodes == EPISODES
    ensures Reach(ops).assets == map[0 := SceneAsset(None)]
  {
    ops := OneRevision();
    ops := AddEpisodes(ops);
    ops := AddAsset(ops, 0, SceneAsset(None));
    ops := AddManifest(ops, 0, Manifest(0, 0, Some(0), Some(0), None, true));
    assert ShotInsert(Reach(ops), 0, SHOT);
    ops := Do(ops, InsertShot(0, SHOT));
  }

  /** After some run a capture is of another incident than its manifest. */
  lemma CaptureMayDrift()
    ensures exists ops :: 0 in Reach(ops).shots && !CaptureAgrees(Reach(ops), 0)
  {
    var ops := Captured();
    var move := ManifestChange(Set(1), Set(1), Kept, Kept, Kept, Kept);
    assert ManifestUpdate(Reach(ops), 0, move);
    assert CaptureAgrees(Reach(ops), 0);
    ReachSafe(ops);
    CaptureDriftsExactlyWhen(Reach(ops), UpdateManifest(0, move), 0);
    ShotStepOf(Reach(ops), UpdateManifest(0, move), 0);
    var longer := Do(ops, UpdateManifest(0, move));
    assert 0 in Reach(longer).shots && !CaptureAgrees(Reach(longer), 0);
  }

  const FILES := map[0 := PackageFile(0, Glb), 1 := PackageFile(1, Glb)]

  lemma TwoPackages() returns (ops: seq<Op>)
    ensures Reach(ops) == EMPTY.(zones := {0}, revisions := map[0 := 0], files := FILES,
                                 packages := map[0 := PackageTo(Previewable, Some(0)),
                                                 1 := PackageTo(Previewable, Some(0))])
  {
    ops := PreviewablePackage();
    ops := AddPreviewable(ops, 1);
    ops := AddFile(ops, 0, PackageFile(0, Glb));
    ops := AddFile(ops, 1, PackageFile(1, Glb));
  }

  lemma Bound() returns (ops: seq<Op>)
    ensures Reach(ops).manifests == map[0 := Manifest(0, 0, Some(0), Some(0), Some(0), true)]
    ensures Reach(ops).assets == map[0 := SceneAsset(Some(0))]
    ensures Reach(ops).files == FILES && Reach(ops).revisions == map[0 := 0]
    ensures Reach(ops).packages == map[0 := PackageTo(Previewable, Some(0)), 1 := PackageTo(Previewable, Some(0))]
  {
    ops := TwoPackages();
    ops := AddEpisodes(ops);
    ops := AddAsset(ops, 0, SceneAsset(Some(0)));
    ops := AddManifest(ops, 0, Manifest(0, 0, Some(0), Some(0), Some(0), true));
  }

  /** After some run a bound package is not that of its asset's file. */
  lemma FileMayDrift()
    ensures exists ops :: !FileAgrees(Reach(ops), 0)
  {
    var ops := Bound();
    var point := AssetChange(LinkChange(Kept, Kept), Kept, Kept, Set(Some(1)), Kept, Kept);
    assert AssetUpdate(Reach(ops), 0, point);
    assert FileAgrees(Reach(ops), 0);
    ReachSafe(ops);
    FileDriftsExactlyWhen(Reach(ops), UpdateAsset(0, point), 0);
    var longer := Do(ops, UpdateAsset(0, point));
    assert !FileAgrees(Reach(longer), 0);
  }
}
