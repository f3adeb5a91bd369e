/** What no later operation can change, row by row, over whole runs. */
module RegistryPermanence {
  import opened Common
  import opened Lifecycle
  import opened RegistrySchema
  import opened RegistryInvariant
  import opened RegistryRuns

  /** Every row of `a` is still there in `b`, unchanged. */
  ghost predicate Contains<T(!new)>(a: map<nat, T>, b: map<nat, T>) {
    forall k :: k in a ==> k in b && b[k] == a[k]
  }

  /** The identity of a publication: what it publishes where. */
  predicate SamePublication(a: Publication, b: Publication) {
    a.zone == b.zone && a.rev == b.rev && a.package == b.package
  }

  ghost predicate SamePublications(a: Publications, b: Publications) {
    forall k :: k in a ==> k in b && SamePublication(a[k], b[k])
  }

  /** What the unconditional and the identity triggers freeze. */
  ghost predicate FrozenKept(db: Db, later: Db) {
    && Contains(db.revisions, later.revisions)
    && Contains(db.files, later.files)
    && Contains(db.shots, later.shots)
    && db.events <= later.events
    && db.packages.Keys <= later.packages.Keys
    && SamePublications(db.publications, later.publications)
  }

  lemma RevisionStepOf(db: Db, op: Op, k: nat)
    requires k in db.revisions
    ensures k in Exec(db, op).revisions && Exec(db, op).revisions[k] == db.revisions[k]
  {
  }

  lemma FileStepOf(db: Db, op: Op, k: nat)
    requires k in db.files
    ensures k in Exec(db, op).files && Exec(db, op).files[k] == db.files[k]
  {
  }

  lemma FrozenStep(db: Db, op: Op)
    ensures FrozenKept(db, Exec(db, op))
  {
    EventStepOf(db, op);
    forall k | k in db.revisions ensures k in Exec(db, op).revisions && Exec(db, op).revisions[k] == db.revisions[k] {
      RevisionStepOf(db, op, k);
    }
    forall k | k in db.files ensures k in Exec(db, op).files && Exec(db, op).files[k] == db.files[k] {
      FileStepOf(db, op, k);
    }
    forall k | k in db.shots ensures k in Exec(db, op).shots && Exec(db, op).shots[k] == db.shots[k] {
      ShotStepOf(db, op, k);
    }
    forall k | k in db.packages ensures k in Exec(db, op).packages {
      PackageAfterStep(db, op, k);
    }
    forall k | k in db.publications
      ensures k in Exec(db, op).publications && SamePublication(db.publications[k], Exec(db, op).publications[k])
    {
      PublicationAfterStep(db, op, k);
      PublicationStepOf(db, op, k);
    }
  }

  lemma FrozenChain(a: Db, b: Db, c: Db)
    requires FrozenKept(a, b) && FrozenKept(b, c)
    ensures FrozenKept(a, c)
  {
  }

  /**
   Over any run: revisions, package files and captures stay as they are, events are only
   appended, no package or publication disappears, and a publication keeps zone, revision
   and package.
   */
  lemma {:induction false} FrozenRowsStay(ops: seq<Op>, more: seq<Op>)
    ensures FrozenKept(Reach(ops), Reach(ops + more))
  {
    if more == [] {
      assert ops + more == ops;
    } else {
      var before := ops + more[..|more| - 1];
      FrozenRowsStay(ops, more[..|more| - 1]);
      ReachNext(ops, more);
      FrozenStep(Reach(before), more[|more| - 1]);
      FrozenChain(Reach(ops), Reach(before), Reach(ops + more));
    }
  }

  /** What a manifest keeps while it exists. */
  predicate SameManifest(a: Manifest, b: Manifest) {
    a.asset == b.asset && a.rev == b.rev
  }

  /** What an asset keeps while it exists; its revision is written once. */
  predicate SameAsset(a: Asset, b: Asset) {
    a.sha == b.sha && a.legacy == b.legacy && a.frame == b.frame && (a.rev.Some? ==> b.rev == a.rev)
  }

  function ManifestAfter(db: Db, op: Op, k: nat): Manifest
    requires k in db.manifests
  {
    if op.UpdateManifest? && op.id == k && ManifestUpdate(db, k, op.manifestChange)
    then NewManifest(db.manifests[k], op.manifestChange)
    else db.manifests[k]
  }

  lemma ManifestAfterStep(db: Db, op: Op, k: nat)
    requires k in db.manifests && op != DeleteManifest(k)
    ensures k in Exec(db, op).manifests && Exec(db, op).manifests[k] == ManifestAfter(db, op, k)
  {
  }

  lemma ManifestStepOf(db: Db, op: Op, k: nat)
    requires k in db.manifests
    ensures SameManifest(db.manifests[k], ManifestAfter(db, op, k))
  {
  }

  function AssetAfter(db: Db, op: Op, k: nat): Asset
    requires k in db.assets
  {
    if op.UpdateAsset? && op.id == k && AssetUpdate(db, k, op.assetChange)
    then NewAsset(db.assets[k], op.assetChange)
    else db.assets[k]
  }

  lemma AssetAfterStep(db: Db, op: Op, k: nat)
    requires k in db.assets && op != DeleteAsset(k)
    ensures k in Exec(db, op).assets && Exec(db, op).assets[k] == AssetAfter(db, op, k)
  {
  }

  lemma AssetStepOf(db: Db, op: Op, k: nat)
    requires k in db.assets
    ensures SameAsset(db.assets[k], AssetAfter(db, op, k))
  {
  }

  /** Over any run that does not delete it, a manifest keeps its asset and its revision. */
  lemma {:induction false} ManifestStays(ops: seq<Op>, more: seq<Op>, k: nat)
    requires k in Reach(ops).manifests && DeleteManifest(k) !in more
    ensures k in Reach(ops + more).manifests
    ensures SameManifest(Reach(ops).manifests[k], Reach(ops + more).manifests[k])
  {
    if more == [] {
      assert ops + more == ops;
    } else {
      ManifestStays(ops, more[..|more| - 1], k);
      ReachNext(ops, more);
      ManifestAfterStep(Reach(ops + more[..|more| - 1]), more[|more| - 1], k);
      ManifestStepOf(Reach(ops + more[..|more| - 1]), more[|more| - 1], k);
    }
  }

  /** Over any run that does not delete it, an asset keeps digest, provenance and, once set, its revision. */
  lemma {:induction false} AssetStays(ops: seq<Op>, more: seq<Op>, k: nat)
    requires k in Reach(ops).assets && DeleteAsset(k) !in more
    ensures k in Reach(ops + more).assets
    ensures SameAsset(Reach(ops).assets[k], Reach(ops + more).assets[k])
  {
    if more == [] {
      assert ops + more == ops;
    } else {
      AssetStays(ops, more[..|more| - 1], k);
      ReachNext(ops, more);
      AssetAfterStep(Reach(ops + more[..|more| - 1]), more[|more| - 1], k);
      AssetStepOf(Reach(ops + more[..|more| - 1]), more[|more| - 1], k);
    }
  }
}
