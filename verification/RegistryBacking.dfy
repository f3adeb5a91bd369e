/**
 When a publication is backed, that is when its package can be previewed: which states of
 the two rows go together, which operation takes the backing away or restores it, and
 what is lost for good.
 */
module RegistryBacking {
  import opened Common
  import opened Lifecycle
  import opened RegistrySchema
  import opened RegistryInvariant
  import opened RegistryRuns

  const BACKING := {Previewable, Published}

  /** Is the package of publication `q` previewable or published? */
  predicate Backed(db: Db, q: nat) {
    && q in db.publications && db.publications[q].package in db.packages
    && db.packages[db.publications[q].package].state in BACKING
  }

  const LOST := {Withdrawn, Revoked, Archived}

  /** The operation updates the package of publication `q` and leaves it in one of `states`. */
  predicate Moves(db: Db, op: Op, q: nat, states: set<State>) {
    && q in db.publications && db.publications[q].package in db.packages
    && op.UpdatePackage? && op.id == db.publications[q].package
    && NewPackage(db.packages[op.id], op.packageChange).state in states
  }

  /**
   A previewable, published or withdrawn publication has a package that came at least as
   far, and so it is unbacked exactly if that package was withdrawn, revoked or archived.
   */
  lemma UnbackedExactlyWhen(db: Db, q: nat)
    requires Inv(db) && q in db.publications && 2 <= Rank(db.publications[q].state) <= 3
    ensures var pub := db.publications[q];
            && pub.package in db.packages
            && Rank(pub.state) <= Rank(db.packages[pub.package].state)
            && (!Backed(db, q) <==> db.packages[pub.package].state in LOST)
  {
    assert Holds(db, PreviewsRanked);
  }

  /** So it is in every reachable state. */
  lemma PreviewableIsUnbackedExactlyWhen(ops: seq<Op>, q: nat)
    requires q in Reach(ops).publications && Reach(ops).publications[q].state.Previewable?
    ensures Reach(ops).publications[q].package in Reach(ops).packages
    ensures !Backed(Reach(ops), q) <==> Reach(ops).packages[Reach(ops).publications[q].package].state in LOST
  {
    ReachSafe(ops);
    UnbackedExactlyWhen(Reach(ops), q);
  }

  /** A committed operation takes the backing away exactly if it withdraws, revokes or archives the package. */
  lemma BackingIsLostExactlyWhen(db: Db, op: Op, q: nat)
    requires Inv(db) && Commits(db, op) && Backed(db, q)
    ensures q in Result(db, op).publications
    ensures !Backed(Result(db, op), q) <==> Moves(db, op, q, LOST)
  {
    PublicationAfterStep(db, op, q);
    PublicationStepOf(db, op, q);
    PackageAfterStep(db, op, db.publications[q].package);
    PackageStepOf(db, op, db.publications[q].package);
  }

  /** And it restores a lost backing exactly if it publishes the withdrawn package again. */
  lemma BackingIsRestoredExactlyWhen(db: Db, op: Op, q: nat)
    requires Inv(db) && Commits(db, op)
    requires q in db.publications && db.publications[q].package in db.packages
    requires db.packages[db.publications[q].package].state in LOST
    ensures Backed(Result(db, op), q) <==> Moves(db, op, q, {Published})
    ensures Backed(Result(db, op), q) ==> db.packages[db.publications[q].package].state.Withdrawn?
    ensures !Backed(Result(db, op), q) ==>
              var k := db.publications[q].package;
              k in Result(db, op).packages && Result(db, op).packages[k].state in LOST
  {
    PublicationAfterStep(db, op, q);
    PublicationStepOf(db, op, q);
    PackageAfterStep(db, op, db.publications[q].package);
    PackageStepOf(db, op, db.publications[q].package);
  }

  // ---- Over runs ----

  /** The `n`-th of the further operations commits and moves the package of `q` to one of `states`. */
  ghost predicate MovesAt(ops: seq<Op>, more: seq<Op>, n: nat, q: nat, states: set<State>)
    requires n < |more|
  {
    var db := Reach(ops + more[..n]);
    Commits(db, more[n]) && Moves(db, more[n], q, states)
  }

  /** Some operation took the backing away, and none after it restored it. */
  ghost predicate LostSince(ops: seq<Op>, more: seq<Op>, q: nat) {
    if more == [] then false
    else if MovesAt(ops, more, |more| - 1, q, LOST) then true
    else LostSince(ops, more[..|more| - 1], q) && !MovesAt(ops, more, |more| - 1, q, {Published})
  }

  /** The package of `q` is in a state that only backing or loss leads to. */
  predicate Settled(db: Db, q: nat) {
    && q in db.publications && db.publications[q].package in db.packages
    && db.packages[db.publications[q].package].state in BACKING + LOST
  }

  /** A backed publication is unbacked later exactly if a withdrawal, revocation or archiving came last. */
  lemma {:induction false} BackingIsLostOverRunExactlyWhen(ops: seq<Op>, more: seq<Op>, q: nat)
    requires Backed(Reach(ops), q)
    ensures Settled(Reach(ops + more), q)
    ensures !Backed(Reach(ops + more), q) <==> LostSince(ops, more, q)
  {
    if more == [] {
      assert ops + more == ops;
    } else {
      var before, op := ops + more[..|more| - 1], more[|more| - 1];
      BackingIsLostOverRunExactlyWhen(ops, more[..|more| - 1], q);
      ReachNext(ops, more);
      ReachSafe(before);
      BackingStep(Reach(before), op, q);
    }
  }

  lemma BackingStep(db: Db, op: Op, q: nat)
    requires Inv(db) && Settled(db, q)
    ensures Settled(Exec(db, op), q)
    ensures !Backed(Exec(db, op), q) <==>
            || (Commits(db, op) && Moves(db, op, q, LOST))
            || (!Backed(db, q) && !(Commits(db, op) && Moves(db, op, q, {Published})))
  {
    PublicationAfterStep(db, op, q);
    PublicationStepOf(db, op, q);
    PackageAfterStep(db, op, db.publications[q].package);
    PackageStepOf(db, op, db.publications[q].package);
  }

  /** A revoked or archived package is lost for good: no publication of it is ever active again. */
  lemma RevocationIsForEver(ops: seq<Op>, more: seq<Op>, q: nat)
    requires q in Reach(ops + more).publications
    requires Reach(ops + more).publications[q].package in Reach(ops).packages
    requires Rank(Reach(ops).packages[Reach(ops + more).publications[q].package].state) >= 4
    ensures !Reach(ops + more).publications[q].active && !Backed(Reach(ops + more), q)
  {
    VerificationIsFinal(ops, more, Reach(ops + more).publications[q].package);
    ReachSafe(ops + more);
    assert Holds(Reach(ops + more), PublicationsBacked);
  }
}
