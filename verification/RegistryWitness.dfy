/**
 What the registry can do: when a state change of a publication goes through, a run that
 reaches an active publication, and a run after which a previewable one is not backed.
 */
module RegistryWitness {
  import opened Common
  import opened Lifecycle
  import opened RegistrySchema
  import opened RegistryInvariant
  import opened RegistryRuns

  function ChangeEvent(db: Db, q: nat, to: State, reason: string, actor: string): Event
    requires q in db.publications
  {
    Event(q, Some(db.publications[q].state), to, reason, actor)
  }

  function StateChange(to: State, reason: string, actor: string): PublicationChange {
    PublicationChange(false, Set(to), Set(to.Published?), Set(reason), Set(actor))
  }

  /** May the publication be in this state, beside its package and its zone? */
  predicate Ready(db: Db, q: nat, to: State)
    requires q in db.publications
  {
    var pub := db.publications[q];
    && pub.package in db.packages
    && (to.Previewable? ==> db.packages[pub.package].state in {Previewable, Published})
    && (to.Published? ==>
          && db.packages[pub.package].state.Published?
          && forall r :: r in db.publications && r != q && db.publications[r].zone == pub.zone ==>
               !db.publications[r].active)
  }

  /** A transition that the newest event records goes through exactly when its target is ready. */
  lemma RecordedChangePasses(db: Db, q: nat, to: State, reason: string, actor: string)
    requires Inv(db) && q in db.publications && Transition(db.publications[q].state, to)
    requires LogOf(db.events, q) != []
    requires LogOf(db.events, q)[|LogOf(db.events, q)| - 1] == ChangeEvent(db, q, to, reason, actor)
    ensures PublicationUpdate(db, q, StateChange(to, reason, actor)) <==> Ready(db, q, to)
  {
    assert Holds(db, PublicationsBacked);
  }

  lemma LogGrows(events: seq<Event>, e: Event)
    ensures LogOf(events + [e], e.publication) == LogOf(events, e.publication) + [e]
  {
    assert (events + [e])[..|events|] == events;
  }

  lemma ReadyAfterEvent(db: Db, q: nat, to: State, e: Event)
    requires q in db.publications
    ensures Ready(db.(events := db.events + [e]), q, to) == Ready(db, q, to)
  {
  }

  /** The registry once the event is recorded, which is possible exactly for a transition. */
  lemma EventRecorded(db: Db, q: nat, to: State, reason: string, actor: string)
    requires Inv(db) && q in db.publications && LogOf(db.events, q) != []
    ensures var e := ChangeEvent(db, q, to, reason, actor);
            && (Commits(db, InsertEvent(e)) <==> Transition(db.publications[q].state, to))
            && (Commits(db, InsertEvent(e)) ==>
                  Result(db, InsertEvent(e)) == db.(events := db.events + [e]) && Inv(Result(db, InsertEvent(e))))
  {
    var e := ChangeEvent(db, q, to, reason, actor);
    if Commits(db, InsertEvent(e)) {
      InvKept(db, InsertEvent(e));
    }
  }

  lemma RecordedChangeCommits(db: Db, q: nat, to: State, reason: string, actor: string)
    requires q in db.publications && Transition(db.publications[q].state, to)
    requires Inv(db.(events := db.events + [ChangeEvent(db, q, to, reason, actor)]))
    ensures var db' := db.(events := db.events + [ChangeEvent(db, q, to, reason, actor)]);
            Commits(db', UpdatePublication(q, StateChange(to, reason, actor))) <==> Ready(db, q, to)
  {
    var e := ChangeEvent(db, q, to, reason, actor);
    LogGrows(db.events, e);
    ReadyAfterEvent(db, q, to, e);
    RecordedChangePasses(db.(events := db.events + [e]), q, to, reason, actor);
  }

  /** Recording a transition and then making it goes through exactly when it is one and its target is ready. */
  lemma TransitionCommitsExactlyWhen(db: Db, q: nat, to: State, reason: string, actor: string)
    requires Inv(db) && q in db.publications && LogOf(db.events, q) != []
    ensures var e := ChangeEvent(db, q, to, reason, actor);
            && (Commits(db, InsertEvent(e)) <==> Transition(db.publications[q].state, to))
            && (Commits(db, InsertEvent(e)) ==>
                  (Commits(Result(db, InsertEvent(e)), UpdatePublication(q, StateChange(to, reason, actor)))
                   <==> Ready(db, q, to)))
  {
    EventRecorded(db, q, to, reason, actor);
    if Transition(db.publications[q].state, to) {
      RecordedChangeCommits(db, q, to, reason, actor);
    }
  }

  // ---- Two runs ----

  lemma Do(ops: seq<Op>, op: Op) returns (longer: seq<Op>)
    requires Commits(Reach(ops), op)
    ensures Reach(longer) == Result(Reach(ops), op)
  {
    longer := ops + [op];
    assert longer[..|longer| - 1] == ops;
  }

  const REPORT := Object(Some("passed"), "")

  /** A registry of one zone, one revision of it and one package. */
  function WithPackage(p: Package): Db {
    EMPTY.(zones := {0}, revisions := map[0 := 0], packages := map[0 := p])
  }

  function PackageTo(state: State, rev: Option<nat>): Package {
    Package(state, REPORT, Some(0), rev)
  }

  lemma OneZone() returns (ops: seq<Op>)
    ensures Reach(ops) == EMPTY.(zones := {0})
  {
    assert Reach([]) == EMPTY;
    ops := Do([], InsertZone(0));
  }

  lemma OneRevision() returns (ops: seq<Op>)
    ensures Reach(ops) == EMPTY.(zones := {0}, revisions := map[0 := 0])
  {
    ops := OneZone();
    ops := Do(ops, InsertRevision(0, 0));
  }

  lemma AddDraft(ops: seq<Op>, k: nat) returns (longer: seq<Op>)
    requires k !in Reach(ops).packages
    ensures Reach(longer)
         == Reach(ops).(packages := Reach(ops).packages[k := Package(Draft, REPORT, None, None)])
  {
    longer := Do(ops, InsertPackage(k, Package(Draft, REPORT, None, None)));
  }

  lemma ChangePackage(ops: seq<Op>, k: nat, c: PackageChange) returns (longer: seq<Op>)
    requires k in Reach(ops).packages && PackageUpdate(Reach(ops), k, c)
    ensures Reach(longer)
         == Reach(ops).(packages := Reach(ops).packages[k := NewPackage(Reach(ops).packages[k], c)])
  {
    longer := Do(ops, UpdatePackage(k, c));
  }

  /** A new package of revision 0, verified and made previewable. */
  lemma AddPreviewable(ops: seq<Op>, k: nat) returns (longer: seq<Op>)
    requires k !in Reach(ops).packages && 0 in Reach(ops).revisions
    ensures Reach(longer)
         == Reach(ops).(packages := Reach(ops).packages[k := PackageTo(Previewable, Some(0))])
  {
    longer := AddDraft(ops, k);
    longer := ChangePackage(longer, k, PackageChange(false, Set(Verified), Kept, Set(Some(0)), Kept));
    longer := ChangePackage(longer, k, PackageChange(false, Set(Previewable), Kept, Kept, Set(Some(0))));
  }

  lemma PreviewablePackage() returns (ops: seq<Op>)
    ensures Reach(ops) == WithPackage(PackageTo(Previewable, Some(0)))
  {
    ops := OneRevision();
    ops := AddPreviewable(ops, 0);
  }

  /** The registry with a publication of that package, whose log is `events`. */
  function WithPublication(p: Package, state: State, events: seq<Event>): Db {
    var q := Publication(0, 0, 0, state, state.Published?, "r", "a");
    WithPackage(p).(publications := map[0 := q], events := events)
  }

  const CREATED := Event(0, None, Draft, "r", "a")

  lemma DraftPublication() returns (ops: seq<Op>)
    ensures Reach(ops) == WithPublication(PackageTo(Previewable, Some(0)), Draft, [CREATED])
  {
    ops := PreviewablePackage();
    ops := Do(ops, InsertPublication(0, Publication(0, 0, 0, Draft, false, "r", "a")));
    assert EventInsert(Reach(ops), CREATED);
    ops := Do(ops, InsertEvent(CREATED));
    assert [] + [CREATED] == [CREATED];
  }

  /** The event of a transition is recorded, and the transition may now be made. */
  lemma Record(ops: seq<Op>, p: Package, from: State, to: State, events: seq<Event>) returns (longer: seq<Op>)
    requires Reach(ops) == WithPublication(p, from, events) && LogOf(events, 0) != []
    requires Transition(from, to)
    requires to.Previewable? ==> p.state in {Previewable, Published}
    requires to.Published? ==> p.state.Published?
    ensures Reach(longer) == WithPublication(p, from, events + [Event(0, Some(from), to, "r", "a")])
    ensures Commits(Reach(longer), UpdatePublication(0, StateChange(to, "r", "a")))
  {
    ReachSafe(ops);
    TransitionCommitsExactlyWhen(Reach(ops), 0, to, "r", "a");
    longer := Do(ops, InsertEvent(Event(0, Some(from), to, "r", "a")));
  }

  lemma Changed(p: Package, from: State, to: State, events: seq<Event>)
    requires Commits(WithPublication(p, from, events), UpdatePublication(0, StateChange(to, "r", "a")))
    ensures Result(WithPublication(p, from, events), UpdatePublication(0, StateChange(to, "r", "a")))
         == WithPublication(p, to, events)
  {
  }

  /** One logged transition of the publication. */
  lemma Advance(ops: seq<Op>, p: Package, from: State, to: State, events: seq<Event>) returns (longer: seq<Op>)
    requires Reach(ops) == WithPublication(p, from, events) && LogOf(events, 0) != []
    requires Transition(from, to)
    requires to.Previewable? ==> p.state in {Previewable, Published}
    requires to.Published? ==> p.state.Published?
    ensures var e := Event(0, Some(from), to, "r", "a");
            Reach(longer) == WithPublication(p, to, events + [e]) && LogOf(events + [e], 0) != []
  {
    longer := Record(ops, p, from, to, events);
    Changed(p, from, to, events + [Event(0, Some(from), to, "r", "a")]);
    longer := Do(longer, UpdatePublication(0, StateChange(to, "r", "a")));
    LogGrows(events, Event(0, Some(from), to, "r", "a"));
  }

  lemma PreviewablePublication() returns (ops: seq<Op>, events: seq<Event>)
    ensures Reach(ops) == WithPublication(PackageTo(Previewable, Some(0)), Previewable, events)
    ensures LogOf(events, 0) != []
  {
    var p := PackageTo(Previewable, Some(0));
    ops := DraftPublication();
    assert LogOf([CREATED], 0) != [];
    ops := Advance(ops, p, Draft, Verified, [CREATED]);
    events := [CREATED] + [Event(0, Some(Draft), Verified, "r", "a")];
    ops := Advance(ops, p, Verified, Previewable, events);
    events := events + [Event(0, Some(Verified), Previewable, "r", "a")];
  }

  lemma MovePackage(ops: seq<Op>, to: State, events: seq<Event>) returns (longer: seq<Op>)
    requires Reach(ops) == WithPublication(PackageTo(Previewable, Some(0)), Previewable, events)
    requires Transition(Previewable, to)
    ensures Reach(longer) == WithPublication(PackageTo(to, Some(0)), Previewable, events)
  {
    longer := ChangePackage(ops, 0, PackageChange(false, Set(to), Kept, Kept, Kept));
  }

  /** Some run reaches an active publication, so the safety theorems are not about nothing. */
  lemma SomePublicationIsActive()
    ensures exists ops :: 0 in Reach(ops).publications && Reach(ops).publications[0].active
  {
    var ops, events := PreviewablePublication();
    var p := PackageTo(Published, Some(0));
    ops := MovePackage(ops, Published, events);
    ops := Advance(ops, p, Previewable, Published, events);
    assert 0 in Reach(ops).publications && Reach(ops).publications[0].active;
  }

  /** Backing is promised to active publications only: a previewable one may lose its package to revocation. */
  lemma PreviewableMayLoseItsPackage()
    ensures exists ops :: && 0 in Reach(ops).publications && Reach(ops).publications[0].state.Previewable?
                          && 0 in Reach(ops).packages && Reach(ops).packages[0].state.Revoked?
                          && Reach(ops).publications[0].package == 0
  {
    var ops, events := PreviewablePublication();
    ops := MovePackage(ops, Revoked, events);
    assert Reach(ops).publications[0].state.Previewable? && Reach(ops).packages[0].state.Revoked?;
  }
}
