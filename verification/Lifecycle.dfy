/**
 The lifecycle shared by spatial packages, zone publications and publication events:
 the transition predicate of the SQLite triggers, the transition table of the domain
 layer, and what every walk through them looks like.
 */
module Lifecycle {

  datatype State = Draft | Verified | Previewable | Published | Withdrawn | Revoked | Archived

  /** The predicate text that every state trigger embeds. */
  predicate Transition(from: State, to: State) {
    || (from.Draft? && to.Verified?)
    || (from.Verified? && to in {Previewable, Revoked, Archived})
    || (from.Previewable? && to in {Published, Revoked, Archived})
    || (from.Published? && to in {Withdrawn, Revoked, Archived})
    || (from.Withdrawn? && to in {Published, Archived})
    || (from.Revoked? && to.Archived?)
  }

  /** The transition table that the domain layer consults before it writes. */
  const DOMAIN_TRANSITIONS: map<State, set<State>> := map[
    Draft := {Verified},
    Verified := {Previewable, Revoked, Archived},
    Previewable := {Published, Revoked, Archived},
    Published := {Withdrawn, Revoked, Archived},
    Withdrawn := {Published, Archived},
    Revoked := {Archived},
    Archived := {}
  ]

  /** How far along its life an object is. Published and Withdrawn share a rank. */
  function Rank(s: State): nat {
    match s
    case Draft => 0
    case Verified => 1
    case Previewable => 2
    case Published => 3
    case Withdrawn => 3
    case Revoked => 4
    case Archived => 5
  }

  predicate Toggle(a: State, b: State) {
    a != b && a in {Published, Withdrawn} && b in {Published, Withdrawn}
  }

  /** The successive states of one row: each entry equals the one before it or follows it. */
  predicate Walk(path: seq<State>) {
    && path != []
    && forall i :: 0 < i < |path| ==> path[i] == path[i - 1] || Transition(path[i - 1], path[i])
  }

  /** How many steps of a walk change the state without being a Published/Withdrawn toggle. */
  function Advances(path: seq<State>): nat {
    if |path| < 2 then 0
    else
      var a, b := path[|path| - 2], path[|path| - 1];
      Advances(path[..|path| - 1]) + (if a == b || Toggle(a, b) then 0 else 1)
  }

  /** The trigger predicate and the domain table admit the same transitions. */
  lemma TablesAgree(from: State, to: State)
    ensures from in DOMAIN_TRANSITIONS
    ensures Transition(from, to) <==> to in DOMAIN_TRANSITIONS[from]
  {
    match from
    case Draft => assert DOMAIN_TRANSITIONS[Draft] == {Verified};
    case Verified => assert DOMAIN_TRANSITIONS[Verified] == {Previewable, Revoked, Archived};
    case Previewable => assert DOMAIN_TRANSITIONS[Previewable] == {Published, Revoked, Archived};
    case Published => assert DOMAIN_TRANSITIONS[Published] == {Withdrawn, Revoked, Archived};
    case Withdrawn => assert DOMAIN_TRANSITIONS[Withdrawn] == {Published, Archived};
    case Revoked => assert DOMAIN_TRANSITIONS[Revoked] == {Archived};
    case Archived =>
  }

  lemma {:induction false} WalkClimbs(path: seq<State>, i: nat, j: nat)
    requires Walk(path) && i <= j < |path|
    ensures Rank(path[i]) <= Rank(path[j])
    decreases j - i
  {
    if i < j {
      WalkClimbs(path, i, j - 1);
    }
  }

  /** At most five steps of any walk are not toggles, and no more than the ranks it climbed. */
  lemma {:induction false} AdvancesBounded(path: seq<State>)
    requires Walk(path)
    ensures Advances(path) <= Rank(path[|path| - 1]) - Rank(path[0]) <= 5
  {
    if |path| > 1 {
      AdvancesBounded(path[..|path| - 1]);
    }
  }

  /** Nothing leaves Archived. */
  lemma {:induction false} ArchivedAbsorbs(path: seq<State>, i: nat, j: nat)
    requires Walk(path) && i <= j < |path| && path[i].Archived?
    ensures path[j].Archived?
  {
    WalkClimbs(path, i, j);
  }

  /** Published is only reached from Draft through Verified and then Previewable. */
  lemma {:induction false} PublicationIsPreviewedFirst(path: seq<State>, k: nat) returns (v: nat, p: nat)
    requires Walk(path) && k < |path| && path[0].Draft? && Rank(path[k]) == 3
    ensures v < p < k && path[v].Verified? && path[p].Previewable?
  {
    if Rank(path[k - 1]) == 3 {
      v, p := PublicationIsPreviewedFirst(path, k - 1);
    } else {
      p := k - 1;
      v := VerifiedBefore(path, p);
    }
  }

  lemma {:induction false} VerifiedBefore(path: seq<State>, p: nat) returns (v: nat)
    requires Walk(path) && p < |path| && path[0].Draft? && path[p].Previewable?
    ensures v < p && path[v].Verified?
  {
    if path[p - 1].Previewable? {
      v := VerifiedBefore(path, p - 1);
    } else {
      v := p - 1;
    }
  }

  /** Rank order is exactly reachability: `b` follows `a` in some walk iff it ranks no lower. */
  lemma ReachableIffRanked(a: State, b: State)
    ensures Rank(a) <= Rank(b) <==> exists path :: Walk(path) && path[0] == a && path[|path| - 1] == b
  {
    if Rank(a) <= Rank(b) {
      var path := Route(a, b);
      assert Walk(path) && path[0] == a && path[|path| - 1] == b;
    }
    forall path | Walk(path) && path[0] == a && path[|path| - 1] == b ensures Rank(a) <= Rank(b) {
      WalkClimbs(path, 0, |path| - 1);
    }
  }

  lemma {:induction false} Route(a: State, b: State) returns (path: seq<State>)
    requires Rank(a) <= Rank(b)
    ensures Walk(path) && path[0] == a && path[|path| - 1] == b
    decreases 5 - Rank(a)
  {
    if a == b {
      path := [a];
    } else if Transition(a, b) {
      path := [a, b];
    } else if a.Withdrawn? {
      path := [Withdrawn, Published, Revoked];
    } else {
      var next := if a.Draft? then Verified else if a.Verified? then Previewable else Published;
      var rest := Route(next, b);
      path := [a] + rest;
    }
  }
}
