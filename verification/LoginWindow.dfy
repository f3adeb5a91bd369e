/**
 The login gate: refused attempts are recorded per origin, and an origin with too many
 attempts in the last fifteen minutes is refused whatever its credentials. Times are seconds.
 */
module LoginWindow {
  import opened AdminSession

  const WINDOW: Time := 15 * 60

  /** A row of the attempt table; origins stand for their digests, which do not collide. */
  datatype Attempt = Attempt(origin: string, at: Time)

  function CountSince(attempts: seq<Attempt>, origin: string, since: Time): nat {
    if attempts == [] then 0
    else
      var last := attempts[|attempts| - 1];
      CountSince(attempts[..|attempts| - 1], origin, since)
      + if last.origin == origin && last.at >= since then 1 else 0
  }

  /**
   One POST to the login endpoint: when its gate was evaluated, when it was answered, and
   whether its user name and password were the configured ones.
   */
  datatype Login = Login(origin: string, gateAt: Time, answeredAt: Time, valid: bool, welcomed: bool)

  predicate Refused(login: Login, origin: string, since: Time) {
    login.origin == origin && !login.welcomed && login.answeredAt >= since
  }

  /** Refusals of an origin that were answered at or after `since`. */
  function Refusals(log: seq<Login>, origin: string, since: Time): nat {
    if log == [] then 0
    else
      var last := log[|log| - 1];
      Refusals(log[..|log| - 1], origin, since)
      + if Refused(last, origin, since) then 1 else 0
  }

  predicate GateOpen(limit: nat, log: seq<Login>, origin: string, gateAt: Time) {
    Refusals(log, origin, gateAt - WINDOW) < limit
  }

  /** Every login was welcomed exactly when it was valid and its gate was open, and took no negative time. */
  predicate Fair(limit: nat, log: seq<Login>) {
    log != [] ==>
      var before, last := log[..|log| - 1], log[|log| - 1];
      && Fair(limit, before)
      && last.gateAt <= last.answeredAt
      && (last.welcomed <==> last.valid && GateOpen(limit, before, last.origin, last.gateAt))
  }

  class LoginGate {
    const limit: nat
    const sessions: SessionStore
    var attempts: seq<Attempt>
    ghost var log: seq<Login>

    ghost predicate Valid()
      reads this
    {
      && Fair(limit, log)
      && forall origin, since :: CountSince(attempts, origin, since) == Refusals(log, origin, since)
    }

    constructor (limit: nat, sessions: SessionStore)
      ensures Valid() && this.limit == limit && this.sessions == sessions && log == [] && attempts == []
    {
      this.limit := limit;
      this.sessions := sessions;
      attempts := [];
      log := [];
    }

    /** A welcomed login opens a session with the drawn token; a refused one only leaves an attempt. */
    method Post(origin: string, valid: bool, gateAt: Time, answeredAt: Time, token: string, csrf: string)
      returns (welcomed: bool, answer: Answer)
      requires Valid() && sessions.Valid() && gateAt <= answeredAt
      modifies this, sessions
      ensures Valid() && sessions.Valid()
      ensures log == old(log) + [Login(origin, gateAt, answeredAt, valid, welcomed)]
      ensures !welcomed ==> answer == Unauthorized && sessions.log == old(sessions.log)
      ensures welcomed ==> sessions.log == old(sessions.log) + [Call(Open(token, csrf, answeredAt), answer)]
    {
      var recent := CountSince(attempts, origin, gateAt - WINDOW);
      if recent >= limit || !valid {
        attempts := attempts + [Attempt(origin, answeredAt)];
        welcomed, answer := false, Unauthorized;
      } else {
        welcomed := true;
        answer := sessions.NewLocalSession(token, csrf, answeredAt);
      }
      ghost var login := Login(origin, gateAt, answeredAt, valid, welcomed);
      Recorded(old(attempts), Attempt(origin, answeredAt));
      Logged(limit, log, login);
      log := log + [login];
    }
  }

  lemma Recorded(attempts: seq<Attempt>, attempt: Attempt)
    ensures forall origin, since ::
              CountSince(attempts + [attempt], origin, since)
              == CountSince(attempts, origin, since)
                 + if attempt.origin == origin && attempt.at >= since then 1 else 0
  {
    assert (attempts + [attempt])[..|attempts|] == attempts;
  }

  lemma Logged(limit: nat, log: seq<Login>, login: Login)
    ensures forall origin, since ::
              Refusals(log + [login], origin, since)
              == Refusals(log, origin, since) + if Refused(login, origin, since) then 1 else 0
    ensures Fair(limit, log + [login]) <==>
            && Fair(limit, log) && login.gateAt <= login.answeredAt
            && (login.welcomed <==> login.valid && GateOpen(limit, log, login.origin, login.gateAt))
  {
    assert (log + [login])[..|log|] == log;
  }

  // ---- Theorems about whole runs ----

  /** How many wrong guesses of an origin were really compared, that is with the gate open, in a window. */
  function Guesses(limit: nat, log: seq<Login>, origin: string, from: Time, to: Time): nat {
    if log == [] then 0
    else
      var before, last := log[..|log| - 1], log[|log| - 1];
      Guesses(limit, before, origin, from, to)
      + if last.origin == origin && !last.valid && from <= last.gateAt <= to
           && GateOpen(limit, before, origin, last.gateAt) then 1 else 0
  }

  lemma {:induction false} GuessesAreRefused(limit: nat, log: seq<Login>, origin: string,
        from: Time, to: Time, since: Time)
    requires Fair(limit, log) && since <= from
    ensures Guesses(limit, log, origin, from, to) <= Refusals(log, origin, since)
  {
    if log != [] {
      GuessesAreRefused(limit, log[..|log| - 1], origin, from, to, since);
    }
  }

  lemma {:induction false} GuessesAreFew(limit: nat, log: seq<Login>, origin: string, from: Time, to: Time)
    requires Fair(limit, log) && to <= from + 900
    ensures Guesses(limit, log, origin, from, to) <= limit
  {
    if log != [] {
      var before, last := log[..|log| - 1], log[|log| - 1];
      GuessesAreFew(limit, before, origin, from, to);
      if from <= last.gateAt <= to {
        GuessesAreRefused(limit, before, origin, from, to, last.gateAt - WINDOW);
      }
    }
  }

  /** The positions of an origin's refusals that were answered at or after `since`. */
  ghost function RefusalsSince(log: seq<Login>, origin: string, since: Time): set<nat> {
    set i: nat | i < |log| && log[i].origin == origin && !log[i].welcomed && log[i].answeredAt >= since
  }

  lemma {:induction false} RefusalsAreCounted(log: seq<Login>, origin: string, since: Time)
    ensures Refusals(log, origin, since) == |RefusalsSince(log, origin, since)|
  {
    if log != [] {
      var n := |log| - 1;
      RefusalsAreCounted(log[..n], origin, since);
      var now, before := RefusalsSince(log, origin, since), RefusalsSince(log[..n], origin, since);
      assert forall i: nat :: i in before <==> i < n && Refused(log[i], origin, since);
      assert now == before + if Refused(log[n], origin, since) then {n} else {};
    }
  }

  lemma {:induction false} FairThroughout(limit: nat, log: seq<Login>, k: nat)
    requires Fair(limit, log) && k < |log|
    ensures Fair(limit, log[..k])
    ensures log[k].welcomed <==> log[k].valid && GateOpen(limit, log[..k], log[k].origin, log[k].gateAt)
  {
    if k < |log| - 1 {
      FairThroughout(limit, log[..|log| - 1], k);
      assert log[..|log| - 1][..k] == log[..k];
    }
  }

  /**
   A login is welcomed exactly when its credentials are right and fewer than the limit of its
   origin's earlier refusals still lie in the window.
   */
  lemma WelcomedExactlyWhen(limit: nat, log: seq<Login>, k: nat)
    requires Fair(limit, log) && k < |log|
    ensures log[k].welcomed <==>
            log[k].valid && |RefusalsSince(log[..k], log[k].origin, log[k].gateAt - 900)| < limit
  {
    FairThroughout(limit, log, k);
    RefusalsAreCounted(log[..k], log[k].origin, log[k].gateAt - 900);
  }

  /**
   The positions of an origin's wrong guesses in a window that met fewer refusals in their
   fifteen minutes than the limit, so that the answer told whether the guess was right.
   */
  ghost function GuessPositions(limit: nat, log: seq<Login>, origin: string, from: Time, to: Time): set<nat> {
    set k: nat | k < |log| && IsGuess(limit, log, origin, from, to, k)
  }

  ghost predicate IsGuess(limit: nat, log: seq<Login>, origin: string, from: Time, to: Time, k: nat)
    requires k < |log|
  {
    && log[k].origin == origin && !log[k].valid && from <= log[k].gateAt <= to
    && Refusals(log[..k], origin, log[k].gateAt - 900) < limit
  }

  lemma SameGuess(limit: nat, log: seq<Login>, origin: string, from: Time, to: Time, n: nat, k: nat)
    requires k < n <= |log|
    ensures IsGuess(limit, log[..n], origin, from, to, k) == IsGuess(limit, log, origin, from, to, k)
  {
    assert log[..n][..k] == log[..k];
  }

  lemma {:induction false} GuessesAreCounted(limit: nat, log: seq<Login>, origin: string, from: Time, to: Time)
    ensures Guesses(limit, log, origin, from, to) == |GuessPositions(limit, log, origin, from, to)|
  {
    if log != [] {
      var n := |log| - 1;
      GuessesAreCounted(limit, log[..n], origin, from, to);
      forall k: nat | k < n
        ensures IsGuess(limit, log[..n], origin, from, to, k) == IsGuess(limit, log, origin, from, to, k)
      {
        SameGuess(limit, log, origin, from, to, n, k);
      }
      var past := GuessPositions(limit, log[..n], origin, from, to);
      assert GuessPositions(limit, log, origin, from, to)
          == past + if IsGuess(limit, log, origin, from, to, n) then {n} else {};
    }
  }

  /** In no fifteen minutes does an origin get more than the limit of wrong guesses compared. */
  lemma GuessesAreLimited(limit: nat, log: seq<Login>, origin: string, from: Time, to: Time)
    requires Fair(limit, log) && to <= from + 900
    ensures |GuessPositions(limit, log, origin, from, to)| <= limit
  {
    GuessesAreFew(limit, log, origin, from, to);
    GuessesAreCounted(limit, log, origin, from, to);
  }

  function OfOrigin(log: seq<Login>, origin: string): seq<Login> {
    if log == [] then []
    else
      var before, last := OfOrigin(log[..|log| - 1], origin), log[|log| - 1];
      if last.origin == origin then before + [last] else before
  }

  /** What other origins do never matters: an origin's own logins form a fair run of their own. */
  lemma {:induction false} OtherOriginsNeverMatter(limit: nat, log: seq<Login>, origin: string)
    requires Fair(limit, log)
    ensures Fair(limit, OfOrigin(log, origin))
    ensures forall since :: Refusals(OfOrigin(log, origin), origin, since) == Refusals(log, origin, since)
  {
    if log != [] {
      var before, last := log[..|log| - 1], log[|log| - 1];
      OtherOriginsNeverMatter(limit, before, origin);
      Logged(limit, OfOrigin(before, origin), last);
    }
  }
}
