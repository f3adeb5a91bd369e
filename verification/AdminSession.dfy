/**
 Local-administrator sessions: the stored row of a session against the history of calls
 that led to it. Rows are kept per token, as digests of distinct tokens do not collide.
 Times are seconds.
 */
module AdminSession {
  import opened Common

  type Time = int

  datatype Settings = Settings(sessionHours: nat, idleMinutes: nat) {
    const lifetime := sessionHours * 3600
    const idleTime := idleMinutes * 60
  }

  datatype Row = Row(csrf: string, expiresAt: Time, idleExpiresAt: Time, lastSeenAt: Time, revokedAt: Option<Time>)

  datatype Event =
    | Open(token: string, csrf: string, at: Time)
    | Request(verb: string, cookie: Option<string>, header: Option<string>, at: Time)
    | Revoke(token: string, at: Time)

  datatype Answer = Done | Granted(csrf: string) | Unauthorized | Forbidden | ServerError

  datatype Call = Call(event: Event, answer: Answer)

  predicate Ascii(s: string) {
    forall c <- s :: c as int < 128
  }

  predicate IsSafe(verb: string) {
    verb in {"GET", "HEAD", "OPTIONS"}
  }

  // ---- What the history of calls says about a session ----

  predicate Opens(call: Call, token: string) {
    call.event.Open? && call.event.token == token && call.answer.Done?
  }

  predicate Uses(call: Call, token: string) {
    || Opens(call, token)
    || (call.event.Request? && call.event.cookie == Some(token) && call.answer.Granted?)
  }

  predicate Revokes(call: Call, token: string) {
    call.event.Revoke? && call.event.token == token
  }

  /** The call that issued the token. */
  function Opening(log: seq<Call>, token: string): (opening: Option<Event>)
    ensures opening.Some? ==> opening.value.Open?
  {
    if log == [] then None
    else if Opens(log[|log| - 1], token) then Some(log[|log| - 1].event)
    else Opening(log[..|log| - 1], token)
  }

  function LastUse(log: seq<Call>, token: string): Option<Time> {
    if log == [] then None
    else if Uses(log[|log| - 1], token) then Some(log[|log| - 1].event.at)
    else LastUse(log[..|log| - 1], token)
  }

  predicate Revoked(log: seq<Call>, token: string) {
    exists call <- log :: Revokes(call, token)
  }

  predicate InForce(settings: Settings, log: seq<Call>, token: string, now: Time) {
    && token != ""
    && Opening(log, token).Some? && now < Opening(log, token).value.at + settings.lifetime
    && LastUse(log, token).Some? && now < LastUse(log, token).value + settings.idleTime
    && !Revoked(log, token)
  }

  function CsrfAnswer(verb: string, header: Option<string>, csrf: string): Answer {
    var presented := if header.Some? then header.value else "";
    if IsSafe(verb) then Granted(csrf)
    else if !Ascii(presented) || !Ascii(csrf) then ServerError
    else if presented == csrf then Granted(csrf)
    else Forbidden
  }

  /** The answer that the calls so far demand. */
  function Judge(settings: Settings, log: seq<Call>, event: Event): Answer {
    match event
    case Open(token, _, _) => if Opening(log, token).Some? then ServerError else Done
    case Revoke(_, _) => Done
    case Request(verb, cookie, header, at) =>
      if cookie.None? || !InForce(settings, log, cookie.value, at) then Unauthorized
      else CsrfAnswer(verb, header, Opening(log, cookie.value).value.csrf)
  }

  predicate Honest(settings: Settings, log: seq<Call>) {
    log != [] ==>
      && Honest(settings, log[..|log| - 1])
      && log[|log| - 1].answer == Judge(settings, log[..|log| - 1], log[|log| - 1].event)
  }

  /** The stored rows say exactly what the history says. */
  ghost predicate Refines(settings: Settings, rows: map<string, Row>, log: seq<Call>) {
    forall token :: RowRefines(settings, rows, log, token)
  }

  ghost predicate RowRefines(settings: Settings, rows: map<string, Row>, log: seq<Call>, token: string) {
    && (token in rows <==> Opening(log, token).Some?)
    && (token in rows ==>
          && LastUse(log, token).Some?
          && rows[token].csrf == Opening(log, token).value.csrf
          && rows[token].expiresAt == Opening(log, token).value.at + settings.lifetime
          && rows[token].lastSeenAt == LastUse(log, token).value
          && rows[token].idleExpiresAt == LastUse(log, token).value + settings.idleTime
          && (rows[token].revokedAt.Some? <==> Revoked(log, token)))
    && (token !in rows ==> !Revoked(log, token))
  }

  /** What one more call adds to the history of a token. */
  lemma Extend(settings: Settings, log: seq<Call>, call: Call)
    ensures forall token :: Opening(log + [call], token) ==
                            if Opens(call, token) then Some(call.event) else Opening(log, token)
    ensures forall token :: LastUse(log + [call], token) ==
                            if Uses(call, token) then Some(call.event.at) else LastUse(log, token)
    ensures forall token :: Revoked(log + [call], token) <==> Revoked(log, token) || Revokes(call, token)
    ensures Honest(settings, log + [call]) <==>
            Honest(settings, log) && call.answer == Judge(settings, log, call.event)
  {
    assert (log + [call])[..|log|] == log;
  }

  class SessionStore {
    const settings: Settings
    var rows: map<string, Row>
    ghost var log: seq<Call>

    ghost predicate Valid()
      reads this
    {
      Refines(settings, rows, log) && Honest(settings, log)
    }

    constructor (settings: Settings)
      ensures Valid() && this.settings == settings && log == []
    {
      this.settings := settings;
      rows := map[];
      log := [];
    }

    /** A duplicate digest violates the unique constraint and leaves the table as it was. */
    method NewLocalSession(token: string, csrf: string, now: Time) returns (answer: Answer)
      requires Valid()
      modifies this
      ensures Valid()
      ensures log == old(log) + [Call(Open(token, csrf, now), answer)]
    {
      assert RowRefines(settings, rows, log, token);
      if token in rows {
        answer := ServerError;
      } else {
        rows := rows[token := Row(csrf, now + settings.lifetime, now + settings.idleTime, now, None)];
        answer := Done;
      }
      ghost var call := Call(Open(token, csrf, now), answer);
      Extend(settings, log, call);
      forall token
        ensures RowRefines(settings, rows, log + [call], token)
      {
        assert RowRefines(settings, old(rows), log, token);
      }
      log := log + [call];
    }

    /** Any authenticated endpoint runs this first. */
    method ActorFromRequest(verb: string, cookie: Option<string>, header: Option<string>, now: Time)
      returns (answer: Answer)
      requires Valid()
      modifies this
      ensures Valid()
      ensures log == old(log) + [Call(Request(verb, cookie, header, now), answer)]
      ensures answer.Granted? ==> cookie.Some?
      ensures !answer.Granted? ==> rows == old(rows)
    {
      answer := Unauthorized;
      assert cookie.Some? ==> RowRefines(settings, rows, log, cookie.value);
      if cookie.Some? && cookie.value != "" && cookie.value in rows {
        var row := rows[cookie.value];
        if row.revokedAt.None? && row.expiresAt > now && row.idleExpiresAt > now {
          var presented := if header.Some? then header.value else "";
          if verb !in {"GET", "HEAD", "OPTIONS"} && (!Ascii(presented) || !Ascii(row.csrf)) {
            answer := ServerError;
          } else if verb !in {"GET", "HEAD", "OPTIONS"} && presented != row.csrf {
            answer := Forbidden;
          } else {
            answer := Granted(row.csrf);
            rows := rows[cookie.value := row.(lastSeenAt := now, idleExpiresAt := now + settings.idleTime)];
          }
        }
      }
      ghost var call := Call(Request(verb, cookie, header, now), answer);
      Extend(settings, log, call);
      forall token
        ensures RowRefines(settings, rows, log + [call], token)
      {
        assert RowRefines(settings, old(rows), log, token);
      }
      log := log + [call];
    }

    /** Logging out is a POST that authenticates like any other and then revokes its session. */
    method Logout(cookie: Option<string>, header: Option<string>, now: Time, end: Time) returns (answer: Answer)
      requires Valid()
      modifies this
      ensures Valid()
      ensures var called := old(log) + [Call(Request("POST", cookie, header, now), answer)];
        log == if answer.Granted? && cookie.Some? then called + [Call(Revoke(cookie.value, end), Done)] else called
    {
      answer := ActorFromRequest("POST", cookie, header, now);
      if answer.Granted? {
        ghost var granted := rows;
        if cookie.value in rows && rows[cookie.value].revokedAt.None? {
          rows := rows[cookie.value := rows[cookie.value].(revokedAt := Some(end))];
        }
        ghost var call := Call(Revoke(cookie.value, end), Done);
        Extend(settings, log, call);
        forall token
          ensures RowRefines(settings, rows, log + [call], token)
        {
          assert RowRefines(settings, granted, log, token);
        }
        log := log + [call];
      }
    }
  }

  // ---- Theorems about whole histories ----

  /** Call `o` issued the token: the only one that did. */
  ghost predicate IsOpening(log: seq<Call>, o: nat, token: string) {
    && o < |log| && log[o].event.Open? && log[o].event.token == token && log[o].answer == Done
    && forall i | 0 <= i < |log| ::
         log[i].event.Open? && log[i].event.token == token && log[i].answer == Done ==> i == o
  }

  /** Call `u` is the latest that issued the token or was granted for it. */
  ghost predicate IsLastUse(log: seq<Call>, u: nat, token: string) {
    && u < |log|
    && (|| (log[u].event.Open? && log[u].event.token == token && log[u].answer == Done)
        || (log[u].event.Request? && log[u].event.cookie == Some(token) && log[u].answer.Granted?))
    && (forall i | u < i < |log| ::
          && !(log[i].event.Open? && log[i].event.token == token && log[i].answer == Done)
          && !(log[i].event.Request? && log[i].event.cookie == Some(token) && log[i].answer.Granted?))
  }

  lemma {:induction false} OpeningIsUnique(settings: Settings, log: seq<Call>, token: string)
    requires Honest(settings, log)
    ensures Opening(log, token).Some? <==> exists o: nat :: IsOpening(log, o, token)
    ensures forall o: nat :: IsOpening(log, o, token) ==> Opening(log, token) == Some(log[o].event)
    ensures forall i: nat | i < |log| && Opens(log[i], token) :: IsOpening(log, i, token)
  {
    if log != [] {
      var init, last := log[..|log| - 1], log[|log| - 1];
      OpeningIsUnique(settings, init, token);
      if Opens(last, token) {
        assert Opening(init, token).None?;
        assert forall i | 0 <= i < |init| :: init[i] == log[i];
        assert forall i | 0 <= i < |init| :: !Opens(log[i], token);
        assert IsOpening(log, |init|, token);
      } else if Opening(init, token).Some? {
        var o: nat :| IsOpening(init, o, token);
        assert IsOpening(log, o, token);
      }
    }
  }

  lemma {:induction false} LastUseIsLatest(log: seq<Call>, token: string)
    ensures LastUse(log, token).Some? <==> exists u: nat :: IsLastUse(log, u, token)
    ensures forall u: nat :: IsLastUse(log, u, token) ==> LastUse(log, token) == Some(log[u].event.at)
  {
    if log != [] {
      var init, last := log[..|log| - 1], log[|log| - 1];
      LastUseIsLatest(init, token);
      if Uses(last, token) {
        assert IsLastUse(log, |init|, token);
      } else if LastUse(init, token).Some? {
        var u: nat :| IsLastUse(init, u, token);
        assert IsLastUse(log, u, token);
      }
      forall u: nat | IsLastUse(log, u, token)
        ensures LastUse(log, token) == Some(log[u].event.at)
      {
        if u < |init| {
          assert IsLastUse(init, u, token);
        }
      }
    }
  }

  lemma {:induction false} HonestThroughout(settings: Settings, log: seq<Call>, k: nat)
    requires Honest(settings, log) && k < |log|
    ensures Honest(settings, log[..k]) && log[k].answer == Judge(settings, log[..k], log[k].event)
  {
    if k < |log| - 1 {
      HonestThroughout(settings, log[..|log| - 1], k);
      assert log[..|log| - 1][..k] == log[..k];
    }
  }

  /**
   The session of the token lives at a time: it was opened less than the session hours ago,
   last used less than the idle minutes ago, and never logged out.
   */
  ghost predicate Live(settings: Settings, log: seq<Call>, token: string, at: Time, o: nat, u: nat) {
    && token != ""
    && IsOpening(log, o, token) && at < log[o].event.at + 3600 * settings.sessionHours
    && IsLastUse(log, u, token) && at < log[u].event.at + 60 * settings.idleMinutes
    && forall call <- log :: !(call.event.Revoke? && call.event.token == token)
  }

  /** The header compares equal to the CSRF token of the session; a missing header compares as empty text. */
  predicate SameToken(header: Option<string>, csrf: string) {
    if header.Some? then header.value == csrf else csrf == ""
  }

  /** Text that the constant-time comparison takes; other text makes it fail. */
  predicate Comparable(header: Option<string>, csrf: string) {
    && (forall c <- csrf :: c as int < 128)
    && (header.Some? ==> forall c <- header.value :: c as int < 128)
  }

  predicate ReadsOnly(request: Event)
    requires request.Request?
  {
    request.verb == "GET" || request.verb == "HEAD" || request.verb == "OPTIONS"
  }

  /** A live session and, unless the request only reads, the right CSRF token. */
  ghost predicate Entitled(settings: Settings, log: seq<Call>, request: Event, token: string, o: nat, u: nat)
    requires request.Request?
  {
    && Live(settings, log, token, request.at, o, u)
    && (ReadsOnly(request)
        || (Comparable(request.header, log[o].event.csrf) && SameToken(request.header, log[o].event.csrf)))
  }

  lemma LiveExactlyWhenInForce(settings: Settings, log: seq<Call>, token: string, at: Time)
    requires Honest(settings, log)
    ensures InForce(settings, log, token, at) <==> exists o: nat, u: nat :: Live(settings, log, token, at, o, u)
    ensures forall o: nat, u: nat :: Live(settings, log, token, at, o, u) ==>
      Opening(log, token) == Some(log[o].event)
  {
    OpeningIsUnique(settings, log, token);
    LastUseIsLatest(log, token);
    if InForce(settings, log, token, at) {
      var o: nat :| IsOpening(log, o, token);
      var u: nat :| IsLastUse(log, u, token);
      assert Live(settings, log, token, at, o, u);
    }
  }

  /**
   In every history, a request is granted exactly when the calls before it entitle it, and
   then told the CSRF token of its session; it is unauthorized exactly when its session does
   not live, and forbidden exactly when only the CSRF token is wrong.
   */
  lemma GrantedExactlyWhenEntitled(settings: Settings, log: seq<Call>, k: nat, token: string)
    requires Honest(settings, log) && k < |log|
    requires log[k].event.Request? && log[k].event.cookie == Some(token)
    ensures var past, request := log[..k], log[k].event;
      && (log[k].answer.Granted? <==> exists o: nat, u: nat :: Entitled(settings, past, request, token, o, u))
      && (log[k].answer.Unauthorized? <==> !exists o: nat, u: nat :: Live(settings, past, token, request.at, o, u))
      && (forall o: nat, u: nat :: Live(settings, past, token, request.at, o, u) ==>
            var csrf := past[o].event.csrf;
            && (log[k].answer.Granted? ==> log[k].answer == Granted(csrf))
            && (log[k].answer.Forbidden? <==>
                !ReadsOnly(request) && Comparable(request.header, csrf) && !SameToken(request.header, csrf)))
  {
    var past, request := log[..k], log[k].event;
    HonestThroughout(settings, log, k);
    LiveExactlyWhenInForce(settings, past, token, request.at);
    if InForce(settings, past, token, request.at) {
      var o: nat, u: nat :| Live(settings, past, token, request.at, o, u);
      CsrfAnswerIs(request, past[o].event.csrf);
      assert log[k].answer.Granted? ==> Entitled(settings, past, request, token, o, u);
    }
  }

  lemma CsrfAnswerIs(request: Event, csrf: string)
    requires request.Request?
    ensures var answer := CsrfAnswer(request.verb, request.header, csrf);
      && (answer.Granted? <==>
          ReadsOnly(request) || (Comparable(request.header, csrf) && SameToken(request.header, csrf)))
      && (answer.Granted? ==> answer == Granted(csrf))
      && (answer.Forbidden? <==>
          !ReadsOnly(request) && Comparable(request.header, csrf) && !SameToken(request.header, csrf))
      && !answer.Unauthorized?
  {
  }

  /** A request without a session cookie is unauthorized, and a token is issued exactly once. */
  lemma WithoutCookieOrTwice(settings: Settings, log: seq<Call>, k: nat)
    requires Honest(settings, log) && k < |log|
    ensures log[k].event.Request? && log[k].event.cookie.None? ==> log[k].answer == Unauthorized
    ensures log[k].event.Open? ==>
      (log[k].answer == Done <==>
       !exists i :: 0 <= i < k && log[i].event.Open? && log[i].event.token == log[k].event.token
                    && log[i].answer == Done)
  {
    HonestThroughout(settings, log, k);
    if log[k].event.Open? {
      var past, token := log[..k], log[k].event.token;
      OpeningIsUnique(settings, past, token);
      forall i | 0 <= i < k && log[i].event.Open? && log[i].event.token == token && log[i].answer == Done
        ensures Opening(past, token).Some?
      {
        assert Opens(past[i], token);
        assert IsOpening(past, i, token);
      }
    }
  }

  predicate ClockOrdered(log: seq<Call>) {
    forall i, j :: 0 <= i <= j < |log| ==> log[i].event.at <= log[j].event.at
  }

  /** A token that was issued and is no longer accepted. */
  predicate Lapsed(settings: Settings, log: seq<Call>, token: string, now: Time) {
    Opening(log, token).Some? && !InForce(settings, log, token, now)
  }

  lemma {:induction false} LapsedForEver(settings: Settings, log: seq<Call>, token: string, i: nat, j: nat)
    requires Honest(settings, log) && ClockOrdered(log)
    requires i <= j < |log| && Lapsed(settings, log[..i], token, log[i].event.at)
    ensures Lapsed(settings, log[..j], token, log[j].event.at)
    decreases j - i
  {
    if i < j {
      HonestThroughout(settings, log, i);
      Extend(settings, log[..i], log[i]);
      assert log[..i] + [log[i]] == log[..i + 1];
      LapsedForEver(settings, log, token, i + 1, j);
    }
  }

  /** Once an issued token has been refused, by expiry, idleness or logout, every later request is refused. */
  lemma RefusalIsFinal(settings: Settings, log: seq<Call>, token: string, o: nat, i: nat, j: nat)
    requires Honest(settings, log) && ClockOrdered(log)
    requires o < i < j < |log|
    requires log[o].event.Open? && log[o].event.token == token && log[o].answer == Done
    requires log[i].event.Request? && log[i].event.cookie == Some(token) && log[i].answer.Unauthorized?
    requires log[j].event.Request? && log[j].event.cookie == Some(token)
    ensures log[j].answer.Unauthorized?
  {
    HonestThroughout(settings, log, i);
    HonestThroughout(settings, log, j);
    OpeningIsUnique(settings, log[..i], token);
    assert Opens(log[..i][o], token);
    LapsedForEver(settings, log, token, i, j);
  }

  /** The calls that count for a token: those that used or revoked it. */
  function Effective(log: seq<Call>, token: string): seq<Call> {
    if log == [] then []
    else
      var init, last := Effective(log[..|log| - 1], token), log[|log| - 1];
      if Uses(last, token) || Revokes(last, token) then init + [last] else init
  }

  /** Refused requests, and whatever happens to other tokens, never extend or end a session. */
  lemma {:induction false} OnlyEffectiveCallsCount(settings: Settings, log: seq<Call>, token: string)
    ensures Opening(Effective(log, token), token) == Opening(log, token)
    ensures LastUse(Effective(log, token), token) == LastUse(log, token)
    ensures Revoked(Effective(log, token), token) == Revoked(log, token)
  {
    if log != [] {
      var init, last := log[..|log| - 1], log[|log| - 1];
      OnlyEffectiveCallsCount(settings, init, token);
      assert log == init + [last];
      Extend(settings, init, last);
      Extend(settings, Effective(init, token), last);
    }
  }

  lemma SameEffectSameAnswer(settings: Settings, a: seq<Call>, b: seq<Call>, request: Event, token: string)
    requires request.Request? && request.cookie == Some(token)
    requires Effective(a, token) == Effective(b, token)
    ensures Judge(settings, a, request) == Judge(settings, b, request)
  {
    OnlyEffectiveCallsCount(settings, a, token);
    OnlyEffectiveCallsCount(settings, b, token);
  }
}
