/**
 The request body guard: it buffers the receive stream of an upload until the body is
 complete, rejects the request once the buffered bytes exceed the limit, and otherwise
 replays what it buffered to the application.
 */
module BodyLimit {
  import opened Common
  import opened PythonText

  /** An ASGI message; absent keys of an http.request default to an empty body and no more body. */
  datatype Message =
    | Request(body: Option<seq<bv8>>, moreBody: Option<bool>)
    | Disconnect
    | OtherMessage(kind: string)

  function BodySize(m: Message): nat {
    if m.Request? && m.body.Some? then |m.body.value| else 0
  }

  /** Does the stream of one request end with this message? */
  predicate Final(m: Message) {
    m.Disconnect? || (m.Request? && m.moreBody != Some(true))
  }

  function TotalSize(messages: seq<Message>): nat {
    if messages == [] then 0 else TotalSize(messages[..|messages| - 1]) + BodySize(messages[|messages| - 1])
  }

  datatype Scope = Scope(http: bool, verb: string, contentLength: Option<string>)

  datatype Outcome =
    | Unguarded                       // the application reads the stream itself
    | RejectedAt(consumed: nat)       // 413 after this many messages; the application is never called
    | Replayed(messages: seq<Message>) // the application reads these, then empty final messages
    | Waiting                         // the stream holds no final message yet

  predicate Guarded(scope: Scope) {
    scope.http && scope.verb in {"POST", "PUT", "PATCH"}
  }

  /** A declared length that is no number or is too large; an empty header is no declaration. */
  predicate BadDeclaration(contentLength: Option<string>, limit: nat) {
    && contentLength.Some? && contentLength.value != ""
    && var declared := PyInt(contentLength.value);
    declared.None? || declared.value > limit
  }

  // ---- The outcome, stated over the whole stream ----

  /** Message `n` is the first that ends the stream. */
  ghost predicate FirstFinal(stream: seq<Message>, n: nat) {
    n < |stream| && Final(stream[n]) && forall i :: 0 <= i < n ==> !Final(stream[i])
  }

  /** The first `n` messages are the shortest prefix that exceeds the limit. */
  ghost predicate FirstExcess(stream: seq<Message>, limit: nat, n: nat) {
    0 < n <= |stream| && TotalSize(stream[..n]) > limit && TotalSize(stream[..n - 1]) <= limit
  }

  /** Which outcome buffering a stream must have, each with exactly the streams that lead to it. */
  ghost predicate Buffers(limit: nat, stream: seq<Message>, outcome: Outcome) {
    match outcome
    case Unguarded => false
    case RejectedAt(n) =>
      FirstExcess(stream, limit, n) && forall i :: 0 <= i < n - 1 ==> !Final(stream[i])
    case Replayed(messages) =>
      exists n: nat :: FirstFinal(stream, n) && messages == stream[..n + 1] && TotalSize(messages) <= limit
    case Waiting =>
      TotalSize(stream) <= limit && forall i :: 0 <= i < |stream| ==> !Final(stream[i])
  }

  /** What must happen to a request. */
  ghost predicate Expected(scope: Scope, limit: nat, stream: seq<Message>, outcome: Outcome) {
    if !Guarded(scope) then outcome == Unguarded
    else if BadDeclaration(scope.contentLength, limit) then outcome == RejectedAt(0)
    else Buffers(limit, stream, outcome)
  }

  lemma {:induction false} TotalGrows(stream: seq<Message>, i: nat, j: nat)
    requires i <= j <= |stream|
    ensures TotalSize(stream[..i]) <= TotalSize(stream[..j])
    decreases j - i
  {
    if i < j {
      TotalGrows(stream, i, j - 1);
      assert stream[..j][..j - 1] == stream[..j - 1];
    }
  }

  lemma SameExcess(stream: seq<Message>, limit: nat, m: nat, n: nat)
    requires FirstExcess(stream, limit, m) && FirstExcess(stream, limit, n)
    ensures m == n
  {
    if m < n {
      TotalGrows(stream, m, n - 1);
    } else if n < m {
      TotalGrows(stream, n, m - 1);
    }
  }

  lemma ExcessExcludes(limit: nat, stream: seq<Message>, n: nat, b: Outcome)
    requires Buffers(limit, stream, RejectedAt(n)) && !b.RejectedAt?
    ensures !Buffers(limit, stream, b)
  {
    if b.Replayed? && Buffers(limit, stream, b) {
      var m: nat :| FirstFinal(stream, m) && b.messages == stream[..m + 1] && TotalSize(b.messages) <= limit;
      TotalGrows(stream, n, m + 1);
    } else if b.Waiting? {
      TotalGrows(stream, n, |stream|);
      assert stream[..|stream|] == stream;
    }
  }

  lemma BufferingIsUnique(limit: nat, stream: seq<Message>, a: Outcome, b: Outcome)
    requires Buffers(limit, stream, a) && Buffers(limit, stream, b)
    ensures a == b
  {
    if a.RejectedAt? && b.RejectedAt? {
      SameExcess(stream, limit, a.consumed, b.consumed);
    } else if a.RejectedAt? {
      ExcessExcludes(limit, stream, a.consumed, b);
    } else if b.RejectedAt? {
      ExcessExcludes(limit, stream, b.consumed, a);
    } else if a.Replayed? && b.Replayed? {
      var m: nat :| FirstFinal(stream, m) && a.messages == stream[..m + 1];
      var n: nat :| FirstFinal(stream, n) && b.messages == stream[..n + 1];
      assert m == n;
    }
  }

  /** The description leaves no choice: a stream has at most one expected outcome. */
  lemma ExpectedIsUnique(scope: Scope, limit: nat, stream: seq<Message>, a: Outcome, b: Outcome)
    requires Expected(scope, limit, stream, a) && Expected(scope, limit, stream, b)
    ensures a == b
  {
    if Guarded(scope) && !BadDeclaration(scope.contentLength, limit) {
      BufferingIsUnique(limit, stream, a, b);
    }
  }

  // ---- The middleware ----

  class BodySizeLimit {
    const maxBodyBytes: nat

    constructor (maxBodyBytes: nat)
      ensures this.maxBodyBytes == maxBodyBytes
    {
      this.maxBodyBytes := maxBodyBytes;
    }

    /** One call, given the messages that its receive callable will return in turn. */
    method Call(scope: Scope, stream: seq<Message>) returns (outcome: Outcome)
      ensures Expected(scope, maxBodyBytes, stream, outcome)
    {
      if !scope.http || scope.verb !in {"POST", "PUT", "PATCH"} {
        return Unguarded;
      }
      var bad := DeclaresTooMuch(scope.contentLength);
      if bad {
        return RejectedAt(0);
      }
      outcome := Buffer(stream);
    }

    method DeclaresTooMuch(contentLength: Option<string>) returns (bad: bool)
      ensures bad == BadDeclaration(contentLength, maxBodyBytes)
    {
      if contentLength.Some? && contentLength.value != "" {
        var declaredSize := PyInt(contentLength.value);
        if declaredSize.None? {
          return true;
        }
        if declaredSize.value > maxBodyBytes {
          return true;
        }
      }
      return false;
    }

    method Buffer(stream: seq<Message>) returns (outcome: Outcome)
      ensures Buffers(maxBodyBytes, stream, outcome)
    {
      var messages := [];
      var total := 0;
      while |messages| < |stream|
        invariant |messages| <= |stream| && messages == stream[..|messages|]
        invariant total == TotalSize(messages) <= maxBodyBytes
        invariant forall i :: 0 <= i < |messages| ==> !Final(stream[i])
      {
        var message := stream[|messages|];
        ghost var before := messages;
        messages := messages + [message];
        assert messages[..|messages| - 1] == before;
        assert messages == stream[..|messages|];
        if message.Disconnect? {
          assert FirstFinal(stream, |before|);
          return Replayed(messages);
        }
        if message.Request? {
          total := total + if message.body.Some? then |message.body.value| else 0;
          if total > maxBodyBytes {
            return RejectedAt(|messages|);
          }
          if message.moreBody != Some(true) {
            assert FirstFinal(stream, |before|);
            return Replayed(messages);
          }
        }
      }
      assert messages == stream;
      outcome := Waiting;
    }
  }

  /** The callable that the application receives instead of the stream. */
  class Replay {
    const messages: seq<Message>
    var index: nat
    ghost var received: seq<Message>

    ghost predicate Valid()
      reads this
    {
      && index <= |messages|
      && received == Replaying(messages, |received|)
      && index == if |received| < |messages| then |received| else |messages|
    }

    constructor (messages: seq<Message>)
      ensures Valid() && this.messages == messages && received == []
    {
      this.messages := messages;
      index := 0;
      received := [];
    }

    /** Each call continues the replay: all calls together receive the messages, then empty final ones. */
    method Receive() returns (message: Message)
      requires Valid()
      modifies this
      ensures Valid() && received == old(received) + [message]
      ensures message == if |old(received)| < |messages| then messages[|old(received)|]
                         else Request(Some([]), Some(false))
    {
      if index < |messages| {
        message := messages[index];
        index := index + 1;
      } else {
        message := EMPTY_FINAL;
      }
      received := received + [message];
    }
  }

  const EMPTY_FINAL := Request(Some([]), Some(false))

  /** The first `n` messages of a replay. */
  function Replaying(messages: seq<Message>, n: nat): seq<Message> {
    if n <= |messages| then messages[..n] else messages + seq(n - |messages|, _ => EMPTY_FINAL)
  }

  /** The `n`-th message of a replay is the buffered one, or an empty one that ends the request. */
  lemma {:induction false} ReplayedMessage(messages: seq<Message>, n: nat, k: nat)
    requires k < n
    ensures |Replaying(messages, n)| == n
    ensures Replaying(messages, n)[k] == if k < |messages| then messages[k] else Request(Some([]), Some(false))
  {
    if n > |messages| {
      assert Replaying(messages, n)[k] == if k < |messages| then messages[k] else EMPTY_FINAL;
    }
  }

  /** The body that an application assembles from the messages it receives. */
  function Body(messages: seq<Message>): seq<bv8> {
    if messages == [] then []
    else
      var last := messages[|messages| - 1];
      Body(messages[..|messages| - 1]) + if last.Request? && last.body.Some? then last.body.value else []
  }

  lemma {:induction false} TotalIsBodySize(messages: seq<Message>)
    ensures TotalSize(messages) == |Body(messages)|
  {
    if messages != [] {
      TotalIsBodySize(messages[..|messages| - 1]);
    }
  }

  /**
   An application behind the guard never reads more body than the limit, however often it
   receives, and reads all of the buffered body by the end of the buffer.
   */
  lemma {:induction false} ReplayIsWithinLimit(scope: Scope, limit: nat, stream: seq<Message>,
        messages: seq<Message>, n: nat)
    requires Expected(scope, limit, stream, Replayed(messages))
    ensures messages <= stream
    ensures |Body(Replaying(messages, n))| <= |Body(messages)| <= limit
    ensures n >= |messages| ==> Body(Replaying(messages, n)) == Body(messages)
  {
    TotalIsBodySize(messages);
    if n <= |messages| {
      TotalGrows(messages, n, |messages|);
      TotalIsBodySize(messages[..n]);
      assert messages[..|messages|] == messages;
    } else {
      ReplayIsWithinLimit(scope, limit, stream, messages, n - 1);
      assert Replaying(messages, n) == Replaying(messages, n - 1) + [EMPTY_FINAL];
    }
  }

  // ---- Which uploads pass, in the terms of a client ----

  /** An upload: the guard applies to it. */
  predicate Upload(scope: Scope) {
    scope.http && (scope.verb == "POST" || scope.verb == "PUT" || scope.verb == "PATCH")
  }

  /** Another message of the same request follows. */
  predicate Continues(m: Message) {
    (m.Request? && m.moreBody == Some(true)) || m.OtherMessage?
  }

  /** Message `n` is the first after which nothing follows. */
  ghost predicate EndsAt(stream: seq<Message>, n: nat) {
    n < |stream| && !Continues(stream[n]) && forall m <- stream[..n] :: Continues(m)
  }

  /** Exactly the uploads are guarded. */
  lemma OnlyUploadsAreGuarded(scope: Scope, limit: nat, stream: seq<Message>, outcome: Outcome)
    requires Expected(scope, limit, stream, outcome)
    ensures outcome.Unguarded? <==> !Upload(scope)
  {
    assert scope.verb in {"POST", "PUT", "PATCH"} <==>
           scope.verb == "POST" || scope.verb == "PUT" || scope.verb == "PATCH";
  }

  /** An upload is refused before it is read exactly if its declared length is over the limit. */
  lemma DeclaredLengthDecides(scope: Scope, limit: nat, stream: seq<Message>, outcome: Outcome, declared: nat)
    requires Upload(scope) && scope.contentLength == Some(Decimal(declared))
    requires declared < 1_000_000_000_000_000_000
    requires Expected(scope, limit, stream, outcome)
    ensures outcome == RejectedAt(0) <==> declared > limit
  {
    OrdinaryNumbersAreRead(declared);
    OnlyUploadsAreGuarded(scope, limit, stream, outcome);
  }

  lemma UndeclaredIsRead(scope: Scope, limit: nat, stream: seq<Message>, outcome: Outcome)
    requires Upload(scope) && (scope.contentLength.None? || scope.contentLength.value == "")
    requires Expected(scope, limit, stream, outcome)
    ensures outcome != RejectedAt(0) && Buffers(limit, stream, outcome)
  {
    OnlyUploadsAreGuarded(scope, limit, stream, outcome);
  }

  /** A complete body within the limit reaches the application: exactly the messages up to its end. */
  lemma CompleteBodyIsReplayed(limit: nat, stream: seq<Message>, outcome: Outcome, n: nat)
    requires Buffers(limit, stream, outcome)
    requires EndsAt(stream, n) && |Body(stream[..n + 1])| <= limit
    ensures outcome == Replayed(stream[..n + 1])
  {
    TotalIsBodySize(stream[..n + 1]);
    assert forall i | 0 <= i < n :: stream[i] in stream[..n];
    assert FirstFinal(stream, n);
    assert Buffers(limit, stream, Replayed(stream[..n + 1]));
    BufferingIsUnique(limit, stream, outcome, Replayed(stream[..n + 1]));
  }

  /** A body is refused as soon as it exceeds the limit, and not before. */
  lemma LargeBodyIsRejected(limit: nat, stream: seq<Message>, outcome: Outcome, n: nat)
    requires Buffers(limit, stream, outcome)
    requires n < |stream| && forall m <- stream[..n] :: Continues(m)
    requires |Body(stream[..n])| <= limit < |Body(stream[..n + 1])|
    ensures outcome == RejectedAt(n + 1)
  {
    TotalIsBodySize(stream[..n]);
    TotalIsBodySize(stream[..n + 1]);
    assert forall i | 0 <= i < n :: stream[i] in stream[..n];
    assert FirstExcess(stream, limit, n + 1);
    assert Buffers(limit, stream, RejectedAt(n + 1));
    BufferingIsUnique(limit, stream, outcome, RejectedAt(n + 1));
  }
}
