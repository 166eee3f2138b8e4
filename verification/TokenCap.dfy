/** The ceiling of 200 tokens under concurrency: `createTokenForUser` reads the number of tokens in one
    step and saves the new one in a later step, and anything may happen in between. */
module TokenCap {
  import opened Common
  import opened Schema
  import opened Auth
  import Base64Url
  import Users

  // The stored tokens, and for every user the creations that passed the check and have not saved yet.
  datatype State = State(tokens: Tokens, inFlight: multiset<UserId>)

  datatype Event =
    | ReadCount(user: UserId)
    | Save(keyId: KeyId, token: AuthToken)
    | Abandon(user: UserId)
    | Revoke(keyId: KeyId)
    | Purge(now: int)
    | Use(keyId: KeyId, now: int)

  // At most `k` creations of a user are in flight; only one in flight can save or fail.
  predicate Enabled(s: State, e: Event, k: nat) {
    match e
    case ReadCount(u) => s.inFlight[u] < k
    case Save(_, token) => s.inFlight[token.user] > 0
    case Abandon(u) => s.inFlight[u] > 0
    case _ => true
  }

  ghost function Apply(s: State, e: Event): State {
    match e
    case ReadCount(u) =>
      if |TokensOf(s.tokens, u)| >= MAX_TOKENS then s else s.(inFlight := s.inFlight + multiset{u})
    case Save(keyId, token) =>
      State(if Clashes(s.tokens, keyId, token) then s.tokens else s.tokens[keyId := token],
            s.inFlight - multiset{token.user})
    case Abandon(u) => s.(inFlight := s.inFlight - multiset{u})
    case Revoke(keyId) => s.(tokens := s.tokens - {keyId})
    case Purge(now) => s.(tokens := s.tokens - Expired(s.tokens, now))
    case Use(keyId, now) =>
      if keyId in s.tokens then s.(tokens := s.tokens[keyId := s.tokens[keyId].(lastUsed := Some(now))]) else s
  }

  ghost predicate Allowed(s: State, events: seq<Event>, k: nat)
    decreases |events|
  {
    |events| == 0 || (Enabled(s, events[0], k) && Allowed(Apply(s, events[0]), events[1..], k))
  }

  ghost function Run(s: State, events: seq<Event>): State
    decreases |events|
  {
    if |events| == 0 then s else Run(Apply(s, events[0]), events[1..])
  }

  const EMPTY := State(map[], multiset{})

  // --- the bound --------------------------------------------------------------------------------------

  // Stored and in flight together never exceed 199 + k.
  ghost predicate Bounded(s: State, k: nat) {
    forall u: UserId :: |TokensOf(s.tokens, u)| + s.inFlight[u] <= MAX_TOKENS - 1 + k
  }

  lemma Fewer(a: set<KeyId>, b: set<KeyId>)
    requires a <= b
    ensures |a| <= |b|
  {
    assert b == a + (b - a);
  }

  lemma TokensOfSave(tokens: Tokens, keyId: KeyId, token: AuthToken, u: UserId)
    requires keyId !in tokens
    ensures |TokensOf(tokens[keyId := token], u)| == |TokensOf(tokens, u)| + if token.user == u then 1 else 0
  {
    var after := TokensOf(tokens[keyId := token], u);
    assert after == TokensOf(tokens, u) + if token.user == u then {keyId} else {};
  }

  lemma SaveKeepsBound(s: State, keyId: KeyId, token: AuthToken, k: nat, u: UserId)
    requires Bounded(s, k) && s.inFlight[token.user] > 0 && !Clashes(s.tokens, keyId, token)
    ensures |TokensOf(s.tokens[keyId := token], u)| + (s.inFlight - multiset{token.user})[u] <= MAX_TOKENS - 1 + k
  {
    TokensOfSave(s.tokens, keyId, token, u);
  }

  // Anything but a save that goes through takes tokens away at most ...
  lemma OthersAddNone(s: State, e: Event, u: UserId)
    requires e.Save? ==> Clashes(s.tokens, e.keyId, e.token)
    ensures TokensOf(Apply(s, e).tokens, u) <= TokensOf(s.tokens, u)
  {
  }

  // ... and only a read that found fewer than 200 puts a creation in flight.
  lemma InFlightAfter(s: State, e: Event, k: nat, u: UserId)
    requires Enabled(s, e, k) && s.inFlight[u] <= k
    ensures Apply(s, e).inFlight[u] <= k
    ensures Apply(s, e).inFlight[u] > s.inFlight[u] ==>
              && Apply(s, e).inFlight[u] == s.inFlight[u] + 1
              && |TokensOf(s.tokens, u)| < MAX_TOKENS
              && Apply(s, e).tokens == s.tokens
  {
  }

  lemma StepKeepsBoundOf(s: State, e: Event, k: nat, u: UserId)
    requires k >= 1 && Bounded(s, k) && Enabled(s, e, k) && s.inFlight[u] <= k
    ensures |TokensOf(Apply(s, e).tokens, u)| + Apply(s, e).inFlight[u] <= MAX_TOKENS - 1 + k
  {
    if e.Save? && !Clashes(s.tokens, e.keyId, e.token) {
      SaveKeepsBound(s, e.keyId, e.token, k, u);
    } else {
      InFlightAfter(s, e, k, u);
      OthersAddNone(s, e, u);
      Fewer(TokensOf(Apply(s, e).tokens, u), TokensOf(s.tokens, u));
    }
  }

  lemma StepKeepsBound(s: State, e: Event, k: nat)
    requires k >= 1 && Bounded(s, k) && Enabled(s, e, k)
    requires forall u: UserId :: s.inFlight[u] <= k
    ensures Bounded(Apply(s, e), k)
    ensures forall u: UserId :: Apply(s, e).inFlight[u] <= k
  {
    forall u: UserId
      ensures |TokensOf(Apply(s, e).tokens, u)| + Apply(s, e).inFlight[u] <= MAX_TOKENS - 1 + k
      ensures Apply(s, e).inFlight[u] <= k
    {
      StepKeepsBoundOf(s, e, k, u);
      InFlightAfter(s, e, k, u);
    }
  }

  // Every interleaving with at most k creations of a user in flight leaves each user at most 199 + k
  // tokens: exactly the documented 200 when creations do not overlap.
  lemma {:induction false} CapHolds(s: State, events: seq<Event>, k: nat, u: UserId)
    requires k >= 1 && Bounded(s, k) && Allowed(s, events, k)
    requires forall v: UserId :: s.inFlight[v] <= k
    ensures |TokensOf(Run(s, events).tokens, u)| <= MAX_TOKENS - 1 + k
    decreases |events|
  {
    if |events| > 0 {
      StepKeepsBound(s, events[0], k);
      CapHolds(Apply(s, events[0]), events[1..], k, u);
    }
  }

  lemma CapFromEmpty(events: seq<Event>, k: nat, u: UserId)
    requires k >= 1 && Allowed(EMPTY, events, k)
    ensures |TokensOf(Run(EMPTY, events).tokens, u)| <= MAX_TOKENS - 1 + k
  {
    forall v: UserId ensures TokensOf(EMPTY.tokens, v) == {} {
    }
    CapHolds(EMPTY, events, k, u);
  }

  // A creation that is not interrupted is one read followed by one save.
  lemma CreateIsReadThenSave(db: Db, request: IssueRequest, draw: Draw, now: int, created: int,
                             inFlight: multiset<UserId>)
    requires CreateTokenStep(db, request, draw, now, created).result.Ok?
    ensures var u := Users.UserNamed(db, request.userName).value;
            var keyId := Base64Url.BufferToBase64Url(draw.keyId);
            Run(State(db.tokens, inFlight), [ReadCount(u), Save(keyId, NewToken(u, request, draw, now, created))])
            == State(CreateTokenStep(db, request, draw, now, created).db.tokens, inFlight)
  {
    var u := Users.UserNamed(db, request.userName).value;
    var keyId := Base64Url.BufferToBase64Url(draw.keyId);
    var save := Save(keyId, NewToken(u, request, draw, now, created));
    var events := [ReadCount(u), save];
    assert events[1..] == [save] && [save][1..] == [];
    var read := Apply(State(db.tokens, inFlight), ReadCount(u));
    assert Run(Apply(read, save), []) == Apply(read, save);
    assert Run(read, [save]) == Apply(read, save);
    assert inFlight + multiset{u} - multiset{u} == inFlight;
  }

  // A creation refused for the number of tokens stops at its read, one refused for a clash at its save.
  lemma RefusedCreation(db: Db, request: IssueRequest, draw: Draw, now: int, created: int, inFlight: multiset<UserId>)
    requires CreateTokenStep(db, request, draw, now, created).result.Err?
    requires Users.UserNamed(db, request.userName).Some?
    ensures var u := Users.UserNamed(db, request.userName).value;
            var save := Save(Base64Url.BufferToBase64Url(draw.keyId), NewToken(u, request, draw, now, created));
            var s := State(db.tokens, inFlight);
            var read := Apply(s, ReadCount(u));
            if CreateTokenStep(db, request, draw, now, created).result == Err(TooManyTokens) then read == s
            else read.inFlight[u] == inFlight[u] + 1 && Apply(read, save) == s
  {
    var u := Users.UserNamed(db, request.userName).value;
    assert inFlight + multiset{u} - multiset{u} == inFlight;
  }

  // The other events are the other operations of the service.
  lemma OtherEventsAreOperations(db: Db, inFlight: multiset<UserId>, keyId: KeyId, token: string, now: int)
    ensures var s := State(db.tokens, inFlight);
            && Apply(s, Revoke(keyId)) == State(RemoveTokenStep(db, keyId).db.tokens, inFlight)
            && Apply(s, Purge(now)) == State(PurgeStep(db, now).tokens, inFlight)
            && (ValidateTokenStep(db, token, now).result.Ok? ==>
                  Apply(s, Use(ParseToken(token).value.0, now))
                  == State(ValidateTokenStep(db, token, now).db.tokens, inFlight))
  {
  }

  // --- the bound is reached ----------------------------------------------------------------------------

  function Key(i: nat): (keyId: KeyId)
    ensures |keyId| == i
  {
    seq(i, _ => 'k')
  }

  function Nth(u: UserId, i: nat): AuthToken {
    AuthToken(u, "", 0, PasswordHash(i, ""), 0, None)
  }

  // A user's first n tokens.
  function Filled(u: UserId, n: nat): Tokens {
    if n == 0 then map[] else Filled(u, n - 1)[Key(n - 1) := Nth(u, n - 1)]
  }

  lemma {:induction false} KeysBelow(u: UserId, n: nat)
    ensures forall k | k in Filled(u, n) :: |k| < n && Filled(u, n)[k].accessTokenHash.salt < n
  {
    if n > 0 {
      KeysBelow(u, n - 1);
    }
  }

  lemma NextIsFresh(u: UserId, n: nat)
    ensures !Clashes(Filled(u, n), Key(n), Nth(u, n))
  {
    KeysBelow(u, n);
  }

  lemma {:induction false} CountFilled(u: UserId, n: nat)
    ensures |TokensOf(Filled(u, n), u)| == n
  {
    if n == 0 {
      assert TokensOf(Filled(u, 0), u) == {};
    } else {
      CountFilled(u, n - 1);
      NextIsFresh(u, n - 1);
      TokensOfSave(Filled(u, n - 1), Key(n - 1), Nth(u, n - 1), u);
    }
  }

  function Copies(u: UserId, n: nat): multiset<UserId> {
    multiset{}[u := n]
  }

  ghost predicate Reaches(s: State, events: seq<Event>, k: nat, goal: State) {
    Allowed(s, events, k) && Run(s, events) == goal
  }

  lemma Cons(s: State, e: Event, next: State, events: seq<Event>, k: nat, goal: State)
    requires Enabled(s, e, k) && Apply(s, e) == next && Reaches(next, events, k, goal)
    ensures Reaches(s, [e] + events, k, goal)
  {
    assert ([e] + events)[1..] == events;
  }

  const FULL: nat := MAX_TOKENS - 1

  // A user's first tokens, and some creations of that user in flight.
  function Stage(u: UserId, stored: nat, n: nat): State {
    State(Filled(u, stored), Copies(u, n))
  }

  lemma SaveNext(u: UserId, stored: nat, n: nat, events: seq<Event>, k: nat, goal: State)
    requires n > 0 && Reaches(Stage(u, stored + 1, n - 1), events, k, goal)
    ensures Reaches(Stage(u, stored, n), [Save(Key(stored), Nth(u, stored))] + events, k, goal)
  {
    NextIsFresh(u, stored);
    assert Copies(u, n) - multiset{u} == Copies(u, n - 1);
    Cons(Stage(u, stored, n), Save(Key(stored), Nth(u, stored)), Stage(u, stored + 1, n - 1), events, k, goal);
  }

  lemma ReadNext(u: UserId, stored: nat, n: nat, events: seq<Event>, k: nat, goal: State)
    requires stored <= FULL && n < k && Reaches(Stage(u, stored, n + 1), events, k, goal)
    ensures Reaches(Stage(u, stored, n), [ReadCount(u)] + events, k, goal)
  {
    CountFilled(u, stored);
    assert Copies(u, n) + multiset{u} == Copies(u, n + 1);
    Cons(Stage(u, stored, n), ReadCount(u), Stage(u, stored, n + 1), events, k, goal);
  }

  // The three stages, last first: all the creations in flight save ...
  lemma {:induction false} AllSave(u: UserId, stored: nat, n: nat, k: nat) returns (events: seq<Event>)
    ensures Reaches(Stage(u, stored, n), events, k, Stage(u, stored + n, 0))
    decreases n
  {
    if n == 0 {
      events := [];
    } else {
      var rest := AllSave(u, stored + 1, n - 1, k);
      SaveNext(u, stored, n, rest, k, Stage(u, stored + n, 0));
      events := [Save(Key(stored), Nth(u, stored))] + rest;
    }
  }

  // ... after k creations have read the count before any of them saved ...
  lemma {:induction false} AllRead(u: UserId, n: nat, k: nat) returns (events: seq<Event>)
    requires n <= k
    ensures Reaches(Stage(u, FULL, n), events, k, Stage(u, FULL + k, 0))
    decreases k - n
  {
    if n == k {
      events := AllSave(u, FULL, k, k);
    } else {
      var rest := AllRead(u, n + 1, k);
      ReadNext(u, FULL, n, rest, k, Stage(u, FULL + k, 0));
      events := [ReadCount(u)] + rest;
    }
  }

  // ... after 199 creations one after the other.
  lemma {:induction false} OneByOne(u: UserId, stored: nat, k: nat) returns (events: seq<Event>)
    requires k >= 1 && stored <= FULL
    ensures Reaches(Stage(u, stored, 0), events, k, Stage(u, FULL + k, 0))
    decreases FULL - stored
  {
    if stored == FULL {
      events := AllRead(u, 0, k);
    } else {
      var goal := Stage(u, FULL + k, 0);
      var rest := OneByOne(u, stored + 1, k);
      var save := [Save(Key(stored), Nth(u, stored))];
      SaveNext(u, stored, 1, rest, k, goal);
      ReadNext(u, stored, 0, save + rest, k, goal);
      events := [ReadCount(u)] + (save + rest);
    }
  }

  // The bound is sharp: for every k some interleaving ends with exactly 199 + k tokens.
  lemma CapIsReached(u: UserId, k: nat) returns (events: seq<Event>)
    requires k >= 1
    ensures Allowed(EMPTY, events, k)
    ensures |TokensOf(Run(EMPTY, events).tokens, u)| == MAX_TOKENS - 1 + k
  {
    events := OneByOne(u, 0, k);
    assert Stage(u, 0, 0) == EMPTY;
    CountFilled(u, FULL + k);
  }
}
