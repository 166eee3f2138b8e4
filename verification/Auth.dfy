/** src/auth/auth.service.ts: issuing, presenting, revoking and purging API tokens. */
module Auth {
  import opened Common
  import opened Schema
  import opened Text
  import opened Users
  import Base64Url

  const MAX_TOKENS := 200
  const MAX_VALIDITY_MILLIS := 2 * 365 * 24 * 60 * 60 * 1000
  const BCRYPT_LIMIT := 72
  const SECRET_BYTES := 54
  const KEY_ID_BYTES := 8
  const SEPARATOR := "."

  type Bytes = seq<Base64Url.Byte>
  type Tokens = map<KeyId, AuthToken>

  // --- the hash: bcrypt keeps the first 72 characters -------------------------------------------------

  function Kept(text: string): string {
    if |text| <= BCRYPT_LIMIT then text else text[..BCRYPT_LIMIT]
  }

  function HashPassword(cleartext: string, salt: nat): PasswordHash {
    PasswordHash(salt, Kept(cleartext))
  }

  predicate CheckPassword(cleartext: string, password: PasswordHash) {
    Kept(cleartext) == password.kept
  }

  // A comparison succeeds exactly if the first 72 characters agree.
  lemma ComparesFirst72(presented: string, cleartext: string, salt: nat)
    ensures CheckPassword(presented, HashPassword(cleartext, salt))
            <==> && (forall i :: 0 <= i < 72 && i < |presented| && i < |cleartext| ==> presented[i] == cleartext[i])
                 && (|presented| == |cleartext| || (|presented| >= 72 && |cleartext| >= 72))
  {
    var p, c := Kept(presented), Kept(cleartext);
    if |p| == |c| && forall i :: 0 <= i < 72 && i < |presented| && i < |cleartext| ==> presented[i] == cleartext[i] {
      assert p == c;
    } else if p == c {
      forall i | 0 <= i < 72 && i < |presented| && i < |cleartext| ensures presented[i] == cleartext[i] {
        assert p[i] == c[i];
      }
    }
  }

  // --- presenting a token -----------------------------------------------------------------------------

  // The two checks `validateToken` makes on the text alone: a non-empty secret of at most 72 characters.
  function ParseToken(token: string): Result<(KeyId, string)> {
    var parts := Split(token, SEPARATOR);
    if |parts| < 2 || parts[1] == "" then Err(TokenNotValid)
    else if |parts[1]| > BCRYPT_LIMIT then Err(TokenNotValid)
    else Ok((parts[0], parts[1]))
  }

  function GetAuthTokenAndValidate(tokens: Tokens, keyId: KeyId, secret: string, now: int): Result<AuthToken> {
    if keyId !in tokens then Err(NotInDB)
    else if !CheckPassword(secret, tokens[keyId].accessTokenHash) then Err(TokenNotValid)
    else if tokens[keyId].validUntil < now then Err(TokenNotValid)
    else Ok(tokens[keyId])
  }

  // `validateToken`: who presents the token, and the token marked as used.
  function ValidateTokenStep(db: Db, token: string, now: int): Step<UserId> {
    match ParseToken(token)
    case Err(e) => Step(db, Err(e))
    case Ok((keyId, secret)) =>
      match GetAuthTokenAndValidate(db.tokens, keyId, secret, now)
      case Err(e) => Step(db, Err(e))
      case Ok(found) => Step(db.(tokens := db.tokens[keyId := found.(lastUsed := Some(now))]), Ok(found.user))
  }

  method ValidateToken(store: Store, token: string, now: int) returns (r: Result<UserId>)
    requires Consistent(store.State())
    modifies store`tokens
    ensures Step(store.State(), r) == ValidateTokenStep(old(store.State()), token, now)
    ensures Consistent(store.State())
  {
    var parts := Split(token, SEPARATOR);
    if |parts| < 2 || parts[1] == "" {
      return Err(TokenNotValid);
    }
    var keyId, secret := parts[0], parts[1];
    if |secret| > BCRYPT_LIMIT {
      return Err(TokenNotValid);
    }
    if keyId !in store.tokens {
      return Err(NotInDB);
    }
    var accessToken := store.tokens[keyId];
    if !CheckPassword(secret, accessToken.accessTokenHash) {
      return Err(TokenNotValid);
    }
    if accessToken.validUntil < now {
      return Err(TokenNotValid);
    }
    var used := SetLastUsedToken(store, keyId, now);
    r := GetUserByUsername(store, store.users[accessToken.user].userName);
    ValidateTokenKeeps(old(store.State()), token, now);
  }

  method SetLastUsedToken(store: Store, keyId: KeyId, now: int) returns (r: Result<()>)
    modifies store`tokens
    ensures r.Ok? <==> keyId in old(store.tokens)
    ensures r.Ok? ==> store.tokens == old(store.tokens)[keyId := old(store.tokens)[keyId].(lastUsed := Some(now))]
    ensures r.Err? ==> r.error == NotInDB && store.tokens == old(store.tokens)
  {
    if keyId !in store.tokens {
      return Err(NotInDB);
    }
    store.tokens := store.tokens[keyId := store.tokens[keyId].(lastUsed := Some(now))];
    return Ok(());
  }

  // --- issuing ------------------------------------------------------------------------------------------

  // No expiry, or one more than two years ahead, becomes two years ahead.
  function ValidUntil(requested: int, now: int): int {
    var maximum := now + MAX_VALIDITY_MILLIS;
    if requested == 0 || requested > maximum then maximum else requested
  }

  function TokensOf(tokens: Tokens, u: UserId): set<KeyId> {
    set k | k in tokens && tokens[k].user == u
  }

  // What the caller gets back, the only time the secret is shown.
  datatype TokenWithSecret = TokenWithSecret(tokenLabel: string, keyId: KeyId, createdAt: int,
                                             validUntil: int, secret: string)

  datatype IssueRequest = IssueRequest(userName: string, tokenLabel: string, validUntil: int)

  // The random bytes and the salt drawn for one token.
  datatype Draw = Draw(secret: Bytes, keyId: Bytes, salt: nat)

  predicate WellDrawn(draw: Draw) {
    |draw.secret| == SECRET_BYTES && |draw.keyId| == KEY_ID_BYTES
  }

  // The row to save; `now` is the clock when the ceiling is computed, `created` when the row is made.
  function NewToken(u: UserId, request: IssueRequest, draw: Draw, now: int, created: int): AuthToken {
    AuthToken(u, request.tokenLabel, created,
              HashPassword(Base64Url.BufferToBase64Url(draw.secret), draw.salt),
              ValidUntil(request.validUntil, now), None)
  }

  // The unique columns `keyId` and `accessTokenHash` refuse a row they already hold.
  predicate Clashes(tokens: Tokens, keyId: KeyId, token: AuthToken) {
    keyId in tokens || exists k :: k in tokens && SameHash(tokens[k], token)
  }

  ghost function CreateTokenStep(db: Db, request: IssueRequest, draw: Draw, now: int, created: int)
    : Step<TokenWithSecret>
  {
    match UserNamed(db, request.userName)
    case None => Step(db, Err(NotInDB))
    case Some(u) =>
      if |TokensOf(db.tokens, u)| >= MAX_TOKENS then Step(db, Err(TooManyTokens))
      else
        var keyId := Base64Url.BufferToBase64Url(draw.keyId);
        var secret := Base64Url.BufferToBase64Url(draw.secret);
        var token := NewToken(u, request, draw, now, created);
        if Clashes(db.tokens, keyId, token) then Step(db, Err(QueryFailed))
        else
          Step(db.(tokens := db.tokens[keyId := token]),
               Ok(TokenWithSecret(request.tokenLabel, keyId, created, token.validUntil, keyId + SEPARATOR + secret)))
  }

  method CreateTokenForUser(store: Store, request: IssueRequest, draw: Draw, now: int, created: int)
    returns (r: Result<TokenWithSecret>)
    requires Consistent(store.State())
    modifies store`tokens
    ensures Step(store.State(), r) == CreateTokenStep(old(store.State()), request, draw, now, created)
  {
    var found := GetUserByUsername(store, request.userName);
    if found.Err? {
      return Err(found.error);
    }
    var user := found.value;
    var authTokens := set k | k in store.tokens && store.tokens[k].user == user;
    assert authTokens == TokensOf(store.tokens, user);
    if |authTokens| >= MAX_TOKENS {
      return Err(TooManyTokens);
    }
    var secret := Base64Url.BufferToBase64Url(draw.secret);
    var keyId := Base64Url.BufferToBase64Url(draw.keyId);
    var accessToken := HashPassword(secret, draw.salt);
    var maximumTokenValidity := now + MAX_VALIDITY_MILLIS;
    var token;
    if request.validUntil == 0 || request.validUntil > maximumTokenValidity {
      token := AuthToken(user, request.tokenLabel, created, accessToken, maximumTokenValidity, None);
    } else {
      token := AuthToken(user, request.tokenLabel, created, accessToken, request.validUntil, None);
    }
    assert token == NewToken(user, request, draw, now, created);
    if keyId in store.tokens || exists k :: k in store.tokens && SameHash(store.tokens[k], token) {
      assert Clashes(store.tokens, keyId, token);
      return Err(QueryFailed);
    }
    assert !Clashes(store.tokens, keyId, token);
    store.tokens := store.tokens[keyId := token];
    return Ok(TokenWithSecret(token.tokenLabel, keyId, token.createdAt, token.validUntil, keyId + SEPARATOR + secret));
  }

  // --- revoking and purging -------------------------------------------------------------------------------

  function RemoveTokenStep(db: Db, keyId: KeyId): Step<()> {
    if keyId in db.tokens then Step(db.(tokens := db.tokens - {keyId}), Ok(()))
    else Step(db, Err(NotInDB))
  }

  method RemoveToken(store: Store, keyId: KeyId) returns (r: Result<()>)
    modifies store`tokens
    ensures Step(store.State(), r) == RemoveTokenStep(old(store.State()), keyId)
  {
    if keyId !in store.tokens {
      return Err(NotInDB);
    }
    store.tokens := store.tokens - {keyId};
    return Ok(());
  }

  function Expired(tokens: Tokens, now: int): set<KeyId> {
    set k | k in tokens && tokens[k].validUntil <= now
  }

  function PurgeStep(db: Db, now: int): Db {
    db.(tokens := db.tokens - Expired(db.tokens, now))
  }

  // The purge loop removes exactly the tokens whose time is up, and counts them.
  method RemoveInvalidTokens(store: Store, now: int) returns (removedTokens: nat)
    modifies store`tokens
    ensures store.State() == PurgeStep(old(store.State()), now)
    ensures removedTokens == |set k | k in old(store.tokens) && old(store.tokens)[k].validUntil <= now|
  {
    var tokens := store.tokens;
    var list := Rows(tokens.Keys);
    removedTokens := 0;
    for i := 0 to |list|
      invariant store.tokens == tokens - ExpiredAmong(tokens, now, Elements(list[..i]))
      invariant removedTokens == |ExpiredAmong(tokens, now, Elements(list[..i]))|
    {
      var keyId := list[i];
      NextElement(list, i);
      assert keyId in Elements(list);
      PurgeNext(tokens, now, Elements(list[..i]), keyId);
      if tokens[keyId].validUntil <= now {
        store.tokens := store.tokens - {keyId};
        removedTokens := removedTokens + 1;
      }
    }
    assert list[..|list|] == list;
    assert ExpiredAmong(tokens, now, tokens.Keys) == Expired(tokens, now);
  }

  function ExpiredAmong(tokens: Tokens, now: int, seen: set<KeyId>): set<KeyId> {
    set k | k in seen && k in tokens && tokens[k].validUntil <= now
  }

  lemma PurgeNext(tokens: Tokens, now: int, seen: set<KeyId>, keyId: KeyId)
    requires keyId in tokens && keyId !in seen
    ensures tokens[keyId].validUntil <= now ==>
              && tokens - ExpiredAmong(tokens, now, seen) - {keyId}
                 == tokens - ExpiredAmong(tokens, now, seen + {keyId})
              && |ExpiredAmong(tokens, now, seen + {keyId})| == |ExpiredAmong(tokens, now, seen)| + 1
    ensures now < tokens[keyId].validUntil ==>
              ExpiredAmong(tokens, now, seen + {keyId}) == ExpiredAmong(tokens, now, seen)
  {
    var gone, more := ExpiredAmong(tokens, now, seen), ExpiredAmong(tokens, now, seen + {keyId});
    if tokens[keyId].validUntil <= now {
      assert more == gone + {keyId} && keyId !in gone;
    }
  }

  // --- what holds of every stored token -------------------------------------------------------------------

  // `issued` remembers, for every key id, the secret last handed out with it.
  ghost predicate TokenInv(tokens: Tokens, issued: map<KeyId, string>, clock: int) {
    forall k :: k in tokens ==> k in issued && TokenFine(k, tokens[k], issued[k], clock)
  }

  predicate TokenFine(keyId: KeyId, token: AuthToken, secret: string, clock: int) {
    && '.' !in keyId && '.' !in secret
    && |secret| == BCRYPT_LIMIT
    && token.accessTokenHash.kept == secret
    && token.createdAt <= clock
    && token.validUntil <= token.createdAt + MAX_VALIDITY_MILLIS
  }

  // The text names a stored token by its key id and its secret, and the token has not expired.
  predicate Presents(db: Db, issued: map<KeyId, string>, token: string, now: int, keyId: KeyId) {
    && keyId in db.tokens && keyId in issued
    && |Split(token, SEPARATOR)| >= 2
    && Split(token, SEPARATOR)[0] == keyId
    && Split(token, SEPARATOR)[1] == issued[keyId]
    && now <= db.tokens[keyId].validUntil
  }

  // A token is accepted exactly when its first two parts are the key id and the secret issued for a
  // token that is still stored and not past its expiry, and it then stands for that token's user.
  lemma ValidateTokenIff(db: Db, issued: map<KeyId, string>, clock: int, token: string, now: int)
    requires TokenInv(db.tokens, issued, clock)
    ensures ValidateTokenStep(db, token, now).result.Ok?
            <==> exists keyId :: Presents(db, issued, token, now, keyId)
    ensures forall keyId :: Presents(db, issued, token, now, keyId) ==>
              ValidateTokenStep(db, token, now).result == Ok(db.tokens[keyId].user)
  {
    var parts := Split(token, SEPARATOR);
    if |parts| >= 2 {
      var keyId := parts[0];
      if keyId in db.tokens {
        assert |issued[keyId]| == BCRYPT_LIMIT;
        if ValidateTokenStep(db, token, now).result.Ok? {
          assert Presents(db, issued, token, now, keyId);
        }
      }
    }
  }

  // A rejection says why: NotInDB exactly if the text has a secret of a proper length but no token of
  // that key id is stored, TokenNotValid in every other case.
  lemma RejectionSaysWhy(db: Db, token: string, now: int)
    requires ValidateTokenStep(db, token, now).result.Err?
    ensures var parts := Split(token, SEPARATOR);
            ValidateTokenStep(db, token, now).result.error
            == if |parts| >= 2 && 0 < |parts[1]| <= 72 && parts[0] !in db.tokens then NotInDB else TokenNotValid
  {
  }

  // What a presentation leaves behind: nothing if it is rejected; otherwise the same tokens, of which
  // only the one presented differs, and only in the time of its last use.
  lemma PresentationMarksUse(db: Db, token: string, now: int)
    ensures var step, keyId := ValidateTokenStep(db, token, now), Split(token, SEPARATOR)[0];
            && (step.result.Err? ==> step.db == db)
            && (step.result.Ok? ==>
                  && step.db == db.(tokens := step.db.tokens)
                  && step.db.tokens.Keys == db.tokens.Keys
                  && keyId in db.tokens
                  && step.result.value == db.tokens[keyId].user
                  && step.db.tokens[keyId].lastUsed == Some(now)
                  && step.db.tokens[keyId].(lastUsed := None) == db.tokens[keyId].(lastUsed := None)
                  && forall k :: k in db.tokens && k != keyId ==> step.db.tokens[k] == db.tokens[k])
  {
    var step := ValidateTokenStep(db, token, now);
    if step.result.Ok? {
      var keyId := Split(token, SEPARATOR)[0];
      assert step.db.tokens.Keys == db.tokens.Keys + {keyId} == db.tokens.Keys;
    }
  }

  // So a presentation decides nothing about another, before or after it in time ...
  lemma PresentationDecidesNoOther(db: Db, token: string, now: int, other: string, later: int)
    ensures ValidateTokenStep(ValidateTokenStep(db, token, now).db, other, later).result
            == ValidateTokenStep(db, other, later).result
  {
    PresentationMarksUse(db, token, now);
    var after := ValidateTokenStep(db, token, now).db;
    var keyId := Split(other, SEPARATOR)[0];
    if keyId in db.tokens {
      assert after.tokens[keyId].(lastUsed := None) == db.tokens[keyId].(lastUsed := None);
    }
  }

  // ... and in any sequence of presentations each is answered as if it were the only one.
  lemma {:induction false} PresentationsAreIndependent(db: Db, requests: seq<(string, int)>, i: nat)
    requires i < |requests|
    ensures |Presentations(db, requests)| == |requests|
    ensures var alone := ValidateTokenStep(db, requests[i].0, requests[i].1).result;
            Presentations(db, requests)[i] == if alone.Ok? then Some(alone.value) else None
    decreases |requests|
  {
    var next := ValidateTokenStep(db, requests[0].0, requests[0].1).db;
    if i > 0 {
      PresentationsAreIndependent(next, requests[1..], i - 1);
      PresentationDecidesNoOther(db, requests[0].0, requests[0].1, requests[i].0, requests[i].1);
    } else if |requests| > 1 {
      PresentationsAreIndependent(next, requests[1..], 0);
    }
  }

  // A token let in once is let in again, for the same user, at any time up to its expiry, and at no
  // later time.
  lemma AcceptedAgain(db: Db, token: string, now: int, later: int)
    requires ValidateTokenStep(db, token, now).result.Ok?
    ensures var step := ValidateTokenStep(db, token, now);
            ValidateTokenStep(step.db, token, later).result
            == if later <= db.tokens[Split(token, SEPARATOR)[0]].validUntil then step.result else Err(TokenNotValid)
  {
    PresentationDecidesNoOther(db, token, now, token, later);
  }

  // 54 random bytes make a secret of exactly the 72 characters bcrypt looks at, free of the separator.
  lemma DrawnParts(draw: Draw)
    requires WellDrawn(draw)
    ensures |Base64Url.BufferToBase64Url(draw.secret)| == BCRYPT_LIMIT
    ensures '.' !in Base64Url.BufferToBase64Url(draw.secret)
    ensures '.' !in Base64Url.BufferToBase64Url(draw.keyId)
    ensures |Base64Url.BufferToBase64Url(draw.keyId)| == 11
  {
    Base64Url.EncodingLength(draw.secret);
    Base64Url.EncodingLength(draw.keyId);
    Base64Url.EncodingIsUrlSafe(draw.secret);
    Base64Url.EncodingIsUrlSafe(draw.keyId);
  }

  // The text handed out when a token is issued is accepted for its user, with anything after a second
  // separator, through the requested time but never more than two years, and after that no more.
  lemma IssuedTokenIsAccepted(db: Db, request: IssueRequest, draw: Draw, now: int, created: int, later: int,
                              junk: string)
    requires WellDrawn(draw)
    requires CreateTokenStep(db, request, draw, now, created).result.Ok?
    ensures var issue := CreateTokenStep(db, request, draw, now, created);
            var token := issue.result.value.secret;
            var inTime := && later <= now + MAX_VALIDITY_MILLIS
                          && (request.validUntil == 0 || later <= request.validUntil);
            && UserNamed(db, request.userName).Some?
            && (ValidateTokenStep(issue.db, token, later).result
                == if inTime then Ok(UserNamed(db, request.userName).value) else Err(TokenNotValid))
            && (ValidateTokenStep(issue.db, token + SEPARATOR + junk, later).result
                == ValidateTokenStep(issue.db, token, later).result)
  {
    DrawnParts(draw);
    var token := CreateTokenStep(db, request, draw, now, created).result.value.secret;
    var keyId := Base64Url.BufferToBase64Url(draw.keyId);
    var secret := Base64Url.BufferToBase64Url(draw.secret);
    TokenParts(keyId, secret);
    assert token + SEPARATOR + junk == keyId + SEPARATOR + (secret + SEPARATOR + junk);
    TokenParts(keyId, secret + SEPARATOR + junk);
    TokenParts(secret, junk);
  }

  // The first part ends at the first separator.
  lemma TokenParts(keyId: string, rest: string)
    requires '.' !in keyId
    ensures Split(keyId + SEPARATOR + rest, SEPARATOR) == [keyId] + Split(rest, SEPARATOR)
    ensures '.' !in rest ==> Split(rest, SEPARATOR) == [rest]
  {
    OneCharacter(keyId, '.');
    OneCharacter(rest, '.');
    FirstPartSurvives(keyId, SEPARATOR, rest, Split(rest, SEPARATOR));
    LonePart(rest, SEPARATOR);
  }

  // For a known user a token is issued exactly if there are fewer than 200 and neither its key id nor
  // its hash is stored already; a refusal changes nothing and says which.
  lemma IssueIff(db: Db, u: UserId, request: IssueRequest, draw: Draw, now: int, created: int)
    requires UniqueNames(db.users) && u in db.users && db.users[u].userName == request.userName
    ensures var step := CreateTokenStep(db, request, draw, now, created);
            var owned := set k | k in db.tokens && db.tokens[k].user == u;
            var keyId, secret := Base64Url.BufferToBase64Url(draw.keyId), Base64Url.BufferToBase64Url(draw.secret);
            var hash := HashPassword(secret, draw.salt);
            var clash := keyId in db.tokens || exists k :: k in db.tokens && db.tokens[k].accessTokenHash == hash;
            && (step.result.Ok? <==> |owned| < 200 && !clash)
            && (step.result.Err? ==> step == Step(db, Err(if |owned| >= 200 then TooManyTokens else QueryFailed)))
  {
    assert UserNamed(db, request.userName) == Some(u);
    assert TokensOf(db.tokens, u) == set k | k in db.tokens && db.tokens[k].user == u;
    var secret := Base64Url.BufferToBase64Url(draw.secret);
    if k :| k in db.tokens && db.tokens[k].accessTokenHash == HashPassword(secret, draw.salt) {
      assert SameHash(db.tokens[k], NewToken(u, request, draw, now, created));
    }
  }

  // What is stored then: one more token, of that user, under the drawn key id, with the hash of the
  // drawn secret, never used, valid as long as asked for but two years at most. The answer shows the
  // key id, the times and, this once, the secret.
  lemma IssueStores(db: Db, u: UserId, request: IssueRequest, draw: Draw, now: int, created: int)
    requires UniqueNames(db.users) && u in db.users && db.users[u].userName == request.userName
    requires CreateTokenStep(db, request, draw, now, created).result.Ok?
    ensures var step := CreateTokenStep(db, request, draw, now, created);
            var keyId, secret := Base64Url.BufferToBase64Url(draw.keyId), Base64Url.BufferToBase64Url(draw.secret);
            var limit := now + 63_072_000_000;
            var validUntil := if request.validUntil != 0 && request.validUntil <= limit then request.validUntil
                              else limit;
            && step.db == db.(tokens := step.db.tokens)
            && keyId !in db.tokens && step.db.tokens.Keys == db.tokens.Keys + {keyId}
            && (forall k :: k in db.tokens ==> step.db.tokens[k] == db.tokens[k])
            && step.db.tokens[keyId]
               == AuthToken(u, request.tokenLabel, created, HashPassword(secret, draw.salt), validUntil, None)
            && step.result.value
               == TokenWithSecret(request.tokenLabel, keyId, created, validUntil, keyId + "." + secret)
  {
    assert UserNamed(db, request.userName) == Some(u);
  }

  lemma IssueForNobody(db: Db, request: IssueRequest, draw: Draw, now: int, created: int)
    requires forall u :: u in db.users ==> db.users[u].userName != request.userName
    ensures CreateTokenStep(db, request, draw, now, created) == Step(db, Err(NotInDB))
  {
  }

  // Revoking takes that token and no other, and from then on no text with its key id is let in.
  lemma RevokedForGood(db: Db, keyId: KeyId, token: string, now: int)
    ensures var step := RemoveTokenStep(db, keyId);
            && step.result == (if keyId in db.tokens then Ok(()) else Err(NotInDB))
            && step.db == db.(tokens := step.db.tokens)
            && step.db.tokens.Keys == db.tokens.Keys - {keyId}
            && (forall k :: k in step.db.tokens ==> step.db.tokens[k] == db.tokens[k])
            && (Split(token, SEPARATOR)[0] == keyId ==> ValidateTokenStep(step.db, token, now).result.Err?)
            && (Split(token, SEPARATOR)[0] != keyId ==>
                  ValidateTokenStep(step.db, token, now).result == ValidateTokenStep(db, token, now).result)
  {
  }

  // A purge takes exactly the tokens whose time is up.
  lemma PurgeTakesExpired(db: Db, now: int)
    ensures var after := PurgeStep(db, now);
            && after == db.(tokens := after.tokens)
            && (forall k :: k in after.tokens <==> k in db.tokens && now < db.tokens[k].validUntil)
            && (forall k :: k in after.tokens ==> after.tokens[k] == db.tokens[k])
  {
  }

  // Issuing keeps the facts about stored tokens; the log gains the new secret.
  lemma IssueKeepsTokenInv(db: Db, issued: map<KeyId, string>, clock: int,
                           request: IssueRequest, draw: Draw, now: int, created: int)
    requires TokenInv(db.tokens, issued, clock) && WellDrawn(draw)
    requires clock <= now <= created
    ensures TokenInv(CreateTokenStep(db, request, draw, now, created).db.tokens,
                     if CreateTokenStep(db, request, draw, now, created).result.Ok?
                     then issued[Base64Url.BufferToBase64Url(draw.keyId) := Base64Url.BufferToBase64Url(draw.secret)]
                     else issued,
                     created)
  {
    if CreateTokenStep(db, request, draw, now, created).result.Ok? {
      var u := UserNamed(db, request.userName).value;
      var token := NewToken(u, request, draw, now, created);
      NewTokenFine(u, request, draw, now, created);
      TokenInvGrows(db.tokens, issued, clock, Base64Url.BufferToBase64Url(draw.keyId), token,
                    Base64Url.BufferToBase64Url(draw.secret), created);
    }
  }

  lemma NewTokenFine(u: UserId, request: IssueRequest, draw: Draw, now: int, created: int)
    requires WellDrawn(draw) && now <= created
    ensures TokenFine(Base64Url.BufferToBase64Url(draw.keyId), NewToken(u, request, draw, now, created),
                      Base64Url.BufferToBase64Url(draw.secret), created)
  {
    DrawnParts(draw);
  }

  lemma TokenInvGrows(tokens: Tokens, issued: map<KeyId, string>, clock: int, keyId: KeyId, token: AuthToken,
                      secret: string, later: int)
    requires TokenInv(tokens, issued, clock) && clock <= later && TokenFine(keyId, token, secret, later)
    ensures TokenInv(tokens[keyId := token], issued[keyId := secret], later)
  {
  }

  // Dropping tokens, marking them used and letting time pass keep them too.
  lemma TokenInvShrinks(tokens: Tokens, fewer: Tokens, issued: map<KeyId, string>, clock: int, later: int)
    requires TokenInv(tokens, issued, clock) && clock <= later
    requires forall k :: k in fewer ==> k in tokens && fewer[k].(lastUsed := None) == tokens[k].(lastUsed := None)
    ensures TokenInv(fewer, issued, later)
  {
  }

  // Right after a purge every stored token is still valid, for at most two more years.
  lemma PurgeBounds(db: Db, issued: map<KeyId, string>, clock: int, now: int)
    requires TokenInv(db.tokens, issued, clock) && clock <= now
    ensures var tokens := PurgeStep(db, now).tokens;
            forall k :: k in tokens ==> now < tokens[k].validUntil <= now + MAX_VALIDITY_MILLIS
  {
  }

  // --- purging is invisible to validation -----------------------------------------------------------------

  // Who is let in by a sequence of presentations, one after the other.
  function Presentations(db: Db, requests: seq<(string, int)>): seq<Option<UserId>>
    decreases |requests|
  {
    if |requests| == 0 then []
    else
      var step := ValidateTokenStep(db, requests[0].0, requests[0].1);
      [if step.result.Ok? then Some(step.result.value) else None] + Presentations(step.db, requests[1..])
  }

  lemma ValidateAfterPurge(db: Db, purge: int, token: string, now: int)
    requires purge < now
    ensures var plain, purged := ValidateTokenStep(db, token, now), ValidateTokenStep(PurgeStep(db, purge), token, now);
            && plain.result.Ok? == purged.result.Ok?
            && (plain.result.Ok? ==> plain.result == purged.result)
            && purged.db == PurgeStep(plain.db, purge)
  {
  }

  // Whether or not a purge ran, every later sequence of presentations is answered alike.
  lemma {:induction false} PurgeIsInvisible(db: Db, purge: int, requests: seq<(string, int)>)
    requires forall request | request in requests :: purge < request.1
    ensures Presentations(PurgeStep(db, purge), requests) == Presentations(db, requests)
    decreases |requests|
  {
    if |requests| > 0 {
      assert requests[0] in requests;
      ValidateAfterPurge(db, purge, requests[0].0, requests[0].1);
      assert forall request | request in requests[1..] :: request in requests;
      PurgeIsInvisible(ValidateTokenStep(db, requests[0].0, requests[0].1).db, purge, requests[1..]);
    }
  }

  // At the very instant of its expiry a token is still accepted but already purged.
  lemma PurgeAtTheInstantShows(db: Db, token: string, now: int)
    requires ValidateTokenStep(db, token, now).result.Ok?
    ensures ValidateTokenStep(PurgeStep(db, now), token, now).result.Ok?
            <==> db.tokens[ParseToken(token).value.0].validUntil != now
  {
  }

  // Such a token: it expires now, is let in, and is unknown right after a purge.
  lemma ExpiringNow(now: int)
    ensures var db := NO_ROWS.(users := map["u" := User("u", "u")],
                               tokens := map["k" := AuthToken("u", "", now, PasswordHash(0, "s"), now, None)]);
            && Consistent(db)
            && ValidateTokenStep(db, "k.s", now).result == Ok("u")
            && ValidateTokenStep(PurgeStep(db, now), "k.s", now).result == Err(NotInDB)
  {
    TokenParts("k", "s");
    assert "k" + SEPARATOR + "s" == "k.s";
  }

  // --- what the token operations keep of the store ----------------------------------------------------------

  lemma ValidateTokenKeeps(db: Db, token: string, now: int)
    requires Consistent(db)
    ensures Consistent(ValidateTokenStep(db, token, now).db)
  {
  }
}
