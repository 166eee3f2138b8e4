/** Whole runs of the service: any sequence of requests under a clock that does not go back, over the
    store, the media backend and what the outside remembers of both. */
module Runs {
  import opened Common
  import opened Schema
  import opened Permissions
  import opened Users
  import opened Notes
  import opened History
  import opened Media
  import opened Auth
  import opened Revisions
  import opened Api
  import Base64Url
  import TokenCap

  // The configuration stays as it is while the service runs.
  datatype Config = Config(guest: GuestPermission, forbidden: seq<string>)

  // The requests, with the random values they draw and the outcome of the calls they make outside.
  datatype NoteOp =
    | Post(newNote: NewNote)
    | Put(user: UserId, note: NoteId, content: string)
    | Share(user: UserId, note: NoteId, request: PermissionsUpdate)

  datatype RemovalOp =
    | DeleteNote(user: UserId, note: NoteId, keepMedia: bool, gone: set<FileName>)
    | DeleteUser(user: UserId, gone: set<FileName>)

  datatype MediaOp =
    | Upload(user: UserId, note: NoteId, detected: Option<FileType>, random: string, ok: bool)
    | DeleteMedia(user: UserId, file: FileName, ok: bool)

  datatype HistoryOp =
    | Open(user: UserId, note: NoteId)
    | Pin(user: UserId, note: NoteId, pinStatus: bool)
    | Forget(user: UserId, note: NoteId)
    | Clear(user: UserId)
    | Import(user: UserId, imports: seq<ImportEntry>, picks: seq<NoteId>)

  datatype TokenOp =
    | Issue(request: IssueRequest, draw: Draw, created: int)
    | Use(token: string)
    | Revoke(keyId: KeyId)
    | Purge

  datatype Op =
    | Register(id: UserId, userName: string, displayName: string)
    | OnNotes(note: NoteOp)
    | OnRemoval(removal: RemovalOp)
    | OnMedia(media: MediaOp)
    | OnHistory(history: HistoryOp)
    | OnTokens(token: TokenOp)

  datatype Event = Event(now: int, op: Op)

  // The two stores, the time of the last event, the secret last handed out under each key id, and
  // every text written to each note.
  datatype World = World(stores: Stores, clock: int, issued: map<KeyId, string>, log: Log)

  // Requests come from existing users about existing notes, generated ids are fresh, and look-ups and
  // the backend answer what they can.
  predicate NoteOpFits(db: Db, op: NoteOp) {
    match op
    case Post(note) => note.id !in db.notes && (note.owner.Some? ==> note.owner.value in db.users)
    case Put(u, n, _) => u in db.users && n in db.notes
    case Share(u, n, _) => u in db.users && n in db.notes
  }

  predicate RemovalFits(db: Db, op: RemovalOp) {
    match op
    case DeleteNote(u, n, _, gone) => u in db.users && n in db.notes && gone <= UploadsByNote(db, n)
    case DeleteUser(u, gone) => u in db.users && gone <= UploadsByUser(db, u)
  }

  predicate MediaOpFits(db: Db, op: MediaOp) {
    match op
    case Upload(u, n, _, _, _) => u in db.users && n in db.notes
    case DeleteMedia(u, f, _) => u in db.users && (f in db.uploads ==> db.uploads[f].user in db.users)
  }

  predicate HistoryOpFits(db: Db, cfg: Config, op: HistoryOp) {
    match op
    case Open(u, n) => u in db.users && n in db.notes
    case Pin(u, _, _) => u in db.users
    case Forget(u, _) => u in db.users
    case Clear(u) => u in db.users
    case Import(u, imports, picks) =>
      u in db.users && (CheckImport(db.notes, cfg.forbidden, imports).Ok? ==> Picked(db.notes, imports, picks))
  }

  predicate TokenOpFits(now: int, op: TokenOp) {
    op.Issue? ==> WellDrawn(op.draw) && now <= op.created
  }

  // And time does not go back.
  predicate Enabled(w: World, cfg: Config, e: Event) {
    var db := w.stores.db;
    && w.clock <= e.now
    && match e.op
       case Register(id, _, _) => id !in db.users
       case OnNotes(op) => NoteOpFits(db, op)
       case OnRemoval(op) => RemovalFits(db, op)
       case OnMedia(op) => MediaOpFits(db, op)
       case OnHistory(op) => HistoryOpFits(db, cfg, op)
       case OnTokens(op) => TokenOpFits(e.now, op)
  }

  // What each kind of request does.
  ghost function ServeNote(db: Db, cfg: Config, now: int, op: NoteOp): Db
    requires NoteOpFits(db, op)
  {
    match op
    case Post(note) => CreateNoteApi(db, cfg.guest, cfg.forbidden, note, now).db
    case Put(u, n, content) => UpdateNoteApi(db, cfg.guest, u, n, content, now).db
    case Share(u, n, request) => UpdatePermissionsApi(db, u, n, request).db
  }

  function ServeRemoval(s: Stores, op: RemovalOp): Stores
    requires RemovalFits(s.db, op)
  {
    match op
    case DeleteNote(u, n, keepMedia, gone) => DeleteNoteApi(s, u, n, keepMedia, gone).stores
    case DeleteUser(u, gone) => DeleteUserApi(s, u, gone).stores
  }

  function ServeMedia(s: Stores, op: MediaOp): Stores
    requires MediaOpFits(s.db, op)
  {
    match op
    case Upload(u, n, detected, random, ok) => SaveFileStep(s, detected, random, u, n, ok).stores
    case DeleteMedia(u, f, ok) => DeleteMediaApi(s, u, f, ok).stores
  }

  ghost function ServeHistory(db: Db, cfg: Config, now: int, op: HistoryOp): Db
    requires HistoryOpFits(db, cfg, op)
  {
    match op
    case Open(u, n) => GetNoteApi(db, cfg.guest, u, n, now).db
    case Pin(u, n, pinStatus) => PinStep(db, u, n, pinStatus, now).db
    case Forget(u, n) => DeleteEntryStep(db, u, n).db
    case Clear(u) => db.(history := OthersOf(db.history, u))
    case Import(u, imports, picks) => SetHistoryStep(db, cfg.forbidden, u, imports, picks).db
  }

  ghost function ServeToken(db: Db, now: int, op: TokenOp): Db {
    match op
    case Issue(request, draw, created) => CreateTokenStep(db, request, draw, now, created).db
    case Use(token) => ValidateTokenStep(db, token, now).db
    case Revoke(keyId) => RemoveTokenStep(db, keyId).db
    case Purge => PurgeStep(db, now)
  }

  ghost function Serve(w: World, cfg: Config, e: Event): Stores
    requires Enabled(w, cfg, e)
  {
    var s, db := w.stores, w.stores.db;
    match e.op
    case Register(id, userName, displayName) => s.(db := CreateUserStep(db, id, userName, displayName).db)
    case OnNotes(op) => s.(db := ServeNote(db, cfg, e.now, op))
    case OnRemoval(op) => ServeRemoval(s, op)
    case OnMedia(op) => ServeMedia(s, op)
    case OnHistory(op) => s.(db := ServeHistory(db, cfg, e.now, op))
    case OnTokens(op) => s.(db := ServeToken(db, e.now, op))
  }

  // The text a request writes to a note, if it does.
  ghost function WrittenBy(db: Db, cfg: Config, e: Event): Option<(NoteId, Written)> {
    if !e.op.OnNotes? || !NoteOpFits(db, e.op.note) then None
    else
      match e.op.note
      case Post(note) =>
        if CreateNoteApi(db, cfg.guest, cfg.forbidden, note, e.now).result.Ok? then
          Some((note.id, Written(db.nextRevision, note.content, e.now)))
        else None
      case Put(u, n, content) =>
        if UpdateNoteApi(db, cfg.guest, u, n, content, e.now).result.Ok? then
          Some((n, Written(db.nextRevision, content, e.now)))
        else None
      case Share(_, _, _) => None
  }

  predicate IsPost(e: Event) {
    e.op.OnNotes? && e.op.note.Post?
  }

  // A new note starts a new log.
  ghost function LogAfter(w: World, cfg: Config, e: Event): Log {
    match WrittenBy(w.stores.db, cfg, e)
    case None => w.log
    case Some((n, write)) => w.log[n := (if IsPost(e) || n !in w.log then [] else w.log[n]) + [write]]
  }

  predicate IsIssue(e: Event) {
    e.op.OnTokens? && e.op.token.Issue?
  }

  ghost function IssuedAfter(w: World, e: Event): map<KeyId, string> {
    if !IsIssue(e) then w.issued
    else
      var op := e.op.token;
      if CreateTokenStep(w.stores.db, op.request, op.draw, e.now, op.created).result.Err? then w.issued
      else w.issued[Base64Url.BufferToBase64Url(op.draw.keyId) := Base64Url.BufferToBase64Url(op.draw.secret)]
  }

  ghost function Next(w: World, cfg: Config, e: Event): World
    requires Enabled(w, cfg, e)
  {
    World(Serve(w, cfg, e), if IsIssue(e) then e.op.token.created else e.now, IssuedAfter(w, e), LogAfter(w, cfg, e))
  }

  ghost predicate Allowed(w: World, cfg: Config, events: seq<Event>)
    decreases |events|
  {
    |events| == 0 || (Enabled(w, cfg, events[0]) && Allowed(Next(w, cfg, events[0]), cfg, events[1..]))
  }

  ghost function Run(w: World, cfg: Config, events: seq<Event>): World
    requires Allowed(w, cfg, events)
    decreases |events|
  {
    if |events| == 0 then w else Run(Next(w, cfg, events[0]), cfg, events[1..])
  }

  // --- which requests touch what ----------------------------------------------------------------------------

  lemma HistoryOnly(db: Db, cfg: Config, now: int, op: HistoryOp)
    requires HistoryOpFits(db, cfg, op)
    ensures var after := ServeHistory(db, cfg, now, op); after == db.(history := after.history)
  {
  }

  // Some tokens gone, some marked as used.
  ghost predicate Shrinks(tokens: Tokens, fewer: Tokens) {
    forall k :: k in fewer ==> k in tokens && fewer[k].(lastUsed := None) == tokens[k].(lastUsed := None)
  }

  lemma IssueOnly(db: Db, request: IssueRequest, draw: Draw, now: int, created: int)
    ensures var after := CreateTokenStep(db, request, draw, now, created).db; after == db.(tokens := after.tokens)
  {
    var step := CreateTokenStep(db, request, draw, now, created);
    if step.result.Ok? {
      var token := NewToken(UserNamed(db, request.userName).value, request, draw, now, created);
      assert step.db == db.(tokens := db.tokens[Base64Url.BufferToBase64Url(draw.keyId) := token]);
    } else {
      assert step.db == db;
    }
  }

  lemma UseOnly(db: Db, token: string, now: int)
    ensures var after := ValidateTokenStep(db, token, now).db;
            after == db.(tokens := after.tokens) && Shrinks(db.tokens, after.tokens)
  {
    if ValidateTokenStep(db, token, now).result.Ok? {
      var keyId := ParseToken(token).value.0;
      assert ValidateTokenStep(db, token, now).db
          == db.(tokens := db.tokens[keyId := db.tokens[keyId].(lastUsed := Some(now))]);
    } else {
      assert ValidateTokenStep(db, token, now).db == db;
    }
  }

  lemma TokensOnly(db: Db, now: int, op: TokenOp)
    ensures var after := ServeToken(db, now, op); after == db.(tokens := after.tokens)
    ensures !op.Issue? ==> Shrinks(db.tokens, ServeToken(db, now, op).tokens)
  {
    match op {
      case Issue(request, draw, created) => IssueOnly(db, request, draw, now, created);
      case Use(token) => UseOnly(db, token, now);
      case Revoke(keyId) =>
        if keyId in db.tokens {
          assert ServeToken(db, now, op) == db.(tokens := db.tokens - {keyId});
        } else {
          assert ServeToken(db, now, op) == db;
        }
      case Purge =>
        assert ServeToken(db, now, op) == db.(tokens := db.tokens - Expired(db.tokens, now));
    }
  }

  lemma UploadsOnly(s: Stores, op: MediaOp)
    requires MediaOpFits(s.db, op)
    ensures var after := ServeMedia(s, op).db; after == s.db.(uploads := after.uploads)
  {
    match op {
      case Upload(u, n, detected, random, ok) =>
        var step := SaveFileStep(s, detected, random, u, n, ok);
        if step.result.Ok? {
          assert step.stores.db == s.db.(uploads := s.db.uploads[step.result.value := MediaUpload(u, Some(n))]);
        } else {
          assert step.stores.db == s.db;
        }
      case DeleteMedia(u, f, ok) =>
        var step := DeleteMediaApi(s, u, f, ok);
        if step.result.Ok? {
          assert step.stores.db == s.db.(uploads := s.db.uploads - {f});
        } else {
          assert step.stores.db == s.db;
        }
    }
  }

  lemma NothingRemoved(db: Db)
    ensures Without(db, {}, {}) == db
  {
    var same := Without(db, {}, {});
    assert same.groups == db.groups by {
      forall g | g in db.groups ensures same.groups[g] == db.groups[g] {
        assert db.groups[g].members - {} == db.groups[g].members;
      }
    }
    assert same.users == db.users && same.notes == db.notes;
    assert same.userGrants == db.userGrants && same.groupGrants == db.groupGrants;
    assert same.revisions == db.revisions && same.history == db.history && same.tokens == db.tokens;
  }

  lemma NoteDeletionIsWithout(s: Stores, u: UserId, n: NoteId, keepMedia: bool, gone: set<FileName>)
    returns (ns: set<NoteId>)
    requires n in s.db.notes
    ensures DeleteNoteApi(s, u, n, keepMedia, gone).stores.db.(uploads := s.db.uploads) == Without(s.db, {}, ns)
    ensures ns == {} || (ns == {n} && s.db.notes[n].owner == Some(u))
  {
    if DeleteNoteApi(s, u, n, keepMedia, gone).result.Ok? {
      ns := {n};
      UploadsApart(s.db, if keepMedia then Unlinked(s.db.uploads, UploadsByNote(s.db, n)) else s.db.uploads - gone, ns);
    } else {
      ns := {};
      NothingRemoved(s.db);
    }
  }

  lemma UserDeletionIsWithout(s: Stores, u: UserId, gone: set<FileName>) returns (us: set<UserId>, ns: set<NoteId>)
    requires u in s.db.users
    ensures DeleteUserApi(s, u, gone).stores.db.(uploads := s.db.uploads) == Without(s.db, us, ns)
    ensures us <= {u} && forall n :: n in ns ==> n in s.db.notes && s.db.notes[n].owner == Some(u)
  {
    if DeleteUserApi(s, u, gone).result.Ok? {
      us, ns := {u}, Owned(s.db, u);
      assert Owned(Dropped(s, gone).db, u) == ns;
    } else {
      us, ns := {}, {};
      NothingRemoved(s.db);
    }
  }

  // What a removal leaves, besides the uploads, as a removal from the tables as they were.
  lemma RemovalIsWithout(s: Stores, op: RemovalOp) returns (us: set<UserId>, ns: set<NoteId>)
    requires RemovalFits(s.db, op)
    ensures ServeRemoval(s, op).db.(uploads := s.db.uploads) == Without(s.db, us, ns)
    ensures op.DeleteNote? ==> us == {} && ns <= {op.note}
    ensures us <= {op.user} && forall n :: n in ns ==> n in s.db.notes && s.db.notes[n].owner == Some(op.user)
  {
    match op {
      case DeleteNote(u, n, keepMedia, gone) =>
        us := {};
        ns := NoteDeletionIsWithout(s, u, n, keepMedia, gone);
      case DeleteUser(u, gone) =>
        us, ns := UserDeletionIsWithout(s, u, gone);
    }
  }

  // Requests about neither notes nor removals leave notes, sharing and revisions alone.
  lemma NotesUntouched(w: World, cfg: Config, e: Event)
    requires Enabled(w, cfg, e) && !e.op.OnNotes? && !e.op.OnRemoval?
    ensures var db, after := w.stores.db, Serve(w, cfg, e).db;
            && after.notes == db.notes && after.groups == db.groups
            && after.userGrants == db.userGrants && after.groupGrants == db.groupGrants
            && after.revisions == db.revisions && after.nextRevision == db.nextRevision
  {
    match e.op {
      case OnHistory(op) => HistoryOnly(w.stores.db, cfg, e.now, op);
      case OnTokens(op) => TokensOnly(w.stores.db, e.now, op);
      case OnMedia(op) => UploadsOnly(w.stores, op);
      case Register(_, _, _) =>
    }
  }

  // --- what every run keeps -------------------------------------------------------------------------------

  // Nobody has more than 200 tokens.
  ghost predicate Capped(tokens: Tokens) {
    forall u: UserId :: |TokensOf(tokens, u)| <= MAX_TOKENS
  }

  ghost predicate TokensFine(w: World) {
    TokenInv(w.stores.db.tokens, w.issued, w.clock) && Capped(w.stores.db.tokens)
  }

  ghost predicate LogFine(w: World) {
    var db := w.stores.db;
    LogInv(db.notes, db.revisions, db.nextRevision, w.log, w.clock)
  }

  ghost predicate StoresFine(s: Stores, cfg: Config) {
    Consistent(s.db) && AliasesAllowed(s.db.notes, cfg.forbidden) && FilesMatch(s)
  }

  // No dangling reference, no duplicate in a unique column, no alias that is empty or forbidden, a file
  // for every upload record and a record for every file, every stored token as it was issued and within
  // its bounds, and every note's revisions exactly the texts written to it.
  ghost predicate Inv(w: World, cfg: Config) {
    StoresFine(w.stores, cfg) && TokensFine(w) && LogFine(w)
  }

  lemma NoteOpKeepsStores(s: Stores, cfg: Config, now: int, op: NoteOp)
    requires StoresFine(s, cfg) && NoteOpFits(s.db, op)
    ensures StoresFine(s.(db := ServeNote(s.db, cfg, now, op)), cfg)
  {
    match op {
      case Post(note) => CreateNoteKeeps(s.db, cfg.forbidden, note, now);
      case Put(u, n, content) => UpdateNoteKeeps(s.db, n, content, now);
      case Share(u, n, request) => UpdatePermissionsKeeps(s.db, n, request);
    }
  }

  lemma RemovalKeepsStores(s: Stores, cfg: Config, op: RemovalOp)
    requires StoresFine(s, cfg) && RemovalFits(s.db, op)
    ensures StoresFine(ServeRemoval(s, op), cfg)
  {
    match op {
      case DeleteNote(u, n, keepMedia, gone) => DeleteNoteKeeps(s, u, n, keepMedia, gone);
      case DeleteUser(u, gone) => DeleteUserKeeps(s, u, gone);
    }
    var us, ns := RemovalIsWithout(s, op);
  }

  lemma MediaOpKeepsStores(s: Stores, cfg: Config, op: MediaOp)
    requires StoresFine(s, cfg) && MediaOpFits(s.db, op)
    ensures StoresFine(ServeMedia(s, op), cfg)
  {
  }

  lemma HistoryOpKeepsStores(s: Stores, cfg: Config, now: int, op: HistoryOp)
    requires StoresFine(s, cfg) && HistoryOpFits(s.db, cfg, op)
    ensures StoresFine(s.(db := ServeHistory(s.db, cfg, now, op)), cfg)
  {
    HistoryOnly(s.db, cfg, now, op);
    if op.Import? {
      SetHistoryKeeps(s.db, cfg.forbidden, op.user, op.imports, op.picks);
    } else {
      HistoryKeeps(s.db, ServeHistory(s.db, cfg, now, op).history);
    }
  }

  lemma TokenOpKeepsStores(s: Stores, cfg: Config, now: int, op: TokenOp)
    requires StoresFine(s, cfg)
    ensures StoresFine(s.(db := ServeToken(s.db, now, op)), cfg)
  {
    TokensOnly(s.db, now, op);
    var after := ServeToken(s.db, now, op).tokens;
    if op.Issue? {
      IssuingKeepsColumns(s.db, op.request, op.draw, now, op.created);
    } else {
      ShrinkingKeepsColumns(s.db.tokens, after, s.db.users);
    }
  }

  lemma IssuingKeepsColumns(db: Db, request: IssueRequest, draw: Draw, now: int, created: int)
    requires Consistent(db)
    ensures var after := CreateTokenStep(db, request, draw, now, created).db.tokens;
            TokensLinked(after, db.users) && UniqueHashes(after)
  {
  }

  lemma ShrinkingKeepsColumns(tokens: Tokens, fewer: Tokens, users: map<UserId, User>)
    requires Shrinks(tokens, fewer) && TokensLinked(tokens, users) && UniqueHashes(tokens)
    ensures TokensLinked(fewer, users) && UniqueHashes(fewer)
  {
    forall k | k in fewer
      ensures fewer[k].user == tokens[k].user && fewer[k].accessTokenHash == tokens[k].accessTokenHash
    {
      assert fewer[k].(lastUsed := None) == tokens[k].(lastUsed := None);
    }
  }

  lemma StepKeepsStores(w: World, cfg: Config, e: Event)
    requires StoresFine(w.stores, cfg) && Enabled(w, cfg, e)
    ensures StoresFine(Serve(w, cfg, e), cfg)
  {
    match e.op {
      case Register(id, userName, displayName) => CreateUserKeeps(w.stores.db, id, userName, displayName);
      case OnNotes(op) => NoteOpKeepsStores(w.stores, cfg, e.now, op);
      case OnRemoval(op) => RemovalKeepsStores(w.stores, cfg, op);
      case OnMedia(op) => MediaOpKeepsStores(w.stores, cfg, op);
      case OnHistory(op) => HistoryOpKeepsStores(w.stores, cfg, e.now, op);
      case OnTokens(op) => TokenOpKeepsStores(w.stores, cfg, e.now, op);
    }
  }

  lemma ShrinkingKeepsCap(tokens: Tokens, fewer: Tokens)
    requires Capped(tokens) && Shrinks(tokens, fewer)
    ensures Capped(fewer)
  {
    forall u: UserId ensures |TokensOf(fewer, u)| <= MAX_TOKENS {
      forall k | k in TokensOf(fewer, u) ensures k in TokensOf(tokens, u) {
        assert fewer[k].(lastUsed := None) == tokens[k].(lastUsed := None);
      }
      TokenCap.Fewer(TokensOf(fewer, u), TokensOf(tokens, u));
    }
  }

  lemma IssuingKeepsCap(db: Db, request: IssueRequest, draw: Draw, now: int, created: int)
    requires Capped(db.tokens)
    ensures Capped(CreateTokenStep(db, request, draw, now, created).db.tokens)
  {
    if CreateTokenStep(db, request, draw, now, created).result.Ok? {
      var owner := UserNamed(db, request.userName).value;
      var keyId := Base64Url.BufferToBase64Url(draw.keyId);
      forall u: UserId
        ensures |TokensOf(CreateTokenStep(db, request, draw, now, created).db.tokens, u)| <= MAX_TOKENS
      {
        TokenCap.TokensOfSave(db.tokens, keyId, NewToken(owner, request, draw, now, created), u);
      }
    }
  }

  // Requests other than issuing only drop tokens or mark one as used.
  lemma TokensShrink(w: World, cfg: Config, e: Event)
    requires Enabled(w, cfg, e) && !IsIssue(e)
    ensures Shrinks(w.stores.db.tokens, Serve(w, cfg, e).db.tokens)
  {
    match e.op {
      case OnRemoval(op) => var us, ns := RemovalIsWithout(w.stores, op);
      case OnMedia(op) => UploadsOnly(w.stores, op);
      case OnHistory(op) => HistoryOnly(w.stores.db, cfg, e.now, op);
      case OnTokens(op) => TokensOnly(w.stores.db, e.now, op);
      case OnNotes(op) => TokensOutOfNotes(w.stores.db, cfg, e.now, op);
      case Register(_, _, _) =>
    }
  }

  lemma TokensOutOfNotes(db: Db, cfg: Config, now: int, op: NoteOp)
    requires NoteOpFits(db, op)
    ensures ServeNote(db, cfg, now, op).tokens == db.tokens
  {
    match op {
      case Post(note) => assert CreateNoteStep(db, cfg.forbidden, note, now).db.tokens == db.tokens;
      case Put(_, _, _) =>
      case Share(_, n, request) => assert UpdatePermissionsStep(db, n, request).db.tokens == db.tokens;
    }
  }

  lemma StepKeepsTokens(w: World, cfg: Config, e: Event)
    requires Inv(w, cfg) && Enabled(w, cfg, e)
    ensures TokensFine(Next(w, cfg, e))
  {
    var db := w.stores.db;
    if IsIssue(e) {
      var op := e.op.token;
      IssueKeepsTokenInv(db, w.issued, w.clock, op.request, op.draw, e.now, op.created);
      IssuingKeepsCap(db, op.request, op.draw, e.now, op.created);
    } else {
      var after := Serve(w, cfg, e).db.tokens;
      TokensShrink(w, cfg, e);
      TokenInvShrinks(db.tokens, after, w.issued, w.clock, e.now);
      ShrinkingKeepsCap(db.tokens, after);
    }
  }

  // A request that writes adds exactly the row of that write.
  lemma WriteMoves(db: Db, cfg: Config, e: Event, n: NoteId, write: Written)
    requires WrittenBy(db, cfg, e) == Some((n, write))
    ensures var after := ServeNote(db, cfg, e.now, e.op.note);
            && after.revisions == db.revisions[db.nextRevision := Revision(n, write.content, e.now)]
            && after.nextRevision == db.nextRevision + 1
            && write == Written(db.nextRevision, write.content, e.now)
            && after.notes.Keys == db.notes.Keys + {n}
            && (IsPost(e) <==> n !in db.notes)
  {
    if !IsPost(e) {
      assert db.notes.Keys + {n} == db.notes.Keys;
    }
  }

  // Any other only drops rows of notes it removes.
  lemma NoWriteMoves(w: World, cfg: Config, e: Event)
    requires Enabled(w, cfg, e) && WrittenBy(w.stores.db, cfg, e).None?
    ensures var db, after := w.stores.db, Serve(w, cfg, e).db;
            && after.nextRevision == db.nextRevision
            && (forall r :: r in after.revisions ==> r in db.revisions && after.revisions[r] == db.revisions[r])
            && (forall r :: r in db.revisions && db.revisions[r].note in after.notes ==> r in after.revisions)
            && after.notes.Keys <= db.notes.Keys
  {
    if e.op.OnRemoval? {
      var us, ns := RemovalIsWithout(w.stores, e.op.removal);
    } else if !e.op.OnNotes? {
      NotesUntouched(w, cfg, e);
    }
  }

  // The log of the note written to gains that write ...
  lemma LogOfWritten(w: World, cfg: Config, e: Event, n: NoteId, write: Written)
    requires LogFine(w) && Enabled(w, cfg, e) && WrittenBy(w.stores.db, cfg, e) == Some((n, write))
    requires RevisionsLinked(w.stores.db.revisions, w.stores.db.notes)
    ensures var after, log := Serve(w, cfg, e).db, LogAfter(w, cfg, e);
            n in log && LogOf(after.revisions, n, log[n], after.nextRevision, e.now)
  {
    var db := w.stores.db;
    WriteMoves(db, cfg, e, n, write);
    var writes := if IsPost(e) then [] else w.log[n];
    if IsPost(e) {
      assert RevisionsOf(db.revisions, n) == {};
    }
    WriteExtendsLog(db.revisions, n, writes, db.nextRevision, w.clock, write.content, e.now);
  }

  // ... and the logs of the others stay.
  lemma LogOfOthers(w: World, cfg: Config, e: Event, n: NoteId, write: Written, m: NoteId)
    requires LogFine(w) && Enabled(w, cfg, e) && WrittenBy(w.stores.db, cfg, e) == Some((n, write))
    requires m != n && m in Serve(w, cfg, e).db.notes
    ensures var after, log := Serve(w, cfg, e).db, LogAfter(w, cfg, e);
            m in log && LogOf(after.revisions, m, log[m], after.nextRevision, e.now)
  {
    var db := w.stores.db;
    WriteMoves(db, cfg, e, n, write);
    assert m in db.notes;
    WriteElsewhere(db.revisions, n, m, w.log[m], db.nextRevision, w.clock, write.content, e.now);
  }

  lemma LogAfterWrite(w: World, cfg: Config, e: Event, n: NoteId, write: Written)
    requires Inv(w, cfg) && Enabled(w, cfg, e) && WrittenBy(w.stores.db, cfg, e) == Some((n, write))
    ensures LogFine(Next(w, cfg, e))
  {
    var after, log := Serve(w, cfg, e).db, LogAfter(w, cfg, e);
    LogOfWritten(w, cfg, e, n, write);
    forall m | m in after.notes ensures m in log && LogOf(after.revisions, m, log[m], after.nextRevision, e.now) {
      if m != n {
        LogOfOthers(w, cfg, e, n, write, m);
      }
    }
    WriteMoves(w.stores.db, cfg, e, n, write);
  }

  lemma StepKeepsLog(w: World, cfg: Config, e: Event)
    requires Inv(w, cfg) && Enabled(w, cfg, e)
    ensures LogFine(Next(w, cfg, e))
  {
    var db, after, next := w.stores.db, Serve(w, cfg, e).db, Next(w, cfg, e);
    if WrittenBy(db, cfg, e).Some? {
      var (n, write) := WrittenBy(db, cfg, e).value;
      LogAfterWrite(w, cfg, e, n, write);
    } else {
      NoWriteMoves(w, cfg, e);
      forall m | m in after.notes
        ensures m in next.log && LogOf(after.revisions, m, next.log[m], after.nextRevision, next.clock)
      {
        assert m in db.notes;
        LogSurvives(db.revisions, after.revisions, m, w.log[m], db.nextRevision, w.clock, next.clock);
      }
    }
  }

  lemma StepKeepsInv(w: World, cfg: Config, e: Event)
    requires Inv(w, cfg) && Enabled(w, cfg, e)
    ensures Inv(Next(w, cfg, e), cfg)
  {
    StepKeepsStores(w, cfg, e);
    StepKeepsTokens(w, cfg, e);
    StepKeepsLog(w, cfg, e);
  }

  // Every run keeps all of it.
  lemma {:induction false} RunKeepsInv(w: World, cfg: Config, events: seq<Event>)
    requires Inv(w, cfg) && Allowed(w, cfg, events)
    ensures Inv(Run(w, cfg, events), cfg)
    decreases |events|
  {
    if |events| > 0 {
      StepKeepsInv(w, cfg, events[0]);
      RunKeepsInv(Next(w, cfg, events[0]), cfg, events[1..]);
    }
  }

  // A new installation: the groups that were set up, and nothing else.
  function Fresh(groups: map<GroupId, Group>, clock: int): World {
    World(Stores(NO_ROWS.(groups := groups), {}), clock, map[], map[])
  }

  lemma FreshIsFine(groups: map<GroupId, Group>, clock: int, cfg: Config)
    requires UniqueGroupNames(groups) && forall g :: g in groups ==> groups[g].members == {}
    ensures Inv(Fresh(groups, clock), cfg)
  {
  }

  // --- access ---------------------------------------------------------------------------------------------

  // Nothing about the note's sharing has grown.
  ghost predicate NoNewGrant(db: Db, after: Db, n: NoteId) {
    && n in db.notes && n in after.notes
    && after.notes[n].owner == db.notes[n].owner
    && (forall u :: (n, u) in after.userGrants ==>
          (n, u) in db.userGrants && after.userGrants[(n, u)] == db.userGrants[(n, u)])
    && (forall g :: (n, g) in after.groupGrants ==>
          (n, g) in db.groupGrants && after.groupGrants[(n, g)] == db.groupGrants[(n, g)])
    && (forall g :: g in after.groups ==> g in db.groups && SmallerGroup(after.groups[g], db.groups[g]))
  }

  predicate SmallerGroup(after: Group, before: Group) {
    after.name == before.name && after.special == before.special && after.members <= before.members
  }

  lemma NoNewGrantNoNewAccess(db: Db, after: Db, guest: GuestPermission, user: Option<UserId>, n: NoteId,
                              wantEdit: bool)
    requires NoNewGrant(db, after, n) && MayAccess(after, guest, user, n, wantEdit)
    ensures MayAccess(db, guest, user, n, wantEdit)
  {
    if g :| GroupRowGrants(after, guest, user, n, g, wantEdit) {
      assert SmallerGroup(after.groups[g], db.groups[g]);
      assert GroupRowGrants(db, guest, user, n, g, wantEdit);
    }
  }

  predicate UpdatesPermissionsAsOwner(db: Db, e: Event, n: NoteId)
    requires n in db.notes
  {
    && e.op.OnNotes? && e.op.note.Share? && e.op.note.note == n
    && Owns(Some(e.op.note.user), db.notes[n].owner)
  }

  lemma OtherNotesSharing(db: Db, u: UserId, m: NoteId, request: PermissionsUpdate, n: NoteId)
    requires m in db.notes && n in db.notes && m != n
    requires UpdatePermissionsApi(db, u, m, request).result.Ok?
    ensures NoNewGrant(db, UpdatePermissionsApi(db, u, m, request).db, n)
  {
  }

  lemma AddedNoteSharing(db: Db, id: NoteId, row: Note, content: string, now: int, n: NoteId)
    requires id !in db.notes && n in db.notes
    ensures NoNewGrant(db, AddRevision(db.(notes := db.notes[id := row]), id, content, now), n)
  {
  }

  lemma PostSharing(db: Db, cfg: Config, now: int, note: NewNote, n: NoteId)
    requires note.id !in db.notes && n in db.notes
    ensures NoNewGrant(db, CreateNoteApi(db, cfg.guest, cfg.forbidden, note, now).db, n)
  {
    if CreateNoteApi(db, cfg.guest, cfg.forbidden, note, now).result.Ok? {
      AddedNoteSharing(db, note.id, Note(note.publicId, Alias(note), note.owner), note.content, now, n);
    } else {
      assert CreateNoteApi(db, cfg.guest, cfg.forbidden, note, now).db == db;
    }
  }

  lemma PutSharing(db: Db, m: NoteId, content: string, now: int, n: NoteId)
    requires m in db.notes && n in db.notes
    ensures NoNewGrant(db, UpdateNoteStep(db, m, content, now), n)
  {
  }

  lemma NoteOpsSharing(db: Db, cfg: Config, now: int, op: NoteOp, n: NoteId)
    requires NoteOpFits(db, op) && n in db.notes
    requires op.Share? && op.note == n ==> !Owns(Some(op.user), db.notes[n].owner)
    ensures NoNewGrant(db, ServeNote(db, cfg, now, op), n)
  {
    match op {
      case Post(note) => PostSharing(db, cfg, now, note, n);
      case Put(u, m, content) =>
        if MayAccess(db, cfg.guest, Some(u), m, true) {
          PutSharing(db, m, content, now, n);
        }
      case Share(u, m, request) =>
        if UpdatePermissionsApi(db, u, m, request).result.Ok? {
          OtherNotesSharing(db, u, m, request, n);
        }
    }
  }

  lemma RemovalsAddNoGrant(db: Db, us: set<UserId>, ns: set<NoteId>, n: NoteId)
    requires n in db.notes && n !in ns
    ensures NoNewGrant(db, Without(db, us, ns), n)
  {
  }

  lemma ShareKeepsNotes(db: Db, u: UserId, n: NoteId, request: PermissionsUpdate)
    requires n in db.notes
    ensures UpdatePermissionsApi(db, u, n, request).db.notes == db.notes
  {
  }

  lemma RemovalSharing(s: Stores, op: RemovalOp, n: NoteId)
    requires RemovalFits(s.db, op) && n in s.db.notes && n in ServeRemoval(s, op).db.notes
    ensures NoNewGrant(s.db, ServeRemoval(s, op).db, n)
  {
    var us, ns := RemovalIsWithout(s, op);
    RemovalsAddNoGrant(s.db, us, ns, n);
  }

  // Only a permission update requested by the note's owner can add to the sharing of a note; no
  // request changes its owner.
  lemma SharingGrowsByOwnerOnly(w: World, cfg: Config, e: Event, n: NoteId)
    requires Enabled(w, cfg, e)
    requires n in w.stores.db.notes && n in Serve(w, cfg, e).db.notes
    ensures UpdatesPermissionsAsOwner(w.stores.db, e, n) || NoNewGrant(w.stores.db, Serve(w, cfg, e).db, n)
    ensures Serve(w, cfg, e).db.notes[n].owner == w.stores.db.notes[n].owner
  {
    var db := w.stores.db;
    if e.op.OnRemoval? {
      RemovalSharing(w.stores, e.op.removal, n);
    } else if !e.op.OnNotes? {
      NotesUntouched(w, cfg, e);
    } else if !UpdatesPermissionsAsOwner(db, e, n) {
      NoteOpsSharing(db, cfg, e.now, e.op.note, n);
    } else {
      ShareKeepsNotes(db, e.op.note.user, n, e.op.note.request);
    }
  }

  // The note is there before and after every event of the run.
  ghost predicate Persists(w: World, cfg: Config, events: seq<Event>, n: NoteId)
    requires Allowed(w, cfg, events)
    decreases |events|
  {
    n in w.stores.db.notes && (|events| == 0 || Persists(Next(w, cfg, events[0]), cfg, events[1..], n))
  }

  lemma {:induction false} PersistsToTheEnd(w: World, cfg: Config, events: seq<Event>, n: NoteId)
    requires Allowed(w, cfg, events) && Persists(w, cfg, events, n)
    ensures n in Run(w, cfg, events).stores.db.notes
    decreases |events|
  {
    if |events| > 0 {
      PersistsToTheEnd(Next(w, cfg, events[0]), cfg, events[1..], n);
    }
  }

  // Over any run, a user or guest who could not read (or write) a note and later can gained that by a
  // permission update requested by the note's owner: not before it, but right after it. The owner is
  // the same throughout.
  lemma {:induction false} AccessComesFromTheOwner(w: World, cfg: Config, events: seq<Event>, user: Option<UserId>,
                                                   n: NoteId, wantEdit: bool)
    returns (i: nat)
    requires Allowed(w, cfg, events) && Persists(w, cfg, events, n)
    requires n in Run(w, cfg, events).stores.db.notes
    requires !MayAccess(w.stores.db, cfg.guest, user, n, wantEdit)
    requires MayAccess(Run(w, cfg, events).stores.db, cfg.guest, user, n, wantEdit)
    ensures i < |events| && GainedAt(w, cfg, events, user, n, wantEdit, i)
    ensures UpdatesPermissionsAsOwner(w.stores.db, events[i], n)
    ensures Run(w, cfg, events).stores.db.notes[n].owner == w.stores.db.notes[n].owner
    decreases |events|
  {
    var next := Next(w, cfg, events[0]);
    SharingGrowsByOwnerOnly(w, cfg, events[0], n);
    OwnerIsForever(next, cfg, events[1..], n);
    if MayAccess(next.stores.db, cfg.guest, user, n, wantEdit) {
      i := 0;
      if NoNewGrant(w.stores.db, next.stores.db, n) {
        NoNewGrantNoNewAccess(w.stores.db, next.stores.db, cfg.guest, user, n, wantEdit);
      }
      FirstEvent(w, cfg, events);
    } else {
      var j := AccessComesFromTheOwner(next, cfg, events[1..], user, n, wantEdit);
      i := j + 1;
      PrefixStep(w, cfg, events, j);
      PrefixStep(w, cfg, events, j + 1);
    }
  }

  // The access was missing right before event `i` of the run and there right after it.
  ghost predicate GainedAt(w: World, cfg: Config, events: seq<Event>, user: Option<UserId>, n: NoteId, wantEdit: bool,
                           i: nat)
    requires i < |events|
  {
    && Allowed(w, cfg, events[..i]) && Allowed(w, cfg, events[..i + 1])
    && n in Run(w, cfg, events[..i]).stores.db.notes
    && n in Run(w, cfg, events[..i + 1]).stores.db.notes
    && !MayAccess(Run(w, cfg, events[..i]).stores.db, cfg.guest, user, n, wantEdit)
    && MayAccess(Run(w, cfg, events[..i + 1]).stores.db, cfg.guest, user, n, wantEdit)
  }

  lemma FirstEvent(w: World, cfg: Config, events: seq<Event>)
    requires |events| > 0 && Enabled(w, cfg, events[0])
    ensures Allowed(w, cfg, events[..0]) && Run(w, cfg, events[..0]) == w
    ensures Allowed(w, cfg, events[..1]) && Run(w, cfg, events[..1]) == Next(w, cfg, events[0])
  {
    assert events[..1][1..] == [];
  }

  lemma PrefixStep(w: World, cfg: Config, events: seq<Event>, j: nat)
    requires j < |events| && Enabled(w, cfg, events[0]) && Allowed(Next(w, cfg, events[0]), cfg, events[1..][..j])
    ensures Allowed(w, cfg, events[..j + 1])
    ensures Run(w, cfg, events[..j + 1]) == Run(Next(w, cfg, events[0]), cfg, events[1..][..j])
  {
    assert events[..j + 1][1..] == events[1..][..j];
  }

  lemma {:induction false} OwnerIsForever(w: World, cfg: Config, events: seq<Event>, n: NoteId)
    requires Allowed(w, cfg, events) && Persists(w, cfg, events, n)
    ensures n in Run(w, cfg, events).stores.db.notes
    ensures Run(w, cfg, events).stores.db.notes[n].owner == w.stores.db.notes[n].owner
    decreases |events|
  {
    if |events| > 0 {
      SharingGrowsByOwnerOnly(w, cfg, events[0], n);
      OwnerIsForever(Next(w, cfg, events[0]), cfg, events[1..], n);
    }
  }

  // --- content --------------------------------------------------------------------------------------------

  // The texts a run writes to a note, in order.
  ghost function Writes(w: World, cfg: Config, events: seq<Event>, n: NoteId): seq<Written>
    requires Allowed(w, cfg, events)
    decreases |events|
  {
    if |events| == 0 then []
    else WriteTo(w, cfg, events[0], n) + Writes(Next(w, cfg, events[0]), cfg, events[1..], n)
  }

  ghost function WriteTo(w: World, cfg: Config, e: Event, n: NoteId): seq<Written> {
    match WrittenBy(w.stores.db, cfg, e)
    case Some((m, write)) => if m == n then [write] else []
    case None => []
  }

  lemma {:induction false} LogGrowsByWrites(w: World, cfg: Config, events: seq<Event>, n: NoteId)
    requires Inv(w, cfg) && Allowed(w, cfg, events) && Persists(w, cfg, events, n)
    ensures n in Run(w, cfg, events).log && Run(w, cfg, events).log[n] == w.log[n] + Writes(w, cfg, events, n)
    decreases |events|
  {
    if |events| > 0 {
      var e, next := events[0], Next(w, cfg, events[0]);
      StepKeepsInv(w, cfg, e);
      LogGrowsByWrites(next, cfg, events[1..], n);
      OneWrite(w, cfg, e, n);
      Associative(w.log[n], WriteTo(w, cfg, e, n), Writes(next, cfg, events[1..], n));
    }
  }

  lemma OneWrite(w: World, cfg: Config, e: Event, n: NoteId)
    requires Inv(w, cfg) && Enabled(w, cfg, e) && n in w.stores.db.notes
    ensures n in LogAfter(w, cfg, e) && LogAfter(w, cfg, e)[n] == w.log[n] + WriteTo(w, cfg, e, n)
  {
  }

  // What the queries answer about a note: as many revisions as writes, the last text as the latest, and
  // the time of the first write as the time of the first.
  ghost predicate Tells(revisions: RevisionTable, n: NoteId, writes: seq<Written>)
    requires |writes| >= 1
  {
    && |RevisionsOf(revisions, n)| == |writes|
    && GetLatestRevision(revisions, n).Ok?
    && revisions[GetLatestRevision(revisions, n).value].content == writes[|writes| - 1].content
    && (exists first :: IsFirst(revisions, n, first))
    && forall first :: IsFirst(revisions, n, first) ==> revisions[first].createdAt == writes[0].at
  }

  lemma LogTells(revisions: RevisionTable, n: NoteId, writes: seq<Written>, next: RevisionId, clock: int)
    requires LogOf(revisions, n, writes, next, clock)
    ensures Tells(revisions, n, writes)
  {
    LatestIsLastWritten(revisions, n, writes, next, clock);
    RevisionCount(revisions, n, writes, next, clock);
    FirstIsFirstWritten(revisions, n, writes, next, clock);
    forall first | IsFirst(revisions, n, first) ensures revisions[first].createdAt == writes[0].at {
      FirstHasCreationTime(revisions, n, writes, next, clock, first);
    }
  }

  // From the creation of a note on, whatever else happens while it exists, its revisions tell of the
  // creation followed by the updates: the latest is the last text written, the first carries the
  // creation time, and there is one more than there were updates.
  lemma RevisionsOverRuns(w: World, cfg: Config, created: Event, events: seq<Event>, note: NewNote)
    requires Inv(w, cfg) && Enabled(w, cfg, created)
    requires created.op == OnNotes(Post(note)) && WrittenBy(w.stores.db, cfg, created).Some?
    requires Allowed(Next(w, cfg, created), cfg, events) && Persists(Next(w, cfg, created), cfg, events, note.id)
    ensures Tells(Run(Next(w, cfg, created), cfg, events).stores.db.revisions, note.id,
                  [Written(w.stores.db.nextRevision, note.content, created.now)]
                  + Writes(Next(w, cfg, created), cfg, events, note.id))
  {
    var next := Next(w, cfg, created);
    StepKeepsInv(w, cfg, created);
    RunKeepsInv(next, cfg, events);
    LogGrowsByWrites(next, cfg, events, note.id);
    PersistsToTheEnd(next, cfg, events, note.id);
    var end := Run(next, cfg, events);
    LogTells(end.stores.db.revisions, note.id, end.log[note.id], end.stores.db.nextRevision, end.clock);
    LogOfCreated(w, cfg, created, note);
  }

  lemma LogOfCreated(w: World, cfg: Config, created: Event, note: NewNote)
    requires Enabled(w, cfg, created)
    requires created.op == OnNotes(Post(note)) && WrittenBy(w.stores.db, cfg, created).Some?
    ensures var log := Next(w, cfg, created).log;
            note.id in log && log[note.id] == [Written(w.stores.db.nextRevision, note.content, created.now)]
  {
  }

  // A revision once there keeps answering with the same content while its note exists, and never
  // answers for another note.
  lemma RevisionsAreStable(w: World, cfg: Config, events: seq<Event>, n: NoteId, id: RevisionId)
    requires Inv(w, cfg) && Allowed(w, cfg, events) && Persists(w, cfg, events, n)
    requires GetRevision(w.stores.db.revisions, n, id).Ok?
    ensures var revisions := Run(w, cfg, events).stores.db.revisions;
            && GetRevision(revisions, n, id) == GetRevision(w.stores.db.revisions, n, id)
            && forall m :: m != n ==> GetRevision(revisions, m, id) == Err(NotInDB)
  {
    RunKeepsInv(w, cfg, events);
    LogGrowsByWrites(w, cfg, events, n);
    PersistsToTheEnd(w, cfg, events, n);
    var end := Run(w, cfg, events);
    RevisionIsWritten(w.stores.db.revisions, n, w.log[n], w.stores.db.nextRevision, w.clock, id);
    RevisionIsWritten(end.stores.db.revisions, n, end.log[n], end.stores.db.nextRevision, end.clock, id);
    var write :| write in w.log[n] && write.id == id;
    assert write in end.log[n];
  }

  // --- tokens ---------------------------------------------------------------------------------------------

  // A purge after any run leaves only tokens that are still valid, for at most two more years.
  lemma PurgeOverRuns(w: World, cfg: Config, events: seq<Event>, now: int)
    requires Inv(w, cfg) && Allowed(w, cfg, events) && Run(w, cfg, events).clock <= now
    ensures var tokens := PurgeStep(Run(w, cfg, events).stores.db, now).tokens;
            forall k :: k in tokens ==> now < tokens[k].validUntil <= now + MAX_VALIDITY_MILLIS
  {
    RunKeepsInv(w, cfg, events);
    var end := Run(w, cfg, events);
    PurgeBounds(end.stores.db, end.issued, end.clock, now);
  }

  // After any run from a new installation, a presented text is accepted exactly when its first two
  // parts are the key id and the secret issued for a stored token that has not expired, and it stands
  // for that token's user; nobody has more than 200 tokens.
  lemma TokensOverRuns(groups: map<GroupId, Group>, clock: int, cfg: Config, events: seq<Event>, token: string,
                       now: int,
                       u: UserId)
    requires UniqueGroupNames(groups) && forall g :: g in groups ==> groups[g].members == {}
    requires Allowed(Fresh(groups, clock), cfg, events)
    ensures var end := Run(Fresh(groups, clock), cfg, events);
            && (ValidateTokenStep(end.stores.db, token, now).result == Ok(u)
                <==> exists keyId :: Presents(end.stores.db, end.issued, token, now, keyId)
                                     && end.stores.db.tokens[keyId].user == u)
            && |TokensOf(end.stores.db.tokens, u)| <= MAX_TOKENS
            && end.stores.files == end.stores.db.uploads.Keys
            && NoDanglingReference(end.stores.db)
  {
    FreshIsFine(groups, clock, cfg);
    RunKeepsInv(Fresh(groups, clock), cfg, events);
    var end := Run(Fresh(groups, clock), cfg, events);
    ValidateTokenIff(end.stores.db, end.issued, end.clock, token, now);
    LinkedMeans(end.stores.db);
  }
}
