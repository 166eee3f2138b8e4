/** Where changes come from: for every table, which requests by whom can add, change or take a row; and
    what that means over whole runs. */
module Origins {
  import opened Common
  import opened Schema
  import opened Permissions
  import opened Users
  import opened Notes
  import opened History
  import opened Media
  import opened Auth
  import opened Revisions
  import opened Api
  import opened Runs
  import opened Text

  // --- which tables each kind of request leaves alone -------------------------------------------------------

  lemma NoteOpsOnly(db: Db, cfg: Config, now: int, op: NoteOp)
    requires NoteOpFits(db, op)
    ensures var after := ServeNote(db, cfg, now, op);
            && after == db.(notes := after.notes, userGrants := after.userGrants, groupGrants := after.groupGrants,
                            revisions := after.revisions, nextRevision := after.nextRevision)
            && (forall n :: n in db.notes ==> n in after.notes)
  {
    match op {
      case Post(note) => PostOnly(db, cfg, now, note);
      case Put(u, n, content) => UpdateNoteChanges(db, n, content, now);
      case Share(u, n, request) => ShareOnly(db, u, n, request);
    }
  }

  lemma PostOnly(db: Db, cfg: Config, now: int, note: NewNote)
    requires note.id !in db.notes
    ensures var after := CreateNoteApi(db, cfg.guest, cfg.forbidden, note, now).db;
            && after == db.(notes := after.notes, revisions := after.revisions, nextRevision := after.nextRevision)
            && (forall n :: n in db.notes ==> n in after.notes)
  {
    PostNoteIff(db, cfg.guest, cfg.forbidden, note, now);
    CreateNoteStores(db, cfg.forbidden, note, now);
  }

  lemma ShareOnly(db: Db, u: UserId, n: NoteId, request: PermissionsUpdate)
    requires n in db.notes
    ensures var after := UpdatePermissionsApi(db, u, n, request).db;
            after == db.(userGrants := after.userGrants, groupGrants := after.groupGrants)
  {
    PutPermissionsIff(db, u, n, request);
    if UpdatePermissionsStep(db, n, request).result.Ok? {
      UpdatePermissionsStores(db, n, request);
    }
  }

  lemma RegisterOnly(db: Db, id: UserId, userName: string, displayName: string)
    requires id !in db.users
    ensures var after := CreateUserStep(db, id, userName, displayName).db;
            after == db.(users := after.users) && db.users.Keys <= after.users.Keys <= db.users.Keys + {id}
  {
    CreateUserIff(db, id, userName, displayName);
  }

  // --- notes, users -------------------------------------------------------------------------------------------

  // A note goes only at the request of its owner: a deletion of the note, or of the owner.
  lemma NoteLeavesBy(w: World, cfg: Config, e: Event, n: NoteId)
    requires Enabled(w, cfg, e) && n in w.stores.db.notes && n !in Serve(w, cfg, e).db.notes
    ensures e.op.OnRemoval? && w.stores.db.notes[n].owner == Some(e.op.removal.user)
    ensures e.op.removal.DeleteNote? ==> e.op.removal.note == n
  {
    match e.op {
      case OnRemoval(op) =>
        var us, ns := RemovalIsWithout(w.stores, op);
        assert n in ns;
      case OnNotes(op) => NoteOpsOnly(w.stores.db, cfg, e.now, op);
      case _ => NotesUntouched(w, cfg, e);
    }
  }

  // What a request other than a removal leaves alone.
  lemma Untouched(w: World, cfg: Config, e: Event)
    requires Enabled(w, cfg, e) && !e.op.OnRemoval?
    ensures var db, after := w.stores.db, Serve(w, cfg, e).db;
            && (!e.op.Register? ==> after.users == db.users)
            && (!e.op.OnHistory? ==> after.history == db.history)
            && (!e.op.OnTokens? ==> after.tokens == db.tokens)
            && (!e.op.OnMedia? ==> after.uploads == db.uploads)
  {
    match e.op {
      case OnNotes(op) => NoteOpsOnly(w.stores.db, cfg, e.now, op);
      case OnMedia(op) => UploadsOnly(w.stores, op);
      case OnHistory(op) => HistoryOnly(w.stores.db, cfg, e.now, op);
      case OnTokens(op) => TokensOnly(w.stores.db, e.now, op);
      case Register(id, userName, displayName) => RegisterOnly(w.stores.db, id, userName, displayName);
    }
  }

  // A user goes only at their own request.
  lemma UserLeavesBy(w: World, cfg: Config, e: Event, u: UserId)
    requires Enabled(w, cfg, e) && u in w.stores.db.users && u !in Serve(w, cfg, e).db.users
    ensures e.op.OnRemoval? && e.op.removal.DeleteUser? && e.op.removal.user == u
  {
    match e.op {
      case OnRemoval(op) =>
        var us, ns := RemovalIsWithout(w.stores, op);
        assert u in us;
      case Register(id, userName, displayName) => RegisterOnly(w.stores.db, id, userName, displayName);
      case _ => Untouched(w, cfg, e);
    }
  }

  // --- history ----------------------------------------------------------------------------------------------

  function EntryAt(history: Entries, u: UserId, n: NoteId): Option<HistoryEntry> {
    if (u, n) in history then Some(history[(u, n)]) else None
  }

  // The request is the user's own, about that note or all of the history.
  predicate ConcernsEntry(op: HistoryOp, u: UserId, n: NoteId) {
    match op
    case Open(v, m) => v == u && m == n
    case Pin(v, m, _) => v == u && m == n
    case Forget(v, m) => v == u && m == n
    case Clear(v) => v == u
    case Import(v, _, _) => v == u
  }

  lemma HistoryOpChanges(db: Db, cfg: Config, now: int, op: HistoryOp, u: UserId, n: NoteId)
    requires HistoryOpFits(db, cfg, op) && !ConcernsEntry(op, u, n)
    ensures EntryAt(ServeHistory(db, cfg, now, op).history, u, n) == EntryAt(db.history, u, n)
  {
    match op {
      case Open(v, m) => TouchChanges(db, v, m, now);
      case Pin(v, m, pinStatus) => PinChanges(db, v, m, pinStatus, now);
      case Forget(v, m) => DeleteEntryChanges(db, v, m);
      case Clear(v) =>
      case Import(v, imports, picks) =>
        if CheckImport(db.notes, cfg.forbidden, imports).Ok? {
          ImportChanges(db, cfg.forbidden, v, imports, picks);
        }
    }
  }

  // A history entry is added, changed or taken only at a request of its user; besides that it only goes
  // together with the user or the note.
  lemma HistoryChangesBy(w: World, cfg: Config, e: Event, u: UserId, n: NoteId)
    requires Enabled(w, cfg, e)
    ensures || EntryAt(Serve(w, cfg, e).db.history, u, n) == EntryAt(w.stores.db.history, u, n)
            || (e.op.OnHistory? && ConcernsEntry(e.op.history, u, n))
            || (&& e.op.OnRemoval? && (u, n) !in Serve(w, cfg, e).db.history
                && (|| (e.op.removal.DeleteUser? && e.op.removal.user == u)
                    || (n in w.stores.db.notes && w.stores.db.notes[n].owner == Some(e.op.removal.user))))
  {
    if e.op.OnRemoval? {
      var us, ns := RemovalIsWithout(w.stores, e.op.removal);
    } else if !e.op.OnHistory? {
      Untouched(w, cfg, e);
    } else if !ConcernsEntry(e.op.history, u, n) {
      HistoryOpChanges(w.stores.db, cfg, e.now, e.op.history, u, n);
    }
  }

  // --- tokens -----------------------------------------------------------------------------------------------

  // A token without the time of its last use: what a presentation compares.
  function Unused(token: AuthToken): AuthToken {
    token.(lastUsed := None)
  }

  // The requests that take a token: revoking its key, purging at or after its time, deleting its user.
  predicate TakesToken(db: Db, e: Event, k: KeyId)
    requires k in db.tokens
  {
    || e.op == OnTokens(Revoke(k))
    || (e.op == OnTokens(Purge) && db.tokens[k].validUntil <= e.now)
    || (e.op.OnRemoval? && e.op.removal.DeleteUser? && e.op.removal.user == db.tokens[k].user)
  }

  lemma TokenOpTakes(db: Db, now: int, op: TokenOp, k: KeyId)
    requires k in db.tokens && op != Revoke(k) && (op == Purge ==> now < db.tokens[k].validUntil)
    ensures var after := ServeToken(db, now, op).tokens; k in after && Unused(after[k]) == Unused(db.tokens[k])
  {
    match op {
      case Issue(request, draw, created) =>
      case Use(token) => PresentationMarksUse(db, token, now);
      case Revoke(keyId) => RevokedForGood(db, keyId, "", now);
      case Purge => PurgeTakesExpired(db, now);
    }
  }

  // No other request takes a token or changes anything but the time of its last use.
  lemma TokenStays(w: World, cfg: Config, e: Event, k: KeyId)
    requires Enabled(w, cfg, e) && k in w.stores.db.tokens && !TakesToken(w.stores.db, e, k)
    ensures var after := Serve(w, cfg, e).db.tokens; k in after && Unused(after[k]) == Unused(w.stores.db.tokens[k])
  {
    if e.op.OnRemoval? {
      var us, ns := RemovalIsWithout(w.stores, e.op.removal);
    } else if !e.op.OnTokens? {
      Untouched(w, cfg, e);
    } else {
      TokenOpTakes(w.stores.db, e.now, e.op.token, k);
    }
  }

  // Over any run a stored token stays as it was issued, up to the time of its last use, until some
  // request takes it; the index is the first such request, or the length of the run.
  lemma {:induction false} TokenStaysUntilTaken(w: World, cfg: Config, events: seq<Event>, k: KeyId) returns (i: nat)
    requires Allowed(w, cfg, events) && k in w.stores.db.tokens
    ensures i <= |events| && Allowed(w, cfg, events[..i])
    ensures var tokens := Run(w, cfg, events[..i]).stores.db.tokens;
            && k in tokens && Unused(tokens[k]) == Unused(w.stores.db.tokens[k])
    ensures i < |events| ==> TakesToken(Run(w, cfg, events[..i]).stores.db, events[i], k)
    decreases |events|
  {
    if |events| == 0 || TakesToken(w.stores.db, events[0], k) {
      i := 0;
      assert events[..0] == [];
    } else {
      TokenStays(w, cfg, events[0], k);
      var j := TokenStaysUntilTaken(Next(w, cfg, events[0]), cfg, events[1..], k);
      i := j + 1;
      PrefixStep(w, cfg, events, j);
    }
  }

  // So over any run either some request takes the token, or whoever was let in with a text is let in
  // with it again, whatever else happened, until the token expires and no longer.
  lemma LetInUntilTaken(w: World, cfg: Config, events: seq<Event>, token: string, now: int, later: int)
    returns (i: nat)
    requires Allowed(w, cfg, events)
    requires ValidateTokenStep(w.stores.db, token, now).result.Ok?
    ensures i <= |events| && Allowed(w, cfg, events[..i])
    ensures var k, before := Split(token, SEPARATOR)[0], Run(w, cfg, events[..i]).stores.db;
            i < |events| ==> k in before.tokens && TakesToken(before, events[i], k)
    ensures i == |events| ==>
              ValidateTokenStep(Run(w, cfg, events).stores.db, token, later).result
              == if later <= w.stores.db.tokens[Split(token, SEPARATOR)[0]].validUntil
                 then ValidateTokenStep(w.stores.db, token, now).result else Err(TokenNotValid)
  {
    var k := Split(token, SEPARATOR)[0];
    PresentationMarksUse(w.stores.db, token, now);
    i := TokenStaysUntilTaken(w, cfg, events, k);
    if i == |events| {
      assert events[..i] == events;
      SameTokenSameAnswer(w.stores.db, Run(w, cfg, events).stores.db, token, now, later);
    }
  }

  lemma SameTokenSameAnswer(db: Db, after: Db, token: string, now: int, later: int)
    requires ValidateTokenStep(db, token, now).result.Ok?
    requires var k := Split(token, SEPARATOR)[0];
             k in after.tokens && Unused(after.tokens[k]) == Unused(db.tokens[k])
    ensures ValidateTokenStep(after, token, later).result
            == if later <= db.tokens[Split(token, SEPARATOR)[0]].validUntil
               then ValidateTokenStep(db, token, now).result else Err(TokenNotValid)
  {
  }

  lemma TokenOpAdds(db: Db, now: int, op: TokenOp, k: KeyId)
    requires k !in db.tokens && k in ServeToken(db, now, op).tokens
    ensures op.Issue?
    ensures var u := ServeToken(db, now, op).tokens[k].user;
            u in db.users && db.users[u].userName == op.request.userName
  {
    if !op.Issue? {
      TokensOnly(db, now, op);
    }
  }

  // A token that was not there is one that was just issued, to the user it was asked for.
  lemma NewTokenIsIssued(w: World, cfg: Config, e: Event, k: KeyId)
    requires Enabled(w, cfg, e)
    ensures k !in w.stores.db.tokens && k in Serve(w, cfg, e).db.tokens ==>
              && IsIssue(e)
              && var u := Serve(w, cfg, e).db.tokens[k].user;
                 u in w.stores.db.users && w.stores.db.users[u].userName == e.op.token.request.userName
  {
    if e.op.OnTokens? {
      if k !in w.stores.db.tokens && k in Serve(w, cfg, e).db.tokens {
        TokenOpAdds(w.stores.db, e.now, e.op.token, k);
      }
    } else {
      TokensShrink(w, cfg, e);
    }
  }

  // --- revisions --------------------------------------------------------------------------------------------

  // The request writes this revision: a new text by a user with write access to the note as it was, or
  // the creation of the note.
  ghost predicate WritesRevision(db: Db, cfg: Config, e: Event, row: Revision) {
    && e.op.OnNotes?
    && row.createdAt == e.now
    && match e.op.note
       case Put(u, n, content) =>
         && n == row.note && content == row.content
         && n in db.notes && MayAccess(db, cfg.guest, Some(u), n, true)
       case Post(note) =>
         && note.id == row.note && note.content == row.content
         && note.id !in db.notes && (note.owner.Some? || cfg.guest in {Create, CreateAlias})
       case Share(_, _, _) => false
  }

  lemma PutRevision(db: Db, guest: GuestPermission, u: UserId, n: NoteId, content: string, now: int, r: RevisionId)
    requires n in db.notes && r in UpdateNoteApi(db, guest, u, n, content, now).db.revisions
    ensures var row := UpdateNoteApi(db, guest, u, n, content, now).db.revisions[r];
            || (r == db.nextRevision && row == Revision(n, content, now) && MayAccess(db, guest, Some(u), n, true))
            || (r in db.revisions && row == db.revisions[r])
  {
    if UpdateNoteApi(db, guest, u, n, content, now).result.Ok? {
      UpdateNoteChanges(db, n, content, now);
    }
  }

  lemma PostRevision(db: Db, cfg: Config, note: NewNote, now: int, r: RevisionId)
    requires note.id !in db.notes && r in CreateNoteApi(db, cfg.guest, cfg.forbidden, note, now).db.revisions
    ensures var row := CreateNoteApi(db, cfg.guest, cfg.forbidden, note, now).db.revisions[r];
            || (&& r == db.nextRevision && row == Revision(note.id, note.content, now)
                && (note.owner.Some? || cfg.guest in {Create, CreateAlias}))
            || (r in db.revisions && row == db.revisions[r])
  {
    PostNoteIff(db, cfg.guest, cfg.forbidden, note, now);
    CreateNoteStores(db, cfg.forbidden, note, now);
  }

  lemma NoteOpRevision(db: Db, cfg: Config, e: Event, r: RevisionId)
    requires e.op.OnNotes? && NoteOpFits(db, e.op.note) && r in ServeNote(db, cfg, e.now, e.op.note).revisions
    ensures var row := ServeNote(db, cfg, e.now, e.op.note).revisions[r];
            || (r == db.nextRevision && WritesRevision(db, cfg, e, row))
            || (r in db.revisions && row == db.revisions[r])
  {
    match e.op.note {
      case Post(note) => PostRevision(db, cfg, note, e.now, r);
      case Put(u, n, content) => PutRevision(db, cfg.guest, u, n, content, e.now, r);
      case Share(u, n, request) =>
        ShareOnly(db, u, n, request);
    }
  }

  // A revision is added by such a request only, under the next id; no revision is ever changed.
  lemma NewRevisionIsWritten(w: World, cfg: Config, e: Event, r: RevisionId)
    requires Enabled(w, cfg, e) && r in Serve(w, cfg, e).db.revisions
    ensures var row := Serve(w, cfg, e).db.revisions[r];
            || (r == w.stores.db.nextRevision && WritesRevision(w.stores.db, cfg, e, row))
            || (r in w.stores.db.revisions && row == w.stores.db.revisions[r])
  {
    match e.op {
      case OnRemoval(op) => var us, ns := RemovalIsWithout(w.stores, op);
      case OnNotes(op) => NoteOpRevision(w.stores.db, cfg, e, r);
      case _ => NotesUntouched(w, cfg, e);
    }
  }

  // Ids only grow, so a row with an old id is an old row.
  lemma {:induction false} OldRevisionStays(w: World, cfg: Config, events: seq<Event>, r: RevisionId)
    requires Inv(w, cfg) && Allowed(w, cfg, events)
    requires r < w.stores.db.nextRevision && r in Run(w, cfg, events).stores.db.revisions
    ensures r in w.stores.db.revisions
    ensures Run(w, cfg, events).stores.db.revisions[r] == w.stores.db.revisions[r]
    decreases |events|
  {
    if |events| > 0 {
      var next := Next(w, cfg, events[0]);
      StepKeepsInv(w, cfg, events[0]);
      IdsGrow(w, cfg, events[0]);
      OldRevisionStays(next, cfg, events[1..], r);
      NewRevisionIsWritten(w, cfg, events[0], r);
    }
  }

  lemma IdsGrow(w: World, cfg: Config, e: Event)
    requires Enabled(w, cfg, e)
    ensures w.stores.db.nextRevision <= Serve(w, cfg, e).db.nextRevision
  {
    if WrittenBy(w.stores.db, cfg, e).Some? {
      var (n, write) := WrittenBy(w.stores.db, cfg, e).value;
      WriteMoves(w.stores.db, cfg, e, n, write);
    } else {
      NoWriteMoves(w, cfg, e);
    }
  }

  // Over any run, every revision that was not there at its start was written by one of its requests, as
  // it stands at the end: by a user with write access at that time, or with the note itself.
  lemma {:induction false} RevisionComesFromAWriter(w: World, cfg: Config, events: seq<Event>, r: RevisionId)
    returns (i: nat)
    requires Inv(w, cfg) && Allowed(w, cfg, events)
    requires r !in w.stores.db.revisions && r in Run(w, cfg, events).stores.db.revisions
    ensures i < |events| && Allowed(w, cfg, events[..i])
    ensures WritesRevision(Run(w, cfg, events[..i]).stores.db, cfg, events[i],
                           Run(w, cfg, events).stores.db.revisions[r])
    decreases |events|
  {
    var next := Next(w, cfg, events[0]);
    StepKeepsInv(w, cfg, events[0]);
    if r in next.stores.db.revisions {
      i := 0;
      FirstEvent(w, cfg, events);
      NewRevisionIsWritten(w, cfg, events[0], r);
      OldRevisionStays(next, cfg, events[1..], r);
    } else {
      var j := RevisionComesFromAWriter(next, cfg, events[1..], r);
      i := j + 1;
      PrefixStep(w, cfg, events, j);
    }
  }

  // --- uploads ----------------------------------------------------------------------------------------------

  function UploadAt(uploads: map<FileName, MediaUpload>, f: FileName): Option<MediaUpload> {
    if f in uploads then Some(uploads[f]) else None
  }

  // How a request changes an upload's record: it is made by its user for its note, taken by its
  // uploader, taken along or unlinked by the owner of its note, or taken along by its uploader.
  predicate ChangesUpload(db: Db, op: Op, before: Option<MediaUpload>, after: Option<MediaUpload>) {
    match op
    case OnMedia(Upload(u, n, _, _, _)) => after == Some(MediaUpload(u, Some(n)))
    case OnMedia(DeleteMedia(u, _, _)) => before.Some? && before.value.user == u && after == None
    case OnRemoval(DeleteNote(u, n, keepMedia, _)) =>
      && n in db.notes && db.notes[n].owner == Some(u)
      && before.Some? && before.value.note == Some(n)
      && after == if keepMedia then Some(before.value.(note := None)) else None
    case OnRemoval(DeleteUser(u, _)) => before.Some? && before.value.user == u && after == None
    case _ => false
  }

  lemma MediaOpChanges(s: Stores, op: MediaOp, f: FileName)
    requires Consistent(s.db) && MediaOpFits(s.db, op)
    requires UploadAt(ServeMedia(s, op).db.uploads, f) != UploadAt(s.db.uploads, f)
    ensures ChangesUpload(s.db, OnMedia(op), UploadAt(s.db.uploads, f), UploadAt(ServeMedia(s, op).db.uploads, f))
  {
    match op {
      case Upload(u, n, detected, random, ok) => SaveFileIff(s, detected, random, u, n, ok);
      case DeleteMedia(u, g, ok) => DeleteMediaIff(s, u, g, ok);
    }
  }

  lemma DeleteNoteChanges(s: Stores, u: UserId, n: NoteId, keepMedia: bool, gone: set<FileName>, f: FileName)
    requires n in s.db.notes && gone <= UploadsByNote(s.db, n)
    requires UploadAt(DeleteNoteApi(s, u, n, keepMedia, gone).stores.db.uploads, f) != UploadAt(s.db.uploads, f)
    ensures s.db.notes[n].owner == Some(u) && UploadAt(s.db.uploads, f).Some? && s.db.uploads[f].note == Some(n)
    ensures UploadAt(DeleteNoteApi(s, u, n, keepMedia, gone).stores.db.uploads, f)
            == if keepMedia then Some(s.db.uploads[f].(note := None)) else None
  {
    DroppedAndUnlinked(s, gone, f);
    DroppedAndUnlinked(s, UploadsByNote(s.db, n), f);
  }

  // An upload's record is made, unlinked or taken in these ways only.
  lemma UploadChangesBy(w: World, cfg: Config, e: Event, f: FileName)
    requires Enabled(w, cfg, e) && Consistent(w.stores.db)
    requires UploadAt(Serve(w, cfg, e).db.uploads, f) != UploadAt(w.stores.db.uploads, f)
    ensures ChangesUpload(w.stores.db, e.op, UploadAt(w.stores.db.uploads, f),
                          UploadAt(Serve(w, cfg, e).db.uploads, f))
  {
    match e.op {
      case OnRemoval(DeleteNote(u, n, keepMedia, gone)) => DeleteNoteChanges(w.stores, u, n, keepMedia, gone, f);
      case OnRemoval(DeleteUser(u, gone)) => DeleteUserKeepsRows(w.stores, u, gone);
      case OnMedia(op) => MediaOpChanges(w.stores, op, f);
      case _ => Untouched(w, cfg, e);
    }
  }

  // --- requests take effect ---------------------------------------------------------------------------------

  // What a run does with a request about tokens: a revoked token is gone, a purge leaves none that is
  // past its time, an accepted presentation is on record, an issued token is stored.
  lemma TokenRequestsTakeEffect(w: World, cfg: Config, now: int, op: TokenOp)
    requires Enabled(w, cfg, Event(now, OnTokens(op)))
    ensures var db, after := w.stores.db, Next(w, cfg, Event(now, OnTokens(op))).stores.db.tokens;
            match op
            case Revoke(k) => k !in after
            case Purge => forall k :: k in after ==> now < after[k].validUntil
            case Use(token) =>
              var k := Split(token, SEPARATOR)[0];
              ValidateTokenStep(db, token, now).result.Ok? ==> k in after && after[k].lastUsed == Some(now)
            case Issue(request, draw, created) =>
              CreateTokenStep(db, request, draw, now, created).result.Ok? ==>
                exists k :: k in after && k !in db.tokens && Some(after[k].user) == UserNamed(db, request.userName)
  {
    match op {
      case Use(token) => PresentationMarksUse(w.stores.db, token, now);
      case Issue(request, draw, created) =>
        if CreateTokenStep(w.stores.db, request, draw, now, created).result.Ok? {
          IssueTakesEffect(w.stores.db, request, draw, now, created);
        }
      case _ =>
    }
  }

  lemma IssueTakesEffect(db: Db, request: IssueRequest, draw: Draw, now: int, created: int)
    requires CreateTokenStep(db, request, draw, now, created).result.Ok?
    ensures var after := CreateTokenStep(db, request, draw, now, created).db.tokens;
            exists k :: k in after && k !in db.tokens && Some(after[k].user) == UserNamed(db, request.userName)
  {
    var after := CreateTokenStep(db, request, draw, now, created).db.tokens;
    var k := CreateTokenStep(db, request, draw, now, created).result.value.keyId;
    assert k in after && k !in db.tokens;
  }

  // About the history: a note that may be read is entered, an entry is pinned or forgotten, the history
  // is empty after it was cleared and lists the notes of an import that went through.
  lemma HistoryRequestsTakeEffect(w: World, cfg: Config, now: int, op: HistoryOp)
    requires Enabled(w, cfg, Event(now, OnHistory(op)))
    ensures var db, after := w.stores.db, Next(w, cfg, Event(now, OnHistory(op))).stores.db.history;
            match op
            case Open(u, n) =>
              MayAccess(db, cfg.guest, Some(u), n, false) ==> (u, n) in after && after[(u, n)].updatedAt == now
            case Pin(u, n, pinStatus) =>
              (u, n) in db.history ==> (u, n) in after && after[(u, n)].pinStatus == pinStatus
            case Forget(u, n) => (u, n) !in after
            case Clear(u) => forall n :: (u, n) !in after
            case Import(u, imports, picks) =>
              CheckImport(db.notes, cfg.forbidden, imports).Ok? ==> forall n :: (u, n) in after <==> n in picks
  {
    match op {
      case Import(u, imports, picks) =>
        if CheckImport(w.stores.db.notes, cfg.forbidden, imports).Ok? {
          ImportChanges(w.stores.db, cfg.forbidden, u, imports, picks);
        }
      case _ =>
    }
  }

  // About deletions and uploads: with a working backend the owner's note and the deletable user are
  // gone, the uploader's file is gone, and an allowed upload is on record.
  lemma RemovalsTakeEffect(w: World, cfg: Config, now: int, op: RemovalOp)
    requires Enabled(w, cfg, Event(now, OnRemoval(op)))
    ensures var db, after := w.stores.db, Next(w, cfg, Event(now, OnRemoval(op))).stores.db;
            match op
            case DeleteNote(u, n, keepMedia, gone) =>
              db.notes[n].owner == Some(u) && (keepMedia || gone == UploadsByNote(db, n)) ==> n !in after.notes
            case DeleteUser(u, gone) => Deletable(db, u) && gone == UploadsByUser(db, u) ==> u !in after.users
  {
    match op {
      case DeleteNote(u, n, keepMedia, gone) =>
      case DeleteUser(u, gone) => DeleteUserIff(w.stores, u, UserRow(u));
    }
  }

  lemma MediaRequestsTakeEffect(w: World, cfg: Config, now: int, op: MediaOp)
    requires Enabled(w, cfg, Event(now, OnMedia(op))) && Consistent(w.stores.db)
    ensures var s, after := w.stores, Next(w, cfg, Event(now, OnMedia(op))).stores;
            match op
            case Upload(u, n, detected, random, ok) =>
              ok && detected.Some? && IsAllowedMimeType(detected.value.mime) ==>
                var f := random + "." + detected.value.ext;
                f in after.files && UploadAt(after.db.uploads, f) == Some(MediaUpload(u, Some(n)))
            case DeleteMedia(u, f, ok) =>
              ok && UploadAt(s.db.uploads, f).Some? && s.db.uploads[f].user == u ==>
                f !in after.files && f !in after.db.uploads
  {
    match op {
      case Upload(u, n, detected, random, ok) => SaveFileIff(w.stores, detected, random, u, n, ok);
      case DeleteMedia(u, f, ok) => DeleteMediaIff(w.stores, u, f, ok);
    }
  }

  // A registered user can be found by that name, unless the name was taken.
  lemma RegistrationTakesEffect(w: World, cfg: Config, now: int, id: UserId, userName: string, displayName: string)
    requires Enabled(w, cfg, Event(now, Register(id, userName, displayName)))
    requires forall u :: u in w.stores.db.users ==> w.stores.db.users[u].userName != userName
    ensures UserNamed(Next(w, cfg, Event(now, Register(id, userName, displayName))).stores.db, userName) == Some(id)
  {
    CreateUserIff(w.stores.db, id, userName, displayName);
    NewUserIsFound(w.stores.db, id, userName, displayName, userName);
  }

  // --- a shared note ----------------------------------------------------------------------------------------

  // In any store a run can reach, an owner can share a note with another user, who can then write it:
  // the text is what a reader gets next, and the write has ended the sharing.
  lemma SharedWriterWrites(w: World, cfg: Config, o: UserId, v: UserId, n: NoteId, text: string, now: int, later: int,
                           wantEdit: bool)
    requires Inv(w, cfg) && w.clock <= now <= later
    requires n in w.stores.db.notes && w.stores.db.notes[n].owner == Some(o) && v in w.stores.db.users && v != o
    ensures var request := PermissionsUpdate([Notes.Share(w.stores.db.users[v].userName, true)], []);
            var events := [Event(now, OnNotes(NoteOp.Share(o, n, request))), Event(later, OnNotes(Put(v, n, text)))];
            && Allowed(w, cfg, events)
            && var end := Run(w, cfg, events).stores.db;
               && GetLatestRevision(end.revisions, n).Ok?
               && end.revisions[GetLatestRevision(end.revisions, n).value] == Revision(n, text, later)
               && n in end.notes && !MayAccess(end, cfg.guest, Some(v), n, wantEdit)
  {
    var db := w.stores.db;
    var request := PermissionsUpdate([Notes.Share(db.users[v].userName, true)], []);
    var share, put := Event(now, OnNotes(NoteOp.Share(o, n, request))), Event(later, OnNotes(Put(v, n, text)));
    SharedForWriting(db, cfg.guest, o, v, n);
    var shared := Next(w, cfg, share);
    StepKeepsInv(w, cfg, share);
    WriterWrites(shared, cfg, v, n, text, later, wantEdit);
    TwoEvents(w, cfg, share, put);
  }

  lemma TwoEvents(w: World, cfg: Config, first: Event, second: Event)
    requires Enabled(w, cfg, first) && Enabled(Next(w, cfg, first), cfg, second)
    ensures Allowed(w, cfg, [first, second])
    ensures Run(w, cfg, [first, second]) == Next(Next(w, cfg, first), cfg, second)
  {
    var next := Next(w, cfg, first);
    assert [first, second][1..] == [second] && [second][1..] == [];
    assert Run(next, cfg, [second]) == Run(Next(next, cfg, second), cfg, []);
  }

  lemma SharedForWriting(db: Db, guest: GuestPermission, o: UserId, v: UserId, n: NoteId)
    requires Consistent(db) && n in db.notes && db.notes[n].owner == Some(o) && v in db.users
    ensures var request := PermissionsUpdate([Notes.Share(db.users[v].userName, true)], []);
            var step := UpdatePermissionsApi(db, o, n, request);
            && step.result.Ok?
            && step.db == db.(userGrants := step.db.userGrants, groupGrants := step.db.groupGrants)
            && MayAccess(step.db, guest, Some(v), n, true)
  {
    var share := Notes.Share(db.users[v].userName, true);
    var request := PermissionsUpdate([share], []);
    UpdatePermissionsIff(db, n, request);
    PutPermissionsIff(db, o, n, request);
    UpdatePermissionsStores(db, n, request);
    assert share in request.sharedToUsers;
  }

  lemma WriterWrites(w: World, cfg: Config, v: UserId, n: NoteId, text: string, now: int, wantEdit: bool)
    requires Inv(w, cfg) && w.clock <= now
    requires n in w.stores.db.notes && v in w.stores.db.users && w.stores.db.notes[n].owner != Some(v)
    requires MayAccess(w.stores.db, cfg.guest, Some(v), n, true)
    ensures var put := Event(now, OnNotes(Put(v, n, text)));
            && Enabled(w, cfg, put)
            && var after := Next(w, cfg, put).stores.db;
               && GetLatestRevision(after.revisions, n).Ok?
               && after.revisions[GetLatestRevision(after.revisions, n).value] == Revision(n, text, now)
               && n in after.notes && !MayAccess(after, cfg.guest, Some(v), n, wantEdit)
  {
    var put := Event(now, OnNotes(Put(v, n, text)));
    StepKeepsInv(w, cfg, put);
    var next := Next(w, cfg, put);
    PutServed(w, cfg, v, n, text, now);
    UpdateNoteEndsSharing(w.stores.db, n, text, now, cfg.guest, Some(v), wantEdit);
    LastOfLog(next, cfg, n);
  }

  lemma PutServed(w: World, cfg: Config, v: UserId, n: NoteId, text: string, now: int)
    requires Inv(w, cfg) && w.clock <= now && n in w.stores.db.notes && v in w.stores.db.users
    requires MayAccess(w.stores.db, cfg.guest, Some(v), n, true)
    ensures var next := Next(w, cfg, Event(now, OnNotes(Put(v, n, text))));
            && next.stores.db == UpdateNoteStep(w.stores.db, n, text, now)
            && n in next.log && next.log[n] == w.log[n] + [Written(w.stores.db.nextRevision, text, now)]
  {
    PutNoteIff(w.stores.db, cfg.guest, v, n, text, now);
  }

  lemma LastOfLog(w: World, cfg: Config, n: NoteId)
    requires Inv(w, cfg) && n in w.stores.db.notes
    ensures n in w.log && |w.log[n]| >= 1
    ensures var last, revisions := w.log[n][|w.log[n]| - 1], w.stores.db.revisions;
            && GetLatestRevision(revisions, n).Ok?
            && revisions[GetLatestRevision(revisions, n).value] == Revision(n, last.content, last.at)
  {
    LatestIsLastWritten(w.stores.db.revisions, n, w.log[n], w.stores.db.nextRevision, w.clock);
  }

  // --- what is unique ---------------------------------------------------------------------------------------

  // After any run from a new installation no two users and no two groups have the same name, no two
  // notes the same alias, and no two tokens the same hash.
  lemma UniqueOverRuns(groups: map<GroupId, Group>, clock: int, cfg: Config, events: seq<Event>)
    requires forall g, h :: g in groups && h in groups && groups[g].name == groups[h].name ==> g == h
    requires forall g :: g in groups ==> groups[g].members == {}
    requires Allowed(Fresh(groups, clock), cfg, events)
    ensures var db := Run(Fresh(groups, clock), cfg, events).stores.db;
            && (forall u, v :: u in db.users && v in db.users && u != v ==>
                  db.users[u].userName != db.users[v].userName)
            && (forall g, h :: g in db.groups && h in db.groups && g != h ==> db.groups[g].name != db.groups[h].name)
            && (forall n, m :: n in db.notes && m in db.notes && n != m && db.notes[n].alias.Some? ==>
                  db.notes[n].alias != db.notes[m].alias)
            && (forall n :: n in db.notes && db.notes[n].alias.Some? ==>
                  db.notes[n].alias.value != "" && db.notes[n].alias.value !in cfg.forbidden)
            && (forall k, l :: k in db.tokens && l in db.tokens && k != l ==>
                  db.tokens[k].accessTokenHash != db.tokens[l].accessTokenHash)
  {
    FreshIsFine(groups, clock, cfg);
    RunKeepsInv(Fresh(groups, clock), cfg, events);
    var db := Run(Fresh(groups, clock), cfg, events).stores.db;
    forall n, m | n in db.notes && m in db.notes && n != m && db.notes[n].alias.Some?
      ensures db.notes[n].alias != db.notes[m].alias
    {
      assert SameAlias(db.notes[n], db.notes[m]) <==> db.notes[n].alias == db.notes[m].alias;
    }
    forall k, l | k in db.tokens && l in db.tokens && k != l
      ensures db.tokens[k].accessTokenHash != db.tokens[l].accessTokenHash
    {
      assert !SameHash(db.tokens[k], db.tokens[l]);
    }
  }
}
