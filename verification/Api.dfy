/** The guarded steps of src/api/public/notes/notes.controller.ts, src/api/public/media/media.controller.ts
    and src/api/private/me/me.controller.ts. */
module Api {
  import opened Common
  import opened Schema
  import opened Permissions
  import opened Notes
  import opened History
  import opened Media

  // --- notes ------------------------------------------------------------------------------------------------

  predicate MayCreateNotes(guest: GuestPermission, user: Option<UserId>) {
    user.Some? || guest in {Create, CreateAlias}
  }

  function CreateNoteApi(db: Db, guest: GuestPermission, forbidden: seq<string>, note: NewNote, now: int)
    : Step<NoteId>
  {
    if !MayCreateNotes(guest, note.owner) then Step(db, Err(Unauthorized))
    else CreateNoteStep(db, forbidden, note, now)
  }

  method PostNote(permissions: PermissionsService, store: Store, forbidden: seq<string>, note: NewNote, now: int)
    returns (r: Result<NoteId>)
    requires note.id !in store.notes
    modifies store
    ensures Step(store.State(), r)
            == CreateNoteApi(old(store.State()), permissions.guestPermission, forbidden, note, now)
  {
    var may := permissions.MayCreate(note.owner);
    if !may {
      return Err(Unauthorized);
    }
    r := CreateNote(store, forbidden, note, now);
  }

  // A note is created exactly if a user asks or guests may create, and its alias is neither forbidden
  // nor taken; whoever may not create learns nothing of the alias.
  lemma PostNoteIff(db: Db, guest: GuestPermission, forbidden: seq<string>, note: NewNote, now: int)
    ensures var step := CreateNoteApi(db, guest, forbidden, note, now);
            var may := note.owner.Some? || guest == Create || guest == CreateAlias;
            && (!may ==> step == Step(db, Err(Unauthorized)))
            && (may ==> step == CreateNoteStep(db, forbidden, note, now))
            && (step.result.Ok? <==> may && forall alias :: note.alias == Some(alias) && alias != "" ==>
                  alias !in forbidden && forall n :: n in db.notes ==> db.notes[n].alias != Some(alias))
            && (step.result.Err? ==> step.db == db)
  {
    CreateNoteIff(db, forbidden, note, now);
  }

  ghost function GetNoteApi(db: Db, guest: GuestPermission, u: UserId, n: NoteId, now: int): Step<()>
    requires n in db.notes
  {
    if !MayAccess(db, guest, Some(u), n, false) then Step(db, Err(Unauthorized))
    else Step(TouchStep(db, u, n, now), Ok(()))
  }

  method GetNote(permissions: PermissionsService, store: Store, u: UserId, note: NoteView, now: int)
    returns (r: Result<()>)
    requires u in store.users && Loads(store.State(), note.id, note)
    modifies store`history
    ensures Step(store.State(), r) == GetNoteApi(old(store.State()), permissions.guestPermission, u, note.id, now)
  {
    LoadedNoteAgrees(store.State(), permissions.guestPermission, Some(u), note.id, note, false);
    var may := permissions.MayRead(Some(u), note);
    if !may {
      return Err(Unauthorized);
    }
    UpdateHistoryEntryTimestamp(store, note.id, u, now);
    return Ok(());
  }

  // A note is shown exactly to its owner and to users a grant applies to; only then does it enter the
  // user's history.
  lemma GetNoteIff(db: Db, guest: GuestPermission, u: UserId, n: NoteId, now: int)
    requires n in db.notes
    ensures var step := GetNoteApi(db, guest, u, n, now);
            && (step.result.Ok?
                <==> || db.notes[n].owner == Some(u)
                     || (n, u) in db.userGrants
                     || exists g :: (n, g) in db.groupGrants && g in db.groups
                                    && if db.groups[g].special then
                                         || db.groups[g].name == "loggedIn"
                                         || (db.groups[g].name == "everybody"
                                             && guest in {Read, Write, Create, CreateAlias})
                                       else u in db.groups[g].members)
            && step == if step.result.Ok? then Step(TouchStep(db, u, n, now), Ok(())) else Step(db, Err(Unauthorized))
  {
    MayAccessMeans(db, guest, Some(u), n, false);
  }

  ghost function UpdateNoteApi(db: Db, guest: GuestPermission, u: UserId, n: NoteId, content: string, now: int)
    : Step<()>
    requires n in db.notes
  {
    if !MayAccess(db, guest, Some(u), n, true) then Step(db, Err(Unauthorized))
    else Step(UpdateNoteStep(db, n, content, now), Ok(()))
  }

  method PutNote(permissions: PermissionsService, store: Store, u: UserId, note: NoteView, content: string, now: int)
    returns (r: Result<()>)
    requires Loads(store.State(), note.id, note)
    modifies store
    ensures Step(store.State(), r)
            == UpdateNoteApi(old(store.State()), permissions.guestPermission, u, note.id, content, now)
  {
    LoadedNoteAgrees(store.State(), permissions.guestPermission, Some(u), note.id, note, true);
    var may := permissions.MayWrite(Some(u), note);
    if !may {
      return Err(Unauthorized);
    }
    UpdateNote(store, note.id, content, now);
    return Ok(());
  }

  // The text of a note changes exactly for its owner and for users a grant with the right to edit
  // applies to; a refusal leaves the whole store as it was. What changes is in `UpdateNoteChanges`.
  lemma PutNoteIff(db: Db, guest: GuestPermission, u: UserId, n: NoteId, content: string, now: int)
    requires n in db.notes
    ensures var step := UpdateNoteApi(db, guest, u, n, content, now);
            && (step.result.Ok?
                <==> || db.notes[n].owner == Some(u)
                     || ((n, u) in db.userGrants && db.userGrants[(n, u)])
                     || exists g :: (n, g) in db.groupGrants && db.groupGrants[(n, g)] && g in db.groups
                                    && if db.groups[g].special then
                                         || db.groups[g].name == "loggedIn"
                                         || (db.groups[g].name == "everybody" && guest in {Write, Create, CreateAlias})
                                       else u in db.groups[g].members)
            && (step.result.Err? ==> step == Step(db, Err(Unauthorized)))
            && (step.result.Ok? ==> step.db == UpdateNoteStep(db, n, content, now))
  {
    MayAccessMeans(db, guest, Some(u), n, true);
  }

  function UpdatePermissionsApi(db: Db, u: UserId, n: NoteId, request: PermissionsUpdate): Step<()>
    requires n in db.notes
  {
    if !Owns(Some(u), db.notes[n].owner) then Step(db, Err(Unauthorized))
    else UpdatePermissionsStep(db, n, request)
  }

  // The answer to a successful update is the request itself.
  method PutPermissions(permissions: PermissionsService, store: Store, u: UserId, note: NoteView,
                        request: PermissionsUpdate)
    returns (r: Result<PermissionsDto>)
    requires Consistent(store.State()) && Loads(store.State(), note.id, note)
    modifies store`userGrants, store`groupGrants
    ensures var step := UpdatePermissionsApi(old(store.State()), u, note.id, request);
            && store.State() == step.db
            && r.Ok? == step.result.Ok?
            && (r.Err? ==> r.error == step.result.error)
    ensures r.Ok? ==>
              r.value == PermissionsDto(Some(store.users[u].userName), request.sharedToUsers, request.sharedToGroups)
  {
    var owner := permissions.IsOwner(Some(u), note);
    if !owner {
      return Err(Unauthorized);
    }
    var updated := UpdateNotePermissions(store, note.id, request);
    if updated.Err? {
      return Err(updated.error);
    }
    DtoIsTheRequest(store.State(), updated.value, request);
    return Ok(ToNotePermissionsDto(store.State(), updated.value));
  }

  // Permissions are updated exactly for the owner with a request that is in order.
  lemma PutPermissionsIff(db: Db, u: UserId, n: NoteId, request: PermissionsUpdate)
    requires n in db.notes
    ensures var step, update := UpdatePermissionsApi(db, u, n, request), UpdatePermissionsStep(db, n, request);
            && (step.result.Ok? <==> db.notes[n].owner == Some(u) && update.result.Ok?)
            && (step.result.Err? ==> step.db == db)
            && (step == if db.notes[n].owner == Some(u) then update else Step(db, Err(Unauthorized)))
  {
  }

  // --- deleting a note --------------------------------------------------------------------------------------

  // `gone` are the uploads the backend deleted before it failed, or all of them.
  function DeleteNoteApi(s: Stores, u: UserId, n: NoteId, keepMedia: bool, gone: set<FileName>): MediaStep<()>
    requires n in s.db.notes
  {
    var uploads := UploadsByNote(s.db, n);
    if !Owns(Some(u), s.db.notes[n].owner) then MediaStep(s, Err(Unauthorized))
    else if keepMedia then
      MediaStep(s.(db := WithoutNote(s.db.(uploads := Unlinked(s.db.uploads, uploads)), n)), Ok(()))
    else if gone != uploads then MediaStep(Dropped(s, gone), Err(MediaBackendError))
    else MediaStep(Stores(WithoutNote(Dropped(s, gone).db, n), Dropped(s, gone).files), Ok(()))
  }

  method DeleteNote(permissions: PermissionsService, store: Store, backend: MediaBackend, u: UserId, note: NoteView,
                    keepMedia: bool)
    returns (r: Result<()>, ghost gone: set<FileName>)
    requires Loads(store.State(), note.id, note)
    modifies store, backend
    ensures gone <= UploadsByNote(old(store.State()), note.id)
    ensures MediaStep(Current(store, backend), r)
            == DeleteNoteApi(old(Current(store, backend)), u, note.id, keepMedia, gone)
  {
    gone := {};
    var owner := permissions.IsOwner(Some(u), note);
    if !owner {
      return Err(Unauthorized), gone;
    }
    var n := note.id;
    var mediaUploads := set f | f in store.uploads && store.uploads[f].note == Some(n);
    assert mediaUploads == UploadsByNote(store.State(), n);
    if !keepMedia {
      r, gone := DeleteAll(store, backend, mediaUploads);
      if r.Err? {
        return;
      }
    } else {
      UnlinkAll(store, mediaUploads);
    }
    assert NoteRemovable(store.State(), n);
    r := store.RemoveNote(n);
  }

  method UnlinkAll(store: Store, uploads: set<FileName>)
    requires uploads <= store.uploads.Keys
    modifies store`uploads
    ensures store.uploads == Unlinked(old(store.uploads), uploads)
  {
    var before := store.uploads;
    var list := Rows(uploads);
    for i := 0 to |list|
      invariant store.uploads == Unlinked(before, Elements(list[..i]))
    {
      NextElement(list, i);
      assert list[i] in Elements(list);
      RemoveNoteFromMediaUpload(store, list[i]);
      UnlinkOneMore(before, Elements(list[..i]), list[i]);
    }
    assert list[..|list|] == list;
  }

  lemma UnlinkOneMore(uploads: map<FileName, MediaUpload>, fs: set<FileName>, f: FileName)
    ensures Unlinked(Unlinked(uploads, fs), {f}) == Unlinked(uploads, fs + {f})
  {
  }

  // With a working backend a deletion succeeds exactly for the owner; anyone else changes nothing.
  // The note's uploads then go from both stores or, when media are kept, stay in both without a note.
  lemma DeleteNoteIff(s: Stores, u: UserId, n: NoteId, keepMedia: bool, f: FileName)
    requires n in s.db.notes
    ensures var step := DeleteNoteApi(s, u, n, keepMedia, UploadsByNote(s.db, n));
            var attached := f in s.db.uploads && s.db.uploads[f].note == Some(n);
            && (step.result.Ok? <==> s.db.notes[n].owner == Some(u))
            && (step.result.Err? ==> step == MediaStep(s, Err(Unauthorized)))
            && (step.result.Ok? ==>
                  && (f in step.stores.files <==> f in s.files && (keepMedia || !attached))
                  && (f in step.stores.db.uploads <==> f in s.db.uploads && (keepMedia || !attached))
                  && (f in step.stores.db.uploads ==>
                        && step.stores.db.uploads[f].user == s.db.uploads[f].user
                        && step.stores.db.uploads[f].note == if attached then None else s.db.uploads[f].note))
  {
  }

  // Of the other tables a successful deletion takes precisely what the declared cascades reach.
  lemma DeleteNoteIsTheCascade(s: Stores, u: UserId, n: NoteId, keepMedia: bool, row: Row)
    requires n in s.db.notes && s.db.notes[n].owner == Some(u) && !row.UploadRow?
    ensures var after := DeleteNoteApi(s, u, n, keepMedia, UploadsByNote(s.db, n)).stores.db;
            Present(s.db, row) && !Present(after, row) <==> Doomed(s.db, NoteRow(n), row)
  {
    NoteRemovalIsTheCascade(s.db, n, row);
    var fs := UploadsByNote(s.db, n);
    var after := DeleteNoteApi(s, u, n, keepMedia, fs).stores.db;
    assert after.(uploads := s.db.uploads) == WithoutNote(s.db, n) by {
      UploadsApart(s.db, if keepMedia then Unlinked(s.db.uploads, fs) else s.db.uploads - fs, {n});
    }
    SameRow(after, s.db.uploads, row);
  }

  lemma SameRow(db: Db, uploads: map<FileName, MediaUpload>, row: Row)
    requires !row.UploadRow?
    ensures Present(db, row) <==> Present(db.(uploads := uploads), row)
  {
  }

  // And every row it leaves is as it was.
  lemma DeleteNoteKeepsRows(s: Stores, u: UserId, n: NoteId, keepMedia: bool, gone: set<FileName>)
    requires n in s.db.notes
    ensures RowsUnchanged(s.db, DeleteNoteApi(s, u, n, keepMedia, gone).stores.db)
  {
    RemovalKeepsRows(s.db, s.db.uploads, {}, {});
    RemovalKeepsRows(s.db, if keepMedia then Unlinked(s.db.uploads, UploadsByNote(s.db, n)) else s.db.uploads - gone,
                     {}, {n});
  }

  // A deletion during which the backend failed at some upload says so. It leaves the note, its owner and
  // its other rows alone, and has taken exactly the uploads it got through.
  lemma InterruptedKeepsTheNote(s: Stores, u: UserId, n: NoteId, gone: set<FileName>)
    requires n in s.db.notes && s.db.notes[n].owner == Some(u) && gone < UploadsByNote(s.db, n)
    ensures var step := DeleteNoteApi(s, u, n, false, gone);
            && step.result == Err(MediaBackendError)
            && step.stores.db == s.db.(uploads := step.stores.db.uploads)
            && (forall f :: f in step.stores.db.uploads <==> f in s.db.uploads && f !in gone)
            && (forall f :: f in step.stores.db.uploads ==> step.stores.db.uploads[f] == s.db.uploads[f])
            && (forall f :: f in step.stores.files <==> f in s.files && f !in gone)
  {
  }

  // Attempts at deleting a note, each interrupted before it deleted every upload that was left.
  ghost predicate Interrupted(s: Stores, n: NoteId, tries: seq<set<FileName>>)
    decreases |tries|
  {
    |tries| == 0 || (tries[0] < UploadsByNote(s.db, n) && Interrupted(Dropped(s, tries[0]), n, tries[1..]))
  }

  ghost function Attempts(s: Stores, u: UserId, n: NoteId, tries: seq<set<FileName>>): Stores
    requires n in s.db.notes && Owns(Some(u), s.db.notes[n].owner) && Interrupted(s, n, tries)
    decreases |tries|
  {
    if |tries| == 0 then s else Attempts(DeleteNoteApi(s, u, n, false, tries[0]).stores, u, n, tries[1..])
  }

  // However often a deletion is interrupted and wherever, running it once more with a working backend
  // ends where an uninterrupted run would have.
  lemma {:induction false} RetryReachesTheEnd(s: Stores, u: UserId, n: NoteId, tries: seq<set<FileName>>)
    requires n in s.db.notes && Owns(Some(u), s.db.notes[n].owner) && Interrupted(s, n, tries)
    ensures var interrupted := Attempts(s, u, n, tries);
            && n in interrupted.db.notes
            && DeleteNoteApi(interrupted, u, n, false, UploadsByNote(interrupted.db, n))
               == DeleteNoteApi(s, u, n, false, UploadsByNote(s.db, n))
    decreases |tries|
  {
    if |tries| > 0 {
      OneRetry(s, u, n, tries[0]);
      RetryReachesTheEnd(Dropped(s, tries[0]), u, n, tries[1..]);
    }
  }

  lemma OneRetry(s: Stores, u: UserId, n: NoteId, gone: set<FileName>)
    requires n in s.db.notes && Owns(Some(u), s.db.notes[n].owner) && gone <= UploadsByNote(s.db, n)
    ensures DeleteNoteApi(Dropped(s, gone), u, n, false, UploadsByNote(Dropped(s, gone).db, n))
            == DeleteNoteApi(s, u, n, false, UploadsByNote(s.db, n))
  {
  }

  // --- media ------------------------------------------------------------------------------------------------

  // `deleteMedia`: only the uploader may; users are compared by name.
  function DeleteMediaApi(s: Stores, u: UserId, f: FileName, ok: bool): MediaStep<()>
    requires u in s.db.users
    requires f in s.db.uploads ==> s.db.uploads[f].user in s.db.users
  {
    if f !in s.db.uploads then MediaStep(s, Err(NotInDB))
    else if s.db.users[s.db.uploads[f].user].userName != s.db.users[u].userName then MediaStep(s, Err(Unauthorized))
    else if !ok then MediaStep(s, Err(MediaBackendError))
    else MediaStep(Dropped(s, {f}), Ok(()))
  }

  method DeleteMedia(store: Store, backend: MediaBackend, u: UserId, f: FileName)
    returns (r: Result<()>, ghost ok: bool)
    requires Consistent(store.State()) && u in store.users
    modifies store`uploads, backend
    ensures MediaStep(Current(store, backend), r) == DeleteMediaApi(old(Current(store, backend)), u, f, ok)
  {
    ok := false;
    if f !in store.uploads {
      return Err(NotInDB), ok;
    }
    if store.users[store.uploads[f].user].userName != store.users[u].userName {
      return Err(Unauthorized), ok;
    }
    r := DeleteFile(store, backend, f);
    ok := r.Ok?;
  }

  // Names are unique, so comparing them finds the uploader and nobody else.
  lemma DeleteMediaIff(s: Stores, u: UserId, f: FileName, ok: bool)
    requires Consistent(s.db) && u in s.db.users
    ensures var step := DeleteMediaApi(s, u, f, ok);
            && (step.result.Ok? <==> f in s.db.uploads && s.db.uploads[f].user == u && ok)
            && (step.result.Err? ==>
                  step == MediaStep(s, Err(if f !in s.db.uploads then NotInDB
                                           else if s.db.uploads[f].user != u then Unauthorized
                                           else MediaBackendError)))
            && (step.result.Ok? ==>
                  && step.stores.files == s.files - {f}
                  && step.stores.db == s.db.(uploads := step.stores.db.uploads)
                  && step.stores.db.uploads.Keys == s.db.uploads.Keys - {f}
                  && forall g :: g in s.db.uploads && g != f ==> step.stores.db.uploads[g] == s.db.uploads[g])
  {
  }

  // --- deleting a user --------------------------------------------------------------------------------------

  // The user's uploads go first; then the database decides.
  function DeleteUserApi(s: Stores, u: UserId, gone: set<FileName>): MediaStep<()>
    requires u in s.db.users
  {
    var dropped := Dropped(s, gone);
    if gone != UploadsByUser(s.db, u) then MediaStep(dropped, Err(MediaBackendError))
    else if !UserRemovable(dropped.db, u) then MediaStep(dropped, Err(QueryFailed))
    else MediaStep(Stores(WithoutUser(dropped.db, u), dropped.files), Ok(()))
  }

  method DeleteUser(store: Store, backend: MediaBackend, u: UserId) returns (r: Result<()>, ghost gone: set<FileName>)
    requires u in store.users
    modifies store, backend
    ensures gone <= UploadsByUser(old(store.State()), u)
    ensures MediaStep(Current(store, backend), r) == DeleteUserApi(old(Current(store, backend)), u, gone)
  {
    var mediaUploads := set f | f in store.uploads && store.uploads[f].user == u;
    assert mediaUploads == UploadsByUser(store.State(), u);
    r, gone := DeleteAll(store, backend, mediaUploads);
    if r.Err? {
      return;
    }
    r := store.RemoveUser(u);
  }

  // Nobody else uploaded to the user's notes, and no author row stands for the user.
  predicate Deletable(db: Db, u: UserId) {
    && (forall f :: f in db.uploads && db.uploads[f].note.Some? && db.uploads[f].note.value in Owned(db, u) ==>
          db.uploads[f].user == u)
    && (forall a :: a in db.authors ==> db.authors[a] != Some(u))
  }

  // With a working backend the deletion succeeds exactly for a deletable user. It then takes, besides
  // the user's uploads, precisely the rows the declared cascades reach, and if it fails the user stays.
  lemma DeleteUserIff(s: Stores, u: UserId, row: Row)
    requires u in s.db.users
    ensures var step := DeleteUserApi(s, u, UploadsByUser(s.db, u));
            && (step.result.Ok? <==> Deletable(s.db, u))
            && (step.result.Ok? ==>
                  (Present(s.db, row) && !Present(step.stores.db, row)
                   <==> || Doomed(s.db, UserRow(u), row)
                        || (row.UploadRow? && row.file in s.db.uploads && s.db.uploads[row.file].user == u)))
            && (step.result.Err? ==> step.result.error == QueryFailed && u in step.stores.db.users)
  {
    var gone := UploadsByUser(s.db, u);
    var dropped := Dropped(s, gone).db;
    assert Owned(dropped, u) == Owned(s.db, u);
    if Deletable(s.db, u) {
      forall f | f in dropped.uploads
        ensures dropped.uploads[f].user != u
        ensures dropped.uploads[f].note.Some? ==> dropped.uploads[f].note.value !in Owned(dropped, u)
      {
        assert f !in gone;
      }
    } else if forall a :: a in s.db.authors ==> s.db.authors[a] != Some(u) {
      var f :| f in s.db.uploads && s.db.uploads[f].note.Some? && s.db.uploads[f].note.value in Owned(s.db, u)
               && s.db.uploads[f].user != u;
      assert f in dropped.uploads;
    }
    UserRemovalIsTheCascade(s.db, u, row);
    UserRemovalIsTheCascade(dropped, u, row);
  }

  // Every row it leaves is as it was, and so is every upload of anyone else, with its file.
  lemma DeleteUserKeepsRows(s: Stores, u: UserId, gone: set<FileName>)
    requires u in s.db.users && gone <= UploadsByUser(s.db, u)
    ensures var after := DeleteUserApi(s, u, gone).stores;
            && RowsUnchanged(s.db, after.db)
            && (forall f :: f in after.db.uploads <==> f in s.db.uploads && f !in gone)
            && (forall f :: f in after.db.uploads ==> after.db.uploads[f] == s.db.uploads[f])
            && (forall f :: f in after.files <==> f in s.files && f !in gone)
  {
    var step := DeleteUserApi(s, u, gone);
    RemovalKeepsRows(s.db, s.db.uploads - gone, {u}, Owned(Dropped(s, gone).db, u));
    assert step.stores.files == s.files - gone && step.stores.db.uploads == s.db.uploads - gone;
  }

  // A deletion during which the backend failed at some upload says so, and has taken nothing but the
  // uploads it got through.
  lemma InterruptedKeepsTheUser(s: Stores, u: UserId, gone: set<FileName>)
    requires u in s.db.users && gone < UploadsByUser(s.db, u)
    ensures var step := DeleteUserApi(s, u, gone);
            && step.result == Err(MediaBackendError)
            && step.stores.db == s.db.(uploads := step.stores.db.uploads)
  {
  }

  // A refused deletion has already taken the user's uploads: the stores are as they were exactly when
  // there were none.
  lemma RefusedDeletionTakesUploads(s: Stores, u: UserId)
    requires FilesMatch(s) && u in s.db.users && !Deletable(s.db, u)
    ensures var step := DeleteUserApi(s, u, UploadsByUser(s.db, u));
            && step.result == Err(QueryFailed)
            && step.stores == Dropped(s, UploadsByUser(s.db, u))
            && (step.stores == s <==> UploadsByUser(s.db, u) == {})
  {
    var gone := UploadsByUser(s.db, u);
    DeleteUserIff(s, u, UserRow(u));
    if gone == {} {
      assert s.db.uploads - gone == s.db.uploads && s.files - gone == s.files;
    } else {
      var f :| f in gone;
      assert f !in s.files - gone;
    }
  }

  // User "u" has an upload, and a note to which user "v" has uploaded.
  const BLOCKED := Stores(NO_ROWS.(users := map["u" := User("u", "u"), "v" := User("v", "v")],
                                   notes := map["n" := Note("p", None, Some("u"))],
                                   uploads := map["f" := MediaUpload("u", None), "g" := MediaUpload("v", Some("n"))]),
                          {"f", "g"})

  lemma BlockedDeletion()
    ensures Consistent(BLOCKED.db) && FilesMatch(BLOCKED)
    ensures var step := DeleteUserApi(BLOCKED, "u", UploadsByUser(BLOCKED.db, "u"));
            step.result == Err(QueryFailed) && "u" in step.stores.db.users && step.stores.files == {"g"}
  {
    assert "n" in Owned(BLOCKED.db, "u") && "g" in BLOCKED.db.uploads;
    assert UploadsByUser(BLOCKED.db, "u") == {"f"};
    RefusedDeletionTakesUploads(BLOCKED, "u");
  }

  // Attempts at deleting a user, each interrupted before it deleted every upload that was left.
  ghost predicate UserInterrupted(s: Stores, u: UserId, tries: seq<set<FileName>>)
    decreases |tries|
  {
    |tries| == 0 || (tries[0] < UploadsByUser(s.db, u) && UserInterrupted(Dropped(s, tries[0]), u, tries[1..]))
  }

  ghost function UserAttempts(s: Stores, u: UserId, tries: seq<set<FileName>>): Stores
    requires u in s.db.users && UserInterrupted(s, u, tries)
    decreases |tries|
  {
    if |tries| == 0 then s else UserAttempts(DeleteUserApi(s, u, tries[0]).stores, u, tries[1..])
  }

  // However often a deletion is interrupted and wherever, the user is still there, and running it once
  // more with a working backend answers and ends as an uninterrupted run would have.
  lemma {:induction false} UserRetryReachesTheEnd(s: Stores, u: UserId, tries: seq<set<FileName>>)
    requires u in s.db.users && UserInterrupted(s, u, tries)
    ensures var interrupted := UserAttempts(s, u, tries);
            && u in interrupted.db.users
            && DeleteUserApi(interrupted, u, UploadsByUser(interrupted.db, u))
               == DeleteUserApi(s, u, UploadsByUser(s.db, u))
    decreases |tries|
  {
    if |tries| > 0 {
      OneUserRetry(s, u, tries[0]);
      UserRetryReachesTheEnd(Dropped(s, tries[0]), u, tries[1..]);
    }
  }

  lemma OneUserRetry(s: Stores, u: UserId, gone: set<FileName>)
    requires u in s.db.users && gone <= UploadsByUser(s.db, u)
    ensures DeleteUserApi(Dropped(s, gone), u, UploadsByUser(Dropped(s, gone).db, u))
            == DeleteUserApi(s, u, UploadsByUser(s.db, u))
  {
    var left := UploadsByUser(Dropped(s, gone).db, u);
    assert gone + left == UploadsByUser(s.db, u);
    assert Dropped(Dropped(s, gone), left) == Dropped(s, gone + left);
  }

  // --- what the guarded steps keep --------------------------------------------------------------------------

  lemma DeleteNoteKeeps(s: Stores, u: UserId, n: NoteId, keepMedia: bool, gone: set<FileName>)
    requires Consistent(s.db) && FilesMatch(s) && n in s.db.notes && gone <= UploadsByNote(s.db, n)
    ensures Consistent(DeleteNoteApi(s, u, n, keepMedia, gone).stores.db)
    ensures FilesMatch(DeleteNoteApi(s, u, n, keepMedia, gone).stores)
  {
    DroppedKeeps(s, gone);
    var uploads := UploadsByNote(s.db, n);
    UnlinkedKeeps(s, uploads);
    var db := if keepMedia then s.db.(uploads := Unlinked(s.db.uploads, uploads)) else Dropped(s, gone).db;
    if DeleteNoteApi(s, u, n, keepMedia, gone).result.Ok? {
      forall f | f in db.uploads ensures db.uploads[f].note != Some(n) {
        assert f in s.db.uploads;
      }
      RemovalKeepsConsistent(db, {}, {n});
    }
  }

  lemma DeleteUserKeeps(s: Stores, u: UserId, gone: set<FileName>)
    requires Consistent(s.db) && FilesMatch(s) && u in s.db.users && gone <= UploadsByUser(s.db, u)
    ensures Consistent(DeleteUserApi(s, u, gone).stores.db)
    ensures FilesMatch(DeleteUserApi(s, u, gone).stores)
  {
    DroppedKeeps(s, gone);
    var db := Dropped(s, gone).db;
    if UserRemovable(db, u) {
      RemovalKeepsConsistent(db, {u}, Owned(db, u));
    }
  }
}
