/** src/media/media.service.ts: uploaded files, kept by a backend that may fail at any call, and the rows
    that record them. */
module Media {
  import opened Common
  import opened Schema

  // What FileType.fromBuffer finds out about a buffer.
  datatype FileType = FileType(mime: string, ext: string)

  const ALLOWED_TYPES := [
    "image/apng", "image/bmp", "image/gif", "image/heif", "image/heic", "image/heif-sequence",
    "image/heic-sequence", "image/jpeg", "image/png", "image/svg+xml", "image/tiff", "image/webp"]

  predicate IsAllowedMimeType(mimeType: string) {
    mimeType in ALLOWED_TYPES
  }

  /** Whatever stores the files: a call either does what it says or fails and changes nothing. */
  class MediaBackend {
    var files: set<FileName>

    method SaveFile(name: FileName) returns (ok: bool)
      modifies this
      ensures files == if ok then old(files) + {name} else old(files)
    {
      ok := *;
      if ok {
        files := files + {name};
      }
    }

    method DeleteFile(name: FileName) returns (ok: bool)
      modifies this
      ensures files == if ok then old(files) - {name} else old(files)
    {
      ok := *;
      if ok {
        files := files - {name};
      }
    }
  }

  // Both stores together.
  datatype Stores = Stores(db: Db, files: set<FileName>)
  datatype MediaStep<+T> = MediaStep(stores: Stores, result: Result<T>)

  function Current(store: Store, backend: MediaBackend): Stores
    reads store, backend
  {
    Stores(store.State(), backend.files)
  }

  // The backend holds a file for every record and no other.
  predicate FilesMatch(s: Stores) {
    s.files == s.db.uploads.Keys
  }

  // --- saving ---------------------------------------------------------------------------------------------

  function SaveFileStep(s: Stores, detected: Option<FileType>, random: string, u: UserId, n: NoteId, ok: bool)
    : MediaStep<FileName>
  {
    if detected.None? || !IsAllowedMimeType(detected.value.mime) then MediaStep(s, Err(ClientError))
    else if !ok then MediaStep(s, Err(MediaBackendError))
    else
      var name := random + "." + detected.value.ext;
      MediaStep(Stores(s.db.(uploads := s.db.uploads[name := MediaUpload(u, Some(n))]), s.files + {name}), Ok(name))
  }

  // `saveFile`: the file first, then its record; `random` is the generated part of the name.
  method SaveFile(store: Store, backend: MediaBackend, detected: Option<FileType>, random: string, u: UserId, n: NoteId)
    returns (r: Result<FileName>, ghost ok: bool)
    requires u in store.users && n in store.notes
    modifies store`uploads, backend
    ensures MediaStep(Current(store, backend), r)
            == SaveFileStep(old(Current(store, backend)), detected, random, u, n, ok)
  {
    ok := false;
    if detected.None? {
      return Err(ClientError), ok;
    }
    if !IsAllowedMimeType(detected.value.mime) {
      return Err(ClientError), ok;
    }
    var name := random + "." + detected.value.ext;
    var saved := backend.SaveFile(name);
    ok := saved;
    if !saved {
      return Err(MediaBackendError), ok;
    }
    store.uploads := store.uploads[name := MediaUpload(u, Some(n))];
    return Ok(name), ok;
  }

  // An upload is stored exactly for a detected type among the twelve that are allowed and a backend that
  // takes the file: the file under the random name with the type's extension, and the record of its
  // user and note. Nothing else changes; a refusal changes nothing and says why.
  lemma SaveFileIff(s: Stores, detected: Option<FileType>, random: string, u: UserId, n: NoteId, ok: bool)
    ensures var step := SaveFileStep(s, detected, random, u, n, ok);
            var image := detected.Some? && detected.value.mime in {
                           "image/apng", "image/bmp", "image/gif", "image/heif", "image/heic", "image/heif-sequence",
                           "image/heic-sequence", "image/jpeg", "image/png", "image/svg+xml", "image/tiff",
                           "image/webp"};
            && (step.result.Ok? <==> image && ok)
            && (step.result.Err? ==> step == MediaStep(s, Err(if image then MediaBackendError else ClientError)))
            && (step.result.Ok? ==>
                  var name := random + "." + detected.value.ext;
                  && step.result.value == name
                  && step.stores.files == s.files + {name}
                  && step.stores.db == s.db.(uploads := step.stores.db.uploads)
                  && step.stores.db.uploads.Keys == s.db.uploads.Keys + {name}
                  && step.stores.db.uploads[name].user == u
                  && step.stores.db.uploads[name].note == Some(n)
                  && forall f :: f in s.db.uploads && f != name ==> step.stores.db.uploads[f] == s.db.uploads[f])
  {
  }

  // --- deleting and unlinking -------------------------------------------------------------------------------

  // Some uploads gone from both stores.
  function Dropped(s: Stores, gone: set<FileName>): Stores {
    Stores(s.db.(uploads := s.db.uploads - gone), s.files - gone)
  }

  // `deleteFile`: the backend first; its failure leaves the record in place.
  method DeleteFile(store: Store, backend: MediaBackend, f: FileName) returns (r: Result<()>)
    modifies store`uploads, backend
    ensures r == Ok(()) || r == Err(MediaBackendError)
    ensures Current(store, backend)
            == if r.Ok? then Dropped(old(Current(store, backend)), {f}) else old(Current(store, backend))
  {
    var ok := backend.DeleteFile(f);
    if !ok {
      return Err(MediaBackendError);
    }
    store.uploads := store.uploads - {f};
    return Ok(());
  }

  // Some uploads without their note.
  function Unlinked(uploads: map<FileName, MediaUpload>, fs: set<FileName>): map<FileName, MediaUpload> {
    map f | f in uploads :: if f in fs then uploads[f].(note := None) else uploads[f]
  }

  method RemoveNoteFromMediaUpload(store: Store, f: FileName)
    requires f in store.uploads
    modifies store`uploads
    ensures store.uploads == Unlinked(old(store.uploads), {f})
  {
    store.uploads := store.uploads[f := store.uploads[f].(note := None)];
  }

  // The lists the controllers go through.
  lemma UploadLists(db: Db, u: UserId, n: NoteId, f: FileName)
    ensures f in UploadsByUser(db, u) <==> f in db.uploads && db.uploads[f].user == u
    ensures f in UploadsByNote(db, n) <==> f in db.uploads && db.uploads[f].note == Some(n)
  {
  }

  function UploadsByUser(db: Db, u: UserId): set<FileName> {
    set f | f in db.uploads && db.uploads[f].user == u
  }

  function UploadsByNote(db: Db, n: NoteId): set<FileName> {
    set f | f in db.uploads && db.uploads[f].note == Some(n)
  }

  // The loop both controllers run: delete upload after upload until one fails.
  method DeleteAll(store: Store, backend: MediaBackend, uploads: set<FileName>)
    returns (r: Result<()>, ghost gone: set<FileName>)
    modifies store`uploads, backend
    ensures gone <= uploads
    ensures r == if gone == uploads then Ok(()) else Err(MediaBackendError)
    ensures Current(store, backend) == Dropped(old(Current(store, backend)), gone)
  {
    var list := Rows(uploads);
    gone := {};
    ghost var before := Current(store, backend);
    for i := 0 to |list|
      invariant gone == Elements(list[..i])
      invariant Current(store, backend) == Dropped(before, gone)
    {
      NextElement(list, i);
      var deleted := DeleteFile(store, backend, list[i]);
      if deleted.Err? {
        assert list[i] in Elements(list);
        return deleted, gone;
      }
      DropOneMore(before, gone, list[i]);
      gone := gone + {list[i]};
    }
    assert list[..|list|] == list;
    return Ok(()), gone;
  }

  // Dropping takes exactly those files and records; taking the note off changes nothing but that.
  lemma DroppedAndUnlinked(s: Stores, fs: set<FileName>, f: FileName)
    ensures var dropped, unlinked := Dropped(s, fs), Unlinked(s.db.uploads, fs);
            && dropped.db == s.db.(uploads := dropped.db.uploads)
            && (f in dropped.files <==> f in s.files && f !in fs)
            && (f in dropped.db.uploads <==> f in s.db.uploads && f !in fs)
            && (f in dropped.db.uploads ==> dropped.db.uploads[f] == s.db.uploads[f])
            && (f in unlinked <==> f in s.db.uploads)
            && (f in unlinked ==>
                  && unlinked[f].user == s.db.uploads[f].user
                  && unlinked[f].note == if f in fs then None else s.db.uploads[f].note)
  {
  }

  lemma DropOneMore(s: Stores, gone: set<FileName>, f: FileName)
    ensures Dropped(Dropped(s, gone), {f}) == Dropped(s, gone + {f})
  {
  }

  // --- what the media operations keep -----------------------------------------------------------------------

  lemma DroppedKeeps(s: Stores, gone: set<FileName>)
    requires Consistent(s.db) && FilesMatch(s)
    ensures Consistent(Dropped(s, gone).db) && FilesMatch(Dropped(s, gone))
  {
  }

  lemma UnlinkedKeeps(s: Stores, fs: set<FileName>)
    requires Consistent(s.db) && FilesMatch(s)
    ensures var after := s.(db := s.db.(uploads := Unlinked(s.db.uploads, fs)));
            Consistent(after.db) && FilesMatch(after)
  {
  }
}
