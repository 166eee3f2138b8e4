/** src/notes/notes.service.ts: creating, finding and updating notes, and their permissions. */
module Notes {
  import opened Common
  import opened Schema
  import opened Permissions
  import opened Duplicates
  import opened Users

  // --- names --------------------------------------------------------------------------------------------

  // `checkNoteIdOrAlias` against the configured `forbiddenNoteIds`.
  function CheckNoteIdOrAlias(forbidden: seq<string>, noteIdOrAlias: string): Result<()> {
    if noteIdOrAlias in forbidden then Err(ForbiddenId) else Ok(())
  }

  // What every stored alias is, besides unique.
  ghost predicate AliasesAllowed(notes: map<NoteId, Note>, forbidden: seq<string>) {
    forall n :: n in notes && notes[n].alias.Some? ==>
      notes[n].alias.value != "" && notes[n].alias.value !in forbidden
  }

  predicate AliasTaken(db: Db, alias: string) {
    exists n :: n in db.notes && db.notes[n].alias == Some(alias)
  }

  // --- creating -------------------------------------------------------------------------------------------

  datatype NewNote = NewNote(id: NoteId, publicId: string, content: string, alias: Option<string>,
                             owner: Option<UserId>)

  // The empty alias counts as none.
  function Alias(note: NewNote): Option<string> {
    if note.alias == Some("") then None else note.alias
  }

  function AddRevision(db: Db, n: NoteId, content: string, now: int): Db {
    db.(revisions := db.revisions[db.nextRevision := Revision(n, content, now)],
        nextRevision := db.nextRevision + 1)
  }

  function CreateNoteStep(db: Db, forbidden: seq<string>, note: NewNote, now: int): Step<NoteId> {
    var alias := Alias(note);
    if alias.Some? && CheckNoteIdOrAlias(forbidden, alias.value).Err? then Step(db, Err(ForbiddenId))
    else if alias.Some? && AliasTaken(db, alias.value) then Step(db, Err(AlreadyInDB))
    else
      Step(AddRevision(db.(notes := db.notes[note.id := Note(note.publicId, alias, note.owner)]),
                       note.id, note.content, now),
           Ok(note.id))
  }

  method CreateNote(store: Store, forbidden: seq<string>, note: NewNote, now: int) returns (r: Result<NoteId>)
    requires note.id !in store.notes
    modifies store
    ensures Step(store.State(), r) == CreateNoteStep(old(store.State()), forbidden, note, now)
  {
    var alias := None;
    if note.alias.Some? && note.alias.value != "" {
      alias := note.alias;
      var allowed := CheckNoteIdOrAlias(forbidden, note.alias.value);
      if allowed.Err? {
        return Err(allowed.error);
      }
    }
    if alias.Some? && exists n :: n in store.notes && store.notes[n].alias == alias {
      return Err(AlreadyInDB);
    }
    store.notes := store.notes[note.id := Note(note.publicId, alias, note.owner)];
    store.revisions := store.revisions[store.nextRevision := Revision(note.id, note.content, now)];
    store.nextRevision := store.nextRevision + 1;
    return Ok(note.id);
  }

  // A stored note's alias is non-empty, allowed, and nobody else's.
  lemma NewAlias(db: Db, forbidden: seq<string>, note: NewNote, now: int)
    requires UniqueAliases(db.notes) && AliasesAllowed(db.notes, forbidden)
    requires CreateNoteStep(db, forbidden, note, now).result.Ok?
    ensures var notes := db.notes[note.id := Note(note.publicId, Alias(note), note.owner)];
            UniqueAliases(notes) && AliasesAllowed(notes, forbidden)
  {
  }

  lemma NewNoteLinks(db: Db, note: NewNote, row: Note, now: int)
    requires Linked(db) && note.id !in db.notes && (row.owner.Some? ==> row.owner.value in db.users)
    ensures Linked(AddRevision(db.(notes := db.notes[note.id := row]), note.id, note.content, now))
  {
  }

  // Creating a note keeps the database consistent and every alias allowed.
  lemma CreateNoteKeeps(db: Db, forbidden: seq<string>, note: NewNote, now: int)
    requires Consistent(db) && AliasesAllowed(db.notes, forbidden)
    requires note.id !in db.notes && (note.owner.Some? ==> note.owner.value in db.users)
    ensures Consistent(CreateNoteStep(db, forbidden, note, now).db)
    ensures AliasesAllowed(CreateNoteStep(db, forbidden, note, now).db.notes, forbidden)
  {
    if CreateNoteStep(db, forbidden, note, now).result.Ok? {
      NewAlias(db, forbidden, note, now);
      NewNoteLinks(db, note, Note(note.publicId, Alias(note), note.owner), now);
    }
  }

  // A note is created exactly unless its alias is forbidden or taken, and a refusal changes nothing.
  lemma CreateNoteIff(db: Db, forbidden: seq<string>, note: NewNote, now: int)
    ensures var step := CreateNoteStep(db, forbidden, note, now);
            && (step.result.Ok? <==> forall alias :: note.alias == Some(alias) && alias != "" ==>
                  alias !in forbidden && forall n :: n in db.notes ==> db.notes[n].alias != Some(alias))
            && (step.result.Err? ==> step.db == db)
  {
  }

  // What a creation stores: one more note, with the given public id and owner and with the given alias
  // unless that is empty, and as its one revision the given text. Nothing else changes; a refusal says
  // whether the alias is forbidden or taken.
  lemma CreateNoteStores(db: Db, forbidden: seq<string>, note: NewNote, now: int)
    requires note.id !in db.notes
    ensures var step := CreateNoteStep(db, forbidden, note, now);
            && (step.result.Err? ==>
                  && note.alias.Some?
                  && step.result.error == if note.alias.value in forbidden then ForbiddenId else AlreadyInDB)
            && (step.result.Ok? ==>
                  && step.result.value == note.id
                  && step.db == db.(notes := step.db.notes, revisions := step.db.revisions,
                                    nextRevision := db.nextRevision + 1)
                  && step.db.notes.Keys == db.notes.Keys + {note.id}
                  && (forall n :: n in db.notes ==> step.db.notes[n] == db.notes[n])
                  && step.db.notes[note.id].publicId == note.publicId
                  && step.db.notes[note.id].owner == note.owner
                  && step.db.notes[note.id].alias == (if note.alias == Some("") then None else note.alias)
                  && step.db.revisions == db.revisions[db.nextRevision := Revision(note.id, note.content, now)])
  {
  }

  // So the new note is found by its public id and by its alias, and every other note as before.
  lemma NewNoteIsFound(db: Db, forbidden: seq<string>, note: NewNote, now: int, text: string, m: NoteId)
    requires note.id !in db.notes && CreateNoteStep(db, forbidden, note, now).result.Ok?
    ensures var after := CreateNoteStep(db, forbidden, note, now).db.notes;
            && (Matches(after, text, note.id) <==> text == note.publicId || (text != "" && note.alias == Some(text)))
            && (m != note.id ==> (Matches(after, text, m) <==> Matches(db.notes, text, m)))
  {
    CreateNoteStores(db, forbidden, note, now);
  }

  // A new note is its owner's alone.
  lemma NewNoteIsPrivate(db: Db, forbidden: seq<string>, note: NewNote, now: int, guest: GuestPermission,
                         user: Option<UserId>, wantEdit: bool)
    requires Consistent(db) && note.id !in db.notes && CreateNoteStep(db, forbidden, note, now).result.Ok?
    ensures MayAccess(CreateNoteStep(db, forbidden, note, now).db, guest, user, note.id, wantEdit)
            <==> user.Some? && note.owner == user
  {
  }

  // --- finding --------------------------------------------------------------------------------------------

  // The rows `getNoteByIdOrAlias` may answer with: those of that public id or alias.
  predicate Matches(notes: map<NoteId, Note>, noteIdOrAlias: string, n: NoteId) {
    n in notes && (notes[n].publicId == noteIdOrAlias || notes[n].alias == Some(noteIdOrAlias))
  }

  method GetNoteByIdOrAlias(store: Store, forbidden: seq<string>, noteIdOrAlias: string) returns (r: Result<NoteView>)
    requires Consistent(store.State())
    ensures r.Ok? ==> && Matches(store.notes, noteIdOrAlias, r.value.id)
                      && Loads(store.State(), r.value.id, r.value)
    ensures r.Ok? <==> noteIdOrAlias !in forbidden && exists n :: Matches(store.notes, noteIdOrAlias, n)
    ensures r.Err? ==> r.error == if noteIdOrAlias in forbidden then ForbiddenId else NotInDB
  {
    var allowed := CheckNoteIdOrAlias(forbidden, noteIdOrAlias);
    if allowed.Err? {
      return Err(allowed.error);
    }
    if n :| n in store.notes && Matches(store.notes, noteIdOrAlias, n) {
      var note := LoadNote(store, n);
      return Ok(note);
    }
    return Err(NotInDB);
  }

  // The note with the relations the services ask for.
  method LoadNote(store: Store, n: NoteId) returns (note: NoteView)
    requires Consistent(store.State()) && n in store.notes
    ensures Loads(store.State(), n, note)
  {
    var userPermissions := LoadUserPermissions(store, n);
    var groupPermissions := LoadGroupPermissions(store, n);
    note := NoteView(n, store.notes[n].owner, userPermissions, groupPermissions);
  }

  method LoadUserPermissions(store: Store, n: NoteId) returns (list: seq<UserPermission>)
    ensures forall p :: p in list ==> IsUserRow(store.State(), n, p)
    ensures forall u :: (n, u) in store.userGrants ==> UserPermission(u, store.userGrants[(n, u)]) in list
  {
    var users := Rows(set k | k in store.userGrants && k.0 == n :: k.1);
    assert forall u :: (n, u) in store.userGrants <==> u in Elements(users);
    list := [];
    for i := 0 to |users|
      invariant |list| == i
      invariant forall j | 0 <= j < i ::
          (n, users[j]) in store.userGrants && list[j] == UserPermission(users[j], store.userGrants[(n, users[j])])
    {
      assert users[i] in Elements(users);
      list := list + [UserPermission(users[i], store.userGrants[(n, users[i])])];
    }
    forall u | (n, u) in store.userGrants ensures UserPermission(u, store.userGrants[(n, u)]) in list {
      var j :| 0 <= j < |users| && users[j] == u;
      assert list[j] in list;
    }
  }

  method LoadGroupPermissions(store: Store, n: NoteId) returns (list: seq<GroupPermission>)
    requires Consistent(store.State())
    ensures forall p :: p in list ==> IsGroupRow(store.State(), n, p)
    ensures forall g :: (n, g) in store.groupGrants ==> exists p :: p in list && p.group.id == g
  {
    var groups := Rows(set k | k in store.groupGrants && k.0 == n :: k.1);
    assert forall g :: (n, g) in store.groupGrants <==> g in Elements(groups);
    list := [];
    for i := 0 to |groups|
      invariant |list| == i
      invariant forall j | 0 <= j < i :: list[j].group.id == groups[j] && IsGroupRow(store.State(), n, list[j])
    {
      assert groups[i] in Elements(groups);
      var view := LoadGroup(store, groups[i]);
      list := list + [GroupPermission(view, store.groupGrants[(n, groups[i])])];
    }
    forall g | (n, g) in store.groupGrants ensures exists p :: p in list && p.group.id == g {
      var j :| 0 <= j < |groups| && groups[j] == g;
      assert list[j] in list;
    }
  }

  method LoadGroup(store: Store, g: GroupId) returns (view: GroupView)
    requires g in store.groups
    ensures view.id == g && view.name == store.groups[g].name && view.special == store.groups[g].special
    ensures Elements(view.members) == store.groups[g].members
  {
    var members := Rows(store.groups[g].members);
    view := GroupView(g, store.groups[g].name, store.groups[g].special, members);
  }

  // Looking a note up by its alias can only return that note exactly when no other note's public id
  // is that text; aliases themselves never collide.
  lemma LookupByAlias(db: Db, n: NoteId)
    requires Consistent(db) && n in db.notes && db.notes[n].alias.Some?
    ensures var alias := db.notes[n].alias.value;
            (forall m :: Matches(db.notes, alias, m) <==> m == n)
            <==> forall m :: m in db.notes && db.notes[m].publicId == alias ==> m == n
  {
    var alias := db.notes[n].alias.value;
    forall m | m in db.notes && db.notes[m].alias == Some(alias) ensures m == n {
      assert SameAlias(db.notes[n], db.notes[m]);
    }
    assert Matches(db.notes, alias, n);
    if forall m :: Matches(db.notes, alias, m) <==> m == n {
      forall m | m in db.notes && db.notes[m].publicId == alias ensures m == n {
        assert Matches(db.notes, alias, m);
      }
    }
  }

  // By its public id, which no column constraint makes unique: exactly when no other note has that
  // public id or that alias.
  lemma LookupByPublicId(db: Db, n: NoteId)
    requires n in db.notes
    ensures var id := db.notes[n].publicId;
            (forall m :: Matches(db.notes, id, m) <==> m == n)
            <==> forall m :: m in db.notes && m != n ==> db.notes[m].publicId != id && db.notes[m].alias != Some(id)
  {
    var id := db.notes[n].publicId;
    assert Matches(db.notes, id, n);
    if forall m :: Matches(db.notes, id, m) <==> m == n {
      forall m | m in db.notes && m != n ensures db.notes[m].publicId != id && db.notes[m].alias != Some(id) {
        assert !Matches(db.notes, id, m);
      }
    }
  }

  const ONE_NOTE := NO_ROWS.(notes := map["b" := Note("q", None, None)])

  // Nothing keeps a new note from taking another note's public id as its alias; a look-up of that text
  // may then answer either.
  lemma CollidingLookup()
    ensures var step := CreateNoteStep(ONE_NOTE, [], NewNote("a", "p", "", Some("q"), None), 0);
            && step.result.Ok? && Consistent(step.db)
            && Matches(step.db.notes, "q", "a") && Matches(step.db.notes, "q", "b")
  {
    CreateNoteKeeps(ONE_NOTE, [], NewNote("a", "p", "", Some("q"), None), 0);
  }

  // --- updating the content -----------------------------------------------------------------------------

  // `updateNote`: one more revision, and both permission lists emptied.
  function UpdateNoteStep(db: Db, n: NoteId, content: string, now: int): Db {
    AddRevision(db.(userGrants := map k | k in db.userGrants && k.0 != n :: db.userGrants[k],
                    groupGrants := map k | k in db.groupGrants && k.0 != n :: db.groupGrants[k]),
                n, content, now)
  }

  method UpdateNote(store: Store, n: NoteId, content: string, now: int)
    requires n in store.notes
    modifies store
    ensures store.State() == UpdateNoteStep(old(store.State()), n, content, now)
  {
    store.revisions := store.revisions[store.nextRevision := Revision(n, content, now)];
    store.nextRevision := store.nextRevision + 1;
    store.userGrants := map k | k in store.userGrants && k.0 != n :: store.userGrants[k];
    store.groupGrants := map k | k in store.groupGrants && k.0 != n :: store.groupGrants[k];
  }

  // A new text is one more revision, of that note; the note's permission rows go. The other notes'
  // permission rows, the earlier revisions and the other tables stay.
  lemma UpdateNoteChanges(db: Db, n: NoteId, content: string, now: int)
    ensures var after := UpdateNoteStep(db, n, content, now);
            && after == db.(userGrants := after.userGrants, groupGrants := after.groupGrants,
                            revisions := after.revisions, nextRevision := db.nextRevision + 1)
            && after.revisions == db.revisions[db.nextRevision := Revision(n, content, now)]
            && (forall k :: k in after.userGrants <==> k in db.userGrants && k.0 != n)
            && (forall k :: k in after.userGrants ==> after.userGrants[k] == db.userGrants[k])
            && (forall k :: k in after.groupGrants <==> k in db.groupGrants && k.0 != n)
            && (forall k :: k in after.groupGrants ==> after.groupGrants[k] == db.groupGrants[k])
  {
  }

  // So a new text takes everyone's access away but the owner's.
  lemma UpdateNoteEndsSharing(db: Db, n: NoteId, content: string, now: int, guest: GuestPermission,
                              user: Option<UserId>, wantEdit: bool)
    requires n in db.notes
    ensures MayAccess(UpdateNoteStep(db, n, content, now), guest, user, n, wantEdit)
            <==> user.Some? && db.notes[n].owner == user
  {
  }

  lemma UpdateNoteKeeps(db: Db, n: NoteId, content: string, now: int)
    requires Consistent(db) && n in db.notes
    ensures Consistent(UpdateNoteStep(db, n, content, now))
  {
  }

  // --- updating the permissions --------------------------------------------------------------------------

  datatype Share = Share(name: string, canEdit: bool)
  datatype PermissionsUpdate = PermissionsUpdate(sharedToUsers: seq<Share>, sharedToGroups: seq<Share>)

  function NamesOf(shares: seq<Share>): (names: seq<string>)
    ensures |names| == |shares|
    ensures forall i | 0 <= i < |shares| :: names[i] == shares[i].name
  {
    seq(|shares|, i requires 0 <= i < |shares| => shares[i].name)
  }

  // What a list of shares says about a name.
  function EditFor(shares: seq<Share>, name: string): Option<bool> {
    if |shares| == 0 then None
    else if shares[0].name == name then Some(shares[0].canEdit)
    else EditFor(shares[1..], name)
  }

  predicate Names(shares: seq<Share>, name: string) {
    EditFor(shares, name).Some?
  }

  lemma {:induction false} EditForMeans(shares: seq<Share>, name: string)
    ensures EditFor(shares, name).Some? <==> exists i :: 0 <= i < |shares| && shares[i].name == name
    ensures EditFor(shares, name).Some? ==> Share(name, EditFor(shares, name).value) in shares
  {
    if |shares| > 0 {
      EditForMeans(shares[1..], name);
      if i :| 0 <= i < |shares| && shares[i].name == name && i > 0 {
        assert shares[1..][i - 1].name == name;
      }
    }
  }

  // Without repetition it is what any share of that name says.
  lemma {:induction false} OneShareDecides(shares: seq<Share>, i: nat)
    requires i < |shares| && Distinct(NamesOf(shares))
    ensures EditFor(shares, shares[i].name) == Some(shares[i].canEdit)
  {
    if i > 0 {
      var names, rest := NamesOf(shares), shares[1..];
      assert names[0] != names[i];
      assert NamesOf(rest) == names[1..];
      OneShareDecides(rest, i - 1);
    }
  }

  function UserNames(db: Db): map<UserId, string> {
    map u | u in db.users :: db.users[u].userName
  }

  function GroupNames(db: Db): map<GroupId, string> {
    map g | g in db.groups :: db.groups[g].name
  }

  // The rows of other notes as they were; for this note a row per holder the shares name.
  predicate WantsRow<T(==)>(grants: map<(NoteId, T), bool>, names: map<T, string>, n: NoteId, shares: seq<Share>,
                            k: (NoteId, T)) {
    if k.0 == n then k.1 in names && Names(shares, names[k.1]) else k in grants
  }

  function NewGrants<T(==)>(grants: map<(NoteId, T), bool>, names: map<T, string>, n: NoteId, shares: seq<Share>)
    : map<(NoteId, T), bool>
  {
    map k | k in grants.Keys + (set t | t in names :: (n, t)) && WantsRow(grants, names, n, shares, k) ::
      if k.0 == n then EditFor(shares, names[k.1]).value else grants[k]
  }

  predicate GroupNamed(db: Db, name: string) {
    exists g :: g in db.groups && db.groups[g].name == name
  }

  // The request names nobody twice and only users and groups there are.
  function CheckUpdate(db: Db, request: PermissionsUpdate): Result<()> {
    if !Distinct(NamesOf(request.sharedToUsers)) || !Distinct(NamesOf(request.sharedToGroups)) then
      Err(PermissionsUpdateInconsistent)
    else if exists share :: share in request.sharedToUsers && !NameTaken(db, share.name) then Err(NotInDB)
    else if exists share :: share in request.sharedToGroups && !GroupNamed(db, share.name) then Err(NotInDB)
    else Ok(())
  }

  function UpdatePermissionsStep(db: Db, n: NoteId, request: PermissionsUpdate): Step<()> {
    var check := CheckUpdate(db, request);
    if check.Err? then Step(db, check)
    else
      Step(db.(userGrants := NewGrants(db.userGrants, UserNames(db), n, request.sharedToUsers),
               groupGrants := NewGrants(db.groupGrants, GroupNames(db), n, request.sharedToGroups)),
           check)
  }

  // The request is accepted exactly if it names no user and no group twice and each of them exists;
  // naming somebody twice is reported first, and a refusal changes nothing.
  lemma UpdatePermissionsIff(db: Db, n: NoteId, request: PermissionsUpdate)
    ensures var step := UpdatePermissionsStep(db, n, request);
            var users, groups := request.sharedToUsers, request.sharedToGroups;
            var twice := || (exists i, j :: 0 <= i < j < |users| && users[i].name == users[j].name)
                         || (exists i, j :: 0 <= i < j < |groups| && groups[i].name == groups[j].name);
            var known := && (forall s :: s in users ==> exists u :: u in db.users && db.users[u].userName == s.name)
                         && (forall s :: s in groups ==> exists g :: g in db.groups && db.groups[g].name == s.name);
            && (step.result.Ok? <==> !twice && known)
            && (step.result.Err? ==>
                  step == Step(db, Err(if twice then PermissionsUpdateInconsistent else NotInDB)))
  {
    RepeatedNames(request.sharedToUsers);
    RepeatedNames(request.sharedToGroups);
  }

  lemma RepeatedNames(shares: seq<Share>)
    ensures Distinct(NamesOf(shares)) <==> !exists i, j :: 0 <= i < j < |shares| && shares[i].name == shares[j].name
  {
    if i, j :| 0 <= i < j < |shares| && shares[i].name == shares[j].name {
      assert NamesOf(shares)[i] == NamesOf(shares)[j];
    }
  }

  // What an accepted request stores: for this note a row for exactly the users and groups it names,
  // with the rights it gives them. The other notes' rows and the other tables stay.
  lemma UpdatePermissionsStores(db: Db, n: NoteId, request: PermissionsUpdate)
    requires UpdatePermissionsStep(db, n, request).result.Ok?
    ensures var after := UpdatePermissionsStep(db, n, request).db;
            && after == db.(userGrants := after.userGrants, groupGrants := after.groupGrants)
            && (forall m, u :: m != n ==> ((m, u) in after.userGrants <==> (m, u) in db.userGrants))
            && (forall m, g :: m != n ==> ((m, g) in after.groupGrants <==> (m, g) in db.groupGrants))
            && (forall k :: k in after.userGrants && k.0 != n ==> after.userGrants[k] == db.userGrants[k])
            && (forall k :: k in after.groupGrants && k.0 != n ==> after.groupGrants[k] == db.groupGrants[k])
            && (forall u :: (n, u) in after.userGrants ==>
                  u in db.users && Share(db.users[u].userName, after.userGrants[(n, u)]) in request.sharedToUsers)
            && (forall u, s :: u in db.users && s in request.sharedToUsers && s.name == db.users[u].userName ==>
                  (n, u) in after.userGrants && after.userGrants[(n, u)] == s.canEdit)
            && (forall g :: (n, g) in after.groupGrants ==>
                  g in db.groups && Share(db.groups[g].name, after.groupGrants[(n, g)]) in request.sharedToGroups)
            && (forall g, s :: g in db.groups && s in request.sharedToGroups && s.name == db.groups[g].name ==>
                  (n, g) in after.groupGrants && after.groupGrants[(n, g)] == s.canEdit)
  {
    var users, groups := request.sharedToUsers, request.sharedToGroups;
    forall u | u in db.users && Names(users, db.users[u].userName)
      ensures Share(db.users[u].userName, EditFor(users, db.users[u].userName).value) in users
    {
      EditForMeans(users, db.users[u].userName);
    }
    forall g | g in db.groups && Names(groups, db.groups[g].name)
      ensures Share(db.groups[g].name, EditFor(groups, db.groups[g].name).value) in groups
    {
      EditForMeans(groups, db.groups[g].name);
    }
    forall s | s in users ensures EditFor(users, s.name) == Some(s.canEdit) {
      ShareIsDecisive(users, s);
    }
    forall s | s in groups ensures EditFor(groups, s.name) == Some(s.canEdit) {
      ShareIsDecisive(groups, s);
    }
  }

  lemma ShareIsDecisive(shares: seq<Share>, share: Share)
    requires share in shares && Distinct(NamesOf(shares))
    ensures EditFor(shares, share.name) == Some(share.canEdit)
  {
    var i :| 0 <= i < |shares| && shares[i] == share;
    OneShareDecides(shares, i);
  }

  method GetGroupByName(store: Store, name: string) returns (r: Result<GroupView>)
    ensures r.Ok? <==> GroupNamed(store.State(), name)
    ensures r.Ok? ==> && r.value.id in store.groups
                      && r.value.name == name == store.groups[r.value.id].name
                      && r.value.special == store.groups[r.value.id].special
                      && Elements(r.value.members) == store.groups[r.value.id].members
    ensures r.Err? ==> r.error == NotInDB
  {
    if g :| g in store.groups && store.groups[g].name == name {
      var view := LoadGroup(store, g);
      return Ok(view);
    }
    return Err(NotInDB);
  }

  // The entry stands for the share: the same name and right.
  predicate UserEntry(db: Db, p: UserPermission, share: Share) {
    p.user in db.users && db.users[p.user].userName == share.name && p.canEdit == share.canEdit
  }

  predicate GroupEntry(db: Db, p: GroupPermission, share: Share) {
    && p.group.id in db.groups && p.group.name == db.groups[p.group.id].name == share.name
    && p.group.special == db.groups[p.group.id].special
    && Elements(p.group.members) == db.groups[p.group.id].members
    && p.canEdit == share.canEdit
  }

  predicate UserEntries(db: Db, list: seq<UserPermission>, shares: seq<Share>) {
    |list| == |shares| && forall i | 0 <= i < |list| :: UserEntry(db, list[i], shares[i])
  }

  predicate GroupEntries(db: Db, list: seq<GroupPermission>, shares: seq<Share>) {
    |list| == |shares| && forall i | 0 <= i < |list| :: GroupEntry(db, list[i], shares[i])
  }

  // The users of the new list, resolved one by one in the order of the request.
  method ResolveUsers(store: Store, shares: seq<Share>) returns (r: Result<seq<UserPermission>>)
    ensures r.Ok? <==> forall share :: share in shares ==> NameTaken(store.State(), share.name)
    ensures r.Ok? ==> UserEntries(store.State(), r.value, shares)
    ensures r.Err? ==> r.error == NotInDB
  {
    var list: seq<UserPermission> := [];
    for i := 0 to |shares|
      invariant UserEntries(store.State(), list, shares[..i])
      invariant forall share :: share in shares[..i] ==> NameTaken(store.State(), share.name)
    {
      var user := GetUserByUsername(store, shares[i].name);
      if user.Err? {
        assert shares[i] in shares;
        return Err(user.error);
      }
      assert shares[..i + 1] == shares[..i] + [shares[i]];
      list := list + [UserPermission(user.value, shares[i].canEdit)];
    }
    assert shares[..|shares|] == shares;
    return Ok(list);
  }

  method ResolveGroups(store: Store, shares: seq<Share>) returns (r: Result<seq<GroupPermission>>)
    ensures r.Ok? <==> forall share :: share in shares ==> GroupNamed(store.State(), share.name)
    ensures r.Ok? ==> GroupEntries(store.State(), r.value, shares)
    ensures r.Err? ==> r.error == NotInDB
  {
    var list: seq<GroupPermission> := [];
    for i := 0 to |shares|
      invariant GroupEntries(store.State(), list, shares[..i])
      invariant forall share :: share in shares[..i] ==> GroupNamed(store.State(), share.name)
    {
      var group := GetGroupByName(store, shares[i].name);
      if group.Err? {
        assert shares[i] in shares;
        return Err(group.error);
      }
      assert shares[..i + 1] == shares[..i] + [shares[i]];
      list := list + [GroupPermission(group.value, shares[i].canEdit)];
    }
    assert shares[..|shares|] == shares;
    return Ok(list);
  }

  // Distinct names resolve to distinct users and groups, so no saved row overwrites another.
  lemma EntriesAreDistinct(db: Db, users: seq<UserPermission>, groups: seq<GroupPermission>, request: PermissionsUpdate)
    requires CheckUpdate(db, request).Ok?
    requires UserEntries(db, users, request.sharedToUsers) && GroupEntries(db, groups, request.sharedToGroups)
    ensures forall i, j :: 0 <= i < j < |users| ==> users[i].user != users[j].user
    ensures forall i, j :: 0 <= i < j < |groups| ==> groups[i].group.id != groups[j].group.id
  {
  }

  // --- saving the lists -----------------------------------------------------------------------------------

  // `noteRepository.save(note)`: the note's permission rows become its lists, saved one by one.
  function SavedGrants<T(==)>(grants: map<(NoteId, T), bool>, n: NoteId, list: seq<(T, bool)>): map<(NoteId, T), bool> {
    if |list| == 0 then map k | k in grants && k.0 != n :: grants[k]
    else
      var last := list[|list| - 1];
      SavedGrants(grants, n, list[..|list| - 1])[(n, last.0) := last.1]
  }

  function UserRows(list: seq<UserPermission>): (rows: seq<(UserId, bool)>)
    ensures |rows| == |list|
    ensures forall i | 0 <= i < |list| :: rows[i] == (list[i].user, list[i].canEdit)
  {
    seq(|list|, i requires 0 <= i < |list| => (list[i].user, list[i].canEdit))
  }

  function GroupRows(list: seq<GroupPermission>): (rows: seq<(GroupId, bool)>)
    ensures |rows| == |list|
    ensures forall i | 0 <= i < |list| :: rows[i] == (list[i].group.id, list[i].canEdit)
  {
    seq(|list|, i requires 0 <= i < |list| => (list[i].group.id, list[i].canEdit))
  }

  // Every row of the list stands for the share at its place.
  predicate Resolved<T(==)>(names: map<T, string>, list: seq<(T, bool)>, shares: seq<Share>) {
    && |list| == |shares|
    && forall i | 0 <= i < |list| ::
         list[i].0 in names && names[list[i].0] == shares[i].name && list[i].1 == shares[i].canEdit
  }

  ghost predicate Injective<T(!new)>(names: map<T, string>) {
    forall s, t :: s in names && t in names && names[s] == names[t] ==> s == t
  }

  predicate Holds<T(==)>(list: seq<(T, bool)>, t: T) {
    (t, true) in list || (t, false) in list
  }

  lemma {:induction false} AboutSaved<T>(grants: map<(NoteId, T), bool>, n: NoteId, list: seq<(T, bool)>,
                                         k: (NoteId, T))
    ensures k in SavedGrants(grants, n, list) <==> if k.0 == n then Holds(list, k.1) else k in grants
    ensures k.0 != n && k in grants ==> SavedGrants(grants, n, list)[k] == grants[k]
    ensures k.0 == n && Holds(list, k.1) ==> (k.1, SavedGrants(grants, n, list)[k]) in list
  {
    if |list| > 0 {
      var init, last := list[..|list| - 1], list[|list| - 1];
      AboutSaved(grants, n, init, k);
      assert list == init + [last];
      assert last == if last.1 then (last.0, true) else (last.0, false);
    }
  }

  lemma RowRequested<T(!new)>(names: map<T, string>, list: seq<(T, bool)>, shares: seq<Share>, t: T)
    requires Injective(names) && Resolved(names, list, shares) && Distinct(NamesOf(shares))
    ensures Holds(list, t) <==> t in names && Names(shares, names[t])
    ensures forall e :: (t, e) in list ==> EditFor(shares, names[t]) == Some(e)
  {
    if t in names {
      EditForMeans(shares, names[t]);
      if i :| 0 <= i < |shares| && shares[i].name == names[t] {
        OneShareDecides(shares, i);
        assert list[i] == (t, shares[i].canEdit);
        assert list[i] in list;
      }
    }
    forall e | (t, e) in list ensures EditFor(shares, names[t]) == Some(e) {
      var i :| 0 <= i < |list| && list[i] == (t, e);
      OneShareDecides(shares, i);
    }
  }

  // Names identify their holders, so saving the resolved list stores exactly what the shares say of
  // each name.
  lemma SavedIsRequested<T(!new)>(grants: map<(NoteId, T), bool>, names: map<T, string>, n: NoteId,
                                  list: seq<(T, bool)>, shares: seq<Share>)
    requires Injective(names) && Resolved(names, list, shares) && Distinct(NamesOf(shares))
    ensures SavedGrants(grants, n, list) == NewGrants(grants, names, n, shares)
  {
    var saved, wanted := SavedGrants(grants, n, list), NewGrants(grants, names, n, shares);
    forall k: (NoteId, T)
      ensures k in saved <==> k in wanted
      ensures k in saved ==> saved[k] == wanted[k]
    {
      AboutSaved(grants, n, list, k);
      RowRequested(names, list, shares, k.1);
      NewGrantsAt(grants, names, n, shares, k);
    }
    assert saved == wanted;
  }

  lemma NewGrantsAt<T>(grants: map<(NoteId, T), bool>, names: map<T, string>, n: NoteId, shares: seq<Share>,
                       k: (NoteId, T))
    ensures k in NewGrants(grants, names, n, shares) <==> WantsRow(grants, names, n, shares, k)
    ensures WantsRow(grants, names, n, shares, k) ==>
              NewGrants(grants, names, n, shares)[k]
              == if k.0 == n then EditFor(shares, names[k.1]).value else grants[k]
  {
  }

  lemma UserEntriesResolved(db: Db, list: seq<UserPermission>, shares: seq<Share>)
    requires UserEntries(db, list, shares)
    ensures Resolved(UserNames(db), UserRows(list), shares)
  {
  }

  lemma GroupEntriesResolved(db: Db, list: seq<GroupPermission>, shares: seq<Share>)
    requires GroupEntries(db, list, shares)
    ensures Resolved(GroupNames(db), GroupRows(list), shares)
  {
  }

  lemma NamesAreInjective(db: Db)
    requires UniqueColumns(db)
    ensures Injective(UserNames(db)) && Injective(GroupNames(db))
  {
  }

  lemma SavedNoteIsTheStep(db: Db, n: NoteId, request: PermissionsUpdate,
                           users: seq<UserPermission>, groups: seq<GroupPermission>)
    requires UniqueColumns(db)
    requires Distinct(NamesOf(request.sharedToUsers)) && Distinct(NamesOf(request.sharedToGroups))
    requires UserEntries(db, users, request.sharedToUsers) && GroupEntries(db, groups, request.sharedToGroups)
    ensures SavedGrants(db.userGrants, n, UserRows(users))
            == NewGrants(db.userGrants, UserNames(db), n, request.sharedToUsers)
    ensures SavedGrants(db.groupGrants, n, GroupRows(groups))
            == NewGrants(db.groupGrants, GroupNames(db), n, request.sharedToGroups)
  {
    NamesAreInjective(db);
    UserEntriesResolved(db, users, request.sharedToUsers);
    GroupEntriesResolved(db, groups, request.sharedToGroups);
    SavedIsRequested(db.userGrants, UserNames(db), n, UserRows(users), request.sharedToUsers);
    SavedIsRequested(db.groupGrants, GroupNames(db), n, GroupRows(groups), request.sharedToGroups);
  }

  method SavePermissions(store: Store, note: NoteView)
    modifies store`userGrants, store`groupGrants
    ensures store.userGrants == SavedGrants(old(store.userGrants), note.id, UserRows(note.userPermissions))
    ensures store.groupGrants == SavedGrants(old(store.groupGrants), note.id, GroupRows(note.groupPermissions))
  {
    store.userGrants := SavedGrants(store.userGrants, note.id, UserRows(note.userPermissions));
    store.groupGrants := SavedGrants(store.groupGrants, note.id, GroupRows(note.groupPermissions));
  }

  // `updateNotePermissions`. Both lists are built before anything is saved, so a failure leaves the
  // store alone; the note returned holds the request's entries in the request's order.
  method UpdateNotePermissions(store: Store, n: NoteId, request: PermissionsUpdate) returns (r: Result<NoteView>)
    requires Consistent(store.State()) && n in store.notes
    modifies store`userGrants, store`groupGrants
    ensures var step := UpdatePermissionsStep(old(store.State()), n, request);
            && store.State() == step.db
            && r.Ok? == step.result.Ok?
            && (r.Err? ==> r.error == step.result.error)
    ensures r.Ok? ==> && r.value.id == n && r.value.owner == store.notes[n].owner
                      && UserEntries(store.State(), r.value.userPermissions, request.sharedToUsers)
                      && GroupEntries(store.State(), r.value.groupPermissions, request.sharedToGroups)
  {
    ghost var db := store.State();
    var users := NamesOf(request.sharedToUsers);
    var groups := NamesOf(request.sharedToGroups);
    DuplicatesFound(users);
    DuplicatesFound(groups);
    if CheckArrayForDuplicates(users) || CheckArrayForDuplicates(groups) {
      assert CheckUpdate(db, request) == Err(PermissionsUpdateInconsistent);
      return Err(PermissionsUpdateInconsistent);
    }
    var userPermissions := ResolveUsers(store, request.sharedToUsers);
    if userPermissions.Err? {
      assert CheckUpdate(db, request) == Err(NotInDB);
      return Err(userPermissions.error);
    }
    var groupPermissions := ResolveGroups(store, request.sharedToGroups);
    if groupPermissions.Err? {
      assert CheckUpdate(db, request) == Err(NotInDB);
      return Err(groupPermissions.error);
    }
    assert CheckUpdate(db, request) == Ok(());
    SavedNoteIsTheStep(db, n, request, userPermissions.value, groupPermissions.value);
    var note := NoteView(n, store.notes[n].owner, userPermissions.value, groupPermissions.value);
    SavePermissions(store, note);
    return Ok(note);
  }

  // --- what the update means ------------------------------------------------------------------------------

  // The request lets the user in: by name, or through a group it names.
  ghost predicate RequestGrants(db: Db, guest: GuestPermission, user: Option<UserId>, request: PermissionsUpdate,
                                wantEdit: bool) {
    || (user.Some? && user.value in db.users
        && exists share :: share in request.sharedToUsers && share.name == db.users[user.value].userName
                           && (wantEdit ==> share.canEdit))
    || (exists share, g :: ShareGrants(db, guest, user, request, share, g, wantEdit))
  }

  // The share names the group, and the group lets the user in.
  predicate ShareGrants(db: Db, guest: GuestPermission, user: Option<UserId>, request: PermissionsUpdate,
                        share: Share, g: GroupId, wantEdit: bool) {
    && share in request.sharedToGroups && g in db.groups && share.name == db.groups[g].name
    && (wantEdit ==> share.canEdit)
    && if db.groups[g].special then
         || share.name == "loggedIn"
         || (share.name == "everybody" && (guest in {Write, Create, CreateAlias} || (guest == Read && !wantEdit)))
       else user.Some? && user.value in db.groups[g].members
  }

  lemma ShareDecides(shares: seq<Share>, name: string, wantEdit: bool)
    requires Distinct(NamesOf(shares))
    ensures (exists share :: share in shares && share.name == name && Suffices(share.canEdit, wantEdit))
            <==> EditFor(shares, name).Some? && Suffices(EditFor(shares, name).value, wantEdit)
  {
    EditForMeans(shares, name);
    if share :| share in shares && share.name == name && Suffices(share.canEdit, wantEdit) {
      var i :| 0 <= i < |shares| && shares[i] == share;
      OneShareDecides(shares, i);
    }
    if EditFor(shares, name).Some? && Suffices(EditFor(shares, name).value, wantEdit) {
      assert Share(name, EditFor(shares, name).value) in shares;
    }
  }

  // After a successful update anyone but the owner may read or write exactly what the request
  // grants, to them or to a group; nothing of the old lists survives.
  lemma AccessAfterUpdate(db: Db, guest: GuestPermission, user: Option<UserId>, n: NoteId,
                          request: PermissionsUpdate, wantEdit: bool)
    requires Consistent(db) && n in db.notes
    requires UpdatePermissionsStep(db, n, request).result.Ok?
    requires user.Some? ==> user.value in db.users
    requires user.None? || db.notes[n].owner != user
    ensures MayAccess(UpdatePermissionsStep(db, n, request).db, guest, user, n, wantEdit)
            <==> RequestGrants(db, guest, user, request, wantEdit)
  {
    if user.Some? {
      UserRowAfterUpdate(db, user.value, n, request, wantEdit);
    }
    GroupRowsAfterUpdate(db, guest, user, n, request, wantEdit);
  }

  lemma GroupRowsAfterUpdate(db: Db, guest: GuestPermission, user: Option<UserId>, n: NoteId,
                             request: PermissionsUpdate, wantEdit: bool)
    requires UpdatePermissionsStep(db, n, request).result.Ok?
    ensures (exists g :: GroupRowGrants(UpdatePermissionsStep(db, n, request).db, guest, user, n, g, wantEdit))
            <==> exists share, g :: ShareGrants(db, guest, user, request, share, g, wantEdit)
  {
    var after := UpdatePermissionsStep(db, n, request).db;
    if g: GroupId :| GroupRowGrants(after, guest, user, n, g, wantEdit) {
      GroupRowAfterUpdate(db, guest, user, n, request, g, wantEdit);
    }
    if share, g :| ShareGrants(db, guest, user, request, share, g, wantEdit) {
      GroupRowAfterUpdate(db, guest, user, n, request, g, wantEdit);
      assert GroupRowGrants(after, guest, user, n, g, wantEdit);
    }
  }

  lemma UserRowAfterUpdate(db: Db, u: UserId, n: NoteId, request: PermissionsUpdate, wantEdit: bool)
    requires UpdatePermissionsStep(db, n, request).result.Ok? && u in db.users
    ensures var grants := UpdatePermissionsStep(db, n, request).db.userGrants;
            (n, u) in grants && Suffices(grants[(n, u)], wantEdit)
            <==> exists share :: share in request.sharedToUsers && share.name == db.users[u].userName
                                 && Suffices(share.canEdit, wantEdit)
  {
    ShareDecides(request.sharedToUsers, db.users[u].userName, wantEdit);
    NewGrantsAt(db.userGrants, UserNames(db), n, request.sharedToUsers, (n, u));
  }

  lemma GroupRowAfterUpdate(db: Db, guest: GuestPermission, user: Option<UserId>, n: NoteId,
                            request: PermissionsUpdate, g: GroupId, wantEdit: bool)
    requires UpdatePermissionsStep(db, n, request).result.Ok?
    ensures GroupRowGrants(UpdatePermissionsStep(db, n, request).db, guest, user, n, g, wantEdit)
            <==> exists share :: ShareGrants(db, guest, user, request, share, g, wantEdit)
  {
    var shares := request.sharedToGroups;
    NewGrantsAt(db.groupGrants, GroupNames(db), n, shares, (n, g));
    if g in db.groups {
      ShareDecides(shares, db.groups[g].name, wantEdit);
      if share :| share in shares && share.name == db.groups[g].name && Suffices(share.canEdit, wantEdit)
                  && GroupApplies(guest, user, share.name, db.groups[g].special, db.groups[g].members, wantEdit) {
        assert ShareGrants(db, guest, user, request, share, g, wantEdit);
      }
    }
  }

  // --- the answer -------------------------------------------------------------------------------------------

  datatype PermissionsDto = PermissionsDto(owner: Option<string>, sharedToUsers: seq<Share>, sharedToGroups: seq<Share>)

  // `toNotePermissionsDto`, each user and group by name.
  function ToNotePermissionsDto(db: Db, note: NoteView): PermissionsDto
    requires forall p | p in note.userPermissions :: p.user in db.users
    requires note.owner.Some? ==> note.owner.value in db.users
  {
    PermissionsDto(
      if note.owner.Some? then Some(db.users[note.owner.value].userName) else None,
      seq(|note.userPermissions|, i requires 0 <= i < |note.userPermissions| =>
        assert note.userPermissions[i] in note.userPermissions;
        Share(db.users[note.userPermissions[i].user].userName, note.userPermissions[i].canEdit)),
      seq(|note.groupPermissions|, i requires 0 <= i < |note.groupPermissions| =>
        Share(note.groupPermissions[i].group.name, note.groupPermissions[i].canEdit)))
  }

  // The answer to a successful update lists the request itself, in order.
  lemma DtoIsTheRequest(db: Db, note: NoteView, request: PermissionsUpdate)
    requires UserEntries(db, note.userPermissions, request.sharedToUsers)
    requires GroupEntries(db, note.groupPermissions, request.sharedToGroups)
    requires note.owner.Some? ==> note.owner.value in db.users
    ensures forall p | p in note.userPermissions :: p.user in db.users
    ensures ToNotePermissionsDto(db, note).sharedToUsers == request.sharedToUsers
    ensures ToNotePermissionsDto(db, note).sharedToGroups == request.sharedToGroups
  {
  }

  lemma UpdatePermissionsKeeps(db: Db, n: NoteId, request: PermissionsUpdate)
    requires Consistent(db) && n in db.notes
    ensures Consistent(UpdatePermissionsStep(db, n, request).db)
  {
  }
}
