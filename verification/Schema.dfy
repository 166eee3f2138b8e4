/** The relational store: the entities with their keys, the declared foreign keys and `onDelete` rules,
    and what the database does when a row is removed. */
module Schema {
  import opened Common

  type UserId = string
  type GroupId = nat
  type NoteId = string
  type RevisionId = nat
  type KeyId = string
  type FileName = string

  datatype User = User(userName: string, displayName: string)

  datatype Group = Group(name: string, special: bool, members: set<UserId>)

  datatype Note = Note(publicId: string, alias: Option<string>, owner: Option<UserId>)

  datatype Revision = Revision(note: NoteId, content: string, createdAt: int)

  datatype HistoryEntry = HistoryEntry(pinStatus: bool, updatedAt: int)

  // What bcrypt stores: a salt and what it kept of the text.
  datatype PasswordHash = PasswordHash(salt: nat, kept: string)

  datatype AuthToken = AuthToken(user: UserId, tokenLabel: string, createdAt: int,
                                 accessTokenHash: PasswordHash, validUntil: int, lastUsed: Option<int>)

  datatype MediaUpload = MediaUpload(user: UserId, note: Option<NoteId>)

  // Every table, keyed by its primary key; tokens are keyed by their unique `keyId`. `nextRevision`
  // is the generator of revision ids; an author row is the user it corresponds to, if any.
  datatype Db = Db(
    users: map<UserId, User>,
    groups: map<GroupId, Group>,
    notes: map<NoteId, Note>,
    userGrants: map<(NoteId, UserId), bool>,
    groupGrants: map<(NoteId, GroupId), bool>,
    revisions: map<RevisionId, Revision>,
    nextRevision: RevisionId,
    history: map<(UserId, NoteId), HistoryEntry>,
    tokens: map<KeyId, AuthToken>,
    uploads: map<FileName, MediaUpload>,
    authors: map<nat, Option<UserId>>)

  const NO_ROWS := Db(map[], map[], map[], map[], map[], map[], 0, map[], map[], map[], map[])

  // The state after an operation and what it answered.
  datatype Step<+T> = Step(db: Db, result: Result<T>)

  /** The store the services share. */
  class Store {
    var users: map<UserId, User>
    var groups: map<GroupId, Group>
    var notes: map<NoteId, Note>
    var userGrants: map<(NoteId, UserId), bool>
    var groupGrants: map<(NoteId, GroupId), bool>
    var revisions: map<RevisionId, Revision>
    var nextRevision: RevisionId
    var history: map<(UserId, NoteId), HistoryEntry>
    var tokens: map<KeyId, AuthToken>
    var uploads: map<FileName, MediaUpload>
    var authors: map<nat, Option<UserId>>

    function State(): Db
      reads this
    {
      Db(users, groups, notes, userGrants, groupGrants, revisions, nextRevision, history, tokens,
         uploads, authors)
    }

    // `noteRepository.remove(note)`.
    method RemoveNote(n: NoteId) returns (r: Result<()>)
      requires n in notes
      modifies this
      ensures r == if NoteRemovable(old(State()), n) then Ok(()) else Err(QueryFailed)
      ensures State() == if r.Ok? then WithoutNote(old(State()), n) else old(State())
    {
      if exists f :: f in uploads && uploads[f].note == Some(n) {
        return Err(QueryFailed);
      }
      Cascade({}, {n});
      return Ok(());
    }

    // `userRepository.remove(user)`.
    method RemoveUser(u: UserId) returns (r: Result<()>)
      requires u in users
      modifies this
      ensures r == if UserRemovable(old(State()), u) then Ok(()) else Err(QueryFailed)
      ensures State() == if r.Ok? then WithoutUser(old(State()), u) else old(State())
    {
      var owned := set n | n in notes && notes[n].owner == Some(u);
      if || (exists a :: a in authors && authors[a] == Some(u))
         || (exists f :: f in uploads
                      && (uploads[f].user == u || (uploads[f].note.Some? && uploads[f].note.value in owned))) {
        return Err(QueryFailed);
      }
      assert owned == Owned(State(), u);
      Cascade({u}, owned);
      return Ok(());
    }

    // The `ON DELETE CASCADE` of the removed users and notes, table by table.
    method Cascade(us: set<UserId>, ns: set<NoteId>)
      modifies this
      ensures State() == Without(old(State()), us, ns)
    {
      var db := Without(State(), us, ns);
      users, groups, notes := db.users, db.groups, db.notes;
      userGrants, groupGrants := db.userGrants, db.groupGrants;
      revisions, history, tokens := db.revisions, db.history, db.tokens;
    }
  }

  // --- removal -----------------------------------------------------------------------------------------

  // The store without some users and notes and without the rows that go with them.
  function Without(db: Db, us: set<UserId>, ns: set<NoteId>): Db {
    db.(
    users := db.users - us,
    groups := map g | g in db.groups :: db.groups[g].(members := db.groups[g].members - us),
    notes := db.notes - ns,
    userGrants := map k | k in db.userGrants && k.0 !in ns && k.1 !in us :: db.userGrants[k],
    groupGrants := map k | k in db.groupGrants && k.0 !in ns :: db.groupGrants[k],
    revisions := map r | r in db.revisions && db.revisions[r].note !in ns :: db.revisions[r],
    history := map k | k in db.history && k.0 !in us && k.1 !in ns :: db.history[k],
    tokens := map k | k in db.tokens && db.tokens[k].user !in us :: db.tokens[k])
  }

  function Owned(db: Db, u: UserId): set<NoteId> {
    set n | n in db.notes && db.notes[n].owner == Some(u)
  }

  function WithoutNote(db: Db, n: NoteId): Db {
    Without(db, {}, {n})
  }

  function WithoutUser(db: Db, u: UserId): Db {
    Without(db, {u}, Owned(db, u))
  }

  // Uploads reference notes and users without a delete rule, so they hold a removal up; so do authors.
  predicate NoteRemovable(db: Db, n: NoteId) {
    forall f :: f in db.uploads ==> db.uploads[f].note != Some(n)
  }

  predicate UserRemovable(db: Db, u: UserId) {
    && (forall a :: a in db.authors ==> db.authors[a] != Some(u))
    && (forall f :: f in db.uploads ==>
          && db.uploads[f].user != u
          && (db.uploads[f].note.Some? ==> db.uploads[f].note.value !in Owned(db, u)))
  }

  // --- referential integrity ---------------------------------------------------------------------------

  ghost predicate OwnersLinked(notes: map<NoteId, Note>, users: map<UserId, User>) {
    forall n :: n in notes && notes[n].owner.Some? ==> notes[n].owner.value in users
  }

  ghost predicate MembersLinked(groups: map<GroupId, Group>, users: map<UserId, User>) {
    forall g :: g in groups ==> groups[g].members <= users.Keys
  }

  ghost predicate UserGrantsLinked(grants: map<(NoteId, UserId), bool>, notes: map<NoteId, Note>,
                                   users: map<UserId, User>) {
    forall k :: k in grants ==> k.0 in notes && k.1 in users
  }

  ghost predicate GroupGrantsLinked(grants: map<(NoteId, GroupId), bool>, notes: map<NoteId, Note>,
                                    groups: map<GroupId, Group>) {
    forall k :: k in grants ==> k.0 in notes && k.1 in groups
  }

  ghost predicate RevisionsLinked(revisions: map<RevisionId, Revision>, notes: map<NoteId, Note>) {
    forall r :: r in revisions ==> revisions[r].note in notes
  }

  ghost predicate HistoryLinked(history: map<(UserId, NoteId), HistoryEntry>, users: map<UserId, User>,
                                notes: map<NoteId, Note>) {
    forall k :: k in history ==> k.0 in users && k.1 in notes
  }

  ghost predicate TokensLinked(tokens: map<KeyId, AuthToken>, users: map<UserId, User>) {
    forall k :: k in tokens ==> tokens[k].user in users
  }

  ghost predicate UploadsLinked(uploads: map<FileName, MediaUpload>, users: map<UserId, User>,
                                notes: map<NoteId, Note>) {
    forall f :: f in uploads ==>
      && uploads[f].user in users
      && (uploads[f].note.Some? ==> uploads[f].note.value in notes)
  }

  ghost predicate AuthorsLinked(authors: map<nat, Option<UserId>>, users: map<UserId, User>) {
    forall a :: a in authors && authors[a].Some? ==> authors[a].value in users
  }

  // No row references a row that is not there.
  ghost predicate Linked(db: Db) {
    && OwnersLinked(db.notes, db.users)
    && MembersLinked(db.groups, db.users)
    && UserGrantsLinked(db.userGrants, db.notes, db.users)
    && GroupGrantsLinked(db.groupGrants, db.notes, db.groups)
    && RevisionsLinked(db.revisions, db.notes)
    && HistoryLinked(db.history, db.users, db.notes)
    && TokensLinked(db.tokens, db.users)
    && UploadsLinked(db.uploads, db.users, db.notes)
    && AuthorsLinked(db.authors, db.users)
  }

  ghost predicate UniqueNames(users: map<UserId, User>) {
    forall u, v :: u in users && v in users && users[u].userName == users[v].userName ==> u == v
  }

  ghost predicate UniqueGroupNames(groups: map<GroupId, Group>) {
    forall g, h :: g in groups && h in groups && groups[g].name == groups[h].name ==> g == h
  }

  // Null aliases do not clash.
  predicate SameAlias(a: Note, b: Note) {
    a.alias.Some? && a.alias == b.alias
  }

  ghost predicate UniqueAliases(notes: map<NoteId, Note>) {
    forall n, m :: n in notes && m in notes && SameAlias(notes[n], notes[m]) ==> n == m
  }

  predicate SameHash(a: AuthToken, b: AuthToken) {
    a.accessTokenHash == b.accessTokenHash
  }

  ghost predicate UniqueHashes(tokens: map<KeyId, AuthToken>) {
    forall k, l :: k in tokens && l in tokens && SameHash(tokens[k], tokens[l]) ==> k == l
  }

  // The unique columns besides the keys of the tables.
  ghost predicate UniqueColumns(db: Db) {
    && UniqueNames(db.users)
    && UniqueGroupNames(db.groups)
    && UniqueAliases(db.notes)
    && UniqueHashes(db.tokens)
  }

  // What the database itself enforces.
  ghost predicate Consistent(db: Db) {
    Linked(db) && UniqueColumns(db)
  }

  // --- the declared foreign keys, one row at a time --------------------------------------------------

  datatype Row =
    | UserRow(user: UserId)
    | GroupRow(group: GroupId)
    | MemberRow(group: GroupId, user: UserId)
    | NoteRow(note: NoteId)
    | UserGrantRow(note: NoteId, user: UserId)
    | GroupGrantRow(note: NoteId, group: GroupId)
    | RevisionRow(revision: RevisionId)
    | HistoryRow(user: UserId, note: NoteId)
    | TokenRow(key: KeyId)
    | UploadRow(file: FileName)
    | AuthorRow(author: nat)

  predicate Present(db: Db, row: Row) {
    match row
    case UserRow(u) => u in db.users
    case GroupRow(g) => g in db.groups
    case MemberRow(g, u) => g in db.groups && u in db.groups[g].members
    case NoteRow(n) => n in db.notes
    case UserGrantRow(n, u) => (n, u) in db.userGrants
    case GroupGrantRow(n, g) => (n, g) in db.groupGrants
    case RevisionRow(r) => r in db.revisions
    case HistoryRow(u, n) => (u, n) in db.history
    case TokenRow(k) => k in db.tokens
    case UploadRow(f) => f in db.uploads
    case AuthorRow(a) => a in db.authors
  }

  datatype OnDelete = CASCADE | NO_ACTION

  // The row `child` references the row `parent` through a foreign key with this delete rule.
  predicate References(db: Db, child: Row, parent: Row, rule: OnDelete) {
    && Present(db, child)
    && match child
       case UserRow(_) => false
       case GroupRow(_) => false
       case MemberRow(g, u) => rule == CASCADE && (parent == GroupRow(g) || parent == UserRow(u))
       case NoteRow(n) => rule == CASCADE && db.notes[n].owner.Some? && parent == UserRow(db.notes[n].owner.value)
       case UserGrantRow(n, u) => rule == CASCADE && (parent == NoteRow(n) || parent == UserRow(u))
       case GroupGrantRow(n, g) => rule == CASCADE && (parent == NoteRow(n) || parent == GroupRow(g))
       case RevisionRow(r) => rule == CASCADE && parent == NoteRow(db.revisions[r].note)
       case HistoryRow(u, n) => rule == CASCADE && (parent == UserRow(u) || parent == NoteRow(n))
       case TokenRow(k) => rule == CASCADE && parent == UserRow(db.tokens[k].user)
       case UploadRow(f) =>
         && rule == NO_ACTION
         && (|| parent == UserRow(db.uploads[f].user)
             || (db.uploads[f].note.Some? && parent == NoteRow(db.uploads[f].note.value)))
       case AuthorRow(a) => rule == NO_ACTION && db.authors[a].Some? && parent == UserRow(db.authors[a].value)
  }

  // A chain of cascading references from a row down to another.
  ghost predicate CascadeChain(db: Db, root: Row, path: seq<Row>) {
    && |path| >= 1
    && path[0] == root
    && Present(db, root)
    && forall i :: 0 < i < |path| ==> References(db, path[i], path[i - 1], CASCADE)
  }

  // The rows the database removes along with a row.
  ghost predicate Doomed(db: Db, root: Row, row: Row) {
    exists path :: CascadeChain(db, root, path) && path[|path| - 1] == row
  }

  ghost predicate HoldsUp(db: Db, root: Row, child: Row, parent: Row) {
    References(db, child, parent, NO_ACTION) && Doomed(db, root, parent)
  }

  lemma ExtendChain(db: Db, root: Row, parent: Row, child: Row)
    requires Doomed(db, root, parent) && References(db, child, parent, CASCADE)
    ensures Doomed(db, root, child)
  {
    var path :| CascadeChain(db, root, path) && path[|path| - 1] == parent;
    var longer := path + [child];
    assert longer[|longer| - 1] == child;
    assert CascadeChain(db, root, longer);
  }

  lemma ChainOfOne(db: Db, root: Row)
    requires Present(db, root)
    ensures Doomed(db, root, root)
  {
    var path := [root];
    assert CascadeChain(db, root, path) && path[|path| - 1] == root;
  }

  ghost predicate TakesOwnedNotes(db: Db, us: set<UserId>, ns: set<NoteId>) {
    forall n :: n in db.notes && db.notes[n].owner.Some? && db.notes[n].owner.value in us ==> n in ns
  }

  predicate Gone(db: Db, us: set<UserId>, ns: set<NoteId>, row: Row) {
    Present(db, row) && !Present(Without(db, us, ns), row)
  }

  lemma ReferenceIsGone(db: Db, us: set<UserId>, ns: set<NoteId>, child: Row, parent: Row)
    requires TakesOwnedNotes(db, us, ns)
    requires References(db, child, parent, CASCADE) && Gone(db, us, ns, parent)
    ensures Gone(db, us, ns, child)
  {
  }

  // Every row on a cascade from a removed user or note is gone: the removal is closed under cascades.
  lemma {:induction false} ChainIsGone(db: Db, us: set<UserId>, ns: set<NoteId>, path: seq<Row>)
    requires |path| >= 1 && CascadeChain(db, path[0], path)
    requires TakesOwnedNotes(db, us, ns) && Gone(db, us, ns, path[0])
    ensures Gone(db, us, ns, path[|path| - 1])
  {
    if |path| > 1 {
      var init := path[..|path| - 1];
      assert forall i :: 0 < i < |init| ==> References(db, init[i], init[i - 1], CASCADE);
      ChainIsGone(db, us, ns, init);
      ReferenceIsGone(db, us, ns, path[|path| - 1], init[|init| - 1]);
    }
  }

  // Uploads neither go with a removal nor decide what goes.
  lemma UploadsApart(db: Db, uploads: map<FileName, MediaUpload>, ns: set<NoteId>)
    ensures Without(db.(uploads := uploads), {}, ns).(uploads := db.uploads) == Without(db, {}, ns)
  {
  }

  // Removing a user takes exactly the rows the declared cascades reach from it.
  lemma UserRemovalIsTheCascade(db: Db, u: UserId, row: Row)
    requires u in db.users
    ensures Doomed(db, UserRow(u), row) <==> Present(db, row) && !Present(WithoutUser(db, u), row)
  {
    var root := UserRow(u);
    if Doomed(db, root, row) {
      var path :| CascadeChain(db, root, path) && path[|path| - 1] == row;
      ChainIsGone(db, {u}, Owned(db, u), path);
    }
    if Present(db, row) && !Present(WithoutUser(db, u), row) {
      ChainOfOne(db, root);
      if References(db, row, root, CASCADE) {
        ExtendChain(db, root, root, row);
      } else if row != root {
        var n := match row
          case RevisionRow(r) => db.revisions[r].note
          case HistoryRow(_, m) => m
          case UserGrantRow(m, _) => m
          case GroupGrantRow(m, _) => m
          case _ => "";
        assert n in Owned(db, u);
        ExtendChain(db, root, root, NoteRow(n));
        ExtendChain(db, root, NoteRow(n), row);
      }
    }
  }

  // And so does removing a note.
  lemma NoteRemovalIsTheCascade(db: Db, n: NoteId, row: Row)
    requires n in db.notes
    ensures Doomed(db, NoteRow(n), row) <==> Present(db, row) && !Present(WithoutNote(db, n), row)
  {
    var root := NoteRow(n);
    if Doomed(db, root, row) {
      var path :| CascadeChain(db, root, path) && path[|path| - 1] == row;
      ChainIsGone(db, {}, {n}, path);
    }
    if Present(db, row) && !Present(WithoutNote(db, n), row) {
      ChainOfOne(db, root);
      if row != root {
        ExtendChain(db, root, root, row);
      }
    }
  }

  // A removal goes through exactly when no reference without a delete rule points into the cascade.
  lemma UserRemovableMeans(db: Db, u: UserId)
    requires u in db.users
    ensures UserRemovable(db, u) <==> !exists child, parent :: HoldsUp(db, UserRow(u), child, parent)
  {
    var root := UserRow(u);
    ChainOfOne(db, root);
    if UserRemovable(db, u) {
      forall child, parent | References(db, child, parent, NO_ACTION)
        ensures !HoldsUp(db, root, child, parent)
      {
        UserRemovalIsTheCascade(db, u, parent);
      }
    } else if exists a :: a in db.authors && db.authors[a] == Some(u) {
      var a :| a in db.authors && db.authors[a] == Some(u);
      assert HoldsUp(db, root, AuthorRow(a), root);
    } else {
      var f :| f in db.uploads
        && (db.uploads[f].user == u || (db.uploads[f].note.Some? && db.uploads[f].note.value in Owned(db, u)));
      if db.uploads[f].user == u {
        assert HoldsUp(db, root, UploadRow(f), root);
      } else {
        var n := db.uploads[f].note.value;
        ExtendChain(db, root, root, NoteRow(n));
        assert HoldsUp(db, root, UploadRow(f), NoteRow(n));
      }
    }
  }

  lemma NoteRemovableMeans(db: Db, n: NoteId)
    requires n in db.notes
    ensures NoteRemovable(db, n) <==> !exists child, parent :: HoldsUp(db, NoteRow(n), child, parent)
  {
    var root := NoteRow(n);
    ChainOfOne(db, root);
    if NoteRemovable(db, n) {
      forall child, parent | References(db, child, parent, NO_ACTION)
        ensures !HoldsUp(db, root, child, parent)
      {
        NoteRemovalIsTheCascade(db, n, parent);
      }
    } else {
      var f :| f in db.uploads && db.uploads[f].note == Some(n);
      assert HoldsUp(db, root, UploadRow(f), root);
    }
  }

  // The rows that stay are as they were, but for the members of groups.
  ghost predicate RowsUnchanged(db: Db, after: Db) {
    && (forall u :: u in after.users ==> u in db.users && after.users[u] == db.users[u])
    && (forall g :: g in after.groups ==> g in db.groups && after.groups[g].name == db.groups[g].name
                                          && after.groups[g].special == db.groups[g].special)
    && (forall n :: n in after.notes ==> n in db.notes && after.notes[n] == db.notes[n])
    && (forall k :: k in after.userGrants ==> k in db.userGrants && after.userGrants[k] == db.userGrants[k])
    && (forall k :: k in after.groupGrants ==> k in db.groupGrants && after.groupGrants[k] == db.groupGrants[k])
    && (forall r :: r in after.revisions ==> r in db.revisions && after.revisions[r] == db.revisions[r])
    && (forall k :: k in after.history ==> k in db.history && after.history[k] == db.history[k])
    && (forall k :: k in after.tokens ==> k in db.tokens && after.tokens[k] == db.tokens[k])
    && (forall a :: a in after.authors ==> a in db.authors && after.authors[a] == db.authors[a])
    && after.nextRevision == db.nextRevision
  }

  // Whatever becomes of the uploads meanwhile.
  lemma RemovalKeepsRows(db: Db, uploads: map<FileName, MediaUpload>, us: set<UserId>, ns: set<NoteId>)
    ensures RowsUnchanged(db, db.(uploads := uploads))
    ensures RowsUnchanged(db, Without(db.(uploads := uploads), us, ns))
    ensures Without(db.(uploads := uploads), us, ns).uploads == uploads
  {
  }

  // Referential integrity is what the foreign keys declare.
  ghost predicate NoDanglingReference(db: Db) {
    forall child, parent, rule :: References(db, child, parent, rule) ==> Present(db, parent)
  }

  lemma Follow(db: Db, child: Row, parent: Row, rule: OnDelete)
    requires NoDanglingReference(db) && References(db, child, parent, rule)
    ensures Present(db, parent)
  {
  }

  lemma LinkedMeans(db: Db)
    ensures Linked(db) <==> NoDanglingReference(db)
  {
    if NoDanglingReference(db) {
      forall n | n in db.notes && db.notes[n].owner.Some? ensures db.notes[n].owner.value in db.users {
        Follow(db, NoteRow(n), UserRow(db.notes[n].owner.value), CASCADE);
      }
      forall g, u | g in db.groups && u in db.groups[g].members ensures u in db.users {
        Follow(db, MemberRow(g, u), UserRow(u), CASCADE);
      }
      forall k | k in db.userGrants ensures k.0 in db.notes && k.1 in db.users {
        Follow(db, UserGrantRow(k.0, k.1), NoteRow(k.0), CASCADE);
        Follow(db, UserGrantRow(k.0, k.1), UserRow(k.1), CASCADE);
      }
      forall k | k in db.groupGrants ensures k.0 in db.notes && k.1 in db.groups {
        Follow(db, GroupGrantRow(k.0, k.1), NoteRow(k.0), CASCADE);
        Follow(db, GroupGrantRow(k.0, k.1), GroupRow(k.1), CASCADE);
      }
      forall r | r in db.revisions ensures db.revisions[r].note in db.notes {
        Follow(db, RevisionRow(r), NoteRow(db.revisions[r].note), CASCADE);
      }
      forall k | k in db.history ensures k.0 in db.users && k.1 in db.notes {
        Follow(db, HistoryRow(k.0, k.1), UserRow(k.0), CASCADE);
        Follow(db, HistoryRow(k.0, k.1), NoteRow(k.1), CASCADE);
      }
      forall k | k in db.tokens ensures db.tokens[k].user in db.users {
        Follow(db, TokenRow(k), UserRow(db.tokens[k].user), CASCADE);
      }
      forall f | f in db.uploads ensures db.uploads[f].user in db.users {
        Follow(db, UploadRow(f), UserRow(db.uploads[f].user), NO_ACTION);
      }
      forall f | f in db.uploads && db.uploads[f].note.Some? ensures db.uploads[f].note.value in db.notes {
        Follow(db, UploadRow(f), NoteRow(db.uploads[f].note.value), NO_ACTION);
      }
      forall a | a in db.authors && db.authors[a].Some? ensures db.authors[a].value in db.users {
        Follow(db, AuthorRow(a), UserRow(db.authors[a].value), NO_ACTION);
      }
    }
  }

  // --- what removal keeps --------------------------------------------------------------------------------

  // A removal that takes the notes of the users it takes, and that no upload or author holds up,
  // leaves no dangling reference and no duplicate key.
  lemma RemovalKeepsConsistent(db: Db, us: set<UserId>, ns: set<NoteId>)
    requires Consistent(db)
    requires TakesOwnedNotes(db, us, ns)
    requires forall a :: a in db.authors && db.authors[a].Some? ==> db.authors[a].value !in us
    requires forall f :: f in db.uploads ==>
               && db.uploads[f].user !in us
               && (db.uploads[f].note.Some? ==> db.uploads[f].note.value !in ns)
    ensures Consistent(Without(db, us, ns))
  {
  }
}
