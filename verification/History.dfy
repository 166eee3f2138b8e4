/** src/history/history.service.ts: a user's list of visited notes, its import and its export. */
module History {
  import opened Common
  import opened Schema
  import opened Notes

  type Entries = map<(UserId, NoteId), HistoryEntry>

  datatype ImportEntry = ImportEntry(note: string, pinStatus: bool, lastVisited: int)

  // --- single entries -------------------------------------------------------------------------------------

  // `updateHistoryEntryTimestamp`: refresh the entry, or create it unpinned.
  function TouchStep(db: Db, u: UserId, n: NoteId, now: int): Db {
    db.(history := db.history[(u, n) := HistoryEntry((u, n) in db.history && db.history[(u, n)].pinStatus, now)])
  }

  method UpdateHistoryEntryTimestamp(store: Store, n: NoteId, u: UserId, now: int)
    requires n in store.notes && u in store.users
    modifies store`history
    ensures store.State() == TouchStep(old(store.State()), u, n, now)
  {
    if (u, n) in store.history {
      store.history := store.history[(u, n) := store.history[(u, n)].(updatedAt := now)];
    } else {
      store.history := store.history[(u, n) := HistoryEntry(false, now)];
    }
  }

  // `updatedAt` is an update-date column: saving a changed row without setting it stamps it with the
  // time of the save, and saving an unchanged row writes nothing.
  function Repinned(entry: HistoryEntry, pinStatus: bool, now: int): HistoryEntry {
    if entry.pinStatus == pinStatus then entry else HistoryEntry(pinStatus, now)
  }

  // `updateHistoryEntry`.
  function PinStep(db: Db, u: UserId, n: NoteId, pinStatus: bool, now: int): Step<()> {
    if (u, n) in db.history then
      Step(db.(history := db.history[(u, n) := Repinned(db.history[(u, n)], pinStatus, now)]), Ok(()))
    else Step(db, Err(NotInDB))
  }

  method UpdateHistoryEntry(store: Store, n: NoteId, u: UserId, pinStatus: bool, now: int) returns (r: Result<()>)
    modifies store`history
    ensures Step(store.State(), r) == PinStep(old(store.State()), u, n, pinStatus, now)
  {
    if (u, n) !in store.history {
      return Err(NotInDB);
    }
    var entry := store.history[(u, n)];
    if entry.pinStatus != pinStatus {
      store.history := store.history[(u, n) := HistoryEntry(pinStatus, now)];
    }
    return Ok(());
  }

  // Opening a note leaves its entry with the time of the visit, pinned if it was before, and no other
  // entry or table changed.
  lemma TouchChanges(db: Db, u: UserId, n: NoteId, now: int)
    ensures var after := TouchStep(db, u, n, now);
            && after == db.(history := after.history)
            && after.history.Keys == db.history.Keys + {(u, n)}
            && (forall k :: k in db.history && k != (u, n) ==> after.history[k] == db.history[k])
            && after.history[(u, n)].updatedAt == now
            && (after.history[(u, n)].pinStatus <==> (u, n) in db.history && db.history[(u, n)].pinStatus)
  {
  }

  // Pinning and deleting need the entry, and touch no other; the pin is as asked for, and the time is
  // that of the save exactly if the pin changed.
  lemma PinChanges(db: Db, u: UserId, n: NoteId, pinStatus: bool, now: int)
    ensures var step := PinStep(db, u, n, pinStatus, now);
            && (step.result.Ok? <==> (u, n) in db.history)
            && (step.result.Err? ==> step == Step(db, Err(NotInDB)))
            && step.db == db.(history := step.db.history)
            && step.db.history.Keys == db.history.Keys
            && (forall k :: k in db.history && k != (u, n) ==> step.db.history[k] == db.history[k])
            && (step.result.Ok? ==>
                  && step.db.history[(u, n)].pinStatus == pinStatus
                  && step.db.history[(u, n)].updatedAt
                     == if pinStatus == db.history[(u, n)].pinStatus then db.history[(u, n)].updatedAt else now)
  {
    if (u, n) in db.history {
      assert PinStep(db, u, n, pinStatus, now).db.history.Keys == db.history.Keys + {(u, n)};
    }
  }

  lemma DeleteEntryChanges(db: Db, u: UserId, n: NoteId)
    ensures var step := DeleteEntryStep(db, u, n);
            && (step.result.Ok? <==> (u, n) in db.history)
            && (step.result.Err? ==> step == Step(db, Err(NotInDB)))
            && step.db == db.(history := step.db.history)
            && step.db.history.Keys == db.history.Keys - {(u, n)}
            && (forall k :: k in step.db.history ==> step.db.history[k] == db.history[k])
  {
  }

  function DeleteEntryStep(db: Db, u: UserId, n: NoteId): Step<()> {
    if (u, n) in db.history then Step(db.(history := db.history - {(u, n)}), Ok(()))
    else Step(db, Err(NotInDB))
  }

  method DeleteHistoryEntry(store: Store, n: NoteId, u: UserId) returns (r: Result<()>)
    modifies store`history
    ensures Step(store.State(), r) == DeleteEntryStep(old(store.State()), u, n)
  {
    if (u, n) !in store.history {
      return Err(NotInDB);
    }
    store.history := store.history - {(u, n)};
    return Ok(());
  }

  // --- all of a user's entries ----------------------------------------------------------------------------

  function EntriesOf(history: Entries, u: UserId): set<(UserId, NoteId)> {
    set k | k in history && k.0 == u
  }

  function OthersOf(history: Entries, u: UserId): Entries {
    map k | k in history && k.0 != u :: history[k]
  }

  method DeleteHistory(store: Store, u: UserId)
    modifies store`history
    ensures store.history == OthersOf(old(store.history), u)
  {
    var history := store.history;
    var entries := Rows(EntriesOf(history, u));
    for i := 0 to |entries|
      invariant store.history == history - Elements(entries[..i])
    {
      NextElement(entries, i);
      RemoveOneEntry(history, Elements(entries[..i]), entries[i]);
      store.history := store.history - {entries[i]};
    }
    assert entries[..|entries|] == entries;
    RemovedAll(history, u);
  }

  lemma RemoveOneEntry(history: Entries, gone: set<(UserId, NoteId)>, k: (UserId, NoteId))
    ensures history - gone - {k} == history - (gone + {k})
  {
  }

  // What is left has no entry of the user, and every other entry as it was.
  lemma ClearedHistory(history: Entries, u: UserId)
    ensures forall k :: k in OthersOf(history, u) <==> k in history && k.0 != u
    ensures forall k :: k in OthersOf(history, u) ==> OthersOf(history, u)[k] == history[k]
  {
  }

  lemma RemovedAll(history: Entries, u: UserId)
    ensures history - EntriesOf(history, u) == OthersOf(history, u)
  {
  }

  // --- import ---------------------------------------------------------------------------------------------

  // `setHistory` looks a note up by its internal id or its alias.
  predicate Resolves(notes: map<NoteId, Note>, noteIdOrAlias: string, n: NoteId) {
    n in notes && (n == noteIdOrAlias || notes[n].alias == Some(noteIdOrAlias))
  }

  predicate Resolvable(notes: map<NoteId, Note>, noteIdOrAlias: string) {
    exists n :: n in notes && Resolves(notes, noteIdOrAlias, n)
  }

  // The first entry that is forbidden or unknown stops the import.
  function CheckImport(notes: map<NoteId, Note>, forbidden: seq<string>, imports: seq<ImportEntry>): Result<()> {
    if |imports| == 0 then Ok(())
    else if CheckNoteIdOrAlias(forbidden, imports[0].note).Err? then Err(ForbiddenId)
    else if !Resolvable(notes, imports[0].note) then Err(NotInDB)
    else CheckImport(notes, forbidden, imports[1..])
  }

  // The notes the look-ups answered with, one per entry.
  predicate Picked(notes: map<NoteId, Note>, imports: seq<ImportEntry>, picks: seq<NoteId>) {
    |picks| == |imports| && forall i | 0 <= i < |picks| :: Resolves(notes, imports[i].note, picks[i])
  }

  // Saving entry after entry under the key (user, note): a later entry updates an earlier one.
  function Saved(history: Entries, u: UserId, imports: seq<ImportEntry>, picks: seq<NoteId>): Entries
    requires |picks| == |imports|
  {
    if |imports| == 0 then history
    else
      var last := |imports| - 1;
      Saved(history, u, imports[..last], picks[..last])
      [(u, picks[last]) := HistoryEntry(imports[last].pinStatus, imports[last].lastVisited)]
  }

  function SetHistoryStep(db: Db, forbidden: seq<string>, u: UserId, imports: seq<ImportEntry>, picks: seq<NoteId>)
    : Step<()>
    requires CheckImport(db.notes, forbidden, imports).Ok? ==> |picks| == |imports|
  {
    var check := CheckImport(db.notes, forbidden, imports);
    Step(if check.Ok? then db.(history := Saved(OthersOf(db.history, u), u, imports, picks)) else db, check)
  }

  // The transaction: all of the user's entries are removed, then the list is saved entry by entry; an
  // entry that is forbidden or unknown rolls everything back.
  method SetHistory(store: Store, forbidden: seq<string>, u: UserId, imports: seq<ImportEntry>)
    returns (r: Result<()>, ghost picks: seq<NoteId>)
    modifies store`history
    ensures r.Ok? ==> Picked(store.notes, imports, picks)
    ensures CheckImport(store.notes, forbidden, imports) == r
    ensures Step(store.State(), r) == SetHistoryStep(old(store.State()), forbidden, u, imports, picks)
  {
    var before := store.history;
    picks := [];
    DeleteHistory(store, u);
    for i := 0 to |imports|
      invariant |picks| == i && Picked(store.notes, imports[..i], picks)
      invariant store.history == Saved(OthersOf(before, u), u, imports[..i], picks)
      invariant CheckImport(store.notes, forbidden, imports) == CheckImport(store.notes, forbidden, imports[i..])
    {
      var entry := imports[i];
      assert imports[i..][0] == entry && imports[i..][1..] == imports[i + 1..];
      var allowed := CheckNoteIdOrAlias(forbidden, entry.note);
      if allowed.Err? {
        store.history := before;
        return Err(allowed.error), picks;
      }
      if n :| n in store.notes && Resolves(store.notes, entry.note, n) {
        store.history := store.history[(u, n) := HistoryEntry(entry.pinStatus, entry.lastVisited)];
        SaveNext(OthersOf(before, u), u, imports[..i], picks, entry, n);
        assert imports[..i + 1] == imports[..i] + [entry];
        picks := picks + [n];
      } else {
        store.history := before;
        return Err(NotInDB), picks;
      }
    }
    assert imports[..|imports|] == imports;
    return Ok(()), picks;
  }

  lemma SaveNext(history: Entries, u: UserId, imports: seq<ImportEntry>, picks: seq<NoteId>, entry: ImportEntry,
                 n: NoteId)
    requires |picks| == |imports|
    ensures Saved(history, u, imports + [entry], picks + [n])
            == Saved(history, u, imports, picks)[(u, n) := HistoryEntry(entry.pinStatus, entry.lastVisited)]
  {
  }

  // The import goes through exactly when every entry is allowed and known.
  lemma {:induction false} CheckImportIff(notes: map<NoteId, Note>, forbidden: seq<string>, imports: seq<ImportEntry>)
    ensures CheckImport(notes, forbidden, imports).Ok?
            <==> forall entry | entry in imports :: entry.note !in forbidden && Resolvable(notes, entry.note)
  {
    if |imports| > 0 {
      CheckImportIff(notes, forbidden, imports[1..]);
      assert imports == [imports[0]] + imports[1..];
    }
  }

  // The last entry that resolved to the note.
  predicate LastFor(picks: seq<NoteId>, n: NoteId, i: int) {
    0 <= i < |picks| && picks[i] == n && forall j | i < j < |picks| :: picks[j] != n
  }

  // After an import the user has exactly one entry per note of the list, with the pin and the time of
  // the last entry resolving to it; everybody else's entries are as before.
  lemma {:induction false} ImportedEntries(history: Entries, u: UserId, imports: seq<ImportEntry>, picks: seq<NoteId>)
    requires |picks| == |imports|
    ensures var after := Saved(OthersOf(history, u), u, imports, picks);
            && (forall n :: (u, n) in after <==> n in picks)
            && (forall n, i :: LastFor(picks, n, i) ==>
                  && (u, n) in after
                  && after[(u, n)] == HistoryEntry(imports[i].pinStatus, imports[i].lastVisited))
            && OthersOf(after, u) == OthersOf(history, u)
  {
    var after := Saved(OthersOf(history, u), u, imports, picks);
    if |imports| > 0 {
      var last := |imports| - 1;
      ImportedEntries(history, u, imports[..last], picks[..last]);
      var before := Saved(OthersOf(history, u), u, imports[..last], picks[..last]);
      assert picks == picks[..last] + [picks[last]];
      forall n, i | LastFor(picks, n, i)
        ensures (u, n) in after && after[(u, n)] == HistoryEntry(imports[i].pinStatus, imports[i].lastVisited)
      {
        if i < last {
          assert LastFor(picks[..last], n, i);
        }
      }
      assert OthersOf(after, u) == OthersOf(before, u);
    }
  }

  // What an import does to the store. If it goes through, the user's entries are for exactly the notes
  // the list led to, each with the pin and the time of the last entry leading there; the entries of
  // others and the other tables are as before. If it does not, everything is as before.
  lemma ImportChanges(db: Db, forbidden: seq<string>, u: UserId, imports: seq<ImportEntry>, picks: seq<NoteId>)
    requires |picks| == |imports|
    ensures var step := SetHistoryStep(db, forbidden, u, imports, picks);
            && (step.result.Err? ==> step.db == db)
            && (step.result.Ok? ==>
                  && step.db == db.(history := step.db.history)
                  && (forall n :: (u, n) in step.db.history <==> n in picks)
                  && (forall n, i :: LastFor(picks, n, i) ==>
                        && (u, n) in step.db.history
                        && step.db.history[(u, n)] == HistoryEntry(imports[i].pinStatus, imports[i].lastVisited))
                  && (forall k: (UserId, NoteId) :: k.0 != u ==> (k in step.db.history <==> k in db.history))
                  && (forall k :: k in db.history && k.0 != u ==> step.db.history[k] == db.history[k]))
  {
    var step := SetHistoryStep(db, forbidden, u, imports, picks);
    if step.result.Ok? {
      ImportedEntries(db.history, u, imports, picks);
      var after := step.db.history;
      forall k: (UserId, NoteId) | k.0 != u
        ensures k in after <==> k in db.history
        ensures k in after ==> after[k] == db.history[k]
      {
        assert k in OthersOf(after, u) <==> k in OthersOf(db.history, u);
        if k in after {
          assert OthersOf(after, u)[k] == OthersOf(db.history, u)[k];
        }
      }
    }
  }

  // It goes through exactly if every entry is allowed and leads to some note; otherwise the first entry
  // that is not decides the answer.
  lemma {:induction false} ImportAnswer(notes: map<NoteId, Note>, forbidden: seq<string>, imports: seq<ImportEntry>)
    returns (first: nat)
    ensures first <= |imports|
    ensures forall i :: 0 <= i < first ==>
              imports[i].note !in forbidden
              && exists n :: n in notes && (n == imports[i].note || notes[n].alias == Some(imports[i].note))
    ensures CheckImport(notes, forbidden, imports)
            == if first == |imports| then Ok(())
               else if imports[first].note in forbidden then Err(ForbiddenId) else Err(NotInDB)
    ensures first < |imports| ==>
              || imports[first].note in forbidden
              || forall n :: n in notes ==> n != imports[first].note && notes[n].alias != Some(imports[first].note)
  {
    if |imports| == 0 || imports[0].note in forbidden || !Resolvable(notes, imports[0].note) {
      first := 0;
      if |imports| > 0 {
        forall n | n in notes && (n == imports[0].note || notes[n].alias == Some(imports[0].note))
          ensures Resolvable(notes, imports[0].note)
        {
          assert Resolves(notes, imports[0].note, n);
        }
      }
    } else {
      var rest := ImportAnswer(notes, forbidden, imports[1..]);
      first := rest + 1;
      var n :| n in notes && Resolves(notes, imports[0].note, n);
      forall i | 0 <= i < first
        ensures imports[i].note !in forbidden
        ensures exists n :: n in notes && (n == imports[i].note || notes[n].alias == Some(imports[i].note))
      {
        if i > 0 {
          assert imports[i] == imports[1..][i - 1];
        }
      }
    }
  }

  // Every note of the list has such a last entry.
  lemma {:induction false} LastForExists(picks: seq<NoteId>, n: NoteId) returns (i: nat)
    requires n in picks
    ensures LastFor(picks, n, i)
  {
    var last := |picks| - 1;
    if picks[last] == n {
      i := last;
    } else {
      assert picks == picks[..last] + [picks[last]];
      i := LastForExists(picks[..last], n);
    }
  }

  // --- export ---------------------------------------------------------------------------------------------

  // `toHistoryEntryDto`: the alias if there is one, else the internal id.
  function Identifier(notes: map<NoteId, Note>, n: NoteId): string
    requires n in notes
  {
    if notes[n].alias.Some? && notes[n].alias.value != "" then notes[n].alias.value else n
  }

  function ToHistoryEntryDto(db: Db, u: UserId, n: NoteId): ImportEntry
    requires (u, n) in db.history && n in db.notes
  {
    ImportEntry(Identifier(db.notes, n), db.history[(u, n)].pinStatus, db.history[(u, n)].updatedAt)
  }

  // An exported entry goes by the note's alias if it has one, else by its id, with pin and time.
  lemma ExportedEntry(db: Db, u: UserId, n: NoteId)
    requires (u, n) in db.history && n in db.notes
    ensures var entry, alias := ToHistoryEntryDto(db, u, n), db.notes[n].alias;
            && entry.note == (if alias.None? || alias == Some("") then n else alias.value)
            && HistoryEntry(entry.pinStatus, entry.lastVisited) == db.history[(u, n)]
  {
  }

  // The user's notes in the order the export lists them.
  ghost predicate ListsHistory(db: Db, u: UserId, order: seq<NoteId>) {
    && Distinct(order)
    && (forall n :: n in order <==> (u, n) in db.history)
    && (forall n :: n in order ==> n in db.notes)
  }

  function Export(db: Db, u: UserId, order: seq<NoteId>): (list: seq<ImportEntry>)
    requires forall n | n in order :: (u, n) in db.history && n in db.notes
    ensures |list| == |order|
    ensures forall i | 0 <= i < |order| :: list[i] == ToHistoryEntryDto(db, u, order[i])
  {
    seq(|order|, i requires 0 <= i < |order| => assert order[i] in order; ToHistoryEntryDto(db, u, order[i]))
  }

  // The note's identifier is allowed and leads back to it only.
  ghost predicate LeadsBack(notes: map<NoteId, Note>, forbidden: seq<string>, n: NoteId)
    requires n in notes
  {
    Identifier(notes, n) !in forbidden && forall m :: Resolves(notes, Identifier(notes, n), m) ==> m == n
  }

  ghost predicate Faithful(db: Db, forbidden: seq<string>, u: UserId) {
    forall n :: (u, n) in db.history && n in db.notes ==> LeadsBack(db.notes, forbidden, n)
  }

  lemma IdentifierResolves(notes: map<NoteId, Note>, n: NoteId)
    requires n in notes
    ensures Resolves(notes, Identifier(notes, n), n) && Resolvable(notes, Identifier(notes, n))
  {
  }

  lemma ExportIsImportable(db: Db, forbidden: seq<string>, u: UserId, order: seq<NoteId>)
    requires ListsHistory(db, u, order)
    requires forall n | n in order :: Identifier(db.notes, n) !in forbidden
    ensures CheckImport(db.notes, forbidden, Export(db, u, order)).Ok?
    ensures Picked(db.notes, Export(db, u, order), order)
  {
    var imports := Export(db, u, order);
    forall i | 0 <= i < |order| ensures Resolves(db.notes, imports[i].note, order[i]) {
      assert order[i] in order;
      IdentifierResolves(db.notes, order[i]);
    }
    forall entry | entry in imports ensures entry.note !in forbidden && Resolvable(db.notes, entry.note) {
      var i :| 0 <= i < |imports| && imports[i] == entry;
      assert order[i] in order;
      IdentifierResolves(db.notes, order[i]);
    }
    CheckImportIff(db.notes, forbidden, imports);
  }

  // Saving the export back under the notes it came from restores the history.
  lemma SavedExport(db: Db, u: UserId, order: seq<NoteId>)
    requires ListsHistory(db, u, order)
    ensures Saved(OthersOf(db.history, u), u, Export(db, u, order), order) == db.history
  {
    var imports := Export(db, u, order);
    var after := Saved(OthersOf(db.history, u), u, imports, order);
    ImportedEntries(db.history, u, imports, order);
    forall k
      ensures k in after <==> k in db.history
      ensures k in after ==> after[k] == db.history[k]
    {
      if k.0 == u {
        assert k == (u, k.1);
        if k.1 in order {
          var i := LastForExists(order, k.1);
        }
      } else {
        assert k in OthersOf(after, u) <==> k in OthersOf(db.history, u);
        if k in after {
          assert OthersOf(after, u)[k] == OthersOf(db.history, u)[k];
        }
      }
    }
    assert after == db.history;
  }

  // An import that answers another note for one exported entry loses that entry.
  lemma MisledImport(db: Db, forbidden: seq<string>, u: UserId, order: seq<NoteId>, i: nat, m: NoteId)
    requires ListsHistory(db, u, order) && i < |order| && m != order[i]
    ensures SetHistoryStep(db, forbidden, u, Export(db, u, order), order[i := m]) != Step(db, Ok(()))
  {
    var n, picks := order[i], order[i := m];
    ImportChanges(db, forbidden, u, Export(db, u, order), picks);
    assert n in order && n !in picks;
  }

  // Exporting and importing back leaves the store as it is, whatever the order and whatever the
  // look-ups may answer, exactly when every exported identifier is allowed and leads back to its own
  // note only.
  lemma ExportImportIdentity(db: Db, forbidden: seq<string>, u: UserId, order: seq<NoteId>)
    requires ListsHistory(db, u, order)
    ensures Faithful(db, forbidden, u)
            <==> forall picks :: Picked(db.notes, Export(db, u, order), picks) ==>
                   SetHistoryStep(db, forbidden, u, Export(db, u, order), picks) == Step(db, Ok(()))
  {
    var imports := Export(db, u, order);
    if Faithful(db, forbidden, u) {
      assert forall n | n in order :: LeadsBack(db.notes, forbidden, n);
      ExportIsImportable(db, forbidden, u, order);
      forall picks | Picked(db.notes, imports, picks)
        ensures SetHistoryStep(db, forbidden, u, imports, picks) == Step(db, Ok(()))
      {
        forall i | 0 <= i < |order| ensures picks[i] == order[i] {
          assert order[i] in order && LeadsBack(db.notes, forbidden, order[i]);
          assert Resolves(db.notes, imports[i].note, picks[i]);
        }
        assert picks == order;
        SavedExport(db, u, order);
        assert db.(history := db.history) == db;
        assert CheckImport(db.notes, forbidden, imports).value == ();
      }
    } else {
      var n :| (u, n) in db.history && n in db.notes && !LeadsBack(db.notes, forbidden, n);
      var picks := UnfaithfulImport(db, forbidden, u, order, n);
    }
  }

  // An identifier that is forbidden stops the import; one that may lead elsewhere may lose its entry.
  lemma UnfaithfulImport(db: Db, forbidden: seq<string>, u: UserId, order: seq<NoteId>, n: NoteId)
    returns (picks: seq<NoteId>)
    requires ListsHistory(db, u, order) && n in order && !LeadsBack(db.notes, forbidden, n)
    ensures Picked(db.notes, Export(db, u, order), picks)
    ensures SetHistoryStep(db, forbidden, u, Export(db, u, order), picks) != Step(db, Ok(()))
  {
    var imports := Export(db, u, order);
    var i :| 0 <= i < |order| && order[i] == n;
    assert imports[i] in imports;
    forall j | 0 <= j < |order| ensures Resolves(db.notes, imports[j].note, order[j]) {
      assert order[j] in order;
      IdentifierResolves(db.notes, order[j]);
    }
    if Identifier(db.notes, n) in forbidden {
      picks := order;
      CheckImportIff(db.notes, forbidden, imports);
    } else {
      var m :| Resolves(db.notes, Identifier(db.notes, n), m) && m != n;
      picks := order[i := m];
      MisledImport(db, forbidden, u, order, i, m);
    }
  }

  // In a consistent database that condition is: no identifier forbidden, and no alias that is another
  // note's internal id.
  lemma FaithfulWhen(db: Db, forbidden: seq<string>, u: UserId)
    requires Consistent(db)
    requires forall n :: (u, n) in db.history && n in db.notes ==> Identifier(db.notes, n) !in forbidden
    requires forall n, m :: n in db.notes && m in db.notes && db.notes[m].alias == Some(n) ==> n == m
    ensures Faithful(db, forbidden, u)
  {
  }

  // The alias of note "b" is the internal id of note "a", which the user has visited.
  const MISLEADING := NO_ROWS.(users := map["u" := User("u", "u")],
                               notes := map["a" := Note("p", None, Some("u")), "b" := Note("q", Some("a"), Some("u"))],
                               history := map[("u", "a") := HistoryEntry(true, 0)])

  lemma MisleadingIsConsistent()
    ensures Consistent(MISLEADING) && AliasesAllowed(MISLEADING.notes, [])
  {
  }

  lemma MisleadingIsListed()
    ensures ListsHistory(MISLEADING, "u", ["a"])
  {
  }

  // The import of such a history may turn the entry for "a" into one for "b".
  lemma MisleadingAlias()
    ensures Consistent(MISLEADING) && AliasesAllowed(MISLEADING.notes, []) && !Faithful(MISLEADING, [], "u")
    ensures var imports := [ImportEntry("a", true, 0)];
            && ListsHistory(MISLEADING, "u", ["a"]) && Export(MISLEADING, "u", ["a"]) == imports
            && Picked(MISLEADING.notes, imports, ["b"])
            && var step := SetHistoryStep(MISLEADING, [], "u", imports, ["b"]);
               step.result == Ok(()) && step.db.history != MISLEADING.history
  {
    MisleadingIsConsistent();
    MisleadingIsListed();
    assert Resolves(MISLEADING.notes, "a", "b") && Identifier(MISLEADING.notes, "a") == "a";
    ExportIsImportable(MISLEADING, [], "u", ["a"]);
    ImportChanges(MISLEADING, [], "u", Export(MISLEADING, "u", ["a"]), ["b"]);
    assert "a" !in ["b"];
  }

  // --- what the history operations keep of the store ----------------------------------------------------

  lemma HistoryKeeps(db: Db, history: Entries)
    requires Consistent(db)
    requires forall k :: k in history ==> k.0 in db.users && k.1 in db.notes
    ensures Consistent(db.(history := history))
  {
  }

  lemma SetHistoryKeeps(db: Db, forbidden: seq<string>, u: UserId, imports: seq<ImportEntry>, picks: seq<NoteId>)
    requires Consistent(db) && u in db.users
    requires CheckImport(db.notes, forbidden, imports).Ok? ==> Picked(db.notes, imports, picks)
    ensures Consistent(SetHistoryStep(db, forbidden, u, imports, picks).db)
  {
    if CheckImport(db.notes, forbidden, imports).Ok? {
      var after := Saved(OthersOf(db.history, u), u, imports, picks);
      ImportedEntries(db.history, u, imports, picks);
      forall k | k in after ensures k.0 in db.users && k.1 in db.notes {
        if k.0 == u {
          assert k == (u, k.1);
          var i :| 0 <= i < |picks| && picks[i] == k.1;
          assert Resolves(db.notes, imports[i].note, picks[i]);
        } else {
          assert k in OthersOf(after, u);
        }
      }
      HistoryKeeps(db, after);
    }
  }
}
