/** src/revisions/revisions.service.ts: the queries over a note's revisions, and the log they read. */
module Revisions {
  import opened Common
  import opened Schema

  type RevisionTable = map<RevisionId, Revision>

  // --- the queries ----------------------------------------------------------------------------------------

  // `getAllRevisions`.
  function RevisionsOf(revisions: RevisionTable, n: NoteId): set<RevisionId> {
    set r | r in revisions && revisions[r].note == n
  }

  function GetRevision(revisions: RevisionTable, n: NoteId, revisionId: RevisionId): Result<Revision> {
    if revisionId in revisions && revisions[revisionId].note == n then Ok(revisions[revisionId])
    else Err(NotInDB)
  }

  // `ORDER BY createdAt DESC, id DESC`.
  predicate NoLater(revisions: RevisionTable, r: RevisionId, s: RevisionId)
    requires r in revisions && s in revisions
  {
    || revisions[r].createdAt < revisions[s].createdAt
    || (revisions[r].createdAt == revisions[s].createdAt && r <= s)
  }

  ghost predicate IsLatest(revisions: RevisionTable, n: NoteId, r: RevisionId) {
    r in RevisionsOf(revisions, n) && forall s :: s in RevisionsOf(revisions, n) ==> NoLater(revisions, s, r)
  }

  // `ORDER BY createdAt ASC` alone: any of the earliest may be the answer.
  ghost predicate IsFirst(revisions: RevisionTable, n: NoteId, r: RevisionId) {
    && r in RevisionsOf(revisions, n)
    && forall s :: s in RevisionsOf(revisions, n) ==> revisions[r].createdAt <= revisions[s].createdAt
  }

  ghost function GetLatestRevision(revisions: RevisionTable, n: NoteId): (r: Result<RevisionId>)
    ensures r.Ok? ==> IsLatest(revisions, n, r.value)
    ensures r.Ok? ==> r.value in revisions && revisions[r.value].note == n
    ensures r.Ok? ==> forall s :: s in revisions && revisions[s].note == n ==>
              || revisions[s].createdAt < revisions[r.value].createdAt
              || (revisions[s].createdAt == revisions[r.value].createdAt && s <= r.value)
    ensures r.Err? <==> RevisionsOf(revisions, n) == {}
  {
    if RevisionsOf(revisions, n) == {} then Err(NotInDB)
    else
      SomeLatest(revisions, n);
      var r :| IsLatest(revisions, n, r);
      assert forall s :: s in revisions && revisions[s].note == n ==> s in RevisionsOf(revisions, n);
      Ok(r)
  }

  // A non-empty set of rows has a last one in the order of the query.
  lemma {:induction false} LatestOf(revisions: RevisionTable, rs: set<RevisionId>) returns (r: RevisionId)
    requires rs != {} && rs <= revisions.Keys
    ensures r in rs && forall s :: s in rs ==> NoLater(revisions, s, r)
    decreases rs
  {
    r :| r in rs;
    if rs != {r} {
      var latest := LatestOf(revisions, rs - {r});
      assert forall s :: s in rs ==> s == r || s in rs - {r};
      if NoLater(revisions, r, latest) {
        r := latest;
      }
    }
  }

  lemma SomeLatest(revisions: RevisionTable, n: NoteId)
    requires RevisionsOf(revisions, n) != {}
    ensures exists r :: IsLatest(revisions, n, r)
  {
    var r := LatestOf(revisions, RevisionsOf(revisions, n));
    assert IsLatest(revisions, n, r);
  }

  // And only one, because the id breaks ties.
  lemma LatestIsUnique(revisions: RevisionTable, n: NoteId, r: RevisionId, s: RevisionId)
    requires IsLatest(revisions, n, r) && IsLatest(revisions, n, s)
    ensures r == s
  {
  }

  // --- the log --------------------------------------------------------------------------------------------

  // One text written to a note: the row it became, the text and the time.
  datatype Written = Written(id: RevisionId, content: string, at: int)

  type Log = map<NoteId, seq<Written>>

  function Ids(writes: seq<Written>): set<RevisionId> {
    set i | 0 <= i < |writes| :: writes[i].id
  }

  ghost predicate Ordered(writes: seq<Written>) {
    forall i, j :: 0 <= i < j < |writes| ==> writes[i].id < writes[j].id && writes[i].at <= writes[j].at
  }

  predicate IsRow(revisions: RevisionTable, n: NoteId, w: Written) {
    w.id in revisions && revisions[w.id] == Revision(n, w.content, w.at)
  }

  // The note's rows are exactly its writes, in order: ids increase and times do not go back.
  ghost predicate LogOf(revisions: RevisionTable, n: NoteId, writes: seq<Written>, next: RevisionId, clock: int) {
    && |writes| >= 1
    && RevisionsOf(revisions, n) == Ids(writes)
    && Ordered(writes)
    && forall i :: 0 <= i < |writes| ==> IsRow(revisions, n, writes[i]) && writes[i].id < next && writes[i].at <= clock
  }

  ghost predicate LogInv(notes: map<NoteId, Note>, revisions: RevisionTable, next: RevisionId, log: Log, clock: int) {
    && (forall n :: n in notes ==> n in log && LogOf(revisions, n, log[n], next, clock))
    && (forall r :: r in revisions ==> r < next)
  }

  // The latest revision is the last text written.
  lemma LatestIsLastWritten(revisions: RevisionTable, n: NoteId, writes: seq<Written>, next: RevisionId, clock: int)
    requires LogOf(revisions, n, writes, next, clock)
    ensures GetLatestRevision(revisions, n) == Ok(writes[|writes| - 1].id)
    ensures IsRow(revisions, n, writes[|writes| - 1])
  {
    var last := writes[|writes| - 1];
    assert last.id in Ids(writes);
    forall s | s in RevisionsOf(revisions, n) ensures NoLater(revisions, s, last.id) {
      var i :| 0 <= i < |writes| && writes[i].id == s;
      assert IsRow(revisions, n, writes[i]) && IsRow(revisions, n, last);
    }
    assert IsLatest(revisions, n, last.id);
    LatestIsUnique(revisions, n, last.id, GetLatestRevision(revisions, n).value);
  }

  // Whatever row the first-revision query answers, it carries the time of the first write.
  lemma FirstHasCreationTime(revisions: RevisionTable, n: NoteId, writes: seq<Written>, next: RevisionId, clock: int,
                             r: RevisionId)
    requires LogOf(revisions, n, writes, next, clock) && IsFirst(revisions, n, r)
    ensures revisions[r].createdAt == writes[0].at
  {
  }

  // And there is such a row: that of the first write.
  lemma FirstIsFirstWritten(revisions: RevisionTable, n: NoteId, writes: seq<Written>, next: RevisionId, clock: int)
    requires LogOf(revisions, n, writes, next, clock)
    ensures IsFirst(revisions, n, writes[0].id) && revisions[writes[0].id].content == writes[0].content
  {
    assert writes[0].id in Ids(writes);
    assert IsRow(revisions, n, writes[0]);
    forall s | s in RevisionsOf(revisions, n) ensures revisions[writes[0].id].createdAt <= revisions[s].createdAt {
      var i :| 0 <= i < |writes| && writes[i].id == s;
      assert IsRow(revisions, n, writes[i]);
    }
  }

  lemma IdsAppend(writes: seq<Written>, w: Written)
    ensures Ids(writes + [w]) == Ids(writes) + {w.id}
  {
    var all := writes + [w];
    forall id ensures id in Ids(all) <==> id in Ids(writes) + {w.id} {
      if id in Ids(writes) {
        var i :| 0 <= i < |writes| && writes[i].id == id;
        assert all[i].id == id;
      }
      assert all[|writes|].id == w.id;
    }
  }

  lemma {:induction false} CountIds(writes: seq<Written>)
    requires Ordered(writes)
    ensures |Ids(writes)| == |writes|
  {
    if |writes| > 0 {
      var init, last := writes[..|writes| - 1], writes[|writes| - 1];
      CountIds(init);
      IdsAppend(init, last);
      assert writes == init + [last];
      assert last.id !in Ids(init);
    }
  }

  // As many revisions as writes.
  lemma RevisionCount(revisions: RevisionTable, n: NoteId, writes: seq<Written>, next: RevisionId, clock: int)
    requires LogOf(revisions, n, writes, next, clock)
    ensures |RevisionsOf(revisions, n)| == |writes|
  {
    CountIds(writes);
  }

  // A revision query answers with the content written under that id to that note, and with no other's.
  lemma RevisionIsWritten(revisions: RevisionTable, n: NoteId, writes: seq<Written>, next: RevisionId, clock: int,
                          id: RevisionId)
    requires LogOf(revisions, n, writes, next, clock)
    ensures GetRevision(revisions, n, id).Ok? <==> exists w :: w in writes && w.id == id
    ensures forall w :: w in writes && w.id == id ==>
              GetRevision(revisions, n, id) == Ok(Revision(n, w.content, w.at))
  {
    assert id in RevisionsOf(revisions, n) <==> id in Ids(writes);
    if id in Ids(writes) {
      var i :| 0 <= i < |writes| && writes[i].id == id;
      assert writes[i] in writes;
    }
    forall w | w in writes && w.id == id ensures IsRow(revisions, n, w) {
      var i :| 0 <= i < |writes| && writes[i] == w;
    }
  }

  // --- how the log moves ----------------------------------------------------------------------------------

  // Adding a row to a note, whose log may still be empty, is one more write and leaves the other
  // notes' logs as they were.
  lemma WriteExtendsLog(revisions: RevisionTable, n: NoteId, writes: seq<Written>, next: RevisionId, clock: int,
                        content: string, now: int)
    requires clock <= now && forall r :: r in revisions ==> r < next
    requires if writes == [] then RevisionsOf(revisions, n) == {} else LogOf(revisions, n, writes, next, clock)
    ensures LogOf(revisions[next := Revision(n, content, now)], n, writes + [Written(next, content, now)],
                  next + 1, now)
  {
    var after, w := revisions[next := Revision(n, content, now)], Written(next, content, now);
    assert RevisionsOf(after, n) == RevisionsOf(revisions, n) + {next};
    IdsAppend(writes, w);
    assert writes == [] ==> Ids(writes) == {};
    forall i | 0 <= i < |writes + [w]| ensures IsRow(after, n, (writes + [w])[i]) {
      if i < |writes| {
        assert IsRow(revisions, n, writes[i]);
      }
    }
  }

  lemma WriteElsewhere(revisions: RevisionTable, n: NoteId, m: NoteId, writes: seq<Written>, next: RevisionId,
                       clock: int,
                       content: string, now: int)
    requires clock <= now && n != m && LogOf(revisions, m, writes, next, clock) && next !in revisions
    ensures LogOf(revisions[next := Revision(n, content, now)], m, writes, next + 1, now)
  {
  }

  // Rows of other notes may go; the logs of the notes that stay hold on.
  lemma LogSurvives(revisions: RevisionTable, fewer: RevisionTable, n: NoteId, writes: seq<Written>,
                    next: RevisionId, clock: int, later: int)
    requires LogOf(revisions, n, writes, next, clock) && clock <= later
    requires forall r :: r in fewer ==> r in revisions && fewer[r] == revisions[r]
    requires forall r :: r in revisions && revisions[r].note == n ==> r in fewer
    ensures LogOf(fewer, n, writes, next, later)
  {
  }
}
