/**
 The search service: the inbox, text search and the most recently updated
 notes. All three only read the database.
 */
module SearchService {
  import opened Fields
  import opened Models
  import opened Seqs
  import opened Text
  import opened Store
  import opened NoteService

  /** An inbox row: still at capture and filed nowhere. */
  predicate InInbox(n: Note)
  {
    n.stage == Capture && n.containerId == None
  }

  /** `ORDER BY captured_at DESC`. */
  predicate CapturedLaterOrSame(a: Note, b: Note)
  {
    a.capturedAt >= b.capturedAt
  }

  lemma CapturedLaterOrSameIsTotalPreorder()
    ensures TotalPreorder(CapturedLaterOrSame)
  {
  }

  /** `get_inbox`: exactly the unfiled capture notes, latest capture first. */
  function GetInbox(db: Db): (r: seq<Note>)
    ensures forall n :: multiset(r)[n] == if n.stage == Capture && n.containerId == None then multiset(db.notes)[n] else 0
    ensures forall i, j :: 0 <= i < j < |r| ==> r[i].capturedAt >= r[j].capturedAt
  {
    CapturedLaterOrSameIsTotalPreorder();
    SortBy(Filter(db.notes, InInbox), CapturedLaterOrSame)
  }

  /** `search_notes`: exactly the notes whose title or content contains
      `q` ignoring case, most recently updated first. */
  function SearchNotes(db: Db, q: string): (r: seq<Note>)
    ensures forall n :: multiset(r)[n] ==
              if MatchesIgnoringCase(n.title, q) || MatchesIgnoringCase(n.content, q) then multiset(db.notes)[n] else 0
    ensures forall i, j :: 0 <= i < j < |r| ==> r[i].updatedAt >= r[j].updatedAt
  {
    NewerOrSameIsTotalPreorder();
    SortBy(Filter(db.notes, (n: Note) => MatchesQuery(n, q)), NewerOrSame)
  }

  /** `get_recent`: the `limit` most recently updated notes. SQLite reads a
      negative LIMIT as no limit at all. */
  function GetRecent(db: Db, limit: int := 20): (r: seq<Note>)
    ensures |r| == if 0 <= limit < |db.notes| then limit else |db.notes|
    ensures multiset(r) <= multiset(db.notes)
    ensures forall i, j :: 0 <= i < j < |r| ==> r[i].updatedAt >= r[j].updatedAt
    ensures forall m, n :: m in r && n in multiset(db.notes) - multiset(r) ==> m.updatedAt >= n.updatedAt
  {
    NewerOrSameIsTotalPreorder();
    var sorted := SortBy(db.notes, NewerOrSame);
    var k := if 0 <= limit < |sorted| then limit else |sorted|;
    TakeOfSorted(sorted, k);
    sorted[..k]
  }

  /** A prefix of a newest-first sequence holds notes at least as new as
      every note left out. */
  lemma TakeOfSorted(sorted: seq<Note>, k: nat)
    requires k <= |sorted|
    requires SortedBy(sorted, NewerOrSame)
    ensures multiset(sorted[..k]) <= multiset(sorted)
    ensures multiset(sorted) - multiset(sorted[..k]) == multiset(sorted[k..])
    ensures forall m, n :: m in sorted[..k] && n in sorted[k..] ==> m.updatedAt >= n.updatedAt
  {
    assert sorted == sorted[..k] + sorted[k..];
    forall m, n | m in sorted[..k] && n in sorted[k..] ensures m.updatedAt >= n.updatedAt {
      var i :| 0 <= i < k && sorted[i] == m;
      var j :| 0 <= j < |sorted[k..]| && sorted[k..][j] == n;
      assert NewerOrSame(sorted[i], sorted[k + j]);
    }
  }

  /** Search and the text filter of `list_notes` use the same rule: searching
      for `q` lists the same notes as listing with only `q` given. For the
      empty query both return every note. */
  lemma SearchIsListWithQuery(db: Db, q: string)
    ensures SearchNotes(db, q) == ListNotes(db, NoteFilter(q := Some(q)))
    ensures q == "" ==> multiset(SearchNotes(db, q)) == multiset(db.notes)
  {
    if q == "" {
      forall i | 0 <= i < |db.notes|
        ensures MatchesQuery(db.notes[i], q) == Selected(db.notes[i], NoteFilter(q := Some(q)))
      {
        EmptyQueryMatchesAll(db.notes[i].title);
      }
    }
    FilterAgree(db.notes, (n: Note) => MatchesQuery(n, q), (n: Note) => Selected(n, NoteFilter(q := Some(q))));
    if q == "" {
      forall n: Note ensures multiset(SearchNotes(db, q))[n] == multiset(db.notes)[n] {
        EmptyQueryMatchesAll(n.title);
      }
    }
  }

  /** A capture note filed in a container is not in the inbox. */
  lemma FiledCaptureNotInInbox(db: Db, n: Note)
    requires n in db.notes && n.stage == Capture && n.containerId.Some?
    ensures n !in GetInbox(db)
  {
    assert multiset(GetInbox(db))[n] == 0;
  }

  /** A freshly created note is in the inbox. */
  lemma CreatedNoteInInbox(db: Db, input: Schemas.NoteCreate, id: Id, now: Timestamp)
    requires forall n :: n in db.notes ==> n.id != id
    ensures CreateNote(db, input, id, now).result in GetInbox(CreateNote(db, input, id, now).db)
  {
    var s := CreateNote(db, input, id, now);
    assert s.result in s.db.notes;
    assert multiset(GetInbox(s.db))[s.result] == multiset(s.db.notes)[s.result];
  }

  /** Without an effective limit (a negative one, or one at least the number
      of notes), the recent list holds every note. */
  lemma RecentWithoutLimitListsEverything(db: Db, limit: int)
    requires limit < 0 || limit >= |db.notes|
    ensures multiset(GetRecent(db, limit)) == multiset(db.notes)
  {
    var r := GetRecent(db, limit);
    assert |multiset(db.notes) - multiset(r)| == 0;
  }
}
