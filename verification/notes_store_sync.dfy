/**
 How the client note store relates to the server: its getters select what
 the corresponding queries select, and its list edits reproduce on the
 list the writes the server made to the table, provided the list holds the
 table's rows. Server ids are UUIDs, so no note carries an empty container
 id.
 */
module NotesStoreSync {
  import opened Fields
  import opened Models
  import opened Schemas
  import opened Seqs
  import opened Store
  import opened NoteService
  import opened SearchService
  import opened ContainerService
  import NotesStore

  /** With no empty container ids, the client inbox holds the notes of the
      server inbox. */
  lemma InboxAgreesWithServer(db: Db, current: Option<Note>)
    requires forall n :: n in db.notes ==> n.containerId != Some("")
    ensures multiset(NotesStore.Inbox(NotesStore.State(db.notes, current))) == multiset(GetInbox(db))
  {
    var a := NotesStore.Inbox(NotesStore.State(db.notes, current));
    var b := GetInbox(db);
    forall n: Note ensures multiset(a)[n] == multiset(b)[n] {
      if n !in db.notes {
        assert multiset(db.notes)[n] == 0;
      }
    }
  }

  /** The client inbox of the fetched server inbox is that list, unchanged. */
  lemma InboxOfFetchedInbox(db: Db, current: Option<Note>)
    ensures NotesStore.Inbox(NotesStore.State(GetInbox(db), current)) == GetInbox(db)
  {
    var b := GetInbox(db);
    forall i | 0 <= i < |b| ensures NotesStore.ShownInInbox(b[i]) {
      assert multiset(b)[b[i]] > 0;
    }
    FilterKeepsAll(b, NotesStore.ShownInInbox);
  }

  /** `byContainer` over the table is the note list of `get_container_with_notes`. */
  lemma ByContainerAgreesWithServer(db: Db, current: Option<Note>, id: Id)
    requires GetContainer(db, id).Some?
    ensures NotesStore.ByContainer(NotesStore.State(db.notes, current), id) == GetContainerWithNotes(db, id).value.notes
  {
    FilterAgree(db.notes, (n: Note) => n.containerId == Some(id), (n: Note) => FiledIn(n, id));
  }

  /** `byStage(s)` over the table selects what `list_notes` with the stage
      filter `s` selects, for a non-empty string that is not a stored
      enumeration name (those two cases are `ByStageOfEmptyName` and
      `ByStageOfMemberName`). */
  lemma ByStageAgreesWithList(db: Db, current: Option<Note>, s: string)
    requires s != ""
    requires forall st: Stage :: s != StageName(st)
    ensures multiset(NotesStore.ByStage(NotesStore.State(db.notes, current), s))
              == multiset(ListNotes(db, NoteFilter(stage := Some(s))))
  {
    var a := NotesStore.ByStage(NotesStore.State(db.notes, current), s);
    var b := ListNotes(db, NoteFilter(stage := Some(s)));
    forall n: Note ensures multiset(a)[n] == multiset(b)[n] {
      assert Selected(n, NoteFilter(stage := Some(s))) <==> StageValue(n.stage) == s;
    }
  }

  /** A stored enumeration name such as `"CAPTURE"` selects nothing on the
      client, which compares the JSON value, while the server binds it to
      the member and lists every note at that stage. */
  lemma ByStageOfMemberName(db: Db, current: Option<Note>, st: Stage)
    ensures NotesStore.ByStage(NotesStore.State(db.notes, current), StageName(st)) == []
    ensures forall n :: multiset(ListNotes(db, NoteFilter(stage := Some(StageName(st)))))[n]
                          == if n.stage == st then multiset(db.notes)[n] else 0
  {
    forall i | 0 <= i < |db.notes| ensures StageValue(db.notes[i].stage) != StageName(st) {
      StageSpellingsDistinct(st, db.notes[i].stage);
    }
    CountIfNone(db.notes, (n: Note) => StageValue(n.stage) == StageName(st));
    forall n: Note ensures Selected(n, NoteFilter(stage := Some(StageName(st)))) == (n.stage == st) {
      StageSpellingsDistinct(n.stage, st);
      StageSpellingsDistinct(st, n.stage);
    }
  }

  /** No stage is named by the empty string, so `byStage("")` is empty,
      while `list_notes` skips an empty stage filter. */
  lemma ByStageOfEmptyName(db: Db, current: Option<Note>)
    ensures NotesStore.ByStage(NotesStore.State(db.notes, current), "") == []
    ensures multiset(ListNotes(db, NoteFilter(stage := Some("")))) == multiset(db.notes)
  {
    var f := NoteFilter(stage := Some(""));
    assert forall n: Note :: Selected(n, f);
    assert forall n: Note :: multiset(ListNotes(db, f))[n] == multiset(db.notes)[n];
    forall i | 0 <= i < |db.notes| ensures StageValue(db.notes[i].stage) != "" {
    }
    CountIfNone(db.notes, (n: Note) => StageValue(n.stage) == "");
  }

  /** With unique ids, replacing the first match is rewriting every match:
      the client edit is the server's `UPDATE ... WHERE id`. */
  lemma ReplaceFirstIsWrite(notes: seq<Note>, id: Id, row: Note)
    requires UniqueKeys(notes, NoteKey)
    ensures NotesStore.ReplaceFirst(notes, id, row) == Write(notes, NoteKey, id, row)
  {
    var a, b := NotesStore.ReplaceFirst(notes, id, row), Write(notes, NoteKey, id, row);
    forall i | 0 <= i < |notes| ensures a[i] == b[i] {
      if notes[i].id == id {
        forall k | 0 <= k < i ensures notes[k].id != id {
          assert notes[k].id != notes[i].id;
        }
      }
    }
  }

  /** A list holding the table's rows, edited with the note the server
      returned from an update, a move or a highlight change, holds the rows
      of the table after that call. */
  lemma ListFollowsServerWrites(db: Db, current: Option<Note>, id: Id, u: NoteUpdate, target: Option<Id>,
                                input: NoteHighlightsUpdate, now: Timestamp)
    requires Valid(db)
    ensures var s := UpdateNote(db, id, u, now);
            s.result.Done? ==> NotesStore.ApplyUpdated(NotesStore.State(db.notes, current), id, s.result.value).notes == s.db.notes
    ensures var s := MoveToContainer(db, id, target, now);
            s.result.Some? ==> NotesStore.ApplyUpdated(NotesStore.State(db.notes, current), id, s.result.value).notes == s.db.notes
    ensures var s := UpdateHighlights(db, id, input, now);
            s.result.Some? ==> NotesStore.ApplyUpdated(NotesStore.State(db.notes, current), id, s.result.value).notes == s.db.notes
  {
    var s1 := UpdateNote(db, id, u, now);
    if s1.result.Done? {
      ReplaceFirstIsWrite(db.notes, id, s1.result.value);
    }
    var s2 := MoveToContainer(db, id, target, now);
    if s2.result.Some? {
      ReplaceFirstIsWrite(db.notes, id, s2.result.value);
    }
    var s3 := UpdateHighlights(db, id, input, now);
    if s3.result.Some? {
      ReplaceFirstIsWrite(db.notes, id, s3.result.value);
    }
  }

  /** Deleting on the client a note the server deleted leaves the list
      holding the table's remaining rows. */
  lemma DeleteFollowsServer(db: Db, current: Option<Note>, id: Id)
    ensures NotesStore.DeleteNote(NotesStore.State(db.notes, current), id).notes == DeleteNote(db, id).db.notes
  {
    DeleteIsFilter(db.notes, NoteKey, id, (n: Note) => n.id != id);
  }

  /** A note captured through the client goes to the front of the client inbox. */
  lemma CapturedNoteHeadsInbox(db: Db, st: NotesStore.State, input: NoteCreate, id: Id, now: Timestamp)
    requires forall n :: n in db.notes ==> n.id != id
    ensures var created := CreateNote(db, input, id, now).result;
            NotesStore.Inbox(NotesStore.QuickCapture(st, created)) == [created] + NotesStore.Inbox(st)
  {
    var created := CreateNote(db, input, id, now).result;
    assert ([created] + st.notes)[1..] == st.notes;
  }
}
