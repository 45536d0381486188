/**
 Properties that relate several note-service calls: reading back what was
 written, key uniqueness, stage monotonicity, highlight replacement, and
 the behaviour of a move to no container.
 */
module NoteProperties {
  import opened Fields
  import opened Models
  import opened Schemas
  import opened Seqs
  import opened Lifecycle
  import opened Store
  import opened NoteService

  /** A created note can be read back under its id, and keys stay unique. */
  lemma CreateThenGet(db: Db, input: NoteCreate, id: Id, now: Timestamp)
    requires Valid(db)
    requires forall n :: n in db.notes ==> n.id != id
    ensures Valid(CreateNote(db, input, id, now).db)
    ensures GetNote(CreateNote(db, input, id, now).db, id) == Some(CreateNote(db, input, id, now).result)
  {
    var s := CreateNote(db, input, id, now);
    assert s.db.notes[|db.notes|] == s.result;
    FindUnique(s.db.notes, NoteKey, id, s.result);
  }

  /** A successful update is what a later read returns; keys stay unique. */
  lemma UpdateThenGet(db: Db, id: Id, u: NoteUpdate, now: Timestamp)
    requires Valid(db)
    requires UpdateNote(db, id, u, now).result.Done?
    ensures Valid(UpdateNote(db, id, u, now).db)
    ensures GetNote(UpdateNote(db, id, u, now).db, id) == Some(UpdateNote(db, id, u, now).result.value)
  {
    var s := UpdateNote(db, id, u, now);
    WriteThenFind(db.notes, NoteKey, id, s.result.value);
  }

  lemma MoveThenGet(db: Db, id: Id, target: Option<Id>, now: Timestamp)
    requires Valid(db)
    requires MoveToContainer(db, id, target, now).result.Some?
    ensures Valid(MoveToContainer(db, id, target, now).db)
    ensures GetNote(MoveToContainer(db, id, target, now).db, id) == MoveToContainer(db, id, target, now).result
  {
    var s := MoveToContainer(db, id, target, now);
    WriteThenFind(db.notes, NoteKey, id, s.result.value);
  }

  lemma HighlightsThenGet(db: Db, id: Id, input: NoteHighlightsUpdate, now: Timestamp)
    requires Valid(db)
    requires UpdateHighlights(db, id, input, now).result.Some?
    ensures Valid(UpdateHighlights(db, id, input, now).db)
    ensures GetNote(UpdateHighlights(db, id, input, now).db, id) == UpdateHighlights(db, id, input, now).result
  {
    var s := UpdateHighlights(db, id, input, now);
    WriteThenFind(db.notes, NoteKey, id, s.result.value);
  }

  /** A successful delete removes exactly one row: the id is gone afterwards. */
  lemma DeleteThenGet(db: Db, id: Id)
    requires Valid(db)
    ensures Valid(DeleteNote(db, id).db)
    ensures GetNote(DeleteNote(db, id).db, id).None?
    ensures DeleteNote(db, id).result ==> |DeleteNote(db, id).db.notes| == |db.notes| - 1
  {
    var s := DeleteNote(db, id);
    SubsequenceKeepsKeysUnique(s.db.notes, db.notes, NoteKey);
    if s.result {
      DeleteUnique(db.notes, NoteKey, id);
    }
  }

  /** No note operation lowers a note's stage, and none produces express
      from a lower stage. */
  lemma StageNeverDecreases(db: Db, id: Id, u: NoteUpdate, target: Option<Id>,
                            input: NoteHighlightsUpdate, now: Timestamp)
    requires GetNote(db, id).Some?
    ensures var before := GetNote(db, id).value;
            var moved := MoveToContainer(db, id, target, now).result.value;
            var lit := UpdateHighlights(db, id, input, now).result.value;
            && StageRank(before.stage) <= StageRank(moved.stage)
            && StageRank(before.stage) <= StageRank(lit.stage)
            && (moved.stage == Express ==> before.stage == Express)
            && (lit.stage == Express ==> before.stage == Express)
            && (UpdateNote(db, id, u, now).result.Done? ==>
                  UpdateNote(db, id, u, now).result.value.stage == before.stage)
  {
  }

  /** `captured_at` and `created_at` are written only by creation. */
  lemma CreationTimesNeverChange(db: Db, id: Id, u: NoteUpdate, target: Option<Id>,
                                 input: NoteHighlightsUpdate, now: Timestamp)
    requires GetNote(db, id).Some?
    ensures var before := GetNote(db, id).value;
            var moved := MoveToContainer(db, id, target, now).result.value;
            var lit := UpdateHighlights(db, id, input, now).result.value;
            && moved.capturedAt == before.capturedAt && moved.createdAt == before.createdAt
            && lit.capturedAt == before.capturedAt && lit.createdAt == before.createdAt
            && (UpdateNote(db, id, u, now).result.Done? ==>
                  && UpdateNote(db, id, u, now).result.value.capturedAt == before.capturedAt
                  && UpdateNote(db, id, u, now).result.value.createdAt == before.createdAt)
  {
  }

  /** Filtering the listing by a stage's value string selects exactly the
      notes at that stage: distinct stages are spelled differently. */
  lemma StageFilterSelectsStage(db: Db, st: Stage)
    ensures forall n :: multiset(ListNotes(db, NoteFilter(stage := Some(StageValue(st)))))[n]
                          == if n.stage == st then multiset(db.notes)[n] else 0
  {
    forall n: Note ensures Selected(n, NoteFilter(stage := Some(StageValue(st)))) == (n.stage == st) {
      StageValueInjective(n.stage, st);
      StageSpellingsDistinct(n.stage, st);
    }
  }

  /** Filtering by a stage's stored name selects the same notes as its
      value string: the column binds both to the same member. */
  lemma StageNameFilterSelectsStage(db: Db, st: Stage)
    ensures forall n :: multiset(ListNotes(db, NoteFilter(stage := Some(StageName(st)))))[n]
                          == if n.stage == st then multiset(db.notes)[n] else 0
  {
    forall n: Note ensures Selected(n, NoteFilter(stage := Some(StageName(st)))) == (n.stage == st) {
      StageSpellingsDistinct(n.stage, st);
      StageSpellingsDistinct(st, n.stage);
    }
  }

  /** Highlights do not accumulate: after two replacements only the second
      list is stored. */
  lemma HighlightsReplaceWholesale(db: Db, id: Id, first: NoteHighlightsUpdate,
                                   second: NoteHighlightsUpdate, t1: Timestamp, t2: Timestamp)
    requires Valid(db)
    requires GetNote(db, id).Some?
    ensures var s1 := UpdateHighlights(db, id, first, t1);
            var s2 := UpdateHighlights(s1.db, id, second, t2);
            s2.result.Some? && s2.result.value.highlights == HighlightList(second.highlights)
  {
    HighlightsThenGet(db, id, first, t1);
  }

  /** An empty highlight list still promotes a capture or organize note. */
  lemma EmptyHighlightsStillDistill(db: Db, id: Id, now: Timestamp)
    requires GetNote(db, id).Some?
    requires GetNote(db, id).value.stage in {Capture, Organize}
    ensures var n := UpdateHighlights(db, id, NoteHighlightsUpdate(), now).result.value;
            n.stage == Distill && n.highlights == HighlightList([])
  {
  }

  /** Moving to no container does not send a note back to capture: an
      organized note stays organized, now unfiled. */
  lemma MoveToInboxKeepsStage(db: Db, id: Id, now: Timestamp)
    requires GetNote(db, id).Some?
    requires GetNote(db, id).value.stage != Capture
    ensures var n := MoveToContainer(db, id, None, now).result.value;
            n.stage == GetNote(db, id).value.stage && n.containerId == None
  {
  }

  /** A capture note moved to no container becomes organize with a null
      container: it is promoted although it was not filed anywhere. */
  lemma MoveCaptureToInboxOrganizes(db: Db, id: Id, now: Timestamp)
    requires GetNote(db, id).Some?
    requires GetNote(db, id).value.stage == Capture
    ensures var n := MoveToContainer(db, id, None, now).result.value;
            n.stage == Organize && n.containerId == None
  {
  }

  /** The concrete case of the service unit test that expects a move to the
      inbox to reset the stage: the organized note stays organized. */
  lemma MoveToInboxExample()
    ensures var before := Note("n1", "Test", "Content", None, EmptyDoc, None, None, None,
                               Some("c1"), Organize, 0, 0, 0);
            var s := MoveToContainer(Db([before], []), "n1", None, 1);
            s.result == Some(before.(containerId := None, updatedAt := 1))
            && s.result.value.stage != Capture
  {
  }
}
