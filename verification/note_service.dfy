/**
 The note service: creation, lookup, filtered listing, partial update,
 moving between containers, highlight replacement and deletion, each as a
 function from the database before the call to the database after it and
 the value returned. The generated UUID and the clock reading (`id`,
 `now`) are parameters.

 `updated_at` is refreshed by the database only when a row is actually
 written; an assignment that leaves every column as it was writes nothing
 and keeps the old timestamp.
 */
module NoteService {
  import opened Fields
  import opened Models
  import opened Schemas
  import opened Seqs
  import opened Text
  import opened Lifecycle
  import opened Store

  /** The row as written at `now`: unchanged rows keep their timestamp. */
  function Touch(before: Note, after: Note, now: Timestamp): (r: Note)
    ensures r.updatedAt == if after == before then before.updatedAt else now
    ensures r.(updatedAt := after.updatedAt) == after
  {
    if after == before then before else after.(updatedAt := now)
  }

  /** `create_note`: a new row at the capture stage, unfiled, without
      highlights, stamped `now` three times. */
  function CreateNote(db: Db, input: NoteCreate, id: Id, now: Timestamp): (s: Step<Note>)
    requires forall n :: n in db.notes ==> n.id != id
    ensures s.result.id == id
    ensures s.result.title == input.title && s.result.content == input.content
    ensures s.result.sourceUrl == input.sourceUrl && s.result.sourceType == input.sourceType
    ensures s.result.stage == Capture && s.result.containerId == None
    ensures s.result.highlights == EmptyDoc
    ensures s.result.contentHtml == None && s.result.executiveSummary == None
    ensures s.result.createdAt == now && s.result.updatedAt == now && s.result.capturedAt == now
    ensures s.db.notes == db.notes + [s.result] && s.db.containers == db.containers
  {
    var n := Note(
      id := id,
      title := input.title,
      content := input.content,
      contentHtml := None,
      highlights := EmptyDoc,
      executiveSummary := None,
      sourceUrl := input.sourceUrl,
      sourceType := input.sourceType,
      containerId := None,
      stage := Capture,
      createdAt := now,
      updatedAt := now,
      capturedAt := now);
    Step(db.(notes := db.notes + [n]), n)
  }

  /** `get_note`. */
  function GetNote(db: Db, id: Id): (r: Option<Note>)
    ensures r.Some? ==> r.value in db.notes && r.value.id == id
    ensures r.None? <==> forall n :: n in db.notes ==> n.id != id
  {
    Find(db.notes, NoteKey, id)
  }

  /** Query-string filters of `list_notes`; a missing or empty filter is
      not applied. */
  datatype NoteFilter = NoteFilter(
    containerId: Option<Id> := None,
    stage: Option<string> := None,
    q: Option<string> := None
  )

  /** The text filter, shared with the search service: `q` occurs in the
      title or in the content, ignoring case. */
  predicate MatchesQuery(n: Note, q: string)
  {
    MatchesIgnoringCase(n.title, q) || MatchesIgnoringCase(n.content, q)
  }

  /** How the stage filter string binds against the `code_stage` column: the
      column's enumeration looks the string up among its members (a `str`
      member equals its value) and their names, and either binds to the
      stored name; any other string is compared as it is, and no stored
      name equals it. */
  predicate StageFilterMatches(st: Stage, v: string)
  {
    v == StageValue(st) || v == StageName(st)
  }

  /** Conjunction of the filters that are present and non-empty. */
  predicate Selected(n: Note, f: NoteFilter)
  {
    && (f.containerId.Some? ==> n.containerId == f.containerId)
    && (f.stage.Some? && f.stage.value != "" ==> StageFilterMatches(n.stage, f.stage.value))
    && (f.q.Some? && f.q.value != "" ==> MatchesQuery(n, f.q.value))
  }

  /** `ORDER BY updated_at DESC`: more recently updated first. */
  predicate NewerOrSame(a: Note, b: Note)
  {
    a.updatedAt >= b.updatedAt
  }

  lemma NewerOrSameIsTotalPreorder()
    ensures TotalPreorder(NewerOrSame)
  {
  }

  /** `list_notes`: exactly the selected notes, most recently updated first. */
  function ListNotes(db: Db, f: NoteFilter): (r: seq<Note>)
    ensures forall n :: multiset(r)[n] == if Selected(n, f) then multiset(db.notes)[n] else 0
    ensures forall i, j :: 0 <= i < j < |r| ==> r[i].updatedAt >= r[j].updatedAt
  {
    NewerOrSameIsTotalPreorder();
    SortBy(Filter(db.notes, (n: Note) => Selected(n, f)), NewerOrSame)
  }

  /** The fields a partial update may write, applied over `n`. */
  function ApplyNoteUpdate(n: Note, u: NoteUpdate): (r: Note)
  {
    n.(
      title := ApplyNonNull(u.title, n.title),
      content := ApplyNonNull(u.content, n.content),
      contentHtml := Apply(u.contentHtml, n.contentHtml),
      sourceUrl := Apply(u.sourceUrl, n.sourceUrl),
      sourceType := Apply(u.sourceType, n.sourceType),
      executiveSummary := Apply(u.executiveSummary, n.executiveSummary))
  }

  /** `update_note`: writes exactly the supplied fields, explicit nulls
      included; a null title or content is refused by the database. */
  function UpdateNote(db: Db, id: Id, u: NoteUpdate, now: Timestamp): (s: Step<Outcome<Note>>)
    ensures GetNote(db, id).None? ==> s == Step(db, NotFound)
    ensures GetNote(db, id).Some? && (SetsNull(u.title) || SetsNull(u.content)) ==>
              s == Step(db, NotNullViolation)
    ensures s.result.Done? <==>
              GetNote(db, id).Some? && !SetsNull(u.title) && !SetsNull(u.content)
    ensures s.result.Done? ==>
              var before, n := GetNote(db, id).value, s.result.value;
              && n.id == id
              && n.title == ApplyNonNull(u.title, before.title)
              && n.content == ApplyNonNull(u.content, before.content)
              && n.contentHtml == Apply(u.contentHtml, before.contentHtml)
              && n.sourceUrl == Apply(u.sourceUrl, before.sourceUrl)
              && n.sourceType == Apply(u.sourceType, before.sourceType)
              && n.executiveSummary == Apply(u.executiveSummary, before.executiveSummary)
              && n.stage == before.stage
              && n.containerId == before.containerId
              && n.highlights == before.highlights
              && n.createdAt == before.createdAt
              && n.capturedAt == before.capturedAt
              && n.updatedAt == (if n.(updatedAt := before.updatedAt) == before then before.updatedAt else now)
              && n == Touch(before, ApplyNoteUpdate(before, u), now)
              && s.db == db.(notes := Write(db.notes, NoteKey, id, n))
  {
    match GetNote(db, id)
    case None => Step(db, NotFound)
    case Some(before) =>
      if SetsNull(u.title) || SetsNull(u.content) then Step(db, NotNullViolation)
      else
        var n := Touch(before, ApplyNoteUpdate(before, u), now);
        Step(db.(notes := Write(db.notes, NoteKey, id, n)), Done(n))
  }

  /** `move_to_container`: files the note under `target` (None unfiles it)
      and promotes capture to organize. */
  function MoveToContainer(db: Db, id: Id, target: Option<Id>, now: Timestamp): (s: Step<Option<Note>>)
    ensures GetNote(db, id).None? <==> s.result.None?
    ensures s.result.None? ==> s.db == db
    ensures s.result.Some? ==>
              var before, n := GetNote(db, id).value, s.result.value;
              && n.id == id
              && n.containerId == target
              && (before.stage == Capture ==> n.stage == Organize)
              && (before.stage != Capture ==> n.stage == before.stage)
              && n == Touch(before, before.(containerId := n.containerId, stage := n.stage), now)
              && s.db == db.(notes := Write(db.notes, NoteKey, id, n))
  {
    match GetNote(db, id)
    case None => Step(db, None)
    case Some(before) =>
      var n := Touch(before, before.(containerId := target, stage := StageAfterMove(before.stage)), now);
      Step(db.(notes := Write(db.notes, NoteKey, id, n)), Some(n))
  }

  /** `update_highlights`: replaces the highlight document wholesale and
      promotes capture and organize to distill, even for an empty list. */
  function UpdateHighlights(db: Db, id: Id, input: NoteHighlightsUpdate, now: Timestamp): (s: Step<Option<Note>>)
    ensures GetNote(db, id).None? <==> s.result.None?
    ensures s.result.None? ==> s.db == db
    ensures s.result.Some? ==>
              var before, n := GetNote(db, id).value, s.result.value;
              && n.id == id
              && n.highlights == HighlightList(input.highlights)
              && (before.stage in {Capture, Organize} ==> n.stage == Distill)
              && (before.stage in {Distill, Express} ==> n.stage == before.stage)
              && n == Touch(before, before.(highlights := n.highlights, stage := n.stage), now)
              && s.db == db.(notes := Write(db.notes, NoteKey, id, n))
  {
    match GetNote(db, id)
    case None => Step(db, None)
    case Some(before) =>
      var n := Touch(before, before.(highlights := HighlightList(input.highlights),
                                     stage := StageAfterHighlights(before.stage)), now);
      Step(db.(notes := Write(db.notes, NoteKey, id, n)), Some(n))
  }

  /** `delete_note`: true and the row gone, or false and nothing changed. */
  function DeleteNote(db: Db, id: Id): (s: Step<bool>)
    ensures s.result <==> exists n :: n in db.notes && n.id == id
    ensures !s.result ==> s.db == db
    ensures s.db.containers == db.containers
    ensures forall n :: n in s.db.notes <==> n in db.notes && n.id != id
    ensures IsSubsequence(s.db.notes, db.notes)
  {
    match GetNote(db, id)
    case None =>
      assert Delete(db.notes, NoteKey, id) == db.notes;
      Step(db, false)
    case Some(_) => Step(db.(notes := Delete(db.notes, NoteKey, id)), true)
  }
}
