/**
 Request and response shapes of the service layer. Constructor defaults
 mirror the schema defaults: a field a client may omit has `:=`.
 */
module Schemas {
  import opened Fields
  import opened Models

  /** Title and content are required; provenance defaults to null. */
  datatype NoteCreate = NoteCreate(
    title: string,
    content: string,
    sourceUrl: Option<string> := None,
    sourceType: Option<string> := None
  )

  /** The partial update of a note. It has no stage, container or highlights
      field, so a generic update cannot reach them. `Set(None)` is an
      explicit JSON null. */
  datatype NoteUpdate = NoteUpdate(
    title: Patch<Option<string>> := Unset,
    content: Patch<Option<string>> := Unset,
    contentHtml: Patch<Option<string>> := Unset,
    sourceUrl: Patch<Option<string>> := Unset,
    sourceType: Patch<Option<string>> := Unset,
    executiveSummary: Patch<Option<string>> := Unset
  )

  /** A highlight replacement; an omitted list is the empty list. */
  datatype NoteHighlightsUpdate = NoteHighlightsUpdate(highlights: seq<HighlightRange> := [])

  /** Name and type are required; the rest defaults to null. `is_active`
      cannot be chosen at creation. */
  datatype ContainerCreate = ContainerCreate(
    name: string,
    kind: ContainerType,
    description: Option<string> := None,
    parentId: Option<Id> := None,
    deadline: Option<Timestamp> := None,
    status: Option<string> := None
  )

  /** The partial update of a container; unlike creation it can set the type
      and `is_active`, so it can archive or un-archive on its own. */
  datatype ContainerUpdate = ContainerUpdate(
    name: Patch<Option<string>> := Unset,
    kind: Patch<Option<ContainerType>> := Unset,
    description: Patch<Option<string>> := Unset,
    parentId: Patch<Option<Id>> := Unset,
    isActive: Patch<Option<bool>> := Unset,
    deadline: Patch<Option<Timestamp>> := Unset,
    status: Patch<Option<string>> := Unset
  )

  /** A container with the number of notes filed in it. */
  datatype ContainerWithCount = ContainerWithCount(container: Container, noteCount: int := 0)

  function NoteCountOf(e: ContainerWithCount): (n: int)
  {
    e.noteCount
  }

  /** A container with the notes filed directly in it. */
  datatype ContainerWithNotes = ContainerWithNotes(container: Container, notes: seq<Note> := [])
}
