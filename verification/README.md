# Second Brain: notes, containers and their client stores, in Dafny

The project models the core of a personal knowledge base. It combines two
methods: PARA, which files notes into projects, areas, resources and archives,
and CODE, which moves a note through the stages capture, organize, distill and
express. The model has three layers.

- **Database.** The `notes` and `containers` tables are sequences of rows kept
  in storage order (`Store.Db`). Primary keys are unique (`Store.Valid`).
  Foreign keys are not enforced.
- **Services.** The note, search and container services are pure functions
  from the database before a call to the database after it, together with the
  value returned (`Store.Step`). Where the database would refuse a write, the
  result is an `Outcome`. The generated UUID and the clock reading are
  parameters.
- **Client stores.** The client note and container stores are pure functions
  over the lists the views show. Each one takes the record the server returned
  as a parameter.

The modules follow the program's structure:

| module | file | models |
|---|---|---|
| `Fields` | fields.dfy | nullable values and partial-update fields |
| `Seqs` | seqs.dfy | order-preserving filter, counting, `findIndex`, stable sort, sums |
| `Text` | text.dfy | `ILIKE '%q%'` as ASCII case-insensitive substring search; name order |
| `Models` | models.dfy | the `Note` and `Container` rows, the stage and type enumerations |
| `Schemas` | schemas.dfy | request and response shapes with their defaults |
| `Lifecycle` | lifecycle.dfy | how moves and highlight updates change the stage |
| `Store` | store.dfy | the two tables; lookup, `UPDATE` and `DELETE` by key, defined once for any table over its key function |
| `NoteService`, `NoteProperties` | note_service.dfy, note_properties.dfy | the note service and what holds across its calls |
| `SearchService` | search_service.dfy | inbox, search, recent notes |
| `ContainerService`, `ContainerProperties` | container_service.dfy, container_properties.dfy | the container service and what holds across its calls |
| `NotesStore`, `NotesStoreSync` | notes_store.dfy, notes_store_sync.dfy | the client note store, and how it follows the server |
| `ContainersStore`, `ContainersStoreSync` | containers_store.dfy, containers_store_sync.dfy | the client container store, and how it follows the server |

These modelling choices apply throughout:

- **`updated_at`.** The column is refreshed only when a row is actually
  written. An assignment that changes nothing keeps the old timestamp (`Touch`).
- **Partial updates.** `Patch.Unset` is a field the client left out. An
  explicit `null` written to a NOT NULL column is refused by the database, and
  the model returns `NotNullViolation` with the database unchanged. The NOT
  NULL columns are a note's title and content and a container's name, type and
  `is_active`.
- **`get_recent` with a negative limit.** SQLite reads a negative `LIMIT` as no
  limit, so the call returns every note.
- **Stage filter.** The `code_stage` column stores member names (`CAPTURE`,
  `ORGANIZE`, `DISTILL`, `EXPRESS`). A filter string binds to a member when it is a value string (the
  enumeration subclasses `str`, so a member equals its value) or a member
  name; any other string matches no row. The client compares value strings
  only, so the two sides disagree on member names
  (`NotesStoreSync.ByStageOfMemberName`).
- **Container type order.** The `type` column holds the enumeration's member
  names (`PROJECT`, `AREA`, `RESOURCE`, `ARCHIVE`), which is how SQLAlchemy
  stores an enumeration by default. `ORDER BY type` therefore compares those
  names: archives come first, then areas, projects and resources
  (`ContainerProperties.ArchivesListedFirst`).
- **Deleting a container.** The `notes` and `children` relationships carry
  the default cascade, which has no delete. When a container is deleted, the
  ORM first sets the foreign key of every note filed in it and of every child
  container to null, which rewrites those rows and refreshes their
  `updated_at`. The notes themselves survive, filed nowhere.
  A missing id returns false, even when some note still names it.
- **Client inbox.** It tests `!container_id`, so both null and the empty string
  count as unfiled. Server ids are UUIDs, which are never empty, so on server
  data the client inbox agrees with the server inbox
  (`NotesStoreSync.InboxAgreesWithServer`).

## Model

| member | source | states |
|---|---|---|
| Models.StageValueInjective | backend/app/models/note.py:20-24 | the four stages have four distinct value strings, so comparing values compares stages |
| Models.StageSpellingsDistinct | backend/app/models/note.py:20-24 | the four stored member names are distinct, and none of them equals any stage's value string |
| Lifecycle.StageAfterMove | backend/app/services/note_service.py:73-74 | a move lifts the stage to at least organize and otherwise leaves it alone; express comes only from express |
| Lifecycle.StageAfterHighlights | backend/app/services/note_service.py:91-92 | a highlight update lifts the stage to at least distill and otherwise leaves it alone; express comes only from express |
| Lifecycle.Next | backend/app/services/note_service.py:52-96 | no single note operation lowers the stage or produces express |
| Lifecycle.RunMonotone | backend/app/services/note_service.py:65-96 | no sequence of moves, highlight updates and edits lowers a note's stage |
| Lifecycle.RunNeverReachesExpress | backend/app/services/note_service.py:14-96 | a note that is not yet at express never reaches express, whatever operations follow |
| Lifecycle.RunWithHighlightsIsDistilled | backend/app/services/note_service.py:91-92 | once any highlight update has happened, the note is at distill or later from then on |
| Lifecycle.PromotionsIdempotent | backend/app/services/note_service.py:72-92 | repeating a move or a highlight update changes the stage no further, and a move after a highlight update changes nothing |
| NoteService.Touch | backend/app/models/note.py:43-45 | `updated_at` becomes `now` exactly when the row changes; the row written differs from the assigned one only in `updated_at` |
| NoteService.CreateNote | backend/app/services/note_service.py:14-25 | the new row copies title, content and source fields, starts at capture with no container and no highlights, is stamped `now` for creation, update and capture, and is appended with nothing else changed |
| NoteService.GetNote | backend/app/services/note_service.py:27-29 | returns a row of the table with that id, and returns nothing exactly when no row has that id |
| NoteService.NewerOrSameIsTotalPreorder | backend/app/services/note_service.py:48 | ordering by `updated_at` descending is total and transitive |
| NoteService.ListNotes | backend/app/services/note_service.py:31-50 | each note occurs as often as in the table if it satisfies every present, non-empty filter (container, stage given by its value string or its stored member name, query in title or content ignoring case) and otherwise not at all; newest update first |
| NoteService.UpdateNote | backend/app/services/note_service.py:52-63 | missing id gives NotFound and a null title or content gives NotNullViolation, both with the database unchanged; otherwise every supplied field, explicit nulls included, is written, stage, container, highlights and creation times never change, and `updated_at` becomes now exactly when some other field changed |
| NoteService.MoveToContainer | backend/app/services/note_service.py:65-78 | missing id gives nothing with the database unchanged; otherwise the container becomes the target, capture becomes organize, other stages stay, and only that row is rewritten |
| NoteService.UpdateHighlights | backend/app/services/note_service.py:80-96 | missing id gives nothing with the database unchanged; otherwise the highlights become exactly the given list, capture and organize become distill, distill and express stay |
| NoteService.DeleteNote | backend/app/services/note_service.py:98-105 | true exactly when the id exists; afterwards the table holds exactly the other rows, in their order, and the containers are untouched |
| NoteProperties.CreateThenGet | backend/app/services/note_service.py:14-29 | a created note is read back under its id, and keys stay unique |
| NoteProperties.UpdateThenGet | backend/app/services/note_service.py:52-63 | after a successful update, reading the id returns the updated note; keys stay unique |
| NoteProperties.MoveThenGet | backend/app/services/note_service.py:65-78 | after a move, reading the id returns the moved note; keys stay unique |
| NoteProperties.HighlightsThenGet | backend/app/services/note_service.py:80-96 | after a highlight update, reading the id returns the updated note; keys stay unique |
| NoteProperties.DeleteThenGet | backend/app/services/note_service.py:98-105 | after a delete the id is gone, keys stay unique, and a successful delete removes exactly one row |
| NoteProperties.StageNeverDecreases | backend/app/services/note_service.py:52-96 | move and highlight update never lower the stage or produce express, and a field update keeps the stage |
| NoteProperties.CreationTimesNeverChange | backend/app/models/note.py:42-46 | move, highlight update and field update keep `captured_at` and `created_at` |
| NoteProperties.StageFilterSelectsStage | backend/app/services/note_service.py:41-42 | listing with a stage's value string as the filter selects exactly the notes at that stage, each as often as in the table |
| NoteProperties.StageNameFilterSelectsStage | backend/app/services/note_service.py:41-42 | listing with a stage's stored member name as the filter selects exactly the notes at that stage, the same as its value string |
| NoteProperties.HighlightsReplaceWholesale | backend/app/services/note_service.py:87-89 | after two highlight updates only the second list is stored |
| NoteProperties.EmptyHighlightsStillDistill | backend/app/schemas/note.py:39-40 | an update with the default empty list still promotes capture and organize to distill |
| NoteProperties.MoveToInboxKeepsStage | backend/app/services/note_service.py:72-74 | moving a note that is past capture to no container unfiles it and keeps its stage |
| NoteProperties.MoveCaptureToInboxOrganizes | backend/app/services/note_service.py:72-74 | moving a capture note to no container makes it organize although it is filed nowhere |
| NoteProperties.MoveToInboxExample | backend/tests/unit/test_note_service.py:79-96 | for the unit test's organized note, a move to no container returns it unfiled and still organized, not at capture |
| SearchService.CapturedLaterOrSameIsTotalPreorder | backend/app/services/search_service.py:17 | ordering by `captured_at` descending is total and transitive |
| SearchService.GetInbox | backend/app/services/search_service.py:11-19 | exactly the notes at capture with no container, each as often as in the table, latest capture first |
| SearchService.SearchNotes | backend/app/services/search_service.py:21-28 | exactly the notes whose title or content contains the query ignoring case, newest update first |
| SearchService.GetRecent | backend/app/services/search_service.py:30-33 | min(limit, N) notes (all N for a negative limit), drawn from the table, newest first, each at least as new as every note left out |
| SearchService.TakeOfSorted | backend/app/services/search_service.py:32 | a prefix of a newest-first list holds notes at least as new as every note after it |
| SearchService.SearchIsListWithQuery | backend/app/services/search_service.py:21-28 | search returns the same list as `list_notes` given only that query; for the empty query both return every note |
| SearchService.FiledCaptureNotInInbox | backend/app/services/search_service.py:14-16 | a capture note filed in a container is not in the inbox |
| SearchService.CreatedNoteInInbox | backend/app/services/search_service.py:14-16 | a newly created note is in the inbox |
| SearchService.RecentWithoutLimitListsEverything | backend/app/services/search_service.py:30-33 | with any negative limit, or any limit of at least N, the recent list holds every note |
| Text.ContainsIff | backend/app/services/search_service.py:25 | the substring test holds exactly when the pattern occurs at some offset |
| Text.MatchesIgnoringCaseIff | backend/app/services/search_service.py:25 | `ILIKE '%q%'` holds exactly when the lower-cased query occurs at some offset of the lower-cased text |
| Text.EmptyQueryMatchesAll | backend/app/services/search_service.py:25 | the empty query matches every text |
| Text.MatchIgnoresQueryCase | backend/app/services/search_service.py:25 | queries that differ only in letter case match the same texts |
| Text.NameLeTotal | backend/app/services/container_service.py:48 | any two names are ordered one way or the other |
| Text.NameLeTransitive | backend/app/services/container_service.py:48 | the name order is transitive |
| Text.NameLeAntisymmetric | backend/app/services/container_service.py:48 | names ordered both ways are equal |
| ContainerService.TouchContainer | backend/app/models/container.py:35-38 | `updated_at` becomes `now` exactly when the row changes; nothing else differs from the assigned row |
| ContainerService.CreateContainer | backend/app/services/container_service.py:16-28 | the new row copies name, type, description, parent, deadline and status, is active, is stamped `now`, and is appended with nothing else changed |
| ContainerService.GetContainer | backend/app/services/container_service.py:30-32 | returns a row with that id, and returns nothing exactly when no row has that id |
| ContainerService.GetContainerWithNotes | backend/app/services/container_service.py:34-40 | nothing exactly when the id is missing; otherwise the container with exactly the notes whose container is that id, one level deep, in table order |
| ContainerService.TypeThenNameIsTotalPreorder | backend/app/services/container_service.py:48 | ordering by type, then name, is total and transitive |
| ContainerService.CountedEntries | backend/app/services/container_service.py:44-47 | the outer join gives one entry per container, counting the notes filed in it, with zero for an empty one |
| ContainerService.ListContainersWithCounts | backend/app/services/container_service.py:42-70 | one entry per container, empty ones included, each carrying the number of notes filed in it, as a reordering of the grouped rows; ordered by the stored type name, then within one type by name |
| ContainerService.UpdateContainer | backend/app/services/container_service.py:72-85 | missing id gives NotFound and a null name, type or `is_active` gives NotNullViolation, both with the database unchanged; otherwise exactly the supplied fields are written, `created_at` is kept, and `updated_at` becomes now exactly when some other field changed |
| ContainerService.ArchiveContainer | backend/app/services/container_service.py:87-97 | missing id gives nothing with the database unchanged; otherwise the type becomes archive and the container inactive, no other field except `updated_at` changes, and `updated_at` becomes now unless the container was already an inactive archive |
| ContainerService.DeleteContainer | backend/app/services/container_service.py:99-106 | missing id gives false with the database unchanged; otherwise true, the other containers stay in order, every note filed in it is unfiled and every child loses its parent (each such row stamped `now`, nothing else changed), and nothing refers to the key afterwards |
| ContainerProperties.CreateContainerThenGet | backend/app/services/container_service.py:16-32 | a created container is read back under its id, and keys stay unique |
| ContainerProperties.UpdateContainerThenGet | backend/app/services/container_service.py:72-85 | after a successful update, reading the id returns the updated container; keys stay unique |
| ContainerProperties.ArchiveThenGet | backend/app/services/container_service.py:87-97 | after archiving, reading the id returns the archived container; keys stay unique |
| ContainerProperties.ArchiveIdempotent | backend/app/services/container_service.py:87-97 | archiving twice gives the same database and result as archiving once, timestamp included |
| ContainerProperties.UpdateCanArchive | backend/app/schemas/container.py:25-32 | a generic update setting type archive and `is_active` false has exactly the effect of `archive_container` |
| ContainerProperties.ParentMayBeSelf | backend/app/models/container.py:31 | an update may make a container its own parent; nothing checks for cycles |
| ContainerProperties.DeleteContainerThenGet | backend/app/services/container_service.py:99-106 | after a delete the id is gone and keys stay unique; a successful delete removes exactly one container, keeps every note, and leaves nothing referring to the key |
| ContainerProperties.DeletedContainerKeys | backend/app/services/container_service.py:99-106 | after a successful delete the containers carry exactly the keys they had except the deleted one |
| ContainerProperties.DeleteUnfilesItsNotes | backend/app/models/container.py:45 | deleting a container lowers the number of notes filed in an existing container by exactly the notes that were filed in it |
| ContainerProperties.ListedTotalAfterDelete | backend/app/services/container_service.py:42-106 | after deleting an existing container, the listing's counts add up to the old total less that container's count |
| ContainerProperties.EmptyContainerListed | backend/app/services/container_service.py:44-47 | a container with no notes is listed, with a count of zero |
| ContainerProperties.EntryCountsAddUp | backend/app/services/container_service.py:44-47 | with unique keys, the counts of the outer join add up to the number of notes filed in one of the containers |
| ContainerProperties.EntriesCountOf | backend/app/services/container_service.py:44-47 | with unique keys the outer join yields exactly one entry for an existing container |
| ContainerProperties.StoredTypeOrder | backend/app/models/container.py:17-29 | the stored type names collate as archive, area, project, resource |
| ContainerProperties.OnlyArchiveSortsFirst | backend/app/services/container_service.py:48 | no other type's stored name collates at or before the archive's |
| ContainerProperties.ArchivesListedFirst | backend/app/services/container_service.py:42-49 | in the listing no container of another type comes before an archive |
| ContainerProperties.ListedCountsAddUp | backend/app/services/container_service.py:42-70 | the counts of the listing add up to the number of notes filed in an existing container: each such note is counted once, and inbox notes or notes naming a missing container are not counted |
| NotesStore.Inbox | frontend/src/stores/notes.ts:14-18 | exactly the capture notes whose container is null or empty, in list order |
| NotesStore.ByContainer | frontend/src/stores/notes.ts:20-22 | exactly the notes filed in the given container, in list order |
| NotesStore.ByStage | frontend/src/stores/notes.ts:24-26 | exactly the notes whose stage value is the given string, in list order |
| NotesStore.QuickCapture | frontend/src/stores/notes.ts:86-99 | the created note is put first, the old list follows unchanged, and the open note is kept |
| NotesStore.ReplaceFirst | frontend/src/stores/notes.ts:106-109 | the first note with the id becomes the server's record; the length and every other entry, later duplicates included, are unchanged |
| NotesStore.ApplyUpdated | frontend/src/stores/notes.ts:101-120 | the list changes by replacing only the first entry with that id, and not at all when the id is absent; the open note becomes the server's record exactly when it has that id |
| NotesStore.DeleteNote | frontend/src/stores/notes.ts:164-179 | every entry with the id leaves the list, the others stay in order with their multiplicity, and the open note is closed exactly when it had that id |
| NotesStore.ClearCurrentNote | frontend/src/stores/notes.ts:194-196 | the open note is cleared and the list is unchanged |
| NotesStoreSync.InboxAgreesWithServer | frontend/src/stores/notes.ts:14-18 | on server data (no empty container id) the client inbox holds the same notes as the server inbox |
| NotesStoreSync.InboxOfFetchedInbox | frontend/src/stores/notes.ts:14-18 | applying the inbox getter to the fetched server inbox returns that list unchanged |
| NotesStoreSync.ByContainerAgreesWithServer | frontend/src/stores/notes.ts:20-22 | `byContainer` over the table is the note list of `get_container_with_notes` |
| NotesStoreSync.ByStageAgreesWithList | frontend/src/stores/notes.ts:24-26 | for a non-empty stage string other than a stored member name, `byStage` selects the same notes as `list_notes` with that stage filter |
| NotesStoreSync.ByStageOfEmptyName | frontend/src/stores/notes.ts:24-26 | `byStage("")` is empty, whereas the server skips an empty stage filter |
| NotesStoreSync.ByStageOfMemberName | frontend/src/stores/notes.ts:24-26 | `byStage` of a stored member name such as `"CAPTURE"` is empty, whereas the server binds it to the member and lists every note at that stage |
| NotesStoreSync.ReplaceFirstIsWrite | frontend/src/stores/notes.ts:106-109 | with unique ids, replacing the first match is the server's `UPDATE ... WHERE id` |
| NotesStoreSync.ListFollowsServerWrites | frontend/src/stores/notes.ts:101-162 | a list holding the table, edited with the record returned by update, move or highlight update, equals the table after that call |
| NotesStoreSync.DeleteFollowsServer | frontend/src/stores/notes.ts:164-172 | a list holding the table, after a client delete, equals the table after the server delete |
| NotesStoreSync.CapturedNoteHeadsInbox | frontend/src/stores/notes.ts:86-99 | a note captured through the client is first in the client inbox, ahead of the previous inbox |
| ContainersStore.Projects | frontend/src/stores/containers.ts:21-23 | exactly the active projects, in list order |
| ContainersStore.Areas | frontend/src/stores/containers.ts:25-27 | exactly the active areas, in list order |
| ContainersStore.Resources | frontend/src/stores/containers.ts:29-31 | exactly the active resources, in list order |
| ContainersStore.Archives | frontend/src/stores/containers.ts:33-35 | exactly the archive-type entries and the inactive entries, in list order |
| ContainersStore.ByType | frontend/src/stores/containers.ts:37-39 | exactly the entries of the given type, active or not, in list order |
| Seqs.SumFrom | frontend/src/stores/containers.ts:41-43 | a left fold carrying a running sum ends at the starting value plus the sum of all the values |
| ContainersStore.TotalNoteCount | frontend/src/stores/containers.ts:41-43 | the `reduce` from 0 gives the sum of the entries' counts |
| ContainersStore.TotalOfAppend | frontend/src/stores/containers.ts:41-43 | the total of two lists put together is the sum of their totals |
| ContainersStore.MergeEntry | frontend/src/stores/containers.ts:96-99 | the server's container fields replace the entry's, and the entry keeps its count |
| ContainersStore.ApplyUpdated | frontend/src/stores/containers.ts:89-141 | only the first entry with the id takes the server's fields, keeping its count, and every other entry is unchanged; the open container takes them too when it has that id, keeping its notes |
| ContainersStore.DeleteContainer | frontend/src/stores/containers.ts:143-158 | every entry with the id leaves the list, the others stay in order with their multiplicity, and the open container is closed exactly when it had that id |
| ContainersStore.ClearCurrentContainer | frontend/src/stores/containers.ts:160-162 | the open container is cleared and the list is unchanged |
| ContainersStore.GroupsPartition | frontend/src/stores/containers.ts:21-35 | every entry is in exactly one of projects, areas, resources and archives |
| ContainersStore.GroupLengthsAddUp | frontend/src/stores/containers.ts:21-35 | the four groups together have as many entries as the list |
| ContainersStore.GroupCountsAddUp | frontend/src/stores/containers.ts:21-43 | the note counts of the four groups add up to the list's |
| ContainersStore.GroupsAddUp | frontend/src/stores/containers.ts:21-43 | the four getters split the list: their lengths and their totals add up to those of the whole list |
| ContainersStore.ArchiveTypeIsArchived | frontend/src/stores/containers.ts:33-39 | every archive-type entry is among the archives, whether active or not |
| ContainersStore.MergeKeepsTotal | frontend/src/stores/containers.ts:94-100 | merging a server response leaves the total note count unchanged |
| ContainersStore.DeleteTakesOffItsCount | frontend/src/stores/containers.ts:148 | a delete lowers the total by exactly the counts of the removed entries |
| ContainersStoreSync.ListedTotalIsFiledNotes | frontend/src/stores/containers.ts:41-43 | the total of the fetched listing is the number of notes filed in an existing container |
| ContainersStoreSync.MergedEntryCarriesCount | frontend/src/stores/containers.ts:94-100 | merging a response for a listed container yields the response together with that container's note count |
| ContainersStoreSync.UpdateMergeMatchesRefetch | frontend/src/stores/containers.ts:89-114 | after `update_container`, the merged client entry is the entry a fresh listing shows for that container |
| ContainersStoreSync.ListedEntryOf | backend/app/services/container_service.py:42-70 | with unique keys the fetched listing holds exactly one entry for an existing container, carrying its note count |
| ContainersStoreSync.ClientTotalAfterDelete | frontend/src/stores/containers.ts:143-158 | deleting a listed container on the client lowers the total by its note count, and a missing id changes nothing |
| ContainersStoreSync.DeleteMatchesRefetch | frontend/src/stores/containers.ts:143-158 | after `delete_container`, the client total equals the total of a fresh listing |
| ContainersStoreSync.ArchiveMergeMatchesRefetch | frontend/src/stores/containers.ts:116-141 | after `archive_container`, the merged entry matches a fresh listing and has moved into the archives group, out of the other three |

## Code and tests disagree

The unit test at backend/tests/unit/test_note_service.py:79-96 says that
moving a note to no container sends it back to capture.
`move_to_container` (backend/app/services/note_service.py:72-74) never does
that: it promotes capture to organize and otherwise keeps the stage, whatever
the target is. The model follows the code:

- `NoteProperties.MoveToInboxKeepsStage` and
  `NoteProperties.MoveToInboxExample` show that an organized note stays
  organized.
- `NoteProperties.MoveCaptureToInboxOrganizes` shows that a capture note moved
  to no container becomes organize.

## Left out

- Async sessions, commits, refreshes and transactions are not modelled. Each
  service call is one atomic step. Database-generated ids and `func.now()` are
  parameters (`id`, `now`).
- NoteService.ListNotes: `%` and `_` in the query are SQL wildcards. The model
  treats them as literal characters.
- SearchService.SearchNotes: `%` and `_` in the query are SQL wildcards. The
  model treats them as literal characters.
- Text.MatchesIgnoringCaseIff: case folding covers ASCII letters only. This is
  SQLite's default; other databases fold more.
- Which order the rows come back in without `ORDER BY` is not modelled. This
  affects `get_container_with_notes` and the ties of each sort; the model uses
  table order.
- String length limits (`String(500)` and others) are not modelled: SQLite
  does not enforce them.
- The tag model and the note-tag association are not modelled: no modelled
  code reads them.
- The HTTP routers are not modelled: they only turn a missing result into a
  404 response.
- Loading and error flags are not modelled, nor is a failed server call: a
  rejected call leaves the lists untouched.
- The fetch actions are not modelled as separate operations. These are
  `fetchNotes`, `fetchInbox`, `fetchRecent`, `fetchNote`, `searchNotes`,
  `fetchContainers` and `fetchContainer`. Each one replaces the list or the
  open record with a query result, and those queries are modelled by the
  service functions.
- `createContainer` in the client store refetches the whole listing, which is
  `ContainerService.ListContainersWithCounts`.
- JavaScript number precision is not modelled: counts and their sum are
  unbounded integers.
- Timestamps are abstract natural numbers; the client sees them as strings.
