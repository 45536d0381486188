/**
 The client-side note store: the list of notes the views show and the note
 open in the editor. The getters are order-preserving filters of the list;
 the actions call the server and then edit the list with the record it
 returned, which is a parameter here (`created`, `updated`).
 */
module NotesStore {
  import opened Fields
  import opened Models
  import opened Seqs

  datatype State = State(notes: seq<Note>, currentNote: Option<Note>)

  /** `!note.container_id`: null and the empty string are both falsy. */
  predicate Unfiled(n: Note)
  {
    n.containerId == None || n.containerId == Some("")
  }

  /** What the `inbox` getter keeps: capture notes without a container. */
  predicate ShownInInbox(n: Note)
  {
    n.stage == Capture && Unfiled(n)
  }

  /** `inbox`: the capture notes without a container, in list order. */
  function Inbox(st: State): (r: seq<Note>)
    ensures forall n :: multiset(r)[n] == if n.stage == Capture && Unfiled(n) then multiset(st.notes)[n] else 0
    ensures IsSubsequence(r, st.notes)
  {
    Filter(st.notes, ShownInInbox)
  }

  /** `byContainer(c)`: the notes whose container is `c`, in list order. */
  function ByContainer(st: State, c: Id): (r: seq<Note>)
    ensures forall n :: multiset(r)[n] == if n.containerId == Some(c) then multiset(st.notes)[n] else 0
    ensures IsSubsequence(r, st.notes)
  {
    Filter(st.notes, (n: Note) => n.containerId == Some(c))
  }

  /** `byStage(s)`: the notes whose stage value is the string `s`, in list order. */
  function ByStage(st: State, s: string): (r: seq<Note>)
    ensures forall n :: multiset(r)[n] == if StageValue(n.stage) == s then multiset(st.notes)[n] else 0
    ensures IsSubsequence(r, st.notes)
  {
    Filter(st.notes, (n: Note) => StageValue(n.stage) == s)
  }

  /** `quickCapture`: the created note goes to the front of the list. */
  function QuickCapture(st: State, created: Note): (r: State)
    ensures |r.notes| == |st.notes| + 1
    ensures r.notes[0] == created && r.notes[1..] == st.notes
    ensures r.currentNote == st.currentNote
  {
    State([created] + st.notes, st.currentNote)
  }

  /** The first note whose id is `id` becomes `updated`; every other note,
      later duplicates included, is kept. */
  function ReplaceFirst(notes: seq<Note>, id: Id, updated: Note): (r: seq<Note>)
    ensures |r| == |notes|
    ensures forall i :: 0 <= i < |notes| ==>
              r[i] == if notes[i].id == id && (forall k :: 0 <= k < i ==> notes[k].id != id) then updated else notes[i]
  {
    match FirstIndex(notes, (n: Note) => n.id == id)
    case None => notes
    case Some(i) => notes[i := updated]
  }

  /** The edit shared by `updateNote`, `moveToContainer` and
      `updateHighlights` once the server has answered with `updated`: the
      first list entry with that id and the open note, if it has that id,
      become `updated`. */
  function ApplyUpdated(st: State, id: Id, updated: Note): (r: State)
    ensures r.notes == ReplaceFirst(st.notes, id, updated)
    ensures (forall n :: n in st.notes ==> n.id != id) ==> r.notes == st.notes
    ensures r.currentNote == if st.currentNote.Some? && st.currentNote.value.id == id then Some(updated) else st.currentNote
  {
    var current := if st.currentNote.Some? && st.currentNote.value.id == id then Some(updated) else st.currentNote;
    State(ReplaceFirst(st.notes, id, updated), current)
  }

  /** `deleteNote` once the server has deleted `id`: every entry with that id
      leaves the list, and the open note is closed if it had that id. */
  function DeleteNote(st: State, id: Id): (r: State)
    ensures forall n :: n in r.notes <==> n in st.notes && n.id != id
    ensures forall n :: multiset(r.notes)[n] == if n.id != id then multiset(st.notes)[n] else 0
    ensures IsSubsequence(r.notes, st.notes)
    ensures r.currentNote == if st.currentNote.Some? && st.currentNote.value.id == id then None else st.currentNote
  {
    var rest := Filter(st.notes, (n: Note) => n.id != id);
    assert forall n :: n in rest <==> n in st.notes && n.id != id by {
      forall n ensures n in rest <==> n in st.notes && n.id != id {
        FilterMembership(st.notes, (n: Note) => n.id != id, n);
      }
    }
    State(rest, if st.currentNote.Some? && st.currentNote.value.id == id then None else st.currentNote)
  }

  /** `clearCurrentNote`: the editor is closed, the list kept. */
  function ClearCurrentNote(st: State): (r: State)
    ensures r.notes == st.notes && r.currentNote.None?
  {
    State(st.notes, None)
  }
}
