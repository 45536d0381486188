/**
 The client-side container store: the counted container list the sidebar
 shows and the container open in the detail view. The getters group the
 list; the actions merge the record the server returned (a parameter here)
 over the matching entry.
 */
module ContainersStore {
  import opened Fields
  import opened Models
  import opened Schemas
  import opened Seqs

  datatype State = State(containers: seq<ContainerWithCount>, currentContainer: Option<ContainerWithNotes>)

  /** What the `projects`, `areas` and `resources` getters keep: the active
      entries of one type. */
  predicate ActiveOfType(e: ContainerWithCount, t: ContainerType)
  {
    e.container.kind == t && e.container.isActive
  }

  predicate ActiveProject(e: ContainerWithCount) { ActiveOfType(e, Project) }
  predicate ActiveArea(e: ContainerWithCount) { ActiveOfType(e, Area) }
  predicate ActiveResource(e: ContainerWithCount) { ActiveOfType(e, Resource) }

  /** What the `archives` getter keeps: archive-type or inactive entries. */
  predicate Archived(e: ContainerWithCount)
  {
    e.container.kind == Archive || !e.container.isActive
  }

  /** `projects`: the active projects, in list order. */
  function Projects(st: State): (r: seq<ContainerWithCount>)
    ensures forall e :: multiset(r)[e] == if e.container.kind == Project && e.container.isActive then multiset(st.containers)[e] else 0
    ensures IsSubsequence(r, st.containers)
  {
    Filter(st.containers, ActiveProject)
  }

  /** `areas`: the active areas, in list order. */
  function Areas(st: State): (r: seq<ContainerWithCount>)
    ensures forall e :: multiset(r)[e] == if e.container.kind == Area && e.container.isActive then multiset(st.containers)[e] else 0
    ensures IsSubsequence(r, st.containers)
  {
    Filter(st.containers, ActiveArea)
  }

  /** `resources`: the active resources, in list order. */
  function Resources(st: State): (r: seq<ContainerWithCount>)
    ensures forall e :: multiset(r)[e] == if e.container.kind == Resource && e.container.isActive then multiset(st.containers)[e] else 0
    ensures IsSubsequence(r, st.containers)
  {
    Filter(st.containers, ActiveResource)
  }

  /** `archives`: the archive-type entries and the inactive ones, in list order. */
  function Archives(st: State): (r: seq<ContainerWithCount>)
    ensures forall e :: multiset(r)[e] == if e.container.kind == Archive || !e.container.isActive then multiset(st.containers)[e] else 0
    ensures IsSubsequence(r, st.containers)
  {
    Filter(st.containers, Archived)
  }

  /** `byType(t)`: the entries of type `t`, active or not, in list order. */
  function ByType(st: State, t: ContainerType): (r: seq<ContainerWithCount>)
    ensures forall e :: multiset(r)[e] == if e.container.kind == t then multiset(st.containers)[e] else 0
    ensures IsSubsequence(r, st.containers)
  {
    Filter(st.containers, (e: ContainerWithCount) => e.container.kind == t)
  }

  /** `totalNoteCount`: `reduce` with a running sum starting at 0, which is
      the sum of the counts. */
  function TotalNoteCount(entries: seq<ContainerWithCount>): (total: int)
    ensures total == SumOf(entries, NoteCountOf)
  {
    SumFrom(0, entries, NoteCountOf)
  }

  /** The total of two lists put together is the sum of their totals. */
  lemma TotalOfAppend(a: seq<ContainerWithCount>, b: seq<ContainerWithCount>)
    ensures TotalNoteCount(a + b) == TotalNoteCount(a) + TotalNoteCount(b)
  {
    SumOfAppend(a, b, NoteCountOf);
  }

  /** `{...entry, ...updated}`: the server's container fields over the entry;
      the response has no count, so the entry keeps its own. */
  function MergeEntry(e: ContainerWithCount, updated: Container): (r: ContainerWithCount)
    ensures r.container == updated && r.noteCount == e.noteCount
  {
    e.(container := updated)
  }

  /** The edit shared by `updateContainer` and `archiveContainer` once the
      server has answered with `updated`: the first entry with that id and
      the open container, if it has that id, take the server's fields; the
      open container keeps its notes. */
  function ApplyUpdated(st: State, id: Id, updated: Container): (r: State)
    ensures |r.containers| == |st.containers|
    ensures forall i :: 0 <= i < |st.containers| ==>
              r.containers[i] ==
                if st.containers[i].container.id == id && (forall k :: 0 <= k < i ==> st.containers[k].container.id != id)
                then ContainerWithCount(updated, st.containers[i].noteCount)
                else st.containers[i]
    ensures r.currentContainer ==
              if st.currentContainer.Some? && st.currentContainer.value.container.id == id
              then Some(ContainerWithNotes(updated, st.currentContainer.value.notes))
              else st.currentContainer
  {
    var entries :=
      match FirstIndex(st.containers, (e: ContainerWithCount) => e.container.id == id)
      case None => st.containers
      case Some(i) => st.containers[i := MergeEntry(st.containers[i], updated)];
    var current :=
      if st.currentContainer.Some? && st.currentContainer.value.container.id == id
      then Some(st.currentContainer.value.(container := updated))
      else st.currentContainer;
    State(entries, current)
  }

  /** `deleteContainer` once the server has deleted `id`: every entry with
      that id leaves the list, and the open container is closed if it had
      that id. */
  function DeleteContainer(st: State, id: Id): (r: State)
    ensures forall e :: e in r.containers <==> e in st.containers && e.container.id != id
    ensures forall e :: multiset(r.containers)[e] == if e.container.id != id then multiset(st.containers)[e] else 0
    ensures IsSubsequence(r.containers, st.containers)
    ensures r.currentContainer ==
              if st.currentContainer.Some? && st.currentContainer.value.container.id == id then None else st.currentContainer
  {
    var rest := Filter(st.containers, (e: ContainerWithCount) => e.container.id != id);
    assert forall e :: e in rest <==> e in st.containers && e.container.id != id by {
      forall e ensures e in rest <==> e in st.containers && e.container.id != id {
        FilterMembership(st.containers, (e: ContainerWithCount) => e.container.id != id, e);
      }
    }
    State(rest, if st.currentContainer.Some? && st.currentContainer.value.container.id == id then None else st.currentContainer)
  }

  /** `clearCurrentContainer`: the detail view is closed, the list kept. */
  function ClearCurrentContainer(st: State): (r: State)
    ensures r.containers == st.containers && r.currentContainer.None?
  {
    State(st.containers, None)
  }

  /** Every entry is in exactly one of `projects`, `areas`, `resources` and
      `archives`. */
  lemma GroupsPartition(st: State, e: ContainerWithCount)
    requires e in st.containers
    ensures (if e in Projects(st) then 1 else 0) + (if e in Areas(st) then 1 else 0)
            + (if e in Resources(st) then 1 else 0) + (if e in Archives(st) then 1 else 0) == 1
  {
    FilterMembership(st.containers, ActiveProject, e);
    FilterMembership(st.containers, ActiveArea, e);
    FilterMembership(st.containers, ActiveResource, e);
    FilterMembership(st.containers, Archived, e);
  }

  /** The four groups of a list have as many entries as the list. */
  lemma {:induction false} GroupLengthsAddUp(s: seq<ContainerWithCount>)
    ensures |Filter(s, ActiveProject)| + |Filter(s, ActiveArea)| + |Filter(s, ActiveResource)|
            + |Filter(s, Archived)| == |s|
  {
    if s != [] {
      GroupLengthsAddUp(s[1..]);
    }
  }

  /** The note counts of the four groups of a list add up to the list's. */
  lemma {:induction false} GroupCountsAddUp(s: seq<ContainerWithCount>)
    ensures SumOf(Filter(s, ActiveProject), NoteCountOf) + SumOf(Filter(s, ActiveArea), NoteCountOf)
            + SumOf(Filter(s, ActiveResource), NoteCountOf) + SumOf(Filter(s, Archived), NoteCountOf)
            == SumOf(s, NoteCountOf)
  {
    if s != [] {
      GroupCountsAddUp(s[1..]);
      var e := s[0];
      if ActiveProject(e) {
        assert SumOf(Filter(s, ActiveProject), NoteCountOf)
               == e.noteCount + SumOf(Filter(s[1..], ActiveProject), NoteCountOf);
      } else if ActiveArea(e) {
        assert SumOf(Filter(s, ActiveArea), NoteCountOf)
               == e.noteCount + SumOf(Filter(s[1..], ActiveArea), NoteCountOf);
      } else if ActiveResource(e) {
        assert SumOf(Filter(s, ActiveResource), NoteCountOf)
               == e.noteCount + SumOf(Filter(s[1..], ActiveResource), NoteCountOf);
      } else {
        assert SumOf(Filter(s, Archived), NoteCountOf)
               == e.noteCount + SumOf(Filter(s[1..], Archived), NoteCountOf);
      }
    }
  }

  /** The four groups together hold the list: their lengths and their note
      counts add up to those of the whole list. */
  lemma GroupsAddUp(st: State)
    ensures |Projects(st)| + |Areas(st)| + |Resources(st)| + |Archives(st)| == |st.containers|
    ensures TotalNoteCount(Projects(st)) + TotalNoteCount(Areas(st)) + TotalNoteCount(Resources(st))
            + TotalNoteCount(Archives(st)) == TotalNoteCount(st.containers)
  {
    GroupLengthsAddUp(st.containers);
    GroupCountsAddUp(st.containers);
  }

  /** Every archive-type entry is among the archives, active or not. */
  lemma ArchiveTypeIsArchived(st: State, e: ContainerWithCount)
    requires e in ByType(st, Archive)
    ensures e in Archives(st)
  {
    assert multiset(ByType(st, Archive))[e] > 0;
    assert multiset(Archives(st))[e] > 0;
  }

  /** Merging a server response keeps every count, so the total is unchanged. */
  lemma MergeKeepsTotal(st: State, id: Id, updated: Container)
    ensures TotalNoteCount(ApplyUpdated(st, id, updated).containers) == TotalNoteCount(st.containers)
  {
    match FirstIndex(st.containers, (e: ContainerWithCount) => e.container.id == id)
    case None =>
    case Some(i) =>
      SumOfUpdate(st.containers, i, MergeEntry(st.containers[i], updated), NoteCountOf);
  }

  /** Deleting takes exactly the counts of the removed entries off the total. */
  lemma DeleteTakesOffItsCount(st: State, id: Id)
    ensures TotalNoteCount(DeleteContainer(st, id).containers)
            + TotalNoteCount(Filter(st.containers, (e: ContainerWithCount) => e.container.id == id))
            == TotalNoteCount(st.containers)
  {
    SumOfFilterSplit(st.containers, (e: ContainerWithCount) => e.container.id != id,
                     (e: ContainerWithCount) => e.container.id == id, NoteCountOf);
  }
}
