/**
 How the client container store relates to the server: the total of the
 fetched listing counts every note filed in an existing container once, and
 merging the server's response to an update or an archive shows for that
 container what a fresh listing would show.
 */
module ContainersStoreSync {
  import opened Fields
  import opened Models
  import opened Schemas
  import opened Seqs
  import opened Store
  import opened ContainerService
  import opened ContainerProperties
  import opened ContainersStore

  /** The total of the fetched listing is the number of notes filed in an
      existing container. */
  lemma ListedTotalIsFiledNotes(db: Db)
    requires Valid(db)
    ensures TotalNoteCount(ListContainersWithCounts(db)) == CountIf(db.notes, (n: Note) => FiledInOneOf(n, db.containers))
  {
    ListedCountsAddUp(db);
  }

  /** Merging a response for an existing container into the fetched listing
      yields the response with that container's count. */
  lemma MergedEntryCarriesCount(db: Db, current: Option<ContainerWithNotes>, id: Id, updated: Container)
    requires GetContainer(db, id).Some?
    ensures ContainerWithCount(updated, NoteCount(db.notes, id))
              in ApplyUpdated(State(ListContainersWithCounts(db), current), id, updated).containers
  {
    var listing := ListContainersWithCounts(db);
    var c := GetContainer(db, id).value;
    assert ContainerWithCount(c, NoteCount(db.notes, id)) in listing;
    var i := FirstIndex(listing, (e: ContainerWithCount) => e.container.id == id).value;
    assert listing[i] in listing;
    var r := ApplyUpdated(State(listing, current), id, updated);
    assert r.containers[i] == ContainerWithCount(updated, NoteCount(db.notes, id));
  }

  /** After `update_container`, the merged client entry is the entry a fresh
      listing shows for that container. */
  lemma UpdateMergeMatchesRefetch(db: Db, current: Option<ContainerWithNotes>, id: Id, u: ContainerUpdate, now: Timestamp)
    requires Valid(db)
    requires UpdateContainer(db, id, u, now).result.Done?
    ensures var s := UpdateContainer(db, id, u, now);
            var entry := ContainerWithCount(s.result.value, NoteCount(s.db.notes, id));
            && entry in ApplyUpdated(State(ListContainersWithCounts(db), current), id, s.result.value).containers
            && entry in ListContainersWithCounts(s.db)
  {
    var s := UpdateContainer(db, id, u, now);
    MergedEntryCarriesCount(db, current, id, s.result.value);
    UpdateContainerThenGet(db, id, u, now);
  }

  /** After `archive_container`, the merged client entry is the entry a fresh
      listing shows, and it has moved to the archives group. */
  lemma ArchiveMergeMatchesRefetch(db: Db, current: Option<ContainerWithNotes>, id: Id, now: Timestamp)
    requires Valid(db)
    requires ArchiveContainer(db, id, now).result.Some?
    ensures var s := ArchiveContainer(db, id, now);
            var entry := ContainerWithCount(s.result.value, NoteCount(s.db.notes, id));
            var st := ApplyUpdated(State(ListContainersWithCounts(db), current), id, s.result.value);
            && entry in st.containers
            && entry in ListContainersWithCounts(s.db)
            && entry in Archives(st)
            && entry !in Projects(st) && entry !in Areas(st) && entry !in Resources(st)
  {
    var s := ArchiveContainer(db, id, now);
    MergedEntryCarriesCount(db, current, id, s.result.value);
    ArchiveThenGet(db, id, now);
    var st := ApplyUpdated(State(ListContainersWithCounts(db), current), id, s.result.value);
    var entry := ContainerWithCount(s.result.value, NoteCount(s.db.notes, id));
    GroupsPartition(st, entry);
    FilterMembership(st.containers, Archived, entry);
  }

  /** With unique keys, the fetched listing holds exactly one entry for an
      existing container, carrying its count. */
  lemma ListedEntryOf(db: Db, id: Id)
    requires Valid(db)
    requires GetContainer(db, id).Some?
    ensures var e := ContainerWithCount(GetContainer(db, id).value, NoteCount(db.notes, id));
            Filter(ListContainersWithCounts(db), (e: ContainerWithCount) => e.container.id == id) == [e]
  {
    var listing := ListContainersWithCounts(db);
    var p := (e: ContainerWithCount) => e.container.id == id;
    EntriesCountOf(db.containers, db.notes, id);
    CountIfPermutation(listing, CountedEntries(db.containers, db.notes), p);
    var f := Filter(listing, p);
    assert |f| == 1;
    assert f[0] in f;
    FilterMembership(listing, p, f[0]);
    FindUnique(db.containers, ContainerKey, id, f[0].container);
  }

  /** The client total after deleting `id` from the fetched listing. */
  lemma ClientTotalAfterDelete(db: Db, current: Option<ContainerWithNotes>, id: Id)
    requires Valid(db)
    ensures TotalNoteCount(ContainersStore.DeleteContainer(State(ListContainersWithCounts(db), current), id).containers)
              == TotalNoteCount(ListContainersWithCounts(db))
                 - (if GetContainer(db, id).Some? then NoteCount(db.notes, id) else 0)
  {
    var listing := ListContainersWithCounts(db);
    var p := (e: ContainerWithCount) => e.container.id == id;
    DeleteTakesOffItsCount(State(listing, current), id);
    if GetContainer(db, id).Some? {
      ListedEntryOf(db, id);
      assert TotalNoteCount(Filter(listing, p)) == NoteCount(db.notes, id);
    } else {
      forall i | 0 <= i < |listing| ensures !p(listing[i]) {
        assert listing[i] in listing;
      }
      CountIfNone(listing, p);
    }
  }

  /** Deleting on the client the container the server deleted leaves the
      total a fresh listing shows: the server unfiles the container's notes,
      and the client drops the entry carrying their count. */
  lemma DeleteMatchesRefetch(db: Db, current: Option<ContainerWithNotes>, id: Id, now: Timestamp)
    requires Valid(db)
    ensures var s := ContainerService.DeleteContainer(db, id, now);
            TotalNoteCount(ContainersStore.DeleteContainer(State(ListContainersWithCounts(db), current), id).containers)
              == TotalNoteCount(ListContainersWithCounts(s.db))
  {
    ClientTotalAfterDelete(db, current, id);
    if GetContainer(db, id).Some? {
      ListedTotalAfterDelete(db, id, now);
    }
  }
}
