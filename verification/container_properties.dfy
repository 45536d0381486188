/**
 Properties that relate several container-service calls: reading back what
 was written, key uniqueness, archiving through the generic update, the
 absence of a parent-cycle check, and the note counts of the listing.
 */
module ContainerProperties {
  import opened Fields
  import opened Models
  import opened Schemas
  import opened Seqs
  import opened Text
  import opened Store
  import opened ContainerService

  /** A created container can be read back under its id, and keys stay unique. */
  lemma CreateContainerThenGet(db: Db, input: ContainerCreate, id: Id, now: Timestamp)
    requires Valid(db)
    requires forall c :: c in db.containers ==> c.id != id
    ensures Valid(CreateContainer(db, input, id, now).db)
    ensures GetContainer(CreateContainer(db, input, id, now).db, id) == Some(CreateContainer(db, input, id, now).result)
  {
    var s := CreateContainer(db, input, id, now);
    assert s.db.containers[|db.containers|] == s.result;
    FindUnique(s.db.containers, ContainerKey, id, s.result);
  }

  lemma UpdateContainerThenGet(db: Db, id: Id, u: ContainerUpdate, now: Timestamp)
    requires Valid(db)
    requires UpdateContainer(db, id, u, now).result.Done?
    ensures Valid(UpdateContainer(db, id, u, now).db)
    ensures GetContainer(UpdateContainer(db, id, u, now).db, id) == Some(UpdateContainer(db, id, u, now).result.value)
  {
    var s := UpdateContainer(db, id, u, now);
    WriteThenFind(db.containers, ContainerKey, id, s.result.value);
  }

  lemma ArchiveThenGet(db: Db, id: Id, now: Timestamp)
    requires Valid(db)
    requires ArchiveContainer(db, id, now).result.Some?
    ensures Valid(ArchiveContainer(db, id, now).db)
    ensures GetContainer(ArchiveContainer(db, id, now).db, id) == ArchiveContainer(db, id, now).result
  {
    var s := ArchiveContainer(db, id, now);
    WriteThenFind(db.containers, ContainerKey, id, s.result.value);
  }

  /** Archiving an archived container writes nothing: the database and the
      returned row, timestamp included, are those of the first archive. */
  lemma ArchiveIdempotent(db: Db, id: Id, t1: Timestamp, t2: Timestamp)
    requires Valid(db)
    requires GetContainer(db, id).Some?
    ensures var s1 := ArchiveContainer(db, id, t1);
            ArchiveContainer(s1.db, id, t2) == s1
  {
    var s1 := ArchiveContainer(db, id, t1);
    ArchiveThenGet(db, id, t1);
    var s2 := ArchiveContainer(s1.db, id, t2);
    assert s2.result == s1.result;
    assert s2.db.containers == s1.db.containers;
  }

  /** The generic update archives on its own: setting the type to archive
      and `is_active` to false is exactly `archive_container`. */
  lemma UpdateCanArchive(db: Db, id: Id, now: Timestamp)
    requires GetContainer(db, id).Some?
    ensures var a := ArchiveContainer(db, id, now);
            UpdateContainer(db, id, ContainerUpdate(kind := Set(Some(Archive)), isActive := Set(Some(false))), now)
              == Step(a.db, Done(a.result.value))
  {
  }

  /** Nothing stops a container from becoming its own parent. */
  lemma ParentMayBeSelf(db: Db, id: Id, now: Timestamp)
    requires Valid(db)
    requires GetContainer(db, id).Some?
    ensures var s := UpdateContainer(db, id, ContainerUpdate(parentId := Set(Some(id))), now);
            && s.result.Done?
            && GetContainer(s.db, id).Some?
            && GetContainer(s.db, id).value.parentId == Some(id)
  {
    UpdateContainerThenGet(db, id, ContainerUpdate(parentId := Set(Some(id))), now);
  }

  /** Rows rewritten position by position without touching their keys keep
      the keys unique. */
  lemma SameKeysKeepUnique<T>(a: seq<T>, b: seq<T>, key: T -> Id)
    requires |a| == |b|
    requires forall i :: 0 <= i < |a| ==> key(a[i]) == key(b[i])
    requires UniqueKeys(b, key)
    ensures UniqueKeys(a, key)
  {
  }

  /** After a delete the id is gone and keys stay unique; a successful
      delete removes exactly one container and leaves nothing referring to
      the deleted key. */
  lemma DeleteContainerThenGet(db: Db, id: Id, now: Timestamp)
    requires Valid(db)
    ensures Valid(DeleteContainer(db, id, now).db)
    ensures GetContainer(DeleteContainer(db, id, now).db, id).None?
    ensures DeleteContainer(db, id, now).result ==>
              && |DeleteContainer(db, id, now).db.containers| == |db.containers| - 1
              && |DeleteContainer(db, id, now).db.notes| == |db.notes|
              && Unreferenced(DeleteContainer(db, id, now).db, id)
  {
    var s := DeleteContainer(db, id, now);
    if s.result {
      var rest := Delete(db.containers, ContainerKey, id);
      SubsequenceKeepsKeysUnique(rest, db.containers, ContainerKey);
      SameKeysKeepUnique(s.db.containers, rest, ContainerKey);
      SameKeysKeepUnique(s.db.notes, db.notes, NoteKey);
      DeleteUnique(db.containers, ContainerKey, id);
      forall c | c in s.db.containers ensures c.id != id {
        var i :| 0 <= i < |s.db.containers| && s.db.containers[i] == c;
        assert rest[i] in rest;
      }
    }
  }

  /** The containers left by deleting `id` carry exactly the other keys. */
  lemma DeletedContainerKeys(db: Db, id: Id, now: Timestamp, x: Id)
    requires DeleteContainer(db, id, now).result
    ensures (exists c :: c in DeleteContainer(db, id, now).db.containers && c.id == x)
            <==> x != id && exists c :: c in db.containers && c.id == x
  {
    var after := DeleteContainer(db, id, now).db.containers;
    var rest := Delete(db.containers, ContainerKey, id);
    if exists c :: c in after && c.id == x {
      var c :| c in after && c.id == x;
      var i :| 0 <= i < |after| && after[i] == c;
      assert rest[i] in rest;
    }
    if x != id && exists c :: c in db.containers && c.id == x {
      var c :| c in db.containers && c.id == x;
      assert c in rest;
      var i :| 0 <= i < |rest| && rest[i] == c;
      assert after[i] in after;
    }
  }

  /** Deleting a container takes its notes out of the count of filed notes
      and leaves every other note's standing as it was: the notes filed in
      an existing container drop by exactly the deleted container's count. */
  lemma DeleteUnfilesItsNotes(db: Db, id: Id, now: Timestamp)
    requires GetContainer(db, id).Some?
    ensures var s := DeleteContainer(db, id, now);
            CountIf(s.db.notes, (n: Note) => FiledInOneOf(n, s.db.containers)) + NoteCount(db.notes, id)
              == CountIf(db.notes, (n: Note) => FiledInOneOf(n, db.containers))
  {
    var s := DeleteContainer(db, id, now);
    var cs, ns := db.containers, db.notes;
    var kept := (n: Note) => FiledInOneOf(n, cs) && !FiledIn(n, id);
    forall i | 0 <= i < |ns| ensures FiledInOneOf(s.db.notes[i], s.db.containers) == kept(ns[i]) {
      if ns[i].containerId.Some? && ns[i].containerId != Some(id) {
        DeletedContainerKeys(db, id, now, ns[i].containerId.value);
      }
    }
    CountIfPointwise(s.db.notes, (n: Note) => FiledInOneOf(n, s.db.containers), ns, kept);
    var c := GetContainer(db, id).value;
    forall i | 0 <= i < |ns| ensures FiledInOneOf(ns[i], cs) == (kept(ns[i]) || FiledIn(ns[i], id)) {
      if FiledIn(ns[i], id) {
        assert c in cs && c.id == ns[i].containerId.value;
      }
    }
    CountIfSplit(ns, kept, (n: Note) => FiledIn(n, id), (n: Note) => FiledInOneOf(n, cs));
  }

  /** A container with no notes is listed, with a count of zero. */
  lemma EmptyContainerListed(db: Db, c: Container)
    requires c in db.containers
    requires forall n :: n in db.notes ==> n.containerId != Some(c.id)
    ensures ContainerWithCount(c, 0) in ListContainersWithCounts(db)
  {
    CountIfNone(db.notes, (n: Note) => FiledIn(n, c.id));
  }

  /** The note is filed in one of the containers `cs`. */
  predicate FiledInOneOf(n: Note, cs: seq<Container>)
  {
    n.containerId.Some? && exists c :: c in cs && c.id == n.containerId.value
  }

  /** The entries of a non-empty list: the first container's, then the rest's. */
  lemma EntriesUnfold(cs: seq<Container>, notes: seq<Note>)
    requires cs != []
    ensures SumOf(CountedEntries(cs, notes), NoteCountOf)
              == NoteCount(notes, cs[0].id) + SumOf(CountedEntries(cs[1..], notes), NoteCountOf)
  {
    var entries := CountedEntries(cs, notes);
    assert entries[1..] == CountedEntries(cs[1..], notes);
  }

  /** With unique keys, a note is filed in one of `cs` exactly when it is
      filed either in the first container or in one of the others, never both. */
  lemma FiledInFirstOrRest(n: Note, cs: seq<Container>)
    requires UniqueKeys(cs, ContainerKey)
    requires cs != []
    ensures FiledInOneOf(n, cs) == (FiledIn(n, cs[0].id) || FiledInOneOf(n, cs[1..]))
    ensures !(FiledIn(n, cs[0].id) && FiledInOneOf(n, cs[1..]))
  {
    var rest := cs[1..];
    assert cs == [cs[0]] + rest;
    if FiledInOneOf(n, rest) {
      var c :| c in rest && c.id == n.containerId.value;
      var k :| 0 <= k < |rest| && rest[k] == c;
      assert cs[0].id != cs[k + 1].id;
    }
  }

  /** With unique keys, the counts of the entries add up to the number of
      notes filed in one of the containers. */
  lemma {:induction false} EntryCountsAddUp(cs: seq<Container>, notes: seq<Note>)
    requires UniqueKeys(cs, ContainerKey)
    ensures SumOf(CountedEntries(cs, notes), NoteCountOf) == CountIf(notes, (n: Note) => FiledInOneOf(n, cs))
  {
    if cs == [] {
      CountIfNone(notes, (n: Note) => FiledInOneOf(n, cs));
    } else {
      var rest := cs[1..];
      EntriesUnfold(cs, notes);
      assert UniqueKeys(rest, ContainerKey) by {
        forall i, j | 0 <= i < j < |rest| ensures rest[i].id != rest[j].id {
          assert cs[i + 1].id != cs[j + 1].id;
        }
      }
      EntryCountsAddUp(rest, notes);
      forall i | 0 <= i < |notes|
        ensures FiledInOneOf(notes[i], cs) == (FiledIn(notes[i], cs[0].id) || FiledInOneOf(notes[i], rest))
        ensures !(FiledIn(notes[i], cs[0].id) && FiledInOneOf(notes[i], rest))
      {
        FiledInFirstOrRest(notes[i], cs);
      }
      CountIfSplit(notes, (n: Note) => FiledIn(n, cs[0].id), (n: Note) => FiledInOneOf(n, rest),
                   (n: Note) => FiledInOneOf(n, cs));
    }
  }

  /** The counts of the listing add up to the number of notes filed in an
      existing container: every such note is counted once, and notes in the
      inbox or naming a missing container are not counted. */
  lemma ListedCountsAddUp(db: Db)
    requires Valid(db)
    ensures SumOf(ListContainersWithCounts(db), NoteCountOf) == CountIf(db.notes, (n: Note) => FiledInOneOf(n, db.containers))
  {
    TypeThenNameIsTotalPreorder();
    SumOfSortBy(CountedEntries(db.containers, db.notes), TypeThenName, NoteCountOf);
    EntryCountsAddUp(db.containers, db.notes);
  }

  /** Deleting an existing container lowers the listing's total by that
      container's count. */
  lemma ListedTotalAfterDelete(db: Db, id: Id, now: Timestamp)
    requires Valid(db)
    requires GetContainer(db, id).Some?
    ensures SumOf(ListContainersWithCounts(DeleteContainer(db, id, now).db), NoteCountOf) + NoteCount(db.notes, id)
              == SumOf(ListContainersWithCounts(db), NoteCountOf)
  {
    DeleteContainerThenGet(db, id, now);
    ListedCountsAddUp(db);
    ListedCountsAddUp(DeleteContainer(db, id, now).db);
    DeleteUnfilesItsNotes(db, id, now);
  }

  /** With unique keys, the grouped rows hold exactly one entry for an
      existing container. */
  lemma EntriesCountOf(cs: seq<Container>, notes: seq<Note>, id: Id)
    requires UniqueKeys(cs, ContainerKey)
    requires exists c :: c in cs && c.id == id
    ensures CountIf(CountedEntries(cs, notes), (e: ContainerWithCount) => e.container.id == id) == 1
  {
    CountIfPointwise(CountedEntries(cs, notes), (e: ContainerWithCount) => e.container.id == id,
                     cs, (x: Container) => x.id == id);
    CountUniqueKey(cs, ContainerKey, id, (x: Container) => x.id == id);
  }

  /** The stored type names in collation order: archive, area, project,
      resource. */
  lemma StoredTypeOrder()
    ensures NameLe(TypeName(Archive), TypeName(Area)) && !NameLe(TypeName(Area), TypeName(Archive))
    ensures NameLe(TypeName(Area), TypeName(Project)) && !NameLe(TypeName(Project), TypeName(Area))
    ensures NameLe(TypeName(Project), TypeName(Resource)) && !NameLe(TypeName(Resource), TypeName(Project))
  {
  }

  /** No other stored type name sorts at or before the archive's. */
  lemma OnlyArchiveSortsFirst(t: ContainerType)
    ensures NameLe(TypeName(t), TypeName(Archive)) ==> t == Archive
  {
    match t
    case Archive =>
    case Area =>
      var a, b := TypeName(Area), TypeName(Archive);
      assert a[0] == b[0] && a[1] == b[1] && a[2] > b[2];
      assert a[1..][1..] == "EA" && b[1..][1..] == "CHIVE";
      assert !NameLe(a[1..][1..], b[1..][1..]);
      assert !NameLe(a[1..], b[1..]);
    case Project =>
    case Resource =>
  }

  /** The listing opens with the archives: no other type sorts before them. */
  lemma ArchivesListedFirst(db: Db, i: int, j: int)
    requires 0 <= i < j < |ListContainersWithCounts(db)|
    requires ListContainersWithCounts(db)[j].container.kind == Archive
    ensures ListContainersWithCounts(db)[i].container.kind == Archive
  {
    OnlyArchiveSortsFirst(ListContainersWithCounts(db)[i].container.kind);
  }
}
