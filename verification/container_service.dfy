/**
 The container service: creation, lookup with the filed notes, the listing
 with per-container note counts, partial update, archiving and deletion.
 */
module ContainerService {
  import opened Fields
  import opened Models
  import opened Schemas
  import opened Seqs
  import opened Text
  import opened Store
  import NoteService

  /** The row as written at `now`: unchanged rows keep their timestamp. */
  function TouchContainer(before: Container, after: Container, now: Timestamp): (r: Container)
    ensures r.updatedAt == if after == before then before.updatedAt else now
    ensures r.(updatedAt := after.updatedAt) == after
  {
    if after == before then before else after.(updatedAt := now)
  }

  /** `create_container`: the request fields, active, stamped `now`. */
  function CreateContainer(db: Db, input: ContainerCreate, id: Id, now: Timestamp): (s: Step<Container>)
    requires forall c :: c in db.containers ==> c.id != id
    ensures s.result.id == id && s.result.isActive
    ensures s.result.name == input.name && s.result.kind == input.kind
    ensures s.result.description == input.description && s.result.parentId == input.parentId
    ensures s.result.deadline == input.deadline && s.result.status == input.status
    ensures s.result.createdAt == now && s.result.updatedAt == now
    ensures s.db.containers == db.containers + [s.result] && s.db.notes == db.notes
  {
    var c := Container(
      id := id,
      name := input.name,
      kind := input.kind,
      description := input.description,
      parentId := input.parentId,
      isActive := true,
      deadline := input.deadline,
      status := input.status,
      createdAt := now,
      updatedAt := now);
    Step(db.(containers := db.containers + [c]), c)
  }

  /** `get_container`. */
  function GetContainer(db: Db, id: Id): (r: Option<Container>)
    ensures r.Some? ==> r.value in db.containers && r.value.id == id
    ensures r.None? <==> forall c :: c in db.containers ==> c.id != id
  {
    Find(db.containers, ContainerKey, id)
  }

  /** A note is filed in the container with key `id`. */
  predicate FiledIn(n: Note, id: Id)
  {
    n.containerId == Some(id)
  }

  /** `get_container_with_notes`: the container and the notes whose
      container reference is its id, one level deep (notes of child
      containers are not included). */
  function GetContainerWithNotes(db: Db, id: Id): (r: Option<ContainerWithNotes>)
    ensures r.None? <==> GetContainer(db, id).None?
    ensures r.Some? ==> r.value.container == GetContainer(db, id).value
    ensures r.Some? ==>
              forall n :: multiset(r.value.notes)[n] == if n.containerId == Some(id) then multiset(db.notes)[n] else 0
    ensures r.Some? ==> IsSubsequence(r.value.notes, db.notes)
  {
    match GetContainer(db, id)
    case None => None
    case Some(c) => Some(ContainerWithNotes(c, Filter(db.notes, (n: Note) => FiledIn(n, id))))
  }

  /** Number of notes filed in the container with key `id` (the outer join
      gives 0 for an empty container). */
  function NoteCount(notes: seq<Note>, id: Id): (n: nat)
  {
    CountIf(notes, (n: Note) => FiledIn(n, id))
  }

  /** `ORDER BY type, name`: by the stored type name, then by name. */
  predicate TypeThenName(a: ContainerWithCount, b: ContainerWithCount)
  {
    var ta, tb := TypeName(a.container.kind), TypeName(b.container.kind);
    if ta == tb then NameLe(a.container.name, b.container.name) else NameLe(ta, tb)
  }

  lemma TypeThenNameIsTotalPreorder()
    ensures TotalPreorder(TypeThenName)
  {
    forall a, b ensures TypeThenName(a, b) || TypeThenName(b, a) {
      NameLeTotal(a.container.name, b.container.name);
      NameLeTotal(TypeName(a.container.kind), TypeName(b.container.kind));
    }
    forall a, b, c | TypeThenName(a, b) && TypeThenName(b, c) ensures TypeThenName(a, c) {
      var ta, tb, tc := TypeName(a.container.kind), TypeName(b.container.kind), TypeName(c.container.kind);
      if ta == tb == tc {
        NameLeTransitive(a.container.name, b.container.name, c.container.name);
      } else if ta != tb && tb != tc {
        NameLeTransitive(ta, tb, tc);
        if ta == tc {
          NameLeAntisymmetric(ta, tb);
        }
      }
    }
  }

  /** The grouped rows of the outer join, one per container of `cs`, in storage order. */
  function CountedEntries(cs: seq<Container>, notes: seq<Note>): (r: seq<ContainerWithCount>)
    ensures |r| == |cs|
    ensures forall e :: e in r ==> e.container in cs && e.noteCount == NoteCount(notes, e.container.id)
    ensures forall c :: c in cs ==> ContainerWithCount(c, NoteCount(notes, c.id)) in r
  {
    var r := seq(|cs|, i requires 0 <= i < |cs| => ContainerWithCount(cs[i], NoteCount(notes, cs[i].id)));
    assert forall c :: c in cs ==> ContainerWithCount(c, NoteCount(notes, c.id)) in r by {
      forall c | c in cs ensures ContainerWithCount(c, NoteCount(notes, c.id)) in r {
        var i :| 0 <= i < |cs| && cs[i] == c;
        assert r[i] == ContainerWithCount(c, NoteCount(notes, c.id));
      }
    }
    r
  }

  /** `list_containers_with_counts`: one entry per container, empty ones
      included, each with the number of notes filed in it, ordered by type
      and then name. */
  function ListContainersWithCounts(db: Db): (r: seq<ContainerWithCount>)
    ensures |r| == |db.containers|
    ensures forall e :: e in r ==> e.container in db.containers && e.noteCount == NoteCount(db.notes, e.container.id)
    ensures forall c :: c in db.containers ==> ContainerWithCount(c, NoteCount(db.notes, c.id)) in r
    ensures multiset(r) == multiset(CountedEntries(db.containers, db.notes))
    ensures forall i, j :: 0 <= i < j < |r| ==>
              NameLe(TypeName(r[i].container.kind), TypeName(r[j].container.kind))
    ensures forall i, j :: 0 <= i < j < |r| && r[i].container.kind == r[j].container.kind ==>
              NameLe(r[i].container.name, r[j].container.name)
  {
    var entries := CountedEntries(db.containers, db.notes);
    TypeThenNameIsTotalPreorder();
    var r := SortBy(entries, TypeThenName);
    SameMembers(r, entries);
    assert forall i, j :: 0 <= i < j < |r| ==> TypeThenName(r[i], r[j]);
    forall i, j | 0 <= i < j < |r|
      ensures NameLe(TypeName(r[i].container.kind), TypeName(r[j].container.kind))
    {
      NameLeTotal(TypeName(r[i].container.kind), TypeName(r[j].container.kind));
    }
    r
  }

  /** A patch writes null into one of the NOT NULL columns. */
  predicate WritesNullColumn(u: ContainerUpdate)
  {
    SetsNull(u.name) || SetsNull(u.kind) || SetsNull(u.isActive)
  }

  function ApplyContainerUpdate(c: Container, u: ContainerUpdate): (r: Container)
  {
    c.(
      name := ApplyNonNull(u.name, c.name),
      kind := ApplyNonNull(u.kind, c.kind),
      description := Apply(u.description, c.description),
      parentId := Apply(u.parentId, c.parentId),
      isActive := ApplyNonNull(u.isActive, c.isActive),
      deadline := Apply(u.deadline, c.deadline),
      status := Apply(u.status, c.status))
  }

  /** `update_container`: writes exactly the supplied fields, explicit
      nulls included; a null name, type or `is_active` is refused. */
  function UpdateContainer(db: Db, id: Id, u: ContainerUpdate, now: Timestamp): (s: Step<Outcome<Container>>)
    ensures GetContainer(db, id).None? ==> s == Step(db, NotFound)
    ensures GetContainer(db, id).Some? && WritesNullColumn(u) ==> s == Step(db, NotNullViolation)
    ensures s.result.Done? <==> GetContainer(db, id).Some? && !WritesNullColumn(u)
    ensures s.result.Done? ==>
              var before, c := GetContainer(db, id).value, s.result.value;
              && c.id == id
              && c.name == ApplyNonNull(u.name, before.name)
              && c.kind == ApplyNonNull(u.kind, before.kind)
              && c.description == Apply(u.description, before.description)
              && c.parentId == Apply(u.parentId, before.parentId)
              && c.isActive == ApplyNonNull(u.isActive, before.isActive)
              && c.deadline == Apply(u.deadline, before.deadline)
              && c.status == Apply(u.status, before.status)
              && c.createdAt == before.createdAt
              && c.updatedAt == (if c.(updatedAt := before.updatedAt) == before then before.updatedAt else now)
              && c == TouchContainer(before, ApplyContainerUpdate(before, u), now)
              && s.db == db.(containers := Write(db.containers, ContainerKey, id, c))
  {
    match GetContainer(db, id)
    case None => Step(db, NotFound)
    case Some(before) =>
      if WritesNullColumn(u) then Step(db, NotNullViolation)
      else
        var c := TouchContainer(before, ApplyContainerUpdate(before, u), now);
        Step(db.(containers := Write(db.containers, ContainerKey, id, c)), Done(c))
  }

  /** `archive_container`: type archive and inactive together, nothing else. */
  function ArchiveContainer(db: Db, id: Id, now: Timestamp): (s: Step<Option<Container>>)
    ensures GetContainer(db, id).None? <==> s.result.None?
    ensures s.result.None? ==> s.db == db
    ensures s.result.Some? ==>
              var before, c := GetContainer(db, id).value, s.result.value;
              && c.kind == Archive && !c.isActive
              && c.(kind := before.kind, isActive := before.isActive, updatedAt := before.updatedAt) == before
              && c.updatedAt == (if before.kind == Archive && !before.isActive then before.updatedAt else now)
              && c == TouchContainer(before, before.(kind := Archive, isActive := false), now)
              && s.db == db.(containers := Write(db.containers, ContainerKey, id, c))
  {
    match GetContainer(db, id)
    case None => Step(db, None)
    case Some(before) =>
      var c := TouchContainer(before, before.(kind := Archive, isActive := false), now);
      Step(db.(containers := Write(db.containers, ContainerKey, id, c)), Some(c))
  }

  /** Nothing refers to the container with key `id`: no note is filed in it
      and no container names it as parent. */
  predicate Unreferenced(db: Db, id: Id)
  {
    && (forall n :: n in db.notes ==> n.containerId != Some(id))
    && (forall c :: c in db.containers ==> c.parentId != Some(id))
  }

  /** A note as the ORM leaves it when the container with key `id` is
      deleted: a note filed there has its container reference set to null,
      which rewrites the row; any other note is left alone. */
  function DetachNote(n: Note, id: Id, now: Timestamp): (r: Note)
    ensures n.containerId == Some(id) ==> r == n.(containerId := None, updatedAt := now)
    ensures n.containerId != Some(id) ==> r == n
  {
    if n.containerId == Some(id) then NoteService.Touch(n, n.(containerId := None), now) else n
  }

  /** A container as the ORM leaves it when its parent with key `id` is
      deleted: the parent reference set to null, the row rewritten. */
  function DetachChild(c: Container, id: Id, now: Timestamp): (r: Container)
    ensures c.parentId == Some(id) ==> r == c.(parentId := None, updatedAt := now)
    ensures c.parentId != Some(id) ==> r == c
  {
    if c.parentId == Some(id) then TouchContainer(c, c.(parentId := None), now) else c
  }

  /** The notes table after the container with key `id` is deleted. */
  function DetachNotes(notes: seq<Note>, id: Id, now: Timestamp): (r: seq<Note>)
    ensures |r| == |notes|
    ensures forall i :: 0 <= i < |notes| ==> r[i] == DetachNote(notes[i], id, now)
    ensures forall n :: n in r ==> n.containerId != Some(id)
  {
    seq(|notes|, i requires 0 <= i < |notes| => DetachNote(notes[i], id, now))
  }

  /** The remaining containers after their parent with key `id` is deleted. */
  function DetachChildren(rows: seq<Container>, id: Id, now: Timestamp): (r: seq<Container>)
    ensures |r| == |rows|
    ensures forall i :: 0 <= i < |rows| ==> r[i] == DetachChild(rows[i], id, now)
    ensures forall c :: c in r ==> c.parentId != Some(id)
  {
    seq(|rows|, i requires 0 <= i < |rows| => DetachChild(rows[i], id, now))
  }

  /** `delete_container`: false and nothing changed for a missing id;
      otherwise true, the row gone, and, since the `notes` and `children`
      relationships carry no delete cascade, every note filed in it is
      unfiled and every child container loses its parent, each such row
      stamped `now`. Notes are never deleted with their container. */
  function DeleteContainer(db: Db, id: Id, now: Timestamp): (s: Step<bool>)
    ensures s.result <==> exists c :: c in db.containers && c.id == id
    ensures !s.result ==> s.db == db
    ensures s.result ==> Unreferenced(s.db, id)
    ensures s.result ==>
              && |s.db.notes| == |db.notes|
              && forall i :: 0 <= i < |db.notes| ==>
                   var before, after := db.notes[i], s.db.notes[i];
                   && after.(containerId := before.containerId, updatedAt := before.updatedAt) == before
                   && (before.containerId == Some(id) ==> after.containerId == None && after.updatedAt == now)
                   && (before.containerId != Some(id) ==> after == before)
    ensures s.result ==>
              var rest := Delete(db.containers, ContainerKey, id);
              && |s.db.containers| == |rest|
              && forall i :: 0 <= i < |rest| ==>
                   var before, after := rest[i], s.db.containers[i];
                   && after.(parentId := before.parentId, updatedAt := before.updatedAt) == before
                   && (before.parentId == Some(id) ==> after.parentId == None && after.updatedAt == now)
                   && (before.parentId != Some(id) ==> after == before)
  {
    match GetContainer(db, id)
    case None => Step(db, false)
    case Some(_) =>
      var rest := Delete(db.containers, ContainerKey, id);
      Step(Db(DetachNotes(db.notes, id, now), DetachChildren(rest, id, now)), true)
  }
}
