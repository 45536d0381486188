/**
 The database: the `notes` and `containers` tables as sequences of rows in
 storage order (the order a query without `ORDER BY` returns them in).
 Primary keys are unique; foreign keys are not checked (SQLite leaves
 foreign-key enforcement off unless asked), so a note may name a container
 that does not exist.

 Lookup, `UPDATE ... WHERE id` and `DELETE ... WHERE id` are defined once,
 for any table, over the function that reads a row's primary key.
 */
module Store {
  import opened Fields
  import opened Models
  import opened Seqs

  datatype Db = Db(notes: seq<Note>, containers: seq<Container>)

  /** The primary key of a note row. */
  function NoteKey(n: Note): (k: Id)
  {
    n.id
  }

  /** The primary key of a container row. */
  function ContainerKey(c: Container): (k: Id)
  {
    c.id
  }

  /** No two rows of the table share a key. */
  ghost predicate UniqueKeys<T>(rows: seq<T>, key: T -> Id)
  {
    forall i, j :: 0 <= i < j < |rows| ==> key(rows[i]) != key(rows[j])
  }

  /** Primary-key uniqueness of both tables. */
  ghost predicate Valid(db: Db)
  {
    UniqueKeys(db.notes, NoteKey) && UniqueKeys(db.containers, ContainerKey)
  }

  /** Result of a write the database may refuse: the row, a missing id, or a
      NOT NULL column set to null (an IntegrityError at commit, after which
      nothing is written). */
  datatype Outcome<+T> = Done(value: T) | NotFound | NotNullViolation

  /** The database after an operation, with what the operation returned. */
  datatype Step<+T> = Step(db: Db, result: T)

  /** `SELECT ... WHERE id = :id`. */
  function Find<T>(rows: seq<T>, key: T -> Id, id: Id): (r: Option<T>)
    ensures r.Some? ==> r.value in rows && key(r.value) == id
    ensures r.None? <==> forall x :: x in rows ==> key(x) != id
  {
    match FirstIndex(rows, (x: T) => key(x) == id)
    case None => None
    case Some(i) => Some(rows[i])
  }

  /** With unique keys the row found is the only one carrying that key. */
  lemma FindUnique<T>(rows: seq<T>, key: T -> Id, id: Id, x: T)
    requires UniqueKeys(rows, key)
    requires x in rows && key(x) == id
    ensures Find(rows, key, id) == Some(x)
  {
    var i :| 0 <= i < |rows| && rows[i] == x;
    var m := Find(rows, key, id).value;
    var j :| 0 <= j < |rows| && rows[j] == m;
    assert i == j;
  }

  /** `UPDATE ... SET ... WHERE id = :id`: every row with that key becomes `row`. */
  function Write<T>(rows: seq<T>, key: T -> Id, id: Id, row: T): (r: seq<T>)
    ensures |r| == |rows|
    ensures forall i :: 0 <= i < |rows| && key(rows[i]) != id ==> r[i] == rows[i]
    ensures forall i :: 0 <= i < |rows| && key(rows[i]) == id ==> r[i] == row
  {
    seq(|rows|, i requires 0 <= i < |rows| => if key(rows[i]) == id then row else rows[i])
  }

  /** Rewriting a row under its own key keeps the keys unique, and reading
      the key back returns the row written. */
  lemma WriteThenFind<T>(rows: seq<T>, key: T -> Id, id: Id, row: T)
    requires key(row) == id
    requires exists x :: x in rows && key(x) == id
    ensures UniqueKeys(rows, key) ==> UniqueKeys(Write(rows, key, id, row), key)
    ensures Find(Write(rows, key, id, row), key, id) == Some(row)
  {
    var r := Write(rows, key, id, row);
    forall i | 0 <= i < |r| ensures key(r[i]) == key(rows[i]) {
    }
    var x :| x in rows && key(x) == id;
    var k :| 0 <= k < |rows| && rows[k] == x;
    assert r[k] == row;
    var m := Find(r, key, id);
    assert m.Some?;
    var j :| 0 <= j < |r| && r[j] == m.value;
    assert r[j] == row;
  }

  /** `DELETE ... WHERE id = :id`: the rows with another key, in their order. */
  function Delete<T(!new)>(rows: seq<T>, key: T -> Id, id: Id): (r: seq<T>)
    ensures forall x :: x in r <==> x in rows && key(x) != id
    ensures IsSubsequence(r, rows)
    ensures (forall x :: x in rows ==> key(x) != id) ==> r == rows
  {
    var r := Filter(rows, (x: T) => key(x) != id);
    assert forall x :: x in r <==> x in rows && key(x) != id by {
      forall x ensures x in r <==> x in rows && key(x) != id {
        FilterMembership(rows, (x: T) => key(x) != id, x);
      }
    }
    assert (forall x :: x in rows ==> key(x) != id) ==> r == rows by {
      if forall x :: x in rows ==> key(x) != id {
        forall i | 0 <= i < |rows| ensures key(rows[i]) != id {
          assert rows[i] in rows;
        }
        FilterKeepsAll(rows, (x: T) => key(x) != id);
      }
    }
    r
  }

  /** Any filter that drops exactly the rows with key `id` is the delete. */
  lemma DeleteIsFilter<T(!new)>(rows: seq<T>, key: T -> Id, id: Id, p: T -> bool)
    requires forall x :: p(x) == (key(x) != id)
    ensures Delete(rows, key, id) == Filter(rows, p)
  {
    FilterAgree(rows, (x: T) => key(x) != id, p);
  }

  /** Keeping a subsequence of the rows keeps the keys unique. */
  lemma {:induction false} SubsequenceKeepsKeysUnique<T>(a: seq<T>, b: seq<T>, key: T -> Id)
    requires IsSubsequence(a, b)
    requires UniqueKeys(b, key)
    ensures UniqueKeys(a, key)
    decreases |b|
  {
    if a != [] {
      if a[0] == b[0] && IsSubsequence(a[1..], b[1..]) {
        SubsequenceKeepsKeysUnique(a[1..], b[1..], key);
        forall j | 0 < j < |a| ensures key(a[0]) != key(a[j]) {
          assert a[j] in a[1..];
          SubsequenceMembers(a[1..], b[1..], a[j]);
          var k :| 0 <= k < |b[1..]| && b[1..][k] == a[j];
          assert key(b[0]) != key(b[k + 1]);
        }
        forall i, j | 0 < i < j < |a| ensures key(a[i]) != key(a[j]) {
          assert a[i] == a[1..][i - 1] && a[j] == a[1..][j - 1];
        }
      } else {
        SubsequenceKeepsKeysUnique(a, b[1..], key);
      }
    }
  }

  /** With unique keys, deleting an existing key removes exactly one row. */
  lemma {:induction false} DeleteUnique<T(!new)>(rows: seq<T>, key: T -> Id, id: Id)
    requires UniqueKeys(rows, key)
    requires exists x :: x in rows && key(x) == id
    ensures |Delete(rows, key, id)| == |rows| - 1
  {
    var p := (x: T) => key(x) != id;
    DeleteIsFilter(rows, key, id, p);
    DeleteUniqueFilter(rows, key, id, p);
  }

  /** With unique keys, exactly one row carries an existing key. */
  lemma CountUniqueKey<T(!new)>(rows: seq<T>, key: T -> Id, id: Id, p: T -> bool)
    requires forall x :: p(x) == (key(x) == id)
    requires UniqueKeys(rows, key)
    requires exists x :: x in rows && key(x) == id
    ensures CountIf(rows, p) == 1
  {
    var q := (x: T) => key(x) != id;
    var all := (x: T) => true;
    DeleteUniqueFilter(rows, key, id, q);
    FilterKeepsAll(rows, all);
    CountIfSplit(rows, p, q, all);
  }

  lemma {:induction false} DeleteUniqueFilter<T(!new)>(rows: seq<T>, key: T -> Id, id: Id, p: T -> bool)
    requires forall x :: p(x) == (key(x) != id)
    requires UniqueKeys(rows, key)
    requires exists x :: x in rows && key(x) == id
    ensures |Filter(rows, p)| == |rows| - 1
  {
    assert rows != [];
    assert rows == [rows[0]] + rows[1..];
    if key(rows[0]) == id {
      forall i | 0 <= i < |rows[1..]| ensures p(rows[1..][i]) {
        assert key(rows[0]) != key(rows[i + 1]);
      }
      FilterKeepsAll(rows[1..], p);
    } else {
      var x :| x in rows && key(x) == id;
      assert x in rows[1..];
      forall i, j | 0 <= i < j < |rows[1..]| ensures key(rows[1..][i]) != key(rows[1..][j]) {
        assert key(rows[i + 1]) != key(rows[j + 1]);
      }
      DeleteUniqueFilter(rows[1..], key, id, p);
    }
  }
}
