/**
 * The generic CRUD engine every resource controller is built from: one table
 * of rows keyed by an auto-incremented primary key.
 */
module Crud {
  import opened Records

  /** The rows of one table. Every row carries its own key in its `id` field. */
  ghost predicate WellKeyed(rows: map<nat, Record>, nextId: nat)
  {
    forall id :: id in rows ==> id < nextId && "id" in rows[id] && rows[id]["id"] == Int(id)
  }

  /** The row `rec` after a partial update with `data`: the fields of `data` win, the key stays. */
  function Patched(rec: Record, data: Record, id: nat): (r: Record)
    ensures r.Keys == rec.Keys + data.Keys + {"id"}
    ensures r["id"] == Int(id)
    ensures forall k :: k in data && k != "id" ==> r[k] == data[k]
    ensures forall k :: k in rec && k !in data && k != "id" ==> r[k] == rec[k]
  {
    (rec + data)["id" := Int(id)]
  }

  /** Whether some row matches `criteria`; empty criteria match nothing. */
  predicate AnyMatch(rows: map<nat, Record>, criteria: Record)
  {
    criteria != map[] && exists id :: id in rows && Matches(rows[id], criteria)
  }

  /** Looking a key up through its `id` field finds exactly the stored keys. */
  lemma ExistsByKey(rows: map<nat, Record>, nextId: nat, id: nat)
    requires WellKeyed(rows, nextId)
    ensures AnyMatch(rows, Where("id", Int(id))) <==> id in rows
  {
    var c := Where("id", Int(id));
    if id in rows {
      assert Matches(rows[id], c);
    }
    if AnyMatch(rows, c) {
      var k :| k in rows && Matches(rows[k], c);
      assert rows[k]["id"] == Int(k);
    }
  }

  /** A row that holds every field of `criteria` makes `exists(criteria)` true. */
  lemma StoredRowIsFound(rows: map<nat, Record>, id: nat, criteria: Record)
    requires id in rows && criteria != map[]
    requires forall k :: k in criteria ==> k in rows[id] && rows[id][k] == criteria[k]
    ensures AnyMatch(rows, criteria)
  {
    assert Matches(rows[id], criteria);
  }

  /** `rows` keeps every row of `before` unchanged, under the same key. */
  ghost predicate Extends(rows: map<nat, Record>, before: map<nat, Record>)
  {
    forall id :: id in before ==> id in rows && rows[id] == before[id]
  }

  /** A match among the earlier rows is still a match. */
  lemma ExtendsKeepsMatch(rows: map<nat, Record>, before: map<nat, Record>, criteria: Record)
    requires Extends(rows, before) && AnyMatch(before, criteria)
    ensures AnyMatch(rows, criteria)
  {
    var k :| k in before && Matches(before[k], criteria);
    assert rows[k] == before[k];
  }

  lemma ExtendsChain(rows: map<nat, Record>, mid: map<nat, Record>, before: map<nat, Record>)
    requires Extends(rows, mid) && Extends(mid, before)
    ensures Extends(rows, before)
  {
    forall id | id in before
      ensures id in rows && rows[id] == before[id]
    {
      assert mid[id] == before[id];
    }
  }

  /** Inserting under a fresh key keeps every earlier row and every earlier match. */
  lemma InsertKeeps(before: map<nat, Record>, rows: map<nat, Record>, id: nat, rec: Record)
    requires Extends(rows, before) && id !in rows
    ensures Extends(rows[id := rec], before)
    ensures forall c :: AnyMatch(rows, c) ==> AnyMatch(rows[id := rec], c)
  {
    forall c | AnyMatch(rows, c)
      ensures AnyMatch(rows[id := rec], c)
    {
      var k :| k in rows && Matches(rows[k], c);
      assert rows[id := rec][k] == rows[k];
    }
  }

  class Table {
    var rows: map<nat, Record>
    /** The next value of the auto-increment key; never reused, even after a delete. */
    var nextId: nat

    ghost predicate Valid()
      reads this
    {
      WellKeyed(rows, nextId)
    }

    constructor ()
      ensures Valid() && rows == map[] && nextId == 1
    {
      rows := map[];
      nextId := 1;
    }

    /** Inserts `data` under a fresh key and returns the stored row. */
    method Create(data: Record) returns (r: Record)
      requires Valid()
      modifies this
      ensures Valid()
      ensures old(nextId) !in old(rows)
      ensures r == WithId(data, old(nextId))
      ensures rows == old(rows)[old(nextId) := r] && nextId == old(nextId) + 1
    {
      var id := nextId;
      r := WithId(data, id);
      rows := rows[id := r];
      nextId := nextId + 1;
    }

    method Count() returns (n: nat)
      ensures n == |rows|
    {
      n := |rows|;
    }

    /** Every stored row, each once, in no particular order. */
    method FetchAll() returns (s: seq<Record>)
      ensures |s| == |rows|
      ensures forall r :: r in s <==> exists id :: id in rows && rows[id] == r
    {
      s := [];
      ghost var keys: seq<nat> := [];
      var left := rows.Keys;
      while left != {}
        invariant left <= rows.Keys
        invariant |s| == |keys| && |keys| + |left| == |rows|
        invariant forall j :: 0 <= j < |keys| ==> keys[j] in rows && s[j] == rows[keys[j]]
        invariant forall id :: id in rows && id !in left ==> id in keys
        decreases left
      {
        var id :| id in left;
        s := s + [rows[id]];
        keys := keys + [id];
        left := left - {id};
      }
      ListsEveryRow(rows, s, keys);
    }

    /** The row stored under `id`, or None (absence is not an error). */
    method FetchById(id: nat) returns (r: Option<Record>)
      requires Valid()
      ensures id in rows <==> r.Some?
      ensures r.Some? ==> r.value == rows[id] && r.value["id"] == Int(id)
    {
      if id in rows {
        r := Some(rows[id]);
      } else {
        r := None;
      }
    }

    /** Partial update of the row under `id`; an unknown id changes nothing and yields None. */
    method UpdateById(id: nat, data: Record) returns (r: Option<Record>)
      requires Valid()
      modifies this
      ensures Valid() && nextId == old(nextId)
      ensures id !in old(rows) ==> r == None && rows == old(rows)
      ensures id in old(rows) ==> r == Some(Patched(old(rows)[id], data, id)) && rows == old(rows)[id := r.value]
    {
      if id in rows {
        var updated := Patched(rows[id], data, id);
        rows := rows[id := updated];
        r := Some(updated);
      } else {
        r := None;
      }
    }

    /** Deletes the row under `id`, if any; returns nothing. */
    method DestroyById(id: nat)
      requires Valid()
      modifies this
      ensures Valid() && nextId == old(nextId)
      ensures rows == old(rows) - {id}
    {
      rows := rows - {id};
    }

    /** True iff `criteria` is not empty and some row agrees with it on every given field. */
    method Exists(criteria: Record) returns (b: bool)
      ensures b == AnyMatch(rows, criteria)
      ensures b ==> exists id :: id in rows && Matches(rows[id], criteria)
      ensures criteria == map[] ==> !b
    {
      b := criteria != map[] && exists id :: id in rows && Matches(rows[id], criteria);
    }
  }

  /** A listing whose every entry is the row of its paired key, with every stored key paired, holds exactly the stored rows. */
  lemma ListsEveryRow(rows: map<nat, Record>, s: seq<Record>, keys: seq<nat>)
    requires |s| == |keys|
    requires forall j :: 0 <= j < |keys| ==> keys[j] in rows && s[j] == rows[keys[j]]
    requires forall id :: id in rows ==> id in keys
    ensures forall r :: r in s <==> exists id :: id in rows && rows[id] == r
  {
    forall r | r in s
      ensures exists id :: id in rows && rows[id] == r
    {
      var j :| 0 <= j < |s| && s[j] == r;
      assert rows[keys[j]] == r;
    }
    forall id | id in rows
      ensures rows[id] in s
    {
      var j :| 0 <= j < |keys| && keys[j] == id;
      assert s[j] == rows[id];
    }
  }

  lemma InsertedThenRemoved<K, V>(m: map<K, V>, k: K, v: V, w: V)
    requires k !in m
    ensures m[k := v][k := w] - {k} == m
  {
  }

  /** One `create` whose record the suite deletes again afterwards. */
  method CreateThenDestroy(t: Table, data: Record) returns (res: Record)
    requires t.Valid()
    modifies t
    ensures t.Valid() && t.rows == old(t.rows) && t.nextId == old(t.nextId) + 1
    ensures res == WithId(data, old(t.nextId))
  {
    var id := t.nextId;
    res := t.Create(data);
    t.DestroyById(id);
    assert t.rows == old(t.rows);
  }

  /**
   * The CRUD suite run against any valid table: each step's expectation holds,
   * and the suite leaves the table's rows as it found them.
   */
  method CrudSuite(t: Table)
    requires t.Valid()
    modifies t
    ensures t.Valid() && t.rows == old(t.rows)
  {
    // before: create the shared record and remember its id
    var testData := Where("name", Str("test"));
    var testId := t.nextId;
    var stored := t.Create(testData);
    testData := WithId(testData, testId);
    ghost var seeded := t.rows;
    assert seeded == old(t.rows)[testId := testData];

    // count
    var n := t.Count();
    assert n > 0;

    // create: the result is exactly the payload plus its id
    var data := Where("name", Str("testCreate"));
    var res := CreateThenDestroy(t, data);
    assert res.Keys == {"name", "id"} && res["name"] == data["name"];

    // destroyById
    var _ := CreateThenDestroy(t, Where("name", Str("testDestroy")));
    assert t.rows == seeded;

    // exists
    StoredRowIsFound(t.rows, testId, testData);
    var e := t.Exists(testData);
    assert e;
    e := t.Exists(map[]);
    assert !e;

    // fetchAll
    var all := t.FetchAll();
    assert |all| > 0;

    // fetchById: a stored id, then an id no row has
    var item := t.FetchById(testId);
    assert item.Some? && item.value["id"] == Int(testId);
    var unknown := t.nextId;
    var missing := t.FetchById(unknown);
    assert missing == None;

    // updateById: a stored id, then an id no row has
    var updated := t.UpdateById(testId, Where("name", Str("updatedName")));
    assert updated.Some? && updated.value["id"] == Int(testId) && updated.value["name"] == Str("updatedName");
    var notUpdated := t.UpdateById(unknown, Where("name", Str("updatedName")));
    assert notUpdated == None;

    ghost var patched := t.rows;

    // after
    t.DestroyById(testId);
    assert t.rows == patched - {testId};
    InsertedThenRemoved(old(t.rows), testId, testData, updated.value);
  }
}
