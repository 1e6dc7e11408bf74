/** An in-memory stand-in for the object-relational mapper: a table is a
    map from surrogate id to row, with an auto-increment counter that hands
    out fresh ids. Each method is one ORM call the handlers make. */
module Datastore {
  import opened JsValues
  import opened Optional

  /** A row together with its surrogate id, as a query returns it. */
  datatype Record<R> = Record(id: int, fields: R)

  /** Whether `key` names a row of `rows`. Only an integral number can
      equal a surrogate id; NaN or a fraction matches no row. */
  predicate HasKey<R>(rows: map<int, R>, key: Number) {
    key.Int? && key.value in rows
  }

  /** The row `findByPk(key)` returns. */
  function Lookup<R>(rows: map<int, R>, key: Number): Option<Record<R>> {
    if HasKey(rows, key) then Some(Record(key.value, rows[key.value])) else None
  }

  function SetOf<T>(s: seq<T>): set<T> {
    set x | x in s
  }

  /** `ids` are pairwise distinct and none of them is already in use. */
  predicate FreshIds<R>(ids: seq<int>, rows: map<int, R>) {
    && (forall i :: 0 <= i < |ids| ==> ids[i] !in rows)
    && (forall i, j :: 0 <= i < j < |ids| ==> ids[i] != ids[j])
  }

  /** The `n` ids an auto-increment counter at `start` hands out. */
  function Consecutive(start: int, n: nat): seq<int> {
    seq(n, i requires 0 <= i < n => start + i)
  }

  /** Ids handed out from a counter above every key in use are fresh. */
  lemma ConsecutiveFresh<R>(rows: map<int, R>, start: int, n: nat)
    requires forall k :: k in rows ==> k < start
    ensures FreshIds(Consecutive(start, n), rows)
  {
  }

  /** `rows` after inserting `rs[i]` under `ids[i]`, in order. */
  function WithNew<R>(rows: map<int, R>, ids: seq<int>, rs: seq<R>): map<int, R>
    requires |ids| == |rs|
    decreases |ids|
  {
    if ids == [] then rows
    else WithNew(rows, ids[..|ids| - 1], rs[..|rs| - 1])[ids[|ids| - 1] := rs[|rs| - 1]]
  }

  /** `found` lists every row of `rows` that satisfies `p`, each once, in
      some order. */
  predicate Lists<R(==)>(found: seq<Record<R>>, rows: map<int, R>, p: R -> bool) {
    && (forall i :: 0 <= i < |found| ==>
          found[i].id in rows && rows[found[i].id] == found[i].fields && p(found[i].fields))
    && (forall k :: k in rows && p(rows[k]) ==> exists i :: 0 <= i < |found| && found[i].id == k)
    && (forall i, j :: 0 <= i < j < |found| ==> found[i].id != found[j].id)
  }

  class Table<R(==)> {
    var rows: map<int, R>
    var nextId: int

    /** Every id in use is below the auto-increment counter. */
    ghost predicate Valid()
      reads this
    {
      1 <= nextId && forall k :: k in rows ==> 1 <= k < nextId
    }

    constructor ()
      ensures Valid() && rows == map[] && nextId == 1
    {
      rows := map[];
      nextId := 1;
    }

    /** `findAll()`. */
    method FindAll() returns (all: map<int, R>)
      ensures all == rows
    {
      all := rows;
    }

    /** `findByPk(key)`: the addressed row, or null. */
    method FindByPk(key: Number) returns (row: Option<Record<R>>)
      ensures row.Some? <==> HasKey(rows, key)
      ensures row.Some? ==> row.value.id == key.value && row.value.fields == rows[key.value]
    {
      row := Lookup(rows, key);
    }

    /** `findAll({ where })`: the rows satisfying `p`, scanned in id
        order. */
    method FindAllWhere(p: R -> bool) returns (found: seq<Record<R>>)
      requires Valid()
      ensures Lists(found, rows, p)
      ensures forall i, j :: 0 <= i < j < |found| ==> found[i].id < found[j].id
    {
      found := [];
      var id := 1;
      while id < nextId
        invariant 1 <= id <= nextId
        invariant forall i :: 0 <= i < |found| ==>
          found[i].id in rows && found[i].id < id &&
          rows[found[i].id] == found[i].fields && p(found[i].fields)
        invariant forall k :: k in rows && k < id && p(rows[k]) ==>
          exists i :: 0 <= i < |found| && found[i].id == k
        invariant forall i, j :: 0 <= i < j < |found| ==> found[i].id < found[j].id
      {
        if id in rows && p(rows[id]) {
          var before := found;
          found := found + [Record(id, rows[id])];
          assert found[|before|].id == id;
          assert forall i :: 0 <= i < |before| ==> found[i] == before[i];
        }
        id := id + 1;
      }
    }

    /** `create(r)`: inserts `r` under the next auto-increment id. */
    method Create(r: R) returns (id: int)
      requires Valid()
      modifies this
      ensures Valid()
      ensures id == old(nextId) && id !in old(rows)
      ensures rows == old(rows)[id := r] && nextId == old(nextId) + 1
    {
      id := nextId;
      rows := rows[id := r];
      nextId := nextId + 1;
    }

    /** `bulkCreate(rs)`: inserts the rows of `rs` in order, each under the
        next auto-increment id. */
    method BulkCreate(rs: seq<R>) returns (ids: seq<int>)
      requires Valid()
      modifies this
      ensures Valid()
      ensures |ids| == |rs| && FreshIds(ids, old(rows))
      ensures ids == Consecutive(old(nextId), |rs|)
      ensures rows == WithNew(old(rows), ids, rs) && nextId == old(nextId) + |rs|
    {
      ids := [];
      var i := 0;
      while i < |rs|
        invariant 0 <= i <= |rs| && |ids| == i
        invariant nextId == old(nextId) + i
        invariant forall j :: 0 <= j < i ==> ids[j] == old(nextId) + j
        invariant rows == WithNew(old(rows), ids, rs[..i])
        invariant Valid()
      {
        assert rs[..i + 1][..i] == rs[..i];
        rows := rows[nextId := rs[i]];
        ids := ids + [nextId];
        nextId := nextId + 1;
        i := i + 1;
      }
      assert rs[..i] == rs;
    }

    /** `update(f, { where: { id: key } })`: rewrites the addressed row, if
        any. Like the ORM, it answers with a one-element array holding the
        number of rows it changed. */
    method Update(key: Number, f: R -> R) returns (result: Value)
      requires Valid()
      modifies this`rows
      ensures Valid()
      ensures result == Array([if HasKey(old(rows), key) then 1 else 0])
      ensures HasKey(old(rows), key) ==> rows == old(rows)[key.value := f(old(rows)[key.value])]
      ensures !HasKey(old(rows), key) ==> rows == old(rows)
    {
      if HasKey(rows, key) {
        rows := rows[key.value := f(rows[key.value])];
        result := Array([1]);
      } else {
        result := Array([0]);
      }
    }

    /** `destroy({ where: { id: key } })`: the number of rows deleted. */
    method Destroy(key: Number) returns (count: int)
      requires Valid()
      modifies this`rows
      ensures Valid()
      ensures count == if HasKey(old(rows), key) then 1 else 0
      ensures HasKey(old(rows), key) ==> rows == old(rows) - {key.value}
      ensures !HasKey(old(rows), key) ==> rows == old(rows)
    {
      if HasKey(rows, key) {
        rows := rows - {key.value};
        count := 1;
      } else {
        count := 0;
      }
    }

    /** `destroy({ where: { id: ids } })`: deletes every row whose id is
        listed. */
    method DestroyIds(ids: seq<int>) returns (count: int)
      requires Valid()
      modifies this`rows
      ensures Valid()
      ensures rows == old(rows) - SetOf(ids)
      ensures count == |old(rows).Keys * SetOf(ids)|
    {
      count := |rows.Keys * SetOf(ids)|;
      rows := rows - SetOf(ids);
    }
  }
}
