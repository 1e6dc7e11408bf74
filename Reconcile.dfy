/** The tag bookkeeping of the product handlers, as pure functions over the
    join table: pairing a product with tag ids on create, and, on update,
    diffing the product's current join rows against the requested tag ids
    to get the rows to add and the row ids to delete. */
module Reconcile {
  import opened JsValues
  import opened Datastore
  import opened Models

  /** The join rows `{ product_id: pid, tag_id }` for each of `tagIds`, in
      order: `tagIds.map(tag_id => ({ product_id: pid, tag_id }))`. */
  function Pairings(pid: Number, tagIds: seq<int>): seq<ProductTag> {
    seq(|tagIds|, i requires 0 <= i < |tagIds| => ProductTag(pid, tagIds[i]))
  }

  /** The tag ids of the rows of `links` that belong to product `pid`. */
  function TagsFor(links: seq<ProductTag>, pid: Number): set<int> {
    set l | l in links && l.product_id == pid :: l.tag_id
  }

  /** The tag ids of the product's current join rows:
      `productTags.map(({ tag_id }) => tag_id)`. */
  function CurrentTagIds(found: seq<Record<ProductTag>>): seq<int> {
    seq(|found|, i requires 0 <= i < |found| => found[i].fields.tag_id)
  }

  /** The requested ids that are not linked yet, in request order and with
      their repetitions: `tagIds.filter(tag_id => !current.includes(tag_id))`.
      Only membership in the current ids matters, so they are a set here. */
  function Missing(tagIds: seq<int>, current: set<int>): (r: seq<int>)
    ensures forall t :: t in r <==> t in tagIds && t !in current
  {
    if tagIds == [] then []
    else
      (if tagIds[0] in current then [] else [tagIds[0]]) + Missing(tagIds[1..], current)
  }

  /** The join rows the update adds (`newProductTags`). */
  function NewProductTags(pid: Number, tagIds: seq<int>, current: set<int>): (r: seq<ProductTag>)
    ensures forall l :: l in r ==> l.product_id == pid && l.tag_id in tagIds && l.tag_id !in current
  {
    Pairings(pid, Missing(tagIds, current))
  }

  /** The ids of the current join rows whose tag is no longer requested
      (`productTagsToRemove`), in the order the rows were found. */
  function RowsToRemove(found: seq<Record<ProductTag>>, tagIds: seq<int>): (r: seq<int>)
    ensures forall id :: id in r <==>
      exists i :: 0 <= i < |found| && found[i].id == id && found[i].fields.tag_id !in tagIds
  {
    if found == [] then []
    else
      var n := |found| - 1;
      RowsToRemove(found[..n], tagIds) + (if found[n].fields.tag_id in tagIds then [] else [found[n].id])
  }

  /** The join rows of product `pid` whose tag is not among `tagIds`. */
  function Unrequested(rows: map<int, ProductTag>, pid: Number, tagIds: seq<int>): set<int> {
    set k | k in rows && rows[k].product_id == pid && rows[k].tag_id !in tagIds
  }

  /** The join table after the product update, in terms of the table before
      it: the product's unrequested rows are gone, and the requested tags it
      lacked are paired with it under the fresh `ids`. */
  function Reconciled(rows: map<int, ProductTag>, pid: Number, tagIds: seq<int>, ids: seq<int>): map<int, ProductTag>
    requires |ids| == |NewProductTags(pid, tagIds, LinkedTags(rows, pid))|
  {
    WithNew(rows - Unrequested(rows, pid, tagIds), ids, NewProductTags(pid, tagIds, LinkedTags(rows, pid)))
  }

  // ---------------------------------------------------------------------
  // Properties

  /** Filtering distributes over concatenation: the added ids keep the
      relative order they have in the request. */
  lemma {:induction false} MissingKeepsOrder(a: seq<int>, b: seq<int>, current: set<int>)
    ensures Missing(a + b, current) == Missing(a, current) + Missing(b, current)
  {
    if a == [] {
      assert a + b == b;
    } else {
      assert (a + b)[1..] == a[1..] + b;
      MissingKeepsOrder(a[1..], b, current);
    }
  }

  /** An id that is not linked yet is added as many times as it is
      requested; a linked one is not added at all. */
  lemma {:induction false} MissingCounts(tagIds: seq<int>, current: set<int>, t: int)
    ensures multiset(Missing(tagIds, current))[t] == if t in current then 0 else multiset(tagIds)[t]
  {
    if tagIds != [] {
      assert tagIds == [tagIds[0]] + tagIds[1..];
      MissingCounts(tagIds[1..], current, t);
    }
  }

  /** Each pairing belongs to product `pid`, and together they link it to
      exactly the given tag ids. */
  lemma PairingsLinkExactly(pid: Number, tagIds: seq<int>)
    ensures TagsFor(Pairings(pid, tagIds), pid) == SetOf(tagIds)
    ensures forall l :: l in Pairings(pid, tagIds) ==> l.product_id == pid
  {
    var ps := Pairings(pid, tagIds);
    forall t | t in SetOf(tagIds) ensures t in TagsFor(ps, pid) {
      var i :| 0 <= i < |tagIds| && tagIds[i] == t;
      assert ps[i] in ps;
    }
  }

  /** Inserting adds exactly the new ids as keys. */
  lemma {:induction false} WithNewKeys<R>(rows: map<int, R>, ids: seq<int>, rs: seq<R>)
    requires |ids| == |rs|
    ensures WithNew(rows, ids, rs).Keys == rows.Keys + SetOf(ids)
    decreases |ids|
  {
    if ids != [] {
      var n := |ids| - 1;
      WithNewKeys(rows, ids[..n], rs[..n]);
      assert ids == ids[..n] + [ids[n]];
      assert SetOf(ids) == SetOf(ids[..n]) + {ids[n]};
    }
  }

  /** Inserting under ids not in use keeps every old row. */
  lemma {:induction false} WithNewKeepsOld<R>(rows: map<int, R>, ids: seq<int>, rs: seq<R>, k: int)
    requires |ids| == |rs| && FreshIds(ids, rows) && k in rows
    ensures k in WithNew(rows, ids, rs) && WithNew(rows, ids, rs)[k] == rows[k]
    decreases |ids|
  {
    if ids != [] {
      var n := |ids| - 1;
      WithNewKeepsOld(rows, ids[..n], rs[..n], k);
    }
  }

  /** Inserting under distinct ids stores each new row under its own id. */
  lemma {:induction false} WithNewStoresNew<R>(rows: map<int, R>, ids: seq<int>, rs: seq<R>, i: int)
    requires |ids| == |rs| && FreshIds(ids, rows) && 0 <= i < |ids|
    ensures ids[i] in WithNew(rows, ids, rs) && WithNew(rows, ids, rs)[ids[i]] == rs[i]
    decreases |ids|
  {
    var n := |ids| - 1;
    if i < n {
      WithNewStoresNew(rows, ids[..n], rs[..n], i);
      assert ids[i] != ids[n];
    }
  }

  /** What inserting rows under fresh ids does to a table. */
  lemma WithNewSpec<R>(rows: map<int, R>, ids: seq<int>, rs: seq<R>)
    requires |ids| == |rs| && FreshIds(ids, rows)
    ensures WithNew(rows, ids, rs).Keys == rows.Keys + SetOf(ids)
    ensures forall k :: k in rows ==> WithNew(rows, ids, rs)[k] == rows[k]
    ensures forall i :: 0 <= i < |ids| ==> WithNew(rows, ids, rs)[ids[i]] == rs[i]
  {
    WithNewKeys(rows, ids, rs);
    forall k | k in rows ensures WithNew(rows, ids, rs)[k] == rows[k] {
      WithNewKeepsOld(rows, ids, rs, k);
    }
    forall i | 0 <= i < |ids| ensures WithNew(rows, ids, rs)[ids[i]] == rs[i] {
      WithNewStoresNew(rows, ids, rs, i);
    }
  }

  /** Inserting join rows under fresh ids links product `pid` to the tags of
      the inserted rows that name it, in addition to the tags it had. */
  lemma LinkedTagsWithNew(rows: map<int, ProductTag>, ids: seq<int>, links: seq<ProductTag>, pid: Number)
    requires |ids| == |links| && FreshIds(ids, rows)
    ensures LinkedTags(WithNew(rows, ids, links), pid) == LinkedTags(rows, pid) + TagsFor(links, pid)
  {
    var after := WithNew(rows, ids, links);
    WithNewSpec(rows, ids, links);
    forall t | t in TagsFor(links, pid) ensures t in LinkedTags(after, pid) {
      var l :| l in links && l.product_id == pid && l.tag_id == t;
      var i :| 0 <= i < |links| && links[i] == l;
      assert ids[i] in after;
    }
    forall t | t in LinkedTags(after, pid) ensures t in LinkedTags(rows, pid) + TagsFor(links, pid) {
      var k :| k in after && after[k].product_id == pid && after[k].tag_id == t;
      if k !in rows {
        var i :| 0 <= i < |ids| && ids[i] == k;
        assert links[i] in links;
      }
    }
  }

  /** The current tag ids are exactly the tags the product is linked to. */
  lemma CurrentTagIdsAreLinked(rows: map<int, ProductTag>, pid: Number, found: seq<Record<ProductTag>>)
    requires Lists(found, rows, OfProduct(pid))
    ensures SetOf(CurrentTagIds(found)) == LinkedTags(rows, pid)
  {
    var cur := CurrentTagIds(found);
    forall t | t in LinkedTags(rows, pid) ensures t in SetOf(cur) {
      var k :| k in rows && rows[k].product_id == pid && rows[k].tag_id == t;
      assert OfProduct(pid)(rows[k]);
      var i :| 0 <= i < |found| && found[i].id == k;
      assert cur[i] == t;
    }
    forall t | t in SetOf(cur) ensures t in LinkedTags(rows, pid) {
      var i :| 0 <= i < |cur| && cur[i] == t;
      assert OfProduct(pid)(found[i].fields);
      assert found[i].id in rows && rows[found[i].id].product_id == pid;
    }
  }

  /** The row ids the handler computes are exactly the product's rows
      whose tag is no longer requested. */
  lemma RowsToRemoveAreUnrequested(rows: map<int, ProductTag>, pid: Number, found: seq<Record<ProductTag>>,
                                   tagIds: seq<int>)
    requires Lists(found, rows, OfProduct(pid))
    ensures SetOf(RowsToRemove(found, tagIds)) == Unrequested(rows, pid, tagIds)
  {
    forall id | id in RowsToRemove(found, tagIds) ensures id in Unrequested(rows, pid, tagIds) {
      var i :| 0 <= i < |found| && found[i].id == id && found[i].fields.tag_id !in tagIds;
      assert OfProduct(pid)(found[i].fields);
    }
    forall k | k in Unrequested(rows, pid, tagIds) ensures k in RowsToRemove(found, tagIds) {
      assert OfProduct(pid)(rows[k]);
      var i :| 0 <= i < |found| && found[i].id == k;
    }
  }

  /** Deleting the unrequested rows leaves the product linked to the tags it
      had that are still requested, and only those. */
  lemma LinkedTagsAfterRemove(rows: map<int, ProductTag>, pid: Number, tagIds: seq<int>)
    ensures LinkedTags(rows - Unrequested(rows, pid, tagIds), pid) == LinkedTags(rows, pid) * SetOf(tagIds)
  {
    var kept := rows - Unrequested(rows, pid, tagIds);
    forall t | t in LinkedTags(rows, pid) * SetOf(tagIds) ensures t in LinkedTags(kept, pid) {
      var k :| k in rows && rows[k].product_id == pid && rows[k].tag_id == t;
      assert k in kept;
    }
  }

  /** The product update's headline property: after deleting the
      unrequested rows and inserting the new ones, the product is linked to
      exactly the requested tag ids. */
  lemma ReconcileLinksExactly(rows: map<int, ProductTag>, pid: Number, tagIds: seq<int>, ids: seq<int>)
    requires |ids| == |NewProductTags(pid, tagIds, LinkedTags(rows, pid))| && FreshIds(ids, rows)
    ensures LinkedTags(Reconciled(rows, pid, tagIds, ids), pid) == SetOf(tagIds)
  {
    var kept := rows - Unrequested(rows, pid, tagIds);
    var adds := Missing(tagIds, LinkedTags(rows, pid));
    LinkedTagsAfterRemove(rows, pid, tagIds);
    LinkedTagsWithNew(kept, ids, Pairings(pid, adds), pid);
    PairingsLinkExactly(pid, adds);
    assert SetOf(adds) == SetOf(tagIds) - LinkedTags(rows, pid);
  }

  /** Deletions and insertions under fresh ids touch different keys, so
      either order gives the same table. */
  lemma {:induction false} RemoveAddCommute<R>(rows: map<int, R>, gone: set<int>, ids: seq<int>, rs: seq<R>)
    requires |ids| == |rs| && forall i :: 0 <= i < |ids| ==> ids[i] !in gone
    ensures WithNew(rows - gone, ids, rs) == WithNew(rows, ids, rs) - gone
    decreases |ids|
  {
    if ids != [] {
      var n := |ids| - 1;
      RemoveAddCommute(rows, gone, ids[..n], rs[..n]);
    }
  }

  /** The update's two writes, which it runs concurrently, commute: the rows
      it deletes all existed before, and the rows it inserts get fresh ids. */
  lemma ReconcileWritesCommute(rows: map<int, ProductTag>, pid: Number, tagIds: seq<int>, ids: seq<int>)
    requires |ids| == |NewProductTags(pid, tagIds, LinkedTags(rows, pid))| && FreshIds(ids, rows)
    ensures Reconciled(rows, pid, tagIds, ids)
            == WithNew(rows, ids, NewProductTags(pid, tagIds, LinkedTags(rows, pid))) - Unrequested(rows, pid, tagIds)
  {
    RemoveAddCommute(rows, Unrequested(rows, pid, tagIds), ids, NewProductTags(pid, tagIds, LinkedTags(rows, pid)));
  }

  /** Row by row: no old row is rewritten; a row of the product survives
      exactly when its tag is requested; rows of other products all
      survive; every inserted row belongs to the product. */
  lemma ReconcileKeepsRows(rows: map<int, ProductTag>, pid: Number, tagIds: seq<int>, ids: seq<int>)
    requires |ids| == |NewProductTags(pid, tagIds, LinkedTags(rows, pid))| && FreshIds(ids, rows)
    ensures var after := Reconciled(rows, pid, tagIds, ids);
            && (forall k :: k in rows && k in after ==> after[k] == rows[k])
            && (forall k :: k in rows && rows[k].product_id == pid ==> (k in after <==> rows[k].tag_id in tagIds))
            && (forall k :: k in rows && rows[k].product_id != pid ==> k in after)
            && (forall k :: k in after && k !in rows ==> after[k].product_id == pid)
  {
    var gone := Unrequested(rows, pid, tagIds);
    var adds := NewProductTags(pid, tagIds, LinkedTags(rows, pid));
    var after := Reconciled(rows, pid, tagIds, ids);
    WithNewSpec(rows - gone, ids, adds);
    forall k | k in after && k !in rows ensures after[k].product_id == pid {
      var i :| 0 <= i < |ids| && ids[i] == k;
      assert adds[i] in adds;
    }
  }

  /** Other products keep exactly the tags they had. */
  lemma ReconcileSparesOtherProducts(rows: map<int, ProductTag>, pid: Number, tagIds: seq<int>, ids: seq<int>)
    requires |ids| == |NewProductTags(pid, tagIds, LinkedTags(rows, pid))| && FreshIds(ids, rows)
    ensures forall q :: q != pid ==> LinkedTags(Reconciled(rows, pid, tagIds, ids), q) == LinkedTags(rows, q)
  {
    var after := Reconciled(rows, pid, tagIds, ids);
    ReconcileKeepsRows(rows, pid, tagIds, ids);
    forall q | q != pid ensures LinkedTags(after, q) == LinkedTags(rows, q) {
      forall t | t in LinkedTags(rows, q) ensures t in LinkedTags(after, q) {
        var k :| k in rows && rows[k].product_id == q && rows[k].tag_id == t;
        assert k in after;
      }
      forall t | t in LinkedTags(after, q) ensures t in LinkedTags(rows, q) {
        var k :| k in after && after[k].product_id == q && after[k].tag_id == t;
        assert k in rows;
      }
    }
  }
}
