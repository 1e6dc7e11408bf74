/** The handlers mounted at `/api/products`. Create and update also write
    the join table that links products to tags. */
module ProductRoutes {
  import opened JsValues
  import opened Optional
  import opened Datastore
  import opened Models
  import opened Http
  import opened Reconcile

  /** The request body of POST and PUT; an absent field is `Undefined`. */
  datatype ProductBody = ProductBody(product_name: Value, price: Value, stock: Value, tagIds: Value)

  /** What POST does with `tagIds` once the product row exists
      (`if (tagIds && tagIds.length) { tagIds.map(...) ... }`). */
  datatype TagStep =
    | NoTags                  // falsy, or no truthy `length`
    | PairWith(ids: seq<int>) // a non-empty array: one join row per element
    | TypeError               // a truthy `length` but no `map` method

  function CreateTagStep(tagIds: Value): (step: TagStep)
    ensures step.PairWith? <==> tagIds.Array? && tagIds.elems != []
    ensures step.PairWith? ==> step.ids == tagIds.elems
    ensures step.TypeError? <==>
      (tagIds.Str? && tagIds.s != "") || (tagIds.Object? && tagIds.truthyLength)
  {
    if !Truthy(tagIds) then NoTags
    else match tagIds
      case Array(ids) => if |ids| == 0 then NoTags else PairWith(ids)
      case Str(_) => TypeError
      case Object(truthyLength) => if truthyLength then TypeError else NoTags
      case _ => NoTags
  }

  /** The check PUT applies before touching any table: the id and the three
      fields must be truthy, and `tagIds` an array. */
  function ValidUpdate(productId: Number, body: ProductBody): (ok: bool)
    ensures ok ==> !productId.NaN? && productId != Int(0)
    ensures ok ==> body.tagIds.Array?
    ensures ok ==> forall v :: v in [body.product_name, body.price, body.stock] ==>
      v !in {Undefined, Null, Bool(false), Num(NaN), Num(Int(0)), Str("")}
  {
    && Truthy(Num(productId))
    && Truthy(body.product_name)
    && Truthy(body.price)
    && Truthy(body.stock)
    && body.tagIds.Array?
  }

  /** The product row after PUT. */
  function Revised(p: Product, body: ProductBody): (r: Product)
    ensures r.category_id == p.category_id
    ensures r.product_name == body.product_name && r.price == body.price && r.stock == body.stock
  {
    p.(product_name := body.product_name, price := body.price, stock := body.stock)
  }

  /** GET `/`: every product, or 404 when there is none. */
  method List(products: Table<Product>) returns (reply: Reply<Product>)
    ensures reply.Reply?
    ensures reply.status == NOT_FOUND <==> products.rows == map[]
    ensures reply.status == NOT_FOUND ==> reply.payload == Message("No products found.")
    ensures reply.status != NOT_FOUND ==> reply == Reply(OK, Rows(products.rows))
  {
    var all := products.FindAll();
    if |all| == 0 {
      return Reply(NOT_FOUND, Message("No products found."));
    }
    return Reply(OK, Rows(all));
  }

  /** GET `/:id`: the product with id `Number(path)`, or 404. */
  method Get(products: Table<Product>, path: string) returns (reply: Reply<Product>)
    ensures reply.Reply?
    ensures reply.status == NOT_FOUND <==> !HasKey(products.rows, ToNumber(path))
    ensures reply.status == NOT_FOUND ==> reply.payload == Message("No products found with that id.")
    ensures reply.status != NOT_FOUND ==>
      var id := ToNumber(path).value;
      reply == Reply(OK, Row(Some(Record(id, products.rows[id]))))
  {
    var productId := ToNumber(path);
    var productData := products.FindByPk(productId);
    if productData.None? {
      return Reply(NOT_FOUND, Message("No products found with that id."));
    }
    return Reply(OK, Row(productData));
  }

  /** POST `/`: inserts the product, then one join row per requested tag
      id. Nothing is validated. A `tagIds` with a truthy `length` that is
      not an array (a non-empty string, say) makes the handler throw after
      the product row is written, which gives 500. */
  method Create(products: Table<Product>, productTags: Table<ProductTag>, body: ProductBody)
    returns (reply: Reply<Product>)
    requires products.Valid() && productTags.Valid()
    modifies products, productTags
    ensures products.Valid() && productTags.Valid()
    ensures var id := old(products.nextId);
      var row := Product(body.product_name, body.price, body.stock, Null);
      && id !in old(products.rows)
      && products.rows == old(products.rows)[id := row]
      && products.nextId == id + 1
      && reply == (if CreateTagStep(body.tagIds).TypeError? then Reply(SERVER_ERROR, Message("Server Error"))
                   else Reply(OK, Row(Some(Record(id, row)))))
    ensures !CreateTagStep(body.tagIds).PairWith? ==> unchanged(productTags)
    ensures CreateTagStep(body.tagIds).PairWith? ==>
      var pid := Int(old(products.nextId));
      var ids := body.tagIds.elems;
      && productTags.rows == WithNew(old(productTags.rows), Consecutive(old(productTags.nextId), |ids|), Pairings(pid, ids))
      && productTags.nextId == old(productTags.nextId) + |ids|
      && LinkedTags(productTags.rows, pid) == LinkedTags(old(productTags.rows), pid) + SetOf(ids)
  {
    var newId := products.Create(Product(body.product_name, body.price, body.stock, Null));
    var step := CreateTagStep(body.tagIds);
    if step.TypeError? {
      return Reply(SERVER_ERROR, Message("Server Error"));
    }
    if step.PairWith? {
      var productTagIdArr := Pairings(Int(newId), step.ids);
      ghost var before := productTags.rows;
      var rowIds := productTags.BulkCreate(productTagIdArr);
      LinkedTagsWithNew(before, rowIds, productTagIdArr, Int(newId));
      PairingsLinkExactly(Int(newId), step.ids);
    }
    var resultProduct := products.FindByPk(Int(newId));
    return Reply(OK, Row(resultProduct));
  }

  /** PUT `/:id`: rewrites the product's fields and reconciles its tags with
      the requested `tagIds`. An invalid request is refused before any
      table is touched. The ORM's update answers with an array, which is
      never `=== 0`, so the 404 branch cannot be taken: an id that names no
      product still gets its tags reconciled and a 200 with a null body. */
  method Update(products: Table<Product>, productTags: Table<ProductTag>, path: string, body: ProductBody)
    returns (reply: Reply<Product>)
    requires products.Valid() && productTags.Valid()
    modifies products, productTags
    ensures products.Valid() && productTags.Valid()
    ensures products.nextId == old(products.nextId)
    ensures reply.Reply? && reply.status != NOT_FOUND
    ensures !ValidUpdate(ToNumber(path), body) ==>
      reply == Reply(BAD_REQUEST, Message("Invalid input")) && unchanged(products) && unchanged(productTags)
    ensures var pid := ToNumber(path);
      ValidUpdate(pid, body) ==>
        && (HasKey(old(products.rows), pid) ==>
              products.rows == old(products.rows)[pid.value := Revised(old(products.rows)[pid.value], body)])
        && (!HasKey(old(products.rows), pid) ==> products.rows == old(products.rows))
        && reply == Reply(OK, Row(Lookup(products.rows, pid)))
    ensures var pid := ToNumber(path);
      var before := old(productTags.rows);
      ValidUpdate(pid, body) ==>
        var adds := NewProductTags(pid, body.tagIds.elems, LinkedTags(before, pid));
        && productTags.rows == Reconciled(before, pid, body.tagIds.elems, Consecutive(old(productTags.nextId), |adds|))
        && productTags.nextId == old(productTags.nextId) + |adds|
    ensures var pid := ToNumber(path);
      var before := old(productTags.rows);
      ValidUpdate(pid, body) ==>
        && LinkedTags(productTags.rows, pid) == SetOf(body.tagIds.elems)
        && (forall q :: q != pid ==> LinkedTags(productTags.rows, q) == LinkedTags(before, q))
        && (forall k :: k in before && k in productTags.rows ==> productTags.rows[k] == before[k])
        && (forall k :: k in before && before[k].product_id == pid ==>
              (k in productTags.rows <==> before[k].tag_id in body.tagIds.elems))
        && (forall k :: k in productTags.rows && k !in before ==> productTags.rows[k].product_id == pid)
  {
    var productId := ToNumber(path);
    if !ValidUpdate(productId, body) {
      return Reply(BAD_REQUEST, Message("Invalid input"));
    }
    var tagIds := body.tagIds.elems;

    var updatedCount := products.Update(productId, (p: Product) => Revised(p, body));
    if updatedCount == Num(Int(0)) {
      return Reply(NOT_FOUND, Message("Product not found"));
    }

    var productTagRows := productTags.FindAllWhere(OfProduct(productId));
    var productTagIds := CurrentTagIds(productTagRows);
    var newProductTags := NewProductTags(productId, tagIds, SetOf(productTagIds));
    var productTagsToRemove := RowsToRemove(productTagRows, tagIds);

    ghost var before := productTags.rows;
    CurrentTagIdsAreLinked(before, productId, productTagRows);
    RowsToRemoveAreUnrequested(before, productId, productTagRows, tagIds);
    var _ := productTags.DestroyIds(productTagsToRemove);
    var added := productTags.BulkCreate(newProductTags);
    ConsecutiveFresh(before, old(productTags.nextId), |added|);
    ReconcileLinksExactly(before, productId, tagIds, added);
    ReconcileKeepsRows(before, productId, tagIds, added);
    ReconcileSparesOtherProducts(before, productId, tagIds, added);

    var resultProduct := products.FindByPk(productId);
    return Reply(OK, Row(resultProduct));
  }

  /** DELETE `/:id`: deletes the addressed product. The id is not checked;
      a delete that removes nothing gives 404. */
  method Delete(products: Table<Product>, path: string) returns (reply: Reply<Product>)
    requires products.Valid()
    modifies products
    ensures products.Valid() && products.nextId == old(products.nextId)
    ensures !HasKey(old(products.rows), ToNumber(path)) ==>
      reply == Reply(NOT_FOUND, Message("No product found with that id.")) && products.rows == old(products.rows)
    ensures HasKey(old(products.rows), ToNumber(path)) ==>
      && products.rows == old(products.rows) - {ToNumber(path).value}
      && reply == Reply(OK, Message("Product deleted successfully."))
  {
    var deletedCount := products.Destroy(ToNumber(path));
    if deletedCount == 0 {
      return Reply(NOT_FOUND, Message("No product found with that id."));
    }
    return Reply(OK, Message("Product deleted successfully."));
  }
}
