/** The rows of the four tables. A row's surrogate id is its key in the
    table that holds it (see Datastore.Table), not one of its fields. */
module Models {
  import opened JsValues

  /** A row of the category table. */
  datatype Category = Category(category_name: string)

  /** A row of the tag table. */
  datatype Tag = Tag(tag_name: string)

  /** A row of the product table. The handlers store the request's values
      as they arrive; `category_id` is null for a product created here. */
  datatype Product = Product(product_name: Value, price: Value, stock: Value, category_id: Value)

  /** A row of the join table: one product-tag membership edge. The product
      id is kept as the handler computed it, with `Number(...)`. */
  datatype ProductTag = ProductTag(product_id: Number, tag_id: int)

  /** The tag ids linked to product `pid` in the join table `rows`. */
  function LinkedTags(rows: map<int, ProductTag>, pid: Number): set<int> {
    set k | k in rows && rows[k].product_id == pid :: rows[k].tag_id
  }

  /** The join-table filter `where: { product_id: pid }`. */
  function OfProduct(pid: Number): ProductTag -> bool {
    (l: ProductTag) => l.product_id == pid
  }
}
