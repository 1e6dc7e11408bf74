# SmartBuy back end: the REST handlers, modelled in Dafny

SmartBuy is an e-commerce back end. Express routes sit over a
Sequelize/MySQL database of categories, products, tags and a `ProductTag`
join table that links products to tags. This project models the three
route files under `/api`:

- `/api/categories`: list, get, create, rename and delete a category. The
  name must be a non-blank string and the id a number.
- `/api/tags`: list, get, create and delete a tag. The PUT route has an
  empty handler.
- `/api/products`: list, get, create, update and delete a product. POST
  pairs the new product with the requested tag ids. PUT validates its
  input, rewrites the product and reconciles the product's join rows
  with the requested `tagIds`: it adds the tags that are missing and
  deletes the rows whose tag is no longer requested.

Layout:

- `JsValues.dfy`: the JavaScript values a request body carries, and the
  parts of JavaScript the handlers rely on: truthiness, `String.prototype.trim`
  (the ECMAScript whitespace set), `Number(string)` for decimal strings,
  and number-to-string in template literals.
- `Datastore.dfy`: an in-memory stand-in for the ORM. A `Table` class holds
  `rows: map<int, R>` keyed by surrogate id and an auto-increment counter.
  Its methods are the ORM calls the handlers make: `findAll`, `findByPk`,
  `findAll({where})`, `create`, `bulkCreate`, `update` and `destroy`.
- `Models.dfy`: the four row types and `LinkedTags`, the set of tags the
  join table links to a product.
- `Reconcile.dfy`: the tag bookkeeping of POST and PUT as pure functions,
  with the lemmas that say what the writes achieve.
- `Http.dfy`: a reply is a status with a JSON payload, or no reply.
- `CategoryRoutes.dfy`, `TagRoutes.dfy`, `ProductRoutes.dfy`: one method
  per handler. Each takes the tables it touches, the path segment and the
  body, and returns the reply. Its contract states the status, the
  message and the new table contents for every branch.

`JsValues.Canonical` says which `Number` values stand for JavaScript
numbers. `ToNumber` only produces canonical values, and `Truthy` and the
printing round trip are meant for them.

The code decides one point the documentation leaves open.
`Product.update` resolves to an array (`[affectedCount]`), so
`updatedCount === 0` at `product-routes.js:117` can never hold. A PUT for
a product id that does not exist therefore does not answer 404. In the
model, which has no foreign keys, it reconciles that id's join rows and
answers 200 with a `null` body. With a foreign key on `product_id`, that
200 holds only when the add list is empty: a non-empty `bulkCreate` at
`product-routes.js:147` would be refused and the catch at :157-159 would
answer 500.
`ProductRoutes.Update` follows the code, and its contract states
`reply.status != NOT_FOUND`.

## Model

| member | source | states |
|---|---|---|
| JsValues.Truthy | Develop/routes/api/product-routes.js:92-98 | a value is falsy exactly when it is undefined, null, false, NaN, 0 or the empty string |
| JsValues.TrimEmptyIffBlank | Develop/routes/api/category-routes.js:53-56 | `s.trim()` is empty exactly when every character of `s` is ECMAScript whitespace |
| JsValues.IsNonBlankString | Develop/routes/api/tag-routes.js:51 | the name check accepts exactly the strings that are not all whitespace; any non-string fails |
| JsValues.ToNumber | Develop/routes/api/category-routes.js:74 | `Number(req.params.id)` always yields a canonical number (a fraction's digits are non-empty and do not end in zero), and blank text yields 0 |
| JsValues.NumberToString | Develop/routes/api/category-routes.js:96 | a number printed in plain decimal (the model of a template literal, without its exponent form) is read back by `Number` as the same number, NaN included |
| JsValues.ToNumberOfDecimal | Develop/routes/api/category-routes.js:74 | `Number` applied to an id printed in decimal gives back that id |
| JsValues.FractionRead | Develop/routes/api/category-routes.js:128 | a canonical fraction id printed in a message reads back as the same fraction |
| Datastore.Table.FindAll | Develop/routes/api/category-routes.js:9-11 | `findAll()` returns every row of the table |
| Datastore.Table.FindByPk | Develop/routes/api/tag-routes.js:27-29 | `findByPk` finds a row exactly when the key is an integer in use, and returns that row |
| Datastore.Table.FindAllWhere | Develop/routes/api/product-routes.js:122-124 | the result lists every row that satisfies the filter, only such rows, each once, in ascending id order |
| Datastore.Table.Create | Develop/routes/api/category-routes.js:60 | the row is inserted under the counter's id, which was not in use, and the counter advances |
| Datastore.Table.BulkCreate | Develop/routes/api/product-routes.js:69 | rows are inserted in order under consecutive fresh ids, and the rest of the table is unchanged |
| Datastore.Table.Update | Develop/routes/api/category-routes.js:84-91 | the addressed row, if any, is rewritten and nothing else; the result is the one-element array of the changed-row count |
| Datastore.Table.Destroy | Develop/routes/api/tag-routes.js:74 | the addressed row, if any, is deleted and nothing else; the count is 1 or 0 accordingly |
| Datastore.Table.DestroyIds | Develop/routes/api/product-routes.js:146 | exactly the rows with the listed ids are deleted |
| Reconcile.Missing | Develop/routes/api/product-routes.js:130-131 | an id is kept exactly when it is requested and not currently linked |
| Reconcile.MissingKeepsOrder | Develop/routes/api/product-routes.js:130-131 | the filter distributes over concatenation, so new tags keep the request order |
| Reconcile.MissingCounts | Develop/routes/api/product-routes.js:130-131 | an unlinked id is added as many times as it is requested; a linked one is not added |
| Reconcile.NewProductTags | Develop/routes/api/product-routes.js:130-137 | every new join row belongs to the product, names a requested tag and names no tag already linked |
| Reconcile.RowsToRemove | Develop/routes/api/product-routes.js:140-142 | a row id is removed exactly when it is one of the found rows whose tag is not requested |
| Reconcile.RowsToRemoveAreUnrequested | Develop/routes/api/product-routes.js:122-142 | the ids to remove are exactly the product's join rows whose tag is not requested |
| Reconcile.PairingsLinkExactly | Develop/routes/api/product-routes.js:63-68 | the pairings all belong to the product and link it to exactly the given tag ids |
| Reconcile.WithNewSpec | Develop/routes/api/product-routes.js:69 | inserting under fresh ids adds those keys with the new rows and keeps every old row |
| Reconcile.LinkedTagsWithNew | Develop/routes/api/product-routes.js:62-70 | inserting join rows adds their tags for the product to the tags it already had |
| Reconcile.CurrentTagIdsAreLinked | Develop/routes/api/product-routes.js:122-127 | the current tag-id list holds exactly the tags the join table links to the product |
| Reconcile.LinkedTagsAfterRemove | Develop/routes/api/product-routes.js:140-146 | after the deletion the product keeps exactly its old tags that are still requested |
| Reconcile.ReconcileLinksExactly | Develop/routes/api/product-routes.js:121-148 | after the update's deletions and insertions, the product is linked to exactly the requested tag ids |
| Reconcile.ReconcileKeepsRows | Develop/routes/api/product-routes.js:121-148 | no old join row is rewritten; a row of the product survives exactly when its tag is requested; every row of another product survives; every inserted row belongs to the product |
| Reconcile.ReconcileSparesOtherProducts | Develop/routes/api/product-routes.js:121-148 | every other product is linked to exactly the tags it had before |
| Reconcile.RemoveAddCommute | Develop/routes/api/product-routes.js:145-148 | deleting keys and inserting under ids outside them give the same table in either order |
| Reconcile.ReconcileWritesCommute | Develop/routes/api/product-routes.js:145-148 | the two concurrent writes of the update commute, so their completion order does not matter |
| CategoryRoutes.RowsUpdatedMessage | Develop/routes/api/category-routes.js:104 | the message ends in the fixed text, and the part before it reads back as the updated-row count |
| CategoryRoutes.List | Develop/routes/api/category-routes.js:7-23 | 404 "No categories found." exactly when the table is empty; otherwise 200 with every row |
| CategoryRoutes.Get | Develop/routes/api/category-routes.js:26-45 | 404 naming the id as given exactly when no row has it; otherwise 200 with that row |
| CategoryRoutes.Create | Develop/routes/api/category-routes.js:48-68 | a non-string or blank name gives 400 and no change; otherwise the untrimmed name is inserted under a fresh id, the id counter advances by one and the reply names it |
| CategoryRoutes.Update | Develop/routes/api/category-routes.js:71-111 | a blank name or NaN id gives 400 and no change; an unknown id gives 404 and no change; otherwise the row is renamed and 200 sends "1 row has been successfully updated." with the new row |
| CategoryRoutes.Delete | Develop/routes/api/category-routes.js:114-139 | a NaN id gives 400; an unknown id gives 404 and no change; otherwise exactly that row is deleted and 200 names the id |
| CategoryRoutes.CreateThenGet | Develop/routes/api/category-routes.js:26-68 | a category created by POST is found by GET under its decimal id, with the posted name |
| TagRoutes.List | Develop/routes/api/tag-routes.js:7-21 | 404 "No tags found." exactly when the table is empty; otherwise 200 with every row |
| TagRoutes.Get | Develop/routes/api/tag-routes.js:24-43 | 404 exactly when `Number(id)` names no tag; otherwise 200 with that tag |
| TagRoutes.Create | Develop/routes/api/tag-routes.js:46-64 | a non-string or blank name gives 400 and no change; otherwise the tag is inserted under a fresh id, the id counter advances by one and the reply names it |
| TagRoutes.Update | Develop/routes/api/tag-routes.js:66-68 | the handler never replies and, having no frame, changes nothing |
| TagRoutes.Delete | Develop/routes/api/tag-routes.js:71-86 | 404 and no change exactly when `Number(id)` names no tag; otherwise that tag alone is deleted and 200 |
| TagRoutes.DeleteTwice | Develop/routes/api/tag-routes.js:71-86 | the first delete succeeds exactly when the tag exists; a repeated delete always answers 404 |
| ProductRoutes.CreateTagStep | Develop/routes/api/product-routes.js:62-63 | tag ids are paired exactly for a non-empty array; the handler throws exactly for a non-empty string or an object with a truthy `length` |
| ProductRoutes.ValidUpdate | Develop/routes/api/product-routes.js:92-98 | a request passes only with a non-zero, non-NaN id, an array of tag ids, and name, price and stock all truthy |
| ProductRoutes.Revised | Develop/routes/api/product-routes.js:103-108 | the updated row takes name, price and stock from the request and keeps its category |
| ProductRoutes.List | Develop/routes/api/product-routes.js:7-23 | 404 "No products found." exactly when the table is empty; otherwise 200 with every row |
| ProductRoutes.Get | Develop/routes/api/product-routes.js:26-47 | 404 exactly when `Number(id)` names no product; otherwise 200 with that product |
| ProductRoutes.Create | Develop/routes/api/product-routes.js:50-83 | the product is always inserted under a fresh id with a null category, and the product id counter advances by one. A non-empty array of tag ids adds one join row each under consecutive fresh ids, and the product is linked to those tags. A `tagIds` that throws gives 500 after the insert, with the join table unchanged. Otherwise 200 with the new row |
| ProductRoutes.Update | Develop/routes/api/product-routes.js:86-161 | invalid input gives 400 and both tables unchanged. Otherwise the product's name, price and stock are replaced and the category kept. The join table becomes exactly the old one without the product's unrequested rows, plus the missing pairings under consecutive fresh ids. So the product ends linked to exactly the requested tags, no surviving row is rewritten, and other products keep their tags. Both counters are stated, and the reply is 200 with the reloaded row, never 404 |
| ProductRoutes.Delete | Develop/routes/api/product-routes.js:163-185 | 404 and no change exactly when the id names no product; otherwise that product alone is deleted and 200 |

## Left out

- Express routing, the `res` object and JSON serialisation. A reply is a
  value.
- Eager loading (`include: [{ model: ... }]`) and `get({ plain: true })`.
  A reply carries the row itself, without associated rows.
- The `catch` branches that answer 500 on a database failure. The in-memory
  table does not fail. The 500 that the handler code itself causes is
  modelled: POST `/api/products` with a `tagIds` that has a truthy `length`
  but is not an array (a non-empty string, or an object such as
  `{"length": 1}`).
- `async`/`await` and `Promise.all`. The two writes of the product update
  run in sequence. `Reconcile.ReconcileWritesCommute` proves that the order
  does not change the result.
- Foreign keys, cascades and Sequelize model validation. A join row can
  name a tag or product that does not exist. Deleting a product or tag
  leaves its join rows in place.
- JsValues.ToNumber: decimal strings only, with optional sign, fraction
  and surrounding whitespace. Exponents, hex/octal/binary prefixes and
  `Infinity` are read as NaN.
- Floating point: numbers are exact integers or exact decimal fractions.
  There is no rounding and no loss of precision.
- The database's own coercion of an id. A raw path segment (category GET,
  product DELETE) is looked up as `Number(segment)`. A fractional id
  matches no row. A fractional product id in a PUT is stored unchanged as
  the `product_id` of the new join rows, where an integer column would
  round it.
- JsValues.NumberToString: prints every number in plain decimal. A
  JavaScript template literal switches to exponent notation below 1e-6
  and from 1e21 (`1e-7`, `1e+21`), so the 404 messages of the category PUT
  and DELETE for such ids differ from the model's (`0.0000001`).
- JsValues.Value: the elements of an array are integers. A JSON `tagIds`
  can also hold strings, fractions or null. `includes` compares those with
  SameValueZero against the integer `tag_id` the database returns, so
  `["1"]` would delete the existing link to tag 1 and insert a new one.
  That mixed-type behaviour is not modelled.
- JsValues.Value: an object other than an array is known only by whether
  its `length` is truthy. Its other properties play no part in the
  handlers.
- Datastore.HasKey: a NaN or fractional id matches no row. What the ORM
  and MySQL do with such a `where: { id }` is not part of this model. The
  404 answers for such ids in the tag and product GET and DELETE handlers
  follow from this choice.
- How MySQL counts affected rows. An update of an existing row counts 1
  even when the values do not change.
