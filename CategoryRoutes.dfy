/** The handlers mounted at `/api/categories`. Each takes the category
    table and the request's path segment and body, and returns the reply. */
module CategoryRoutes {
  import opened JsValues
  import opened Optional
  import opened Datastore
  import opened Models
  import opened Http

  /** The request body of POST and PUT; an absent field is `Undefined`. */
  datatype CategoryBody = CategoryBody(category_name: Value)

  const ROWS_UPDATED := " row has been successfully updated."

  /** The confirmation PUT sends: the count as a template literal prints it,
      then a fixed text. The count can be read back from the front. */
  function RowsUpdatedMessage(count: int): (m: string)
    ensures |m| >= |ROWS_UPDATED| && m[|m| - |ROWS_UPDATED|..] == ROWS_UPDATED
    ensures ToNumber(m[..|m| - |ROWS_UPDATED|]) == Int(count)
  {
    var d := DecimalString(count);
    ToNumberOfDecimal(count);
    assert (d + ROWS_UPDATED)[..|d|] == d;
    assert (d + ROWS_UPDATED)[|d|..] == ROWS_UPDATED;
    d + ROWS_UPDATED
  }

  /** GET `/`: every category, or 404 when there is none. */
  method List(categories: Table<Category>) returns (reply: Reply<Category>)
    ensures reply.Reply?
    ensures reply.status == NOT_FOUND <==> categories.rows == map[]
    ensures reply.status == NOT_FOUND ==> reply.payload == Message("No categories found.")
    ensures reply.status != NOT_FOUND ==> reply == Reply(OK, Rows(categories.rows))
  {
    var all := categories.FindAll();
    if |all| == 0 {
      return Reply(NOT_FOUND, Message("No categories found."));
    }
    return Reply(OK, Rows(all));
  }

  /** GET `/:id`: the category with that id, or 404 naming the id as given. */
  method Get(categories: Table<Category>, path: string) returns (reply: Reply<Category>)
    ensures reply.Reply?
    ensures reply.status == NOT_FOUND <==> !HasKey(categories.rows, ToNumber(path))
    ensures reply.status == NOT_FOUND ==>
      reply.payload == Message("No categories were found with the id: " + path)
    ensures reply.status != NOT_FOUND ==>
      var id := ToNumber(path).value;
      reply == Reply(OK, Row(Some(Record(id, categories.rows[id]))))
  {
    var category := categories.FindByPk(ToNumber(path));
    if category.None? {
      return Reply(NOT_FOUND, Message("No categories were found with the id: " + path));
    }
    return Reply(OK, Row(category));
  }

  /** POST `/`: inserts a category named exactly as given (not trimmed),
      after checking that the name is a string that is not blank. */
  method Create(categories: Table<Category>, body: CategoryBody) returns (reply: Reply<Category>)
    requires categories.Valid()
    modifies categories
    ensures categories.Valid()
    ensures !IsNonBlankString(body.category_name) ==>
      reply == Reply(BAD_REQUEST, Message("Invalid category name.")) && unchanged(categories)
    ensures IsNonBlankString(body.category_name) ==>
      var name := body.category_name.s;
      && old(categories.nextId) !in old(categories.rows)
      && categories.rows == old(categories.rows)[old(categories.nextId) := Category(name)]
      && categories.nextId == old(categories.nextId) + 1
      && reply == Reply(OK, Message("The category " + name + " was created successfully."))
  {
    if !IsNonBlankString(body.category_name) {
      return Reply(BAD_REQUEST, Message("Invalid category name."));
    }
    var name := body.category_name.s;
    var _ := categories.Create(Category(name));
    return Reply(OK, Message("The category " + name + " was created successfully."));
  }

  /** PUT `/:id`: renames the addressed category. A blank name or a NaN id
      is refused before the table is touched; an id that names no row
      gives 404; otherwise the reloaded row is sent back. */
  method Update(categories: Table<Category>, path: string, body: CategoryBody) returns (reply: Reply<Category>)
    requires categories.Valid()
    modifies categories
    ensures categories.Valid()
    ensures var id := ToNumber(path);
      !IsNonBlankString(body.category_name) || id.NaN? ==>
        reply == Reply(BAD_REQUEST, Message("Invalid category name or id.")) && unchanged(categories)
    ensures var id := ToNumber(path);
      IsNonBlankString(body.category_name) && !id.NaN? && !HasKey(old(categories.rows), id) ==>
        && reply == Reply(NOT_FOUND, Message("No category found with the id: " + NumberToString(id) + "."))
        && categories.rows == old(categories.rows)
    ensures var id := ToNumber(path);
      IsNonBlankString(body.category_name) && HasKey(old(categories.rows), id) ==>
        var renamed := Category(body.category_name.s);
        && categories.rows == old(categories.rows)[id.value := renamed]
        && reply == Reply(OK, MessageAndRow(RowsUpdatedMessage(1), Some(Record(id.value, renamed))))
    ensures categories.nextId == old(categories.nextId)
  {
    var categoryId := ToNumber(path);
    if !IsNonBlankString(body.category_name) || categoryId.NaN? {
      return Reply(BAD_REQUEST, Message("Invalid category name or id."));
    }
    var name := body.category_name.s;
    var affectedRows := categories.Update(categoryId, (c: Category) => Category(name));
    if affectedRows.elems[0] == 0 {
      return Reply(NOT_FOUND, Message("No category found with the id: " + NumberToString(categoryId) + "."));
    }
    var updatedCategory := categories.FindByPk(categoryId);
    return Reply(OK, MessageAndRow(RowsUpdatedMessage(affectedRows.elems[0]), updatedCategory));
  }

  /** DELETE `/:id`: deletes the addressed category. A NaN id is refused
      with 400; an id that names no row gives 404 and changes nothing. */
  method Delete(categories: Table<Category>, path: string) returns (reply: Reply<Category>)
    requires categories.Valid()
    modifies categories
    ensures categories.Valid()
    ensures ToNumber(path).NaN? ==>
      reply == Reply(BAD_REQUEST, Message("Invalid category id.")) && unchanged(categories)
    ensures var id := ToNumber(path);
      !id.NaN? && !HasKey(old(categories.rows), id) ==>
        reply == Reply(NOT_FOUND, Message("No category found with the id: " + NumberToString(id)))
        && categories.rows == old(categories.rows)
    ensures var id := ToNumber(path);
      HasKey(old(categories.rows), id) ==>
        && categories.rows == old(categories.rows) - {id.value}
        && reply == Reply(OK, Message("Category with id: " + NumberToString(id) + " was deleted."))
    ensures categories.nextId == old(categories.nextId)
  {
    var categoryId := ToNumber(path);
    if categoryId.NaN? {
      return Reply(BAD_REQUEST, Message("Invalid category id."));
    }
    var deletedRows := categories.Destroy(categoryId);
    if deletedRows == 0 {
      return Reply(NOT_FOUND, Message("No category found with the id: " + NumberToString(categoryId)));
    }
    return Reply(OK, Message("Category with id: " + NumberToString(categoryId) + " was deleted."));
  }

  /** A category created through POST is found by GET under its id, printed
      in decimal, with the name exactly as posted. */
  method CreateThenGet(categories: Table<Category>, name: string) returns (reply: Reply<Category>)
    requires categories.Valid()
    requires IsNonBlankString(Str(name))
    modifies categories
    ensures reply.Reply? && reply.status == OK
    ensures reply.payload.Row? && reply.payload.row.Some?
    ensures reply.payload.row.value.fields.category_name == name
  {
    var id := categories.nextId;
    var created := Create(categories, CategoryBody(Str(name)));
    ToNumberOfDecimal(id);
    reply := Get(categories, DecimalString(id));
  }
}
