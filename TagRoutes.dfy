/** The handlers mounted at `/api/tags`. */
module TagRoutes {
  import opened JsValues
  import opened Optional
  import opened Datastore
  import opened Models
  import opened Http

  /** The request body of POST; an absent field is `Undefined`. */
  datatype TagBody = TagBody(tag_name: Value)

  /** GET `/`: every tag, or 404 when there is none. */
  method List(tags: Table<Tag>) returns (reply: Reply<Tag>)
    ensures reply.Reply?
    ensures reply.status == NOT_FOUND <==> tags.rows == map[]
    ensures reply.status == NOT_FOUND ==> reply.payload == Message("No tags found.")
    ensures reply.status != NOT_FOUND ==> reply == Reply(OK, Rows(tags.rows))
  {
    var all := tags.FindAll();
    if |all| == 0 {
      return Reply(NOT_FOUND, Message("No tags found."));
    }
    return Reply(OK, Rows(all));
  }

  /** GET `/:id`: the tag with id `Number(path)`, or 404. */
  method Get(tags: Table<Tag>, path: string) returns (reply: Reply<Tag>)
    ensures reply.Reply?
    ensures reply.status == NOT_FOUND <==> !HasKey(tags.rows, ToNumber(path))
    ensures reply.status == NOT_FOUND ==> reply.payload == Message("No tags found with that id.")
    ensures reply.status != NOT_FOUND ==>
      var id := ToNumber(path).value;
      reply == Reply(OK, Row(Some(Record(id, tags.rows[id]))))
  {
    var tagId := ToNumber(path);
    var tagData := tags.FindByPk(tagId);
    if tagData.None? {
      return Reply(NOT_FOUND, Message("No tags found with that id."));
    }
    return Reply(OK, Row(tagData));
  }

  /** POST `/`: inserts a tag named exactly as given, after checking that
      the name is a string that is not blank. */
  method Create(tags: Table<Tag>, body: TagBody) returns (reply: Reply<Tag>)
    requires tags.Valid()
    modifies tags
    ensures tags.Valid()
    ensures !IsNonBlankString(body.tag_name) ==>
      reply == Reply(BAD_REQUEST, Message("Tag name is invalid.")) && unchanged(tags)
    ensures IsNonBlankString(body.tag_name) ==>
      var name := body.tag_name.s;
      && old(tags.nextId) !in old(tags.rows)
      && tags.rows == old(tags.rows)[old(tags.nextId) := Tag(name)]
      && tags.nextId == old(tags.nextId) + 1
      && reply == Reply(OK, Message("The tag " + name + " was created successfully."))
  {
    if !IsNonBlankString(body.tag_name) {
      return Reply(BAD_REQUEST, Message("Tag name is invalid."));
    }
    var name := body.tag_name.s;
    var _ := tags.Create(Tag(name));
    return Reply(OK, Message("The tag " + name + " was created successfully."));
  }

  /** PUT `/:id`: the route is declared with an empty handler. It changes
      nothing and never answers. */
  method Update(tags: Table<Tag>, path: string, body: TagBody) returns (reply: Reply<Tag>)
    ensures reply == NoReply
  {
    reply := NoReply;
  }

  /** DELETE `/:id`: deletes the tag with id `Number(path)`. There is no
      check on the id: whatever it is, a delete that removes nothing gives
      404. */
  method Delete(tags: Table<Tag>, path: string) returns (reply: Reply<Tag>)
    requires tags.Valid()
    modifies tags
    ensures tags.Valid() && tags.nextId == old(tags.nextId)
    ensures !HasKey(old(tags.rows), ToNumber(path)) ==>
      reply == Reply(NOT_FOUND, Message("No tag found with that id.")) && tags.rows == old(tags.rows)
    ensures HasKey(old(tags.rows), ToNumber(path)) ==>
      && tags.rows == old(tags.rows) - {ToNumber(path).value}
      && reply == Reply(OK, Message("Tag deleted successfully."))
  {
    var tagId := ToNumber(path);
    var deletedTag := tags.Destroy(tagId);
    if deletedTag == 0 {
      return Reply(NOT_FOUND, Message("No tag found with that id."));
    }
    return Reply(OK, Message("Tag deleted successfully."));
  }

  /** Deleting the same tag twice: the first request succeeds exactly when
      the tag exists, the second always finds nothing and says 404, and the
      tag is gone afterwards. */
  method DeleteTwice(tags: Table<Tag>, path: string) returns (first: Reply<Tag>, second: Reply<Tag>)
    requires tags.Valid()
    modifies tags
    ensures first.Reply? && (first.status == OK <==> HasKey(old(tags.rows), ToNumber(path)))
    ensures second == Reply(NOT_FOUND, Message("No tag found with that id."))
    ensures !HasKey(tags.rows, ToNumber(path))
  {
    first := Delete(tags, path);
    second := Delete(tags, path);
  }
}
