/** The comments router: list, post, put and delete over the collection of
    comments, keyed by comment id, each scoped by the document id in the path.
    No handler consults the caller. */
module CommentRoutes {
  import opened Values
  import opened CommentSchema

  /** `req.query.commentId` is truthy: present and not empty. */
  predicate Given(commentId: Option<string>) {
    commentId.Some? && commentId.value != ""
  }

  /** `Comment.find({ documentId })`, in scan order. */
  function ForDocument(cs: seq<Comment>, documentId: Id): seq<Comment> {
    Filter(cs, (c: Comment) => c.documentId == documentId)
  }

  /** The `Comment` collection the handlers read and write. */
  class CommentStore {
    var comments: map<Id, Comment>
    var order: seq<Id>

    /** Every comment is stored under its own id, scanned exactly once, and
        meets the stored schema. */
    ghost predicate Valid()
      reads this
    {
      && Indexes(order, comments)
      && (forall k | k in comments :: comments[k].id == k && SchemaAccepts(comments[k]))
    }

    constructor ()
      ensures Valid() && comments == map[] && order == []
    {
      comments := map[];
      order := [];
    }

    /** GET /:id — exactly the stored comments whose `documentId` is the path id. */
    function List(documentId: Id): (r: seq<Comment>)
      reads this
      requires Valid()
      ensures forall i | 0 <= i < |r| ::
        r[i].id in comments && comments[r[i].id] == r[i] && r[i].documentId == documentId
      ensures forall k | k in comments && comments[k].documentId == documentId :: comments[k] in r
    {
      var cs := Scan(comments, order);
      var r := ForDocument(cs, documentId);
      assert forall i | 0 <= i < |r| :: r[i] in cs;
      assert forall c | c in cs :: c.id in comments && comments[c.id] == c by {
        forall c | c in cs ensures c.id in comments && comments[c.id] == c {
          ScanMembership(comments, order, c);
        }
      }
      assert forall k | k in comments && comments[k].documentId == documentId :: comments[k] in cs by {
        forall k | k in comments && comments[k].documentId == documentId ensures comments[k] in cs {
          ScanMembership(comments, order, comments[k]);
        }
      }
      r
    }

    /** POST /:id — an invalid body answers 400 and stores nothing; otherwise
        the body is stored under the new id with `documentId` set to the path
        id, and that record is answered. No check that the document exists. */
    method Post(documentId: Id, body: Json, formats: Formats, newId: Id) returns (r: Response<Comment>)
      requires Valid() && newId !in comments
      modifies this
      ensures Valid()
      ensures ValidateComment(body, formats).None? ==>
        r == Fail(BadRequest) && comments == old(comments) && order == old(order)
      ensures ValidateComment(body, formats).Some? ==>
        && r.Ok?
        && r.body.id == newId && r.body.documentId == documentId
        && Encode(CommentInput(r.body.content, r.body.user)) == body
        && comments == old(comments)[newId := r.body]
        && order == old(order) + [newId]
    {
      var input := ValidateComment(body, formats);
      if input.None? {
        return Fail(BadRequest);
      }
      var comment := Instantiate(newId, documentId, input.value);
      ValidatedFitsSchema(body, formats, newId, documentId);
      IndexesInsert(order, comments, newId, comment);
      comments := comments[newId := comment];
      order := order + [newId];
      r := Ok(comment);
    }

    /** PUT /:id?commentId= — without a comment id, 400 before anything else;
        an invalid body, 400; the comment matching BOTH ids is replaced by the
        body and the answer echoes the request's ids and body; with no such
        comment, 404 and nothing changes. */
    method Put(documentId: Id, commentId: Option<string>, body: Json, formats: Formats)
      returns (r: Response<Comment>)
      requires Valid()
      modifies this
      ensures Valid() && order == old(order)
      ensures !Given(commentId) ==> r == Fail(BadRequest) && comments == old(comments)
      ensures Given(commentId) && ValidateComment(body, formats).None? ==>
        r == Fail(BadRequest) && comments == old(comments)
      ensures Given(commentId) && ValidateComment(body, formats).Some? ==>
        var id := commentId.value;
        var input := ValidateComment(body, formats).value;
        if id in old(comments) && old(comments)[id].documentId == documentId then
          && r == Ok(Comment(id, documentId, input.content, input.user))
          && comments == old(comments)[id := r.body]
        else
          r == Fail(NotFound) && comments == old(comments)
    {
      if !Given(commentId) {
        return Fail(BadRequest);
      }
      var input := ValidateComment(body, formats);
      if input.None? {
        return Fail(BadRequest);
      }
      var id := commentId.value;
      if id !in comments || comments[id].documentId != documentId {
        return Fail(NotFound);
      }
      var replaced := Comment(id, documentId, input.value.content, input.value.user);
      ValidatedFitsSchema(body, formats, id, documentId);
      comments := comments[id := replaced];
      r := Ok(replaced);
    }

    /** DELETE /:id?commentId= — without a comment id, 400 before anything
        else. Otherwise the comment is removed by its id alone, whatever the
        path's document id; the answer is 404 when the document id does not
        resolve (checked first, the removal still happens) or the comment is
        absent, and the removed comment otherwise. `documentIds` holds the
        ids of the stored documents. */
    method Delete(documentId: Id, commentId: Option<string>, documentIds: set<Id>)
      returns (r: Response<Comment>)
      requires Valid()
      modifies this
      ensures Valid()
      ensures !Given(commentId) ==>
        r == Fail(BadRequest) && comments == old(comments) && order == old(order)
      ensures Given(commentId) ==>
        var id := commentId.value;
        && comments == old(comments) - {id}
        && order == Without(old(order), id)
        && r == (if documentId !in documentIds || id !in old(comments) then Fail(NotFound)
                 else Ok(old(comments)[id]))
    {
      if !Given(commentId) {
        return Fail(BadRequest);
      }
      var id := commentId.value;
      var documentFound := documentId in documentIds;
      var removed: Option<Comment> := if id in comments then Some(comments[id]) else None;
      IndexesRemove(order, comments, id);
      comments := comments - {id};
      order := Without(order, id);
      if !documentFound || removed.None? {
        return Fail(NotFound);
      }
      r := Ok(removed.value);
    }
  }
}
