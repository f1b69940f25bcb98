/** The client's document page: the component state the sharing dialog and
    the comment list edit, the payloads the handlers send, and how those
    payloads fare at the server. Network answers are inputs to the handlers:
    None stands for a request that threw. */
module DocumentPage {
  import opened Values
  import opened DocumentSchema
  import CommentSchema
  import opened DocumentRoutes

  /** The blank document of create mode. It has no `_id` and no `userId`;
      both are modelled as the empty string. */
  const Blank: Document := Document("", "", "", "", false, [])

  /** The initial value of `editMode`: on when there is no document or in
      create mode, and otherwise exactly for the document's owner. */
  function InitialEditMode(document: Option<Document>, createOption: bool, currentUserId: Id): bool {
    match document
    case None => true
    case Some(d) => createOption || currentUserId == d.userId
  }

  /** A comment's delete control is rendered only for its author. */
  function ShowsDeleteControl(currentUserId: Id, c: CommentSchema.Comment): bool {
    currentUserId == c.user.id
  }

  /** The body `handleFindUserByEmail` sends: the form's title and content,
      sharing on, and the found user appended to the entries. */
  function SharePayload(title: string, content: string, who: seq<Json>, user: Json): (p: DocumentInput)
    ensures p.allowSharing && |p.whoCanAccess| == |who| + 1
    ensures p.whoCanAccess[..|who|] == who && p.whoCanAccess[|who|] == user
  {
    DocumentInput(title, content, true, who + [user])
  }

  /** The body `handleRemoveWhoCanAccess` sends: the document's own title and
      content, its entries without those identical to `user` (the rest in
      their order), and sharing on exactly when some other entry remains. */
  function RemovalPayload(d: Document, user: Json): (p: DocumentInput)
    ensures p.title == d.title && p.content == d.content
    ensures p.whoCanAccess == Without(d.whoCanAccess, user)
    ensures p.allowSharing <==> exists i | 0 <= i < |d.whoCanAccess| :: d.whoCanAccess[i] != user
  {
    var filtered := Without(d.whoCanAccess, user);
    assert filtered != [] ==> filtered[0] in d.whoCanAccess;
    DocumentInput(d.title, d.content, |filtered| != 0, filtered)
  }

  /** The state of the `Document` page component. */
  class PageState {
    const createOption: bool
    const currentUserId: Id
    var document: Option<Document>
    var initialDocument: Option<Document>
    var comments: seq<CommentSchema.Comment>
    var formTitle: string
    var formContent: string
    var emailInput: string
    var commentInput: string
    var editMode: bool
    var sharePrompt: bool

    /** Outside create mode, a shown document always has a snapshot to go
        back to: the two are set together everywhere but in the optimistic
        `allowSharing` flip, which needs a document already. */
    ghost predicate Valid()
      reads this
    {
      !createOption && document.Some? ==> initialDocument.Some?
    }

    /** The initial state of the component for `mode` and `location.state`. */
    constructor (createOption: bool, locationState: Option<Document>, currentUserId: Id)
      ensures Valid()
      ensures this.createOption == createOption && this.currentUserId == currentUserId
      ensures document == (if createOption then Some(Blank) else locationState)
      ensures initialDocument == locationState
      ensures editMode == InitialEditMode(document, createOption, currentUserId)
      ensures formTitle == (if document.Some? && !createOption then document.value.title else "")
      ensures formContent == (if document.Some? && !createOption then document.value.content else "")
      ensures comments == [] && emailInput == "" && commentInput == "" && !sharePrompt
    {
      this.createOption := createOption;
      this.currentUserId := currentUserId;
      var doc := if createOption then Some(Blank) else locationState;
      document := doc;
      initialDocument := locationState;
      editMode := InitialEditMode(doc, createOption, currentUserId);
      formTitle := if doc.Some? && !createOption then doc.value.title else "";
      formContent := if doc.Some? && !createOption then doc.value.content else "";
      comments := [];
      emailInput := "";
      commentInput := "";
      sharePrompt := false;
    }

    /** `handleFindUserByEmail`. `found` is the user the lookup returns and
        `updated` the document the update answers. The email input is
        cleared first; an email already among the entries (or a null entry,
        which throws) stops it there. Otherwise sharing is switched on
        locally, and once the user is found the payload is sent and the
        answer replaces both the document and its snapshot. */
    method FindUserByEmail(found: Option<Json>, updated: Option<Document>)
      returns (sent: Option<DocumentInput>)
      requires Valid() && document.Some?
      modifies this`document, this`initialDocument, this`emailInput
      ensures Valid() && emailInput == ""
      ensures var who := old(document).value.whoCanAccess;
        FirstMatch(who, "email", old(emailInput)) != Some(false) ==>
          sent.None? && document == old(document) && initialDocument == old(initialDocument)
      ensures var who := old(document).value.whoCanAccess;
        FirstMatch(who, "email", old(emailInput)) == Some(false) && found.None? ==>
          && sent.None?
          && document == Some(old(document).value.(allowSharing := true))
          && initialDocument == old(initialDocument)
      ensures var who := old(document).value.whoCanAccess;
        FirstMatch(who, "email", old(emailInput)) == Some(false) && found.Some? ==>
          && sent == Some(SharePayload(formTitle, formContent, who, found.value))
          && document == (if updated.Some? then updated else Some(old(document).value.(allowSharing := true)))
          && initialDocument == (if updated.Some? then updated else old(initialDocument))
    {
      var email := emailInput;
      emailInput := "";
      var doc := document.value;
      var present := FindMatch(doc.whoCanAccess, "email", email);
      if present != Some(false) {
        return None;
      }
      document := Some(doc.(allowSharing := true));
      if found.None? {
        return None;
      }
      sent := Some(SharePayload(formTitle, formContent, doc.whoCanAccess, found.value));
      if updated.Some? {
        document := updated;
        initialDocument := updated;
      }
    }

    /** `handleCancelSharing`: the document goes back to the snapshot and the
        dialog closes. The dialog only opens outside create mode on a shown
        document. */
    method CancelSharing()
      requires Valid() && !createOption && document.Some?
      modifies this`document, this`sharePrompt
      ensures Valid()
      ensures document == old(initialDocument) && document.Some? && !sharePrompt
    {
      document := initialDocument;
      sharePrompt := false;
    }

    /** `handleRemoveWhoCanAccess`: sends the removal payload; the answer
        `updated`, if any, replaces both the document and its snapshot, and
        a failed request changes nothing. */
    method RemoveWhoCanAccess(user: Json, updated: Option<Document>) returns (sent: DocumentInput)
      requires Valid() && document.Some?
      modifies this`document, this`initialDocument
      ensures Valid()
      ensures sent == RemovalPayload(old(document).value, user)
      ensures document == (if updated.Some? then updated else old(document))
      ensures initialDocument == (if updated.Some? then updated else old(initialDocument))
    {
      sent := RemovalPayload(document.value, user);
      if updated.Some? {
        document := updated;
        initialDocument := updated;
      }
    }

    /** `handleAddComment`: `me` is the signed-in user the profile request
        returns and `created` the comment the post answers. The payload is
        the typed text with the user's summary; the created comment goes to
        the end of the list and the input is cleared. A request that throws
        leaves the list and the input as they were. */
    method AddComment(me: Option<CommentSchema.UserSummary>, created: Option<CommentSchema.Comment>) returns (sent: Option<CommentSchema.CommentInput>)
      modifies this`comments, this`commentInput
      ensures me.None? ==> sent.None?
      ensures me.Some? ==> sent == Some(CommentSchema.CommentInput(old(commentInput), me.value))
      ensures me.Some? && created.Some? ==>
        comments == old(comments) + [created.value] && commentInput == ""
      ensures me.None? || created.None? ==>
        comments == old(comments) && commentInput == old(commentInput)
    {
      if me.None? {
        return None;
      }
      sent := Some(CommentSchema.CommentInput(commentInput, me.value));
      if created.Some? {
        comments := comments + [created.value];
        commentInput := "";
      }
    }

    /** `handleRemoveComment`: the comment leaves the list only after the
        delete request succeeded; the others keep their order. */
    method RemoveComment(comment: CommentSchema.Comment, succeeded: bool)
      modifies this`comments
      ensures comments == if succeeded then Without(old(comments), comment) else old(comments)
    {
      var filtered := Without(comments, comment);
      if succeeded {
        comments := filtered;
      }
    }
  }

  /*************************************************************************
   * How the page's rules and payloads meet the server
   *************************************************************************/

  /** Outside create mode the edit controls appear exactly for the user the
      server lets update the document: for a well-formed body that passes
      the sharing check, PUT answers 401 exactly when edit mode is off. */
  lemma EditModeMatchesOwnerCheck(docs: map<Id, Document>, order: seq<Id>, id: Id, user: Id, input: DocumentInput)
    requires id in docs && |input.title| >= 1
    requires input.allowSharing || input.whoCanAccess == []
    ensures InitialEditMode(Some(docs[id]), false, user) <==>
      UpdateOutcome(docs, order, user, id, Encode(input)).response != Fail(Unauthorized)
  {
    ValidateEncoded(input);
  }

  /** Sharing with a new user: the server stores the list with the user
      appended and sharing on, but answers the record as it was, so the page
      takes back a document that does not yet name the new user. */
  lemma SharingAnswersStaleRecord(
    docs: map<Id, Document>, order: seq<Id>, id: Id, title: string, content: string, user: Json)
    requires id in docs && |title| >= 1
    requires user !in docs[id].whoCanAccess
    ensures var d := docs[id];
      var o := UpdateOutcome(docs, order, d.userId, id, Encode(SharePayload(title, content, d.whoCanAccess, user)));
      && o.response == Ok(d)
      && user !in o.response.body.whoCanAccess
      && o.docs[id].allowSharing
      && o.docs[id].whoCanAccess == d.whoCanAccess + [user]
  {
    ValidateEncoded(SharePayload(title, content, docs[id].whoCanAccess, user));
  }

  /** Removing the last shared user: the page sends sharing off with no
      entries, the server keeps the stored `allowSharing` (true), and from
      then on GET /:id answers 404 to everyone, the owner included. */
  lemma RemovingLastUserLocksOwnerOut(docs: map<Id, Document>, order: seq<Id>, id: Id, user: Json, caller: Id)
    requires id in docs && docs[id].allowSharing && |docs[id].title| >= 1
    requires forall i | 0 <= i < |docs[id].whoCanAccess| :: docs[id].whoCanAccess[i] == user
    ensures var d := docs[id];
      var o := UpdateOutcome(docs, order, d.userId, id, Encode(RemovalPayload(d, user)));
      && o.response == Ok(d)
      && o.docs[id].allowSharing && o.docs[id].whoCanAccess == []
      && GetResponse(o.docs, id, caller) == Fail(NotFound)
  {
    var d := docs[id];
    var p := RemovalPayload(d, user);
    assert p.whoCanAccess == [];
    ValidateEncoded(p);
  }

  /** Removing one of several users that share one document: the payload
      keeps sharing on and the server stores exactly the remaining entries. */
  lemma RemovingOneOfSeveralUsers(docs: map<Id, Document>, order: seq<Id>, id: Id, user: Json)
    requires id in docs && |docs[id].title| >= 1
    requires exists i | 0 <= i < |docs[id].whoCanAccess| :: docs[id].whoCanAccess[i] != user
    ensures var d := docs[id];
      var o := UpdateOutcome(docs, order, d.userId, id, Encode(RemovalPayload(d, user)));
      && o.response == Ok(d)
      && o.docs[id].allowSharing
      && o.docs[id].whoCanAccess == Without(d.whoCanAccess, user)
      && |o.docs[id].whoCanAccess| == |d.whoCanAccess| - multiset(d.whoCanAccess)[user]
  {
    var d := docs[id];
    ValidateEncoded(RemovalPayload(d, user));
    WithoutLength(d.whoCanAccess, user);
  }

  /** A comment removed from a list in which it occurs once leaves exactly
      one element behind it. */
  lemma RemovingCommentDropsOne(comments: seq<CommentSchema.Comment>, c: CommentSchema.Comment)
    requires multiset(comments)[c] == 1
    ensures |Without(comments, c)| == |comments| - 1 && c !in Without(comments, c)
  {
    WithoutLength(comments, c);
  }

  /** The delete control follows authorship: when the payload
      `handleAddComment` sends for the signed-in user `me` passes the
      server's validator, the comment the server builds from it shows its
      delete control to `me` and to no one else. */
  lemma DeleteControlForAuthorOnly(
    text: string, me: CommentSchema.UserSummary, formats: CommentSchema.Formats,
    viewer: Id, id: Id, documentId: Id)
    requires CommentSchema.InputRules(CommentSchema.CommentInput(text, me), formats)
    ensures var body := CommentSchema.Encode(CommentSchema.CommentInput(text, me));
      && CommentSchema.ValidateComment(body, formats).Some?
      && (ShowsDeleteControl(viewer, CommentSchema.Instantiate(id, documentId, CommentSchema.ValidateComment(body, formats).value))
          <==> viewer == me.id)
  {
    CommentSchema.ValidateEncoded(CommentSchema.CommentInput(text, me), formats);
  }
}
