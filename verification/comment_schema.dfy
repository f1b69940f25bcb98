/** The Comment model: the request validator `validateComment` and the field
    constraints of the stored `Comment` schema. */
module CommentSchema {
  import opened Values

  /** The `user` object of a comment: `{_id, name, email}`. */
  datatype UserSummary = UserSummary(id: Id, name: string, email: string)

  /** A request body that `validateComment` accepted. */
  datatype CommentInput = CommentInput(content: string, user: UserSummary)

  /** A stored comment. */
  datatype Comment = Comment(id: Id, documentId: Id, content: string, user: UserSummary)

  /** The two format checks the validator delegates to Joi (`Joi.objectId()`
      and `.email()`), taken as given predicates. */
  datatype Formats = Formats(isObjectId: string -> bool, isEmail: string -> bool)

  const CommentKeys: set<string> := {"content", "user"}
  const UserKeys: set<string> := {"_id", "name", "email"}

  function EncodeUser(u: UserSummary): Json {
    JObj(map["_id" := JStr(u.id), "name" := JStr(u.name), "email" := JStr(u.email)])
  }

  /** The JSON body a client sends for `input`. */
  function Encode(input: CommentInput): Json {
    JObj(map["content" := JStr(input.content), "user" := EncodeUser(input.user)])
  }

  /** The per-field rules of `validateComment`'s `user` object: a required
      object id, a name of 2 to 50 and an email of 5 to 255 UTF-16 code
      units, the email email-shaped. */
  predicate UserRules(u: UserSummary, formats: Formats) {
    && formats.isObjectId(u.id)
    && 2 <= Utf16Length(u.name) <= 50
    && 5 <= Utf16Length(u.email) <= 255
    && formats.isEmail(u.email)
  }

  /** The per-field rules of `validateComment`: non-empty `content` and a valid `user`. */
  predicate InputRules(input: CommentInput, formats: Formats) {
    Utf16Length(input.content) >= 1 && UserRules(input.user, formats)
  }

  function ValidateUser(v: Json, formats: Formats): (r: Option<UserSummary>)
    ensures r.Some? ==> UserRules(r.value, formats) && EncodeUser(r.value) == v
  {
    if && v.JObj?
       && v.fields.Keys == UserKeys
       && v.fields["_id"].JStr?
       && v.fields["name"].JStr?
       && v.fields["email"].JStr?
    then
      var u := UserSummary(v.fields["_id"].s, v.fields["name"].s, v.fields["email"].s);
      assert EncodeUser(u).fields == v.fields;
      if UserRules(u, formats) then Some(u) else None
    else
      None
  }

  /** `validateComment`: exactly the keys `content` and `user`, both required;
      it accepts exactly the encodings of inputs meeting `InputRules` (the
      other direction is `ValidateEncoded`). */
  function ValidateComment(body: Json, formats: Formats): (r: Option<CommentInput>)
    ensures r.Some? ==> InputRules(r.value, formats) && Encode(r.value) == body
  {
    if && body.JObj?
       && body.fields.Keys == CommentKeys
       && body.fields["content"].JStr?
       && Utf16Length(body.fields["content"].s) >= 1
    then
      match ValidateUser(body.fields["user"], formats)
      case None => None
      case Some(u) =>
        var input := CommentInput(body.fields["content"].s, u);
        assert Encode(input).fields == body.fields;
        Some(input)
    else
      None
  }

  /** Every input that meets the field rules survives validation unchanged. */
  lemma ValidateEncoded(input: CommentInput, formats: Formats)
    requires InputRules(input, formats)
    ensures ValidateComment(Encode(input), formats) == Some(input)
  {
    assert Encode(input).fields.Keys == CommentKeys;
    assert EncodeUser(input.user).fields.Keys == UserKeys;
  }

  /** An empty comment is refused, whoever posts it. */
  lemma EmptyContentRejected(user: UserSummary, formats: Formats)
    ensures ValidateComment(Encode(CommentInput("", user)), formats) == None
  {
  }

  /** The stored schema's constraint beyond the field types: `content` of
      length at least 1 (`documentId` a required string, `user` a required object). */
  predicate SchemaAccepts(c: Comment) {
    Utf16Length(c.content) >= 1
  }

  /** `new Comment({documentId, ...body})` for a validated body. */
  function Instantiate(id: Id, documentId: Id, input: CommentInput): Comment {
    Comment(id, documentId, input.content, input.user)
  }

  /** Whatever the validator accepts, the stored schema accepts too. */
  lemma ValidatedFitsSchema(body: Json, formats: Formats, id: Id, documentId: Id)
    requires ValidateComment(body, formats).Some?
    ensures SchemaAccepts(Instantiate(id, documentId, ValidateComment(body, formats).value))
  {
  }
}
