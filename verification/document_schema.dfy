/** The Document model: the request validator `validateDocument` and the
    field constraints and defaults of the stored `Document` schema. */
module DocumentSchema {
  import opened Values

  /** A request body that `validateDocument` accepted, with its four fields typed. */
  datatype DocumentInput = DocumentInput(
    title: string,
    content: string,
    allowSharing: bool,
    whoCanAccess: seq<Json>)

  /** A stored document. `whoCanAccess` is a Mixed array: its entries are
      whatever JSON the client sent. The `created_at` stamp is not modelled. */
  datatype Document = Document(
    id: Id,
    title: string,
    content: string,
    userId: Id,
    allowSharing: bool,
    whoCanAccess: seq<Json>)

  /** The keys of the validator's object schema: all required, no others allowed. */
  const DocumentKeys: set<string> := {"title", "content", "allowSharing", "whoCanAccess"}

  /** Length bounds of the stored `title`, in UTF-16 code units. */
  const TitleMinLength: nat := 5
  const TitleMaxLength: nat := 50

  /** The JSON body a client sends for `input`. */
  function Encode(input: DocumentInput): Json {
    JObj(map[
      "title" := JStr(input.title),
      "content" := JStr(input.content),
      "allowSharing" := JBool(input.allowSharing),
      "whoCanAccess" := JArr(input.whoCanAccess)])
  }

  /** `Joi.string().min(min)`, measured as JavaScript measures strings. */
  predicate JoiString(v: Json, min: nat) {
    v.JStr? && Utf16Length(v.s) >= min
  }

  /** `validateDocument`: `title` a string of length at least 1, `content` a
      string of any length, `allowSharing` a boolean, `whoCanAccess` an array
      with unconstrained elements; all four required and no other key.
      It accepts exactly the encodings of inputs with a non-empty title
      (the other direction is `ValidateEncoded`). */
  function ValidateDocument(body: Json): (r: Option<DocumentInput>)
    ensures r.Some? ==> |r.value.title| >= 1 && Encode(r.value) == body
  {
    if && body.JObj?
       && body.fields.Keys == DocumentKeys
       && JoiString(body.fields["title"], 1)
       && JoiString(body.fields["content"], 0)
       && body.fields["allowSharing"].JBool?
       && body.fields["whoCanAccess"].JArr?
    then
      var input := DocumentInput(
        body.fields["title"].s,
        body.fields["content"].s,
        body.fields["allowSharing"].b,
        body.fields["whoCanAccess"].items);
      assert Encode(input).fields == body.fields;
      Some(input)
    else
      None
  }

  /** Every input with a non-empty title survives validation unchanged: the
      empty content, either sharing flag and any array of entries are accepted. */
  lemma ValidateEncoded(input: DocumentInput)
    requires |input.title| >= 1
    ensures ValidateDocument(Encode(input)) == Some(input)
  {
    assert Encode(input).fields.Keys == DocumentKeys;
  }

  /** The stored schema's constraints beyond the field types: `title` of
      5 to 50 UTF-16 code units (`content` has minimum length 0). */
  predicate SchemaAccepts(d: Document) {
    TitleMinLength <= Utf16Length(d.title) <= TitleMaxLength
  }

  /** The bounds count code units, not characters: three characters outside
      the Basic Multilingual Plane make a title of length 6, which the
      schema keeps, while three ordinary characters are too short. */
  lemma SchemaCountsCodeUnits(id: Id, content: string, userId: Id, allowSharing: bool, who: seq<Json>)
    ensures SchemaAccepts(Document(id, "\U{1F600}\U{1F600}\U{1F600}", content, userId, allowSharing, who))
    ensures !SchemaAccepts(Document(id, "abc", content, userId, allowSharing, who))
  {
    var astral := "\U{1F600}\U{1F600}\U{1F600}";
    assert astral[..2][..1] == astral[..1];
    assert astral[..|astral| - 1] == astral[..2];
    assert Utf16Length(astral[..1]) == 2;
    assert Utf16Length(astral[..2]) == 4;
    var plain := "abc";
    assert plain[..|plain| - 1] == "ab";
    assert "ab"[..1] == "a";
  }

  /** `new Document({...})`: an absent `allowSharing` defaults to false, an
      absent `whoCanAccess` to the empty array; given values are kept as they are. */
  function Instantiate(
    id: Id, title: string, content: string, userId: Id,
    allowSharing: Option<bool>, whoCanAccess: Option<seq<Json>>): (d: Document)
    ensures d.id == id && d.title == title && d.content == content && d.userId == userId
    ensures d.allowSharing == (allowSharing.Some? && allowSharing.value)
    ensures whoCanAccess.Some? ==> d.whoCanAccess == whoCanAccess.value
    ensures whoCanAccess.None? ==> d.whoCanAccess == []
  {
    Document(
      id, title, content, userId,
      match allowSharing case Some(b) => b case None => false,
      match whoCanAccess case Some(w) => w case None => [])
  }

  /** The request validator is looser than the stored schema: a title of one
      to four code units passes `validateDocument`, and the document built
      from it violates the schema's minimum length. */
  lemma ValidatorLooserThanSchema(input: DocumentInput, id: Id, userId: Id)
    requires 1 <= |input.title| && Utf16Length(input.title) < TitleMinLength
    ensures ValidateDocument(Encode(input)) == Some(input)
    ensures !SchemaAccepts(Instantiate(id, input.title, input.content, userId,
                                       Some(input.allowSharing), Some(input.whoCanAccess)))
  {
    ValidateEncoded(input);
  }
}
