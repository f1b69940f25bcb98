/** The documents router: list, get, create, update and delete over the
    collection of documents, for an authenticated caller whose id is given.
    The collection is a map from id to record together with the order in
    which a full scan meets the records (insertion order). */
module DocumentRoutes {
  import opened Values
  import opened DocumentSchema

  /** A handler's answer together with the collection after it. */
  datatype Outcome<+T> = Outcome(response: Response<T>, docs: map<Id, Document>, order: seq<Id>)

  /*************************************************************************
   * GET /  — the caller's documents, then the documents shared with them
   *************************************************************************/

  /** `Document.find({ userId: caller })`, in scan order. */
  function OwnedBy(ds: seq<Document>, caller: Id): seq<Document> {
    Filter(ds, (d: Document) => d.userId == caller)
  }

  /** The `authorized` filter's loop: the first entry whose `_id` is the
      caller's id answers true; reading `_id` of a null entry throws (None). */
  function Authorized(who: seq<Json>, caller: Id): Option<bool> {
    FirstMatch(who, "_id", caller)
  }

  /** Some entry of `who` is an object whose `_id` is the caller's id. */
  ghost predicate GrantedById(who: seq<Json>, caller: Id) {
    SomeMatch(who, "_id", caller)
  }

  /** `Document.find({ allowSharing: true })` filtered by `authorized`, in
      scan order; None when the filter throws on some shared document. */
  function SharedWith(ds: seq<Document>, caller: Id): Option<seq<Document>>
    decreases |ds|
  {
    if ds == [] then Some([])
    else
      var d := ds[|ds| - 1];
      match SharedWith(ds[..|ds| - 1], caller)
      case None => None
      case Some(earlier) =>
        if !d.allowSharing then Some(earlier)
        else
          match Authorized(d.whoCanAccess, caller)
          case None => None
          case Some(granted) => Some(earlier + if granted then [d] else [])
  }

  /** One more document at the end of the scan. */
  lemma SharedWithSnoc(ds: seq<Document>, d: Document, caller: Id)
    ensures SharedWith(ds + [d], caller) ==
      match SharedWith(ds, caller)
      case None => None
      case Some(earlier) =>
        if !d.allowSharing then Some(earlier)
        else
          match Authorized(d.whoCanAccess, caller)
          case None => None
          case Some(granted) => Some(earlier + if granted then [d] else [])
  {
    assert (ds + [d])[..|ds|] == ds;
  }

  /** The filter throws on a document that is shared and whose scan throws. */
  ghost predicate Throws(d: Document, caller: Id) {
    d.allowSharing && Authorized(d.whoCanAccess, caller).None?
  }

  /** The list is shared with the caller by `_id`. */
  ghost predicate SharedById(d: Document, caller: Id) {
    d.allowSharing && GrantedById(d.whoCanAccess, caller)
  }

  /** The shared part of the list: it fails exactly when some document throws,
      and otherwise holds exactly the documents shared with the caller by `_id`. */
  lemma {:induction false} SharedWithMeaning(ds: seq<Document>, caller: Id)
    ensures SharedWith(ds, caller).None? <==> exists i | 0 <= i < |ds| :: Throws(ds[i], caller)
    ensures SharedWith(ds, caller).Some? ==>
      var s := SharedWith(ds, caller).value;
      && (forall i | 0 <= i < |s| :: s[i] in ds && SharedById(s[i], caller))
      && (forall i | 0 <= i < |ds| && SharedById(ds[i], caller) :: ds[i] in s)
    decreases |ds|
  {
    if ds != [] {
      var init := ds[..|ds| - 1];
      var d := ds[|ds| - 1];
      SharedWithMeaning(init, caller);
      FirstMatchMeaning(d.whoCanAccess, "_id", caller);
      assert forall i | 0 <= i < |init| :: init[i] == ds[i];
      if SharedWith(init, caller).None? {
        var i :| 0 <= i < |init| && Throws(init[i], caller);
        assert Throws(ds[i], caller);
      }
    }
  }

  /** The `authorized` filter's verdict on a document that does not throw:
      it is shared and its scan meets a grant whose `_id` is the caller's. */
  predicate SharedWithCaller(d: Document, caller: Id) {
    d.allowSharing && Authorized(d.whoCanAccess, caller) == Some(true)
  }

  /** When no shared document throws, the shared part is exactly the scan
      filtered by the `authorized` verdict: same order, same multiplicity
      (`FilterConcat`, `FilterCount`). */
  lemma {:induction false} SharedWithFilter(ds: seq<Document>, caller: Id)
    requires forall i | 0 <= i < |ds| :: !Throws(ds[i], caller)
    ensures SharedWith(ds, caller) == Some(Filter(ds, (d: Document) => SharedWithCaller(d, caller)))
    decreases |ds|
  {
    if ds != [] {
      var init := ds[..|ds| - 1];
      assert forall i | 0 <= i < |init| :: init[i] == ds[i];
      SharedWithFilter(init, caller);
      assert !Throws(ds[|ds| - 1], caller);
      var earlier := Filter(init, (d: Document) => SharedWithCaller(d, caller));
      assert earlier + [] == earlier;
    }
  }

  /** The response of GET /: the owned documents followed by the shared ones,
      or a server error when the filter throws. */
  function ListResponse(ds: seq<Document>, caller: Id): Response<seq<Document>> {
    match SharedWith(ds, caller)
    case None => Fail(ServerError)
    case Some(shared) => Ok(OwnedBy(ds, caller) + shared)
  }

  /** What GET / answers: a server error exactly when some shared document's
      `whoCanAccess` scan meets a null entry first; otherwise a list that
      starts with the caller's own documents and continues with documents
      shared with the caller by `_id`, and that holds every such document;
      exactly, the owned documents followed by the scan filtered by the
      `authorized` verdict, each in scan order and as often as scanned. */
  lemma ListMeaning(ds: seq<Document>, caller: Id)
    ensures ListResponse(ds, caller).Fail? <==> exists i | 0 <= i < |ds| :: Throws(ds[i], caller)
    ensures ListResponse(ds, caller).Fail? ==> ListResponse(ds, caller).status == ServerError
    ensures ListResponse(ds, caller).Ok? ==>
      var r := ListResponse(ds, caller).body;
      var n := |OwnedBy(ds, caller)|;
      && n <= |r|
      && (forall i | 0 <= i < n :: r[i] in ds && r[i].userId == caller)
      && (forall i | n <= i < |r| :: r[i] in ds && SharedById(r[i], caller))
      && (forall i | 0 <= i < |ds| && (ds[i].userId == caller || SharedById(ds[i], caller)) :: ds[i] in r)
    ensures (forall i | 0 <= i < |ds| :: !Throws(ds[i], caller)) ==>
      ListResponse(ds, caller) ==
        Ok(OwnedBy(ds, caller) + Filter(ds, (d: Document) => SharedWithCaller(d, caller)))
  {
    SharedWithMeaning(ds, caller);
    if forall i | 0 <= i < |ds| :: !Throws(ds[i], caller) {
      SharedWithFilter(ds, caller);
    }
    if SharedWith(ds, caller).Some? {
      var owned := OwnedBy(ds, caller);
      var shared := SharedWith(ds, caller).value;
      var r := owned + shared;
      assert forall i | 0 <= i < |owned| :: r[i] == owned[i];
      assert forall i | |owned| <= i < |r| :: r[i] == shared[i - |owned|];
    }
  }

  /** A document the caller owns that is also shared with the caller by `_id`
      appears twice in the list. */
  lemma ListedTwice(ds: seq<Document>, caller: Id, i: nat)
    requires i < |ds| && ds[i].userId == caller && SharedById(ds[i], caller)
    requires ListResponse(ds, caller).Ok?
    ensures multiset(ListResponse(ds, caller).body)[ds[i]] >= 2
  {
    SharedWithMeaning(ds, caller);
    var owned := OwnedBy(ds, caller);
    var shared := SharedWith(ds, caller).value;
    assert ds[i] in owned && ds[i] in shared;
    assert multiset(owned + shared) == multiset(owned) + multiset(shared);
  }

  /*************************************************************************
   * GET /:id
   *************************************************************************/

  /** The response of GET /:id. A shared document is sent only to a caller
      whose id is itself an entry of `whoCanAccess`; an unshared one only to
      its owner. */
  function GetResponse(docs: map<Id, Document>, id: Id, caller: Id): Response<Document> {
    if id !in docs then Fail(NotFound)
    else
      var d := docs[id];
      if d.allowSharing then
        if JStr(caller) in d.whoCanAccess then Ok(d) else Fail(NotFound)
      else if d.userId != caller then Fail(Unauthorized)
      else Ok(d)
  }

  /** Who may read a document through GET /:id: the stored record is sent
      when, and only when, it is shared and holds the caller's id as a bare
      entry, or is unshared and owned by the caller. An absent id and a
      shared document without that entry answer 404 — the owner included;
      only an unshared document of someone else answers 401. */
  lemma GetMeaning(docs: map<Id, Document>, id: Id, caller: Id)
    ensures GetResponse(docs, id, caller).Ok? <==>
      id in docs &&
      (if docs[id].allowSharing then JStr(caller) in docs[id].whoCanAccess else docs[id].userId == caller)
    ensures GetResponse(docs, id, caller).Ok? ==> GetResponse(docs, id, caller).body == docs[id]
    ensures GetResponse(docs, id, caller) == Fail(Unauthorized) <==>
      id in docs && !docs[id].allowSharing && docs[id].userId != caller
    ensures GetResponse(docs, id, caller).Fail? ==>
      GetResponse(docs, id, caller).status in {NotFound, Unauthorized}
  {
  }

  /** Entries that are user objects (what the client shares with) never
      equal a caller id, so a shared document whose entries are all objects
      is unreadable through GET /:id by everyone, its owner included, even
      though GET / lists it for every user named in it. */
  lemma ListedButNotReadable(docs: map<Id, Document>, order: seq<Id>, id: Id, caller: Id)
    requires Indexes(order, docs) && id in docs
    requires docs[id].allowSharing && GrantedById(docs[id].whoCanAccess, caller)
    requires forall k | 0 <= k < |docs[id].whoCanAccess| :: docs[id].whoCanAccess[k].JObj?
    ensures GetResponse(docs, id, caller) == Fail(NotFound)
    ensures GetResponse(docs, id, docs[id].userId) == Fail(NotFound)
    ensures ListResponse(Scan(docs, order), caller).Ok? ==> docs[id] in ListResponse(Scan(docs, order), caller).body
  {
    var d := docs[id];
    assert JStr(caller) !in d.whoCanAccess && JStr(d.userId) !in d.whoCanAccess by {
      forall k | 0 <= k < |d.whoCanAccess| ensures !d.whoCanAccess[k].JStr? {
        assert d.whoCanAccess[k].JObj?;
      }
    }
    var ds := Scan(docs, order);
    ScanMembership(docs, order, d);
    assert id in order;
    var i :| 0 <= i < |ds| && ds[i] == d;
    ListMeaning(ds, caller);
  }

  /*************************************************************************
   * POST /
   *************************************************************************/

  /** The sharing check of POST /: an unshared body may carry at most one entry. */
  predicate CreateSharingOk(input: DocumentInput) {
    input.allowSharing || |input.whoCanAccess| <= 1
  }

  /** POST /: validate (400); refuse more than one entry without sharing
      (403); build the document for the caller as given. The save is not
      awaited, so the document is answered whether or not the stored schema
      lets it in, and it is stored only when it does. */
  function CreateOutcome(
    docs: map<Id, Document>, order: seq<Id>, caller: Id, body: Json, newId: Id): Outcome<Document>
  {
    match ValidateDocument(body)
    case None => Outcome(Fail(BadRequest), docs, order)
    case Some(input) =>
      if !CreateSharingOk(input) then
        Outcome(Fail(Forbidden), docs, order)
      else
        var d := Instantiate(newId, input.title, input.content, caller,
                             Some(input.allowSharing), Some(input.whoCanAccess));
        if SchemaAccepts(d) then Outcome(Ok(d), docs[newId := d], order + [newId])
        else Outcome(Ok(d), docs, order)
  }

  /** What POST / does with a body: 400 exactly for an invalid body and 403
      exactly for a valid unshared body with two or more entries, and a
      refusal stores nothing; every other body is answered Ok with the input
      as given, owned by the caller under the new id, and the collection
      gains exactly that record when its title has 5 to 50 UTF-16 code units
      and stays as it was otherwise. */
  lemma CreateMeaning(docs: map<Id, Document>, order: seq<Id>, caller: Id, body: Json, newId: Id)
    ensures var o := CreateOutcome(docs, order, caller, body, newId);
      o.response.Fail? ==> o.docs == docs && o.order == order
    ensures var o := CreateOutcome(docs, order, caller, body, newId);
      o.response == Fail(BadRequest) <==> ValidateDocument(body).None?
    ensures var o := CreateOutcome(docs, order, caller, body, newId);
      o.response == Fail(Forbidden) <==>
        ValidateDocument(body).Some? && !CreateSharingOk(ValidateDocument(body).value)
    ensures var o := CreateOutcome(docs, order, caller, body, newId);
      o.response.Ok? <==>
        ValidateDocument(body).Some? && CreateSharingOk(ValidateDocument(body).value)
    ensures var o := CreateOutcome(docs, order, caller, body, newId);
      o.response.Ok? ==>
        var d := o.response.body;
        && Encode(DocumentInput(d.title, d.content, d.allowSharing, d.whoCanAccess)) == body
        && d.id == newId && d.userId == caller
        && (if SchemaAccepts(d) then o.docs == docs[newId := d] && o.order == order + [newId]
            else o.docs == docs && o.order == order)
  {
  }

  /** The create threshold is "more than one": an unshared document with a
      single entry is stored as given, so the stored record is unshared yet
      names a grantee. */
  lemma CreateKeepsLoneEntry(docs: map<Id, Document>, order: seq<Id>, caller: Id, input: DocumentInput, newId: Id)
    requires !input.allowSharing && |input.whoCanAccess| == 1
    requires TitleMinLength <= Utf16Length(input.title) <= TitleMaxLength
    ensures var o := CreateOutcome(docs, order, caller, Encode(input), newId);
      && newId in o.docs
      && !o.docs[newId].allowSharing
      && o.docs[newId].whoCanAccess == input.whoCanAccess != []
  {
    ValidateEncoded(input);
  }

  /** A title of one to four code units passes validation and is answered as
      created, but the store does not keep it. */
  lemma CreateShortTitleNotStored(docs: map<Id, Document>, order: seq<Id>, caller: Id, input: DocumentInput, newId: Id)
    requires 1 <= |input.title| && Utf16Length(input.title) < TitleMinLength
    requires input.allowSharing || |input.whoCanAccess| <= 1
    ensures var o := CreateOutcome(docs, order, caller, Encode(input), newId);
      o.response.Ok? && o.response.body.title == input.title && o.docs == docs && o.order == order
  {
    ValidateEncoded(input);
  }

  /*************************************************************************
   * PUT /:id
   *************************************************************************/

  /** The record `updateOne` writes: title and content from the request,
      `allowSharing` from the request when it is true and kept otherwise,
      `whoCanAccess` from the request (an array is always truthy). */
  function Merged(d: Document, input: DocumentInput): Document {
    d.(title := input.title,
       content := input.content,
       allowSharing := if input.allowSharing then input.allowSharing else d.allowSharing,
       whoCanAccess := input.whoCanAccess)
  }

  /** The sharing check of PUT /:id: an unshared body may carry no entry. */
  predicate UpdateSharingOk(input: DocumentInput) {
    input.allowSharing || input.whoCanAccess == []
  }

  /** PUT /:id: validate (400); refuse any entry without sharing (403), before
      the lookup; a missing id throws on `document.userId` (500); a caller
      who is not the owner gets 401; otherwise the merged record is written
      and the record as loaded before the write is answered. */
  function UpdateOutcome(
    docs: map<Id, Document>, order: seq<Id>, caller: Id, id: Id, body: Json): Outcome<Document>
  {
    match ValidateDocument(body)
    case None => Outcome(Fail(BadRequest), docs, order)
    case Some(input) =>
      if !UpdateSharingOk(input) then
        Outcome(Fail(Forbidden), docs, order)
      else if id !in docs then
        Outcome(Fail(ServerError), docs, order)
      else if caller != docs[id].userId then
        Outcome(Fail(Unauthorized), docs, order)
      else
        Outcome(Ok(docs[id]), docs[id := Merged(docs[id], input)], order)
  }

  /** What PUT /:id does, refusal by refusal in the handler's order: 400
      exactly for an invalid body; 403 exactly for a valid unshared body with
      entries, checked before the lookup, so even for an absent id; a server
      error exactly when the body passes both checks and the id is absent;
      401 exactly for a present record of someone else; every refusal leaves
      the collection as it was. The owner's request that passes both checks
      succeeds: it answers the OLD record, rewrites only that record, keeps
      its id and owner, takes title, content and entries from the request,
      turns sharing on when asked and never turns it off. */
  lemma UpdateMeaning(docs: map<Id, Document>, order: seq<Id>, caller: Id, id: Id, body: Json)
    ensures var o := UpdateOutcome(docs, order, caller, id, body);
      o.response.Fail? ==> o.docs == docs && o.order == order
    ensures var o := UpdateOutcome(docs, order, caller, id, body);
      o.response == Fail(BadRequest) <==> ValidateDocument(body).None?
    ensures var o := UpdateOutcome(docs, order, caller, id, body);
      o.response == Fail(Forbidden) <==>
        ValidateDocument(body).Some? && !UpdateSharingOk(ValidateDocument(body).value)
    ensures var o := UpdateOutcome(docs, order, caller, id, body);
      o.response == Fail(ServerError) <==>
        ValidateDocument(body).Some? && UpdateSharingOk(ValidateDocument(body).value) && id !in docs
    ensures var o := UpdateOutcome(docs, order, caller, id, body);
      o.response == Fail(Unauthorized) <==>
        ValidateDocument(body).Some? && UpdateSharingOk(ValidateDocument(body).value) &&
        id in docs && caller != docs[id].userId
    ensures var o := UpdateOutcome(docs, order, caller, id, body);
      o.response.Ok? <==>
        ValidateDocument(body).Some? && UpdateSharingOk(ValidateDocument(body).value) &&
        id in docs && caller == docs[id].userId
    ensures var o := UpdateOutcome(docs, order, caller, id, body);
      o.response.Ok? ==>
        && id in docs && o.response.body == docs[id]
        && o.docs.Keys == docs.Keys && o.order == order
        && (forall k | k in docs && k != id :: o.docs[k] == docs[k])
        && var n := o.docs[id];
           && n.id == docs[id].id && n.userId == docs[id].userId
           && n.allowSharing == (ValidateDocument(body).value.allowSharing || docs[id].allowSharing)
           && (n.title, n.content, n.whoCanAccess) ==
              (ValidateDocument(body).value.title, ValidateDocument(body).value.content,
               ValidateDocument(body).value.whoCanAccess)
  {
  }

  /** After a successful update the record is never unshared with entries
      left in it: an unshared request must carry no entries, and an unshared
      result needs an unshared request. */
  lemma UpdateNoEntriesWithoutSharing(docs: map<Id, Document>, order: seq<Id>, caller: Id, id: Id, body: Json)
    requires UpdateOutcome(docs, order, caller, id, body).response.Ok?
    ensures var n := UpdateOutcome(docs, order, caller, id, body).docs[id];
      !n.allowSharing ==> n.whoCanAccess == []
  {
  }

  /** The two thresholds differ: an unshared body with exactly one entry is
      accepted by POST / but refused by PUT /:id. */
  lemma ThresholdAsymmetry(
    docs: map<Id, Document>, order: seq<Id>, caller: Id, id: Id, newId: Id, input: DocumentInput)
    requires !input.allowSharing && |input.whoCanAccess| == 1 && |input.title| >= 1
    ensures CreateOutcome(docs, order, caller, Encode(input), newId).response.Ok?
    ensures UpdateOutcome(docs, order, caller, id, Encode(input)).response == Fail(Forbidden)
  {
    ValidateEncoded(input);
  }

  /*************************************************************************
   * DELETE /:id
   *************************************************************************/

  /** DELETE /:id: `findByIdAndRemove`, with no owner check. */
  function DeleteOutcome(docs: map<Id, Document>, order: seq<Id>, id: Id): Outcome<Document> {
    if id !in docs then Outcome(Fail(NotFound), docs, order)
    else Outcome(Ok(docs[id]), docs - {id}, Without(order, id))
  }

  /** Any authenticated caller may delete any document: the caller plays no
      part. An absent id answers 404 and changes nothing; otherwise the
      removed record is answered and exactly it leaves the collection. */
  lemma DeleteMeaning(docs: map<Id, Document>, order: seq<Id>, id: Id)
    requires Indexes(order, docs)
    ensures var o := DeleteOutcome(docs, order, id);
      && (o.response.Ok? <==> id in docs)
      && (o.response.Fail? ==> o.response.status == NotFound && o.docs == docs && o.order == order)
      && (o.response.Ok? ==> o.response.body == docs[id] && o.docs.Keys == docs.Keys - {id})
      && (forall k | k in o.docs :: k in docs && o.docs[k] == docs[k])
      && Indexes(o.order, o.docs)
  {
    if id in docs {
      IndexesRemove(order, docs, id);
    }
  }

  /** Once the filter throws on the i-th record, the whole list throws. */
  lemma ThrowPersists(docs: map<Id, Document>, order: seq<Id>, caller: Id, i: nat)
    requires Indexes(order, docs) && i < |order|
    requires Throws(docs[order[i]], caller)
    ensures SharedWith(Scan(docs, order), caller).None?
  {
    ScanAt(docs, order, i);
    SharedWithMeaning(Scan(docs, order), caller);
  }

  /*************************************************************************
   * The collection as state
   *************************************************************************/

  /** The `Document` collection the handlers read and write. */
  class DocumentStore {
    var docs: map<Id, Document>
    var order: seq<Id>

    /** Every record is stored under its own id and scanned exactly once. */
    ghost predicate Valid()
      reads this
    {
      && Indexes(order, docs)
      && (forall k | k in docs :: docs[k].id == k)
    }

    constructor ()
      ensures Valid() && docs == map[] && order == []
    {
      docs := map[];
      order := [];
    }

    /** The records in scan order. */
    function Records(): seq<Document>
      reads this
      requires Valid()
    {
      Scan(docs, order)
    }

    /** GET / */
    method List(caller: Id) returns (r: Response<seq<Document>>)
      requires Valid()
      ensures r == ListResponse(Records(), caller)
    {
      var owned := CollectOwned(caller);
      var shared := CollectShared(caller);
      if shared.None? {
        return Fail(ServerError);
      }
      r := Ok(owned + shared.value);
    }

    /** `Document.find({ userId: caller })` */
    method CollectOwned(caller: Id) returns (owned: seq<Document>)
      requires Valid()
      ensures owned == OwnedBy(Records(), caller)
    {
      owned := [];
      var i := 0;
      while i < |order|
        invariant 0 <= i <= |order|
        invariant owned == OwnedBy(Scan(docs, order[..i]), caller)
      {
        var d := docs[order[i]];
        ScanStep(docs, order, i);
        if d.userId == caller {
          owned := owned + [d];
        }
        i := i + 1;
      }
      assert order[..i] == order;
    }

    /** `Document.find({ allowSharing: true })` and the `authorized` filter;
        None when the filter throws. */
    method CollectShared(caller: Id) returns (shared: Option<seq<Document>>)
      requires Valid()
      ensures shared == SharedWith(Records(), caller)
    {
      var acc: seq<Document> := [];
      var i := 0;
      while i < |order|
        invariant 0 <= i <= |order|
        invariant SharedWith(Scan(docs, order[..i]), caller) == Some(acc)
      {
        var d := docs[order[i]];
        ScanStep(docs, order, i);
        SharedWithSnoc(Scan(docs, order[..i]), d, caller);
        if d.allowSharing {
          var granted := FindMatch(d.whoCanAccess, "_id", caller);
          if granted.None? {
            ThrowPersists(docs, order, caller, i);
            return None;
          }
          if granted.value {
            acc := acc + [d];
          } else {
            assert acc + [] == acc;
          }
        }
        i := i + 1;
      }
      assert order[..i] == order;
      shared := Some(acc);
    }

    /** GET /:id, with the `for` loop over `whoCanAccess`. */
    method Get(id: Id, caller: Id) returns (r: Response<Document>)
      ensures r == GetResponse(docs, id, caller)
    {
      if id !in docs {
        return Fail(NotFound);
      }
      var d := docs[id];
      if d.allowSharing {
        var i := 0;
        while i < |d.whoCanAccess|
          invariant 0 <= i <= |d.whoCanAccess|
          invariant JStr(caller) !in d.whoCanAccess[..i]
        {
          if d.whoCanAccess[i] == JStr(caller) {
            return Ok(d);
          }
          assert d.whoCanAccess[..i + 1] == d.whoCanAccess[..i] + [d.whoCanAccess[i]];
          i := i + 1;
        }
        assert d.whoCanAccess[..i] == d.whoCanAccess;
        return Fail(NotFound);
      }
      if d.userId != caller {
        return Fail(Unauthorized);
      }
      return Ok(d);
    }

    /** POST / ; `newId` is the id the store assigns. */
    method Create(caller: Id, body: Json, newId: Id) returns (r: Response<Document>)
      requires Valid() && newId !in docs
      modifies this
      ensures Valid()
      ensures var o := CreateOutcome(old(docs), old(order), caller, body, newId);
        r == o.response && docs == o.docs && order == o.order
    {
      var input := ValidateDocument(body);
      if input.None? {
        return Fail(BadRequest);
      }
      if !input.value.allowSharing && |input.value.whoCanAccess| > 1 {
        return Fail(Forbidden);
      }
      var d := Instantiate(newId, input.value.title, input.value.content, caller,
                           Some(input.value.allowSharing), Some(input.value.whoCanAccess));
      if SchemaAccepts(d) {
        IndexesInsert(order, docs, newId, d);
        docs := docs[newId := d];
        order := order + [newId];
      }
      r := Ok(d);
    }

    /** PUT /:id */
    method Update(caller: Id, id: Id, body: Json) returns (r: Response<Document>)
      requires Valid()
      modifies this
      ensures Valid()
      ensures var o := UpdateOutcome(old(docs), old(order), caller, id, body);
        r == o.response && docs == o.docs && order == o.order
    {
      var input := ValidateDocument(body);
      if input.None? {
        return Fail(BadRequest);
      }
      if !input.value.allowSharing && |input.value.whoCanAccess| > 0 {
        return Fail(Forbidden);
      }
      if id !in docs {
        return Fail(ServerError);
      }
      var document := docs[id];
      if caller != document.userId {
        return Fail(Unauthorized);
      }
      docs := docs[id := Merged(document, input.value)];
      r := Ok(document);
    }

    /** DELETE /:id; the caller is authenticated but not consulted. */
    method Delete(id: Id) returns (r: Response<Document>)
      requires Valid()
      modifies this
      ensures Valid()
      ensures var o := DeleteOutcome(old(docs), old(order), id);
        r == o.response && docs == o.docs && order == o.order
    {
      if id !in docs {
        return Fail(NotFound);
      }
      r := Ok(docs[id]);
      IndexesRemove(order, docs, id);
      docs := docs - {id};
      order := Without(order, id);
    }
  }
}
