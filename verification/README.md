# Markdown document management: documents, sharing and comments

This project models the decision logic of a small markdown document service:

- An Express/Mongoose server keeps `Document` records. Each record has a title, markdown content and an owner, plus a sharing flag `allowSharing` and a grant list `whoCanAccess`.
- The server also keeps `Comment` records attached to documents.
- A React page lets the owner edit a document, share it by email, revoke a grant and comment on it.

The model covers the following parts:

- **Request validators and stored schemas.** `validateDocument` and `validateComment` are modelled as partial decoders from a JSON body (`DocumentSchema`, `CommentSchema`). Each is proved to accept exactly the encodings of well-formed inputs. The stored schemas' extra constraints are predicates, and the gap between validator and schema is proved.
- **The documents router** (`DocumentRoutes`). The collection is a class `DocumentStore` holding a map from id to record and the order in which a scan meets the records. Each handler is a method proved against a pure outcome function on the old state. The properties of the handlers are lemmas about those functions.
- **The comments router** (`CommentRoutes`). The collection is a class `CommentStore`, and each of the four handlers is a function or method with its full effect as its contract.
- **The client page** (`DocumentPage`). The component's state is a class `PageState`, and the handlers are methods. Answers from the network are parameters: `None` stands for a request that threw. Lemmas follow the payloads a handler sends through the server's update handler.

Several behaviours of the code are kept exactly as written, and lemmas make each of them explicit. The model's bodies carry `allowSharing` as a JSON boolean; the sharing rules below hold for such bodies (see "## Left out" for a string-valued flag):

- **GET /** compares each grant's `_id` with the caller's id (`ListMeaning`). **GET /:id** compares the whole grant with the id (`GetMeaning`). The client stores user objects as grants, so a shared document is listed for its grantees but answers 404 to everyone, owner included (`ListedButNotReadable`, `RemovingLastUserLocksOwnerOut`).
- **An unshared document is read only by its owner, and a shared one not even by its owner** unless the owner's id is itself a grant (`GetMeaning`).
- **Sharing thresholds differ.** For a boolean `allowSharing`, create refuses an unshared body with more than one grant; update refuses one with any grant (`ThresholdAsymmetry`, `CreateKeepsLoneEntry`).
- **Neither create nor update turns sharing off when the grant list is empty.** For a boolean `allowSharing`, update keeps the stored `allowSharing` whenever the request's is false. The client computes `filtered.length !== 0` (client/src/pages/Document.js:186) and so expects revoking the last grant to unshare the document; the server keeps it shared (`RemovingLastUserLocksOwnerOut`, `UpdateMeaning`).
- **Update answers the record as it was before the write** (`UpdateMeaning`, `SharingAnswersStaleRecord`).
- **Update on an absent id** reads `document.userId` of `null` and throws, which the model answers as a server error. The 404 for a missing record (server/routes/documents.js:103-106) comes after that read and after the write, so it is never reached (`UpdateMeaning`).
- **Delete has no owner check**: any authenticated caller removes any document (`DeleteMeaning`).
- **The comment routes consult no caller** for posting, editing or deleting. Only the client hides a comment's delete control from everyone but its author (`DeleteControlForAuthorOnly`).
- **Create does not await the save.** The new document is answered even when the stored schema's title bounds of 5 to 50 UTF-16 code units keep it out of the collection (`CreateShortTitleNotStored`).
- **A `null` grant** makes the list filter throw, a server error, when the loop over a shared document's grants reaches the null before any grant whose `_id` is the caller's (`ListMeaning`, `FirstMatchMeaning`).
- **String lengths are measured in UTF-16 code units**, as JavaScript's `length` counts them, so a character outside the Basic Multilingual Plane counts twice (`SchemaCountsCodeUnits`).

## Model

| member | source | states |
|---|---|---|
| Values.Utf16Length | server/models/comments.js:10-11 | JavaScript's string length: one code unit per character inside the Basic Multilingual Plane and two outside it; hence between the number of characters and twice it, and equal to it exactly when no character lies outside that plane. |
| Values.Utf16Concat | server/models/comments.js:10-11 | The length of a concatenation is the sum of the lengths, so with the single-character case every string's length is the sum of its characters' code units. |
| Values.FirstMatchMeaning | server/routes/documents.js:13-18 | The `for` loop over grants answers true only if some grant's member matches, false only if none matches and none is null, and throws only if some grant is null. Without null grants it answers exactly whether a match exists. |
| Values.FindMatch | server/routes/documents.js:13-18 | The loop with its two early exits computes `FirstMatch`. |
| Values.Without | client/src/pages/Document.js:176-180 | `filter(e => e !== x)`: the result is no longer than the input, every element kept is from the input and differs from `x`, and every element other than `x` is kept. |
| Values.WithoutLength | client/src/pages/Document.js:222-226 | Filtering removes exactly the occurrences of the element: the length drops by its multiplicity. |
| Values.WithoutConcat | client/src/pages/Document.js:176-180 | Filtering distributes over concatenation, so the remaining elements keep their order. |
| Values.WithoutAbsent | client/src/pages/Document.js:222-226 | Filtering out an element that does not occur changes nothing. |
| Values.WithoutDistinct | server/routes/documents.js:112 | Removing an id from a duplicate-free scan order leaves it duplicate-free. |
| Values.ScanMembership | server/routes/documents.js:8 | A full scan yields exactly the stored records. |
| Values.Filter | server/routes/documents.js:8 | A store query `find({field})` over a scan (also the comment query at server/routes/comments.js:8): exactly the scanned records satisfying the predicate, membership both ways. |
| Values.FilterCount | server/routes/documents.js:8 | The query keeps each record satisfying the predicate exactly as often as the scan meets it, and no other record. |
| Values.FilterConcat | server/routes/documents.js:8 | The query distributes over concatenation, so the kept records keep their scan order. |
| DocumentSchema.ValidateDocument | server/models/documents.js:4-11 | An accepted body is exactly the encoding of the returned input, and the input's title is non-empty. |
| DocumentSchema.ValidateEncoded | server/models/documents.js:6-9 | Every input with a non-empty title is accepted unchanged, including empty content, either sharing flag and any grant array. |
| DocumentSchema.Instantiate | server/models/documents.js:37-46 | A new record keeps the given fields. `allowSharing` defaults to false and `whoCanAccess` to the empty array. |
| DocumentSchema.SchemaCountsCodeUnits | server/models/documents.js:17-22 | The title bounds count UTF-16 code units: three astral characters (length 6) are kept, three ordinary ones are too short. |
| DocumentSchema.ValidatorLooserThanSchema | server/models/documents.js:17-22 | A title of 1 to 4 UTF-16 code units passes the validator but violates the stored schema's minimum length of 5. |
| CommentSchema.ValidateUser | server/models/comments.js:7-13 | An accepted `user` has an object id, a name of 2 to 50 and an email-shaped address of 5 to 255 UTF-16 code units, and it encodes back to the body. |
| CommentSchema.ValidateComment | server/models/comments.js:4-15 | An accepted body has non-empty content and a valid user, and it is exactly the encoding of the returned input. |
| CommentSchema.ValidateEncoded | server/models/comments.js:6-11 | Every input meeting the field rules is accepted unchanged. |
| CommentSchema.EmptyContentRejected | server/models/comments.js:6 | An empty comment is refused, whoever posts it. |
| CommentSchema.ValidatedFitsSchema | server/models/comments.js:25-29 | Whatever the validator accepts, the stored schema accepts. |
| DocumentRoutes.SharedWithMeaning | server/routes/documents.js:10-20 | The shared part fails exactly when some shared record's grant scan throws. Otherwise it holds exactly the shared records whose grants name the caller's `_id`. |
| DocumentRoutes.SharedWithFilter | server/routes/documents.js:10-20 | When no shared record throws, the shared part is exactly `Filter` of the scan by the `authorized` verdict: same records, same order, same multiplicity. |
| DocumentRoutes.ListMeaning | server/routes/documents.js:7-23 | GET / fails, with a server error, exactly when some shared record throws. Otherwise the answer starts with the caller's own records, continues with records shared with the caller by `_id`, and includes every such record. When nothing throws, the answer is exactly the owned records followed by the scan filtered by the `authorized` verdict, so each keeps its scan order and multiplicity. |
| DocumentRoutes.ListedTwice | server/routes/documents.js:22 | A record the caller owns that also names the caller's `_id` appears at least twice in the list. |
| DocumentRoutes.GetMeaning | server/routes/documents.js:25-47 | GET /:id sends the stored record exactly when the record is shared and holds the caller's id as a bare grant, or is unshared and owned by the caller. 401 is answered exactly for an unshared record of someone else; every other refusal is 404. |
| DocumentRoutes.ListedButNotReadable | server/routes/documents.js:33-39 | A shared record whose grants are all objects answers 404 to a grantee and to its owner, yet GET / lists it for that grantee. |
| DocumentRoutes.CreateMeaning | server/routes/documents.js:49-68 | 400 exactly for an invalid body, 403 exactly for a valid unshared body with two or more grants, Ok exactly otherwise; refusals store nothing. An Ok answer is the input owned by the caller under the new id, stored exactly when its title has 5 to 50 UTF-16 code units. |
| DocumentRoutes.CreateKeepsLoneEntry | server/routes/documents.js:53-65 | An unshared body with exactly one grant is stored as it is: unshared, yet naming a grantee. |
| DocumentRoutes.CreateShortTitleNotStored | server/routes/documents.js:59-67 | A title of 1 to 4 UTF-16 code units is answered as created, but the collection is unchanged. |
| DocumentRoutes.UpdateMeaning | server/routes/documents.js:70-109 | Each outcome is characterised both ways, in the handler's order: 400 exactly for an invalid body; 403 exactly for a valid unshared body with grants, even for an absent id; a server error exactly for an absent id past both checks; 401 exactly for a non-owner; Ok exactly for the owner. Refusals change nothing. On success the old record is answered and only that record is rewritten: id and owner kept; title, content and grants from the request; sharing on if asked and otherwise kept. |
| DocumentRoutes.UpdateNoEntriesWithoutSharing | server/routes/documents.js:74-101 | For a body whose `allowSharing` is a JSON boolean, a successful update never leaves the record unshared with grants in it. |
| DocumentRoutes.ThresholdAsymmetry | server/routes/documents.js:53-78 | An unshared body with one grant is accepted by create and refused with 403 by update. |
| DocumentRoutes.DeleteMeaning | server/routes/documents.js:111-120 | Any caller may delete. An absent id answers 404 and changes nothing. Otherwise the removed record is answered, exactly it leaves the collection, and the scan order stays consistent. |
| DocumentRoutes.ThrowPersists | server/routes/documents.js:10-20 | One shared record whose grant scan throws makes the whole shared list throw. |
| DocumentRoutes.DocumentStore.List | server/routes/documents.js:7-23 | The handler answers `ListResponse` of the stored records in scan order. |
| DocumentRoutes.DocumentStore.CollectOwned | server/routes/documents.js:8 | The scan loop collects exactly `OwnedBy` of the stored records. |
| DocumentRoutes.DocumentStore.CollectShared | server/routes/documents.js:10-20 | The scan loop with the `authorized` filter computes `SharedWith` of the stored records, stopping at the first throw. |
| DocumentRoutes.DocumentStore.Get | server/routes/documents.js:25-47 | The handler, with its loop over grants, answers `GetResponse`. |
| DocumentRoutes.DocumentStore.Create | server/routes/documents.js:49-68 | The answer and the new collection are those of `CreateOutcome`, and the store invariant is kept. |
| DocumentRoutes.DocumentStore.Update | server/routes/documents.js:70-109 | The answer and the new collection are those of `UpdateOutcome`, and the store invariant is kept. |
| DocumentRoutes.DocumentStore.Delete | server/routes/documents.js:111-120 | The answer and the new collection are those of `DeleteOutcome`, and the store invariant is kept. |
| CommentRoutes.CommentStore.List | server/routes/comments.js:7-10 | GET /:id answers only stored comments of the path's document, and all of them. |
| CommentRoutes.CommentStore.Post | server/routes/comments.js:12-20 | An invalid body answers 400 and stores nothing. Otherwise the comment is stored under the new id with the path's document id, answered, and appended to the scan order. |
| CommentRoutes.CommentStore.Put | server/routes/comments.js:22-45 | 400 without a comment id or for an invalid body. The comment matching both ids is replaced and the request is echoed. With no such comment the answer is 404 and nothing changes. |
| CommentRoutes.CommentStore.Delete | server/routes/comments.js:47-60 | 400 without a comment id. Otherwise the comment is removed by its id alone. The answer is 404 when the document or the comment is absent, and the removed comment otherwise. |
| DocumentPage.SharePayload | client/src/pages/Document.js:146-150 | The sharing payload turns sharing on and keeps the old grants in order, with the found user last. |
| DocumentPage.RemovalPayload | client/src/pages/Document.js:176-188 | The removal payload keeps the document's title and content and drops exactly the grants equal to the user. Sharing stays on exactly when another grant remains. |
| DocumentPage.PageState.constructor | client/src/pages/Document.js:31-67 | Initial state: the blank document in create mode, otherwise `location.state`. The snapshot is `location.state`. Edit mode is on with no document or in create mode, otherwise exactly for the owner. The form takes the title and content outside create mode. |
| DocumentPage.PageState.FindUserByEmail | client/src/pages/Document.js:135-164 | The email input is cleared. A grant with that email, or a null grant, stops the handler. Otherwise sharing is switched on locally. A found user produces the sharing payload, and the answer replaces the document and its snapshot. |
| DocumentPage.PageState.CancelSharing | client/src/pages/Document.js:166-169 | The document returns to the snapshot and the dialog closes. |
| DocumentPage.PageState.RemoveWhoCanAccess | client/src/pages/Document.js:175-199 | The removal payload is sent. The answer, if any, replaces the document and its snapshot; a failed request changes nothing. |
| DocumentPage.PageState.AddComment | client/src/pages/Document.js:211-219 | The typed text is sent with the user's summary. The created comment is appended and the input cleared; a throw changes nothing. |
| DocumentPage.PageState.RemoveComment | client/src/pages/Document.js:221-235 | After a successful delete, exactly the occurrences of the comment leave the list and the others keep their order. A failed delete changes nothing. |
| DocumentPage.EditModeMatchesOwnerCheck | client/src/pages/Document.js:51-57 | Outside create mode, edit mode is on exactly for the users whose well-formed update is not refused with 401. |
| DocumentPage.SharingAnswersStaleRecord | client/src/pages/Document.js:152-160 | The owner's sharing update stores the grants with the new user appended and sharing on. The answer, which the page adopts, does not yet name the new user. |
| DocumentPage.RemovingLastUserLocksOwnerOut | client/src/pages/Document.js:183-194 | Removing the only grantee stores no grants with sharing still on, after which GET /:id answers 404 to everyone, the owner included. |
| DocumentPage.RemovingOneOfSeveralUsers | client/src/pages/Document.js:176-190 | Removing one of several grantees keeps sharing on and stores exactly the other grants, one fewer per removed occurrence. |
| DocumentPage.RemovingCommentDropsOne | client/src/pages/Document.js:221-231 | Removing a comment that occurs once shortens the list by one, and the comment is gone. |
| DocumentPage.DeleteControlForAuthorOnly | client/src/pages/Document.js:389-390 | For a comment payload the page sends for the signed-in user that passes the server's validator, the comment the server builds shows its delete control to that user and to no one else. |

## Left out

- `created_at`: the schema's creation stamp depends on the clock and is not modelled.
- Authentication and the `validateObjectId` middleware: the caller's id is a parameter. Ids in paths and in the `commentId` query are assumed well-formed, so no cast error is modelled. A malformed `commentId` makes the store's cast throw in PUT and DELETE of comments (server/routes/comments.js:29-30, 55); `CommentStore.Put` and `CommentStore.Delete` answer 404 for it instead.
- The mounting of the routers and the server start-up are not part of this model. The comment router is modelled as if it were mounted.
- Persistence timing: an unawaited `save()` is taken to complete. Write concern, store failures and concurrent requests are not modelled; each handler runs atomically.
- Ids for new records are parameters. The caller supplies an id not yet in the collection.
- Joi's type conversion is not modelled: `validateDocument` accepts only a JSON boolean `allowSharing`. Joi also accepts the strings `"true"` and `"false"`. The routes test the raw value's truthiness, and the non-empty string `"false"` is truthy, so such a body skips the 403 sharing checks of create and update (server/routes/documents.js:53-54, 74-75). Mongoose then stores it as `false`, so the server keeps an unshared record with grants. On update the truthy string is written, so update does turn sharing off. The model states none of these cases.
- DocumentRoutes.UpdateNoEntriesWithoutSharing: holds only for boolean `allowSharing`; a `"false"` string body breaks it, as the line above explains.
- Other Joi internals: type conversion of the remaining fields is not modelled, and neither is Joi's default refusal of the empty string. `min(n)` is read literally, so content may be `""`. The `objectId` and `email` format checks are taken as given predicates (`Formats`). Unknown keys are refused, as Joi's object schemas do.
- Mongoose's own `required` check on empty strings is not modelled. The one schema constraint that decides storage in the model is the title length for documents and the content length for comments.
- A response sent twice (in PUT and DELETE of comments, a 404 followed by a second send) is modelled by its first response. The failure of the second send is not modelled.
- Values.FirstMatchMeaning: when both a match and a null grant occur, it does not say which comes first. The loop's answer then depends on that order, which `FirstMatch` captures.
- The client's `!==` compares references. The model compares values, so two equal but distinct grant objects or comments are both removed.
- Rendering, markdown display, toasts, the loading effect, the form submit handler, document deletion from the page, navigation, and the text-input setters are not modelled. The handlers take the state those setters leave.
- The user and profile lookups (`findUserByEmail`, `me`) and the HTTP services are parameters of the handlers.
