# Restaurant admin back end, modelled in Dafny

This project models the core of a small restaurant-management back end. It
is written as three FastAPI services over MongoDB.

- **admin.py** is the admin service. It has the document formatter
  (`handle_non_utf8`, `convert_objectid_to_str`), which replaces some stored
  values by text: `bytes` and `Binary` become Base64 text, byte buffers
  become their UTF-8 text where they are well-formed, and ObjectIds held as
  dict values become their 24-digit hex string. An ObjectId inside a list and
  a buffer that is not UTF-8 are left as they are. It also has the two `Order` validators,
  which convert the `restaurants_id` and `address_id` references between
  `bson.Binary` and Base64 text. The storage adapter `Database` catches
  faults. Finally there are the create / get / update / delete / list
  routes for branches, users, menu items, orders and restaurants.
- **register.py** is a stand-alone registration service. It keeps users in
  the in-memory list `mock_db`.
- **main.py** is the admin API. Registration over the `users` collection
  checks that the email is new and stores a bcrypt hash of the password.
  Five kinds of record (items, menus, customers, branches, inventory) have
  create / get / update / delete routes addressed by ObjectId.

The modules, file by file:

- `common.dfy`: `Option` and `byte`.
- `base64.dfy`: the Base64 alphabet of section 4 of RFC 4648. It has the
  encoder behind `b64encode` and the decoder behind `b64decode`. The decoder
  refuses text holding a non-ASCII character, as `b64decode` does with a
  `ValueError`. It drops other characters outside the alphabet, as the
  non-validating decoder does.
- `utf8.dfy`: the UTF-8 grammar of section 4 of RFC 3629. It has the decoder
  behind `bytes.decode('utf-8')` and the encoder behind `str.encode`.
- `objectids.dfy`: ObjectIds as 12 octets, and their hex form.
- `values.dfy`: document values and the two dict updates the code performs:
  `d[k] = v`, and MongoDB's `$set`.
- `normalizer.dfy`: `handle_non_utf8` and `convert_objectid_to_str`, as
  recursive functions.
- `order_refs.dfy`: the `Order` validators, as methods that change a
  `Payload` object in place.
- `store.dfy`: a MongoDB collection as a `Collection` class. It holds a
  sequence of documents, and its methods are the driver calls the services
  make.
- `http.dfy`: what a route answers, a JSON body or an `HTTPException`.
- `admin.dfy`: the `Database` adapter and the routes of admin.py. A storage
  fault is an explicit flag.
- `registration.dfy`: the registration form both register routes accept,
  and the order of their checks.
- `register.dfy`: register.py. `mock_db` is a `MockDb` object whose `users`
  list is appended to.
- `main_api.dfy`: main.py, including the invariant that no two registered
  users share an email.

The clock (`datetime.now()`), the fresh ObjectId the driver generates and
bcrypt's `hash_password` are parameters.

Bytes are always encoded as Base64, never UTF-8. The code (admin.py:24-25) always
Base64-encodes `bytes` and `bson.Binary`, and tries UTF-8 only on other
objects that have a `.decode` method. The model follows the code:
`Normalizer.BytesExamples` shows 01 02 03, which is well-formed UTF-8,
rendered as `"AQID"`.

## Model

| member | source | states |
|---|---|---|
| Normalizer.HandleNonUtf8Classifies | admin.py:23-29 | `bytes` and `Binary` become text whose Base64 decoding is the original octets. A buffer becomes text whose UTF-8 encoding is the buffer exactly when it is well-formed UTF-8, and is otherwise returned unchanged. Every other value is returned unchanged. |
| Normalizer.HandleNonUtf8Idempotent | admin.py:23-29 | A second application changes nothing. The result is never a container or raw bytes unless the input was. An ObjectId comes out only from an ObjectId. |
| Normalizer.BytesExamples | admin.py:24-25 | `bytes` and `Binary` 01 02 03 render as `"AQID"`, although they are well-formed UTF-8. FF FE renders as `"//4="`. |
| Normalizer.BufferExamples | admin.py:26-29 | A buffer 01 02 03 is decoded to its three characters. A buffer FF FE is not well-formed and is returned as it was. |
| Normalizer.ConvertObjectIdToStr | admin.py:32-38 | A dict stays a dict with the same keys in the same order. A list stays a list of the same length. Nothing else becomes a dict or a list. |
| Normalizer.ConvertKeepsShape | admin.py:32-38 | At every depth, the result has a dict with the same keys in the same order wherever the input has a dict, and a list of the same length wherever the input has a list. Every scalar stays a scalar. |
| Normalizer.ObjectIdPlacement | admin.py:34-38 | An ObjectId is stringified only as a dict value. As a list element or as the whole argument it comes back unchanged. |
| Normalizer.ConvertRenders | admin.py:32-38 | The result holds no `bytes` or `Binary` at any depth and no ObjectId as a dict value. A buffer remains only where it is not well-formed UTF-8. |
| Normalizer.ConvertIdempotent | admin.py:32-38 | Converting twice is converting once. |
| Normalizer.ConvertPlainDoc | admin.py:32-38 | A document of JSON scalars (null, bool, numbers, datetimes, text) comes back unchanged. |
| Normalizer.LookupConverted | admin.py:34 | Reading a key of a converted dict gives the converted value of that key, and absent keys stay absent. |
| Base64.EncodeLength | admin.py:25 | The encoding of n octets has 4·⌈n/3⌉ characters. |
| Base64.EncodeIsText | admin.py:25 | An encoding holds only alphabet characters and `=`. |
| Base64.DecodeEncode | admin.py:142 | `b64decode(b64encode(b))` is `b` for every octet sequence `b`. |
| Base64.EncodeInjective | admin.py:25 | Different octet sequences have different encodings. |
| Utf8.DecodeDefinedIffWellFormed | admin.py:26-29 | `decode('utf-8')` succeeds exactly on sequences that are well-formed by the grammar of section 4 of RFC 3629. |
| Utf8.DecodeEncode | admin.py:27 | Every string survives encoding followed by decoding. |
| Utf8.EncodeDecode | admin.py:27 | A sequence that decodes to `t` is exactly the encoding of `t`, so a decoded buffer can be rebuilt from its text. |
| ObjectIds.IdStringShape | admin.py:34 | `str(ObjectId)` is 24 lowercase hexadecimal digits. |
| ObjectIds.IdStringInjective | admin.py:34 | Different ObjectIds have different strings. |
| ObjectIds.UnhexHex | main.py:152 | The hex string of an id parses back to that id. |
| OrderRefs.ConvertBinaryFieldsToBase64 | admin.py:131-137 | The payload becomes `BinaryRefsToBase64` of what it was. |
| OrderRefs.BinaryRefsToBase64Frame | admin.py:133-136 | The before-validator keeps the keys in order. A `Binary` reference becomes its Base64 text. Any other reference value and every other key are unchanged. |
| OrderRefs.ConvertBase64ToBinary | admin.py:139-145 | The validator succeeds exactly when every text reference decodes, which requires it to be ASCII with valid padding. On success the payload becomes `Base64RefsToBinary` of what it was. On failure the payload is as it was, or has only `restaurants_id` converted when `address_id` is what fails. |
| OrderRefs.Base64RefsToBinaryFrame | admin.py:141-144 | The after-validator keeps the keys in order. A text reference decodes and becomes `Binary` of its decoding. Every other key is unchanged. |
| OrderRefs.Base64RefsRejects | admin.py:141-144 | Text in either reference that `b64decode` refuses makes the whole validation fail. Refused text is text with a non-ASCII character or with bad padding. |
| OrderRefs.BinaryRefsRoundTrip | admin.py:131-145 | When neither reference arrives as text and each `Binary` reference has the default subtype 0, the after-validator gives back exactly the payload the before-validator was given. |
| OrderRefs.SubtypeReset | admin.py:133-144 | Whatever its subtype, a `Binary` reference that is not text keeps its octets through both validators. It comes back with subtype 0, because `Binary(b64decode(...))` builds the default subtype. |
| OrderRefs.OrderRefAccepted | admin.py:141-142 | The reference text `"AQID"` is stored as `Binary` 01 02 03. |
| OrderRefs.OrderRefRefused | admin.py:143-144 | The reference text `"A"` is refused. |
| OrderRefs.OrderRefNonAscii | admin.py:143-144 | The reference text `"AQIDé"` is refused for its non-ASCII character, while `"AQID!"` decodes to 01 02 03 because the ASCII `!` is dropped. |
| Store.FirstMatch | admin.py:57-59 | The position found holds a matching document and none before it does. There is no position exactly when no document matches. |
| Store.Collection.InsertOne | admin.py:48-50 | The document is appended with `_id` added when it has none. It is refused, with nothing changed, when its `_id` is already stored. |
| Store.Collection.FindOne | admin.py:58 | Finds the first document in natural order that matches the filter. |
| Store.ModifiedCount | admin.py:67-68 | `modified_count` is at most 1, and it is 1 exactly when the update changed the collection. |
| Store.Collection.UpdateOne | admin.py:67-68 | Only the first match is updated, by `$set`, and the answer is `modified_count`. |
| Store.UpdateFirstFrame | admin.py:67 | Other documents are unchanged. In the matched one, a key named in the update reads its new value and every other key reads its old one. |
| Store.RepeatedUpdateModifiesNothing | admin.py:213-216 | Sending the same update twice modifies nothing the second time, so an update route reports failure for a document that exists. |
| Store.Collection.FindOneAndUpdate | main.py:165-169 | Updates like `update_one` and answers the document as it is afterwards, or nothing when none matches. |
| Store.Collection.DeleteOne | admin.py:76-77 | Removes the first match and answers `deleted_count` 1, or changes nothing and answers 0. |
| Store.DeleteFirstRemoves | admin.py:76 | Deleting removes exactly one copy of the first matching document. Every other document is kept: those before it at their positions, and those after it one position earlier. |
| Store.Collection.FindAll | admin.py:233 | `to_list(length=n)` returns the first n documents in natural order. |
| Store.FirstMatchAppend | admin.py:192-193 | After an append, a filter still finds the earlier match if there is one, and finds the new document otherwise. |
| Admin.Found | admin.py:55-59 | The adapter finds a document exactly when a first match exists and is not empty. The answer is a dict with the stored keys, normalised as `ConvertRenders` states, whose key field reads the normalised filter value. |
| Admin.DbInsertOne | admin.py:46-53 | Succeeds, appending the document with its `_id`, exactly when there is no fault and no stored document has that `_id`. Otherwise nothing changes and the route answers 500. |
| Admin.DbFindOne | admin.py:55-62 | A fault reads as "absent". Otherwise the answer is `Found`. |
| Admin.DbUpdateOne | admin.py:64-71 | A fault answers `{}` and changes nothing. Otherwise the answer is `modified_count`, after the update. |
| Admin.DbDeleteOne | admin.py:73-80 | A fault answers `{}` and changes nothing. Otherwise the answer is `deleted_count`, after the delete. |
| Admin.StampedFields | admin.py:189-190 | A create fills in `branch_added` / `res_added` with `now` only when it is unset, and changes no other field. |
| Admin.Create | admin.py:187-196 | Stores the stamped payload without checking its key, and answers "… created successfully" with the key echoed under `branch_id`, `user_id`, `item_id`, `order_id` or `restaurants_id`. A fault or an `_id` clash answers 500 with nothing stored. |
| Admin.Get | admin.py:199-204 | Answers the normalised document exactly when the adapter finds it, and otherwise 404 "… not found". |
| Admin.UpdateFailure | admin.py:207-216 | A failed update answers 404 for menu items and orders, and 400 for branches, users and restaurants. |
| Admin.Update | admin.py:207-216 | No fields: 400 "No data provided to update", with nothing changed. Otherwise the update is issued. Success is exactly when `modified_count > 0`. A fault (`{}`) or no change answers the entity's failure status. |
| Admin.DeleteMissing | admin.py:219-223 | Deleting something not found answers 404 for menu items and orders, and 400 for the other three. |
| Admin.Delete | admin.py:219-228 | Nothing found (or a find fault): the entity's not-found answer, and no delete is issued. Found: the first match is removed and the answer is "… deleted successfully", unless the delete faults, which answers 400 "Failed to delete …" with nothing changed. |
| Admin.ListAll | admin.py:231-234 | At most the first 200 documents, each normalised as `ConvertRenders` states. A fault answers 500. |
| Admin.CreateThenGet | admin.py:187-204 | After a create under a key no stored document has, a get on that key finds the created document, normalised. |
| Admin.DuplicateKeysShadow | admin.py:187-196 | Two creates with the same key both succeed. Get and delete then reach only the earlier document, and a delete leaves the later one. |
| Registration.FormErrorOrder | register.py:41-46 | A form passes exactly when the passwords match and the terms are accepted. A form failing both reports the password error. |
| MockRegister.MockDb.Register | register.py:38-55 | A password mismatch answers 400 "Passwords do not match", and unaccepted terms answer 400 "You must agree to the terms". In both cases `mock_db` is unchanged. Otherwise exactly one record `{full_name, email, password}` is appended and the answer is "Registration successful". |
| MockRegister.MockDb.GetAllUsers | register.py:57-63 | An empty `mock_db` answers 404 "No users found". Otherwise every record is answered in insertion order as `{full_name, email}`. |
| MockRegister.DuplicateEmails | register.py:49-53 | Two registrations with the same email both succeed and both records are kept. |
| AdminApi.Register | main.py:105-133 | Checks run in order: passwords, then terms, then an email already stored (400 "Email already registered"). Each failure leaves the store unchanged. Success inserts exactly `{_id, full_name, email, password: hash(password)}`, and keeps emails unique when they were. |
| AdminApi.AppendKeepsEmailsUnique | main.py:116-131 | Storing a user whose email no stored user has keeps every stored email unique. |
| AdminApi.NewUserProjection | main.py:124-128 | A user stored by `register` projects to its name and email, and the hash is never part of the answer. |
| AdminApi.ProjectAll | main.py:144 | The projection succeeds exactly when every user has both fields. It keeps length and order, and each entry is `{full_name, email}` of its user. |
| AdminApi.GetAllUsers | main.py:136-144 | An empty store answers 404 "No users found". Otherwise the answer is the projection of at most the first 100 users in store order, or 500 when one lacks a field. |
| AdminApi.WithIdString | main.py:160 | Adding `id` makes it read the hex string of the id and changes no other key. |
| AdminApi.Create | main.py:148-153 | Stores the model dict with a new `_id` and answers it with `_id` and `id` added. An `_id` clash answers 500 with nothing stored. |
| AdminApi.Get | main.py:155-161 | Answers the document with that `_id`, with `id` added, or 404 "… not found". |
| AdminApi.Update | main.py:163-173 | `$set`s every model field on the document with that `_id` and answers it as updated, with `id` added, or 404. Fields outside the model are kept (`Store.UpdateFirstFrame`). |
| AdminApi.Delete | main.py:175-180 | Answers 404 exactly when no document was deleted. Otherwise exactly that document is removed. |
| AdminApi.CreateThenGet | main.py:148-161 | The `id` a create answers parses back to the new ObjectId, and that id finds the created document. |
| AdminApi.UpdateKeepsId | main.py:163-173 | An update never changes `_id`, so the same id still finds the document. |

## Left out

- db_connection.py is not part of this model. It is a thin wrapper around the same driver calls.
- Not modelled, because they are plumbing with no logic of their own:
  - `async`/`await`, the Motor client and its connection lifecycle;
  - `load_dotenv` and the environment check (admin.py:13-20);
  - CORS, routing and `print` logging.
- Each collection is a sequence of documents. The collection a route uses is passed in rather than looked up by name.
- FastAPI response-model filtering is not modelled for main.py, so answers carry every key the handler returns. In particular, `register` in main.py returns `{"message": ...}` under `response_model=UserResponse`, which FastAPI would refuse. register.py's `/users` projection is modelled, because it is the only shaping that route does.
- Not modelled: pydantic parsing, `EmailStr` validation and normalisation, and the parsing of path strings by `ObjectId(...)`, including the 500 an invalid id gives. Payloads arrive as dicts with the model's fields (`Conforms`, `PartialOf`), and ids arrive as 12-octet values.
- OrderRefs: the dict-level conversion is modelled, not pydantic's validator mechanics. `Order` declares neither reference field, and its `mode='after'` hook receives a model rather than a dict.
- Admin.Create: `result.acknowledged` is always true under the default write concern, so the "Failed to create …" branches (for example admin.py:196) are not modelled.
- Admin.Update: the model keeps the 400 for an empty field set. Pydantic never produces one, because every model has required fields.
- Storage faults in main.py are not modelled. There they are uncaught exceptions and would answer 500. A duplicate `_id` is the one fault main.py's model does capture.
- The routes run one at a time. Interleaved requests are not modelled. One example is a delete racing the find that precedes it. Another is two registrations in main.py (main.py:116-131): `find_one` and `insert_one` are separated by an `await` and no unique index exists, so both can store the same email. AdminApi.Register's `EmailsUnique` invariant holds only for requests that do not interleave.
- Admin.Get, Admin.ListAll: FastAPI's JSON encoding of the answer is not modelled. An ObjectId left in a list, or a buffer that is not UTF-8, makes the program answer 500 where the model answers the document.
- Store.Matches: a filter matches by exact value equality. A MongoDB equality filter also matches an array field that contains the value, and numbers across types (`5` matches `5.0`). This affects key filters such as `{"id": user_id}`.
- Values.SetFields: MongoDB 5.0 and later apply `$set` fields in lexicographic order of their names, so new keys are appended in that order rather than in the order given. This affects key order only; every lemma stated through `Lookup` holds either way.
- Admin.DbInsertOne: the `fault` flag stands for every exception the driver raises, which includes its BSON encoding errors. An integer outside [-2^63, 2^63) is one: pymongo refuses it and the create answers 500. The model does not derive such faults from the values, and its store holds any integer.
- Admin.DbUpdateOne: likewise, a `$set` of an integer outside [-2^63, 2^63) is a fault (`{}`), so the update answers its failure status. The model leaves that to the `fault` flag.
- Admin.CreateThenGet: BSON keeps datetimes to the millisecond, so a stamp with microseconds reads back truncated. `Time` stamps are taken as the values the store keeps, so the model does not capture that truncation.
- Floats are opaque scalars (`Float`), and datetimes are integer stamps (`Time`). `datetime.now()` is the parameter `now`, and bcrypt is the parameter `hash`. `verify_password` (main.py:98-99) is called by no route and is not modelled.
- Base64.Decode refuses padding in excess or before the end of the text. CPython's non-strict `b64decode` does not: it decodes `"AQID="` to 01 02 03 and `"===="` to no octets, and it stops at the first complete padded quantum, so `"AQ==AQID"` gives 01. Every text `b64encode` produces is decoded as CPython does.
- Utf8.Decode models strict decoding only. The error handlers of `bytes.decode` other than the default are not used by the code.
