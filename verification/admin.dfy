/**
 * The admin service (admin.py): the storage adapter `Database`, and the
 * create / get / update / delete / list routes of its five entities. Each
 * route works on the collection of its entity (`Branch`, `userData`, `menu`,
 * `orders`, `restaurants`), looked up by the entity's own key field.
 *
 * A storage fault is an explicit flag: the adapter turns it into a 500 on
 * insert, an absent document on find, and `{}` on update and delete.
 */
module Admin {
  import opened Common
  import opened ObjectIds
  import opened Values
  import opened Normalizer
  import opened Store
  import opened Http

  datatype Entity = Branch | User | MenuItem | Order | Restaurants

  /** The field names of the entity's pydantic model, in declaration order; the key field comes first. */
  function SchemaFields(e: Entity): (fs: seq<string>)
    ensures |fs| > 0 && fs[0] == KeyField(e)
    ensures StampField(e).Some? ==> StampField(e).value in fs
  {
    match e
    case Branch => ["branch_id", "branch_name", "branch_email", "branch_phone", "branch_website",
                    "branch_desc", "branch_added", "branch_active", "restaurants_id", "address_id"]
    case User => ["id", "firstname", "lastname", "email", "phone", "password", "address_street",
                  "address_city", "address_state", "address_zip", "user_active", "role"]
    case MenuItem => ["item_id", "name", "description", "price", "category", "available"]
    case Order => ["order_id", "customer", "order_type", "store", "items", "total_price",
                   "payment_method", "order_status", "order_date"]
    case Restaurants => ["restaurants_id", "res_name", "res_email", "res_website", "res_desc",
                         "res_added", "res_active", "city_id", "state_id"]
  }

  /** The field the routes filter on. */
  function KeyField(e: Entity): string
  {
    match e
    case Branch => "branch_id"
    case User => "id"
    case MenuItem => "item_id"
    case Order => "order_id"
    case Restaurants => "restaurants_id"
  }

  /** The key under which a create route echoes the new entity's key. */
  function ResponseKey(e: Entity): string
  {
    match e
    case Branch => "branch_id"
    case User => "user_id"
    case MenuItem => "item_id"
    case Order => "order_id"
    case Restaurants => "restaurants_id"
  }

  /** The optional timestamp a create route fills in when it is unset. */
  function StampField(e: Entity): Option<string>
  {
    match e
    case Branch => Some("branch_added")
    case Restaurants => Some("res_added")
    case _ => None
  }

  /** The entity as the messages name it at the start of a sentence ... */
  function Title(e: Entity): string
  {
    match e
    case Branch => "Branch"
    case User => "User"
    case MenuItem => "Menu item"
    case Order => "Order"
    case Restaurants => "restaurants"
  }

  /** ... and after "Failed to". */
  function Noun(e: Entity): string
  {
    match e
    case Branch => "branch"
    case User => "user"
    case MenuItem => "menu item"
    case Order => "order"
    case Restaurants => "restaurants"
  }

  /** The menu and order routes answer 404 where the other three answer 400. */
  predicate AnswersNotFound(e: Entity)
  {
    e == MenuItem || e == Order
  }

  /** The answer of an update route whose update changed nothing or failed. */
  function UpdateFailure(e: Entity): (r: Outcome<Value>)
    ensures r.HttpError? && (r.status == 404 <==> AnswersNotFound(e)) && (r.status == 400 <==> !AnswersNotFound(e))
  {
    if AnswersNotFound(e) then HttpError(404, Title(e) + " not found")
    else HttpError(400, "Failed to update " + Noun(e))
  }

  /** The answer of a delete route that finds nothing. */
  function DeleteMissing(e: Entity): (r: Outcome<Value>)
    ensures r.HttpError? && (r.status == 404 <==> AnswersNotFound(e)) && (r.status == 400 <==> !AnswersNotFound(e))
  {
    HttpError(if AnswersNotFound(e) then 404 else 400, Title(e) + " not found")
  }

  /** The list routes return at most this many documents. */
  const ListLimit: nat := 200

  /** `model.dict()`: every field of the model, in declaration order. */
  predicate Conforms(e: Entity, payload: Doc)
  {
    Keys(payload) == SchemaFields(e)
  }

  /** `model.dict(exclude_unset=True)`: some fields of the model, each once. */
  predicate PartialOf(e: Entity, fields: Doc)
  {
    UniqueKeys(fields) && forall i :: 0 <= i < |fields| ==> fields[i].0 in SchemaFields(e)
  }

  /**
   * The document a create route stores: the payload, with the entity's
   * timestamp set to `now` when it is `None`. A datetime is always truthy, so
   * a given timestamp is kept.
   */
  function Stamped(e: Entity, payload: Doc, now: int): (r: Doc)
    ensures Keys(r) == Keys(payload)
  {
    match StampField(e)
    case Some(f) =>
      if Lookup(payload, f) == Some(Null) then
        KeysPut(payload, f, Time(now));
        Put(payload, f, Time(now))
      else payload
    case None => payload
  }

  /** The timestamp is set only when it was unset, and no other field changes. */
  lemma StampedFields(e: Entity, payload: Doc, now: int, k: string)
    ensures Lookup(Stamped(e, payload, now), k) ==
      if StampField(e) == Some(k) && Lookup(payload, k) == Some(Null) then Some(Time(now))
      else Lookup(payload, k)
  {
    if StampField(e).Some? && Lookup(payload, StampField(e).value) == Some(Null) {
      LookupPut(payload, StampField(e).value, Time(now), k);
    }
  }

  /**
   * What the adapter's `find_one` answers when storage works: the first
   * match, normalised by the formatter; an empty document reads as absent.
   */
  function Found(docs: seq<Doc>, key: string, v: Value): (r: Option<Value>)
    ensures r.Some? <==> FindFirst(docs, key, v).Some? && FindFirst(docs, key, v).value != []
    ensures r.Some? ==> r.value.Dict? && Keys(r.value.entries) == Keys(FindFirst(docs, key, v).value)
    ensures r.Some? ==> Rendered(r.value)
    ensures r.Some? ==> Lookup(r.value.entries, key) == Some(ConvertDictValue(v))
  {
    match FindFirst(docs, key, v)
    case Some(d) =>
      if d == [] then None
      else
        ConvertRenders(Dict(d));
        LookupConverted(d, key);
        Some(ConvertObjectIdToStr(Dict(d)))
    case None => None
  }

  /** `Database.insert_one`: `ok` is false where it raises the 500 (a fault, or an `_id` already stored). */
  method DbInsertOne(c: Collection, d: Doc, newId: ObjectId, fault: bool) returns (ok: bool)
    modifies c
    ensures ok == (!fault && FirstMatch(old(c.docs), "_id", InsertedId(d, newId)).None?)
    ensures c.docs == if ok then old(c.docs) + [WithId(d, newId)] else old(c.docs)
  {
    if fault {
      return false;
    }
    var id := c.InsertOne(d, newId);
    ok := id.Some?;
  }

  /** `Database.find_one`: a fault reads as absent. */
  method DbFindOne(c: Collection, key: string, v: Value, fault: bool) returns (r: Option<Value>)
    ensures fault ==> r.None?
    ensures !fault ==> r == Found(c.docs, key, v)
  {
    if fault {
      return None;
    }
    var d := c.FindOne(key, v);
    if d.None? || d.value == [] {
      return None;
    }
    r := Some(ConvertObjectIdToStr(Dict(d.value)));
  }

  /** `Database.update_one`: `None` is the `{}` a fault gives, `Some(n)` the `modified_count`. */
  method DbUpdateOne(c: Collection, key: string, v: Value, fields: Doc, fault: bool) returns (r: Option<nat>)
    modifies c
    ensures fault ==> r.None? && c.docs == old(c.docs)
    ensures !fault ==> (r == Some(ModifiedCount(old(c.docs), key, v, fields))
      && c.docs == UpdateFirst(old(c.docs), key, v, fields))
  {
    if fault {
      return None;
    }
    var n := c.UpdateOne(key, v, fields);
    r := Some(n);
  }

  /** `Database.delete_one`: `None` is the `{}` a fault gives, `Some(n)` the `deleted_count`. */
  method DbDeleteOne(c: Collection, key: string, v: Value, fault: bool) returns (r: Option<nat>)
    modifies c
    ensures fault ==> r.None? && c.docs == old(c.docs)
    ensures !fault ==> (r == Some(if FirstMatch(old(c.docs), key, v).Some? then 1 else 0)
      && c.docs == DeleteFirst(old(c.docs), key, v))
  {
    if fault {
      return None;
    }
    var n := c.DeleteOne(key, v);
    r := Some(n);
  }

  /**
   * `create_branch`, `create_user`, `create_menu_item`, `create_order`,
   * `create_restaurants`: store the stamped payload with no check on the key,
   * and echo the key.
   */
  method Create(e: Entity, c: Collection, payload: Doc, now: int, newId: ObjectId, fault: bool)
    returns (r: Outcome<Value>)
    requires Conforms(e, payload)
    modifies c
    ensures var stored := Stamped(e, payload, now);
      if fault || FirstMatch(old(c.docs), "_id", InsertedId(stored, newId)).Some? then
        r == InternalError && c.docs == old(c.docs)
      else
        c.docs == old(c.docs) + [WithId(stored, newId)] &&
        r == Ok(Dict([("message", Str(Title(e) + " created successfully")),
                      (ResponseKey(e), Lookup(payload, KeyField(e)).value)]))
  {
    var stored := Stamped(e, payload, now);
    var ok := DbInsertOne(c, stored, newId, fault);
    if !ok {
      return InternalError;
    }
    var key := Lookup(payload, KeyField(e));
    r := Ok(Dict([("message", Str(Title(e) + " created successfully")), (ResponseKey(e), key.value)]));
  }

  /** `get_branch`, `get_user`, `get_menu_item`, `get_order`, `get_restaurants`. */
  method Get(e: Entity, c: Collection, key: Value, fault: bool) returns (r: Outcome<Value>)
    ensures r.Ok? <==> !fault && Found(c.docs, KeyField(e), key).Some?
    ensures r.Ok? ==> r.value == Found(c.docs, KeyField(e), key).value
    ensures !r.Ok? ==> r == HttpError(404, Title(e) + " not found")
  {
    var found := DbFindOne(c, KeyField(e), key, fault);
    if found.None? {
      return HttpError(404, Title(e) + " not found");
    }
    r := Ok(found.value);
  }

  /**
   * `update_branch`, `update_user`, `update_menu_item`, `update_order`,
   * `update_restaurants`: `$set` the fields that were sent on the first match;
   * success only when that changed the document.
   */
  method Update(e: Entity, c: Collection, key: Value, fields: Doc, fault: bool) returns (r: Outcome<Value>)
    requires PartialOf(e, fields)
    modifies c
    ensures fields == [] ==> r == HttpError(400, "No data provided to update") && c.docs == old(c.docs)
    ensures fields != [] && fault ==> r == UpdateFailure(e) && c.docs == old(c.docs)
    ensures fields != [] && !fault ==>
      c.docs == UpdateFirst(old(c.docs), KeyField(e), key, fields) &&
      r == if ModifiedCount(old(c.docs), KeyField(e), key, fields) > 0
           then Ok(Message(Title(e) + " updated successfully"))
           else UpdateFailure(e)
  {
    if fields == [] {
      return HttpError(400, "No data provided to update");
    }
    var result := DbUpdateOne(c, KeyField(e), key, fields, fault);
    if result.Some? && result.value > 0 {
      return Ok(Message(Title(e) + " updated successfully"));
    }
    r := UpdateFailure(e);
  }

  /**
   * `delete_branch`, `delete_user`, `delete_menu_item`, `delete_order`,
   * `delete_restaurants`: look the document up first, and delete only what
   * was found. Each storage call has its own fault flag.
   */
  method Delete(e: Entity, c: Collection, key: Value, findFault: bool, deleteFault: bool)
    returns (r: Outcome<Value>)
    modifies c
    ensures findFault || Found(old(c.docs), KeyField(e), key).None? ==>
      r == DeleteMissing(e) && c.docs == old(c.docs)
    ensures !findFault && Found(old(c.docs), KeyField(e), key).Some? && deleteFault ==>
      r == HttpError(400, "Failed to delete " + Noun(e)) && c.docs == old(c.docs)
    ensures !findFault && Found(old(c.docs), KeyField(e), key).Some? && !deleteFault ==>
      r == Ok(Message(Title(e) + " deleted successfully")) &&
      c.docs == DeleteFirst(old(c.docs), KeyField(e), key) && |c.docs| == |old(c.docs)| - 1
  {
    var found := DbFindOne(c, KeyField(e), key, findFault);
    if found.None? {
      return DeleteMissing(e);
    }
    var result := DbDeleteOne(c, KeyField(e), key, deleteFault);
    if result.Some? && result.value > 0 {
      return Ok(Message(Title(e) + " deleted successfully"));
    }
    r := HttpError(400, "Failed to delete " + Noun(e));
  }

  /**
   * `get_all_branches`, `get_all_users`, `get_all_menu_items`,
   * `get_all_orders`, `get_all_restaurantss`: the first 200 documents, each
   * normalised. A fault is an uncaught exception, hence a 500.
   */
  method ListAll(c: Collection, fault: bool) returns (r: Outcome<Value>)
    ensures fault ==> r == InternalError
    ensures !fault ==> r.Ok? && r.value.List? && |r.value.items| == |Prefix(c.docs, ListLimit)|
    ensures !fault ==> forall i :: 0 <= i < |r.value.items| ==>
      r.value.items[i] == ConvertObjectIdToStr(Dict(c.docs[i])) && Rendered(r.value.items[i])
  {
    if fault {
      return InternalError;
    }
    var docs := c.FindAll(ListLimit);
    var rows := List(seq(|docs|, i requires 0 <= i < |docs| => Dict(docs[i])));
    var out := ConvertObjectIdToStr(rows);
    forall i | 0 <= i < |out.items|
      ensures out.items[i] == ConvertObjectIdToStr(Dict(c.docs[i])) && Rendered(out.items[i])
    {
      ConvertRenders(Dict(c.docs[i]));
    }
    r := Ok(out);
  }

  /**
   * A document created under a key no stored document has is what a get on
   * that key finds afterwards, normalised.
   */
  lemma CreateThenGet(e: Entity, docs: seq<Doc>, payload: Doc, now: int, newId: ObjectId, key: Value)
    requires Lookup(payload, KeyField(e)) == Some(key)
    requires FirstMatch(docs, KeyField(e), key).None?
    ensures var stored := WithId(Stamped(e, payload, now), newId);
      Found(docs + [stored], KeyField(e), key) == Some(ConvertObjectIdToStr(Dict(stored)))
  {
    var stored := WithId(Stamped(e, payload, now), newId);
    StoredKey(e, payload, now, newId, key);
    FirstMatchAppend(docs, stored, KeyField(e), key);
    assert FindFirst(docs + [stored], KeyField(e), key) == Some(stored);
  }

  /** The stored document keeps the payload's key. */
  lemma StoredKey(e: Entity, payload: Doc, now: int, newId: ObjectId, key: Value)
    requires Lookup(payload, KeyField(e)) == Some(key)
    ensures Matches(WithId(Stamped(e, payload, now), newId), KeyField(e), key)
  {
    var s := Stamped(e, payload, now);
    var k := KeyField(e);
    KeyNotStamped(e);
    StampedFields(e, payload, now, k);
    if "_id" !in Keys(s) {
      assert WithId(s, newId)[1..] == s;
    }
  }

  /** The key field is neither the timestamp nor `_id`. */
  lemma KeyNotStamped(e: Entity)
    ensures StampField(e) != Some(KeyField(e)) && KeyField(e) != "_id"
  {
  }

  /**
   * Creating twice under the same key keeps both documents; get and delete
   * then reach only the earlier one.
   */
  lemma DuplicateKeysShadow(docs: seq<Doc>, d1: Doc, d2: Doc, key: string, v: Value)
    requires FirstMatch(docs, key, v).None? && Matches(d1, key, v) && Matches(d2, key, v)
    ensures FirstMatch(docs + [d1] + [d2], key, v) == Some(|docs|)
    ensures DeleteFirst(docs + [d1] + [d2], key, v) == docs + [d2]
  {
    FirstMatchAppend(docs, d1, key, v);
    FirstMatchAppend(docs + [d1], d2, key, v);
    assert (docs + [d1] + [d2])[..|docs|] == docs;
  }
}
