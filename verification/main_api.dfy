/**
 * The admin API (main.py): registration over the `users` collection, with
 * email uniqueness and hashed passwords, and create / get / update / delete
 * routes for five kinds of record, each addressed by its ObjectId.
 *
 * bcrypt's `hash_password` is the parameter `hash`.
 */
module AdminApi {
  import opened Common
  import opened ObjectIds
  import opened Values
  import opened Store
  import opened Http
  import opened Registration

  datatype Kind = Items | Menus | Customers | Branches | Inventory

  /** The field names of the kind's pydantic model, in declaration order. */
  function SchemaFields(k: Kind): (fs: seq<string>)
    ensures "_id" !in fs && "id" !in fs
  {
    match k
    case Items => ["name", "description", "price"]
    case Menus => ["name", "items"]
    case Customers => ["name", "email", "phone"]
    case Branches => ["name", "location", "contact_number"]
    case Inventory => ["item_name", "quantity"]
  }

  /** How the messages name the kind. */
  function Label(k: Kind): string
  {
    match k
    case Items => "Item"
    case Menus => "Menu"
    case Customers => "Customer"
    case Branches => "Branch"
    case Inventory => "Inventory item"
  }

  /** `model.dict()`: every field of the model, in declaration order. */
  predicate Conforms(k: Kind, payload: Doc)
  {
    Keys(payload) == SchemaFields(k)
  }

  /** The most users `/admin/users` returns. */
  const UserLimit: nat := 100

  /** `d['id'] = str(d['_id'])`, given the id: the result adds the hex string and changes nothing else. */
  function WithIdString(d: Doc, id: ObjectId): (r: Doc)
    ensures Lookup(r, "id") == Some(Str(IdString(id)))
    ensures forall k :: k != "id" ==> Lookup(r, k) == Lookup(d, k)
  {
    forall k ensures Lookup(Put(d, "id", Str(IdString(id))), k) ==
      if k == "id" then Some(Str(IdString(id))) else Lookup(d, k)
    {
      LookupPut(d, "id", Str(IdString(id)), k);
    }
    Put(d, "id", Str(IdString(id)))
  }

  /** The user document `register` stores: the password only as its hash. */
  function NewUser(u: UserForm, hash: string -> string): Doc
  {
    [("full_name", Str(u.fullName)), ("email", Str(u.email)), ("password", Str(hash(u.password)))]
  }

  /** Some stored user has this email. */
  predicate EmailTaken(docs: seq<Doc>, email: string)
  {
    FirstMatch(docs, "email", Str(email)).Some?
  }

  /** No two stored users share an email. */
  predicate EmailsUnique(docs: seq<Doc>)
  {
    forall i, j :: 0 <= i < j < |docs| && Lookup(docs[i], "email").Some? ==>
      Lookup(docs[i], "email") != Lookup(docs[j], "email")
  }

  /** Storing a user whose email is not yet taken keeps the emails unique. */
  lemma AppendKeepsEmailsUnique(docs: seq<Doc>, d: Doc, email: string)
    requires EmailsUnique(docs) && !EmailTaken(docs, email)
    requires Lookup(d, "email") == Some(Str(email))
    ensures EmailsUnique(docs + [d])
  {
    var all := docs + [d];
    forall i, j | 0 <= i < j < |all| && Lookup(all[i], "email").Some?
      ensures Lookup(all[i], "email") != Lookup(all[j], "email")
    {
      if j == |docs| {
        assert !Matches(docs[i], "email", Str(email));
      }
    }
  }

  /** `register`: the three checks in order, then one insert of the hashed record. */
  method Register(users: Collection, u: UserForm, hash: string -> string, newId: ObjectId)
    returns (r: Outcome<Value>)
    modifies users
    ensures FormError(u).Some? ==> r == HttpError(400, FormError(u).value) && users.docs == old(users.docs)
    ensures FormError(u).None? && EmailTaken(old(users.docs), u.email) ==>
      r == HttpError(400, "Email already registered") && users.docs == old(users.docs)
    ensures FormError(u).None? && !EmailTaken(old(users.docs), u.email) ==>
      if FirstMatch(old(users.docs), "_id", Oid(newId)).Some? then
        r == InternalError && users.docs == old(users.docs)
      else
        r == Ok(Message("Registration successful")) &&
        users.docs == old(users.docs) + [WithId(NewUser(u, hash), newId)]
    ensures EmailsUnique(old(users.docs)) ==> EmailsUnique(users.docs)
  {
    if u.password != u.retypePassword {
      return HttpError(400, "Passwords do not match");
    }
    if !u.agreeTerms {
      return HttpError(400, "You must agree to the terms");
    }
    var existing := users.FindOne("email", Str(u.email));
    if existing.Some? {
      return HttpError(400, "Email already registered");
    }
    var doc := NewUser(u, hash);
    assert "_id" !in Keys(doc);
    var id := users.InsertOne(doc, newId);
    if id.None? {
      return InternalError;
    }
    NewUserFields(u, hash, newId);
    if EmailsUnique(old(users.docs)) {
      AppendKeepsEmailsUnique(old(users.docs), WithId(doc, newId), u.email);
    }
    r := Ok(Message("Registration successful"));
  }

  /** The `UserResponse` of one stored user; `None` where a field is missing and the lookup raises. */
  function Projection(d: Doc): Option<Value>
  {
    match (Lookup(d, "full_name"), Lookup(d, "email"))
    case (Some(n), Some(e)) => Some(Dict([("full_name", n), ("email", e)]))
    case _ => None
  }

  /** The list comprehension of `get_all_users`: every user projected, in order, or `None` if any raises. */
  function ProjectAll(users: seq<Doc>): (r: Option<seq<Value>>)
    ensures r.Some? <==> forall i :: 0 <= i < |users| ==> Projection(users[i]).Some?
    ensures r.Some? ==> |r.value| == |users|
    ensures r.Some? ==> forall i :: 0 <= i < |users| ==> r.value[i] == Projection(users[i]).value
    decreases |users|
  {
    if |users| == 0 then Some([])
    else
      match (Projection(users[0]), ProjectAll(users[1..]))
      case (Some(p), Some(ps)) =>
        assert forall i :: 1 <= i < |users| ==> users[i] == users[1..][i - 1];
        Some([p] + ps)
      case (None, _) => None
      case (_, None) =>
        assert forall i :: 1 <= i < |users| ==> users[i] == users[1..][i - 1];
        None
  }

  /** A user stored by `register` projects to its name and email; the password hash is never answered. */
  lemma NewUserProjection(u: UserForm, hash: string -> string, newId: ObjectId)
    ensures Projection(WithId(NewUser(u, hash), newId)) ==
      Some(Dict([("full_name", Str(u.fullName)), ("email", Str(u.email))]))
  {
    NewUserFields(u, hash, newId);
  }

  lemma NewUserFields(u: UserForm, hash: string -> string, newId: ObjectId)
    ensures Lookup(WithId(NewUser(u, hash), newId), "full_name") == Some(Str(u.fullName))
    ensures Lookup(WithId(NewUser(u, hash), newId), "email") == Some(Str(u.email))
  {
    var d := NewUser(u, hash);
    assert "_id" !in Keys(d);
    var s := WithId(d, newId);
    assert s[1..] == d;
    assert d[1..][0] == ("email", Str(u.email));
  }

  /** `get_all_users`: at most 100 users in store order, each projected; a missing field is a 500. */
  method GetAllUsers(users: Collection) returns (r: Outcome<Value>)
    ensures users.docs == [] ==> r == HttpError(404, "No users found")
    ensures users.docs != [] ==>
      match ProjectAll(Prefix(users.docs, UserLimit))
      case None => r == InternalError
      case Some(rows) => r == Ok(List(rows))
    ensures r.Ok? ==> |r.value.items| == |Prefix(users.docs, UserLimit)| && 0 < |r.value.items| <= UserLimit
  {
    var docs := users.FindAll(UserLimit);
    if docs == [] {
      return HttpError(404, "No users found");
    }
    var rows := ProjectAll(docs);
    if rows.None? {
      return InternalError;
    }
    r := Ok(List(rows.value));
  }

  /** The create routes: insert the model dict and answer it with its `_id` and `id` added. */
  method Create(k: Kind, c: Collection, payload: Doc, newId: ObjectId) returns (r: Outcome<Value>)
    requires Conforms(k, payload)
    modifies c
    ensures FirstMatch(old(c.docs), "_id", Oid(newId)).Some? ==> r == InternalError && c.docs == old(c.docs)
    ensures FirstMatch(old(c.docs), "_id", Oid(newId)).None? ==>
      c.docs == old(c.docs) + [WithId(payload, newId)] &&
      r == Ok(Dict(WithIdString(payload + [("_id", Oid(newId))], newId)))
  {
    assert "_id" !in Keys(payload);
    var id := c.InsertOne(payload, newId);
    if id.None? {
      return InternalError;
    }
    r := Ok(Dict(WithIdString(payload + [("_id", Oid(newId))], newId)));
  }

  /** The get routes: the stored document with `id` added, or 404. */
  method Get(k: Kind, c: Collection, id: ObjectId) returns (r: Outcome<Value>)
    ensures FindFirst(c.docs, "_id", Oid(id)).None? ==> r == HttpError(404, Label(k) + " not found")
    ensures FindFirst(c.docs, "_id", Oid(id)).Some? ==>
      r == Ok(Dict(WithIdString(FindFirst(c.docs, "_id", Oid(id)).value, id)))
  {
    var d := c.FindOne("_id", Oid(id));
    if d.None? {
      return HttpError(404, Label(k) + " not found");
    }
    r := Ok(Dict(WithIdString(d.value, id)));
  }

  /** The update routes: `$set` every model field on the document, answered as it is afterwards, or 404. */
  method Update(k: Kind, c: Collection, id: ObjectId, payload: Doc) returns (r: Outcome<Value>)
    requires Conforms(k, payload)
    modifies c
    ensures c.docs == UpdateFirst(old(c.docs), "_id", Oid(id), payload)
    ensures FirstMatch(old(c.docs), "_id", Oid(id)).None? ==> r == HttpError(404, Label(k) + " not found")
    ensures FirstMatch(old(c.docs), "_id", Oid(id)).Some? ==>
      r == Ok(Dict(WithIdString(c.docs[FirstMatch(old(c.docs), "_id", Oid(id)).value], id)))
  {
    var d := c.FindOneAndUpdate("_id", Oid(id), payload);
    if d.None? {
      return HttpError(404, Label(k) + " not found");
    }
    r := Ok(Dict(WithIdString(d.value, id)));
  }

  /** The delete routes: 404 exactly when nothing was deleted. */
  method Delete(k: Kind, c: Collection, id: ObjectId) returns (r: Outcome<Value>)
    modifies c
    ensures c.docs == DeleteFirst(old(c.docs), "_id", Oid(id))
    ensures FirstMatch(old(c.docs), "_id", Oid(id)).None? <==> r.HttpError?
    ensures r.HttpError? ==> r == HttpError(404, Label(k) + " not found")
    ensures r.Ok? ==> r == Ok(Message(Label(k) + " deleted successfully"))
  {
    var n := c.DeleteOne("_id", Oid(id));
    if n == 0 {
      return HttpError(404, Label(k) + " not found");
    }
    r := Ok(Message(Label(k) + " deleted successfully"));
  }

  /**
   * The `id` a create answers reads back as the ObjectId it was made from,
   * and that id finds the created document when no stored one had it.
   */
  lemma CreateThenGet(docs: seq<Doc>, payload: Doc, newId: ObjectId, k: Kind)
    requires Conforms(k, payload) && FirstMatch(docs, "_id", Oid(newId)).None?
    ensures Unhex(IdString(newId)) == Some(newId)
    ensures FindFirst(docs + [WithId(payload, newId)], "_id", Oid(newId)) == Some(WithId(payload, newId))
  {
    UnhexHex(newId);
    assert "_id" !in Keys(payload);
    FirstMatchAppend(docs, WithId(payload, newId), "_id", Oid(newId));
  }

  /** An update keeps the document's `_id`, so the same id still finds it. */
  lemma UpdateKeepsId(docs: seq<Doc>, id: ObjectId, payload: Doc, k: Kind)
    requires Conforms(k, payload) && FirstMatch(docs, "_id", Oid(id)).Some?
    ensures FirstMatch(UpdateFirst(docs, "_id", Oid(id), payload), "_id", Oid(id)) == FirstMatch(docs, "_id", Oid(id))
  {
    var i := FirstMatch(docs, "_id", Oid(id)).value;
    var after := UpdateFirst(docs, "_id", Oid(id), payload);
    assert "_id" !in Keys(payload);
    LookupSetFields(docs[i], payload, "_id");
    assert Matches(after[i], "_id", Oid(id));
    assert forall j :: 0 <= j < i ==> after[j] == docs[j];
    FirstMatchAt(after, "_id", Oid(id), i);
  }
}
