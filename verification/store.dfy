/**
 * One MongoDB collection held in memory: its documents in natural order,
 * and the driver calls the services make on it (`insert_one`, `find_one`,
 * `update_one`, `find_one_and_update`, `delete_one`, `find().to_list`).
 * Filters are single-key equality, which is all the services use.
 */
module Store {
  import opened Common
  import opened ObjectIds
  import opened Values

  /** A document matches the filter `{key: v}`. */
  predicate Matches(d: Doc, key: string, v: Value)
  {
    Lookup(d, key) == Some(v)
  }

  /** Position of the first document matching `{key: v}`, in natural order. */
  function FirstMatch(docs: seq<Doc>, key: string, v: Value): (r: Option<nat>)
    ensures r.Some? ==> r.value < |docs| && Matches(docs[r.value], key, v)
    ensures r.Some? ==> forall j :: 0 <= j < r.value ==> !Matches(docs[j], key, v)
    ensures r.None? <==> forall j :: 0 <= j < |docs| ==> !Matches(docs[j], key, v)
    decreases |docs|
  {
    if |docs| == 0 then None
    else if Matches(docs[0], key, v) then Some(0)
    else
      match FirstMatch(docs[1..], key, v)
      case None => None
      case Some(i) => Some(i + 1)
  }

  /** `find_one({key: v})`. */
  function FindFirst(docs: seq<Doc>, key: string, v: Value): (r: Option<Doc>)
    ensures r.Some? <==> exists j :: 0 <= j < |docs| && Matches(docs[j], key, v)
    ensures r.Some? ==> Matches(r.value, key, v) && r.value in docs
  {
    match FirstMatch(docs, key, v)
    case None => None
    case Some(i) => Some(docs[i])
  }

  /** The document `insert_one` stores: the driver puts `_id` first when the document has none. */
  function WithId(d: Doc, newId: ObjectId): (r: Doc)
    ensures Lookup(r, "_id") == Some(InsertedId(d, newId))
    ensures "_id" in Keys(d) ==> r == d
  {
    if "_id" in Keys(d) then d else [("_id", Oid(newId))] + d
  }

  /** `inserted_id`: the document's own `_id`, or the one the driver generated. */
  function InsertedId(d: Doc, newId: ObjectId): Value
  {
    match Lookup(d, "_id")
    case Some(id) => id
    case None => Oid(newId)
  }

  /** The collection after `update_one({key: v}, {"$set": fields})`. */
  function UpdateFirst(docs: seq<Doc>, key: string, v: Value, fields: Doc): (r: seq<Doc>)
    ensures |r| == |docs|
  {
    match FirstMatch(docs, key, v)
    case None => docs
    case Some(i) => docs[i := SetFields(docs[i], fields)]
  }

  /** `modified_count` of that update: 1 only when a document matched and `$set` changed it. */
  function ModifiedCount(docs: seq<Doc>, key: string, v: Value, fields: Doc): (n: nat)
    ensures n <= 1
    ensures n == 1 <==> UpdateFirst(docs, key, v, fields) != docs
  {
    match FirstMatch(docs, key, v)
    case None => 0
    case Some(i) =>
      if SetFields(docs[i], fields) == docs[i] then 0
      else
        assert UpdateFirst(docs, key, v, fields)[i] != docs[i];
        1
  }

  /** The collection after `delete_one({key: v})`. */
  function DeleteFirst(docs: seq<Doc>, key: string, v: Value): (r: seq<Doc>)
    ensures |r| == if FirstMatch(docs, key, v).Some? then |docs| - 1 else |docs|
  {
    match FirstMatch(docs, key, v)
    case None => docs
    case Some(i) => docs[..i] + docs[i + 1..]
  }

  /** `find().to_list(length=n)`: the first `n` documents in natural order. */
  function Prefix(docs: seq<Doc>, n: nat): (r: seq<Doc>)
    ensures |r| == if n < |docs| then n else |docs|
    ensures forall i :: 0 <= i < |r| ==> r[i] == docs[i]
  {
    if n < |docs| then docs[..n] else docs
  }

  class Collection {
    var docs: seq<Doc>

    constructor ()
      ensures docs == []
    {
      docs := [];
    }

    /** `insert_one(d)`: `None` is the `DuplicateKeyError` raised for an `_id` already stored. */
    method InsertOne(d: Doc, newId: ObjectId) returns (insertedId: Option<Value>)
      modifies this
      ensures FirstMatch(old(docs), "_id", InsertedId(d, newId)).Some? ==>
        insertedId.None? && docs == old(docs)
      ensures FirstMatch(old(docs), "_id", InsertedId(d, newId)).None? ==>
        insertedId == Some(InsertedId(d, newId)) && docs == old(docs) + [WithId(d, newId)]
    {
      var id := InsertedId(d, newId);
      if FirstMatch(docs, "_id", id).Some? {
        return None;
      }
      docs := docs + [WithId(d, newId)];
      return Some(id);
    }

    /** `find_one({key: v})` */
    method FindOne(key: string, v: Value) returns (r: Option<Doc>)
      ensures r == FindFirst(docs, key, v)
    {
      var i := 0;
      while i < |docs|
        invariant 0 <= i <= |docs|
        invariant forall j :: 0 <= j < i ==> !Matches(docs[j], key, v)
      {
        if Lookup(docs[i], key) == Some(v) {
          FirstMatchAt(docs, key, v, i);
          return Some(docs[i]);
        }
        i := i + 1;
      }
      return None;
    }

    /** `update_one({key: v}, {"$set": fields})`, answering `modified_count`. */
    method UpdateOne(key: string, v: Value, fields: Doc) returns (modified: nat)
      modifies this
      ensures docs == UpdateFirst(old(docs), key, v, fields)
      ensures modified == ModifiedCount(old(docs), key, v, fields)
    {
      var i := FirstMatch(docs, key, v);
      if i.None? {
        return 0;
      }
      var updated := SetFields(docs[i.value], fields);
      modified := if updated == docs[i.value] then 0 else 1;
      docs := docs[i.value := updated];
    }

    /** `find_one_and_update({key: v}, {"$set": fields}, return_document=True)`: the document after the change. */
    method FindOneAndUpdate(key: string, v: Value, fields: Doc) returns (r: Option<Doc>)
      modifies this
      ensures docs == UpdateFirst(old(docs), key, v, fields)
      ensures r == match FirstMatch(old(docs), key, v)
        case None => None
        case Some(i) => Some(docs[i])
    {
      var i := FirstMatch(docs, key, v);
      if i.None? {
        return None;
      }
      docs := docs[i.value := SetFields(docs[i.value], fields)];
      return Some(docs[i.value]);
    }

    /** `delete_one({key: v})`, answering `deleted_count`. */
    method DeleteOne(key: string, v: Value) returns (deleted: nat)
      modifies this
      ensures docs == DeleteFirst(old(docs), key, v)
      ensures deleted == if FirstMatch(old(docs), key, v).Some? then 1 else 0
    {
      var i := FirstMatch(docs, key, v);
      if i.None? {
        return 0;
      }
      docs := docs[..i.value] + docs[i.value + 1..];
      return 1;
    }

    /** `find().to_list(length=n)` */
    method FindAll(n: nat) returns (r: seq<Doc>)
      ensures r == Prefix(docs, n)
    {
      r := [];
      while |r| < n && |r| < |docs|
        invariant |r| <= |docs| && |r| <= n
        invariant r == docs[..|r|]
      {
        r := r + [docs[|r|]];
      }
      if |r| == |docs| {
        assert r == docs;
      }
    }
  }

  /** A document that matches is found after an insert, unless an earlier one matches first: inserts never check natural keys. */
  lemma {:induction false} FirstMatchAppend(docs: seq<Doc>, d: Doc, key: string, v: Value)
    ensures FirstMatch(docs + [d], key, v) ==
      if FirstMatch(docs, key, v).Some? then FirstMatch(docs, key, v)
      else if Matches(d, key, v) then Some(|docs|)
      else None
    decreases |docs|
  {
    if |docs| > 0 {
      assert (docs + [d])[0] == docs[0];
      assert (docs + [d])[1..] == docs[1..] + [d];
      FirstMatchAppend(docs[1..], d, key, v);
    }
  }

  /** The first match is the matching document with no match before it. */
  lemma FirstMatchAt(docs: seq<Doc>, key: string, v: Value, i: nat)
    requires i < |docs| && Matches(docs[i], key, v)
    requires forall j :: 0 <= j < i ==> !Matches(docs[j], key, v)
    ensures FirstMatch(docs, key, v) == Some(i)
  {
    var r := FirstMatch(docs, key, v);
    assert r.Some?;
  }

  /** Only the matched document changes under `$set`, and there only the keys named in `fields`. */
  lemma UpdateFirstFrame(docs: seq<Doc>, key: string, v: Value, fields: Doc, j: nat, k: string)
    requires UniqueKeys(fields) && j < |docs|
    ensures FirstMatch(docs, key, v) != Some(j) ==> UpdateFirst(docs, key, v, fields)[j] == docs[j]
    ensures FirstMatch(docs, key, v) == Some(j) ==> (Lookup(UpdateFirst(docs, key, v, fields)[j], k) ==
      if k in Keys(fields) then Lookup(fields, k) else Lookup(docs[j], k))
  {
    if FirstMatch(docs, key, v) == Some(j) {
      LookupSetFields(docs[j], fields, k);
    }
  }

  /**
   * Sending the same update twice: the second changes nothing, so its
   * `modified_count` is 0, as long as `fields` keeps the filter's own value.
   */
  lemma RepeatedUpdateModifiesNothing(docs: seq<Doc>, key: string, v: Value, fields: Doc)
    requires UniqueKeys(fields) && FirstMatch(docs, key, v).Some?
    requires key !in Keys(fields) || Lookup(fields, key) == Some(v)
    ensures ModifiedCount(UpdateFirst(docs, key, v, fields), key, v, fields) == 0
  {
    var i := FirstMatch(docs, key, v).value;
    var after := UpdateFirst(docs, key, v, fields);
    LookupSetFields(docs[i], fields, key);
    assert forall j :: 0 <= j < i ==> after[j] == docs[j];
    FirstMatchAt(after, key, v, i);
    forall j | 0 <= j < |fields|
      ensures Lookup(after[i], fields[j].0) == Some(fields[j].1)
    {
      LookupSetFields(docs[i], fields, fields[j].0);
      LookupOfUnique(fields, j);
    }
    SetFieldsNoop(after[i], fields);
  }

  /** Deleting removes exactly the first matching document and keeps the others in order. */
  lemma DeleteFirstRemoves(docs: seq<Doc>, key: string, v: Value)
    requires FirstMatch(docs, key, v).Some?
    ensures multiset(DeleteFirst(docs, key, v)) + multiset{FindFirst(docs, key, v).value} == multiset(docs)
    ensures var i, r := FirstMatch(docs, key, v).value, DeleteFirst(docs, key, v);
      (forall j :: 0 <= j < i ==> r[j] == docs[j]) &&
      (forall j :: i <= j < |r| ==> r[j] == docs[j + 1])
  {
    var i := FirstMatch(docs, key, v).value;
    assert DeleteFirst(docs, key, v) == docs[..i] + docs[i + 1..];
    RemoveAt(docs, i);
  }

  lemma RemoveAt<T>(s: seq<T>, i: nat)
    requires i < |s|
    ensures multiset(s[..i] + s[i + 1..]) + multiset{s[i]} == multiset(s)
    ensures var r := s[..i] + s[i + 1..];
      (forall j :: 0 <= j < i ==> r[j] == s[j]) && (forall j :: i <= j < |r| ==> r[j] == s[j + 1])
  {
    assert s == s[..i] + [s[i]] + s[i + 1..];
  }
}
