/**
 * The documents the services read and write: Python values as they come out
 * of pydantic's `.dict()` and out of the MongoDB driver, and the two dict
 * operations the handlers perform on them (`d[k] = v` and MongoDB's `$set`).
 */
module Values {
  import opened Common
  import opened ObjectIds

  /** A document value. Floats and datetimes are opaque scalars. */
  datatype Value =
    | Null                         // None
    | Bool(flag: bool)
    | Int(num: int)
    | Float(repr: int)             // a float, compared by its bits
    | Time(stamp: int)             // a datetime.datetime
    | Str(text: string)
    | Oid(id: ObjectId)            // bson.ObjectId
    | Bytes(data: seq<byte>)       // bytes
    | Binary(data: seq<byte>, subtype: int)  // bson.Binary, a subclass of bytes; equality compares the subtype too
    | Buffer(data: seq<byte>)      // a non-bytes object with a .decode method, such as bytearray
    | List(items: seq<Value>)
    | Dict(entries: seq<(string, Value)>)

  /** A Python dict: its entries in insertion order. */
  type Doc = seq<(string, Value)>

  function Keys(d: Doc): (ks: seq<string>)
    ensures |ks| == |d|
    ensures forall i :: 0 <= i < |d| ==> ks[i] == d[i].0
  {
    seq(|d|, i requires 0 <= i < |d| => d[i].0)
  }

  /** No key occurs twice, as in every Python dict. */
  predicate UniqueKeys(d: Doc)
  {
    forall i, j :: 0 <= i < j < |d| ==> d[i].0 != d[j].0
  }

  /** `d.get(k)`: the value of the first entry with key `k`. */
  function Lookup(d: Doc, k: string): (r: Option<Value>)
    ensures r.None? <==> k !in Keys(d)
    ensures r.Some? ==> exists i :: 0 <= i < |d| && d[i] == (k, r.value)
    decreases |d|
  {
    if |d| == 0 then None
    else if d[0].0 == k then Some(d[0].1)
    else
      assert Keys(d) == [d[0].0] + Keys(d[1..]);
      var r := Lookup(d[1..], k);
      assert r.Some? ==> exists i :: 0 <= i < |d| && d[i] == (k, r.value) by {
        if r.Some? {
          var i :| 0 <= i < |d[1..]| && d[1..][i] == (k, r.value);
          assert d[i + 1] == (k, r.value);
        }
      }
      r
  }

  /** `d[k] = v`: overwrite the entry for `k` where it stands, or append a new one. */
  function Put(d: Doc, k: string, v: Value): (r: Doc)
    decreases |d|
  {
    if |d| == 0 then [(k, v)]
    else if d[0].0 == k then [(k, v)] + d[1..]
    else [d[0]] + Put(d[1..], k, v)
  }

  /** After `d[k] = v`, `k` reads `v` and every other key reads what it read before. */
  lemma {:induction false} LookupPut(d: Doc, k: string, v: Value, k': string)
    ensures Lookup(Put(d, k, v), k') == if k' == k then Some(v) else Lookup(d, k')
    decreases |d|
  {
    if |d| > 0 && d[0].0 != k {
      LookupPut(d[1..], k, v, k');
      assert Put(d, k, v)[1..] == Put(d[1..], k, v);
    }
  }

  /** `d[k] = v` keeps the keys and their order, appending `k` only when it is new. */
  lemma {:induction false} KeysPut(d: Doc, k: string, v: Value)
    ensures Keys(Put(d, k, v)) == if k in Keys(d) then Keys(d) else Keys(d) + [k]
    decreases |d|
  {
    if |d| > 0 {
      var t := d[1..];
      assert d == [d[0]] + t;
      KeysCons(d[0], t);
      if d[0].0 == k {
        KeysCons((k, v), t);
      } else {
        KeysPut(t, k, v);
        KeysCons(d[0], Put(t, k, v));
      }
    }
  }

  lemma KeysCons(x: (string, Value), d: Doc)
    ensures Keys([x] + d) == [x.0] + Keys(d)
  {
  }

  /**
   * MongoDB's `{"$set": fields}`: each field in turn is written into the
   * document, and a key the document lacks is appended in the order of
   * `fields`.
   */
  function SetFields(d: Doc, fields: Doc): (r: Doc)
    decreases |fields|
  {
    if |fields| == 0 then d else SetFields(Put(d, fields[0].0, fields[0].1), fields[1..])
  }

  /**
   * After `$set`, a key reads its value in `fields`, or its old value if
   * `fields` lacks it; the first needs the keys of `fields` to be distinct.
   */
  lemma {:induction false} LookupSetFields(d: Doc, fields: Doc, k: string)
    requires UniqueKeys(fields) || k !in Keys(fields)
    ensures Lookup(SetFields(d, fields), k) == if k in Keys(fields) then Lookup(fields, k) else Lookup(d, k)
    decreases |fields|
  {
    if |fields| > 0 {
      var d' := Put(d, fields[0].0, fields[0].1);
      assert Keys(fields) == [fields[0].0] + Keys(fields[1..]);
      LookupSetFields(d', fields[1..], k);
      LookupPut(d, fields[0].0, fields[0].1, k);
      if k == fields[0].0 {
        assert k !in Keys(fields[1..]);
      }
    }
  }

  /** In a dict, every entry is what its key reads. */
  lemma {:induction false} LookupOfUnique(d: Doc, j: nat)
    requires UniqueKeys(d) && j < |d|
    ensures Lookup(d, d[j].0) == Some(d[j].1)
    decreases j
  {
    if j > 0 {
      assert d[0].0 != d[j].0;
      LookupOfUnique(d[1..], j - 1);
    }
  }

  /** `$set` of values a document already holds leaves it exactly as it was. */
  lemma {:induction false} SetFieldsNoop(d: Doc, fields: Doc)
    requires UniqueKeys(fields)
    requires forall i :: 0 <= i < |fields| ==> Lookup(d, fields[i].0) == Some(fields[i].1)
    ensures SetFields(d, fields) == d
    decreases |fields|
  {
    if |fields| > 0 {
      PutLookup(d, fields[0].0);
      assert Put(d, fields[0].0, fields[0].1) == d;
      SetFieldsNoop(d, fields[1..]);
    }
  }

  /** Writes to two different keys commute once the second is already present. */
  lemma {:induction false} PutSwap(d: Doc, a: string, v: Value, b: string, w: Value)
    requires a != b && Lookup(d, b).Some?
    ensures Put(Put(d, a, v), b, w) == Put(Put(d, b, w), a, v)
    decreases |d|
  {
    if d[0].0 != a && d[0].0 != b {
      PutSwap(d[1..], a, v, b, w);
    }
  }

  /** Writing a key twice is writing it once with the later value. */
  lemma {:induction false} PutPut(d: Doc, k: string, v: Value, w: Value)
    ensures Put(Put(d, k, v), k, w) == Put(d, k, w)
    decreases |d|
  {
    if |d| > 0 && d[0].0 != k {
      PutPut(d[1..], k, v, w);
    }
  }

  /** Writing back the value a key already holds changes nothing. */
  lemma {:induction false} PutLookup(d: Doc, k: string)
    requires Lookup(d, k).Some?
    ensures Put(d, k, Lookup(d, k).value) == d
    decreases |d|
  {
    if d[0].0 != k {
      PutLookup(d[1..], k);
    }
  }
}
