/**
 * The response formatter of the admin service (admin.py): `handle_non_utf8`
 * and `convert_objectid_to_str`, which replace `bytes` and `Binary` values,
 * buffers that are well-formed UTF-8 and ObjectIds held as dict values by
 * text. An ObjectId in a list and a buffer that is not UTF-8 stay as they are.
 */
module Normalizer {
  import opened Common
  import opened ObjectIds
  import opened Values
  import Base64
  import Utf8

  /**
   * `handle_non_utf8`: `bytes` (and `bson.Binary`) become their Base64 text; any
   * other value with a `.decode` method becomes its UTF-8 decoding when that
   * succeeds; everything else comes back as it was.
   */
  function HandleNonUtf8(v: Value): (r: Value)
  {
    match v
    case Bytes(b) => Str(Base64.Encode(b))
    case Binary(b, _) => Str(Base64.Encode(b))
    case Buffer(b) =>
      (match Utf8.Decode(b)
       case Some(t) => Str(t)
       case None => v)
    case _ => v
  }

  /** How the dict comprehension of `convert_objectid_to_str` treats one value. */
  function ConvertDictValue(v: Value): (r: Value)
    decreases v, 1
  {
    if v.Dict? || v.List? then ConvertObjectIdToStr(v)
    else if v.Oid? then Str(IdString(v.id))
    else HandleNonUtf8(v)
  }

  /** `convert_objectid_to_str`: rebuilds dicts and lists, treating every leaf as above. */
  function ConvertObjectIdToStr(v: Value): (r: Value)
    ensures r.Dict? <==> v.Dict?
    ensures r.List? <==> v.List?
    ensures v.Dict? ==> Keys(r.entries) == Keys(v.entries)
    ensures v.List? ==> |r.items| == |v.items|
    decreases v, 0
  {
    match v
    case Dict(es) => Dict(seq(|es|, i requires 0 <= i < |es| => (es[i].0, ConvertDictValue(es[i].1))))
    case List(xs) => List(seq(|xs|, i requires 0 <= i < |xs| => ConvertObjectIdToStr(xs[i])))
    case _ => HandleNonUtf8(v)
  }

  /** What `handle_non_utf8` promises, stated through the inverse of each rendering. */
  lemma HandleNonUtf8Classifies(v: Value)
    ensures v.Bytes? || v.Binary? ==>
      HandleNonUtf8(v).Str? && Base64.Decode(HandleNonUtf8(v).text) == Some(v.data)
    ensures v.Buffer? && Utf8.WellFormed(v.data) ==>
      HandleNonUtf8(v).Str? && Utf8.Encode(HandleNonUtf8(v).text) == v.data
    ensures v.Buffer? && !Utf8.WellFormed(v.data) ==> HandleNonUtf8(v) == v
    ensures !(v.Bytes? || v.Binary? || v.Buffer?) ==> HandleNonUtf8(v) == v
  {
    match v
    case Bytes(b) => Base64.DecodeEncode(b);
    case Binary(b, _) => Base64.DecodeEncode(b);
    case Buffer(b) =>
      Utf8.DecodeDefinedIffWellFormed(b);
      if Utf8.WellFormed(b) {
        Utf8.EncodeDecode(b, Utf8.Decode(b).value);
      }
    case _ =>
  }

  /** A second pass of `handle_non_utf8` changes nothing, and it never yields a container or raw bytes. */
  lemma HandleNonUtf8Idempotent(v: Value)
    ensures HandleNonUtf8(HandleNonUtf8(v)) == HandleNonUtf8(v)
    ensures var r := HandleNonUtf8(v); !(r.Dict? || r.List? || r.Bytes? || r.Binary?) || r == v
    ensures HandleNonUtf8(v).Oid? ==> v.Oid?
  {
  }

  /**
   * Only an ObjectId that is a dict value becomes its string; one that is a
   * list element or the whole argument comes back unchanged.
   */
  lemma ObjectIdPlacement(id: ObjectId, es: seq<(string, Value)>, xs: seq<Value>)
    ensures ConvertObjectIdToStr(Oid(id)) == Oid(id)
    ensures forall i :: 0 <= i < |es| && es[i].1 == Oid(id) ==>
      ConvertObjectIdToStr(Dict(es)).entries[i] == (es[i].0, Str(IdString(id)))
    ensures forall i :: 0 <= i < |xs| && xs[i] == Oid(id) ==>
      ConvertObjectIdToStr(List(xs)).items[i] == Oid(id)
  {
  }

  /**
   * `w` has the container structure of `v`: a dict with the same keys, or a
   * list of the same length, wherever `v` has one, at every depth, and a
   * scalar wherever `v` has a scalar.
   */
  predicate SameShape(v: Value, w: Value)
    decreases v
  {
    match v
    case Dict(es) =>
      w.Dict? && |w.entries| == |es| && Keys(w.entries) == Keys(es) &&
      forall i :: 0 <= i < |es| ==> SameShape(es[i].1, w.entries[i].1)
    case List(xs) =>
      w.List? && |w.items| == |xs| &&
      forall i :: 0 <= i < |xs| ==> SameShape(xs[i], w.items[i])
    case _ => !w.Dict? && !w.List?
  }

  /** The conversion rebuilds every dict and list, at any depth, and turns no scalar into a container. */
  lemma {:induction false} ConvertKeepsShape(v: Value)
    ensures SameShape(v, ConvertObjectIdToStr(v))
    decreases v, 0
  {
    var r := ConvertObjectIdToStr(v);
    match v
    case Dict(es) =>
      forall i | 0 <= i < |es| ensures SameShape(es[i].1, r.entries[i].1) {
        DictValueKeepsShape(es[i].1);
      }
    case List(xs) =>
      forall i | 0 <= i < |xs| ensures SameShape(xs[i], r.items[i]) {
        ConvertKeepsShape(xs[i]);
      }
    case _ =>
  }

  lemma {:induction false} DictValueKeepsShape(v: Value)
    ensures SameShape(v, ConvertDictValue(v))
    decreases v, 1
  {
    if v.Dict? || v.List? {
      ConvertKeepsShape(v);
    }
  }

  /**
   * What the formatter leaves: no `bytes` or `Binary` anywhere, no ObjectId as
   * a dict value, and a buffer only where it is not well-formed UTF-8.
   */
  predicate Rendered(v: Value)
    decreases v
  {
    match v
    case Bytes(_) => false
    case Binary(_, _) => false
    case Buffer(b) => !Utf8.WellFormed(b)
    case Dict(es) => forall i :: 0 <= i < |es| ==> !es[i].1.Oid? && Rendered(es[i].1)
    case List(xs) => forall i :: 0 <= i < |xs| ==> Rendered(xs[i])
    case _ => true
  }

  lemma {:induction false} ConvertRenders(v: Value)
    ensures Rendered(ConvertObjectIdToStr(v))
    decreases v, 0
  {
    match v
    case Dict(es) =>
      forall i | 0 <= i < |es|
        ensures var x := ConvertDictValue(es[i].1); !x.Oid? && Rendered(x)
      {
        DictValueRenders(es[i].1);
      }
    case List(xs) =>
      forall i | 0 <= i < |xs| ensures Rendered(ConvertObjectIdToStr(xs[i])) {
        ConvertRenders(xs[i]);
      }
    case _ =>
      HandleNonUtf8Classifies(v);
  }

  lemma {:induction false} DictValueRenders(v: Value)
    ensures var x := ConvertDictValue(v); !x.Oid? && Rendered(x)
    decreases v, 1
  {
    if v.Dict? || v.List? {
      ConvertRenders(v);
    } else if !v.Oid? {
      HandleNonUtf8Classifies(v);
    }
  }

  /** Converting twice is converting once. */
  lemma {:induction false} ConvertIdempotent(v: Value)
    ensures ConvertObjectIdToStr(ConvertObjectIdToStr(v)) == ConvertObjectIdToStr(v)
    decreases v, 0
  {
    var r := ConvertObjectIdToStr(v);
    match v
    case Dict(es) =>
      forall i | 0 <= i < |es| ensures ConvertDictValue(r.entries[i].1) == r.entries[i].1 {
        DictValueIdempotent(es[i].1);
      }
      assert ConvertObjectIdToStr(r).entries == r.entries;
    case List(xs) =>
      forall i | 0 <= i < |xs| ensures ConvertObjectIdToStr(r.items[i]) == r.items[i] {
        ConvertIdempotent(xs[i]);
      }
      assert ConvertObjectIdToStr(r).items == r.items;
    case _ =>
      HandleNonUtf8Idempotent(v);
  }

  lemma {:induction false} DictValueIdempotent(v: Value)
    ensures ConvertDictValue(ConvertDictValue(v)) == ConvertDictValue(v)
    decreases v, 1
  {
    if v.Dict? || v.List? {
      ConvertIdempotent(v);
    } else if !v.Oid? {
      HandleNonUtf8Idempotent(v);
    }
  }

  /** Reading a key of a converted dict reads the converted value of that key. */
  lemma {:induction false} LookupConverted(es: seq<(string, Value)>, k: string)
    ensures Lookup(ConvertObjectIdToStr(Dict(es)).entries, k) ==
      match Lookup(es, k)
      case None => None
      case Some(x) => Some(ConvertDictValue(x))
    decreases |es|
  {
    if |es| > 0 && es[0].0 != k {
      var r := ConvertObjectIdToStr(Dict(es)).entries;
      assert r[1..] == ConvertObjectIdToStr(Dict(es[1..])).entries;
      LookupConverted(es[1..], k);
    }
  }

  /** A plain scalar (null, bool, number, datetime, text): what `handle_non_utf8` leaves alone. */
  predicate Plain(v: Value)
  {
    v.Null? || v.Bool? || v.Int? || v.Float? || v.Time? || v.Str?
  }

  /** A document of plain scalars reads back exactly as it was stored. */
  lemma ConvertPlainDoc(d: Doc)
    requires forall i :: 0 <= i < |d| ==> Plain(d[i].1)
    ensures ConvertObjectIdToStr(Dict(d)) == Dict(d)
  {
    assert ConvertObjectIdToStr(Dict(d)).entries == d;
  }

  /**
   * `bytes` are always Base64 text, even when they are well-formed UTF-8 as
   * 01 02 03 is; the rendering is the same on every call.
   */
  lemma BytesExamples()
    ensures HandleNonUtf8(Bytes([1, 2, 3])) == Str("AQID")
    ensures HandleNonUtf8(Binary([1, 2, 3], 0)) == Str("AQID")
    ensures HandleNonUtf8(Bytes([0xFF, 0xFE])) == Str("//4=")
  {
    assert Base64.Encode([1, 2, 3]) == Base64.Quantum(1, 2, 3) + Base64.Encode([]);
    assert Base64.Quantum(1, 2, 3) == [Base64.CharOf(0), Base64.CharOf(16), Base64.CharOf(8), Base64.CharOf(3)];
    assert Base64.Encode([0xFF, 0xFE]) == Base64.Padded([0xFF, 0xFE]);
    assert Base64.Padded([0xFF, 0xFE]) == [Base64.CharOf(63), Base64.CharOf(63), Base64.CharOf(56), '='];
  }

  /** A buffer of 01 02 03 is decoded as text; one of FF FE, which is not UTF-8, is left as it was. */
  lemma BufferExamples()
    ensures Utf8.WellFormed([1, 2, 3])
    ensures HandleNonUtf8(Buffer([1, 2, 3])) == Str([1 as char, 2 as char, 3 as char])
    ensures !Utf8.WellFormed([0xFF, 0xFE])
    ensures HandleNonUtf8(Buffer([0xFF, 0xFE])) == Buffer([0xFF, 0xFE])
  {
    var t := [1 as char, 2 as char, 3 as char];
    assert Utf8.Encode(t[2..]) == [3];
    assert Utf8.Encode(t[1..]) == [2] + Utf8.Encode(t[2..]);
    assert Utf8.Encode(t) == [1] + Utf8.Encode(t[1..]);
    Utf8.DecodeEncode(t);
    Utf8.DecodeDefinedIffWellFormed([1, 2, 3]);
  }
}
