/**
 * The two model validators of the `Order` schema (admin.py): on the way in,
 * `bson.Binary` reference fields become Base64 text; afterwards, text in
 * those fields becomes `Binary` again. Only the keys `restaurants_id` and
 * `address_id` are touched.
 */
module OrderRefs {
  import opened Common
  import opened Values
  import Base64

  const RefKeys: seq<string> := ["restaurants_id", "address_id"]

  /** The `values` dict a validator receives and changes in place. */
  class Payload {
    var entries: Doc

    constructor (entries: Doc)
      ensures this.entries == entries
    {
      this.entries := entries;
    }
  }

  /** One field of the before-validator: a `Binary` value becomes its Base64 text. */
  function BinaryToBase64(d: Doc, k: string): Doc
  {
    match Lookup(d, k)
    case Some(Binary(b, _)) => Put(d, k, Str(Base64.Encode(b)))
    case _ => d
  }

  /** One field of the after-validator: text becomes `Binary(b64decode(text))`; `None` if that raises. */
  function Base64ToBinary(d: Doc, k: string): Option<Doc>
  {
    match Lookup(d, k)
    case Some(Str(s)) =>
      (match Base64.Decode(s)
       case Some(b) => Some(Put(d, k, Binary(b, 0)))
       case None => None)
    case _ => Some(d)
  }

  /** What `convert_binary_fields_to_base64` leaves in `values`. */
  function BinaryRefsToBase64(d: Doc): Doc
  {
    BinaryToBase64(BinaryToBase64(d, RefKeys[0]), RefKeys[1])
  }

  /** What `convert_base64_to_binary` leaves in `values`; `None` when it raises. */
  function Base64RefsToBinary(d: Doc): Option<Doc>
  {
    match Base64ToBinary(d, RefKeys[0])
    case None => None
    case Some(d') => Base64ToBinary(d', RefKeys[1])
  }

  /** `convert_binary_fields_to_base64` */
  method ConvertBinaryFieldsToBase64(values: Payload)
    modifies values
    ensures values.entries == BinaryRefsToBase64(old(values.entries))
  {
    var r := Lookup(values.entries, "restaurants_id");
    if r.Some? && r.value.Binary? {
      values.entries := Put(values.entries, "restaurants_id", Str(Base64.Encode(r.value.data)));
    }
    var a := Lookup(values.entries, "address_id");
    if a.Some? && a.value.Binary? {
      values.entries := Put(values.entries, "address_id", Str(Base64.Encode(a.value.data)));
    }
  }

  /**
   * `convert_base64_to_binary`; `ok` is false where `b64decode` raises and the
   * payload is rejected. A failure on `address_id` leaves `restaurants_id`
   * already converted.
   */
  method ConvertBase64ToBinary(values: Payload) returns (ok: bool)
    modifies values
    ensures ok == Base64RefsToBinary(old(values.entries)).Some?
    ensures ok ==> values.entries == Base64RefsToBinary(old(values.entries)).value
    ensures !ok ==>
      (Base64ToBinary(old(values.entries), RefKeys[0]).None? && values.entries == old(values.entries)) ||
      (Base64ToBinary(old(values.entries), RefKeys[0]).Some? &&
       values.entries == Base64ToBinary(old(values.entries), RefKeys[0]).value)
  {
    var r := Lookup(values.entries, "restaurants_id");
    if r.Some? && r.value.Str? {
      var b := Base64.Decode(r.value.text);
      if b.None? {
        return false;
      }
      values.entries := Put(values.entries, "restaurants_id", Binary(b.value, 0));
    }
    var a := Lookup(values.entries, "address_id");
    if a.Some? && a.value.Str? {
      var b := Base64.Decode(a.value.text);
      if b.None? {
        return false;
      }
      values.entries := Put(values.entries, "address_id", Binary(b.value, 0));
    }
    return true;
  }

  /** The before-validator keeps the keys and their order, and touches no key but the two references. */
  lemma BinaryRefsToBase64Frame(d: Doc, k: string)
    ensures Keys(BinaryRefsToBase64(d)) == Keys(d)
    ensures k !in RefKeys ==> Lookup(BinaryRefsToBase64(d), k) == Lookup(d, k)
    ensures k in RefKeys ==> (Lookup(BinaryRefsToBase64(d), k) ==
      match Lookup(d, k)
      case Some(Binary(b, _)) => Some(Str(Base64.Encode(b)))
      case other => other)
  {
    var d1 := BinaryToBase64(d, RefKeys[0]);
    BinaryToBase64Frame(d, RefKeys[0], k);
    BinaryToBase64Frame(d1, RefKeys[1], k);
    BinaryToBase64Frame(d, RefKeys[0], RefKeys[1]);
  }

  lemma BinaryToBase64Frame(d: Doc, r: string, k: string)
    ensures Keys(BinaryToBase64(d, r)) == Keys(d)
    ensures Lookup(BinaryToBase64(d, r), k) ==
      if k != r then Lookup(d, k)
      else match Lookup(d, k)
        case Some(Binary(b, _)) => Some(Str(Base64.Encode(b)))
        case other => other
  {
    match Lookup(d, r)
    case Some(Binary(b, _)) =>
      LookupPut(d, r, Str(Base64.Encode(b)), k);
      KeysPut(d, r, Str(Base64.Encode(b)));
    case _ =>
  }

  lemma Base64ToBinaryFrame(d: Doc, r: string, k: string)
    requires Base64ToBinary(d, r).Some?
    ensures Keys(Base64ToBinary(d, r).value) == Keys(d)
    ensures Lookup(Base64ToBinary(d, r).value, k) ==
      if k != r then Lookup(d, k)
      else match Lookup(d, k)
        case Some(Str(s)) => Some(Binary(Base64.Decode(s).value, 0))
        case other => other
  {
    match Lookup(d, r)
    case Some(Str(s)) =>
      var b := Base64.Decode(s).value;
      LookupPut(d, r, Binary(b, 0), k);
      KeysPut(d, r, Binary(b, 0));
    case _ =>
  }

  /** A reference field that holds no text. */
  predicate NotText(d: Doc, k: string)
  {
    Lookup(d, k).None? || !Lookup(d, k).value.Str?
  }

  /**
   * A reference field the after-validator gives back exactly: no text, and a
   * `Binary` only of the default subtype 0, the one `Binary(...)` builds.
   */
  predicate Restorable(d: Doc, k: string)
  {
    NotText(d, k) && (Lookup(d, k).Some? && Lookup(d, k).value.Binary? ==> Lookup(d, k).value.subtype == 0)
  }

  /**
   * Round trip: when neither reference arrives as text and each `Binary`
   * reference has subtype 0, the after-validator restores exactly the
   * document the before-validator was given.
   */
  lemma BinaryRefsRoundTrip(d: Doc)
    requires Restorable(d, RefKeys[0]) && Restorable(d, RefKeys[1])
    ensures Base64RefsToBinary(BinaryRefsToBase64(d)) == Some(d)
  {
    var k0, k1 := RefKeys[0], RefKeys[1];
    var d1 := BinaryToBase64(d, k0);
    var d2 := BinaryToBase64(d1, k1);
    BinaryToBase64Frame(d, k0, k1);
    BinaryToBase64Frame(d1, k1, k0);
    RefRoundTrip(d, k1);
    if Lookup(d, k0).Some? && Lookup(d, k0).value.Binary? {
      UndoFirstRef(d, Lookup(d, k0).value.data);
    } else {
      assert d1 == d;
    }
  }

  /** With the first reference `Binary(b, 0)`, undoing it in the fully converted document leaves only the second converted. */
  lemma UndoFirstRef(d: Doc, b: seq<byte>)
    requires Lookup(d, RefKeys[0]) == Some(Binary(b, 0))
    ensures Base64ToBinary(BinaryRefsToBase64(d), RefKeys[0]) == Some(BinaryToBase64(d, RefKeys[1]))
  {
    var k0, k1 := RefKeys[0], RefKeys[1];
    var s := Str(Base64.Encode(b));
    var d1 := Put(d, k0, s);
    var d2 := BinaryToBase64(d1, k1);
    assert BinaryToBase64(d, k0) == d1;
    LookupPut(d, k0, s, k0);
    LookupPut(d, k0, s, k1);
    BinaryToBase64Frame(d1, k1, k0);
    Base64.DecodeEncode(b);
    assert Base64ToBinary(d2, k0) == Some(Put(d2, k0, Binary(b, 0)));
    PutPut(d, k0, s, Binary(b, 0));
    PutLookup(d, k0);
    if Lookup(d1, k1).Some? && Lookup(d1, k1).value.Binary? {
      var t := Str(Base64.Encode(Lookup(d1, k1).value.data));
      PutSwap(d1, k1, t, k0, Binary(b, 0));
    }
  }

  lemma RefRoundTrip(d: Doc, k: string)
    requires Restorable(d, k)
    ensures Base64ToBinary(BinaryToBase64(d, k), k) == Some(d)
  {
    match Lookup(d, k)
    case Some(Binary(b, _)) =>
      var s := Base64.Encode(b);
      LookupPut(d, k, Str(s), k);
      Base64.DecodeEncode(b);
      PutPut(d, k, Str(s), Binary(b, 0));
      PutLookup(d, k);
    case _ =>
  }

  /** The after-validator keeps the keys, decodes the text references and touches nothing else. */
  lemma Base64RefsToBinaryFrame(d: Doc, k: string)
    requires Base64RefsToBinary(d).Some?
    ensures Keys(Base64RefsToBinary(d).value) == Keys(d)
    ensures k !in RefKeys ==> Lookup(Base64RefsToBinary(d).value, k) == Lookup(d, k)
    ensures k in RefKeys ==>
      match Lookup(d, k)
      case Some(Str(s)) =>
        Base64.Decode(s).Some? && Lookup(Base64RefsToBinary(d).value, k) == Some(Binary(Base64.Decode(s).value, 0))
      case other => Lookup(Base64RefsToBinary(d).value, k) == other
  {
    var d1 := Base64ToBinary(d, RefKeys[0]).value;
    Base64ToBinaryFrame(d, RefKeys[0], k);
    Base64ToBinaryFrame(d1, RefKeys[1], k);
    Base64ToBinaryFrame(d, RefKeys[0], RefKeys[1]);
  }

  /**
   * Whatever its subtype, a `Binary` reference keeps its octets through both
   * validators, and comes back with subtype 0.
   */
  lemma SubtypeReset(d: Doc, k: string, b: seq<byte>, st: int)
    requires NotText(d, RefKeys[0]) && NotText(d, RefKeys[1])
    requires k in RefKeys && Lookup(d, k) == Some(Binary(b, st))
    ensures var r := Base64RefsToBinary(BinaryRefsToBase64(d)); r.Some? && Lookup(r.value, k) == Some(Binary(b, 0))
  {
    var d1 := BinaryRefsToBase64(d);
    BinaryRefsToBase64Frame(d, RefKeys[0]);
    BinaryRefsToBase64Frame(d, RefKeys[1]);
    EncodedRefDecodes(d, RefKeys[0]);
    EncodedRefDecodes(d, RefKeys[1]);
    AfterDefined(d1);
    Base64RefsToBinaryFrame(d1, k);
    Base64.DecodeEncode(b);
  }

  /** After the before-validator, a reference that was not text is either still not text or decodes. */
  lemma EncodedRefDecodes(d: Doc, k: string)
    requires NotText(d, k) && k in RefKeys
    ensures match Lookup(BinaryRefsToBase64(d), k)
      case Some(Str(s)) => Base64.Decode(s).Some?
      case _ => true
  {
    BinaryRefsToBase64Frame(d, k);
    if Lookup(d, k).Some? && Lookup(d, k).value.Binary? {
      Base64.DecodeEncode(Lookup(d, k).value.data);
    }
  }

  /** The after-validator succeeds when each text reference decodes. */
  lemma AfterDefined(d: Doc)
    requires forall k | k in RefKeys :: match Lookup(d, k)
      case Some(Str(s)) => Base64.Decode(s).Some?
      case _ => true
    ensures Base64RefsToBinary(d).Some?
  {
    var k0, k1 := RefKeys[0], RefKeys[1];
    assert k0 in RefKeys && k1 in RefKeys;
    Base64ToBinaryFrame(d, k0, k1);
  }

  /** Text that `b64decode` rejects in either reference rejects the whole payload. */
  lemma Base64RefsRejects(d: Doc, k: string, s: string)
    requires k in RefKeys && Lookup(d, k) == Some(Str(s)) && Base64.Decode(s).None?
    ensures Base64RefsToBinary(d) == None
  {
    if k == RefKeys[1] && Base64ToBinary(d, RefKeys[0]).Some? {
      Base64ToBinaryFrame(d, RefKeys[0], k);
    }
  }

  /** A reference sent as the text "AQID" is stored as the three octets 1, 2, 3. */
  lemma OrderRefAccepted(d: Doc)
    requires d == [("restaurants_id", Str("AQID")), ("order_id", Str("o1"))]
    ensures Base64RefsToBinary(d) == Some([("restaurants_id", Binary([1, 2, 3], 0)), ("order_id", Str("o1"))])
  {
    DecodeAqid();
    var d1 := [("restaurants_id", Binary([1, 2, 3], 0)), ("order_id", Str("o1"))];
    assert Lookup(d, RefKeys[0]) == Some(Str("AQID"));
    assert Put(d, RefKeys[0], Binary([1, 2, 3], 0)) == [(RefKeys[0], Binary([1, 2, 3], 0))] + d[1..];
    assert d1 == [(RefKeys[0], Binary([1, 2, 3], 0))] + d[1..];
    assert Base64ToBinary(d, RefKeys[0]) == Some(d1);
    assert Lookup(d1, RefKeys[1]) == None by {
      assert RefKeys[1] !in Keys(d1);
    }
  }

  lemma DecodeAqid()
    ensures Base64.Decode("AQID") == Some([1, 2, 3])
  {
    assert Base64.Encode([1, 2, 3]) == Base64.Quantum(1, 2, 3) + Base64.Encode([]);
    assert Base64.Quantum(1, 2, 3) == [Base64.CharOf(0), Base64.CharOf(16), Base64.CharOf(8), Base64.CharOf(3)];
    Base64.DecodeEncode([1, 2, 3]);
  }

  /** A reference sent as the text "A" (a lone sextet) is refused. */
  lemma OrderRefRefused(d: Doc)
    requires d == [("address_id", Str("A"))]
    ensures Base64RefsToBinary(d) == None
  {
    assert Base64.Decode("A") == None by {
      assert Base64.Discard("A") == "A";
    }
    assert Lookup(d, RefKeys[1]) == Some(Str("A"));
    Base64RefsRejects(d, RefKeys[1], "A");
  }

  /**
   * A reference whose text holds a non-ASCII character is refused, although
   * the decoder would drop a non-alphabet ASCII character in the same place.
   */
  lemma OrderRefNonAscii(d: Doc)
    requires d == [("address_id", Str("AQID\U{e9}"))]
    ensures Base64RefsToBinary(d) == None
    ensures Base64.Decode("AQID!") == Some([1, 2, 3])
  {
    assert !Base64.IsAscii("AQID\U{e9}") by {
      assert "AQID\U{e9}"[4] as int == 0xE9;
    }
    assert Lookup(d, RefKeys[1]) == Some(Str("AQID\U{e9}"));
    Base64RefsRejects(d, RefKeys[1], "AQID\U{e9}");
    assert Base64.Discard("AQID!") == "AQID" by {
      assert Base64.Discard("!") == "";
      assert "AQID!"[1..] == "QID!";
      assert "QID!"[1..] == "ID!";
      assert "ID!"[1..] == "D!";
      assert "D!"[1..] == "!";
    }
    DecodeAqid();
  }
}
