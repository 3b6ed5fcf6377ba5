/**
 * BSON ObjectIds and their transport form: `str(ObjectId)` is the id's twelve
 * octets written as 24 lower-case hexadecimal digits.
 */
module ObjectIds {
  import opened Common

  /** A BSON ObjectId: twelve octets. */
  type ObjectId = b: seq<byte> | |b| == 12 witness [0, 0, 0, 0, 0, 0, 0, 0, 0, 0, 0, 0]

  /** A lower-case hexadecimal digit. */
  function HexDigit(d: int): (c: char)
    requires 0 <= d < 16
    ensures DigitValue(c) == d
  {
    if d < 10 then ('0' as int + d) as char else ('a' as int + d - 10) as char
  }

  /** The value of a lower-case hexadecimal digit, or -1 for any other character. */
  function DigitValue(c: char): (d: int)
    ensures -1 <= d < 16
  {
    if '0' <= c <= '9' then c as int - '0' as int
    else if 'a' <= c <= 'f' then c as int - 'a' as int + 10
    else -1
  }

  /** Two digits per octet, high nibble first. */
  function Hex(b: seq<byte>): (s: string)
    decreases |b|
  {
    if |b| == 0 then [] else [HexDigit(b[0] / 16), HexDigit(b[0] % 16)] + Hex(b[1..])
  }

  /** `str(oid)` */
  function IdString(id: ObjectId): (s: string)
  {
    Hex(id)
  }

  /** Reads back a string of lower-case hexadecimal digit pairs. */
  function Unhex(s: string): (r: Option<seq<byte>>)
    decreases |s|
  {
    if |s| == 0 then Some([])
    else if |s| == 1 || DigitValue(s[0]) < 0 || DigitValue(s[1]) < 0 then None
    else
      match Unhex(s[2..])
      case None => None
      case Some(rest) => Some([DigitValue(s[0]) * 16 + DigitValue(s[1])] + rest)
  }

  lemma {:induction false} UnhexHex(b: seq<byte>)
    ensures Unhex(Hex(b)) == Some(b)
    decreases |b|
  {
    if |b| > 0 {
      var s := Hex(b);
      UnhexHex(b[1..]);
      assert s[2..] == Hex(b[1..]);
      assert b == [b[0] / 16 * 16 + b[0] % 16] + b[1..];
    }
  }

  lemma {:induction false} HexShape(b: seq<byte>)
    ensures |Hex(b)| == 2 * |b|
    ensures forall k :: 0 <= k < |Hex(b)| ==> DigitValue(Hex(b)[k]) >= 0
    decreases |b|
  {
    if |b| > 0 {
      HexShape(b[1..]);
    }
  }

  /** The transport form of an ObjectId is 24 lower-case hexadecimal digits. */
  lemma IdStringShape(id: ObjectId)
    ensures |IdString(id)| == 24
    ensures forall k :: 0 <= k < 24 ==> DigitValue(IdString(id)[k]) >= 0
  {
    HexShape(id);
  }

  /** Distinct ObjectIds have distinct transport forms. */
  lemma IdStringInjective(a: ObjectId, b: ObjectId)
    requires IdString(a) == IdString(b)
    ensures a == b
  {
    UnhexHex(a);
    UnhexHex(b);
  }
}
