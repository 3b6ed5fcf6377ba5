/**
 * Base64 with the standard alphabet and `=` padding (RFC 4648, section 4), as
 * Python's `base64.b64encode` writes it and `base64.b64decode` reads it, except
 * that padding `b64decode` tolerates in excess or before the end is refused.
 */
module Base64 {
  import opened Common

  /** The value-to-character table of RFC 4648, section 4 (Table 1). */
  function CharOf(i: int): (c: char)
    requires 0 <= i < 64
    ensures Sextet(c) == i
  {
    if i < 26 then ('A' as int + i) as char
    else if i < 52 then ('a' as int + (i - 26)) as char
    else if i < 62 then ('0' as int + (i - 52)) as char
    else if i == 62 then '+'
    else '/'
  }

  /** The table read backwards: the 6-bit value a character stands for, or -1 outside the alphabet. */
  function Sextet(c: char): (i: int)
    ensures -1 <= i < 64
  {
    if 'A' <= c <= 'Z' then c as int - 'A' as int
    else if 'a' <= c <= 'z' then c as int - 'a' as int + 26
    else if '0' <= c <= '9' then c as int - '0' as int + 52
    else if c == '+' then 62
    else if c == '/' then 63
    else -1
  }

  predicate IsAlphabet(c: char)
  {
    Sextet(c) >= 0
  }

  /** The table is a bijection between 0..63 and the alphabet. */
  lemma CharOfSextet(c: char)
    requires IsAlphabet(c)
    ensures CharOf(Sextet(c)) == c
  {
  }

  /** `base64.b64encode(b).decode('utf-8')`: each group of three octets becomes four characters. */
  function Encode(b: seq<byte>): (s: string)
    decreases |b|
  {
    if |b| == 0 then []
    else if |b| < 3 then Padded(b)
    else Quantum(b[0], b[1], b[2]) + Encode(b[3..])
  }

  /** The last one or two octets, padded with `=` to a quantum of four characters. */
  function Padded(b: seq<byte>): (q: string)
    requires 1 <= |b| <= 2
    ensures |q| == 4 && IsAlphabet(q[0]) && IsAlphabet(q[1]) && q[3] == '='
  {
    if |b| == 1 then [CharOf(b[0] / 4), CharOf(b[0] % 4 * 16), '=', '=']
    else [CharOf(b[0] / 4), CharOf(b[0] % 4 * 16 + b[1] / 16), CharOf(b[1] % 16 * 4), '=']
  }

  /** Three octets, 24 bits, as four 6-bit characters. */
  function Quantum(x: byte, y: byte, z: byte): (q: string)
    ensures |q| == 4 && IsAlphabet(q[0]) && IsAlphabet(q[1]) && IsAlphabet(q[2]) && IsAlphabet(q[3])
  {
    [CharOf(x / 4), CharOf(x % 4 * 16 + y / 16), CharOf(y % 16 * 4 + z / 64), CharOf(z % 64)]
  }

  /** Every encoding is padded to whole quanta of four characters. */
  lemma {:induction false} EncodeLength(b: seq<byte>)
    ensures |Encode(b)| == 4 * ((|b| + 2) / 3)
    decreases |b|
  {
    if |b| > 2 {
      EncodeLength(b[3..]);
      assert (|b| + 2) / 3 == (|b[3..]| + 2) / 3 + 1;
    }
  }

  /** An encoding uses only the alphabet and the pad character. */
  lemma {:induction false} EncodeIsText(b: seq<byte>)
    ensures forall k :: 0 <= k < |Encode(b)| ==> IsAlphabet(Encode(b)[k]) || Encode(b)[k] == '='
    decreases |b|
  {
    if |b| > 2 {
      EncodeIsText(b[3..]);
    }
  }

  /** The last quantum: two, three or four characters of the alphabet, padded with `=` to four. */
  function DecodeFinal(c0: char, c1: char, c2: char, c3: char): (r: Option<seq<byte>>)
    ensures r.Some? ==> 1 <= |r.value| <= 3
  {
    if !(IsAlphabet(c0) && IsAlphabet(c1)) then None
    else
      var a, b := Sextet(c0), Sextet(c1);
      if c2 == '=' && c3 == '=' then
        Some([a * 4 + b / 16])
      else if IsAlphabet(c2) && c3 == '=' then
        var c := Sextet(c2);
        Some([a * 4 + b / 16, b % 16 * 16 + c / 4])
      else if IsAlphabet(c2) && IsAlphabet(c3) then
        Some(Group(c0, c1, c2, c3))
      else None
  }

  /** Four characters of the alphabet carry 24 bits: three octets. */
  function Group(c0: char, c1: char, c2: char, c3: char): (g: seq<byte>)
    requires IsAlphabet(c0) && IsAlphabet(c1) && IsAlphabet(c2) && IsAlphabet(c3)
    ensures |g| == 3
  {
    var a, b, c, d := Sextet(c0), Sextet(c1), Sextet(c2), Sextet(c3);
    [a * 4 + b / 16, b % 16 * 16 + c / 4, c % 4 * 64 + d]
  }

  /** Strict decoding of a padded text whose length is a multiple of four. */
  function DecodeQuanta(s: string): (r: Option<seq<byte>>)
    decreases |s|
  {
    if |s| == 0 then Some([])
    else if |s| < 4 then None
    else if |s| == 4 then DecodeFinal(s[0], s[1], s[2], s[3])
    else if IsAlphabet(s[0]) && IsAlphabet(s[1]) && IsAlphabet(s[2]) && IsAlphabet(s[3]) then
      match DecodeQuanta(s[4..])
      case None => None
      case Some(rest) => Some(Group(s[0], s[1], s[2], s[3]) + rest)
    else None
  }

  /** `b64decode` accepts a `str` only when every character is ASCII; it raises `ValueError` otherwise. */
  predicate IsAscii(s: string)
  {
    forall k :: 0 <= k < |s| ==> s[k] as int < 128
  }

  /** Python's non-validating decoder then discards every ASCII character outside the alphabet and the pad. */
  function Discard(s: string): (t: string)
    ensures |t| <= |s|
    ensures forall k :: 0 <= k < |t| ==> IsAlphabet(t[k]) || t[k] == '='
  {
    if |s| == 0 then []
    else if IsAlphabet(s[0]) || s[0] == '=' then [s[0]] + Discard(s[1..])
    else Discard(s[1..])
  }

  /**
   * `base64.b64decode(s)`; `None` stands for the `ValueError` it raises on a
   * non-ASCII character and for the `binascii.Error` it raises on bad padding.
   */
  function Decode(s: string): (r: Option<seq<byte>>)
    ensures r.Some? ==> IsAscii(s)
  {
    if IsAscii(s) then DecodeQuanta(Discard(s)) else None
  }

  lemma {:induction false} DiscardKeepsText(s: string)
    requires forall k :: 0 <= k < |s| ==> IsAlphabet(s[k]) || s[k] == '='
    ensures Discard(s) == s
    decreases |s|
  {
    if |s| > 0 {
      DiscardKeepsText(s[1..]);
    }
  }

  /** One full quantum: the three octets come back from their four characters. */
  lemma DecodeGroup(x: byte, y: byte, z: byte)
    ensures var q := Quantum(x, y, z); Group(q[0], q[1], q[2], q[3]) == [x, y, z]
  {
    var a, b, c, d := x / 4, x % 4 * 16 + y / 16, y % 16 * 4 + z / 64, z % 64;
    assert b / 16 == x % 4 && b % 16 == y / 16;
    assert c / 4 == y % 16 && c % 4 == z / 64;
  }

  /** Decoding proceeds quantum by quantum. */
  lemma DecodeQuantaCons(q: string, t: string, rest: seq<byte>)
    requires |q| == 4 && IsAlphabet(q[0]) && IsAlphabet(q[1]) && IsAlphabet(q[2]) && IsAlphabet(q[3])
    requires DecodeQuanta(t) == Some(rest)
    ensures DecodeQuanta(q + t) == Some(Group(q[0], q[1], q[2], q[3]) + rest)
  {
    var s := q + t;
    assert s[4..] == t;
    assert s[0] == q[0] && s[1] == q[1] && s[2] == q[2] && s[3] == q[3];
    if t == [] {
      assert rest == [];
      assert Group(q[0], q[1], q[2], q[3]) + rest == Group(q[0], q[1], q[2], q[3]);
    }
  }

  /** A full leading quantum decodes to its three octets, ahead of whatever the rest decodes to. */
  lemma DecodeQuantaStep(b: seq<byte>)
    requires |b| >= 3 && DecodeQuanta(Encode(b[3..])) == Some(b[3..])
    ensures DecodeQuanta(Encode(b)) == Some(b)
  {
    var q := Quantum(b[0], b[1], b[2]);
    assert Encode(b) == q + Encode(b[3..]);
    DecodeQuantaCons(q, Encode(b[3..]), b[3..]);
    DecodeGroup(b[0], b[1], b[2]);
    SplitThree(b);
  }

  lemma SplitThree<T>(s: seq<T>)
    requires |s| >= 3
    ensures s == [s[0], s[1], s[2]] + s[3..]
  {
  }

  /** The padded last quantum decodes to the one or two octets it was made from. */
  lemma DecodePadded(b: seq<byte>)
    requires 1 <= |b| <= 2
    ensures var q := Padded(b); DecodeFinal(q[0], q[1], q[2], q[3]) == Some(b)
  {
    var x := b[0];
    if |b| == 1 {
      assert b == [x];
    } else {
      var y := b[1];
      assert b == [x, y];
    }
  }

  lemma {:induction false} DecodeQuantaEncode(b: seq<byte>)
    ensures DecodeQuanta(Encode(b)) == Some(b)
    decreases |b|
  {
    if |b| == 0 {
    } else if |b| < 3 {
      DecodePadded(b);
    } else {
      DecodeQuantaEncode(b[3..]);
      DecodeQuantaStep(b);
    }
  }

  /** Round trip: decoding an encoding gives the octets back, so `Encode` loses nothing. */
  lemma DecodeEncode(b: seq<byte>)
    ensures Decode(Encode(b)) == Some(b)
  {
    EncodeIsText(b);
    assert IsAscii(Encode(b));
    DiscardKeepsText(Encode(b));
    DecodeQuantaEncode(b);
  }

  /** Distinct octet strings never share an encoding. */
  lemma EncodeInjective(b1: seq<byte>, b2: seq<byte>)
    requires Encode(b1) == Encode(b2)
    ensures b1 == b2
  {
    DecodeEncode(b1);
    DecodeEncode(b2);
  }
}
