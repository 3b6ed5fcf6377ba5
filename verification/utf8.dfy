/**
 * UTF-8 as defined by RFC 3629, section 4: the well-formed octet sequences,
 * their decoding into Unicode scalar values (what Python's `.decode('utf-8')`
 * accepts and returns) and the inverse encoding.
 */
module Utf8 {
  import opened Common

  /** UTF8-tail = %x80-BF */
  predicate IsTail(b: byte)
  {
    0x80 <= b <= 0xBF
  }

  /** The six payload bits of a continuation octet. */
  function Low6(b: byte): int
  {
    b as int % 64
  }

  /** The number of octets of the character a lead octet announces, or 0 if it cannot lead one. */
  function Width(lead: byte): (n: nat)
    ensures n <= 4
  {
    if lead <= 0x7F then 1
    else if 0xC2 <= lead <= 0xDF then 2
    else if 0xE0 <= lead <= 0xEF then 3
    else if 0xF0 <= lead <= 0xF4 then 4
    else 0
  }

  /** Lowest second octet allowed after a lead: excludes overlong forms. */
  function SecondLow(lead: byte): byte
  {
    if lead == 0xE0 then 0xA0 else if lead == 0xF0 then 0x90 else 0x80
  }

  /** Highest second octet allowed after a lead: excludes surrogates and values above U+10FFFF. */
  function SecondHigh(lead: byte): byte
  {
    if lead == 0xED then 0x9F else if lead == 0xF4 then 0x8F else 0xBF
  }

  /** `s` begins with one UTF8-char of the grammar of RFC 3629, section 4. */
  predicate StartsWithChar(s: seq<byte>)
  {
    && |s| > 0
    && var n := Width(s[0]);
    && n > 0 && |s| >= n
    && (n >= 2 ==> SecondLow(s[0]) <= s[1] <= SecondHigh(s[0]))
    && (n >= 3 ==> IsTail(s[2]))
    && (n == 4 ==> IsTail(s[3]))
  }

  /** UTF8-octets = *( UTF8-char ) */
  predicate WellFormed(s: seq<byte>)
    decreases |s|
  {
    |s| == 0 || (StartsWithChar(s) && WellFormed(s[Width(s[0])..]))
  }

  /** A Unicode scalar value: a code point that is not a surrogate. */
  predicate IsScalar(n: int)
  {
    (0 <= n < 0xD800) || (0xE000 <= n < 0x11_0000)
  }

  /** The scalar value carried by the character that starts `s`. */
  function ScalarOf(s: seq<byte>): (n: int)
    requires StartsWithChar(s)
    ensures IsScalar(n)
  {
    var w, b0 := Width(s[0]), s[0] as int;
    if w == 1 then b0
    else if w == 2 then (b0 - 0xC0) * 64 + Low6(s[1])
    else if w == 3 then (b0 - 0xE0) * 4096 + Low6(s[1]) * 64 + Low6(s[2])
    else (b0 - 0xF0) * 262144 + Low6(s[1]) * 4096 + Low6(s[2]) * 64 + Low6(s[3])
  }

  /** `bytes.decode('utf-8')`; `None` stands for the `UnicodeDecodeError` it raises. */
  function Decode(s: seq<byte>): (r: Option<string>)
    decreases |s|
  {
    if |s| == 0 then Some([])
    else if !StartsWithChar(s) then None
    else
      match Decode(s[Width(s[0])..])
      case None => None
      case Some(t) => Some([ScalarOf(s) as char] + t)
  }

  /** The shortest encoding of one scalar value. */
  function EncodeChar(c: char): (b: seq<byte>)
    ensures 1 <= |b| <= 4
  {
    var n := c as int;
    if n < 0x80 then [n]
    else if n < 0x800 then [0xC0 + n / 64, 0x80 + n % 64]
    else if n < 0x1_0000 then [0xE0 + n / 64 / 64, 0x80 + n / 64 % 64, 0x80 + n % 64]
    else [0xF0 + n / 64 / 64 / 64, 0x80 + n / 64 / 64 % 64, 0x80 + n / 64 % 64, 0x80 + n % 64]
  }

  /** `str.encode('utf-8')` */
  function Encode(t: string): (b: seq<byte>)
    decreases |t|
  {
    if |t| == 0 then [] else EncodeChar(t[0]) + Encode(t[1..])
  }

  /** Decoding succeeds exactly on the well-formed sequences. */
  lemma {:induction false} DecodeDefinedIffWellFormed(s: seq<byte>)
    ensures Decode(s).Some? <==> WellFormed(s)
    decreases |s|
  {
    if |s| > 0 && StartsWithChar(s) {
      DecodeDefinedIffWellFormed(s[Width(s[0])..]);
    }
  }

  /** Euclidean division by 64, stated for the solver. */
  lemma DivMod64(q: int, r: int)
    requires 0 <= r < 64
    ensures (q * 64 + r) / 64 == q && (q * 64 + r) % 64 == r
  {
    var n := q * 64 + r;
    assert n == n / 64 * 64 + n % 64;
    assert (n / 64 - q) * 64 == r - n % 64;
  }

  /** An encoded character is one well-formed character of the grammar, and it carries `c`. */
  lemma EncodeCharStarts(c: char, rest: seq<byte>)
    ensures var e := EncodeChar(c);
      StartsWithChar(e + rest) && Width(e[0]) == |e| && ScalarOf(e + rest) == c as int
  {
    var n := c as int;
    if n < 0x80 {
    } else if n < 0x800 {
      EncodeTwo(n, rest);
    } else if n < 0x1_0000 {
      EncodeThree(n, rest);
    } else {
      EncodeFour(n, rest);
    }
  }

  lemma EncodeTwo(n: int, rest: seq<byte>)
    requires 0x80 <= n < 0x800
    ensures var s := [0xC0 + n / 64, 0x80 + n % 64] + rest;
      StartsWithChar(s) && Width(s[0]) == 2 && ScalarOf(s) == n
  {
    DivMod64(n / 64, n % 64);
  }

  lemma EncodeThree(n: int, rest: seq<byte>)
    requires 0x800 <= n < 0x1_0000 && IsScalar(n)
    ensures var s := [0xE0 + n / 64 / 64, 0x80 + n / 64 % 64, 0x80 + n % 64] + rest;
      StartsWithChar(s) && Width(s[0]) == 3 && ScalarOf(s) == n
  {
    var s := [0xE0 + n / 64 / 64, 0x80 + n / 64 % 64, 0x80 + n % 64] + rest;
    var hi, mid, lo := n / 64 / 64, n / 64 % 64, n % 64;
    assert n == (hi * 64 + mid) * 64 + lo;
    assert Low6(s[1]) == mid && Low6(s[2]) == lo;
  }

  lemma EncodeFour(n: int, rest: seq<byte>)
    requires 0x1_0000 <= n < 0x11_0000
    ensures var s := [0xF0 + n / 64 / 64 / 64, 0x80 + n / 64 / 64 % 64, 0x80 + n / 64 % 64, 0x80 + n % 64] + rest;
      StartsWithChar(s) && Width(s[0]) == 4 && ScalarOf(s) == n
  {
    var s := [0xF0 + n / 64 / 64 / 64, 0x80 + n / 64 / 64 % 64, 0x80 + n / 64 % 64, 0x80 + n % 64] + rest;
    var top, hi, mid, lo := n / 64 / 64 / 64, n / 64 / 64 % 64, n / 64 % 64, n % 64;
    assert n == ((top * 64 + hi) * 64 + mid) * 64 + lo;
    assert Low6(s[1]) == hi && Low6(s[2]) == mid && Low6(s[3]) == lo;
  }

  /** The character that starts a well-formed sequence is encoded by exactly its octets. */
  lemma EncodeScalarOf(s: seq<byte>)
    requires StartsWithChar(s)
    ensures EncodeChar(ScalarOf(s) as char) == s[..Width(s[0])]
  {
    var w := Width(s[0]);
    if w == 2 {
      ScalarTwo(s[0], s[1]);
    } else if w == 3 {
      ScalarThree(s[0], s[1], s[2]);
    } else if w == 4 {
      ScalarFour(s[0], s[1], s[2], s[3]);
    }
  }

  lemma ScalarTwo(b0: byte, b1: byte)
    requires 0xC2 <= b0 <= 0xDF && IsTail(b1)
    ensures var n := (b0 as int - 0xC0) * 64 + Low6(b1);
      0x80 <= n < 0x800 && [0xC0 + n / 64, 0x80 + n % 64] == [b0, b1]
  {
    DivMod64(b0 as int - 0xC0, Low6(b1));
  }

  lemma ScalarThree(b0: byte, b1: byte, b2: byte)
    requires 0xE0 <= b0 <= 0xEF && SecondLow(b0) <= b1 <= SecondHigh(b0) && IsTail(b2)
    ensures var n := (b0 as int - 0xE0) * 4096 + Low6(b1) * 64 + Low6(b2);
      0x800 <= n < 0x1_0000 && [0xE0 + n / 64 / 64, 0x80 + n / 64 % 64, 0x80 + n % 64] == [b0, b1, b2]
  {
    var t, h, l := b0 as int - 0xE0, Low6(b1), Low6(b2);
    DivMod64(t * 64 + h, l);
    DivMod64(t, h);
  }

  lemma ScalarFour(b0: byte, b1: byte, b2: byte, b3: byte)
    requires 0xF0 <= b0 <= 0xF4 && SecondLow(b0) <= b1 <= SecondHigh(b0) && IsTail(b2) && IsTail(b3)
    ensures var n := (b0 as int - 0xF0) * 262144 + Low6(b1) * 4096 + Low6(b2) * 64 + Low6(b3);
      0x1_0000 <= n < 0x11_0000
      && 0xF0 + n / 64 / 64 / 64 == b0 as int && 0x80 + n / 64 / 64 % 64 == b1 as int
      && 0x80 + n / 64 % 64 == b2 as int && 0x80 + n % 64 == b3 as int
  {
    var t, h, m, l := b0 as int - 0xF0, Low6(b1), Low6(b2), Low6(b3);
    DivMod64((t * 64 + h) * 64 + m, l);
    DivMod64(t * 64 + h, m);
    DivMod64(t, h);
  }

  /** Round trip: every string survives encoding and decoding. */
  lemma {:induction false} DecodeEncode(t: string)
    ensures Decode(Encode(t)) == Some(t)
    decreases |t|
  {
    if |t| > 0 {
      var e, rest := EncodeChar(t[0]), Encode(t[1..]);
      EncodeCharStarts(t[0], rest);
      assert (e + rest)[|e|..] == rest;
      DecodeEncode(t[1..]);
      assert t == [t[0]] + t[1..];
    }
  }

  /** Round trip the other way: what decodes to `t` is exactly the encoding of `t`. */
  lemma {:induction false} EncodeDecode(s: seq<byte>, t: string)
    requires Decode(s) == Some(t)
    ensures Encode(t) == s
    decreases |s|
  {
    if |s| > 0 {
      var w := Width(s[0]);
      EncodeScalarOf(s);
      EncodeDecode(s[w..], t[1..]);
      assert s == s[..w] + s[w..];
    }
  }
}
