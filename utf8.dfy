/**
 * UTF-8 as section 4 of RFC 3629 defines its well-formed byte sequences,
 * which is what a CharsetDecoder for UTF-8 set to report malformed input
 * accepts: no overlong forms, no encoded surrogates, nothing above U+10FFFF.
 * Text is a `string`, a sequence of Unicode scalar values.
 */
module Utf8 {
  import opened JavaTypes

  /** A continuation byte, UTF8-tail in the grammar: 80..BF. */
  predicate Tail(b: octet) {
    0x80 <= b <= 0xBF
  }

  /** The six payload bits of a continuation byte. */
  function Low(b: octet): int {
    b as int - 0x80
  }

  /** A Unicode scalar value: a code point that is not a surrogate. */
  predicate IsScalar(n: int) {
    0 <= n < 0xD800 || 0xE000 <= n < 0x11_0000
  }

  /**
   * The first character of `b` and how many bytes it takes, following the
   * rows of the grammar of section 4 of RFC 3629 (UTF8-1 .. UTF8-4); None
   * when no row matches the start of `b`.
   */
  function DecodeOne(b: seq<octet>): (r: Option<(char, nat)>)
    ensures r.Some? ==> 1 <= r.value.1 <= |b| && r.value.1 <= 4
  {
    if |b| == 0 then None
    else if b[0] < 0x80 then Some((b[0] as char, 1))
    else if 0xC2 <= b[0] <= 0xDF then
      if |b| >= 2 && Tail(b[1]) then
        var n := (b[0] as int - 0xC0) * 0x40 + Low(b[1]);
        Some((n as char, 2))
      else None
    else if 0xE0 <= b[0] <= 0xEF then
      var lo := if b[0] == 0xE0 then 0xA0 else 0x80;
      var hi := if b[0] == 0xED then 0x9F else 0xBF;
      if |b| >= 3 && lo <= b[1] <= hi && Tail(b[2]) then
        var n := (b[0] as int - 0xE0) * 0x1000 + Low(b[1]) * 0x40 + Low(b[2]);
        Some((n as char, 3))
      else None
    else if 0xF0 <= b[0] <= 0xF4 then
      var lo := if b[0] == 0xF0 then 0x90 else 0x80;
      var hi := if b[0] == 0xF4 then 0x8F else 0xBF;
      if |b| >= 4 && lo <= b[1] <= hi && Tail(b[2]) && Tail(b[3]) then
        var n := (b[0] as int - 0xF0) * 0x4_0000 + Low(b[1]) * 0x1000 + Low(b[2]) * 0x40 + Low(b[3]);
        Some((n as char, 4))
      else None
    else None
  }

  /** The text `b` encodes, or None when `b` is not well-formed UTF-8. */
  function Decode(b: seq<octet>): (r: Option<string>)
    decreases |b|
  {
    if b == [] then Some([])
    else match DecodeOne(b)
      case None => None
      case Some((c, n)) =>
        match Decode(b[n..])
        case None => None
        case Some(rest) => Some([c] + rest)
  }

  /** The shortest encoding of one scalar value, the only one RFC 3629 allows. */
  function EncodeChar(c: char): (r: seq<octet>)
    ensures 1 <= |r| <= 4
  {
    var n := c as int;
    if n < 0x80 then [n as octet]
    else if n < 0x800 then [(0xC0 + n / 0x40) as octet, (0x80 + n % 0x40) as octet]
    else if n < 0x1_0000 then
      [(0xE0 + n / 0x1000) as octet, (0x80 + n / 0x40 % 0x40) as octet, (0x80 + n % 0x40) as octet]
    else
      [(0xF0 + n / 0x4_0000) as octet, (0x80 + n / 0x1000 % 0x40) as octet,
       (0x80 + n / 0x40 % 0x40) as octet, (0x80 + n % 0x40) as octet]
  }

  /** The UTF-8 encoding of a text, character by character. */
  function Encode(s: string): (r: seq<octet>)
    ensures |r| >= |s|
  {
    if s == [] then [] else EncodeChar(s[0]) + Encode(s[1..])
  }

  /** A byte sequence is well-formed when it is the encoding of some text. */
  ghost predicate WellFormed(b: seq<octet>) {
    exists s :: Encode(s) == b
  }

  /** Three six-bit groups of a value below 2^18. */
  lemma Split3(n: int)
    requires 0 <= n
    ensures n == n / 0x1000 * 0x1000 + n / 0x40 % 0x40 * 0x40 + n % 0x40
  {
    assert n / 0x1000 == n / 0x40 / 0x40;
  }

  /** Four six-bit groups: the lowest one, then three groups of the value shifted by six bits. */
  lemma Split4(n: int)
    requires 0 <= n
    ensures n == n / 0x4_0000 * 0x4_0000 + n / 0x1000 % 0x40 * 0x1000 + n / 0x40 % 0x40 * 0x40 + n % 0x40
  {
    var q := n / 0x40;
    Split3(q);
    assert q / 0x1000 == n / 0x4_0000;
    assert q / 0x40 == n / 0x1000;
  }

  /** Decoding the encoding of a character gives it back and consumes exactly its bytes. */
  lemma DecodeOneEncodeChar(c: char, rest: seq<octet>)
    ensures DecodeOne(EncodeChar(c) + rest) == Some((c, |EncodeChar(c)|))
  {
    var n := c as int;
    if n < 0x80 {
    } else if n < 0x800 {
      DecodeTwo(c, rest);
    } else if n < 0x1_0000 {
      DecodeThree(c, rest);
    } else {
      DecodeFour(c, rest);
    }
  }

  lemma DecodeTwo(c: char, rest: seq<octet>)
    requires 0x80 <= c as int < 0x800
    ensures DecodeOne(EncodeChar(c) + rest) == Some((c, 2))
  {
    var n := c as int;
    var b := EncodeChar(c) + rest;
    assert b[0] as int == 0xC0 + n / 0x40 && b[1] as int == 0x80 + n % 0x40;
  }

  lemma DecodeThree(c: char, rest: seq<octet>)
    requires 0x800 <= c as int < 0x1_0000
    ensures DecodeOne(EncodeChar(c) + rest) == Some((c, 3))
  {
    var n := c as int;
    var b := EncodeChar(c) + rest;
    Split3(n);
    assert b[0] as int == 0xE0 + n / 0x1000;
    assert b[1] as int == 0x80 + n / 0x40 % 0x40 && b[2] as int == 0x80 + n % 0x40;
  }

  lemma DecodeFour(c: char, rest: seq<octet>)
    requires 0x1_0000 <= c as int
    ensures DecodeOne(EncodeChar(c) + rest) == Some((c, 4))
  {
    var n := c as int;
    var b := EncodeChar(c) + rest;
    Split4(n);
    assert b[0] as int == 0xF0 + n / 0x4_0000;
    assert b[1] as int == 0x80 + n / 0x1000 % 0x40;
    assert b[2] as int == 0x80 + n / 0x40 % 0x40 && b[3] as int == 0x80 + n % 0x40;
  }

  /** What DecodeOne accepts is exactly the encoding of the character it returns. */
  lemma DecodeOneIsEncoding(b: seq<octet>)
    requires DecodeOne(b).Some?
    ensures b[..DecodeOne(b).value.1] == EncodeChar(DecodeOne(b).value.0)
  {
    if b[0] < 0x80 {
    } else if b[0] <= 0xDF {
      TwoIsEncoding(b);
    } else if b[0] <= 0xEF {
      ThreeIsEncoding(b);
    } else {
      FourIsEncoding(b);
    }
  }

  lemma TwoIsEncoding(b: seq<octet>)
    requires |b| >= 2 && 0xC2 <= b[0] <= 0xDF && Tail(b[1])
    ensures DecodeOne(b).Some? && b[..2] == EncodeChar(DecodeOne(b).value.0)
  {
    var n := (b[0] as int - 0xC0) * 0x40 + Low(b[1]);
    assert DecodeOne(b) == Some((n as char, 2));
    assert n / 0x40 == b[0] as int - 0xC0 && n % 0x40 == Low(b[1]);
  }

  lemma ThreeIsEncoding(b: seq<octet>)
    requires DecodeOne(b).Some? && 0xE0 <= b[0] <= 0xEF
    ensures b[..3] == EncodeChar(DecodeOne(b).value.0)
  {
    var n := (b[0] as int - 0xE0) * 0x1000 + Low(b[1]) * 0x40 + Low(b[2]);
    assert DecodeOne(b).value.0 as int == n;
    assert n / 0x1000 == b[0] as int - 0xE0;
    assert n / 0x40 == (b[0] as int - 0xE0) * 0x40 + Low(b[1]);
    assert n / 0x40 % 0x40 == Low(b[1]) && n % 0x40 == Low(b[2]);
  }

  lemma FourIsEncoding(b: seq<octet>)
    requires DecodeOne(b).Some? && 0xF0 <= b[0]
    ensures b[..4] == EncodeChar(DecodeOne(b).value.0)
  {
    var n := (b[0] as int - 0xF0) * 0x4_0000 + Low(b[1]) * 0x1000 + Low(b[2]) * 0x40 + Low(b[3]);
    assert DecodeOne(b).value.0 as int == n;
    assert n / 0x4_0000 == b[0] as int - 0xF0;
    assert n / 0x1000 == (b[0] as int - 0xF0) * 0x40 + Low(b[1]);
    assert n / 0x40 == (b[0] as int - 0xF0) * 0x1000 + Low(b[1]) * 0x40 + Low(b[2]);
    assert n / 0x1000 % 0x40 == Low(b[1]) && n / 0x40 % 0x40 == Low(b[2]) && n % 0x40 == Low(b[3]);
  }

  /** Encoding then decoding gives the text back. */
  lemma {:induction false} DecodeEncode(s: string)
    ensures Decode(Encode(s)) == Some(s)
  {
    if s != [] {
      var e := EncodeChar(s[0]);
      DecodeOneEncodeChar(s[0], Encode(s[1..]));
      assert (e + Encode(s[1..]))[|e|..] == Encode(s[1..]);
      DecodeEncode(s[1..]);
      assert [s[0]] + s[1..] == s;
    }
  }

  /**
   * One step of a successful decode: the first character `c` takes the
   * first `k` bytes, which are its encoding, and the rest decodes too.
   */
  lemma DecodeStep(b: seq<octet>) returns (c: char, k: nat)
    requires b != [] && Decode(b).Some?
    ensures 1 <= k <= |b| && b[..k] == EncodeChar(c) && Decode(b[k..]).Some?
    ensures Decode(b).value == [c] + Decode(b[k..]).value
  {
    c, k := DecodeOne(b).value.0, DecodeOne(b).value.1;
    DecodeOneIsEncoding(b);
  }

  /** Whatever decodes is the encoding of what it decodes to. */
  lemma {:induction false} EncodeDecode(b: seq<octet>)
    requires Decode(b).Some?
    ensures Encode(Decode(b).value) == b
  {
    if b != [] {
      var c, k := DecodeStep(b);
      var tail := b[k..];
      EncodeDecode(tail);
      EncodeCons(c, Decode(tail).value);
      assert b == b[..k] + tail;
    }
  }

  lemma EncodeCons(c: char, s: string)
    ensures Encode([c] + s) == EncodeChar(c) + Encode(s)
  {
    assert ([c] + s)[1..] == s;
  }

  /** The decoder accepts exactly the well-formed sequences. */
  lemma DecodeAcceptsWellFormed(b: seq<octet>)
    ensures Decode(b).Some? <==> WellFormed(b)
  {
    if Decode(b).Some? {
      EncodeDecode(b);
    }
    if WellFormed(b) {
      var s :| Encode(s) == b;
      DecodeEncode(s);
    }
  }

  /** Each text has one encoding and each well-formed sequence one text. */
  lemma EncodeInjective(s: string, t: string)
    requires Encode(s) == Encode(t)
    ensures s == t
  {
    DecodeEncode(s);
    DecodeEncode(t);
  }

  /** The overlong two-byte form of U+0000 is refused. */
  lemma OverlongRefused()
    ensures Decode([0xC0, 0x80]) == None
  {
  }

  /** An encoded surrogate (U+D800) is refused. */
  lemma SurrogateRefused()
    ensures Decode([0xED, 0xA0, 0x80]) == None
  {
  }

  /** The four-byte form of U+110000, above the last code point, is refused. */
  lemma BeyondRangeRefused()
    ensures Decode([0xF4, 0x90, 0x80, 0x80]) == None
  {
  }

  /** A truncated three-byte sequence is refused. */
  lemma TruncatedRefused()
    ensures Decode([0xE2, 0x82]) == None
  {
  }
}
