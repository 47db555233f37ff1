/** Runes as code points: the decoder reads exactly what the encoding of RFC 3629 writes. */
module Utf8 {
  import opened Runes

  /** The code point of a rune; a byte that starts no valid sequence reads as the replacement character. */
  function CodePoint(r: Rune): int {
    if |r| == 1 then if r[0] < 0x80 then r[0] else 0xFFFD
    else if |r| == 2 then 64 * (r[0] as int - 0xC0) + (r[1] as int - 0x80)
    else if |r| == 3 then 4096 * (r[0] as int - 0xE0) + 64 * (r[1] as int - 0x80) + (r[2] as int - 0x80)
    else if |r| == 4 then 262144 * (r[0] as int - 0xF0) + 4096 * (r[1] as int - 0x80) + 64 * (r[2] as int - 0x80) + (r[3] as int - 0x80)
    else 0xFFFD
  }

  /** The code points that can be encoded: all but the surrogates. */
  predicate Scalar(c: int) {
    0 <= c <= 0x10FFFF && !(0xD800 <= c <= 0xDFFF)
  }

  /** Section 3 of RFC 3629. */
  function Encode(c: int): (r: Rune)
    requires Scalar(c)
    ensures r != []
  {
    var q := c / 64;
    if c < 0x80 then [c]
    else if c < 0x800 then [0xC0 + q, 0x80 + c % 64]
    else if c < 0x10000 then [0xE0 + q / 64, 0x80 + q % 64, 0x80 + c % 64]
    else [0xF0 + q / 64 / 64, 0x80 + q / 64 % 64, 0x80 + q % 64, 0x80 + c % 64]
  }

  lemma CodePointOfEncoding(c: int)
    requires Scalar(c)
    ensures CodePoint(Encode(c)) == c
  {
    var q := c / 64;
    var p := q / 64;
    assert c == 64 * q + c % 64 && q == 64 * p + q % 64 && p == 64 * (p / 64) + p % 64;
  }

  /** What was encoded is read back, whatever follows it. */
  lemma EncodedIsRead(c: int, rest: seq<byte>)
    requires Scalar(c)
    ensures RuneLen(Encode(c) + rest) == |Encode(c)|
    ensures Runes.Decode(Encode(c) + rest) == [Encode(c)] + Runes.Decode(rest)
  {
    var s := Encode(c) + rest;
    assert s[..|Encode(c)|] == Encode(c) && s[|Encode(c)|..] == rest;
    LengthOfEncoding(c, rest);
  }

  lemma LengthOfEncoding(c: int, rest: seq<byte>)
    requires Scalar(c)
    ensures RuneLen(Encode(c) + rest) == |Encode(c)|
  {
    var e := Encode(c);
    var s := e + rest;
    assert forall i :: 0 <= i < |e| ==> s[i] == e[i];
  }

  /** A rune of several octets is the encoding of its code point: nothing else is accepted. */
  lemma OnlyEncodingsAreRead(s: seq<byte>)
    requires s != [] && RuneLen(s) > 1
    ensures Scalar(CodePoint(s[..RuneLen(s)])) && CodePoint(s[..RuneLen(s)]) >= 0x80 && Encode(CodePoint(s[..RuneLen(s)])) == s[..RuneLen(s)]
  {
    var r := s[..RuneLen(s)];
    assert forall i :: 0 <= i < |r| ==> r[i] == s[i];
    if |r| == 2 {
      TwoOctets(r);
    } else if |r| == 3 {
      ThreeOctets(r);
    } else {
      FourOctets(r);
    }
  }

  lemma TwoOctets(r: Rune)
    requires |r| == 2 && 0xC2 <= r[0] <= 0xDF && Continuation(r[1])
    ensures Scalar(CodePoint(r)) && CodePoint(r) >= 0x80 && Encode(CodePoint(r)) == r
  {
  }

  lemma ThreeOctets(r: Rune)
    requires |r| == 3 && 0xE0 <= r[0] <= 0xEF && SecondByteAccepted(r[0], r[1]) && Continuation(r[2])
    ensures Scalar(CodePoint(r)) && CodePoint(r) >= 0x80 && Encode(CodePoint(r)) == r
  {
  }

  lemma FourOctets(r: Rune)
    requires |r| == 4 && 0xF0 <= r[0] <= 0xF4 && SecondByteAccepted(r[0], r[1]) && Continuation(r[2]) && Continuation(r[3])
    ensures Scalar(CodePoint(r)) && CodePoint(r) >= 0x80 && Encode(CodePoint(r)) == r
  {
    var x, y, z, w := r[0] as int - 0xF0, r[1] as int - 0x80, r[2] as int - 0x80, r[3] as int - 0x80;
    var c := CodePoint(r);
    Quotient(4096 * x + 64 * y + z, w);
    Quotient(64 * x + y, z);
    Quotient(x, y);
  }

  lemma Quotient(q: int, w: int)
    requires 0 <= w < 64
    ensures (64 * q + w) / 64 == q && (64 * q + w) % 64 == w
  {
  }
}
