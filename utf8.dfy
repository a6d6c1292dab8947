/**
 * UTF-8 as defined by RFC 3629: the bit layout of section 3 (encoding) and
 * the well-formed byte sequence syntax of section 4 (decoding). Decoding is
 * strict: any byte sequence outside the syntax of section 4 (a stray
 * continuation byte, an overlong form, a surrogate, a value above U+10FFFF,
 * a truncated sequence) makes the whole decode fail.
 */
module Utf8 {
  import opened Wrappers

  newtype byte = x: int | 0 <= x < 0x100

  /** A Unicode scalar value: a code point that is not a surrogate. */
  predicate IsScalar(c: int) {
    0 <= c < 0xD800 || 0xE000 <= c < 0x11_0000
  }

  type CodePoint = c: int | IsScalar(c)

  /** UTF8-tail of section 4 of RFC 3629. */
  predicate IsTail(b: byte) {
    0x80 <= b <= 0xBF
  }

  /** The value carried by a continuation byte (its low six bits). */
  function Payload(b: byte): int
    requires IsTail(b)
  {
    b as int - 0x80
  }

  /**
   * Reads one well-formed UTF-8 character from the front of `s`: its scalar
   * value and the number of bytes it occupies, or None when the front of `s`
   * matches none of UTF8-1 .. UTF8-4.
   */
  function DecodeOne(s: seq<byte>): (r: Option<(CodePoint, nat)>)
    requires |s| > 0
    ensures r.Some? ==> 1 <= r.value.1 <= 4 && r.value.1 <= |s|
    ensures r.Some? ==> (r.value.1 == 1 <==> s[0] < 0x80)
    ensures r.Some? && r.value.1 == 1 ==> r.value.0 == s[0] as int
    ensures r.Some? && r.value.1 > 1 ==> r.value.0 >= 0x80 && forall i :: 0 <= i < r.value.1 ==> s[i] >= 0x80
  {
    var b0 := s[0] as int;
    if b0 <= 0x7F then
      Some((b0, 1))
    else if 0xC2 <= b0 <= 0xDF then
      if |s| >= 2 && IsTail(s[1]) then
        Some(((b0 - 0xC0) * 0x40 + Payload(s[1]), 2))
      else None
    else if 0xE0 <= b0 <= 0xEF then
      var lo := if b0 == 0xE0 then 0xA0 else 0x80;
      var hi := if b0 == 0xED then 0x9F else 0xBF;
      if |s| >= 3 && lo <= s[1] as int <= hi && IsTail(s[2]) then
        Some(((b0 - 0xE0) * 0x1000 + Payload(s[1]) * 0x40 + Payload(s[2]), 3))
      else None
    else if 0xF0 <= b0 <= 0xF4 then
      var lo := if b0 == 0xF0 then 0x90 else 0x80;
      var hi := if b0 == 0xF4 then 0x8F else 0xBF;
      if |s| >= 4 && lo <= s[1] as int <= hi && IsTail(s[2]) && IsTail(s[3]) then
        Some(((b0 - 0xF0) * 0x4_0000 + Payload(s[1]) * 0x1000 + Payload(s[2]) * 0x40 + Payload(s[3]), 4))
      else None
    else
      None
  }

  /** Decodes a whole byte sequence, or None if it is not well-formed UTF-8. */
  function Decode(s: seq<byte>): (r: Option<seq<CodePoint>>)
    decreases |s|
  {
    if s == [] then Some([])
    else match DecodeOne(s)
      case None => None
      case Some((c, n)) =>
        match Decode(s[n..])
        case None => None
        case Some(rest) => Some([c] + rest)
  }

  /** The encoding of one scalar value, following the table of section 3. */
  function EncodeOne(c: CodePoint): (r: seq<byte>)
  {
    assert IsScalar(c);
    if c < 0x80 then
      [c as byte]
    else if c < 0x800 then
      [(0xC0 + c / 0x40) as byte, (0x80 + c % 0x40) as byte]
    else if c < 0x1_0000 then
      [(0xE0 + c / 0x1000) as byte, (0x80 + (c / 0x40) % 0x40) as byte, (0x80 + c % 0x40) as byte]
    else
      assert c / 0x4_0000 <= 4;
      [(0xF0 + c / 0x4_0000) as byte, (0x80 + (c / 0x1000) % 0x40) as byte,
       (0x80 + (c / 0x40) % 0x40) as byte, (0x80 + c % 0x40) as byte]
  }

  function Encode(cs: seq<CodePoint>): (r: seq<byte>)
  {
    if cs == [] then [] else EncodeOne(cs[0]) + Encode(cs[1..])
  }

  /** Encoding one scalar value and reading it back yields the value and the encoding's length. */
  lemma EncodeOneDecodes(c: CodePoint, rest: seq<byte>)
    ensures DecodeOne(EncodeOne(c) + rest) == Some((c, |EncodeOne(c)|))
  {
    assert IsScalar(c);
    if c < 0x80 {
    } else if c < 0x800 {
      DecodeTwoEncoded(c, rest);
    } else if c < 0x1_0000 {
      DecodeThreeEncoded(c, rest);
    } else {
      DecodeFourEncoded(c, rest);
    }
  }

  lemma DecodeTwoEncoded(c: CodePoint, rest: seq<byte>)
    requires 0x80 <= c < 0x800
    ensures DecodeOne(EncodeOne(c) + rest) == Some((c, 2))
  {
    var s := EncodeOne(c) + rest;
    assert s[0] as int == 0xC0 + c / 0x40 && s[1] as int == 0x80 + c % 0x40;
    assert c == (c / 0x40) * 0x40 + c % 0x40;
  }

  lemma DecodeThreeEncoded(c: CodePoint, rest: seq<byte>)
    requires 0x800 <= c < 0x1_0000
    ensures DecodeOne(EncodeOne(c) + rest) == Some((c, 3))
  {
    var s := EncodeOne(c) + rest;
    var q := c / 0x40;
    assert s[0] as int == 0xE0 + c / 0x1000 && s[1] as int == 0x80 + q % 0x40 && s[2] as int == 0x80 + c % 0x40;
    assert c == q * 0x40 + c % 0x40;
    assert q == (q / 0x40) * 0x40 + q % 0x40;
    assert c / 0x1000 == q / 0x40;
    assert c / 0x1000 == 0 ==> q % 0x40 >= 0x20;
    assert c / 0x1000 == 0xD ==> q % 0x40 < 0x20 by {
      assert IsScalar(c);
    }
  }

  lemma DecodeFourEncoded(c: CodePoint, rest: seq<byte>)
    requires 0x1_0000 <= c
    ensures DecodeOne(EncodeOne(c) + rest) == Some((c, 4))
  {
    assert IsScalar(c);
    var s := EncodeOne(c) + rest;
    var q := c / 0x40;
    var q2 := q / 0x40;
    assert s[0] as int == 0xF0 + c / 0x4_0000 && s[1] as int == 0x80 + (c / 0x1000) % 0x40;
    assert s[2] as int == 0x80 + q % 0x40 && s[3] as int == 0x80 + c % 0x40;
    assert c == q * 0x40 + c % 0x40;
    assert q == q2 * 0x40 + q % 0x40;
    assert q2 == (q2 / 0x40) * 0x40 + q2 % 0x40;
    assert c / 0x1000 == q2;
    assert c / 0x4_0000 == q2 / 0x40;
  }

  /** A character read from the front of `s` is re-encoded as exactly the bytes it was read from. */
  lemma DecodeOneEncodes(s: seq<byte>)
    requires |s| > 0 && DecodeOne(s).Some?
    ensures EncodeOne(DecodeOne(s).value.0) == s[..DecodeOne(s).value.1]
  {
    var n := DecodeOne(s).value.1;
    if n == 2 {
      ReencodeTwo(s);
    } else if n == 3 {
      ReencodeThree(s);
    } else if n == 4 {
      ReencodeFour(s);
    }
  }

  lemma ReencodeTwo(s: seq<byte>)
    requires |s| >= 2 && 0xC2 <= s[0] <= 0xDF && IsTail(s[1])
    ensures DecodeOne(s).Some? && DecodeOne(s).value.1 == 2
    ensures EncodeOne(DecodeOne(s).value.0) == s[..2]
  {
    var c := DecodeOne(s).value.0;
    assert c == (s[0] as int - 0xC0) * 0x40 + Payload(s[1]);
    assert c / 0x40 == s[0] as int - 0xC0;
    assert c % 0x40 == Payload(s[1]);
  }

  lemma ReencodeThree(s: seq<byte>)
    requires |s| >= 3 && 0xE0 <= s[0] <= 0xEF && DecodeOne(s).Some?
    ensures DecodeOne(s).value.1 == 3
    ensures EncodeOne(DecodeOne(s).value.0) == s[..3]
  {
    var c := DecodeOne(s).value.0;
    var b, p1, p2 := s[0] as int - 0xE0, Payload(s[1]), Payload(s[2]);
    assert c == b * 0x1000 + p1 * 0x40 + p2;
    assert c / 0x40 == b * 0x40 + p1;
    assert c % 0x40 == p2;
    assert c / 0x1000 == b;
  }

  lemma ReencodeFour(s: seq<byte>)
    requires |s| >= 4 && 0xF0 <= s[0] <= 0xF4 && DecodeOne(s).Some?
    ensures DecodeOne(s).value.1 == 4
    ensures EncodeOne(DecodeOne(s).value.0) == s[..4]
  {
    var c := DecodeOne(s).value.0;
    var b, p1, p2, p3 := s[0] as int - 0xF0, Payload(s[1]), Payload(s[2]), Payload(s[3]);
    assert c == b * 0x4_0000 + p1 * 0x1000 + p2 * 0x40 + p3;
    assert c / 0x40 == b * 0x1000 + p1 * 0x40 + p2;
    assert c % 0x40 == p3;
    assert c / 0x1000 == b * 0x40 + p1;
    assert c / 0x4_0000 == b;
  }

  /** Round trip one way: decoding an encoding gives back the scalar values. */
  lemma {:induction false} DecodeEncode(cs: seq<CodePoint>)
    ensures Decode(Encode(cs)) == Some(cs)
  {
    if cs != [] {
      var e, tail := EncodeOne(cs[0]), Encode(cs[1..]);
      EncodeOneDecodes(cs[0], tail);
      assert (e + tail)[|e|..] == tail;
      DecodeEncode(cs[1..]);
      assert [cs[0]] + cs[1..] == cs;
    }
  }

  /** One step of a successful decode: the first character, then the decode of what follows it. */
  lemma DecodeStep(s: seq<byte>)
    requires s != [] && Decode(s).Some?
    ensures DecodeOne(s).Some?
    ensures Decode(s[DecodeOne(s).value.1..]).Some?
    ensures Decode(s).value == [DecodeOne(s).value.0] + Decode(s[DecodeOne(s).value.1..]).value
  {
  }

  /** Round trip the other way: whatever decodes is the encoding of what it decodes to. */
  lemma {:induction false} EncodeDecode(s: seq<byte>)
    requires Decode(s).Some?
    ensures Encode(Decode(s).value) == s
    decreases |s|
  {
    if s != [] {
      DecodeStep(s);
      var (c, n) := DecodeOne(s).value;
      var rest := Decode(s[n..]).value;
      assert EncodeOne(c) == s[..n] by {
        DecodeOneEncodes(s);
      }
      assert Encode(rest) == s[n..] by {
        EncodeDecode(s[n..]);
      }
      var cs := [c] + rest;
      assert Encode(cs) == EncodeOne(c) + Encode(rest) by {
        assert cs[0] == c && cs[1..] == rest;
      }
      assert s == s[..n] + s[n..];
    }
  }

  /** A byte sequence decodes exactly when it is the UTF-8 encoding of some text. */
  lemma WellFormedIffEncoding(s: seq<byte>)
    ensures Decode(s).Some? <==> exists cs: seq<CodePoint> :: Encode(cs) == s
  {
    if Decode(s).Some? {
      EncodeDecode(s);
    }
    forall cs: seq<CodePoint> | Encode(cs) == s
      ensures Decode(s).Some?
    {
      DecodeEncode(cs);
    }
  }

  /**
   * Every decoded character takes at least one byte, and exactly one only
   * when it is ASCII: the text is never longer than the bytes, and is as long
   * exactly when every byte is below 0x80.
   */
  lemma {:induction false} DecodedLength(s: seq<byte>)
    requires Decode(s).Some?
    ensures |Decode(s).value| <= |s|
    ensures |Decode(s).value| == |s| <==> forall i :: 0 <= i < |s| ==> s[i] < 0x80
    decreases |s|
  {
    if s != [] {
      var (c, n) := DecodeOne(s).value;
      DecodedLength(s[n..]);
      assert |Decode(s).value| == 1 + |Decode(s[n..]).value|;
      if n == 1 {
        assert forall i :: 1 <= i < |s| ==> s[i] == s[1..][i - 1];
      } else {
        assert s[0] >= 0x80;
      }
    }
  }

  /**
   * 0x0A never occurs inside a multi-byte sequence, so the number of line
   * feeds in the decoded text equals the number of 0x0A bytes.
   */
  lemma {:induction false} NewlinesAreBytes(s: seq<byte>)
    requires Decode(s).Some?
    ensures multiset(Decode(s).value)[0x0A] == multiset(s)[0x0A]
    decreases |s|
  {
    if s != [] {
      DecodeStep(s);
      var (c, n) := DecodeOne(s).value;
      var rest := Decode(s[n..]).value;
      assert multiset(rest)[0x0A] == multiset(s[n..])[0x0A] by {
        NewlinesAreBytes(s[n..]);
      }
      assert multiset([c])[0x0A] == multiset(s[..n])[0x0A] by {
        if n == 1 {
          assert s[..n] == [s[0]];
        } else {
          assert 0x0A !in s[..n];
        }
      }
      assert s == s[..n] + s[n..];
    }
  }

  /** Seven-bit text is its own encoding, one byte per character. */
  lemma {:induction false} EncodeAscii(cs: seq<CodePoint>)
    requires forall i :: 0 <= i < |cs| ==> cs[i] < 0x80
    ensures |Encode(cs)| == |cs|
    ensures forall i :: 0 <= i < |cs| ==> Encode(cs)[i] as int == cs[i]
  {
    if cs != [] {
      EncodeAscii(cs[1..]);
      assert Encode(cs) == [cs[0] as byte] + Encode(cs[1..]);
    }
  }
}
