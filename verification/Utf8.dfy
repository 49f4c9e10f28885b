/**
  What the strings of the protocol are: the bytes accepted as text are exactly
  the encodings of Unicode scalar values (sections 3 and 4 of RFC 3629).
*/
module Utf8 {
  import opened Bytes
  import opened Postcard

  /** A Unicode scalar value: a code point that is no surrogate. */
  type Scalar = cp: int | 0 <= cp < 0xD800 || 0xE000 <= cp < 0x11_0000

  function EncodeScalar(cp: Scalar): (s: seq<uint8>)
    ensures 1 <= |s| <= 4
  {
    if cp < 0x80 then [cp]
    else if cp < 0x800 then [0xC0 + cp / 0x40, 0x80 + cp % 0x40]
    else if cp < 0x1_0000 then [0xE0 + cp / 0x1000, 0x80 + cp / 0x40 % 0x40, 0x80 + cp % 0x40]
    else [0xF0 + cp / 0x4_0000, 0x80 + cp / 0x1000 % 0x40, 0x80 + cp / 0x40 % 0x40, 0x80 + cp % 0x40]
  }

  function EncodeText(text: seq<Scalar>): seq<uint8> {
    if text == [] then [] else EncodeScalar(text[0]) + EncodeText(text[1..])
  }

  /** The encoding of a scalar value is accepted as one character, whatever follows. */
  lemma ScalarIsACharacter(cp: Scalar, s: seq<uint8>)
    ensures Utf8CharLength(EncodeScalar(cp) + s) == |EncodeScalar(cp)|
  {
    var b := EncodeScalar(cp) + s;
    assert forall i :: 0 <= i < |EncodeScalar(cp)| ==> b[i] == EncodeScalar(cp)[i];
    if 0x800 <= cp < 0x1_0000 {
      ThreeByteLead(cp);
    } else if cp >= 0x1_0000 {
      FourByteLead(cp);
    }
  }

  lemma ThreeByteLead(cp: Scalar)
    requires 0x800 <= cp < 0x1_0000
    ensures
      var lead, next := 0xE0 + cp / 0x1000, 0x80 + cp / 0x40 % 0x40;
      || (lead == 0xE0 && 0xA0 <= next <= 0xBF)
      || (0xE1 <= lead <= 0xEF && lead != 0xED && 0x80 <= next <= 0xBF)
      || (lead == 0xED && 0x80 <= next <= 0x9F)
  {
    assert cp / 0x40 == 0x40 * (cp / 0x1000) + cp / 0x40 % 0x40;
  }

  lemma FourByteLead(cp: Scalar)
    requires cp >= 0x1_0000
    ensures
      var lead, next := 0xF0 + cp / 0x4_0000, 0x80 + cp / 0x1000 % 0x40;
      || (lead == 0xF0 && 0x90 <= next <= 0xBF)
      || (0xF1 <= lead <= 0xF3 && 0x80 <= next <= 0xBF)
      || (lead == 0xF4 && 0x80 <= next <= 0x8F)
  {
    assert cp / 0x1000 == 0x40 * (cp / 0x4_0000) + cp / 0x1000 % 0x40;
  }

  /** The four digits to base 64 of a number. */
  lemma Digits(a: nat, b: nat, c: nat, d: nat)
    requires b < 0x40 && c < 0x40 && d < 0x40
    ensures
      var cp := a * 0x4_0000 + b * 0x1000 + c * 0x40 + d;
      && cp / 0x4_0000 == a
      && cp / 0x1000 == a * 0x40 + b && cp / 0x1000 % 0x40 == b
      && cp / 0x40 == a * 0x1000 + b * 0x40 + c && cp / 0x40 % 0x40 == c
      && cp % 0x40 == d
  {
    var cp := a * 0x4_0000 + b * 0x1000 + c * 0x40 + d;
    DivModUnique(cp, 0x4_0000, a, b * 0x1000 + c * 0x40 + d);
    DivModUnique(cp, 0x1000, a * 0x40 + b, c * 0x40 + d);
    DivModUnique(cp, 0x40, a * 0x1000 + b * 0x40 + c, d);
    DivModUnique(a * 0x40 + b, 0x40, a, b);
    DivModUnique(a * 0x1000 + b * 0x40 + c, 0x40, a * 0x40 + b, c);
  }

  /** And nothing else is: an accepted character is the encoding of some scalar value. */
  lemma CharacterIsAScalar(s: seq<uint8>) returns (cp: Scalar)
    requires Utf8CharLength(s) > 0
    ensures EncodeScalar(cp) == s[..Utf8CharLength(s)]
  {
    match Utf8CharLength(s)
    case 1 => cp := s[0];
    case 2 => cp := TwoBytes(s[0], s[1]);
    case 3 => cp := ThreeBytes(s[0], s[1], s[2]);
    case _ => cp := FourBytes(s[0], s[1], s[2], s[3]);
  }

  lemma TwoBytes(b0: int, b1: int) returns (cp: Scalar)
    requires 0xC2 <= b0 <= 0xDF && 0x80 <= b1 <= 0xBF
    ensures EncodeScalar(cp) == [b0, b1]
  {
    Digits(0, 0, b0 - 0xC0, b1 - 0x80);
    cp := (b0 - 0xC0) * 0x40 + (b1 - 0x80);
  }

  lemma ThreeBytes(b0: int, b1: int, b2: int) returns (cp: Scalar)
    requires 0xE0 <= b0 <= 0xEF && 0x80 <= b1 <= 0xBF && 0x80 <= b2 <= 0xBF
    requires (b0 == 0xE0 ==> b1 >= 0xA0) && (b0 == 0xED ==> b1 <= 0x9F)
    ensures EncodeScalar(cp) == [b0, b1, b2]
  {
    Digits(0, b0 - 0xE0, b1 - 0x80, b2 - 0x80);
    cp := (b0 - 0xE0) * 0x1000 + (b1 - 0x80) * 0x40 + (b2 - 0x80);
  }

  lemma FourBytes(b0: int, b1: int, b2: int, b3: int) returns (cp: Scalar)
    requires 0xF0 <= b0 <= 0xF4 && 0x80 <= b1 <= 0xBF && 0x80 <= b2 <= 0xBF && 0x80 <= b3 <= 0xBF
    requires (b0 == 0xF0 ==> b1 >= 0x90) && (b0 == 0xF4 ==> b1 <= 0x8F)
    ensures EncodeScalar(cp) == [b0, b1, b2, b3]
  {
    Digits(b0 - 0xF0, b1 - 0x80, b2 - 0x80, b3 - 0x80);
    cp := (b0 - 0xF0) * 0x4_0000 + (b1 - 0x80) * 0x1000 + (b2 - 0x80) * 0x40 + (b3 - 0x80);
  }

  lemma {:induction false} EncodedTextIsValid(text: seq<Scalar>)
    ensures ValidUtf8(EncodeText(text))
  {
    hide Utf8CharLength, EncodeScalar;
    if text != [] {
      var head, tail := EncodeScalar(text[0]), EncodeText(text[1..]);
      ScalarIsACharacter(text[0], tail);
      EncodedTextIsValid(text[1..]);
      assert (head + tail)[|head|..] == tail;
    }
  }

  lemma {:induction false} ValidTextIsEncoded(s: seq<uint8>) returns (text: seq<Scalar>)
    requires ValidUtf8(s)
    ensures EncodeText(text) == s
    decreases |s|
  {
    hide Utf8CharLength, EncodeScalar;
    if s == [] {
      text := [];
    } else {
      var n := Utf8CharLength(s);
      var cp := CharacterIsAScalar(s);
      var others := ValidTextIsEncoded(s[n..]);
      text := [cp] + others;
      assert text[1..] == others && s == s[..n] + s[n..];
    }
  }

  /** Bytes are accepted as text exactly when they encode some. */
  lemma TextIff(s: seq<uint8>)
    ensures ValidUtf8(s) <==> exists text :: EncodeText(text) == s
  {
    if ValidUtf8(s) {
      var text := ValidTextIsEncoded(s);
    }
    if text :| EncodeText(text) == s {
      EncodedTextIsValid(text);
    }
  }
}
