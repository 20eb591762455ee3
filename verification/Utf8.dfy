/** UTF-8 (section 3 of RFC 3629): the encoder, and the decoder with errors="replace" that turns
    each maximal ill-formed subpart into U+FFFD. */
module Utf8 {
  import opened Bytes

  /** Unicode scalar values: code points without the surrogates. */
  type Scalar = c: int | 0 <= c < 0xD800 || 0xE000 <= c < 0x11_0000

  const REPLACEMENT: Scalar := 0xFFFD

  function Encode(c: Scalar): (s: seq<Byte>)
    ensures 1 <= |s| <= 4
  {
    if c < 0x80 then [c]
    else if c < 0x800 then [0xC0 + c / 0x40, 0x80 + c % 0x40]
    else if c < 0x1_0000 then [0xE0 + c / 0x1000, 0x80 + c / 0x40 % 0x40, 0x80 + c % 0x40]
    else [0xF0 + c / 0x4_0000, 0x80 + c / 0x1000 % 0x40, 0x80 + c / 0x40 % 0x40, 0x80 + c % 0x40]
  }

  function EncodeAll(text: seq<Scalar>): seq<Byte> {
    if text == [] then [] else Encode(text[0]) + EncodeAll(text[1..])
  }

  predicate Continues(b: Byte) {
    0x80 <= b < 0xC0
  }

  /** The second bytes that keep a three- or four-byte sequence shortest, off the surrogates and
      within range. */
  predicate SecondOk(lead: Byte, b: Byte) {
    && Continues(b)
    && (lead == 0xE0 ==> b >= 0xA0) && (lead == 0xED ==> b < 0xA0)
    && (lead == 0xF0 ==> b >= 0x90) && (lead == 0xF4 ==> b < 0x90)
  }

  datatype Step = Step(scalar: Scalar, used: nat)

  function ThreeBytes(s: seq<Byte>): (r: Step)
    requires |s| > 0 && 0xE0 <= s[0] < 0xF0
    ensures 0 < r.used <= |s|
  {
    if |s| < 2 || !SecondOk(s[0], s[1]) then Step(REPLACEMENT, 1)
    else if |s| < 3 || !Continues(s[2]) then Step(REPLACEMENT, 2)
    else
      var a: int, b: int, c: int := s[0], s[1], s[2];
      Step((a - 0xE0) * 0x1000 + (b - 0x80) * 0x40 + (c - 0x80), 3)
  }

  function FourBytes(s: seq<Byte>): (r: Step)
    requires |s| > 0 && 0xF0 <= s[0] < 0xF5
    ensures 0 < r.used <= |s|
  {
    if |s| < 2 || !SecondOk(s[0], s[1]) then Step(REPLACEMENT, 1)
    else if |s| < 3 || !Continues(s[2]) then Step(REPLACEMENT, 2)
    else if |s| < 4 || !Continues(s[3]) then Step(REPLACEMENT, 3)
    else
      var a: int, b: int, c: int, d: int := s[0], s[1], s[2], s[3];
      Step((a - 0xF0) * 0x4_0000 + (b - 0x80) * 0x1000 + (c - 0x80) * 0x40 + (d - 0x80), 4)
  }

  /** The first character of a non-empty byte string, and the bytes it takes. */
  function DecodeOne(s: seq<Byte>): (r: Step)
    requires |s| > 0
    ensures 0 < r.used <= |s|
  {
    var a: int := s[0];
    if a < 0x80 then Step(a, 1)
    else if 0xC2 <= a < 0xE0 then
      if |s| < 2 || !Continues(s[1]) then Step(REPLACEMENT, 1)
      else
        var b: int := s[1];
        Step((a - 0xC0) * 0x40 + (b - 0x80), 2)
    else if 0xE0 <= a < 0xF0 then ThreeBytes(s)
    else if 0xF0 <= a < 0xF5 then FourBytes(s)
    else Step(REPLACEMENT, 1)
  }

  function DecodeAll(s: seq<Byte>): seq<Scalar> {
    if s == [] then [] else var r := DecodeOne(s); [r.scalar] + DecodeAll(s[r.used..])
  }

  /** ASCII bytes are their own text. */
  lemma {:induction false} DecodeAscii(s: seq<Byte>)
    requires forall i :: 0 <= i < |s| ==> s[i] < 0x80
    ensures |DecodeAll(s)| == |s| && forall i :: 0 <= i < |s| ==> DecodeAll(s)[i] == s[i]
  {
    if s != [] {
      DecodeAscii(s[1..]);
    }
  }

  lemma {:induction false} DecodeShort(c: Scalar, rest: seq<Byte>)
    requires c < 0x800
    ensures DecodeOne(Encode(c) + rest) == Step(c, |Encode(c)|)
  {
  }

  lemma {:induction false} DecodeThree(c: Scalar, rest: seq<Byte>)
    requires 0x800 <= c < 0x1_0000
    ensures DecodeOne(Encode(c) + rest) == Step(c, 3)
  {
    var s := Encode(c) + rest;
    var a: int, b: int, d: int := c / 0x1000, c / 0x40 % 0x40, c % 0x40;
    assert s[0] == 0xE0 + a && s[1] == 0x80 + b && s[2] == 0x80 + d;
    assert c == a * 0x1000 + b * 0x40 + d;
  }

  lemma {:induction false} DecodeFour(c: Scalar, rest: seq<Byte>)
    requires 0x1_0000 <= c
    ensures DecodeOne(Encode(c) + rest) == Step(c, 4)
  {
    var s := Encode(c) + rest;
    var x, y, z := c / 0x40, c / 0x1000, c / 0x4_0000;
    assert y == x / 0x40 && z == y / 0x40;
    var a: int, b: int, d: int, e: int := z, y % 0x40, x % 0x40, c % 0x40;
    assert s[0] == 0xF0 + a && s[1] == 0x80 + b && s[2] == 0x80 + d && s[3] == 0x80 + e;
    assert c == a * 0x4_0000 + b * 0x1000 + d * 0x40 + e;
  }

  /** Decoding undoes encoding, for every text of scalar values. */
  lemma {:induction false} RoundTrip(text: seq<Scalar>)
    ensures DecodeAll(EncodeAll(text)) == text
  {
    if text != [] {
      var c, rest := text[0], EncodeAll(text[1..]);
      if c < 0x800 {
        DecodeShort(c, rest);
      } else if c < 0x1_0000 {
        DecodeThree(c, rest);
      } else {
        DecodeFour(c, rest);
      }
      assert (Encode(c) + rest)[|Encode(c)|..] == rest;
      RoundTrip(text[1..]);
      assert [c] + text[1..] == text;
    }
  }

  /** Different texts have different encodings. */
  lemma {:induction false} EncodingInjective(a: seq<Scalar>, b: seq<Scalar>)
    ensures EncodeAll(a) == EncodeAll(b) <==> a == b
  {
    RoundTrip(a);
    RoundTrip(b);
  }

  // ---- Ill-formed bytes ----

  /** Some character's encoding starts with these bytes. */
  ghost predicate Begins(s: seq<Byte>) {
    exists c: Scalar :: s <= Encode(c)
  }

  ghost predicate HasCharacter(s: seq<Byte>) {
    exists c: Scalar :: Encode(c) <= s
  }

  /** The byte ranges of an encoding. */
  ghost predicate Shape(e: seq<Byte>) {
    || (|e| == 1 && e[0] < 0x80)
    || (|e| == 2 && 0xC2 <= e[0] < 0xE0 && Continues(e[1]))
    || (|e| == 3 && 0xE0 <= e[0] < 0xF0 && SecondOk(e[0], e[1]) && Continues(e[2]))
    || (|e| == 4 && 0xF0 <= e[0] < 0xF5 && SecondOk(e[0], e[1]) && Continues(e[2]) && Continues(e[3]))
  }

  lemma {:induction false} EncodeHasShape(c: Scalar)
    ensures Shape(Encode(c))
  {
    var x, y := c / 0x40, c / 0x1000;
    assert y == x / 0x40;
    if 0x1_0000 <= c {
      assert c / 0x4_0000 == y / 0x40;
    }
  }

  lemma {:induction false} TwoBytesEncode(a: Byte, b: Byte) returns (c: Scalar)
    requires 0xC2 <= a < 0xE0 && Continues(b)
    ensures Encode(c) == [a, b]
  {
    var x: int, y: int := a - 0xC0, b - 0x80;
    c := x * 0x40 + y;
    assert c / 0x40 == x && c % 0x40 == y;
  }

  lemma {:induction false} ThreeBytesEncode(a: Byte, b: Byte, d: Byte) returns (c: Scalar)
    requires 0xE0 <= a < 0xF0 && SecondOk(a, b) && Continues(d)
    ensures Encode(c) == [a, b, d]
  {
    var x: int, y: int, z: int := a - 0xE0, b - 0x80, d - 0x80;
    var high := x * 0x40 + y;
    assert high / 0x40 == x && high % 0x40 == y;
    c := high * 0x40 + z;
    assert c / 0x40 == high && c % 0x40 == z && c / 0x1000 == high / 0x40;
  }

  lemma {:induction false} FourBytesEncode(a: Byte, b: Byte, d: Byte, e: Byte) returns (c: Scalar)
    requires 0xF0 <= a < 0xF5 && SecondOk(a, b) && Continues(d) && Continues(e)
    ensures Encode(c) == [a, b, d, e]
  {
    var x: int, y: int, z: int, w: int := a - 0xF0, b - 0x80, d - 0x80, e - 0x80;
    var top := x * 0x40 + y;
    assert top / 0x40 == x && top % 0x40 == y;
    var high := top * 0x40 + z;
    assert high / 0x40 == top && high % 0x40 == z;
    c := high * 0x40 + w;
    assert c / 0x40 == high && c % 0x40 == w && c / 0x1000 == top && c / 0x4_0000 == x;
  }

  lemma {:induction false} ShapeEncodes(e: seq<Byte>) returns (c: Scalar)
    requires Shape(e)
    ensures Encode(c) == e
  {
    if |e| == 1 {
      c := e[0];
    } else if |e| == 2 {
      c := TwoBytesEncode(e[0], e[1]);
    } else if |e| == 3 {
      c := ThreeBytesEncode(e[0], e[1], e[2]);
    } else {
      c := FourBytesEncode(e[0], e[1], e[2], e[3]);
    }
  }

  lemma {:induction false} BeginsShape(s: seq<Byte>, e: seq<Byte>)
    requires Shape(e) && s <= e
    ensures Begins(s)
  {
    var c := ShapeEncodes(e);
    assert s <= Encode(c);
  }

  lemma {:induction false} BeginningHasShape(s: seq<Byte>) returns (e: seq<Byte>)
    requires Begins(s)
    ensures Shape(e) && s <= e && forall k :: 0 <= k < |s| ==> e[k] == s[k]
  {
    var c: Scalar :| s <= Encode(c);
    EncodeHasShape(c);
    e := Encode(c);
  }

  /** What is replaced is the longest beginning of an encoding, at least one byte. */
  ghost predicate Replaces(s: seq<Byte>, r: Step)
    requires 0 < r.used <= |s|
  {
    && r.scalar == REPLACEMENT && !HasCharacter(s)
    && (r.used == 1 || Begins(s[..r.used]))
    && (r.used == |s| || !Begins(s[..r.used + 1]))
  }

  /** The decoder takes the character that the bytes start with, and where there is none it replaces
      exactly the maximal ill-formed subpart. */
  lemma {:induction false} DecodesOrReplaces(s: seq<Byte>)
    requires s != []
    ensures var r := DecodeOne(s);
            if HasCharacter(s) then Encode(r.scalar) <= s && r.used == |Encode(r.scalar)| else Replaces(s, r)
  {
    var r := DecodeOne(s);
    if c: Scalar :| Encode(c) <= s {
      DecodesCharacter(c, s);
    } else {
      NoShape(s);
      Longest(s, r.used);
    }
  }

  lemma {:induction false} DecodesCharacter(c: Scalar, s: seq<Byte>)
    requires Encode(c) <= s
    ensures DecodeOne(s) == Step(c, |Encode(c)|)
  {
    var rest := s[|Encode(c)|..];
    assert s == Encode(c) + rest;
    if c < 0x800 {
      DecodeShort(c, rest);
    } else if c < 0x1_0000 {
      DecodeThree(c, rest);
    } else {
      DecodeFour(c, rest);
    }
  }

  lemma {:induction false} NoShape(s: seq<Byte>)
    requires !HasCharacter(s)
    ensures forall n :: 0 <= n <= |s| ==> !Shape(s[..n])
  {
    forall n | 0 <= n <= |s|
      ensures !Shape(s[..n])
    {
      if Shape(s[..n]) {
        ShapeIsCharacter(s, n);
      }
    }
  }

  lemma {:induction false} ShapeIsCharacter(s: seq<Byte>, n: nat)
    requires n <= |s| && Shape(s[..n])
    ensures HasCharacter(s)
  {
    var c := ShapeEncodes(s[..n]);
    assert Encode(c) <= s;
  }

  lemma {:induction false} Longest(s: seq<Byte>, n: nat)
    requires s != [] && n == DecodeOne(s).used && forall k :: 0 <= k <= |s| ==> !Shape(s[..k])
    ensures DecodeOne(s).scalar == REPLACEMENT
    ensures n == 1 || Begins(s[..n])
    ensures n == |s| || !Begins(s[..n + 1])
  {
    assert |s| > 1 ==> !Shape(s[..2]);
    assert |s| > 2 ==> !Shape(s[..3]);
    assert |s| > 3 ==> !Shape(s[..4]);
    assert !Shape(s[..1]);
    if n == 2 {
      BeginsShape(s[..2], if s[0] < 0xF0 then [s[0], s[1], 0x80] else [s[0], s[1], 0x80, 0x80]);
    } else if n == 3 {
      BeginsShape(s[..3], [s[0], s[1], s[2], 0x80]);
    }
    if n < |s| && Begins(s[..n + 1]) {
      var e := BeginningHasShape(s[..n + 1]);
    }
  }
}
