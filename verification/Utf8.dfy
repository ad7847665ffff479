/** UTF-8 as an encoding of scalar values (section 3 of RFC 3629): what the wire format accepts as a
    text is exactly what encodes some. */
module Utf8 {
  import opened Bytes
  import opened WireFormat

  /** A Unicode scalar value: a code point that is no surrogate. */
  predicate Scalar(c: int) {
    0 <= c < 0xd800 || 0xe000 <= c < 0x11_0000
  }

  /** The bits of a scalar value, six to a byte after the first. */
  function EncodeScalar(c: int): (bytes: Bytes)
    requires Scalar(c)
    ensures bytes != []
  {
    if c < 0x80 then [c]
    else if c < 0x800 then [0xc0 + c / 64, 0x80 + c % 64]
    else if c < 0x1_0000 then [0xe0 + c / 4_096, 0x80 + c / 64 % 64, 0x80 + c % 64]
    else [0xf0 + c / 0x4_0000, 0x80 + c / 4_096 % 64, 0x80 + c / 64 % 64, 0x80 + c % 64]
  }

  predicate Scalars(text: seq<int>) {
    forall k :: 0 <= k < |text| ==> Scalar(text[k])
  }

  function Encoded(text: seq<int>): Bytes
    requires Scalars(text)
  {
    if text == [] then [] else EncodeScalar(text[0]) + Encoded(text[1..])
  }

  lemma LengthOfScalar(c: int, rest: Bytes)
    requires Scalar(c)
    ensures SequenceLength(EncodeScalar(c) + rest) == |EncodeScalar(c)|
  {
    var s := EncodeScalar(c) + rest;
    assert s[0] == EncodeScalar(c)[0];
    if c >= 0x80 {
      assert s[1] == EncodeScalar(c)[1];
    }
    if c >= 0x800 {
      assert s[2] == EncodeScalar(c)[2];
    }
    if c >= 0x1_0000 {
      assert s[3] == EncodeScalar(c)[3];
    }
  }

  /** A well-formed sequence encodes a scalar value. */
  lemma ScalarAtFront(s: Bytes) returns (c: int)
    requires s != [] && SequenceLength(s) > 0
    ensures Scalar(c) && s[..SequenceLength(s)] == EncodeScalar(c)
  {
    var n := SequenceLength(s);
    var first: int := s[0];
    if n == 1 {
      c := first;
    } else if n == 2 {
      c := TwoBytes(first - 0xc0, s[1] - 0x80);
    } else if n == 3 {
      c := ThreeBytes(first - 0xe0, s[1] - 0x80, s[2] - 0x80);
    } else {
      c := FourBytes(first - 0xf0, s[1] - 0x80, s[2] - 0x80, s[3] - 0x80);
    }
  }

  lemma TwoBytes(a: int, b: int) returns (c: int)
    requires 2 <= a < 32 && 0 <= b < 64
    ensures 0x80 <= c < 0x800 && EncodeScalar(c) == [0xc0 + a, 0x80 + b]
  {
    c := a * 64 + b;
  }

  lemma ThreeBytes(a: int, b: int, d: int) returns (c: int)
    requires 0 <= a < 16 && 0 <= b < 64 && 0 <= d < 64
    requires (a == 0 ==> b >= 0x20) && (a == 13 ==> b < 0x20)
    ensures 0x800 <= c < 0x1_0000 && Scalar(c) && EncodeScalar(c) == [0xe0 + a, 0x80 + b, 0x80 + d]
  {
    c := a * 4_096 + b * 64 + d;
    assert c / 64 == a * 64 + b;
    LastDigits(a, b);
    assert c / 4_096 == a;
  }

  lemma FourBytes(a: int, b: int, d: int, e: int) returns (c: int)
    requires 0 <= a < 5 && 0 <= b < 64 && 0 <= d < 64 && 0 <= e < 64
    requires (a == 0 ==> b >= 0x10) && (a == 4 ==> b < 0x10)
    ensures 0x1_0000 <= c < 0x11_0000 && EncodeScalar(c) == [0xf0 + a, 0x80 + b, 0x80 + d, 0x80 + e]
  {
    c := a * 0x4_0000 + b * 4_096 + d * 64 + e;
    assert c / 64 == a * 4_096 + b * 64 + d;
    assert c / 4_096 == a * 64 + b;
    assert c / 0x4_0000 == a;
    LastDigits(a, b);
    LastDigits(a * 64 + b, d);
    LastDigits(a * 4_096 + b * 64 + d, e);
  }

  lemma LastDigits(a: int, b: int)
    requires 0 <= b < 64
    ensures (a * 64 + b) / 64 == a && (a * 64 + b) % 64 == b
  {
  }

  lemma {:induction false} EncodedIsValid(text: seq<int>)
    requires Scalars(text)
    ensures ValidUtf8(Encoded(text))
  {
    if text != [] {
      var first, rest := EncodeScalar(text[0]), Encoded(text[1..]);
      EncodedIsValid(text[1..]);
      LengthOfScalar(text[0], rest);
      assert (first + rest)[|first|..] == rest;
    }
  }

  lemma {:induction false} ValidIsEncoded(s: Bytes) returns (text: seq<int>)
    requires ValidUtf8(s)
    ensures Scalars(text) && Encoded(text) == s
    decreases |s|
  {
    if s == [] {
      text := [];
    } else {
      var n := SequenceLength(s);
      var c := ScalarAtFront(s);
      var rest := ValidIsEncoded(s[n..]);
      text := [c] + rest;
      assert text[1..] == rest && s == s[..n] + s[n..];
    }
  }

  /** The bytes of a wire string are valid exactly when they encode a sequence of scalar values. */
  lemma ValidExactly(s: Bytes)
    ensures ValidUtf8(s) <==> exists text :: Scalars(text) && Encoded(text) == s
  {
    if ValidUtf8(s) {
      var text := ValidIsEncoded(s);
    }
    if text :| Scalars(text) && Encoded(text) == s {
      EncodedIsValid(text);
    }
  }
}
