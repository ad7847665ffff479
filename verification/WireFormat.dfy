/** The big-endian, length-prefixed wire format of the native front end. For every type there
    is a writer that puts a value in front of a tail and a parser that takes one off the front;
    a codec is lawful when each undoes the other, in both directions. */
module WireFormat {
  import opened Bytes
  import opened Semantic
  import opened Wrappers

  /** The bound on every collection count and string length. */
  const LIMIT: nat := 1_000_000

  datatype WireError = VersionMismatch | Truncated | TooLarge | NotUtf8 | TrailingData

  type Parsed<T> = Result<(T, Bytes), WireError>

  // ------------------------------------------------------------------ numbers

  function Power256(width: nat): (power: nat)
    ensures power > 0
  {
    if width == 0 then 1 else 256 * Power256(width - 1)
  }

  function BigEndian(n: nat, width: nat): (bytes: Bytes)
    ensures |bytes| == width
  {
    if width == 0 then [] else BigEndian(n / 256, width - 1) + [n % 256]
  }

  function FromBigEndian(bytes: Bytes): nat {
    if bytes == [] then 0 else 256 * FromBigEndian(bytes[..|bytes| - 1]) + bytes[|bytes| - 1]
  }

  lemma {:induction false} FromBigEndianInverse(n: nat, width: nat)
    requires n < Power256(width)
    ensures FromBigEndian(BigEndian(n, width)) == n
  {
    if width > 0 {
      FromBigEndianInverse(n / 256, width - 1);
      assert BigEndian(n, width)[..width - 1] == BigEndian(n / 256, width - 1);
    }
  }

  lemma {:induction false} BigEndianInverse(bytes: Bytes)
    ensures FromBigEndian(bytes) < Power256(|bytes|)
    ensures BigEndian(FromBigEndian(bytes), |bytes|) == bytes
  {
    if bytes != [] {
      var front, last := bytes[..|bytes| - 1], bytes[|bytes| - 1];
      BigEndianInverse(front);
      assert FromBigEndian(bytes) / 256 == FromBigEndian(front) && FromBigEndian(bytes) % 256 == last;
      assert bytes == front + [last];
    }
  }

  lemma Powers()
    ensures Power256(4) == 0x1_0000_0000
    ensures Power256(8) == 0x1_0000_0000_0000_0000
  {
    assert Power256(2) == 65_536;
    assert Power256(3) == 16_777_216;
    assert Power256(4) == 0x1_0000_0000;
    assert Power256(5) == 0x100_0000_0000;
    assert Power256(6) == 0x1_0000_0000_0000;
    assert Power256(7) == 0x100_0000_0000_0000;
  }

  // ------------------------------------------------------------------ text

  predicate Continuation(b: Byte) { 0x80 <= b < 0xc0 }

  /** The length of the UTF-8 sequence at the front, or zero when there is no well-formed one
      (the table of section 4 of RFC 3629). */
  function SequenceLength(s: Bytes): (n: nat)
    requires s != []
    ensures n <= |s|
  {
    if s[0] < 0x80 then 1
    else if |s| >= 2 && 0xc2 <= s[0] < 0xe0 && Continuation(s[1]) then 2
    else if |s| >= 3 && 0xe0 <= s[0] < 0xf0 && Continuation(s[1]) && Continuation(s[2])
            && (s[0] == 0xe0 ==> s[1] >= 0xa0) && (s[0] == 0xed ==> s[1] < 0xa0) then 3
    else if |s| >= 4 && 0xf0 <= s[0] < 0xf5 && Continuation(s[1]) && Continuation(s[2]) && Continuation(s[3])
            && (s[0] == 0xf0 ==> s[1] >= 0x90) && (s[0] == 0xf4 ==> s[1] < 0x90) then 4
    else 0
  }

  predicate ValidUtf8(s: Bytes) {
    s == [] || (SequenceLength(s) > 0 && ValidUtf8(s[SequenceLength(s)..]))
  }

  // ------------------------------------------------------------------ the codecs

  function ParseTake(length: nat, input: Bytes): Parsed<Bytes> {
    if length > |input| then Failure(Truncated) else Success((input[..length], input[length..]))
  }

  function ParseNumber(width: nat, input: Bytes): Parsed<nat> {
    var (bytes, rest) :- ParseTake(width, input);
    Success((FromBigEndian(bytes), rest))
  }

  function ParseU64(input: Bytes): Parsed<nat> { ParseNumber(8, input) }

  function ParseCount(input: Bytes): Parsed<nat> {
    var (count, rest) :- ParseNumber(4, input);
    if count > LIMIT then Failure(TooLarge) else Success((count, rest))
  }

  function ParseString(input: Bytes): Parsed<Bytes> {
    var (length, rest) :- ParseCount(input);
    var (text, rest') :- ParseTake(length, rest);
    if ValidUtf8(text) then Success((text, rest')) else Failure(NotUtf8)
  }

  function PutU64(n: nat, tail: Bytes): Bytes { BigEndian(n, 8) + tail }

  function PutCount(n: nat, tail: Bytes): Bytes { BigEndian(n, 4) + tail }

  function PutString(text: Bytes, tail: Bytes): Bytes { PutCount(|text|, text + tail) }

  predicate ValidU64(n: nat) { n < Power256(8) }

  predicate ValidCount(n: nat) { n <= LIMIT }

  predicate ValidString(text: Bytes) { |text| <= LIMIT && ValidUtf8(text) }

  /** How one type travels: a parser, a writer that puts a value in front of a tail, and the
      values that can travel. */
  datatype Codec<!T> = Codec(parse: Bytes -> Parsed<T>, put: (T, Bytes) -> Bytes, valid: T -> bool)

  /** Parsing accepts exactly what writing a valid value produces, and gives that value back;
      what follows a value takes no part in its encoding. */
  ghost predicate Lawful<T(!new)>(c: Codec<T>) {
    && (forall input :: c.parse(input).Success? ==>
          c.valid(c.parse(input).value.0) && input == c.put(c.parse(input).value.0, c.parse(input).value.1))
    && (forall v, tail :: c.valid(v) ==> c.parse(c.put(v, tail)) == Success((v, tail)))
    && (forall v, tail, more :: c.put(v, tail) + more == c.put(v, tail + more))
  }

  const NUMBER := Codec(ParseU64, PutU64, ValidU64)
  const COUNT := Codec(ParseCount, PutCount, ValidCount)
  const TEXT := Codec(ParseString, PutString, ValidString)

  lemma NumberLaws(width: nat)
    ensures forall n: nat, tail: Bytes :: n < Power256(width)
              ==> ParseNumber(width, BigEndian(n, width) + tail) == Success((n, tail))
    ensures forall input: Bytes :: ParseNumber(width, input).Success? ==>
              var (n, rest) := ParseNumber(width, input).value;
              n < Power256(width) && input == BigEndian(n, width) + rest
  {
    forall n: nat, tail: Bytes | n < Power256(width)
      ensures ParseNumber(width, BigEndian(n, width) + tail) == Success((n, tail))
    {
      FromBigEndianInverse(n, width);
      assert (BigEndian(n, width) + tail)[..width] == BigEndian(n, width);
      assert (BigEndian(n, width) + tail)[width..] == tail;
    }
    forall input: Bytes | ParseNumber(width, input).Success?
      ensures var (n, rest) := ParseNumber(width, input).value;
              n < Power256(width) && input == BigEndian(n, width) + rest
    {
      BigEndianInverse(input[..width]);
      assert input == input[..width] + input[width..];
    }
  }

  lemma NumberLawful()
    ensures Lawful(NUMBER)
  {
    NumberLaws(8);
    assert forall n: nat, tail: Bytes, more: Bytes :: BigEndian(n, 8) + tail + more == BigEndian(n, 8) + (tail + more);
  }

  lemma CountLawful()
    ensures Lawful(COUNT)
  {
    NumberLaws(4);
    Powers();
    assert forall n: nat, tail: Bytes, more: Bytes :: BigEndian(n, 4) + tail + more == BigEndian(n, 4) + (tail + more);
  }

  lemma TextLawful()
    ensures Lawful(TEXT)
  {
    CountLawful();
    forall input: Bytes | ParseString(input).Success?
      ensures ValidString(ParseString(input).value.0)
      ensures input == PutString(ParseString(input).value.0, ParseString(input).value.1)
    {
      var (length, rest) := ParseCount(input).value;
      assert rest == rest[..length] + rest[length..];
    }
    forall text: Bytes, tail: Bytes | ValidString(text)
      ensures ParseString(PutString(text, tail)) == Success((text, tail))
    {
      assert (text + tail)[..|text|] == text && (text + tail)[|text|..] == tail;
      assert ParseCount(PutCount(|text|, text + tail)) == Success((|text|, text + tail));
    }
    forall text: Bytes, tail: Bytes, more: Bytes
      ensures PutString(text, tail) + more == PutString(text, tail + more)
    {
      assert text + tail + more == text + (tail + more);
      assert PutCount(|text|, text + tail) + more == PutCount(|text|, text + tail + more);
    }
  }

  // ------------------------------------------------------------------ records

  function ParsePair<A, B>(first: Codec<A>, second: Codec<B>, input: Bytes): Parsed<(A, B)> {
    var (a, rest) :- first.parse(input);
    var (b, rest') :- second.parse(rest);
    Success(((a, b), rest'))
  }

  /** One value after another. */
  function Pair<A, B>(first: Codec<A>, second: Codec<B>): Codec<(A, B)> {
    Codec(input => ParsePair(first, second, input),
          (pair: (A, B), tail) => first.put(pair.0, second.put(pair.1, tail)),
          (pair: (A, B)) => first.valid(pair.0) && second.valid(pair.1))
  }

  lemma PairLawful<A(!new), B(!new)>(first: Codec<A>, second: Codec<B>)
    requires Lawful(first) && Lawful(second)
    ensures Lawful(Pair(first, second))
  {
    var c := Pair(first, second);
    forall input | c.parse(input).Success?
      ensures c.valid(c.parse(input).value.0) && input == c.put(c.parse(input).value.0, c.parse(input).value.1)
    {
      var (a, rest) := first.parse(input).value;
      assert input == first.put(a, rest);
    }
    forall pair: (A, B), tail: Bytes | c.valid(pair)
      ensures c.parse(c.put(pair, tail)) == Success((pair, tail))
    {
      assert first.parse(first.put(pair.0, second.put(pair.1, tail))) == Success((pair.0, second.put(pair.1, tail)));
    }
    forall pair: (A, B), tail: Bytes, more: Bytes
      ensures c.put(pair, tail) + more == c.put(pair, tail + more)
    {
      assert first.put(pair.0, second.put(pair.1, tail)) + more == first.put(pair.0, second.put(pair.1, tail) + more);
    }
  }

  function ParseRecord<A, B>(c: Codec<A>, wrap: A -> B, input: Bytes): Parsed<B> {
    var (fields, rest) :- c.parse(input);
    Success((wrap(fields), rest))
  }

  /** A record travels as its fields. */
  function Record<A, B>(c: Codec<A>, wrap: A -> B, fields: B -> A): Codec<B> {
    Codec(input => ParseRecord(c, wrap, input), (b: B, tail) => c.put(fields(b), tail), (b: B) => c.valid(fields(b)))
  }

  lemma RecordLawful<A(!new), B(!new)>(c: Codec<A>, wrap: A -> B, fields: B -> A)
    requires Lawful(c)
    requires (forall b :: wrap(fields(b)) == b) && forall a :: fields(wrap(a)) == a
    ensures Lawful(Record(c, wrap, fields))
  {
    var r := Record(c, wrap, fields);
    forall input | r.parse(input).Success?
      ensures r.valid(r.parse(input).value.0) && input == r.put(r.parse(input).value.0, r.parse(input).value.1)
    {
      var (a, rest) := c.parse(input).value;
      assert input == c.put(a, rest) && fields(wrap(a)) == a;
    }
    forall b: B, tail: Bytes | r.valid(b)
      ensures r.parse(r.put(b, tail)) == Success((b, tail))
    {
      assert c.parse(c.put(fields(b), tail)) == Success((fields(b), tail));
    }
  }

  // ------------------------------------------------------------------ collections

  function ParseMany<T>(c: Codec<T>, count: nat, input: Bytes): Parsed<seq<T>> {
    if count == 0 then Success(([], input))
    else
      var (first, rest) :- c.parse(input);
      var (others, rest') :- ParseMany(c, count - 1, rest);
      Success(([first] + others, rest'))
  }

  function PutMany<T>(c: Codec<T>, values: seq<T>, tail: Bytes): Bytes {
    if values == [] then tail else c.put(values[0], PutMany(c, values[1..], tail))
  }

  predicate AllValid<T>(c: Codec<T>, values: seq<T>) {
    forall k :: 0 <= k < |values| ==> c.valid(values[k])
  }

  function ParseList<T>(c: Codec<T>, input: Bytes): Parsed<seq<T>> {
    var (count, rest) :- COUNT.parse(input);
    ParseMany(c, count, rest)
  }

  /** A counted list. */
  function ListOf<T>(c: Codec<T>): Codec<seq<T>> {
    Codec(input => ParseList(c, input),
          (values: seq<T>, tail) => COUNT.put(|values|, PutMany(c, values, tail)),
          (values: seq<T>) => COUNT.valid(|values|) && AllValid(c, values))
  }

  lemma {:induction false} ManySound<T(!new)>(c: Codec<T>, count: nat, input: Bytes)
    requires Lawful(c) && ParseMany(c, count, input).Success?
    ensures var (values, rest) := ParseMany(c, count, input).value;
            |values| == count && AllValid(c, values) && input == PutMany(c, values, rest)
  {
    if count > 0 {
      var (first, rest) := c.parse(input).value;
      ManySound(c, count - 1, rest);
      var (others, rest') := ParseMany(c, count - 1, rest).value;
      assert ([first] + others)[1..] == others;
    }
  }

  lemma {:induction false} ManyComplete<T(!new)>(c: Codec<T>, values: seq<T>, tail: Bytes)
    requires Lawful(c) && AllValid(c, values)
    ensures ParseMany(c, |values|, PutMany(c, values, tail)) == Success((values, tail))
  {
    if values != [] {
      assert values == [values[0]] + values[1..];
      ManyComplete(c, values[1..], tail);
    }
  }

  lemma {:induction false} ManyAppends<T(!new)>(c: Codec<T>, values: seq<T>, tail: Bytes, more: Bytes)
    requires Lawful(c)
    ensures PutMany(c, values, tail) + more == PutMany(c, values, tail + more)
  {
    if values != [] {
      ManyAppends(c, values[1..], tail, more);
    }
  }

  /** A lawful codec for elements makes a lawful codec for counted lists. */
  lemma ListLawful<T(!new)>(c: Codec<T>)
    requires Lawful(c)
    ensures Lawful(ListOf(c))
  {
    CountLawful();
    var list := ListOf(c);
    forall input: Bytes | list.parse(input).Success?
      ensures list.valid(list.parse(input).value.0)
                && input == list.put(list.parse(input).value.0, list.parse(input).value.1)
    {
      var (count, rest) := COUNT.parse(input).value;
      ManySound(c, count, rest);
    }
    forall values: seq<T>, tail: Bytes | list.valid(values)
      ensures list.parse(list.put(values, tail)) == Success((values, tail))
    {
      ManyComplete(c, values, tail);
    }
    forall values: seq<T>, tail: Bytes, more: Bytes
      ensures list.put(values, tail) + more == list.put(values, tail + more)
    {
      ManyAppends(c, values, tail, more);
    }
  }

  // ------------------------------------------------------------------ whole payloads

  /** A payload: four bytes that name the version, one value, and nothing else. */
  function Decode<T>(magic: Bytes, c: Codec<T>, payload: Bytes): Result<T, WireError>
    requires |magic| == 4
  {
    var (version, body) :- ParseTake(4, payload);
    if version != magic then Failure(VersionMismatch)
    else
      var (value, rest) :- c.parse(body);
      if rest != [] then Failure(TrailingData) else Success(value)
  }

  function Encode<T>(magic: Bytes, c: Codec<T>, value: T): Bytes {
    magic + c.put(value, [])
  }

  /** Decoding is the two-sided inverse of encoding: it accepts exactly the encodings of valid
      values, and each with the value it encodes. */
  lemma DecodeExact<T(!new)>(magic: Bytes, c: Codec<T>, payload: Bytes, value: T)
    requires |magic| == 4 && Lawful(c)
    ensures Decode(magic, c, payload) == Success(value) <==> c.valid(value) && payload == Encode(magic, c, value)
  {
    if |payload| >= 4 {
      assert payload == payload[..4] + payload[4..];
    }
    if c.valid(value) && payload == Encode(magic, c, value) {
      assert payload[..4] == magic && payload[4..] == c.put(value, []);
    }
  }

  /** Nothing can follow an accepted payload. */
  lemma ExtensionRejected<T(!new)>(magic: Bytes, c: Codec<T>, payload: Bytes, more: Bytes)
    requires |magic| == 4 && Lawful(c) && more != []
    requires Decode(magic, c, payload).Success?
    ensures Decode(magic, c, payload + more) == Failure(TrailingData)
  {
    var value := Decode(magic, c, payload).value;
    DecodeExact(magic, c, payload, value);
    assert (payload + more)[..4] == magic;
    assert (payload + more)[4..] == c.put(value, []) + more == c.put(value, [] + more);
    assert [] + more == more;
  }

  /** No truncation of an accepted payload is accepted. */
  lemma TruncationRejected<T(!new)>(magic: Bytes, c: Codec<T>, payload: Bytes, length: nat)
    requires |magic| == 4 && Lawful(c) && length < |payload|
    requires Decode(magic, c, payload).Success?
    ensures Decode(magic, c, payload[..length]).Failure?
  {
    if Decode(magic, c, payload[..length]).Success? {
      ExtensionRejected(magic, c, payload[..length], payload[length..]);
      assert payload[..length] + payload[length..] == payload;
    }
  }
}
