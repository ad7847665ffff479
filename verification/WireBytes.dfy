/** The payloads byte by byte: four-byte and eight-byte prefixes with the most significant byte
    first, texts behind their lengths, lists behind their counts, fields one after another. */
module WireBytes {
  import opened Bytes
  import opened WireFormat
  import opened WireLayouts
  import opened Wrappers

  // ------------------------------------------------------------------ numbers

  /** The digit of `n` at each place, the most significant first. */
  lemma {:induction false} BigEndianDigit(n: nat, width: nat, k: nat)
    requires k < width
    ensures BigEndian(n, width)[k] == n / Power256(width - 1 - k) % 256
    decreases width
  {
    if k < width - 1 {
      BigEndianDigit(n / 256, width - 1, k);
      DivideTwice(n, Power256(width - 2 - k));
    }
  }

  lemma DivideTwice(n: nat, p: nat)
    requires p > 0
    ensures n / 256 / p == n / (256 * p)
  {
    var q := n / 256 / p;
    var r := n / 256 - q * p;
    assert n / 256 == q * p + r && 0 <= r < p;
    assert n == 256 * (q * p + r) + n % 256;
    Quotient(n, 256 * p, q, 256 * r + n % 256);
  }

  lemma Quotient(n: nat, d: nat, q: nat, r: nat)
    requires d > 0 && r < d && n == q * d + r
    ensures n / d == q
  {
    var m := n / d;
    assert n == m * d + n % d;
    if m > q {
      Larger(q + 1, m, d);
    } else if m < q {
      Larger(m + 1, q, d);
    }
  }

  lemma Larger(a: nat, b: nat, d: nat)
    requires a <= b
    ensures a * d <= b * d
  {
  }

  function Word4(n: nat): Bytes {
    [n / 0x100_0000 % 256, n / 0x1_0000 % 256, n / 0x100 % 256, n % 256]
  }

  function Word8(n: nat): Bytes {
    Word4(n / 0x1_0000_0000) + Word4(n)
  }

  lemma FourBytes(n: nat)
    ensures BigEndian(n, 4) == Word4(n)
  {
    assert n / 256 / 256 == n / 0x1_0000 && n / 256 / 256 / 256 == n / 0x100_0000;
    FourDigits(n);
  }

  lemma FourDigits(n: nat)
    ensures BigEndian(n, 4) == [n / 256 / 256 / 256 % 256, n / 256 / 256 % 256, n / 256 % 256, n % 256]
  {
    assert BigEndian(n / 256 / 256 / 256, 1) == [] + [n / 256 / 256 / 256 % 256];
    assert BigEndian(n / 256 / 256, 2) == BigEndian(n / 256 / 256 / 256, 1) + [n / 256 / 256 % 256];
    assert BigEndian(n / 256, 3) == BigEndian(n / 256 / 256, 2) + [n / 256 % 256];
  }

  lemma EightBytes(n: nat)
    ensures BigEndian(n, 8) == Word8(n)
  {
    FourBytes(n / 0x1_0000_0000);
    FourBytes(n);
    HighAndLow(n, 4);
    assert n / 256 / 256 / 256 / 256 == n / 0x1_0000_0000;
  }

  lemma HighAndLow(n: nat, width: nat)
    ensures BigEndian(n, width + 4) == BigEndian(n / 256 / 256 / 256 / 256, width) + BigEndian(n, 4)
  {
    FourDigits(n);
    assert BigEndian(n / 256 / 256 / 256, width + 1)
        == BigEndian(n / 256 / 256 / 256 / 256, width) + [n / 256 / 256 / 256 % 256];
    assert BigEndian(n / 256 / 256, width + 2) == BigEndian(n / 256 / 256 / 256, width + 1) + [n / 256 / 256 % 256];
    assert BigEndian(n / 256, width + 3) == BigEndian(n / 256 / 256, width + 2) + [n / 256 % 256];
  }

  /** Reading four bytes weighs them by their places. */
  lemma FourBytesRead(a: Byte, b: Byte, c: Byte, d: Byte)
    ensures FromBigEndian([a, b, c, d]) == a * 0x100_0000 + b * 0x1_0000 + c * 0x100 + d
  {
    assert [] + [a] == [a] && [a] + [b] == [a, b] && [a, b] + [c] == [a, b, c] && [a, b, c] + [d] == [a, b, c, d];
    NextByte([], a);
    NextByte([a], b);
    NextByte([a, b], c);
    NextByte([a, b, c], d);
  }

  lemma NextByte(front: Bytes, last: Byte)
    ensures FromBigEndian(front + [last]) == 256 * FromBigEndian(front) + last
  {
    assert (front + [last])[..|front|] == front;
  }

  /** And eight are two fours. */
  lemma EightBytesRead(high: Bytes, low: Bytes)
    requires |high| == 4 && |low| == 4
    ensures FromBigEndian(high + low) == FromBigEndian(high) * 0x1_0000_0000 + FromBigEndian(low)
  {
    JoinedRead(high, low, 4);
    Powers();
  }

  lemma {:induction false} JoinedRead(high: Bytes, low: Bytes, width: nat)
    requires |low| == width
    ensures FromBigEndian(high + low) == FromBigEndian(high) * Power256(width) + FromBigEndian(low)
    decreases width
  {
    if width == 0 {
      assert high + low == high;
    } else {
      JoinedRead(high, low[..width - 1], width - 1);
      assert (high + low)[..|high + low| - 1] == high + low[..width - 1];
      Scale(FromBigEndian(high), Power256(width - 1));
    }
  }

  lemma Scale(a: nat, p: nat)
    ensures 256 * (a * p) == a * (256 * p)
  {
  }

  // ------------------------------------------------------------------ codecs in bytes

  /** These values travel, and each travels as its bytes. */
  ghost predicate Writes<T(!new)>(c: Codec<T>, travels: T -> bool, bytes: T -> Bytes) {
    && (forall v :: c.valid(v) <==> travels(v))
    && (forall v, tail :: travels(v) ==> c.put(v, tail) == bytes(v) + tail)
  }

  function Both<A, B>(one: A -> bool, other: B -> bool): ((A, B)) -> bool {
    (pair: (A, B)) => one(pair.0) && other(pair.1)
  }

  function Then<A, B>(one: A -> Bytes, other: B -> Bytes): ((A, B)) -> Bytes {
    (pair: (A, B)) => one(pair.0) + other(pair.1)
  }

  lemma PairWrites<A(!new), B(!new)>(first: Codec<A>, second: Codec<B>, one: A -> bool, oneBytes: A -> Bytes,
                                     other: B -> bool, otherBytes: B -> Bytes)
    requires Writes(first, one, oneBytes) && Writes(second, other, otherBytes)
    ensures Writes(Pair(first, second), Both(one, other), Then(oneBytes, otherBytes))
  {
    forall pair: (A, B)
      ensures Pair(first, second).valid(pair) <==> Both(one, other)(pair)
    {
      assert (first.valid(pair.0) <==> one(pair.0)) && (second.valid(pair.1) <==> other(pair.1));
    }
    forall pair: (A, B), tail: Bytes | Both(one, other)(pair)
      ensures Pair(first, second).put(pair, tail) == Then(oneBytes, otherBytes)(pair) + tail
    {
      assert second.put(pair.1, tail) == otherBytes(pair.1) + tail;
      assert oneBytes(pair.0) + (otherBytes(pair.1) + tail) == oneBytes(pair.0) + otherBytes(pair.1) + tail;
    }
  }

  lemma RecordWrites<A(!new), B(!new)>(c: Codec<A>, wrap: A -> B, fields: B -> A, inner: A -> bool,
                                       innerBytes: A -> Bytes, travels: B -> bool, bytes: B -> Bytes)
    requires Writes(c, inner, innerBytes)
    requires forall b :: travels(b) <==> inner(fields(b))
    requires forall b :: bytes(b) == innerBytes(fields(b))
    ensures Writes(Record(c, wrap, fields), travels, bytes)
  {
  }

  predicate AllTravel<T>(travels: T -> bool, values: seq<T>) {
    |values| <= 1_000_000 && forall k :: 0 <= k < |values| ==> travels(values[k])
  }

  function Each<T>(bytes: T -> Bytes, values: seq<T>): Bytes {
    if values == [] then [] else bytes(values[0]) + Each(bytes, values[1..])
  }

  /** A list: its count, then its items. */
  function Counted<T>(bytes: T -> Bytes, values: seq<T>): Bytes {
    Word4(|values|) + Each(bytes, values)
  }

  lemma ListWrites<T(!new)>(c: Codec<T>, travels: T -> bool, bytes: T -> Bytes, all: seq<T> -> bool,
                            allBytes: seq<T> -> Bytes)
    requires Writes(c, travels, bytes)
    requires forall values :: all(values) <==> AllTravel(travels, values)
    requires forall values :: allBytes(values) == Counted(bytes, values)
    ensures Writes(ListOf(c), all, allBytes)
  {
    forall values: seq<T>
      ensures ListOf(c).valid(values) <==> AllTravel(travels, values)
    {
      assert COUNT.valid(|values|) <==> |values| <= 1_000_000;
      assert forall k :: 0 <= k < |values| ==> (c.valid(values[k]) <==> travels(values[k]));
    }
    forall values: seq<T>, tail: Bytes | AllTravel(travels, values)
      ensures ListOf(c).put(values, tail) == Counted(bytes, values) + tail
    {
      EachWrites(c, travels, bytes, values, tail);
      FourBytes(|values|);
      assert COUNT.put(|values|, Each(bytes, values) + tail) == BigEndian(|values|, 4) + (Each(bytes, values) + tail);
      assert Word4(|values|) + (Each(bytes, values) + tail) == Counted(bytes, values) + tail;
    }
  }

  lemma {:induction false} EachWrites<T(!new)>(c: Codec<T>, travels: T -> bool, bytes: T -> Bytes, values: seq<T>,
                                               tail: Bytes)
    requires Writes(c, travels, bytes) && forall k :: 0 <= k < |values| ==> travels(values[k])
    ensures PutMany(c, values, tail) == Each(bytes, values) + tail
  {
    if values == [] {
      assert [] + tail == tail;
    } else {
      EachWrites(c, travels, bytes, values[1..], tail);
      var rest := Each(bytes, values[1..]);
      assert c.put(values[0], rest + tail) == bytes(values[0]) + (rest + tail);
      assert bytes(values[0]) + (rest + tail) == bytes(values[0]) + rest + tail;
    }
  }

  // ------------------------------------------------------------------ texts and numbers

  predicate NumberTravels(n: nat) { n < 0x1_0000_0000_0000_0000 }

  predicate TextTravels(text: Bytes) { |text| <= 1_000_000 && ValidUtf8(text) }

  /** A text behind its length. */
  function Prefixed(text: Bytes): Bytes { Word4(|text|) + text }

  lemma NumberWrites()
    ensures Writes(NUMBER, NumberTravels, Word8)
  {
    Powers();
    forall n: nat, tail: Bytes
      ensures NUMBER.put(n, tail) == Word8(n) + tail
    {
      EightBytes(n);
    }
  }

  lemma TextWrites()
    ensures Writes(TEXT, TextTravels, Prefixed)
  {
    forall text: Bytes, tail: Bytes
      ensures TEXT.put(text, tail) == Prefixed(text) + tail
    {
      FourBytes(|text|);
      assert Word4(|text|) + (text + tail) == Prefixed(text) + tail;
    }
  }

  // ------------------------------------------------------------------ records

  predicate SymbolTravels(s: Symbol) {
    && TextTravels(s.role) && TextTravels(s.kind) && TextTravels(s.name) && TextTravels(s.qualifiedName)
    && TextTravels(s.symbolId) && NumberTravels(s.start) && NumberTravels(s.end)
  }

  function SymbolBytes(s: Symbol): Bytes {
    Prefixed(s.role) + (Prefixed(s.kind) + (Prefixed(s.name) + (Prefixed(s.qualifiedName)
    + (Prefixed(s.symbolId) + (Word8(s.start) + Word8(s.end))))))
  }

  predicate DiagnosticTravels(d: Diagnostic) {
    && TextTravels(d.kind) && TextTravels(d.code) && NumberTravels(d.start) && NumberTravels(d.end)
    && NumberTravels(d.line) && NumberTravels(d.column) && TextTravels(d.message)
  }

  function DiagnosticBytes(d: Diagnostic): Bytes {
    Prefixed(d.kind) + (Prefixed(d.code) + (Word8(d.start) + (Word8(d.end) + (Word8(d.line)
    + (Word8(d.column) + Prefixed(d.message))))))
  }

  predicate TextsTravel(texts: seq<Bytes>) {
    |texts| <= 1_000_000 && forall k :: 0 <= k < |texts| ==> TextTravels(texts[k])
  }

  function TextsBytes(texts: seq<Bytes>): Bytes { Word4(|texts|) + Each(Prefixed, texts) }

  predicate SymbolsTravel(symbols: seq<Symbol>) {
    |symbols| <= 1_000_000 && forall k :: 0 <= k < |symbols| ==> SymbolTravels(symbols[k])
  }

  function SymbolsBytes(symbols: seq<Symbol>): Bytes { Word4(|symbols|) + Each(SymbolBytes, symbols) }

  predicate DiagnosticsTravel(diagnostics: seq<Diagnostic>) {
    |diagnostics| <= 1_000_000 && forall k :: 0 <= k < |diagnostics| ==> DiagnosticTravels(diagnostics[k])
  }

  function DiagnosticsBytes(diagnostics: seq<Diagnostic>): Bytes {
    Word4(|diagnostics|) + Each(DiagnosticBytes, diagnostics)
  }

  /** A symbol: its seven fields in the order of the source. */
  lemma SymbolWrites()
    ensures Writes(SYMBOL, SymbolTravels, SymbolBytes)
  {
    TextWrites();
    NumberWrites();
    var c1, t1, b1 := Pair(NUMBER, NUMBER), Both(NumberTravels, NumberTravels), Then(Word8, Word8);
    PairWrites(NUMBER, NUMBER, NumberTravels, Word8, NumberTravels, Word8);
    var c2, t2, b2 := Pair(TEXT, c1), Both(TextTravels, t1), Then(Prefixed, b1);
    PairWrites(TEXT, c1, TextTravels, Prefixed, t1, b1);
    var c3, t3, b3 := Pair(TEXT, c2), Both(TextTravels, t2), Then(Prefixed, b2);
    PairWrites(TEXT, c2, TextTravels, Prefixed, t2, b2);
    var c4, t4, b4 := Pair(TEXT, c3), Both(TextTravels, t3), Then(Prefixed, b3);
    PairWrites(TEXT, c3, TextTravels, Prefixed, t3, b3);
    var c5, t5, b5 := Pair(TEXT, c4), Both(TextTravels, t4), Then(Prefixed, b4);
    PairWrites(TEXT, c4, TextTravels, Prefixed, t4, b4);
    var c6, t6, b6 := Pair(TEXT, c5), Both(TextTravels, t5), Then(Prefixed, b5);
    PairWrites(TEXT, c5, TextTravels, Prefixed, t5, b5);
    RecordWrites(c6, ToSymbol, SymbolFieldsOf, t6, b6, SymbolTravels, SymbolBytes);
  }

  lemma DiagnosticWrites()
    ensures Writes(DIAGNOSTIC, DiagnosticTravels, DiagnosticBytes)
  {
    TextWrites();
    NumberWrites();
    var c1, t1, b1 := Pair(NUMBER, TEXT), Both(NumberTravels, TextTravels), Then(Word8, Prefixed);
    PairWrites(NUMBER, TEXT, NumberTravels, Word8, TextTravels, Prefixed);
    var c2, t2, b2 := Pair(NUMBER, c1), Both(NumberTravels, t1), Then(Word8, b1);
    PairWrites(NUMBER, c1, NumberTravels, Word8, t1, b1);
    var c3, t3, b3 := Pair(NUMBER, c2), Both(NumberTravels, t2), Then(Word8, b2);
    PairWrites(NUMBER, c2, NumberTravels, Word8, t2, b2);
    var c4, t4, b4 := Pair(NUMBER, c3), Both(NumberTravels, t3), Then(Word8, b3);
    PairWrites(NUMBER, c3, NumberTravels, Word8, t3, b3);
    var c5, t5, b5 := Pair(TEXT, c4), Both(TextTravels, t4), Then(Prefixed, b4);
    PairWrites(TEXT, c4, TextTravels, Prefixed, t4, b4);
    var c6, t6, b6 := Pair(TEXT, c5), Both(TextTravels, t5), Then(Prefixed, b5);
    PairWrites(TEXT, c5, TextTravels, Prefixed, t5, b5);
    RecordWrites(c6, ToDiagnostic, DiagnosticFieldsOf, t6, b6, DiagnosticTravels, DiagnosticBytes);
  }

  lemma ListsWrite()
    ensures Writes(ListOf(TEXT), TextsTravel, TextsBytes)
    ensures Writes(ListOf(SYMBOL), SymbolsTravel, SymbolsBytes)
    ensures Writes(ListOf(DIAGNOSTIC), DiagnosticsTravel, DiagnosticsBytes)
  {
    TextWrites();
    SymbolWrites();
    DiagnosticWrites();
    ListWrites(TEXT, TextTravels, Prefixed, TextsTravel, TextsBytes);
    ListWrites(SYMBOL, SymbolTravels, SymbolBytes, SymbolsTravel, SymbolsBytes);
    ListWrites(DIAGNOSTIC, DiagnosticTravels, DiagnosticBytes, DiagnosticsTravel, DiagnosticsBytes);
  }

  // ------------------------------------------------------------------ the three results

  predicate SemanticsTravel(v: Semantics) {
    TextTravels(v.packageName) && SymbolsTravel(v.symbols) && DiagnosticsTravel(v.diagnostics)
  }

  /** "JFS1", the package name, the symbols, the diagnostics. */
  function SemanticsPayload(v: Semantics): Bytes {
    [74, 70, 83, 49] + (Prefixed(v.packageName) + (SymbolsBytes(v.symbols) + DiagnosticsBytes(v.diagnostics)))
  }

  predicate FormatTravels(v: FormatResult) {
    TextTravels(v.source) && DiagnosticsTravel(v.diagnostics)
  }

  /** "JFF1", the source, the diagnostics. */
  function FormatPayload(v: FormatResult): Bytes {
    [74, 70, 70, 49] + (Prefixed(v.source) + DiagnosticsBytes(v.diagnostics))
  }

  predicate FileTravels(f: StructuralFile) {
    && TextTravels(f.fileName) && TextTravels(f.packageName) && TextsTravel(f.imports)
    && SymbolsTravel(f.symbols) && DiagnosticsTravel(f.diagnostics)
  }

  function FileBytes(f: StructuralFile): Bytes {
    Prefixed(f.fileName) + (Prefixed(f.packageName) + (TextsBytes(f.imports) + (SymbolsBytes(f.symbols)
    + DiagnosticsBytes(f.diagnostics))))
  }

  predicate FilesTravel(files: seq<StructuralFile>) {
    |files| <= 1_000_000 && forall k :: 0 <= k < |files| ==> FileTravels(files[k])
  }

  /** "JFB1" and the files. */
  function WorkspacePayload(files: seq<StructuralFile>): Bytes {
    [74, 70, 66, 49] + (Word4(|files|) + Each(FileBytes, files))
  }

  lemma SemanticsEncoding(v: Semantics)
    ensures SEMANTICS.valid(v) <==> SemanticsTravel(v)
    ensures SemanticsTravel(v) ==> Encode(SEMANTIC_MAGIC, SEMANTICS, v) == SemanticsPayload(v)
  {
    TextWrites();
    ListsWrite();
    var lists, travel := Pair(ListOf(SYMBOL), ListOf(DIAGNOSTIC)), Both(SymbolsTravel, DiagnosticsTravel);
    var bytes := Then(SymbolsBytes, DiagnosticsBytes);
    PairWrites(ListOf(SYMBOL), ListOf(DIAGNOSTIC), SymbolsTravel, SymbolsBytes, DiagnosticsTravel, DiagnosticsBytes);
    PairWrites(TEXT, lists, TextTravels, Prefixed, travel, bytes);
    EncodesAs(SEMANTIC_MAGIC, Pair(TEXT, lists), Both(TextTravels, travel), Then(Prefixed, bytes),
              (v.packageName, (v.symbols, v.diagnostics)));
  }

  lemma EncodesAs<T(!new)>(magic: Bytes, c: Codec<T>, travels: T -> bool, bytes: T -> Bytes, v: T)
    requires Writes(c, travels, bytes)
    ensures c.valid(v) <==> travels(v)
    ensures travels(v) ==> Encode(magic, c, v) == magic + bytes(v)
  {
    if travels(v) {
      assert c.put(v, []) == bytes(v) + [] == bytes(v);
    }
  }

  lemma FormatEncoding(v: FormatResult)
    ensures FORMAT.valid(v) <==> FormatTravels(v)
    ensures FormatTravels(v) ==> Encode(FORMAT_MAGIC, FORMAT, v) == FormatPayload(v)
  {
    TextWrites();
    ListsWrite();
    PairWrites(TEXT, ListOf(DIAGNOSTIC), TextTravels, Prefixed, DiagnosticsTravel, DiagnosticsBytes);
    EncodesAs(FORMAT_MAGIC, Pair(TEXT, ListOf(DIAGNOSTIC)), Both(TextTravels, DiagnosticsTravel),
              Then(Prefixed, DiagnosticsBytes), (v.source, v.diagnostics));
  }

  lemma FileWrites()
    ensures Writes(FILE, FileTravels, FileBytes)
  {
    TextWrites();
    ListsWrite();
    var lists, travel := Pair(ListOf(SYMBOL), ListOf(DIAGNOSTIC)), Both(SymbolsTravel, DiagnosticsTravel);
    var bytes := Then(SymbolsBytes, DiagnosticsBytes);
    PairWrites(ListOf(SYMBOL), ListOf(DIAGNOSTIC), SymbolsTravel, SymbolsBytes, DiagnosticsTravel, DiagnosticsBytes);
    var c1, t1, b1 := Pair(ListOf(TEXT), lists), Both(TextsTravel, travel), Then(TextsBytes, bytes);
    PairWrites(ListOf(TEXT), lists, TextsTravel, TextsBytes, travel, bytes);
    var c2, t2, b2 := Pair(TEXT, c1), Both(TextTravels, t1), Then(Prefixed, b1);
    PairWrites(TEXT, c1, TextTravels, Prefixed, t1, b1);
    PairWrites(TEXT, c2, TextTravels, Prefixed, t2, b2);
    RecordWrites(Pair(TEXT, c2), ToFile, FileFieldsOf, Both(TextTravels, t2), Then(Prefixed, b2), FileTravels,
                 FileBytes);
  }

  lemma WorkspaceEncoding(files: seq<StructuralFile>)
    ensures WORKSPACE.valid(files) <==> FilesTravel(files)
    ensures FilesTravel(files) ==> Encode(WORKSPACE_MAGIC, WORKSPACE, files) == WorkspacePayload(files)
  {
    FileWrites();
    var travel := (files: seq<StructuralFile>) => FilesTravel(files);
    var bytes := (files: seq<StructuralFile>) => Word4(|files|) + Each(FileBytes, files);
    ListWrites(FILE, FileTravels, FileBytes, travel, bytes);
    EncodesAs(WORKSPACE_MAGIC, WORKSPACE, travel, bytes, files);
  }

  // ------------------------------------------------------------------ what is accepted

  /** Accepted are exactly these bytes, with the value they spell. */
  lemma SemanticsExact(payload: Bytes)
    ensures forall v: Semantics ::
              Decode(SEMANTIC_MAGIC, SEMANTICS, payload) == Success(v)
              <==> SemanticsTravel(v) && payload == SemanticsPayload(v)
  {
    ResultsLawful();
    forall v: Semantics
      ensures Decode(SEMANTIC_MAGIC, SEMANTICS, payload) == Success(v)
              <==> SemanticsTravel(v) && payload == SemanticsPayload(v)
    {
      DecodeExact(SEMANTIC_MAGIC, SEMANTICS, payload, v);
      SemanticsEncoding(v);
    }
  }

  lemma FormatExact(payload: Bytes)
    ensures forall v: FormatResult ::
              Decode(FORMAT_MAGIC, FORMAT, payload) == Success(v)
              <==> FormatTravels(v) && payload == FormatPayload(v)
  {
    ResultsLawful();
    forall v: FormatResult
      ensures Decode(FORMAT_MAGIC, FORMAT, payload) == Success(v)
              <==> FormatTravels(v) && payload == FormatPayload(v)
    {
      DecodeExact(FORMAT_MAGIC, FORMAT, payload, v);
      FormatEncoding(v);
    }
  }

  lemma WorkspaceExact(payload: Bytes)
    ensures forall v: seq<StructuralFile> ::
              Decode(WORKSPACE_MAGIC, WORKSPACE, payload) == Success(v)
              <==> FilesTravel(v) && payload == WorkspacePayload(v)
  {
    ResultsLawful();
    forall v: seq<StructuralFile>
      ensures Decode(WORKSPACE_MAGIC, WORKSPACE, payload) == Success(v)
              <==> FilesTravel(v) && payload == WorkspacePayload(v)
    {
      DecodeExact(WORKSPACE_MAGIC, WORKSPACE, payload, v);
      WorkspaceEncoding(v);
    }
  }
}
