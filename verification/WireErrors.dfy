/** Which payloads are refused, and why: cut short, continued too far, of another version; and the
    errors of a single text. */
module WireErrors {
  import opened Bytes
  import opened Semantic
  import opened WireFormat
  import opened WireLayouts
  import opened WireBytes
  import opened Wrappers

  /** Whatever is cut off in the middle of a value is missed; and reading a value only complains about
      missing bytes, large counts and texts that are not UTF-8. */
  ghost predicate FailsWell<T(!new)>(c: Codec<T>) {
    && (forall v, k :: c.valid(v) && 0 <= k < |c.put(v, [])| ==> c.parse(c.put(v, [])[..k]) == Failure(Truncated))
    && (forall input :: c.parse(input).Failure? ==> OfAValue(c.parse(input).error))
  }

  predicate OfAValue(error: WireError) {
    error.Truncated? || error.TooLarge? || error.NotUtf8?
  }

  /** A written value in front of anything is the value written alone, and then that. */
  lemma PutInFront<T(!new)>(c: Codec<T>, v: T, tail: Bytes)
    requires Lawful(c)
    ensures c.put(v, tail) == c.put(v, []) + tail
  {
    assert c.put(v, []) + tail == c.put(v, [] + tail);
    assert [] + tail == tail;
  }

  lemma CutInFront(front: Bytes, back: Bytes, k: nat)
    requires k < |front + back|
    ensures k < |front| ==> (front + back)[..k] == front[..k]
    ensures k >= |front| ==> (front + back)[..k] == front + back[..k - |front|]
  {
  }

  lemma NumberFailsWell()
    ensures FailsWell(NUMBER)
  {
  }

  lemma CountFailsWell()
    ensures FailsWell(COUNT)
  {
  }

  lemma TextFailsWell()
    ensures FailsWell(TEXT)
  {
    CountLawful();
    CountFailsWell();
    forall text: Bytes, k | ValidString(text) && 0 <= k < |PutString(text, [])|
      ensures ParseString(PutString(text, [])[..k]) == Failure(Truncated)
    {
      assert text + [] == text;
      assert PutString(text, []) == BigEndian(|text|, 4) + text;
      CutInFront(BigEndian(|text|, 4), text, k);
      if k < 4 {
        assert COUNT.put(|text|, []) == BigEndian(|text|, 4) + [] == BigEndian(|text|, 4);
        assert COUNT.parse(COUNT.put(|text|, [])[..k]) == Failure(Truncated);
      } else {
        assert COUNT.parse(COUNT.put(|text|, text[..k - 4])) == Success((|text|, text[..k - 4]));
      }
    }
  }

  lemma PairFailsWell<A(!new), B(!new)>(first: Codec<A>, second: Codec<B>)
    requires Lawful(first) && Lawful(second) && FailsWell(first) && FailsWell(second)
    ensures FailsWell(Pair(first, second))
  {
    var c := Pair(first, second);
    forall pair: (A, B), k | c.valid(pair) && 0 <= k < |c.put(pair, [])|
      ensures c.parse(c.put(pair, [])[..k]) == Failure(Truncated)
    {
      PairCut(first, second, pair.0, pair.1, k);
    }
  }

  lemma PairCut<A(!new), B(!new)>(first: Codec<A>, second: Codec<B>, a: A, b: B, k: nat)
    requires Lawful(first) && Lawful(second) && FailsWell(first) && FailsWell(second)
    requires first.valid(a) && second.valid(b) && k < |first.put(a, second.put(b, []))|
    ensures ParsePair(first, second, first.put(a, second.put(b, []))[..k]) == Failure(Truncated)
  {
    var front, back := first.put(a, []), second.put(b, []);
    PutInFront(first, a, back);
    CutInFront(front, back, k);
    if k >= |front| {
      var rest := back[..k - |front|];
      PutInFront(first, a, rest);
      assert first.parse(first.put(a, rest)) == Success((a, rest));
    }
  }

  lemma RecordFailsWell<A(!new), B(!new)>(c: Codec<A>, wrap: A -> B, fields: B -> A)
    requires FailsWell(c)
    ensures FailsWell(Record(c, wrap, fields))
  {
  }

  lemma {:induction false} ManyCut<T(!new)>(c: Codec<T>, values: seq<T>, k: nat)
    requires Lawful(c) && FailsWell(c) && AllValid(c, values) && k < |PutMany(c, values, [])|
    ensures ParseMany(c, |values|, PutMany(c, values, [])[..k]) == Failure(Truncated)
  {
    if values != [] {
      var front, back := c.put(values[0], []), PutMany(c, values[1..], []);
      PutInFront(c, values[0], back);
      CutInFront(front, back, k);
      if k < |front| {
        assert c.parse(front[..k]) == Failure(Truncated);
      } else {
        var rest := back[..k - |front|];
        PutInFront(c, values[0], rest);
        assert c.parse(c.put(values[0], rest)) == Success((values[0], rest));
        ManyCut(c, values[1..], k - |front|);
      }
    }
  }

  lemma {:induction false} ManyFails<T(!new)>(c: Codec<T>, count: nat, input: Bytes)
    requires FailsWell(c) && ParseMany(c, count, input).Failure?
    ensures OfAValue(ParseMany(c, count, input).error)
  {
    if count > 0 && c.parse(input).Success? {
      ManyFails(c, count - 1, c.parse(input).value.1);
    }
  }

  lemma ListFailsWell<T(!new)>(c: Codec<T>)
    requires Lawful(c) && FailsWell(c)
    ensures FailsWell(ListOf(c))
  {
    var list := ListOf(c);
    forall values: seq<T>, k | list.valid(values) && 0 <= k < |list.put(values, [])|
      ensures list.parse(list.put(values, [])[..k]) == Failure(Truncated)
    {
      ListCut(c, values, k);
    }
    forall input: Bytes | list.parse(input).Failure?
      ensures OfAValue(list.parse(input).error)
    {
      CountFailsWell();
      if COUNT.parse(input).Success? {
        ManyFails(c, COUNT.parse(input).value.0, COUNT.parse(input).value.1);
      }
    }
  }

  lemma ListCut<T(!new)>(c: Codec<T>, values: seq<T>, k: nat)
    requires Lawful(c) && FailsWell(c) && ListOf(c).valid(values) && k < |ListOf(c).put(values, [])|
    ensures ParseList(c, ListOf(c).put(values, [])[..k]) == Failure(Truncated)
  {
    CountLawful();
    CountFailsWell();
    var front, back := COUNT.put(|values|, []), PutMany(c, values, []);
    PutInFront(COUNT, |values|, back);
    CutInFront(front, back, k);
    if k >= |front| {
      var rest := back[..k - |front|];
      PutInFront(COUNT, |values|, rest);
      assert COUNT.parse(COUNT.put(|values|, rest)) == Success((|values|, rest));
      ManyCut(c, values, k - |front|);
    }
  }

  // ------------------------------------------------------------------ the three results

  lemma RecordsFailWell()
    ensures FailsWell(SYMBOL) && FailsWell(DIAGNOSTIC)
  {
    TextFailsWell();
    NumberFailsWell();
    TextLawful();
    NumberLawful();
    SymbolFailsWell(TEXT, NUMBER);
    DiagnosticFailsWell(TEXT, NUMBER);
  }

  /** One more field in front. */
  lemma Fronted<A(!new), B(!new)>(first: Codec<A>, rest: Codec<B>)
    requires Lawful(first) && FailsWell(first) && Lawful(rest) && FailsWell(rest)
    ensures Lawful(Pair(first, rest)) && FailsWell(Pair(first, rest))
  {
    PairLawful(first, rest);
    PairFailsWell(first, rest);
  }

  lemma SymbolFailsWell(text: Codec<Bytes>, number: Codec<nat>)
    requires Lawful(text) && FailsWell(text) && Lawful(number) && FailsWell(number)
    ensures FailsWell(SymbolLayout(text, number))
  {
    Fronted(number, number);
    var c1 := Pair(number, number);
    Fronted(text, c1);
    var c2 := Pair(text, c1);
    Fronted(text, c2);
    var c3 := Pair(text, c2);
    Fronted(text, c3);
    var c4 := Pair(text, c3);
    Fronted(text, c4);
    var c5 := Pair(text, c4);
    Fronted(text, c5);
    var c6 := Pair(text, c5);
    RecordFailsWell(c6, ToSymbol, SymbolFieldsOf);
  }

  lemma DiagnosticFailsWell(text: Codec<Bytes>, number: Codec<nat>)
    requires Lawful(text) && FailsWell(text) && Lawful(number) && FailsWell(number)
    ensures FailsWell(DiagnosticLayout(text, number))
  {
    Fronted(number, text);
    var c1 := Pair(number, text);
    Fronted(number, c1);
    var c2 := Pair(number, c1);
    Fronted(number, c2);
    var c3 := Pair(number, c2);
    Fronted(number, c3);
    var c4 := Pair(number, c3);
    Fronted(text, c4);
    var c5 := Pair(text, c4);
    Fronted(text, c5);
    var c6 := Pair(text, c5);
    RecordFailsWell(c6, ToDiagnostic, DiagnosticFieldsOf);
  }

  lemma FileFailsWell(text: Codec<Bytes>, texts: Codec<seq<Bytes>>, symbols: Codec<seq<Symbol>>,
                      diagnostics: Codec<seq<Diagnostic>>)
    requires Lawful(text) && FailsWell(text) && Lawful(texts) && FailsWell(texts)
    requires Lawful(symbols) && FailsWell(symbols) && Lawful(diagnostics) && FailsWell(diagnostics)
    ensures FailsWell(FileLayout(text, texts, symbols, diagnostics))
  {
    Fronted(symbols, diagnostics);
    var c1 := Pair(symbols, diagnostics);
    Fronted(texts, c1);
    var c2 := Pair(texts, c1);
    Fronted(text, c2);
    var c3 := Pair(text, c2);
    Fronted(text, c3);
    var c4 := Pair(text, c3);
    RecordFailsWell(c4, ToFile, FileFieldsOf);
  }

  lemma SemanticsFailsWell(text: Codec<Bytes>, symbols: Codec<seq<Symbol>>, diagnostics: Codec<seq<Diagnostic>>)
    requires Lawful(text) && FailsWell(text)
    requires Lawful(symbols) && FailsWell(symbols) && Lawful(diagnostics) && FailsWell(diagnostics)
    ensures FailsWell(SemanticsLayout(text, symbols, diagnostics))
  {
    Fronted(symbols, diagnostics);
    var c1 := Pair(symbols, diagnostics);
    Fronted(text, c1);
    var c2 := Pair(text, c1);
    RecordFailsWell(c2, (f: SemanticsFields) => SemanticResult(f.0, f.1.0, f.1.1),
                    (s: Semantics) => (s.packageName, (s.symbols, s.diagnostics)));
  }

  lemma FormatFailsWell(text: Codec<Bytes>, diagnostics: Codec<seq<Diagnostic>>)
    requires Lawful(text) && FailsWell(text) && Lawful(diagnostics) && FailsWell(diagnostics)
    ensures FailsWell(FormatLayout(text, diagnostics))
  {
    Fronted(text, diagnostics);
    var c1 := Pair(text, diagnostics);
    RecordFailsWell(c1, (f: (Bytes, seq<Diagnostic>)) => FormatResult(f.0, f.1),
                    (r: FormatResult) => (r.source, r.diagnostics));
  }

  /** All three results fail well. */
  lemma ResultsFailWell()
    ensures FailsWell(SEMANTICS) && FailsWell(FORMAT) && FailsWell(WORKSPACE)
  {
    ResultsLawful();
    TextLawful();
    TextFailsWell();
    RecordsFailWell();
    ListLawful(TEXT);
    ListFailsWell(TEXT);
    ListLawful(SYMBOL);
    ListFailsWell(SYMBOL);
    ListLawful(DIAGNOSTIC);
    ListFailsWell(DIAGNOSTIC);
    SemanticsFailsWell(TEXT, ListOf(SYMBOL), ListOf(DIAGNOSTIC));
    FormatFailsWell(TEXT, ListOf(DIAGNOSTIC));
    FileLayoutLawful(TEXT, ListOf(TEXT), ListOf(SYMBOL), ListOf(DIAGNOSTIC));
    FileFailsWell(TEXT, ListOf(TEXT), ListOf(SYMBOL), ListOf(DIAGNOSTIC));
    ListFailsWell(FILE);
  }

  // ------------------------------------------------------------------ what is refused, and why

  /** A payload is of another version when its first four bytes say so; it goes on too far when a whole
      payload and more bytes follow each other; and one that is cut short anywhere is missed bytes. */
  lemma RefusedExactly<T(!new)>(magic: Bytes, c: Codec<T>, payload: Bytes)
    requires |magic| == 4 && Lawful(c) && FailsWell(c)
    ensures Decode(magic, c, payload) == Failure(VersionMismatch) <==> |payload| >= 4 && payload[..4] != magic
    ensures Decode(magic, c, payload) == Failure(TrailingData)
            <==> exists v, more :: c.valid(v) && more != [] && payload == Encode(magic, c, v) + more
    ensures forall v :: c.valid(v) && payload < Encode(magic, c, v) ==> Decode(magic, c, payload) == Failure(Truncated)
  {
    if Decode(magic, c, payload) == Failure(TrailingData) {
      TrailsAfter(magic, c, payload);
    }
    forall v, more | c.valid(v) && more != [] && payload == Encode(magic, c, v) + more
      ensures Decode(magic, c, payload) == Failure(TrailingData)
    {
      DecodeExact(magic, c, Encode(magic, c, v), v);
      ExtensionRejected(magic, c, Encode(magic, c, v), more);
    }
    forall v | c.valid(v) && payload < Encode(magic, c, v)
      ensures Decode(magic, c, payload) == Failure(Truncated)
    {
      CutPayload(magic, c, payload, v);
    }
  }

  lemma TrailsAfter<T(!new)>(magic: Bytes, c: Codec<T>, payload: Bytes)
    requires |magic| == 4 && Lawful(c) && FailsWell(c) && Decode(magic, c, payload) == Failure(TrailingData)
    ensures exists v, more :: c.valid(v) && more != [] && payload == Encode(magic, c, v) + more
  {
    var body := payload[4..];
    assert payload == payload[..4] + body;
    var v, more := c.parse(body).value.0, c.parse(body).value.1;
    PutInFront(c, v, more);
    assert magic + (c.put(v, []) + more) == Encode(magic, c, v) + more;
    assert payload == Encode(magic, c, v) + more;
  }

  lemma CutPayload<T(!new)>(magic: Bytes, c: Codec<T>, payload: Bytes, v: T)
    requires |magic| == 4 && FailsWell(c) && c.valid(v) && payload < Encode(magic, c, v)
    ensures Decode(magic, c, payload) == Failure(Truncated)
  {
    var body := c.put(v, []);
    assert payload == (magic + body)[..|payload|];
    CutInFront(magic, body, |payload|);
    if |payload| >= 4 {
      assert payload[..4] == magic && payload[4..] == body[..|payload| - 4];
    }
  }

  /** A text in bytes: refused when its length is not there, too large, or larger than what is left, and
      when what it covers is not UTF-8; otherwise taken off the front. */
  lemma TextRead(n: nat, rest: Bytes)
    requires n < 0x1_0000_0000
    ensures ParseString(Word4(n) + rest)
            == if n > 1_000_000 then Failure(TooLarge)
               else if n > |rest| then Failure(Truncated)
               else if !ValidUtf8(rest[..n]) then Failure(NotUtf8)
               else Success((rest[..n], rest[n..]))
  {
    FourBytes(n);
    Powers();
    NumberLaws(4);
    assert ParseNumber(4, BigEndian(n, 4) + rest) == Success((n, rest));
  }

  lemma ShortLength(input: Bytes)
    requires |input| < 4
    ensures ParseString(input) == Failure(Truncated)
  {
  }
}
