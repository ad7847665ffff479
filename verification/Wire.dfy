/** Decoding the front end's results (`WireReader` and the `decode_*_result` functions): a
    payload is accepted exactly when it is the canonical encoding of the value returned. */
module Wire {
  import opened Bytes
  import opened Semantic
  import opened WireBytes
  import opened WireFormat
  import opened WireLayouts
  import opened Wrappers

  // ------------------------------------------------------------------ the reader

  /** A read that does what a parser says: the same value and the same rest, or the same error. */
  predicate Follows<T(==)>(parsed: Parsed<T>, r: Result<T, WireError>, rest: Bytes) {
    match parsed
    case Success(p) => r == Success(p.0) && rest == p.1
    case Failure(error) => r == Failure(error)
  }

  /** A list half read: `values` have been taken, and `remaining` holds `left` more. */
  predicate Midway<T(==)>(c: Codec<T>, whole: Parsed<seq<T>>, values: seq<T>, left: nat, remaining: Bytes) {
    match ParseMany(c, left, remaining)
    case Success(p) => whole == Success((values + p.0, p.1))
    case Failure(error) => whole == Failure(error)
  }

  lemma MidwayStarts<T>(c: Codec<T>, count: nat, input: Bytes)
    ensures Midway(c, ParseMany(c, count, input), [], count, input)
  {
    if ParseMany(c, count, input).Success? {
      var values := ParseMany(c, count, input).value.0;
      assert [] + values == values;
    }
  }

  lemma MidwayEnds<T>(c: Codec<T>, whole: Parsed<seq<T>>, values: seq<T>, remaining: Bytes)
    requires Midway(c, whole, values, 0, remaining)
    ensures whole == Success((values, remaining))
  {
    assert values + [] == values;
  }

  lemma MidwayReads<T>(c: Codec<T>, whole: Parsed<seq<T>>, values: seq<T>, left: nat, before: Bytes,
                       r: Result<T, WireError>, after: Bytes)
    requires left > 0 && Midway(c, whole, values, left, before) && Follows(c.parse(before), r, after)
    ensures r.Success? ==> Midway(c, whole, values + [r.value], left - 1, after)
    ensures r.Failure? ==> whole == Failure(r.error)
  {
    if r.Success? && ParseMany(c, left - 1, after).Success? {
      var others := ParseMany(c, left - 1, after).value.0;
      assert values + ([r.value] + others) == values + [r.value] + others;
    }
  }

  class WireReader {
    var remaining: Bytes
    ghost const text: Codec<Bytes>
    ghost const number: Codec<nat>
    ghost const symbol: Codec<Symbol>
    ghost const diagnostic: Codec<Diagnostic>
    ghost const file: Codec<StructuralFile>

    /** The codecs parse as the wire format says. The triggers keep proofs about records from
        looking inside strings, and proofs about lists from looking inside records. */
    ghost predicate Valid() {
      && (forall input {:trigger ParseString(input)} :: text.parse(input) == ParseString(input))
      && (forall input {:trigger ParseU64(input)} :: number.parse(input) == ParseU64(input))
      && (forall input {:trigger SymbolLayout(text, number).parse(input)} ::
            symbol.parse(input) == SymbolLayout(text, number).parse(input))
      && (forall input {:trigger DiagnosticLayout(text, number).parse(input)} ::
            diagnostic.parse(input) == DiagnosticLayout(text, number).parse(input))
      && (forall input {:trigger WholeFile().parse(input)} :: file.parse(input) == WholeFile().parse(input))
    }

    ghost function WholeFile(): Codec<StructuralFile> {
      FileLayout(text, ListOf(text), ListOf(symbol), ListOf(diagnostic))
    }

    constructor (bytes: Bytes)
      ensures Valid() && remaining == bytes
      ensures text == TEXT && number == NUMBER && symbol == SYMBOL && diagnostic == DIAGNOSTIC && file == FILE
    {
      remaining, text, number, symbol, diagnostic, file := bytes, TEXT, NUMBER, SYMBOL, DIAGNOSTIC, FILE;
    }

    method Take(length: nat) returns (r: Result<Bytes, WireError>)
      modifies this
      ensures Follows(ParseTake(length, old(remaining)), r, remaining)
      ensures r.Failure? ==> remaining == old(remaining)
    {
      if length > |remaining| {
        return Failure(Truncated);
      }
      var value := remaining[..length];
      remaining := remaining[length..];
      r := Success(value);
    }

    method ReadU32() returns (r: Result<nat, WireError>)
      modifies this
      ensures Follows(ParseNumber(4, old(remaining)), r, remaining)
    {
      var bytes :- Take(4);
      r := Success(FromBigEndian(bytes));
    }

    method ReadU64() returns (r: Result<nat, WireError>)
      requires Valid()
      modifies this
      ensures Follows(number.parse(old(remaining)), r, remaining)
    {
      assert number.parse(remaining) == ParseU64(remaining);
      var bytes :- Take(8);
      r := Success(FromBigEndian(bytes));
    }

    method ReadCount() returns (r: Result<nat, WireError>)
      modifies this
      ensures Follows(COUNT.parse(old(remaining)), r, remaining)
    {
      var count :- ReadU32();
      if count > LIMIT {
        return Failure(TooLarge);
      }
      r := Success(count);
    }

    method ReadString() returns (r: Result<Bytes, WireError>)
      requires Valid()
      modifies this
      ensures Follows(text.parse(old(remaining)), r, remaining)
    {
      assert text.parse(remaining) == ParseString(remaining);
      var length :- ReadCount();
      var value :- Take(length);
      r := if ValidUtf8(value) then Success(value) else Failure(NotUtf8);
    }

    method ReadSymbol() returns (r: Result<Symbol, WireError>)
      requires Valid()
      modifies this
      ensures Follows(symbol.parse(old(remaining)), r, remaining)
    {
      assert symbol.parse(remaining) == SymbolLayout(text, number).parse(remaining);
      var role :- ReadString();
      var kind :- ReadString();
      var name :- ReadString();
      var qualifiedName :- ReadString();
      var symbolId :- ReadString();
      var start :- ReadU64();
      var end :- ReadU64();
      r := Success(SemanticSymbol(role, kind, name, qualifiedName, symbolId, start, end));
    }

    method ReadDiagnostic() returns (r: Result<Diagnostic, WireError>)
      requires Valid()
      modifies this
      ensures Follows(diagnostic.parse(old(remaining)), r, remaining)
    {
      assert diagnostic.parse(remaining) == DiagnosticLayout(text, number).parse(remaining);
      var kind :- ReadString();
      var code :- ReadString();
      var start :- ReadU64();
      var end :- ReadU64();
      var line :- ReadU64();
      var column :- ReadU64();
      var message :- ReadString();
      r := Success(SemanticDiagnostic(kind, code, start, end, line, column, message));
    }

    method ReadStrings() returns (r: Result<seq<Bytes>, WireError>)
      requires Valid()
      modifies this
      ensures Follows(ListOf(text).parse(old(remaining)), r, remaining)
    {
      var count :- ReadCount();
      ghost var whole := ParseMany(text, count, remaining);
      MidwayStarts(text, count, remaining);
      var strings: seq<Bytes> := [];
      for k := 0 to count
        invariant Midway(text, whole, strings, count - k, remaining)
      {
        ghost var before := remaining;
        var next := ReadString();
        MidwayReads(text, whole, strings, count - k, before, next, remaining);
        if next.Failure? {
          return Failure(next.error);
        }
        strings := strings + [next.value];
      }
      MidwayEnds(text, whole, strings, remaining);
      r := Success(strings);
    }

    method ReadSymbols() returns (r: Result<seq<Symbol>, WireError>)
      requires Valid()
      modifies this
      ensures Follows(ListOf(symbol).parse(old(remaining)), r, remaining)
    {
      var count :- ReadCount();
      ghost var whole := ParseMany(symbol, count, remaining);
      MidwayStarts(symbol, count, remaining);
      var symbols: seq<Symbol> := [];
      for k := 0 to count
        invariant Midway(symbol, whole, symbols, count - k, remaining)
      {
        ghost var before := remaining;
        var next := ReadSymbol();
        MidwayReads(symbol, whole, symbols, count - k, before, next, remaining);
        if next.Failure? {
          return Failure(next.error);
        }
        symbols := symbols + [next.value];
      }
      MidwayEnds(symbol, whole, symbols, remaining);
      r := Success(symbols);
    }

    method ReadDiagnostics() returns (r: Result<seq<Diagnostic>, WireError>)
      requires Valid()
      modifies this
      ensures Follows(ListOf(diagnostic).parse(old(remaining)), r, remaining)
    {
      var count :- ReadCount();
      ghost var whole := ParseMany(diagnostic, count, remaining);
      MidwayStarts(diagnostic, count, remaining);
      var diagnostics: seq<Diagnostic> := [];
      for k := 0 to count
        invariant Midway(diagnostic, whole, diagnostics, count - k, remaining)
      {
        ghost var before := remaining;
        var next := ReadDiagnostic();
        MidwayReads(diagnostic, whole, diagnostics, count - k, before, next, remaining);
        if next.Failure? {
          return Failure(next.error);
        }
        diagnostics := diagnostics + [next.value];
      }
      MidwayEnds(diagnostic, whole, diagnostics, remaining);
      r := Success(diagnostics);
    }

    method ReadFile() returns (r: Result<StructuralFile, WireError>)
      requires Valid()
      modifies this
      ensures Follows(file.parse(old(remaining)), r, remaining)
    {
      assert file.parse(remaining) == WholeFile().parse(remaining);
      var fileName :- ReadString();
      var packageName :- ReadString();
      var imports :- ReadStrings();
      var symbols :- ReadSymbols();
      var diagnostics :- ReadDiagnostics();
      r := Success(StructuralFile(fileName, packageName, imports, symbols, diagnostics));
    }

    method ReadFiles() returns (r: Result<seq<StructuralFile>, WireError>)
      requires Valid()
      modifies this
      ensures Follows(ListOf(file).parse(old(remaining)), r, remaining)
    {
      var count :- ReadCount();
      ghost var whole := ParseMany(file, count, remaining);
      MidwayStarts(file, count, remaining);
      var files: seq<StructuralFile> := [];
      for k := 0 to count
        invariant Midway(file, whole, files, count - k, remaining)
      {
        ghost var before := remaining;
        var next := ReadFile();
        MidwayReads(file, whole, files, count - k, before, next, remaining);
        if next.Failure? {
          return Failure(next.error);
        }
        files := files + [next.value];
      }
      MidwayEnds(file, whole, files, remaining);
      r := Success(files);
    }
  }

  /** Accepts exactly the canonical encodings of semantic results. */
  method DecodeSemanticResult(payload: Bytes) returns (r: Result<Semantics, WireError>)
    ensures r == Decode(SEMANTIC_MAGIC, SEMANTICS, payload)
    ensures forall v :: r == Success(v) <==> SemanticsTravel(v) && payload == SemanticsPayload(v)
  {
    SemanticsExact(payload);
    var input := new WireReader(payload);
    var magic :- input.Take(4);
    if magic != SEMANTIC_MAGIC {
      return Failure(VersionMismatch);
    }
    var packageName :- input.ReadString();
    var symbols :- input.ReadSymbols();
    var diagnostics :- input.ReadDiagnostics();
    if input.remaining != [] {
      return Failure(TrailingData);
    }
    r := Success(SemanticResult(packageName, symbols, diagnostics));
  }

  /** Accepts exactly the canonical encodings of format results. */
  method DecodeFormatResult(payload: Bytes) returns (r: Result<FormatResult, WireError>)
    ensures r == Decode(FORMAT_MAGIC, FORMAT, payload)
    ensures forall v :: r == Success(v) <==> FormatTravels(v) && payload == FormatPayload(v)
  {
    FormatExact(payload);
    var input := new WireReader(payload);
    var magic :- input.Take(4);
    if magic != FORMAT_MAGIC {
      return Failure(VersionMismatch);
    }
    var source :- input.ReadString();
    var diagnostics :- input.ReadDiagnostics();
    if input.remaining != [] {
      return Failure(TrailingData);
    }
    r := Success(FormatResult(source, diagnostics));
  }

  /** Accepts exactly the canonical encodings of workspace results. */
  method DecodeWorkspaceResult(payload: Bytes) returns (r: Result<seq<StructuralFile>, WireError>)
    ensures r == Decode(WORKSPACE_MAGIC, WORKSPACE, payload)
    ensures forall v :: r == Success(v) <==> FilesTravel(v) && payload == WorkspacePayload(v)
  {
    WorkspaceExact(payload);
    var input := new WireReader(payload);
    var magic :- input.Take(4);
    if magic != WORKSPACE_MAGIC {
      return Failure(VersionMismatch);
    }
    var files :- input.ReadFiles();
    if input.remaining != [] {
      return Failure(TrailingData);
    }
    r := Success(files);
  }
}
