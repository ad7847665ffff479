/** The layouts of the front end's results: which fields travel, and in which order. */
module WireLayouts {
  import opened Bytes
  import opened Semantic
  import opened WireFormat

  type Symbol = SemanticSymbol<Bytes>
  type Diagnostic = SemanticDiagnostic<Bytes>
  type Semantics = SemanticResult<Bytes>

  datatype FormatResult = FormatResult(source: Bytes, diagnostics: seq<Diagnostic>)

  datatype StructuralFile = StructuralFile(
    fileName: Bytes, packageName: Bytes, imports: seq<Bytes>, symbols: seq<Symbol>, diagnostics: seq<Diagnostic>)

  const SEMANTIC_MAGIC: Bytes := [74, 70, 83, 49]   // "JFS1"
  const FORMAT_MAGIC: Bytes := [74, 70, 70, 49]     // "JFF1"
  const WORKSPACE_MAGIC: Bytes := [74, 70, 66, 49]  // "JFB1"

  // ------------------------------------------------------------------ record layouts

  type SymbolFields = (Bytes, (Bytes, (Bytes, (Bytes, (Bytes, (nat, nat))))))

  function ToSymbol(f: SymbolFields): Symbol {
    SemanticSymbol(f.0, f.1.0, f.1.1.0, f.1.1.1.0, f.1.1.1.1.0, f.1.1.1.1.1.0, f.1.1.1.1.1.1)
  }

  function SymbolFieldsOf(s: Symbol): SymbolFields {
    (s.role, (s.kind, (s.name, (s.qualifiedName, (s.symbolId, (s.start, s.end))))))
  }

  /** A symbol: five strings and two numbers. */
  function SymbolLayout(text: Codec<Bytes>, number: Codec<nat>): Codec<Symbol> {
    Record(Pair(text, Pair(text, Pair(text, Pair(text, Pair(text, Pair(number, number)))))), ToSymbol, SymbolFieldsOf)
  }

  lemma SymbolLayoutLawful(text: Codec<Bytes>, number: Codec<nat>)
    requires Lawful(text) && Lawful(number)
    ensures Lawful(SymbolLayout(text, number))
  {
    var numbers := Pair(number, number);
    PairLawful(number, number);
    PairLawful(text, numbers);
    PairLawful(text, Pair(text, numbers));
    PairLawful(text, Pair(text, Pair(text, numbers)));
    PairLawful(text, Pair(text, Pair(text, Pair(text, numbers))));
    PairLawful(text, Pair(text, Pair(text, Pair(text, Pair(text, numbers)))));
    RecordLawful(Pair(text, Pair(text, Pair(text, Pair(text, Pair(text, numbers))))), ToSymbol, SymbolFieldsOf);
  }

  type DiagnosticFields = (Bytes, (Bytes, (nat, (nat, (nat, (nat, Bytes))))))

  function ToDiagnostic(f: DiagnosticFields): Diagnostic {
    SemanticDiagnostic(f.0, f.1.0, f.1.1.0, f.1.1.1.0, f.1.1.1.1.0, f.1.1.1.1.1.0, f.1.1.1.1.1.1)
  }

  function DiagnosticFieldsOf(d: Diagnostic): DiagnosticFields {
    (d.kind, (d.code, (d.start, (d.end, (d.line, (d.column, d.message))))))
  }

  /** A diagnostic: two strings, four numbers and a message. */
  function DiagnosticLayout(text: Codec<Bytes>, number: Codec<nat>): Codec<Diagnostic> {
    Record(Pair(text, Pair(text, Pair(number, Pair(number, Pair(number, Pair(number, text)))))),
           ToDiagnostic, DiagnosticFieldsOf)
  }

  lemma DiagnosticLayoutLawful(text: Codec<Bytes>, number: Codec<nat>)
    requires Lawful(text) && Lawful(number)
    ensures Lawful(DiagnosticLayout(text, number))
  {
    var last := Pair(number, text);
    PairLawful(number, text);
    PairLawful(number, last);
    PairLawful(number, Pair(number, last));
    PairLawful(number, Pair(number, Pair(number, last)));
    PairLawful(text, Pair(number, Pair(number, Pair(number, last))));
    PairLawful(text, Pair(text, Pair(number, Pair(number, Pair(number, last)))));
    RecordLawful(Pair(text, Pair(text, Pair(number, Pair(number, Pair(number, last))))), ToDiagnostic,
                 DiagnosticFieldsOf);
  }

  type SemanticsFields = (Bytes, (seq<Symbol>, seq<Diagnostic>))

  /** The semantic facts of one document. */
  function SemanticsLayout(text: Codec<Bytes>, symbols: Codec<seq<Symbol>>, diagnostics: Codec<seq<Diagnostic>>)
    : Codec<Semantics>
  {
    Record(Pair(text, Pair(symbols, diagnostics)),
           (f: SemanticsFields) => SemanticResult(f.0, f.1.0, f.1.1),
           (s: Semantics) => (s.packageName, (s.symbols, s.diagnostics)))
  }

  lemma SemanticsLayoutLawful(text: Codec<Bytes>, symbols: Codec<seq<Symbol>>, diagnostics: Codec<seq<Diagnostic>>)
    requires Lawful(text) && Lawful(symbols) && Lawful(diagnostics)
    ensures Lawful(SemanticsLayout(text, symbols, diagnostics))
  {
    PairLawful(symbols, diagnostics);
    PairLawful(text, Pair(symbols, diagnostics));
    RecordLawful(Pair(text, Pair(symbols, diagnostics)),
                 (f: SemanticsFields) => SemanticResult(f.0, f.1.0, f.1.1),
                 (s: Semantics) => (s.packageName, (s.symbols, s.diagnostics)));
  }

  /** A formatted source. */
  function FormatLayout(text: Codec<Bytes>, diagnostics: Codec<seq<Diagnostic>>): Codec<FormatResult> {
    Record(Pair(text, diagnostics),
           (f: (Bytes, seq<Diagnostic>)) => FormatResult(f.0, f.1), (r: FormatResult) => (r.source, r.diagnostics))
  }

  lemma FormatLayoutLawful(text: Codec<Bytes>, diagnostics: Codec<seq<Diagnostic>>)
    requires Lawful(text) && Lawful(diagnostics)
    ensures Lawful(FormatLayout(text, diagnostics))
  {
    PairLawful(text, diagnostics);
    RecordLawful(Pair(text, diagnostics),
                 (f: (Bytes, seq<Diagnostic>)) => FormatResult(f.0, f.1),
                 (r: FormatResult) => (r.source, r.diagnostics));
  }

  type FileFields = (Bytes, (Bytes, (seq<Bytes>, (seq<Symbol>, seq<Diagnostic>))))

  function ToFile(f: FileFields): StructuralFile {
    StructuralFile(f.0, f.1.0, f.1.1.0, f.1.1.1.0, f.1.1.1.1)
  }

  function FileFieldsOf(f: StructuralFile): FileFields {
    (f.fileName, (f.packageName, (f.imports, (f.symbols, f.diagnostics))))
  }

  /** One file of a workspace. */
  function FileLayout(text: Codec<Bytes>, texts: Codec<seq<Bytes>>, symbols: Codec<seq<Symbol>>,
                      diagnostics: Codec<seq<Diagnostic>>): Codec<StructuralFile> {
    Record(Pair(text, Pair(text, Pair(texts, Pair(symbols, diagnostics)))), ToFile, FileFieldsOf)
  }

  lemma FileLayoutLawful(text: Codec<Bytes>, texts: Codec<seq<Bytes>>, symbols: Codec<seq<Symbol>>,
                         diagnostics: Codec<seq<Diagnostic>>)
    requires Lawful(text) && Lawful(texts) && Lawful(symbols) && Lawful(diagnostics)
    ensures Lawful(FileLayout(text, texts, symbols, diagnostics))
  {
    PairLawful(symbols, diagnostics);
    PairLawful(texts, Pair(symbols, diagnostics));
    PairLawful(text, Pair(texts, Pair(symbols, diagnostics)));
    PairLawful(text, Pair(text, Pair(texts, Pair(symbols, diagnostics))));
    RecordLawful(Pair(text, Pair(text, Pair(texts, Pair(symbols, diagnostics)))), ToFile, FileFieldsOf);
  }

  // ------------------------------------------------------------------ the three results

  const SYMBOL := SymbolLayout(TEXT, NUMBER)
  const DIAGNOSTIC := DiagnosticLayout(TEXT, NUMBER)
  const SEMANTICS := SemanticsLayout(TEXT, ListOf(SYMBOL), ListOf(DIAGNOSTIC))
  const FORMAT := FormatLayout(TEXT, ListOf(DIAGNOSTIC))
  const FILE := FileLayout(TEXT, ListOf(TEXT), ListOf(SYMBOL), ListOf(DIAGNOSTIC))
  const WORKSPACE := ListOf(FILE)

  /** All results travel lawfully. */
  lemma ResultsLawful()
    ensures Lawful(SYMBOL) && Lawful(DIAGNOSTIC)
    ensures Lawful(SEMANTICS) && Lawful(FORMAT) && Lawful(WORKSPACE)
  {
    TextLawful();
    NumberLawful();
    SymbolLayoutLawful(TEXT, NUMBER);
    DiagnosticLayoutLawful(TEXT, NUMBER);
    ListLawful(TEXT);
    ListLawful(SYMBOL);
    ListLawful(DIAGNOSTIC);
    SemanticsLayoutLawful(TEXT, ListOf(SYMBOL), ListOf(DIAGNOSTIC));
    FormatLayoutLawful(TEXT, ListOf(DIAGNOSTIC));
    FileLayoutLawful(TEXT, ListOf(TEXT), ListOf(SYMBOL), ListOf(DIAGNOSTIC));
    ListLawful(FILE);
  }
}
