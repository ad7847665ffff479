/** The facts the Java front end reports about one document. `S` is the representation of
    text: decoded strings for the indexes, UTF-8 bytes on the wire. */
module Semantic {

  datatype SemanticSymbol<S> = SemanticSymbol(
    role: S, kind: S, name: S, qualifiedName: S, symbolId: S, start: nat, end: nat)

  datatype SemanticDiagnostic<S> = SemanticDiagnostic(
    kind: S, code: S, start: nat, end: nat, line: nat, column: nat, message: S)

  datatype SemanticResult<S> = SemanticResult(
    packageName: S, symbols: seq<SemanticSymbol<S>>, diagnostics: seq<SemanticDiagnostic<S>>)
}
