/**
 * The language-server protocol values the IDL server produces: positions,
 * ranges, symbols, completion items and diagnostics.
 */
module Lsp {
  import opened Text

  type Uri = String

  datatype Position = Position(line: nat, character: nat)

  datatype Range = Range(start: Position, end: Position)

  /** A range on one line, from column `from` to column `to`. */
  function LineRange(line: nat, from: nat, to: nat): Range
  {
    Range(Position(line, from), Position(line, to))
  }

  /** The symbol kinds the IDL extractors produce. */
  datatype SymbolKind = Class | Method | Function | Variable | Constant
  {
    /** The kind's number in the protocol. */
    function Code(): nat
    {
      match this
      case Class => 5
      case Method => 6
      case Function => 12
      case Variable => 13
      case Constant => 14
    }
  }

  datatype CompletionItemKind = TextItem | MethodItem | FunctionItem | VariableItem | ClassItem | ConstantItem
  {
    function Code(): nat
    {
      match this
      case TextItem => 1
      case MethodItem => 2
      case FunctionItem => 3
      case VariableItem => 6
      case ClassItem => 7
      case ConstantItem => 21
    }
  }

  datatype Severity = Error | Information
  {
    function Code(): nat
    {
      match this
      case Error => 1
      case Information => 3
    }
  }

  /**
   * A document symbol with the two fields the IDL server adds: the name
   * shown in the outline and, for variables, the text right of the `=`.
   */
  datatype Symbol = Symbol(
    name: String,
    detail: String,
    kind: SymbolKind,
    range: Range,
    selectionRange: Range,
    displayName: String,
    next: Option<String>)

  /** A symbol together with the document it was found in. */
  datatype Lookup = Lookup(uri: Uri, symbol: Symbol)

  datatype Location = Location(uri: Uri, range: Range)

  datatype SymbolInformation = SymbolInformation(name: String, kind: SymbolKind, location: Location)

  /** A completion item; `labelText` is the protocol's `label`, a reserved word in Dafny. */
  datatype CompletionItem = CompletionItem(
    labelText: String,
    kind: Option<CompletionItemKind>,
    insertText: Option<String>,
    documentation: Option<String>)

  datatype Diagnostic = Diagnostic(severity: Severity, range: Range, message: String, source: Option<String>)

  /** The word under the cursor, as the completion and hover handlers see it. */
  datatype SelectedWord = SelectedWord(
    name: String,
    searchName: String,
    objName: String,
    methodName: String,
    isFunction: bool,
    isMethod: bool,
    equalBefore: bool)

  /**
   * A search target prepared by the fuzzy matcher. Only the target string is
   * observable here; the matcher's ranking is an input of the model.
   */
  datatype Prepared = Prepared(target: String)

  /** Hits of a fuzzy search, given as indices into the searched targets. */
  predicate ValidHits(hits: seq<nat>, count: nat)
  {
    forall i :: 0 <= i < |hits| ==> hits[i] < count
  }
}
