/**
 * The server's symbol extractor (`IDLSymbolExtractor`): the outline of a
 * file (procedures, then functions, then variables) and the resolver of the
 * word under the cursor that the hover and completion handlers use.
 */
module SymbolExtractor {
  import opened Text
  import opened Lsp
  import opened Regex
  import opened ExtractRoutines
  import opened ExtractAssignments
  import opened CursorWords

  /** `equalBefore`: the line's first `=` stands before the cursor column. */
  function EqualBefore(line: String, character: nat): bool
  {
    var equalPos := IndexOf(line, "=", 0);
    equalPos != -1 && equalPos < character
  }

  /**
   * The column the scan compares against and the `lastIndex` the scan
   * starts from, for a cursor not in column 1. The cursor moves one column
   * left; then `test` on the global expression, run on the character there,
   * either fails (the column moves back, `lastIndex` stays 0) or succeeds and
   * leaves `lastIndex` at the end of its one-character match.
   */
  function ScanStart(line: String, character: nat): (nat, nat)
  {
    if character == 0 then (0, 0)
    else
      var useChar := character - 1;
      match NextMatch(Word, Substr(line, useChar, 1), 0)
      case None => (useChar + 1, 0)
      case Some(t) =>
        assert Matched(Substr(line, useChar, 1), t.index, t.groups);
        (useChar, t.End())
  }

  /** The character right after the first occurrence of `w` on the line is `(`. */
  function FollowedByParen(line: String, w: String): bool
  {
    var idx := IndexOf(line, w, 0);
    idx != -1 && Substr(line, idx + |w|, 1) == "("
  }

  /**
   * The `switch` on the chosen word: a word with `.` (checked first) or `->`
   * is split there, and piece 0 is the object, piece 1 the method.
   */
  function MethodParts(name: String, isFunction: bool, equalBefore: bool): SelectedWord
  {
    if Contains(name, ".") then
      SplitFirstPieces(name, ".");
      var split := Split(name, ".");
      SelectedWord(name, "::" + split[1], split[0], split[1], isFunction, true, equalBefore)
    else if Contains(name, "->") then
      SplitFirstPieces(name, "->");
      var split := Split(name, "->");
      SelectedWord(name, "::" + split[1], split[0], split[1], isFunction, true, equalBefore)
    else SelectedWord(name, name, "", "", isFunction, false, equalBefore)
  }

  /** What `getSelectedWord(line, {character})` returns. */
  function SelectedWordOf(line: String, character: nat): SelectedWord
  {
    var equalBefore := EqualBefore(line, character);
    if character == 1 then
      var name := Trim(Substr(line, 0, 1));
      SelectedWord(name, name, "", "", false, false, equalBefore)
    else
      var name := ScannedWord(line, character);
      MethodParts(name, name != "" && FollowedByParen(line, name), equalBefore)
  }

  /** The word the scan picks for a cursor not in column 1, or `""`. */
  function ScannedWord(line: String, character: nat): String
  {
    var start := ScanStart(line, character);
    FirstCovering(line, ExecAll(Word, line, start.1), start.0, false)
  }

  /** `getSelectedWord`. */
  method GetSelectedWord(line: String, character: nat) returns (w: SelectedWord)
    ensures w == SelectedWordOf(line, character)
  {
    var functionFlag := false;
    var equalBefore := false;
    var equalPos := IndexOf(line, "=", 0);
    if equalPos != -1 {
      equalBefore := equalPos < character;
    }
    if character == 1 {
      var name := Trim(Substr(line, 0, 1));
      return SelectedWord(name, name, "", "", false, false, equalBefore);
    }
    var symbolName;
    symbolName, functionFlag := ScanName(line, character);
    w := MethodParts(symbolName, functionFlag, equalBefore);
  }

  /** The scan of `getSelectedWord` for a cursor not in column 1: the word and whether `(` follows it. */
  method ScanName(line: String, character: nat) returns (symbolName: String, functionFlag: bool)
    requires character != 1
    ensures symbolName == ScannedWord(line, character)
    ensures functionFlag == (symbolName != "" && FollowedByParen(line, symbolName))
  {
    functionFlag := false;
    var useChar, lastIndex := StartScan(line, character);
    var idx;
    symbolName, idx := ScanWords(Word, line, lastIndex, useChar, false);
    if symbolName != "" {
      functionFlag := Substr(line, idx + |symbolName|, 1) == "(";
    }
  }

  /**
   * The cursor adjustment before the scan, for a cursor not in column 1:
   * step left, and step back unless `test` finds a word character there.
   */
  method StartScan(line: String, character: nat) returns (useChar: nat, lastIndex: nat)
    requires character != 1
    ensures (useChar, lastIndex) == ScanStart(line, character)
  {
    useChar := character;
    lastIndex := 0;
    if character > 0 {
      useChar := useChar - 1;
      var test := NextMatch(Word, Substr(line, useChar, 1), 0);
      if test.None? {
        useChar := useChar + 1;
      } else {
        assert Matched(Substr(line, useChar, 1), test.value.index, test.value.groups);
        lastIndex := test.value.End();
      }
    }
  }

  /** `equalBefore` holds exactly when some `=` stands before the cursor column. */
  lemma EqualBeforeRule(line: String, character: nat)
    ensures EqualBefore(line, character) <==> exists j :: 0 <= j < |line| && j < character && line[j] == '='
  {
    IndexOfSingle(line, '=', 0);
  }

  /**
   * The start of the scan. At column 0 it starts at 0 and compares with 0.
   * Otherwise it compares with the column left of the cursor when that holds
   * a word character, and then starts at 1, so that a word at the start of
   * the line is never seen whole; else it compares with the cursor column
   * and starts at 0.
   */
  lemma ScanStartRule(line: String, character: nat)
    ensures character == 0 ==> ScanStart(line, character) == (0, 0)
    ensures character > 0 && character - 1 < |line| && SelectChars.Has(line[character - 1]) ==>
      ScanStart(line, character) == (character - 1, 1)
    ensures character > 0 && !(character - 1 < |line| && SelectChars.Has(line[character - 1])) ==>
      ScanStart(line, character) == (character, 0)
  {
    if character > 0 {
      var u := character - 1;
      var one := Substr(line, u, 1);
      if u < |line| {
        assert one == [line[u]];
        if SelectChars.Has(line[u]) {
          assert RunEnd(SelectChars, one, 1) == 1;
          assert RunEnd(SelectChars, one, 0) == 1;
          assert one[0..1] == one;
          assert MatchAt(Word, one, 0) == Some([one]);
        } else {
          assert MatchAt(Word, one, 0).None?;
          assert MatchAt(Word, one, 1).None?;
        }
      } else {
        assert one == [];
        assert MatchAt(Word, one, 0).None?;
      }
    }
  }

  /** `isFunction` tests the character right after the word's first occurrence. */
  lemma FollowedByParenRule(line: String, w: String)
    ensures FollowedByParen(line, w) <==>
      var idx := IndexOf(line, w, 0);
      idx != -1 && idx + |w| < |line| && line[idx + |w|] == '('
  {
  }

  /**
   * The name split: a word with no `.` and no `->` is its own search name; a
   * word with a `.` (else with a `->`) is a method call whose object is the
   * text before the first separator and whose method is the text after it up
   * to the next separator, and the search name is `::` + that method.
   */
  lemma MethodPartsRule(name: String, isFunction: bool, equalBefore: bool)
    ensures var w := MethodParts(name, isFunction, equalBefore);
      w.name == name && w.isFunction == isFunction && w.equalBefore == equalBefore &&
      (w.isMethod <==> Contains(name, ".") || Contains(name, "->")) &&
      (!w.isMethod ==> w.searchName == name && w.objName == "" && w.methodName == "") &&
      (w.isMethod ==> w.searchName == "::" + w.methodName) &&
      (Contains(name, ".") ==> FirstPieces(name, ".", w.objName, w.methodName)) &&
      (!Contains(name, ".") && Contains(name, "->") ==> FirstPieces(name, "->", w.objName, w.methodName))
  {
    if Contains(name, ".") {
      SplitFirstPieces(name, ".");
    } else if Contains(name, "->") {
      SplitFirstPieces(name, "->");
    }
  }

  /** A click in column 1 gives the first character of the line, trimmed, as a plain name. */
  lemma FirstColumnRule(line: String)
    ensures var w := SelectedWordOf(line, 1);
      w.name == w.searchName == Trim(Substr(line, 0, 1)) && w.objName == "" && w.methodName == "" &&
      !w.isMethod && !w.isFunction && w.equalBefore == EqualBefore(line, 1)
  {
  }

  /**
   * The word chosen (cursor not in column 1) is the word the scan picks
   * (`CursorWords.ScanRule`) starting where `ScanStartRule` says, split as
   * `MethodPartsRule` says; `isFunction` holds when a `(` follows the word's
   * first occurrence, and an empty word is neither a function nor a method.
   */
  lemma SelectedWordRule(line: String, character: nat)
    requires character != 1
    ensures var w := SelectedWordOf(line, character);
      w.name == ScannedWord(line, character) && w.equalBefore == EqualBefore(line, character) &&
      (w.isFunction <==> w.name != "" && FollowedByParen(line, w.name)) &&
      (w.name == "" ==> !w.isMethod)
  {
    var name := ScannedWord(line, character);
    MethodPartsRule(name, name != "" && FollowedByParen(line, name), EqualBefore(line, character));
  }

  /**
   * The effect of `test` leaving `lastIndex` at 1: with the cursor after the
   * `b` of `ab`, the scan starts at column 1 and picks `b`, not `ab`.
   */
  lemma SecondColumnExample()
    ensures SelectedWordOf("ab", 2).name == "b"
  {
    ScanStartRule("ab", 2);
    var ms := ExecAll(Word, "ab", 1);
    ExecStep(Word, "ab", 1);
    assert RunEnd(SelectChars, "ab", 2) == 2;
    assert RunEnd(SelectChars, "ab", 1) == 2;
    assert "ab"[1..2] == "b";
    assert MatchAt(Word, "ab", 1) == Some(["b"]);
    assert ms[0] == Match(1, ["b"]);
    assert IndexOf("ab", "b", 0) == 1 by {
      assert !OccursAt("ab", "b", 0);
    }
  }

  /** `symbolizeAsDocumentSymbols`: procedures, then functions, then variables; one class list threads through. */
  function DocumentSymbols(text: String): seq<Symbol>
  {
    var procedures := Extracted(text, ProDef, []);
    var functions := Extracted(text, FunctionDef, procedures.1);
    procedures.0 + functions.0 + Assignments(text, Assign, SymbolKind.Variable)
  }

  /** `symbolizeAsDocumentSymbols`: the three passes, the class list of the first handed to the second. */
  method SymbolizeAsDocumentSymbols(text: String) returns (symbols: seq<Symbol>)
    ensures symbols == DocumentSymbols(text)
  {
    var objects: seq<String> := [];
    var procedures, functions, variables;
    procedures, objects := ExtractRoutines.ExtractRoutines(text, ProDef, objects);
    functions, objects := ExtractRoutines.ExtractRoutines(text, FunctionDef, objects);
    variables := ExtractAssignments.ExtractAssignments(text, Assign, SymbolKind.Variable);
    symbols := procedures + functions + variables;
  }

  /**
   * The outline's order: one symbol per procedure definition, each with a
   * `Procedure…` detail; then one per function definition, named with `()`
   * and with a `Function…` detail; then two `Variable` symbols per
   * assignment.
   */
  lemma DocumentSymbolsOrder(text: String)
    ensures var np := |ExecAll(ProDef.Pattern(), text, 0)|;
      var nf := |ExecAll(FunctionDef.Pattern(), text, 0)|;
      var r := DocumentSymbols(text);
      |r| == np + nf + 2 * |ExecAll(Assign, text, 0)| &&
      (forall i :: 0 <= i < np ==> StartsWith(r[i].detail, "Procedure")) &&
      (forall i :: np <= i < np + nf ==> StartsWith(r[i].detail, "Function") && EndsWith(r[i].name, "()")) &&
      (forall i :: np + nf <= i < |r| ==> r[i].kind == SymbolKind.Variable && r[i].detail == "Variable")
  {
    var procedures := Extracted(text, ProDef, []);
    var functions := Extracted(text, FunctionDef, procedures.1);
    RoutinePass(text, ProDef, []);
    RoutinePass(text, FunctionDef, procedures.1);
    VariablePass(text);
    OutlineParts(procedures.0, functions.0, Assignments(text, Assign, SymbolKind.Variable), SymbolKind.Variable);
  }

  /** How the three passes line up in the concatenated outline (variables of kind `kind`). */
  lemma OutlineParts(procedures: seq<Symbol>, functions: seq<Symbol>, variables: seq<Symbol>, kind: SymbolKind)
    requires Labelled(procedures, ProDef) && Labelled(functions, FunctionDef)
    requires VariableShaped(variables, kind)
    ensures var np := |procedures|;
      var nf := |functions|;
      var r := procedures + functions + variables;
      (forall i :: 0 <= i < np ==> StartsWith(r[i].detail, "Procedure")) &&
      (forall i :: np <= i < np + nf ==> StartsWith(r[i].detail, "Function") && EndsWith(r[i].name, "()")) &&
      (forall i :: np + nf <= i < |r| ==> r[i].kind == kind && r[i].detail == "Variable")
  {
    var r := procedures + functions + variables;
    var np := |procedures|;
    var nf := |functions|;
    assert forall i :: 0 <= i < np ==> r[i] == procedures[i];
    assert forall i :: np <= i < np + nf ==> r[i] == functions[i - np];
    assert forall i :: np + nf <= i < |r| ==> r[i] == variables[i - np - nf];
  }

  /** The variable pass: two `Variable` symbols per assignment. */
  lemma VariablePass(text: String)
    ensures var vars := Assignments(text, Assign, SymbolKind.Variable);
      |vars| == 2 * |ExecAll(Assign, text, 0)| && VariableShaped(vars, SymbolKind.Variable)
  {
    var ms := ExecAll(Assign, text, 0);
    AssignGroups(text);
    if |ms| > 0 {
      PairBlocks(text, ms, SymbolKind.Variable, 0);
    }
    AssignmentKinds(text, ms, SymbolKind.Variable);
  }

  /** The flat form of a document symbol, located in `uri`. */
  function Information(uri: Uri, s: Symbol): SymbolInformation
  {
    SymbolInformation(s.name, s.kind, Location(uri, s.range))
  }

  /** `symbolizeAsSymbolInformation`: each outline symbol, in order, as name, kind and location in `uri`. */
  method SymbolizeAsSymbolInformation(text: String, uri: Uri) returns (out: seq<SymbolInformation>)
    ensures |out| == |DocumentSymbols(text)|
    ensures forall i :: 0 <= i < |out| ==> out[i] == Information(uri, DocumentSymbols(text)[i])
  {
    var symbols := SymbolizeAsDocumentSymbols(text);
    out := ToInformation(symbols, uri);
  }

  /** The `forEach` of `symbolizeAsSymbolInformation`: each symbol keeps its name, kind and range, located in `uri`. */
  method ToInformation(symbols: seq<Symbol>, uri: Uri) returns (out: seq<SymbolInformation>)
    ensures |out| == |symbols|
    ensures forall i :: 0 <= i < |symbols| ==>
      out[i].name == symbols[i].name && out[i].kind == symbols[i].kind && out[i].location == Location(uri, symbols[i].range)
  {
    out := [];
    var i := 0;
    while i < |symbols|
      invariant i <= |symbols|
      invariant |out| == i
      invariant forall k :: 0 <= k < i ==> out[k] == Information(uri, symbols[k])
    {
      var symbol := symbols[i];
      out := out + [SymbolInformation(symbol.name, symbol.kind, Location(uri, symbol.range))];
      i := i + 1;
    }
  }
}
