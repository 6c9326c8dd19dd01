/**
 * The older server-side extractor (`IDLDocumentSymbolExtractor`): the same
 * routine passes as the newer one, a variable pass that reports each
 * assignment once as a `Constant`, a strict word resolver without the method
 * split, and `getClosestWord`, which returns the run of non-blank characters
 * around the cursor.
 */
module DocumentSymbolExtractor {
  import opened Text
  import opened Lsp
  import opened Regex
  import opened ExtractRoutines
  import opened ExtractAssignments
  import opened CursorWords
  import SymbolExtractor

  /** `symbolizeAsDocumentSymbols`: procedures, then functions, then one `Constant` per assignment. */
  function DocumentSymbols(text: String): seq<Symbol>
  {
    var procedures := Extracted(text, ProDef, []);
    var functions := Extracted(text, FunctionDef, procedures.1);
    procedures.0 + functions.0 + Assignments(text, OldAssign, SymbolKind.Constant)
  }

  /** `symbolizeAsDocumentSymbols`: the three passes, the class list of the first handed to the second. */
  method SymbolizeAsDocumentSymbols(text: String) returns (symbols: seq<Symbol>)
    ensures symbols == DocumentSymbols(text)
  {
    var objects: seq<String> := [];
    var procedures, functions, variables;
    procedures, objects := ExtractRoutines.ExtractRoutines(text, ProDef, objects);
    functions, objects := ExtractRoutines.ExtractRoutines(text, FunctionDef, objects);
    variables := ExtractAssignments.ExtractAssignments(text, OldAssign, SymbolKind.Constant);
    symbols := procedures + functions + variables;
  }

  /** `symbolizeAsSymbolInformation`: each outline symbol, in order, as name, kind and location in `uri`. */
  method SymbolizeAsSymbolInformation(text: String, uri: Uri) returns (out: seq<SymbolInformation>)
    ensures |out| == |DocumentSymbols(text)|
    ensures forall i :: 0 <= i < |out| ==> out[i] == SymbolExtractor.Information(uri, DocumentSymbols(text)[i])
  {
    var symbols := SymbolizeAsDocumentSymbols(text);
    out := SymbolExtractor.ToInformation(symbols, uri);
  }

  /**
   * The outline's order: one `Procedure…` symbol per procedure definition,
   * then one `Function…` symbol named with `()` per function definition,
   * then one `Constant` symbol with detail `"Variable"` per assignment.
   */
  lemma DocumentSymbolsOrder(text: String)
    ensures var np := |ExecAll(ProDef.Pattern(), text, 0)|;
      var nf := |ExecAll(FunctionDef.Pattern(), text, 0)|;
      var r := DocumentSymbols(text);
      |r| == np + nf + |ExecAll(OldAssign, text, 0)| &&
      (forall i :: 0 <= i < np ==> StartsWith(r[i].detail, "Procedure")) &&
      (forall i :: np <= i < np + nf ==> StartsWith(r[i].detail, "Function") && EndsWith(r[i].name, "()")) &&
      (forall i :: np + nf <= i < |r| ==> r[i].kind == SymbolKind.Constant && r[i].detail == "Variable")
  {
    var procedures := Extracted(text, ProDef, []);
    var functions := Extracted(text, FunctionDef, procedures.1);
    RoutinePass(text, ProDef, []);
    RoutinePass(text, FunctionDef, procedures.1);
    VariablePass(text);
    SymbolExtractor.OutlineParts(procedures.0, functions.0, Assignments(text, OldAssign, SymbolKind.Constant), SymbolKind.Constant);
  }

  /** The variable pass: one `Constant` symbol with detail `"Variable"` per assignment. */
  lemma VariablePass(text: String)
    ensures var vars := Assignments(text, OldAssign, SymbolKind.Constant);
      |vars| == |ExecAll(OldAssign, text, 0)| && VariableShaped(vars, SymbolKind.Constant)
  {
    var ms := ExecAll(OldAssign, text, 0);
    OldAssignGroups(text);
    if |ms| > 0 {
      SingleBlocks(text, ms, SymbolKind.Constant, 0);
    }
    AssignmentKinds(text, ms, SymbolKind.Constant);
  }

  /** The column `getSelectedWord` and `getClosestWord` compare with: one left of the cursor, except at column 0. */
  function UseChar(character: nat): nat
  {
    if character > 0 then character - 1 else character
  }

  /** What `getSelectedWord(line, {character})` returns. */
  function SelectedName(line: String, character: nat): String
  {
    if character == 1 then Trim(Substr(line, 0, 1))
    else FirstCovering(line, ExecAll(Ident, line, 0), UseChar(character), true)
  }

  /**
   * `getSelectedWord`: column 1 gives the trimmed first character; otherwise
   * the scan over the identifiers of the line, from its start, with the
   * strict test `idx < useChar < idx + length`.
   */
  method GetSelectedWord(line: String, character: nat) returns (symbolName: String)
    ensures symbolName == SelectedName(line, character)
  {
    var useChar := character;
    if character > 0 {
      useChar := useChar - 1;
      if useChar == 0 {
        return Trim(Substr(line, 0, 1));
      }
    }
    var idx;
    symbolName, idx := ScanWords(Ident, line, 0, useChar, true);
  }

  /** At column 0 nothing is found: no occurrence can start before column 0. */
  lemma ColumnZeroRule(line: String)
    ensures SelectedName(line, 0) == ""
  {
    NothingCoversZero(line, ExecAll(Ident, line, 0));
  }

  /** At column 1 the first character is the answer, unless the line is empty or starts with white space. */
  lemma ColumnOneRule(line: String)
    ensures |line| == 0 || IsSpace(line[0]) ==> SelectedName(line, 1) == ""
    ensures |line| > 0 && !IsSpace(line[0]) ==> SelectedName(line, 1) == [line[0]]
  {
    var one := Substr(line, 0, 1);
    TrimRightSpec(one);
    TrimLeftSpec(TrimRight(one));
    if |line| > 0 {
      assert one == [line[0]];
    } else {
      assert one == [];
    }
  }

  /**
   * From column 2 on, the name is the first identifier of the line whose
   * first occurrence `idx` has `idx < character - 1 < idx + length`, and
   * `""` when there is none.
   */
  lemma SelectedNameRule(line: String, character: nat)
    requires character >= 2
    ensures var w := SelectedName(line, character);
      var ms := ExecAll(Ident, line, 0);
      (w == "" ==> forall i :: 0 <= i < |ms| ==> !Covers(line, ms[i].groups[0], character - 1, true)) &&
      (w != "" ==>
        exists i :: 0 <= i < |ms| && ms[i].groups == [w] && Covers(line, w, character - 1, true) &&
          forall k :: 0 <= k < i ==> !Covers(line, ms[k].groups[0], character - 1, true))
  {
    var u := character - 1;
    assert UseChar(character) == u;
    assert SelectedName(line, character) == FirstCovering(line, ExecAll(Ident, line, 0), u, true);
    ScanRule(Ident, line, u, 0, true);
  }

  /** JavaScript's `slice` bound: a negative index counts from the end; both clamp to `[0, len]`. */
  function SliceIndex(len: nat, k: int): (r: nat)
    ensures r <= len
  {
    if k < 0 then (if len + k < 0 then 0 else len + k) else if k > len then len else k
  }

  /** `s.slice(start, end)`: empty when the clamped start is not before the clamped end. */
  function Slice(s: String, start: int, end: int): String
  {
    var a := SliceIndex(|s|, start);
    var b := SliceIndex(|s|, end);
    if a < b then s[a..b] else []
  }

  /** `s.search(/\s/)`: the first white-space position, or -1. */
  function SearchSpace(s: String): (r: int)
    ensures r == -1 || (0 <= r < |s| && IsSpace(s[r]))
    ensures forall j :: 0 <= j < |s| && (r == -1 || j < r) ==> !IsSpace(s[j])
  {
    if |s| == 0 then -1
    else if IsSpace(s[0]) then 0
    else
      var r := SearchSpace(s[1..]);
      assert forall j :: 1 <= j < |s| ==> s[j] == s[1..][j - 1];
      if r == -1 then -1 else r + 1
  }

  /** Where the run of non-blank characters ending at `k` starts. */
  function RunStart(s: String, k: nat): (a: nat)
    requires k <= |s|
    ensures a <= k && (a == 0 || IsSpace(s[a - 1]))
    ensures forall j :: a <= j < k ==> !IsSpace(s[j])
  {
    if k == 0 || IsSpace(s[k - 1]) then k else RunStart(s, k - 1)
  }

  /** `s.search(/\S+$/)`: the start of the non-blank run that ends the string, or -1 if it ends blank. */
  function SearchTrailingRun(s: String): int
  {
    if |s| == 0 || IsSpace(s[|s| - 1]) then -1 else RunStart(s, |s|)
  }

  /**
   * What `getClosestWord(line, {character})` returns: the word around
   * `pos`, the cursor column stepped left and converted with `>>> 0`.
   */
  function ClosestWord(line: String, character: nat): String
  {
    ClosestAt(line, UseChar(character) % 0x1_0000_0000)
  }

  /**
   * The text between the start of the trailing non-blank run of
   * `line[..pos + 1]` and the first blank at or after `pos`.
   */
  function ClosestAt(line: String, pos: nat): String
  {
    var left := SearchTrailingRun(Slice(line, 0, pos + 1));
    var right := SearchSpace(Slice(line, pos, |line|));
    if right < 0 then Slice(line, left, |line|) else Slice(line, left, right + pos)
  }

  /** `line[a..b]` is the maximal run of non-blank characters holding column `u`. */
  predicate RunAround(line: String, u: nat, a: nat, b: nat)
  {
    a <= u < b <= |line| && NonBlank(line, a, b) &&
    (a == 0 || IsSpace(line[a - 1])) && (b == |line| || IsSpace(line[b]))
  }

  /** No white space in `line[lo..hi]`. */
  predicate NonBlank(line: String, lo: nat, hi: nat)
    requires hi <= |line|
  {
    forall j :: lo <= j < hi ==> !IsSpace(line[j])
  }

  /**
   * On a non-blank character, the closest word is the maximal run of
   * non-blank characters around it, running to the end of the line when no
   * blank follows.
   */
  lemma ClosestWordRule(line: String, character: nat)
    requires UseChar(character) < |line| && !IsSpace(line[UseChar(character)])
    requires UseChar(character) < 0x1_0000_0000
    ensures exists a: nat, b: nat :: RunAround(line, UseChar(character), a, b) && ClosestWord(line, character) == line[a..b]
  {
    var u := UseChar(character);
    assert u % 0x1_0000_0000 == u;
    var a, b := ClosestRun(line, u);
  }

  /** `ClosestAt` on a non-blank column: the run around it, with its bounds. */
  lemma ClosestRun(line: String, u: nat) returns (a: nat, b: nat)
    requires u < |line| && !IsSpace(line[u])
    ensures RunAround(line, u, a, b) && ClosestAt(line, u) == line[a..b]
  {
    a := LeftBound(line, u);
    b := RightBound(line, u);
    NonBlankJoin(line, a, u, b);
    ClosestAtIs(line, u, a, b);
  }

  /** Two non-blank stretches that meet at `u` make one. */
  lemma NonBlankJoin(line: String, a: nat, u: nat, b: nat)
    requires a <= u < b <= |line| && NonBlank(line, a, u + 1) && NonBlank(line, u, b)
    ensures NonBlank(line, a, b)
  {
    forall j | a <= j < b ensures !IsSpace(line[j]) {
      if j <= u {
        assert a <= j < u + 1;
      } else {
        assert u <= j < b;
      }
    }
  }

  /** With the bounds that `left` and `right` give, the closest word is the slice between them. */
  lemma ClosestAtIs(line: String, u: nat, a: nat, b: nat)
    requires a <= u < b <= |line|
    requires SearchTrailingRun(Slice(line, 0, u + 1)) == a
    requires var right := SearchSpace(Slice(line, u, |line|));
      (right < 0 ==> b == |line|) && (right >= 0 ==> b == right + u)
    ensures ClosestAt(line, u) == line[a..b]
  {
    assert Slice(line, a, b) == line[a..b];
  }

  /** The `left` of `getClosestWord` on a non-blank column: where the run through it starts. */
  lemma LeftBound(line: String, u: nat) returns (a: nat)
    requires u < |line| && !IsSpace(line[u])
    ensures SearchTrailingRun(Slice(line, 0, u + 1)) == a <= u
    ensures (a == 0 || IsSpace(line[a - 1])) && NonBlank(line, a, u + 1)
  {
    var prefix := Slice(line, 0, u + 1);
    assert prefix == line[..u + 1];
    a := RunStart(prefix, |prefix|);
    assert forall j :: a <= j <= u ==> line[j] == prefix[j];
  }

  /** The end `right + pos` of `getClosestWord` on a non-blank column: the first blank after it, or the line's end. */
  lemma RightBound(line: String, u: nat) returns (b: nat)
    requires u < |line| && !IsSpace(line[u])
    ensures var right := SearchSpace(Slice(line, u, |line|));
      u < b <= |line| && (right < 0 ==> b == |line|) && (right >= 0 ==> b == right + u)
    ensures (b == |line| || IsSpace(line[b])) && NonBlank(line, u, b)
  {
    var tail := Slice(line, u, |line|);
    assert tail == line[u..];
    var right := SearchSpace(tail);
    assert forall j :: u <= j < |line| ==> line[j] == tail[j - u];
    b := if right < 0 then |line| else right + u;
  }

  /** On a blank character the closest word is empty. */
  lemma ClosestWordOnBlank(line: String, character: nat)
    requires UseChar(character) < |line| && IsSpace(line[UseChar(character)])
    requires UseChar(character) < 0x1_0000_0000
    ensures ClosestWord(line, character) == ""
  {
    var u := UseChar(character);
    assert u % 0x1_0000_0000 == u;
    ClosestBlank(line, u);
  }

  /** `ClosestAt` on a blank column: `slice(-1, pos)` is empty. */
  lemma ClosestBlank(line: String, u: nat)
    requires u < |line| && IsSpace(line[u])
    ensures ClosestAt(line, u) == ""
  {
    var prefix := Slice(line, 0, u + 1);
    assert prefix == line[..u + 1];
    assert SearchTrailingRun(prefix) == -1;
    var tail := Slice(line, u, |line|);
    assert tail == line[u..];
    assert SearchSpace(tail) == 0;
  }

  /**
   * Past the end of the line, the closest word is the line's last run of
   * non-blank characters; when the line ends blank, `slice(-1)` makes it the
   * last character.
   */
  lemma ClosestWordPastEnd(line: String, character: nat)
    requires |line| <= UseChar(character) < 0x1_0000_0000
    ensures |line| > 0 && IsSpace(line[|line| - 1]) ==> ClosestWord(line, character) == [line[|line| - 1]]
    ensures |line| == 0 ==> ClosestWord(line, character) == ""
    ensures |line| > 0 && !IsSpace(line[|line| - 1]) ==>
      exists a: nat :: a < |line| && ClosestWord(line, character) == line[a..] &&
        (a == 0 || IsSpace(line[a - 1])) && forall j :: a <= j < |line| ==> !IsSpace(line[j])
  {
    var u := UseChar(character);
    assert u % 0x1_0000_0000 == u;
    assert ClosestWord(line, character) == ClosestAt(line, u);
    assert Slice(line, 0, u + 1) == line[..|line|] == line;
    assert Slice(line, u, |line|) == [];
    assert SearchSpace([]) == -1;
    var left := SearchTrailingRun(line);
    assert ClosestAt(line, u) == Slice(line, left, |line|);
    if |line| > 0 && !IsSpace(line[|line| - 1]) {
      var a := RunStart(line, |line|);
      assert left == a < |line|;
      assert Slice(line, a, |line|) == line[a..];
    } else if |line| > 0 {
      assert left == -1 && SliceIndex(|line|, left) == |line| - 1;
      assert Slice(line, left, |line|) == line[|line| - 1..] == [line[|line| - 1]];
    }
  }
}
