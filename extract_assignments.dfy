/**
 * The variable passes of the two server-side symbol extractors
 * (`_extractVariables`): an `exec` loop over an assignment expression, in
 * which a `forEach` over the whole match array pushes one symbol per array
 * entry. The newer extractor uses the expression with a capture group and
 * kind `Variable`; the older one the expression without groups and kind
 * `Constant`. The loop is modelled once, parameterised by both.
 */
module ExtractAssignments {
  import opened Text
  import opened Lsp
  import opened Regex

  /** The symbol pushed for one entry `g` of a match array, at column `col` of line `line`. */
  function GroupSymbol(g: String, line: nat, col: nat, kind: SymbolKind): Symbol
  {
    var range := LineRange(line, col, col + |g|);
    Symbol(g, "Variable", kind, range, range, g, None)
  }

  /** One symbol per entry of a match array, all at column `col` of line `line`. */
  function GroupSymbols(groups: seq<String>, line: nat, col: nat, kind: SymbolKind): (r: seq<Symbol>)
    ensures |r| == |groups|
    ensures forall i :: 0 <= i < |groups| ==> r[i] == GroupSymbol(groups[i], line, col, kind)
  {
    seq(|groups|, i requires 0 <= i < |groups| => GroupSymbol(groups[i], line, col, kind))
  }

  /** The symbols of one match: one per entry of its match array, all at the match's line and column. */
  function MatchSymbols(text: String, m: Match, kind: SymbolKind): (r: seq<Symbol>)
    requires m.index <= |text|
  {
    var lc := LineColumn(text, m.index);
    GroupSymbols(m.groups, lc.0, lc.1, kind)
  }

  /** The symbols of the matches `ms`, in order. */
  function AssignmentSymbols(text: String, ms: seq<Match>, kind: SymbolKind): seq<Symbol>
    requires forall i :: 0 <= i < |ms| ==> ms[i].index <= |text|
  {
    if |ms| == 0 then [] else AssignmentSymbols(text, ms[..|ms| - 1], kind) + MatchSymbols(text, ms[|ms| - 1], kind)
  }

  /** What `_extractVariables` returns for `text`, given its expression and kind. */
  function Assignments(text: String, pat: Pattern, kind: SymbolKind): seq<Symbol>
  {
    AssignmentSymbols(text, ExecAll(pat, text, 0), kind)
  }

  /** `_extractVariables`: the `exec` loop over the assignments of `text`. */
  method ExtractAssignments(text: String, pat: Pattern, kind: SymbolKind) returns (symbols: seq<Symbol>)
    ensures symbols == Assignments(text, pat, kind)
  {
    symbols := [];
    var lastIndex: nat := 0;
    ghost var done: seq<Match> := [];
    var m := NextMatch(pat, text, lastIndex);
    while m.Some?
      invariant m == NextMatch(pat, text, lastIndex)
      invariant ExecAll(pat, text, 0) == done + ExecAll(pat, text, lastIndex)
      invariant forall i :: 0 <= i < |done| ==> done[i].index <= |text|
      invariant symbols == AssignmentSymbols(text, done, kind)
      decreases |text| + 1 - lastIndex
    {
      var mv := m.value;
      AssignAdvance(text, pat, kind, done, lastIndex);
      symbols := PushMatch(text, mv, kind, symbols);
      done := done + [mv];
      lastIndex := mv.End();
      m := NextMatch(pat, text, lastIndex);
    }
    ExecDone(pat, text, done, lastIndex);
  }

  /** One turn of the loop keeps its invariant: the visited matches grow by the one found, and so do their symbols. */
  lemma AssignAdvance(text: String, pat: Pattern, kind: SymbolKind, done: seq<Match>, lastIndex: nat)
    requires ExecAll(pat, text, 0) == done + ExecAll(pat, text, lastIndex)
    requires forall i :: 0 <= i < |done| ==> done[i].index <= |text|
    requires NextMatch(pat, text, lastIndex).Some?
    ensures var m := NextMatch(pat, text, lastIndex).value;
      var d := done + [m];
      lastIndex < m.End() && m.index <= |text| &&
      ExecAll(pat, text, 0) == d + ExecAll(pat, text, m.End()) &&
      (forall i :: 0 <= i < |d| ==> d[i].index <= |text|) &&
      AssignmentSymbols(text, d, kind) == AssignmentSymbols(text, done, kind) + MatchSymbols(text, m, kind)
  {
    var m := NextMatch(pat, text, lastIndex).value;
    ExecAdvance(pat, text, done, lastIndex);
    assert (done + [m])[..|done|] == done;
  }

  /** One pass of the loop body: the match's line and column from the text before it, then its symbols. */
  method PushMatch(text: String, mv: Match, kind: SymbolKind, symbols: seq<Symbol>) returns (out: seq<Symbol>)
    requires mv.index <= |text|
    ensures out == symbols + MatchSymbols(text, mv, kind)
  {
    var split := Split(text[..mv.index], "\n");
    var lineNumber := |split| - 1;
    var start := |split[|split| - 1]|;
    out := PushGroups(mv.groups, lineNumber, start, kind, symbols);
  }

  /** The `forEach` over a match array: one symbol per entry, whatever the entry's index. */
  method PushGroups(groups: seq<String>, lineNumber: nat, start: nat, kind: SymbolKind, symbols: seq<Symbol>)
    returns (out: seq<Symbol>)
    ensures out == symbols + GroupSymbols(groups, lineNumber, start, kind)
  {
    out := symbols;
    var groupIndex := 0;
    while groupIndex < |groups|
      invariant groupIndex <= |groups|
      invariant |out| == |symbols| + groupIndex
      invariant out[..|symbols|] == symbols
      invariant forall i :: 0 <= i < groupIndex ==> out[|symbols| + i] == GroupSymbol(groups[i], lineNumber, start, kind)
    {
      assert out[|symbols|..] == GroupSymbols(groups[..groupIndex], lineNumber, start, kind);
      var group := groups[groupIndex];
      var range := LineRange(lineNumber, start, start + |group|);
      out := out + [Symbol(group, "Variable", kind, range, range, group, None)];
      groupIndex := groupIndex + 1;
    }
  }

  /** With two entries per match array, the symbols of the `i`-th match are the `i`-th pair. */
  lemma {:induction false} PairBlocks(text: String, ms: seq<Match>, kind: SymbolKind, i: nat)
    requires forall k :: 0 <= k < |ms| ==> ms[k].index <= |text| && |ms[k].groups| == 2
    requires i < |ms|
    ensures var r := AssignmentSymbols(text, ms, kind);
      var lc := LineColumn(text, ms[i].index);
      |r| == 2 * |ms| &&
      r[2 * i] == GroupSymbol(ms[i].groups[0], lc.0, lc.1, kind) &&
      r[2 * i + 1] == GroupSymbol(ms[i].groups[1], lc.0, lc.1, kind)
  {
    var front := ms[..|ms| - 1];
    if |ms| == 1 {
      assert front == [];
    } else if i < |ms| - 1 {
      PairBlocks(text, front, kind, i);
    } else {
      PairBlocks(text, front, kind, 0);
    }
  }

  /** With one entry per match array, the `i`-th symbol is that of the `i`-th match. */
  lemma {:induction false} SingleBlocks(text: String, ms: seq<Match>, kind: SymbolKind, i: nat)
    requires forall k :: 0 <= k < |ms| ==> ms[k].index <= |text| && |ms[k].groups| == 1
    requires i < |ms|
    ensures var r := AssignmentSymbols(text, ms, kind);
      var lc := LineColumn(text, ms[i].index);
      |r| == |ms| && r[i] == GroupSymbol(ms[i].groups[0], lc.0, lc.1, kind)
  {
    var front := ms[..|ms| - 1];
    if |ms| == 1 {
      assert front == [];
    } else if i < |ms| - 1 {
      SingleBlocks(text, front, kind, i);
    } else {
      SingleBlocks(text, front, kind, 0);
    }
  }

  /**
   * Every symbol has detail `"Variable"`, kind `kind`, its name as display
   * name, equal range and selection range, and no `next`.
   */
  predicate VariableShaped(r: seq<Symbol>, kind: SymbolKind)
  {
    forall i :: 0 <= i < |r| ==>
      r[i].detail == "Variable" && r[i].kind == kind && r[i].displayName == r[i].name &&
      r[i].range == r[i].selectionRange && r[i].next == None
  }

  /** Whatever the expression, every symbol of the pass is `VariableShaped`. */
  lemma {:induction false} AssignmentKinds(text: String, ms: seq<Match>, kind: SymbolKind)
    requires forall k :: 0 <= k < |ms| ==> ms[k].index <= |text|
    ensures VariableShaped(AssignmentSymbols(text, ms, kind), kind)
  {
    if |ms| > 0 {
      var front := AssignmentSymbols(text, ms[..|ms| - 1], kind);
      var m := ms[|ms| - 1];
      var lc := LineColumn(text, m.index);
      var last := GroupSymbols(m.groups, lc.0, lc.1, kind);
      AssignmentKinds(text, ms[..|ms| - 1], kind);
      assert VariableShaped(front, kind);
      assert VariableShaped(last, kind);
      assert AssignmentSymbols(text, ms, kind) == front + last;
    }
  }

  /** A match of the newer expression: the identifier and, as group 1, the identifier again. */
  lemma AssignShape(text: String, p: nat, g: seq<String>)
    requires p <= |text| && MatchAt(Assign, text, p) == Some(g)
    ensures g == [text[p..RunEnd(VarChars, text, p)], text[p..RunEnd(VarChars, text, p)]] && AssignStart(text, p)
  {
  }

  /** Every match array of the newer expression has two entries. */
  lemma AssignGroups(text: String)
    ensures forall k :: 0 <= k < |ExecAll(Assign, text, 0)| ==> |ExecAll(Assign, text, 0)[k].groups| == 2
  {
    var ms := ExecAll(Assign, text, 0);
    forall k | 0 <= k < |ms| ensures |ms[k].groups| == 2 {
      AssignShape(text, ms[k].index, ms[k].groups);
    }
  }

  /** Every match array of the older expression has one entry. */
  lemma OldAssignGroups(text: String)
    ensures forall k :: 0 <= k < |ExecAll(OldAssign, text, 0)| ==> |ExecAll(OldAssign, text, 0)[k].groups| == 1
  {
    var ms := ExecAll(OldAssign, text, 0);
    forall k | 0 <= k < |ms| ensures |ms[k].groups| == 1 {
      OldAssignShape(text, ms[k].index, ms[k].groups);
    }
  }

  /**
   * The newer extractor's expression has one capture group, and the loop body
   * pushes a symbol for the whole match and one for the group: every
   * assignment yields two identical `Variable` symbols, named by the
   * identifier left of the `=`, at the identifier's line and column.
   */
  lemma AssignPairs(text: String, i: nat)
    requires i < |ExecAll(Assign, text, 0)|
    ensures var ms := ExecAll(Assign, text, 0);
      var r := Assignments(text, Assign, SymbolKind.Variable);
      var m := ms[i];
      var name := text[m.index..RunEnd(VarChars, text, m.index)];
      |r| == 2 * |ms| && AssignStart(text, m.index) &&
      r[2 * i] == r[2 * i + 1] == GroupSymbol(name, LineColumn(text, m.index).0, LineColumn(text, m.index).1, SymbolKind.Variable)
  {
    var ms := ExecAll(Assign, text, 0);
    AssignGroups(text);
    PairBlocks(text, ms, SymbolKind.Variable, i);
    AssignShape(text, ms[i].index, ms[i].groups);
  }

  /**
   * The older extractor's expression has no capture group: one `Constant`
   * symbol per assignment, named by the whole match (what the match is:
   * `OldAssignShape`).
   */
  lemma OldAssignSingles(text: String, i: nat)
    requires i < |ExecAll(OldAssign, text, 0)|
    ensures var ms := ExecAll(OldAssign, text, 0);
      var r := Assignments(text, OldAssign, SymbolKind.Constant);
      var m := ms[i];
      |r| == |ms| && |m.groups| == 1 &&
      r[i] == GroupSymbol(m.groups[0], LineColumn(text, m.index).0, LineColumn(text, m.index).1, SymbolKind.Constant)
  {
    var ms := ExecAll(OldAssign, text, 0);
    OldAssignGroups(text);
    SingleBlocks(text, ms, SymbolKind.Constant, i);
  }

  /**
   * A match of the older expression: one entry, the name, which starts with
   * an identifier character, is not one of the keywords `continue`, `begin`,
   * `endif`, and ends at a word boundary followed by `\s*=`.
   */
  lemma OldAssignShape(text: String, p: nat, g: seq<String>)
    requires p <= |text| && MatchAt(OldAssign, text, p) == Some(g)
    ensures var e := p + |g[0]|;
      |g| == 1 && 0 < |g[0]| && e <= |text| && g[0] == text[p..e] && IsIdentStart(text[p]) &&
      !(OccursIC(text, "continue", p) || OccursIC(text, "begin", p) || OccursIC(text, "endif", p)) &&
      WordBoundary(text, e) && EqualsAhead(text, e)
  {
    var e := LastAssignEnd(text, p, RunEnd(VarSpaceChars, text, p)).value;
    assert g == [text[p..e]];
  }
}
