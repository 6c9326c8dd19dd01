/**
 * The variable extractor of the `parsing` module: every assignment
 * `NAME = RHS` found where a statement may start becomes a `Variable`
 * symbol, and the symbol's `next` records what stands right of the `=` on
 * that line, or `Class()` when that text calls `obj_new('Class'…`.
 */
module ExtractVariables {
  import opened Text
  import opened Lsp
  import opened Regex

  /** `m` is a match of the assignment expression in `text`. */
  predicate IsVarMatch(text: String, m: Match)
  {
    m.index <= |text| && MatchAt(AssignNext, text, m.index) == Some(m.groups)
  }

  /** What the loop body relies on: a match array of four entries, the match lying within the text. */
  predicate VarShape(text: String, m: Match)
  {
    m.index <= |text| && |m.groups| == 4 && m.index + |m.groups[0]| <= |text| &&
    m.index + |m.groups[1]| + |m.groups[2]| <= |text|
  }

  /** Every match of the assignment expression has that shape. */
  lemma VarMatchShape(text: String, m: Match)
    requires IsVarMatch(text, m)
    ensures VarShape(text, m)
  {
    assert Matched(text, m.index, m.groups);
    var e := RunEnd(VarChars, text, m.index);
    VarGroups(text, m, e, RunEnd(Spaces, text, e));
  }

  /** The name and the `=` part of a match: the name runs to `e`, the `=` stands at `s1`. */
  lemma VarGroups(text: String, m: Match, e: nat, s1: nat)
    requires IsVarMatch(text, m)
    requires e == RunEnd(VarChars, text, m.index) && s1 == RunEnd(Spaces, text, e)
    ensures AssignStart(text, m.index) && e <= s1 < |text| && text[s1] == '=' && |m.groups| == 4
    ensures m.groups[1] == text[m.index..e] && m.groups[2] == text[e..RunEnd(Spaces, text, s1 + 1)]
  {
    assert AssignNextAt(text, m.index) == Some(m.groups);
    AssignNextGroups(text, m.index, e, s1);
  }

  /** The match `exec` finds has that shape. */
  lemma NextShape(text: String, from: nat)
    ensures NextMatch(AssignNext, text, from).Some? ==> VarShape(text, NextMatch(AssignNext, text, from).value)
  {
    if NextMatch(AssignNext, text, from).Some? {
      VarMatchShape(text, NextMatch(AssignNext, text, from).value);
    }
  }

  /** Every match the loop visits has that shape. */
  lemma ExecShapes(text: String)
    ensures forall i :: 0 <= i < |ExecAll(AssignNext, text, 0)| ==> VarShape(text, ExecAll(AssignNext, text, 0)[i])
  {
    var ms := ExecAll(AssignNext, text, 0);
    forall i | 0 <= i < |ms| ensures VarShape(text, ms[i]) {
      VarMatchShape(text, ms[i]);
    }
  }

  /**
   * What `next` records for the text `right`: the class name of the first
   * `obj_new` call followed by `()`, or else `right` itself.
   */
  function Normalized(right: String): String
  {
    match NextMatch(ObjNew, right, 0)
    case None => right
    case Some(o) =>
      assert Matched(right, o.index, o.groups);
      o.groups[0] + "()"
  }

  /**
   * `Normalized` keeps a text that calls no `obj_new`, and otherwise gives
   * the class name of the leftmost `obj_new('Class'` followed by `()`.
   */
  lemma NormalizedRule(right: String)
    ensures (forall k :: 0 <= k <= |right| ==> MatchAt(ObjNew, right, k).None?) ==> Normalized(right) == right
    ensures forall k ::
      (0 <= k <= |right| && MatchAt(ObjNew, right, k).Some? && (forall j :: 0 <= j < k ==> MatchAt(ObjNew, right, j).None?))
      ==> Normalized(right) == MatchAt(ObjNew, right, k).value[0] + "()"
  {
    match NextMatch(ObjNew, right, 0)
    case None =>
    case Some(o) =>
      forall k | 0 <= k <= |right| && MatchAt(ObjNew, right, k).Some? && (forall j :: 0 <= j < k ==> MatchAt(ObjNew, right, j).None?)
        ensures k == o.index
      {
      }
  }

  /** What `next` records for the text right of the `=`: that text trimmed, then normalised. */
  function NextOf(rest: String): String
  {
    Normalized(Trim(rest))
  }

  /** The symbol pushed for group 1 of a match, before `next` is set. */
  function RawVariable(text: String, m: Match): Symbol
    requires VarShape(text, m)
  {
    var name := m.groups[1];
    var lc := LineColumn(text, m.index);
    var range := LineRange(lc.0, lc.1, lc.1 + |name|);
    Symbol(name, "Variable", SymbolKind.Variable, range, range, name, None)
  }

  /**
   * The text group 3 looks at: the line of the match, from the column just
   * after the name and the `=` with its white space, trimmed.
   */
  function RightOf(text: String, m: Match): String
    requires VarShape(text, m)
  {
    var lc := LineColumn(text, m.index);
    LineAt(text, m.index);
    SubstrFrom(Split(text, "\n")[lc.0], lc.1 + |m.groups[1]| + |m.groups[2]|)
  }

  /** The symbol built for one match, with `next` filled in as the loop body leaves it. */
  function VariableSymbol(text: String, m: Match): Symbol
    requires VarShape(text, m)
  {
    RawVariable(text, m).(next := Some(NextOf(RightOf(text, m))))
  }

  /** `RawVariable` and `VariableSymbol` in terms of the line and column the loop body computes. */
  lemma VariableParts(text: String, m: Match, line: nat, col: nat)
    requires VarShape(text, m) && LineColumn(text, m.index) == (line, col)
    ensures line < |Split(text, "\n")|
    ensures RawVariable(text, m) == Symbol(m.groups[1], "Variable", SymbolKind.Variable, LineRange(line, col, col + |m.groups[1]|),
      LineRange(line, col, col + |m.groups[1]|), m.groups[1], None)
    ensures VariableSymbol(text, m) ==
      RawVariable(text, m).(next := Some(NextOf(SubstrFrom(Split(text, "\n")[line], col + |m.groups[1]| + |m.groups[2]|))))
  {
    RightOfAt(text, m, line, col);
  }

  /** The text right of the `=` part, cut from the match's line at the column the loop body computes. */
  lemma RightOfAt(text: String, m: Match, line: nat, col: nat)
    requires VarShape(text, m) && LineColumn(text, m.index) == (line, col)
    ensures line < |Split(text, "\n")|
    ensures RightOf(text, m) == SubstrFrom(Split(text, "\n")[line], col + |m.groups[1]| + |m.groups[2]|)
  {
    LineAt(text, m.index);
  }

  /** The symbols of the matches `ms`, in order. */
  function VariableSymbols(text: String, ms: seq<Match>): (r: seq<Symbol>)
    requires forall i :: 0 <= i < |ms| ==> VarShape(text, ms[i])
    ensures |r| == |ms|
  {
    if |ms| == 0 then [] else VariableSymbols(text, ms[..|ms| - 1]) + [VariableSymbol(text, ms[|ms| - 1])]
  }

  /** What `extractVariables` returns for `text`. */
  function Variables(text: String): seq<Symbol>
  {
    ExecShapes(text);
    VariableSymbols(text, ExecAll(AssignNext, text, 0))
  }

  /** `extractVariables`: the `exec` loop over the assignments of `text`. */
  method ExtractVariables(text: String) returns (symbols: seq<Symbol>)
    ensures symbols == Variables(text)
  {
    symbols := [];
    var lastIndex: nat := 0;
    ghost var done: seq<Match> := [];
    var m := NextMatch(AssignNext, text, lastIndex);
    while m.Some?
      invariant m == NextMatch(AssignNext, text, lastIndex)
      invariant ExecAll(AssignNext, text, 0) == done + ExecAll(AssignNext, text, lastIndex)
      invariant forall i :: 0 <= i < |done| ==> VarShape(text, done[i])
      invariant symbols == VariableSymbols(text, done)
      decreases |text| + 1 - lastIndex
    {
      var mv := m.value;
      ExecAdvance(AssignNext, text, done, lastIndex);
      NextShape(text, lastIndex);
      symbols := AddVariable(text, mv, symbols);
      assert (done + [mv])[..|done|] == done;
      done := done + [mv];
      lastIndex := mv.End();
      m := NextMatch(AssignNext, text, lastIndex);
    }
    ExecDone(AssignNext, text, done, lastIndex);
  }

  /**
   * The loop body: the `forEach` over the match array. Group 1 (the name)
   * pushes the symbol, groups 1 and 2 advance `startAdd`, and group 3 sets
   * `next` of the symbol just pushed from the rest of the line.
   */
  method AddVariable(text: String, m: Match, symbols: seq<Symbol>) returns (out: seq<Symbol>)
    requires VarShape(text, m)
    ensures out == symbols + [VariableSymbol(text, m)]
  {
    LineAt(text, m.index);
    var allSplit := Split(text, "\n");
    var split := Split(text[..m.index], "\n");
    var lineNumber := |split| - 1;
    var start := |split[|split| - 1]|;
    VariableParts(text, m, lineNumber, start);
    out := ForEachGroup(m.groups, allSplit[lineNumber], lineNumber, start, symbols);
  }

  /**
   * The `forEach` over the match array `groups` of a match at column `start`
   * of line `lineNumber`, whose text is `lineText`.
   */
  method ForEachGroup(groups: seq<String>, lineText: String, lineNumber: nat, start: nat, symbols: seq<Symbol>)
    returns (out: seq<Symbol>)
    requires |groups| == 4
    ensures var range := LineRange(lineNumber, start, start + |groups[1]|);
      out == symbols + [Symbol(groups[1], "Variable", SymbolKind.Variable, range, range, groups[1],
                               Some(NextOf(SubstrFrom(lineText, start + |groups[1]| + |groups[2]|))))]
  {
    ghost var range := LineRange(lineNumber, start, start + |groups[1]|);
    ghost var raw := Symbol(groups[1], "Variable", SymbolKind.Variable, range, range, groups[1], None);
    ghost var next := NextOf(SubstrFrom(lineText, start + |groups[1]| + |groups[2]|));
    var startAdd := 0;
    out := symbols;
    var groupIndex := 0;
    while groupIndex < |groups|
      invariant groupIndex <= 4
      invariant startAdd == (if groupIndex >= 2 then |groups[1]| else 0) + (if groupIndex >= 3 then |groups[2]| else 0)
      invariant groupIndex <= 1 ==> out == symbols
      invariant 2 <= groupIndex <= 3 ==> out == symbols + [raw]
      invariant groupIndex == 4 ==> out == symbols + [raw.(next := Some(next))]
    {
      var group := groups[groupIndex];
      if groupIndex == 0 {
      } else if groupIndex == 3 {
        var right := NextValue(lineText, start + startAdd);
        SameNext(lineText, start + startAdd, start + |groups[1]| + |groups[2]|);
        out := out[|out| - 1 := out[|out| - 1].(next := Some(right))];
      } else {
        if groupIndex == 1 {
          var range := LineRange(lineNumber, start, start + |group|);
          out := out + [Symbol(group, "Variable", SymbolKind.Variable, range, range, group, None)];
        }
        startAdd := startAdd + |group|;
      }
      groupIndex := groupIndex + 1;
    }
  }

  /** `NextOf` at equal offsets. */
  lemma SameNext(line: String, a: nat, b: nat)
    requires a == b
    ensures NextOf(SubstrFrom(line, a)) == NextOf(SubstrFrom(line, b))
  {
  }

  /** Group 3's computation: the trimmed rest of `line` from `from`, or `Class()` for an `obj_new` call. */
  method NextValue(line: String, from: nat) returns (right: String)
    ensures right == NextOf(SubstrFrom(line, from))
  {
    right := Trim(SubstrFrom(line, from));
    var o := NextMatch(ObjNew, right, 0);
    if o.Some? {
      assert Matched(right, o.value.index, o.value.groups);
      right := o.value.groups[0] + "()";
    }
  }

  /** The `i`-th symbol is the one built for the `i`-th match. */
  lemma {:induction false} VariableSymbolAt(text: String, ms: seq<Match>, i: nat)
    requires forall k :: 0 <= k < |ms| ==> VarShape(text, ms[k])
    requires i < |ms|
    ensures VariableSymbols(text, ms)[i] == VariableSymbol(text, ms[i])
  {
    var init := ms[..|ms| - 1];
    var prev := VariableSymbols(text, init);
    var last := VariableSymbol(text, ms[|ms| - 1]);
    assert VariableSymbols(text, ms) == prev + [last];
    if i < |ms| - 1 {
      VariableSymbolAt(text, init, i);
      assert init[i] == ms[i];
      assert (prev + [last])[i] == prev[i];
    }
  }

  /**
   * What a match says about the text: its name is an identifier standing at
   * the match offset where an assignment may start, followed by white
   * space, one `=` and white space.
   */
  lemma AssignmentShape(text: String, m: Match)
    requires IsVarMatch(text, m)
    ensures VarShape(text, m)
    ensures var name := m.groups[1];
      0 < |name| && text[m.index..m.index + |name|] == name &&
      IsIdentStart(name[0]) && (forall k :: 0 <= k < |name| ==> VarChars.Has(name[k])) &&
      AssignStart(text, m.index)
    ensures var eq := m.groups[2];
      text[m.index + |m.groups[1]|..m.index + |m.groups[1]| + |eq|] == eq &&
      exists k :: 0 <= k < |eq| && eq[k] == '=' && AllSpace(eq[..k]) && AllSpace(eq[k + 1..])
  {
    VarMatchShape(text, m);
    var p := m.index;
    var e := RunEnd(VarChars, text, p);
    var s1 := RunEnd(Spaces, text, e);
    VarGroups(text, m, e, s1);
    var f := RunEnd(Spaces, text, s1 + 1);
    EqualsShape(text, e, s1, f);
  }

  /** `\s*=\s*` from `e` to `f`: white space, one `=` at `s1`, white space. */
  lemma EqualsShape(text: String, e: nat, s1: nat, f: nat)
    requires e <= s1 < |text| && text[s1] == '=' && s1 == RunEnd(Spaces, text, e) && f == RunEnd(Spaces, text, s1 + 1)
    ensures var eq := text[e..f];
      exists k :: 0 <= k < |eq| && eq[k] == '=' && AllSpace(eq[..k]) && AllSpace(eq[k + 1..])
  {
    var eq := text[e..f];
    var k := s1 - e;
    assert s1 + 1 <= f && |eq| == f - e;
    assert eq[k] == text[s1] == '=';
    var before := eq[..k];
    var after := eq[k + 1..];
    forall j | 0 <= j < |before| ensures IsSpace(before[j]) {
      assert before[j] == text[e + j] && Spaces.Has(text[e + j]);
    }
    forall j | 0 <= j < |after| ensures IsSpace(after[j]) {
      assert after[j] == text[s1 + 1 + j] && Spaces.Has(text[s1 + 1 + j]);
    }
    assert 0 <= k < |eq| && eq[k] == '=' && AllSpace(eq[..k]) && AllSpace(eq[k + 1..]);
  }

  /**
   * The symbol of a match: a `Variable` named by group 1, shown under that
   * name, whose range is the name's span on its line (line = number of `\n`
   * before it, column = characters since the last `\n`).
   */
  lemma VariableFields(text: String, m: Match)
    requires VarShape(text, m)
    ensures var s := VariableSymbol(text, m);
      var name := m.groups[1];
      var col := LineColumn(text, m.index).1;
      s.name == name && s.displayName == name && s.detail == "Variable" && s.kind == SymbolKind.Variable &&
      s.range == s.selectionRange && s.next.Some? &&
      s.range == LineRange(Count(text[..m.index], '\n'), col, col + |name|) &&
      col <= m.index && '\n' !in text[m.index - col..m.index] && (col == m.index || text[m.index - col - 1] == '\n')
  {
    LineColumnSpec(text, m.index);
  }

  /**
   * `next` is taken from the rest of the match's line after the name and the
   * `=`: when the right-hand side starts on that line (no `\n` inside the
   * `=` part), it is that text up to the end of the line; when it starts on
   * a later line, the line has nothing left and `next` is empty.
   */
  lemma NextRule(text: String, m: Match)
    requires VarShape(text, m)
    ensures var q := m.index + |m.groups[1]| + |m.groups[2]|;
      var e := LineEnd(text, m.index);
      (q <= e <==> '\n' !in text[m.index..q]) &&
      VariableSymbol(text, m).next == Some(NextOf(if q <= e then text[q..e] else []))
  {
    var p := m.index;
    var q := p + |m.groups[1]| + |m.groups[2]|;
    var e := LineEnd(text, p);
    LineAt(text, p);
    var lc := LineColumn(text, p);
    var piece := Split(text, "\n")[lc.0];
    assert piece == text[p - lc.1..e];
    var from := lc.1 + |m.groups[1]| + |m.groups[2]|;
    assert RightOf(text, m) == SubstrFrom(piece, from);
    RestOfLine(text, p, q, e, lc.1, piece, from);
  }

  /**
   * The rest of the line from `q`, cut out of the line `piece` that holds
   * `p`: the text from `q` to the line end when `q` is still on that line,
   * and nothing otherwise.
   */
  lemma RestOfLine(text: String, p: nat, q: nat, e: nat, col: nat, piece: String, from: nat)
    requires col <= p <= q <= |text| && p <= e <= |text| && (e == |text| || text[e] == '\n')
    requires forall k :: p <= k < e ==> text[k] != '\n'
    requires piece == text[p - col..e] && from == col + (q - p)
    ensures q <= e <==> '\n' !in text[p..q]
    ensures SubstrFrom(piece, from) == if q <= e then text[q..e] else []
  {
    if q <= e {
      assert piece[from..] == text[q..e];
      assert '\n' !in text[p..q] by {
        forall k | p <= k < q ensures text[k] != '\n' { }
      }
    } else {
      assert text[p..q][e - p] == '\n';
    }
  }

  /**
   * Every assignment in the text is visited by the loop, or lies inside an
   * assignment visited before it (a right-hand side on the next line can
   * hold one); so each gets its symbol unless an earlier match consumed it.
   */
  lemma VariableFound(text: String, p: nat)
    requires p <= |text| && MatchAt(AssignNext, text, p).Some?
    ensures var ms := ExecAll(AssignNext, text, 0);
      exists i :: 0 <= i < |ms| && ms[i].index <= p < ms[i].End()
  {
    ExecCovers(AssignNext, text, 0, p);
  }
}
