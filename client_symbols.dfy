/**
 * The client's own outline provider (`getDocumentSymbols` in the editor
 * extension): two `exec` loops, functions first and procedures second, each
 * pushing one outline entry per element of the match array. Its keyword
 * expressions take exactly one white-space character after the keyword, and
 * its ranges end at the column plus the number of array elements, not plus
 * the name's length.
 */
module ClientSymbols {
  import opened Text
  import opened Lsp
  import opened Regex
  import opened RoutineExtras

  /** The editor's `DocumentSymbol`: no display name and no right-hand side. */
  datatype OutlineSymbol = OutlineSymbol(name: String, detail: String, kind: SymbolKind, range: Range, selectionRange: Range)

  /** `(?<=^\s*KW\s)[a-z_][a-z_$0-9:]*` with the `gmi` flags. */
  function ClientPattern(keyword: String): Pattern
  {
    Decl(keyword, true)
  }

  /** The entry pushed for element `g` of a match array of `count` elements, at column `col` of line `line`. */
  function EntryOf(g: String, detail: String, line: nat, col: nat, count: nat): OutlineSymbol
  {
    var range := LineRange(line, col, col + count);
    OutlineSymbol(g, detail, RoutineType(g), range, range)
  }

  /** The entries of one match: one per element of its array, all with the same range. */
  function MatchEntries(text: String, m: Match, detail: String): (r: seq<OutlineSymbol>)
    requires m.index <= |text|
    ensures |r| == |m.groups|
    ensures forall i :: 0 <= i < |r| ==>
      r[i] == EntryOf(m.groups[i], detail, LineColumn(text, m.index).0, LineColumn(text, m.index).1, |m.groups|)
  {
    var lc := LineColumn(text, m.index);
    seq(|m.groups|, i requires 0 <= i < |m.groups| => EntryOf(m.groups[i], detail, lc.0, lc.1, |m.groups|))
  }

  /** The entries of the matches `ms`, in order. */
  function PassEntries(text: String, ms: seq<Match>, detail: String): seq<OutlineSymbol>
    requires forall i :: 0 <= i < |ms| ==> ms[i].index <= |text|
  {
    if |ms| == 0 then [] else PassEntries(text, ms[..|ms| - 1], detail) + MatchEntries(text, ms[|ms| - 1], detail)
  }

  /** The entries of one loop: the definitions introduced by `keyword`, with detail `detail`. */
  function Pass(text: String, keyword: String, detail: String): seq<OutlineSymbol>
  {
    PassEntries(text, ExecAll(ClientPattern(keyword), text, 0), detail)
  }

  /** What `getDocumentSymbols` returns for a document holding `text`. */
  function ClientOutline(text: String): seq<OutlineSymbol>
  {
    Pass(text, "function", "Function") + Pass(text, "pro", "Procedure")
  }

  /** `getDocumentSymbols`: what the function loop pushes, then what the procedure loop pushes. */
  method GetDocumentSymbols(text: String) returns (symbols: seq<OutlineSymbol>)
    ensures symbols == ClientOutline(text)
  {
    var functions := ScanDefinitions(text, ClientPattern("function"), "Function");
    var procedures := ScanDefinitions(text, ClientPattern("pro"), "Procedure");
    symbols := functions + procedures;
  }

  /** One `exec` loop of `getDocumentSymbols` over the expression `pat`: the entries it pushes. */
  method ScanDefinitions(text: String, pat: Pattern, detail: String) returns (out: seq<OutlineSymbol>)
    ensures out == PassEntries(text, ExecAll(pat, text, 0), detail)
  {
    out := [];
    var lastIndex: nat := 0;
    ghost var done: seq<Match> := [];
    var m := NextMatch(pat, text, lastIndex);
    while m.Some?
      invariant m == NextMatch(pat, text, lastIndex)
      invariant ExecAll(pat, text, 0) == done + ExecAll(pat, text, lastIndex)
      invariant forall i :: 0 <= i < |done| ==> done[i].index <= |text|
      invariant out == PassEntries(text, done, detail)
      decreases |text| + 1 - lastIndex
    {
      var mv := m.value;
      ExecAdvance(pat, text, done, lastIndex);
      out := PushMatch(text, mv, detail, out);
      assert (done + [mv])[..|done|] == done;
      done := done + [mv];
      lastIndex := mv.End();
      m := NextMatch(pat, text, lastIndex);
    }
    ExecDone(pat, text, done, lastIndex);
  }

  /** One turn of the loop: the match's line and column from the text before it, then its entries. */
  method PushMatch(text: String, mv: Match, detail: String, symbols: seq<OutlineSymbol>) returns (out: seq<OutlineSymbol>)
    requires mv.index <= |text|
    ensures out == symbols + MatchEntries(text, mv, detail)
  {
    var split := Split(text[..mv.index], "\n");
    var lineNumber := |split| - 1;
    var start := |split[|split| - 1]|;
    out := PushEntries(mv.groups, detail, lineNumber, start, symbols);
    assert out[|symbols|..] == MatchEntries(text, mv, detail);
  }

  /** The `forEach` over a match array: one entry per element, its range `m.length` wide. */
  method PushEntries(groups: seq<String>, detail: String, lineNumber: nat, start: nat, symbols: seq<OutlineSymbol>)
    returns (out: seq<OutlineSymbol>)
    ensures |out| == |symbols| + |groups| && out[..|symbols|] == symbols
    ensures forall i :: 0 <= i < |groups| ==> out[|symbols| + i] == EntryOf(groups[i], detail, lineNumber, start, |groups|)
  {
    out := symbols;
    var i := 0;
    while i < |groups|
      invariant i <= |groups|
      invariant |out| == |symbols| + i && out[..|symbols|] == symbols
      invariant forall k :: 0 <= k < i ==> out[|symbols| + k] == EntryOf(groups[k], detail, lineNumber, start, |groups|)
    {
      var range := LineRange(lineNumber, start, start + |groups|);
      out := out + [OutlineSymbol(groups[i], detail, RoutineType(groups[i]), range, range)];
      i := i + 1;
    }
  }

  /** `processDocument`: whatever the document, no symbol information. */
  function ProcessDocument(text: String): (r: seq<SymbolInformation>)
    ensures |r| == 0
  {
    []
  }

  /**
   * A match of a client expression is one identifier, right after exactly one
   * white-space character that follows the keyword at the start of a line
   * (after optional white space).
   */
  lemma ClientMatchShape(text: String, keyword: String, p: nat, g: seq<String>)
    requires p <= |text| && MatchAt(ClientPattern(keyword), text, p) == Some(g)
    ensures |g| == 1 && IsIdentStart(text[p])
    ensures p >= |keyword| + 1 && IsSpace(text[p - 1]) && OccursIC(text, keyword, p - 1 - |keyword|)
    ensures LineStartBefore(text, p - 1 - |keyword|)
  {
  }

  /** With one element per match array, the `i`-th entry is that of the `i`-th match. */
  lemma {:induction false} SingleEntries(text: String, ms: seq<Match>, detail: String, i: nat)
    requires forall k :: 0 <= k < |ms| ==> ms[k].index <= |text| && |ms[k].groups| == 1
    requires i < |ms|
    ensures var r := PassEntries(text, ms, detail);
      var lc := LineColumn(text, ms[i].index);
      |r| == |ms| && r[i] == EntryOf(ms[i].groups[0], detail, lc.0, lc.1, 1)
  {
    var front := ms[..|ms| - 1];
    if |ms| == 1 {
      assert front == [];
    } else if i < |ms| - 1 {
      SingleEntries(text, front, detail, i);
    } else {
      SingleEntries(text, front, detail, 0);
    }
  }

  /** Every match array of a client expression has one element. */
  lemma ClientGroups(text: String, keyword: String)
    ensures var ms := ExecAll(ClientPattern(keyword), text, 0);
      forall k :: 0 <= k < |ms| ==> |ms[k].groups| == 1
  {
    var ms := ExecAll(ClientPattern(keyword), text, 0);
    forall k | 0 <= k < |ms| ensures |ms[k].groups| == 1 {
      ClientMatchShape(text, keyword, ms[k].index, ms[k].groups);
    }
  }

  /**
   * One entry per definition: named by the identifier, with exactly the
   * loop's detail and the kind `resolveType` gives, at the identifier's line
   * and column, and ending one column later because the match array has one
   * element.
   */
  lemma PassEntry(text: String, keyword: String, detail: String, i: nat)
    requires i < |ExecAll(ClientPattern(keyword), text, 0)|
    ensures var ms := ExecAll(ClientPattern(keyword), text, 0);
      var r := Pass(text, keyword, detail);
      var m := ms[i];
      var lc := LineColumn(text, m.index);
      |r| == |ms| && r[i].name == m.groups[0] == text[m.index..m.End()] && r[i].detail == detail &&
      r[i].kind == RoutineType(m.groups[0]) &&
      r[i].range == r[i].selectionRange == LineRange(lc.0, lc.1, lc.1 + 1)
  {
    var ms := ExecAll(ClientPattern(keyword), text, 0);
    ClientGroups(text, keyword);
    SingleEntries(text, ms, detail, i);
    MatchText(ClientPattern(keyword), text, ms[i]);
  }

  /** The length of one loop's entries: one per definition. */
  lemma PassLength(text: String, keyword: String, detail: String)
    ensures |Pass(text, keyword, detail)| == |ExecAll(ClientPattern(keyword), text, 0)|
  {
    var ms := ExecAll(ClientPattern(keyword), text, 0);
    if |ms| > 0 {
      PassEntry(text, keyword, detail, 0);
    } else {
      assert Pass(text, keyword, detail) == [];
    }
  }

  /** Every entry of one loop has exactly that loop's detail. */
  lemma {:induction false} PassDetails(text: String, ms: seq<Match>, detail: String)
    requires forall k :: 0 <= k < |ms| ==> ms[k].index <= |text|
    ensures forall i :: 0 <= i < |PassEntries(text, ms, detail)| ==> PassEntries(text, ms, detail)[i].detail == detail
  {
    if |ms| > 0 {
      var front := PassEntries(text, ms[..|ms| - 1], detail);
      var last := MatchEntries(text, ms[|ms| - 1], detail);
      PassDetails(text, ms[..|ms| - 1], detail);
      var r: seq<OutlineSymbol> := front + last;
      assert PassEntries(text, ms, detail) == r;
      forall i | 0 <= i < |r| ensures r[i].detail == detail {
        if i < |front| {
          assert r[i] == front[i];
        } else {
          assert r[i] == last[i - |front|];
        }
      }
    }
  }

  /** Every function entry comes before every procedure entry, and the details are exactly `Function` and `Procedure`. */
  lemma FunctionsFirst(text: String)
    ensures var nf := |ExecAll(ClientPattern("function"), text, 0)|;
      var r := ClientOutline(text);
      |r| == nf + |ExecAll(ClientPattern("pro"), text, 0)| &&
      (forall i :: 0 <= i < nf ==> r[i].detail == "Function") &&
      (forall i :: nf <= i < |r| ==> r[i].detail == "Procedure")
  {
    var fs := ExecAll(ClientPattern("function"), text, 0);
    var ps := ExecAll(ClientPattern("pro"), text, 0);
    var functions := Pass(text, "function", "Function");
    var procedures := Pass(text, "pro", "Procedure");
    PassLength(text, "function", "Function");
    PassLength(text, "pro", "Procedure");
    PassDetails(text, fs, "Function");
    PassDetails(text, ps, "Procedure");
    assert functions == PassEntries(text, fs, "Function") && procedures == PassEntries(text, ps, "Procedure");
    JoinedDetails(functions, procedures, "Function", "Procedure");
  }

  /** Two runs of entries with one detail each keep their details once joined. */
  lemma JoinedDetails(front: seq<OutlineSymbol>, back: seq<OutlineSymbol>, a: String, b: String)
    requires forall i :: 0 <= i < |front| ==> front[i].detail == a
    requires forall i :: 0 <= i < |back| ==> back[i].detail == b
    ensures var r := front + back;
      (forall i :: 0 <= i < |front| ==> r[i].detail == a) &&
      (forall i :: |front| <= i < |r| ==> r[i].detail == b)
  {
    var r := front + back;
    forall i | |front| <= i < |r| ensures r[i].detail == b {
      assert r[i] == back[i - |front|];
    }
  }
}
