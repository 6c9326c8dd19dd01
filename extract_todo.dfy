/**
 * `extractToDo`: every line of the form `  ;  TODO: …` becomes an
 * information diagnostic covering the text from `TODO` to the end of the line.
 */
module ExtractTodo {
  import opened Text
  import opened Lsp
  import opened Regex

  /** `m` is a match of the TODO expression in `text`. */
  predicate IsTodoMatch(text: String, m: Match)
  {
    m.index <= |text| && MatchAt(Todo, text, m.index) == Some(m.groups)
  }

  /** The diagnostic built for one match: group 1 is the `␠*;␠*` prefix, group 2 the message. */
  function TodoDiagnostic(text: String, m: Match): Diagnostic
    requires IsTodoMatch(text, m)
  {
    assert |m.groups| == 3;
    var (line, col) := LineColumn(text, m.index);
    var add := |m.groups[1]|;
    Diagnostic(Information, LineRange(line, col + add, col + |m.groups[2]| + add), m.groups[2], None)
  }

  /** The diagnostics of the matches `ms`, in order. */
  function Diagnostics(text: String, ms: seq<Match>): (r: seq<Diagnostic>)
    requires forall i :: 0 <= i < |ms| ==> IsTodoMatch(text, ms[i])
    ensures |r| == |ms|
  {
    if |ms| == 0 then [] else Diagnostics(text, ms[..|ms| - 1]) + [TodoDiagnostic(text, ms[|ms| - 1])]
  }

  /** The diagnostics of `text`: one per match of the TODO expression, in text order. */
  function Todos(text: String): (r: seq<Diagnostic>)
    ensures |r| == |ExecAll(Todo, text, 0)|
  {
    Diagnostics(text, ExecAll(Todo, text, 0))
  }

  /** `extractToDo`: the `exec` loop of the source, pushing one diagnostic per match. */
  method ExtractToDo(text: String) returns (todos: seq<Diagnostic>)
    ensures todos == Todos(text)
  {
    todos := [];
    var lastIndex: nat := 0;
    ghost var done: seq<Match> := [];
    var m := NextMatch(Todo, text, lastIndex);
    while m.Some?
      invariant m == NextMatch(Todo, text, lastIndex)
      invariant ExecAll(Todo, text, 0) == done + ExecAll(Todo, text, lastIndex)
      invariant forall i :: 0 <= i < |done| ==> IsTodoMatch(text, done[i])
      invariant todos == Diagnostics(text, done)
      decreases |text| + 1 - lastIndex
    {
      var mv := m.value;
      ExecAdvance(Todo, text, done, lastIndex);
      todos := todos + [TodoDiagnostic(text, mv)];
      assert (done + [mv])[..|done|] == done;
      done := done + [mv];
      lastIndex := mv.End();
      m := NextMatch(Todo, text, lastIndex);
    }
    ExecDone(Todo, text, done, lastIndex);
  }

  /** The `i`-th diagnostic is the one built for the `i`-th match. */
  lemma {:induction false} DiagnosticAt(text: String, ms: seq<Match>, i: nat)
    requires forall k :: 0 <= k < |ms| ==> IsTodoMatch(text, ms[k])
    requires i < |ms|
    ensures Diagnostics(text, ms)[i] == TodoDiagnostic(text, ms[i])
  {
    var init := ms[..|ms| - 1];
    var prev := Diagnostics(text, init);
    var last := TodoDiagnostic(text, ms[|ms| - 1]);
    assert Diagnostics(text, ms) == prev + [last];
    if i < |ms| - 1 {
      DiagnosticAt(text, init, i);
      assert init[i] == ms[i];
      assert (prev + [last])[i] == prev[i];
    }
  }

  /**
   * The line starting at `p` reads `␠*;␠*TODO:…`: blanks, the `;` at `a`,
   * blanks, then from `b` a case-insensitive `TODO:` and the rest of the line
   * up to its end `e`.
   */
  predicate TodoLine(text: String, p: nat, a: nat, b: nat, e: nat)
  {
    p <= a < b && b + 4 < e <= |text| && IsLineStart(text, p) &&
    (forall k :: p <= k < a ==> text[k] == ' ') && text[a] == ';' &&
    (forall k :: a < k < b ==> text[k] == ' ') &&
    OccursIC(text, "todo", b) && text[b + 4] == ':' &&
    (forall k :: b <= k < e ==> !IsLineTerminator(text[k])) &&
    (e == |text| || IsLineTerminator(text[e]))
  }

  /** A greedy run ends exactly where the class stops. */
  lemma RunEndAt(cls: CharClass, text: String, p: nat, r: nat)
    requires p <= r <= |text|
    requires forall k :: p <= k < r ==> cls.Has(text[k])
    requires r == |text| || !cls.Has(text[r])
    ensures RunEnd(cls, text, p) == r
  {
  }

  /** A match of the TODO expression at `p` sits on a line of the TODO shape. */
  lemma TodoMatchLine(text: String, p: nat)
    requires p <= |text| && MatchAt(Todo, text, p).Some?
    ensures exists a: nat, b: nat, e: nat ::
              TodoLine(text, p, a, b, e) && MatchAt(Todo, text, p) == Some([text[p..e], text[p..b], text[b..e]])
  {
    var a := RunEnd(Blanks, text, p);
    var b := RunEnd(Blanks, text, a + 1);
    var e := RunEnd(LineChars, text, b);
    assert MatchAt(Todo, text, p) == Some([text[p..e], text[p..b], text[b..e]]);
    assert OccursIC(text, "todo", b) && text[b + 4] == ':';
    assert b + 4 < e;
    assert TodoLine(text, p, a, b, e);
  }

  /** Conversely, every line of the TODO shape is matched, with the prefix and message groups it delimits. */
  lemma TodoLineMatch(text: String, p: nat, a: nat, b: nat, e: nat)
    requires TodoLine(text, p, a, b, e)
    ensures MatchAt(Todo, text, p) == Some([text[p..e], text[p..b], text[b..e]])
  {
    TodoLineAt(text, p, a, b, e);
  }

  /** The TODO expression at the start of a TODO line stops at its prefix and at the end of the line. */
  lemma TodoLineAt(text: String, p: nat, a: nat, b: nat, e: nat)
    requires TodoLine(text, p, a, b, e)
    ensures TodoAt(text, p) == Some([text[p..e], text[p..b], text[b..e]])
  {
    forall k | p <= k < a ensures Blanks.Has(text[k]) {
      assert text[k] == ' ';
    }
    assert !Blanks.Has(text[a]);
    RunEndAt(Blanks, text, p, a);
    forall k | a + 1 <= k < b ensures Blanks.Has(text[k]) {
      assert text[k] == ' ';
    }
    assert OccursIC(text, "todo", b);
    assert !Blanks.Has(text[b]);
    RunEndAt(Blanks, text, a + 1, b);
    RunEndAt(LineChars, text, b, e);
  }

  /**
   * The diagnostic of a match: its message is the line from `TODO:` to the
   * end, and its range starts after the `␠*;␠*` prefix and is as long as the message.
   */
  lemma TodoShape(text: String, m: Match)
    requires IsTodoMatch(text, m)
    ensures var d := TodoDiagnostic(text, m);
            var (line, col) := LineColumn(text, m.index);
            d.severity == Information && d.severity.Code() == 3 && d.source == None &&
            exists a: nat, b: nat, e: nat :: TodoLine(text, m.index, a, b, e) &&
              d.message == text[b..e] &&
              d.range == LineRange(line, col + (b - m.index), col + (e - m.index))
  {
    TodoMatchLine(text, m.index);
  }

  /** A TODO line ends before the next line starts. */
  lemma TodoLineEnds(text: String, q: nat, a: nat, b: nat, e: nat, p: nat)
    requires TodoLine(text, q, a, b, e) && q < p <= |text| && IsLineStart(text, p)
    ensures e < p
  {
    assert IsLineTerminator(text[p - 1]);
  }

  /** A TODO line is found wherever it stands: the loop cannot skip over it. */
  lemma {:induction false} TodoFound(text: String, from: nat, p: nat)
    requires from <= p <= |text| && MatchAt(Todo, text, p).Some?
    ensures exists i :: 0 <= i < |ExecAll(Todo, text, from)| && ExecAll(Todo, text, from)[i].index == p
    decreases |text| + 1 - from
  {
    ExecStep(Todo, text, from);
    var m := NextMatch(Todo, text, from).value;
    var all := ExecAll(Todo, text, from);
    assert all[0] == m;
    if m.index != p {
      TodoMatchLine(text, m.index);
      var a: nat, b: nat, e: nat :| TodoLine(text, m.index, a, b, e) && m.groups[0] == text[m.index..e];
      TodoMatchLine(text, p);
      var a': nat, b': nat, e': nat :| TodoLine(text, p, a', b', e');
      TodoLineEnds(text, m.index, a, b, e, p);
      TodoFound(text, m.End(), p);
      var j :| 0 <= j < |ExecAll(Todo, text, m.End())| && ExecAll(Todo, text, m.End())[j].index == p;
      assert all[j + 1].index == p;
    }
  }

  /** The case from the source's own test: `; TODO: something` gives one diagnostic, (0,2)–(0,17), severity 3. */
  lemma TodoExample()
    ensures Todos("; TODO: something") ==
      [Diagnostic(Information, LineRange(0, 2, 17), "TODO: something", None)]
  {
    var text := "; TODO: something";
    var m := Match(0, ["; TODO: something", "; ", "TODO: something"]);
    TodoExampleMatches();
    assert Split(text[..0], "\n") == [""] by {
      assert IndexOf(text[..0], "\n", 0) == -1;
    }
    assert TodoDiagnostic(text, m) == Diagnostic(Information, LineRange(0, 2, 17), "TODO: something", None);
    assert Diagnostics(text, [m]) == [TodoDiagnostic(text, m)];
  }

  /** The TODO expression matches `; TODO: something` once, as a whole, with `; ` before the comment text. */
  lemma TodoExampleMatches()
    ensures ExecAll(Todo, "; TODO: something", 0) == [Match(0, ["; TODO: something", "; ", "TODO: something"])]
    ensures IsTodoMatch("; TODO: something", Match(0, ["; TODO: something", "; ", "TODO: something"]))
  {
    var text := "; TODO: something";
    assert LowerStr(text[2..6]) == "todo";
    assert TodoLine(text, 0, 0, 2, 17);
    TodoLineMatch(text, 0, 0, 2, 17);
    assert text[0..17] == "; TODO: something" && text[0..2] == "; " && text[2..17] == "TODO: something";
    var m := Match(0, [text[0..17], text[0..2], text[2..17]]);
    assert NextMatch(Todo, text, 0) == Some(m);
    assert NextMatch(Todo, text, 17) == None by {
      assert MatchAt(Todo, text, 17).None?;
    }
    ExecStep(Todo, text, 0);
    ExecStep(Todo, text, 17);
  }
}
